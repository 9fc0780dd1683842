/**
 * text_to_sql_with_retry: up to k attempts of completion, SQL extraction and
 * execution over a conversation that is appended to in place; each failed
 * attempt adds the last assistant reply and a correction message.
 *
 * The language-model completion, the SQL extractor, the database, the
 * schema-text provider, the few-shot examples and the prompt templates are
 * parameters: functions whose behaviour the model does not fix.
 */
module RetryOrchestrator {
  import opened Wrappers
  import opened Errors
  import opened ReadOnlyGuard
  import opened QueryExecutor

  datatype Role = System | User | Assistant

  datatype Message = Message(role: Role, content: string)

  /** What get_assistant_message yields: the reply's content, or the exception's text. */
  datatype Completion = Reply(content: string) | CompletionFailed(message: string)

  /** What extract_sql_query_from_message yields. */
  datatype Extraction = Extracted(sql: string) | NotExtracted(message: string)

  /**
   * The collaborators one attempt talks to. `complete(n, conv)` is the reply
   * to the n-th attempt (counting from 0) given the conversation so far;
   * `correction(text)` is MSG_WITH_ERROR_TRY_AGAIN formatted with the error text.
   */
  datatype Services = Services(
    complete: (nat, seq<Message>) -> Completion,
    extract: string -> Extraction,
    db: string -> DbOutcome,
    correction: string -> string)

  /** The collaborators that build a fresh conversation. */
  datatype Prompting = Prompting(
    fewShot: seq<Message>,                // get_few_shot_messages(mode="text_to_sql")
    schemaOf: seq<string> -> string,       // get_table_schemas_str
    instruction: (string, string) -> string) // make_msg_with_schema_and_warnings().format(query, schemas)

  /** The database keeps the driver's contract for every statement. */
  ghost predicate WellFormed(s: Services) {
    forall sql :: RowsAligned(s.db(sql))
  }

  /** Python's default for k. */
  const DefaultAttempts := 3

  /** The TypeError raised by `assistant_message["message"]` while assistant_message is still None. */
  const NoneNotSubscriptable := "'NoneType' object is not subscriptable"

  /** How one attempt ends: with a result, or with an error and the reply it got (None when the completion raised). */
  datatype Step = Done(result: QueryResult, sql: string) | Retry(reply: Option<string>, error: Error)

  /** How the whole call ends: `(result, sql)`, `(None, None)`, or an exception escaping the handler. */
  datatype Outcome = Answered(result: QueryResult, sql: string) | Exhausted | Raised(message: string)

  /** The outcome, the conversation at the end and the number of completion calls made. */
  datatype Trace = Trace(outcome: Outcome, conversation: seq<Message>, calls: nat)

  // ---------------------------------------------------------------------------
  // Specification

  /** The conversation built when none is supplied: the few-shot messages, then the instruction. */
  function InitialConversation(query: string, tables: seq<string>, p: Prompting): (c: seq<Message>)
    ensures p.fewShot <= c && |c| == |p.fewShot| + 1 && c[|c| - 1].role == User
  {
    p.fewShot + [Message(User, p.instruction(query, p.schemaOf(tables)))]
  }

  /**
   * The body of the `try`: completion, extraction, execute_sql. The reply is
   * kept exactly when the completion answered; the attempt succeeds exactly
   * when every stage does; otherwise the error is that of the first stage
   * that failed.
   */
  function Attempt(s: Services, n: nat, conv: seq<Message>): (r: Step)
    requires WellFormed(s)
    ensures r.Retry? ==> (r.reply.Some? <==> s.complete(n, conv).Reply?)
    ensures r.Retry? && r.reply.Some? ==> r.reply.value == s.complete(n, conv).content
    ensures s.complete(n, conv).CompletionFailed? ==>
              r == Retry(None, CompletionError(s.complete(n, conv).message))
    ensures var o := s.complete(n, conv);
            o.Reply? && s.extract(o.content).NotExtracted? ==>
              r == Retry(Some(o.content), ExtractionError(s.extract(o.content).message))
    ensures var o := s.complete(n, conv);
            o.Reply? && s.extract(o.content).Extracted? ==>
              var sql := s.extract(o.content).sql;
              (r.Done? <==> IsReadOnlyQuery(sql) && s.db(sql).DbRows?)
              && (!IsReadOnlyQuery(sql) ==> r == Retry(Some(o.content), NotReadOnly))
              && (IsReadOnlyQuery(sql) && s.db(sql).DbError? ==>
                    r == Retry(Some(o.content), ExecutionError(s.db(sql).message)))
              && (r.Done? ==> r.sql == sql && r.result == Shape(s.db(sql).columns, s.db(sql).rows))
    ensures r.Done? ==> s.complete(n, conv).Reply? && s.extract(s.complete(n, conv).content).Extracted?
  {
    match s.complete(n, conv)
    case CompletionFailed(m) => Retry(None, CompletionError(m))
    case Reply(c) =>
      match s.extract(c)
      case NotExtracted(m) => Retry(Some(c), ExtractionError(m))
      case Extracted(sql) =>
        match Execute(sql, s.db)
        case Success(r) => Done(r, sql)
        case Failure(e) => Retry(Some(c), e)
  }

  /**
   * The retry loop's view of its collaborators: how attempt n ends over a
   * given conversation, and the correction template.
   */
  datatype Loop = Loop(attempt: (nat, seq<Message>) -> Step, correction: string -> string)

  function LoopOf(s: Services): (l: Loop)
    requires WellFormed(s)
    ensures forall n: nat, conv :: l.attempt(n, conv) == Attempt(s, n, conv)
    ensures l.correction == s.correction
  {
    Loop((n: nat, conv: seq<Message>) => Attempt(s, n, conv), s.correction)
  }

  /** The two messages the handler appends: the latest reply, then the formatted error. */
  function CorrectionTurn(l: Loop, reply: string, e: Error): seq<Message> {
    [Message(Assistant, reply), Message(User, l.correction(Text(e)))]
  }

  /**
   * Attempts n, n + 1, ..., k - 1 over conversation `conv`, where `last` is
   * the latest successful reply so far.
   */
  function Run(l: Loop, k: nat, n: nat, conv: seq<Message>, last: Option<string>): (t: Trace)
    requires n <= k
    decreases k - n
    ensures conv <= t.conversation
    ensures t.calls <= k - n
    ensures n < k ==> 1 <= t.calls
    ensures t.outcome.Exhausted? ==> t.calls == k - n && |t.conversation| == |conv| + 2 * (k - n)
    ensures t.outcome.Answered? ==> |t.conversation| == |conv| + 2 * (t.calls - 1)
    ensures t.outcome.Raised? ==> last.None? && t.calls == 1 && t.conversation == conv
  {
    if n == k then Trace(Exhausted, conv, 0)
    else
      match l.attempt(n, conv)
      case Done(r, sql) => Trace(Answered(r, sql), conv, 1)
      case Retry(reply, e) =>
        var latest := if reply.Some? then reply else last;
        if latest.None? then Trace(Raised(NoneNotSubscriptable), conv, 1)
        else
          var t := Run(l, k, n + 1, conv + CorrectionTurn(l, latest.value, e), latest);
          Trace(t.outcome, t.conversation, t.calls + 1)
  }

  // ---------------------------------------------------------------------------
  // The caller's list, mutated in place

  /** A Python list of messages, shared with the caller. */
  class MessageList {
    var items: seq<Message>

    constructor (items: seq<Message>)
      ensures this.items == items
    {
      this.items := items;
    }

    /** `list.append` */
    method Append(m: Message)
      modifies this
      ensures items == old(items) + [m]
    {
      items := items + [m];
    }
  }

  /** make_default_messages: a new list holding the few-shot examples; the schema text is not used. */
  method MakeDefaultMessages(schemasStr: string, fewShot: seq<Message>) returns (l: MessageList)
    ensures fresh(l) && l.items == fewShot
  {
    l := new MessageList([]);
    l.items := l.items + fewShot;
    assert [] + fewShot == fewShot;
  }

  /**
   * The body of the `try`: one completion call, the extraction of its SQL and
   * execute_sql on it.
   */
  method TryAttempt(s: Services, n: nat, conv: seq<Message>) returns (step: Step)
    requires WellFormed(s)
    ensures step == Attempt(s, n, conv)
  {
    match s.complete(n, conv) {
      case CompletionFailed(m) =>
        step := Retry(None, CompletionError(m));
      case Reply(c) =>
        match s.extract(c) {
          case NotExtracted(m) =>
            step := Retry(Some(c), ExtractionError(m));
          case Extracted(sql) =>
            var r, _ := ExecuteSql(sql, s.db);
            match r {
              case Success(v) =>
                step := Done(v, sql);
              case Failure(e) =>
                step := Retry(Some(c), e);
            }
        }
    }
  }

  /**
   * text_to_sql_with_retry. A missing or empty `messages` is replaced by a new
   * list (the caller's empty list is left alone); a non-empty one is appended
   * to in place. Returns the outcome, the list the attempts used and the
   * number of completion calls.
   */
  method TextToSqlWithRetry(query: string, tables: seq<string>, k: int := DefaultAttempts, messages: MessageList?,
                            p: Prompting, s: Services)
    returns (outcome: Outcome, conv: MessageList, calls: nat)
    requires WellFormed(s)
    modifies messages
    ensures messages != null && old(messages.items) != [] ==> conv == messages
    ensures messages == null || old(messages.items) == [] ==>
              fresh(conv) && (messages != null ==> messages.items == [])
    ensures var start := if messages == null || old(messages.items) == [] then InitialConversation(query, tables, p)
                         else old(messages.items);
            Trace(outcome, conv.items, calls) == Run(LoopOf(s), if k < 0 then 0 else k, 0, start, None)
  {
    if messages == null || messages.items == [] {
      var schemasStr := p.schemaOf(tables);
      var content := p.instruction(query, schemasStr);
      conv := MakeDefaultMessages(schemasStr, p.fewShot);
      conv.Append(Message(User, content));
    } else {
      conv := messages;
    }
    outcome, calls := RetryLoop(conv, if k < 0 then 0 else k, s);
  }

  /**
   * The `for` loop of text_to_sql_with_retry over the conversation `conv`,
   * which it appends to in place.
   */
  method RetryLoop(conv: MessageList, attempts: nat, s: Services) returns (outcome: Outcome, calls: nat)
    requires WellFormed(s)
    modifies conv
    ensures Trace(outcome, conv.items, calls) == Run(LoopOf(s), attempts, 0, old(conv.items), None)
  {
    ghost var start := conv.items;
    ghost var l := LoopOf(s);
    var last: Option<string> := None;
    var n := 0;
    calls := 0;
    while n < attempts
      invariant 0 <= n <= attempts && calls == n
      decreases attempts - n
      invariant var t0 := Run(l, attempts, 0, start, None);
                var t := Run(l, attempts, n, conv.items, last);
                t0.outcome == t.outcome && t0.conversation == t.conversation && t0.calls == n + t.calls
      invariant n > 0 ==> last.Some?
    {
      ghost var before, lastBefore := conv.items, last;
      calls := calls + 1;
      var step := TryAttempt(s, n, conv.items);
      if step.Retry? && step.reply.Some? {
        last := step.reply;
      }
      if step.Done? {
        return Answered(step.result, step.sql), calls;
      }
      if last.None? {
        return Raised(NoneNotSubscriptable), calls;
      }
      conv.Append(Message(Assistant, last.value));
      conv.Append(Message(User, s.correction(Text(step.error))));
      assert conv.items == before + CorrectionTurn(l, last.value, step.error);
      RunAfterRetry(l, attempts, n, before, lastBefore, last.value);
      n := n + 1;
    }
    return Exhausted, calls;
  }

  // ---------------------------------------------------------------------------
  // Properties of the retry loop, for any way an attempt may end

  /** A failed attempt with a reply to show appends one correction turn and goes on with the next attempt. */
  lemma RunAfterRetry(l: Loop, k: nat, n: nat, conv: seq<Message>, last: Option<string>, latest: string)
    requires n < k && l.attempt(n, conv).Retry?
    requires Some(latest) == if l.attempt(n, conv).reply.Some? then l.attempt(n, conv).reply else last
    ensures var t := Run(l, k, n + 1, conv + CorrectionTurn(l, latest, l.attempt(n, conv).error), Some(latest));
            Run(l, k, n, conv, last) == Trace(t.outcome, t.conversation, t.calls + 1)
  {
  }

  /** With no attempts allowed nothing is called and nothing is appended: the result is (None, None). */
  lemma NoAttempts(l: Loop, conv: seq<Message>)
    ensures Run(l, 0, 0, conv, None) == Trace(Exhausted, conv, 0)
  {
  }

  /**
   * An answer always comes from the attempt that saw the final conversation:
   * the (result, sql) returned is exactly what that attempt produced.
   */
  lemma {:induction false} AnswerComesFromLastAttempt(l: Loop, k: nat, n: nat, conv: seq<Message>, last: Option<string>)
    requires n <= k
    decreases k - n
    ensures var t := Run(l, k, n, conv, last);
            t.outcome.Answered? ==>
              n + t.calls - 1 < k &&
              l.attempt(n + t.calls - 1, t.conversation) == Done(t.outcome.result, t.outcome.sql)
  {
    if n < k {
      var step := l.attempt(n, conv);
      if step.Retry? {
        var latest := if step.reply.Some? then step.reply else last;
        if latest.Some? {
          RunAfterRetry(l, k, n, conv, last, latest.value);
          AnswerComesFromLastAttempt(l, k, n + 1, conv + CorrectionTurn(l, latest.value, step.error), latest);
        }
      }
    }
  }

  /**
   * What the loop appends is a sequence of correction turns: at even offsets
   * an assistant message, at odd offsets a user message holding a formatted
   * error text.
   */
  lemma {:induction false} AppendsCorrectionTurns(l: Loop, k: nat, n: nat, conv: seq<Message>, last: Option<string>)
    requires n <= k
    decreases k - n
    ensures var t := Run(l, k, n, conv, last);
            forall i :: |conv| <= i < |t.conversation| ==>
              if (i - |conv|) % 2 == 0 then t.conversation[i].role == Assistant
              else t.conversation[i].role == User && exists e :: t.conversation[i].content == l.correction(Text(e))
  {
    if n < k {
      var step := l.attempt(n, conv);
      if step.Retry? {
        var latest := if step.reply.Some? then step.reply else last;
        if latest.Some? {
          var e := step.error;
          var conv' := conv + CorrectionTurn(l, latest.value, e);
          RunAfterRetry(l, k, n, conv, last, latest.value);
          AppendsCorrectionTurns(l, k, n + 1, conv', latest);
          var t := Run(l, k, n + 1, conv', latest);
          forall i | |conv| <= i < |t.conversation|
            ensures if (i - |conv|) % 2 == 0 then t.conversation[i].role == Assistant
                    else t.conversation[i].role == User && exists e :: t.conversation[i].content == l.correction(Text(e))
          {
            if i == |conv| {
              assert t.conversation[i] == conv'[i] == Message(Assistant, latest.value);
            } else if i == |conv| + 1 {
              assert t.conversation[i] == conv'[i] == Message(User, l.correction(Text(e)));
            } else {
              assert (i - |conv|) % 2 == (i - |conv'|) % 2;
            }
          }
        }
      }
    }
  }

  /**
   * Attempts that all fail with the same error, each after a reply, use up
   * every attempt: the result is (None, None), and every correction quotes
   * that error.
   */
  lemma {:induction false} RepeatedFailureExhausts(l: Loop, k: nat, n: nat, conv: seq<Message>, last: Option<string>, e: Error)
    requires n <= k
    requires forall m: nat, c :: l.attempt(m, c).Retry? && l.attempt(m, c).reply.Some? && l.attempt(m, c).error == e
    decreases k - n
    ensures var t := Run(l, k, n, conv, last);
            t.outcome == Exhausted && t.calls == k - n && |t.conversation| == |conv| + 2 * (k - n)
            && forall i :: |conv| <= i < |t.conversation| && (i - |conv|) % 2 == 1 ==>
                 t.conversation[i] == Message(User, l.correction(Text(e)))
  {
    if n < k {
      var c := l.attempt(n, conv).reply.value;
      var conv' := conv + CorrectionTurn(l, c, e);
      RunAfterRetry(l, k, n, conv, last, c);
      RepeatedFailureExhausts(l, k, n + 1, conv', Some(c), e);
      var t := Run(l, k, n + 1, conv', Some(c));
      forall i | |conv| <= i < |t.conversation| && (i - |conv|) % 2 == 1
        ensures t.conversation[i] == Message(User, l.correction(Text(e)))
      {
        if i == |conv| + 1 {
          assert t.conversation[i] == conv'[i];
        } else {
          assert (i - |conv|) % 2 == (i - |conv'|) % 2;
        }
      }
    }
  }

  // ---------------------------------------------------------------------------
  // Properties of text_to_sql_with_retry's own attempts

  /** The first attempt whose extraction and execution succeed ends the loop with its result and its SQL. */
  lemma FirstSuccessReturns(s: Services, k: nat, n: nat, conv: seq<Message>, last: Option<string>)
    requires WellFormed(s) && n < k && Attempt(s, n, conv).Done?
    ensures Run(LoopOf(s), k, n, conv, last) ==
            Trace(Answered(Attempt(s, n, conv).result, Attempt(s, n, conv).sql), conv, 1)
  {
  }

  /** If the first completion raises, the handler's TypeError escapes: one call, nothing appended. */
  lemma FirstCompletionFailureRaises(s: Services, k: nat, conv: seq<Message>)
    requires WellFormed(s) && 0 < k && s.complete(0, conv).CompletionFailed?
    ensures Run(LoopOf(s), k, 0, conv, None) == Trace(Raised(NoneNotSubscriptable), conv, 1)
  {
  }

  /** A later completion failure re-appends the previous reply, followed by the completion error. */
  lemma LaterCompletionFailureReusesReply(s: Services, k: nat, n: nat, conv: seq<Message>, c: string)
    requires WellFormed(s) && n < k && s.complete(n, conv).CompletionFailed?
    ensures var t := Run(LoopOf(s), k, n, conv, Some(c));
            |conv| + 2 <= |t.conversation|
            && t.conversation[|conv|] == Message(Assistant, c)
            && t.conversation[|conv| + 1] == Message(User, s.correction(s.complete(n, conv).message))
  {
    var l := LoopOf(s);
    var e := CompletionError(s.complete(n, conv).message);
    assert l.attempt(n, conv) == Retry(None, e);
    RunAfterRetry(l, k, n, conv, Some(c), c);
    var conv' := conv + CorrectionTurn(l, c, e);
    assert Run(l, k, n, conv, Some(c)).conversation == Run(l, k, n + 1, conv', Some(c)).conversation;
  }

  /** An attempt whose reply yields mutating SQL keeps the reply and reports the guard's error. */
  lemma MutatingAttemptFails(s: Services, n: nat, conv: seq<Message>)
    requires WellFormed(s)
    requires s.complete(n, conv).Reply?
    requires s.extract(s.complete(n, conv).content).Extracted?
    requires !IsReadOnlyQuery(s.extract(s.complete(n, conv).content).sql)
    ensures Attempt(s, n, conv) == Retry(Some(s.complete(n, conv).content), NotReadOnly)
  {
    var sql := s.extract(s.complete(n, conv).content).sql;
    assert Execute(sql, s.db) == Failure(NotReadOnly);
  }

  /**
   * A service whose completions always answer and whose every extracted
   * statement is mutating never gets an answer: after k completion calls the
   * result is (None, None) and the conversation has grown by 2k, every
   * correction quoting the not-read-only error.
   */
  lemma MutatingSqlExhausts(s: Services, k: nat, conv: seq<Message>)
    requires WellFormed(s)
    requires forall m: nat, c :: s.complete(m, c).Reply?
    requires forall r :: s.extract(r).Extracted? && !IsReadOnlyQuery(s.extract(r).sql)
    ensures var t := Run(LoopOf(s), k, 0, conv, None);
            t.outcome == Exhausted && t.calls == k && |t.conversation| == |conv| + 2 * k
            && forall i :: |conv| <= i < |t.conversation| && (i - |conv|) % 2 == 1 ==>
                 t.conversation[i] == Message(User, s.correction(NotReadOnlyMessage))
  {
    var l := LoopOf(s);
    forall m: nat, c | true
      ensures l.attempt(m, c).Retry? && l.attempt(m, c).reply.Some? && l.attempt(m, c).error == NotReadOnly
    {
      MutatingAttemptFails(s, m, c);
    }
    RepeatedFailureExhausts(l, k, 0, conv, None, NotReadOnly);
    assert Text(NotReadOnly) == NotReadOnlyMessage;
  }
}
