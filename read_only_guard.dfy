/**
 * The read-only guard: a lexical classifier that rejects a SQL string when,
 * ignoring case, it contains a whole-word occurrence of a data-modifying
 * statement keyword.
 *
 * The source compiles the alternation
 *   \bINSERT\b | \bUPDATE\b | \bDELETE\b | \bDROP\b | \bCREATE\b | \bALTER\b |
 *   \bGRANT\b | \bTRUNCATE\b | \bLOCK\s+TABLES\b | \bUNLOCK\s+TABLES\b
 * with IGNORECASE and rejects the query when a search finds any match.
 * `\w`, `\s` and case folding are modelled over ASCII.
 */
module ReadOnlyGuard {

  /** `\w` over ASCII: letters, digits and the underscore. */
  predicate IsWordChar(c: char) {
    'a' <= c <= 'z' || 'A' <= c <= 'Z' || '0' <= c <= '9' || c == '_'
  }

  /** `\s` over ASCII: space, tab, line feed, vertical tab, form feed, carriage return. */
  predicate IsSpace(c: char) {
    c == ' ' || '\t' <= c <= '\r'
  }

  /** ASCII case folding, used for IGNORECASE. */
  function Upper(c: char): char {
    if 'a' <= c <= 'z' then (c as int - 32) as char else c
  }

  function UpperStr(s: string): (u: string)
    ensures |u| == |s|
    ensures forall k :: 0 <= k < |s| ==> u[k] == Upper(s[k])
  {
    seq(|s|, k requires 0 <= k < |s| => Upper(s[k]))
  }

  /** The single-word alternatives of the denylist. */
  const Keywords: seq<string> :=
    ["INSERT", "UPDATE", "DELETE", "DROP", "CREATE", "ALTER", "GRANT", "TRUNCATE"]

  const TablesWord: string := "TABLES"

  /** `u` is `head`, one or more whitespace characters, then TABLES. */
  predicate IsLockPhrase(u: string, head: string) {
    |head| + |TablesWord| < |u|
    && u[..|head|] == head
    && u[|u| - |TablesWord|..] == TablesWord
    && forall k :: |head| <= k < |u| - |TablesWord| ==> IsSpace(u[k])
  }

  /** An upper-cased text matched by one of the ten alternatives (without the `\b`s). */
  predicate IsModifyingPhrase(u: string) {
    u in Keywords || IsLockPhrase(u, "LOCK") || IsLockPhrase(u, "UNLOCK")
  }

  predicate IsWordAt(q: string, p: int) {
    0 <= p < |q| && IsWordChar(q[p])
  }

  /** `\b` at position `p`: a word character on exactly one side (the string's ends count as non-word). */
  predicate WordBoundary(q: string, p: int) {
    IsWordAt(q, p - 1) != IsWordAt(q, p)
  }

  /** The slice q[i..j] is a match of the whole pattern. */
  predicate MatchesSpan(q: string, i: int, j: int) {
    0 <= i <= j <= |q|
    && WordBoundary(q, i) && WordBoundary(q, j)
    && IsModifyingPhrase(UpperStr(q[i..j]))
  }

  /** A regular-expression search over `q` would find a match. */
  ghost predicate ContainsModifyingStatement(q: string) {
    exists i, j :: MatchesSpan(q, i, j)
  }

  // ---------------------------------------------------------------------------
  // The search, position by position

  /** The end of the run of whitespace starting at `p`. */
  function SpaceRunEnd(q: string, p: nat): (e: nat)
    requires p <= |q|
    decreases |q| - p
    ensures p <= e <= |q|
    ensures forall k :: p <= k < e ==> IsSpace(q[k])
    ensures e == |q| || !IsSpace(q[e])
  {
    if p < |q| && IsSpace(q[p]) then SpaceRunEnd(q, p + 1) else p
  }

  predicate KeywordAt(q: string, i: nat, w: string)
    requires i <= |q|
  {
    i + |w| <= |q| && UpperStr(q[i..i + |w|]) == w && WordBoundary(q, i + |w|)
  }

  /** `head\s+TABLES\b` at `i`; `\s+` can only stop where the whitespace run ends, since TABLES starts with a letter. */
  predicate LockTablesAt(q: string, i: nat, head: string)
    requires i <= |q|
  {
    i + |head| <= |q| && UpperStr(q[i..i + |head|]) == head &&
    var e := SpaceRunEnd(q, i + |head|);
    i + |head| < e && e + |TablesWord| <= |q|
    && UpperStr(q[e..e + |TablesWord|]) == TablesWord
    && WordBoundary(q, e + |TablesWord|)
  }

  /** Some alternative of the pattern matches starting at `i`. */
  predicate MatchesAt(q: string, i: nat)
    requires i <= |q|
  {
    WordBoundary(q, i)
    && ((exists w :: w in Keywords && KeywordAt(q, i, w))
        || LockTablesAt(q, i, "LOCK") || LockTablesAt(q, i, "UNLOCK"))
  }

  /** The search from position `i` on succeeds. */
  function MatchesFrom(q: string, i: nat): (b: bool)
    requires i <= |q|
    decreases |q| - i
    ensures b <==> exists i', j :: i <= i' && MatchesSpan(q, i', j)
  {
    MatchesAtSpec(q, i);
    MatchesAt(q, i) || (i < |q| && MatchesFrom(q, i + 1))
  }

  /** is_read_only_query: true exactly when the search finds no modifying statement. */
  function IsReadOnlyQuery(q: string): (r: bool)
    ensures r <==> !ContainsModifyingStatement(q)
  {
    !MatchesFrom(q, 0)
  }

  // ---------------------------------------------------------------------------
  // Facts about characters and slices

  lemma UpperKeepsClass(c: char)
    ensures IsWordChar(Upper(c)) == IsWordChar(c)
    ensures IsSpace(Upper(c)) == IsSpace(c)
  {
  }

  lemma UpperStrSlice(q: string, a: int, b: int)
    requires 0 <= a <= b <= |q|
    ensures UpperStr(q[a..b]) == UpperStr(q)[a..b]
  {
    assert forall k :: 0 <= k < b - a ==> UpperStr(q[a..b])[k] == UpperStr(q)[a..b][k];
  }

  /** Every alternative starts and ends with a letter and contains no word character it could share with a neighbour. */
  lemma PhraseShape(u: string)
    requires IsModifyingPhrase(u)
    ensures |u| > 0 && 'A' <= u[0] <= 'Z' && 'A' <= u[|u| - 1] <= 'Z'
  {
    if u !in Keywords {
      assert u[|u| - 1] == u[|u| - |TablesWord|..][|TablesWord| - 1];
    }
  }

  // ---------------------------------------------------------------------------
  // The search agrees with the match predicate

  /** A match starts at `i` exactly when the position-wise test says so. */
  lemma MatchesAtSpec(q: string, i: nat)
    requires i <= |q|
    ensures MatchesAt(q, i) <==> exists j :: MatchesSpan(q, i, j)
  {
    if MatchesAt(q, i) {
      MatchesAtSpan(q, i);
    }
    if j :| MatchesSpan(q, i, j) {
      SpanMatchesAt(q, i, j);
    }
  }

  lemma MatchesAtSpan(q: string, i: nat)
    requires i <= |q| && MatchesAt(q, i)
    ensures exists j :: MatchesSpan(q, i, j)
  {
    if w :| w in Keywords && KeywordAt(q, i, w) {
      assert MatchesSpan(q, i, i + |w|);
    } else if LockTablesAt(q, i, "LOCK") {
      var j := LockTablesSpan(q, i, "LOCK");
      assert MatchesSpan(q, i, j);
    } else {
      var j := LockTablesSpan(q, i, "UNLOCK");
      assert MatchesSpan(q, i, j);
    }
  }

  lemma SpanMatchesAt(q: string, i: nat, j: int)
    requires MatchesSpan(q, i, j)
    ensures MatchesAt(q, i)
  {
    var u := UpperStr(q[i..j]);
    if u in Keywords {
      assert KeywordAt(q, i, u);
    } else if IsLockPhrase(u, "LOCK") {
      SpanLockTables(q, i, j, "LOCK");
    } else {
      SpanLockTables(q, i, j, "UNLOCK");
    }
  }

  /** `head\s+TABLES\b` found by the search at `i` spans a lock phrase that ends on a word boundary. */
  lemma LockTablesSpan(q: string, i: nat, head: string) returns (j: int)
    requires i <= |q| && LockTablesAt(q, i, head)
    ensures i <= j <= |q| && WordBoundary(q, j) && IsLockPhrase(UpperStr(q[i..j]), head)
  {
    var p := i + |head|;
    var e := SpaceRunEnd(q, p);
    j := e + |TablesWord|;
    var u := UpperStr(q[i..j]);
    UpperStrPrefix(q, i, j, |head|);
    UpperStrSuffix(q, i, j, |TablesWord|);
    forall k | |head| <= k < |u| - |TablesWord|
      ensures IsSpace(u[k])
    {
      UpperKeepsClass(q[i + k]);
    }
  }

  /** A lock phrase ending on a word boundary is what the search finds at its start. */
  lemma SpanLockTables(q: string, i: nat, j: int, head: string)
    requires i <= j <= |q| && WordBoundary(q, j) && IsLockPhrase(UpperStr(q[i..j]), head)
    ensures LockTablesAt(q, i, head)
  {
    var u := UpperStr(q[i..j]);
    var p := i + |head|;
    var t := j - |TablesWord|;
    UpperStrPrefix(q, i, j, |head|);
    UpperStrSuffix(q, i, j, |TablesWord|);
    GapIsWhitespaceRun(q, i, j, head);
    assert UpperStr(q[i..p]) == head;
    assert UpperStr(q[t..t + |TablesWord|]) == TablesWord;
    LockTablesAtIntro(q, i, head, t);
  }

  /** The search's test at `i`, with the end of the whitespace run named. */
  lemma LockTablesAtIntro(q: string, i: nat, head: string, e: nat)
    requires i + |head| <= |q| && UpperStr(q[i..i + |head|]) == head
    requires SpaceRunEnd(q, i + |head|) == e && i + |head| < e
    requires e + |TablesWord| <= |q| && UpperStr(q[e..e + |TablesWord|]) == TablesWord
    requires WordBoundary(q, e + |TablesWord|)
    ensures LockTablesAt(q, i, head)
  {
  }

  /** Upper-casing the first `n` characters of a slice is taking the first `n` of its upper-casing. */
  lemma UpperStrPrefix(q: string, i: int, j: int, n: int)
    requires 0 <= i <= j <= |q| && 0 <= n <= j - i
    ensures UpperStr(q[i..i + n]) == UpperStr(q[i..j])[..n]
  {
    forall k | 0 <= k < n
      ensures UpperStr(q[i..i + n])[k] == UpperStr(q[i..j])[..n][k]
    {
      assert q[i..i + n][k] == q[i + k] == q[i..j][k];
    }
  }

  /** Upper-casing the last `n` characters of a slice is taking the last `n` of its upper-casing. */
  lemma UpperStrSuffix(q: string, i: int, j: int, n: int)
    requires 0 <= i <= j <= |q| && 0 <= n <= j - i
    ensures UpperStr(q[j - n..j]) == UpperStr(q[i..j])[j - i - n..]
  {
    var tail, whole := UpperStr(q[j - n..j]), UpperStr(q[i..j]);
    forall k | 0 <= k < n
      ensures tail[k] == whole[j - i - n..][k]
    {
      assert q[j - n..j][k] == q[j - n + k] == q[i..j][j - i - n + k];
    }
  }

  /** Between the head word and TABLES lies exactly one maximal whitespace run. */
  lemma GapIsWhitespaceRun(q: string, i: nat, j: int, head: string)
    requires 0 <= i <= j <= |q| && IsLockPhrase(UpperStr(q[i..j]), head)
    ensures SpaceRunEnd(q, i + |head|) == j - |TablesWord|
  {
    var u := UpperStr(q[i..j]);
    var p := i + |head|;
    var t := j - |TablesWord|;
    forall k | p <= k < t
      ensures IsSpace(q[k])
    {
      assert IsSpace(u[k - i]);
      UpperKeepsClass(q[k]);
    }
    assert !IsSpace(q[t]) by {
      assert u[t - i] == u[|u| - |TablesWord|..][0] == 'T';
      UpperKeepsClass(q[t]);
    }
    var e := SpaceRunEnd(q, p);
  }

  // ---------------------------------------------------------------------------
  // Properties of the verdict

  /** Changing the letter case of the query never changes the verdict. */
  lemma {:induction false} CaseInsensitive(q: string, q': string)
    requires UpperStr(q) == UpperStr(q')
    ensures IsReadOnlyQuery(q) == IsReadOnlyQuery(q')
  {
    forall i, j | MatchesSpan(q, i, j) ensures MatchesSpan(q', i, j) {
      SpanCaseInsensitive(q, q', i, j);
    }
    forall i, j | MatchesSpan(q', i, j) ensures MatchesSpan(q, i, j) {
      SpanCaseInsensitive(q', q, i, j);
    }
  }

  lemma SpanCaseInsensitive(q: string, q': string, i: int, j: int)
    requires UpperStr(q) == UpperStr(q') && MatchesSpan(q, i, j)
    ensures MatchesSpan(q', i, j)
  {
    assert |q| == |q'|;
    forall p | 0 <= p < |q| ensures IsWordChar(q[p]) == IsWordChar(q'[p]) {
      assert Upper(q[p]) == UpperStr(q)[p] == Upper(q'[p]);
      UpperKeepsClass(q[p]);
      UpperKeepsClass(q'[p]);
    }
    assert IsWordAt(q, i - 1) == IsWordAt(q', i - 1) && IsWordAt(q, i) == IsWordAt(q', i);
    assert IsWordAt(q, j - 1) == IsWordAt(q', j - 1) && IsWordAt(q, j) == IsWordAt(q', j);
    UpperStrSlice(q, i, j);
    UpperStrSlice(q', i, j);
  }

  /** A modifying phrase with a non-word character (or the string's edge) on both sides rejects the query. */
  lemma DelimitedPhraseRejected(pre: string, phrase: string, post: string)
    requires IsModifyingPhrase(UpperStr(phrase))
    requires pre == [] || !IsWordChar(pre[|pre| - 1])
    requires post == [] || !IsWordChar(post[0])
    ensures !IsReadOnlyQuery(pre + phrase + post)
  {
    PhraseShape(UpperStr(phrase));
    UpperKeepsClass(phrase[0]);
    UpperKeepsClass(phrase[|phrase| - 1]);
    DelimitedSpan(pre, phrase, post);
    assert MatchesSpan(pre + phrase + post, |pre|, |pre| + |phrase|);
  }

  /** A text that starts and ends with a word character, set between non-word characters, is bounded by `\b` on both sides. */
  lemma DelimitedSpan(pre: string, phrase: string, post: string)
    requires |phrase| > 0 && IsWordChar(phrase[0]) && IsWordChar(phrase[|phrase| - 1])
    requires pre == [] || !IsWordChar(pre[|pre| - 1])
    requires post == [] || !IsWordChar(post[0])
    ensures var q, i, j := pre + phrase + post, |pre|, |pre| + |phrase|;
            q[i..j] == phrase && WordBoundary(q, i) && WordBoundary(q, j)
  {
    var q, i, j := pre + phrase + post, |pre|, |pre| + |phrase|;
    assert q[i..j] == phrase;
    assert q[i] == phrase[0] && q[j - 1] == phrase[|phrase| - 1];
    assert i > 0 ==> q[i - 1] == pre[|pre| - 1];
    assert j < |q| ==> q[j] == post[0];
  }

  /**
   * A keyword with a non-word character (or the string's edge) on both sides
   * rejects the query, wherever it stands, quoted literals included.
   */
  lemma DelimitedKeywordRejected(pre: string, w: string, post: string)
    requires UpperStr(w) in Keywords
    requires pre == [] || !IsWordChar(pre[|pre| - 1])
    requires post == [] || !IsWordChar(post[0])
    ensures !IsReadOnlyQuery(pre + w + post)
  {
    DelimitedPhraseRejected(pre, w, post);
  }

  /** LOCK or UNLOCK, then one or more whitespace characters, then TABLES, upper-cased, is a modifying phrase. */
  lemma LockTablesPhrase(head: string, gap: string, tables: string)
    requires UpperStr(head) == "LOCK" || UpperStr(head) == "UNLOCK"
    requires |gap| > 0 && forall k :: 0 <= k < |gap| ==> IsSpace(gap[k])
    requires UpperStr(tables) == TablesWord
    ensures IsModifyingPhrase(UpperStr(head + gap + tables))
  {
    var phrase := head + gap + tables;
    var u := UpperStr(phrase);
    var h := UpperStr(head);
    UpperStrSlice(phrase, 0, |head|);
    UpperStrSlice(phrase, |phrase| - |TablesWord|, |phrase|);
    assert phrase[..|head|] == head;
    assert phrase[|phrase| - |TablesWord|..] == tables;
    forall k | |h| <= k < |u| - |TablesWord| ensures IsSpace(u[k]) {
      assert phrase[k] == gap[k - |head|];
      UpperKeepsClass(phrase[k]);
    }
    assert IsLockPhrase(u, h);
  }

  /** LOCK or UNLOCK, whitespace and TABLES, delimited, reject the query. */
  lemma DelimitedLockTablesRejected(pre: string, head: string, gap: string, tables: string, post: string)
    requires UpperStr(head) == "LOCK" || UpperStr(head) == "UNLOCK"
    requires |gap| > 0 && forall k :: 0 <= k < |gap| ==> IsSpace(gap[k])
    requires UpperStr(tables) == TablesWord
    requires pre == [] || !IsWordChar(pre[|pre| - 1])
    requires post == [] || !IsWordChar(post[0])
    ensures !IsReadOnlyQuery(pre + head + gap + tables + post)
  {
    var phrase := head + gap + tables;
    assert pre + head + gap + tables + post == pre + phrase + post;
    LockTablesPhrase(head, gap, tables);
    DelimitedPhraseRejected(pre, phrase, post);
  }

  /**
   * A query that is one identifier (word characters only) is rejected exactly
   * when it is itself a keyword: a keyword inside a longer identifier
   * (`created_at`, `updates`, the LOCK in `UNLOCK`) does not count.
   */
  lemma IdentifierVerdict(w: string)
    requires forall k :: 0 <= k < |w| ==> IsWordChar(w[k])
    ensures IsReadOnlyQuery(w) <==> UpperStr(w) !in Keywords
  {
    if UpperStr(w) in Keywords {
      PhraseShape(UpperStr(w));
      assert w[0..|w|] == w;
      assert MatchesSpan(w, 0, |w|);
    }
    forall i, j | MatchesSpan(w, i, j) ensures UpperStr(w) in Keywords {
      var u := UpperStr(w[i..j]);
      PhraseShape(u);
      assert i < j;
      assert i == 0 by { assert IsWordAt(w, i); }
      assert j == |w| by { assert IsWordAt(w, j - 1); }
      assert w[i..j] == w;
      if u !in Keywords {
        var head := if IsLockPhrase(u, "LOCK") then "LOCK" else "UNLOCK";
        assert IsSpace(u[|head|]);
        UpperKeepsClass(w[|head|]);
      }
    }
  }

  /** Upper-casing an ASCII string letter by letter. */
  lemma UpperStrOf(w: string, u: string)
    requires |w| == |u| && forall k :: 0 <= k < |w| ==> Upper(w[k]) == u[k]
    ensures UpperStr(w) == u
  {
  }

  /** A statement appended after a SELECT is caught. */
  lemma DropAfterSelectRejected(q: string)
    requires q == "select name from users; DROP TABLE users;"
    ensures !IsReadOnlyQuery(q)
  {
    UpperStrOf("DROP", "DROP");
    assert q == "select name from users; " + "DROP" + " TABLE users;";
    DelimitedKeywordRejected("select name from users; ", "DROP", " TABLE users;");
  }

  /** A keyword inside a quoted literal is still refused: the guard does not parse SQL. */
  lemma QuotedKeywordRejected(q: string)
    requires q == "SELECT 'update me'"
    ensures !IsReadOnlyQuery(q)
  {
    UpperStrOf("update", "UPDATE");
    assert q == "SELECT '" + "update" + " me'";
    DelimitedKeywordRejected("SELECT '", "update", " me'");
  }

  /** Keywords embedded in longer identifiers are accepted. */
  lemma EmbeddedKeywordsAccepted(a: string, b: string)
    requires a == "created_at" && b == "updates"
    ensures IsReadOnlyQuery(a) && IsReadOnlyQuery(b)
  {
    assert forall w :: w in Keywords ==> |w| != |a| && |w| != |b|;
    IdentifierVerdict(a);
    IdentifierVerdict(b);
  }

  /** UNLOCK without TABLES is not one of the phrases, and UNLOCK alone is not a keyword. */
  lemma UnlockAloneAccepted(q: string)
    requires q == "UNLOCK"
    ensures IsReadOnlyQuery(q)
  {
    UpperStrOf(q, "UNLOCK");
    assert "UNLOCK" !in Keywords;
    IdentifierVerdict(q);
  }

  /** A bare keyword is refused in any letter case. */
  lemma MixedCaseKeywordRejected(q: string)
    requires q == "Truncate"
    ensures !IsReadOnlyQuery(q)
  {
    UpperStrOf(q, "TRUNCATE");
    IdentifierVerdict(q);
  }
  /** Every phrase starts with the first letter of a keyword or of LOCK/UNLOCK. */
  lemma PhraseInitial(u: string)
    ensures IsModifyingPhrase(u) ==> |u| > 0 && u[0] in "IUDCAGTL"
  {
  }

  /** The word boundaries of "x_lock tables". */
  lemma PrefixedLockBoundaries(q: string, p: int)
    requires q == "x_lock tables"
    requires 0 <= p <= |q| && WordBoundary(q, p)
    ensures p == 0 || p == 6 || p == 7 || p == 13
  {
  }

  /** No span of "x_lock tables" is a match: the LOCK follows a word character. */
  lemma NoSpanInPrefixedLock(q: string, i: int, j: int)
    requires q == "x_lock tables"
    ensures !MatchesSpan(q, i, j)
  {
    if 0 <= i <= j <= |q| && WordBoundary(q, i) && WordBoundary(q, j) {
      PrefixedLockBoundaries(q, i);
      PrefixedLockBoundaries(q, j);
      var u := UpperStr(q[i..j]);
      PhraseInitial(u);
      if i < j {
        assert u[0] == Upper(q[i]);
        if i == 7 {
          UpperStrOf(q[7..13], "TABLES");
        }
      }
    }
  }

  /** The `\b` before LOCK decides: a LOCK glued to a preceding identifier is no match. */
  lemma PrefixedLockAccepted(q: string)
    requires q == "x_lock tables"
    ensures IsReadOnlyQuery(q)
  {
    forall i: int, j: int
      ensures !MatchesSpan(q, i, j)
    {
      NoSpanInPrefixedLock(q, i, j);
    }
  }
}
