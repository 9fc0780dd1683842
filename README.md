# textSQL: the generate–validate–execute retry core

This project models the SQL-generation core of the sports API
(`sports/sports-api/app/sql_generation/utils.py`). It has three parts:

- **The read-only guard** (`is_read_only_query`). This is a lexical classifier. It rejects a SQL
  string when, ignoring case, the string contains a whole-word occurrence of a data-modifying
  keyword. The keywords are INSERT, UPDATE, DELETE, DROP, CREATE, ALTER, GRANT and TRUNCATE, plus
  `LOCK` or `UNLOCK` followed by whitespace and `TABLES`.
  - `ReadOnlyGuard.ContainsModifyingStatement` is the reference definition. It holds when some span
    of the query, bounded by `\b` on both sides, upper-cases to one of the ten alternatives.
  - `ReadOnlyGuard.IsReadOnlyQuery` is the position-by-position search. It is proved to return true
    exactly when no such span exists.
- **`execute_sql`**. The guard runs first. The database is a total function from SQL text to either
  an error message or the driver's column names and rows.
  - The rows are shaped by the source's nested loops (`ShapeRows`, `ShapeRow`) into ordered
    dictionaries. The result is proved equal to the specification function `Shape`.
  - Two quirks of the source are kept:
    - A duplicated column name merges: the key keeps its first position and takes the later value.
    - `column_types` is computed by iterating over `results[0]`. That yields the dictionary's keys,
      which are strings, so every tag is `"str"`, one per distinct column name.
- **`text_to_sql_with_retry`** and **`make_default_messages`**.
  - The conversation is a `MessageList` object shared with the caller. The loop appends to it in
    place.
  - `Run` is the specification of the loop:
    - It is generic over how one attempt ends (`Loop.attempt`) and over the correction template
      (`Loop.correction`).
    - `LoopOf(s)` instantiates it with the real attempt, `Attempt`: completion, then
      extraction, then `Execute`.
  - `k` defaults to `DefaultAttempts`, which is 3 as in the Python signature.
  - `TextToSqlWithRetry` and `RetryLoop` are proved to produce exactly `Run`'s outcome,
    conversation and number of completion calls.
  - `assistant_message` starts as `None` and is overwritten only by a successful completion. So a
    completion that fails on the first attempt makes the handler itself raise a TypeError (modelled
    as `Raised`). A completion that fails later re-appends the previous reply.

The collaborators whose code is not part of this model are parameters of the model:
- the language-model completion: a function of the attempt index and the conversation;
- SQL extraction;
- the database;
- the schema-text provider;
- the few-shot messages;
- the prompt and correction templates.

## Model

| member | source | states |
|---|---|---|
| ReadOnlyGuard.IsReadOnlyQuery | sports/sports-api/app/sql_generation/utils.py:98-117 | The query is read-only exactly when no span bounded by word boundaries upper-cases to one of the eight keywords or to LOCK/UNLOCK, whitespace, TABLES. |
| ReadOnlyGuard.MatchesFrom | sports/sports-api/app/sql_generation/utils.py:110-113 | The search from position i succeeds iff some match of the pattern starts at or after i. |
| ReadOnlyGuard.MatchesAtSpec | sports/sports-api/app/sql_generation/utils.py:104-110 | The per-position test (keyword, or head plus maximal whitespace run plus TABLES, each followed by `\b`) succeeds iff a match starts there. |
| ReadOnlyGuard.SpaceRunEnd | sports/sports-api/app/sql_generation/utils.py:106 | `\s+` consumes a maximal run of whitespace: everything before the end is whitespace and the character at the end is not. |
| ReadOnlyGuard.CaseInsensitive | sports/sports-api/app/sql_generation/utils.py:110 | Two queries that agree after upper-casing get the same verdict (IGNORECASE). |
| ReadOnlyGuard.DelimitedKeywordRejected | sports/sports-api/app/sql_generation/utils.py:105-106 | Any keyword, in any case, with a non-word character or the string's edge on each side, makes the query not read-only. |
| ReadOnlyGuard.DelimitedLockTablesRejected | sports/sports-api/app/sql_generation/utils.py:106 | LOCK or UNLOCK, one or more whitespace characters and TABLES, delimited on both sides, makes the query not read-only. |
| ReadOnlyGuard.DelimitedPhraseRejected | sports/sports-api/app/sql_generation/utils.py:105-113 | Any delimited phrase that matches one of the ten alternatives makes the query not read-only. |
| ReadOnlyGuard.IdentifierVerdict | sports/sports-api/app/sql_generation/utils.py:105-113 | A query made only of word characters is rejected iff it is, up to case, exactly one of the eight keywords. A keyword inside a longer identifier does not count. |
| ReadOnlyGuard.DropAfterSelectRejected | sports/sports-api/app/sql_generation/utils.py:104-114 | A DROP after a SELECT in the same string is rejected. |
| ReadOnlyGuard.QuotedKeywordRejected | sports/sports-api/app/sql_generation/utils.py:104-114 | `SELECT 'update me'` is rejected: quotes are not word characters. |
| ReadOnlyGuard.EmbeddedKeywordsAccepted | sports/sports-api/app/sql_generation/utils.py:104-117 | `created_at` and `updates` are read-only. |
| ReadOnlyGuard.UnlockAloneAccepted | sports/sports-api/app/sql_generation/utils.py:104-117 | `UNLOCK` without TABLES is read-only: it is neither a keyword nor a LOCK/UNLOCK TABLES phrase. |
| ReadOnlyGuard.PrefixedLockAccepted | sports/sports-api/app/sql_generation/utils.py:104-117 | `x_lock tables` is read-only: the `\b` before LOCK fails after the word character `_`, so no span matches. |
| ReadOnlyGuard.MixedCaseKeywordRejected | sports/sports-api/app/sql_generation/utils.py:110-114 | `Truncate` is rejected. |
| QueryExecutor.Execute | sports/sports-api/app/sql_generation/utils.py:128-162 | A rejected query fails with the not-read-only error. Success holds iff the guard accepts and the database returns rows. A database error is passed on with its message. Accepted SQL with rows succeeds with exactly the shaped result of those rows. |
| QueryExecutor.ExecuteSql | sports/sports-api/app/sql_generation/utils.py:128-162 | Computes Execute, and touches the database once when the guard accepts and never when it rejects. |
| QueryExecutor.ShapeRows | sports/sports-api/app/sql_generation/utils.py:147-152 | The outer loop yields the specified `results` list: entry j is row j's dictionary. |
| QueryExecutor.ShapeRow | sports/sports-api/app/sql_generation/utils.py:149-151 | The inner loop yields the row's specified dictionary (distinct names; last value wins). |
| QueryExecutor.OrderedDict.SetItem | sports/sports-api/app/sql_generation/utils.py:151 | `d[k] = v` keeps an existing key's position, appends a new key, sets the value and keeps the dictionary well-formed. |
| QueryExecutor.Distinct | sports/sports-api/app/sql_generation/utils.py:149-151 | The key list has no duplicates and holds exactly the column names. |
| QueryExecutor.DistinctFirstOccurrenceOrder | sports/sports-api/app/sql_generation/utils.py:149-151 | Keys appear in the order of their first occurrence among the columns. |
| QueryExecutor.DistinctOfUnique | sports/sports-api/app/sql_generation/utils.py:149-151 | With unique column names the keys are the column names in order. |
| QueryExecutor.LastIndex | sports/sports-api/app/sql_generation/utils.py:150-151 | The position of the last column with a name: no later column repeats it. |
| QueryExecutor.ShapedRow | sports/sports-api/app/sql_generation/utils.py:148-152 | Each row's dictionary is well-formed, and its keys are the distinct names. A column that is the last of its name carries that row's cell, NULLs included. |
| QueryExecutor.UniqueColumnsRow | sports/sports-api/app/sql_generation/utils.py:148-152 | With unique names, entry j maps column i to cell i, with keys in column order. |
| QueryExecutor.RowDictSnoc | sports/sports-api/app/sql_generation/utils.py:150-151 | One more loop step is one `d[k] = v`. |
| QueryExecutor.ShapeFollowsDriver | sports/sports-api/app/sql_generation/utils.py:137-160 | The result covers the following points: (1) column names pass through. (2) results is the list of per-row dictionaries, one per row, in driver order. (3) column_types is present iff there is a row. (4) When present, it has one "str" per distinct column name. |
| QueryExecutor.DuplicateColumnsMerge | sports/sports-api/app/sql_generation/utils.py:149-151 | Columns a, b, a give keys [a, b], with a taking the third cell. |
| QueryExecutor.ColumnTypesDescribeKeys | sports/sports-api/app/sql_generation/utils.py:158-160 | An integer column is tagged "str", not "int". |
| RetryOrchestrator.InitialConversation | sports/sports-api/app/sql_generation/utils.py:169-184 | A fresh conversation is the few-shot messages followed by exactly one user message. |
| RetryOrchestrator.Attempt | sports/sports-api/app/sql_generation/utils.py:193-210 | The reply is kept iff the completion answered, and it is that completion's content. The attempt succeeds iff completion, extraction, guard and database all succeed, and then returns the extracted SQL and the shaped rows. Otherwise the error is the first failing stage's: completion error with no reply, extraction error, not-read-only, or the database's error. |
| RetryOrchestrator.Run | sports/sports-api/app/sql_generation/utils.py:186-222 | The loop only appends. It makes at most k calls, and at least one if k > 0. Exhaustion means k calls and 2k new messages. An answer after c calls means 2(c - 1) new messages. The handler's TypeError happens only before any reply, after one call, with nothing appended. |
| RetryOrchestrator.MakeDefaultMessages | sports/sports-api/app/sql_generation/utils.py:27-45 | A new list holding the few-shot messages; the schema text is unused. |
| RetryOrchestrator.TryAttempt | sports/sports-api/app/sql_generation/utils.py:189-210 | One pass through the `try` body, run as a method, ends as Attempt specifies. |
| RetryOrchestrator.RetryLoop | sports/sports-api/app/sql_generation/utils.py:186-222 | The loop's outcome, final conversation and call count are Run's. |
| RetryOrchestrator.TextToSqlWithRetry | sports/sports-api/app/sql_generation/utils.py:165-222 | A None or empty conversation is replaced by a new list, and the caller's empty list stays empty. A non-empty one is the very list appended to. The outcome, final contents and call count are Run's from that start, with k clamped at 0. |
| RetryOrchestrator.NoAttempts | sports/sports-api/app/sql_generation/utils.py:188-222 | With k = 0 there are no calls, nothing is appended, and the result is (None, None). |
| RetryOrchestrator.FirstSuccessReturns | sports/sports-api/app/sql_generation/utils.py:206-208 | The first successful attempt returns its result and SQL after one call, with nothing appended. |
| RetryOrchestrator.AnswerComesFromLastAttempt | sports/sports-api/app/sql_generation/utils.py:188-208 | An answer is exactly what the last attempt, within the first k, produced on the final conversation. |
| RetryOrchestrator.AppendsCorrectionTurns | sports/sports-api/app/sql_generation/utils.py:210-219 | The appended messages alternate between an assistant message and a user message, and each user message is the correction template applied to some error's text. |
| RetryOrchestrator.RepeatedFailureExhausts | sports/sports-api/app/sql_generation/utils.py:188-222 | Attempts that all fail after a reply with error e run out: k calls, 2k messages, (None, None), and every correction quotes e. |
| RetryOrchestrator.RunAfterRetry | sports/sports-api/app/sql_generation/utils.py:210-219 | A failed attempt with a reply appends one correction turn and moves on to the next attempt. |
| RetryOrchestrator.FirstCompletionFailureRaises | sports/sports-api/app/sql_generation/utils.py:186-214 | A first completion that raises makes the handler raise TypeError after one call, with nothing appended. |
| RetryOrchestrator.LaterCompletionFailureReusesReply | sports/sports-api/app/sql_generation/utils.py:193-219 | A later completion that raises re-appends the previous reply, followed by the completion error's correction. |
| RetryOrchestrator.MutatingAttemptFails | sports/sports-api/app/sql_generation/utils.py:128-206 | Any attempt whose completion answers and whose extracted SQL the guard rejects fails with the not-read-only error and keeps that completion's content as its reply. |
| RetryOrchestrator.MutatingSqlExhausts | sports/sports-api/app/sql_generation/utils.py:128-222 | If every reply yields mutating SQL, the loop exhausts after k calls with 2k new messages, and every correction quotes "Only read-only queries are allowed.". |

## Left out

- `\w`, `\s` and IGNORECASE are modelled over ASCII. Python's regular expressions use Unicode
  classes and Unicode case folding.
- The SQLAlchemy engine, the connection, the `postgresql_readonly` execution option and the
  transaction scope (lines 132–135) are replaced by one total function from SQL text to a
  database outcome.
- The driver is assumed to return rows with one cell per column (`RowsAligned`, `WellFormed`).
- `get_assistant_message`, `extract_sql_query_from_message`, `get_table_schemas_str` and
  `get_few_shot_messages` are not part of this model. They are opaque parameters, and so are the
  prompt template `make_msg_with_schema_and_warnings` and the correction template
  `MSG_WITH_ERROR_TRY_AGAIN`.
- A completion result that lacks `["message"]["content"]` is not modelled. Line 196 raises on it,
  then line 214 raises again inside the handler, and that second error escapes the loop with
  nothing appended. `Completion` has only a reply with content or a failed call, so it cannot
  express this case. Exceptions from the extractor or the database inside the `try` are modelled,
  as `NotExtracted` and `DbError`.
- `make_rephrase_msg_with_schema_and_warnings` is not called by the core.
- `print` diagnostics and the hard-coded model id are left out.
- `str(e)` for driver and completion errors is an opaque text carried in the error.
- `type(...).__name__` is modelled for the value kinds listed in `Value`. Other driver types are
  known only by their name.
- The commented-out null check (lines 141–145) is not code. The model passes NULLs through.
- `api/app/api/utils/cached_queries/featured_queries.py` is not part of this model. It holds two
  parameterised lookups over a global engine.

## Where the code and its description differ

The model follows the code in each of these cases:
- A keyword inside a quoted literal (`SELECT 'update me'`) is rejected. The guard is purely
  lexical, and quotes are not word characters.
- A completion call that raises is caught by the same handler as every other failure:
  - On the first attempt, the handler's own `assistant_message["message"]` raises TypeError.
  - Later, the previous reply is appended again and the loop goes on.
- `column_types` is computed from the keys of the first result, not from its values.
