# ragsql query routing and text handling, in Dafny

This project models how ragsql answers a question about the `people_info`
table.

- **Classifier.** `detect_query_type` sends the question down the analytical
  path or the retrieval path.
- **Intent resolver.** On the retrieval path, `parse_intent` maps the question
  to one of the names, companies, roles, MAX or MIN statements, or to no
  action.
- **Retrieval.** Without an intent, `retrieve_from_db` runs a whole-question
  LIKE search; its names shortcut cannot fire there. If the search finds
  nothing, it falls back to
  one search per significant token and merges the results into an
  insertion-ordered dictionary keyed by the first column.
- **Executor.** `execute_sql` guards every statement with a case-insensitive
  "select" prefix test.
- **Sanitiser.** On the analytical path, the language model's reply is cleaned
  by the sanitiser of `generate_sql`: trim, drop the code fence, drop the
  `sql` tag line, keep the first statement, add one semicolon.
- **Formatter.** `generate_answer` renders rows as `label: value` lines before
  handing them to the model.
- **Record.** `run_query` collects all of this in a five-field record. Every
  exception is caught into its `error` field.

Everything is a pure function. The collaborators are function parameters:

- the database cursor is a function from a statement to rows or a driver error;
- the connection and the three language-model calls are values that either
  succeed or raise.

Modules, one per concern:

- `Text`: the Python string operations used, on ASCII — `strip`, `lower`,
  `in`, `startswith`, `split`, `join`, `splitlines`, and decimal `str`.
- `Rows` and `Cursor`: values, rows, statements, driver results and Python
  outcomes.
- `Routing`: `detect_query_type` and `parse_intent`. The resolver is a
  first-match-wins table of nine rules.
- `Retrieval`: `_STOPWORDS`, the `\w+` tokeniser, the dictionary, and
  `retrieve_from_db`.
- `Executor`: `execute_sql`.
- `Sanitizer`: lines 76-89 of `generate_sql`.
- `Formatter`: lines 30-45 of `generate_answer`.
- `Pipeline`: `run_query`.

Behaviour of main.py and gemini_generator.py worth knowing:

- **Closing fence.** The last line of a fenced reply is dropped only when it
  also starts with three backquotes (gemini_generator.py:82-83).
  `Sanitizer.UnfenceBlock` covers a closed fence and `Sanitizer.UnfenceOpen`
  an unclosed one, whose last line is kept.
- **Idempotence.** Sanitising is not idempotent in general. It is idempotent
  on outputs that start with neither a fence nor a `sql` tag line
  (`Sanitizer.ResanitizeUntagged`). `Sanitizer.NotIdempotent` and
  `Sanitizer.DoubleTag` show the counterexample `sql\nsql\nSELECT 1`.
- **Dead names shortcut.** The names shortcut of `retrieve_from_db`
  (main.py:67-69) never fires under `run_query`. Its test needs "name" in
  the lower-cased question, and then `parse_intent` has already resolved the
  names intent (main.py:21-22), so `retrieve_from_db` is not called
  (`Pipeline.ShortcutUnreachable`).
- **Exceptions.** An exception in `run_query` does not discard earlier
  results. Fields assigned before it keep their values next to `error`.
- **Closing the connection.** `run_query` closes the connection on the
  normal paths only, not in its `except` branch. The model therefore makes no
  claim about releasing it.

## Model

| member | source | states |
|---|---|---|
| Routing.ClassifyIgnoresCase | main.py:47-54 | the classifier only looks at the lower-cased question, so a question and its lower-case form are routed alike |
| Routing.ClassifyStableUnderContext | main.py:47-54 | the keyword test is a substring test: adding text around an analytical question keeps it analytical |
| Routing.FirstFiring | main.py:20-42 | the rule chosen fires on the question and no earlier rule does; no rule is chosen only when none fires |
| Routing.ParseIntent | main.py:10-44 | no action exactly when no rule fires on the lower-cased question; otherwise the statement and explanation of a rule that fires, and of no earlier one |
| Routing.NameRuleWins | main.py:21-22 | any question containing "name" resolves to the names statement, whatever company, role or aggregate words it also holds |
| Routing.RuleSqlCanned | main.py:20-42 | every rule carries one of the nine fixed statements |
| Routing.IntentIsCanned | main.py:18-44 | a resolved intent's statement is one of the nine fixed statements and starts with "SELECT" |
| Routing.AggregateTriggerIsAnalytical | main.py:27-38 | every trigger of the age-list, COUNT, SUM and AVG rules contains one of the twelve analytical keywords |
| Routing.AggregateFiringIsAnalytical | main.py:47-54 | a question on which one of those four rules fires is analytical |
| Routing.RetrievalSkipsAggregates | main.py:184-188 | for a question routed to retrieval, the resolver never picks the age-list, COUNT, SUM or AVG rule; only the names, companies, roles, MAX or MIN statement can come out |
| Routing.LacksACMRIsRetrieval | main.py:47-54 | every analytical keyword holds one of the letters a, c, m, r, so a question without them is routed to retrieval |
| Routing.LacksACMRSkipsSeven | main.py:20-38 | every trigger of the first seven rules holds one of a, c, m, r, so none of those rules fires on a question without them |
| Routing.ReachesMax | main.py:39-40 | a question without a, c, m, r on which a MAX trigger occurs is routed to retrieval and resolves to the MAX(age) statement |
| Routing.ReachesMin | main.py:41-42 | a question without a, c, m, r on which no MAX trigger but a MIN trigger occurs is routed to retrieval and resolves to the MIN(age) statement |
| Routing.OldestReachesMax | main.py:39-40 | "who is oldest" is routed to retrieval and resolves to the MAX(age) statement |
| Routing.YoungestReachesMin | main.py:41-42 | "who is youngest" is routed to retrieval and resolves to the MIN(age) statement |
| Retrieval.Words | main.py:79 | every token of the tokeniser is a non-empty run of word characters |
| Retrieval.WordsSplitAt | main.py:79 | a non-word character separates: the tokens of a+c+b are the tokens of a followed by those of b |
| Retrieval.WordsOfWord | main.py:79 | a run of word characters is a single token |
| Retrieval.KeepSignificant | main.py:79 | keeps exactly the words longer than two characters whose lower-case form is not a stopword, and nothing else |
| Retrieval.KeepOne | main.py:79 | a single word is kept exactly when it is significant |
| Retrieval.KeepAppend | main.py:79 | the filter works word by word, keeping order and repeats: the tokens of a+b are those of a followed by those of b |
| Retrieval.TokensSplitAt | main.py:79 | a non-word character separates the searches: the tokens of a+c+b are those of a followed by those of b |
| Retrieval.TokensOfQuestion | main.py:79 | the tokens of "who is <name>?" are the name alone: "who" is a stopword and "is" is too short |
| Retrieval.FindKey | main.py:87 | the position of the first entry with a key, or the length when there is none |
| Retrieval.Put | main.py:86-87 | dictionary assignment keeps keys distinct and adds the row's key; a present key keeps its position and takes the new row; a new key goes last |
| Retrieval.Dedup | main.py:81-87 | the merged rows have pairwise-distinct keys, the same key set as the stream, and only rows of the stream |
| Retrieval.DedupLastWins | main.py:87 | each merged row is the last row of the stream carrying its key |
| Retrieval.DedupFirstSeenOrder | main.py:81-91 | merged rows come out in the order their keys first appear in the stream |
| Retrieval.Gather | main.py:81-85 | one LIKE search per token, in token order; when every search returns rows, the result is their rows joined in token order; otherwise the first search that raises is the last statement issued, every earlier one returned rows, and its error ends the loop |
| Retrieval.StreamFromSomeToken | main.py:81-85 | when every token search returned rows, a row is in the joined results exactly when some token search returned it |
| Retrieval.TokenFallback | main.py:77-91 | the fallback issues one search per token, in order; on success it is the dictionary built from the joined token results, with distinct keys, only rows some token search returned, and the key of every such row; a failure is the first failing search, issued last, with its error |
| Retrieval.FallbackLastWinsFirstSeen | main.py:81-91 | each key of the fallback keeps the row of the last search that returned it, and keys come out in the order some search first returned them |
| Retrieval.Retrieve | main.py:57-93 | the names shortcut runs only the names statement and no LIKE search; a non-empty whole-question result is returned unchanged; a driver error escapes; an empty one hands over to the token fallback |
| Retrieval.NoTokenMatchIsEmpty | main.py:89-93 | when no token search returns anything, the empty whole-question result comes back |
| Executor.ExecuteSql | main.py:96-104 | a statement failing the prefix guard gets the advisory and the cursor is not used; otherwise exactly that statement is run, and the result is its rows or the error prefix followed by the driver's message |
| Executor.GuardIgnoresCase | main.py:97 | the guard gives the same answer for a statement and its lower-case form |
| Executor.UpperSelectPasses | main.py:97 | a statement starting with "SELECT" passes the guard |
| Executor.CannedIntentPassesGuard | main.py:97 | every statement a resolved intent carries passes the guard |
| Executor.DropIsRefused | main.py:97-98 | "DROP TABLE x" gets the advisory and issues nothing |
| Executor.LeadingSpaceIsRefused | main.py:97-98 | leading whitespace is not trimmed: any statement starting with a space character, such as " SELECT 1", gets the advisory and issues nothing |
| Executor.AdvisoryIsNotAnError | main.py:98-104 | the advisory never starts with the error prefix, so the two string results are distinguishable |
| Sanitizer.Terminate | gemini_generator.py:89 | the result ends with a semicolon, holds no other semicolon, and the text before it is trimmed |
| Sanitizer.Sanitize | gemini_generator.py:76-89 | the sanitised statement ends with its only semicolon and is trimmed before it |
| Sanitizer.FirstStatementOnly | gemini_generator.py:89 | everything from the first semicolon on is replaced by one semicolon |
| Sanitizer.PlainStatement | gemini_generator.py:76-89 | a trimmed statement without semicolon, fence or tag only gains the semicolon |
| Sanitizer.PlainIsFixed | gemini_generator.py:76-89 | a terminated text that starts with neither the fence nor a tag line is left as it is |
| Sanitizer.ResanitizeUntagged | gemini_generator.py:76-89 | conditional idempotence: re-sanitising an output that starts with neither the fence nor a tag line gives it back |
| Sanitizer.UnfenceBlock | gemini_generator.py:79-84 | a block opened by a fence line and closed by the fence loses both lines and is trimmed |
| Sanitizer.UnfenceOpen | gemini_generator.py:79-84 | with an opening fence line but a last line not starting with the fence, only the opening line is dropped; the last line is kept and the rest is trimmed |
| Sanitizer.OpenFenceTransparent | gemini_generator.py:76-89 | an unclosed fenced reply sanitises like the trimmed text after its opening line, whatever the tag on that line |
| Sanitizer.OpenFencedStatement | gemini_generator.py:76-89 | a one-line statement after an unclosed fence such as "```sql\nSELECT 1" comes out as the statement and a semicolon |
| Sanitizer.FenceTransparent | gemini_generator.py:78-84 | a fenced block sanitises like its content alone, whatever follows the opening fence on its line |
| Sanitizer.FencedStatement | gemini_generator.py:76-89 | a fenced, already terminated statement such as "```sql\nSELECT 1;\n```" comes out as "SELECT 1;" |
| Sanitizer.TagTransparent | gemini_generator.py:86-87 | a leading tag line, in any letter case, is dropped and the rest sanitises as it would alone |
| Sanitizer.TaggedStatement | gemini_generator.py:86-89 | "sql\n" followed by a plain statement comes out as that statement and a semicolon |
| Sanitizer.DoubleTag | gemini_generator.py:86-89 | a doubled tag line loses one tag per pass: the first pass keeps the second tag, and the second pass removes it |
| Sanitizer.NotIdempotent | gemini_generator.py:76-89 | "sql\nsql\nSELECT 1" sanitises to "sql\nSELECT 1;" once and to "SELECT 1;" twice, so sanitising is not idempotent |
| Formatter.Label | gemini_generator.py:38 | a label is at least two characters and holds neither a line break nor a colon |
| Formatter.LabelsDistinct | gemini_generator.py:32-38 | different positions get different labels: the column names are distinct, `col<i>` is injective, and no column name has that shape |
| Formatter.EmptyRowIsEmpty | gemini_generator.py:36-41 | a row without values formats as the empty string |
| Formatter.FirstValueIsId | gemini_generator.py:37-41 | a one-value row formats as "id: " followed by the value |
| Formatter.FormatRowSnoc | gemini_generator.py:37-41 | appending a value to a non-empty row appends ", ", its label, ": " and the value |
| Formatter.RowIsOneLine | gemini_generator.py:37-41 | a row whose values show no line break formats as a single line |
| Formatter.OneLinePerRow | gemini_generator.py:34-43 | splitting the rendering at line breaks gives back one formatted line per row, in order |
| Formatter.ReadableContext | gemini_generator.py:30-45 | a text context is passed through unchanged, and an empty row list renders as the empty string |
| Text.StripUnique | gemini_generator.py:76 | trimming whitespace around a trimmed text gives that text back |
| Text.JoinSplit | gemini_generator.py:79-84 | joining the pieces of a split with the separator restores the text |
| Text.SplitJoin | gemini_generator.py:40-43 | splitting separator-free pieces joined by the separator gives the pieces back |
| Pipeline.ExecutePath | main.py:189-194 | the statement and its executor result are recorded, nothing is retrieved, and a summary or an error comes only from explaining a row list |
| Pipeline.RetrievalPath | main.py:199-204 | no statement is recorded; a retrieval error leaves only the error; an empty retrieval leaves only the notice; otherwise the rows are kept next to the summary of their formatted form, or next to its error |
| Pipeline.AnalyticalPath | main.py:206-212 | a failing model call leaves only the error; otherwise the sanitised reply goes down the execute path |
| Pipeline.RunQuery | main.py:162-219 | a statement result and a retrieved context are never both present; a statement is recorded exactly when its result is; an error and a model answer are never both present; an answer next to a result explains that result's rows; analytical statements are sanitised |
| Pipeline.RetrievalStatementsAreCanned | main.py:184-194 | on the retrieval path only the names, companies, roles, MAX and MIN statements are ever recorded, and each passes the guard |
| Pipeline.ShortcutHasNamesIntent | main.py:21-22 | a question passing the names-shortcut test contains "name", so `parse_intent` resolves it to the names statement |
| Pipeline.ShortcutUnreachable | main.py:67-69 | when no intent resolved, which is the only way `run_query` reaches `retrieve_from_db` (main.py:188-199), the names-shortcut test fails, so the shortcut is dead code |

## Left out

- Language-model I/O is not modelled: client configuration, the model singleton, `generate_content`, `list_available_models`, and the prompt texts. The three model calls are parameters that return reply text or raise.
- Database access is not modelled: `get_connection`, the semantics of `LIKE` matching, and how `%` and `_` in a question behave. The cursor is a parameter from statement to rows or driver error.
- Closing the cursor and the connection is left out. The code closes them on the normal paths only, and an exception from `close` is not modelled.
- `rag_pipeline` is left out. It is a console-printing copy of `run_query`.
- The `__main__` input loop and the Streamlit front end are left out.
- Python's Unicode behaviour is left out. `lower`, `\w`, `strip` and `isspace` are modelled on ASCII only. `splitlines` treats `'\n'` as the only line break.
- Column values are NULL, integers or text. Decimal and floating-point columns and their `str()` forms are left out.
- `Routing.Classify` and `Routing.Analytical` carry no `ensures`. They are the keyword test itself, and the lemmas above state their properties.
