# CSV question-answering runner: a Dafny model

This project models the core of a small natural-language-to-SQL agent: `query.py`. The agent
loads a CSV file into an in-memory DuckDB database as a view named `data`. It asks a language
model to write a SQL query for a user's question, pulls the SQL out of the model's markdown
reply, and executes it without ever raising. It then asks the language model to phrase an
answer from the question, the query and the result (or the error text).

The model is pure: datatypes, functions and lemmas. Each collaborator the runner calls is a
function-valued parameter:

- the language model followed by its output parser, `generate`;
- the SQL engine's `run`, over a generic database state `D`;
- `get_table_info`, as `describe`;
- the rendering of the query-generation template.

Each step records the calls it makes in a trace, so the data flow between the steps can be
stated and proved.

Modules:

- `Strings` (`strings.dfy`): Python's `str.strip()` over Python's own whitespace set, and
  `startswith`.
- `SqlExtraction` (`extraction.dfy`): `_extract_sql_from_markdown`. It is a faithful model of
  `re.search` for the pattern ```` ```(?:sql\n)?(.*?)``` ```` under `re.DOTALL`:
  - the leftmost opening fence that can be closed wins;
  - the optional `sql\n` tag is tried first and backtracked;
  - the lazy group stops at the first closing fence.
- `CsvRunner` (`runner.dfy`): `_execute_query_safely`, the setup statement,
  `create_csv_runner`, one invocation of the runner, and a session of invocations.

Two points where the code does something a reader might not expect:

- The query-generation chain binds the template's `{input}` slot with `RunnablePassthrough()`.
  That binds the whole invocation mapping `{"question": ...}`, not the question text. The
  template renderer therefore receives a `Request`.
- Plain stripping happens whenever the text has no *closable* fence pair, not only when it has
  no triple backticks at all. A lone opening fence, or three to five backticks in a row, also
  leads to plain stripping (`UnclosedMeansStrip`).

## Model

| member | source | states |
|---|---|---|
| Strings.IsSpace | query.py:23-24 | no contract: the code-point ranges `str.strip()` removes, those `str.isspace()` accepts; `IsSpaceIsListed` pins them down |
| Strings.IsSpaceIsListed | query.py:23-24 | the ranges accept exactly the 29 listed characters: Unicode's White_Space code points and U+001C..U+001F |
| Strings.Strip | query.py:23-24 | no contract: `s.strip()` as `rstrip()` after `lstrip()`; characterised by `StripIsSlice` and `StripOuter` |
| Strings.TrimStart | query.py:23-24 | the result is a suffix of the input; every dropped character is whitespace; the result does not start with whitespace |
| Strings.TrimEnd | query.py:23-24 | the result is a prefix of the input; every dropped character is whitespace; the result does not end with whitespace |
| Strings.StripIsSlice | query.py:23-24 | `strip()` returns a contiguous slice of its input; everything outside the slice is whitespace; neither end of the slice is |
| Strings.StripKeepsTrimmed | query.py:23-24 | a string with no whitespace at either end is returned unchanged |
| Strings.StripIdempotent | query.py:23-24 | stripping twice is the same as stripping once |
| Strings.TrimStartSkipsSpace | query.py:23-24 | leading whitespace of any length does not change `lstrip()`'s result |
| Strings.TrimEndSkipsSpace | query.py:23-24 | trailing whitespace of any length does not change `rstrip()`'s result |
| Strings.StripOuter | query.py:23-24 | whitespace around a trimmed text is exactly what `strip()` removes |
| SqlExtraction.FindFence | query.py:21 | finds the first three-backtick fence at or after a position, or reports that there is none |
| SqlExtraction.MatchAt | query.py:21 | a match starting at a position exists iff a fence there is followed by another fence; the group starts after the fence and the optional `sql\n` tag, and ends at the first fence after that |
| SqlExtraction.SearchFrom | query.py:21 | `re.search` returns the leftmost position at which the pattern matches, or nothing when no position matches |
| SqlExtraction.ExtractSql | query.py:19-24 | the extracted SQL is never longer than the reply and has no whitespace at either end |
| SqlExtraction.TagBacktrackFails | query.py:21 | backtracking over the `sql\n` tag never produces a match that the tagged attempt missed |
| SqlExtraction.UnclosedMeansStrip | query.py:21-24 | when no fence is followed by another fence, the reply is only stripped |
| SqlExtraction.NoFenceMeansStrip | query.py:21-24 | a reply without a fence is only stripped |
| SqlExtraction.FirstBlockWins | query.py:21-23 | the result is the stripped text between the leftmost fence (and its tag) and the next fence |
| SqlExtraction.DropTag | query.py:21 | the optional `sql\n` tag is removed exactly when the block starts with it |
| SqlExtraction.ExtractFirstBlock | query.py:21-23 | for prose without backticks followed by a fenced block whose content holds no backtick, the result is that block's stripped content, tag removed; later text is ignored |
| SqlExtraction.MatchedResultHasNoFence | query.py:21-23 | when the pattern matches, the extracted SQL contains no three-backtick fence at all |
| SqlExtraction.UnmatchedStaysUnclosed | query.py:24 | when the pattern does not match, the stripped reply holds no closable fence pair: any two fences in it overlap |
| SqlExtraction.ExtractIdempotent | query.py:19-24 | extracting from already-extracted SQL changes nothing |
| SqlExtraction.TaggedStatement | query.py:21-23 | a trimmed statement without backticks, in a block tagged `sql` on its own line after prose without backticks, comes back exactly |
| SqlExtraction.UntaggedStatement | query.py:21-23 | a trimmed, untagged block without backticks, after prose without backticks, comes back exactly |
| SqlExtraction.UnfencedStatement | query.py:24 | an unfenced statement surrounded by whitespace comes back without it |
| SqlExtraction.TaggedBlockExample | query.py:21-23 | a reply that is a `sql`-tagged block gives its statement |
| SqlExtraction.UntaggedBlockExample | query.py:21-23 | a reply that is an untagged block gives its statement |
| SqlExtraction.SurroundedBlockExample | query.py:21-23 | prose before and after a block is dropped |
| SqlExtraction.SecondBlockIgnoredExample | query.py:21-23 | only the first of two blocks is returned |
| SqlExtraction.UpperCaseTagKeptExample | query.py:21-23 | the tag is case sensitive: `SQL` stays in the result |
| SqlExtraction.BlankAfterTagKeptExample | query.py:21-23 | `sql` followed by a blank is not the tag and stays in the result |
| SqlExtraction.CarriageReturnAfterTagKeptExample | query.py:21-23 | `sql` followed by a carriage return and newline is not the tag and stays in the result |
| SqlExtraction.UnfencedExample | query.py:24 | an unfenced reply is returned stripped |
| CsvRunner.FailureText | query.py:31 | the failure text starts with `Error:` and carries the failed query at a fixed offset |
| CsvRunner.FailureTextRoundTrip | query.py:31 | the query and the error details can be read back from the failure text |
| CsvRunner.ReadFailureTextSound | query.py:31 | any text the reader accepts is the failure text of the query and details it returns |
| CsvRunner.ExecuteSafely | query.py:26-31 | execution never fails; the engine's result text is passed through; an error becomes the failure text naming the query and the error; the database state is the engine's |
| CsvRunner.FailureIsRecognisable | query.py:28-31 | the outcome starts with `Error:` iff the statement failed, provided no successful result starts that way |
| CsvRunner.SetupStatement | query.py:80 | the statement as written: the path is placed verbatim between the two quotes of the `read_csv_auto` argument, after the fixed view-creation head |
| CsvRunner.PlainSetupReadsBack | query.py:80 | as written, a path without an apostrophe reaches `read_csv_auto` as exactly that path |
| CsvRunner.UnescapedPathCut | query.py:80 | as written, an apostrophe in the path ends the SQL literal there; the literal then holds only the text before it |
| CsvRunner.ApostropheExample | query.py:80 | the path `it's.csv` is read by SQL as the literal `it` |
| CsvRunner.QuotedSetupStatement | query.py:80 | the corrected statement's literal reads back as exactly the given path |
| CsvRunner.QuotedSetupAgrees | query.py:80 | for paths without an apostrophe, the corrected statement is the statement as written |
| CsvRunner.FillRoundTrip | query.py:85-92 | for any three-slot template, each value can be read back from the filled text given the lengths of the first two |
| CsvRunner.ReadFilledSound | query.py:85-92 | for any three-slot template, any text the reader accepts is the template filled with the values it returns |
| CsvRunner.AnswerPrompt | query.py:85-92 | no contract: `answer_prompt` filled with question, query and result, its text as in the source; read back by `AnswerPromptRoundTrip` |
| CsvRunner.AnswerPromptRoundTrip | query.py:85-92 | question, query and result can be read back from the rendered answer prompt |
| CsvRunner.ReadAnswerPromptSound | query.py:85-92 | any text the reader accepts is the answer prompt of the slots it returns |
| CsvRunner.CreateCsvRunner | query.py:74-83 | executes the setup statement as written first, then describes table `data` once only if that statement succeeded, and makes no other call; for a path without an apostrophe that statement names exactly the path; the runner is ready iff both steps succeed, and then holds the post-setup database and that description; otherwise the error is the failing step's own |
| CsvRunner.Invoke | query.py:94-103 | generates a draft from the query prompt built with the stored description; a generation error stops the turn with the database untouched; otherwise it executes exactly the extracted SQL and generates the answer, whose result is the reply |
| CsvRunner.AnswerPromptThreading | query.py:96-100 | the answer prompt carries the question as asked, the very SQL that ran, and that run's result text or its failure text |
| CsvRunner.Session | main.py:33-44 | the question loop: each turn is one `invoke` starting from the database state the previous turn left; every query prompt uses the description stored at setup (query.py:38-39); no turn describes a table |
| CsvRunner.SessionNeverDescribes | query.py:38-39 | no call made while answering questions fetches a table description |
| CsvRunner.DescriptionFetchedOnce | query.py:38-39 | over setup and any session, table `data` is described exactly once, at setup, and every query prompt carries that description |

## Left out

- The command-line driver's reading of input, its `exit` command and its printing are left out. `Session` stands for its loop over questions.
- The template renderers are left out. The query-generation template is the opaque parameter `queryPrompt`. The answer template is modelled as text.
- The language model is an arbitrary function `generate`. Its nondeterminism, the network and the output parser's details are not modelled.
- `SqlExtraction.ExtractSql` models only the one regular expression the code uses, not Python's general regex engine.
- The DuckDB engine (SQL semantics, CSV type sniffing) and `get_table_info` are arbitrary functions over an abstract database state.
- The text of a raised exception (`str(e)`) is an opaque string.
- Building the engine and the `SQLDatabase` wrapper is not modelled. The model starts from a given empty database state.
- The LangChain runnable framework (composition, `assign`, streaming, batching) is left out. Only the data flow of one `invoke` is modelled.
- Whether DuckDB accepts a setup statement is up to the engine's `run`. For a path with an apostrophe, the statement as written leaves part of the path as SQL text after the literal, see Findings; the corrected statement is modelled beside it and not used by `CsvRunner.CreateCsvRunner`.
- A failed generation step or a failed setup step is raised to the caller by the source. `CsvRunner.Invoke` returns a failed generation as an `Err` answer; `CsvRunner.CreateCsvRunner` returns a failed setup statement or `get_table_info` as `SetupFailed` with that step's error. Statement execution errors are caught and modelled, see `CsvRunner.ExecuteSafely`.

## Findings

| source | as written | input that shows it | evidently intended | confidence | as-written member | corrected member |
|---|---|---|---|---|---|---|
| query.py:80 | the CSV path is spliced between single quotes without escaping | the path `it's.csv`: the literal ends after `it`, and `s.csv')` is left over as SQL text, where its quote opens a literal that never closes | the path passed to `read_csv_auto` as a SQL string literal that reads back as exactly the path (embedded quotes doubled) | medium, not executed | CsvRunner.ApostropheExample | CsvRunner.QuotedSetupStatement |
