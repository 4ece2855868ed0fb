/** The rest of query.py: `_execute_query_safely`, the setup of `create_csv_runner`, and the
    chain it returns, invoked once per question. The language model, the database engine and
    the rendering of the query-generation prompt are collaborators passed in as functions;
    the database's state is an opaque `D` that statements may change. */
module CsvRunner {
  import opened Strings
  import opened SqlExtraction

  /** What a collaborator call gives back: its value, or the `str()` of the exception it raised. */
  datatype Result<T> = Ok(value: T) | Err(error: string)

  // ---- Safe execution ----

  /** The prefix by which the answer prompt's reader can tell a failure from a result. */
  const ErrorTag: string := "Error:"
  const FailurePreamble: string := ErrorTag + " The following query failed to execute:\n"
  const DetailsLabel: string := "\n\nError details: "

  /** The text `_execute_query_safely` returns in place of the engine's exception. */
  function FailureText(query: string, detail: string): (msg: string)
    ensures |msg| == |FailurePreamble| + |query| + |DetailsLabel| + |detail|
    ensures StartsWith(msg, ErrorTag)
    ensures msg[|FailurePreamble|..|FailurePreamble| + |query|] == query
  {
    var msg := FailurePreamble + query + DetailsLabel + detail;
    assert msg == ErrorTag + (FailurePreamble[|ErrorTag|..] + query + DetailsLabel + detail);
    msg
  }

  /** Splits a failure text back into the query and the error detail, given the query's
      length (the query may itself contain the details label). */
  function ReadFailureText(msg: string, queryLength: nat): Option<(string, string)> {
    var q0 := |FailurePreamble|;
    var q1 := q0 + queryLength;
    var d0 := q1 + |DetailsLabel|;
    if d0 <= |msg| && msg[..q0] == FailurePreamble && msg[q1..d0] == DetailsLabel
    then Some((msg[q0..q1], msg[d0..]))
    else None
  }

  /** The failure text holds the query and the detail verbatim, and nothing else varies. */
  lemma FailureTextRoundTrip(query: string, detail: string)
    ensures ReadFailureText(FailureText(query, detail), |query|) == Some((query, detail))
  {
    var msg := FailureText(query, detail);
    var q0 := |FailurePreamble|;
    var q1 := q0 + |query|;
    assert msg[..q0] == FailurePreamble;
    assert msg[q0..q1] == query;
    assert msg[q1..q1 + |DetailsLabel|] == DetailsLabel;
    assert msg[q1 + |DetailsLabel|..] == detail;
  }

  /** Whatever reads as a failure text is the failure text of what it reads as. */
  lemma ReadFailureTextSound(msg: string, queryLength: nat)
    requires ReadFailureText(msg, queryLength).Some?
    ensures FailureText(ReadFailureText(msg, queryLength).value.0, ReadFailureText(msg, queryLength).value.1) == msg
  {
    var q0 := |FailurePreamble|;
    var q1 := q0 + queryLength;
    var d0 := q1 + |DetailsLabel|;
    assert msg == msg[..q0] + msg[q0..q1] + msg[q1..d0] + msg[d0..];
  }

  /** `_execute_query_safely`: never raises. The engine's text when the statement runs, the
      failure text otherwise; the database is left as the engine left it either way. */
  function ExecuteSafely<D>(run: (D, string) -> (D, Result<string>), db: D, query: string): (e: (D, string))
    ensures e.0 == run(db, query).0
    ensures run(db, query).1.Ok? ==> e.1 == run(db, query).1.value
    ensures run(db, query).1.Err? ==> ReadFailureText(e.1, |query|) == Some((query, run(db, query).1.error))
  {
    var (db', outcome) := run(db, query);
    match outcome
    case Ok(text) => (db', text)
    case Err(detail) =>
      FailureTextRoundTrip(query, detail);
      (db', FailureText(query, detail))
  }

  /** The answer prompt can tell a failure from a result by its "Error:" prefix, exactly when
      no result text of the engine starts that way. */
  lemma FailureIsRecognisable<D>(run: (D, string) -> (D, Result<string>), db: D, query: string)
    requires run(db, query).1.Ok? ==> !StartsWith(run(db, query).1.value, ErrorTag)
    ensures StartsWith(ExecuteSafely(run, db, query).1, ErrorTag) <==> run(db, query).1.Err?
  {
  }

  // ---- The setup statement ----

  /** The one relation the pipeline may query. */
  const ViewName: string := "data"
  const SetupHead: string := "CREATE OR REPLACE VIEW " + ViewName + " AS SELECT * FROM read_csv_auto("

  /** The statement `create_csv_runner` runs first, as written: the path spliced between
      single quotes as it is. */
  function SetupStatement(path: string): (stmt: string)
    ensures |stmt| == |SetupHead| + |path| + 3
    ensures StartsWith(stmt, SetupHead + "'")
    ensures stmt[|SetupHead| + 1..|SetupHead| + 1 + |path|] == path
    ensures stmt[|SetupHead| + 1 + |path|..] == "')"
  {
    var stmt := SetupHead + "'" + path + "')";
    assert stmt == (SetupHead + "'") + path + "')";
    stmt
  }

  /** The body of a SQL string literal, read after its opening quote: characters up to the
      first quote that is not doubled, a doubled quote standing for one. Gives the literal's
      value and the text after its closing quote, or nothing when the literal never closes. */
  function ReadQuoted(s: string): (r: Option<(string, string)>)
    decreases |s|
    ensures r.Some? ==> |r.value.1| < |s|
  {
    if s == [] then None
    else if s[0] == '\'' then
      if |s| > 1 && s[1] == '\'' then
        match ReadQuoted(s[2..])
        case None => None
        case Some((v, rest)) => Some(("'" + v, rest))
      else Some(([], s[1..]))
    else
      match ReadQuoted(s[1..])
      case None => None
      case Some((v, rest)) => Some(([s[0]] + v, rest))
  }

  /** What the SQL parser takes as the argument of `read_csv_auto` in a setup statement: the
      literal's value and the text that follows it. */
  function CsvArgument(stmt: string): Option<(string, string)> {
    var n := |SetupHead|;
    if n < |stmt| && stmt[..n] == SetupHead && stmt[n] == '\'' then ReadQuoted(stmt[n + 1..]) else None
  }

  /** A path with no apostrophe reaches `read_csv_auto` intact. */
  lemma {:induction false} PlainPathRead(path: string, rest: string)
    requires forall k :: 0 <= k < |path| ==> path[k] != '\''
    requires rest == [] || rest[0] != '\''
    ensures ReadQuoted(path + "'" + rest) == Some((path, rest))
  {
    if path == [] {
      assert path + "'" + rest == "'" + rest;
    } else {
      assert (path + "'" + rest)[1..] == path[1..] + "'" + rest;
      PlainPathRead(path[1..], rest);
      assert [path[0]] + path[1..] == path;
    }
  }

  /** As written, a path without an apostrophe reaches `read_csv_auto` intact. */
  lemma PlainSetupReadsBack(path: string)
    ensures (forall k :: 0 <= k < |path| ==> path[k] != '\'') ==>
      CsvArgument(SetupStatement(path)) == Some((path, ")"))
  {
    if forall k :: 0 <= k < |path| ==> path[k] != '\'' {
      var stmt := SetupStatement(path);
      var n := |SetupHead|;
      assert stmt[..n] == SetupHead && stmt[n] == '\'';
      assert stmt[n + 1..] == path + "'" + ")";
      PlainPathRead(path, ")");
    }
  }

  /** As written, the first apostrophe of the path (when another character but an apostrophe
      follows it) closes the literal: `read_csv_auto` is given the part of the path before it,
      and the rest of the path is left over as SQL text. */
  lemma {:induction false} UnescapedPathCut(path: string, i: nat)
    requires i < |path| && path[i] == '\''
    requires forall k :: 0 <= k < i ==> path[k] != '\''
    requires i + 1 < |path| && path[i + 1] != '\''
    ensures CsvArgument(SetupStatement(path)) == Some((path[..i], path[i + 1..] + "')"))
  {
    var stmt := SetupStatement(path);
    var n := |SetupHead|;
    assert stmt[..n] == SetupHead && stmt[n] == '\'';
    assert stmt[n + 1..] == path[..i] + "'" + (path[i + 1..] + "')") by {
      assert stmt[n + 1..] == path + "')";
      assert path == path[..i] + "'" + path[i + 1..];
    }
    assert (path[i + 1..] + "')")[0] == path[i + 1];
    PlainPathRead(path[..i], path[i + 1..] + "')");
  }

  /** So for a file whose name has an apostrophe, which `main.py` has just found to exist, the
      literal ends at the apostrophe: it does not name the file, and the rest of the path is
      left over as SQL text after it. */
  lemma ApostropheExample()
    ensures CsvArgument(SetupStatement("it's.csv")) == Some(("it", "s.csv')"))
  {
    UnescapedPathCut("it's.csv", 2);
    assert "it's.csv"[..2] == "it" && "it's.csv"[3..] + "')" == "s.csv')";
  }

  /** A string as a SQL literal's body: every apostrophe doubled. */
  function EscapeQuotes(v: string): (e: string)
    ensures |e| >= |v|
  {
    if v == [] then []
    else (if v[0] == '\'' then "''" else [v[0]]) + EscapeQuotes(v[1..])
  }

  /** Reading back an escaped body gives the string, and the text after the literal, as long
      as that text does not itself start with a quote. */
  lemma {:induction false} EscapedRead(v: string, rest: string)
    requires rest == [] || rest[0] != '\''
    ensures ReadQuoted(EscapeQuotes(v) + "'" + rest) == Some((v, rest))
  {
    if v == [] {
      assert EscapeQuotes(v) + "'" + rest == "'" + rest;
      ReadClose(rest);
    } else {
      var t := EscapeQuotes(v[1..]) + "'" + rest;
      EscapedRead(v[1..], rest);
      if v[0] == '\'' {
        assert EscapeQuotes(v) == "''" + EscapeQuotes(v[1..]);
        assert EscapeQuotes(v) + "'" + rest == "''" + t;
        ReadDoubled(t, v[1..], rest);
        assert "'" + v[1..] == v;
      } else {
        assert EscapeQuotes(v) == [v[0]] + EscapeQuotes(v[1..]);
        assert EscapeQuotes(v) + "'" + rest == [v[0]] + t;
        ReadPlain(v[0], t, v[1..], rest);
        assert [v[0]] + v[1..] == v;
      }
    }
  }

  /** A quote not followed by another closes the literal. */
  lemma ReadClose(rest: string)
    requires rest == [] || rest[0] != '\''
    ensures ReadQuoted("'" + rest) == Some(([], rest))
  {
    assert ("'" + rest)[1..] == rest;
    assert |"'" + rest| > 1 ==> ("'" + rest)[1] == rest[0];
  }

  /** A doubled quote in a literal's body reads as one quote. */
  lemma ReadDoubled(t: string, w: string, rest: string)
    requires ReadQuoted(t) == Some((w, rest))
    ensures ReadQuoted("''" + t) == Some(("'" + w, rest))
  {
    var s := "''" + t;
    assert s[0] == '\'' && s[1] == '\'' && s[2..] == t;
  }

  /** Any other character in a literal's body reads as itself. */
  lemma ReadPlain(c: char, t: string, w: string, rest: string)
    requires c != '\'' && ReadQuoted(t) == Some((w, rest))
    ensures ReadQuoted([c] + t) == Some(([c] + w, rest))
  {
    var s := [c] + t;
    assert s[0] == c && s[1..] == t;
  }

  /** A path without an apostrophe is its own escaped form. */
  lemma {:induction false} EscapeQuotesPlain(v: string)
    requires forall k :: 0 <= k < |v| ==> v[k] != '\''
    ensures EscapeQuotes(v) == v
  {
    if v != [] {
      EscapeQuotesPlain(v[1..]);
      assert [v[0]] + v[1..] == v;
    }
  }

  /** The setup statement with the path written as a SQL string literal. */
  function QuotedSetupStatement(path: string): (stmt: string)
    ensures CsvArgument(stmt) == Some((path, ")"))
  {
    var stmt := SetupHead + "'" + EscapeQuotes(path) + "')";
    assert stmt[..|SetupHead|] == SetupHead && stmt[|SetupHead|] == '\'';
    assert stmt[|SetupHead| + 1..] == EscapeQuotes(path) + "'" + ")";
    EscapedRead(path, ")");
    stmt
  }

  /** The corrected statement is the source's for every path without an apostrophe. */
  lemma QuotedSetupAgrees(path: string)
    requires forall k :: 0 <= k < |path| ==> path[k] != '\''
    ensures QuotedSetupStatement(path) == SetupStatement(path)
  {
    EscapeQuotesPlain(path);
  }

  // ---- The answer prompt ----

  const AnswerIntro: string := "Given the user's question, the corresponding SQL query, and the SQL result, formulate a final natural language answer. If the SQL Result contains an error message, explain the error to the user in a helpful way.\n\nQuestion: "

  /** A template with three slots: fixed text before, between and after them. */
  datatype Template = Template(intro: string, queryLabel: string, resultLabel: string, cue: string)

  /** `answer_prompt`: question, SQL query and SQL result, each on its own labelled line. */
  const AnswerTemplate: Template := Template(AnswerIntro, "\nSQL Query: ", "\nSQL Result: ", "\nAnswer:")

  /** The three values the answer prompt is filled with. */
  datatype Slots = Slots(question: string, query: string, result: string)

  /** A template filled in: each value substituted verbatim. */
  function Fill(t: Template, slots: Slots): string {
    t.intro + (slots.question + (t.queryLabel + (slots.query + (t.resultLabel + (slots.result + t.cue)))))
  }

  /** `p` cut after its first `n` characters. */
  function Cut(p: string, n: nat): (string, string)
    requires n <= |p|
  {
    (p[..n], p[n..])
  }

  /** Reads the three values back out of a filled template, front to back, given the lengths
      of the question and the query (either may contain the labels). */
  function ReadFilled(t: Template, p: string, questionLength: nat, queryLength: nat): Option<Slots> {
    if |p| < |t.intro| then None else
    var (intro, p1) := Cut(p, |t.intro|);
    if intro != t.intro || |p1| < questionLength then None else
    var (question, p2) := Cut(p1, questionLength);
    if |p2| < |t.queryLabel| then None else
    var (queryLabel, p3) := Cut(p2, |t.queryLabel|);
    if queryLabel != t.queryLabel || |p3| < queryLength then None else
    var (query, p4) := Cut(p3, queryLength);
    if |p4| < |t.resultLabel| then None else
    var (resultLabel, p5) := Cut(p4, |t.resultLabel|);
    if resultLabel != t.resultLabel || |p5| < |t.cue| then None else
    var (result, cue) := Cut(p5, |p5| - |t.cue|);
    if cue != t.cue then None else
    Some(Slots(question, query, result))
  }

  /** `answer_prompt.format(...)`. */
  function AnswerPrompt(slots: Slots): string {
    Fill(AnswerTemplate, slots)
  }

  /** The reader matching `AnswerPrompt`. */
  function ReadAnswerPrompt(p: string, questionLength: nat, queryLength: nat): Option<Slots> {
    ReadFilled(AnswerTemplate, p, questionLength, queryLength)
  }

  /** Cutting a concatenation at the length of its first part gives the two parts back. */
  lemma CutJoin(x: string, y: string)
    ensures Cut(x + y, |x|) == (x, y)
  {
    assert (x + y)[..|x|] == x;
    assert (x + y)[|x|..] == y;
  }

  /** The two parts of a cut join up to the whole. */
  lemma JoinCut(p: string, n: nat)
    requires n <= |p|
    ensures Cut(p, n).0 + Cut(p, n).1 == p
  {
    assert p[..n] + p[n..] == p;
  }

  /** Any filled template holds each value verbatim in its own slot. */
  lemma FillRoundTrip(t: Template, slots: Slots)
    ensures ReadFilled(t, Fill(t, slots), |slots.question|, |slots.query|) == Some(slots)
  {
    var r5 := slots.result + t.cue;
    var r4 := t.resultLabel + r5;
    var r3 := slots.query + r4;
    var r2 := t.queryLabel + r3;
    var r1 := slots.question + r2;
    CutJoin(t.intro, r1);
    CutJoin(slots.question, r2);
    CutJoin(t.queryLabel, r3);
    CutJoin(slots.query, r4);
    CutJoin(t.resultLabel, r5);
    CutJoin(slots.result, t.cue);
  }

  /** Whatever reads as a filled template is the template filled with what it reads as. */
  lemma ReadFilledSound(t: Template, p: string, questionLength: nat, queryLength: nat)
    requires ReadFilled(t, p, questionLength, queryLength).Some?
    ensures Fill(t, ReadFilled(t, p, questionLength, queryLength).value) == p
  {
    var v := ReadFilled(t, p, questionLength, queryLength).value;
    var p1 := Cut(p, |t.intro|).1;
    var p2 := Cut(p1, questionLength).1;
    var p3 := Cut(p2, |t.queryLabel|).1;
    var p4 := Cut(p3, queryLength).1;
    var p5 := Cut(p4, |t.resultLabel|).1;
    JoinCut(p5, |p5| - |t.cue|);
    assert p5 == v.result + t.cue;
    JoinCut(p4, |t.resultLabel|);
    assert p4 == t.resultLabel + p5;
    JoinCut(p3, queryLength);
    assert p3 == v.query + p4;
    JoinCut(p2, |t.queryLabel|);
    assert p2 == t.queryLabel + p3;
    JoinCut(p1, questionLength);
    assert p1 == v.question + p2;
    JoinCut(p, |t.intro|);
  }

  /** The filled answer prompt holds each value verbatim in its own slot. */
  lemma AnswerPromptRoundTrip(slots: Slots)
    ensures ReadAnswerPrompt(AnswerPrompt(slots), |slots.question|, |slots.query|) == Some(slots)
  {
    FillRoundTrip(AnswerTemplate, slots);
  }

  /** Whatever reads as a filled answer prompt is the prompt filled with what it reads as. */
  lemma ReadAnswerPromptSound(p: string, questionLength: nat, queryLength: nat)
    requires ReadAnswerPrompt(p, questionLength, queryLength).Some?
    ensures AnswerPrompt(ReadAnswerPrompt(p, questionLength, queryLength).value) == p
  {
    ReadFilledSound(AnswerTemplate, p, questionLength, queryLength);
  }

  // ---- The runner ----

  /** The engine behind `SQLDatabase`: `run` executes one statement on a database state and
      gives the new state with the result text or the raised error; `describe` is
      `get_table_info` for the named tables. */
  datatype Engine<!D> = Engine(
    run: (D, string) -> (D, Result<string>),
    describe: (D, seq<string>) -> Result<string>)

  /** The mapping the runner is invoked with: `{"question": ...}`. */
  datatype Request = Request(question: string)

  /** What the runner asks of its collaborators, in order. */
  datatype Call = Execute(sql: string) | Describe(tables: seq<string>) | Generate(prompt: string)

  /** The chain `create_csv_runner` returns. `generate` is `llm | StrOutputParser()`: a prompt to
      the model's reply or its error. `queryPrompt` renders the query-generation template from
      the table description and the value bound to `{input}`, which is the whole request
      mapping. `tableInfo` is the description fetched while the runner was built. */
  datatype Runner<!D> = Runner(
    generate: string -> Result<string>,
    engine: Engine<D>,
    queryPrompt: (string, Request) -> string,
    tableInfo: string)

  /** The outcome of `create_csv_runner`, with the calls it made. */
  datatype Setup<!D> =
    | Ready(runner: Runner<D>, db: D, calls: seq<Call>)
    | SetupFailed(error: string, calls: seq<Call>)

  /** `create_csv_runner` on a fresh in-memory database `empty`: create the view over the CSV
      file with the setup statement as written, then, only if that succeeded, describe table `data`
      once. A failure of either step is raised to the caller as that step's own error, before any
      question is taken. */
  function CreateCsvRunner<D>(
    generate: string -> Result<string>, engine: Engine<D>, queryPrompt: (string, Request) -> string,
    empty: D, path: string): (s: Setup<D>)
    ensures |s.calls| >= 1 && s.calls[0] == Execute(SetupStatement(path))
    ensures (forall k :: 0 <= k < |path| ==> path[k] != '\'') ==> CsvArgument(s.calls[0].sql) == Some((path, ")"))
    ensures forall c :: c in s.calls && !c.Execute? ==> c == Describe([ViewName])
    ensures s.Ready? <==>
      engine.run(empty, s.calls[0].sql).1.Ok? && engine.describe(engine.run(empty, s.calls[0].sql).0, [ViewName]).Ok?
    ensures s.Ready? ==> s.db == engine.run(empty, s.calls[0].sql).0
    ensures s.Ready? ==> s.runner.tableInfo == engine.describe(s.db, [ViewName]).value
    ensures s.Ready? ==> s.runner.generate == generate && s.runner.engine == engine && s.runner.queryPrompt == queryPrompt
    ensures s.calls == [Execute(SetupStatement(path))] +
      (if engine.run(empty, SetupStatement(path)).1.Ok? then [Describe([ViewName])] else [])
    ensures s.SetupFailed? ==>
              s.error == (if engine.run(empty, SetupStatement(path)).1.Err?
                          then engine.run(empty, SetupStatement(path)).1.error
                          else engine.describe(engine.run(empty, SetupStatement(path)).0, [ViewName]).error)
  {
    var stmt := SetupStatement(path);
    PlainSetupReadsBack(path);
    var (db, created) := engine.run(empty, stmt);
    if created.Err? then SetupFailed(created.error, [Execute(stmt)])
    else
      match engine.describe(db, [ViewName])
      case Err(e) => SetupFailed(e, [Execute(stmt), Describe([ViewName])])
      case Ok(info) => Ready(Runner(generate, engine, queryPrompt, info), db, [Execute(stmt), Describe([ViewName])])
  }

  /** One question through the chain, with the database state after it and the calls made. */
  datatype Turn<!D> = Turn(db: D, answer: Result<string>, calls: seq<Call>)

  /** `runner.invoke({"question": ...})`: generate a draft query, extract the SQL from it,
      execute it safely, then generate the answer from the question, that same SQL and the
      execution's text. A failing generation call is raised to the caller as it is. */
  function Invoke<D>(r: Runner<D>, db: D, request: Request): (t: Turn<D>)
    ensures |t.calls| >= 1 && t.calls[0] == Generate(r.queryPrompt(r.tableInfo, request))
    ensures r.generate(t.calls[0].prompt).Err? ==>
      t.db == db && t.answer == r.generate(t.calls[0].prompt) && |t.calls| == 1
    ensures r.generate(t.calls[0].prompt).Ok? ==>
      && |t.calls| == 3 && t.calls[1].Execute? && t.calls[2].Generate?
      && t.calls[1].sql == ExtractSql(r.generate(t.calls[0].prompt).value)
      && t.db == r.engine.run(db, t.calls[1].sql).0
      && t.answer == r.generate(t.calls[2].prompt)
  {
    var draftPrompt := r.queryPrompt(r.tableInfo, request);
    match r.generate(draftPrompt)
    case Err(e) => Turn(db, Err(e), [Generate(draftPrompt)])
    case Ok(draft) =>
      var query := ExtractSql(draft);
      var (db', result) := ExecuteSafely(r.engine.run, db, query);
      var answerPrompt := AnswerPrompt(Slots(request.question, query, result));
      Turn(db', r.generate(answerPrompt), [Generate(draftPrompt), Execute(query), Generate(answerPrompt)])
  }

  /** The answer prompt of a turn holds the question as asked, the very statement that was
      executed, and the outcome of that execution: the engine's text, or a failure text
      naming that statement and the engine's error. */
  lemma AnswerPromptThreading<D>(r: Runner<D>, db: D, request: Request)
    requires r.generate(r.queryPrompt(r.tableInfo, request)).Ok?
    ensures var t := Invoke(r, db, request);
      var sql := t.calls[1].sql;
      var outcome := r.engine.run(db, sql).1;
      var slots := ReadAnswerPrompt(t.calls[2].prompt, |request.question|, |sql|);
      && slots.Some?
      && slots.value.question == request.question
      && slots.value.query == sql
      && (outcome.Ok? ==> slots.value.result == outcome.value)
      && (outcome.Err? ==> ReadFailureText(slots.value.result, |sql|) == Some((sql, outcome.error)))
  {
    var t := Invoke(r, db, request);
    var sql := t.calls[1].sql;
    AnswerPromptRoundTrip(Slots(request.question, sql, ExecuteSafely(r.engine.run, db, sql).1));
  }

  /** The questions of one interactive session, asked in order of the runner, each starting
      from the database state the previous one left. */
  function Session<D>(r: Runner<D>, db: D, requests: seq<Request>): (turns: seq<Turn<D>>)
    decreases |requests|
    ensures |turns| == |requests|
    ensures forall k :: 0 <= k < |turns| ==>
      |turns[k].calls| >= 1 && turns[k].calls[0] == Generate(r.queryPrompt(r.tableInfo, requests[k]))
    ensures forall k, c :: 0 <= k < |turns| && c in turns[k].calls ==> !c.Describe?
    ensures |turns| > 0 ==> turns[0] == Invoke(r, db, requests[0])
    ensures forall k :: 0 < k < |turns| ==> turns[k] == Invoke(r, turns[k - 1].db, requests[k])
  {
    if requests == [] then []
    else
      var t := Invoke(r, db, requests[0]);
      [t] + Session(r, t.db, requests[1..])
  }

  /** The calls of a session's turns, in order. */
  function SessionCalls<D>(turns: seq<Turn<D>>): (calls: seq<Call>)
    ensures forall c :: c in calls <==> exists k :: 0 <= k < |turns| && c in turns[k].calls
  {
    if turns == [] then []
    else
      var rest := SessionCalls(turns[1..]);
      assert forall k :: 0 <= k < |turns| - 1 ==> turns[1..][k] == turns[k + 1];
      turns[0].calls + rest
  }

  /** Setup followed by any session: the table description is fetched exactly once, for table
      `data`, while the runner is built, and every question's generation prompt carries that
      same description, whatever the executed statements did to the database since. */
  lemma DescriptionFetchedOnce<D>(
    generate: string -> Result<string>, engine: Engine<D>, queryPrompt: (string, Request) -> string,
    empty: D, path: string, requests: seq<Request>)
    requires CreateCsvRunner(generate, engine, queryPrompt, empty, path).Ready?
    ensures var s := CreateCsvRunner(generate, engine, queryPrompt, empty, path);
      var turns := Session(s.runner, s.db, requests);
      var info := engine.describe(engine.run(empty, SetupStatement(path)).0, [ViewName]).value;
      var trace := s.calls + SessionCalls(turns);
      && (forall k :: 0 <= k < |turns| ==> turns[k].calls[0] == Generate(queryPrompt(info, requests[k])))
      && |trace| >= 2 && trace[1] == Describe([ViewName])
      && (forall i :: 0 <= i < |trace| && trace[i].Describe? ==> i == 1)
  {
    var s := CreateCsvRunner(generate, engine, queryPrompt, empty, path);
    var calls := SessionCalls(Session(s.runner, s.db, requests));
    assert s.calls == [Execute(SetupStatement(path)), Describe([ViewName])];
    SessionNeverDescribes(s.runner, s.db, requests);
    TraceDescribesOnce(s.calls, calls);
  }

  /** No call of a session describes a table. */
  lemma SessionNeverDescribes<D>(r: Runner<D>, db: D, requests: seq<Request>)
    ensures forall c :: c in SessionCalls(Session(r, db, requests)) ==> !c.Describe?
  {
  }

  /** A setup trace that describes only at position 1, followed by calls that never describe. */
  lemma TraceDescribesOnce(setup: seq<Call>, calls: seq<Call>)
    requires |setup| == 2 && !setup[0].Describe? && setup[1].Describe?
    requires forall c :: c in calls ==> !c.Describe?
    ensures forall i :: 0 <= i < |setup + calls| && (setup + calls)[i].Describe? ==> i == 1
  {
    assert forall i :: 2 <= i < |setup + calls| ==> (setup + calls)[i] in calls;
  }
}
