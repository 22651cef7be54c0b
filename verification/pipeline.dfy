/** `run_query` of main.py: the five-field result record filled in along
    one of three paths (a canned intent, the token-fallback retrieval, or a
    statement written by the language model), with every exception of the
    connection, the retrieval or a model call caught into `error`. */
module Pipeline {
  import opened Text
  import opened Rows
  import opened Cursor
  import opened Routing
  import opened Retrieval
  import opened Executor
  import opened Formatter
  import opened Sanitizer

  datatype Option<+T> = None | Some(value: T)

  /** The collaborators of `run_query`, each of which may raise:
      `connect` is `get_connection()` followed by `conn.cursor()`;
      `generate` is the reply text of the statement-writing model call for a
      question; `answer` is the summarising model call of `generate_answer`
      for a question and its readable context; `explain` is
      `explain_sql_result` for a result list and a question. */
  datatype Services = Services(
    connect: Outcome<Statement -> DbResult>,
    generate: string -> Outcome<string>,
    answer: (string, string) -> Outcome<string>,
    explain: (seq<Row>, string) -> Outcome<string>)

  /** The dictionary `run_query` returns; `None` is Python's None. */
  datatype Answer = Answer(
    generatedSql: Option<string>,
    sqlResult: Option<SqlResult>,
    retrievedContext: Option<seq<Row>>,
    modelAnswer: Option<string>,
    error: Option<string>)

  const Blank: Answer := Answer(None, None, None, None, None)

  const NoData: string := "No relevant data found."

  /** The common tail of the intent path and the analytical path: record the
      statement, run it through the guarded executor, record what came back,
      and summarise a row list. */
  function ExecutePath(sql: string, query: string, cursor: Statement -> DbResult, explain: (seq<Row>, string) -> Outcome<string>): (a: Answer)
    ensures a.generatedSql == Some(sql)
    ensures a.sqlResult == Some(ExecuteSql(sql, cursor).result)
    ensures a.retrievedContext.None?
    ensures a.modelAnswer.Some? ==>
      a.sqlResult.value.RowList? && explain(a.sqlResult.value.rows, query) == Ok(a.modelAnswer.value)
    ensures a.error.Some? ==>
      a.sqlResult.value.RowList? && explain(a.sqlResult.value.rows, query) == Raised(a.error.value)
    ensures a.modelAnswer.None? && a.error.None? <==> a.sqlResult.value.Message?
  {
    var result := ExecuteSql(sql, cursor).result;
    var out := Blank.(generatedSql := Some(sql), sqlResult := Some(result));
    match result
    case Message(_) => out
    case RowList(rows) =>
      match explain(rows, query)
      case Ok(t) => out.(modelAnswer := Some(t))
      case Raised(e) => out.(error := Some(e))
  }

  /** The retrieval path without a canned intent. */
  function RetrievalPath(query: string, cursor: Statement -> DbResult, answer: (string, string) -> Outcome<string>): (a: Answer)
    ensures a.generatedSql.None? && a.sqlResult.None?
    ensures Retrieve(query, cursor).outcome.Raised? ==> a == Blank.(error := Some(Retrieve(query, cursor).outcome.message))
    ensures Retrieve(query, cursor).outcome == Ok([]) <==> a == Blank.(modelAnswer := Some(NoData))
    ensures a.retrievedContext.Some? <==> Retrieve(query, cursor).outcome.Ok? && Retrieve(query, cursor).outcome.value != []
    ensures a.retrievedContext.Some? ==>
      a.retrievedContext == Some(Retrieve(query, cursor).outcome.value)
      && var told := answer(query, ReadableContext(RowsContext(a.retrievedContext.value)));
        (told.Ok? ==> a.modelAnswer == Some(told.value) && a.error.None?)
        && (told.Raised? ==> a.error == Some(told.message) && a.modelAnswer.None?)
  {
    match Retrieve(query, cursor).outcome
    case Raised(e) => Blank.(error := Some(e))
    case Ok(results) =>
      if results == [] then Blank.(modelAnswer := Some(NoData))
      else
        var out := Blank.(retrievedContext := Some(results));
        match answer(query, ReadableContext(RowsContext(results)))
        case Ok(t) => out.(modelAnswer := Some(t))
        case Raised(e) => out.(error := Some(e))
  }

  /** The analytical path: the model writes a statement, which is sanitised
      and then executed. A failing model call leaves only the error. */
  function AnalyticalPath(query: string, cursor: Statement -> DbResult, svc: Services): (a: Answer)
    ensures svc.generate(query).Raised? ==> a == Blank.(error := Some(svc.generate(query).message))
    ensures svc.generate(query).Ok? ==> a == ExecutePath(Sanitize(svc.generate(query).value), query, cursor, svc.explain)
  {
    match svc.generate(query)
    case Raised(e) => Blank.(error := Some(e))
    case Ok(reply) => ExecutePath(Sanitize(reply), query, cursor, svc.explain)
  }

  /** `run_query`. */
  function RunQuery(query: string, svc: Services): (a: Answer)
    ensures svc.connect.Raised? ==> a == Blank.(error := Some(svc.connect.message))
    ensures svc.connect.Ok? && Classify(query) == SqlQuery ==> a == AnalyticalPath(query, svc.connect.value, svc)
    ensures svc.connect.Ok? && Classify(query) == Retrieval && ParseIntent(query).SqlAction? ==>
      a == ExecutePath(ParseIntent(query).sql, query, svc.connect.value, svc.explain)
    ensures svc.connect.Ok? && Classify(query) == Retrieval && ParseIntent(query).NoAction? ==>
      a == RetrievalPath(query, svc.connect.value, svc.answer)
    ensures a.sqlResult.None? || a.retrievedContext.None?
    ensures a.generatedSql.Some? <==> a.sqlResult.Some?
    ensures a.error.None? || a.modelAnswer.None?
    ensures a.sqlResult.Some? && a.modelAnswer.Some? ==>
      a.sqlResult.value.RowList? && svc.explain(a.sqlResult.value.rows, query) == Ok(a.modelAnswer.value)
    ensures Classify(query) == SqlQuery ==>
      a.retrievedContext.None? && (a.generatedSql.Some? ==> Terminated(a.generatedSql.value))
  {
    match svc.connect
    case Raised(e) => Blank.(error := Some(e))
    case Ok(cursor) =>
      if Classify(query) == Retrieval then
        var intent := ParseIntent(query);
        if intent.SqlAction? then ExecutePath(intent.sql, query, cursor, svc.explain)
        else RetrievalPath(query, cursor, svc.answer)
      else
        AnalyticalPath(query, cursor, svc)
  }

  // ---------------------------------------------------------------- lemmas

  /** On the retrieval path only the five non-aggregate statements are ever
      recorded, and each passes the guard. */
  lemma RetrievalStatementsAreCanned(query: string, svc: Services)
    requires Classify(query) == Retrieval
    requires RunQuery(query, svc).generatedSql.Some?
    ensures RunQuery(query, svc).generatedSql.value in {NamesSql, CompaniesSql, RolesSql, MaxAgeSql, MinAgeSql}
    ensures PassesGuard(RunQuery(query, svc).generatedSql.value)
  {
    RetrievalSkipsAggregates(query);
    CannedIntentPassesGuard(query);
  }

  /** A question that would take the names shortcut of `retrieve_from_db`
      contains "name", so `parse_intent` already resolves it to the names
      statement. */
  lemma ShortcutHasNamesIntent(query: string)
    requires NamesShortcut(query)
    ensures ParseIntent(query) == SqlAction(NamesSql, "list of names")
  {
    var n := Lower(query);
    var j :| 0 <= j < 2 && Contains(n, ["name", "names"][j]);
    if j == 1 {
      assert Contains("names", "name") by {
        assert OccursAt("names", "name", 0);
      }
      ContainsTransitive(n, "names", "name");
    }
    NameRuleWins(query);
  }

  /** Under `run_query` the names shortcut is dead code: `retrieve_from_db`
      is only reached when no intent resolved, and then the shortcut's test
      fails. */
  lemma ShortcutUnreachable(query: string)
    requires ParseIntent(query).NoAction?
    ensures !NamesShortcut(query)
  {
    if NamesShortcut(query) {
      ShortcutHasNamesIntent(query);
      assert false;
    }
  }
}
