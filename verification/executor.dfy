/** `execute_sql` of main.py: a case-insensitive "select" prefix guard in
    front of the cursor, with driver errors turned into a message. */
module Executor {
  import opened Text
  import opened Rows
  import opened Cursor
  import Routing

  /** The advisory text returned for a statement the guard refuses (it
      starts with a space in main.py). */
  const Advisory: string := " Only SELECT queries are allowed for safety."

  /** The warning sign, U+26A0 U+FE0F, followed by "SQL Error: ". */
  const ErrorPrefix: string := "\U{26A0}\U{FE0F}SQL Error: "

  /** What `execute_sql` returns: the fetched list of rows, or a string. */
  datatype SqlResult = RowList(rows: seq<Row>) | Message(text: string)

  /** `sql.lower().startswith("select")`: no whitespace is trimmed first. */
  predicate PassesGuard(sql: string) {
    StartsWith(Lower(sql), "select")
  }

  /** The result of `execute_sql` and the statements it handed the cursor. */
  datatype Executed = Executed(result: SqlResult, issued: seq<Statement>)

  function ExecuteSql(sql: string, cursor: Statement -> DbResult): (x: Executed)
    ensures !PassesGuard(sql) <==> x.issued == []
    ensures !PassesGuard(sql) ==> x.result == Message(Advisory)
    ensures PassesGuard(sql) ==> x.issued == [Sql(sql)]
    ensures PassesGuard(sql) && x.result.RowList? ==> cursor(Sql(sql)) == Rows(x.result.rows)
    ensures PassesGuard(sql) && x.result.Message? ==>
      cursor(Sql(sql)).DbError? && x.result.text == ErrorPrefix + cursor(Sql(sql)).message
  {
    if !PassesGuard(sql) then Executed(Message(Advisory), [])
    else
      match cursor(Sql(sql))
      case Rows(rows) => Executed(RowList(rows), [Sql(sql)])
      case DbError(e) => Executed(Message(ErrorPrefix + e), [Sql(sql)])
  }

  // ---------------------------------------------------------------- lemmas

  /** The guard ignores letter case. */
  lemma GuardIgnoresCase(sql: string)
    ensures PassesGuard(Lower(sql)) == PassesGuard(sql)
  {
    LowerIdempotent(sql);
  }

  lemma UpperSelectPasses(sql: string)
    requires StartsWith(sql, "SELECT")
    ensures PassesGuard(sql)
  {
    var l := Lower(sql);
    assert l[0] == 's' && l[1] == 'e' && l[2] == 'l' && l[3] == 'e' && l[4] == 'c' && l[5] == 't';
    assert l[..6] == "select";
  }

  /** Every statement a canned intent carries gets past the guard. */
  lemma CannedIntentPassesGuard(query: string)
    requires Routing.ParseIntent(query).SqlAction?
    ensures PassesGuard(Routing.ParseIntent(query).sql)
  {
    Routing.IntentIsCanned(query);
    UpperSelectPasses(Routing.ParseIntent(query).sql);
  }

  /** A statement that does not start with "select" is refused without
      touching the cursor, e.g. "DROP TABLE x". */
  lemma DropIsRefused(cursor: Statement -> DbResult)
    ensures ExecuteSql("DROP TABLE x", cursor) == Executed(Message(Advisory), [])
  {
    assert Lower("DROP TABLE x")[0] == 'd';
  }

  /** Leading whitespace is not trimmed before the guard: a statement
      starting with a space character is refused, whatever follows. */
  lemma LeadingSpaceIsRefused(sql: string, cursor: Statement -> DbResult)
    requires sql != [] && IsSpace(sql[0])
    ensures ExecuteSql(sql, cursor) == Executed(Message(Advisory), [])
  {
    assert Lower(sql)[0] == sql[0];
  }

  /** The refusal text can never be mistaken for a driver error. */
  lemma AdvisoryIsNotAnError()
    ensures !StartsWith(Advisory, ErrorPrefix)
  {
    assert Advisory[0] == ' ';
  }
}
