/** Rows of the `people_info` table as the database driver hands them back:
    positional tuples of scalar values, plus the cursor seen as a pure
    function from the statement it is given to what it fetches. */
module Rows {
  import opened Text

  /** A column value: SQL NULL, an integer, or text. Decimal and
      floating-point columns are not modelled. */
  datatype Value = Null | Int(i: int) | Str(s: string)

  type Row = seq<Value>

  /** Python's str() of a value. */
  function Show(v: Value): string {
    match v
    case Null => "None"
    case Int(i) => IntToString(i)
    case Str(s) => s
  }

  /** The deduplication key of the token fallback: the first column, or the
      (empty) row itself when it has no columns. */
  datatype Key = First(v: Value) | EmptyRow

  function KeyOf(row: Row): Key {
    if |row| > 0 then First(row[0]) else EmptyRow
  }
}

module Cursor {
  import opened Text
  import opened Rows

  /** A statement handed to `cursor.execute`: literal SQL text, or the
      four-column LIKE search of the retrieval path with `pattern` bound to
      all four placeholders. */
  datatype Statement = Sql(text: string) | Like(pattern: string)

  /** What `execute` followed by `fetchall` yields: the rows, or the message
      of the exception the driver raised. */
  datatype DbResult = Rows(rows: seq<Row>) | DbError(message: string)

  /** A Python computation that either returns a value or raises an
      exception whose str() is `message`. */
  datatype Outcome<+T> = Ok(value: T) | Raised(message: string)

  /** A statement of the form `SELECT <rest>`. */
  function Select(rest: string): (sql: string)
    ensures StartsWith(sql, "SELECT")
  {
    assert ("SELECT " + rest)[..6] == "SELECT";
    "SELECT " + rest
  }

  /** The focused names statement, shared by the names shortcut of the
      retrieval path and the first canned intent. */
  const NamesSql: string := Select("id, name FROM people_info;")

  /** The LIKE argument `%text%`. */
  function Wildcard(text: string): string {
    "%" + text + "%"
  }
}
