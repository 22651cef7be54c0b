/** The context rendering of `generate_answer` in gemini_generator.py: rows
    become one "label: value, label: value" line each, labelled by the
    `people_info` columns; a plain-text context is passed through as is. */
module Formatter {
  import opened Text
  import opened Rows

  /** The expected columns of `people_info`, in table order. */
  const Columns: seq<string> := ["id", "name", "age", "height", "weight", "company", "role", "background"]

  /** The label of the value at position i: the column name while there is
      one, `col<i>` past the eighth value. */
  function Label(i: nat): (l: string)
    ensures '\n' !in l && ':' !in l
    ensures |l| >= 2
  {
    if i < |Columns| then Columns[i] else "col" + NatToString(i)
  }

  /** One `"{col}: {val}"` item. */
  function Item(i: nat, v: Value): string {
    Label(i) + ": " + Show(v)
  }

  /** f applied to every value of a row and its position, built as the loop
      of gemini_generator.py builds its list: one entry appended per value. */
  function Indexed(row: Row, f: (nat, Value) -> string): (out: seq<string>)
    ensures |out| == |row|
    ensures forall i :: 0 <= i < |row| ==> out[i] == f(i, row[i])
    decreases |row|
  {
    if row == [] then []
    else
      var front := row[..|row| - 1];
      assert forall i :: 0 <= i < |front| ==> row[i] == front[i];
      Indexed(front, f) + [f(|row| - 1, row[|row| - 1])]
  }

  /** The items of a row, one per value, in column order. */
  function Items(row: Row): seq<string> {
    Indexed(row, Item)
  }

  /** `", ".join(items)` for one row. */
  function FormatRow(row: Row): string {
    Join(Items(row), ", ")
  }

  /** The formatted rows, one per row, in order. */
  function Lines(rows: seq<Row>): (lines: seq<string>)
    ensures |lines| == |rows|
  {
    seq(|rows|, k requires 0 <= k < |rows| => FormatRow(rows[k]))
  }

  /** `"\n".join(formatted_rows)`. */
  function FormatRows(rows: seq<Row>): string {
    Join(Lines(rows), "\n")
  }

  /** What `generate_answer` receives: a list of rows, or anything else,
      which here is its text form. */
  datatype Context = RowsContext(rows: seq<Row>) | TextContext(text: string)

  /** `readable_context`: the formatted rows, or `str(context)`. */
  function ReadableContext(c: Context): (r: string)
    ensures c.TextContext? ==> r == c.text
    ensures c.RowsContext? && c.rows == [] ==> r == ""
  {
    match c
    case RowsContext(rows) => FormatRows(rows)
    case TextContext(text) => text
  }

  /** No value of the row shows a line break. */
  predicate SingleLineValues(row: Row) {
    forall k :: 0 <= k < |row| ==> '\n' !in Show(row[k])
  }

  // ---------------------------------------------------------------- lemmas

  /** Different positions get different labels, so no label is reused within
      a row. */
  lemma LabelsDistinct(i: nat, j: nat)
    requires i != j
    ensures Label(i) != Label(j)
  {
    if i < |Columns| && j < |Columns| {
      ColumnsDistinct(i, j);
    } else if i >= |Columns| && j >= |Columns| {
      if Label(i) == Label(j) {
        assert Label(i)[3..] == NatToString(i);
        assert Label(j)[3..] == NatToString(j);
        NatToStringInjective(i, j);
      }
    } else if i < |Columns| {
      ColumnIsNotNumbered(i, j);
    } else {
      ColumnIsNotNumbered(j, i);
    }
  }

  lemma ColumnsDistinct(i: nat, j: nat)
    requires i < |Columns| && j < |Columns| && i != j
    ensures Columns[i] != Columns[j]
  {
  }

  /** A column name never has the `col<digits>` shape: the only one starting
      with "co" continues with 'm'. */
  lemma ColumnIsNotNumbered(i: nat, j: nat)
    requires i < |Columns| <= j
    ensures Columns[i] != Label(j)
  {
    var l := Label(j);
    assert l[0] == 'c' && l[1] == 'o' && l[2] == 'l';
  }

  /** An empty row formats as the empty string. */
  lemma EmptyRowIsEmpty()
    ensures FormatRow([]) == ""
  {
  }

  /** The first value is labelled "id". */
  lemma FirstValueIsId(v: Value)
    ensures FormatRow([v]) == "id: " + Show(v)
  {
    assert Items([v]) == [Item(0, v)];
  }

  /** Formatting follows the loop of gemini_generator.py: appending a value to a
      non-empty row appends ", " and that value's item. */
  lemma FormatRowSnoc(row: Row, v: Value)
    requires row != []
    ensures FormatRow(row + [v]) == FormatRow(row) + ", " + Item(|row|, v)
  {
    ItemsSnoc(row, v);
    JoinSnoc(Items(row), Item(|row|, v), ", ");
  }

  lemma ItemsSnoc(row: Row, v: Value)
    ensures Items(row + [v]) == Items(row) + [Item(|row|, v)]
  {
    assert (row + [v])[..|row|] == row;
  }

  /** A row whose values show no line break formats as a single line. */
  lemma RowIsOneLine(row: Row)
    requires SingleLineValues(row)
    ensures '\n' !in FormatRow(row)
  {
    var items := Items(row);
    forall k | 0 <= k < |items|
      ensures '\n' !in items[k]
    {
      assert items[k] == Label(k) + ": " + Show(row[k]);
    }
    JoinLacks(items, ", ", '\n');
  }

  /** One line per row: splitting the rendering at line breaks gives back
      the formatted rows, in order. */
  lemma OneLinePerRow(rows: seq<Row>)
    requires rows != []
    requires forall k :: 0 <= k < |rows| ==> SingleLineValues(rows[k])
    ensures Split(FormatRows(rows), '\n') == Lines(rows)
    ensures |Split(FormatRows(rows), '\n')| == |rows|
  {
    var lines := Lines(rows);
    forall k | 0 <= k < |lines|
      ensures '\n' !in lines[k]
    {
      RowIsOneLine(rows[k]);
    }
    SplitJoin(lines, '\n');
  }
}
