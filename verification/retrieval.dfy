/** The retrieval path of main.py (`retrieve_from_db`): the names shortcut,
    the whole-query LIKE search, and the per-token fallback that merges the
    token searches into an insertion-ordered dictionary keyed by the first
    column. */
module Retrieval {
  import opened Text
  import opened Rows
  import opened Cursor

  /** `_STOPWORDS`. */
  const Stopwords: set<string> := {"who", "is", "what", "the", "a", "an", "of", "in", "on", "at", "for", "to"}

  // ------------------------------------------------------------ tokenising

  /** The regular-expression class `\w` on ASCII. */
  predicate IsWordChar(c: char) {
    ('a' <= c <= 'z') || ('A' <= c <= 'Z') || ('0' <= c <= '9') || c == '_'
  }

  predicate IsWord(w: string) {
    |w| > 0 && forall k :: 0 <= k < |w| ==> IsWordChar(w[k])
  }

  /** Length of the run of word characters s starts with. */
  function RunLength(s: string): (n: nat)
    ensures n <= |s|
    ensures forall k :: 0 <= k < n ==> IsWordChar(s[k])
    ensures n < |s| ==> !IsWordChar(s[n])
    decreases |s|
  {
    if s == [] || !IsWordChar(s[0]) then 0 else 1 + RunLength(s[1..])
  }

  /** `re.findall(r"\w+", s)`: the maximal runs of word characters, left to right. */
  function Words(s: string): (ws: seq<string>)
    ensures forall j :: 0 <= j < |ws| ==> IsWord(ws[j])
    decreases |s|
  {
    if s == [] then []
    else if !IsWordChar(s[0]) then Words(s[1..])
    else
      var n := RunLength(s);
      [s[..n]] + Words(s[n..])
  }

  /** A token survives the filter when it is longer than two characters and
      its lower-case form is not a stopword. */
  predicate Significant(t: string) {
    Lower(t) !in Stopwords && |t| > 2
  }

  function KeepSignificant(ws: seq<string>): (ts: seq<string>)
    ensures forall j :: 0 <= j < |ts| ==> Significant(ts[j]) && ts[j] in ws
    ensures forall j :: 0 <= j < |ws| && Significant(ws[j]) ==> ws[j] in ts
    decreases |ws|
  {
    if ws == [] then []
    else if Significant(ws[0]) then [ws[0]] + KeepSignificant(ws[1..])
    else KeepSignificant(ws[1..])
  }

  /** The fallback's `tokens`. */
  function Tokens(query: string): seq<string> {
    KeepSignificant(Words(query))
  }

  // --------------------------------------------------------- deduplication

  predicate DistinctKeys(rows: seq<Row>) {
    forall i, j :: 0 <= i < j < |rows| ==> KeyOf(rows[i]) != KeyOf(rows[j])
  }

  function KeySet(rows: seq<Row>): set<Key> {
    set r | r in rows :: KeyOf(r)
  }

  /** Position of the entry with this key, or |found| when there is none. */
  function FindKey(found: seq<Row>, key: Key): (i: nat)
    ensures i <= |found|
    ensures i < |found| ==> KeyOf(found[i]) == key
    ensures forall k :: 0 <= k < i ==> KeyOf(found[k]) != key
    decreases |found|
  {
    if found == [] then 0
    else if KeyOf(found[0]) == key then 0
    else 1 + FindKey(found[1..], key)
  }

  /** `found[key] = row` on an insertion-ordered dictionary, seen through its
      values: a present key keeps its position and takes the new row; a new
      key goes to the end. */
  function Put(found: seq<Row>, row: Row): (r: seq<Row>)
    requires DistinctKeys(found)
    ensures DistinctKeys(r)
    ensures KeySet(r) == KeySet(found) + {KeyOf(row)}
    ensures KeyOf(row) in KeySet(found) ==>
      |r| == |found| && forall j :: 0 <= j < |found| ==> r[j] == (if KeyOf(found[j]) == KeyOf(row) then row else found[j])
    ensures KeyOf(row) !in KeySet(found) ==> r == found + [row]
  {
    var i := FindKey(found, KeyOf(row));
    if i < |found| then
      var r := found[i := row];
      assert forall j :: 0 <= j < |found| && j != i ==> KeyOf(found[j]) != KeyOf(row);
      assert forall x :: x in r ==> x == row || x in found;
      forall x | x in found && KeyOf(x) != KeyOf(row)
        ensures x in r
      {
        var j :| 0 <= j < |found| && found[j] == x;
        assert r[j] == x;
      }
      assert r[i] == row;
      assert KeySet(r) == KeySet(found) + {KeyOf(row)} by {
        forall k | k in KeySet(found) + {KeyOf(row)} ensures k in KeySet(r) {
          if k != KeyOf(row) {
            var x :| x in found && KeyOf(x) == k;
            assert x in r;
          }
        }
      }
      r
    else
      assert KeyOf(row) !in KeySet(found);
      found + [row]
  }

  /** The values of the dictionary after inserting every row of the stream
      in order. */
  function Dedup(stream: seq<Row>): (d: seq<Row>)
    ensures DistinctKeys(d)
    ensures KeySet(d) == KeySet(stream)
    ensures forall r :: r in d ==> r in stream
    decreases |stream|
  {
    if stream == [] then []
    else
      var prefix := stream[..|stream| - 1];
      var last := stream[|stream| - 1];
      assert stream == prefix + [last];
      var d := Put(Dedup(prefix), last);
      assert forall r :: r in d ==> r == last || r in Dedup(prefix);
      d
  }

  // ------------------------------------------------------------- searching

  /** The token searches of the fallback, in token order; the first search
      that raises ends the loop. */
  datatype Gathered = Gathered(outcome: Outcome<seq<Row>>, issued: seq<Statement>)

  predicate FromSomeToken(r: Row, tokens: seq<string>, cursor: Statement -> DbResult) {
    exists k :: 0 <= k < |tokens| && cursor(Like(Wildcard(tokens[k]))).Rows? && r in cursor(Like(Wildcard(tokens[k]))).rows
  }

  /** The rows of the token searches joined in token order; a search that
      raised contributes nothing. */
  function Stream(tokens: seq<string>, cursor: Statement -> DbResult): seq<Row>
    decreases |tokens|
  {
    if tokens == [] then []
    else
      var head := match cursor(Like(Wildcard(tokens[0]))) case Rows(rows) => rows case DbError(_) => [];
      head + Stream(tokens[1..], cursor)
  }

  /** The first search that raises is the last one issued, and every
      search before it returned rows. */
  predicate FailsLast(issued: seq<Statement>, message: string, cursor: Statement -> DbResult) {
    |issued| >= 1
    && cursor(issued[|issued| - 1]) == DbError(message)
    && forall k :: 0 <= k < |issued| - 1 ==> cursor(issued[k]).Rows?
  }

  /** Statement k is the search for token k. */
  predicate InTokenOrder(issued: seq<Statement>, tokens: seq<string>) {
    |issued| <= |tokens| && forall k :: 0 <= k < |issued| ==> issued[k] == Like(Wildcard(tokens[k]))
  }

  /** Every token search returned rows. */
  predicate AllFound(tokens: seq<string>, cursor: Statement -> DbResult) {
    forall k :: 0 <= k < |tokens| ==> cursor(Like(Wildcard(tokens[k]))).Rows?
  }

  /** The loop over the tokens: one search per token, in token order. When
      every search returns rows, their rows are joined in token order;
      otherwise the first search that raises ends the loop with its error
      and nothing is issued after it. */
  function Gather(tokens: seq<string>, cursor: Statement -> DbResult): (g: Gathered)
    ensures InTokenOrder(g.issued, tokens)
    ensures g.outcome.Ok? ==> |g.issued| == |tokens| && AllFound(tokens, cursor)
    ensures g.outcome.Ok? ==> g.outcome.value == Stream(tokens, cursor)
    ensures g.outcome.Raised? ==> FailsLast(g.issued, g.outcome.message, cursor)
    decreases |tokens|
  {
    if tokens == [] then Gathered(Ok([]), [])
    else
      var st := Like(Wildcard(tokens[0]));
      match cursor(st)
      case DbError(m) => Gathered(Raised(m), [st])
      case Rows(rows) =>
        var rest := Gather(tokens[1..], cursor);
        IssuedCons(tokens, rest.issued);
        match rest.outcome
        case Raised(m) =>
          FailsLastCons(st, rest.issued, m, cursor);
          Gathered(Raised(m), [st] + rest.issued)
        case Ok(more) =>
          AllFoundCons(tokens, cursor);
          Gathered(Ok(rows + more), [st] + rest.issued)
  }

  lemma IssuedCons(tokens: seq<string>, rest: seq<Statement>)
    requires tokens != [] && InTokenOrder(rest, tokens[1..])
    ensures InTokenOrder([Like(Wildcard(tokens[0]))] + rest, tokens)
  {
    var issued := [Like(Wildcard(tokens[0]))] + rest;
    forall k | 1 <= k < |issued|
      ensures issued[k] == Like(Wildcard(tokens[k]))
    {
      assert issued[k] == rest[k - 1] && tokens[1..][k - 1] == tokens[k];
    }
  }

  lemma FailsLastCons(st: Statement, rest: seq<Statement>, m: string, cursor: Statement -> DbResult)
    requires cursor(st).Rows? && FailsLast(rest, m, cursor)
    ensures FailsLast([st] + rest, m, cursor)
  {
    var issued := [st] + rest;
    assert forall k :: 1 <= k < |issued| ==> issued[k] == rest[k - 1];
  }

  lemma AllFoundCons(tokens: seq<string>, cursor: Statement -> DbResult)
    requires tokens != [] && cursor(Like(Wildcard(tokens[0]))).Rows?
    requires AllFound(tokens[1..], cursor)
    ensures AllFound(tokens, cursor)
  {
    forall k | 1 <= k < |tokens|
      ensures cursor(Like(Wildcard(tokens[k]))).Rows?
    {
      assert tokens[1..][k - 1] == tokens[k];
    }
  }

  /** When every token search returned rows, a row is in the joined
      results exactly when some token search returned it. */
  lemma {:induction false} StreamFromSomeToken(r: Row, tokens: seq<string>, cursor: Statement -> DbResult)
    requires AllFound(tokens, cursor)
    ensures r in Stream(tokens, cursor) <==> FromSomeToken(r, tokens, cursor)
    decreases |tokens|
  {
    if tokens != [] {
      assert forall k :: 0 <= k < |tokens[1..]| ==> tokens[1..][k] == tokens[k + 1];
      assert AllFound(tokens[1..], cursor);
      StreamFromSomeToken(r, tokens[1..], cursor);
      FromSomeTokenCons(r, tokens, cursor);
    }
  }

  /** A row comes from some token's search exactly when it comes from the
      first token's or from one of the rest. */
  lemma FromSomeTokenCons(r: Row, tokens: seq<string>, cursor: Statement -> DbResult)
    requires tokens != []
    ensures FromSomeToken(r, tokens, cursor) <==>
      (cursor(Like(Wildcard(tokens[0]))).Rows? && r in cursor(Like(Wildcard(tokens[0]))).rows)
      || FromSomeToken(r, tokens[1..], cursor)
  {
    if FromSomeToken(r, tokens, cursor) {
      var k :| 0 <= k < |tokens| && cursor(Like(Wildcard(tokens[k]))).Rows? && r in cursor(Like(Wildcard(tokens[k]))).rows;
      if k > 0 {
        assert tokens[1..][k - 1] == tokens[k];
      }
    }
    if FromSomeToken(r, tokens[1..], cursor) {
      var k :| 0 <= k < |tokens[1..]| && cursor(Like(Wildcard(tokens[1..][k]))).Rows? && r in cursor(Like(Wildcard(tokens[1..][k]))).rows;
      assert tokens[k + 1] == tokens[1..][k];
    }
  }

  /** What `fetchall` returns or raises. */
  function FromDb(r: DbResult): Outcome<seq<Row>> {
    match r
    case Rows(rows) => Ok(rows)
    case DbError(m) => Raised(m)
  }

  /** `retrieve_from_db`: its result, or the exception it lets escape, and the
      statements it hands to the cursor. */
  datatype Fetched = Fetched(outcome: Outcome<seq<Row>>, issued: seq<Statement>)

  /** The query asks for names and carries an action word. */
  predicate NamesShortcut(query: string) {
    var n := Lower(query);
    ContainsAny(n, ["name", "names"]) && ContainsAny(n, ["all", "list", "tell", "show", "just"])
  }

  /** The token fallback: one search per token in order into a dictionary
      keyed by first column. Every statement is one token search; the
      result is the dictionary built from the joined token results, so it
      has distinct keys, holds only rows some token search returned, and
      keeps the key of every row any of them returned. The first failing
      search ends it with that search's error. */
  function TokenFallback(tokens: seq<string>, cursor: Statement -> DbResult): (f: Fetched)
    ensures |f.issued| <= |tokens|
    ensures forall k :: 0 <= k < |f.issued| ==> f.issued[k] == Like(Wildcard(tokens[k]))
    ensures f.outcome.Ok? ==>
      |f.issued| == |tokens|
      && f.outcome.value == Dedup(Stream(tokens, cursor))
      && DistinctKeys(f.outcome.value)
      && (forall r :: r in f.outcome.value ==> FromSomeToken(r, tokens, cursor))
      && (forall r :: FromSomeToken(r, tokens, cursor) ==> KeyOf(r) in KeySet(f.outcome.value))
    ensures f.outcome.Raised? ==> FailsLast(f.issued, f.outcome.message, cursor)
  {
    var g := Gather(tokens, cursor);
    match g.outcome
    case Raised(m) => Fetched(Raised(m), g.issued)
    case Ok(stream) =>
      forall r ensures r in stream <==> FromSomeToken(r, tokens, cursor) {
        StreamFromSomeToken(r, tokens, cursor);
      }
      assert forall r :: FromSomeToken(r, tokens, cursor) ==> KeyOf(r) in KeySet(stream);
      Fetched(Ok(Dedup(stream)), g.issued)
  }

  /** `retrieve_from_db`. On the fallback path the whole-query search came
      back empty, so `found or results` is the fallback's dictionary. */
  function Retrieve(query: string, cursor: Statement -> DbResult): (f: Fetched)
    ensures NamesShortcut(query) ==> f == Fetched(FromDb(cursor(Sql(NamesSql))), [Sql(NamesSql)])
    ensures !NamesShortcut(query) ==> |f.issued| >= 1 && f.issued[0] == Like(Wildcard(query))
    ensures !NamesShortcut(query) && cursor(Like(Wildcard(query))).Rows? && cursor(Like(Wildcard(query))).rows != [] ==>
      f == Fetched(Ok(cursor(Like(Wildcard(query))).rows), [Like(Wildcard(query))])
    ensures !NamesShortcut(query) && cursor(Like(Wildcard(query))).DbError? ==>
      f == Fetched(Raised(cursor(Like(Wildcard(query))).message), [Like(Wildcard(query))])
    ensures !NamesShortcut(query) && cursor(Like(Wildcard(query))) == Rows([]) ==>
      var fb := TokenFallback(Tokens(query), cursor);
      f == Fetched(fb.outcome, [Like(Wildcard(query))] + fb.issued)
  {
    if NamesShortcut(query) then
      Fetched(FromDb(cursor(Sql(NamesSql))), [Sql(NamesSql)])
    else
      var full := Like(Wildcard(query));
      match cursor(full)
      case DbError(m) => Fetched(Raised(m), [full])
      case Rows(results) =>
        if results != [] then Fetched(Ok(results), [full])
        else
          var fb := TokenFallback(Tokens(query), cursor);
          match fb.outcome
          case Raised(m) => Fetched(Raised(m), [full] + fb.issued)
          case Ok(found) =>
            Fetched(Ok(if found != [] then found else results), [full] + fb.issued)
  }

  // ---------------------------------------------------------------- lemmas

  lemma {:induction false} RunLengthUnique(s: string, n: nat)
    requires n <= |s|
    requires forall k :: 0 <= k < n ==> IsWordChar(s[k])
    requires n < |s| ==> !IsWordChar(s[n])
    ensures RunLength(s) == n
    decreases n
  {
    if n > 0 {
      RunLengthUnique(s[1..], n - 1);
    }
  }

  /** A single run of word characters is one token. */
  lemma WordsOfWord(w: string)
    requires IsWord(w)
    ensures Words(w) == [w]
  {
    RunLengthUnique(w, |w|);
    assert w[..|w|] == w;
    assert w[|w|..] == [];
  }

  /** A non-word character separates: the tokens on its two sides never merge. */
  lemma {:induction false} WordsSplitAt(a: string, c: char, b: string)
    requires !IsWordChar(c)
    ensures Words(a + [c] + b) == Words(a) + Words(b)
    decreases |a|
  {
    var s := a + [c] + b;
    if a == [] {
      assert s[1..] == b;
    } else if !IsWordChar(a[0]) {
      assert s[1..] == a[1..] + [c] + b;
      WordsSplitAt(a[1..], c, b);
    } else {
      var n := RunLength(a);
      RunLengthUnique(s, n);
      assert s[..n] == a[..n];
      assert s[n..] == a[n..] + [c] + b;
      WordsSplitAt(a[n..], c, b);
    }
  }

  /** Text without word characters has no tokens. */
  lemma {:induction false} WordsOfSeparators(s: string)
    requires forall k :: 0 <= k < |s| ==> !IsWordChar(s[k])
    ensures Words(s) == []
    decreases |s|
  {
    if s != [] {
      WordsOfSeparators(s[1..]);
    }
  }

  /** A trailing separator adds no token. */
  lemma WordsEndWith(a: string, c: char)
    requires !IsWordChar(c)
    ensures Words(a + [c]) == Words(a)
  {
    WordsOfSeparators([]);
    assert a + [c] == a + [c] + [];
    WordsSplitAt(a, c, []);
  }

  lemma WordsAfterWord(w: string, rest: string, ws: seq<string>)
    requires IsWord(w) && Words(rest) == ws
    ensures Words(w + " " + rest) == [w] + ws
  {
    WordsOfWord(w);
    WordsSplitAt(w, ' ', rest);
  }

  /** The words of a question "who is <name>?" about a one-word name. */
  lemma WordsOfQuestion(name: string)
    requires IsWord(name)
    ensures Words("who is " + name + "?") == ["who", "is", name]
  {
    var tail := name + "?";
    var mid := "is" + " " + tail;
    WordsOfWord(name);
    WordsEndWith(name, '?');
    WordsAfterWord("is", tail, [name]);
    WordsAfterWord("who", mid, ["is", name]);
    QuestionShape(name);
  }

  lemma QuestionShape(name: string)
    ensures "who is " + name + "?" == "who" + " " + ("is" + " " + (name + "?"))
  {
    assert "who is " == "who" + " " + "is" + " ";
  }

  /** The fallback for "who is <name>?" searches for the name alone: "who"
      is a stopword and "is" is too short. */
  lemma TokensOfQuestion(name: string)
    requires IsWord(name) && Significant(name)
    ensures Tokens("who is " + name + "?") == [name]
  {
    WordsOfQuestion(name);
    var ws: seq<string> := ["who", "is", name];
    assert KeepSignificant(ws[2..]) == [name] by {
      assert ws[2..] == [name] && ws[2..][1..] == [];
    }
    assert KeepSignificant(ws[1..]) == [name] by {
      assert ws[1..][1..] == ws[2..];
    }
    assert !Significant("who") by {
      assert Lower("who") == "who";
    }
  }

  /** The filter keeps a word exactly when it is significant. */
  lemma KeepOne(w: string)
    ensures KeepSignificant([w]) == if Significant(w) then [w] else []
  {
    assert [w][1..] == [];
  }

  /** The filter works word by word: it keeps the order of the words and
      their repeats, so the tokens of a+b are those of a followed by those
      of b. */
  lemma {:induction false} KeepAppend(a: seq<string>, b: seq<string>)
    ensures KeepSignificant(a + b) == KeepSignificant(a) + KeepSignificant(b)
    decreases |a|
  {
    if a != [] {
      assert (a + b)[0] == a[0];
      assert (a + b)[1..] == a[1..] + b;
      KeepAppend(a[1..], b);
    } else {
      assert a + b == b;
    }
  }

  /** The row the dictionary holds for a key: the last one inserted with it. */
  function Latest(stream: seq<Row>, key: Key): (r: Row)
    requires key in KeySet(stream)
    ensures r in stream && KeyOf(r) == key
    decreases |stream|
  {
    var last := stream[|stream| - 1];
    var prefix := stream[..|stream| - 1];
    assert stream == prefix + [last];
    if KeyOf(last) == key then last
    else
      assert key in KeySet(prefix);
      Latest(prefix, key)
  }

  /** Last write wins: every returned row is the last row of the stream
      carrying its key. */
  lemma {:induction false} DedupLastWins(stream: seq<Row>)
    ensures forall i :: 0 <= i < |Dedup(stream)| ==> Dedup(stream)[i] == Latest(stream, KeyOf(Dedup(stream)[i]))
    decreases |stream|
  {
    if stream != [] {
      var prefix := stream[..|stream| - 1];
      var last := stream[|stream| - 1];
      assert stream == prefix + [last];
      DedupLastWins(prefix);
      var d0 := Dedup(prefix);
      var d := Dedup(stream);
      assert d == Put(d0, last);
      forall i | 0 <= i < |d|
        ensures d[i] == Latest(stream, KeyOf(d[i]))
      {
        if KeyOf(last) in KeySet(d0) {
          if KeyOf(d0[i]) != KeyOf(last) {
            assert d[i] == d0[i];
          }
        } else if i < |d0| {
          assert d0[i] in d0;
          assert d[i] == d0[i];
        }
      }
    }
  }

  lemma FindKeyExtend(s: seq<Row>, x: Row, key: Key)
    ensures key in KeySet(s) ==> FindKey(s + [x], key) == FindKey(s, key) < |s|
    ensures key !in KeySet(s) && key == KeyOf(x) ==> FindKey(s + [x], key) == |s|
  {
    var i := FindKey(s, key);
    var i' := FindKey(s + [x], key);
    if key in KeySet(s) {
      var r :| r in s && KeyOf(r) == key;
      var m :| 0 <= m < |s| && s[m] == r;
      assert i < |s|;
      assert (s + [x])[i] == s[i];
    } else if key == KeyOf(x) {
      assert forall k :: 0 <= k < |s| ==> (s + [x])[k] == s[k] && s[k] in s;
      assert (s + [x])[|s|] == x;
    }
  }

  /** The rows of d come in the order their keys first appear in stream. */
  predicate FirstSeenOrdered(d: seq<Row>, stream: seq<Row>) {
    forall i, j :: 0 <= i < j < |d| ==> FindKey(stream, KeyOf(d[i])) < FindKey(stream, KeyOf(d[j]))
  }

  /** First-seen order: the rows come out in the order their keys first
      appear in the stream. */
  lemma {:induction false} DedupFirstSeenOrder(stream: seq<Row>)
    ensures FirstSeenOrdered(Dedup(stream), stream)
    decreases |stream|
  {
    if stream != [] {
      var prefix := stream[..|stream| - 1];
      var last := stream[|stream| - 1];
      assert stream == prefix + [last];
      DedupFirstSeenOrder(prefix);
      FirstSeenStep(prefix, last);
    }
  }

  /** One insertion keeps the first-seen order. */
  lemma FirstSeenStep(prefix: seq<Row>, last: Row)
    requires FirstSeenOrdered(Dedup(prefix), prefix)
    ensures FirstSeenOrdered(Put(Dedup(prefix), last), prefix + [last])
  {
    var stream := prefix + [last];
    var d0 := Dedup(prefix);
    var d := Put(d0, last);
    forall i | 0 <= i < |d0|
      ensures KeyOf(d[i]) == KeyOf(d0[i])
      ensures FindKey(stream, KeyOf(d[i])) == FindKey(prefix, KeyOf(d0[i])) < |prefix|
    {
      assert d0[i] in d0;
      FindKeyExtend(prefix, last, KeyOf(d0[i]));
    }
    if KeyOf(last) !in KeySet(d0) {
      FindKeyExtend(prefix, last, KeyOf(last));
      assert d[|d0|] == last;
    }
  }

  /** The fallback's dictionary in terms of the token results joined in
      token order: each key keeps the row of the last search that returned
      it, and keys come out in the order some search first returned them. */
  lemma FallbackLastWinsFirstSeen(tokens: seq<string>, cursor: Statement -> DbResult)
    requires TokenFallback(tokens, cursor).outcome.Ok?
    ensures var d := TokenFallback(tokens, cursor).outcome.value;
      var stream := Stream(tokens, cursor);
      (forall i :: 0 <= i < |d| ==> d[i] == Latest(stream, KeyOf(d[i])))
      && forall i, j :: 0 <= i < j < |d| ==> FindKey(stream, KeyOf(d[i])) < FindKey(stream, KeyOf(d[j]))
  {
    DedupLastWins(Stream(tokens, cursor));
    DedupFirstSeenOrder(Stream(tokens, cursor));
  }

  /** A non-word character separates tokens: the searches for a+c+b are
      those for a followed by those for b. */
  lemma TokensSplitAt(a: string, c: char, b: string)
    requires !IsWordChar(c)
    ensures Tokens(a + [c] + b) == Tokens(a) + Tokens(b)
  {
    WordsSplitAt(a, c, b);
    KeepAppend(Words(a), Words(b));
  }

  /** When no token search returns anything, the empty whole-query result
      is what comes back. */
  lemma NoTokenMatchIsEmpty(query: string, cursor: Statement -> DbResult)
    requires !NamesShortcut(query)
    requires cursor(Like(Wildcard(query))) == Rows([])
    requires forall k :: 0 <= k < |Tokens(query)| ==> cursor(Like(Wildcard(Tokens(query)[k]))) == Rows([])
    ensures Retrieve(query, cursor) == Fetched(Ok([]), [Like(Wildcard(query))] + TokenFallback(Tokens(query), cursor).issued)
  {
    var ts := Tokens(query);
    var fb := TokenFallback(ts, cursor);
    assert fb.outcome.Ok?;
    assert forall r :: !FromSomeToken(r, ts, cursor);
    assert fb.outcome.value == [];
  }
}
