/** String helpers with the meaning Python's str methods have on ASCII text:
    isspace/strip, lower, `in` (substring), startswith, split, splitlines,
    join and str() of an integer. Non-ASCII behaviour of these methods is
    not modelled. */
module Text {

  /** str.isspace() on one ASCII character: tab, line feed, vertical tab,
      form feed, carriage return, the four separators 0x1C-0x1F and space. */
  predicate IsSpace(c: char) {
    ('\t' <= c <= '\r') || ('\U{1C}' <= c <= ' ')
  }

  predicate AllSpace(s: string) {
    forall k :: 0 <= k < |s| ==> IsSpace(s[k])
  }

  /** A string that strip() leaves alone. */
  predicate IsStripped(s: string) {
    s == [] || (!IsSpace(s[0]) && !IsSpace(s[|s| - 1]))
  }

  predicate OccursAt(s: string, p: string, i: int) {
    0 <= i && i + |p| <= |s| && s[i..i + |p|] == p
  }

  /** Python's `p in s` for strings. */
  predicate Contains(s: string, p: string) {
    exists i :: 0 <= i <= |s| - |p| && OccursAt(s, p, i)
  }

  /** Python's `any(p in s for p in ps)`. */
  predicate ContainsAny(s: string, ps: seq<string>) {
    exists j :: 0 <= j < |ps| && Contains(s, ps[j])
  }

  predicate StartsWith(s: string, p: string) {
    |p| <= |s| && s[..|p|] == p
  }

  // ---------------------------------------------------------------- strip

  /** The number of whitespace characters at the start of s. */
  function LeadingSpaces(s: string): (n: nat)
    ensures n <= |s|
    ensures forall k :: 0 <= k < n ==> IsSpace(s[k])
    ensures n < |s| ==> !IsSpace(s[n])
    decreases |s|
  {
    if s != [] && IsSpace(s[0]) then
      var m := LeadingSpaces(s[1..]);
      assert forall k :: 1 <= k < 1 + m ==> s[k] == s[1..][k - 1];
      1 + m
    else 0
  }

  /** The index just past the last non-whitespace character of s. */
  function TextEnd(s: string): (n: nat)
    ensures n <= |s|
    ensures forall k :: n <= k < |s| ==> IsSpace(s[k])
    ensures n > 0 ==> !IsSpace(s[n - 1])
    decreases |s|
  {
    if s != [] && IsSpace(s[|s| - 1]) then
      var m := TextEnd(s[..|s| - 1]);
      assert forall k :: m <= k < |s| - 1 ==> s[k] == s[..|s| - 1][k];
      m
    else |s|
  }

  /** str.rstrip(). */
  function StripRight(s: string): (r: string)
    ensures |r| <= |s| && (r == [] || !IsSpace(r[|r| - 1]))
    ensures AllSpace(s[|r|..])
  {
    s[..TextEnd(s)]
  }

  /** str.strip(): the text between the leading and the trailing whitespace. */
  function Strip(s: string): (r: string)
    ensures IsStripped(r)
  {
    var l := s[LeadingSpaces(s)..];
    l[..TextEnd(l)]
  }

  /** The whitespace strip() removes on either side. */
  lemma StripParts(s: string) returns (lead: string, trail: string)
    ensures s == lead + Strip(s) + trail && AllSpace(lead) && AllSpace(trail)
  {
    var i := LeadingSpaces(s);
    var l := s[i..];
    var j := TextEnd(l);
    lead, trail := s[..i], l[j..];
    LeadIsSpace(s);
    TrailIsSpace(l);
    Pieces(s, i, j);
  }

  /** Cutting s at i, and its rest at j, loses nothing. */
  lemma Pieces(s: string, i: nat, j: nat)
    requires i <= |s| && j <= |s| - i
    ensures s == s[..i] + s[i..][..j] + s[i..][j..]
  {
    assert s[i..] == s[i..][..j] + s[i..][j..];
  }

  lemma LeadIsSpace(s: string)
    ensures AllSpace(s[..LeadingSpaces(s)])
  {
    var lead := s[..LeadingSpaces(s)];
    assert forall k :: 0 <= k < |lead| ==> lead[k] == s[k];
  }

  lemma TrailIsSpace(l: string)
    ensures AllSpace(l[TextEnd(l)..])
  {
    var j := TextEnd(l);
    var trail := l[j..];
    assert forall k :: 0 <= k < |trail| ==> trail[k] == l[j + k];
  }

  lemma {:induction false} LeadingSkips(w: string, x: string)
    requires AllSpace(w)
    requires x == [] || !IsSpace(x[0])
    ensures LeadingSpaces(w + x) == |w|
    decreases |w|
  {
    if w != [] {
      assert (w + x)[1..] == w[1..] + x;
      LeadingSkips(w[1..], x);
    } else {
      assert w + x == x;
    }
  }

  lemma {:induction false} TextEndSkips(x: string, w: string)
    requires AllSpace(w)
    requires x == [] || !IsSpace(x[|x| - 1])
    ensures TextEnd(x + w) == |x|
    decreases |w|
  {
    if w != [] {
      assert (x + w)[..|x + w| - 1] == x + w[..|w| - 1];
      TextEndSkips(x, w[..|w| - 1]);
    } else {
      assert x + w == x;
    }
  }

  /** strip() is determined by any split of its input into leading
      whitespace, a stripped middle and trailing whitespace. */
  lemma StripUnique(w1: string, r: string, w2: string)
    requires AllSpace(w1) && AllSpace(w2) && IsStripped(r)
    ensures Strip(w1 + r + w2) == r
  {
    var s := w1 + r + w2;
    if r == [] {
      assert s == w1 + w2 + [];
      assert AllSpace(w1 + w2);
      LeadingSkips(w1 + w2, []);
      assert s[|s|..] == [];
    } else {
      assert s == w1 + (r + w2);
      LeadingSkips(w1, r + w2);
      assert s[|w1|..] == r + w2;
      TextEndSkips(r, w2);
      assert (r + w2)[..|r|] == r;
    }
  }

  lemma StripStripped(s: string)
    requires IsStripped(s)
    ensures Strip(s) == s
  {
    StripUnique([], s, []);
    assert [] + s + [] == s;
  }

  // ---------------------------------------------------------------- lower

  /** str.lower() on one ASCII character. */
  function LowerChar(c: char): char {
    if 'A' <= c <= 'Z' then (c as int + 32) as char else c
  }

  function Lower(s: string): (r: string)
    ensures |r| == |s|
    ensures forall i :: 0 <= i < |s| ==> r[i] == LowerChar(s[i])
  {
    seq(|s|, i requires 0 <= i < |s| => LowerChar(s[i]))
  }

  lemma LowerIdempotent(s: string)
    ensures Lower(Lower(s)) == Lower(s)
  {
  }

  // ------------------------------------------------------------ substrings

  lemma ContainsAt(s: string, p: string, i: int)
    requires OccursAt(s, p, i)
    ensures Contains(s, p)
  {
  }

  /** A string containing p contains every substring of p. */
  lemma ContainsTransitive(s: string, p: string, q: string)
    requires Contains(s, p) && Contains(p, q)
    ensures Contains(s, q)
  {
    var i :| 0 <= i <= |s| - |p| && OccursAt(s, p, i);
    var j :| 0 <= j <= |p| - |q| && OccursAt(p, q, j);
    forall k | 0 <= k < |q|
      ensures s[i + j + k] == q[k]
    {
      assert q[k] == p[j + k] == s[i..i + |p|][j + k];
    }
    assert s[i + j..i + j + |q|] == q;
    assert OccursAt(s, q, i + j);
  }

  lemma ContainsInContext(a: string, s: string, b: string, p: string)
    requires Contains(s, p)
    ensures Contains(a + s + b, p)
  {
    var i :| 0 <= i <= |s| - |p| && OccursAt(s, p, i);
    assert (a + s + b)[|a| + i..|a| + i + |p|] == s[i..i + |p|];
    assert OccursAt(a + s + b, p, |a| + i);
  }

  lemma ContainsAnyInContext(a: string, s: string, b: string, ps: seq<string>)
    requires ContainsAny(s, ps)
    ensures ContainsAny(a + s + b, ps)
  {
    var j :| 0 <= j < |ps| && Contains(s, ps[j]);
    ContainsInContext(a, s, b, ps[j]);
  }

  /** A string lacking one of p's characters does not contain p. */
  lemma Lacks(s: string, p: string, c: char)
    requires c in p && c !in s
    ensures !Contains(s, p)
  {
  }

  // ------------------------------------------------------------ split/join

  /** Index of the first c in s, or |s| when there is none. */
  function IndexOf(s: string, c: char): (i: nat)
    ensures i <= |s|
    ensures i < |s| ==> s[i] == c
    ensures forall k :: 0 <= k < i ==> s[k] != c
    decreases |s|
  {
    if s == [] then 0
    else if s[0] == c then 0
    else 1 + IndexOf(s[1..], c)
  }

  /** str.split(sep) for a one-character separator. */
  function Split(s: string, sep: char): (parts: seq<string>)
    ensures |parts| >= 1
    ensures forall k :: 0 <= k < |parts| ==> sep !in parts[k]
    decreases |s|
  {
    var i := IndexOf(s, sep);
    if i == |s| then [s] else [s[..i]] + Split(s[i + 1..], sep)
  }

  /** The last piece of a split is non-empty when the text does not end
      with the separator. */
  lemma {:induction false} SplitLastNonEmpty(s: string, sep: char)
    requires s != [] && s[|s| - 1] != sep
    ensures Split(s, sep)[|Split(s, sep)| - 1] != []
    decreases |s|
  {
    var i := IndexOf(s, sep);
    if i < |s| {
      var rest := s[i + 1..];
      assert rest != [] && rest[|rest| - 1] == s[|s| - 1];
      SplitLastNonEmpty(rest, sep);
    }
  }

  /** sep.join(parts). */
  function Join(parts: seq<string>, sep: string): string
    decreases |parts|
  {
    if |parts| == 0 then []
    else if |parts| == 1 then parts[0]
    else parts[0] + sep + Join(parts[1..], sep)
  }

  /** str.splitlines() with '\n' as the only line break: no trailing empty
      line, and no lines at all for the empty string. */
  function SplitLines(s: string): seq<string> {
    if s == [] then []
    else
      var parts := Split(s, '\n');
      if parts[|parts| - 1] == [] then parts[..|parts| - 1] else parts
  }

  lemma SplitNoSep(s: string, sep: char)
    requires sep !in s
    ensures Split(s, sep) == [s]
  {
  }

  lemma SplitAtSep(a: string, b: string, sep: char)
    requires sep !in a
    ensures Split(a + [sep] + b, sep) == [a] + Split(b, sep)
  {
    var s := a + [sep] + b;
    assert s[|a|] == sep;
    assert IndexOf(s, sep) == |a|;
    assert s[..|a|] == a;
    assert s[|a| + 1..] == b;
  }

  /** A separator-free last piece after the final separator becomes the
      last element of the split. */
  lemma {:induction false} SplitAppend(a: string, c: string, sep: char)
    requires sep !in c
    ensures Split(a + [sep] + c, sep) == Split(a, sep) + [c]
    decreases |a|
  {
    if sep !in a {
      SplitAtSep(a, c, sep);
      SplitNoSep(c, sep);
      SplitNoSep(a, sep);
    } else {
      var i := IndexOf(a, sep);
      var a1, a2 := a[..i], a[i + 1..];
      assert Split(a, sep) == [a1] + Split(a2, sep) by {
        assert a == a1 + [sep] + a2;
        SplitAtSep(a1, a2, sep);
      }
      assert Split(a + [sep] + c, sep) == [a1] + Split(a2 + [sep] + c, sep) by {
        assert a + [sep] + c == a1 + [sep] + (a2 + [sep] + c);
        SplitAtSep(a1, a2 + [sep] + c, sep);
      }
      SplitAppend(a2, c, sep);
      assert [a1] + (Split(a2, sep) + [c]) == [a1] + Split(a2, sep) + [c];
    }
  }

  /** Joining the pieces of a split restores the text. */
  lemma {:induction false} JoinSplit(s: string, sep: char)
    ensures Join(Split(s, sep), [sep]) == s
    decreases |s|
  {
    var i := IndexOf(s, sep);
    if i < |s| {
      var a, rest := s[..i], s[i + 1..];
      assert s == a + [sep] + rest;
      assert Split(s, sep) == [a] + Split(rest, sep) by {
        SplitAtSep(a, rest, sep);
      }
      JoinSplit(rest, sep);
      JoinCons(a, Split(rest, sep), [sep]);
    } else {
      SplitNoSep(s, sep);
    }
  }

  lemma JoinCons(p: string, ps: seq<string>, sep: string)
    requires |ps| >= 1
    ensures Join([p] + ps, sep) == p + sep + Join(ps, sep)
  {
    assert ([p] + ps)[1..] == ps;
  }

  /** Appending a piece adds one separator and the piece at the end. */
  lemma {:induction false} JoinSnoc(ps: seq<string>, p: string, sep: string)
    requires |ps| >= 1
    ensures Join(ps + [p], sep) == Join(ps, sep) + sep + p
    decreases |ps|
  {
    if |ps| == 1 {
      assert ps + [p] == [ps[0]] + [p];
      JoinCons(ps[0], [p], sep);
    } else {
      assert (ps + [p])[1..] == ps[1..] + [p];
      JoinSnoc(ps[1..], p, sep);
      JoinCons(ps[0], ps[1..] + [p], sep);
      assert ps + [p] == [ps[0]] + (ps[1..] + [p]);
    }
  }

  /** A character in neither the pieces nor the separator is not in the join. */
  lemma {:induction false} JoinLacks(parts: seq<string>, sep: string, c: char)
    requires c !in sep
    requires forall k :: 0 <= k < |parts| ==> c !in parts[k]
    ensures c !in Join(parts, sep)
    decreases |parts|
  {
    if |parts| > 1 {
      JoinLacks(parts[1..], sep, c);
    }
  }

  /** Splitting joined separator-free pieces gives the pieces back. */
  lemma {:induction false} SplitJoin(parts: seq<string>, sep: char)
    requires |parts| >= 1
    requires forall k :: 0 <= k < |parts| ==> sep !in parts[k]
    ensures Split(Join(parts, [sep]), sep) == parts
    decreases |parts|
  {
    if |parts| == 1 {
      SplitNoSep(parts[0], sep);
    } else {
      SplitJoin(parts[1..], sep);
      SplitAtSep(parts[0], Join(parts[1..], [sep]), sep);
      assert parts[0] + [sep] + Join(parts[1..], [sep]) == Join(parts, [sep]);
      assert parts == [parts[0]] + parts[1..];
    }
  }

  // ------------------------------------------------------------ integers

  predicate IsDigit(c: char) {
    '0' <= c <= '9'
  }

  function DigitChar(d: nat): (c: char)
    requires d < 10
    ensures IsDigit(c)
  {
    ('0' as int + d) as char
  }

  /** str(n) for a non-negative int: decimal digits, no leading zero. */
  function NatToString(n: nat): (r: string)
    ensures |r| >= 1
    ensures forall k :: 0 <= k < |r| ==> IsDigit(r[k])
  {
    if n < 10 then [DigitChar(n)] else NatToString(n / 10) + [DigitChar(n % 10)]
  }

  /** str(i) for a Python int. */
  function IntToString(i: int): string {
    if i < 0 then "-" + NatToString(-i) else NatToString(i)
  }

  function DigitValue(c: char): (d: nat)
    requires IsDigit(c)
    ensures d < 10 && DigitChar(d) == c
  {
    c as int - '0' as int
  }

  function ParseNat(s: string): nat
    requires forall k :: 0 <= k < |s| ==> IsDigit(s[k])
  {
    if s == [] then 0
    else ParseNat(s[..|s| - 1]) * 10 + DigitValue(s[|s| - 1])
  }

  lemma {:induction false} ParseNatToString(n: nat)
    ensures ParseNat(NatToString(n)) == n
  {
    var r := NatToString(n);
    if n >= 10 {
      ParseNatToString(n / 10);
      assert r[..|r| - 1] == NatToString(n / 10);
    }
  }

  lemma NatToStringInjective(m: nat, n: nat)
    requires NatToString(m) == NatToString(n)
    ensures m == n
  {
    ParseNatToString(m);
    ParseNatToString(n);
  }
}
