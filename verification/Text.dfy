/** Strings as the adapter's Go code uses them: trimming, splitting on a
    separator, prefix and suffix removal, and the order `strings.Compare`
    gives. White space is the ASCII white space of `strings.TrimSpace`. */
module Text {

  datatype Option<+T> = None | Some(value: T)

  predicate IsSpace(c: char) {
    c == ' ' || c == '\t' || c == '\n' || c == '\r' || c == '\U{000B}' || c == '\U{000C}'
  }

  function TrimLeft(s: string): string {
    if s != [] && IsSpace(s[0]) then TrimLeft(s[1..]) else s
  }

  function TrimRight(s: string): string {
    if s != [] && IsSpace(s[|s| - 1]) then TrimRight(s[..|s| - 1]) else s
  }

  function Trim(s: string): string {
    TrimRight(TrimLeft(s))
  }

  lemma TrimmedText(s: string)
    requires s != [] && !IsSpace(s[0]) && !IsSpace(s[|s| - 1])
    ensures Trim(s) == s
  {
  }

  lemma {:induction false} TrimLeftEdge(s: string)
    ensures TrimLeft(s) != [] ==> !IsSpace(TrimLeft(s)[0])
  {
    if s != [] && IsSpace(s[0]) {
      TrimLeftEdge(s[1..]);
    }
  }

  lemma {:induction false} TrimRightEdge(s: string)
    ensures TrimRight(s) != [] ==> s != [] && TrimRight(s)[0] == s[0] && !IsSpace(TrimRight(s)[|TrimRight(s)| - 1])
  {
    if s != [] && IsSpace(s[|s| - 1]) {
      TrimRightEdge(s[..|s| - 1]);
    }
  }

  /** What is left begins and ends with something other than white space. */
  lemma TrimEdges(s: string)
    ensures var r := Trim(s); r != [] ==> !IsSpace(r[0]) && !IsSpace(r[|r| - 1])
    ensures var r := Trim(s); r != [] ==> r[0] !in " \t\n\r\U{000B}\U{000C}" && r[|r| - 1] !in " \t\n\r\U{000B}\U{000C}"
  {
    TrimLeftEdge(s);
    TrimRightEdge(TrimLeft(s));
  }

  function TrimPrefix(s: string, p: string): string {
    if p <= s then s[|p|..] else s
  }

  predicate HasSuffix(s: string, p: string) {
    |p| <= |s| && s[|s| - |p|..] == p
  }

  function TrimSuffix(s: string, p: string): string {
    if HasSuffix(s, p) then s[..|s| - |p|] else s
  }

  /** `strings.Split(s, sep)` for a one-character separator. */
  function Split(s: string, sep: char): (parts: seq<string>)
    ensures |parts| >= 1
  {
    if s == [] then [""]
    else
      var rest := Split(s[1..], sep);
      if s[0] == sep then [""] + rest else [[s[0]] + rest[0]] + rest[1..]
  }

  /** ASCII lower case, as far as `strings.ToLower` and `strings.EqualFold` are used here. */
  function LowerChar(c: char): char {
    if 'A' <= c <= 'Z' then ((c as int) + 32) as char else c
  }

  function Lower(s: string): (r: string)
    ensures |r| == |s|
  {
    if s == [] then [] else [LowerChar(s[0])] + Lower(s[1..])
  }

  lemma {:induction false} SplitFirst(a: string, rest: string, sep: char)
    requires sep !in a
    ensures Split(a + [sep] + rest, sep) == [a] + Split(rest, sep)
  {
    var s := a + [sep] + rest;
    if a == [] {
      assert s[1..] == rest;
    } else {
      SplitFirst(a[1..], rest, sep);
      assert s[1..] == a[1..] + [sep] + rest;
      assert s[0] == a[0] && [a[0]] + a[1..] == a;
      assert ([a[1..]] + Split(rest, sep))[1..] == Split(rest, sep);
    }
  }

  lemma {:induction false} SplitWhole(a: string, sep: char)
    requires sep !in a
    ensures Split(a, sep) == [a]
  {
    if a != [] {
      SplitWhole(a[1..], sep);
      assert [a[0]] + a[1..] == a;
      assert [a[1..]][1..] == [];
    }
  }

  /** `strings.Join` for a one-character separator. */
  ghost function Join(parts: seq<string>, sep: char): string
    requires parts != []
  {
    if |parts| == 1 then parts[0] else parts[0] + [sep] + Join(parts[1..], sep)
  }

  /** Splitting loses nothing and leaves no separator in a part. */
  lemma {:induction false} SplitThenJoin(s: string, sep: char)
    ensures Join(Split(s, sep), sep) == s
    ensures forall i :: 0 <= i < |Split(s, sep)| ==> sep !in Split(s, sep)[i]
  {
    if s != [] {
      SplitThenJoin(s[1..], sep);
      var rest, all := Split(s[1..], sep), Split(s, sep);
      assert s == [s[0]] + s[1..];
      if s[0] == sep {
        assert all[1..] == rest;
      } else if |rest| > 1 {
        assert all[1..] == rest[1..];
      }
    }
  }

  /** Parts without the separator are split again where they were joined. */
  lemma {:induction false} JoinThenSplit(parts: seq<string>, sep: char)
    requires parts != [] && forall i :: 0 <= i < |parts| ==> sep !in parts[i]
    ensures Split(Join(parts, sep), sep) == parts
  {
    if |parts| == 1 {
      SplitWhole(parts[0], sep);
    } else {
      JoinThenSplit(parts[1..], sep);
      SplitFirst(parts[0], Join(parts[1..], sep), sep);
    }
  }

  ghost predicate Blank(s: string) {
    forall c :: c in s ==> c in " \t\n\r\U{000B}\U{000C}"
  }

  /** Trimming takes white space away at both ends and nothing else. */
  lemma TrimTakesSpace(s: string) returns (a: string, b: string)
    ensures s == a + Trim(s) + b && Blank(a) && Blank(b)
  {
    a := TrimLeftTakes(s);
    b := TrimRightTakes(TrimLeft(s));
  }

  lemma {:induction false} TrimLeftTakes(s: string) returns (a: string)
    ensures s == a + TrimLeft(s) && Blank(a)
  {
    if s != [] && IsSpace(s[0]) {
      var r := TrimLeftTakes(s[1..]);
      a := [s[0]] + r;
    } else {
      a := [];
    }
  }

  lemma {:induction false} TrimRightTakes(s: string) returns (b: string)
    ensures s == TrimRight(s) + b && Blank(b)
  {
    if s != [] && IsSpace(s[|s| - 1]) {
      var r := TrimRightTakes(s[..|s| - 1]);
      b := r + [s[|s| - 1]];
      assert s == s[..|s| - 1] + [s[|s| - 1]];
    } else {
      b := [];
    }
  }

  /** The order: a prefix comes first, and else the first difference decides. */
  lemma {:induction false} LeqIs(a: string, b: string)
    ensures Leq(a, b) <==> a <= b || exists k :: FirstDifference(a, b, k) && a[k] < b[k]
  {
    if a != [] && b != [] {
      if a[0] == b[0] {
        LeqIs(a[1..], b[1..]);
        assert a == [a[0]] + a[1..] && b == [b[0]] + b[1..];
        if k :| FirstDifference(a[1..], b[1..], k) && a[1..][k] < b[1..][k] {
          assert FirstDifference(a, b, k + 1);
        }
        if k :| FirstDifference(a, b, k) && a[k] < b[k] {
          assert FirstDifference(a[1..], b[1..], k - 1);
        }
      } else {
        assert FirstDifference(a, b, 0);
        if k :| FirstDifference(a, b, k) && a[k] < b[k] {
          assert k == 0;
        }
      }
    }
  }

  ghost predicate FirstDifference(a: string, b: string, k: int) {
    0 <= k < |a| && k < |b| && a[k] != b[k] && forall j :: 0 <= j < k ==> a[j] == b[j]
  }

  lemma {:induction false} LowerAt(s: string, k: nat)
    requires k < |s|
    ensures Lower(s)[k] == LowerChar(s[k])
  {
    if k > 0 {
      LowerAt(s[1..], k - 1);
    }
  }

  /** The letters A to Z become a to z; nothing else changes. */
  lemma LowerCharIs(c: char)
    ensures 'A' <= c <= 'Z' ==> LowerChar(c) as int - c as int == 'a' as int - 'A' as int
    ensures !('A' <= c <= 'Z') ==> LowerChar(c) == c
  {
  }

  predicate EqualFold(a: string, b: string) {
    Lower(a) == Lower(b)
  }

  /** `strings.Compare(a, b) <= 0`. */
  predicate Leq(a: string, b: string) {
    if a == [] then true
    else if b == [] then false
    else if a[0] != b[0] then a[0] < b[0]
    else Leq(a[1..], b[1..])
  }

  lemma {:induction false} LeqAntisymmetric(a: string, b: string)
    requires Leq(a, b) && Leq(b, a)
    ensures a == b
  {
    if a != [] && b != [] {
      LeqAntisymmetric(a[1..], b[1..]);
      assert a == [a[0]] + a[1..] && b == [b[0]] + b[1..];
    }
  }

  lemma {:induction false} LeqTotal(a: string, b: string)
    ensures Leq(a, b) || Leq(b, a)
  {
    if a != [] && b != [] && a[0] == b[0] {
      LeqTotal(a[1..], b[1..]);
    }
  }

  lemma {:induction false} LeqTransitive(a: string, b: string, c: string)
    requires Leq(a, b) && Leq(b, c)
    ensures Leq(a, c)
  {
    if a != [] && b != [] && c != [] && a[0] == b[0] && b[0] == c[0] {
      LeqTransitive(a[1..], b[1..], c[1..]);
    }
  }

  /** Cutting at the first `sep` recovers both halves when the first half has none. */
  lemma {:induction false} SplitPointUnique(a: string, x: string, b: string, y: string, sep: char)
    requires sep !in a && sep !in b
    requires a + [sep] + x == b + [sep] + y
    ensures a == b && x == y
  {
    var s, t := a + [sep] + x, b + [sep] + y;
    assert s[|a|] == sep && t[|b|] == sep;
    assert forall i :: 0 <= i < |a| ==> s[i] == a[i];
    assert forall i :: 0 <= i < |b| ==> t[i] == b[i];
    assert a == s[..|a|] && b == t[..|b|];
    assert x == s[|a| + 1..] && y == t[|b| + 1..];
  }
}

/** The order-by-string sort the adapter asks `slices.SortFunc` for. */
module Sorting {
  import opened Text

  function Insert<T>(x: T, s: seq<T>, key: T -> string): seq<T> {
    if s == [] then [x]
    else if Leq(key(x), key(s[0])) then [x] + s
    else [s[0]] + Insert(x, s[1..], key)
  }

  function Sort<T>(s: seq<T>, key: T -> string): seq<T> {
    if s == [] then [] else Insert(s[0], Sort(s[1..], key), key)
  }

  ghost predicate SortedBy<T>(s: seq<T>, key: T -> string) {
    forall i, j :: 0 <= i < j < |s| ==> Leq(key(s[i]), key(s[j]))
  }

  /** No two positions agree on `f`. */
  ghost predicate DistinctBy<T, U>(s: seq<T>, f: T -> U) {
    forall i, j :: 0 <= i < j < |s| ==> f(s[i]) != f(s[j])
  }

  lemma {:induction false} InsertKeeps<T>(x: T, s: seq<T>, key: T -> string)
    ensures |Insert(x, s, key)| == |s| + 1
    ensures multiset(Insert(x, s, key)) == multiset(s) + multiset{x}
    ensures SortedBy(s, key) ==> SortedBy(Insert(x, s, key), key)
  {
    if s == [] {
    } else if Leq(key(x), key(s[0])) {
      assert [x] + s == Insert(x, s, key);
      if SortedBy(s, key) {
        forall j | 0 <= j < |s| ensures Leq(key(x), key(s[j])) {
          if j > 0 { LeqTransitive(key(x), key(s[0]), key(s[j])); }
        }
      }
    } else {
      LeqTotal(key(x), key(s[0]));
      InsertKeeps(x, s[1..], key);
      assert s == [s[0]] + s[1..];
      if SortedBy(s, key) {
        var r := Insert(x, s[1..], key);
        assert SortedBy(s[1..], key);
        forall j | 0 <= j < |r| ensures Leq(key(s[0]), key(r[j])) {
          assert r[j] in multiset(r);
          if r[j] != x {
            assert r[j] in multiset(s[1..]);
          }
        }
      }
    }
  }

  lemma {:induction false} InsertDistinct<T, U>(x: T, s: seq<T>, key: T -> string, f: T -> U)
    requires DistinctBy(s, f)
    requires forall y :: y in s ==> f(y) != f(x)
    ensures DistinctBy(Insert(x, s, key), f)
  {
    if s != [] && !Leq(key(x), key(s[0])) {
      InsertDistinct(x, s[1..], key, f);
      InsertKeeps(x, s[1..], key);
      var r := Insert(x, s[1..], key);
      forall j | 0 <= j < |r| ensures f(s[0]) != f(r[j]) {
        assert r[j] in multiset(r);
        assert r[j] == x || r[j] in multiset(s[1..]);
      }
    }
  }

  /** Sorting permutes: same elements with the same multiplicity, in key order. */
  lemma {:induction false} SortPermutes<T>(s: seq<T>, key: T -> string)
    ensures |Sort(s, key)| == |s|
    ensures multiset(Sort(s, key)) == multiset(s)
    ensures SortedBy(Sort(s, key), key)
  {
    if s != [] {
      SortPermutes(s[1..], key);
      InsertKeeps(s[0], Sort(s[1..], key), key);
      assert s == [s[0]] + s[1..];
    }
  }

  lemma {:induction false} SortDistinct<T, U>(s: seq<T>, key: T -> string, f: T -> U)
    requires DistinctBy(s, f)
    ensures DistinctBy(Sort(s, key), f)
  {
    if s != [] {
      SortDistinct(s[1..], key, f);
      SortPermutes(s[1..], key);
      forall y | y in Sort(s[1..], key) ensures f(y) != f(s[0]) {
        assert y in multiset(s[1..]);
      }
      InsertDistinct(s[0], Sort(s[1..], key), key, f);
    }
  }
}
