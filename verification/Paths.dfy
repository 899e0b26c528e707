/** Dotted-path reads and writes on JSON-like objects (pkg/mapping/path.go).
    Objects are trees: no node is reachable by two paths. */
module Paths {
  import opened Text

  datatype Value =
    | Obj(fields: map<string, Value>)
    | List(items: seq<Value>)
    | Text(text: string)
    | Bool(flag: bool)
    | Num(number: int)
    | Null

  type Fields = map<string, Value>

  predicate BraceChar(c: char) {
    c == '{' || c == '}'
  }

  function TrimBracesLeft(s: string): string {
    if s != [] && BraceChar(s[0]) then TrimBracesLeft(s[1..]) else s
  }

  function TrimBracesRight(s: string): string {
    if s != [] && BraceChar(s[|s| - 1]) then TrimBracesRight(s[..|s| - 1]) else s
  }

  /** The normal form of a path: outer space, "$.", braces and a leading dot removed. */
  function Normal(path: string): string {
    TrimPrefix(TrimBracesRight(TrimBracesLeft(TrimPrefix(Trim(path), "$."))), ".")
  }

  function Parts(path: string): (parts: seq<string>)
    ensures |parts| >= 1
  {
    Split(Normal(path), '.')
  }

  /** What the walk along `parts` finds. */
  function Lookup(v: Value, parts: seq<string>): Option<Value> {
    if parts == [] then Some(v)
    else if v.Obj? && parts[0] in v.fields then Lookup(v.fields[parts[0]], parts[1..])
    else None
  }

  function GetValue(obj: Fields, path: string): Option<Value> {
    if Normal(path) == "" then Some(Obj(obj)) else Lookup(Obj(obj), Parts(path))
  }

  method Get(obj: Fields, path: string) returns (r: Option<Value>)
    ensures r == GetValue(obj, path)
  {
    if Normal(path) == "" {
      return Some(Obj(obj));
    }
    var parts := Parts(path);
    var cur := Obj(obj);
    for i := 0 to |parts|
      invariant Lookup(cur, parts[i..]) == Lookup(Obj(obj), parts)
    {
      if !cur.Obj? {
        return None;
      }
      if parts[i] !in cur.fields {
        return None;
      }
      cur := cur.fields[parts[i]];
    }
    return Some(cur);
  }

  /** The object left behind by a write, and whether the write succeeded. A failed
      write leaves whatever intermediate objects it had created by then. */
  datatype Written = Written(obj: Fields, ok: bool)

  function Write(obj: Fields, parts: seq<string>, val: Value): Written
    requires parts != []
    decreases |parts|
  {
    var p := parts[0];
    if |parts| == 1 then Written(obj[p := val], true)
    else if p !in obj then
      var w := Write(map[], parts[1..], val);
      Written(obj[p := Obj(w.obj)], w.ok)
    else if !obj[p].Obj? then Written(obj, false)
    else
      var w := Write(obj[p].fields, parts[1..], val);
      Written(obj[p := Obj(w.obj)], w.ok)
  }

  function Set(obj: Fields, path: string, val: Value): Written {
    if Normal(path) == "" then Written(obj, false) else Write(obj, Parts(path), val)
  }

  /** Some proper prefix of the path holds a value that is not an object. */
  ghost predicate Blocked(obj: Fields, parts: seq<string>) {
    exists n :: 0 < n < |parts| && Lookup(Obj(obj), parts[..n]).Some? && !Lookup(Obj(obj), parts[..n]).value.Obj?
  }

  lemma {:induction false} WriteIntoEmpty(parts: seq<string>, val: Value)
    requires parts != []
    ensures Write(map[], parts, val).ok
    decreases |parts|
  {
    if |parts| > 1 {
      WriteIntoEmpty(parts[1..], val);
    }
  }

  /** Nothing is created before a failure, so a failed write changes nothing. */
  lemma {:induction false} FailedWriteUnchanged(obj: Fields, parts: seq<string>, val: Value)
    requires parts != []
    ensures !Write(obj, parts, val).ok ==> Write(obj, parts, val).obj == obj
    decreases |parts|
  {
    if |parts| > 1 {
      if parts[0] !in obj {
        WriteIntoEmpty(parts[1..], val);
      } else if obj[parts[0]].Obj? {
        FailedWriteUnchanged(obj[parts[0]].fields, parts[1..], val);
      }
    }
  }

  /** A write fails exactly when the path runs through something that is not an object. */
  lemma {:induction false} WriteFailsIffBlocked(obj: Fields, parts: seq<string>, val: Value)
    requires parts != []
    ensures Write(obj, parts, val).ok <==> !Blocked(obj, parts)
    decreases |parts|
  {
    if |parts| > 1 {
      var p := parts[0];
      assert parts[..1] == [p];
      if p !in obj {
        WriteIntoEmpty(parts[1..], val);
        forall n | 0 < n < |parts| ensures Lookup(Obj(obj), parts[..n]).None? {
          assert parts[..n][0] == p;
        }
      } else if !obj[p].Obj? {
        assert Lookup(Obj(obj), parts[..1]) == Some(obj[p]);
        assert Blocked(obj, parts);
      } else {
        var child := obj[p].fields;
        WriteFailsIffBlocked(child, parts[1..], val);
        BlockedBelow(obj, parts);
      }
    }
  }

  lemma BlockedBelow(obj: Fields, parts: seq<string>)
    requires |parts| > 1 && parts[0] in obj && obj[parts[0]].Obj?
    ensures Blocked(obj, parts) <==> Blocked(obj[parts[0]].fields, parts[1..])
  {
    var child := obj[parts[0]].fields;
    forall n | 0 < n <= |parts|
      ensures Lookup(Obj(obj), parts[..n]) == Lookup(Obj(child), parts[1..][..n - 1])
    {
      assert parts[..n][1..] == parts[1..][..n - 1];
    }
    if Blocked(obj, parts) {
      var n :| 0 < n < |parts| && Lookup(Obj(obj), parts[..n]).Some? && !Lookup(Obj(obj), parts[..n]).value.Obj?;
      assert n > 1;
      assert Lookup(Obj(child), parts[1..][..n - 1]).Some?;
    }
    if Blocked(child, parts[1..]) {
      var n :| 0 < n < |parts[1..]| && Lookup(Obj(child), parts[1..][..n]).Some? &&
               !Lookup(Obj(child), parts[1..][..n]).value.Obj?;
      assert Lookup(Obj(obj), parts[..n + 1]) == Lookup(Obj(child), parts[1..][..n]);
    }
  }

  /** A successful write reads back. */
  lemma {:induction false} WriteThenLookup(obj: Fields, parts: seq<string>, val: Value)
    requires parts != [] && Write(obj, parts, val).ok
    ensures Lookup(Obj(Write(obj, parts, val).obj), parts) == Some(val)
    decreases |parts|
  {
    var p := parts[0];
    if |parts| == 1 {
      assert parts[1..] == [];
    } else if p !in obj {
      WriteThenLookup(map[], parts[1..], val);
    } else {
      WriteThenLookup(obj[p].fields, parts[1..], val);
    }
  }

  /** Paths that are neither a prefix nor an extension of the written one. */
  ghost predicate Apart(p: seq<string>, q: seq<string>) {
    exists i :: 0 <= i < |p| && i < |q| && p[i] != q[i]
  }

  lemma {:induction false} WriteFrame(obj: Fields, parts: seq<string>, val: Value, other: seq<string>)
    requires parts != [] && Apart(parts, other)
    ensures Lookup(Obj(Write(obj, parts, val).obj), other) == Lookup(Obj(obj), other)
    decreases |parts|
  {
    var p := parts[0];
    if other[0] == p {
      assert |parts| > 1;
      assert Apart(parts[1..], other[1..]) by {
        var i :| 0 <= i < |parts| && i < |other| && parts[i] != other[i];
        assert parts[1..][i - 1] != other[1..][i - 1];
      }
      if p !in obj {
        WriteFrame(map[], parts[1..], val, other[1..]);
        NothingInEmpty(other[1..]);
      } else if obj[p].Obj? {
        WriteFrame(obj[p].fields, parts[1..], val, other[1..]);
      }
    }
  }

  lemma NothingInEmpty(parts: seq<string>)
    requires parts != []
    ensures Lookup(Obj(map[]), parts) == None
  {
  }

  /** The laws of Set and Get on path strings. */
  lemma SetGetLaws(obj: Fields, path: string, val: Value, other: string)
    ensures Set(obj, path, val).ok <==> Normal(path) != "" && !Blocked(obj, Parts(path))
    ensures Set(obj, path, val).ok ==> GetValue(Set(obj, path, val).obj, path) == Some(val)
    ensures !Set(obj, path, val).ok ==> Set(obj, path, val).obj == obj
    ensures Normal(path) != "" && Normal(other) != "" && Apart(Parts(path), Parts(other)) ==>
              GetValue(Set(obj, path, val).obj, other) == GetValue(obj, other)
  {
    if Normal(path) != "" {
      WriteFailsIffBlocked(obj, Parts(path), val);
      FailedWriteUnchanged(obj, Parts(path), val);
      if Set(obj, path, val).ok {
        WriteThenLookup(obj, Parts(path), val);
      }
      if Normal(other) != "" && Apart(Parts(path), Parts(other)) {
        WriteFrame(obj, Parts(path), val, Parts(other));
      }
    }
  }

  // ----- Texts and steps -----

  /** A path as it is meant: no white space, brace, dollar or dot at its ends. */
  ghost predicate Clean(p: string) {
    p != "" && EndOK(p[0]) && EndOK(p[|p| - 1])
  }

  ghost predicate EndOK(c: char) {
    !IsSpace(c) && c != '{' && c != '}' && c != '.' && c != '$'
  }

  lemma BracesStay(s: string)
    requires s != [] && !BraceChar(s[0]) && !BraceChar(s[|s| - 1])
    ensures TrimBracesLeft(s) == s && TrimBracesRight(s) == s
  {
  }

  /** A clean path, alone, after "$." or ".", in braces, or padded, is that path. */
  lemma NormalForms(p: string)
    requires Clean(p)
    ensures Normal(p) == p && Normal("$." + p) == p && Normal("." + p) == p
    ensures Normal("{" + p + "}") == p && Normal("{." + p + "}") == p && Normal(" " + p + " ") == p
  {
    var forms := [p, "$." + p, "." + p, "{" + p + "}", "{." + p + "}"];
    forall i | 0 <= i < 5 ensures Normal(forms[i]) == p {
      assert "" + forms[i] + "" == forms[i];
      NormalOf(forms[i], "", "", p);
    }
    assert forms[0] == p && forms[1] == "$." + p && forms[2] == "." + p && forms[3] == "{" + p + "}" && forms[4] == "{." + p + "}";
    NormalOf(p, " ", " ", p);
  }

  /** One of the written forms of p, between blanks. */
  lemma NormalOf(core: string, a: string, b: string, p: string)
    requires Clean(p) && (a == "" || a == " ") && (b == "" || b == " ")
    requires core == p || core == "$." + p || core == "." + p || core == "{" + p + "}" || core == "{." + p + "}"
    ensures Normal(a + core + b) == p
  {
    hide Trim, TrimBracesLeft, TrimBracesRight;
    assert !IsSpace(core[0]) && !IsSpace(core[|core| - 1]);
    TrimPadding(a, core, b);
    if core == "$." + p {
      assert core[2..] == p;
      BracesStay(p);
    } else if core == "{" + p + "}" || core == "{." + p + "}" {
      var inner := if core == "{" + p + "}" then p else "." + p;
      assert core == "{" + inner + "}";
      Unbrace(inner);
      assert inner == "." + p ==> inner[1..] == p;
    } else {
      BracesStay(core);
      assert core == "." + p ==> core[1..] == p;
    }
  }

  lemma TrimPadding(a: string, core: string, b: string)
    requires core != [] && !IsSpace(core[0]) && !IsSpace(core[|core| - 1]) && (a == "" || a == " ") && (b == "" || b == " ")
    ensures Trim(a + core + b) == core
  {
    var t := core + b;
    assert TrimLeft(a + core + b) == t by {
      assert a + core + b == a + t;
      if a == "" {
        assert a + t == t;
      } else {
        assert (a + t)[1..] == t;
      }
      assert t[0] == core[0];
    }
    if b == "" {
      assert t == core;
    } else {
      assert t[|t| - 1] == ' ' && t[..|t| - 1] == core;
      assert TrimRight(core) == core;
    }
  }

  lemma Unbrace(inner: string)
    requires inner != [] && !BraceChar(inner[0]) && !BraceChar(inner[|inner| - 1])
    ensures TrimBracesRight(TrimBracesLeft("{" + inner + "}")) == inner
  {
    var s, t := "{" + inner + "}", inner + "}";
    assert s[1..] == t && t[0] == inner[0];
    assert TrimBracesLeft(s) == t;
    assert t[..|t| - 1] == inner;
  }

  /** Reading is one field at a time: the field of an object, and on from there. */
  lemma {:induction false} LookupSteps(v: Value, a: seq<string>, b: seq<string>)
    ensures Lookup(v, a + b) == if Lookup(v, a).None? then None else Lookup(Lookup(v, a).value, b)
    ensures forall k :: Lookup(v, [k]) == if v.Obj? && k in v.fields then Some(v.fields[k]) else None
    decreases |a|
  {
    assert forall k: string :: [k][1..] == [];
    if a == [] {
      assert a + b == b;
    } else {
      assert (a + b)[1..] == a[1..] + b;
      if v.Obj? && a[0] in v.fields {
        LookupSteps(v.fields[a[0]], a[1..], b);
      }
    }
  }
}
