/** Two walkers over one OpenAPI schema: the path checker that vets mapping
    documents (pkg/mapping/schema_path.go) and the pruner that drops what a live
    CRD does not declare (pkg/translation/dead_fields.go). */
module SchemaPrune {
  import opened Text
  import opened Paths

  /** A schema node is itself a JSON-like object. */
  type Schema = Fields

  function FieldObj(node: Fields, name: string): Option<Fields> {
    if name in node && node[name].Obj? then Some(node[name].fields) else None
  }

  function Properties(node: Schema): Option<Fields> {
    FieldObj(node, "properties")
  }

  /** The schema of a declared field. */
  function Child(node: Schema, name: string): Option<Schema> {
    match Properties(node)
    case None => None
    case Some(props) => FieldObj(props, name)
  }

  predicate PreservesUnknown(node: Schema) {
    || ("x-kubernetes-preserve-unknown-fields" in node && node["x-kubernetes-preserve-unknown-fields"] == Bool(true))
    || "additionalProperties" in node
  }

  /** Where the pruner does not look further down. */
  predicate Open(node: Schema) {
    PreservesUnknown(node) || Properties(node).None?
  }

  // ----- The path checker -----

  function Resolve(node: Schema, parts: seq<string>): Option<Schema>
    decreases |parts|
  {
    if parts == [] then Some(node)
    else if parts[0] == "" then Resolve(node, parts[1..])
    else
      match Child(node, TrimSuffix(parts[0], "[]"))
      case None => None
      case Some(child) =>
        if !HasSuffix(parts[0], "[]") then Resolve(child, parts[1..])
        else
          match FieldObj(child, "items")
          case None => None
          case Some(items) => Resolve(items, parts[1..])
  }

  /** metadata.labels and metadata.annotations count as declared wherever metadata is. */
  function CheckedParts(dotted: string): seq<string> {
    if dotted == "metadata.labels" || dotted == "metadata.annotations" then ["metadata"] else Split(dotted, '.')
  }

  predicate HasPath(root: Schema, dotted: string) {
    Resolve(root, CheckedParts(dotted)).Some?
  }

  method SchemaHasPath(root: Schema, dotted: string) returns (ok: bool)
    ensures ok == HasPath(root, dotted)
  {
    var parts := CheckedParts(dotted);
    var node := root;
    for i := 0 to |parts|
      invariant Resolve(node, parts[i..]) == Resolve(root, parts)
    {
      var part := parts[i];
      if part == "" {
        continue;
      }
      var props := Properties(node);
      if props.None? {
        return false;
      }
      var child := FieldObj(props.value, TrimSuffix(part, "[]"));
      if child.None? {
        return false;
      }
      if HasSuffix(part, "[]") {
        var items := FieldObj(child.value, "items");
        if items.None? {
          return false;
        }
        node := items.value;
        continue;
      }
      node := child.value;
    }
    return true;
  }

  // ----- The pruner -----

  /** What is left of an object. */
  function Pruned(m: Fields, node: Schema): Fields
    decreases Obj(m)
  {
    if Open(node) then m
    else
      map k | k in m && Child(node, k).Some? ::
        if m[k].Obj? then Obj(Pruned(m[k].fields, Child(node, k).value)) else m[k]
  }

  /** The paths that were dropped. */
  function Dropped(m: Fields, node: Schema): set<seq<string>>
    decreases Obj(m)
  {
    if Open(node) then {}
    else
      (set k | k in m && Child(node, k).None? :: [k]) +
      (set k, p | k in m && Child(node, k).Some? && m[k].Obj? && p in Dropped(m[k].fields, Child(node, k).value) :: [k] + p)
  }

  /** The paths dropped at or below one field. */
  ghost function DroppedAt(m: Fields, node: Schema, k: string): set<seq<string>>
    requires k in m
  {
    if Child(node, k).None? then {[k]}
    else if m[k].Obj? then set p | p in Dropped(m[k].fields, Child(node, k).value) :: [k] + p
    else {}
  }

  ghost function DroppedAmong(m: Fields, node: Schema, keys: set<string>): set<seq<string>>
    requires keys <= m.Keys
  {
    set k, p | k in keys && p in DroppedAt(m, node, k) :: p
  }

  lemma DroppedIsAmongAll(m: Fields, node: Schema)
    requires !Open(node)
    ensures Dropped(m, node) == DroppedAmong(m, node, m.Keys)
  {
    forall q | q in Dropped(m, node) ensures q in DroppedAmong(m, node, m.Keys) {
      if k :| k in m && Child(node, k).None? && q == [k] {
        assert q in DroppedAt(m, node, k);
      } else {
        var k, p :| k in m && Child(node, k).Some? && m[k].Obj? &&
                    p in Dropped(m[k].fields, Child(node, k).value) && q == [k] + p;
        assert q in DroppedAt(m, node, k);
      }
    }
  }

  lemma AmongOneMore(m: Fields, node: Schema, keys: set<string>, k: string)
    requires keys <= m.Keys && k in m
    ensures DroppedAmong(m, node, keys + {k}) == DroppedAmong(m, node, keys) + DroppedAt(m, node, k)
  {
  }

  /** `left` is `m` pruned at every key but those still to do. */
  ghost predicate PrunedBut(left: Fields, m: Fields, node: Schema, todo: set<string>) {
    && (forall k :: k in left <==> k in m && (k in todo || Child(node, k).Some?))
    && (forall k :: k in left ==>
          left[k] == if k !in todo && m[k].Obj? then Obj(Pruned(m[k].fields, Child(node, k).value)) else m[k])
  }

  lemma PrunedButNone(left: Fields, m: Fields, node: Schema)
    requires !Open(node) && PrunedBut(left, m, node, {})
    ensures left == Pruned(m, node)
  {
  }

  /** The new value of one field, if it stays. */
  ghost function KeptAt(m: Fields, node: Schema, k: string): Option<Value>
    requires k in m
  {
    if Child(node, k).None? then None
    else if m[k].Obj? then Some(Obj(Pruned(m[k].fields, Child(node, k).value)))
    else Some(m[k])
  }

  lemma PrunedButStep(left: Fields, m: Fields, node: Schema, todo: set<string>, k: string, kept: Option<Value>)
    requires PrunedBut(left, m, node, todo) && k in todo && k in m && kept == KeptAt(m, node, k)
    ensures PrunedBut(if kept.Some? then left[k := kept.value] else left - {k}, m, node, todo - {k})
  {
  }

  method PruneField(m: Fields, node: Schema, k: string) returns (kept: Option<Value>, gone: set<seq<string>>)
    requires k in m
    ensures kept == KeptAt(m, node, k) && gone == DroppedAt(m, node, k)
    decreases Obj(m), 0
  {
    var child := Child(node, k);
    if child.None? {
      return None, {[k]};
    }
    if !m[k].Obj? {
      return Some(m[k]), {};
    }
    var sub, below := PruneMap(m[k].fields, child.value);
    return Some(Obj(sub)), set p | p in below :: [k] + p;
  }

  /** The pruner as its loop over the keys, in whatever order the map yields them. */
  method PruneMap(m: Fields, node: Schema) returns (left: Fields, dropped: set<seq<string>>)
    ensures left == Pruned(m, node) && dropped == Dropped(m, node)
    decreases Obj(m), 1
  {
    left, dropped := m, {};
    if Open(node) {
      return;
    }
    var todo := m.Keys;
    while todo != {}
      invariant todo <= m.Keys && PrunedBut(left, m, node, todo)
      invariant dropped == DroppedAmong(m, node, m.Keys - todo)
      decreases |todo|
    {
      var k :| k in todo;
      var kept, gone := PruneField(m, node, k);
      AmongOneMore(m, node, m.Keys - todo, k);
      PrunedButStep(left, m, node, todo, k, kept);
      assert m.Keys - (todo - {k}) == (m.Keys - todo) + {k};
      todo := todo - {k};
      left := if kept.Some? then left[k := kept.value] else left - {k};
      dropped := dropped + gone;
    }
    PrunedButNone(left, m, node);
    DroppedIsAmongAll(m, node);
    assert m.Keys - todo == m.Keys;
  }

  /** Everything is declared, or lies under a node the pruner leaves alone. */
  ghost predicate Conforms(m: Fields, node: Schema)
    decreases Obj(m)
  {
    Open(node) ||
    forall k :: k in m ==> Child(node, k).Some? && (m[k].Obj? ==> Conforms(m[k].fields, Child(node, k).value))
  }

  /** What conforms is exactly what the pruner leaves as it is. */
  lemma {:induction false} ConformsIffNothingDropped(m: Fields, node: Schema)
    ensures Conforms(m, node) <==> Dropped(m, node) == {}
    ensures Conforms(m, node) <==> Pruned(m, node) == m
    decreases Obj(m)
  {
    forall k | k in m && m[k].Obj? && Child(node, k).Some?
      ensures Conforms(m[k].fields, Child(node, k).value) <==> Dropped(m[k].fields, Child(node, k).value) == {}
      ensures Conforms(m[k].fields, Child(node, k).value) <==> Pruned(m[k].fields, Child(node, k).value) == m[k].fields
    {
      ConformsIffNothingDropped(m[k].fields, Child(node, k).value);
    }
    if !Open(node) {
      if !Conforms(m, node) {
        var k :| k in m && !(Child(node, k).Some? && (m[k].Obj? ==> Conforms(m[k].fields, Child(node, k).value)));
        if Child(node, k).None? {
          assert [k] in Dropped(m, node);
          assert k !in Pruned(m, node);
        } else {
          var p :| p in Dropped(m[k].fields, Child(node, k).value);
          assert [k] + p in Dropped(m, node);
          assert Pruned(m, node)[k] != m[k];
        }
      }
    }
  }

  /** Whatever the object, what is left conforms; so a second prune drops nothing. */
  lemma {:induction false} PrunedConforms(m: Fields, node: Schema)
    ensures Conforms(Pruned(m, node), node)
    decreases Obj(m)
  {
    var r := Pruned(m, node);
    if !Open(node) {
      forall k | k in r ensures Child(node, k).Some? && (r[k].Obj? ==> Conforms(r[k].fields, Child(node, k).value)) {
        if m[k].Obj? {
          PrunedConforms(m[k].fields, Child(node, k).value);
        }
      }
    }
  }

  lemma PruneTwice(m: Fields, node: Schema)
    ensures Pruned(Pruned(m, node), node) == Pruned(m, node)
    ensures Dropped(Pruned(m, node), node) == {}
  {
    PrunedConforms(m, node);
    ConformsIffNothingDropped(Pruned(m, node), node);
  }

  /** No declared value is lost: a path that reads a non-object and lies outside
      every dropped path still reads it. */
  lemma {:induction false} PruneKeepsTheRest(m: Fields, node: Schema, path: seq<string>)
    requires path != [] && forall n :: 0 < n <= |path| ==> path[..n] !in Dropped(m, node)
    requires Lookup(Obj(m), path).Some? && !Lookup(Obj(m), path).value.Obj?
    ensures Lookup(Obj(Pruned(m, node)), path) == Lookup(Obj(m), path)
    decreases |path|
  {
    var k := path[0];
    if !Open(node) {
      assert path[..1] == [k];
      assert Child(node, k).Some?;
      if m[k].Obj? {
        var sub, rest := Child(node, k).value, path[1..];
        forall n | 0 < n <= |rest| ensures rest[..n] !in Dropped(m[k].fields, sub) {
          assert path[..n + 1] == [k] + rest[..n];
        }
        PruneKeepsTheRest(m[k].fields, sub, rest);
      }
    }
  }

  // ----- The schema, key by key -----

  /** The field k is declared with an object schema under "properties". */
  ghost predicate Declared(node: Schema, k: string) {
    "properties" in node && node["properties"].Obj? && k in node["properties"].fields && node["properties"].fields[k].Obj?
  }

  /** The pruner looks no further where unknown fields are preserved, additional
      properties are described, or nothing is declared. */
  lemma OpenIff(node: Schema)
    ensures Open(node) <==>
            || ("x-kubernetes-preserve-unknown-fields" in node && node["x-kubernetes-preserve-unknown-fields"] == Bool(true))
            || "additionalProperties" in node
            || !("properties" in node && node["properties"].Obj?)
  {
  }

  lemma DeclaredIff(node: Schema, k: string)
    ensures Child(node, k).Some? <==> Declared(node, k)
    ensures Declared(node, k) ==> Child(node, k).value == node["properties"].fields[k].fields
  {
  }

  /** One level of pruning, in the words of the schema: everything stays in an open
      node; elsewhere exactly the declared fields stay, objects pruned in turn. */
  lemma PrunesFieldByField(m: Fields, node: Schema, k: string)
    ensures Open(node) ==> Pruned(m, node) == m && Dropped(m, node) == {}
    ensures !Open(node) && k in m ==>
              && (k in Pruned(m, node) <==> Declared(node, k))
              && ([k] in Dropped(m, node) <==> !Declared(node, k))
              && (Declared(node, k) ==>
                    Pruned(m, node)[k] == if m[k].Obj? then Obj(Pruned(m[k].fields, node["properties"].fields[k].fields)) else m[k])
  {
    hide Child, Open, Declared;
    DeclaredIff(node, k);
    if !Open(node) && k in m {
      DroppedHere(m, node, k);
    }
  }

  /** What is dropped below a declared object field is reported under that field. */
  lemma DroppedBelow(m: Fields, node: Schema, k: string, p: seq<string>)
    requires !Open(node) && k in m && m[k].Obj? && Declared(node, k) && p != []
    ensures [k] + p in Dropped(m, node) <==> p in Dropped(m[k].fields, node["properties"].fields[k].fields)
  {
    DeclaredIff(node, k);
    hide Child, Open, Declared;
    assert ([k] + p)[0] == k && ([k] + p)[1..] == p;
  }

  lemma DroppedHere(m: Fields, node: Schema, k: string)
    requires !Open(node) && k in m
    ensures [k] in Dropped(m, node) <==> Child(node, k).None?
  {
    hide Child, Open, Pruned;
    assert [k][0] == k && [k][1..] == [];
    if Child(node, k).None? {
      assert [k] in Dropped(m, node);
    } else if m[k].Obj? {
      NoEmptyPath(m[k].fields, Child(node, k).value);
    }
  }

  lemma NoEmptyPath(m: Fields, node: Schema)
    ensures [] !in Dropped(m, node)
  {
  }

  /** metadata.labels and metadata.annotations are as good as metadata. */
  lemma MetadataMaps(root: Schema)
    ensures HasPath(root, "metadata.labels") == Declared(root, "metadata")
    ensures HasPath(root, "metadata.annotations") == Declared(root, "metadata")
  {
    DeclaredIff(root, "metadata");
    hide Child, Declared;
    assert !HasSuffix("metadata", "[]") && ["metadata"][1..] == [];
  }

  /** A slice step goes through a declared list field with described items. */
  lemma SliceStep(node: Schema, name: string, rest: seq<string>)
    ensures Resolve(node, [name + "[]"] + rest) ==
            if !Declared(node, name) then None
            else
              var field := node["properties"].fields[name].fields;
              if "items" in field && field["items"].Obj? then Resolve(field["items"].fields, rest) else None
  {
    DeclaredIff(node, name);
    var step := name + "[]";
    assert step[|step| - 2..] == "[]" && step[..|step| - 2] == name;
    hide Child, Declared;
    assert ([step] + rest)[1..] == rest;
  }

  // ----- The two walkers agree -----

  /** Steps that name one field each: not empty, and not a slice step. */
  ghost predicate Plain(parts: seq<string>) {
    forall i :: 0 <= i < |parts| ==> parts[i] != "" && !HasSuffix(parts[i], "[]")
  }

  lemma PlainStep(node: Schema, parts: seq<string>)
    requires parts != [] && Plain(parts)
    ensures Plain(parts[1..])
    ensures Resolve(node, parts) ==
            if Child(node, parts[0]).None? then None else Resolve(Child(node, parts[0]).value, parts[1..])
  {
    hide Child;
    assert parts[0] != "" && !HasSuffix(parts[0], "[]");
  }

  /** Writing a leaf at an accepted path keeps an object conforming. */
  lemma {:induction false} AcceptedWriteConforms(m: Fields, node: Schema, parts: seq<string>, val: Value)
    requires parts != [] && Plain(parts) && !val.Obj?
    requires Resolve(node, parts).Some? && Conforms(m, node)
    ensures Conforms(Write(m, parts, val).obj, node)
    decreases |parts|
  {
    PlainStep(node, parts);
    hide Resolve, Plain, Child, Open, Conforms;
    var k := parts[0];
    if |parts| == 1 {
      ConformsUpdate(m, node, k, val);
    } else if k !in m || m[k].Obj? {
      var child, at := Child(node, k).value, if k in m then m[k].fields else map[];
      EmptyConforms(child);
      if !Open(node) {
        if k in m {
          FieldConforms(m, node, k);
        }
        AcceptedWriteConforms(at, child, parts[1..], val);
      }
      ConformsUpdate(m, node, k, Obj(Write(at, parts[1..], val).obj));
    }
  }

  lemma FieldConforms(m: Fields, node: Schema, k: string)
    requires Conforms(m, node) && k in m && !Open(node)
    ensures Child(node, k).Some? && (m[k].Obj? ==> Conforms(m[k].fields, Child(node, k).value))
  {
  }

  lemma ConformsUpdate(m: Fields, node: Schema, k: string, v: Value)
    requires Conforms(m, node)
    requires !Open(node) ==> Child(node, k).Some? && (v.Obj? ==> Conforms(v.fields, Child(node, k).value))
    ensures Conforms(m[k := v], node)
  {
    hide Child, Open;
  }

  /** The schema path leaves the declared part: it passes a node the pruner leaves alone. */
  ghost predicate LeavesDeclared(node: Schema, parts: seq<string>)
    decreases |parts|
  {
    Open(node) ||
    (parts != [] && Child(node, parts[0]).Some? && |parts| > 1 && LeavesDeclared(Child(node, parts[0]).value, parts[1..]))
  }

  /** Every step, taken as it is written, names a declared field. */
  ghost predicate Literal(node: Schema, parts: seq<string>)
    decreases |parts|
  {
    parts == [] || (Child(node, parts[0]).Some? && Literal(Child(node, parts[0]).value, parts[1..]))
  }

  /** Any path at all, one write into an empty object: the pruner keeps it exactly
      when its steps are literally declared or it enters an open node. */
  lemma {:induction false} KeptIffDeclared(node: Schema, parts: seq<string>, val: Value)
    requires parts != [] && !val.Obj?
    ensures Dropped(Write(map[], parts, val).obj, node) == {} <==> Literal(node, parts) || LeavesDeclared(node, parts)
    decreases |parts|
  {
    hide Child, Open, Dropped;
    var k, w := parts[0], Write(map[], parts, val).obj;
    ConformsIffNothingDropped(w, node);
    assert w.Keys == {k};
    if !Open(node) && Child(node, k).Some? && |parts| > 1 {
      var sub := Write(map[], parts[1..], val).obj;
      assert w[k] == Obj(sub);
      KeptIffDeclared(Child(node, k).value, parts[1..], val);
      ConformsIffNothingDropped(sub, Child(node, k).value);
    } else if |parts| == 1 {
      assert parts[1..] == [];
      assert w[k] == val;
    }
  }

  /** On plain steps the checker reads the path as it is written. */
  lemma {:induction false} PlainIsLiteral(node: Schema, parts: seq<string>)
    requires Plain(parts)
    ensures Resolve(node, parts).Some? <==> Literal(node, parts)
    decreases |parts|
  {
    hide Child;
    if parts != [] {
      PlainStep(node, parts);
      if Child(node, parts[0]).Some? {
        PlainIsLiteral(Child(node, parts[0]).value, parts[1..]);
      }
    }
  }

  /** One write of a leaf: the checker accepts a path exactly as the pruner keeps
      it, on plain steps and outside open nodes. */
  lemma AgreeOnOneWrite(node: Schema, parts: seq<string>, val: Value)
    requires parts != [] && Plain(parts) && !val.Obj?
    ensures Dropped(Write(map[], parts, val).obj, node) == {} <==>
            Resolve(node, parts).Some? || LeavesDeclared(node, parts)
  {
    KeptIffDeclared(node, parts, val);
    PlainIsLiteral(node, parts);
  }

  /** An accepted path below spec, as text: its write survives exactly when its
      steps are literally declared or it enters an open node. */
  lemma AcceptedKeptIff(crd: Schema, path: string, val: Value)
    requires Normal(path) == path && path != "" && HasPath(crd, path) && !val.Obj?
    requires Parts(path)[0] == "spec" && |Parts(path)| > 1
    ensures Child(crd, "spec").Some?
    ensures var node, rest := Child(crd, "spec").value, Parts(path)[1..];
            DroppedFromSpec(Set(map[], path, val).obj, crd) == {} <==> Literal(node, rest) || LeavesDeclared(node, rest)
  {
    var parts := Parts(path);
    CheckedIsWritten(path);
    assert Resolve(crd, parts).Some?;
    hide Normal, Parts, CheckedParts, Dropped;
    SpecStep(crd, parts);
    var rest := parts[1..];
    KeptIffDeclared(Child(crd, "spec").value, rest, val);
    assert Write(map[], parts, val).obj == map["spec" := Obj(Write(map[], rest, val).obj)];
  }

  lemma SpecStep(node: Schema, parts: seq<string>)
    requires parts != [] && parts[0] == "spec" && Resolve(node, parts).Some?
    ensures Child(node, "spec").Some?
  {
    assert !HasSuffix("spec", "[]");
  }

  // ----- Acceptance guarantees survival exactly on plain paths -----

  /** A closed schema that declares what the checker looks for along the path, and nothing else. */
  ghost function Accepting(parts: seq<string>): Schema {
    if parts == [] then map["properties" := Obj(map[])]
    else if parts[0] == "" then Accepting(parts[1..])
    else if HasSuffix(parts[0], "[]") then Declares(TrimSuffix(parts[0], "[]"), ListOf(Accepting(parts[1..])))
    else Declares(parts[0], Accepting(parts[1..]))
  }

  ghost function Declares(name: string, node: Schema): Schema {
    map["properties" := Obj(map[name := Obj(node)])]
  }

  /** A list field that declares no fields of its own. */
  ghost function ListOf(items: Schema): Schema {
    map["properties" := Obj(map[]), "items" := Obj(items)]
  }

  lemma KeywordsDiffer()
    ensures "properties" != "items" && "x-kubernetes-preserve-unknown-fields" !in {"properties", "items"}
    ensures "additionalProperties" !in {"properties", "items"}
  {
    assert |"properties"| == 10 && |"items"| == 5;
    assert |"additionalProperties"| == 20 && |"x-kubernetes-preserve-unknown-fields"| == 36;
  }

  lemma DeclaresFacts(name: string, node: Schema, k: string)
    ensures !Open(Declares(name, node)) && Child(Declares(name, node), k) == if k == name then Some(node) else None
    ensures !Open(ListOf(node)) && Child(ListOf(node), k) == None && FieldObj(ListOf(node), "items") == Some(node)
    ensures !Open(Accepting([])) && Child(Accepting([]), k) == None
  {
    KeywordsDiffer();
  }

  lemma {:induction false} AcceptingAccepts(parts: seq<string>)
    ensures Resolve(Accepting(parts), parts).Some?
    decreases |parts|
  {
    if parts != [] {
      AcceptingAccepts(parts[1..]);
      var rest := Accepting(parts[1..]);
      DeclaresFacts(TrimSuffix(parts[0], "[]"), ListOf(rest), TrimSuffix(parts[0], "[]"));
      DeclaresFacts(parts[0], rest, parts[0]);
      DeclaresFacts("", rest, "");
      hide Child, FieldObj, Declares, ListOf, Open;
    }
  }

  /** Under an empty step: nothing is declared, or a list field that declares nothing. */
  lemma {:induction false} EmptyStepUndeclared(parts: seq<string>)
    ensures !Open(Accepting(parts))
    ensures Child(Accepting(parts), "").Some? ==>
              parts != [] && !Open(Child(Accepting(parts), "").value) && forall k :: Child(Child(Accepting(parts), "").value, k) == None
    decreases |parts|
  {
    DeclaresFacts("", map[], "");
    if parts != [] {
      var rest := Accepting(parts[1..]);
      EmptyStepUndeclared(parts[1..]);
      var name := TrimSuffix(parts[0], "[]");
      DeclaresFacts(name, ListOf(rest), "");
      DeclaresFacts(parts[0], rest, "");
      forall k ensures Child(ListOf(rest), k) == None && !Open(ListOf(rest)) {
        DeclaresFacts("", rest, k);
      }
      hide Child, Open, Declares, ListOf;
    }
  }

  /** A step that is not plain is not kept under that schema. */
  lemma {:induction false} AcceptingDrops(parts: seq<string>)
    requires !Plain(parts)
    ensures !Literal(Accepting(parts), parts) && !LeavesDeclared(Accepting(parts), parts)
    decreases |parts|
  {
    var k, tail := parts[0], parts[1..];
    var rest := Accepting(tail);
    EmptyStepUndeclared(tail);
    DeclaresFacts(TrimSuffix(k, "[]"), ListOf(rest), k);
    DeclaresFacts(k, rest, k);
    hide Child, Open, Declares, ListOf;
    if k != "" && !HasSuffix(k, "[]") {
      assert !Plain(tail) by {
        var i :| 0 <= i < |parts| && !(parts[i] != "" && !HasSuffix(parts[i], "[]"));
        assert tail[i - 1] == parts[i];
      }
      AcceptingDrops(tail);
    } else if k == "" {
      assert Accepting(parts) == rest;
      if Child(rest, "").Some? {
        NothingBelow(Child(rest, "").value, tail);
      }
    } else {
      assert |TrimSuffix(k, "[]")| < |k|;
    }
  }

  lemma NothingBelow(node: Schema, parts: seq<string>)
    requires parts != [] && !Open(node) && forall k :: Child(node, k) == None
    ensures !Literal(node, parts) && !LeavesDeclared(node, parts)
  {
    hide Child, Open;
  }

  /** Over all schemas: what the checker accepts the pruner keeps, exactly when no
      step of the path is empty or a slice step. */
  lemma SurvivesIffPlain(parts: seq<string>, val: Value)
    requires parts != [] && !val.Obj?
    ensures Plain(parts) <==>
            forall node: Schema :: Resolve(node, parts).Some? ==> Dropped(Write(map[], parts, val).obj, node) == {}
  {
    if Plain(parts) {
      forall node: Schema | Resolve(node, parts).Some? ensures Dropped(Write(map[], parts, val).obj, node) == {} {
        AgreeOnOneWrite(node, parts, val);
      }
    } else {
      var node := Accepting(parts);
      AcceptingAccepts(parts);
      AcceptingDrops(parts);
      KeptIffDeclared(node, parts, val);
    }
  }

  // ----- Where the walkers part -----

  const LEAF := Value.Text("x")

  /** A custom resource whose spec declares the one list field `a`. */
  function ListSchema(): Schema {
    map["properties" := Obj(map["spec" := Obj(SpecSchema())])]
  }

  function SpecSchema(): Schema {
    map["properties" := Obj(map["a" := Obj(map["items" := Obj(map[])])])]
  }

  lemma SpecSchemaFacts(k: string)
    ensures !Open(SpecSchema()) && Child(ListSchema(), "spec") == Some(SpecSchema())
    ensures Child(SpecSchema(), k) == if k == "a" then Some(map["items" := Obj(map[])]) else None
  {
    assert "properties" in SpecSchema() && |SpecSchema()| == 1;
    assert "x-kubernetes-preserve-unknown-fields" != "properties" && "additionalProperties" != "properties" by {
      assert |"properties"| == 10 && |"additionalProperties"| == 20 && |"x-kubernetes-preserve-unknown-fields"| == 36;
    }
  }

  lemma PartsOf(path: string, first: string, rest: string)
    requires path == first + ['.'] + rest && '.' !in first && Normal(path) == path
    ensures Parts(path) == [first] + Split(rest, '.')
  {
    hide Normal;
    SplitFirst(first, rest, '.');
  }

  /** A path that starts and ends in none of the characters trimmed away is in normal form. */
  lemma NormalText(path: string)
    requires path != [] && !IsSpace(path[0]) && !IsSpace(path[|path| - 1])
    requires path[0] != '$' && path[0] != '.' && !BraceChar(path[0]) && !BraceChar(path[|path| - 1])
    ensures Normal(path) == path
  {
    TrimmedText(path);
  }

  lemma NotMetadata(path: string)
    requires |path| < 15
    ensures CheckedParts(path) == Split(path, '.')
  {
    assert |"metadata.labels"| == 15 && |"metadata.annotations"| == 20;
  }

  lemma SlicePath()
    ensures Normal("spec.a[]") == "spec.a[]" && Parts("spec.a[]") == ["spec", "a[]"] && CheckedParts("spec.a[]") == ["spec", "a[]"]
  {
    var path := "spec.a[]";
    assert path == "spec" + ['.'] + "a[]" && path[0] == 's' && path[|path| - 1] == ']' && |path| == 8;
    hide Normal, Split, CheckedParts;
    NormalText(path);
    NotMetadata(path);
    PartsOf(path, "spec", "a[]");
    SplitWhole("a[]", '.');
  }

  lemma EmptyStepPath()
    ensures Normal("spec..a") == "spec..a" && Parts("spec..a") == ["spec", "", "a"] && CheckedParts("spec..a") == ["spec", "", "a"]
  {
    var path := "spec..a";
    assert path == "spec" + ['.'] + ".a" && ".a" == "" + ['.'] + "a" && path[0] == 's' && path[|path| - 1] == 'a' && |path| == 7;
    hide Normal, Split, CheckedParts;
    NormalText(path);
    NotMetadata(path);
    PartsOf(path, "spec", ".a");
    SplitFirst("", "a", '.');
    SplitWhole("a", '.');
  }

  lemma DropsUndeclared(sub: Fields, k: string)
    requires k in sub && k != "a"
    ensures DroppedFromSpec(map["spec" := Obj(sub)], ListSchema()) != {}
  {
    SpecSchemaFacts(k);
    hide Child, Open;
    assert [k] in Dropped(sub, SpecSchema());
  }

  /** A slice step is where the walkers part: the checker accepts `spec.a[]` on a
      list field, while the write creates a field of that literal name. */
  lemma SliceStepDisagrees()
    ensures HasPath(ListSchema(), "spec.a[]") && Set(map[], "spec.a[]", LEAF).ok
    ensures DroppedFromSpec(Set(map[], "spec.a[]", LEAF).obj, ListSchema()) != {}
  {
    SlicePath();
    SpecSchemaFacts("a");
    SliceAccepted();
    hide Child, Open, Normal, Parts, CheckedParts, Resolve;
    var w := Write(map[], ["a[]"], LEAF).obj;
    assert ["spec", "a[]"][1..] == ["a[]"];
    assert Write(map[], ["spec", "a[]"], LEAF) == Written(map["spec" := Obj(w)], true);
    assert "a[]" in w && "a[]" != "a";
    DropsUndeclared(w, "a[]");
  }

  lemma SliceAccepted()
    ensures Resolve(ListSchema(), ["spec", "a[]"]).Some?
  {
    SpecSchemaFacts("a");
    var items: Schema := map["items" := Obj(map[])];
    assert HasSuffix("a[]", "[]") && TrimSuffix("a[]", "[]") == "a" && !HasSuffix("spec", "[]");
    hide Child, Open;
    assert ["spec", "a[]"][1..] == ["a[]"] && ["a[]"][1..] == [];
    assert FieldObj(items, "items") == Some(map[]);
    assert Resolve(SpecSchema(), ["a[]"]) == Resolve(map[], []);
  }

  /** So is an empty step: the checker skips it, while the write creates a field
      with the empty name. */
  lemma EmptyStepDisagrees()
    ensures HasPath(ListSchema(), "spec..a") && Set(map[], "spec..a", LEAF).ok
    ensures DroppedFromSpec(Set(map[], "spec..a", LEAF).obj, ListSchema()) != {}
  {
    EmptyStepPath();
    SpecSchemaFacts("a");
    assert !HasSuffix("a", "[]") && !HasSuffix("spec", "[]");
    hide Child, Open, Normal, Parts, CheckedParts;
    assert ["spec", "", "a"][1..] == ["", "a"] && ["", "a"][1..] == ["a"] && ["a"][1..] == [];
    assert Resolve(SpecSchema(), ["a"]).Some?;
    var leaf := Write(map[], ["a"], LEAF).obj;
    var w := Write(map[], ["", "a"], LEAF).obj;
    assert w == map["" := Obj(leaf)];
    assert Write(map[], ["spec", "", "a"], LEAF) == Written(map["spec" := Obj(w)], true);
    DropsUndeclared(w, "");
  }

  // ----- Emitted objects -----

  datatype FieldWrite = FieldWrite(to: string, val: Value)

  /** `buildObject`: one Set per resolved field, stopping at the first error. */
  function Build(dest: Fields, writes: seq<FieldWrite>): Option<Fields>
    decreases |writes|
  {
    if writes == [] then Some(dest)
    else
      var w := Set(dest, writes[0].to, writes[0].val);
      if w.ok then Build(w.obj, writes[1..]) else None
  }

  method BuildObject(writes: seq<FieldWrite>) returns (dest: Option<Fields>)
    ensures dest == Build(map[], writes)
  {
    var cur: Fields := map[];
    for i := 0 to |writes|
      invariant Build(cur, writes[i..]) == Build(map[], writes)
    {
      var w := Set(cur, writes[i].to, writes[i].val);
      if !w.ok {
        return None;
      }
      cur := w.obj;
    }
    return Some(cur);
  }

  lemma {:induction false} LaterWritesKeep(dest: Fields, writes: seq<FieldWrite>, path: string, val: Value)
    requires Normal(path) != "" && GetValue(dest, path) == Some(val) && Build(dest, writes).Some?
    requires forall i :: 0 <= i < |writes| ==> Apart(Parts(writes[i].to), Parts(path))
    ensures GetValue(Build(dest, writes).value, path) == Some(val)
    decreases |writes|
  {
    hide Normal, Parts, GetValue, Apart;
    if writes != [] {
      SetGetLaws(dest, writes[0].to, writes[0].val, path);
      LaterWritesKeep(Set(dest, writes[0].to, writes[0].val).obj, writes[1..], path, val);
    }
  }

  /** A built object reads every field that no later write touches as it was written. */
  lemma {:induction false} BuiltFieldsRead(dest: Fields, writes: seq<FieldWrite>, i: nat)
    requires Build(dest, writes).Some? && i < |writes|
    requires forall j :: i < j < |writes| ==> Apart(Parts(writes[j].to), Parts(writes[i].to))
    ensures GetValue(Build(dest, writes).value, writes[i].to) == Some(writes[i].val)
    decreases |writes|
  {
    hide Normal, Parts, GetValue, Apart;
    var w := Set(dest, writes[0].to, writes[0].val);
    if i == 0 {
      SetGetLaws(dest, writes[0].to, writes[0].val, writes[0].to);
      forall j | 0 <= j < |writes[1..]| ensures Apart(Parts(writes[1..][j].to), Parts(writes[0].to)) {
        assert writes[1..][j] == writes[j + 1];
      }
      LaterWritesKeep(w.obj, writes[1..], writes[0].to, writes[0].val);
    } else {
      forall j | i - 1 < j < |writes[1..]| ensures Apart(Parts(writes[1..][j].to), Parts(writes[1..][i - 1].to)) {
        assert writes[1..][j] == writes[j + 1] && writes[1..][i - 1] == writes[i];
      }
      BuiltFieldsRead(w.obj, writes[1..], i - 1);
    }
  }

  /** The spec object pruned against the spec schema, as `pruneUnknownSpec` does. */
  function DroppedFromSpec(obj: Fields, crd: Schema): set<seq<string>> {
    match (FieldObj(obj, "spec"), Child(crd, "spec"))
    case (Some(spec), Some(node)) => Dropped(spec, node)
    case _ => {}
  }

  /** A write the mapping conformance suite accepts: already in normal form, plain,
      declared, and not an object. Writes outside spec only need to stay outside. */
  ghost predicate Accepted(w: FieldWrite, crd: Schema) {
    && Normal(w.to) == w.to && w.to != "" && Plain(Parts(w.to)) && !w.val.Obj?
    && (Parts(w.to)[0] == "spec" ==> HasPath(crd, w.to))
  }

  ghost predicate SpecConforms(obj: Fields, crd: Schema) {
    "spec" in obj && obj["spec"].Obj? && Child(crd, "spec").Some? ==>
      Conforms(obj["spec"].fields, Child(crd, "spec").value)
  }

  lemma MetadataIsNotSpec()
    ensures Split("metadata.labels", '.')[0] != "spec"
    ensures Split("metadata.annotations", '.')[0] != "spec"
  {
    var a := "metadata.labels";
    assert a[0] == 'm' && Split(a, '.') == [[a[0]] + Split(a[1..], '.')[0]] + Split(a[1..], '.')[1..];
    var b := "metadata.annotations";
    assert b[0] == 'm' && Split(b, '.') == [[b[0]] + Split(b[1..], '.')[0]] + Split(b[1..], '.')[1..];
    assert "spec"[0] == 's';
  }

  lemma SpecWriteConforms(obj: Fields, parts: seq<string>, val: Value, crd: Schema)
    requires parts != [] && Plain(parts) && !val.Obj? && SpecConforms(obj, crd)
    requires parts[0] == "spec" ==> Resolve(crd, parts).Some?
    ensures SpecConforms(Write(obj, parts, val).obj, crd)
  {
    hide Conforms;
    if parts[0] == "spec" && |parts| > 1 {
      assert parts[0] != "" && !HasSuffix(parts[0], "[]");
      var node := Child(crd, "spec").value;
      assert Resolve(node, parts[1..]).Some? && Plain(parts[1..]);
      hide Resolve, Plain, HasSuffix;
      EmptyConforms(node);
      AcceptedWriteConforms(if "spec" in obj && obj["spec"].Obj? then obj["spec"].fields else map[], node, parts[1..], val);
    }
  }

  lemma EmptyConforms(node: Schema)
    ensures Conforms(map[], node)
  {
  }

  lemma CheckedIsWritten(path: string)
    requires Normal(path) == path && Parts(path)[0] == "spec"
    ensures CheckedParts(path) == Parts(path)
  {
    hide Normal;
    MetadataIsNotSpec();
  }

  lemma AcceptedSetConforms(obj: Fields, w: FieldWrite, crd: Schema)
    requires Accepted(w, crd) && SpecConforms(obj, crd)
    ensures SpecConforms(Set(obj, w.to, w.val).obj, crd)
  {
    hide SpecConforms, Resolve, Plain, Write, Normal, Parts, CheckedParts;
    if Parts(w.to)[0] == "spec" {
      CheckedIsWritten(w.to);
    }
    SpecWriteConforms(obj, Parts(w.to), w.val, crd);
  }

  lemma {:induction false} BuildConforms(dest: Fields, writes: seq<FieldWrite>, crd: Schema)
    requires forall i :: 0 <= i < |writes| ==> Accepted(writes[i], crd)
    requires SpecConforms(dest, crd) && Build(dest, writes).Some?
    ensures SpecConforms(Build(dest, writes).value, crd)
    decreases |writes|
  {
    if writes != [] {
      assert Accepted(writes[0], crd);
      AcceptedSetConforms(dest, writes[0], crd);
      BuildConforms(Set(dest, writes[0].to, writes[0].val).obj, writes[1..], crd);
    }
  }

  /** Agreement: an object built from accepted writes loses nothing to the pruner. */
  lemma AcceptedObjectSurvives(writes: seq<FieldWrite>, crd: Schema)
    requires forall i :: 0 <= i < |writes| ==> Accepted(writes[i], crd)
    requires Build(map[], writes).Some?
    ensures DroppedFromSpec(Build(map[], writes).value, crd) == {}
  {
    BuildConforms(map[], writes, crd);
    var obj := Build(map[], writes).value;
    if FieldObj(obj, "spec").Some? && Child(crd, "spec").Some? {
      ConformsIffNothingDropped(obj["spec"].fields, Child(crd, "spec").value);
    }
  }
}
