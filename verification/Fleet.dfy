/** The annotator's reconcile against the stored DataProcessingUnits: which
    objects it serves, which it lists, and which one it patches. */
module FleetReconcile {
  import opened Text
  import opened Inventory
  import opened Annotator
  import AssignLoops

  datatype Dpu = Dpu(node: string, product: string, ann: Annotations)

  type Fleet = map<string, Dpu>

  /** `vendor` None is the unrestricted deployment. */
  datatype Config = Config(node: string, vendor: Option<Vendor>, fw: Firmware)

  predicate OwnsSource(cfg: Config, d: Dpu) {
    match cfg.vendor
    case None => true
    case Some(Nvidia) => "BlueField" <= d.product
    case Some(Amd) => "Pensando" <= d.product || "DSC" <= d.product
    case Some(Marvell) => "Marvell" <= d.product || "OCTEON" <= d.product
    case Some(OtherVendor(_)) => false
  }

  predicate Serves(cfg: Config, d: Dpu) {
    (cfg.node == "" || d.node == cfg.node) && OwnsSource(cfg, d)
  }

  /** The DPUs listed for one node: an empty node name lists every node. */
  predicate Listed(cfg: Config, d: Dpu, node: string) {
    OwnsSource(cfg, d) && (node == "" || d.node == node)
  }

  function ListedNames(cfg: Config, fleet: Fleet, listing: seq<string>, node: string): seq<string>
    requires forall m :: m in listing ==> m in fleet
  {
    if listing == [] then []
    else
      var m := listing[|listing| - 1];
      ListedNames(cfg, fleet, listing[..|listing| - 1], node) + (if Listed(cfg, fleet[m], node) then [m] else [])
  }

  /** The annotations of the DPUs a reconcile on this node matches: the annotator's
      own DPUs there, or on every node for a DPU that names none. */
  function Group(cfg: Config, fleet: Fleet, node: string): State {
    map n | n in fleet && Listed(cfg, fleet[n], node) :: fleet[n].ann
  }

  /** The product begins with a name of the vendor's. */
  ghost predicate VendorsProduct(v: Vendor, product: string) {
    match v
    case Nvidia => Begins(product, "BlueField")
    case Amd => Begins(product, "Pensando") || Begins(product, "DSC")
    case Marvell => Begins(product, "Marvell") || Begins(product, "OCTEON")
    case OtherVendor(_) => false
  }

  ghost predicate Begins(s: string, p: string) {
    |p| <= |s| && forall i :: 0 <= i < |p| ==> s[i] == p[i]
  }

  /** Who is matched together: the DPUs of the node, or all where it is not named,
      whose requested product is the vendor's, or all where none is set. */
  lemma GroupIff(cfg: Config, fleet: Fleet, node: string, n: string)
    ensures n in Group(cfg, fleet, node) <==>
            && n in fleet && (node == "" || fleet[n].node == node)
            && (cfg.vendor == None || VendorsProduct(cfg.vendor.value, fleet[n].product))
    ensures n in Group(cfg, fleet, node) ==> Group(cfg, fleet, node)[n] == fleet[n].ann
  {
  }

  /** Whom an annotator serves: the DPUs of its own node, or of any where it has
      none, whose product is its vendor's. */
  lemma ServesIff(cfg: Config, d: Dpu)
    ensures Serves(cfg, d) <==>
            (cfg.node == "" || d.node == cfg.node) && (cfg.vendor == None || VendorsProduct(cfg.vendor.value, d.product))
  {
  }

  /** No product is two vendors'. */
  lemma VendorsAreDisjoint(a: Vendor, b: Vendor, product: string)
    requires VendorsProduct(a, product) && VendorsProduct(b, product)
    ensures a == b
  {
    assert product[0] == 'B' || product[0] == 'P' || product[0] == 'D' || product[0] == 'M' || product[0] == 'O';
  }

  lemma {:induction false} ListedSpec(cfg: Config, fleet: Fleet, listing: seq<string>, node: string)
    requires forall m :: m in listing ==> m in fleet
    ensures forall m :: m in ListedNames(cfg, fleet, listing, node) <==> m in listing && Listed(cfg, fleet[m], node)
    ensures (forall i, j :: 0 <= i < j < |listing| ==> listing[i] != listing[j]) ==>
              forall i, j :: 0 <= i < j < |ListedNames(cfg, fleet, listing, node)| ==>
                ListedNames(cfg, fleet, listing, node)[i] != ListedNames(cfg, fleet, listing, node)[j]
  {
    if listing != [] {
      var front, m := listing[..|listing| - 1], listing[|listing| - 1];
      ListedSpec(cfg, fleet, front, node);
      assert listing == front + [m];
      var l := ListedNames(cfg, fleet, front, node);
      if forall i, j :: 0 <= i < j < |listing| ==> listing[i] != listing[j] {
        assert forall i, j :: 0 <= i < j < |front| ==> front[i] != front[j];
        forall i | 0 <= i < |l| ensures l[i] != m {
          assert l[i] in l;
          var k :| 0 <= k < |front| && front[k] == l[i];
          assert listing[k] == l[i];
        }
      }
    }
  }

  /** The listing of one reconcile enumerates the group of its node. */
  lemma ListsTheGroup(cfg: Config, fleet: Fleet, listing: seq<string>, node: string)
    requires Enumerates(listing, fleet.Keys)
    ensures Enumerates(ListedNames(cfg, fleet, listing, node), Group(cfg, fleet, node).Keys)
  {
    ListedSpec(cfg, fleet, listing, node);
  }

  method NodeViews(cfg: Config, fleet: Fleet, listing: seq<string>, node: string) returns (views: seq<View>)
    requires forall m :: m in listing ==> m in fleet
    ensures |views| == |ListedNames(cfg, fleet, listing, node)|
    ensures forall i :: 0 <= i < |views| ==>
              var m := ListedNames(cfg, fleet, listing, node)[i]; m in fleet && views[i] == View(m, fleet[m].ann)
  {
    views := [];
    for k := 0 to |listing|
      invariant |views| == |ListedNames(cfg, fleet, listing[..k], node)|
      invariant forall i :: 0 <= i < |views| ==>
                  var m := ListedNames(cfg, fleet, listing[..k], node)[i]; m in fleet && views[i] == View(m, fleet[m].ann)
    {
      assert listing[..k + 1][..k] == listing[..k];
      var item := fleet[listing[k]];
      if !OwnsSource(cfg, item) || (node != "" && item.node != node) {
        continue;
      }
      views := views + [View(listing[k], item.ann)];
    }
    assert listing[..|listing|] == listing;
  }

  /** The annotations this reconcile wants on n; None is an error return. */
  method Desired(cfg: Config, live: seq<Device>, fleet: Fleet, listing: seq<string>, n: string)
    returns (want: Option<Annotations>)
    requires Enumerates(listing, fleet.Keys) && n in fleet && Serves(cfg, fleet[n])
    ensures var order, group := ListedNames(cfg, fleet, listing, fleet[n].node), Group(cfg, fleet, fleet[n].node);
            && Enumerates(order, group.Keys)
            && want == DesiredAnnotations(fleet[n].ann, AssignmentFor(ViewsOf(group, order), live, n), cfg.fw)
  {
    ghost var order, group := ListedNames(cfg, fleet, listing, fleet[n].node), Group(cfg, fleet, fleet[n].node);
    var views := NodeViews(cfg, fleet, listing, fleet[n].node);
    ListsTheGroup(cfg, fleet, listing, fleet[n].node);
    assert views == ViewsOf(group, order);
    ViewsDistinct(group, order);
    var out := AssignLoops.AssignDevices(views, live);
    want := DesiredAnnotations(fleet[n].ann, AssignLoops.Lookup(out, n), cfg.fw);
  }

  /** The group of n moved by one protocol step of n; nothing else changed. */
  ghost predicate OneStep(cfg: Config, live: seq<Device>, listing: seq<string>, n: string, was: Fleet, now: Fleet)
    requires Enumerates(listing, was.Keys)
  {
    && now.Keys == was.Keys
    && (forall m :: m in was && m != n ==> now[m] == was[m])
    && (n in was ==> now[n].node == was[n].node && now[n].product == was[n].product)
    && (if n in was && Serves(cfg, was[n]) then
          var order := ListedNames(cfg, was, listing, was[n].node);
          && Enumerates(order, Group(cfg, was, was[n].node).Keys) && n in Group(cfg, was, was[n].node)
          && Group(cfg, now, was[n].node) == Step(Group(cfg, was, was[n].node), order, live, cfg.fw, n)
        else now == was)
  }

  lemma PatchGroup(cfg: Config, fleet: Fleet, n: string, want: Annotations)
    requires n in fleet && Serves(cfg, fleet[n])
    ensures Group(cfg, fleet[n := fleet[n].(ann := want)], fleet[n].node) == Group(cfg, fleet, fleet[n].node)[n := want]
  {
  }

  /** The stored objects, patched in place by reconciles. */
  class Store {
    var dpus: Fleet

    constructor (initial: Fleet)
      ensures dpus == initial
    {
      dpus := initial;
    }

    /** One reconcile moves the DPUs of its node by one protocol step and leaves
        every other object, and every field but the annotations, as it was. */
    method Reconcile(cfg: Config, live: seq<Device>, listing: seq<string>, n: string)
      requires Enumerates(listing, dpus.Keys)
      modifies this
      ensures OneStep(cfg, live, listing, n, old(dpus), dpus)
    {
      hide AssignmentFor, DesiredAnnotations, AnnotationsEqual, ViewsOf, OwnsSource, ListedNames;
      if n !in dpus {
        return;
      }
      var dpu := dpus[n];
      if cfg.node != "" && dpu.node != cfg.node {
        return;
      }
      if !OwnsSource(cfg, dpu) {
        return;
      }
      var desired := Desired(cfg, live, dpus, listing, n);
      if desired.None? {
        return;
      }
      if AnnotationsEqual(dpu.ann, desired.value) {
        return;
      }
      PatchGroup(cfg, dpus, n, desired.value);
      dpus := dpus[n := dpu.(ann := desired.value)];
    }
  }
}
