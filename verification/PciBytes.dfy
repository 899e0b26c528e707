/** Byte-level readers of the PCI bus (pkg/discovery/pci.go): Vital Product Data
    as laid out in Appendix I of PCI Local Bus Specification 3.0, and the Device
    Serial Number capability of section 7.9.3 of PCI Express Base
    Specification 4.0. */
module PciBytes {
  import opened Text

  type byte = b: int | 0 <= b < 256

  const END_TAG: byte := 0x78
  const VPD_R: nat := 0x10
  const KEY_S: byte := 0x53
  const KEY_N: byte := 0x4E
  const EXT_CAP_START: nat := 0x100
  const CAP_DSN: nat := 3

  function Word(lo: byte, hi: byte): nat {
    (lo as int) + 256 * (hi as int)
  }

  function ToText(data: seq<byte>): string {
    seq(|data|, i requires 0 <= i < |data| => data[i] as char)
  }

  // ----- Vital Product Data -----

  /** The value of the first SN keyword at or after offset i. */
  function Keywords(data: seq<byte>, i: nat): Option<string>
    requires i <= |data|
    decreases |data| - i
  {
    if i + 3 > |data| then None
    else
      var n: nat := data[i + 2];
      if i + 3 + n > |data| then None
      else if data[i] == KEY_S && data[i + 1] == KEY_N then Some(Trim(ToText(data[i + 3..i + 3 + n])))
      else Keywords(data, i + 3 + n)
  }

  /** The serial the resource list from offset i on yields. */
  function Resources(data: seq<byte>, i: nat): Option<string>
    decreases |data| - i
  {
    if i >= |data| || data[i] == END_TAG then None
    else if data[i] < 0x80 then Resources(data, i + 1 + data[i] % 8)
    else if i + 2 >= |data| then None
    else
      var length, body := Word(data[i + 1], data[i + 2]), i + 3;
      if body + length > |data| then None
      else
        var sn := if data[i] - 0x80 == VPD_R then Keywords(data[body..body + length], 0) else None;
        if sn.Some? then sn else Resources(data, body + length)
  }

  method VpdKeywords(data: seq<byte>) returns (sn: Option<string>)
    ensures sn == Keywords(data, 0)
  {
    var i := 0;
    while i + 3 <= |data|
      invariant i <= |data|
      invariant Keywords(data, i) == Keywords(data, 0)
    {
      var s, n := data[i] == KEY_S && data[i + 1] == KEY_N, data[i + 2] as int;
      if i + 3 + n > |data| {
        return None;
      }
      if s {
        return Some(Trim(ToText(data[i + 3..i + 3 + n])));
      }
      i := i + 3 + n;
    }
    return None;
  }

  method VpdSerial(data: seq<byte>) returns (sn: Option<string>)
    ensures sn == Resources(data, 0)
  {
    var i := 0;
    while i < |data|
      invariant Resources(data, i) == Resources(data, 0)
    {
      if data[i] == END_TAG {
        return None;
      }
      if data[i] < 0x80 {
        i := i + 1 + data[i] % 8;
        continue;
      }
      if i + 2 >= |data| {
        return None;
      }
      var tag, length := data[i] - 0x80, Word(data[i + 1], data[i + 2]);
      var body := i + 3;
      if body + length > |data| {
        return None;
      }
      if tag == VPD_R {
        sn := VpdKeywords(data[body..body + length]);
        if sn.Some? {
          return;
        }
      }
      i := body + length;
    }
    return None;
  }

  // ----- The encoder the specification describes -----

  datatype Keyword = Keyword(k0: byte, k1: byte, value: seq<byte>)

  datatype Resource =
    | Small(tag: nat, data: seq<byte>)
    | Large(tag: nat, data: seq<byte>)
    | ReadOnly(keywords: seq<Keyword>)

  ghost predicate FitsKeyword(k: Keyword) {
    |k.value| < 256
  }

  ghost predicate FitsKeywords(ks: seq<Keyword>) {
    forall i :: 0 <= i < |ks| ==> FitsKeyword(ks[i])
  }

  /** Encodable: lengths fit their fields, a small resource is not the end tag,
      and the large resource 0x10 is written as its keyword list. */
  ghost predicate Fits(r: Resource) {
    match r
    case Small(tag, data) => tag < 16 && |data| < 8 && !(tag == 15 && data == [])
    case Large(tag, data) => tag < 128 && tag != VPD_R && |data| < 65536
    case ReadOnly(ks) => FitsKeywords(ks) && |EncodeKeywords(ks)| < 65536
  }

  ghost predicate FitsAll(rs: seq<Resource>) {
    forall i :: 0 <= i < |rs| ==> Fits(rs[i])
  }

  ghost function EncodeKeywords(ks: seq<Keyword>): seq<byte>
    requires FitsKeywords(ks)
  {
    if ks == [] then []
    else
      assert FitsKeyword(ks[0]);
      [ks[0].k0, ks[0].k1, |ks[0].value|] + ks[0].value + EncodeKeywords(ks[1..])
  }

  ghost function EncodeLarge(tag: nat, data: seq<byte>): seq<byte>
    requires tag < 128 && |data| < 65536
  {
    [0x80 + tag, |data| % 256, |data| / 256] + data
  }

  ghost function Encode(r: Resource): seq<byte>
    requires Fits(r)
  {
    match r
    case Small(tag, data) => [8 * tag + |data|] + data
    case Large(tag, data) => EncodeLarge(tag, data)
    case ReadOnly(ks) => EncodeLarge(VPD_R, EncodeKeywords(ks))
  }

  ghost function EncodeAll(rs: seq<Resource>): seq<byte>
    requires FitsAll(rs)
  {
    if rs == [] then [] else Encode(rs[0]) + EncodeAll(rs[1..])
  }

  /** The value of the first SN keyword of a list. */
  function FirstSN(ks: seq<Keyword>): Option<string> {
    if ks == [] then None
    else if ks[0].k0 == KEY_S && ks[0].k1 == KEY_N then Some(Trim(ToText(ks[0].value)))
    else FirstSN(ks[1..])
  }

  /** The serial of the first read-only resource that has one. */
  function FirstSerial(rs: seq<Resource>): Option<string> {
    if rs == [] then None
    else if rs[0].ReadOnly? && FirstSN(rs[0].keywords).Some? then FirstSN(rs[0].keywords)
    else FirstSerial(rs[1..])
  }

  /** Keywords(data, i) looks only at what follows i. */
  lemma {:induction false} KeywordsFrom(data: seq<byte>, i: nat)
    requires i <= |data|
    ensures Keywords(data, i) == Keywords(data[i..], 0)
    decreases |data| - i
  {
    hide Trim;
    var rest := data[i..];
    if i + 3 <= |data| {
      var n: nat := data[i + 2];
      assert rest[0] == data[i] && rest[1] == data[i + 1] && rest[2] == data[i + 2];
      if i + 3 + n <= |data| {
        assert data[i + 3..i + 3 + n] == rest[3..3 + n];
        KeywordsFrom(data, i + 3 + n);
        assert data[i + 3 + n..] == rest[3 + n..];
        if i > 0 {
          KeywordsFrom(rest, 3 + n);
        } else {
          assert rest == data;
        }
      }
    }
  }

  lemma {:induction false} KeywordsRoundTrip(ks: seq<Keyword>)
    requires FitsKeywords(ks)
    ensures Keywords(EncodeKeywords(ks), 0) == FirstSN(ks)
  {
    if ks != [] {
      assert FitsKeyword(ks[0]);
      var data, n := EncodeKeywords(ks), |ks[0].value|;
      KeywordsRoundTrip(ks[1..]);
      assert data[0] == ks[0].k0 && data[1] == ks[0].k1 && data[2] == n;
      assert data[3..3 + n] == ks[0].value;
      assert data[3 + n..] == EncodeKeywords(ks[1..]);
      KeywordsFrom(data, 3 + n);
    }
  }

  lemma {:induction false} ResourcesFrom(data: seq<byte>, i: nat)
    requires i <= |data|
    ensures Resources(data, i) == Resources(data[i..], 0)
    decreases |data| - i
  {
    var rest := data[i..];
    if i == 0 {
      assert rest == data;
    } else if i < |data| && data[i] != END_TAG {
      if data[i] < 0x80 {
        ResourcesSkip(data, i, 1 + data[i] % 8);
      } else if i + 2 < |data| {
        var length := Word(data[i + 1], data[i + 2]);
        if i + 3 + length <= |data| {
          assert data[i + 3..i + 3 + length] == rest[3..3 + length];
          ResourcesSkip(data, i, 3 + length);
        }
      }
    }
  }

  lemma {:induction false} ResourcesSkip(data: seq<byte>, i: nat, n: nat)
    requires 0 < i < |data| && 0 < n
    ensures Resources(data, i + n) == Resources(data[i..], n)
    decreases |data| - i, 0
  {
    if i + n <= |data| {
      ResourcesFrom(data, i + n);
      ResourcesFrom(data[i..], n);
      assert data[i..][n..] == data[i + n..];
    }
  }

  /** One encoded resource in front of anything: its serial, or that of the rest. */
  lemma ResourceStep(r: Resource, rest: seq<byte>)
    requires Fits(r)
    ensures Resources(Encode(r) + rest, 0) ==
            if r.ReadOnly? && FirstSN(r.keywords).Some? then FirstSN(r.keywords) else Resources(rest, 0)
  {
    var data := Encode(r) + rest;
    match r
    case Small(tag, body) =>
      assert data[0] == 8 * tag + |body|;
      assert data[0] % 8 == |body|;
      ResourcesFrom(data, 1 + |body|);
      assert data[1 + |body|..] == rest;
    case Large(tag, body) =>
      LargeStep(tag, body, rest);
    case ReadOnly(ks) =>
      LargeStep(VPD_R, EncodeKeywords(ks), rest);
      KeywordsRoundTrip(ks);
  }

  lemma LargeStep(tag: nat, body: seq<byte>, rest: seq<byte>)
    requires tag < 128 && |body| < 65536
    ensures Resources(EncodeLarge(tag, body) + rest, 0) ==
            var sn := if tag == VPD_R then Keywords(body, 0) else None;
            if sn.Some? then sn else Resources(rest, 0)
  {
    var data := EncodeLarge(tag, body) + rest;
    assert data[0] == 0x80 + tag && Word(data[1], data[2]) == |body|;
    assert data[3..3 + |body|] == body;
    ResourcesFrom(data, 3 + |body|);
    assert data[3 + |body|..] == rest;
  }

  lemma {:induction false} EncodedThen(rs: seq<Resource>, tail: seq<byte>)
    requires FitsAll(rs)
    ensures Resources(EncodeAll(rs) + tail, 0) ==
            if FirstSerial(rs).Some? then FirstSerial(rs) else Resources(tail, 0)
  {
    if rs == [] {
      assert EncodeAll(rs) + tail == tail;
    } else {
      assert Fits(rs[0]);
      var first, others := Encode(rs[0]), EncodeAll(rs[1..]);
      assert (first + others) + tail == first + (others + tail);
      ResourceStep(rs[0], others + tail);
      EncodedThen(rs[1..], tail);
    }
  }

  /** Round trip: any encoded resource list, the end tag, and any bytes after it. */
  lemma VpdRoundTrip(rs: seq<Resource>, trailing: seq<byte>)
    requires FitsAll(rs)
    ensures Resources(EncodeAll(rs) + ([END_TAG] + trailing), 0) == FirstSerial(rs)
  {
    EncodedThen(rs, [END_TAG] + trailing);
  }

  // ----- Device Serial Number capability -----

  function HeaderId(cfg: seq<byte>, off: nat): nat
    requires off + 4 <= |cfg|
  {
    Word(cfg[off], cfg[off + 1])
  }

  /** Bits 31:20 of the little-endian header. */
  function HeaderNext(cfg: seq<byte>, off: nat): nat
    requires off + 4 <= |cfg|
  {
    (cfg[off + 2] as int) / 16 + 16 * (cfg[off + 3] as int)
  }

  predicate HeaderZero(cfg: seq<byte>, off: nat)
    requires off + 4 <= |cfg|
  {
    cfg[off] == 0 && cfg[off + 1] == 0 && cfg[off + 2] == 0 && cfg[off + 3] == 0
  }

  /** A capability header as the specification lays it out: the ID in bits 15:0,
      the version in bits 19:16, the next offset in bits 31:20, little-endian. */
  ghost function EncodeHeader(id: nat, version: nat, next: nat): seq<byte>
    requires id < 0x1_0000 && version < 16 && next < 0x1000
  {
    var h := id + 0x1_0000 * version + 0x10_0000 * next;
    [h % 256, h / 256 % 256, h / 0x1_0000 % 256, h / 0x100_0000]
  }

  /** A header reads back its ID and next offset, and is zero only if all three are. */
  lemma HeaderRoundTrip(cfg: seq<byte>, off: nat, id: nat, version: nat, next: nat)
    requires id < 0x1_0000 && version < 16 && next < 0x1000
    requires off + 4 <= |cfg| && cfg[off..off + 4] == EncodeHeader(id, version, next)
    ensures HeaderId(cfg, off) == id && HeaderNext(cfg, off) == next
    ensures HeaderZero(cfg, off) <==> id == 0 && version == 0 && next == 0
  {
    HeaderBytes(id, version, next);
    hide EncodeHeader;
    var b := cfg[off..off + 4];
    assert b[0] == cfg[off] && b[1] == cfg[off + 1] && b[2] == cfg[off + 2] && b[3] == cfg[off + 3];
    IdBytes(id);
    NextBytes(version, next);
  }

  lemma IdBytes(id: nat)
    ensures id % 256 + 256 * (id / 256) == id
    ensures id % 256 == 0 && id / 256 == 0 <==> id == 0
  {
  }

  lemma NextBytes(version: nat, next: nat)
    requires version < 16
    ensures (version + 16 * (next % 16)) / 16 + 16 * (next / 16) == next
    ensures version + 16 * (next % 16) == 0 && next / 16 == 0 <==> version == 0 && next == 0
  {
  }

  lemma HeaderBytes(id: nat, version: nat, next: nat)
    requires id < 0x1_0000 && version < 16 && next < 0x1000
    ensures var b := EncodeHeader(id, version, next);
            b[0] == id % 256 && b[1] == id / 256 && b[2] == version + 16 * (next % 16) && b[3] == next / 16
  {
    var h := id + 0x1_0000 * version + 0x10_0000 * next;
    var q := version + 16 * next;
    Div256(h, id / 256 + 256 * q, id % 256);
    Div256(id / 256 + 256 * q, q, id / 256);
    Div256(q, next / 16, version + 16 * (next % 16));
    assert h / 0x1_0000 == q;
    assert h / 0x100_0000 == q / 256;
  }

  lemma Div256(a: nat, q: nat, r: nat)
    requires r < 256 && a == 256 * q + r
    ensures a / 256 == q && a % 256 == r
  {
  }

  /** The constants, as the two specifications number them. */
  lemma Numbers()
    ensures END_TAG == 0x78 && VPD_R == 0x10 && EXT_CAP_START == 0x100 && CAP_DSN == 0x0003
    ensures ToText([KEY_S, KEY_N]) == "SN"
  {
    assert 0x53 as char == 'S' && 0x4E as char == 'N';
  }

  function HexDigit(n: nat): char
    requires n < 16
  {
    if n < 10 then ('0' as int + n) as char else ('A' as int + n - 10) as char
  }

  function HexUpper(data: seq<byte>): string {
    if data == [] then []
    else [HexDigit(data[0] / 16), HexDigit(data[0] % 16)] + HexUpper(data[1..])
  }

  /** A complete serial-number capability starts at `off`. */
  predicate CompleteDsn(cfg: seq<byte>, off: nat) {
    off + 12 <= |cfg| && HeaderId(cfg, off) == CAP_DSN
  }

  /** The capability walk from `off` on. */
  function Walk(cfg: seq<byte>, off: nat): Option<string>
    decreases |cfg| - off
  {
    if off + 4 > |cfg| || HeaderZero(cfg, off) then None
    else if CompleteDsn(cfg, off) then Some(HexUpper(cfg[off + 4..off + 12]))
    else
      var next := HeaderNext(cfg, off);
      if next == 0 || next <= off then None else Walk(cfg, next)
  }

  method ConfigDSN(cfg: seq<byte>) returns (sn: Option<string>)
    ensures sn == Walk(cfg, EXT_CAP_START)
  {
    var off := EXT_CAP_START;
    while off + 4 <= |cfg|
      invariant Walk(cfg, off) == Walk(cfg, EXT_CAP_START)
      decreases |cfg| - off
    {
      if HeaderZero(cfg, off) {
        return None;
      }
      var id, next := HeaderId(cfg, off), HeaderNext(cfg, off);
      if id == CAP_DSN && off + 12 <= |cfg| {
        return Some(HexUpper(cfg[off + 4..off + 12]));
      }
      if next == 0 || next <= off {
        return None;
      }
      off := next;
    }
    return None;
  }

  /** Offsets of a chain of capability headers: every one inside the buffer, each
      pointing strictly forward to the next. */
  ghost predicate Chain(cfg: seq<byte>, p: seq<nat>) {
    && (forall i :: 0 <= i < |p| ==> p[i] + 4 <= |cfg|)
    && (forall i :: 0 <= i < |p| - 1 ==> HeaderNext(cfg, p[i]) == p[i + 1] && p[i] < p[i + 1])
  }

  /** `p` leads from `off` to the first complete serial-number capability. */
  ghost predicate LeadsToDsn(cfg: seq<byte>, off: nat, p: seq<nat>) {
    && p != [] && p[0] == off && Chain(cfg, p)
    && CompleteDsn(cfg, p[|p| - 1])
    && (forall i :: 0 <= i < |p| - 1 ==> !CompleteDsn(cfg, p[i]))
  }

  lemma {:induction false} WalkFinds(cfg: seq<byte>, off: nat, p: seq<nat>)
    requires LeadsToDsn(cfg, off, p)
    ensures Walk(cfg, off) == Some(HexUpper(cfg[p[|p| - 1] + 4..p[|p| - 1] + 12]))
    decreases |p|
  {
    if |p| > 1 {
      assert HeaderNext(cfg, p[0]) == p[1] && p[0] < p[1];
      assert !HeaderZero(cfg, off);
      assert !CompleteDsn(cfg, p[0]);
      var q := p[1..];
      forall i | 0 <= i < |q| - 1
        ensures HeaderNext(cfg, q[i]) == q[i + 1] && q[i] < q[i + 1] && !CompleteDsn(cfg, q[i])
      {
        assert q[i] == p[i + 1] && q[i + 1] == p[i + 2];
      }
      assert LeadsToDsn(cfg, p[1], q);
      WalkFinds(cfg, p[1], q);
    }
  }

  lemma {:induction false} WalkHasPath(cfg: seq<byte>, off: nat) returns (p: seq<nat>)
    requires Walk(cfg, off).Some?
    ensures LeadsToDsn(cfg, off, p)
    decreases |cfg| - off
  {
    if CompleteDsn(cfg, off) {
      p := [off];
    } else {
      var q := WalkHasPath(cfg, HeaderNext(cfg, off));
      p := [off] + q;
      forall i | 0 <= i < |p| - 1
        ensures HeaderNext(cfg, p[i]) == p[i + 1] && p[i] < p[i + 1] && !CompleteDsn(cfg, p[i])
      {
        if i > 0 {
          assert p[i] == q[i - 1] && p[i + 1] == q[i];
        }
      }
    }
  }

  /** A serial is returned exactly when a complete capability is reachable from
      offset 0x100 by strictly increasing pointers, and it is the first one's. */
  lemma DsnExactlyWhenReachable(cfg: seq<byte>)
    ensures Walk(cfg, EXT_CAP_START).Some? <==> exists p :: LeadsToDsn(cfg, EXT_CAP_START, p)
    ensures forall p :: LeadsToDsn(cfg, EXT_CAP_START, p) ==>
              Walk(cfg, EXT_CAP_START) == Some(HexUpper(cfg[p[|p| - 1] + 4..p[|p| - 1] + 12]))
  {
    if Walk(cfg, EXT_CAP_START).Some? {
      var p := WalkHasPath(cfg, EXT_CAP_START);
    }
    forall p | LeadsToDsn(cfg, EXT_CAP_START, p)
      ensures Walk(cfg, EXT_CAP_START) == Some(HexUpper(cfg[p[|p| - 1] + 4..p[|p| - 1] + 12]))
    {
      WalkFinds(cfg, EXT_CAP_START, p);
    }
  }

  function HexValue(c: char): nat {
    if '0' <= c <= '9' then c as int - '0' as int
    else if 'A' <= c <= 'F' then c as int - 'A' as int + 10
    else 0
  }

  function UnHex(s: string): seq<nat> {
    if |s| < 2 then [] else [16 * HexValue(s[0]) + HexValue(s[1])] + UnHex(s[2..])
  }

  /** The text is two hex digits a byte and decodes back to the bytes. */
  lemma {:induction false} HexRoundTrip(data: seq<byte>)
    ensures |HexUpper(data)| == 2 * |data|
    ensures UnHex(HexUpper(data)) == data
    ensures forall c :: c in HexUpper(data) ==> '0' <= c <= '9' || 'A' <= c <= 'F'
  {
    if data != [] {
      HexRoundTrip(data[1..]);
      var s := HexUpper(data);
      assert s[2..] == HexUpper(data[1..]);
    }
  }
}

/** One PCI function per board (pkg/discovery/pci.go). */
module UniqueBoards {
  import opened Text
  import opened Sorting
  import opened Inventory

  function Address(): Device -> string {
    (d: Device) => d.pci
  }

  ghost predicate LowestOfBoard(d: Device, devices: seq<Device>) {
    forall e :: e in devices && e.serial == d.serial ==> Leq(d.pci, e.pci)
  }

  ghost predicate HasSerial(s: seq<Device>, x: string) {
    exists d :: d in s && d.serial == x
  }

  /** The devices whose serial does not occur earlier in the list. */
  ghost function Firsts(s: seq<Device>): seq<Device> {
    if s == [] then []
    else
      var front, d := s[..|s| - 1], s[|s| - 1];
      Firsts(front) + (if HasSerial(front, d.serial) then [] else [d])
  }

  lemma {:induction false} FirstsMembers(s: seq<Device>)
    ensures forall d :: d in Firsts(s) ==> d in s
    ensures forall x :: HasSerial(s, x) <==> HasSerial(Firsts(s), x)
    ensures DistinctSerials(Firsts(s))
  {
    if s != [] {
      var front, d := s[..|s| - 1], s[|s| - 1];
      FirstsMembers(front);
      assert s == front + [d];
      var f, g := Firsts(front), Firsts(s);
      forall x ensures HasSerial(s, x) <==> HasSerial(front, x) || d.serial == x {
        assert d in s;
      }
      forall x ensures HasSerial(g, x) <==> HasSerial(f, x) || d.serial == x {
        if HasSerial(f, x) {
          var e :| e in f && e.serial == x;
          assert e in g;
        }
        if d.serial == x && !HasSerial(front, x) {
          assert d in g;
        }
      }
      forall i | 0 <= i < |f| && !HasSerial(front, d.serial) ensures f[i].serial != d.serial {
        assert f[i] in f;
      }
    }
  }

  lemma {:induction false} FirstsAreLowest(s: seq<Device>, n: nat, d: Device)
    requires n <= |s| && SortedBy(s, Address()) && d in Firsts(s[..n])
    ensures LowestOfBoard(d, s)
  {
    assert n > 0;
    var front := s[..n - 1];
    assert s[..n][..n - 1] == front;
    if d in Firsts(front) {
      FirstsAreLowest(s, n - 1, d);
    } else {
      forall k | 0 <= k < n - 1 ensures s[k].serial != d.serial {
        assert s[k] in front;
      }
      FirstIsLowest(s, n - 1);
    }
  }

  lemma HasSerialSnoc(ds: seq<Device>, d: Device)
    ensures forall x :: HasSerial(ds + [d], x) <==> HasSerial(ds, x) || x == d.serial
  {
    assert d in ds + [d];
    assert forall e :: e in ds + [d] <==> e in ds || e == d;
  }

  /** Each serial once, none lost, each represented by its lowest PCI address. */
  method UniqueBySerial(devices: seq<Device>) returns (out: seq<Device>)
    ensures DistinctSerials(out)
    ensures forall d :: d in out ==> d in devices && LowestOfBoard(d, devices)
    ensures forall x :: HasSerial(devices, x) <==> HasSerial(out, x)
  {
    if |devices| < 2 {
      LeqReflexive(devices);
      return devices;
    }
    var sorted := Sort(devices, Address());
    SortPermutes(devices, Address());
    SameElements(devices, sorted);
    out := FilterSeen(sorted);
    UniqueResult(devices, sorted);
  }

  /** The filter with its set of serials seen. */
  method FilterSeen(sorted: seq<Device>) returns (out: seq<Device>)
    ensures out == Firsts(sorted)
  {
    hide HasSerial;
    var seen: set<string> := {};
    out := [];
    NothingHasSerial();
    for i := 0 to |sorted|
      invariant out == Firsts(sorted[..i])
      invariant forall x :: x in seen <==> HasSerial(sorted[..i], x)
    {
      var d := sorted[i];
      assert sorted[..i + 1][..i] == sorted[..i] && sorted[..i + 1] == sorted[..i] + [d];
      HasSerialSnoc(sorted[..i], d);
      if d.serial in seen {
        continue;
      }
      seen := seen + {d.serial};
      out := out + [d];
    }
    assert sorted[..|sorted|] == sorted;
  }

  lemma NothingHasSerial()
    ensures forall x :: !HasSerial([], x)
  {
  }

  lemma UniqueResult(devices: seq<Device>, sorted: seq<Device>)
    requires SortedBy(sorted, Address()) && forall d :: d in devices <==> d in sorted
    ensures DistinctSerials(Firsts(sorted))
    ensures forall d :: d in Firsts(sorted) ==> d in devices && LowestOfBoard(d, devices)
    ensures forall x :: HasSerial(devices, x) <==> HasSerial(Firsts(sorted), x)
  {
    FirstsMembers(sorted);
    forall d | d in Firsts(sorted) ensures LowestOfBoard(d, devices) {
      assert sorted[..|sorted|] == sorted;
      FirstsAreLowest(sorted, |sorted|, d);
    }
    assert forall x :: HasSerial(devices, x) <==> HasSerial(sorted, x);
  }

  lemma SameElements(a: seq<Device>, b: seq<Device>)
    requires multiset(a) == multiset(b)
    ensures forall d :: d in a <==> d in b
  {
    forall d ensures d in a <==> d in b {
      assert d in multiset(a) <==> d in multiset(b);
    }
  }

  lemma LeqReflexive(devices: seq<Device>)
    requires |devices| < 2
    ensures forall d :: d in devices ==> LowestOfBoard(d, devices)
  {
    forall d | d in devices ensures LowestOfBoard(d, devices) {
      LeqTotal(d.pci, d.pci);
    }
  }

  lemma FirstIsLowest(sorted: seq<Device>, i: nat)
    requires i < |sorted| && SortedBy(sorted, Address())
    requires forall k :: 0 <= k < i ==> sorted[k].serial != sorted[i].serial
    ensures LowestOfBoard(sorted[i], sorted)
  {
    forall e | e in sorted && e.serial == sorted[i].serial ensures Leq(sorted[i].pci, e.pci) {
      var k :| 0 <= k < |sorted| && sorted[k] == e;
      if k == i {
        LeqTotal(e.pci, e.pci);
      } else {
        assert Leq(Address()(sorted[i]), Address()(sorted[k]));
      }
    }
  }
}
