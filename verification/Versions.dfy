/** Release versions and the decision they lead to (pkg/lifecycle/version.go,
    version_policy.go). */
module Versions {
  import opened Text

  datatype Version = Version(major: nat, minor: nat, patch: nat)

  /** Largest value of Go's int on a 64-bit platform. */
  const MAX_INT := 0x7FFF_FFFF_FFFF_FFFF

  const PIN := "v26.4.0"
  const WINDOW_MIN := Version(26, 4, 0)
  const WINDOW_MAX := Version(27, 0, 0)

  function Compare(a: Version, b: Version): int {
    if a.major != b.major then (if a.major < b.major then -1 else 1)
    else if a.minor != b.minor then (if a.minor < b.minor then -1 else 1)
    else if a.patch != b.patch then (if a.patch < b.patch then -1 else 1)
    else 0
  }

  /** A strict total order, with 0 for equality alone. */
  lemma CompareIsOrder(a: Version, b: Version, c: Version)
    ensures Compare(a, b) == 0 <==> a == b
    ensures Compare(a, b) == -Compare(b, a)
    ensures Compare(a, b) < 0 && Compare(b, c) < 0 ==> Compare(a, c) < 0
  {
  }

  predicate IsDigit(c: char) {
    '0' <= c <= '9'
  }

  /** `strconv.Atoi` on text without a sign. */
  function Atoi(s: string): (r: Option<nat>)
    ensures r.Some? ==> r.value <= MAX_INT
  {
    if s == [] then None else Digits(s, 0)
  }

  function Digits(s: string, acc: nat): (r: Option<nat>)
    requires acc <= MAX_INT
    ensures r.Some? ==> r.value <= MAX_INT
  {
    if s == [] then Some(acc)
    else if !IsDigit(s[0]) || 10 * acc + (s[0] as int - '0' as int) > MAX_INT then None
    else Digits(s[1..], 10 * acc + (s[0] as int - '0' as int))
  }

  /** Everything before the first '-' or '+'. */
  function Core(s: string): string {
    if s == [] || s[0] == '-' || s[0] == '+' then [] else [s[0]] + Core(s[1..])
  }

  /** One number per component, or none if any component is not a number. */
  function Numbers(parts: seq<string>): (r: Option<seq<nat>>)
    ensures r.Some? ==> |r.value| == |parts|
  {
    if parts == [] then Some([])
    else
      var n, rest := Atoi(parts[0]), Numbers(parts[1..]);
      if n.Some? && rest.Some? then Some([n.value] + rest.value) else None
  }

  function Parse(text: string): Option<Version> {
    var s := Trim(text);
    if s == "" then None
    else
      var parts := Split(Core(TrimPrefix(TrimPrefix(s, "v"), "V")), '.');
      if |parts| > 3 then None
      else
        var n := Numbers(parts);
        if n.None? then None
        else Some(Version(n.value[0], if |parts| > 1 then n.value[1] else 0, if |parts| > 2 then n.value[2] else 0))
  }

  lemma NumbersStep(parts: seq<string>, i: nat)
    requires i < |parts|
    ensures var n, rest := Atoi(parts[i]), Numbers(parts[i + 1..]);
            Numbers(parts[i..]) == if n.Some? && rest.Some? then Some([n.value] + rest.value) else None
  {
    hide Atoi;
    assert parts[i..][0] == parts[i] && parts[i..][1..] == parts[i + 1..];
  }

  /** The parser's loop over the components. */
  method ParseVersion(text: string) returns (r: Option<Version>)
    ensures r == Parse(text)
  {
    var s := Trim(text);
    if s == "" {
      return None;
    }
    var parts := Split(Core(TrimPrefix(TrimPrefix(s, "v"), "V")), '.');
    if |parts| > 3 {
      return None;
    }
    var dst := [0, 0, 0];
    assert parts[0..] == parts;
    hide Atoi, Trim, Split, Core, TrimPrefix;
    for i := 0 to |parts|
      invariant |dst| == 3
      invariant Numbers(parts).Some? <==> Numbers(parts[i..]).Some?
      invariant Numbers(parts).Some? ==> Numbers(parts[i..]).value == Numbers(parts).value[i..]
      invariant forall k :: i <= k < 3 ==> dst[k] == 0
      invariant Numbers(parts).Some? ==> forall k :: 0 <= k < i ==> dst[k] == Numbers(parts).value[k]
    {
      NumbersStep(parts, i);
      var n := Atoi(parts[i]);
      if n.None? {
        return None;
      }
      dst := dst[i := n.value];
      if Numbers(parts).Some? {
        var all := Numbers(parts).value;
        assert all[i..][0] == all[i] && all[i..][1..] == all[i + 1..];
        assert ([n.value] + Numbers(parts[i + 1..]).value)[1..] == Numbers(parts[i + 1..]).value;
      }
    }
    assert parts[|parts|..] == [];
    return Some(Version(dst[0], dst[1], dst[2]));
  }

  /** 0, negative or positive; None when either side does not parse. */
  function CompareText(a: string, b: string): Option<int> {
    var va, vb := Parse(a), Parse(b);
    if va.None? || vb.None? then None else Some(Compare(va.value, vb.value))
  }

  predicate VersionsEqual(a: string, b: string) {
    CompareText(a, b) == Some(0)
  }

  predicate StartsWith(s: string, prefix: string) {
    |prefix| <= |s| && s[..|prefix|] == prefix
  }

  predicate Contains(s: string, sub: string) {
    StartsWith(s, sub) || (s != [] && Contains(s[1..], sub))
  }

  predicate LooksLikeUrl(text: string) {
    var s := Lower(Trim(text));
    s != "" && (Contains(s, "://") || StartsWith(s, "file:") || StartsWith(s, "oci:") || StartsWith(s, "--"))
  }

  predicate ValidRelease(text: string) {
    var s := Trim(text);
    && s != "" && !LooksLikeUrl(s)
    && (forall c :: c in s ==> c !in " \t\n;|$`")
    && Parse(s).Some?
  }

  datatype Skew = Supported | TooOld | TooNew | Unknown

  function ClassifySkew(installed: string): Skew {
    match Parse(installed)
    case None => Unknown
    case Some(v) =>
      if Compare(v, WINDOW_MIN) < 0 then TooOld
      else if Compare(v, WINDOW_MAX) >= 0 then TooNew
      else Supported
  }

  datatype Decision = Upgrade | Noop | Downgrade | Reject

  predicate ValidDesired(desired: string) {
    ValidRelease(desired) && ClassifySkew(desired) == Supported && Trim(desired) == PIN
  }

  function DecideReleaseAction(installed: string, desired: string, allowDowngrade: bool): Decision {
    if !ValidDesired(desired) || !ValidRelease(installed) then Reject
    else
      match CompareText(installed, desired)
      case None => Reject
      case Some(c) =>
        if c == 0 then Noop
        else if c < 0 then Upgrade
        else if allowDowngrade then Downgrade else Reject
  }

  // ----- Printing a version, and reading it back -----

  ghost function Dec(n: nat): string {
    if n < 10 then [('0' as int + n) as char] else Dec(n / 10) + [('0' as int + n % 10) as char]
  }

  ghost function Format(v: Version): string {
    Dec(v.major) + "." + Dec(v.minor) + "." + Dec(v.patch)
  }

  ghost predicate AllDigits(s: string) {
    forall c :: c in s ==> IsDigit(c)
  }

  lemma {:induction false} DecDigits(n: nat)
    ensures Dec(n) != [] && AllDigits(Dec(n))
  {
    if n >= 10 {
      DecDigits(n / 10);
    }
  }

  lemma {:induction false} DigitsSnoc(s: string, acc: nat, c: char)
    requires acc <= MAX_INT && IsDigit(c)
    ensures Digits(s + [c], acc) ==
            var r := Digits(s, acc);
            if r.None? || 10 * r.value + (c as int - '0' as int) > MAX_INT then None
            else Some(10 * r.value + (c as int - '0' as int))
  {
    if s == [] {
      assert (s + [c])[1..] == [];
    } else {
      assert (s + [c])[1..] == s[1..] + [c];
      if IsDigit(s[0]) && 10 * acc + (s[0] as int - '0' as int) <= MAX_INT {
        DigitsSnoc(s[1..], 10 * acc + (s[0] as int - '0' as int), c);
      }
    }
  }

  lemma {:induction false} DecReadsBack(n: nat)
    requires n <= MAX_INT
    ensures Digits(Dec(n), 0) == Some(n)
  {
    if n < 10 {
      assert Dec(n)[1..] == [];
    } else {
      DecReadsBack(n / 10);
      DigitsSnoc(Dec(n / 10), 0, ('0' as int + n % 10) as char);
    }
  }

  lemma {:induction false} CorePlain(s: string, suffix: string)
    requires '-' !in s && '+' !in s
    requires suffix == [] || suffix[0] == '-' || suffix[0] == '+'
    ensures Core(s + suffix) == s
  {
    if s == [] {
      assert s + suffix == suffix;
    } else {
      CorePlain(s[1..], suffix);
      assert (s + suffix)[1..] == s[1..] + suffix;
    }
  }

  lemma FormatParts(v: Version)
    ensures Split(Format(v), '.') == [Dec(v.major), Dec(v.minor), Dec(v.patch)]
    ensures '-' !in Format(v) && '+' !in Format(v)
    ensures Format(v) != [] && IsDigit(Format(v)[0])
  {
    hide Dec;
    DecDigits(v.major);
    DecDigits(v.minor);
    DecDigits(v.patch);
    var tail := Dec(v.minor) + "." + Dec(v.patch);
    assert Format(v) == Dec(v.major) + "." + tail;
    SplitFirst(Dec(v.major), tail, '.');
    SplitFirst(Dec(v.minor), Dec(v.patch), '.');
    SplitWhole(Dec(v.patch), '.');
    assert Dec(v.major)[0] in Dec(v.major);
  }

  lemma NumbersCons(p: string, n: nat, rest: seq<string>, ns: seq<nat>)
    requires Atoi(p) == Some(n) && Numbers(rest) == Some(ns)
    ensures Numbers([p] + rest) == Some([n] + ns)
  {
    assert ([p] + rest)[1..] == rest;
  }

  lemma NumbersOfThree(a: nat, b: nat, c: nat)
    requires a <= MAX_INT && b <= MAX_INT && c <= MAX_INT
    ensures Numbers([Dec(a), Dec(b), Dec(c)]) == Some([a, b, c])
  {
    DecReadsBack(a);
    DecReadsBack(b);
    DecReadsBack(c);
    DecDigits(a);
    DecDigits(b);
    DecDigits(c);
    NumbersCons(Dec(c), c, [], []);
    assert [Dec(c)] + [] == [Dec(c)] && [c] + [] == [c];
    NumbersCons(Dec(b), b, [Dec(c)], [c]);
    assert [Dec(b)] + [Dec(c)] == [Dec(b), Dec(c)] && [b] + [c] == [b, c];
    NumbersCons(Dec(a), a, [Dec(b), Dec(c)], [b, c]);
    assert [Dec(a)] + [Dec(b), Dec(c)] == [Dec(a), Dec(b), Dec(c)] && [a] + [b, c] == [a, b, c];
  }

  /** Round trip: three components, an optional "v", and any pre-release or build suffix. */
  lemma ParseFormat(v: Version, prefixed: bool, suffix: string)
    requires v.major <= MAX_INT && v.minor <= MAX_INT && v.patch <= MAX_INT
    requires suffix == [] || suffix[0] == '-' || suffix[0] == '+'
    requires suffix != [] ==> !IsSpace(suffix[|suffix| - 1])
    ensures Parse((if prefixed then "v" else "") + (Format(v) + suffix)) == Some(v)
  {
    FormatParts(v);
    hide Format, Dec, Split, Numbers, Core, Trim;
    var body := Format(v) + suffix;
    var s := (if prefixed then "v" else "") + body;
    assert body[0] == Format(v)[0];
    FormatEnd(v);
    assert s[|s| - 1] == body[|body| - 1];
    TrimmedText(s);
    if prefixed {
      assert s[1..] == body;
    } else {
      assert s == body;
    }
    assert TrimPrefix(TrimPrefix(s, "v"), "V") == body;
    CorePlain(Format(v), suffix);
    NumbersOfThree(v.major, v.minor, v.patch);
  }

  lemma FormatEnd(v: Version)
    ensures Format(v) != [] && IsDigit(Format(v)[|Format(v)| - 1])
  {
    DecDigits(v.patch);
    assert Format(v)[|Format(v)| - 1] == Dec(v.patch)[|Dec(v.patch)| - 1];
    assert Dec(v.patch)[|Dec(v.patch)| - 1] in Dec(v.patch);
  }

  lemma DecTwoDigits(n: nat)
    requires 10 <= n < 100
    ensures Dec(n) == [('0' as int + n / 10) as char, ('0' as int + n % 10) as char]
  {
  }

  ghost predicate Fits(v: Version) {
    v.major <= MAX_INT && v.minor <= MAX_INT && v.patch <= MAX_INT
  }

  /** A version as it is tagged. */
  ghost function Tag(v: Version): string {
    "v" + Format(v)
  }

  ghost predicate TagChar(c: char) {
    IsDigit(c) || c == '.' || c == 'v'
  }

  lemma TagShape(v: Version)
    ensures forall c :: c in Tag(v) ==> TagChar(c)
    ensures Tag(v)[0] == 'v' && Trim(Tag(v)) == Tag(v)
  {
    DecDigits(v.major);
    DecDigits(v.minor);
    DecDigits(v.patch);
    FormatEnd(v);
    hide Dec, Trim;
    assert Tag(v)[|Tag(v)| - 1] == Format(v)[|Format(v)| - 1];
    TrimmedText(Tag(v));
  }

  lemma {:induction false} LacksSeparator(s: string)
    requires ':' !in s
    ensures !Contains(s, "://")
  {
    if s != [] {
      LacksSeparator(s[1..]);
      assert s[0] in s;
      assert |s| >= 3 ==> s[..3][0] == s[0];
    }
  }

  lemma LowerTag(s: string)
    requires forall c :: c in s ==> TagChar(c)
    ensures Lower(s) == s
  {
    hide Lower;
    forall k | 0 <= k < |s| ensures Lower(s)[k] == s[k] {
      LowerAt(s, k);
      assert s[k] in s;
    }
  }

  lemma TagIsNotUrl(v: Version)
    ensures !LooksLikeUrl(Tag(v))
  {
    TagShape(v);
    hide Contains, Lower, Trim, Tag;
    LowerTag(Tag(v));
    LacksSeparator(Tag(v));
  }

  /** Every tagged version is a valid release version and parses back. */
  lemma TagIsRelease(v: Version)
    requires Fits(v)
    ensures ValidRelease(Tag(v)) && Parse(Tag(v)) == Some(v)
  {
    TagShape(v);
    TagIsNotUrl(v);
    ParseFormat(v, true, "");
    assert "v" + (Format(v) + "") == Tag(v);
    hide Tag, Trim, LooksLikeUrl, Parse, TagChar;
    forall c | c in Tag(v) ensures c !in " \t\n;|$`" {
      TagCharIsClean(c);
    }
  }

  lemma TagCharIsClean(c: char)
    requires TagChar(c)
    ensures c !in " \t\n;|$`"
  {
  }

  /** The pinned version is a valid desired version. */
  lemma PinIsValid()
    ensures Parse(PIN) == Some(WINDOW_MIN) && ValidRelease(PIN) && ValidDesired(PIN)
  {
    PinIsTag();
    TagIsRelease(WINDOW_MIN);
    TagShape(WINDOW_MIN);
    hide Tag, Trim, ValidRelease, Parse;
  }

  lemma PinIsTag()
    ensures PIN == Tag(WINDOW_MIN)
  {
    DecTwoDigits(26);
    assert Dec(26) == "26" && Dec(4) == "4" && Dec(0) == "0";
    assert Format(WINDOW_MIN) == "26.4.0";
  }

  /** Component by component, the first difference deciding. */
  ghost predicate Precedes(a: Version, b: Version) {
    || a.major < b.major
    || (a.major == b.major && a.minor < b.minor)
    || (a.major == b.major && a.minor == b.minor && a.patch < b.patch)
  }

  lemma TrimTwice(s: string)
    ensures Trim(Trim(s)) == Trim(s)
  {
    TrimEdges(s);
    if Trim(s) != [] {
      TrimmedText(Trim(s));
    }
  }

  /** Against the pin every installed text is decided by the version it parses to:
      nothing to do at the pinned version, upgrade below it, above it downgrade
      where that is allowed, and rejection of everything else. */
  lemma DecideAgainstPin(installed: string, allowDowngrade: bool)
    ensures ValidRelease(installed) ==>
              && Parse(installed).Some?
              && var v, decision := Parse(installed).value, DecideReleaseAction(installed, PIN, allowDowngrade);
                 && (decision == Noop <==> v == WINDOW_MIN)
                 && (decision == Upgrade <==> Precedes(v, WINDOW_MIN))
                 && (decision == Downgrade <==> Precedes(WINDOW_MIN, v) && allowDowngrade)
    ensures !ValidRelease(installed) ==> DecideReleaseAction(installed, PIN, allowDowngrade) == Reject
  {
    hide Parse, ValidRelease;
    ReleaseParses(installed);
    PinIsValid();
  }

  lemma ReleaseParses(installed: string)
    ensures ValidRelease(installed) ==> Parse(installed).Some?
  {
    TrimTwice(installed);
    hide Trim, LooksLikeUrl, Split, Core, Numbers;
  }

  /** Equal means that both parse, and to the same version. */
  lemma VersionsEqualIff(a: string, b: string)
    ensures VersionsEqual(a, b) <==> Parse(a).Some? && Parse(a) == Parse(b)
  {
    hide Parse;
    if Parse(a).Some? && Parse(b).Some? {
      CompareIsOrder(Parse(a).value, Parse(b).value, Parse(b).value);
    }
  }

  lemma EqualToPin(v: string)
    ensures VersionsEqual(v, PIN) <==> Parse(v) == Some(WINDOW_MIN)
  {
    PinIsValid();
    hide Parse, ValidRelease;
    if Parse(v).Some? {
      CompareIsOrder(Parse(v).value, WINDOW_MIN, WINDOW_MIN);
    }
  }
}
