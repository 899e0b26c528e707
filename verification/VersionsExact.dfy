/** Version texts and what they are read as, in both directions
    (pkg/lifecycle/version.go, version_policy.go, config.go). */
module VersionsExact {
  import opened Text
  import opened Versions

  /** The number a string of digits stands for. */
  ghost function Value(s: string): nat
    requires AllDigits(s)
  {
    if s == [] then 0
    else
      assert s[|s| - 1] in s;
      10 * Value(s[..|s| - 1]) + (s[|s| - 1] as int - '0' as int)
  }

  lemma {:induction false} BadDigit(s: string, acc: nat)
    requires acc <= MAX_INT && !AllDigits(s)
    ensures Digits(s, acc).None?
  {
    if IsDigit(s[0]) && 10 * acc + (s[0] as int - '0' as int) <= MAX_INT {
      assert s == [s[0]] + s[1..];
      BadDigit(s[1..], 10 * acc + (s[0] as int - '0' as int));
    }
  }

  lemma {:induction false} DigitsAre(s: string)
    requires AllDigits(s)
    ensures Digits(s, 0) == if Value(s) <= MAX_INT then Some(Value(s)) else None
  {
    if s != [] {
      var front, c := s[..|s| - 1], s[|s| - 1];
      assert s == front + [c] && c in s;
      DigitsAre(front);
      DigitsSnoc(front, 0, c);
    }
  }

  /** A component is a number exactly when it is digits, of a value that fits. */
  ghost predicate Component(s: string) {
    s != "" && AllDigits(s) && Value(s) <= MAX_INT
  }

  lemma AtoiIff(s: string)
    ensures Atoi(s).Some? <==> Component(s)
    ensures Component(s) ==> Atoi(s) == Some(Value(s))
  {
    if AllDigits(s) {
      DigitsAre(s);
    } else {
      BadDigit(s, 0);
    }
  }

  ghost predicate Components(parts: seq<string>) {
    forall i :: 0 <= i < |parts| ==> Component(parts[i])
  }

  lemma {:induction false} NumbersIff(parts: seq<string>)
    ensures Numbers(parts).Some? <==> Components(parts)
    ensures Components(parts) ==> forall i :: 0 <= i < |parts| ==> Numbers(parts).value[i] == Value(parts[i])
  {
    hide Component;
    if parts != [] {
      AtoiIff(parts[0]);
      NumbersIff(parts[1..]);
      assert parts == [parts[0]] + parts[1..];
      ComponentValue(parts);
      hide Atoi;
    }
  }

  lemma ComponentValue(parts: seq<string>)
    ensures forall i :: 0 <= i < |parts| && Component(parts[i]) ==> AllDigits(parts[i])
  {
  }

  ghost predicate Prefix(p: string) {
    p == "" || p == "v" || p == "V" || p == "vV"
  }

  ghost predicate Suffix(s: string) {
    s == "" || s[0] == '-' || s[0] == '+'
  }

  /** The version of one, two or three components; missing ones are zero. */
  ghost function VersionOf(parts: seq<string>): Version
    requires 1 <= |parts| <= 3 && Components(parts)
  {
    assert Component(parts[0]);
    assert |parts| > 1 ==> Component(parts[1]);
    assert |parts| > 2 ==> Component(parts[2]);
    Version(Value(parts[0]), if |parts| > 1 then Value(parts[1]) else 0, if |parts| > 2 then Value(parts[2]) else 0)
  }

  lemma {:induction false} CoreSplits(s: string) returns (suffix: string)
    ensures s == Core(s) + suffix && Suffix(suffix) && '-' !in Core(s) && '+' !in Core(s)
  {
    if s == [] || s[0] == '-' || s[0] == '+' {
      suffix := s;
    } else {
      suffix := CoreSplits(s[1..]);
      assert s == [s[0]] + s[1..];
    }
  }

  lemma PrefixSplits(s: string) returns (p: string)
    ensures Prefix(p) && s == p + TrimPrefix(TrimPrefix(s, "v"), "V")
  {
    var a := TrimPrefix(s, "v");
    var x, y := if "v" <= s then "v" else "", if "V" <= a then "V" else "";
    p := x + y;
    assert s == x + a && a == y + TrimPrefix(a, "V");
  }

  /** Whatever parses has one to three components of digits, joined by dots, after
      an optional v and before an optional pre-release or build suffix. */
  lemma ParseSound(text: string) returns (p: string, parts: seq<string>, suffix: string)
    requires Parse(text).Some?
    ensures Prefix(p) && Suffix(suffix) && 1 <= |parts| <= 3 && Components(parts)
    ensures Trim(text) == p + Join(parts, '.') + suffix && Parse(text).value == VersionOf(parts)
  {
    hide Trim, Core, Split, Numbers, Join, TrimPrefix, Components, Component, Prefix, Suffix, Value, AllDigits;
    var s := Trim(text);
    p := PrefixSplits(s);
    var body := TrimPrefix(TrimPrefix(s, "v"), "V");
    suffix := CoreSplits(body);
    parts := Split(Core(body), '.');
    SplitThenJoin(Core(body), '.');
    assert p + (Core(body) + suffix) == p + Core(body) + suffix;
    ReadsAs(text, parts);
  }

  /** Parsing is splitting the core of the trimmed text and reading each component. */
  lemma ReadsAs(text: string, parts: seq<string>)
    requires parts == Split(Core(TrimPrefix(TrimPrefix(Trim(text), "v"), "V")), '.')
    ensures Parse(text).Some? <==> Trim(text) != "" && |parts| <= 3 && Components(parts)
    ensures Parse(text).Some? ==> Parse(text).value == VersionOf(parts)
  {
    hide Trim, Core, Split, Numbers, TrimPrefix, Value, AllDigits;
    NumbersIff(parts);
  }

  lemma {:induction false} JoinedChars(parts: seq<string>)
    requires parts != [] && Components(parts)
    ensures var s := Join(parts, '.'); s != [] && IsDigit(s[0]) && '-' !in s && '+' !in s
  {
    assert Component(parts[0]) && parts[0][0] in parts[0];
    if |parts| > 1 {
      JoinedChars(parts[1..]);
    }
  }

  lemma PrefixGoes(p: string, body: string)
    requires Prefix(p) && body != [] && IsDigit(body[0])
    ensures TrimPrefix(TrimPrefix(p + body, "v"), "V") == body
  {
    var s := p + body;
    if p == "" {
      assert s == body;
    } else if p == "v" {
      assert s[1..] == body;
    } else if p == "V" {
      assert s[0] == 'V' && s[1..] == body;
    } else {
      assert s[1..] == "V" + body;
      assert ("V" + body)[1..] == body;
    }
  }

  /** And everything of that form parses, to that version. */
  lemma ParseComplete(text: string, p: string, parts: seq<string>, suffix: string)
    requires Prefix(p) && Suffix(suffix) && 1 <= |parts| <= 3 && Components(parts)
    requires Trim(text) == p + Join(parts, '.') + suffix
    ensures Parse(text) == Some(VersionOf(parts))
  {
    hide Trim, Core, Split, Join, TrimPrefix, Component, Prefix, Value, AllDigits, Parse;
    var core := Join(parts, '.');
    JoinedChars(parts);
    var body := core + suffix;
    assert Trim(text) == p + body;
    assert body[0] == core[0];
    PrefixGoes(p, body);
    CorePlain(core, suffix);
    NoDots(parts);
    JoinThenSplit(parts, '.');
    ReadsAs(text, parts);
  }

  lemma NoDots(parts: seq<string>)
    requires Components(parts)
    ensures forall i :: 0 <= i < |parts| ==> '.' !in parts[i]
  {
    forall i | 0 <= i < |parts| ensures '.' !in parts[i] {
      assert Component(parts[i]);
    }
  }

  lemma {:induction false} DecIs(n: nat)
    requires n <= MAX_INT
    ensures Component(Dec(n)) && Value(Dec(n)) == n
  {
    DecDigits(n);
    if n >= 10 {
      DecIs(n / 10);
      var s := Dec(n);
      assert s[..|s| - 1] == Dec(n / 10);
    } else {
      assert Dec(n)[..0] == [];
    }
  }

  /** One component or two: the missing ones are zero. */
  lemma ShortVersions(a: nat, b: nat, suffix: string)
    requires a <= MAX_INT && b <= MAX_INT && Suffix(suffix) && (suffix != "" ==> !IsSpace(suffix[|suffix| - 1]))
    ensures Parse("v" + Dec(a) + suffix) == Some(Version(a, 0, 0))
    ensures Parse("v" + (Dec(a) + "." + Dec(b)) + suffix) == Some(Version(a, b, 0))
  {
    DecIs(a);
    DecIs(b);
    assert Join([Dec(a)], '.') == Dec(a);
    assert Join([Dec(a), Dec(b)], '.') == Dec(a) + "." + Dec(b) by {
      assert [Dec(a), Dec(b)][1..] == [Dec(b)];
    }
    hide Dec, Join, Component;
    AlreadyTrimmed(a, Dec(a), suffix);
    AlreadyTrimmed(b, Dec(a) + "." + Dec(b), suffix);
    ParseComplete("v" + Dec(a) + suffix, "v", [Dec(a)], suffix);
    ParseComplete("v" + (Dec(a) + "." + Dec(b)) + suffix, "v", [Dec(a), Dec(b)], suffix);
  }

  lemma AlreadyTrimmed(n: nat, body: string, suffix: string)
    requires |Dec(n)| <= |body| && body[|body| - |Dec(n)|..] == Dec(n) && (suffix != "" ==> !IsSpace(suffix[|suffix| - 1]))
    ensures Trim("v" + body + suffix) == "v" + body + suffix
  {
    DecDigits(n);
    hide Dec, Trim;
    var s := "v" + body + suffix;
    if suffix == "" {
      var d := Dec(n);
      assert s[|s| - 1] == body[|body| - 1] && body[|body| - 1] == d[|d| - 1] && d[|d| - 1] in d;
    } else {
      assert s[|s| - 1] == suffix[|suffix| - 1];
    }
    TrimmedText(s);
  }

  /** Inside the window from 26.4.0 up to but not including 27.0.0. */
  lemma SkewIff(text: string)
    ensures ClassifySkew(text) == Unknown <==> Parse(text).None?
    ensures Parse(text).Some? ==>
              var v := Parse(text).value;
              && (ClassifySkew(text) == TooOld <==> Precedes(v, Version(26, 4, 0)))
              && (ClassifySkew(text) == Supported <==> !Precedes(v, Version(26, 4, 0)) && Precedes(v, Version(27, 0, 0)))
              && (ClassifySkew(text) == TooNew <==> !Precedes(v, Version(27, 0, 0)))
  {
    hide Parse;
  }

  lemma {:induction false} ContainsIff(s: string, sub: string)
    ensures Contains(s, sub) <==> exists i :: Occurs(s, sub, i)
  {
    if StartsWith(s, sub) {
      assert s[0..0 + |sub|] == s[..|sub|];
      assert Occurs(s, sub, 0);
    }
    if s != [] {
      ContainsIff(s[1..], sub);
      if i :| Occurs(s[1..], sub, i) {
        assert s[1..][i..i + |sub|] == s[i + 1..i + 1 + |sub|];
        assert Occurs(s, sub, i + 1);
      }
      if i :| Occurs(s, sub, i) {
        if i > 0 {
          assert s[1..][i - 1..i - 1 + |sub|] == s[i..i + |sub|];
          assert Occurs(s[1..], sub, i - 1);
        } else {
          assert s[0..0 + |sub|] == s[..|sub|];
        }
      }
    } else if i :| Occurs(s, sub, i) {
      assert s[0..0 + |sub|] == s[..|sub|];
    }
  }

  ghost predicate Occurs(s: string, sub: string, i: int) {
    0 <= i <= |s| - |sub| && s[i..i + |sub|] == sub
  }

  /** A text looks like a chart URL when, in lower case, it holds "://" or begins
      with "file:", "oci:" or "--". */
  lemma UrlIff(text: string)
    ensures LooksLikeUrl(text) <==>
            var s := Lower(Trim(text));
            (exists i :: Occurs(s, "://", i)) || Occurs(s, "file:", 0) || Occurs(s, "oci:", 0) || Occurs(s, "--", 0)
  {
    var s := Lower(Trim(text));
    ContainsIff(s, "://");
    assert forall p: string :: |p| <= |s| ==> s[0..0 + |p|] == s[..|p|];
    hide Contains, Lower, Trim;
  }

  /** No release version holds a blank, a shell character or a URL. */
  lemma ReleaseIsPlain(text: string)
    requires ValidRelease(text)
    ensures forall c :: c in Trim(text) ==> c !in {' ', '\t', '\n', ';', '|', '$', '`'}
    ensures Trim(text) != "" && !LooksLikeUrl(Trim(text)) && Parse(Trim(text)).Some?
  {
    hide Trim, LooksLikeUrl, Parse;
    var bad := " \t\n;|$`";
    assert bad[0] == ' ' && bad[1] == '\t' && bad[2] == '\n' && bad[3] == ';' && bad[4] == '|' && bad[5] == '$' && bad[6] == '`';
    assert forall i :: 0 <= i < |bad| ==> bad[i] in bad;
  }
}
