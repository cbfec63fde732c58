/**
  Device identities are DNS names. `VerifyDnsName` accepts a name when, once
  every trailing dot is removed, it does not read as a dotted-quad IPv4
  address (`IsItAnIp`) and every dot-separated label matches the regular
  expression `^([A-Za-z0-9_-]+)$`. `IsItAnIp` uses Python's `int()`, modelled
  here by `PyInt`.
 */
module DnsName {
  import opened Wrappers
  import opened Text

  predicate IsDigit(c: char)
  {
    '0' <= c <= '9'
  }

  /** The ASCII characters `int()` skips around a number. */
  const AsciiWhitespace: set<char> := {' ', '\t', '\n', '\r', 11 as char, 12 as char}

  /** ASCII digits with single underscores between them, as `int()` accepts them. */
  predicate DigitGroups(t: string)
  {
    && |t| > 0 && IsDigit(t[0]) && IsDigit(t[|t| - 1])
    && (forall i :: 0 <= i < |t| ==> IsDigit(t[i]) || t[i] == '_')
    && (forall i :: 0 <= i < |t| - 1 ==> !(t[i] == '_' && t[i + 1] == '_'))
  }

  /** The decimal value of a digit string, underscores ignored. */
  function DigitsValue(t: string): int
  {
    if |t| == 0 then 0
    else if t[|t| - 1] == '_' then DigitsValue(t[..|t| - 1])
    else 10 * DigitsValue(t[..|t| - 1]) + (t[|t| - 1] as int - '0' as int)
  }

  /**
    Python's `int(s)` in base 10: surrounding whitespace, an optional sign,
    then digit groups. `None` is the `ValueError`.
   */
  function PyInt(s: string): Option<int>
  {
    var t := Strip(s, AsciiWhitespace);
    if |t| > 0 && (t[0] == '+' || t[0] == '-') then
      if DigitGroups(t[1..]) then
        Some(if t[0] == '-' then -DigitsValue(t[1..]) else DigitsValue(t[1..]))
      else None
    else if DigitGroups(t) then Some(DigitsValue(t))
    else None
  }

  /** The test `0 < int(x) < 255` succeeds without a `ValueError`. */
  predicate Octet(x: string)
  {
    var v := PyInt(x);
    v.Some? && 0 < v.value < 255
  }

  /**
    `is_it_an_ip`: exactly four dot-separated parts, each an integer strictly
    between 0 and 255. The loop runs over a list just checked to have four
    items, and both a `ValueError` and an out-of-range value give `False`, so
    it is the four tests in a row.
   */
  function IsItAnIp(name: string): bool
  {
    var parts := Split(name, '.');
    |parts| == 4 && Octet(parts[0]) && Octet(parts[1]) && Octet(parts[2]) && Octet(parts[3])
  }

  predicate LabelChar(c: char)
  {
    'A' <= c <= 'Z' || 'a' <= c <= 'z' || '0' <= c <= '9' || c == '_' || c == '-'
  }

  predicate AllLabelChars(x: string)
  {
    forall i :: 0 <= i < |x| ==> LabelChar(x[i])
  }

  /**
    `re.match("^([A-Za-z0-9_-]+)$", x)`: one or more label characters; Python's
    `$` also matches just before a final `'\n'`.
   */
  predicate LabelMatches(x: string)
  {
    || (|x| > 0 && AllLabelChars(x))
    || (|x| > 1 && x[|x| - 1] == '\n' && AllLabelChars(x[..|x| - 1]))
  }

  /** The loop over the labels: it stops at the first label that does not match. */
  function AllLabelsMatch(labels: seq<string>): (r: bool)
    ensures r <==> forall i :: 0 <= i < |labels| ==> LabelMatches(labels[i])
  {
    if |labels| == 0 then true
    else if !LabelMatches(labels[0]) then false
    else AllLabelsMatch(labels[1..])
  }

  /** The two `ValueError`s `verify_dns_name` raises. */
  datatype DnsError = LooksLikeIp(name: string) | InvalidHostname

  /** The name with every trailing dot removed, as `verify_dns_name` examines it. */
  function Stripped(name: string): string
  {
    RStrip(name, {'.'})
  }

  /** `verify_dns_name`: `Pass` when no `ValueError` is raised. */
  function VerifyDnsName(name: string): (r: Outcome<DnsError>)
  {
    var stripped := Stripped(name);
    if IsItAnIp(stripped) then Fail(LooksLikeIp(stripped))
    else if AllLabelsMatch(Split(stripped, '.')) then Pass
    else Fail(InvalidHostname)
  }

  /** Appending a dot never changes the outcome: `rstrip(".")` removes every trailing dot. */
  lemma TrailingDotIrrelevant(name: string)
    ensures VerifyDnsName(name + ".") == VerifyDnsName(name)
  {
    assert (name + ".")[..|name|] == name;
  }

  /**
    A character-level reading of "every label matches" for names without a
    newline: non-empty, only label characters and dots, no dot at either end,
    and no two dots in a row.
   */
  predicate Hostname(t: string)
  {
    && |t| > 0
    && (forall k :: 0 <= k < |t| ==> LabelChar(t[k]) || t[k] == '.')
    && t[0] != '.' && t[|t| - 1] != '.'
    && (forall k :: 0 <= k < |t| - 1 ==> !(t[k] == '.' && t[k + 1] == '.'))
  }

  /** Peeling the first label off a hostname leaves a hostname. */
  lemma HostnameStep(t: string, i: nat)
    requires i < |t| && t[i] == '.' && '.' !in t[..i]
    ensures Hostname(t) <==> (i > 0 && AllLabelChars(t[..i]) && Hostname(t[i + 1..]))
  {
    var rest := t[i + 1..];
    if Hostname(t) {
      assert i > 0;
      forall k | 0 <= k < i
        ensures LabelChar(t[..i][k])
      {
        assert t[..i][k] == t[k];
      }
      assert i < |t| - 1;
      assert rest[0] == t[i + 1];
      assert forall k :: 0 <= k < |rest| ==> rest[k] == t[i + 1 + k];
    }
    if i > 0 && AllLabelChars(t[..i]) && Hostname(rest) {
      assert forall k :: 0 <= k < i ==> t[k] == t[..i][k];
      assert forall k :: i < k < |t| ==> t[k] == rest[k - i - 1];
      forall k | 0 <= k < |t| - 1
        ensures !(t[k] == '.' && t[k + 1] == '.')
      {
        if k < i - 1 {
          assert LabelChar(t[..i][k]);
        } else if k == i - 1 {
          assert LabelChar(t[..i][k]);
        } else if k == i {
          assert t[k + 1] == rest[0];
        } else {
          assert t[k] == rest[k - i - 1] && t[k + 1] == rest[k - i];
        }
      }
    }
  }

  /** For names without a newline, the labels all match exactly when the name is a `Hostname`. */
  lemma {:induction false} LabelsMatchIffHostname(t: string)
    requires '\n' !in t
    ensures AllLabelsMatch(Split(t, '.')) <==> Hostname(t)
    decreases |t|
  {
    if '.' !in t {
      assert Split(t, '.') == [t];
      if Hostname(t) {
        forall k | 0 <= k < |t|
          ensures LabelChar(t[k])
        {
          assert t[k] in t;
        }
        assert LabelMatches(t);
      }
    } else {
      var i := FirstIndex(t, '.');
      var rest := t[i + 1..];
      assert Split(t, '.') == [t[..i]] + Split(rest, '.');
      assert '\n' !in rest by {
        forall k | 0 <= k < |rest|
          ensures rest[k] != '\n'
        {
          assert rest[k] == t[i + 1 + k];
        }
      }
      LabelsMatchIffHostname(rest);
      HostnameStep(t, i);
      var first := t[..i];
      assert LabelMatches(first) <==> |first| > 0 && AllLabelChars(first);
      var parts := Split(t, '.');
      assert parts[0] == first && parts[1..] == Split(rest, '.');
      assert AllLabelsMatch(parts) == (LabelMatches(parts[0]) && AllLabelsMatch(parts[1..]));
    }
  }

  /**
    For names without a newline, `verify_dns_name` accepts exactly the names
    whose dot-stripped form is a `Hostname` and not a dotted quad.
   */
  lemma VerifyDnsNameCharLevel(name: string)
    requires '\n' !in name
    ensures VerifyDnsName(name).Pass? <==> !IsItAnIp(Stripped(name)) && Hostname(Stripped(name))
  {
    var t := Stripped(name);
    assert t <= name;
    assert '\n' !in t by {
      forall k | 0 <= k < |t|
        ensures t[k] != '\n'
      {
        assert t[k] == name[k];
      }
    }
    LabelsMatchIffHostname(t);
  }

  /** The empty name, an empty label and a leading dot are all rejected. */
  lemma RejectsEmptyLabels()
    ensures VerifyDnsName("").Fail?
    ensures VerifyDnsName("a..b").Fail?
    ensures VerifyDnsName(".a").Fail?
  {
    VerifyDnsNameCharLevel("");
    assert Stripped("a..b") == "a..b";
    VerifyDnsNameCharLevel("a..b");
    assert Stripped(".a") == ".a";
    VerifyDnsNameCharLevel(".a");
  }

  /** The 255-character limit named in the documentation is not enforced. */
  lemma NoLengthLimit()
    ensures VerifyDnsName(seq(300, i => 'a')).Pass?
  {
    var name: string := seq(300, i => 'a');
    assert '.' !in name;
    assert Stripped(name) == name;
    SplitCount(name, '.');
    assert Split(name, '.') == [name];
    assert LabelMatches(name);
  }

  /** The decimal digits of a natural number. */
  function Decimal(n: nat): (s: string)
    ensures |s| > 0
    ensures forall i :: 0 <= i < |s| ==> IsDigit(s[i])
  {
    if n < 10 then [('0' as int + n) as char]
    else Decimal(n / 10) + [('0' as int + n % 10) as char]
  }

  /** Reading back the decimal digits gives the number. */
  lemma {:induction false} DecimalValue(n: nat)
    ensures DigitsValue(Decimal(n)) == n
  {
    if n >= 10 {
      var d := Decimal(n);
      assert d[..|d| - 1] == Decimal(n / 10);
      DecimalValue(n / 10);
    } else {
      var d := Decimal(n);
      assert d[..|d| - 1] == [];
    }
  }

  /** Whitespace stripping leaves a string that starts and ends with non-whitespace alone. */
  lemma StripUntouched(s: string, chars: set<char>)
    requires |s| > 0 && s[0] !in chars && s[|s| - 1] !in chars
    ensures Strip(s, chars) == s
  {
    var r := Strip(s, chars);
    StripTrims(s, chars);
    var i, j :| 0 <= i <= j <= |s| && r == s[i..j]
      && (forall k :: 0 <= k < i ==> s[k] in chars)
      && (forall k :: j <= k < |s| ==> s[k] in chars);
  }

  /** `int()` reads back the decimal digits of any natural number. */
  lemma PyIntDecimal(n: nat)
    ensures PyInt(Decimal(n)) == Some(n)
  {
    var d := Decimal(n);
    StripUntouched(d, AsciiWhitespace);
    DecimalValue(n);
    assert DigitGroups(d);
  }

  /** The dotted quad `a.b.c.d` in decimal. */
  function Dotted(a: nat, b: nat, c: nat, d: nat): string
  {
    Join([Decimal(a), Decimal(b), Decimal(c), Decimal(d)], '.')
  }

  /** A join ends with the last part's last character. */
  lemma {:induction false} LastOfJoin(parts: seq<string>, sep: char)
    requires |parts| >= 1 && |parts[|parts| - 1]| > 0
    ensures var j := Join(parts, sep); |j| > 0 && j[|j| - 1] == parts[|parts| - 1][|parts[|parts| - 1]| - 1]
    decreases |parts|
  {
    if |parts| > 1 {
      LastOfJoin(parts[1..], sep);
    }
  }

  /** The decimal digits of a number contain no dot. */
  lemma DecimalHasNoDot(n: nat)
    ensures '.' !in Decimal(n)
  {
  }

  /** A dotted quad splits into its four decimal parts. */
  lemma SplitDotted(a: nat, b: nat, c: nat, d: nat)
    ensures Split(Dotted(a, b, c, d), '.') == [Decimal(a), Decimal(b), Decimal(c), Decimal(d)]
  {
    DecimalHasNoDot(a);
    DecimalHasNoDot(b);
    DecimalHasNoDot(c);
    DecimalHasNoDot(d);
    SplitJoin([Decimal(a), Decimal(b), Decimal(c), Decimal(d)], '.');
  }

  /** The decimal digits of `n` pass the octet test exactly when `0 < n < 255`. */
  lemma OctetDecimal(n: nat)
    ensures Octet(Decimal(n)) <==> 0 < n < 255
  {
    PyIntDecimal(n);
  }

  /** Decimal digits form a valid label. */
  lemma LabelMatchesDecimal(n: nat)
    ensures LabelMatches(Decimal(n))
  {
    var d := Decimal(n);
    assert forall k :: 0 <= k < |d| ==> IsDigit(d[k]);
  }

  /**
    A dotted quad counts as an IP exactly when every part lies strictly
    between 0 and 255.
   */
  lemma DottedQuadIsIpIff(a: nat, b: nat, c: nat, d: nat)
    ensures IsItAnIp(Dotted(a, b, c, d)) <==> 0 < a < 255 && 0 < b < 255 && 0 < c < 255 && 0 < d < 255
  {
    SplitDotted(a, b, c, d);
    OctetDecimal(a);
    OctetDecimal(b);
    OctetDecimal(c);
    OctetDecimal(d);
  }

  /**
    `verify_dns_name` accepts a dotted quad as a host name exactly when some
    part is 0 or at least 255, so `10.0.0.1` and `255.255.255.255` pass as
    device identities.
   */
  lemma DottedQuadAcceptedIff(a: nat, b: nat, c: nat, d: nat)
    ensures VerifyDnsName(Dotted(a, b, c, d)).Pass? <==> !(0 < a < 255 && 0 < b < 255 && 0 < c < 255 && 0 < d < 255)
  {
    var name := Dotted(a, b, c, d);
    assert Stripped(name) == name by {
      LastOfJoin([Decimal(a), Decimal(b), Decimal(c), Decimal(d)], '.');
    }
    DottedQuadIsIpIff(a, b, c, d);
    SplitDotted(a, b, c, d);
    LabelMatchesDecimal(a);
    LabelMatchesDecimal(b);
    LabelMatchesDecimal(c);
    LabelMatchesDecimal(d);
    assert AllLabelsMatch(Split(name, '.'));
  }

  /** `int("1_0")` is 10. */
  lemma PyIntUnderscore()
    ensures PyInt("1_0") == Some(10)
  {
    StripUntouched("1_0", AsciiWhitespace);
    assert DigitGroups("1_0");
    assert "1_0"[..2] == "1_";
    assert "1_"[..1] == "1";
    assert "1"[..0] == "";
  }

  /** `int()` accepts underscores between digits, so `1_0.2.3.4` counts as an IP. */
  lemma UnderscoreOctet()
    ensures IsItAnIp("1_0.2.3.4")
  {
    var parts := ["1_0", Decimal(2), Decimal(3), Decimal(4)];
    assert Decimal(2) == "2" && Decimal(3) == "3" && Decimal(4) == "4";
    assert Join(parts[3..], '.') == "4";
    assert Join(parts[2..], '.') == "3.4";
    assert Join(parts[1..], '.') == "2.3.4";
    assert Join(parts, '.') == "1_0.2.3.4";
    SplitJoin(parts, '.');
    PyIntUnderscore();
    OctetDecimal(2);
    OctetDecimal(3);
    OctetDecimal(4);
  }
}
