/**
  The access-list loader `get_authz_config`: a fold over the lines of a
  `REALM|DNSNAME` file into a map from device identity to the realms it may
  use, in file order. Blank lines are skipped, a line with an invalid identity
  is reported and skipped, a line with three or more fields is reported but
  still used, and a non-blank line without `|` aborts the whole load.
 */
module Authz {
  import opened Wrappers
  import opened Text
  import opened DnsName

  /** The messages the loader prints, with the 1-based line number. */
  datatype Diagnostic =
    | MalformedLine(lineNo: nat)
    | BadIdName(lineNo: nat, err: DnsError)

  /**
    The loaded configuration: realms per identity, with the identities kept in
    the insertion order a Python dictionary iterates them in.
   */
  datatype AuthzConfig = AuthzConfig(order: seq<string>, realms: map<string, seq<string>>)

  /** The order lists every key exactly once. */
  predicate WellFormed(c: AuthzConfig)
  {
    && (forall i :: 0 <= i < |c.order| ==> c.order[i] in c.realms)
    && (forall k :: k in c.realms ==> k in c.order)
    && (forall i, j :: 0 <= i < j < |c.order| ==> c.order[i] != c.order[j])
  }

  /**
    The result of a load: the configuration and the messages printed, or the
    `IndexError` on a line together with the messages printed before it.
   */
  datatype Load =
    | Loaded(config: AuthzConfig, diagnostics: seq<Diagnostic>)
    | Aborted(lineNo: nat, diagnostics: seq<Diagnostic>)

  /** `line.strip(" ").strip("\n")`. */
  function CleanLine(line: string): string
  {
    Strip(Strip(line, {' '}), {'\n'})
  }

  /** What one line does to the load; `malformed` means the line did not split into exactly two fields. */
  datatype LineKind =
    | Blank
    | NoIdentity
    | Rejected(err: DnsError, malformed: bool)
    | Entry(realm: string, identity: string, malformed: bool)

  /** The body of the loop for one line. */
  function ClassifyLine(line: string): (k: LineKind)
    ensures k.Blank? <==> CleanLine(line) == ""
    ensures k.NoIdentity? <==> CleanLine(line) != "" && '|' !in CleanLine(line)
  {
    var t := CleanLine(line);
    if t == "" then Blank
    else
      var parts := Split(t, '|');
      SplitCount(t, '|');
      if |parts| < 2 then NoIdentity
      else
        var check := VerifyDnsName(parts[1]);
        if check.Fail? then Rejected(check.error, |parts| != 2)
        else Entry(parts[0], parts[1], |parts| != 2)
  }

  /**
    An entry's realm and identity are the line's first two `|`-separated
    fields exactly as written; a well-formed line is nothing more, a malformed
    one carries further fields after them.
   */
  lemma EntryFields(line: string)
    requires ClassifyLine(line).Entry?
    ensures var k := ClassifyLine(line); '|' !in k.realm && '|' !in k.identity
    ensures var k := ClassifyLine(line); !k.malformed ==> CleanLine(line) == k.realm + "|" + k.identity
    ensures var k := ClassifyLine(line); k.malformed ==> exists tail :: CleanLine(line) == k.realm + "|" + k.identity + "|" + tail
  {
    var t := CleanLine(line);
    var parts := Split(t, '|');
    assert ClassifyLine(line) == Entry(parts[0], parts[1], |parts| != 2);
    FirstTwoFields(t);
  }

  /** A text of two or more `|`-separated fields is its first two fields and, when there are more, the rest. */
  lemma FirstTwoFields(t: string)
    requires |Split(t, '|')| >= 2
    ensures var parts := Split(t, '|'); '|' !in parts[0] && '|' !in parts[1]
    ensures var parts := Split(t, '|'); |parts| == 2 ==> t == parts[0] + "|" + parts[1]
    ensures var parts := Split(t, '|'); |parts| > 2 ==> exists tail :: t == parts[0] + "|" + parts[1] + "|" + tail
  {
    var parts := Split(t, '|');
    JoinFirstTwo(parts, '|');
    if |parts| > 2 {
      var tail := Join(parts[2..], '|');
      assert t == parts[0] + "|" + parts[1] + "|" + tail;
    }
  }

  /** The line was not blank but did not split into exactly two fields; a line without `|` has one field. */
  predicate IsMalformed(k: LineKind)
  {
    match k
    case Blank => false
    case NoIdentity => true
    case Rejected(_, malformed) => malformed
    case Entry(_, _, malformed) => malformed
  }

  /**
    The messages one line prints. A line without `|` prints its "incorrectly
    formatted" message before the lookup of its second field raises.
   */
  function LineDiagnostics(k: LineKind, lineNo: nat): seq<Diagnostic>
  {
    match k
    case Blank => []
    case NoIdentity => [MalformedLine(lineNo)]
    case Rejected(e, malformed) => (if malformed then [MalformedLine(lineNo)] else []) + [BadIdName(lineNo, e)]
    case Entry(_, _, malformed) => if malformed then [MalformedLine(lineNo)] else []
  }

  /** Append `realm` to the identity's list, creating the list on first sight. */
  function AddRealm(c: AuthzConfig, identity: string, realm: string): (r: AuthzConfig)
    ensures r.realms.Keys == c.realms.Keys + {identity}
    ensures identity in c.realms ==> r.realms[identity] == c.realms[identity] + [realm]
    ensures identity !in c.realms ==> r.realms[identity] == [realm]
    ensures forall k :: k in c.realms && k != identity ==> r.realms[k] == c.realms[k]
    ensures identity in c.realms ==> r.order == c.order
    ensures identity !in c.realms ==> r.order == c.order + [identity]
  {
    if identity in c.realms then AuthzConfig(c.order, c.realms[identity := c.realms[identity] + [realm]])
    else AuthzConfig(c.order + [identity], c.realms[identity := [realm]])
  }

  /** Adding a realm keeps the key order well formed. */
  lemma AddRealmWellFormed(c: AuthzConfig, identity: string, realm: string)
    requires WellFormed(c)
    ensures WellFormed(AddRealm(c, identity, realm))
  {
    if identity !in c.realms {
      var r := AddRealm(c, identity, realm);
      assert r.order == c.order + [identity];
      forall i, j | 0 <= i < j < |r.order|
        ensures r.order[i] != r.order[j]
      {
        if j == |c.order| {
          assert r.order[i] == c.order[i];
        }
      }
    }
  }

  /** One turn of the loop, for the line numbered `lineNo` of kind `k`. */
  function Step(l: Load, k: LineKind, lineNo: nat): Load
  {
    match l
    case Aborted(_, _) => l
    case Loaded(c, ds) =>
      if k.NoIdentity? then Aborted(lineNo, ds + LineDiagnostics(k, lineNo))
      else if k.Entry? then Loaded(AddRealm(c, k.identity, k.realm), ds + LineDiagnostics(k, lineNo))
      else Loaded(c, ds + LineDiagnostics(k, lineNo))
  }

  /** Some contributing line names `identity`. */
  predicate Contributes(kinds: seq<LineKind>, identity: string)
  {
    exists i :: 0 <= i < |kinds| && kinds[i].Entry? && kinds[i].identity == identity
  }

  /** The loop over the classified lines, numbered from 1; an abort names one of them. */
  function Fold(kinds: seq<LineKind>): (r: Load)
    ensures r.Aborted? ==> 1 <= r.lineNo <= |kinds|
  {
    if |kinds| == 0 then Loaded(AuthzConfig([], map[]), [])
    else Step(Fold(kinds[..|kinds| - 1]), kinds[|kinds| - 1], |kinds|)
  }

  /** How many lines the loop read: all of them, or up to the one that raised. */
  function LinesRead(kinds: seq<LineKind>): (n: nat)
    ensures n <= |kinds|
  {
    var r := Fold(kinds);
    if r.Aborted? then r.lineNo else |kinds|
  }

  /**
    A completed loop yields a well-formed configuration that gives each of its
    identities at least one realm, and each identity comes from a contributing
    line.
   */
  lemma {:induction false} FoldInvariant(kinds: seq<LineKind>)
    ensures var r := Fold(kinds);
      r.Loaded? ==> WellFormed(r.config) && forall x :: x in r.config.realms ==> |r.config.realms[x]| > 0 && Contributes(kinds, x)
  {
    if |kinds| > 0 {
      var prefix := kinds[..|kinds| - 1];
      var last := kinds[|kinds| - 1];
      FoldInvariant(prefix);
      var prev := Fold(prefix);
      assert Fold(kinds) == Step(prev, last, |kinds|);
      if prev.Loaded? && last.Entry? {
        AddRealmWellFormed(prev.config, last.identity, last.realm);
      }
      ContributesExtend(kinds);
    }
  }

  /** A line added at the end keeps every earlier contribution and adds its own. */
  lemma ContributesExtend(kinds: seq<LineKind>)
    requires |kinds| > 0
    ensures forall x :: Contributes(kinds[..|kinds| - 1], x) ==> Contributes(kinds, x)
    ensures kinds[|kinds| - 1].Entry? ==> Contributes(kinds, kinds[|kinds| - 1].identity)
  {
    var prefix := kinds[..|kinds| - 1];
    forall x | Contributes(prefix, x)
      ensures Contributes(kinds, x)
    {
      var i :| 0 <= i < |prefix| && prefix[i].Entry? && prefix[i].identity == x;
      assert kinds[i] == prefix[i];
    }
  }

  /** Every line, classified. */
  function Classify(lines: seq<string>): (kinds: seq<LineKind>)
  {
    MapSeq(ClassifyLine, lines)
  }

  /**
    The loader over the lines of the file: it keeps each identity once, in the
    order of its first entry line, each with at least one realm.
   */
  function LoadLines(lines: seq<string>): (r: Load)
    ensures r.Loaded? ==> WellFormed(r.config)
    ensures r.Loaded? ==> forall x :: x in r.config.realms ==> |r.config.realms[x]| > 0
    ensures r.Loaded? ==> r.config.order == FirstSeen(Entries(Classify(lines)))
    ensures r.Aborted? ==> 1 <= r.lineNo <= |lines|
  {
    var kinds := Classify(lines);
    FoldInvariant(kinds);
    if Fold(kinds).Loaded? then
      OrderIsFirstSeen(kinds);
      Fold(kinds)
    else Fold(kinds)
  }

  /** `get_authz_config` on the text of the access-list file. */
  function GetAuthzConfig(content: string): Load
  {
    LoadLines(ReadLines(content))
  }

  /** The (realm, identity) pairs of the lines that contribute, in file order. */
  function Entries(kinds: seq<LineKind>): seq<(string, string)>
  {
    if |kinds| == 0 then []
    else
      var k := kinds[|kinds| - 1];
      Entries(kinds[..|kinds| - 1]) + (if k.Entry? then [(k.realm, k.identity)] else [])
  }

  /** The realms paired with `identity`, in order, duplicates kept. */
  function RealmsOf(entries: seq<(string, string)>, identity: string): seq<string>
  {
    if |entries| == 0 then []
    else
      var e := entries[|entries| - 1];
      RealmsOf(entries[..|entries| - 1], identity) + (if e.1 == identity then [e.0] else [])
  }

  /**
    The identities of `entries` in the order of their first appearance, each
    once: the keys of a dictionary filled in that order.
   */
  function FirstSeen(entries: seq<(string, string)>): (ids: seq<string>)
    ensures forall x :: x in ids <==> exists i :: 0 <= i < |entries| && entries[i].1 == x
    ensures forall i, j :: 0 <= i < j < |ids| ==> ids[i] != ids[j]
  {
    if |entries| == 0 then []
    else
      var earlier := entries[..|entries| - 1];
      var id := entries[|entries| - 1].1;
      var prefix := FirstSeen(earlier);
      assert forall i :: 0 <= i < |earlier| ==> earlier[i] == entries[i];
      if id in prefix then prefix else prefix + [id]
  }

  /**
    A completed load lists its identities in the order of their first entry
    line, each once: the order in which the dictionary iterates them.
   */
  lemma {:induction false} OrderIsFirstSeen(kinds: seq<LineKind>)
    requires Fold(kinds).Loaded?
    ensures Fold(kinds).config.order == FirstSeen(Entries(kinds))
  {
    if |kinds| > 0 {
      var prefix := kinds[..|kinds| - 1];
      var last := kinds[|kinds| - 1];
      var prev := Fold(prefix);
      assert Fold(kinds) == Step(prev, last, |kinds|);
      assert prev.Loaded?;
      OrderIsFirstSeen(prefix);
      FoldInvariant(prefix);
      if last.Entry? {
        var es := Entries(kinds);
        assert es[..|es| - 1] == Entries(prefix);
        assert es[|es| - 1].1 == last.identity;
        assert last.identity in prev.config.realms <==> last.identity in prev.config.order;
      } else {
        assert Entries(kinds) == Entries(prefix);
      }
    }
  }

  /**
    A completed load maps each identity to the realms of its lines in file
    order, duplicates kept, and holds no identity without such a line: the
    fold agrees with the list of contributing lines.
   */
  lemma {:induction false} LoadMatchesEntries(kinds: seq<LineKind>)
    requires Fold(kinds).Loaded?
    ensures var c := Fold(kinds).config;
      forall id :: (id in c.realms ==> c.realms[id] == RealmsOf(Entries(kinds), id))
                && (id !in c.realms ==> RealmsOf(Entries(kinds), id) == [])
  {
    if |kinds| > 0 {
      var prefix := kinds[..|kinds| - 1];
      assert Fold(prefix).Loaded?;
      LoadMatchesEntries(prefix);
      var es := Entries(kinds);
      if kinds[|kinds| - 1].Entry? {
        assert es[..|es| - 1] == Entries(prefix);
      } else {
        assert es == Entries(prefix);
      }
    }
  }

  /**
    The fold aborts exactly when some line has no identity field, and it
    reports the first such line.
   */
  lemma {:induction false} FoldAbortsIff(kinds: seq<LineKind>)
    ensures Fold(kinds).Aborted? <==> exists i :: 0 <= i < |kinds| && kinds[i].NoIdentity?
    ensures Fold(kinds).Aborted? ==>
      var n := Fold(kinds).lineNo;
      && kinds[n - 1].NoIdentity?
      && forall i :: 0 <= i < n - 1 ==> !kinds[i].NoIdentity?
  {
    if |kinds| > 0 {
      var prefix := kinds[..|kinds| - 1];
      var last := kinds[|kinds| - 1];
      FoldAbortsIff(prefix);
      assert Fold(kinds) == Step(Fold(prefix), last, |kinds|);
      assert forall i :: 0 <= i < |prefix| ==> prefix[i] == kinds[i];
      if Fold(prefix).Aborted? {
        assert Fold(kinds) == Fold(prefix);
      } else if last.NoIdentity? {
        assert Fold(kinds).Aborted? && Fold(kinds).lineNo == |kinds|;
      } else {
        assert Fold(kinds).Loaded?;
      }
    }
  }

  /** The messages with every line number one higher. */
  function ShiftLines(ds: seq<Diagnostic>): (r: seq<Diagnostic>)
    ensures |r| == |ds|
  {
    seq(|ds|, i requires 0 <= i < |ds| => ds[i].(lineNo := ds[i].lineNo + 1))
  }

  /** The same load with every line number one higher. */
  function Shifted(l: Load): Load
  {
    match l
    case Aborted(n, ds) => Aborted(n + 1, ShiftLines(ds))
    case Loaded(c, ds) => Loaded(c, ShiftLines(ds))
  }

  /** Shifting the messages of two stretches of lines is shifting each. */
  lemma ShiftLinesAppend(a: seq<Diagnostic>, b: seq<Diagnostic>)
    ensures ShiftLines(a + b) == ShiftLines(a) + ShiftLines(b)
  {
  }

  /** A line's messages, shifted, are the messages of the next line number. */
  lemma ShiftLineDiagnostics(k: LineKind, lineNo: nat)
    ensures ShiftLines(LineDiagnostics(k, lineNo)) == LineDiagnostics(k, lineNo + 1)
  {
  }

  /** One turn of the loop commutes with shifting line numbers. */
  lemma StepShifted(l: Load, k: LineKind, lineNo: nat)
    ensures Step(Shifted(l), k, lineNo + 1) == Shifted(Step(l, k, lineNo))
  {
    if l.Loaded? {
      ShiftLinesAppend(l.diagnostics, LineDiagnostics(k, lineNo));
      ShiftLineDiagnostics(k, lineNo);
    }
  }

  /** A blank first line changes nothing but the line numbers. */
  lemma {:induction false} FoldLeadingBlank(kinds: seq<LineKind>)
    ensures Fold([Blank] + kinds) == Shifted(Fold(kinds))
    decreases |kinds|
  {
    if |kinds| == 0 {
      assert Fold([Blank]) == Step(Fold([]), Blank, 1);
    } else {
      var all := [Blank] + kinds;
      var prefix := kinds[..|kinds| - 1];
      assert all[..|all| - 1] == [Blank] + prefix;
      assert all[|all| - 1] == kinds[|kinds| - 1];
      FoldLeadingBlank(prefix);
      StepShifted(Fold(prefix), kinds[|kinds| - 1], |kinds|);
    }
  }

  /**
    A blank line at the top of the file adds nothing to the configuration but
    still advances the line numbers of every later message.
   */
  lemma LeadingBlankLine(blank: string, lines: seq<string>)
    requires CleanLine(blank) == ""
    ensures LoadLines([blank] + lines) == Shifted(LoadLines(lines))
  {
    MapSeqPrepend(ClassifyLine, blank, lines);
    assert ClassifyLine(blank) == Blank;
    FoldLeadingBlank(Classify(lines));
  }

  /** The message fits the line's kind. */
  predicate Explains(k: LineKind, d: Diagnostic)
  {
    match d
    case MalformedLine(_) => IsMalformed(k)
    case BadIdName(_, e) => k.Rejected? && k.err == e
  }

  /** A line's own messages carry its number and fit its kind. */
  lemma LineDiagnosticsExplain(k: LineKind, lineNo: nat)
    ensures forall d :: d in LineDiagnostics(k, lineNo) ==> d.lineNo == lineNo && Explains(k, d)
  {
  }

  /** Every message names a line of the kind it reports. */
  lemma {:induction false} DiagnosticsNameTheirLines(kinds: seq<LineKind>)
    ensures forall d :: d in Fold(kinds).diagnostics ==>
      1 <= d.lineNo <= LinesRead(kinds) && Explains(kinds[d.lineNo - 1], d)
  {
    if |kinds| > 0 {
      var prefix := kinds[..|kinds| - 1];
      var prev := Fold(prefix);
      var last := kinds[|kinds| - 1];
      assert Fold(kinds) == Step(prev, last, |kinds|);
      StepDiagnostics(prev, last, |kinds|);
      DiagnosticsNameTheirLines(prefix);
      var read := if prev.Aborted? then LinesRead(prefix) else |kinds|;
      assert LinesRead(kinds) == read;
      forall d | d in Fold(kinds).diagnostics
        ensures 1 <= d.lineNo <= read && Explains(kinds[d.lineNo - 1], d)
      {
        if d in prev.diagnostics {
          assert prefix[d.lineNo - 1] == kinds[d.lineNo - 1];
        } else {
          LineDiagnosticsExplain(last, |kinds|);
        }
      }
    }
  }

  /** Every line with an invalid identity has its message. */
  lemma {:induction false} EveryBadIdReported(kinds: seq<LineKind>)
    ensures var ds := Fold(kinds).diagnostics;
      forall i :: 0 <= i < LinesRead(kinds) && kinds[i].Rejected? ==> BadIdName(i + 1, kinds[i].err) in ds
  {
    if |kinds| > 0 {
      var prefix := kinds[..|kinds| - 1];
      var prev := Fold(prefix);
      var last := kinds[|kinds| - 1];
      assert Fold(kinds) == Step(prev, last, |kinds|);
      StepDiagnostics(prev, last, |kinds|);
      EveryBadIdReported(prefix);
      if prev.Aborted? {
        assert Fold(kinds) == prev && LinesRead(kinds) == LinesRead(prefix);
        forall i | 0 <= i < LinesRead(kinds) && kinds[i].Rejected?
          ensures BadIdName(i + 1, kinds[i].err) in prev.diagnostics
        {
          assert prefix[i] == kinds[i];
        }
      } else {
        if last.Rejected? {
          RejectedReported(last, |kinds|);
        }
        assert kinds == prefix + [last];
        BadIdsExtend(prefix, last, prev.diagnostics, LineDiagnostics(last, |kinds|));
      }
    }
  }

  /** The bad-name messages of the earlier lines, and the last line's own, cover every rejected line. */
  lemma BadIdsExtend(prefix: seq<LineKind>, last: LineKind, earlier: seq<Diagnostic>, added: seq<Diagnostic>)
    requires forall i :: 0 <= i < |prefix| && prefix[i].Rejected? ==> BadIdName(i + 1, prefix[i].err) in earlier
    requires last.Rejected? ==> BadIdName(|prefix| + 1, last.err) in added
    ensures var kinds := prefix + [last];
      forall i :: 0 <= i < |kinds| && kinds[i].Rejected? ==> BadIdName(i + 1, kinds[i].err) in earlier + added
  {
    var kinds := prefix + [last];
    forall i | 0 <= i < |kinds| && kinds[i].Rejected?
      ensures BadIdName(i + 1, kinds[i].err) in earlier + added
    {
      if i < |prefix| {
        assert kinds[i] == prefix[i];
        InLeft(BadIdName(i + 1, kinds[i].err), earlier, added);
      } else {
        InRight(BadIdName(i + 1, kinds[i].err), earlier, added);
      }
    }
  }

  /** An element of the left part is in the concatenation. */
  lemma InLeft<T>(x: T, a: seq<T>, b: seq<T>)
    requires x in a
    ensures x in a + b
  {
    var i :| 0 <= i < |a| && a[i] == x;
    assert (a + b)[i] == x;
  }

  /** An element of the right part is in the concatenation. */
  lemma InRight<T>(x: T, a: seq<T>, b: seq<T>)
    requires x in b
    ensures x in a + b
  {
    var i :| 0 <= i < |b| && b[i] == x;
    assert (a + b)[|a| + i] == x;
  }

  /** A line with an invalid identity gets its message. */
  lemma RejectedReported(k: LineKind, lineNo: nat)
    requires k.Rejected?
    ensures BadIdName(lineNo, k.err) in LineDiagnostics(k, lineNo)
  {
    var ds := LineDiagnostics(k, lineNo);
    assert ds[|ds| - 1] == BadIdName(lineNo, k.err);
  }

  /** A turn of the loop after an abort changes nothing; otherwise it appends the line's messages. */
  lemma StepDiagnostics(l: Load, k: LineKind, lineNo: nat)
    ensures l.Aborted? ==> Step(l, k, lineNo) == l
    ensures l.Loaded? ==> Step(l, k, lineNo).diagnostics == l.diagnostics + LineDiagnostics(k, lineNo)
  {
  }

  /**
    Every line read that is not blank and does not split into exactly two
    fields has its message, the line that aborts the load included.
   */
  lemma {:induction false} EveryMalformedLineReported(kinds: seq<LineKind>)
    ensures var ds := Fold(kinds).diagnostics;
      forall i :: 0 <= i < LinesRead(kinds) && IsMalformed(kinds[i]) ==> MalformedLine(i + 1) in ds
  {
    if |kinds| > 0 {
      var prefix := kinds[..|kinds| - 1];
      var last := kinds[|kinds| - 1];
      var prev := Fold(prefix);
      assert Fold(kinds) == Step(prev, last, |kinds|);
      StepDiagnostics(prev, last, |kinds|);
      EveryMalformedLineReported(prefix);
      if prev.Aborted? {
        assert Fold(kinds) == prev && LinesRead(kinds) == LinesRead(prefix);
        forall i | 0 <= i < LinesRead(kinds) && IsMalformed(kinds[i])
          ensures MalformedLine(i + 1) in prev.diagnostics
        {
          assert prefix[i] == kinds[i];
        }
      } else {
        var added := LineDiagnostics(last, |kinds|);
        assert IsMalformed(last) ==> added[0] == MalformedLine(|kinds|);
        assert kinds == prefix + [last];
        MalformedExtend(prefix, last, prev.diagnostics, added);
      }
    }
  }

  /** The malformed-line messages of the earlier lines, and the last line's own, cover every malformed line. */
  lemma MalformedExtend(prefix: seq<LineKind>, last: LineKind, earlier: seq<Diagnostic>, added: seq<Diagnostic>)
    requires forall i :: 0 <= i < |prefix| && IsMalformed(prefix[i]) ==> MalformedLine(i + 1) in earlier
    requires IsMalformed(last) ==> MalformedLine(|prefix| + 1) in added
    ensures var kinds := prefix + [last];
      forall i :: 0 <= i < |kinds| && IsMalformed(kinds[i]) ==> MalformedLine(i + 1) in earlier + added
  {
    var kinds := prefix + [last];
    forall i | 0 <= i < |kinds| && IsMalformed(kinds[i])
      ensures MalformedLine(i + 1) in earlier + added
    {
      if i < |prefix| {
        assert kinds[i] == prefix[i];
        InLeft(MalformedLine(i + 1), earlier, added);
      } else {
        InRight(MalformedLine(i + 1), earlier, added);
      }
    }
  }

  /**
    A first line that is not blank and has no `|` aborts the whole load at
    line 1, whatever follows: the `IndexError` is not caught.
   */
  lemma SingleFieldAborts(line: string, rest: seq<string>)
    requires CleanLine(line) != "" && '|' !in CleanLine(line)
    ensures LoadLines([line] + rest) == Aborted(1, [MalformedLine(1)])
  {
    var kinds := Classify([line] + rest);
    assert kinds[0] == ClassifyLine(line);
    FirstNoIdentityAborts(kinds);
  }

  /** A first line without an identity field aborts the loop at line 1, after its own message. */
  lemma {:induction false} FirstNoIdentityAborts(kinds: seq<LineKind>)
    requires |kinds| > 0 && kinds[0].NoIdentity?
    ensures Fold(kinds) == Aborted(1, [MalformedLine(1)])
  {
    if |kinds| == 1 {
      assert Fold(kinds) == Step(Fold([]), kinds[0], 1);
    } else {
      var prefix := kinds[..|kinds| - 1];
      assert prefix[0] == kinds[0];
      FirstNoIdentityAborts(prefix);
      assert Fold(kinds) == Step(Fold(prefix), kinds[|kinds| - 1], |kinds|);
    }
  }

  /**
    A line with three or more fields is reported as malformed, yet its first
    two fields are still used as realm and identity.
   */
  lemma ThreeOrMoreFieldsStillUsed(line: string, realm: string, identity: string, extra: string)
    requires line == realm + "|" + identity + "|" + extra
    requires '|' !in realm && '|' !in identity
    requires line[0] !in {' ', '\n'} && line[|line| - 1] !in {' ', '\n'}
    requires VerifyDnsName(identity).Pass?
    ensures ClassifyLine(line) == Entry(realm, identity, true)
    ensures LoadLines([line]) == Loaded(AuthzConfig([identity], map[identity := [realm]]), [MalformedLine(1)])
  {
    ThreeFieldsSplit(line, realm, identity, extra);
    var parts := [realm, identity] + Split(extra, '|');
    assert parts[0] == realm && parts[1] == identity && |parts| >= 3;
    ClassifyByFields(line, parts);
    var k := Entry(realm, identity, true);
    OneLineLoads(line, k);
    MalformedEntryReported(k);
  }

  /** An entry from a line of more than two fields reports that line as malformed, and nothing else. */
  lemma MalformedEntryReported(k: LineKind)
    requires k.Entry? && k.malformed
    ensures LineDiagnostics(k, 1) == [MalformedLine(1)]
  {
  }

  /** The cleaned three-field line splits into the two fields and the rest. */
  lemma ThreeFieldsSplit(line: string, realm: string, identity: string, extra: string)
    requires line == realm + "|" + identity + "|" + extra
    requires '|' !in realm && '|' !in identity
    requires line[0] !in {' ', '\n'} && line[|line| - 1] !in {' ', '\n'}
    ensures CleanLine(line) == line
    ensures Split(line, '|') == [realm, identity] + Split(extra, '|')
  {
    StripUntouched(line, {' '});
    StripUntouched(line, {'\n'});
    var parts := [realm, identity] + Split(extra, '|');
    assert parts[2..] == Split(extra, '|');
    JoinFirstTwo(parts, '|');
    SplitJoin(parts, '|');
  }

  /** A line whose fields are known, and whose second field is a valid name, is an entry of those fields. */
  lemma ClassifyByFields(line: string, parts: seq<string>)
    requires CleanLine(line) != "" && Split(CleanLine(line), '|') == parts
    requires |parts| >= 2 && VerifyDnsName(parts[1]).Pass?
    ensures ClassifyLine(line) == Entry(parts[0], parts[1], |parts| != 2)
  {
  }

  /** A file of one entry line loads that entry alone, with the line's own messages. */
  lemma OneLineLoads(line: string, k: LineKind)
    requires k.Entry? && ClassifyLine(line) == k
    ensures LoadLines([line]) == Loaded(AuthzConfig([k.identity], map[k.identity := [k.realm]]), LineDiagnostics(k, 1))
  {
    MapSeqSingle(ClassifyLine, line);
    assert LoadLines([line]) == Fold([k]);
    FoldOneEntry(k);
  }

  /** The loop over a single entry. */
  lemma FoldOneEntry(k: LineKind)
    requires k.Entry?
    ensures Fold([k]) == Loaded(AuthzConfig([k.identity], map[k.identity := [k.realm]]), LineDiagnostics(k, 1))
  {
    assert Fold([k]) == Step(Fold([]), k, 1);
    assert [] + [k.identity] == [k.identity];
    assert [] + LineDiagnostics(k, 1) == LineDiagnostics(k, 1);
  }

  /**
    Every identity a completed load keeps passes `verify_dns_name` and is the
    identity of some line of the file, which `EntryFields` shows is that
    line's second field as written.
   */
  lemma KeysComeFromLines(lines: seq<string>, x: string)
    requires LoadLines(lines).Loaded? && x in LoadLines(lines).config.realms
    ensures VerifyDnsName(x).Pass?
    ensures exists i :: 0 <= i < |lines| && ClassifyLine(lines[i]).Entry? && ClassifyLine(lines[i]).identity == x
  {
    var kinds := Classify(lines);
    assert LoadLines(lines) == Fold(kinds);
    FoldInvariant(kinds);
    assert Contributes(kinds, x);
    var i :| 0 <= i < |kinds| && kinds[i].Entry? && kinds[i].identity == x;
    assert kinds[i] == ClassifyLine(lines[i]);
    EntryIdentityPasses(lines[i]);
  }

  /**
    The identity of an entry line passes `verify_dns_name`; a line with a `|`
    is rejected exactly when its second field fails it, with that error.
   */
  lemma EntryIdentityPasses(line: string)
    ensures ClassifyLine(line).Entry? ==> VerifyDnsName(ClassifyLine(line).identity).Pass?
    ensures var t := CleanLine(line);
      t != "" && '|' in t ==>
        && |Split(t, '|')| >= 2
        && (ClassifyLine(line).Rejected? <==> VerifyDnsName(Split(t, '|')[1]).Fail?)
        && (ClassifyLine(line).Rejected? ==> ClassifyLine(line).err == VerifyDnsName(Split(t, '|')[1]).error)
  {
    var t := CleanLine(line);
    if t != "" {
      var parts := Split(t, '|');
      SplitCount(t, '|');
      if |parts| >= 2 {
        var check := VerifyDnsName(parts[1]);
        assert ClassifyLine(line) == if check.Fail? then Rejected(check.error, |parts| != 2) else Entry(parts[0], parts[1], |parts| != 2);
      }
    }
  }
}
