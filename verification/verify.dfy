/**
  The verifier `pkix_cd_verify` as a decision: from the trust-store file, the
  presented certificate, the arguments and the answers of the external
  checks, the exit status it ends with, or an escaped exception.
 */
module Verify {
  import opened Wrappers
  import opened Text
  import opened Json

  /** How the verifier ends: `sys.exit(code)`, or an exception that escapes `main`. */
  datatype Verdict = Exit(code: nat) | Crash

  /** The command-line arguments that reach the decision. */
  datatype Args = Args(called: string, calling: string, liveVerify: bool, requireRegistry: bool)

  /**
    The external calls, as oracles; `None` is an exception raised by the call.
    `aki` is `PKI.get_authority_key_id_from_certificate(pem)`, `liveValid`
    is `Identity(calling, ...).validate_certificate(pem)`'s success flag,
    `issued` is `check_iot_registry_issuance(pem)` and `revoked` is
    `check_iot_registry_revoked(pem, ...)`.
   */
  datatype Oracles = Oracles(
    aki: string -> Option<string>,
    liveValid: (string, string) -> Option<bool>,
    issued: string -> Option<bool>,
    revoked: string -> Option<bool>)

  /** The access point name: everything after the first ':' of the called-station id. */
  function Station(args: Args): Option<string>
  {
    AfterFirst(args.called, ':')
  }

  /**
    The registry step: `Some(pass)`, or `None` when a registry call raises.
    Issuance is always asked; revocation only for a registry-issued certificate.
   */
  function RegistryPass(pem: string, requireRegistry: bool, o: Oracles): Option<bool>
  {
    match o.issued(pem)
    case None => None
    case Some(issued) =>
      if !issued then Some(!requireRegistry)
      else
        match o.revoked(pem)
        case None => None
        case Some(revoked) => Some(!revoked)
  }

  /** The registry check fails exactly when registration is required and missing, or the certificate is revoked. */
  lemma RegistryPassIff(pem: string, requireRegistry: bool, o: Oracles, issued: bool, revoked: bool)
    requires o.issued(pem) == Some(issued)
    requires issued ==> o.revoked(pem) == Some(revoked)
    ensures RegistryPass(pem, requireRegistry, o) == Some(!((requireRegistry && !issued) || (issued && revoked)))
  {
  }

  /** The end of the run once the AKI is accepted: live check when asked for, then the registry. */
  function AfterAki(pem: string, args: Args, o: Oracles): (v: Verdict)
    ensures v.Exit? ==> v.code in {0, 5, 6}
    ensures v == Exit(5) ==> args.liveVerify
  {
    var live := if args.liveVerify then o.liveValid(args.calling, pem) else Some(true);
    match live
    case None => Crash
    case Some(false) => Exit(5)
    case Some(true) =>
      match RegistryPass(pem, args.requireRegistry, o)
      case None => Crash
      case Some(pass) => if pass then Exit(0) else Exit(6)
  }

  /** From the station's entry on: the identity test (which only reports), then the AKI lookup. */
  function CheckEntry(entry: Json, pem: string, args: Args, o: Oracles): (v: Verdict)
    ensures v.Exit? ==> v.code in {0, 4, 5, 6}
  {
    if In(args.calling, entry).None? then Crash
    else
      match o.aki(pem)
      case None => Crash
      case Some(aki) =>
        match Index(entry, args.calling)
        case None => Crash
        case Some(akis) =>
          match In(aki, akis)
          case None => Crash
          case Some(listed) => if !listed then Exit(4) else AfterAki(pem, args, o)
  }

  /** From a loaded map and certificate on: the station test, then the entry. */
  function CheckStation(j: Json, pem: string, args: Args, o: Oracles): (v: Verdict)
    ensures v.Exit? ==> v.code in {0, 3, 4, 5, 6}
  {
    match Station(args)
    case None => Crash
    case Some(ssid) =>
      match In(ssid, j)
      case None => Crash
      case Some(known) =>
        if !known then Exit(3)
        else
          match Index(j, ssid)
          case None => Crash
          case Some(entry) => CheckEntry(entry, pem, args, o)
  }

  /**
    The path to exit 0: the map is loaded, the station is a key, the calling
    identity is a key of its entry, and the certificate's AKI is in that
    identity's list.
   */
  predicate Admitted(trust: StoreFile, cert: Option<string>, args: Args, o: Oracles)
  {
    && trust.Holds? && cert.Some? && Station(args).Some?
    && In(Station(args).value, trust.value) == Some(true)
    && Index(trust.value, Station(args).value).Some?
    && var entry := Index(trust.value, Station(args).value).value;
    && Index(entry, args.calling).Some?
    && o.aki(cert.value).Some?
    && In(o.aki(cert.value).value, Index(entry, args.calling).value) == Some(true)
  }

  /**
    `main` of the verifier. Every exit status is one of 0 to 6; exit 1 is
    exactly a missing map, exit 2 exactly a loaded map with a missing
    certificate, exit 5 needs the live flag, and exit 0 needs an admitted
    certificate.
   */
  function VerifyMain(trust: StoreFile, cert: Option<string>, args: Args, o: Oracles): (v: Verdict)
    ensures v.Exit? ==> v.code <= 6
    ensures v == Exit(1) <==> trust.Absent?
    ensures trust.Unparsable? ==> v == Crash
    ensures v == Exit(2) <==> trust.Holds? && cert.None?
    ensures v == Exit(5) ==> args.liveVerify
    ensures v == Exit(0) ==> Admitted(trust, cert, args, o)
  {
    match trust
    case Absent => Exit(1)
    case Unparsable => Crash
    case Holds(j) =>
      match cert
      case None => Exit(2)
      case Some(pem) => CheckStation(j, pem, args, o)
  }

  /** A called-station id without ':' raises on a loaded map with a certificate. */
  lemma NoColonCrashes(j: Json, pem: string, args: Args, o: Oracles)
    requires ':' !in args.called
    ensures VerifyMain(Holds(j), Some(pem), args, o) == Crash
  {
  }

  /** Only the text after the first ':' matters: any prefix without ':' gives the same verdict. */
  lemma OnlyTextAfterFirstColon(trust: StoreFile, cert: Option<string>, args: Args, o: Oracles, p: string, q: string, ssid: string)
    requires ':' !in p && ':' !in q
    ensures VerifyMain(trust, cert, args.(called := p + [':'] + ssid), o)
         == VerifyMain(trust, cert, args.(called := q + [':'] + ssid), o)
  {
    AfterFirstOfJoin(p, ':', ssid);
    AfterFirstOfJoin(q, ':', ssid);
    SameStationSameVerdict(trust, cert, args.(called := p + [':'] + ssid), args.(called := q + [':'] + ssid), o);
  }

  /** Two argument sets that differ only in the called-station id, and agree on the station, get the same verdict. */
  lemma SameStationSameVerdict(trust: StoreFile, cert: Option<string>, a1: Args, a2: Args, o: Oracles)
    requires Station(a1) == Station(a2)
    requires a1.calling == a2.calling && a1.liveVerify == a2.liveVerify && a1.requireRegistry == a2.requireRegistry
    ensures VerifyMain(trust, cert, a1, o) == VerifyMain(trust, cert, a2, o)
  {
    if trust.Holds? && cert.Some? {
      var j, pem := trust.value, cert.value;
      assert forall entry :: CheckEntry(entry, pem, a1, o) == CheckEntry(entry, pem, a2, o) by {
        assert AfterAki(pem, a1, o) == AfterAki(pem, a2, o);
      }
      assert CheckStation(j, pem, a1, o) == CheckStation(j, pem, a2, o);
    }
  }

  /** Without the live flag the live check is never consulted, and exit 5 never happens. */
  lemma LiveCheckOnlyWithFlag(trust: StoreFile, cert: Option<string>, args: Args, o: Oracles, live: (string, string) -> Option<bool>)
    requires !args.liveVerify
    ensures VerifyMain(trust, cert, args, o) == VerifyMain(trust, cert, args, o.(liveValid := live))
    ensures VerifyMain(trust, cert, args, o) != Exit(5)
  {
    if cert.Some? {
      assert AfterAki(cert.value, args, o) == AfterAki(cert.value, args, o.(liveValid := live));
    }
    SameLastStageSameVerdict(trust, cert, args, o, o.(liveValid := live));
  }

  /** Revocation is never asked about a certificate the registry did not issue. */
  lemma RevocationOnlyIfIssued(trust: StoreFile, cert: Option<string>, args: Args, o: Oracles, rev: string -> Option<bool>)
    requires cert.Some? ==> o.issued(cert.value) == Some(false)
    ensures VerifyMain(trust, cert, args, o) == VerifyMain(trust, cert, args, o.(revoked := rev))
  {
    if cert.Some? {
      assert AfterAki(cert.value, args, o) == AfterAki(cert.value, args, o.(revoked := rev));
    }
    SameLastStageSameVerdict(trust, cert, args, o, o.(revoked := rev));
  }

  /** Oracles that agree on the AKI, and on the last stage, give the same verdict. */
  lemma SameLastStageSameVerdict(trust: StoreFile, cert: Option<string>, args: Args, o1: Oracles, o2: Oracles)
    requires o1.aki == o2.aki
    requires cert.Some? ==> AfterAki(cert.value, args, o1) == AfterAki(cert.value, args, o2)
    ensures VerifyMain(trust, cert, args, o1) == VerifyMain(trust, cert, args, o2)
  {
    if trust.Holds? && cert.Some? {
      var j, pem := trust.value, cert.value;
      assert forall entry :: CheckEntry(entry, pem, args, o1) == CheckEntry(entry, pem, args, o2);
      assert CheckStation(j, pem, args, o1) == CheckStation(j, pem, args, o2);
    }
  }

  /**
    The decision the verifier makes on a well-shaped trust map when every
    external call answers: the checks in order, with an identity missing
    from the station's entry ending in an exception rather than an exit.
   */
  function Decide(tm: TrustMap, ssid: string, calling: string, aki: string, live: bool,
                  issued: bool, revoked: bool, liveVerify: bool, requireRegistry: bool): Verdict
  {
    if ssid !in tm then Exit(3)
    else if calling !in tm[ssid] then Crash
    else if aki !in tm[ssid][calling] then Exit(4)
    else if liveVerify && !live then Exit(5)
    else if (requireRegistry && !issued) || (issued && revoked) then Exit(6)
    else Exit(0)
  }

  /** Every external call answers for this certificate. */
  predicate Answers(pem: string, args: Args, o: Oracles)
  {
    && o.aki(pem).Some?
    && (args.liveVerify ==> o.liveValid(args.calling, pem).Some?)
    && o.issued(pem).Some?
    && (o.issued(pem) == Some(true) ==> o.revoked(pem).Some?)
  }

  /**
    On the JSON text of a realm-keyed trust map, with a well-formed
    called-station id and answering oracles, the verifier makes exactly the
    decision of `Decide`.
   */
  lemma VerifyDecides(tm: TrustMap, pem: string, args: Args, o: Oracles, p: string, ssid: string)
    requires ':' !in p && args.called == p + [':'] + ssid
    requires Answers(pem, args, o)
    ensures VerifyMain(Holds(EncodeTrustMap(tm)), Some(pem), args, o)
         == Decide(tm, ssid, args.calling, o.aki(pem).value,
                   !args.liveVerify || o.liveValid(args.calling, pem) == Some(true),
                   o.issued(pem) == Some(true), o.revoked(pem) == Some(true),
                   args.liveVerify, args.requireRegistry)
  {
    AfterFirstOfJoin(p, ':', ssid);
    var j := EncodeTrustMap(tm);
    assert Station(args) == Some(ssid);
    if ssid in tm {
      assert Index(j, ssid) == Some(EncodeIdentityMap(tm[ssid]));
      EntryDecides(tm[ssid], pem, args, o);
      AfterAkiDecides(pem, args, o);
    }
  }

  /** The station's entry stage: a missing identity raises, an unlisted AKI is exit 4, a listed one goes on. */
  lemma EntryDecides(ids: IdentityMap, pem: string, args: Args, o: Oracles)
    requires o.aki(pem).Some?
    ensures CheckEntry(EncodeIdentityMap(ids), pem, args, o)
         == if args.calling !in ids then Crash
            else if o.aki(pem).value !in ids[args.calling] then Exit(4)
            else AfterAki(pem, args, o)
  {
    var entry := EncodeIdentityMap(ids);
    if args.calling in ids {
      assert Index(entry, args.calling) == Some(StrList(ids[args.calling]));
      InStrList(o.aki(pem).value, ids[args.calling]);
    }
  }

  /** The last stage with every call answering: exit 5 for a failed live check, exit 6 for a registry objection, else 0. */
  lemma AfterAkiDecides(pem: string, args: Args, o: Oracles)
    requires Answers(pem, args, o)
    ensures AfterAki(pem, args, o)
         == if args.liveVerify && o.liveValid(args.calling, pem) != Some(true) then Exit(5)
            else if (args.requireRegistry && o.issued(pem) != Some(true))
                 || (o.issued(pem) == Some(true) && o.revoked(pem) == Some(true)) then Exit(6)
            else Exit(0)
  {
    if o.issued(pem) == Some(true) {
      RegistryPassIff(pem, args.requireRegistry, o, true, o.revoked(pem).value);
    } else {
      assert o.issued(pem).Some? && !o.issued(pem).value;
      RegistryPassIff(pem, args.requireRegistry, o, false, false);
    }
  }

  /** An identity the station's entry does not list ends the run with an exception, whatever the oracles say. */
  lemma UnlistedIdentityCrashes(tm: TrustMap, pem: string, args: Args, o: Oracles, p: string, ssid: string)
    requires ':' !in p && args.called == p + [':'] + ssid
    requires ssid in tm && args.calling !in tm[ssid]
    ensures VerifyMain(Holds(EncodeTrustMap(tm)), Some(pem), args, o) == Crash
  {
    AfterFirstOfJoin(p, ':', ssid);
    assert Index(EncodeTrustMap(tm), ssid) == Some(EncodeIdentityMap(tm[ssid]));
  }

  /**
    On a realm-keyed trust map, exit 0 means the station is a key, the calling
    identity is listed for it, and the certificate's AKI is in its list.
   */
  lemma AcceptedMeansListed(tm: TrustMap, pem: string, args: Args, o: Oracles)
    requires VerifyMain(Holds(EncodeTrustMap(tm)), Some(pem), args, o) == Exit(0)
    ensures Station(args).Some?
    ensures var ssid := Station(args).value;
      && ssid in tm && args.calling in tm[ssid]
      && o.aki(pem).Some? && o.aki(pem).value in tm[ssid][args.calling]
  {
    var ssid := Station(args).value;
    assert Index(EncodeTrustMap(tm), ssid) == Some(EncodeIdentityMap(tm[ssid]));
    InStrList(o.aki(pem).value, tm[ssid][args.calling]);
  }
}
