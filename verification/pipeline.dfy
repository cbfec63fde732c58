/**
  The trust manager and the verifier together. The manager writes an
  identity-keyed map, `{dnsname: [aki, ...]}`, while the verifier looks up
  `map[ssid][calling]` and needs `{ssid: {dnsname: [aki, ...]}}`. So what the
  manager writes can never admit anyone. The realm-keyed manager below writes
  the shape the verifier reads, and an authorised device whose certificate was
  discovered gets past the station and AKI checks.
 */
module Pipeline {
  import opened Wrappers
  import opened Text
  import opened Json
  import opened TrustStore
  import opened Authz
  import opened TrustManager
  import opened Verify

  /**
    On any store that reads as an identity-keyed map, the verifier ends with
    exit 1, 2 or 3 or an exception. Exit 0 is unreachable, and so are the
    AKI, live and registry failures 4, 5 and 6.
   */
  lemma IdentityKeyedStoreNeverAdmits(m: IdentityMap, s: StoreFile, cert: Option<string>, args: Args, o: Oracles)
    requires OnDisk(s) == EncodeIdentityMap(m)
    ensures VerifyMain(s, cert, args, o) in {Exit(1), Exit(2), Exit(3), Crash}
  {
    if s.Holds? && cert.Some? && Station(args).Some? {
      var ssid := Station(args).value;
      var j := EncodeIdentityMap(m);
      if ssid in m {
        assert Index(j, ssid) == Some(StrList(m[ssid]));
        assert Index(StrList(m[ssid]), args.calling).None?;
      }
    }
  }

  /** Whatever the access list, discovery and store, the map the manager leaves admits nobody. */
  lemma ManagedStoreNeverAdmits(accessList: string, d: Discovery, store: StoreFile, cert: Option<string>, args: Args, o: Oracles)
    requires ManageTrust(accessList, d, store).Completed?
    ensures VerifyMain(ManageTrust(accessList, d, store).store, cert, args, o) in {Exit(1), Exit(2), Exit(3), Crash}
  {
    var r := ManageTrust(accessList, d, store);
    IdentityKeyedStoreNeverAdmits(r.trust, r.store, cert, args, o);
  }

  /** Every realm the configuration names. */
  function RealmsNamed(realms: map<string, seq<string>>): (names: set<string>)
    ensures forall id, s :: id in realms && s in realms[id] ==> s in names
    ensures forall s :: s in names ==> exists id :: id in realms && s in realms[id]
  {
    set id, s | id in realms && s in realms[id] :: s
  }

  /** Regroup an identity map by realm: each realm maps the identities allowed on it to their AKIs. */
  function RealmKeyed(realms: map<string, seq<string>>, m: IdentityMap): (tm: TrustMap)
    ensures tm.Keys == RealmsNamed(realms)
    ensures forall s :: s in tm ==> forall id :: id in tm[s] <==> id in realms && id in m && s in realms[id]
    ensures forall s :: s in tm ==> forall id :: id in tm[s] ==> tm[s][id] == m[id]
  {
    map s | s in RealmsNamed(realms) :: map id | id in realms && id in m && s in realms[id] :: m[id]
  }

  /** The manager as evidently intended: the same loop, persisting the realm-keyed map. */
  function ManageTrustRealmKeyed(accessList: string, d: Discovery, store: StoreFile): (r: Run<TrustMap>)
    ensures r.Crashed? ==> r.store == store
    ensures r.Completed? ==> OnDisk(r.store) == EncodeTrustMap(r.trust)
    ensures r.Completed? ==> (r.caWrite.Some? <==> r.store != store)
  {
    AfterLoadRealmKeyed(GetAuthzConfig(accessList), d, store)
  }

  /** Everything after reading the access list, for the realm-keyed manager. */
  function AfterLoadRealmKeyed(l: Load, d: Discovery, store: StoreFile): (r: Run<TrustMap>)
    ensures r.Crashed? ==> r.store == store
    ensures r.Completed? ==> OnDisk(r.store) == EncodeTrustMap(r.trust)
    ensures r.Completed? ==> (r.caWrite.Some? <==> r.store != store)
  {
    match l
    case Aborted(_, _) => Crashed(store)
    case Loaded(cfg, _) =>
      match BuildTrust(cfg.order, d)
      case None => Crashed(store)
      case Some(built) =>
        var tm := RealmKeyed(cfg.realms, built.0);
        Persist(tm, EncodeTrustMap(tm), built.1, store)
  }

  /**
    The realm-keyed map lists an identity under a realm exactly when the
    configuration allows it there, each with the AKIs discovery found for it.
   */
  predicate ListsAuthorised(tm: TrustMap, cfg: AuthzConfig, d: Discovery)
  {
    && (forall s, id :: s in tm && id in tm[s] ==> id in cfg.realms && s in cfg.realms[id])
    && (forall s, id :: id in cfg.realms && s in cfg.realms[id] ==> s in tm && id in tm[s])
    && (forall s, id :: s in tm && id in tm[s] ==> Discovered(id, d) && tm[s][id] == Akis(id, d))
  }

  /** One entry of a map that lists the authorised devices, read back. */
  lemma ListedEntry(tm: TrustMap, cfg: AuthzConfig, d: Discovery, s: string, id: string)
    requires ListsAuthorised(tm, cfg, d)
    ensures s in tm && id in tm[s] <==> id in cfg.realms && s in cfg.realms[id]
    ensures s in tm && id in tm[s] ==> Discovered(id, d) && tm[s][id] == Akis(id, d)
  {
  }

  /**
    The realm-keyed run completes exactly when the identity-keyed one does,
    with the same CA set, and its map lists an identity under a realm exactly
    when the access list allows it there, with that identity's AKIs.
   */
  lemma RealmKeyedRunSpec(accessList: string, d: Discovery, store: StoreFile)
    ensures ManageTrustRealmKeyed(accessList, d, store).Completed? <==> ManageTrust(accessList, d, store).Completed?
    ensures var r := ManageTrustRealmKeyed(accessList, d, store);
      var l := GetAuthzConfig(accessList);
      r.Completed? ==>
        && l.Loaded?
        && r.caBundle == ManageTrust(accessList, d, store).caBundle
        && ListsAuthorised(r.trust, l.config, d)
  {
    var l := GetAuthzConfig(accessList);
    assert l == LoadLines(ReadLines(accessList));
    assert ManageTrustRealmKeyed(accessList, d, store) == AfterLoadRealmKeyed(l, d, store);
    assert ManageTrust(accessList, d, store) == AfterLoad(l, d, store);
    AfterLoadRealmKeyedSpec(l, d, store);
  }

  /** `RealmKeyedRunSpec` for an already loaded access list. */
  lemma AfterLoadRealmKeyedSpec(l: Load, d: Discovery, store: StoreFile)
    requires l.Loaded? ==> WellFormed(l.config)
    ensures AfterLoadRealmKeyed(l, d, store).Completed? <==> AfterLoad(l, d, store).Completed?
    ensures var r := AfterLoadRealmKeyed(l, d, store);
      r.Completed? ==>
        && l.Loaded?
        && r.caBundle == AfterLoad(l, d, store).caBundle
        && ListsAuthorised(r.trust, l.config, d)
  {
    if l.Loaded? {
      var cfg := l.config;
      BuildTrustSpec(cfg.order, d);
      if BuildTrust(cfg.order, d).Some? {
        var m := BuildTrust(cfg.order, d).value.0;
        assert m.Keys == cfg.realms.Keys;
        var tm := RealmKeyed(cfg.realms, m);
        assert AfterLoadRealmKeyed(l, d, store).trust == tm;
        forall s, id | s in tm && id in tm[s]
          ensures Discovered(id, d) && tm[s][id] == Akis(id, d)
        {
          assert id in m;
          assert tm[s][id] == m[id];
          assert m[id] == ExpectedTrust(cfg.order, d)[id];
        }
      }
    }
  }

  /**
    With the realm-keyed map, a device the access list allows on the station,
    presenting a certificate whose AKI discovery found for it, is never turned
    away as an unknown station (3) or an unlisted AKI (4), and nothing raises.
    It is admitted whenever the live check, if asked for, passes, and the
    registry neither misses a required registration nor reports the
    certificate revoked.
   */
  lemma RealmKeyedAdmitsAuthorised(accessList: string, d: Discovery, store: StoreFile,
                                   pem: string, args: Args, o: Oracles, p: string, ssid: string, k: nat)
    requires ManageTrustRealmKeyed(accessList, d, store).Completed?
    requires ':' !in p && args.called == p + [':'] + ssid
    requires GetAuthzConfig(accessList).Loaded?
    requires var cfg := GetAuthzConfig(accessList).config;
      args.calling in cfg.realms && ssid in cfg.realms[args.calling]
    requires d.certificates(args.calling).Some? && k < |d.certificates(args.calling).value|
    requires o.aki(pem) == d.akiOf(d.certificates(args.calling).value[k])
    requires Answers(pem, args, o)
    ensures var v := VerifyMain(ManageTrustRealmKeyed(accessList, d, store).store, Some(pem), args, o);
      v in {Exit(0), Exit(5), Exit(6)}
    ensures var v := VerifyMain(ManageTrustRealmKeyed(accessList, d, store).store, Some(pem), args, o);
      && (!args.liveVerify || o.liveValid(args.calling, pem) == Some(true))
      && !(args.requireRegistry && o.issued(pem) != Some(true))
      && !(o.issued(pem) == Some(true) && o.revoked(pem) == Some(true))
      ==> v == Exit(0)
  {
    var r := ManageTrustRealmKeyed(accessList, d, store);
    RealmKeyedRunSpec(accessList, d, store);
    var tm := r.trust;
    ListedEntry(tm, GetAuthzConfig(accessList).config, d, ssid, args.calling);
    assert ssid in tm && args.calling in tm[ssid];
    assert o.aki(pem).value in tm[ssid][args.calling];
    assert r.store == Holds(EncodeTrustMap(tm)) by {
      assert EncodeTrustMap(tm) != EmptyObject by {
        assert ssid in EncodeTrustMap(tm).fields;
      }
    }
    VerifyDecides(tm, pem, args, o, p, ssid);
  }

  /**
    With the realm-keyed map, exit 0 means the access list allows the calling
    device on the station, and the certificate's AKI is one discovery found
    for that device.
   */
  lemma RealmKeyedAdmitsOnlyAuthorised(accessList: string, d: Discovery, store: StoreFile,
                                       pem: string, args: Args, o: Oracles)
    requires ManageTrustRealmKeyed(accessList, d, store).Completed?
    requires VerifyMain(ManageTrustRealmKeyed(accessList, d, store).store, Some(pem), args, o) == Exit(0)
    ensures GetAuthzConfig(accessList).Loaded? && Station(args).Some?
    ensures var cfg := GetAuthzConfig(accessList).config;
      args.calling in cfg.realms && Station(args).value in cfg.realms[args.calling]
    ensures Discovered(args.calling, d) && o.aki(pem).Some?
    ensures o.aki(pem).value in Akis(args.calling, d)
  {
    var r := ManageTrustRealmKeyed(accessList, d, store);
    RealmKeyedRunSpec(accessList, d, store);
    var tm := r.trust;
    assert Admitted(r.store, Some(pem), args, o);
    assert r.store == Holds(EncodeTrustMap(tm));
    AcceptedMeansListed(tm, pem, args, o);
    ListedEntry(tm, GetAuthzConfig(accessList).config, d, Station(args).value, args.calling);
  }
}
