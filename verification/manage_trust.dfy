/**
  The trust manager `pkix_cd_manage_trust`: load the access list, ask the
  discovery capability for each identity's PKIX-CD certificates, collect one
  authority key identifier per certificate and the certificate authority of
  each, persist the identity-keyed map with the changed-only update, and try
  to write the CA bundle when the map changed.
 */
module TrustManager {
  import opened Wrappers
  import opened Text
  import opened Json
  import opened Authz
  import opened TrustStore

  /**
    The external capability the manager calls, as oracles, each `None` when
    the call raises: `certificates` is what the loop over
    `Identity(name).get_all_certificates(filters="PKIX-CD")` binds to `cert`,
    in iteration order; `akiOf` is `DANE.get_authority_key_id_from_certificate`
    and `caOf` is `DANE.get_ca_certificate_for_identity`.
   */
  datatype Discovery = Discovery(
    certificates: string -> Option<seq<string>>,
    akiOf: string -> Option<string>,
    caOf: (string, string) -> Option<string>)

  /** Discovery for `id` raises nowhere: the certificate lookup and both calls on each certificate return. */
  predicate Discovered(id: string, d: Discovery)
  {
    && d.certificates(id).Some?
    && forall i :: 0 <= i < |d.certificates(id).value| ==>
         d.akiOf(d.certificates(id).value[i]).Some? && d.caOf(id, d.certificates(id).value[i]).Some?
  }

  /** The AKIs of a discovered identity, one per certificate, in order. */
  function Akis(id: string, d: Discovery): (akis: seq<string>)
    requires Discovered(id, d)
    ensures |akis| == |d.certificates(id).value|
    ensures forall i :: 0 <= i < |akis| ==> d.akiOf(d.certificates(id).value[i]) == Some(akis[i])
  {
    var certs := d.certificates(id).value;
    seq(|certs|, i requires 0 <= i < |certs| && d.akiOf(certs[i]).Some? => d.akiOf(certs[i]).value)
  }

  /** The CA certificates of a discovered identity's certificates. */
  function CaSet(id: string, d: Discovery): (cas: set<string>)
    requires Discovered(id, d)
    ensures forall c :: c in cas <==> exists i :: 0 <= i < |d.certificates(id).value| && d.caOf(id, d.certificates(id).value[i]) == Some(c)
  {
    var certs := d.certificates(id).value;
    set i | 0 <= i < |certs| && d.caOf(id, certs[i]).Some? :: d.caOf(id, certs[i]).value
  }

  /** Discovery succeeds for every identity in `ids`. */
  predicate AllDiscovered(ids: seq<string>, d: Discovery)
  {
    forall k :: 0 <= k < |ids| ==> Discovered(ids[k], d)
  }

  /** The identity map a successful run must produce: each identity's AKIs, one per certificate, in order. */
  function ExpectedTrust(ids: seq<string>, d: Discovery): IdentityMap
    requires AllDiscovered(ids, d)
  {
    map x | x in ids :: Akis(x, d)
  }

  /** `c` is the CA of some certificate of some identity in `ids`. */
  predicate FromSomeIdentity(c: string, ids: seq<string>, d: Discovery)
    requires AllDiscovered(ids, d)
  {
    exists k :: 0 <= k < |ids| && c in CaSet(ids[k], d)
  }

  /** The loop over the identities, in the access list's order; `None` is an exception from discovery. */
  function BuildTrust(ids: seq<string>, d: Discovery): Option<(IdentityMap, set<string>)>
  {
    if |ids| == 0 then Some((map[], {}))
    else
      match BuildTrust(ids[..|ids| - 1], d)
      case None => None
      case Some(acc) =>
        var id := ids[|ids| - 1];
        if Discovered(id, d) then Some((acc.0[id := Akis(id, d)], acc.1 + CaSet(id, d)))
        else None
  }

  /**
    The loop completes exactly when discovery succeeds for every identity; it
    then maps exactly those identities to their AKIs, and its CA set is the
    union of the CAs of every certificate found.
   */
  lemma {:induction false} BuildTrustSpec(ids: seq<string>, d: Discovery)
    ensures BuildTrust(ids, d).Some? <==> AllDiscovered(ids, d)
    ensures BuildTrust(ids, d).Some? ==> BuildTrust(ids, d).value.0 == ExpectedTrust(ids, d)
    ensures BuildTrust(ids, d).Some? ==> forall c :: c in BuildTrust(ids, d).value.1 <==> FromSomeIdentity(c, ids, d)
  {
    if |ids| > 0 {
      var prefix := ids[..|ids| - 1];
      var id := ids[|ids| - 1];
      BuildTrustSpec(prefix, d);
      assert forall k :: 0 <= k < |prefix| ==> prefix[k] == ids[k];
      assert ids == prefix + [id];
      if AllDiscovered(ids, d) {
        assert AllDiscovered(prefix, d);
        assert BuildTrust(ids, d).value.0 == ExpectedTrust(ids, d);
        forall c
          ensures c in BuildTrust(ids, d).value.1 <==> FromSomeIdentity(c, ids, d)
        {
          if c in CaSet(id, d) {
            assert ids[|ids| - 1] == id;
          }
          if FromSomeIdentity(c, ids, d) && c !in CaSet(id, d) {
            var k :| 0 <= k < |ids| && c in CaSet(ids[k], d);
            assert k < |prefix|;
            assert FromSomeIdentity(c, prefix, d);
          }
        }
      } else if AllDiscovered(prefix, d) {
        assert !Discovered(id, d);
      }
    }
  }

  /**
    One run of the manager. `Completed` carries the map and CA set it built,
    whether the store changed, the store afterwards, and the CA bundle it
    tried to write (`None` when it did not try); `Crashed` is an exception
    that escaped, with the store as it was left.
   */
  datatype Run<T> =
    | Completed(trust: T, caBundle: set<string>, changed: bool, store: StoreFile, caWrite: Option<set<string>>)
    | Crashed(store: StoreFile)

  /** Persist a built map and attempt the CA write only on a change. */
  function Persist<T>(trust: T, encoded: Json, cas: set<string>, store: StoreFile): (r: Run<T>)
    ensures r.Completed? && r.trust == trust && r.caBundle == cas
    ensures OnDisk(r.store) == encoded
    ensures r.changed <==> r.store != store
    ensures r.caWrite.Some? <==> r.changed
    ensures r.caWrite.Some? ==> r.caWrite.value == cas
  {
    var u := UpdateTrustStoreFile(store, encoded);
    Completed(trust, cas, u.changed, u.file, if u.changed then Some(cas) else None)
  }

  /**
    `main` of the trust manager over the access-list text and the store.
    A crash leaves the store as it was; a completed run leaves the store
    reading as the map it built, and tries the CA write exactly when it
    changed the store.
   */
  function ManageTrust(accessList: string, d: Discovery, store: StoreFile): (r: Run<IdentityMap>)
    ensures r.Crashed? ==> r.store == store
    ensures r.Completed? ==> OnDisk(r.store) == EncodeIdentityMap(r.trust)
    ensures r.Completed? ==> (r.caWrite.Some? <==> r.store != store)
  {
    AfterLoad(GetAuthzConfig(accessList), d, store)
  }

  /** Everything after reading the access list: an aborted load is an escaped exception. */
  function AfterLoad(l: Load, d: Discovery, store: StoreFile): (r: Run<IdentityMap>)
    ensures r.Crashed? ==> r.store == store
    ensures r.Completed? ==> OnDisk(r.store) == EncodeIdentityMap(r.trust)
    ensures r.Completed? ==> (r.caWrite.Some? <==> r.store != store)
  {
    match l
    case Aborted(_, _) => Crashed(store)
    case Loaded(cfg, _) =>
      match BuildTrust(cfg.order, d)
      case None => Crashed(store)
      case Some(built) => Persist(built.0, EncodeIdentityMap(built.0), built.1, store)
  }

  /**
    A run completes exactly when the access list loads and discovery succeeds
    for every identity in it; the map it writes has exactly the loaded
    identities as keys, each with the AKIs of its certificates in order, and
    the realms play no part.
   */
  lemma ManagedMapMatchesAccessList(accessList: string, d: Discovery, store: StoreFile)
    ensures var r := ManageTrust(accessList, d, store);
      var l := GetAuthzConfig(accessList);
      r.Completed? <==> l.Loaded? && AllDiscovered(l.config.order, d)
    ensures var r := ManageTrust(accessList, d, store);
      var l := GetAuthzConfig(accessList);
      r.Completed? ==>
        && r.trust.Keys == l.config.realms.Keys
        && forall x :: x in r.trust ==> Discovered(x, d) && r.trust[x] == Akis(x, d)
  {
    var l := GetAuthzConfig(accessList);
    if l.Loaded? {
      BuildTrustSpec(l.config.order, d);
    }
  }

  /** The map and CA set are rebuilt from scratch: the prior store has no influence on them. */
  lemma RebuiltFromScratch(accessList: string, d: Discovery, s1: StoreFile, s2: StoreFile)
    ensures ManageTrust(accessList, d, s1).Completed? <==> ManageTrust(accessList, d, s2).Completed?
    ensures ManageTrust(accessList, d, s1).Completed? ==>
      && ManageTrust(accessList, d, s1).trust == ManageTrust(accessList, d, s2).trust
      && ManageTrust(accessList, d, s1).caBundle == ManageTrust(accessList, d, s2).caBundle
  {
    AfterLoadIgnoresStore(GetAuthzConfig(accessList), d, s1, s2);
  }

  /** `RebuiltFromScratch` for an already loaded access list. */
  lemma AfterLoadIgnoresStore(l: Load, d: Discovery, s1: StoreFile, s2: StoreFile)
    ensures AfterLoad(l, d, s1).Completed? <==> AfterLoad(l, d, s2).Completed?
    ensures AfterLoad(l, d, s1).Completed? ==>
      && AfterLoad(l, d, s1).trust == AfterLoad(l, d, s2).trust
      && AfterLoad(l, d, s1).caBundle == AfterLoad(l, d, s2).caBundle
  {
  }

  /** Access lists that name the same identities give the same map and CAs, whatever their realms. */
  lemma RealmsDiscarded(a1: string, a2: string, d: Discovery, store: StoreFile)
    requires GetAuthzConfig(a1).Loaded? && GetAuthzConfig(a2).Loaded?
    requires GetAuthzConfig(a1).config.realms.Keys == GetAuthzConfig(a2).config.realms.Keys
    requires ManageTrust(a1, d, store).Completed?
    ensures ManageTrust(a2, d, store).Completed?
    ensures ManageTrust(a1, d, store).trust == ManageTrust(a2, d, store).trust
    ensures ManageTrust(a1, d, store).caBundle == ManageTrust(a2, d, store).caBundle
  {
    var l1 := GetAuthzConfig(a1);
    var l2 := GetAuthzConfig(a2);
    assert ManageTrust(a1, d, store) == AfterLoad(l1, d, store);
    assert ManageTrust(a2, d, store) == AfterLoad(l2, d, store);
    SameIdentitiesSameTrust(l1.config.order, l2.config.order, d);
  }

  /** Two orderings of the same identities build the same map and the same CA set. */
  lemma SameIdentitiesSameTrust(o1: seq<string>, o2: seq<string>, d: Discovery)
    requires forall x :: x in o1 <==> x in o2
    requires BuildTrust(o1, d).Some?
    ensures BuildTrust(o2, d).Some?
    ensures BuildTrust(o1, d).value == BuildTrust(o2, d).value
  {
    BuildTrustSpec(o1, d);
    BuildTrustSpec(o2, d);
    assert AllDiscovered(o2, d) by {
      forall k | 0 <= k < |o2|
        ensures Discovered(o2[k], d)
      {
        assert o2[k] in o1;
        var j :| 0 <= j < |o1| && o1[j] == o2[k];
      }
    }
    var c1 := BuildTrust(o1, d).value.1;
    var c2 := BuildTrust(o2, d).value.1;
    forall c
      ensures c in c1 <==> c in c2
    {
      if FromSomeIdentity(c, o1, d) {
        var k :| 0 <= k < |o1| && c in CaSet(o1[k], d);
        assert o1[k] in o2;
        var j :| 0 <= j < |o2| && o2[j] == o1[k];
        assert FromSomeIdentity(c, o2, d);
      }
      if FromSomeIdentity(c, o2, d) {
        var k :| 0 <= k < |o2| && c in CaSet(o2[k], d);
        assert o2[k] in o1;
        var j :| 0 <= j < |o1| && o1[j] == o2[k];
        assert FromSomeIdentity(c, o1, d);
      }
    }
    assert c1 == c2;
    assert ExpectedTrust(o1, d) == ExpectedTrust(o2, d);
  }

  /** Running the manager twice with the same access list and answers changes nothing the second time. */
  lemma SecondRunChangesNothing(accessList: string, d: Discovery, store: StoreFile)
    requires ManageTrust(accessList, d, store).Completed?
    ensures var r1 := ManageTrust(accessList, d, store);
      var r2 := ManageTrust(accessList, d, r1.store);
      r2.Completed? && !r2.changed && r2.store == r1.store && r2.caWrite.None?
  {
    RebuiltFromScratch(accessList, d, store, ManageTrust(accessList, d, store).store);
  }

  /**
    What `for _, cert in m` binds to `cert` when `m` is a mapping: iteration
    yields the keys, and each key string is unpacked into two names, which
    raises unless it has exactly two characters.
   */
  function UnpackKeys(keys: seq<string>): (r: Option<seq<string>>)
    ensures r.None? <==> exists i :: 0 <= i < |keys| && |keys[i]| != 2
    ensures r.Some? ==> |r.value| == |keys|
  {
    if |keys| == 0 then Some([])
    else if |keys[0]| != 2 then None
    else
      match UnpackKeys(keys[1..])
      case None => (assert forall i :: 0 <= i < |keys| - 1 ==> keys[1..][i] == keys[i + 1]; None)
      case Some(rest) => Some([keys[0][1..]] + rest)
  }

  /**
    If the certificate lookup hands back a mapping keyed by certificate
    identifiers, the unpacking at the loop raises on the first identity with
    a certificate whose key is not two characters long, and the whole run
    ends in an exception with the store untouched.
   */
  lemma MappingCertificatesCrash(accessList: string, d: Discovery, store: StoreFile, id: string, keys: seq<string>)
    requires GetAuthzConfig(accessList).Loaded?
    requires id in GetAuthzConfig(accessList).config.realms
    requires d.certificates(id) == UnpackKeys(keys)
    requires |keys| > 0 && |keys[0]| != 2
    ensures ManageTrust(accessList, d, store) == Crashed(store)
  {
    var order := GetAuthzConfig(accessList).config.order;
    ManagedMapMatchesAccessList(accessList, d, store);
    var k :| 0 <= k < |order| && order[k] == id;
    assert !Discovered(order[k], d);
  }
}
