/**
  The test helper `create_testing_trust_map`: a one-station, one-device trust
  map in the shape the verifier reads, with the AKI normalised from the
  colon-separated form to the dash-separated lower-case form.
 */
module TestingTrustMap {
  import opened Wrappers
  import opened Text
  import opened Json
  import opened Verify

  /** `aki.replace(":", "-").lower()`. */
  function NormaliseAki(aki: string): (r: string)
    ensures |r| == |aki|
    ensures ':' !in r
    ensures forall i :: 0 <= i < |aki| ==> r[i] == LowerChar(if aki[i] == ':' then '-' else aki[i])
  {
    Lower(Replace(aki, ':', '-'))
  }

  /** Normalising twice is normalising once. */
  lemma NormaliseIdempotent(aki: string)
    ensures NormaliseAki(NormaliseAki(aki)) == NormaliseAki(aki)
  {
    var once := NormaliseAki(aki);
    forall i | 0 <= i < |aki|
      ensures NormaliseAki(once)[i] == once[i]
    {
      assert once[i] != ':';
    }
  }

  /** An AKI already in normal form is left alone. */
  lemma NormalFormUnchanged(aki: string)
    requires ':' !in aki
    requires forall i :: 0 <= i < |aki| ==> !('A' <= aki[i] <= 'Z')
    ensures NormaliseAki(aki) == aki
  {
  }

  /** The map the helper writes: `{ssid: {dnsname: [normalised aki]}}`. */
  function Fixture(ssid: string, dnsname: string, aki: string): (tm: TrustMap)
    ensures tm.Keys == {ssid}
    ensures tm[ssid].Keys == {dnsname}
    ensures tm[ssid][dnsname] == [NormaliseAki(aki)]
  {
    map[ssid := map[dnsname := [NormaliseAki(aki)]]]
  }

  /**
    Fed to the verifier with a called-station id ending in `:ssid` and the
    calling device `dnsname`, the map gets past the station and AKI checks
    when the certificate's AKI is the normalised one: the verdict is decided
    by the live and registry steps alone.
   */
  lemma FixtureReachesLiveAndRegistry(ssid: string, dnsname: string, aki: string,
                                      pem: string, args: Args, o: Oracles, p: string)
    requires ':' !in p && args.called == p + [':'] + ssid && args.calling == dnsname
    requires o.aki(pem) == Some(NormaliseAki(aki))
    requires Answers(pem, args, o)
    ensures var v := VerifyMain(Holds(EncodeTrustMap(Fixture(ssid, dnsname, aki))), Some(pem), args, o);
      v in {Exit(0), Exit(5), Exit(6)}
  {
    VerifyDecides(Fixture(ssid, dnsname, aki), pem, args, o, p, ssid);
  }

  /** A certificate whose AKI still has its colons never matches the normalised entry: exit 4. */
  lemma ColonAkiRejected(ssid: string, dnsname: string, aki: string,
                         pem: string, args: Args, o: Oracles, p: string, raw: string)
    requires ':' !in p && args.called == p + [':'] + ssid && args.calling == dnsname
    requires ':' in raw && o.aki(pem) == Some(raw)
    ensures VerifyMain(Holds(EncodeTrustMap(Fixture(ssid, dnsname, aki))), Some(pem), args, o) == Exit(4)
  {
    var tm := Fixture(ssid, dnsname, aki);
    AfterFirstOfJoin(p, ':', ssid);
    assert Index(EncodeTrustMap(tm), ssid) == Some(EncodeIdentityMap(tm[ssid]));
    assert Index(EncodeIdentityMap(tm[ssid]), dnsname) == Some(StrList([NormaliseAki(aki)]));
    InStrList(raw, [NormaliseAki(aki)]);
  }
}
