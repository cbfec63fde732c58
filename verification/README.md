# RADIUS PKIX-CD authorisation, modelled in Dafny

RADIUS-PKIX-CD lets a RADIUS server decide whether an IoT device may join a
wireless network. It has two programs and a set of shared helpers:

- **Trust manager** (`pkix_cd_manage_trust`). It reads an access list of
  `REALM|DNSNAME` lines. For each device identity (a DNS name) it asks DNS
  (DANE / PKIX-CD) for the device's certificates. It records the authority
  key identifier (AKI) of each certificate and collects the issuing CA
  certificates. It writes the trust map only when the map changed, and then
  tries to write the CA bundle.
- **Verifier** (`pkix_cd_verify`). The RADIUS server calls it for each
  authentication. It loads the trust map and the presented certificate. It
  takes the access point name (SSID) from the called-station id, then checks
  the station, the calling identity and the AKI. Optionally it also checks
  the certificate against live DNS and against the IoT registry. Its exit
  status is the decision.
- **Helpers** (`Utility`): `is_it_an_ip`, `verify_dns_name`,
  `get_authz_config` (the access-list loader) and `update_trust_store_file`
  (the changed-only writer).
- **Test fixture** (`create_testing_trust_map`): writes a one-entry trust map
  with a normalised AKI.

The model is functional. Files are values: a `StoreFile` is missing,
unparsable or holds a JSON document. The access list is its text. The
verifier's exit status or escaped exception is a `Verdict`. Every call into
DNS, DANE, PKI or the IoT registry is an oracle passed in as a function
value, with `None` meaning the call raised.

Modules, one file each:

| module | file | models |
|---|---|---|
| `Wrappers` | wrappers.dfy | `Option`, `Outcome` |
| `Text` | text.dfy | Python `str.split`, `split(sep, 1)[1]`, `strip`, `rstrip`, `readlines`, `lower`, `replace`, `in` on strings |
| `Json` | json.dfy | JSON values, Python `in` and `[]` on them, the two trust-map shapes and their encodings |
| `DnsName` | dns_name.dfy | `is_it_an_ip`, `int()`, `verify_dns_name` |
| `Authz` | authz.dfy | `get_authz_config` |
| `TrustStore` | trust_store.dfy | `update_trust_store_file` |
| `TrustManager` | manage_trust.dfy | `pkix_cd_manage_trust.main` |
| `Verify` | verify.dfy | `pkix_cd_verify.main` |
| `Pipeline` | pipeline.dfy | the manager's output fed to the verifier, and the realm-keyed correction |
| `TestingTrustMap` | testing_trust_map.dfy | `create_testing_trust_map` |

Behaviour kept as the code has it:

- `is_it_an_ip` counts a part only when `0 < int(x) < 255`. So `10.0.0.1`
  and `255.255.255.255` are not IPs, and `verify_dns_name` accepts them as
  host names.
- Python's `int()` accepts underscores, so `1_0.2.3.4` is an IP.
- The label regular expression ends in `$`, which also matches before a
  final newline.
- The 255-character limit named in `verify_dns_name`'s documentation is not
  enforced.
- An identity missing from the station's entry is only printed. The lookup
  on the next line then raises `KeyError`.
- The exit codes follow the code, not the `--help` text. The help text omits
  exit 4 for an AKI mismatch and numbers the live check and the registry
  check 4 and 5, but the code uses 5 and 6.

## Model

| member | source | states |
|---|---|---|
| Text.Split | radius_pkix_cd/utility.py:118 | `str.split(sep)` yields at least one part, no part contains the separator, and joining the parts gives the input back |
| Text.AfterFirst | radius_pkix_cd/scripts/pkix_cd_verify.py:62 | `s.split(":", 1)[1]` fails exactly when there is no ':'; otherwise the result is what follows a ':'-free prefix and the first ':' |
| Text.LStrip | radius_pkix_cd/utility.py:75 | `lstrip(chars)` removes exactly the longest prefix made of those characters |
| Text.Lower | tests/scripts/create_testing_trust_map.py:14 | `lower()` keeps the length and lower-cases each ASCII letter in place |
| Text.Replace | tests/scripts/create_testing_trust_map.py:14 | `replace(a, b)` for single characters keeps the length and turns each `a` into `b` in place |
| Text.ReadLines | radius_pkix_cd/utility.py:74 | `readlines()` splits the text into lines that concatenate back to it; every line but the last ends in a newline and holds no other newline |
| Text.RStrip | radius_pkix_cd/utility.py:114 | `rstrip(chars)` removes exactly the longest suffix made of those characters |
| Text.Strip | radius_pkix_cd/utility.py:75 | the result of `strip(chars)` neither starts nor ends with one of the characters, and is no longer than the input |
| Text.StripTrims | radius_pkix_cd/utility.py:75 | `strip(chars)` keeps a slice of the input, removing only a prefix and a suffix made of those characters |
| DnsName.PyIntDecimal | radius_pkix_cd/utility.py:133 | `int()` reads back the decimal digits of every natural number |
| DnsName.DottedQuadIsIpIff | radius_pkix_cd/utility.py:128-137 | a decimal dotted quad counts as an IP exactly when all four numbers lie strictly between 0 and 255 |
| DnsName.PyIntUnderscore | radius_pkix_cd/utility.py:133 | `int("1_0")` is 10 |
| DnsName.UnderscoreOctet | radius_pkix_cd/utility.py:133 | `int()` accepts digit groups separated by underscores, so `1_0.2.3.4` counts as an IP |
| DnsName.AllLabelsMatch | radius_pkix_cd/utility.py:119-123 | the loop over the labels succeeds exactly when every label matches `^([A-Za-z0-9_-]+)$` |
| DnsName.LabelsMatchIffHostname | radius_pkix_cd/utility.py:118-123 | for text without a newline, every label matches exactly when the text is non-empty, uses only label characters and dots, and has no leading, trailing or doubled dot |
| DnsName.VerifyDnsNameCharLevel | radius_pkix_cd/utility.py:114-123 | for names without a newline, `verify_dns_name` raises nothing exactly when the name, trailing dots removed, is not an IP and is a well-formed dotted host name |
| DnsName.TrailingDotIrrelevant | radius_pkix_cd/utility.py:114 | a name with a dot appended gets the same outcome as the name itself |
| DnsName.RejectsEmptyLabels | radius_pkix_cd/utility.py:118-123 | the empty name, a name with an empty label (`a..b`) and a name with a leading dot (`.a`) are rejected |
| DnsName.NoLengthLimit | radius_pkix_cd/utility.py:114-123 | a 300-character single-label name is accepted: no length limit is enforced |
| DnsName.DottedQuadAcceptedIff | radius_pkix_cd/utility.py:114-123 | a decimal dotted quad is accepted as a host name exactly when one of its numbers is 0 or at least 255 |
| Authz.ClassifyLine | radius_pkix_cd/utility.py:75-87 | after stripping spaces and then newlines, a line is skipped exactly when nothing is left, and aborts the load exactly when something is left but it holds no `\|` |
| Authz.EntryIdentityPasses | radius_pkix_cd/utility.py:80-89 | a line kept as an entry names an identity that passes `verify_dns_name`; a non-blank line holding a `\|` is rejected exactly when its second field fails that check, and the rejection carries the check's error |
| Authz.FirstTwoFields | radius_pkix_cd/utility.py:80-86 | a text with two or more `\|`-separated fields is its first two fields, joined by `\|`, followed by the rest when there are more |
| Authz.EntryFields | radius_pkix_cd/utility.py:80-86 | an entry's realm and identity are the first two `\|`-separated fields of the cleaned line, as written; a line with more fields carries further fields after them |
| Authz.AddRealm | radius_pkix_cd/utility.py:90-93 | the first line for an identity creates its list and puts the identity last in the key order; later lines append to its list and leave the order alone; other identities are untouched |
| Authz.AddRealmWellFormed | radius_pkix_cd/utility.py:90-93 | adding a realm keeps the dictionary's keys listed once each |
| Authz.Fold | radius_pkix_cd/utility.py:73-94 | an abort names a line of the file |
| Authz.FoldInvariant | radius_pkix_cd/utility.py:73-94 | a completed loop lists each identity once, with a non-empty realm list, and only identities some entry line names |
| Authz.LoadLines | radius_pkix_cd/utility.py:71-94 | a completed load keeps each identity once, in the order of its first entry line, with at least one realm; an abort names a line of the file |
| Authz.FirstSeen | radius_pkix_cd/utility.py:90-91 | the reference key order lists exactly the identities the entry lines name, each once |
| Authz.OrderIsFirstSeen | radius_pkix_cd/utility.py:73-94 | a completed load iterates its identities in the order of their first entry line, each once: the dictionary's iteration order |
| Authz.KeysComeFromLines | radius_pkix_cd/utility.py:83-91 | every identity a completed load keeps passes `verify_dns_name` and is the identity field of some line of the file |
| Authz.LoadMatchesEntries | radius_pkix_cd/utility.py:90-93 | each identity's realms are those of its entry lines, in file order, duplicates kept, and no identity without an entry line appears |
| Authz.FoldAbortsIff | radius_pkix_cd/utility.py:83-87 | the load aborts exactly when some non-blank line has no `\|`, and it reports the first such line: the `IndexError` is not caught |
| Authz.SingleFieldAborts | radius_pkix_cd/utility.py:80-87 | a file whose first line is not blank and holds no `\|`, such as `SSID1`, aborts at line 1 whatever follows, having printed only that line's "incorrectly formatted" message |
| Authz.FirstNoIdentityAborts | radius_pkix_cd/utility.py:80-85 | when the first line has no identity field the loop stops at line 1, and that line's "incorrectly formatted" message is the only one printed |
| Authz.OneLineLoads | radius_pkix_cd/utility.py:73-94 | a file of one entry line loads that entry alone, with the line's own messages |
| Authz.ThreeOrMoreFieldsStillUsed | radius_pkix_cd/utility.py:80-93 | a line with three or more fields is reported as malformed, yet its first two fields are used as realm and identity |
| Authz.FoldLeadingBlank | radius_pkix_cd/utility.py:75-79 | a blank line in front leaves the configuration unchanged and shifts every later line number by one |
| Authz.LeadingBlankLine | radius_pkix_cd/utility.py:75-79 | a blank first line of the file contributes nothing, yet it advances the line numbers of every later message |
| Authz.DiagnosticsNameTheirLines | radius_pkix_cd/utility.py:81-88 | every printed message, those printed before an abort included, carries the number of a line read so far whose kind it reports |
| Authz.EveryMalformedLineReported | radius_pkix_cd/utility.py:81-85 | every non-blank line read that does not split into exactly two fields gets an "incorrectly formatted" message with its number, the line whose missing second field aborts the load included |
| Authz.EveryBadIdReported | radius_pkix_cd/utility.py:84-89 | every line read whose identity fails `verify_dns_name` gets a "bad ID name" message with its number and the error, also when a later line aborts the load |
| Json.InStrList | radius_pkix_cd/scripts/pkix_cd_verify.py:74 | a string is in the JSON list of an AKI list exactly when it is one of the AKIs |
| Json.EncodeIdentityMapInjective | radius_pkix_cd/utility.py:42-44 | two identity maps with the same JSON document are equal, so comparing documents compares maps |
| Json.EncodeTrustMapInjective | radius_pkix_cd/utility.py:42-44 | two realm-keyed trust maps with the same JSON document are equal |
| TrustStore.UpdateTrustStoreFile | radius_pkix_cd/utility.py:35-47 | the call reports a change exactly when it modifies the file, and afterwards the file reads as the new map |
| TrustStore.ChangedIffDifferent | radius_pkix_cd/utility.py:42-47 | the call reports a change exactly when the old content differs from the new map |
| TrustStore.UpdateIdempotent | radius_pkix_cd/utility.py:35-47 | a second call with the same map reports no change and leaves the file as it is |
| TrustStore.EmptyOverMissing | radius_pkix_cd/utility.py:38-42 | writing `{}` where no file exists reports no change and creates no file |
| TrustStore.EmptyOverCorrupt | radius_pkix_cd/utility.py:40-42 | writing `{}` over a corrupt file reports no change and leaves the corrupt file in place |
| TrustManager.BuildTrustSpec | radius_pkix_cd/scripts/pkix_cd_manage_trust.py:30-36 | the loop completes exactly when discovery succeeds for every identity, that is when the certificate lookup and the AKI and CA calls on each certificate all return; it maps exactly those identities, each to the AKIs of its certificates in order, and its CA set is the union of their CAs |
| TrustManager.Persist | radius_pkix_cd/scripts/pkix_cd_manage_trust.py:37-41 | after persisting, the store reads as the built map; the CA write is attempted, with the collected CAs, exactly when the store changed |
| TrustManager.ManageTrust | radius_pkix_cd/scripts/pkix_cd_manage_trust.py:27-41 | an exception leaves the store as it was; a completed run leaves the store reading as the map it built and attempts the CA write exactly when the store changed |
| TrustManager.AfterLoad | radius_pkix_cd/scripts/pkix_cd_manage_trust.py:28-41 | the same guarantees for everything after the access list is read |
| TrustManager.ManagedMapMatchesAccessList | radius_pkix_cd/scripts/pkix_cd_manage_trust.py:27-36 | a run completes exactly when the access list loads and every identity is discovered; the map's keys are the access list's identities, each with its certificates' AKIs in order |
| TrustManager.RebuiltFromScratch | radius_pkix_cd/scripts/pkix_cd_manage_trust.py:28-36 | the map and CA set do not depend on the previous store |
| TrustManager.RealmsDiscarded | radius_pkix_cd/scripts/pkix_cd_manage_trust.py:30 | access lists naming the same identities give the same map and CA set, whatever their realms |
| TrustManager.SameIdentitiesSameTrust | radius_pkix_cd/scripts/pkix_cd_manage_trust.py:30-36 | two orders of the same identities build the same map and CA set |
| TrustManager.UnpackKeys | radius_pkix_cd/scripts/pkix_cd_manage_trust.py:33 | unpacking each key of a mapping into `_, cert` raises exactly when some key is not two characters long |
| TrustManager.MappingCertificatesCrash | radius_pkix_cd/scripts/pkix_cd_manage_trust.py:30-33 | if the certificate lookup returns a mapping whose first key is not two characters long, for any identity the access list names, the whole run ends in an exception with the store untouched |
| TrustManager.SecondRunChangesNothing | radius_pkix_cd/scripts/pkix_cd_manage_trust.py:37-41 | a second run with the same inputs reports no change, leaves the store alone and attempts no CA write |
| Verify.RegistryPassIff | radius_pkix_cd/scripts/pkix_cd_verify.py:88-97 | the registry check fails exactly when registration is required but missing, or the certificate was issued by the registry and is revoked |
| Verify.AfterAki | radius_pkix_cd/scripts/pkix_cd_verify.py:80-100 | after the AKI check the verdict is 0, 5 or 6 or an exception, and exit 5 needs the live flag |
| Verify.CheckEntry | radius_pkix_cd/scripts/pkix_cd_verify.py:68-77 | after the station check the verdict is 0, 4, 5 or 6 or an exception |
| Verify.CheckStation | radius_pkix_cd/scripts/pkix_cd_verify.py:62-65 | once the map and certificate are loaded the verdict is 0, 3, 4, 5 or 6 or an exception |
| Verify.VerifyMain | radius_pkix_cd/scripts/pkix_cd_verify.py:46-100 | exit codes lie in 0..6; exit 1 exactly for a missing map; a corrupt map raises; exit 2 exactly for a loaded map with a missing certificate; exit 5 needs the live flag; exit 0 needs the station, the identity and the certificate's AKI to be listed |
| Verify.NoColonCrashes | radius_pkix_cd/scripts/pkix_cd_verify.py:62 | a called-station id without ':' raises, once the map and certificate are loaded |
| Verify.OnlyTextAfterFirstColon | radius_pkix_cd/scripts/pkix_cd_verify.py:62 | the verdict depends on the called-station id only through the text after its first ':' |
| Verify.SameStationSameVerdict | radius_pkix_cd/scripts/pkix_cd_verify.py:62-100 | arguments that differ only in the called-station id, and give the same station, get the same verdict |
| Verify.LiveCheckOnlyWithFlag | radius_pkix_cd/scripts/pkix_cd_verify.py:80-85 | without the live flag the live check is never consulted and exit 5 never happens |
| Verify.RevocationOnlyIfIssued | radius_pkix_cd/scripts/pkix_cd_verify.py:88-93 | revocation is never asked about a certificate the registry did not issue |
| Verify.SameLastStageSameVerdict | radius_pkix_cd/scripts/pkix_cd_verify.py:62-100 | external checks that agree on the AKI and on the live and registry stage give the same verdict |
| Verify.VerifyDecides | radius_pkix_cd/scripts/pkix_cd_verify.py:62-100 | on a realm-keyed map with answering oracles, the checks run in the order station (3), identity (exception), AKI (4), live (5), registry (6), else 0 |
| Verify.EntryDecides | radius_pkix_cd/scripts/pkix_cd_verify.py:68-77 | on a station's entry, a missing identity raises, an AKI not in the identity's list is exit 4, and a listed one goes on to the live and registry checks |
| Verify.AfterAkiDecides | radius_pkix_cd/scripts/pkix_cd_verify.py:80-100 | with every call answering, a failed live check (when asked for) is exit 5, a registry objection is exit 6, and otherwise exit 0 |
| Verify.UnlistedIdentityCrashes | radius_pkix_cd/scripts/pkix_cd_verify.py:68-74 | an identity missing from the station's entry is only printed, and the run ends in an exception whatever the oracles say |
| Verify.AcceptedMeansListed | radius_pkix_cd/scripts/pkix_cd_verify.py:63-100 | on a realm-keyed map, exit 0 means the station is a key, the identity is listed for it and the certificate's AKI is in that identity's list |
| Pipeline.IdentityKeyedStoreNeverAdmits | radius_pkix_cd/scripts/pkix_cd_verify.py:63-77 | on a store that reads as an identity-keyed map the verdict is exit 1, 2 or 3 or an exception, never 0, 4, 5 or 6 |
| Pipeline.ManagedStoreNeverAdmits | radius_pkix_cd/scripts/pkix_cd_manage_trust.py:36-37 | whatever the access list, discovery and prior store, the store the manager leaves never admits anyone |
| Pipeline.ManageTrustRealmKeyed | radius_pkix_cd/scripts/pkix_cd_manage_trust.py:27-41 | the corrected manager keeps the changed-only write and the CA-write rule, and leaves the store reading as the realm-keyed map |
| Pipeline.AfterLoadRealmKeyed | radius_pkix_cd/scripts/pkix_cd_manage_trust.py:28-41 | the same guarantees for everything after the access list is read |
| Pipeline.AfterLoadRealmKeyedSpec | radius_pkix_cd/utility.py:20-31 | for a loaded access list, the corrected run completes exactly when the original does, with the same CAs, and lists exactly the allowed realm and identity pairs with their AKIs |
| Pipeline.RealmKeyedRunSpec | radius_pkix_cd/utility.py:20-31 | the corrected run completes exactly when the original does, with the same CAs, and lists exactly the allowed realm and identity pairs with their AKIs |
| Pipeline.RealmKeyedAdmitsAuthorised | radius_pkix_cd/scripts/pkix_cd_verify.py:62-100 | with the corrected store, an allowed device with a discovered certificate passes the station and AKI checks, and is admitted whenever the live check, if asked for, passes, a required registration is present, and the certificate is not issued-and-revoked |
| Pipeline.RealmKeyedAdmitsOnlyAuthorised | radius_pkix_cd/scripts/pkix_cd_verify.py:62-100 | with the corrected store, exit 0 means the access list allows the device on the station and the AKI is one discovery found for it |
| TestingTrustMap.NormaliseAki | tests/scripts/create_testing_trust_map.py:14 | the normalised AKI has the same length, no ':', and each character is the lower-cased original with ':' turned into '-' |
| TestingTrustMap.NormaliseIdempotent | tests/scripts/create_testing_trust_map.py:14 | normalising twice is normalising once |
| TestingTrustMap.NormalFormUnchanged | tests/scripts/create_testing_trust_map.py:14 | an AKI without ':' or capitals is already normal |
| TestingTrustMap.FixtureReachesLiveAndRegistry | tests/scripts/create_testing_trust_map.py:14 | verifying the fixture's identity on its station, with the normalised AKI, ends in 0, 5 or 6: never 3, 4 or an exception |
| TestingTrustMap.ColonAkiRejected | tests/scripts/create_testing_trust_map.py:14 | a certificate whose AKI still contains ':' never matches the fixture's entry: exit 4 |

## Left out

- DNS, DANE, PKI and IoT-registry calls are oracles, not models. This covers
  `get_all_certificates`, `get_authority_key_id_from_certificate`,
  `get_ca_certificate_for_identity`, `validate_certificate`,
  `check_iot_registry_issuance` and `check_iot_registry_revoked`. The
  `ns_override` argument only reaches these calls, so it is left out.
- File I/O is modelled as values. A missing or unparsable trust-map file is
  modelled (`StoreFile`). Opening errors on it other than a missing file,
  such as permissions, are not.
- Authz.GetAuthzConfig: takes the access list's text. A missing access-list
  file makes `open` raise `FileNotFoundError` (utility.py:72) before any
  line is read, so `pkix_cd_manage_trust` ends in an exception with nothing
  written; this case is not modelled.
- JSON text is not modelled: decoding is `StoreFile`, encoding is
  `EncodeIdentityMap` and `EncodeTrustMap`. Numbers are integers only.
- TrustStore.UpdateTrustStoreFile: compares JSON values structurally. Python's
  `1 == True` and `1 == 1.0` equalities are not modelled. A trust map holds
  only strings, lists and objects, so this matters only for odd prior files.
- TrustManager.ManageTrust: the CA write is recorded as attempted, not
  performed. `update_ca_file` is called with one argument where it takes two
  (pkix_cd_manage_trust.py:39), so in Python the attempt raises `TypeError`
  after the trust map is written. The CA bytes and the bundle file are not
  modelled.
- TrustManager.Discovery: the certificate sequence stands for whatever the
  unpacking `for _, cert in ...` at pkix_cd_manage_trust.py:33 binds to
  `cert`, and `None` covers that loop raising, whether in
  `get_all_certificates`, in `Identity(dnsname)` or in the unpacking. The
  library is not part of this model, so what `get_all_certificates` returns
  is not known here (see the second finding).
- DnsName.PyInt: covers ASCII digits and whitespace only. Python's `int()`
  also accepts other Unicode digits and whitespace.
- Text.Lower: ASCII letters only.
- Text.ReadLines: the text is taken after Python's newline translation. Turning `\r\n` and `\r` into `\n` when the file is opened is not modelled.
- Printed messages are not modelled, except the loader's per-line messages
  (`Authz.Diagnostic`), which include those printed before a load aborts. This includes the text of the `ValueError`s.
- Argument parsing, `setup.py` and the integration tests are not part of
  this model.

## Findings

| source | as written | input that shows it | evidently intended | confidence | as-written member | corrected member |
|---|---|---|---|---|---|---|
| radius_pkix_cd/scripts/pkix_cd_manage_trust.py:36-37 | the manager stores `{dnsname: [aki, ...]}`, but the verifier looks up `map[ssid][calling]` | access list `SSID1\|dev.example.com`, one certificate discovered for `dev.example.com`, then the verifier with `--called aa:SSID1 --calling dev.example.com`: exit 3, since `SSID1` is not a key | store `{ssid: {dnsname: [aki, ...]}}`, the shape utility.py:20-31 documents and the test fixture writes | high; not executed | Pipeline.ManagedStoreNeverAdmits | Pipeline.RealmKeyedAdmitsAuthorised |
| radius_pkix_cd/scripts/pkix_cd_manage_trust.py:33 | `for _, cert in identity.get_all_certificates(...)` unpacks each item into two names | if `get_all_certificates` returns a mapping from certificate identifiers to certificates, an identity with one certificate whose identifier is longer than two characters: iterating yields the identifier, its unpacking raises `ValueError`, and the manager ends before writing anything | iterate the (identifier, certificate) pairs, for instance with `.items()`, so that each certificate reaches the AKI and CA calls | plausible, depends on a library outside this model; not executed | TrustManager.MappingCertificatesCrash | TrustManager.BuildTrustSpec |
