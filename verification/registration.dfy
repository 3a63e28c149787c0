/** Registration with Falcon (`register_with_falcon`) and the provisioning
    summary: one create request per discovered registry, whose payload is built
    by string formatting, and the success/failure counts derived from the
    returned status codes. */
module Registration {
  import opened Wrappers
  import opened Text
  import opened Domain

  /** Provider tag of every entry this tool creates and manages. */
  const GarType: string := "gar"

  const UrlScheme: string := "https://"
  const UrlHostSuffix: string := "-docker.pkg.dev/"

  /** Docker endpoint of the registry's region. */
  function RegistryUrl(location: string): string {
    UrlScheme + location + UrlHostSuffix
  }

  /** The key Falcon uses to tell registrations apart. */
  function UniquenessKey(projectId: string, repositoryId: string): string {
    projectId + "/" + repositoryId
  }

  /** The human-readable label of a registration. */
  function Alias(projectId: string, repositoryId: string): string {
    "GAR-" + projectId + "-" + repositoryId
  }

  /** The create request for one registry, embedding the minted key's fields. */
  function BuildPayload(r: Registry, key: ServiceAccountKey): Payload {
    Payload(
      GarType,
      RegistryUrl(r.location),
      UniquenessKey(r.projectId, r.repositoryId),
      Alias(r.projectId, r.repositoryId),
      Credential(CredentialDetails(
        r.projectId,
        r.repositoryId,
        ServiceAccountJson("service_account", key.privateKeyId, key.privateKey, key.clientEmail, key.clientId, key.projectId))))
  }

  // ---------------------------------------------------------------------------
  // Decoding a payload back to the registry it registers
  // ---------------------------------------------------------------------------

  /** The region named by a registry endpoint URL, if `url` has that shape. */
  function UrlLocation(url: string): Option<string> {
    if |UrlScheme| + |UrlHostSuffix| <= |url|
       && url[..|UrlScheme|] == UrlScheme
       && url[|url| - |UrlHostSuffix|..] == UrlHostSuffix
    then Some(url[|UrlScheme|..|url| - |UrlHostSuffix|])
    else None
  }

  /** Every region's endpoint URL decodes back to that region. */
  lemma UrlLocationRoundTrip(location: string)
    ensures UrlLocation(RegistryUrl(location)) == Some(location)
  {
    var url := RegistryUrl(location);
    assert url[..|UrlScheme|] == UrlScheme;
    assert url[|url| - |UrlHostSuffix|..] == UrlHostSuffix;
    assert url[|UrlScheme|..|url| - |UrlHostSuffix|] == location;
  }

  /** A URL that decodes to a region is exactly that region's endpoint URL. */
  lemma UrlLocationCanonical(url: string, location: string)
    requires UrlLocation(url) == Some(location)
    ensures RegistryUrl(location) == url
  {
    assert url == url[..|UrlScheme|] + url[|UrlScheme|..|url| - |UrlHostSuffix|] + url[|url| - |UrlHostSuffix|..];
  }

  /** A uniqueness key split at its first slash into project and repository. */
  function KeyParts(key: string): Option<(string, string)> {
    var parts := Split(key, '/');
    if |parts| < 2 then None else Some((parts[0], Join(parts[1..], '/')))
  }

  /** The uniqueness key of a slash-free project decodes to its project and repository. */
  lemma KeyPartsRoundTrip(projectId: string, repositoryId: string)
    requires '/' !in projectId
    ensures KeyParts(UniquenessKey(projectId, repositoryId)) == Some((projectId, repositoryId))
  {
    SplitAround(projectId, '/', repositoryId);
    SplitWithoutSeparator(projectId, '/');
    var parts := Split(UniquenessKey(projectId, repositoryId), '/');
    assert parts == [projectId] + Split(repositoryId, '/');
    assert parts[1..] == Split(repositoryId, '/');
  }

  /** A key that decodes is the uniqueness key of what it decodes to, with a slash-free project. */
  lemma KeyPartsCanonical(key: string, projectId: string, repositoryId: string)
    requires KeyParts(key) == Some((projectId, repositoryId))
    ensures '/' !in projectId && UniquenessKey(projectId, repositoryId) == key
  {
    var parts := Split(key, '/');
    assert Join(parts, '/') == parts[0] + ['/'] + Join(parts[1..], '/');
  }

  /** The registry coordinates a registration payload refers to. */
  datatype Target = Target(location: string, projectId: string, repositoryId: string)

  /** Decodes a payload: its type must be `gar`, its URL a regional endpoint,
      and its uniqueness key, alias, credential project and scope must agree on
      one project and repository. */
  function PayloadTarget(p: Payload): Option<Target> {
    var details := p.credential.details;
    match (UrlLocation(p.url), KeyParts(p.urlUniquenessKey))
    case (Some(location), Some((projectId, repositoryId))) =>
      if p.registryType == GarType
         && p.userDefinedAlias == Alias(projectId, repositoryId)
         && details.projectId == projectId
         && details.scopeName == repositoryId
         && details.serviceAccountJson.accountType == "service_account"
      then Some(Target(location, projectId, repositoryId))
      else None
    case _ => None
  }

  /** The payload built for a registry decodes to that registry's region,
      project and repository, and carries the key's fields unchanged. */
  lemma PayloadRoundTrip(r: Registry, key: ServiceAccountKey)
    requires '/' !in r.projectId
    ensures PayloadTarget(BuildPayload(r, key)) == Some(Target(r.location, r.projectId, r.repositoryId))
    ensures var account := BuildPayload(r, key).credential.details.serviceAccountJson;
      && account.privateKeyId == key.privateKeyId && account.privateKey == key.privateKey
      && account.clientEmail == key.clientEmail && account.clientId == key.clientId
      && account.projectId == key.projectId
  {
    UrlLocationRoundTrip(r.location);
    KeyPartsRoundTrip(r.projectId, r.repositoryId);
  }

  /** Conversely, a payload that decodes is the payload `BuildPayload` emits for
      the decoded coordinates and the key fields it carries: no other payload shape
      refers to a registry. */
  lemma PayloadCanonical(p: Payload, t: Target)
    requires PayloadTarget(p) == Some(t)
    ensures var account := p.credential.details.serviceAccountJson;
      var key := ServiceAccountKey(account.privateKeyId, account.privateKey, account.clientEmail, account.clientId, account.projectId);
      forall name :: BuildPayload(Registry(name, t.projectId, t.location, t.repositoryId), key) == p
  {
    UrlLocationCanonical(p.url, t.location);
    KeyPartsCanonical(p.urlUniquenessKey, t.projectId, t.repositoryId);
  }

  /** Uniqueness keys tell registrations apart by project and repository. */
  lemma UniquenessKeyInjective(p1: string, r1: string, p2: string, r2: string)
    requires '/' !in p1 && '/' !in p2
    requires UniquenessKey(p1, r1) == UniquenessKey(p2, r2)
    ensures p1 == p2 && r1 == r2
  {
    KeyPartsRoundTrip(p1, r1);
    KeyPartsRoundTrip(p2, r2);
  }

  /** The uniqueness key leaves out the region: same-named repositories of one
      project in two regions get the same key (and alias) but different URLs. */
  lemma UniquenessKeyIgnoresLocation(r: Registry, otherLocation: string, key: ServiceAccountKey)
    requires otherLocation != r.location
    ensures var p1 := BuildPayload(r, key);
      var p2 := BuildPayload(r.(location := otherLocation), key);
      p1.urlUniquenessKey == p2.urlUniquenessKey && p1.userDefinedAlias == p2.userDefinedAlias
      && p1.url != p2.url
  {
    UrlLocationRoundTrip(r.location);
    UrlLocationRoundTrip(otherLocation);
  }

  /** The alias alone does not identify a registration: hyphens may belong to
      either the project or the repository. */
  lemma AliasAmbiguous()
    ensures Alias("a-b", "c") == Alias("a", "b-c")
    ensures UniquenessKey("a-b", "c") != UniquenessKey("a", "b-c")
  {
    assert UniquenessKey("a-b", "c")[1] == '-';
  }

  // ---------------------------------------------------------------------------
  // The create loop
  // ---------------------------------------------------------------------------

  /** Falcon's answer to one create request: status code and error list. */
  datatype CreateResponse = CreateResponse(status: int, errors: seq<string>)

  /** The Falcon create collaborator, as data: its answer to the `n`-th create
      request of the run with a given payload. */
  type CreateService = (nat, Payload) -> CreateResponse

  /** One entry of the results list: the registry's name and Falcon's answer. */
  datatype RegistrationResult = RegistrationResult(registry: string, status: int, errors: seq<string>)

  /** What the create loop produced. */
  datatype Registered = Registered(results: seq<RegistrationResult>, calls: seq<Call>)

  /** The create loop over `regs`; `issued` create requests came before it. */
  function RegisterAll(regs: seq<Registry>, key: ServiceAccountKey, create: CreateService, issued: nat): (out: Registered)
    ensures |out.results| == |regs| && |out.calls| == |regs|
    ensures forall i :: 0 <= i < |regs| ==>
      && out.calls[i] == CreateRegistry(BuildPayload(regs[i], key))
      && out.results[i] == ResultOf(regs[i], create(issued + i, BuildPayload(regs[i], key)))
  {
    if regs == [] then Registered([], [])
    else
      var payload := BuildPayload(regs[0], key);
      var rest := RegisterAll(regs[1..], key, create, issued + 1);
      var out := Registered([ResultOf(regs[0], create(issued, payload))] + rest.results,
                            [CreateRegistry(payload)] + rest.calls);
      RegisterAllCons(regs, key, create, issued, rest, out);
      out
  }

  /** The result entry for a registry and Falcon's answer to its create call. */
  function ResultOf(r: Registry, response: CreateResponse): RegistrationResult
  {
    RegistrationResult(r.name, response.status, response.errors)
  }

  /** The first registry's entry followed by the rest of the loop's entries
      lines up with the registries. */
  lemma RegisterAllCons(regs: seq<Registry>, key: ServiceAccountKey, create: CreateService, issued: nat,
                        rest: Registered, out: Registered)
    requires regs != [] && |rest.results| == |regs| - 1 && |rest.calls| == |regs| - 1
    requires forall i :: 0 <= i < |regs| - 1 ==>
      && rest.calls[i] == CreateRegistry(BuildPayload(regs[1..][i], key))
      && rest.results[i] == ResultOf(regs[1..][i], create(issued + 1 + i, BuildPayload(regs[1..][i], key)))
    requires out.results == [ResultOf(regs[0], create(issued, BuildPayload(regs[0], key)))] + rest.results
    requires out.calls == [CreateRegistry(BuildPayload(regs[0], key))] + rest.calls
    ensures forall i :: 0 <= i < |regs| ==>
      && out.calls[i] == CreateRegistry(BuildPayload(regs[i], key))
      && out.results[i] == ResultOf(regs[i], create(issued + i, BuildPayload(regs[i], key)))
  {
    forall i | 0 < i < |regs|
      ensures out.calls[i] == CreateRegistry(BuildPayload(regs[i], key))
      ensures out.results[i] == ResultOf(regs[i], create(issued + i, BuildPayload(regs[i], key)))
    {
      assert regs[1..][i - 1] == regs[i];
      assert issued + 1 + (i - 1) == issued + i;
    }
  }

  /** The payload built for each registry, in order. */
  function PayloadsFor(regs: seq<Registry>, key: ServiceAccountKey): (payloads: seq<Payload>)
    ensures |payloads| == |regs|
  {
    if regs == [] then [] else [BuildPayload(regs[0], key)] + PayloadsFor(regs[1..], key)
  }

  /** The `k`-th payload is the one built for the `k`-th registry. */
  lemma {:induction false} PayloadsForAt(regs: seq<Registry>, key: ServiceAccountKey, k: nat)
    requires k < |regs|
    ensures PayloadsFor(regs, key)[k] == BuildPayload(regs[k], key)
    decreases k
  {
    if k > 0 {
      PayloadsForAt(regs[1..], key, k - 1);
    }
  }

  /** The create loop sends exactly the registries' payloads, in order, and
      nothing else. */
  lemma {:induction false} RegisterAllPayloads(regs: seq<Registry>, key: ServiceAccountKey, create: CreateService, issued: nat)
    ensures CreatedPayloads(RegisterAll(regs, key, create, issued).calls) == PayloadsFor(regs, key)
    decreases |regs|
  {
    if regs != [] {
      RegisterAllPayloads(regs[1..], key, create, issued + 1);
      var head := [CreateRegistry(BuildPayload(regs[0], key))];
      var rest := RegisterAll(regs[1..], key, create, issued + 1).calls;
      assert RegisterAll(regs, key, create, issued).calls == head + rest;
      CreatedPayloadsAppend(head, rest);
      assert head[1..] == [];
    }
  }

  /** A failed create never stops the loop: the requests issued do not depend
      on Falcon's answers. */
  lemma {:induction false} RegisterAllIsolated(regs: seq<Registry>, key: ServiceAccountKey, c1: CreateService, c2: CreateService, issued: nat)
    ensures RegisterAll(regs, key, c1, issued).calls == RegisterAll(regs, key, c2, issued).calls
    decreases |regs|
  {
    if regs != [] {
      RegisterAllIsolated(regs[1..], key, c1, c2, issued + 1);
    }
  }

  // ---------------------------------------------------------------------------
  // Summary
  // ---------------------------------------------------------------------------

  /** Number of results whose status is the success code. */
  function CountSucceeded(results: seq<RegistrationResult>): nat {
    if results == [] then 0
    else (if results[0].status == StatusOk then 1 else 0) + CountSucceeded(results[1..])
  }

  /** The results whose status is not the success code, in order. */
  function Failures(results: seq<RegistrationResult>): seq<RegistrationResult> {
    if results == [] then []
    else (if results[0].status != StatusOk then [results[0]] else []) + Failures(results[1..])
  }

  /** The registration summary: total, succeeded, failed and the failure listing. */
  datatype Summary = Summary(total: nat, succeeded: nat, failed: int, failures: seq<RegistrationResult>)

  /** The summary for `total` registries whose create calls gave `results`;
      failed is total minus succeeded. */
  function Summarize(total: nat, results: seq<RegistrationResult>): Summary {
    var succeeded := CountSucceeded(results);
    Summary(total, succeeded, total - succeeded, Failures(results))
  }

  /** Successes and failures partition the results. */
  lemma {:induction false} SucceededPlusFailures(results: seq<RegistrationResult>)
    ensures CountSucceeded(results) + |Failures(results)| == |results|
    ensures forall r :: r in Failures(results) <==> r in results && r.status != StatusOk
    decreases |results|
  {
    if results != [] {
      SucceededPlusFailures(results[1..]);
      assert results == [results[0]] + results[1..];
    }
  }

  /** With one result per registry, the counts balance, failed is never
      negative, the failure listing holds exactly the non-200 results, and
      nothing failed exactly when every status is 200. */
  lemma SummaryBalanced(results: seq<RegistrationResult>)
    ensures var s := Summarize(|results|, results);
      && s.succeeded + s.failed == s.total
      && s.failed >= 0
      && s.failed == |s.failures|
      && (forall r :: r in s.failures <==> r in results && r.status != StatusOk)
      && (s.failed == 0 <==> forall i :: 0 <= i < |results| ==> results[i].status == StatusOk)
  {
    SucceededPlusFailures(results);
    var s := Summarize(|results|, results);
    if s.failed == 0 {
      forall i | 0 <= i < |results| ensures results[i].status == StatusOk {
        assert results[i] in results;
      }
    } else {
      assert s.failures[0] in s.failures;
    }
  }
}
