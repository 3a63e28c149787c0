/** Concrete runs of both workflows, derived from the general properties. */
module Scenarios {
  import opened Wrappers
  import opened Text
  import opened Domain
  import opened Discovery
  import opened Registration
  import opened Provision
  import opened Deprovision

  /** The resource name of repository `leaf` under `prefix` (in the scenarios,
      any path such as "projects/p1/locations/us-central1/repositories"). */
  function RepoPath(prefix: string, leaf: string): string {
    prefix + "/" + leaf
  }

  /** A listing where project `p1` has the given repositories in `us-central1`
      and nothing anywhere else. */
  function CentralListing(repos: seq<string>): Listing {
    (project: string, location: string) =>
      if project == "p1" && location == "us-central1" then Listed(repos) else Listed([])
  }

  /** Every collaborator succeeds. */
  function HappyEnv(repos: seq<string>, key: ServiceAccountKey): ProvisionEnv {
    ProvisionEnv("host", ["p1"], CentralListing(repos), Success(key),
                 (project: string, role: string) => true,
                 (n: nat, p: Payload) => CreateResponse(StatusOk, []))
  }

  /** The descriptor of repository `leaf` of `p1` in `us-central1`. */
  function Central(prefix: string, leaf: string): Registry {
    Registry(RepoPath(prefix, leaf), "p1", "us-central1", leaf)
  }

  /** Probing the regions after `us-central1` finds nothing and stops at none. */
  lemma QuietRegions(repos: seq<string>)
    ensures ScanRegions("p1", Locations[1..], CentralListing(repos)).registries == []
  {
    var l := CentralListing(repos);
    var locs := Locations[1..];
    assert locs == ["us-east1", "us-west1", "europe-west1", "asia-east1"];
    assert locs[1..] == ["us-west1", "europe-west1", "asia-east1"];
    assert locs[2..] == ["europe-west1", "asia-east1"];
    assert locs[3..] == ["asia-east1"];
    assert locs[4..] == [];
    assert ScanRegions("p1", locs[4..], l).registries == [];
    assert ScanRegions("p1", locs[3..], l).registries == [];
    assert ScanRegions("p1", locs[2..], l).registries == [];
    assert ScanRegions("p1", locs[1..], l).registries == [];
  }

  /** Discovery in `p1` describes its `us-central1` repositories in order. */
  lemma CentralDiscovery(repos: seq<string>, key: ServiceAccountKey)
    ensures DiscoveryOf(HappyEnv(repos, key)).registries == DescribeAll("p1", "us-central1", repos)
  {
    var l := CentralListing(repos);
    QuietRegions(repos);
    var scan := ScanRegions("p1", Locations, l);
    assert Locations[0] == "us-central1";
    assert !EndsProject(l("p1", "us-central1"));
    assert scan.registries == Found(l, "p1", "us-central1") + ScanRegions("p1", Locations[1..], l).registries;
    assert ["p1"][1..] == [];
    assert Discover(["p1"], Locations, l).registries == scan.registries + Discover([], Locations, l).registries;
  }

  /** The descriptor of a repository path under `prefix` is `Central` of its leaf. */
  lemma DescribeCentral(prefix: string, leaf: string)
    requires '/' !in leaf
    ensures Describe("p1", "us-central1", RepoPath(prefix, leaf)) == Central(prefix, leaf)
  {
    LastSegmentOfPath(prefix, leaf);
  }

  /** The happy environment with repository `r1` discovers just `r1`. */
  lemma DiscoverR1(prefix: string, key: ServiceAccountKey)
    ensures DiscoveryOf(HappyEnv([RepoPath(prefix, "r1")], key)).registries == [Central(prefix, "r1")]
  {
    var repos := [RepoPath(prefix, "r1")];
    CentralDiscovery(repos, key);
    DescribeCentral(prefix, "r1");
    DescribeAllAt("p1", "us-central1", repos, 0);
  }

  /** The happy environment with repositories `r1` and `r2` discovers both, in order. */
  lemma DiscoverR1R2(prefix: string, key: ServiceAccountKey)
    ensures DiscoveryOf(HappyEnv([RepoPath(prefix, "r1"), RepoPath(prefix, "r2")], key)).registries
         == [Central(prefix, "r1"), Central(prefix, "r2")]
  {
    var repos := [RepoPath(prefix, "r1"), RepoPath(prefix, "r2")];
    CentralDiscovery(repos, key);
    DescribeCentral(prefix, "r1");
    DescribeCentral(prefix, "r2");
    var described := DescribeAll("p1", "us-central1", repos);
    DescribeAllAt("p1", "us-central1", repos, 0);
    DescribeAllAt("p1", "us-central1", repos, 1);
    assert described[0] == Central(prefix, "r1") && described[1] == Central(prefix, "r2");
  }

  /** One repository `r1` in `p1`, everything succeeding: one key minted for
      the scanner account of the host project. */
  lemma SingleRegistryMintsOnce(prefix: string, key: ServiceAccountKey)
    ensures var env := HappyEnv([RepoPath(prefix, "r1")], key);
      Count(ProvisionRegistries(env).calls, CreateKey("host", ScannerEmail(env))) == 1
  {
    var env := HappyEnv([RepoPath(prefix, "r1")], key);
    DiscoverR1(prefix, key);
    ProvisionMintsOnce(env);
  }

  /** The same run grants each role in `p1` once. */
  lemma SingleRegistryGrants(prefix: string, key: ServiceAccountKey, role: string)
    ensures var env := HappyEnv([RepoPath(prefix, "r1")], key);
      Count(ProvisionRegistries(env).calls, GrantRole("p1", Member(ScannerEmail(env)), role))
      == if role in RequiredRoles then 1 else 0
  {
    var env := HappyEnv([RepoPath(prefix, "r1")], key);
    DiscoverR1(prefix, key);
    ProvisionGrantsOncePerProject(env, "p1", role);
    assert ProjectIds(DiscoveryOf(env).registries)[0] == "p1";
  }

  /** The same run sends exactly one create request, the last call, for `r1`
      (whose uniqueness key `R1Payload` gives). */
  lemma SingleRegistryCreate(prefix: string, key: ServiceAccountKey)
    ensures var calls := ProvisionRegistries(HappyEnv([RepoPath(prefix, "r1")], key)).calls;
      && CreatedPayloads(calls) == [BuildPayload(Central(prefix, "r1"), key)]
      && |calls| >= 1
      && calls[|calls| - 1] == CreateRegistry(BuildPayload(Central(prefix, "r1"), key))
  {
    var env := HappyEnv([RepoPath(prefix, "r1")], key);
    DiscoverR1(prefix, key);
    ProvisionCreatesEach(env);
    ProvisionCreatedPayloads(env);
    PayloadsForAt([Central(prefix, "r1")], key, 0);
  }

  /** The payload for `r1` of `p1` in `us-central1`: uniqueness key "p1/r1",
      alias "GAR-p1-r1", the region's endpoint, and the repository as scope. */
  lemma R1Payload(prefix: string, key: ServiceAccountKey)
    ensures var p := BuildPayload(Central(prefix, "r1"), key);
      && p.registryType == "gar"
      && p.url == "https://us-central1-docker.pkg.dev/"
      && p.urlUniquenessKey == "p1/r1"
      && p.userDefinedAlias == "GAR-p1-r1"
      && p.credential.details.projectId == "p1"
      && p.credential.details.scopeName == "r1"
  {
    CentralUrl();
    assert UniquenessKey("p1", "r1") == "p1/r1";
    assert Alias("p1", "r1") == "GAR-p1-r1";
  }

  /** The endpoint of `us-central1`, spelled out. */
  lemma CentralUrl()
    ensures RegistryUrl("us-central1") == "https://us-central1-docker.pkg.dev/"
  {
    var url := RegistryUrl("us-central1");
    assert |url| == 35;
    forall k | 0 <= k < 35 ensures url[k] == "https://us-central1-docker.pkg.dev/"[k] {
    }
  }

  /** The same run reports one registry, one success and no failure. */
  lemma SingleRegistrySummary(prefix: string, key: ServiceAccountKey)
    ensures var outcome := ProvisionRegistries(HappyEnv([RepoPath(prefix, "r1")], key)).outcome;
      && outcome.Provisioned?
      && outcome.summary.total == 1 && outcome.summary.succeeded == 1 && outcome.summary.failed == 0
  {
    var env := HappyEnv([RepoPath(prefix, "r1")], key);
    DiscoverR1(prefix, key);
    var regs := DiscoveryOf(env).registries;
    ProvisionReportsEach(env);
    var outcome := ProvisionRegistries(env).outcome;
    assert outcome.results[0].status == env.create(0, BuildPayload(regs[0], key)).status == StatusOk;
  }

  /** Two repositories in the same project: one grant pass for `p1`... */
  lemma SharedProjectGrants(prefix: string, key: ServiceAccountKey, role: string)
    ensures var env := HappyEnv([RepoPath(prefix, "r1"), RepoPath(prefix, "r2")], key);
      Count(ProvisionRegistries(env).calls, GrantRole("p1", Member(ScannerEmail(env)), role))
      == if role in RequiredRoles then 1 else 0
  {
    var env := HappyEnv([RepoPath(prefix, "r1"), RepoPath(prefix, "r2")], key);
    DiscoverR1R2(prefix, key);
    ProvisionGrantsOncePerProject(env, "p1", role);
    assert ProjectIds(DiscoveryOf(env).registries)[0] == "p1";
  }

  /** ...and exactly two create requests, the last two calls, in discovery order. */
  lemma SharedProjectCreates(prefix: string, key: ServiceAccountKey)
    ensures var calls := ProvisionRegistries(HappyEnv([RepoPath(prefix, "r1"), RepoPath(prefix, "r2")], key)).calls;
      && CreatedPayloads(calls) == [BuildPayload(Central(prefix, "r1"), key), BuildPayload(Central(prefix, "r2"), key)]
      && |calls| >= 2
      && calls[|calls| - 2] == CreateRegistry(BuildPayload(Central(prefix, "r1"), key))
      && calls[|calls| - 1] == CreateRegistry(BuildPayload(Central(prefix, "r2"), key))
  {
    var env := HappyEnv([RepoPath(prefix, "r1"), RepoPath(prefix, "r2")], key);
    var regs := [Central(prefix, "r1"), Central(prefix, "r2")];
    DiscoverR1R2(prefix, key);
    ProvisionCreatesEach(env);
    ProvisionCreatedPayloads(env);
    TwoPayloads(regs, key, PayloadsFor(regs, key));
  }

  /** The payloads for two registries, spelled out. */
  lemma TwoPayloads(regs: seq<Registry>, key: ServiceAccountKey, payloads: seq<Payload>)
    requires |regs| == 2 && payloads == PayloadsFor(regs, key)
    ensures payloads == [BuildPayload(regs[0], key), BuildPayload(regs[1], key)]
  {
    PayloadsForAt(regs, key, 0);
    PayloadsForAt(regs, key, 1);
  }

  /** The Falcon side of a deprovisioning run with ids `a` and `b`, where only
      `a` is a Google Artifact Registry entry, and the operator answers "y". */
  function MixedFalcon(delete: DeleteService): FalconEnv {
    FalconEnv(
      IdListing(StatusOk, ["a", "b"]),
      (id: string) => Detail(StatusOk, Some([EntryRecord(Some(if id == "a" then "gar" else "other"), None, None)])),
      Some("y"),
      delete)
  }

  /** Exactly one delete call is issued, and it names only `a`. */
  lemma MixedTypesScenario(delete: DeleteService)
    ensures DeletedIdLists(CleanupRegistries(MixedFalcon(delete)).calls) == [["a"]]
  {
    var env := MixedFalcon(delete);
    CleanupDeletesIffConfirmed(env);
    var ids := ["a", "b"];
    assert ids[1..] == ["b"] && ids[1..][1..] == [];
    assert GarEntry(env.detail("a")).Some? && GarEntry(env.detail("b")).None?;
    assert SelectGar(ids[1..], env.detail).candidates == [];
    assert CandidatesOf(env) == [Candidate("a", "Unknown", "Unknown")];
  }
}
