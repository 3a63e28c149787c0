/** Registry discovery (`list_gcp_registries`): every project visible to the
    caller is probed in a fixed list of regions; a project-wide error ends that
    project's probing, any other error only skips the region. */
module Discovery {
  import opened Text
  import opened Domain

  /** The regions probed for every project, in probing order. */
  const Locations: seq<string> := ["us-central1", "us-east1", "us-west1", "europe-west1", "asia-east1"]

  /** What listing the repositories of one project in one region produced: every
      repository name, or the text of the exception raised. */
  datatype RegionOutcome = Listed(repositoryNames: seq<string>) | Raised(message: string)

  /** The Artifact Registry listing collaborator, as data: its outcome for each
      (project, region) pair. */
  type Listing = (string, string) -> RegionOutcome

  /** How the loop reacts to a listing error, decided by the error's text. */
  datatype ErrorKind = ServiceDisabled | PermissionDenied | OtherError

  /** The error's category: the API-disabled marker is checked before the
      access-denied marker. */
  function Classify(message: string): (kind: ErrorKind)
    ensures kind == ServiceDisabled <==> Contains(message, "SERVICE_DISABLED")
    ensures kind == PermissionDenied <==>
      !Contains(message, "SERVICE_DISABLED") && Contains(message, "PERMISSION_DENIED")
  {
    if Contains(message, "SERVICE_DISABLED") then ServiceDisabled
    else if Contains(message, "PERMISSION_DENIED") then PermissionDenied
    else OtherError
  }

  /** A region outcome that stops probing the rest of the project's regions. */
  predicate EndsProject(o: RegionOutcome) {
    o.Raised? && Classify(o.message) != OtherError
  }

  /** The descriptor recorded for repository `name` found in `project` at `location`. */
  function Describe(project: string, location: string, name: string): Registry {
    Registry(name, project, location, LastSegment(name))
  }

  /** Descriptors for a region's repositories, in listing order. */
  function DescribeAll(project: string, location: string, names: seq<string>): (regs: seq<Registry>)
    ensures |regs| == |names|
  {
    if names == [] then [] else [Describe(project, location, names[0])] + DescribeAll(project, location, names[1..])
  }

  /** The `k`-th descriptor describes the `k`-th name. */
  lemma {:induction false} DescribeAllAt(project: string, location: string, names: seq<string>, k: nat)
    requires k < |names|
    ensures DescribeAll(project, location, names)[k] == Describe(project, location, names[k])
    decreases k
  {
    if k > 0 {
      DescribeAllAt(project, location, names[1..], k - 1);
    }
  }

  /** Every descriptor a region contributes describes one of its listed names. */
  lemma FoundMember(listing: Listing, project: string, location: string, r: Registry)
    requires r in Found(listing, project, location)
    ensures r == Describe(project, location, r.name) && FoundAt(listing, project, location, r.name)
  {
    var names := listing(project, location).repositoryNames;
    var found := DescribeAll(project, location, names);
    var k :| 0 <= k < |found| && found[k] == r;
    DescribeAllAt(project, location, names, k);
  }

  /** Every listed name of a region is described among its descriptors. */
  lemma FoundComplete(listing: Listing, project: string, location: string, name: string)
    requires FoundAt(listing, project, location, name)
    ensures Describe(project, location, name) in Found(listing, project, location)
  {
    var names := listing(project, location).repositoryNames;
    var k :| 0 <= k < |names| && names[k] == name;
    DescribeAllAt(project, location, names, k);
    assert DescribeAll(project, location, names)[k] == Describe(project, location, name);
  }

  /** Descriptors contributed by one probed region that did not end the project. */
  function Found(listing: Listing, project: string, location: string): seq<Registry> {
    var outcome := listing(project, location);
    if outcome.Listed? then DescribeAll(project, location, outcome.repositoryNames) else []
  }

  /** What discovery produced: the descriptors and the listing calls issued. */
  datatype Discovered = Discovered(registries: seq<Registry>, calls: seq<Call>)

  /** `name` was listed by the successful probe of `project` at `location`. */
  predicate FoundAt(listing: Listing, project: string, location: string, name: string) {
    listing(project, location).Listed? && name in listing(project, location).repositoryNames
  }

  /** Probing `project` over `locs` issues exactly `k` calls: every region before
      the `k`-th let the loop continue, and the `k`-th ended the project unless
      the list ran out. */
  ghost predicate IsStopIndex(listing: Listing, project: string, locs: seq<string>, k: int) {
    && 0 <= k <= |locs|
    && (forall j :: 0 <= j < k - 1 ==> !EndsProject(listing(project, locs[j])))
    && (k == |locs| || (0 < k && EndsProject(listing(project, locs[k - 1]))))
  }

  /** The inner loop over regions for one project. */
  function ScanRegions(project: string, locs: seq<string>, listing: Listing): (d: Discovered)
    ensures |d.calls| <= |locs|
    decreases |locs|
  {
    if locs == [] then Discovered([], [])
    else
      var call := ListRepositories(project, locs[0]);
      var outcome := listing(project, locs[0]);
      if EndsProject(outcome) then Discovered([], [call])
      else
        var rest := ScanRegions(project, locs[1..], listing);
        Discovered(Found(listing, project, locs[0]) + rest.registries, [call] + rest.calls)
  }

  /** The loop stops exactly after the first region that ends the project, or
      after the last region. */
  lemma {:induction false} ScanRegionsStops(project: string, locs: seq<string>, listing: Listing)
    ensures IsStopIndex(listing, project, locs, |ScanRegions(project, locs, listing).calls|)
    decreases |locs|
  {
    if locs != [] && !EndsProject(listing(project, locs[0])) {
      ScanRegionsStops(project, locs[1..], listing);
      ScanRegionsStep(project, locs, listing);
      StopIndexCons(listing, project, locs, |ScanRegions(project, locs[1..], listing).calls|);
    }
  }

  /** The `j`-th listing call is for the `j`-th region. */
  lemma {:induction false} ScanRegionsCalls(project: string, locs: seq<string>, listing: Listing)
    ensures var d := ScanRegions(project, locs, listing);
      forall j :: 0 <= j < |d.calls| ==> d.calls[j] == ListRepositories(project, locs[j])
    decreases |locs|
  {
    if locs != [] && !EndsProject(listing(project, locs[0])) {
      ScanRegionsCalls(project, locs[1..], listing);
      CallsCons(project, locs, ScanRegions(project, locs[1..], listing).calls);
    }
  }

  /** A region that lets the loop continue extends the stop index by one. */
  lemma StopIndexCons(listing: Listing, project: string, locs: seq<string>, k: int)
    requires locs != [] && !EndsProject(listing(project, locs[0]))
    requires IsStopIndex(listing, project, locs[1..], k)
    ensures IsStopIndex(listing, project, locs, k + 1)
  {
    forall j | 0 <= j < k ensures !EndsProject(listing(project, locs[j])) {
      if j > 0 {
        assert locs[j] == locs[1..][j - 1];
      }
    }
    if k < |locs[1..]| {
      assert locs[k] == locs[1..][k - 1];
    }
  }

  /** Listing calls for `locs[1..]` preceded by the call for `locs[0]`. */
  lemma CallsCons(project: string, locs: seq<string>, rest: seq<Call>)
    requires locs != [] && |rest| <= |locs| - 1
    requires forall j :: 0 <= j < |rest| ==> rest[j] == ListRepositories(project, locs[1..][j])
    ensures forall j :: 0 <= j < |rest| + 1 ==>
      ([ListRepositories(project, locs[0])] + rest)[j] == ListRepositories(project, locs[j])
  {
    forall j | 0 < j < |rest| + 1
      ensures ([ListRepositories(project, locs[0])] + rest)[j] == ListRepositories(project, locs[j])
    {
      assert locs[1..][j - 1] == locs[j];
    }
  }

  /** Every descriptor carries the project being probed, a region that was
      probed and listed it, and the last segment of its name as repository id. */
  lemma {:induction false} ScanRegionsSound(project: string, locs: seq<string>, listing: Listing, r: Registry)
    requires r in ScanRegions(project, locs, listing).registries
    ensures r.projectId == project && r.repositoryId == LastSegment(r.name)
    ensures exists j :: (0 <= j < |ScanRegions(project, locs, listing).calls|
      && r.location == locs[j] && FoundAt(listing, project, locs[j], r.name))
    decreases |locs|
  {
    var d := ScanRegions(project, locs, listing);
    var rest := ScanRegions(project, locs[1..], listing);
    var found := Found(listing, project, locs[0]);
    NonEmptyScan(project, locs, listing, d, rest);
    if r in found {
      FoundMember(listing, project, locs[0], r);
      assert 0 < |d.calls| && r.location == locs[0] && FoundAt(listing, project, locs[0], r.name);
    } else {
      ScanRegionsSound(project, locs[1..], listing, r);
      var j :| 0 <= j < |rest.calls| && r.location == locs[1..][j] && FoundAt(listing, project, locs[1..][j], r.name);
      assert locs[1..][j] == locs[j + 1];
      assert j + 1 < |d.calls| && r.location == locs[j + 1] && FoundAt(listing, project, locs[j + 1], r.name);
    }
  }

  /** A scan that described something probed its first region and went on. */
  lemma NonEmptyScan(project: string, locs: seq<string>, listing: Listing, d: Discovered, rest: Discovered)
    requires d == ScanRegions(project, locs, listing) && d.registries != []
    requires rest == ScanRegions(project, locs[1..], listing)
    ensures locs != [] && !EndsProject(listing(project, locs[0]))
    ensures d.registries == Found(listing, project, locs[0]) + rest.registries
    ensures |d.calls| == 1 + |rest.calls|
  {
  }

  /** Every repository listed by a region that was probed is described. */
  lemma {:induction false} ScanRegionsComplete(project: string, locs: seq<string>, listing: Listing, j: nat, name: string)
    requires j < |ScanRegions(project, locs, listing).calls|
    requires FoundAt(listing, project, locs[j], name)
    ensures Describe(project, locs[j], name) in ScanRegions(project, locs, listing).registries
    decreases |locs|
  {
    var d := ScanRegions(project, locs, listing);
    if j == 0 {
      CompleteHead(project, locs, listing, name, d);
    } else {
      var rest := ScanRegions(project, locs[1..], listing);
      CompleteTailBounds(project, locs, listing, j, d, rest);
      ScanRegionsComplete(project, locs[1..], listing, j - 1, name);
      CompleteTail(project, locs, listing, Describe(project, locs[j], name), d, rest);
    }
  }

  /** A repository listed by the first region is described. */
  lemma CompleteHead(project: string, locs: seq<string>, listing: Listing, name: string, d: Discovered)
    requires locs != [] && d == ScanRegions(project, locs, listing)
    requires FoundAt(listing, project, locs[0], name)
    ensures Describe(project, locs[0], name) in d.registries
  {
    ScanRegionsStep(project, locs, listing);
    FoundComplete(listing, project, locs[0], name);
  }

  /** A later region was probed only if the first let the loop continue. */
  lemma CompleteTailBounds(project: string, locs: seq<string>, listing: Listing, j: nat, d: Discovered, rest: Discovered)
    requires 0 < j < |d.calls| && d == ScanRegions(project, locs, listing)
    requires rest == ScanRegions(project, locs[1..], listing)
    ensures locs != [] && !EndsProject(listing(project, locs[0]))
    ensures j - 1 < |rest.calls| && locs[1..][j - 1] == locs[j]
  {
    if EndsProject(listing(project, locs[0])) {
      ScanRegionsStop(project, locs, listing);
    } else {
      ScanRegionsStep(project, locs, listing);
    }
  }

  /** What the later regions describe, the whole scan describes. */
  lemma CompleteTail(project: string, locs: seq<string>, listing: Listing, r: Registry, d: Discovered, rest: Discovered)
    requires locs != [] && !EndsProject(listing(project, locs[0]))
    requires d == ScanRegions(project, locs, listing) && rest == ScanRegions(project, locs[1..], listing)
    requires r in rest.registries
    ensures r in d.registries
  {
    ScanRegionsStep(project, locs, listing);
  }
  /** The descriptors of the first `k` regions of `locs`, region by region. */
  function FoundInFirst(listing: Listing, project: string, locs: seq<string>, k: nat): seq<Registry>
    requires k <= |locs|
    decreases k
  {
    if k == 0 then [] else Found(listing, project, locs[0]) + FoundInFirst(listing, project, locs[1..], k - 1)
  }

  /** Within one project, the descriptors are exactly the listings of the probed
      regions, concatenated in probing order; a region that ended the project
      contributes nothing. */
  lemma {:induction false} ScanRegionsFoundInOrder(project: string, locs: seq<string>, listing: Listing)
    ensures var d := ScanRegions(project, locs, listing);
      d.registries == FoundInFirst(listing, project, locs, |d.calls|)
    decreases |locs|
  {
    if locs != [] {
      var d := ScanRegions(project, locs, listing);
      if EndsProject(listing(project, locs[0])) {
        ScanRegionsStop(project, locs, listing);
        StopFoundInFirst(listing, project, locs, d);
      } else {
        var rest := ScanRegions(project, locs[1..], listing);
        ScanRegionsFoundInOrder(project, locs[1..], listing);
        ScanRegionsStep(project, locs, listing);
        StepFoundInFirst(listing, project, locs, d.registries, |rest.calls|, rest.registries);
      }
    }
  }

  /** A region that ends the project is the only one probed and contributes nothing. */
  lemma StopFoundInFirst(listing: Listing, project: string, locs: seq<string>, d: Discovered)
    requires locs != [] && EndsProject(listing(project, locs[0]))
    requires d == Discovered([], [ListRepositories(project, locs[0])])
    ensures d.registries == FoundInFirst(listing, project, locs, |d.calls|)
  {
    assert FoundInFirst(listing, project, locs[1..], 0) == [];
  }

  /** The first region's listing followed by the later regions' descriptors. */
  lemma StepFoundInFirst(listing: Listing, project: string, locs: seq<string>, regs: seq<Registry>, k: nat, rest: seq<Registry>)
    requires locs != [] && k + 1 <= |locs|
    requires rest == FoundInFirst(listing, project, locs[1..], k)
    requires regs == Found(listing, project, locs[0]) + rest
    ensures regs == FoundInFirst(listing, project, locs, k + 1)
  {
  }

  /** A region that ends the project contributes nothing and is the last probed. */
  lemma ScanRegionsStop(project: string, locs: seq<string>, listing: Listing)
    requires locs != [] && EndsProject(listing(project, locs[0]))
    ensures ScanRegions(project, locs, listing) == Discovered([], [ListRepositories(project, locs[0])])
    ensures Found(listing, project, locs[0]) == []
  {
  }

  /** A region that lets the loop continue contributes its descriptors ahead of
      those of the later regions. */
  lemma ScanRegionsStep(project: string, locs: seq<string>, listing: Listing)
    requires locs != [] && !EndsProject(listing(project, locs[0]))
    ensures var d := ScanRegions(project, locs, listing);
      var rest := ScanRegions(project, locs[1..], listing);
      && d.registries == Found(listing, project, locs[0]) + rest.registries
      && d.calls == [ListRepositories(project, locs[0])] + rest.calls
  {
  }
  /** No region after the first yields a descriptor located in the first region. */
  lemma RestAvoidsFirstRegion(project: string, locs: seq<string>, listing: Listing)
    requires Distinct(locs) && locs != []
    ensures forall r :: r in ScanRegions(project, locs[1..], listing).registries ==> r.location != locs[0]
  {
    var rest := ScanRegions(project, locs[1..], listing);
    forall r | r in rest.registries ensures r.location != locs[0] {
      ScanRegionsSound(project, locs[1..], listing, r);
      var i :| 0 <= i < |rest.calls| && r.location == locs[1..][i];
      assert locs[1..][i] == locs[i + 1];
    }
  }
  /** Position of `location` in `locs`: its first index, or `|locs|` when absent. */
  function Rank(locs: seq<string>, location: string): (i: nat)
    ensures i <= |locs|
    ensures i < |locs| ==> locs[i] == location
    ensures forall j :: 0 <= j < i ==> locs[j] != location
  {
    if locs == [] || locs[0] == location then 0 else 1 + Rank(locs[1..], location)
  }

  /** Descriptors appear grouped by region, regions in the order of `locs`. */
  ghost predicate RegionOrdered(locs: seq<string>, regs: seq<Registry>) {
    forall a, b :: 0 <= a < b < |regs| ==> Rank(locs, regs[a].location) <= Rank(locs, regs[b].location)
  }

  /** Within one project, descriptors come region by region in probing order. */
  lemma {:induction false} ScanRegionsRegionMinor(project: string, locs: seq<string>, listing: Listing)
    requires Distinct(locs)
    ensures RegionOrdered(locs, ScanRegions(project, locs, listing).registries)
    decreases |locs|
  {
    if locs != [] && !EndsProject(listing(project, locs[0])) {
      var rest := ScanRegions(project, locs[1..], listing);
      var found := Found(listing, project, locs[0]);
      ScanRegionsRegionMinor(project, locs[1..], listing);
      RestAvoidsFirstRegion(project, locs, listing);
      FoundAtRegion(listing, project, locs[0]);
      MergeRanks(locs, found, rest.registries);
      assert ScanRegions(project, locs, listing).registries == found + rest.registries;
    }
  }

  /** Every descriptor a region contributes is located in that region. */
  lemma FoundAtRegion(listing: Listing, project: string, location: string)
    ensures forall r :: r in Found(listing, project, location) ==> r.location == location
  {
    forall r | r in Found(listing, project, location) ensures r.location == location {
      FoundMember(listing, project, location, r);
    }
  }

  /** Descriptors of the first region followed by region-ordered descriptors of
      the later regions are region-ordered. */
  lemma MergeRanks(locs: seq<string>, found: seq<Registry>, rest: seq<Registry>)
    requires locs != []
    requires forall r :: r in found ==> r.location == locs[0]
    requires forall r :: r in rest ==> r.location != locs[0]
    requires RegionOrdered(locs[1..], rest)
    ensures RegionOrdered(locs, found + rest)
  {
    var regs := found + rest;
    forall a, b | 0 <= a < b < |regs|
      ensures Rank(locs, regs[a].location) <= Rank(locs, regs[b].location)
    {
      if a < |found| {
        assert regs[a] == found[a] && found[a] in found;
      } else {
        assert regs[a] == rest[a - |found|] && regs[b] == rest[b - |found|];
        assert rest[a - |found|] in rest && rest[b - |found|] in rest;
      }
    }
  }

  /** The outer loop: every project in `projects`, in order. */
  function Discover(projects: seq<string>, locs: seq<string>, listing: Listing): Discovered
  {
    if projects == [] then Discovered([], [])
    else
      var first := ScanRegions(projects[0], locs, listing);
      var rest := Discover(projects[1..], locs, listing);
      Discovered(first.registries + rest.registries, first.calls + rest.calls)
  }

  /** Every descriptor comes from a probed project and region, and names its
      repository by the last segment of its resource name. */
  lemma {:induction false} DiscoverSound(projects: seq<string>, locs: seq<string>, listing: Listing, r: Registry)
    requires r in Discover(projects, locs, listing).registries
    ensures r.projectId in projects && r.location in locs && r.repositoryId == LastSegment(r.name)
    ensures exists j :: 0 <= j < |locs| && r.location == locs[j] && FoundAt(listing, r.projectId, locs[j], r.name)
    decreases |projects|
  {
    var first := ScanRegions(projects[0], locs, listing);
    var rest := Discover(projects[1..], locs, listing);
    if r in first.registries {
      ScanRegionsSound(projects[0], locs, listing, r);
    } else {
      DiscoverSound(projects[1..], locs, listing, r);
    }
  }

  /** Discovery issues only region listings, for the given projects and the fixed regions. */
  lemma {:induction false} DiscoverCalls(projects: seq<string>, locs: seq<string>, listing: Listing, c: Call)
    requires c in Discover(projects, locs, listing).calls
    ensures c.ListRepositories? && c.project in projects && c.location in locs
    decreases |projects|
  {
    var first := ScanRegions(projects[0], locs, listing);
    var rest := Discover(projects[1..], locs, listing);
    if c in first.calls {
      ScanRegionsCalls(projects[0], locs, listing);
      var j :| 0 <= j < |first.calls| && first.calls[j] == c;
      assert c.location == locs[j];
    } else {
      DiscoverCalls(projects[1..], locs, listing, c);
    }
  }

  /** Discovery is project-major: the results for `a + b` are the results for
      `a` followed by those for `b`, whatever errors `a` met. */
  lemma {:induction false} DiscoverAppend(a: seq<string>, b: seq<string>, locs: seq<string>, listing: Listing)
    ensures Discover(a + b, locs, listing).registries == Discover(a, locs, listing).registries + Discover(b, locs, listing).registries
    ensures Discover(a + b, locs, listing).calls == Discover(a, locs, listing).calls + Discover(b, locs, listing).calls
    decreases |a|
  {
    if a == [] {
      assert a + b == b;
    } else {
      var ab := a + b;
      assert ab[0] == a[0] && ab[1..] == a[1..] + b;
      DiscoverAppend(a[1..], b, locs, listing);
      var first := ScanRegions(a[0], locs, listing);
      DiscoverStep(ab, locs, listing, Discover(ab, locs, listing), first, Discover(ab[1..], locs, listing));
      DiscoverStep(a, locs, listing, Discover(a, locs, listing), first, Discover(a[1..], locs, listing));
      JoinThree(Discover(ab, locs, listing), first, Discover(ab[1..], locs, listing),
                Discover(a, locs, listing), Discover(a[1..], locs, listing), Discover(b, locs, listing));
    }
  }

  /** One step of the outer loop: the first project's results, then the rest. */
  lemma DiscoverStep(projects: seq<string>, locs: seq<string>, listing: Listing, d: Discovered, first: Discovered, rest: Discovered)
    requires projects != []
    requires d == Discover(projects, locs, listing)
    requires first == ScanRegions(projects[0], locs, listing) && rest == Discover(projects[1..], locs, listing)
    ensures d.registries == first.registries + rest.registries && d.calls == first.calls + rest.calls
  {
  }

  /** Regrouping `first + (tail + later)` as `(first + tail) + later`, field by field. */
  lemma JoinThree(whole: Discovered, first: Discovered, tailLater: Discovered, firstTail: Discovered, tail: Discovered, later: Discovered)
    requires whole.registries == first.registries + tailLater.registries && whole.calls == first.calls + tailLater.calls
    requires tailLater.registries == tail.registries + later.registries && tailLater.calls == tail.calls + later.calls
    requires firstTail.registries == first.registries + tail.registries && firstTail.calls == first.calls + tail.calls
    ensures whole.registries == firstTail.registries + later.registries && whole.calls == firstTail.calls + later.calls
  {
    ConcatAssoc(first.registries, tail.registries, later.registries);
    ConcatAssoc(first.calls, tail.calls, later.calls);
  }

  /** Every project is probed, starting at the first region, however the
      probing of earlier projects ended. */
  lemma {:induction false} EveryProjectProbed(projects: seq<string>, locs: seq<string>, listing: Listing, i: nat)
    requires i < |projects| && locs != []
    ensures ListRepositories(projects[i], locs[0]) in Discover(projects, locs, listing).calls
    decreases |projects|
  {
    if i > 0 {
      EveryProjectProbed(projects[1..], locs, listing, i - 1);
    }
  }

  /** Projects are the unit of discovery: a listing oracle that agrees on one
      project's regions gives that project the same descriptors. */
  lemma {:induction false} ScanRegionsDependsOnlyOnProject(project: string, locs: seq<string>, l1: Listing, l2: Listing)
    requires forall j :: 0 <= j < |locs| ==> l1(project, locs[j]) == l2(project, locs[j])
    ensures ScanRegions(project, locs, l1) == ScanRegions(project, locs, l2)
    decreases |locs|
  {
    if locs != [] {
      ScanRegionsDependsOnlyOnProject(project, locs[1..], l1, l2);
    }
  }

  /** The fixed probing list holds five distinct regions. */
  lemma LocationsDistinct()
    ensures |Locations| == 5 && Distinct(Locations)
  {
  }

  /** Discovery does not remove duplicates: a project returned twice by the
      project search yields each of its descriptors twice. */
  lemma RepeatedProjectRepeatsDescriptors(project: string, locs: seq<string>, listing: Listing, name: string)
    requires locs != [] && listing(project, locs[0]) == Listed([name])
    ensures var regs := Discover([project, project], locs, listing).registries;
      |regs| >= 2 && !Distinct(regs)
  {
    var scan := ScanRegions(project, locs, listing);
    ScanRegionsComplete(project, locs, listing, 0, name);
    var d := Discover([project, project], locs, listing);
    DiscoverAppend([project], [project], locs, listing);
    assert [project, project] == [project] + [project];
    var r := Describe(project, locs[0], name);
    var k :| 0 <= k < |scan.registries| && scan.registries[k] == r;
    assert Discover([project], locs, listing).registries == scan.registries;
    assert d.registries == scan.registries + scan.registries;
    assert d.registries[k] == d.registries[|scan.registries| + k];
  }
}
