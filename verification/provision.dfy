/** The provisioning workflow (`provision_registries`, `grant_required_roles`):
    discover, stop if nothing was found, mint one key for the scanner's service
    account, grant its roles once in every project that has a registry, register
    every registry with Falcon, and summarise. */
module Provision {
  import opened Wrappers
  import opened Domain
  import opened Discovery
  import opened Registration

  // ---------------------------------------------------------------------------
  // Role grants
  // ---------------------------------------------------------------------------

  /** The roles granted in every project, in granting order. */
  const RequiredRoles: seq<string> := [ReaderRole, ViewerRole]

  /** The IAM member string for a service account. */
  function Member(email: string): string {
    "serviceAccount:" + email
  }

  /** The role-binding collaborator, as data: whether granting `role` in
      `project` succeeds. */
  type RoleGrantor = (string, string) -> bool

  /** The reported outcome of one role grant. */
  datatype GrantOutcome = GrantOutcome(project: string, role: string, granted: bool)

  /** What a run of grants produced: reported outcomes and the calls issued. */
  datatype Grants = Grants(outcomes: seq<GrantOutcome>, calls: seq<Call>)

  /** One grant per role in `roles`, in order; a failed grant is reported and
      the next role is still attempted. */
  function GrantEach(project: string, email: string, roles: seq<string>, grant: RoleGrantor): (g: Grants)
    ensures |g.calls| == |roles| && |g.outcomes| == |roles|
    ensures forall i :: 0 <= i < |roles| ==>
      && g.calls[i] == GrantRole(project, Member(email), roles[i])
      && g.outcomes[i] == GrantOutcome(project, roles[i], grant(project, roles[i]))
  {
    if roles == [] then Grants([], [])
    else
      var rest := GrantEach(project, email, roles[1..], grant);
      var g := Grants([GrantOutcome(project, roles[0], grant(project, roles[0]))] + rest.outcomes,
                      [GrantRole(project, Member(email), roles[0])] + rest.calls);
      GrantEachCons(project, email, roles, grant, rest, g);
      g
  }

  /** One grant in front of the grants of the remaining roles grants every
      role in order. */
  lemma GrantEachCons(project: string, email: string, roles: seq<string>, grant: RoleGrantor, rest: Grants, g: Grants)
    requires roles != [] && |rest.calls| == |roles| - 1 && |rest.outcomes| == |roles| - 1
    requires forall i :: 0 <= i < |roles| - 1 ==>
      && rest.calls[i] == GrantRole(project, Member(email), roles[1..][i])
      && rest.outcomes[i] == GrantOutcome(project, roles[1..][i], grant(project, roles[1..][i]))
    requires g.calls == [GrantRole(project, Member(email), roles[0])] + rest.calls
    requires g.outcomes == [GrantOutcome(project, roles[0], grant(project, roles[0]))] + rest.outcomes
    ensures forall i :: 0 <= i < |roles| ==>
      && g.calls[i] == GrantRole(project, Member(email), roles[i])
      && g.outcomes[i] == GrantOutcome(project, roles[i], grant(project, roles[i]))
  {
    forall i | 0 < i < |roles|
      ensures g.calls[i] == GrantRole(project, Member(email), roles[i])
      ensures g.outcomes[i] == GrantOutcome(project, roles[i], grant(project, roles[i]))
    {
      assert g.calls[i] == rest.calls[i - 1] && g.outcomes[i] == rest.outcomes[i - 1];
      assert roles[1..][i - 1] == roles[i];
    }
  }

  /** `grant_required_roles` for one project. */
  function GrantRequiredRoles(project: string, email: string, grant: RoleGrantor): Grants {
    GrantEach(project, email, RequiredRoles, grant)
  }

  /** The grant calls of one pass: reader role, then viewer role. */
  function PassCalls(project: string, email: string): seq<Call> {
    [GrantRole(project, Member(email), ReaderRole), GrantRole(project, Member(email), ViewerRole)]
  }

  /** A pass issues the reader grant and then the viewer grant, whichever of
      them fails. */
  lemma GrantRequiredRolesCalls(project: string, email: string, grant: RoleGrantor)
    ensures GrantRequiredRoles(project, email, grant).calls == PassCalls(project, email)
  {
  }

  /** The grant loop of `provision_registries`: walks the registries and runs a
      pass for each project not yet in `processed`. */
  function GrantPasses(regs: seq<Registry>, processed: set<string>, email: string, grant: RoleGrantor): Grants
  {
    if regs == [] then Grants([], [])
    else
      var project := regs[0].projectId;
      if project in processed then GrantPasses(regs[1..], processed, email, grant)
      else
        var pass := GrantRequiredRoles(project, email, grant);
        var rest := GrantPasses(regs[1..], processed + {project}, email, grant);
        Grants(pass.outcomes + rest.outcomes, pass.calls + rest.calls)
  }

  /** The project of every registry, in order. */
  function ProjectIds(regs: seq<Registry>): (ids: seq<string>)
    ensures |ids| == |regs|
    ensures forall i :: 0 <= i < |regs| ==> ids[i] == regs[i].projectId
  {
    if regs == [] then [] else [regs[0].projectId] + ProjectIds(regs[1..])
  }

  /** Reference definition, built from the back: each element of `s` that has
      not occurred before, in order of first appearance. */
  function FirstOccurrences(s: seq<string>): seq<string>
  {
    if s == [] then []
    else
      var init := s[..|s| - 1];
      FirstOccurrences(init) + (if s[|s| - 1] in init then [] else [s[|s| - 1]])
  }

  /** The first occurrences hold every element of `s` exactly once. */
  lemma {:induction false} FirstOccurrencesDistinct(s: seq<string>)
    ensures Distinct(FirstOccurrences(s))
    ensures forall x :: x in FirstOccurrences(s) <==> x in s
    decreases |s|
  {
    if s != [] {
      var init := s[..|s| - 1];
      FirstOccurrencesDistinct(init);
      assert s == init + [s[|s| - 1]];
    }
  }

  /** The grant calls of one pass per project in `projects`, in order. */
  function AllPassCalls(projects: seq<string>, email: string): seq<Call>
  {
    if projects == [] then [] else AllPassCalls(projects[..|projects| - 1], email) + PassCalls(projects[|projects| - 1], email)
  }

  lemma AllPassCallsSnoc(projects: seq<string>, project: string, email: string)
    ensures AllPassCalls(projects + [project], email) == AllPassCalls(projects, email) + PassCalls(project, email)
  {
    assert (projects + [project])[..|projects|] == projects;
  }

  /** The set of elements of `s`. */
  function Elements(s: seq<string>): set<string>
  {
    set x | x in s
  }

  /** Appending one element adds it to the first occurrences unless it was seen. */
  lemma FirstOccurrencesSnoc(s: seq<string>, x: string)
    ensures FirstOccurrences(s + [x]) == FirstOccurrences(s) + (if x in s then [] else [x])
  {
    assert (s + [x])[..|s|] == s;
  }

  /** One step of the grant loop, as calls. */
  lemma GrantPassesStep(regs: seq<Registry>, processed: set<string>, email: string, grant: RoleGrantor)
    requires regs != []
    ensures var p := regs[0].projectId;
      GrantPasses(regs, processed, email, grant).calls
      == if p in processed then GrantPasses(regs[1..], processed, email, grant).calls
         else PassCalls(p, email) + GrantPasses(regs[1..], processed + {p}, email, grant).calls
  {
    GrantRequiredRolesCalls(regs[0].projectId, email, grant);
  }

  /** The grant loop issues one pass per distinct project, in order of first
      appearance among the registries: after the projects `done` have been
      walked, the passes still to come complete those already issued. */
  lemma {:induction false} GrantPassesFollowFirstOccurrences(done: seq<string>, regs: seq<Registry>, email: string, grant: RoleGrantor)
    ensures AllPassCalls(FirstOccurrences(done), email) + GrantPasses(regs, Elements(done), email, grant).calls
         == AllPassCalls(FirstOccurrences(done + ProjectIds(regs)), email)
    decreases |regs|
  {
    if regs == [] {
      assert done + ProjectIds(regs) == done;
    } else {
      var p := regs[0].projectId;
      ProjectIdsCons(done, regs);
      GrantPassesFollowFirstOccurrences(done + [p], regs[1..], email, grant);
      GrantPassesWalkOne(done, regs, email, grant);
    }
  }

  /** Walking one more registry moves its project from the loop's future to its past. */
  lemma ProjectIdsCons(done: seq<string>, regs: seq<Registry>)
    requires regs != []
    ensures done + ProjectIds(regs) == (done + [regs[0].projectId]) + ProjectIds(regs[1..])
  {
    assert ProjectIds(regs) == [regs[0].projectId] + ProjectIds(regs[1..]);
    ConcatAssoc(done, [regs[0].projectId], ProjectIds(regs[1..]));
  }

  /** One step of the grant loop keeps the issued passes in step with the
      first occurrences of the walked projects. */
  lemma GrantPassesWalkOne(done: seq<string>, regs: seq<Registry>, email: string, grant: RoleGrantor)
    requires regs != []
    ensures var p := regs[0].projectId;
      AllPassCalls(FirstOccurrences(done), email) + GrantPasses(regs, Elements(done), email, grant).calls
      == AllPassCalls(FirstOccurrences(done + [p]), email) + GrantPasses(regs[1..], Elements(done + [p]), email, grant).calls
  {
    var p := regs[0].projectId;
    var done' := done + [p];
    FirstOccurrencesSnoc(done, p);
    GrantPassesStep(regs, Elements(done), email, grant);
    assert Elements(done') == Elements(done) + {p};
    if p !in done {
      AllPassCallsSnoc(FirstOccurrences(done), p, email);
      ConcatAssoc(AllPassCalls(FirstOccurrences(done), email), PassCalls(p, email),
                  GrantPasses(regs[1..], Elements(done'), email, grant).calls);
    } else {
      assert Elements(done') == Elements(done);
      assert FirstOccurrences(done') == FirstOccurrences(done);
    }
  }

  /** Occurrences of one grant call among the passes for `projects`. */
  lemma {:induction false} CountAllPassCalls(projects: seq<string>, email: string, project: string, role: string)
    ensures Count(AllPassCalls(projects, email), GrantRole(project, Member(email), role))
         == if role in RequiredRoles then Count(projects, project) else 0
    decreases |projects|
  {
    if projects != [] {
      var init := projects[..|projects| - 1];
      var last := projects[|projects| - 1];
      CountAllPassCalls(init, email, project, role);
      CountAppend(AllPassCalls(init, email), PassCalls(last, email), GrantRole(project, Member(email), role));
      assert projects == init + [last];
      CountAppend(init, [last], project);
      assert PassCalls(last, email)[1..] == [GrantRole(last, Member(email), ViewerRole)];
    }
  }

  /** In a duplicate-free sequence every element occurs once. */
  lemma {:induction false} CountDistinct(s: seq<string>, x: string)
    requires Distinct(s)
    ensures Count(s, x) == if x in s then 1 else 0
    decreases |s|
  {
    if s != [] {
      CountDistinct(s[1..], x);
      if s[0] == x {
        assert x !in s[1..] by {
          forall k | 0 <= k < |s[1..]| ensures s[1..][k] != x {
            assert s[1..][k] == s[k + 1];
          }
        }
      }
    }
  }

  /** Every project that has a registry receives each required role exactly
      once; no other project and no other role is granted. */
  lemma GrantPassesOncePerProject(regs: seq<Registry>, email: string, grant: RoleGrantor, project: string, role: string)
    ensures Count(GrantPasses(regs, {}, email, grant).calls, GrantRole(project, Member(email), role))
         == if project in ProjectIds(regs) && role in RequiredRoles then 1 else 0
  {
    var s := ProjectIds(regs);
    var none: seq<string> := [];
    GrantPassesFollowFirstOccurrences(none, regs, email, grant);
    assert Elements(none) == {};
    assert none + s == s;
    assert AllPassCalls(FirstOccurrences(none), email) == [];
    var calls := GrantPasses(regs, {}, email, grant).calls;
    assert calls == AllPassCalls(FirstOccurrences(s), email);
    FirstOccurrencesDistinct(s);
    CountAllPassCalls(FirstOccurrences(s), email, project, role);
    CountDistinct(FirstOccurrences(s), project);
  }

  /** A failed grant stops nothing: the grant calls do not depend on the answers. */
  lemma {:induction false} GrantPassesIsolated(regs: seq<Registry>, processed: set<string>, email: string, g1: RoleGrantor, g2: RoleGrantor)
    ensures GrantPasses(regs, processed, email, g1).calls == GrantPasses(regs, processed, email, g2).calls
    decreases |regs|
  {
    if regs != [] {
      var project := regs[0].projectId;
      GrantPassesIsolated(regs[1..], processed, email, g1, g2);
      GrantPassesIsolated(regs[1..], processed + {project}, email, g1, g2);
      GrantRequiredRolesCalls(project, email, g1);
      GrantRequiredRolesCalls(project, email, g2);
    }
  }

  // ---------------------------------------------------------------------------
  // The provisioning workflow
  // ---------------------------------------------------------------------------

  /** The collaborators of one provisioning run, as data. */
  datatype ProvisionEnv = ProvisionEnv(
    hostProject: string,                 // project that owns the scanner's account
    projects: seq<string>,               // the project search result, in order
    listing: Listing,                    // per-region repository listings
    mint: Result<ServiceAccountKey>,     // ensuring the account and minting its key
    grant: RoleGrantor,
    create: CreateService)

  /** How a provisioning run ended. */
  datatype ProvisionOutcome =
    | NothingToDo                        // discovery found no registry
    | CredentialFailed(message: string)  // the key could not be obtained: the run stops
    | Provisioned(grants: seq<GrantOutcome>, results: seq<RegistrationResult>, summary: Summary)

  /** The calls a provisioning run issued and how it ended. */
  datatype ProvisionRun = ProvisionRun(calls: seq<Call>, outcome: ProvisionOutcome)

  /** The scanner's service-account e-mail in the host project. */
  function ScannerEmail(env: ProvisionEnv): string {
    ServiceAccountEmail(ScannerAccountName, env.hostProject)
  }

  /** What discovery finds in this environment. */
  function DiscoveryOf(env: ProvisionEnv): Discovered {
    Discover(env.projects, Locations, env.listing)
  }

  /** `provision_registries`. */
  function ProvisionRegistries(env: ProvisionEnv): ProvisionRun
  {
    var found := DiscoveryOf(env);
    if found.registries == [] then ProvisionRun(found.calls, NothingToDo)
    else
      var email := ScannerEmail(env);
      var mintCall := CreateKey(env.hostProject, email);
      match env.mint
      case Failure(message) => ProvisionRun(found.calls + [mintCall], CredentialFailed(message))
      case Success(key) =>
        var grants := GrantPasses(found.registries, {}, email, env.grant);
        var registered := RegisterAll(found.registries, key, env.create, 0);
        ProvisionRun(
          found.calls + [mintCall] + grants.calls + registered.calls,
          Provisioned(grants.outcomes, registered.results, Summarize(|found.registries|, registered.results)))
  }

  /** When discovery finds nothing, the run ends after discovery: no key is
      minted, no role granted and nothing registered. */
  lemma ProvisionNothingFound(env: ProvisionEnv)
    requires DiscoveryOf(env).registries == []
    ensures ProvisionRegistries(env).outcome == NothingToDo
    ensures forall c :: c in ProvisionRegistries(env).calls ==> c.ListRepositories?
  {
    forall c | c in ProvisionRegistries(env).calls ensures c.ListRepositories? {
      DiscoverCalls(env.projects, Locations, env.listing, c);
    }
  }

  /** The calls the run issues after the mint attempt. */
  function AfterMint(env: ProvisionEnv): seq<Call> {
    match env.mint
    case Failure(_) => []
    case Success(key) =>
      var regs := DiscoveryOf(env).registries;
      GrantPasses(regs, {}, ScannerEmail(env), env.grant).calls + RegisterAll(regs, key, env.create, 0).calls
  }

  /** A run that found registries is discovery, one mint attempt, and what follows it. */
  lemma ProvisionTrace(env: ProvisionEnv, run: ProvisionRun, found: Discovered, after: seq<Call>)
    requires found == DiscoveryOf(env) && found.registries != []
    requires run == ProvisionRegistries(env) && after == AfterMint(env)
    ensures run.calls == found.calls + [CreateKey(env.hostProject, ScannerEmail(env))] + after
  {
    if env.mint.Failure? {
      assert after == [];
    }
  }

  /** After a successful mint come the grant passes, then the creates. */
  lemma AfterMintSplit(env: ProvisionEnv, after: seq<Call>, grants: Grants, registered: Registered)
    requires env.mint.Success? && after == AfterMint(env)
    requires grants == GrantPasses(DiscoveryOf(env).registries, {}, ScannerEmail(env), env.grant)
    requires registered == RegisterAll(DiscoveryOf(env).registries, env.mint.value, env.create, 0)
    ensures after == grants.calls + registered.calls
  {
  }

  /** Discovery issues only region listings. */
  lemma DiscoveryListsOnly(env: ProvisionEnv, calls: seq<Call>)
    requires calls == DiscoveryOf(env).calls
    ensures forall c :: c in calls ==> c.ListRepositories?
  {
    forall c | c in calls ensures c.ListRepositories? {
      DiscoverCalls(env.projects, Locations, env.listing, c);
    }
  }

  /** The registration loop issues only creates. */
  lemma RegisterAllCreatesOnly(regs: seq<Registry>, key: ServiceAccountKey, create: CreateService, calls: seq<Call>)
    requires calls == RegisterAll(regs, key, create, 0).calls
    ensures forall c :: c in calls ==> c.CreateRegistry?
  {
    forall c | c in calls ensures c.CreateRegistry? {
      var i :| 0 <= i < |calls| && calls[i] == c;
    }
  }

  /** No key is minted after the mint attempt. */
  lemma NoKeyAfterMint(env: ProvisionEnv, after: seq<Call>)
    requires after == AfterMint(env)
    ensures forall c :: c in after ==> !c.CreateKey?
  {
    if env.mint.Success? {
      var regs := DiscoveryOf(env).registries;
      var grants := GrantPasses(regs, {}, ScannerEmail(env), env.grant);
      var registered := RegisterAll(regs, env.mint.value, env.create, 0);
      AfterMintSplit(env, after, grants, registered);
      NoKeyInGrantPasses(regs, {}, ScannerEmail(env), env.grant);
      RegisterAllCreatesOnly(regs, env.mint.value, env.create, registered.calls);
    }
  }

  /** When discovery finds something, exactly one key is minted, right after
      discovery, for the scanner account of the host project. */
  lemma ProvisionMintsOnce(env: ProvisionEnv)
    requires DiscoveryOf(env).registries != []
    ensures var calls := ProvisionRegistries(env).calls; var n := |DiscoveryOf(env).calls|;
      && n < |calls| && calls[..n] == DiscoveryOf(env).calls
      && calls[n] == CreateKey(env.hostProject, ScannerEmail(env))
      && Count(calls, CreateKey(env.hostProject, ScannerEmail(env))) == 1
  {
    var found := DiscoveryOf(env);
    var after := AfterMint(env);
    var run := ProvisionRegistries(env);
    ProvisionTrace(env, run, found, after);
    DiscoveryListsOnly(env, found.calls);
    NoKeyAfterMint(env, after);
    CountOnce(run.calls, found.calls, CreateKey(env.hostProject, ScannerEmail(env)), after);
  }

  /** The grant loop issues only role grants. */
  lemma {:induction false} NoKeyInGrantPasses(regs: seq<Registry>, processed: set<string>, email: string, grant: RoleGrantor)
    ensures forall c :: c in GrantPasses(regs, processed, email, grant).calls ==> c.GrantRole?
    decreases |regs|
  {
    if regs != [] {
      NoKeyInGrantPasses(regs[1..], processed, email, grant);
      NoKeyInGrantPasses(regs[1..], processed + {regs[0].projectId}, email, grant);
    }
  }

  /** If the key cannot be obtained, the run stops right after the attempt:
      no role is granted and nothing is registered. */
  lemma ProvisionCredentialFailure(env: ProvisionEnv)
    requires DiscoveryOf(env).registries != [] && env.mint.Failure?
    ensures ProvisionRegistries(env).outcome == CredentialFailed(env.mint.message)
    ensures ProvisionRegistries(env).calls == DiscoveryOf(env).calls + [CreateKey(env.hostProject, ScannerEmail(env))]
  {
  }

  /** After a successful mint, the run ends with one create call per discovered
      registry, in discovery order, carrying that registry's payload. */
  lemma ProvisionCreatesEach(env: ProvisionEnv)
    requires DiscoveryOf(env).registries != [] && env.mint.Success?
    ensures var regs := DiscoveryOf(env).registries;
      var calls := ProvisionRegistries(env).calls;
      && |regs| <= |calls|
      && forall i :: 0 <= i < |regs| ==>
           calls[|calls| - |regs| + i] == CreateRegistry(BuildPayload(regs[i], env.mint.value))
  {
    var found := DiscoveryOf(env);
    var after := AfterMint(env);
    var run := ProvisionRegistries(env);
    var grants := GrantPasses(found.registries, {}, ScannerEmail(env), env.grant);
    var registered := RegisterAll(found.registries, env.mint.value, env.create, 0);
    ProvisionTrace(env, run, found, after);
    AfterMintSplit(env, after, grants, registered);
    RegisterAllCreates(found.registries, env.mint.value, env.create, registered.calls);
    CreatesAtEnd(run.calls, found.calls + [CreateKey(env.hostProject, ScannerEmail(env))], grants.calls,
                 registered.calls, found.registries, env.mint.value);
  }

  /** Falcon create requests are sent only by a run that found registries
      and obtained the key, and then exactly one per discovered registry, in
      discovery order, each with that registry's payload. */
  lemma ProvisionCreatedPayloads(env: ProvisionEnv)
    ensures var regs := DiscoveryOf(env).registries;
      CreatedPayloads(ProvisionRegistries(env).calls)
      == if regs != [] && env.mint.Success? then PayloadsFor(regs, env.mint.value) else []
  {
    var found := DiscoveryOf(env);
    var run := ProvisionRegistries(env);
    DiscoveryListsOnly(env, found.calls);
    NoCreatedPayloads(found.calls);
    if found.registries != [] {
      var after := AfterMint(env);
      var head := found.calls + [CreateKey(env.hostProject, ScannerEmail(env))];
      ProvisionTrace(env, run, found, after);
      MintPrefixCreatesNothing(found.calls, head, CreateKey(env.hostProject, ScannerEmail(env)));
      CreatedPayloadsAppend(head, after);
      CreatedAfterMint(env, after);
    }
  }

  /** Discovery and the mint attempt send no create request. */
  lemma MintPrefixCreatesNothing(discovery: seq<Call>, head: seq<Call>, mint: Call)
    requires CreatedPayloads(discovery) == [] && head == discovery + [mint] && mint.CreateKey?
    ensures CreatedPayloads(head) == []
  {
    CreatedPayloadsAppend(discovery, [mint]);
    assert [mint][1..] == [];
  }

  /** After the mint attempt, the create requests are those of the create loop. */
  lemma CreatedAfterMint(env: ProvisionEnv, after: seq<Call>)
    requires after == AfterMint(env)
    ensures CreatedPayloads(after)
      == if env.mint.Success? then PayloadsFor(DiscoveryOf(env).registries, env.mint.value) else []
  {
    if env.mint.Success? {
      var regs := DiscoveryOf(env).registries;
      var grants := GrantPasses(regs, {}, ScannerEmail(env), env.grant);
      var registered := RegisterAll(regs, env.mint.value, env.create, 0);
      AfterMintSplit(env, after, grants, registered);
      NoKeyInGrantPasses(regs, {}, ScannerEmail(env), env.grant);
      NoCreatedPayloads(grants.calls);
      CreatedPayloadsAppend(grants.calls, registered.calls);
      RegisterAllPayloads(regs, env.mint.value, env.create, 0);
    }
  }

  /** The registration loop issues one create per registry, in order. */
  lemma RegisterAllCreates(regs: seq<Registry>, key: ServiceAccountKey, create: CreateService, calls: seq<Call>)
    requires calls == RegisterAll(regs, key, create, 0).calls
    ensures |calls| == |regs| && forall i :: 0 <= i < |regs| ==> calls[i] == CreateRegistry(BuildPayload(regs[i], key))
  {
  }

  /** A trace ending with the registration loop's calls ends with one create per registry. */
  lemma CreatesAtEnd(calls: seq<Call>, prefix: seq<Call>, middle: seq<Call>, creates: seq<Call>, regs: seq<Registry>, key: ServiceAccountKey)
    requires calls == prefix + (middle + creates)
    requires |creates| == |regs| && forall i :: 0 <= i < |regs| ==> creates[i] == CreateRegistry(BuildPayload(regs[i], key))
    ensures |regs| <= |calls|
    ensures forall i :: 0 <= i < |regs| ==> calls[|calls| - |regs| + i] == CreateRegistry(BuildPayload(regs[i], key))
  {
    EndsWith(calls, prefix, middle, creates);
    forall i | 0 <= i < |regs| ensures calls[|calls| - |regs| + i] == CreateRegistry(BuildPayload(regs[i], key)) {
      assert calls[|calls| - |creates| + i] == creates[i];
    }
  }

  /** The outcome of a run whose mint succeeded. */
  lemma ProvisionedOutcome(env: ProvisionEnv, run: ProvisionRun, registered: Registered)
    requires DiscoveryOf(env).registries != [] && env.mint.Success?
    requires run == ProvisionRegistries(env)
    requires registered == RegisterAll(DiscoveryOf(env).registries, env.mint.value, env.create, 0)
    ensures run.outcome.Provisioned? && run.outcome.results == registered.results
    ensures run.outcome.summary == Summarize(|DiscoveryOf(env).registries|, registered.results)
  {
  }

  /** After a successful mint, there is one result per registry, in the same
      order, carrying Falcon's answer to that registry's create call, and the
      summary covers every registry. */
  lemma ProvisionReportsEach(env: ProvisionEnv)
    requires DiscoveryOf(env).registries != [] && env.mint.Success?
    ensures var regs := DiscoveryOf(env).registries;
      var outcome := ProvisionRegistries(env).outcome;
      && outcome.Provisioned?
      && |outcome.results| == |regs|
      && (forall i :: 0 <= i < |regs| ==>
            outcome.results[i].registry == regs[i].name
            && outcome.results[i].status == env.create(i, BuildPayload(regs[i], env.mint.value)).status)
      && outcome.summary.total == |regs|
      && outcome.summary.succeeded + outcome.summary.failed == |regs|
      && (outcome.summary.failed == 0 <==> forall i :: 0 <= i < |regs| ==> outcome.results[i].status == StatusOk)
  {
    var regs := DiscoveryOf(env).registries;
    var registered := RegisterAll(regs, env.mint.value, env.create, 0);
    ProvisionedOutcome(env, ProvisionRegistries(env), registered);
    RegisterAllReports(regs, env.mint.value, env.create, registered.results);
    SummaryBalanced(registered.results);
  }

  /** The registration loop reports each registry's create answer, in order. */
  lemma RegisterAllReports(regs: seq<Registry>, key: ServiceAccountKey, create: CreateService, results: seq<RegistrationResult>)
    requires results == RegisterAll(regs, key, create, 0).results
    ensures |results| == |regs|
    ensures forall i :: 0 <= i < |regs| ==>
      results[i].registry == regs[i].name && results[i].status == create(i, BuildPayload(regs[i], key)).status
  {
  }

  /** Every project that has a registry gets each required role exactly once
      in the whole run, and no other grant is issued. */
  lemma ProvisionGrantsOncePerProject(env: ProvisionEnv, project: string, role: string)
    requires DiscoveryOf(env).registries != [] && env.mint.Success?
    ensures var regs := DiscoveryOf(env).registries;
      Count(ProvisionRegistries(env).calls, GrantRole(project, Member(ScannerEmail(env)), role))
      == if project in ProjectIds(regs) && role in RequiredRoles then 1 else 0
  {
    var found := DiscoveryOf(env);
    var email := ScannerEmail(env);
    var after := AfterMint(env);
    var run := ProvisionRegistries(env);
    var grants := GrantPasses(found.registries, {}, email, env.grant);
    var registered := RegisterAll(found.registries, env.mint.value, env.create, 0);
    ProvisionTrace(env, run, found, after);
    AfterMintSplit(env, after, grants, registered);
    DiscoveryListsOnly(env, found.calls);
    RegisterAllCreatesOnly(found.registries, env.mint.value, env.create, registered.calls);
    CountMiddle(run.calls, found.calls, CreateKey(env.hostProject, email), grants.calls, registered.calls,
                GrantRole(project, Member(email), role));
    GrantPassesOncePerProject(found.registries, email, env.grant, project, role);
  }

  /** Role-grant failures never change what else the run does. */
  lemma ProvisionGrantFailuresIsolated(env: ProvisionEnv, other: RoleGrantor)
    ensures ProvisionRegistries(env).calls == ProvisionRegistries(env.(grant := other)).calls
  {
    var found := DiscoveryOf(env);
    GrantPassesIsolated(found.registries, {}, ScannerEmail(env), env.grant, other);
  }
}
