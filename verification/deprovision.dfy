/** The deprovisioning workflow (`cleanup_falcon_registries`,
    `cleanup_service_account` and the `--deprovision` branch of `main`): remove
    the Google Artifact Registry entries from Falcon after the operator confirms,
    then delete the scanner's service account if it is listed. */
module Deprovision {
  import opened Wrappers
  import opened Text
  import opened Domain
  import opened Registration

  // ---------------------------------------------------------------------------
  // Collaborator answers, as data
  // ---------------------------------------------------------------------------

  /** The answer to the Falcon list-of-ids request. */
  datatype IdListing =
    | ListingRaised(message: string)           // the request raised: nothing catches it here
    | IdListing(status: int, ids: seq<string>)

  /** The fields of one Falcon registry entity that the workflow reads; each is
      absent when the entity lacks it. */
  datatype EntryRecord = EntryRecord(entryType: Option<string>, alias: Option<string>, url: Option<string>)

  /** The answer to one Falcon detail request. */
  datatype DetailResponse =
    | DetailRaised(message: string)            // caught: the id is skipped
    | Detail(status: int, resources: Option<seq<EntryRecord>>)  // None: no `resources` field

  /** The detail collaborator: the answer for each id. */
  type DetailService = string -> DetailResponse

  /** The answer to one Falcon delete request. */
  datatype DeleteResponse = DeleteRaised(message: string) | DeleteAnswered(status: int)

  /** The delete collaborator: the answer for each id. */
  type DeleteService = string -> DeleteResponse

  /** A registry marked for removal: its id, alias and URL, "Unknown" when absent. */
  datatype Candidate = Candidate(id: string, alias: string, url: string)

  // ---------------------------------------------------------------------------
  // Selecting the Google Artifact Registry entries
  // ---------------------------------------------------------------------------

  /** The entity a detail answer describes, when the answer is a success whose
      first resource has type "gar". A success without a `resources` field
      describes an empty entity (never "gar"); one with an empty list fails on
      the first-element access, which is caught, so the id is skipped. */
  function GarEntry(d: DetailResponse): (e: Option<EntryRecord>)
    ensures e.Some? <==>
      d.Detail? && d.status == StatusOk && d.resources.Some? && |d.resources.value| > 0
      && d.resources.value[0].entryType == Some(GarType)
    ensures e.Some? ==> e.value == d.resources.value[0]
  {
    match d
    case DetailRaised(_) => None
    case Detail(status, resources) =>
      if status != StatusOk then None
      else match resources
        case None => None
        case Some(records) =>
          if records == [] then None
          else if records[0].entryType == Some(GarType) then Some(records[0])
          else None
  }

  /** The candidate built from the id and its entity. */
  function CandidateOf(id: string, e: EntryRecord): Candidate {
    Candidate(id, e.alias.GetOr("Unknown"), e.url.GetOr("Unknown"))
  }

  /** The outcome of reading every listed id's details. */
  datatype Selection = Selection(candidates: seq<Candidate>, calls: seq<Call>)

  /** The detail loop: one read per listed id, in order; an id whose entity is
      a Google Artifact Registry becomes a candidate, every other id (including
      one whose read raised) is skipped and the loop goes on. */
  function SelectGar(ids: seq<string>, detail: DetailService): (s: Selection)
    ensures |s.calls| == |ids|
    ensures forall i :: 0 <= i < |ids| ==> s.calls[i] == ReadRegistry(ids[i])
    ensures |s.candidates| <= |ids|
    ensures forall c :: c in s.candidates ==>
      c.id in ids && GarEntry(detail(c.id)).Some? && c == CandidateOf(c.id, GarEntry(detail(c.id)).value)
  {
    if ids == [] then Selection([], [])
    else
      var rest := SelectGar(ids[1..], detail);
      var here := match GarEntry(detail(ids[0]))
        case None => []
        case Some(e) => [CandidateOf(ids[0], e)];
      var s := Selection(here + rest.candidates, [ReadRegistry(ids[0])] + rest.calls);
      SelectGarCons(ids, rest.calls, s.calls);
      s
  }

  /** One read in front of the reads of the remaining ids reads every id in order. */
  lemma SelectGarCons(ids: seq<string>, restCalls: seq<Call>, calls: seq<Call>)
    requires ids != [] && |restCalls| == |ids| - 1
    requires forall i :: 0 <= i < |ids| - 1 ==> restCalls[i] == ReadRegistry(ids[1..][i])
    requires calls == [ReadRegistry(ids[0])] + restCalls
    ensures forall i :: 0 <= i < |ids| ==> calls[i] == ReadRegistry(ids[i])
  {
    forall i | 0 < i < |ids| ensures calls[i] == ReadRegistry(ids[i]) {
      assert calls[i] == restCalls[i - 1];
      assert ids[1..][i - 1] == ids[i];
    }
  }

  /** The ids of some candidates, in order. */
  function CandidateIds(cs: seq<Candidate>): (ids: seq<string>)
    ensures |ids| == |cs|
    ensures forall k :: 0 <= k < |cs| ==> ids[k] == cs[k].id
  {
    if cs == [] then [] else [cs[0].id] + CandidateIds(cs[1..])
  }

  /** Each listed id is a candidate as often as it is listed when its entity is
      a Google Artifact Registry, and never otherwise. */
  lemma {:induction false} SelectGarCount(ids: seq<string>, detail: DetailService, id: string)
    ensures Count(CandidateIds(SelectGar(ids, detail).candidates), id)
         == if GarEntry(detail(id)).Some? then Count(ids, id) else 0
    decreases |ids|
  {
    if ids != [] {
      SelectGarCount(ids[1..], detail, id);
      var s := SelectGar(ids, detail);
      var rest := SelectGar(ids[1..], detail);
      var here := if GarEntry(detail(ids[0])).Some? then [CandidateOf(ids[0], GarEntry(detail(ids[0])).value)] else [];
      assert s.candidates == here + rest.candidates;
      CandidateIdsAppend(here, rest.candidates);
      CountAppend(CandidateIds(here), CandidateIds(rest.candidates), id);
    }
  }

  /** `CandidateIds` distributes over concatenation. */
  lemma CandidateIdsAppend(a: seq<Candidate>, b: seq<Candidate>)
    ensures CandidateIds(a + b) == CandidateIds(a) + CandidateIds(b)
  {
    var l := CandidateIds(a + b);
    var r := CandidateIds(a) + CandidateIds(b);
    assert |l| == |r|;
    forall k | 0 <= k < |l| ensures l[k] == r[k] {
      if k < |a| {
        assert (a + b)[k] == a[k];
      } else {
        assert (a + b)[k] == b[k - |a|];
      }
    }
  }

  /** `a` can be obtained from `b` by deleting elements (matched greedily). */
  predicate IsSubsequence(a: seq<string>, b: seq<string>)
    decreases |b|
  {
    if b == [] then a == []
    else if a != [] && a[0] == b[0] then IsSubsequence(a[1..], b[1..])
    else IsSubsequence(a, b[1..])
  }

  /** A subsequence stays one after its first element is dropped. */
  lemma {:induction false} DropHead(a: seq<string>, b: seq<string>)
    requires a != [] && IsSubsequence(a, b)
    ensures IsSubsequence(a[1..], b)
    decreases |b|
  {
    if a[0] != b[0] {
      DropHead(a, b[1..]);
    }
    if a[1..] != [] && a[1..][0] == b[0] {
      DropHead(a[1..], b[1..]);
    }
  }

  /** Putting one more element in front of `b` keeps a subsequence a subsequence. */
  lemma SubsequenceOfCons(a: seq<string>, x: string, b: seq<string>)
    requires IsSubsequence(a, b)
    ensures IsSubsequence(a, [x] + b)
  {
    assert ([x] + b)[1..] == b;
    if a != [] && a[0] == x {
      DropHead(a, b);
    }
  }

  /** The candidates keep the order in which their ids were listed. */
  lemma {:induction false} SelectGarInOrder(ids: seq<string>, detail: DetailService)
    ensures IsSubsequence(CandidateIds(SelectGar(ids, detail).candidates), ids)
    decreases |ids|
  {
    if ids != [] {
      SelectGarInOrder(ids[1..], detail);
      var restIds := CandidateIds(SelectGar(ids[1..], detail).candidates);
      var all := CandidateIds(SelectGar(ids, detail).candidates);
      var hit := GarEntry(detail(ids[0])).Some?;
      SelectGarIdsStep(ids, detail, all, restIds);
      SubsequenceStep(all, restIds, ids, hit);
    }
  }

  /** The candidate ids of a non-empty listing: the first id when its entity is
      a Google Artifact Registry, then the candidate ids of the rest. */
  lemma SelectGarIdsStep(ids: seq<string>, detail: DetailService, all: seq<string>, restIds: seq<string>)
    requires ids != []
    requires all == CandidateIds(SelectGar(ids, detail).candidates)
    requires restIds == CandidateIds(SelectGar(ids[1..], detail).candidates)
    ensures all == (if GarEntry(detail(ids[0])).Some? then [ids[0]] else []) + restIds
  {
    var here := match GarEntry(detail(ids[0]))
      case None => []
      case Some(e) => [CandidateOf(ids[0], e)];
    assert SelectGar(ids, detail).candidates == here + SelectGar(ids[1..], detail).candidates;
    CandidateIdsAppend(here, SelectGar(ids[1..], detail).candidates);
  }

  /** Keeping or skipping the first element of `b` extends a subsequence of
      its tail to one of `b`. */
  lemma SubsequenceStep(all: seq<string>, restIds: seq<string>, b: seq<string>, hit: bool)
    requires b != [] && IsSubsequence(restIds, b[1..])
    requires all == (if hit then [b[0]] else []) + restIds
    ensures IsSubsequence(all, b)
  {
    if hit {
      assert all[1..] == restIds;
    } else {
      assert all == restIds;
      assert b == [b[0]] + b[1..];
      SubsequenceOfCons(restIds, b[0], b[1..]);
    }
  }

  // ---------------------------------------------------------------------------
  // Removing the candidates
  // ---------------------------------------------------------------------------

  /** The reported outcome of removing one candidate. */
  datatype Removal = Removed(candidate: Candidate) | RemovalFailed(candidate: Candidate)

  /** What the delete loop produced: reported outcomes and the calls issued. */
  datatype Deletions = Deletions(removals: seq<Removal>, calls: seq<Call>)

  /** The delete loop: one single-id delete per candidate, in order; a failed
      or raising delete is reported and the loop goes on. */
  function DeleteEach(cs: seq<Candidate>, delete: DeleteService): (d: Deletions)
    ensures |d.calls| == |cs| && |d.removals| == |cs|
    ensures forall i :: 0 <= i < |cs| ==>
      && d.calls[i] == DeleteRegistries([cs[i].id])
      && d.removals[i].candidate == cs[i]
      && (d.removals[i].Removed? <==> delete(cs[i].id) == DeleteAnswered(StatusOk))
  {
    if cs == [] then Deletions([], [])
    else
      var rest := DeleteEach(cs[1..], delete);
      var here := if delete(cs[0].id) == DeleteAnswered(StatusOk) then Removed(cs[0]) else RemovalFailed(cs[0]);
      var d := Deletions([here] + rest.removals, [DeleteRegistries([cs[0].id])] + rest.calls);
      DeleteEachCons(cs, delete, rest, d);
      d
  }

  /** One delete in front of the deletes of the remaining candidates deletes
      every candidate in order. */
  lemma DeleteEachCons(cs: seq<Candidate>, delete: DeleteService, rest: Deletions, d: Deletions)
    requires cs != [] && |rest.calls| == |cs| - 1 && |rest.removals| == |cs| - 1
    requires forall i :: 0 <= i < |cs| - 1 ==>
      && rest.calls[i] == DeleteRegistries([cs[1..][i].id])
      && rest.removals[i].candidate == cs[1..][i]
      && (rest.removals[i].Removed? <==> delete(cs[1..][i].id) == DeleteAnswered(StatusOk))
    requires d.calls == [DeleteRegistries([cs[0].id])] + rest.calls
    requires d.removals ==
      [if delete(cs[0].id) == DeleteAnswered(StatusOk) then Removed(cs[0]) else RemovalFailed(cs[0])] + rest.removals
    ensures forall i :: 0 <= i < |cs| ==>
      && d.calls[i] == DeleteRegistries([cs[i].id])
      && d.removals[i].candidate == cs[i]
      && (d.removals[i].Removed? <==> delete(cs[i].id) == DeleteAnswered(StatusOk))
  {
    forall i | 0 < i < |cs|
      ensures d.calls[i] == DeleteRegistries([cs[i].id])
      ensures d.removals[i].candidate == cs[i]
      ensures d.removals[i].Removed? <==> delete(cs[i].id) == DeleteAnswered(StatusOk)
    {
      assert d.calls[i] == rest.calls[i - 1] && d.removals[i] == rest.removals[i - 1];
      assert cs[1..][i - 1] == cs[i];
    }
  }

  // ---------------------------------------------------------------------------
  // Registry cleanup
  // ---------------------------------------------------------------------------

  /** The collaborators of the Falcon side of deprovisioning, as data. */
  datatype FalconEnv = FalconEnv(
    listing: IdListing,
    detail: DetailService,
    answer: Option<string>,   // the operator's reply; None when input is exhausted (raises)
    delete: DeleteService)

  /** How the Falcon cleanup ended. */
  datatype CleanupEnd =
    | ListingFailed                        // the id listing answered a non-200 status
    | NoRegistries                         // the id listing was empty
    | NoGarRegistries                      // no listed entity is a Google Artifact Registry
    | Declined                             // the operator did not answer y or Y
    | Cleaned(removals: seq<Removal>)
    | Raised(message: string)              // an uncaught exception: `main` stops here

  /** The calls the Falcon cleanup issued and how it ended. */
  datatype CleanupRun = CleanupRun(calls: seq<Call>, end: CleanupEnd)

  /** The operator's reply confirms removal when it lower-cases to "y". */
  predicate Confirms(reply: string) {
    Lower(reply) == "y"
  }

  /** The message of the exception raised when the prompt finds no input. */
  const EndOfInput: string := "EOF when reading a line"

  /** `cleanup_falcon_registries`. */
  function CleanupRegistries(env: FalconEnv): CleanupRun {
    match env.listing
    case ListingRaised(message) => CleanupRun([ListRegistryIds], Raised(message))
    case IdListing(status, ids) =>
      if status != StatusOk then CleanupRun([ListRegistryIds], ListingFailed)
      else if ids == [] then CleanupRun([ListRegistryIds], NoRegistries)
      else
        var sel := SelectGar(ids, env.detail);
        if sel.candidates == [] then CleanupRun([ListRegistryIds] + sel.calls, NoGarRegistries)
        else
          var asked := [ListRegistryIds] + sel.calls + [AskConfirmation];
          match env.answer
          case None => CleanupRun(asked, Raised(EndOfInput))
          case Some(reply) =>
            if !Confirms(reply) then CleanupRun(asked, Declined)
            else
              var d := DeleteEach(sel.candidates, env.delete);
              CleanupRun(asked + d.calls, Cleaned(d.removals))
  }

  /** The candidates the cleanup selects in this environment (none when the
      listing did not produce ids). */
  function CandidatesOf(env: FalconEnv): seq<Candidate> {
    if env.listing.IdListing? && env.listing.status == StatusOk then SelectGar(env.listing.ids, env.detail).candidates
    else []
  }

  /** The detail reads the cleanup issues. */
  function ReadsOf(env: FalconEnv): seq<Call> {
    if env.listing.IdListing? && env.listing.status == StatusOk then SelectGar(env.listing.ids, env.detail).calls
    else []
  }

  /** The operator reply confirms removal of some candidates. */
  predicate ConfirmedRemoval(env: FalconEnv) {
    CandidatesOf(env) != [] && env.answer.Some? && Confirms(env.answer.value)
  }

  /** The delete calls the cleanup issues. */
  function DeletesOf(env: FalconEnv): seq<Call> {
    if ConfirmedRemoval(env) then DeleteEach(CandidatesOf(env), env.delete).calls else []
  }

  /** The cleanup lists the ids, reads every listed id's details, asks the
      operator only when there are candidates, and deletes only after a
      confirming reply. */
  lemma CleanupTrace(env: FalconEnv)
    ensures CleanupRegistries(env).calls
         == [ListRegistryIds] + ReadsOf(env)
            + (if CandidatesOf(env) != [] then [AskConfirmation] else []) + DeletesOf(env)
  {
    if env.listing.IdListing? && env.listing.status == StatusOk && env.listing.ids == [] {
      assert ReadsOf(env) == [];
      assert CandidatesOf(env) == [];
    }
  }

  /** The detail loop issues only detail reads. */
  lemma SelectGarReads(ids: seq<string>, detail: DetailService, calls: seq<Call>)
    requires calls == SelectGar(ids, detail).calls
    ensures forall c :: c in calls ==> c.ReadRegistry?
  {
    forall c | c in calls ensures c.ReadRegistry? {
      var i :| 0 <= i < |calls| && calls[i] == c;
    }
  }

  /** The delete loop issues only deletes. */
  lemma DeleteEachDeletes(cs: seq<Candidate>, delete: DeleteService, calls: seq<Call>)
    requires calls == DeleteEach(cs, delete).calls
    ensures forall c :: c in calls ==> c.DeleteRegistries?
  {
    forall c | c in calls ensures c.DeleteRegistries? {
      var i :| 0 <= i < |calls| && calls[i] == c;
    }
  }

  /** The cleanup's detail reads are detail reads. */
  lemma ReadsOfReads(env: FalconEnv, readCalls: seq<Call>)
    requires readCalls == ReadsOf(env)
    ensures forall c :: c in readCalls ==> c.ReadRegistry?
  {
    if env.listing.IdListing? && env.listing.status == StatusOk {
      SelectGarReads(env.listing.ids, env.detail, readCalls);
    }
  }

  /** The cleanup's deletes are deletes. */
  lemma DeletesOfDeletes(env: FalconEnv, dels: seq<Call>)
    requires dels == DeletesOf(env)
    ensures forall c :: c in dels ==> c.DeleteRegistries?
  {
    if ConfirmedRemoval(env) {
      DeleteEachDeletes(CandidatesOf(env), env.delete, dels);
    }
  }

  /** The calls the registry cleanup may issue. */
  predicate IsRegistryCall(c: Call) {
    c.ListRegistryIds? || c.ReadRegistry? || c.AskConfirmation? || c.DeleteRegistries?
  }

  /** A trace free of deletes has no delete id lists. */
  lemma {:induction false} NoDeleteCalls(calls: seq<Call>)
    requires forall c :: c in calls ==> !c.DeleteRegistries?
    ensures DeletedIdLists(calls) == []
    decreases |calls|
  {
    if calls != [] {
      assert calls[0] in calls;
      NoDeleteCalls(calls[1..]);
    }
  }

  /** The cleanup's calls up to and including the prompt delete nothing. */
  lemma CleanupPrefixDeletesNothing(env: FalconEnv)
    ensures var prefix := [ListRegistryIds] + ReadsOf(env) + (if CandidatesOf(env) != [] then [AskConfirmation] else []);
      DeletedIdLists(prefix) == [] && forall c :: c in prefix ==> IsRegistryCall(c) && !c.DeleteRegistries?
  {
    var readCalls := ReadsOf(env);
    var prefix := [ListRegistryIds] + readCalls + (if CandidatesOf(env) != [] then [AskConfirmation] else []);
    ReadsOfReads(env, readCalls);
    NoDeleteCalls(prefix);
  }

  /** Every call of the registry cleanup is a Falcon call or the prompt. */
  lemma CleanupCallsAreRegistryCalls(env: FalconEnv, c: Call)
    requires c in CleanupRegistries(env).calls
    ensures IsRegistryCall(c)
  {
    CleanupTrace(env);
    ReadsOfReads(env, ReadsOf(env));
    DeletesOfDeletes(env, DeletesOf(env));
  }

  /** The single-id delete lists for some candidates, in order. */
  function SingletonIdLists(cs: seq<Candidate>): (lists: seq<seq<string>>)
    ensures |lists| == |cs|
    ensures forall i :: 0 <= i < |cs| ==> lists[i] == [cs[i].id]
  {
    if cs == [] then [] else [[cs[0].id]] + SingletonIdLists(cs[1..])
  }

  /** The delete calls of a delete loop are one single-id list per candidate. */
  lemma {:induction false} DeleteEachIdLists(cs: seq<Candidate>, delete: DeleteService)
    ensures DeletedIdLists(DeleteEach(cs, delete).calls) == SingletonIdLists(cs)
    decreases |cs|
  {
    if cs != [] {
      var calls := DeleteEach(cs, delete).calls;
      DeleteEachIdLists(cs[1..], delete);
      assert calls == [DeleteRegistries([cs[0].id])] + DeleteEach(cs[1..], delete).calls;
      assert calls[1..] == DeleteEach(cs[1..], delete).calls;
    }
  }

  /** Nothing is deleted unless the operator answered "y" or "Y"; then every
      candidate is deleted once, on its own, in listing order, whatever the
      delete answers are. */
  lemma CleanupDeletesIffConfirmed(env: FalconEnv)
    ensures DeletedIdLists(CleanupRegistries(env).calls)
         == if env.answer == Some("y") || env.answer == Some("Y") then SingletonIdLists(CandidatesOf(env)) else []
  {
    var prefix := [ListRegistryIds] + ReadsOf(env) + (if CandidatesOf(env) != [] then [AskConfirmation] else []);
    CleanupTrace(env);
    CleanupPrefixDeletesNothing(env);
    DeletedIdListsAppend(prefix, DeletesOf(env));
    if env.answer.Some? {
      LowerIsY(env.answer.value);
    }
    if ConfirmedRemoval(env) {
      DeleteEachIdLists(CandidatesOf(env), env.delete);
    } else {
      assert DeletesOf(env) == [];
    }
  }

  /** Only listed Google Artifact Registry entries are ever deleted, one per call. */
  lemma CleanupDeletesOnlyGar(env: FalconEnv, l: seq<string>)
    requires DeleteRegistries(l) in CleanupRegistries(env).calls
    ensures env.listing.IdListing? && |l| == 1 && l[0] in env.listing.ids
    ensures GarEntry(env.detail(l[0])).Some?
  {
    CleanupDeletesIffConfirmed(env);
    assert l in DeletedIdLists(CleanupRegistries(env).calls);
    var cs := CandidatesOf(env);
    var i :| 0 <= i < |cs| && SingletonIdLists(cs)[i] == l;
    assert cs[i] in cs;
  }

  /** The operator is asked exactly when some listed entity is a Google
      Artifact Registry; the listing is requested first in every case. */
  lemma CleanupAsksIffCandidates(env: FalconEnv)
    ensures var calls := CleanupRegistries(env).calls;
      calls[0] == ListRegistryIds && (AskConfirmation in calls <==> CandidatesOf(env) != [])
  {
    var calls := CleanupRegistries(env).calls;
    var ask := if CandidatesOf(env) != [] then [AskConfirmation] else [];
    CleanupTrace(env);
    ReadsOfReads(env, ReadsOf(env));
    DeletesOfDeletes(env, DeletesOf(env));
    assert calls == [ListRegistryIds] + ReadsOf(env) + ask + DeletesOf(env);
    assert calls[0] == ListRegistryIds;
  }

  /** A failed, raising or empty id listing ends the cleanup after the listing
      request: no detail is read, no one is asked, nothing is deleted. */
  lemma CleanupListingStops(env: FalconEnv)
    requires env.listing.ListingRaised? || env.listing.status != StatusOk || env.listing.ids == []
    ensures CleanupRegistries(env).calls == [ListRegistryIds]
    ensures CleanupRegistries(env).end ==
      if env.listing.ListingRaised? then Raised(env.listing.message)
      else if env.listing.status != StatusOk then ListingFailed
      else NoRegistries
  {
  }

  /** When deleting, every candidate gets a reported outcome, in order, and it
      is a success exactly when Falcon answered the delete with status 200. */
  lemma CleanupReportsEachCandidate(env: FalconEnv)
    requires CleanupRegistries(env).end.Cleaned?
    ensures var removals := CleanupRegistries(env).end.removals; var cs := CandidatesOf(env);
      |removals| == |cs|
      && forall i :: 0 <= i < |cs| ==>
        removals[i].candidate == cs[i] && (removals[i].Removed? <==> env.delete(cs[i].id) == DeleteAnswered(StatusOk))
  {
  }

  // ---------------------------------------------------------------------------
  // Service-account cleanup
  // ---------------------------------------------------------------------------

  /** The outcome of one `gcloud` command: it raised, or it exited with a code
      and printed something. */
  datatype Command = CommandRaised(message: string) | Exited(code: int, stdout: string)

  /** How the service-account cleanup ended; every failure is caught here. */
  datatype AccountEnd =
    | AccountListFailed      // the listing exited non-zero
    | AccountAbsent          // the account is not among the listed e-mails
    | AccountRemoved
    | AccountRemoveFailed    // the delete exited non-zero
    | AccountError(message: string)  // a command raised

  /** The calls the service-account cleanup issued and how it ended. */
  datatype AccountRun = AccountRun(calls: seq<Call>, end: AccountEnd)

  /** `cleanup_service_account` for the default account name: list the
      project's accounts one e-mail per line and delete ours when it is one of
      those lines. */
  function CleanupServiceAccount(project: string, listed: Command, deleted: Command): AccountRun {
    var email := ServiceAccountEmail(ScannerAccountName, project);
    var listCall := [ListServiceAccounts(project)];
    match listed
    case CommandRaised(message) => AccountRun(listCall, AccountError(message))
    case Exited(code, out) =>
      if code != 0 then AccountRun(listCall, AccountListFailed)
      else if email !in SplitLines(out) then AccountRun(listCall, AccountAbsent)
      else
        var calls := listCall + [DeleteServiceAccount(email, project)];
        match deleted
        case CommandRaised(message) => AccountRun(calls, AccountError(message))
        case Exited(dcode, _) => AccountRun(calls, if dcode == 0 then AccountRemoved else AccountRemoveFailed)
  }

  /** The account is listed in the project in every case, and deleted exactly
      when the listing succeeded and one of its lines is the account's e-mail;
      no other account is deleted. */
  lemma CleanupServiceAccountDeletesIffListed(project: string, listed: Command, deleted: Command)
    ensures var run := CleanupServiceAccount(project, listed, deleted);
      var email := ServiceAccountEmail(ScannerAccountName, project);
      && run.calls[0] == ListServiceAccounts(project)
      && (forall c :: c in run.calls && c.DeleteServiceAccount? ==> c == DeleteServiceAccount(email, project))
      && (DeleteServiceAccount(email, project) in run.calls
          <==> listed.Exited? && listed.code == 0 && email in SplitLines(listed.stdout))
  {
  }

  /** For a listing that prints one e-mail per line, the account is deleted
      exactly when its e-mail is one of them. */
  lemma CleanupServiceAccountOfListing(project: string, emails: seq<string>, deleted: Command)
    requires forall k :: 0 <= k < |emails| ==> IsLine(emails[k])
    ensures var email := ServiceAccountEmail(ScannerAccountName, project);
      DeleteServiceAccount(email, project) in CleanupServiceAccount(project, Exited(0, Unlines(emails)), deleted).calls
      <==> email in emails
  {
    SplitLinesUnlines(emails);
    CleanupServiceAccountDeletesIffListed(project, Exited(0, Unlines(emails)), deleted);
  }

  /** The account deleted is the one whose key provisioning mints. */
  lemma CleanupServiceAccountTargetsScanner(project: string, listed: Command, deleted: Command, c: Call)
    requires c in CleanupServiceAccount(project, listed, deleted).calls && c.DeleteServiceAccount?
    ensures c.account == ServiceAccountEmail(ScannerAccountName, project) && c.project == project
  {
    CleanupServiceAccountDeletesIffListed(project, listed, deleted);
  }

  // ---------------------------------------------------------------------------
  // The --deprovision branch of main
  // ---------------------------------------------------------------------------

  /** The collaborators of one deprovisioning run, as data. */
  datatype DeprovisionEnv = DeprovisionEnv(
    hostProject: string,
    falcon: FalconEnv,
    listed: Command,     // `gcloud iam service-accounts list`
    deleted: Command)    // `gcloud iam service-accounts delete`

  /** The calls a deprovisioning run issued, how the Falcon side ended, and how
      the account cleanup ended when it ran. */
  datatype DeprovisionRun = DeprovisionRun(calls: seq<Call>, registries: CleanupEnd, account: Option<AccountEnd>)

  /** Registry cleanup, then account cleanup; an exception escaping the
      registry cleanup ends `main` before the account is looked at. */
  function RunDeprovision(env: DeprovisionEnv): DeprovisionRun {
    var f := CleanupRegistries(env.falcon);
    if f.end.Raised? then DeprovisionRun(f.calls, f.end, None)
    else
      var a := CleanupServiceAccount(env.hostProject, env.listed, env.deleted);
      DeprovisionRun(f.calls + a.calls, f.end, Some(a.end))
  }

  /** The account cleanup runs exactly when the registry cleanup returned;
      it runs after it, whether or not the operator confirmed, and whatever
      the registry cleanup found. */
  lemma DeprovisionCleansAccountUnlessRaised(env: DeprovisionEnv)
    ensures var run := RunDeprovision(env); var f := CleanupRegistries(env.falcon);
      && run.calls[..|f.calls|] == f.calls
      && (ListServiceAccounts(env.hostProject) in run.calls <==> !f.end.Raised?)
      && (run.account.Some? <==> !f.end.Raised?)
  {
    var f := CleanupRegistries(env.falcon);
    var run := RunDeprovision(env);
    assert ListServiceAccounts(env.hostProject) !in f.calls by {
      if ListServiceAccounts(env.hostProject) in f.calls {
        CleanupCallsAreRegistryCalls(env.falcon, ListServiceAccounts(env.hostProject));
      }
    }
    if !f.end.Raised? {
      var a := CleanupServiceAccount(env.hostProject, env.listed, env.deleted);
      assert run.calls[|f.calls|] == a.calls[0];
    }
  }

  /** Declining the prompt (or never reaching it) deletes no registry, yet the
      service account is still listed and, when present, deleted. */
  lemma DeprovisionDeclinedStillCleansAccount(env: DeprovisionEnv)
    requires env.falcon.listing.IdListing?
    requires env.falcon.answer.Some? && !(env.falcon.answer == Some("y") || env.falcon.answer == Some("Y"))
    ensures DeletedIdLists(RunDeprovision(env).calls) == []
    ensures ListServiceAccounts(env.hostProject) in RunDeprovision(env).calls
  {
    var f := CleanupRegistries(env.falcon);
    var a := CleanupServiceAccount(env.hostProject, env.listed, env.deleted);
    DeclinedDoesNotRaise(env.falcon);
    DeprovisionSplit(env, RunDeprovision(env), f, a);
    CleanupDeletesIffConfirmed(env.falcon);
    AccountCalls(env.hostProject, env.listed, env.deleted, a);
    DeletesThenAccount(RunDeprovision(env).calls, f.calls, a.calls, env.hostProject);
  }

  /** A delete-free registry trace followed by an account cleanup that starts
      by listing the accounts deletes no registry and lists the accounts. */
  lemma DeletesThenAccount(calls: seq<Call>, registryCalls: seq<Call>, accountCalls: seq<Call>, project: string)
    requires calls == registryCalls + accountCalls && DeletedIdLists(registryCalls) == []
    requires forall c :: c in accountCalls ==> c.ListServiceAccounts? || c.DeleteServiceAccount?
    requires |accountCalls| >= 1 && accountCalls[0] == ListServiceAccounts(project)
    ensures DeletedIdLists(calls) == [] && ListServiceAccounts(project) in calls
  {
    NoDeleteCalls(accountCalls);
    DeletedIdListsAppend(registryCalls, accountCalls);
    assert calls[|registryCalls|] == accountCalls[0];
  }

  /** A run whose registry cleanup returned is that cleanup followed by the
      account cleanup. */
  lemma DeprovisionTrace(env: DeprovisionEnv)
    requires !CleanupRegistries(env.falcon).end.Raised?
    ensures RunDeprovision(env).calls
         == CleanupRegistries(env.falcon).calls + CleanupServiceAccount(env.hostProject, env.listed, env.deleted).calls
  {
  }

  /** With a reply at hand, the registry cleanup raises only when the listing did. */
  lemma DeclinedDoesNotRaise(env: FalconEnv)
    requires env.answer.Some?
    ensures CleanupRegistries(env).end.Raised? <==> env.listing.ListingRaised?
  {
  }

  /** The registry cleanup raises exactly when the id listing raised, or
      when there were candidates and the prompt found no input; in the latter
      case it ends with the end-of-input error. */
  lemma CleanupRaises(env: FalconEnv)
    ensures CleanupRegistries(env).end.Raised?
      <==> env.listing.ListingRaised? || (CandidatesOf(env) != [] && env.answer.None?)
    ensures !env.listing.ListingRaised? && CandidatesOf(env) != [] && env.answer.None?
      ==> CleanupRegistries(env).end == Raised(EndOfInput)
  {
  }

  /** Deprovisioning never creates, grants or mints anything. */
  lemma DeprovisionCreatesNothing(env: DeprovisionEnv, c: Call)
    requires c in RunDeprovision(env).calls
    ensures !c.CreateRegistry? && !c.GrantRole? && !c.CreateKey? && !c.ListRepositories?
  {
    var f := CleanupRegistries(env.falcon);
    var a := CleanupServiceAccount(env.hostProject, env.listed, env.deleted);
    DeprovisionSplit(env, RunDeprovision(env), f, a);
    if c in f.calls {
      CleanupCallsAreRegistryCalls(env.falcon, c);
    } else {
      AccountCalls(env.hostProject, env.listed, env.deleted, a);
    }
  }

  /** A run's calls are the registry cleanup's, followed by the account
      cleanup's unless the former raised. */
  lemma DeprovisionSplit(env: DeprovisionEnv, run: DeprovisionRun, f: CleanupRun, a: AccountRun)
    requires run == RunDeprovision(env) && f == CleanupRegistries(env.falcon)
    requires a == CleanupServiceAccount(env.hostProject, env.listed, env.deleted)
    ensures run.calls == if f.end.Raised? then f.calls else f.calls + a.calls
  {
  }

  /** The account cleanup only lists and deletes service accounts. */
  lemma AccountCalls(project: string, listed: Command, deleted: Command, a: AccountRun)
    requires a == CleanupServiceAccount(project, listed, deleted)
    ensures forall c :: c in a.calls ==> c.ListServiceAccounts? || c.DeleteServiceAccount?
    ensures |a.calls| >= 1 && a.calls[0] == ListServiceAccounts(project)
  {
  }
}
