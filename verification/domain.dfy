/** The entities the reconciliation workflow passes between the cloud account,
    the service-account tooling and the Falcon registry-registration service,
    and the trace of collaborator calls a workflow issues. */
module Domain {
  import opened Wrappers

  /** A discovered Artifact Registry repository (the `registry_info` record). */
  datatype Registry = Registry(
    name: string,          // full resource path returned by the listing
    projectId: string,     // project being iterated
    location: string,      // region being iterated
    repositoryId: string)  // last `/`-separated segment of `name`

  /** The fields of the minted key file that the registration payload copies;
      each is absent when the key file lacks it (`key.get(field)`). */
  datatype ServiceAccountKey = ServiceAccountKey(
    privateKeyId: Option<string>,
    privateKey: Option<string>,
    clientEmail: Option<string>,
    clientId: Option<string>,
    projectId: Option<string>)

  /** `credential.details.service_account_json` of a registration payload. */
  datatype ServiceAccountJson = ServiceAccountJson(
    accountType: string,
    privateKeyId: Option<string>,
    privateKey: Option<string>,
    clientEmail: Option<string>,
    clientId: Option<string>,
    projectId: Option<string>)

  /** `credential.details` of a registration payload. */
  datatype CredentialDetails = CredentialDetails(
    projectId: string,
    scopeName: string,
    serviceAccountJson: ServiceAccountJson)

  /** `credential` of a registration payload. */
  datatype Credential = Credential(details: CredentialDetails)

  /** The body of one Falcon `create_registry_entities` request. */
  datatype Payload = Payload(
    registryType: string,
    url: string,
    urlUniquenessKey: string,
    userDefinedAlias: string,
    credential: Credential)

  /** One call the workflow issues to a collaborator, in issue order. */
  datatype Call =
    | ListRepositories(project: string, location: string)  // Artifact Registry, one region
    | CreateKey(project: string, account: string)           // mint a service-account key
    | GrantRole(project: string, member: string, role: string)
    | CreateRegistry(payload: Payload)                       // Falcon create
    | ListRegistryIds                                        // Falcon list of ids
    | ReadRegistry(id: string)                               // Falcon detail by id
    | AskConfirmation                                        // operator prompt
    | DeleteRegistries(ids: seq<string>)                     // Falcon delete
    | ListServiceAccounts(project: string)
    | DeleteServiceAccount(account: string, project: string)

  /** Default name of the scanner's service account. */
  const ScannerAccountName: string := "crowdstrike-registry-scanner"

  /** The service account's e-mail address, derived from its name and project. */
  function ServiceAccountEmail(accountName: string, project: string): string {
    accountName + "@" + project + ".iam.gserviceaccount.com"
  }

  /** Registry read access, granted first. */
  const ReaderRole: string := "roles/artifactregistry.reader"

  /** Storage object read access, granted second. */
  const ViewerRole: string := "roles/storage.objectViewer"

  /** The status code Falcon uses for success; every other code is a failure. */
  const StatusOk: int := 200

  /** No element of `s` occurs twice. */
  predicate Distinct<T(==)>(s: seq<T>) {
    forall i, j :: 0 <= i < j < |s| ==> s[i] != s[j]
  }

  /** Concatenation is associative (stated once, so proofs can cite it in a small context). */
  lemma ConcatAssoc<T>(x: seq<T>, y: seq<T>, z: seq<T>)
    ensures x + (y + z) == (x + y) + z
  {
  }

  /** Number of occurrences of `x` in `s`. */
  function Count<T(==)>(s: seq<T>, x: T): (n: nat)
    ensures n <= |s|
    ensures n == 0 <==> x !in s
  {
    if s == [] then 0 else (if s[0] == x then 1 else 0) + Count(s[1..], x)
  }

  /** An element that occurs once, between two stretches free of it, is
      counted once and found right after the first stretch. */
  lemma CountOnce<T>(s: seq<T>, before: seq<T>, x: T, after: seq<T>)
    requires s == before + [x] + after && x !in before && x !in after
    ensures |before| < |s| && s[..|before|] == before && s[|before|] == x && Count(s, x) == 1
  {
    CountAppend(before, [x], x);
    CountAppend(before + [x], after, x);
  }

  /** Only the middle stretch counts when `x` occurs nowhere else. */
  lemma CountMiddle<T>(s: seq<T>, before: seq<T>, y: T, middle: seq<T>, after: seq<T>, x: T)
    requires s == before + [y] + (middle + after) && x !in before && x != y && x !in after
    ensures Count(s, x) == Count(middle, x)
  {
    CountAppend(before, [y], x);
    CountAppend(before + [y], middle + after, x);
    CountAppend(middle, after, x);
  }

  /** The last `|tail|` elements of `prefix + (middle + tail)` are `tail`. */
  lemma EndsWith<T>(s: seq<T>, prefix: seq<T>, middle: seq<T>, tail: seq<T>)
    requires s == prefix + (middle + tail)
    ensures |tail| <= |s| && forall i :: 0 <= i < |tail| ==> s[|s| - |tail| + i] == tail[i]
  {
    forall i | 0 <= i < |tail| ensures s[|s| - |tail| + i] == tail[i] {
      assert s[|prefix| + |middle| + i] == (middle + tail)[|middle| + i];
    }
  }

  /** `Count` distributes over concatenation. */
  lemma {:induction false} CountAppend<T>(a: seq<T>, b: seq<T>, x: T)
    ensures Count(a + b, x) == Count(a, x) + Count(b, x)
    decreases |a|
  {
    if a == [] {
      assert a + b == b;
    } else {
      assert (a + b)[0] == a[0] && (a + b)[1..] == a[1..] + b;
      CountAppend(a[1..], b, x);
    }
  }

  /** The id lists of the Falcon delete calls in a trace, in order. */
  function DeletedIdLists(calls: seq<Call>): (lists: seq<seq<string>>)
    ensures forall l :: l in lists <==> DeleteRegistries(l) in calls
  {
    if calls == [] then []
    else (if calls[0].DeleteRegistries? then [calls[0].ids] else []) + DeletedIdLists(calls[1..])
  }

  /** `DeletedIdLists` distributes over concatenation. */
  lemma {:induction false} DeletedIdListsAppend(a: seq<Call>, b: seq<Call>)
    ensures DeletedIdLists(a + b) == DeletedIdLists(a) + DeletedIdLists(b)
    decreases |a|
  {
    if a == [] {
      assert a + b == b;
    } else {
      assert (a + b)[0] == a[0] && (a + b)[1..] == a[1..] + b;
      DeletedIdListsAppend(a[1..], b);
    }
  }

  /** The payloads of the Falcon create calls in a trace, in order. */
  function CreatedPayloads(calls: seq<Call>): (payloads: seq<Payload>)
    ensures forall p :: p in payloads <==> CreateRegistry(p) in calls
  {
    if calls == [] then []
    else (if calls[0].CreateRegistry? then [calls[0].payload] else []) + CreatedPayloads(calls[1..])
  }

  /** `CreatedPayloads` distributes over concatenation. */
  lemma {:induction false} CreatedPayloadsAppend(a: seq<Call>, b: seq<Call>)
    ensures CreatedPayloads(a + b) == CreatedPayloads(a) + CreatedPayloads(b)
    decreases |a|
  {
    if a == [] {
      assert a + b == b;
    } else {
      assert (a + b)[0] == a[0] && (a + b)[1..] == a[1..] + b;
      CreatedPayloadsAppend(a[1..], b);
    }
  }

  /** A trace without create calls carries no payloads. */
  lemma NoCreatedPayloads(calls: seq<Call>)
    requires forall c :: c in calls ==> !c.CreateRegistry?
    ensures CreatedPayloads(calls) == []
  {
  }
}
