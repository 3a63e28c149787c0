# Registry reconciliation between Artifact Registry and Falcon

This project models the reconciliation workflow of `register_registries.py`.
The script connects the Google Cloud Artifact Registry repositories of every
accessible project to the CrowdStrike Falcon container-registry scanner, and
removes them again.

Every collaborator becomes input data:

- the project search result;
- the per-region repository listing;
- the key mint;
- the role grantor;
- the Falcon create, list, detail and delete answers;
- the operator's reply;
- the two `gcloud` account commands.

Each workflow is then a pure function from those answers to a trace of issued
calls (`Domain.Call`) and an outcome.

Modules:

- `Wrappers`: `Option` and `Result`.
- `Text`: the string operations the script relies on. These are substring
  search, `split('/')`, `splitlines()` and `lower()`.
- `Domain`: descriptors, payload records, the `Call` trace and counting helpers.
- `Discovery`: `list_gcp_registries`. It covers the region loop, the
  break/continue rule for listing errors and the descriptor for each repository.
- `Registration`: the create payload, the create loop of
  `register_with_falcon` and the summary arithmetic.
- `Provision`: `grant_required_roles` and `provision_registries`. It includes
  a reference definition of the grant loop: one pass per distinct project, in
  order of first appearance.
- `Deprovision`: `cleanup_falcon_registries`, `cleanup_service_account` and the
  `--deprovision` branch of `main`.
- `Scenarios`: concrete runs derived from the general lemmas.

Points where the code's behaviour is easy to misread, which the model
follows as written:

- Declining the confirmation prompt only returns from
  `cleanup_falcon_registries`. `main` still runs the service-account cleanup.
  An exception escaping the registry cleanup ends `main` before the account
  cleanup. Examples are a raised id listing, or no input at the prompt.
- A failed id listing is not fatal. The function returns and the account
  cleanup still runs.
- Each delete request carries a single id, so deletes are not batched.
- Discovery output is ordered: project-major, region-minor, and in listing
  order within a region. It can hold duplicates when the project search
  repeats a project.

## Model

| member | source | states |
|---|---|---|
| Text.Contains | register_registries.py:214 | Python's `needle in hay` for strings: true exactly when the needle occurs at some offset |
| Text.Split | register_registries.py:208 | `split('/')` returns at least one part, no part contains the separator, and joining the parts with the separator gives back the input |
| Text.SplitJoin | register_registries.py:208 | splitting a separator-joined list of separator-free parts gives back that list |
| Text.SplitAround | register_registries.py:208 | splitting at one separator occurrence splits each side independently |
| Text.LastSegmentIsFinalComponent | register_registries.py:208 | `split('/')[-1]` contains no `/` and is a suffix of the name that is either the whole name or preceded by `/` |
| Text.LastSegmentOfPath | register_registries.py:208 | the last segment of `prefix/leaf` is `leaf` when `leaf` has no `/` |
| Text.SplitLines | register_registries.py:96 | every element that `splitlines()` produces is a line free of line-boundary characters |
| Text.SplitLinesUnlines | register_registries.py:96 | `splitlines()` of newline-terminated lines gives back exactly those lines |
| Text.LineLengthAtBoundary | register_registries.py:96 | the first line of a text ends at its first line-boundary character |
| Text.SplitLinesBreak | register_registries.py:96 | `splitlines()` of a line, one boundary (any of Python's ten boundary characters, or `\r\n` taken together) and the rest is that line followed by the lines of the rest |
| Text.SplitLinesOfLine | register_registries.py:96 | `splitlines()` of a boundary-free text is that text as its single line, and of the empty text is no line |
| Text.Lower | register_registries.py:63 | `lower()` keeps the length and lowercases each character |
| Text.LowerIsY | register_registries.py:63 | a reply lowercases to `y` exactly when it is `y` or `Y` |
| Domain.Count | register_registries.py:286-290 | occurrence count; bounded by the length, and zero exactly when the element is absent; used for the exactly-once properties at these lines |
| Domain.CountAppend | register_registries.py:286-290 | general helper used to state the "exactly once" property of these lines: occurrence counts add over concatenation of traces |
| Domain.DeletedIdLists | register_registries.py:71 | a list of ids appears among the extracted delete payloads exactly when a delete call with that list is in the trace |
| Domain.CreatedPayloads | register_registries.py:257 | a payload appears among the extracted create payloads exactly when a create call with that payload is in the trace |
| Domain.CreatedPayloadsAppend | register_registries.py:233-257 | the create payloads of a concatenated trace are those of each part, in order |
| Domain.DeletedIdListsAppend | register_registries.py:67-78 | the delete payloads of a concatenated trace are those of each part, in order |
| Discovery.Classify | register_registries.py:213-221 | an error is ServiceDisabled exactly when its text contains `SERVICE_DISABLED`, and PermissionDenied exactly when it contains `PERMISSION_DENIED` but not `SERVICE_DISABLED`; the first test wins |
| Discovery.Describe | register_registries.py:204-209 | the descriptor of one repository: its full name, the project and region being iterated, and the last `/` segment of the name as repository id |
| Discovery.Discover | register_registries.py:178-223 | `list_gcp_registries`: the region scan of every searched project in order, concatenating descriptors and listing calls |
| Discovery.DescribeAllAt | register_registries.py:203-210 | the k-th descriptor of a region is built from the k-th repository name |
| Discovery.FoundMember | register_registries.py:203-210 | every descriptor of a region names the project and region being iterated, has the last `/` segment of its name as repository id, and comes from a listed name |
| Discovery.FoundComplete | register_registries.py:203-210 | every repository name a region lists yields its descriptor |
| Discovery.ScanRegions | register_registries.py:197-221 | the region loop issues at most one listing per region |
| Discovery.ScanRegionsCalls | register_registries.py:195-201 | the j-th listing issued for a project is for the j-th region of the fixed list |
| Discovery.ScanRegionsStops | register_registries.py:213-221 | the loop stops right after the first region whose error contains `SERVICE_DISABLED` or `PERMISSION_DENIED`, and otherwise probes every region; an ordinary error skips only its region |
| Discovery.ScanRegionsStop | register_registries.py:213-219 | a project-wide error in the first region yields one listing call and no descriptors |
| Discovery.ScanRegionsStep | register_registries.py:197-221 | any other first outcome contributes its region's descriptors, then the loop goes on with the remaining regions |
| Discovery.ScanRegionsSound | register_registries.py:197-210 | every descriptor comes from a name listed in a probed region of that project, with the project id, that region and the last segment as repository id |
| Discovery.ScanRegionsComplete | register_registries.py:197-221 | every repository listed in a probed region is reported |
| Discovery.ScanRegionsFoundInOrder | register_registries.py:197-210 | the descriptors are exactly those of the probed regions, region after region, each in listing order |
| Discovery.RestAvoidsFirstRegion | register_registries.py:197-207 | after the first region, no descriptor carries the first region's name, given distinct regions |
| Discovery.Rank | register_registries.py:195 | general helper used to state the region order of this list: the position of a region in the fixed list is the index of its first occurrence |
| Discovery.ScanRegionsRegionMinor | register_registries.py:197-210 | within a project, descriptors appear in the order of the fixed region list |
| Discovery.FoundAtRegion | register_registries.py:207 | every descriptor of a region records that region |
| Discovery.DiscoverSound | register_registries.py:190-210 | every discovered descriptor belongs to a searched project and a fixed region, and comes from a name listed there |
| Discovery.DiscoverCalls | register_registries.py:190-201 | discovery issues only repository listings, for searched projects and fixed regions |
| Discovery.DiscoverAppend | register_registries.py:190-221 | discovery is project-major: the result and trace for two project lists are those for each list, concatenated |
| Discovery.EveryProjectProbed | register_registries.py:190-219 | a project-wide error only ends its own project: every searched project gets its first region probed |
| Discovery.ScanRegionsDependsOnlyOnProject | register_registries.py:197-221 | a project's descriptors depend only on that project's listings |
| Discovery.LocationsDistinct | register_registries.py:195 | there are five regions and they are distinct |
| Discovery.RepeatedProjectRepeatsDescriptors | register_registries.py:183-210 | a project searched twice that has a repository yields duplicate descriptors: discovery does not de-duplicate |
| Registration.BuildPayload | register_registries.py:235-254 | the create request for one registry: type `gar`, URL `https://<location>-docker.pkg.dev/`, uniqueness key `<project>/<repository>`, alias `GAR-<project>-<repository>`, credential project and scope, and the five key fields copied as they are |
| Registration.UrlLocationRoundTrip | register_registries.py:237 | the registry URL `https://<location>-docker.pkg.dev/` gives back its location |
| Registration.UrlLocationCanonical | register_registries.py:237 | any URL the parser accepts is the URL of the location it returns |
| Registration.KeyPartsRoundTrip | register_registries.py:238 | the uniqueness key `<project>/<repository>` gives back both parts when the project id has no `/` |
| Registration.KeyPartsCanonical | register_registries.py:238 | any key the parser accepts is the uniqueness key of the parts it returns |
| Registration.PayloadRoundTrip | register_registries.py:235-254 | the payload has type `gar`, scope = repository id, and credential project = project id; location, project and repository are recovered from it; the five key fields are copied as they are |
| Registration.PayloadCanonical | register_registries.py:235-254 | every payload from which a target can be recovered is the payload built for that target and the embedded key |
| Registration.UniquenessKeyInjective | register_registries.py:238 | for `/`-free project ids, equal uniqueness keys mean the same project and repository |
| Registration.UniquenessKeyIgnoresLocation | register_registries.py:236-239 | the same repository in two regions gets the same uniqueness key and alias, and different URLs |
| Registration.AliasAmbiguous | register_registries.py:238-239 | two different repositories can share an alias while their uniqueness keys differ |
| Registration.RegisterAll | register_registries.py:232-263 | one create per registry, in order, each with that registry's payload; one result per registry with its name and Falcon's status and errors |
| Registration.PayloadsForAt | register_registries.py:233-254 | the k-th expected payload is the one built for the k-th registry |
| Registration.RegisterAllPayloads | register_registries.py:233-257 | the create loop sends exactly the registries' payloads, in order, and no other create request |
| Registration.RegisterAllIsolated | register_registries.py:233-268 | the create calls do not depend on Falcon's answers: a failure does not stop the loop |
| Registration.Summarize | register_registries.py:297-307 | the summary: total, the number of results with status 200, failed as total minus that number, and the non-200 results in order |
| Registration.SucceededPlusFailures | register_registries.py:297-307 | successes plus failures is the number of results, and the failures are exactly the results whose status is not 200 |
| Registration.SummaryBalanced | register_registries.py:297-307 | with one result per registry, succeeded + failed = total, failed ≥ 0, the failure listing is exactly the non-200 results, and nothing failed exactly when every status is 200 |
| Provision.GrantRequiredRoles | register_registries.py:155-176 | `grant_required_roles`: the grant loop over the reader role, then the viewer role |
| Provision.GrantPasses | register_registries.py:286-290 | the grant loop: walks the registries and runs one pass for each project not yet processed, adding it to the processed set |
| Provision.ProvisionRegistries | register_registries.py:272-307 | `provision_registries`: discovery; stop when nothing was found; one mint; stop when it failed; the grant loop; the create loop; the summary over all registries |
| Provision.GrantEach | register_registries.py:163-176 | each role is granted in order, and each outcome records whether that grant succeeded; a failed grant does not stop the next |
| Provision.GrantRequiredRolesCalls | register_registries.py:157-172 | a pass always issues the reader grant, then the viewer grant, whatever their outcomes |
| Provision.ProjectIds | register_registries.py:288 | the project of every registry, in order |
| Provision.FirstOccurrencesDistinct | register_registries.py:286-290 | the first-appearance list of projects is duplicate-free and has the same members as the project list |
| Provision.GrantPassesFollowFirstOccurrences | register_registries.py:286-290 | the grant loop issues exactly one pass per distinct project, in order of first appearance |
| Provision.CountAllPassCalls | register_registries.py:157-172 | across passes, a required role is granted in a project as often as that project has a pass, and any other role never |
| Provision.GrantPassesOncePerProject | register_registries.py:286-290 | each required role is granted exactly once in each project that has a registry, and never elsewhere |
| Provision.GrantPassesIsolated | register_registries.py:175-176 | grant failures do not change which grants are issued |
| Provision.NoKeyInGrantPasses | register_registries.py:286-290 | the grant loop issues only role grants |
| Provision.ProvisionNothingFound | register_registries.py:275-278 | when discovery finds nothing, the run ends after discovery: no key mint, no grant, no create |
| Provision.ProvisionTrace | register_registries.py:275-293 | a run that found registries is discovery, one mint, and what follows it |
| Provision.ProvisionMintsOnce | register_registries.py:283 | a run that found registries mints exactly one key, for the scanner account of the host project, right after discovery |
| Provision.ProvisionCredentialFailure | register_registries.py:283 | when the key cannot be obtained, the run stops after the mint: no grant, no create |
| Provision.ProvisionCreatesEach | register_registries.py:293 | the run ends with one create per discovered registry, in discovery order, each carrying that registry's payload |
| Provision.ProvisionCreatedPayloads | register_registries.py:275-293 | the run's create requests are exactly one per discovered registry, in discovery order, with that registry's payload, when registries were found and the key was obtained, and there are none otherwise |
| Provision.ProvisionReportsEach | register_registries.py:259-307 | one result per registry, in order, with its name and Falcon's status, and the summary balances over all registries |
| Provision.ProvisionGrantsOncePerProject | register_registries.py:286-290 | in the whole run, each required role is granted exactly once in each project that has a registry, and never in any other project |
| Provision.ProvisionGrantFailuresIsolated | register_registries.py:175-293 | grant failures change nothing about the calls of the run: creates still follow |
| Deprovision.CleanupRegistries | register_registries.py:9-80 | `cleanup_falcon_registries`: the id listing, its three early returns, the detail loop, the prompt, then the delete loop only on confirmation; an escaping exception ends as `Raised` |
| Deprovision.Confirms | register_registries.py:63 | the reply confirms when it lowercases to `y` |
| Deprovision.CleanupServiceAccount | register_registries.py:82-113 | `cleanup_service_account`: list the accounts; on exit code 0 with the scanner's e-mail among the output lines, delete it; every failure is caught and reported |
| Deprovision.RunDeprovision | register_registries.py:324-327 | the `--deprovision` branch: registry cleanup, then account cleanup unless an exception escaped |
| Deprovision.GarEntry | register_registries.py:39-41 | an answer describes a Google Artifact Registry exactly when it has status 200 and its first resource has type `gar` |
| Deprovision.SelectGar | register_registries.py:31-51 | one detail read per listed id, in order; every candidate is a listed id whose entity is `gar`, with alias and URL taken from it or `Unknown` |
| Deprovision.CandidateIds | register_registries.py:42-46 | the ids of the candidates, in order |
| Deprovision.SelectGarCount | register_registries.py:31-51 | an id is a candidate as often as it is listed when its entity is `gar`, and never otherwise; ids whose read raised or failed are skipped |
| Deprovision.CandidateIdsAppend | register_registries.py:42-46 | candidate ids distribute over concatenation |
| Deprovision.SelectGarInOrder | register_registries.py:33-46 | candidates keep listing order: their ids form a subsequence of the listed ids |
| Deprovision.DeleteEach | register_registries.py:68-78 | one single-id delete per candidate, in order; a candidate counts as removed exactly when its delete answered 200; a failed or raising delete does not stop the loop |
| Deprovision.CleanupTrace | register_registries.py:19-78 | the cleanup trace is the id listing, the detail reads, the prompt when there are candidates, then the deletes |
| Deprovision.CleanupPrefixDeletesNothing | register_registries.py:19-65 | nothing before the confirmation deletes anything |
| Deprovision.CleanupCallsAreRegistryCalls | register_registries.py:9-80 | the registry cleanup only talks to Falcon and the operator |
| Deprovision.SingletonIdLists | register_registries.py:71 | each delete carries the one-element id list of its candidate |
| Deprovision.DeleteEachIdLists | register_registries.py:68-71 | the delete loop's payloads are exactly the single-id lists of the candidates, in order |
| Deprovision.CleanupDeletesIffConfirmed | register_registries.py:62-78 | deletes happen only when the reply is `y` or `Y`, and then one per candidate, in order |
| Deprovision.CleanupDeletesOnlyGar | register_registries.py:39-71 | every deleted id was listed and its entity is `gar`, in a single-id request |
| Deprovision.CleanupAsksIffCandidates | register_registries.py:53-62 | the cleanup starts with the id listing and asks for confirmation exactly when there are candidates |
| Deprovision.CleanupListingStops | register_registries.py:19-27 | a raised, failed or empty id listing ends the cleanup after that one call: nothing is read, asked or deleted |
| Deprovision.CleanupReportsEachCandidate | register_registries.py:67-78 | after confirmation, every candidate is reported as removed exactly when its delete answered 200 |
| Deprovision.CleanupServiceAccountDeletesIffListed | register_registries.py:84-110 | the account listing always comes first; only the scanner account is ever deleted, and exactly when the listing exited 0 and one of its lines is the account's e-mail |
| Deprovision.CleanupServiceAccountOfListing | register_registries.py:96-98 | for a listing of e-mails one per line, the account is deleted exactly when its e-mail is among them |
| Deprovision.CleanupServiceAccountTargetsScanner | register_registries.py:84-104 | the deleted account is the scanner account of the host project |
| Deprovision.DeprovisionCleansAccountUnlessRaised | register_registries.py:324-338 | the account cleanup follows the registry cleanup exactly when no exception escaped it, whatever the registry cleanup found or the operator answered |
| Deprovision.DeprovisionDeclinedStillCleansAccount | register_registries.py:62-327 | a declined prompt deletes no registry, and the account listing still runs |
| Deprovision.DeprovisionTrace | register_registries.py:324-327 | without an escaping exception, the run is the registry cleanup's calls followed by the account cleanup's |
| Deprovision.CleanupRaises | register_registries.py:19-65 | the registry cleanup raises exactly when the id listing raised, or when there were candidates and the prompt found no input; the latter ends with the end-of-input error |
| Deprovision.DeclinedDoesNotRaise | register_registries.py:19-65 | when the operator gave a reply, the registry cleanup raises exactly when the id listing raised |
| Deprovision.DeprovisionCreatesNothing | register_registries.py:324-327 | deprovisioning never creates, grants, mints or lists repositories |
| Scenarios.DiscoverR1R2 | register_registries.py:190-221 | two repositories in one region of one project are discovered in listing order |
| Scenarios.SingleRegistryMintsOnce | register_registries.py:283 | one repository: exactly one key mint, for the host project's scanner account |
| Scenarios.SingleRegistryGrants | register_registries.py:286-290 | one repository: each required role is granted once in its project |
| Scenarios.SingleRegistryCreate | register_registries.py:233-293 | one repository: the run sends exactly one create request, for it, as its last call |
| Scenarios.R1Payload | register_registries.py:235-254 | the payload for `r1` of `p1` in `us-central1` has URL `https://us-central1-docker.pkg.dev/`, key `p1/r1`, alias `GAR-p1-r1`, type `gar`, credential project `p1` and scope `r1` |
| Scenarios.SingleRegistrySummary | register_registries.py:297-300 | one successful create: total 1, succeeded 1, failed 0 |
| Scenarios.SharedProjectGrants | register_registries.py:286-290 | two repositories in one project: still one grant per role |
| Scenarios.SharedProjectCreates | register_registries.py:233-293 | two repositories: exactly two create requests, the last two calls, in discovery order |
| Scenarios.MixedTypesScenario | register_registries.py:31-78 | of a `gar` and a non-`gar` id, with the reply `y`, exactly one delete is issued, naming only the `gar` id |

## Left out

- Printing, the JSON debug dump and every message text (lines 16-80, 85-113, 117-153, 162-176, 184-221, 256-268, 296-307, 325-332) are not modelled. Only the calls and the reported outcomes are.
- The client libraries, `FalconContainer` and `subprocess.run` are replaced by input data. This covers the project search, the repository listing, the Falcon requests and the `gcloud` commands. Their own behaviour is not modelled.
- Command-line parsing and the environment-variable check (lines 311-322) are left out, including the `ValueError` for missing variables. The model starts with the values given.
- The top-level catch (lines 334-338) appears only as an exception that ends `main`: `Raised` outcomes.
- `get_service_account_key` is modelled as one mint call whose answer is a `Result`. This leaves out the describe-or-create logic (lines 120-135) and writing, reading and removing the key file (lines 138-152). Nothing is claimed about the key file being removed.
- Discovery.ScanRegions: the paged repository listing is modelled as atomic, giving either every repository name or one exception. An error in the middle of paging, after some repositories were appended, is not modelled.
- Discovery: the project search (line 188) is an input sequence. Its own exceptions, which escape the whole run, are not modelled.
- The create loop assumes every Falcon answer has a status code and an error list. The `KeyError` raised at line 268 for a non-200 answer without a body is not modelled, nor is a raising create call (line 257).
- Provision.GrantEach: only a failing grant command (`CalledProcessError`) is modelled as a failed grant. Other exceptions from `subprocess.run` would escape and are left out.
- Deprovision.GarEntry: a 200 answer without a body, or with a `resources` value that is not a list, raises inside the `try` of lines 34-51, so the id is skipped. The model covers these answers as `DetailRaised`. A missing `resources` field and an empty resources list are modelled directly; neither yields a candidate.
- Text.Lower: lowercasing is modelled for ASCII letters only. Python's full Unicode case mapping is left out. No other character lowercases to `y` in Python, so the confirmation test is exact.
- Registration.KeyPartsRoundTrip: stated only for project ids without `/`. A uniqueness key is ambiguous when the project id contains one.
- Registration.PayloadRoundTrip: stated only for project ids without `/`, for the same reason.
- The create collaborator's answer depends on the request's position in the run and its payload. The detail and delete collaborators' answers depend only on the id. Retries and answers that change over time are not modelled.
