# The Cognito UserPool controller

A model of the resource manager of an AWS controller for one kind of resource, the Cognito
UserPool, with proofs about what it does to tags, status conditions and specs, alone and over
whole runs of reconciliations in which calls fail.

| file | about |
|---|---|
| `Nullable.dfy` | the nullable value |
| `AckTags.dfy` | the tag maps of tags.go |
| `TagRuns.dfy` | tag reconciliation on values: one pass, and any run of passes |
| `Errors.dfy`, `Conditions.dfy` | errors, and the condition list of updateConditions |
| `Shapes.dfy`, `Codec.dfy`, `Payloads.dfy` | spec and SDK types, what encoding and decoding mean, and the builders |
| `Delta.dfy`, `ResourceDelta.dfy`, `DeltaTheorems.dfy`, `DeltaPaths.dfy` | the structural comparison, as a walk over a shape and as the unrolled code, and what its paths name |
| `UpdateEffect.dfy` | which differences an update can remove |
| `UserPools.dfy` | the custom resource on the heap, its deep copy, shared status |
| `Service.dfy` | the part of the AWS API the controller calls |
| `Manager.dfy` | the resource manager |
| `Reconcile.dfy`, `CarriedRuns.dfy` | whole passes and runs on values, from the user's resource or with the status carried on |
| `Settling.dfy` | when the controller stops writing, and when it never does |
| `Passes.dfy` | passes and runs on the heap |
| `ManagerCache.dfy` | the keyed cache of managers under concurrency |

`dafny verify dfyconfig.toml` checks everything.

Code that changes things in place is modelled by methods on objects, each proved to compute a
function on values; the theorems are about these functions. A run of the tag theorems is a
sequence of passes, each with its own choice of failing calls, and of moments at which AWS
replaces its own tags.

## Assumptions

- The runtime's loop is not in this repository. A pass is taken to be EnsureTags on a deep
  copy of the user's resource, ReadOne, the comparison, Update if anything under `Spec`
  differs, and FilterSystemTags on the result. Only `Reconcile` and the modules that import it
  depend on this.
- `acktags.Merge` adds the defaults without overriding, as pkg/resource/user_pool/manager.go:281-282
  says. `MapStringStringEqual` is equality of maps and `HasNilDifference` is "exactly one is nil".
- `SliceStringPEqual` and the semantic `DeepEqual` on lists are given relations; a theorem that
  needs them reflexive or symmetric says so.
- `DifferentAt` and `DifferentExcept` match whole path components.
- `ackerr.AWSError` finds the API error that `errors.As` finds.
- A failing call changes nothing. A successful TagResource or UntagResource does what it is
  asked; UpdateUserPool stores the
  sections it is sent in the pool whose id it names, and may do anything to the others.
- Lists of pointers hold no nil elements: the loops dereference each one. SyncTags is called
  with non-nil tag values, and an update or creation that reaches it finds an ARN, for the
  code dereferences both.
- The module is built with Go 1.25 (go.mod:3), so that `&v` in a range loop is a new cell in
  every iteration; FromACKTags depends on it.
- A waiting writer of a Go RWMutex holds off new readers. The model allows those schedules and
  more, so what holds of all its interleavings holds of theirs; the step NeverDeadlocks promises
  is one the real lock allows, too.

Where comments and code differ the model follows the code. The comment on onError
(pkg/resource/user_pool/manager.go:384-385) says that it returns nil if no condition is updated;
the code returns the resource it was given. The comment on FilterSystemTags
(pkg/resource/user_pool/manager.go:312-314) asks for it after each read; a filter between the read
and the comparison would make the injected default tags differ in every pass, so it is assumed to
come after the update.

Four properties hold only under a condition, which is stated exactly, with an input for which
they fail:

- onError reports the Terminal error for terminal errors only if no Terminal condition but the
  last is True (`Conditions.TerminalReportedIff`, `Conditions.EarlierTerminalIsReported`).
- A spec can come to rest only if it is in normal form and in range (`Settling.CanSettleIff`,
  `Settling.NilFlagIsReportedForever`): a nil flag inside a section is sent again by every pass.
- Callers get managers for their account and region only if requests with one key want one
  account and region (`ManagerCache.AlwaysServedIff`, `ManagerCache.SlashServesWrongRegion`).
- A key keeps its manager only once no miss on it is in flight (`ManagerCache.StableIffDrained`,
  `ManagerCache.RacingMissesDiffer`).

## Model

| member | source | states |
|---|---|---|
| `AckTags.ConvertToOrderedACKTags` | pkg/resource/user_pool/tags.go:36-52 | The loop over a map of string pointers yields a fresh map with the same keys, nil values read as the empty string, and an empty key order. |
| `AckTags.FromACKTags` | pkg/resource/user_pool/tags.go:58-67 | The loop yields the same keys and texts behind a fresh cell per key, no cell nil and none shared by two keys. |
| `AckTags.IgnoreSystemTags` | pkg/resource/user_pool/tags.go:74-81 | Deletes in place exactly the keys with the prefix `aws:` and the system keys; every other tag keeps its value. |
| `AckTags.SyncAWSTags` | pkg/resource/user_pool/tags.go:102-108 | Writes exactly the `aws:` tags of the second map over the first; the other tags of the first stay. |
| `TagRuns.PassReachesTarget` | pkg/resource/user_pool/hook.go:23-62 | Whatever the user, default and remote tags are, a pass in which no call fails leaves exactly the target: the wanted tags with the remote's `aws:` tags over them. |
| `TagRuns.TargetIs` | pkg/resource/user_pool/manager.go:284-357 | With no `aws:` key among user and default tags, the target is the user's tags (nil read as empty), plus the defaults that do not override them, plus the remote's own `aws:` tags, and nothing else. |
| `TagRuns.TargetIsStable` | pkg/resource/user_pool/manager.go:345-357 | No pass, whichever of its calls fail, moves the target of the next one. |
| `TagRuns.QuietIffAtTarget` | pkg/resource/user_pool/hook.go:39-62 | A pass that can read makes no tag call if and only if the remote tags already are the target. |
| `TagRuns.SyncNeededIffDifferent` | pkg/resource/user_pool/hook.go:23-37 | The two loops of SyncTags both come out empty if and only if the two tag maps are equal. |
| `TagRuns.AwsKeyMentionedIff` | pkg/resource/user_pool/manager.go:345-357 | A failure-free pass sends a given `aws:` key if and only if the user or default tags hold it and the remote does not. |
| `TagRuns.GapNeverGrows` | pkg/resource/user_pool/hook.go:39-62 | Over runs of passes with any failures and any drift of the `aws:` tags, the set of keys on which remote and target disagree at a later point is contained in that of an earlier one. |
| `TagRuns.NoForeignKey` | pkg/resource/user_pool/hook.go:23-62 | No run brings a key that is not AWS's, not wanted and not on the remote from the start. |
| `TagRuns.CleanPassConverges` | pkg/resource/user_pool/manager.go:97-115 | Whatever fails before and after, one failure-free pass in a run makes its end the target, with the wanted tags exactly in place, and no event after that pass makes a tag call. |
| `TagRuns.PassAppliesItsCalls` | pkg/resource/user_pool/hook.go:39-62 | The pool ends as the calls of a pass that worked make it, one after the other; at most the last call fails. |
| `TagRuns.DeletionsWaitForAdditions` | pkg/resource/user_pool/hook.go:42-49 | If a wanted tag is not in place after a pass, the pass has removed no key and made no UntagResource call: a failing TagResource stops it. |
| `TagRuns.UntagComesLast` | pkg/resource/user_pool/hook.go:39-62 | An UntagResource is the last call of its pass, and the calls before it have put every wanted tag in place. |
| `TagRuns.NothingRemovedBeforeWanted` | pkg/resource/user_pool/hook.go:39-62 | If a wanted tag is missing at the end of a run, no pass of the run has removed a key that is not AWS's or made an UntagResource call. |
| `TagRuns.TwoHalvesConverge` | pkg/resource/user_pool/hook.go:39-62 | No failure-free pass is needed: a pass whose TagResource works and any later one whose UntagResource works reach the target, with anything in between. |
| `TagRuns.RunsSpareAwsKeys` | pkg/resource/user_pool/manager.go:345-357 | No tag call of any run, failures and drift included, mentions an `aws:` key, if the wanted tags hold none. |
| `TagRuns.OnlyAwsFreeTagsAreSafe` | pkg/resource/user_pool/manager.go:345-357 | That condition is exact: all runs from all remotes spare `aws:` keys if and only if the wanted tags hold none. |
| `TagRuns.FilterUndoesInjectIff` | pkg/resource/user_pool/manager.go:322-332 | Filtering after injecting and mirroring gives back the user's tags (nil read as empty) if and only if no user key is AWS's or a system key and every default key the user lacks is one; the remote tags do not matter. |
| `Conditions.StepEffect` | pkg/resource/user_pool/sdk.go:1722-1785 | One updateConditions: a terminal error raises the last Terminal condition with its message and leaves Recoverable alone; any other outcome clears Terminal and raises or clears Recoverable; every other type is as it was. |
| `Conditions.StepKeepsEntries` | pkg/resource/user_pool/sdk.go:1725-1785 | One step adds at most one entry, of a managed type that was missing; it keeps every entry's place, type and reason, and everything of an entry that is not the last of a managed type. |
| `Conditions.StepKeepsUnique` | pkg/resource/user_pool/sdk.go:1737-1785 | At most one condition of each type stays at most one. |
| `Conditions.OutcomeOf` | pkg/resource/user_pool/sdk.go:1736-1806 | From at most one condition per type: Terminal is True afterwards if and only if the error is a secret sentinel, wraps a terminal error or has the API code InvalidParameterException, else Recoverable is True; and the message is the error's own text or that of the API error, as the code chooses. |
| `Conditions.TouchedIff` | pkg/resource/user_pool/sdk.go:1780-1785 | updateConditions hands a copy back if and only if a Terminal, Recoverable or synced condition is there in the end. |
| `Conditions.TerminalReportedIff` | pkg/resource/user_pool/manager.go:386-406 | onError finds a True Terminal condition if and only if the error is terminal or some Terminal condition other than the last was True before: the scan of updateConditions rewrites only the last. |
| `Conditions.TerminalReportedIffUnique` | pkg/resource/user_pool/manager.go:386-406 | With at most one condition per type onError reports the Terminal error if and only if the error it was given is terminal. |
| `Conditions.EarlierTerminalIsReported` | pkg/resource/user_pool/manager.go:386-406 | Two Terminal conditions, the first True and the second not, make onError report a plain error as terminal. |
| `Conditions.TerminalAfterRun` | pkg/resource/user_pool/sdk.go:1737-1760 | After any non-empty run of outcomes the Terminal condition exists if and only if it did before or some outcome was terminal, and the last outcome alone decides its status and message. |
| `Conditions.RecoverableAfterRun` | pkg/resource/user_pool/sdk.go:1761-1779 | After any run the last outcome that was not a terminal error alone decides the Recoverable condition; if there was none it is untouched. |
| `Conditions.HistoryDecides` | pkg/resource/user_pool/sdk.go:1725-1785 | After any non-empty run from at most one condition per type, Terminal is True if and only if the last outcome was terminal, and Recoverable is True if and only if the last non-terminal outcome was an error (its initial status if there was none). |
| `Conditions.RunKeepsUnique` | pkg/resource/user_pool/sdk.go:1725-1785 | Uniqueness of condition types holds after any run. |
| `Conditions.RunKeepsOthers` | pkg/resource/user_pool/sdk.go:1725-1785 | A run keeps all unmanaged conditions in order and adds exactly the managed ones that were missing and were needed, so at most two entries. |
| `Codec.PayloadsFailIff` | pkg/resource/user_pool/sdk.go:1389-1579 | Both payload builders fail if and only if some Priority, UnusedAccountValidityDays, MinimumLength or TemporaryPasswordValidityDays is outside int32. |
| `Codec.RangeErrorIs` | pkg/resource/user_pool/sdk.go:1389-1579 | The error both builders return names the first of these fields, in source order, that is out of range. |
| `Codec.PayloadsCarryFields` | pkg/resource/user_pool/sdk.go:975-1653 | Both payloads carry each field of the sections under its own name, nil flags as false, nil numbers of the plain kind as 0, nil enumerations as empty; the create payload the create-only fields, and the update payload the id of the pool. |
| `Codec.CreateReadsBackNormal` | pkg/resource/user_pool/sdk.go:94-493 | A pool that holds every section of the create payload reads back as the normal form of the whole spec. |
| `Codec.SchemaRoundTrip` | pkg/resource/user_pool/sdk.go:1197-1239 | From the schema of the create payload the spec's schema is recovered up to empty data types. |
| `Codec.NarrowIsIdentityIff` | pkg/resource/user_pool/sdk.go:1389-1394 | Narrowing an int64 with int32() loses nothing if and only if the number passes the bound check. |
| `Codec.UpdateReadsBackNormal` | pkg/resource/user_pool/sdk.go:94-493 | A pool that stores an update payload reads back, section by section sent, as the normal form of what was sent: nil booleans false, nil plain integers 0, empty enumeration strings nil, lists as they were; Schema is the reader's own. |
| `Codec.NormalIsIdempotent` | pkg/resource/user_pool/sdk.go:94-493 | The normal form of a normal form is itself. |
| `Codec.ReadBackIsNormal` | pkg/resource/user_pool/sdk.go:94-493 | Everything a read produces is in normal form, so sending and reading it again changes nothing. |
| `Codec.SamePayloadIffSameNormal` | pkg/resource/user_pool/sdk.go:1373-1653 | Two specs with in-range numbers are sent as the same update if and only if their updatable parts have the same normal form. |
| `Payloads.BuildAccountRecovery` | pkg/resource/user_pool/sdk.go:1380-1402 | The loop over recovery mechanisms stops at the first Priority outside int32 and otherwise encodes every mechanism in order. |
| `Payloads.BuildAdmin` | pkg/resource/user_pool/sdk.go:1403-1430 | Depth-three section: nil booleans and integers become zero values, the message template is kept, an out-of-range number fails. |
| `Payloads.BuildPasswordPolicy` | pkg/resource/user_pool/sdk.go:1550-1581 | The two numbers are checked in source order and the first outside int32 fails; nil flags become false, a nil validity 0, a nil length stays nil. |
| `Payloads.BuildPolicies` | pkg/resource/user_pool/sdk.go:1548-1583 | The policy inside the section, or its error; a nil policy stays nil. |
| `Payloads.BuildDevice` | pkg/resource/user_pool/sdk.go:1443-1452 | Device flags, nil read as false. |
| `Payloads.BuildEmail` | pkg/resource/user_pool/sdk.go:1453-1471 | Email section, a nil sending account read as the empty enumeration. |
| `Payloads.BuildSchema` | pkg/resource/user_pool/sdk.go:1197-1239 | The loop over schema attributes encodes each in order, a nil data type as the empty enumeration; a nil list stays nil. |
| `Payloads.NewUpdateRequestPayload` | pkg/resource/user_pool/sdk.go:1373-1653 | The step-by-step builder returns the payload UpdatePayload defines, or the error of the first number out of range in source order. |
| `Payloads.NewCreateRequestPayload` | pkg/resource/user_pool/sdk.go:975-1322 | The step-by-step builder returns the payload CreatePayload defines, create-only sections included, or the same errors. |
| `Payloads.ReadResponse` | pkg/resource/user_pool/sdk.go:94-493 | The field-by-field mapping of a response over the copy is ReadBack: nil sections become nil, empty enumerations nil, int32 widened, Schema kept. |
| `ResourceDelta.NewResourceDelta` | pkg/resource/user_pool/delta.go:34-536 | The unrolled comparison records exactly what the walk over the spec's shape records, in that order; one nil resource is recorded as the whole difference. |
| `DeltaPaths.RecordedAreFields` | pkg/resource/user_pool/delta.go:45-535 | The two values of a recorded difference are the fields of the two resources that the dotted path names, read from the spec without the comparison's own shape. |
| `DeltaTheorems.ReportedPathsAreApart` | pkg/resource/user_pool/delta.go:45-535 | No path is reported twice and none lies above another. |
| `DeltaTheorems.DeltaSwaps` | pkg/resource/user_pool/delta.go:45-535 | Swapping the resources reports the same paths in the same order with the values exchanged. |
| `DeltaTheorems.NothingReportedIff` | pkg/resource/user_pool/delta.go:45-535 | Nothing is reported if and only if the specs agree up to nil and empty lists (and the library's list equality) and the tags are equal with nil read as empty. |
| `DeltaTheorems.TagsReportedIff` | pkg/resource/user_pool/delta.go:436-440 | A difference under Spec.Tags is reported if and only if the tags, nil read as empty, differ. |
| `DeltaTheorems.OthersReportedIff` | pkg/resource/user_pool/sdk.go:1347-1349 | A difference outside Spec.Tags is reported if and only if the specs without tags do not agree. |
| `DeltaTheorems.PatchedAgrees` | pkg/resource/user_pool/delta.go:45-535 | Writing every recorded b-value into a at its path gives a spec with no difference to b left. |
| `Delta.PatchClosesDiff` | pkg/resource/user_pool/delta.go:45-535 | The same on any shape and at any path, by recursion on the shape. |
| `Delta.DiffIsPrefixFree` | pkg/resource/user_pool/delta.go:45-535 | On every shape whose fields have distinct names the reported paths are pairwise apart. |
| `Delta.DiffSwaps` | pkg/resource/user_pool/delta.go:45-535 | On every shape the comparison is symmetric, given symmetric list comparisons. |
| `UpdateEffect.SentSectionsSettleIff` | pkg/resource/user_pool/sdk.go:1373-1653 | After one update is stored and read back, a sent section is still reported if and only if it differed from its normal form (for recovery mechanisms: if and only if the library's list comparison tells the two apart); Schema never is; create-only sections if and only if they differ from the pool. |
| `UpdateEffect.LeftoversAreBeyondUpdate` | pkg/resource/user_pool/sdk.go:1373-1653 | With desired in normal form and the tags in place every path left lies under AliasAttributes, Name, UsernameAttributes, UsernameConfiguration or a section desired leaves nil. |
| `UserPools.DeepCopyConditions` | apis/v1alpha1/zz_generated.deepcopy.go:1834-1844 | A list of equal conditions, every cell fresh and no cell twice. |
| `UserPools.DeepCopyTags` | apis/v1alpha1/zz_generated.deepcopy.go:1751-1766 | Equal tags behind fresh cells, one per key; nil values stay nil. |
| `UserPools.UserPool.DeepCopy` | apis/v1alpha1/zz_generated.deepcopy.go:1441-1447 | An equal resource whose tag, metadata and condition cells all are fresh, and whose condition cells are distinct. |
| `UserPools.UserPool.SetStatus` | pkg/resource/user_pool/resource.go:83-85 | The status struct is copied: both resources now hold the same condition and metadata cells. |
| `Manager.ResourceManager.EnsureTags` | pkg/resource/user_pool/manager.go:284-301 | The tags become the user's merged with the defaults, which do not override, each behind a fresh cell of its own; everything else stays. |
| `Manager.ResourceManager.FilterSystemTags` | pkg/resource/user_pool/manager.go:322-332 | The tags become those that are neither AWS's nor system tags; nothing else changes; a nil resource is left alone. |
| `Manager.ResourceManager.MirrorAWSTags` | pkg/resource/user_pool/manager.go:345-357 | The desired tags get the latest's `aws:` tags written over them, behind fresh cells; without a latest resource nothing happens. |
| `Manager.ResourceManager.SyncTags` | pkg/resource/user_pool/hook.go:13-65 | Service, calls and error are those of AfterSync and SyncError: additions first, deletions only if these work (TagRuns.DeletionsWaitForAdditions); every new tag call names the given ARN. |
| `Manager.SyncErrorIff` | pkg/resource/user_pool/hook.go:39-65 | SyncTags returns no error if and only if it leaves the desired tags; otherwise the untag error if the desired tags are all in place, else the tag error. |
| `Manager.FilledNamesPool` | pkg/resource/user_pool/sdk.go:148-154 | A status filled from a response has the ARN of the response if it has one, else its own, and the id of the response; region, partition and account that are set stay, others become the manager's. |
| `Manager.ResourceManager.SetStatusDefaults` | pkg/resource/user_pool/sdk.go:1691-1709 | Fills in region, partition and account where missing, in place or in a fresh metadata cell, and changes nothing else. |
| `Manager.ResourceManager.UpdateConditions` | pkg/resource/user_pool/sdk.go:1713-1786 | Works on a deep copy: changes no object that existed before, hands a copy back exactly if a managed or synced condition is there in the end, and the copy is the argument with its conditions updated and metadata defaulted. |
| `Manager.ResourceManager.OnError` | pkg/resource/user_pool/manager.go:386-406 | Hands back the updated copy, with the Terminal error exactly if some Terminal condition of it is True, else with the error given; from at most one condition per type that is exactly for secret sentinels, wrapped terminal errors and InvalidParameterException; a nil resource gives nil and the error. |
| `Manager.ResourceManager.OnSuccess` | pkg/resource/user_pool/manager.go:410-421 | Hands back the updated copy if there is one and the resource itself otherwise. |
| `Manager.ResourceManager.SdkFind` | pkg/resource/user_pool/sdk.go:58-509 | Not found without an id or with ResourceNotFoundException; other errors passed on; otherwise a fresh resource with the response written over a copy, ARN, id, defaults and the listed tags. Only the log changes, by the calls made. The status is that of FilledNamesPool. |
| `Manager.ResourceManager.ReadOne` | pkg/resource/user_pool/manager.go:97-115 | Mirrors AWS tags into its argument in place, and only when the read works; reports errors on the argument and successes on the observed resource, which names the pool's id and, if it has one, its ARN. |
| `Manager.ResourceManager.SdkUpdate` | pkg/resource/user_pool/sdk.go:1326-1369 | Tag calls only if Spec.Tags is reported, the update call only if something else is and the tag half worked, no call for a payload that cannot be built; the result is desired itself or a defaulted copy. |
| `Manager.ResourceManager.Update` | pkg/resource/user_pool/manager.go:147-167 | The effect of sdkUpdate on the service; an error is reported on latest, a success on the updated resource. |
| `Manager.ResourceManager.SdkCreate` | pkg/resource/user_pool/sdk.go:538-971 | No call for a payload that cannot be built; otherwise one create call and no tag call; the result is a copy of desired with the response written over it. |
| `Manager.ResourceManager.Create` | pkg/resource/user_pool/manager.go:120-137 | The effect of sdkCreate on the service; an error is reported on desired. |
| `Reconcile.DeltaAndSyncAgree` | pkg/resource/user_pool/delta.go:436-440 | Spec.Tags is reported if and only if SyncTags on the same two resources makes at least one call. |
| `Reconcile.PassRefines` | pkg/resource/user_pool/sdk.go:1337-1349 | A whole pass changes the tags of the service and makes the tag calls exactly as AfterPass and PassCalls say, although tag calls are skipped where the comparison reports nothing. |
| `Reconcile.CleanUpdateReachesTarget` | pkg/resource/user_pool/sdk.go:1337-1349 | A pass that returns no error leaves the tags of the pool at their target. |
| `Reconcile.PassRemovesNothingBeforeWanted` | pkg/resource/user_pool/hook.go:42-49 | A whole pass after which a wanted tag is missing has removed no key and made no UntagResource call. |
| `Reconcile.RunRemovesNothingBeforeWanted` | pkg/resource/user_pool/hook.go:42-49 | The same of whole runs. |
| `Reconcile.PassNames` | pkg/resource/user_pool/sdk.go:526-533 | Every call of a pass names the pool: DescribeUserPool and UpdateUserPool by the user's id, ListTagsForResource, TagResource and UntagResource by the ARN the pool has now. |
| `Reconcile.RunNames` | pkg/resource/user_pool/sdk.go:1337-1346 | Every call of a run does. |
| `Reconcile.PassErrorIsFirstFault` | pkg/resource/user_pool/sdk.go:58-509 | The error of a pass is that of its first step that fails: a missing id, DescribeUserPool (NotFound for ResourceNotFoundException), ListTagsForResource, TagResource if a tag is to be written, UntagResource if one is to be removed, the payload, UpdateUserPool. |
| `Reconcile.PassReportsFirstFault` | pkg/resource/user_pool/sdk.go:1736-1806 | In terms of that fault: from at most one condition per type a pass returns the Terminal error and leaves a True Terminal condition exactly for a secret sentinel, a wrapped terminal error or InvalidParameterException, any other fault as it is with a True Recoverable condition, and without a fault neither is True. |
| `Reconcile.CreateErrorIsFault` | pkg/resource/user_pool/sdk.go:538-560 | The error of a creation is that of the payload if a number is out of range, else that of the CreateUserPool call. |
| `Reconcile.OutOfRangeIsNeverSent` | pkg/resource/user_pool/sdk.go:1351-1354 | A creation makes no call if and only if a number is out of range; an update makes no call but tag calls if and only if that is so, its tag half failed, or nothing else was reported. |
| `Reconcile.SuccessfulPassSettles` | pkg/resource/user_pool/sdk.go:1373-1653 | After a pass without error, from a user spec in normal form whose resource names the pool's id, everything the next comparison reports lies in sections no update can change. |
| `Reconcile.RunRefines` | pkg/resource/user_pool/manager.go:147-167 | Over any run of whole passes with any failures and drift, the tags and tag calls are those of TagRuns. |
| `Reconcile.EveryRunIsSafeAndConverges` | pkg/resource/user_pool/manager.go:97-167 | Over any such run from tags without `aws:` keys: no tag call names an AWS key, a failure-free pass brings the wanted tags in exactly, and nothing after it undoes that or makes a tag call. |
| `Reconcile.ResultTags` | pkg/resource/user_pool/manager.go:147-167 | A pass without error hands back a resource that carries the target's tags. |
| `Reconcile.PassConditions` | pkg/resource/user_pool/manager.go:97-167 | The conditions of the resource a pass hands back are the user's after the outcomes of the pass: a failed read, or a success followed by a failed update, if it failed. |
| `Reconcile.PassReportsTerminalIff` | pkg/resource/user_pool/manager.go:386-406 | From at most one condition per type a whole pass returns the Terminal error exactly for terminal errors, every other error as it is, and none if there was none. |
| `Settling.SettledRunOnlyReads` | pkg/resource/user_pool/sdk.go:1337-1349 | Once nothing is found different, no later event of any run, failures and drift of AWS tags included, makes a tag, update or create call, and nothing is ever found different again. |
| `Settling.SettledIff` | pkg/resource/user_pool/sdk.go:1337-1369 | After a pass without error from a spec in normal form, on the pool whose id the resource names, nothing is left to report if and only if the sections an update does not send agree with the pool. |
| `Settling.SuccessfulPassEndsWrites` | pkg/resource/user_pool/sdk.go:1337-1369 | If they agree, that pass is the last to write: whatever fails and drifts afterwards, the controller only reads. |
| `Settling.CreatedPoolIsNotUpdated` | pkg/resource/user_pool/sdk.go:975-1322 | A pool that holds what the create payload of a normal spec carried shows no difference but in its tags, and the next pass only reads besides its tag calls. |
| `Settling.NonNormalIsReported` | pkg/resource/user_pool/delta.go:45-535 | If AdminCreateUserConfig, DeletionProtection, DeviceConfiguration, EmailConfiguration or Policies is not in normal form, a difference outside the tags is found whatever the pool holds. |
| `Settling.NonNormalIsSentForever` | pkg/resource/user_pool/sdk.go:1347-1364 | Then after any run every pass without error sends the same UpdateUserPool again. |
| `Settling.NilFlagIsReportedForever` | pkg/resource/user_pool/sdk.go:181-188 | A DeviceConfiguration with one nil flag is such a section. |
| `Settling.CanSettleIff` | pkg/resource/user_pool/sdk.go:94-493 | With recovery mechanisms compared by contents, some state of the pool leaves nothing but tags to report if and only if the spec is in normal form and its numbers are in range. |
| `CarriedRuns.CarriedConditions` | pkg/resource/user_pool/sdk.go:1713-1786 | In runs whose passes start from the status the one before handed back, the conditions at the end are those the outcomes of all passes make of the first ones. |
| `CarriedRuns.LastPassDecides` | pkg/resource/user_pool/manager.go:386-421 | After such a run Terminal is True if and only if the last pass met a terminal error, which it returned as the Terminal error; Recoverable is True if and only if it met another error, except that a read failing terminally leaves Recoverable as it was. |
| `CarriedRuns.CleanPassDecides` | pkg/resource/user_pool/manager.go:386-421 | A pass in which no call fails leaves no True Terminal condition, and a True Recoverable one if and only if an out-of-range number was to be sent. |
| `CarriedRuns.CarriedTags` | pkg/resource/user_pool/manager.go:147-167 | In such runs, too, tags and tag calls are those of TagRuns. |
| `CarriedRuns.CarriedRemovesNothingBeforeWanted` | pkg/resource/user_pool/hook.go:42-49 | So does the rule that keys are only removed once every wanted tag is in place. |
| `CarriedRuns.CarriedNames` | pkg/resource/user_pool/sdk.go:1337-1346 | Every call names the pool, by the id the user's resource began with, by the pool's own, or by its ARN. |
| `CarriedRuns.CarriedIdentity` | pkg/resource/user_pool/sdk.go:1691-1705 | No run changes a region, partition or account that is set; one that is not stays unset or becomes the manager's own. |
| `CarriedRuns.CarriedRunConverges` | pkg/resource/user_pool/manager.go:97-167 | Such runs name no AWS key in a tag call; a pass without failing calls brings the wanted tags in exactly and leaves no True Terminal condition; nothing after it changes these tags or makes a tag call. |
| `Passes.ReconcileOnce` | pkg/resource/user_pool/manager.go:97-167 | The methods run in order on heap objects compute service, error and resource of the pass the theorems are about, leave the user's resource untouched, and every new call names the pool by the user's id or the pool's ARN. |
| `Passes.FilteredResultTags` | pkg/resource/user_pool/manager.go:322-332 | A pass without error hands back the user's own tags if and only if no user key is AWS's or a system key and every default key the user lacks is one. |
| `Passes.ReconcileRun` | pkg/resource/user_pool/manager.go:97-167 | A loop of such passes and drifts computes exactly the run, every new call naming the pool. |
| `Passes.ReconcileCarried` | pkg/resource/user_pool/resource.go:83-85 | The same loop with the status of each result written to the user's resource by SetStatus computes exactly the run with the status carried on, every new call naming the pool. |
| `Passes.CreateThenReconcile` | pkg/resource/user_pool/sdk.go:965 | A creation makes no tag call, and none at all for numbers out of range; the resource then names the id and ARN answered, and so does every call; the first failure-free pass after it reaches the target tags, and sends no update if the pool holds what a normal spec's payload carried. |
| `Passes.ReportOutcomes` | pkg/resource/user_pool/sdk.go:1713-1786 | onError and onSuccess applied to a run of outcomes, each to the resource the last one handed back, leave the conditions of AfterRun, and the first resource as it was. |
| `Passes.UpdateConditionsOfSharer` | pkg/resource/user_pool/resource.go:83-85 | With two resources sharing their status through SetStatus, updating the conditions of one changes neither, and the result shares no condition with them. |
| `Passes.ReplaceConditionsOfSharer` | pkg/resource/user_pool/resource.go:73-75 | Replacing the list of one of two resources that share their status ends the sharing of conditions only: the other keeps its list, and the metadata stays shared. |
| `ManagerCache.KeysIdentifyRequests` | pkg/resource/user_pool/manager_factory.go:61 | For accounts and regions without a slash and any role ARN, keys are equal if and only if the requests are. |
| `ManagerCache.SlashCollides` | pkg/resource/user_pool/manager_factory.go:61 | With a slash in a region two different requests share a key. |
| `ManagerCache.AlwaysServedIff` | pkg/resource/user_pool/manager_factory.go:61-78 | For any set of requests: over every interleaving of any number of threads calling with them every returned manager has the account and region asked for, if and only if no two of them share a key and differ in account or region. |
| `ManagerCache.ReturnedManagerServes` | pkg/resource/user_pool/manager_factory.go:61-78 | So it is for all requests without a slash in account or region, whatever their role ARNs. |
| `ManagerCache.CollisionServesWrong` | pkg/resource/user_pool/manager_factory.go:61-68 | Any two requests that share a key and differ in account or region have a run in which the second is handed the first one's manager. |
| `ManagerCache.SlashServesWrongRegion` | pkg/resource/user_pool/manager_factory.go:61-68 | Two such requests, with a slash in a region. |
| `ManagerCache.MapAccessIsExclusive` | pkg/resource/user_pool/manager_factory.go:62-78 | While a thread is about to write the cache no other can read or write it. |
| `ManagerCache.NeverDeadlocks` | pkg/resource/user_pool/manager_factory.go:62-78 | In every reachable state with an unfinished call some unfinished call can take its next step; if a thread waits for the write lock, the step is not taking the read lock. |
| `ManagerCache.KeysAreKept` | pkg/resource/user_pool/manager_factory.go:70-78 | No key is ever lost. |
| `ManagerCache.MissesOnlyDrain` | pkg/resource/user_pool/manager_factory.go:62-78 | Once a key is stored, no thread misses on it that had not already. |
| `ManagerCache.DrainedKeyIsStable` | pkg/resource/user_pool/manager_factory.go:62-78 | Once a stored key has no miss in flight its manager never changes, and every call for it that starts later and returns returns that manager. |
| `ManagerCache.StableIffDrained` | pkg/resource/user_pool/manager_factory.go:62-78 | In every reachable state a stored key keeps its manager over all continuations if and only if no miss on it is in flight. |
| `ManagerCache.RacingMissesDiffer` | pkg/resource/user_pool/manager_factory.go:62-78 | For every request two racing threads can come back with different managers. |
| `ManagerCache.LookupAlone` | pkg/resource/user_pool/manager_factory.go:62-68 | Run alone, the steps up to the read unlock end in the cached manager if there is one and in a miss otherwise, and leave cache and locks as they were. |
| `ManagerCache.InsertAlone` | pkg/resource/user_pool/manager_factory.go:70-78 | Run alone after a miss, the remaining steps store a new manager for the request, return it and free the lock. |
| `ManagerCache.ResourceManagerFactory.ManagerFor` | pkg/resource/user_pool/manager_factory.go:48-79 | One call alone: the cached manager on a hit; a fresh one, stored, on a miss; nothing stored if building fails. |

## Left out

- Sections of the spec: LambdaConfig, the Sms, MFA, EmailVerification and VerificationMessageTemplate sections, UserAttributeUpdateSettings and UserPoolAddOns are built, read and compared by the same few patterns as the sections modelled.
- UserPoolTags: whether the service keeps them together with the tags is not visible in the repository.
- Nested pointers of the spec: spec sections are values, so that only tag cells, conditions and metadata are heap cells; no code writes through the others, and their deep copies are repetition.
- Status fields other than metadata, conditions and id, and the object metadata.
- A nil condition list, which setStatusDefaults makes an empty one, is the empty list here; nil and empty tag maps are one map. A condition's transition time and generation are not modelled.
- Spare capacity of Go slices: `append` to a copied list cannot reach the original, because the deep copy has its own array.
- The service's own rules: it stores what it is sent. What it does to sections that an update leaves out is a parameter.
- Late initialization, reference resolution, IsSynced, deletion, finalizers and identifiers: constant or library code.
- Metrics, logging, tracing, AWS client configuration and everything outside the manager package but the deep copy.
- Cancellation and time: a call fails or does not.
- Passes.CreateThenReconcile: takes the status of the created resource to be written back to the user's resource, with SetStatus; how the runtime patches the cluster is not part of this model.
- Payloads.NewUpdateRequestPayload: builds the sections modelled; LambdaConfig, the Sms, MFA, EmailVerification and VerificationMessageTemplate sections, UserAttributeUpdateSettings, UserPoolAddOns and UserPoolTags, which the code also sends, follow the same patterns and have no numbers to check.
- Payloads.NewCreateRequestPayload: the same sections are missing.
- Payloads.ReadResponse: does not read the same sections back, nor the status fields not modelled.
- ResourceDelta.NewResourceDelta: does not compare the same sections.
- Manager.ResourceManager.SdkFind: fills in no other sections and status fields than those modelled.
- Manager.ResourceManager.SdkCreate: fills in no other sections and status fields than those modelled.
- UserPools.UserPool.DeepCopy: says nothing of the separate cells of nested spec pointers, which are values here because no code writes through them.
- UpdateEffect.SentSectionsSettleIff: is about one update and the read after it; for runs see the module Settling. Recovery mechanisms are as different as the library's list comparison finds them.
