/**
 Whole reconciliations on values. The order in which the runtime calls the manager is an
 assumption of this module: EnsureTags on a copy of the user's resource, ReadOne, the
 comparison, Update if anything under Spec differs, FilterSystemTags.

 A pass and a run are functions here; the methods in Passes do the same on the heap.
 */
module Reconcile {
  import opened Nullable
  import opened AckTags
  import opened Errors
  import opened Shapes
  import opened Conditions
  import opened Codec
  import opened TagRuns
  import opened Delta
  import opened ResourceDelta
  import opened DeltaTheorems
  import opened UpdateEffect
  import opened UserPools
  import opened Service
  import opened Manager

  /** What stays the same from pass to pass. */
  datatype Setting = Setting(lib: Library, user: PoolValue, defaults: Tags, identity: Identity) {
    /** The tags EnsureTags makes of the user's. */
    function Wanted(): Tags {
      Ensured(user.tags, defaults)
    }

    /** The desired resource once ReadOne has mirrored the AWS tags into it. */
    function Desired(b: Backend): PoolValue {
      user.(tags := ToValues(Target(Wanted(), b.tags)))
    }

    function Latest(b: Backend): PoolValue {
      WithOutcome(Found(user, b.pool, b.tags, identity), None, identity)
    }

    /** What the next pass will find different. */
    function NextDelta(b: Backend): seq<Difference> {
      SpecDiff(lib, Compared(Desired(b)), Compared(Latest(b)))
    }

    function NextReports(b: Backend): Reports {
      ReportsIn(NextDelta(b))
    }

    function PassError(b: Backend, faults: Faults): Option<GoError> {
      if FindError(user.status.id, faults).Some? then FindError(user.status.id, faults)
      else UpdateError(Desired(b), Latest(b), NextReports(b), faults)
    }

    /** The service after a pass. */
    function AfterOne(b: Backend, rest: SdkUserPool, faults: Faults): Backend {
      var read := AfterRead(b, user.status, faults, identity);
      if FindError(user.status.id, faults).Some? then read
      else AfterUpdate(read, Desired(b), Latest(b), NextReports(b), rest, faults)
    }

    /** The resource a pass hands back, before the filter. */
    function Result(b: Backend, faults: Faults): PoolValue {
      var findError := FindError(user.status.id, faults);
      if findError.Some? then WithOutcome(user.(tags := ToValues(Wanted())), findError, identity)
      else UpdateResult(Desired(b), Latest(b), NextDelta(b), faults, identity)
    }

    /** The error a pass returns: what onError makes of its first error. */
    function ResultError(b: Backend, faults: Faults): Option<GoError> {
      var findError := FindError(user.status.id, faults);
      if findError.Some? then Some(Reported(user.status.conditions, findError.value))
      else UpdateReported(Desired(b), Latest(b), NextDelta(b), faults)
    }

    /** The outcomes a pass reports on the resource it hands back: of the read, then of a failed update. */
    function PassOutcomes(b: Backend, faults: Faults): seq<Option<GoError>> {
      var findError, passError := FindError(user.status.id, faults), PassError(b, faults);
      if findError.Some? then [findError]
      else if passError.Some? then [None, passError]
      else [None]
    }

    function TagFaultsOf(faults: Faults): TagFaults {
      TagFaults(FindError(user.status.id, faults).Some?, faults.tag.Some?, faults.untag.Some?)
    }
  }

  function Compared(v: PoolValue): SpecValue {
    SpecValue(v.spec, v.tags)
  }

  function ReportsIn(diff: seq<Difference>): Reports {
    Reports(exists d <- diff :: TAGS <= d.path, exists d <- diff :: !(TAGS <= d.path))
  }

  /** What is handed back once two resources have been compared: latest, an updated desired, or latest with an error. */
  function UpdateResult(desired: PoolValue, latest: PoolValue, diff: seq<Difference>, faults: Faults,
                        identity: Identity): PoolValue
  {
    var e := UpdateError(desired, latest, ReportsIn(diff), faults);
    if e.Some? then WithOutcome(latest, e, identity)
    else if diff == [] then latest
    else Succeeded(if ReportsIn(diff).others then Defaulted(desired, identity) else desired, identity)
  }

  function UpdateReported(desired: PoolValue, latest: PoolValue, diff: seq<Difference>, faults: Faults): Option<GoError>
  {
    var e := UpdateError(desired, latest, ReportsIn(diff), faults);
    if e.Some? then Some(Reported(latest.status.conditions, e.value)) else None
  }

  /** FilterSystemTags on a value. */
  function Filtered(v: PoolValue, systemTags: seq<string>): PoolValue {
    v.(tags := ToValues(WithoutSystem(ToTags(v.tags), systemTags)))
  }

  // ---- The tags of a pass ----

  /** With no nil tag value on either side, Spec.Tags is reported exactly when SyncTags would make a call. */
  lemma DeltaAndSyncAgree(lib: Library, a: SpecValue, b: SpecValue, tagFails: bool)
    ensures (exists d <- SpecDiff(lib, a, b) :: TAGS <= d.path)
            <==> SyncCalls(ToTags(a.tags), ToTags(b.tags), tagFails) != []
  {
    TagsReportedIff(lib, a, b);
    SyncNeededIffDifferent(ToTags(a.tags), ToTags(b.tags));
  }

  /** The tags of the two compared resources. */
  lemma ComparedTags(s: Setting, b: Backend)
    ensures ToTags(s.Desired(b).tags) == Target(s.Wanted(), b.tags)
    ensures ToTags(s.Latest(b).tags) == b.tags
    ensures s.NextReports(b).tags <==> Target(s.Wanted(), b.tags) != b.tags
  {
    ValuesReadBack(Target(s.Wanted(), b.tags));
    ValuesReadBack(b.tags);
    TagsReportedIff(s.lib, Compared(s.Desired(b)), Compared(s.Latest(b)));
  }

  lemma OthersIff(s: Setting, b: Backend)
    ensures s.NextReports(b).others <==> !SpecsAgree(s.lib, s.user.spec, ReadBack(s.user.spec, b.pool))
  {
    OthersReportedIff(s.lib, Compared(s.Desired(b)), Compared(s.Latest(b)));
  }

  /** Everything an update dereferences is there, and equal resources have the target's tags. */
  lemma ReadyToUpdate(s: Setting, b: Backend)
    requires ArnKnown(s.user.status, b.pool)
    ensures NoNilTag(s.Desired(b).tags) && NoNilTag(s.Latest(b).tags)
    ensures s.Latest(b).status.metadata.Some? && s.Latest(b).status.metadata.value.arn.Some?
    ensures s.NextDelta(b) == [] ==> ToTags(s.Latest(b).tags) == Target(s.Wanted(), b.tags)
  {
    ComparedTags(s, b);
  }

  /** Where the comparison leaves SyncTags out, it would have done nothing. */
  lemma UpdateOnTags(b: Backend, desired: PoolValue, latest: PoolValue, reports: Reports, rest: SdkUserPool,
                     faults: Faults)
    requires ToTags(latest.tags) == b.tags
    requires reports.tags <==> ToTags(desired.tags) != b.tags
    ensures var after := AfterUpdate(b, desired, latest, reports, rest, faults);
      && after.tags == Synced(b.tags, ToTags(desired.tags), b.tags, faults.tag.Some?, faults.untag.Some?)
      && after.tagCalls == b.tagCalls + SyncCalls(ToTags(desired.tags), b.tags, faults.tag.Some?)
      && after.pool.arn == b.pool.arn
  {
    SyncNeededIffDifferent(ToTags(desired.tags), b.tags);
  }

  /** A pass does to the tags of the pool what AfterPass and PassCalls say. */
  lemma PassRefines(s: Setting, b: Backend, rest: SdkUserPool, faults: Faults)
    ensures var after := s.AfterOne(b, rest, faults);
      && after.tags == AfterPass(s.Wanted(), b.tags, s.TagFaultsOf(faults))
      && after.tagCalls == b.tagCalls + PassCalls(s.Wanted(), b.tags, s.TagFaultsOf(faults))
      && after.pool.arn == b.pool.arn
  {
    ComparedTags(s, b);
    var read := AfterRead(b, s.user.status, faults, s.identity);
    UpdateOnTags(read, s.Desired(b), s.Latest(b), s.NextReports(b), rest, faults);
  }

  /** No error means that every tag call the pass made has worked, so the pool is at its target. */
  lemma CleanUpdateReachesTarget(s: Setting, b: Backend, rest: SdkUserPool, faults: Faults)
    requires s.PassError(b, faults).None?
    ensures s.AfterOne(b, rest, faults).tags == Target(s.Wanted(), b.tags)
  {
    ComparedTags(s, b);
    var target := Target(s.Wanted(), b.tags);
    PassRefines(s, b, rest, faults);
    PassReachesTarget(s.Wanted(), b.tags);
    SyncNeededIffDifferent(target, b.tags);
  }

  /** A pass without error hands back a resource with the target's tags. */
  lemma ResultTags(s: Setting, b: Backend, faults: Faults)
    requires s.PassError(b, faults).None?
    ensures ToTags(s.Result(b, faults).tags) == Target(s.Wanted(), b.tags)
  {
    ComparedTags(s, b);
    AllUnderSpec(s.lib, Compared(s.Desired(b)), Compared(s.Latest(b)));
    EmptyReports(s.NextDelta(b));
  }

  lemma AllUnderSpec(lib: Library, a: SpecValue, b: SpecValue)
    ensures forall d <- SpecDiff(lib, a, b) :: ROOT <= d.path
  {
    forall d <- SpecDiff(lib, a, b) ensures ROOT <= d.path {
      var i := SectionOf(lib, a, b, d);
    }
  }

  lemma EmptyReports(diff: seq<Difference>)
    requires forall d <- diff :: ROOT <= d.path
    ensures diff == [] <==> !exists d <- diff :: ROOT <= d.path
    ensures diff == [] ==> ReportsIn(diff) == Reports(false, false)
  {
    if diff != [] {
      assert diff[0] in diff;
    }
  }

  // ---- The calls of a pass ----

  /** A read names the pool: Describe by the user's id, the tags by the pool's own ARN. */
  lemma ReadNames(s: Setting, b: Backend, faults: Faults)
    requires b.pool.arn.Some?
    ensures NewCallsName(b, AfterRead(b, s.user.status, faults, s.identity), {s.user.status.id}, b.pool.arn.value)
    ensures ArnOf(s.Latest(b).status) == b.pool.arn.value
  {
    FilledNamesPool(s.user.status, b.pool.arn, None, s.identity);
    FilledNamesPool(s.user.status, b.pool.arn, b.pool.id, s.identity);
  }

  lemma UpdateNames(b: Backend, desired: PoolValue, latest: PoolValue, reports: Reports, rest: SdkUserPool,
                    faults: Faults)
    ensures NewCallsName(b, AfterUpdate(b, desired, latest, reports, rest, faults), {desired.status.id},
                         ArnOf(latest.status))
  {
  }

  /** Every call of a pass names the pool: by the user's id, or by the ARN the pool has now. */
  lemma PassNames(s: Setting, b: Backend, rest: SdkUserPool, faults: Faults)
    requires b.pool.arn.Some?
    ensures NewCallsName(b, s.AfterOne(b, rest, faults), {s.user.status.id}, b.pool.arn.value)
  {
    var read := AfterRead(b, s.user.status, faults, s.identity);
    ReadNames(s, b, faults);
    UpdateNames(read, s.Desired(b), s.Latest(b), s.NextReports(b), rest, faults);
    if FindError(s.user.status.id, faults).None? {
      NewCallsChain(b, read, s.AfterOne(b, rest, faults), {s.user.status.id}, b.pool.arn.value);
    }
  }

  // ---- The conditions of a pass ----

  /** Success reported on a list changes it only where Touched says so. */
  lemma UntouchedStays(conditions: ConditionList)
    ensures !Touched(conditions, None) ==> Updated(conditions, None) == conditions
  {
  }

  /** The conditions of the resource handed back are the user's after the outcomes of the pass. */
  lemma PassConditions(s: Setting, b: Backend, faults: Faults)
    ensures s.Result(b, faults).status.conditions == AfterRun(s.user.status.conditions, s.PassOutcomes(b, faults))
  {
    var conditions, e := s.user.status.conditions, s.PassError(b, faults);
    UntouchedStays(conditions);
    RunOfOneOutcome(conditions, FindError(s.user.status.id, faults));
    RunOfOneOutcome(conditions, None);
    RunExtendsBy(conditions, [None], e);
  }

  /**
   From at most one condition per type a pass returns the Terminal error in place of every
   terminal error, any other error as it is, and none if there was none.
   */
  lemma {:induction false} PassReportsTerminalIff(s: Setting, b: Backend, faults: Faults)
    requires Unique(s.user.status.conditions)
    ensures var e := s.PassError(b, faults);
      s.ResultError(b, faults) ==
        if e.None? then None else Some(if IsTerminal(e) then TERMINAL else e.value)
  {
    var conditions, e := s.user.status.conditions, s.PassError(b, faults);
    StepKeepsUnique(conditions, None);
    if e.Some? {
      TerminalReportedIffUnique(conditions, e.value);
      TerminalReportedIffUnique(Updated(conditions, None), e.value);
    }
  }

  /** The error of the first step of a read that fails. */
  function ReadFault(id: Option<string>, faults: Faults): Option<GoError> {
    if id.None? then Some(NOT_FOUND)
    else if faults.describe.Some? then
      if faults.describe.value.api.Some? && faults.describe.value.api.value.code == "ResourceNotFoundException"
      then Some(NOT_FOUND) else faults.describe
    else faults.list
  }

  /** The error of the first step of the tag calls that fails. */
  function TagFault(target: Tags, remote: Tags, faults: Faults): Option<GoError> {
    if faults.tag.Some? && (exists k <- target :: k !in remote || remote[k] != target[k]) then faults.tag
    else if faults.untag.Some? && (exists k <- remote :: k !in target) then faults.untag
    else None
  }

  ghost function SendFault(spec: Spec, id: Option<string>, faults: Faults): Option<GoError> {
    if !InRange(spec) then Some(RangeError(OutOfRange(spec).GetOr(""))) else faults.update
  }

  /** The error of the first step of a pass that fails. */
  ghost function FirstFault(s: Setting, b: Backend, faults: Faults): Option<GoError> {
    if ReadFault(s.user.status.id, faults).Some? then ReadFault(s.user.status.id, faults)
    else if TagFault(Target(s.Wanted(), b.tags), b.tags, faults).Some?
    then TagFault(Target(s.Wanted(), b.tags), b.tags, faults)
    else if SpecsAgree(s.lib, s.user.spec, ReadBack(s.user.spec, b.pool)) then None
    else SendFault(s.user.spec, s.user.status.id, faults)
  }

  lemma TagErrorIsTagFault(desired: Tags, existing: Tags, faults: Faults)
    ensures SyncError(desired, existing, faults) == TagFault(desired, existing, faults)
    ensures desired == existing ==> TagFault(desired, existing, faults).None?
  {
    var toAdd, toDelete := Additions(desired, existing), Deletions(desired, existing);
    assert toAdd != map[] <==> exists k <- desired :: k !in existing || existing[k] != desired[k] by {
      if k :| k in desired && (k !in existing || existing[k] != desired[k]) {
        assert k in toAdd;
      }
      if toAdd != map[] {
        var k :| k in toAdd;
      }
    }
    assert toDelete != {} <==> exists k <- existing :: k !in desired by {
      if k :| k in existing && k !in desired {
        assert k in toDelete;
      }
      if toDelete != {} {
        var k :| k in toDelete;
      }
    }
  }

  lemma SendErrorIsSendFault(spec: Spec, id: Option<string>, faults: Faults)
    ensures SendError(spec, id, faults) == SendFault(spec, id, faults)
  {
    PayloadsFailIff(spec, id);
  }

  lemma FindErrorIsReadFault(id: Option<string>, faults: Faults)
    ensures FindError(id, faults) == ReadFault(id, faults)
  {
  }

  lemma UpdateErrorIsFault(s: Setting, b: Backend, faults: Faults)
    ensures var tagFault := TagFault(Target(s.Wanted(), b.tags), b.tags, faults);
      UpdateError(s.Desired(b), s.Latest(b), s.NextReports(b), faults) ==
        if tagFault.Some? then tagFault
        else if !s.NextReports(b).others then None
        else SendError(s.user.spec, s.user.status.id, faults)
  {
    ComparedTags(s, b);
    TagErrorIsTagFault(Target(s.Wanted(), b.tags), b.tags, faults);
  }

  lemma PassErrorIsFirstFault(s: Setting, b: Backend, faults: Faults)
    ensures s.PassError(b, faults) == FirstFault(s, b, faults)
  {
    FindErrorIsReadFault(s.user.status.id, faults);
    UpdateErrorIsFault(s, b, faults);
    OthersIff(s, b);
    SendErrorIsSendFault(s.user.spec, s.user.status.id, faults);
  }

  /** The error of a creation is that of the payload, which comes first, or of the call. */
  lemma CreateErrorIsFault(spec: Spec, faults: Faults)
    ensures SendCreateError(spec, faults) ==
      if !InRange(spec) then Some(RangeError(OutOfRange(spec).GetOr(""))) else faults.create
  {
    PayloadsFailIff(spec, None);
  }

  /**
   A whole pass in terms of the first fault: from at most one condition per type it returns
   the Terminal error and leaves a True Terminal condition exactly for a secret sentinel, a
   wrapped terminal error or InvalidParameterException; it returns any other fault as it is,
   with a True Recoverable condition; and without a fault neither condition is True.
   */
  lemma {:induction false} PassReportsFirstFault(s: Setting, b: Backend, faults: Faults)
    requires Unique(s.user.status.conditions)
    ensures var f, end := FirstFault(s, b, faults), s.Result(b, faults).status.conditions;
      && (f.None? ==>
            s.ResultError(b, faults).None? && !HasTrue(end, TerminalType) && !HasTrue(end, RecoverableType))
      && (f.Some? ==>
            var err := f.value;
            var terminal :=
              err.sentinel == SecretTypeNotSupported || err.sentinel == SecretNotFound || err.wrapsTerminal ||
              (err.api.Some? && err.api.value.code == "InvalidParameterException");
            && s.ResultError(b, faults) == Some(if terminal then TERMINAL else err)
            && (HasTrue(end, TerminalType) <==> terminal)
            && (!terminal ==> HasTrue(end, RecoverableType)))
  {
    var conditions, f := s.user.status.conditions, FirstFault(s, b, faults);
    PassErrorIsFirstFault(s, b, faults);
    PassConditions(s, b, faults);
    RunOfOneOutcome(conditions, f);
    RunOfOneOutcome(conditions, None);
    RunExtendsBy(conditions, [None], f);
    StepKeepsUnique(conditions, None);
    HistoryDecides(conditions, [None]);
    if f.Some? {
      OutcomeOf(conditions, f.value);
      OutcomeOf(Updated(conditions, None), f.value);
    }
  }

  // ---- The sections of a pass ----

  lemma OverlayStores(pool: SdkUserPool, input: UpdateInput, rest: SdkUserPool)
    requires input.userPoolId == pool.id
    ensures Stores(Overlay(pool, input, rest), input)
  {
  }

  /**
   A number outside int32 never leaves the controller: a creation makes no call at all, and
   an update makes its tag calls and nothing else, exactly then or when it had nothing to send.
   */
  lemma OutOfRangeIsNeverSent(b: Backend, desired: PoolValue, latest: PoolValue, reports: Reports,
                              rest: SdkUserPool, answer: SdkUserPool, initial: Tags, faults: Faults)
    ensures AfterCreate(b, desired.spec, answer, initial, faults) == b <==> !InRange(desired.spec)
    ensures !InRange(desired.spec) ==> SendCreateError(desired.spec, faults).Some?
    ensures var after := AfterUpdate(b, desired, latest, reports, rest, faults);
      after.otherCalls == b.otherCalls <==>
        TagError(desired, latest, reports, faults).Some? || !reports.others || !InRange(desired.spec)
    ensures !InRange(desired.spec) ==> AfterUpdate(b, desired, latest, reports, rest, faults).pool == b.pool
  {
    PayloadsFailIff(desired.spec, desired.status.id);
    assert forall c: Call :: |b.otherCalls + [c]| > |b.otherCalls|;
  }

  /** What a read right after an update finds. */
  lemma LatestIsFound(s: Setting, b: Backend)
    ensures Compared(s.Latest(b)) == FoundAfter(Compared(s.Desired(b)), b.pool, ToValues(b.tags))
  {
  }

  /**
   After a pass without error, and with a user spec in normal form, everything the next pass
   still finds different lies in sections that no update can change.
   */
  lemma SuccessfulPassSettles(s: Setting, b: Backend, rest: SdkUserPool, faults: Faults)
    requires Reflexive(s.lib)
    requires s.PassError(b, faults).None?
    requires Normal(s.user.spec) == s.user.spec && s.user.status.id == b.pool.id
    ensures forall d <- s.NextDelta(s.AfterOne(b, rest, faults)) ::
      |d.path| >= 2 && d.path[0] == Name.Spec && BeyondUpdate(s.user.spec, d.path[1])
  {
    var after := s.AfterOne(b, rest, faults);
    var id := s.user.status.id;
    CleanUpdateReachesTarget(s, b, rest, faults);
    TargetIsStable(s.Wanted(), b.tags, NO_FAULT);
    PassReachesTarget(s.Wanted(), b.tags);
    ComparedTags(s, after);
    if s.NextReports(b).others {
      var input := UpdatePayload(s.user.spec, id).value;
      OverlayStores(b.pool, input, rest);
      LatestIsFound(s, after);
      LeftoversAreBeyondUpdate(s.lib, Compared(s.Desired(after)), id, after.pool, ToValues(after.tags));
    } else {
      OthersReportedIff(s.lib, Compared(s.Desired(b)), Compared(s.Latest(b)));
      NothingReportedIff(s.lib, Compared(s.Desired(after)), Compared(s.Latest(after)));
    }
  }

  // ---- Runs ----

  /** A pass with its failures, or AWS replacing its own tags. */
  datatype RunEvent = OnePass(faults: Faults, rest: SdkUserPool) | AwsDrift(aws: Tags)

  function AfterEvent(s: Setting, b: Backend, event: RunEvent): Backend {
    match event
    case OnePass(faults, rest) => s.AfterOne(b, rest, faults)
    case AwsDrift(aws) => b.(tags := UserOnly(b.tags) + AwsOnly(aws))
  }

  function AfterEvents(s: Setting, b: Backend, events: seq<RunEvent>): Backend {
    if events == [] then b
    else AfterEvent(s, AfterEvents(s, b, events[..|events| - 1]), events[|events| - 1])
  }

  function TagEvent(s: Setting, event: RunEvent): Event {
    match event
    case OnePass(faults, _) => Pass(s.TagFaultsOf(faults))
    case AwsDrift(aws) => Event.Drift(aws)
  }

  function TagEvents(s: Setting, events: seq<RunEvent>): seq<Event> {
    seq(|events|, i requires 0 <= i < |events| => TagEvent(s, events[i]))
  }

  lemma EventRefines(s: Setting, b: Backend, event: RunEvent)
    ensures var after := AfterEvent(s, b, event);
      && after.tags == Step(s.Wanted(), b.tags, TagEvent(s, event))
      && after.tagCalls == b.tagCalls + StepCalls(s.Wanted(), b.tags, TagEvent(s, event))
      && after.pool.arn == b.pool.arn
  {
    if event.OnePass? {
      PassRefines(s, b, event.rest, event.faults);
    }
  }

  lemma TagEventsExtend(s: Setting, events: seq<RunEvent>)
    requires events != []
    ensures TagEvents(s, events) ==
      TagEvents(s, events[..|events| - 1]) + [TagEvent(s, events[|events| - 1])]
  {
  }

  /** From b to after, the tags have changed and the tag calls grown as in a run of TagRuns. */
  ghost predicate TagsRan(wanted: Tags, b: Backend, events: seq<Event>, after: Backend) {
    && after.tags == After(wanted, b.tags, events)
    && after.tagCalls == b.tagCalls + Calls(wanted, b.tags, events)
    && after.pool.arn == b.pool.arn
  }

  lemma TagsRanOn(wanted: Tags, b: Backend, events: seq<Event>, mid: Backend, last: Event, after: Backend)
    requires TagsRan(wanted, b, events, mid)
    requires after.tags == Step(wanted, mid.tags, last)
    requires after.tagCalls == mid.tagCalls + StepCalls(wanted, mid.tags, last)
    requires after.pool.arn == mid.pool.arn
    ensures TagsRan(wanted, b, events + [last], after)
  {
    RunExtends(wanted, b.tags, events, last);
  }

  /** The tags of the pool after a run, and all tag calls of the run, are those of TagRuns. */
  lemma {:induction false} RunRefines(s: Setting, b: Backend, events: seq<RunEvent>)
    ensures TagsRan(s.Wanted(), b, TagEvents(s, events), AfterEvents(s, b, events))
  {
    if events != [] {
      var earlier, last := events[..|events| - 1], events[|events| - 1];
      var mid := AfterEvents(s, b, earlier);
      RunRefines(s, b, earlier);
      EventRefines(s, mid, last);
      TagsRanOn(s.Wanted(), b, TagEvents(s, earlier), mid, TagEvent(s, last), AfterEvent(s, mid, last));
      TagEventsExtend(s, events);
    }
  }

  /** Every call of a run names the pool by the user's id or by its ARN. */
  lemma {:induction false} RunNames(s: Setting, b: Backend, events: seq<RunEvent>)
    requires b.pool.arn.Some?
    ensures NewCallsName(b, AfterEvents(s, b, events), {s.user.status.id}, b.pool.arn.value)
  {
    if events != [] {
      var mid, last := AfterEvents(s, b, events[..|events| - 1]), events[|events| - 1];
      RunNames(s, b, events[..|events| - 1]);
      RunRefines(s, b, events[..|events| - 1]);
      if last.OnePass? {
        PassNames(s, mid, last.rest, last.faults);
      }
      NewCallsChain(b, mid, AfterEvent(s, mid, last), {s.user.status.id}, b.pool.arn.value);
    }
  }

  /** A key is only removed once every wanted tag is in place, in each whole pass and so over whole runs. */
  lemma RunRemovesNothingBeforeWanted(s: Setting, b: Backend, events: seq<RunEvent>)
    requires NoAwsKey(s.Wanted()) && !HasWanted(s.Wanted(), AfterEvents(s, b, events).tags)
    ensures var end := AfterEvents(s, b, events);
      && UserOnly(b.tags).Keys <= end.tags.Keys
      && b.tagCalls <= end.tagCalls && forall call <- end.tagCalls[|b.tagCalls|..] :: !call.Untag?
  {
    RunRefines(s, b, events);
    NothingRemovedBeforeWanted(s.Wanted(), b.tags, TagEvents(s, events));
  }

  lemma PassRemovesNothingBeforeWanted(s: Setting, b: Backend, rest: SdkUserPool, faults: Faults)
    requires !HasWanted(s.Wanted(), s.AfterOne(b, rest, faults).tags)
    ensures var after := s.AfterOne(b, rest, faults);
      && b.tags.Keys <= after.tags.Keys
      && b.tagCalls <= after.tagCalls && forall call <- after.tagCalls[|b.tagCalls|..] :: !call.Untag?
  {
    PassRefines(s, b, rest, faults);
    DeletionsWaitForAdditions(s.Wanted(), b.tags, s.TagFaultsOf(faults));
  }

  const NO_FAULTS := Faults(None, None, None, None, None, None)

  /**
   Over any run: no tag call names a key that AWS owns, a pass without failure brings the
   tags to the wanted ones beside AWS's own, and no later event, failing or not, undoes that
   or makes another tag call.
   */
  lemma {:induction false} EveryRunIsSafeAndConverges(s: Setting, b: Backend, before: seq<RunEvent>,
                                                      rest: SdkUserPool, after: seq<RunEvent>)
    requires NoAwsKey(s.Wanted()) && s.user.status.id.Some?
    ensures var run := before + [OnePass(NO_FAULTS, rest)];
      var reached, end := AfterEvents(s, b, run), AfterEvents(s, b, run + after);
      && UserOnly(end.tags) == s.Wanted()
      && end.tagCalls == reached.tagCalls
      && b.tagCalls <= end.tagCalls
      && forall call <- end.tagCalls[|b.tagCalls|..], key | "aws:" <= key :: !call.Mentions(key)
  {
    var run := before + [OnePass(NO_FAULTS, rest)];
    var e, f := TagEvents(s, before), TagEvents(s, after);
    var clean := Pass(NO_FAULT);
    TagEventsExtend(s, run);
    assert run[..|run| - 1] == before;
    assert TagEvents(s, run) == e + [clean];
    assert TagEvents(s, run + after) == e + [clean] + f;
    RunRefines(s, b, run);
    RunRefines(s, b, run + after);
    CleanPassConverges(s.Wanted(), b.tags, e, f);
    RunsSpareAwsKeys(s.Wanted(), b.tags, e + [clean] + f);
  }
}
