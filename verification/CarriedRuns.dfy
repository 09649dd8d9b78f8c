/**
 Runs in which the status is carried on: after each pass the status of the resource it hands
 back becomes the user's, and the next pass starts from it. Tags and conditions of such a run
 are followed together.
 */
module CarriedRuns {
  import opened Nullable
  import opened AckTags
  import opened Errors
  import opened Shapes
  import opened Conditions
  import opened Codec
  import opened TagRuns
  import opened Delta
  import opened UserPools
  import opened Service
  import opened Manager
  import opened Reconcile

  /** The user's resource with what surrounds it, and the service. */
  datatype World = World(setting: Setting, backend: Backend) {
    function Conditions(): ConditionList {
      setting.user.status.conditions
    }

    function ReadError(faults: Faults): Option<GoError> {
      FindError(setting.user.status.id, faults)
    }

    function Error(faults: Faults): Option<GoError> {
      setting.PassError(backend, faults)
    }
  }

  function Advance(w: World, event: RunEvent): World {
    var after := AfterEvent(w.setting, w.backend, event);
    match event
    case OnePass(faults, _) =>
      var status := w.setting.Result(w.backend, faults).status;
      World(w.setting.(user := w.setting.user.(status := status)), after)
    case AwsDrift(_) => World(w.setting, after)
  }

  function AdvanceAll(w: World, events: seq<RunEvent>): World {
    if events == [] then w
    else Advance(AdvanceAll(w, events[..|events| - 1]), events[|events| - 1])
  }

  /** The outcomes reported in a run, in order. */
  function OutcomesOf(w: World, events: seq<RunEvent>): seq<Option<GoError>> {
    if events == [] then []
    else
      var earlier, last := events[..|events| - 1], events[|events| - 1];
      var mid := AdvanceAll(w, earlier);
      OutcomesOf(w, earlier) + if last.OnePass? then mid.setting.PassOutcomes(mid.backend, last.faults) else []
  }

  /** The events of a run as tag reconciliation sees them. */
  function TagEventsOf(w: World, events: seq<RunEvent>): seq<Event> {
    if events == [] then []
    else
      var earlier, last := events[..|events| - 1], events[|events| - 1];
      TagEventsOf(w, earlier) + [TagEvent(AdvanceAll(w, earlier).setting, last)]
  }

  // ---- Conditions ----

  /** The conditions after a run are those its outcomes make of the first ones. */
  lemma {:induction false} CarriedConditions(w: World, events: seq<RunEvent>)
    ensures AdvanceAll(w, events).Conditions() == AfterRun(w.Conditions(), OutcomesOf(w, events))
  {
    if events != [] {
      var earlier, last := events[..|events| - 1], events[|events| - 1];
      CarriedConditions(w, earlier);
      if last.OnePass? {
        var mid := AdvanceAll(w, earlier);
        var outcomes := mid.setting.PassOutcomes(mid.backend, last.faults);
        PassConditions(mid.setting, mid.backend, last.faults);
        RunsOfOutcomesCompose(w.Conditions(), OutcomesOf(w, earlier), outcomes);
      } else {
        assert OutcomesOf(w, events) == OutcomesOf(w, earlier);
      }
    }
  }

  /** What the outcomes of one pass leave of the two managed conditions. */
  lemma PassDecides(w: World, faults: Faults, rest: SdkUserPool)
    requires Unique(w.Conditions())
    ensures var end, e := Advance(w, OnePass(faults, rest)).Conditions(), w.Error(faults);
      && Unique(end)
      && (HasTrue(end, TerminalType) <==> e.Some? && IsTerminal(e))
      && (HasTrue(end, RecoverableType) <==>
            if w.ReadError(faults).Some? && IsTerminal(e) then HasTrue(w.Conditions(), RecoverableType)
            else e.Some? && !IsTerminal(e))
  {
    var outcomes := w.setting.PassOutcomes(w.backend, faults);
    PassConditions(w.setting, w.backend, faults);
    HistoryDecides(w.Conditions(), outcomes);
    RunKeepsUnique(w.Conditions(), outcomes);
  }

  lemma {:induction false} CarriedUnique(w: World, events: seq<RunEvent>)
    requires Unique(w.Conditions())
    ensures Unique(AdvanceAll(w, events).Conditions())
  {
    CarriedConditions(w, events);
    RunKeepsUnique(w.Conditions(), OutcomesOf(w, events));
  }

  /**
   After any run that ends with a pass, Terminal is True if and only if that pass met a
   terminal error, which it then returned as the Terminal error. Recoverable is True if and
   only if it met another error, unless the read itself failed terminally: that leaves
   Recoverable as it was.
   */
  lemma {:induction false} LastPassDecides(w: World, events: seq<RunEvent>, faults: Faults, rest: SdkUserPool)
    requires Unique(w.Conditions())
    ensures var mid := AdvanceAll(w, events);
      var end, e := AdvanceAll(w, events + [OnePass(faults, rest)]).Conditions(), mid.Error(faults);
      && (HasTrue(end, TerminalType) <==> e.Some? && IsTerminal(e))
      && (HasTrue(end, RecoverableType) <==>
            if mid.ReadError(faults).Some? && IsTerminal(e) then HasTrue(mid.Conditions(), RecoverableType)
            else e.Some? && !IsTerminal(e))
      && mid.setting.ResultError(mid.backend, faults) ==
           (if e.None? then None else Some(if IsTerminal(e) then TERMINAL else e.value))
  {
    var run := events + [OnePass(faults, rest)];
    assert run[..|run| - 1] == events;
    CarriedUnique(w, events);
    PassDecides(AdvanceAll(w, events), faults, rest);
    PassReportsTerminalIff(AdvanceAll(w, events).setting, AdvanceAll(w, events).backend, faults);
  }

  lemma CleanPassError(s: Setting, b: Backend)
    requires s.user.status.id.Some?
    ensures FindError(s.user.status.id, NO_FAULTS).None?
    ensures var e := s.PassError(b, NO_FAULTS);
      (e.Some? <==> !InRange(s.user.spec) && s.NextReports(b).others) && !IsTerminal(e)
  {
    PassErrorIsFirstFault(s, b, NO_FAULTS);
    OthersIff(s, b);
    if !InRange(s.user.spec) {
      RangeErrorIs(s.user.spec, s.user.status.id);
    }
  }

  /** A pass in which no call fails can only meet a number out of range, which is not terminal. */
  lemma {:induction false} CleanPassDecides(w: World, rest: SdkUserPool)
    requires Unique(w.Conditions()) && w.setting.user.status.id.Some?
    ensures var end := Advance(w, OnePass(NO_FAULTS, rest)).Conditions();
      && !HasTrue(end, TerminalType)
      && (HasTrue(end, RecoverableType) <==>
            !InRange(w.setting.user.spec) && w.setting.NextReports(w.backend).others)
  {
    CleanPassError(w.setting, w.backend);
    PassDecides(w, NO_FAULTS, rest);
  }

  // ---- Tags ----

  lemma {:induction false} CarriedKeepsWanted(w: World, events: seq<RunEvent>)
    ensures AdvanceAll(w, events).setting == w.setting.(user := AdvanceAll(w, events).setting.user)
    ensures AdvanceAll(w, events).setting.user == w.setting.user.(status := AdvanceAll(w, events).setting.user.status)
    ensures AdvanceAll(w, events).setting.Wanted() == w.setting.Wanted()
  {
    if events != [] {
      CarriedKeepsWanted(w, events[..|events| - 1]);
    }
  }

  /** The tags of the pool and the tag calls after a run are those of TagRuns here, too. */
  lemma {:induction false} CarriedTags(w: World, events: seq<RunEvent>)
    ensures TagsRan(w.setting.Wanted(), w.backend, TagEventsOf(w, events), AdvanceAll(w, events).backend)
  {
    if events != [] {
      var earlier, last := events[..|events| - 1], events[|events| - 1];
      var mid := AdvanceAll(w, earlier);
      CarriedTags(w, earlier);
      CarriedKeepsWanted(w, earlier);
      EventRefines(mid.setting, mid.backend, last);
      TagsRanOn(w.setting.Wanted(), w.backend, TagEventsOf(w, earlier), mid.backend, TagEvent(mid.setting, last),
        AfterEvent(mid.setting, mid.backend, last));
    }
  }

  /** The ids in play: the one the user's resource names, and the pool's own. */
  function Ids(w: World): set<Option<string>> {
    {w.setting.user.status.id, w.backend.pool.id}
  }

  lemma UpdateResultId(desired: PoolValue, latest: PoolValue, diff: seq<Difference>, faults: Faults, identity: Identity)
    ensures var id := UpdateResult(desired, latest, diff, faults, identity).status.id;
      id == desired.status.id || id == latest.status.id
  {
  }

  lemma PassKeepsPoolId(s: Setting, b: Backend, rest: SdkUserPool, faults: Faults)
    ensures s.AfterOne(b, rest, faults).pool.id == b.pool.id
  {
  }

  lemma AdvanceKeepsIds(w: World, event: RunEvent)
    ensures Ids(Advance(w, event)) <= Ids(w) && Advance(w, event).backend.pool.id == w.backend.pool.id
  {
    if event.OnePass? {
      var s, b := w.setting, w.backend;
      PassKeepsPoolId(s, b, event.rest, event.faults);
      UpdateResultId(s.Desired(b), s.Latest(b), s.NextDelta(b), event.faults, s.identity);
      assert s.Result(b, event.faults).status.id in Ids(w);
    }
  }

  /** A resource and a pool that name the pool's id go on doing so. */
  lemma {:induction false} CarriedIds(w: World, events: seq<RunEvent>)
    requires w.setting.user.status.id.Some? && w.backend.pool.id.Some?
    ensures var end := AdvanceAll(w, events); end.setting.user.status.id.Some? && end.backend.pool.id.Some?
  {
    if events != [] {
      CarriedIds(w, events[..|events| - 1]);
      var mid := AdvanceAll(w, events[..|events| - 1]);
      AdvanceKeepsIds(mid, events[|events| - 1]);
      assert AdvanceAll(w, events).setting.user.status.id in Ids(mid);
    }
  }

  lemma {:induction false} TagEventsJoin(w: World, first: seq<RunEvent>, second: seq<RunEvent>)
    returns (tail: seq<Event>)
    ensures TagEventsOf(w, first + second) == TagEventsOf(w, first) + tail
  {
    if second == [] {
      assert first + second == first;
      tail := [];
    } else {
      var all := first + second;
      assert all[..|all| - 1] == first + second[..|second| - 1];
      var earlier := TagEventsJoin(w, first, second[..|second| - 1]);
      tail := earlier + [TagEvent(AdvanceAll(w, all[..|all| - 1]).setting, all[|all| - 1])];
    }
  }

  /**
   Tags and conditions together: in every run no tag call names a key of AWS's; a pass in
   which no call fails leaves exactly the wanted tags beside AWS's and no True Terminal
   condition; and nothing that follows changes these tags or makes a tag call.
   */
  lemma {:induction false} CarriedRunConverges(w: World, before: seq<RunEvent>, rest: SdkUserPool, after: seq<RunEvent>)
    requires NoAwsKey(w.setting.Wanted()) && Unique(w.Conditions())
    requires w.setting.user.status.id.Some? && w.backend.pool.id.Some?
    ensures var run := before + [OnePass(NO_FAULTS, rest)];
      var reached, end := AdvanceAll(w, run), AdvanceAll(w, run + after);
      && !HasTrue(reached.Conditions(), TerminalType)
      && UserOnly(end.backend.tags) == w.setting.Wanted()
      && end.backend.tagCalls == reached.backend.tagCalls
      && w.backend.tagCalls <= end.backend.tagCalls
      && forall call <- end.backend.tagCalls[|w.backend.tagCalls|..], key | "aws:" <= key :: !call.Mentions(key)
  {
    var run := before + [OnePass(NO_FAULTS, rest)];
    var mid, wanted := AdvanceAll(w, before), w.setting.Wanted();
    assert run[..|run| - 1] == before;
    CarriedIds(w, before);
    CarriedUnique(w, before);
    CleanPassDecides(mid, rest);
    var e, clean := TagEventsOf(w, before), Pass(NO_FAULT);
    assert TagEventsOf(w, run) == e + [clean];
    var f := TagEventsJoin(w, run, after);
    CarriedTags(w, run);
    CarriedTags(w, run + after);
    CleanPassConverges(wanted, w.backend.tags, e, f);
    RunsSpareAwsKeys(wanted, w.backend.tags, e + [clean] + f);
  }

  /** A key is only removed once every wanted tag is in place here, too. */
  lemma CarriedRemovesNothingBeforeWanted(w: World, events: seq<RunEvent>)
    requires NoAwsKey(w.setting.Wanted()) && !HasWanted(w.setting.Wanted(), AdvanceAll(w, events).backend.tags)
    ensures var end := AdvanceAll(w, events).backend;
      && UserOnly(w.backend.tags).Keys <= end.tags.Keys
      && w.backend.tagCalls <= end.tagCalls
      && forall call <- end.tagCalls[|w.backend.tagCalls|..] :: !call.Untag?
  {
    CarriedTags(w, events);
    NothingRemovedBeforeWanted(w.setting.Wanted(), w.backend.tags, TagEventsOf(w, events));
  }

  // ---- The pool that is called ----

  lemma NamesAmongMore(b: Backend, after: Backend, ids: set<Option<string>>, more: set<Option<string>>, arn: string)
    requires NewCallsName(b, after, ids, arn) && ids <= more
    ensures NewCallsName(b, after, more, arn)
  {
  }

  /** Every call names the pool: by the id the user's resource began with or the pool's own, or by its ARN. */
  lemma {:induction false} CarriedNames(w: World, events: seq<RunEvent>)
    requires w.backend.pool.arn.Some?
    ensures var end := AdvanceAll(w, events);
      && NewCallsName(w.backend, end.backend, Ids(w), w.backend.pool.arn.value)
      && Ids(end) <= Ids(w)
      && end.backend.pool.arn == w.backend.pool.arn
  {
    if events != [] {
      var mid, last := AdvanceAll(w, events[..|events| - 1]), events[|events| - 1];
      var after, arn := AfterEvent(mid.setting, mid.backend, last), w.backend.pool.arn.value;
      CarriedNames(w, events[..|events| - 1]);
      AdvanceKeepsIds(mid, last);
      EventRefines(mid.setting, mid.backend, last);
      if last.OnePass? {
        PassNames(mid.setting, mid.backend, last.rest, last.faults);
        NamesAmongMore(mid.backend, after, {mid.setting.user.status.id}, Ids(w), arn);
      }
      NewCallsChain(w.backend, mid.backend, after, Ids(w), arn);
    }
  }

  // ---- Region, partition and account ----

  /** What is set stays; what is not is left unset or becomes the manager's own. */
  predicate SetStays(before: Option<string>, after: Option<string>, own: string) {
    if before.Some? then after == before else after == None || after == Some(own)
  }

  predicate IdentityStays(before: StatusValue, after: StatusValue, identity: Identity) {
    var m, n := before.metadata.GetOr(NO_METADATA), after.metadata.GetOr(NO_METADATA);
    && SetStays(m.region, n.region, identity.region)
    && SetStays(m.partition, n.partition, identity.partition)
    && SetStays(m.ownerAccountID, n.ownerAccountID, identity.account)
  }

  lemma UpdateResultIdentity(desired: PoolValue, latest: PoolValue, diff: seq<Difference>, faults: Faults,
                             identity: Identity, before: StatusValue)
    requires IdentityStays(before, desired.status, identity) && IdentityStays(before, latest.status, identity)
    ensures IdentityStays(before, UpdateResult(desired, latest, diff, faults, identity).status, identity)
  {
  }

  lemma ResultIdentity(s: Setting, b: Backend, faults: Faults)
    ensures IdentityStays(s.user.status, s.Result(b, faults).status, s.identity)
  {
    UpdateResultIdentity(s.Desired(b), s.Latest(b), s.NextDelta(b), faults, s.identity, s.user.status);
  }

  /** No run moves a resource to another region, partition or account. */
  lemma {:induction false} CarriedIdentity(w: World, events: seq<RunEvent>)
    ensures IdentityStays(w.setting.user.status, AdvanceAll(w, events).setting.user.status, w.setting.identity)
  {
    if events != [] {
      var earlier, last := events[..|events| - 1], events[|events| - 1];
      var mid := AdvanceAll(w, earlier);
      CarriedIdentity(w, earlier);
      CarriedKeepsWanted(w, earlier);
      if last.OnePass? {
        ResultIdentity(mid.setting, mid.backend, last.faults);
      }
    }
  }

  // ---- The ARN ----

  lemma OutcomeKeepsArn(v: PoolValue, err: Option<GoError>, identity: Identity, pool: SdkUserPool)
    requires ArnKnown(v.status, pool)
    ensures ArnKnown(WithOutcome(v, err, identity).status, pool)
    ensures ArnKnown(Defaulted(v, identity).status, pool)
  {
  }

  lemma UpdateResultKeepsArn(desired: PoolValue, latest: PoolValue, diff: seq<Difference>, faults: Faults,
                             identity: Identity, pool: SdkUserPool)
    requires ArnKnown(desired.status, pool) && ArnKnown(latest.status, pool)
    ensures ArnKnown(UpdateResult(desired, latest, diff, faults, identity).status, pool)
  {
    OutcomeKeepsArn(latest, UpdateError(desired, latest, ReportsIn(diff), faults), identity, pool);
    OutcomeKeepsArn(desired, None, identity, pool);
    OutcomeKeepsArn(Defaulted(desired, identity), None, identity, pool);
  }

  lemma ResultKeepsArn(w: World, faults: Faults)
    requires ArnKnown(w.setting.user.status, w.backend.pool)
    ensures ArnKnown(w.setting.Result(w.backend, faults).status, w.backend.pool)
  {
    var s, b := w.setting, w.backend;
    OutcomeKeepsArn(s.user, w.ReadError(faults), s.identity, b.pool);
    OutcomeKeepsArn(Found(s.user, b.pool, b.tags, s.identity), None, s.identity, b.pool);
    UpdateResultKeepsArn(s.Desired(b), s.Latest(b), s.NextDelta(b), faults, s.identity, b.pool);
  }

  lemma {:induction false} CarriedArn(w: World, events: seq<RunEvent>)
    requires ArnKnown(w.setting.user.status, w.backend.pool)
    ensures var end := AdvanceAll(w, events); ArnKnown(end.setting.user.status, end.backend.pool)
  {
    if events != [] {
      var earlier, last := events[..|events| - 1], events[|events| - 1];
      var mid := AdvanceAll(w, earlier);
      CarriedArn(w, earlier);
      EventRefines(mid.setting, mid.backend, last);
      if last.OnePass? {
        ResultKeepsArn(mid, last.faults);
      }
    }
  }
}
