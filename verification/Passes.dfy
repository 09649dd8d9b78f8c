/**
 Whole reconciliations on the heap: the manager's methods in the order Reconcile assumes, each
 composition proved to compute the functions the theorems are about.
 */
module Passes {
  import opened Nullable
  import opened AckTags
  import opened Errors
  import opened Shapes
  import opened Conditions
  import opened Codec
  import opened TagRuns
  import opened Delta
  import opened ResourceDelta
  import opened DeltaTheorems
  import opened UserPools
  import opened Service
  import opened Manager
  import opened Reconcile
  import opened Settling
  import opened CarriedRuns

  /** The desired resource a pass starts from. */
  method Prepare(rm: ResourceManager, user: UserPool, defaults: Tags) returns (desired: UserPool)
    ensures fresh(desired)
    ensures desired.Value() == old(user.Value()).(tags := ToValues(Ensured(old(Deref(user.tags)), defaults)))
  {
    desired := user.DeepCopy();
    rm.EnsureTags(desired, defaults);
  }

  /** Compares the two resources and updates the pool if anything differs. */
  method CompareAndUpdate(rm: ResourceManager, lib: Library, desired: UserPool, latest: UserPool,
                          rest: SdkUserPool, faults: Faults)
    returns (res: UserPool, err: Option<GoError>)
    requires NoNilTag(desired.Value().tags) && NoNilTag(latest.Value().tags)
    requires latest.metadata != null && latest.metadata.arn.Some?
    modifies rm.sdkapi
    ensures var d, l := old(desired.Value()), old(latest.Value());
      var diff := SpecDiff(lib, Compared(d), Compared(l));
      && rm.sdkapi.Value() == AfterUpdate(old(rm.sdkapi.Value()), d, l, ReportsIn(diff), rest, faults)
      && err == UpdateReported(d, l, diff, faults)
      && res.Value() == UpdateResult(d, l, diff, faults, rm.identity)
    ensures fresh(res) || res == desired || res == latest
  {
    ghost var d, l := desired.Value(), latest.Value();
    var delta := NewResourceDelta(lib, desired, latest);
    ghost var diff := SpecDiff(lib, Compared(d), Compared(l));
    AllUnderSpec(lib, Compared(d), Compared(l));
    EmptyReports(diff);
    assert delta.differences == diff && ReportsOf(delta) == ReportsIn(diff);
    if delta.DifferentAt(ROOT) {
      NoNilCell(desired.tags);
      NoNilCell(latest.tags);
      res, err := rm.Update(desired, latest, delta, rest, faults);
    } else {
      res, err := latest, None;
    }
  }

  /** The second half of a pass: the update, and the filter on what it hands back. */
  method UpdateAndFilter(rm: ResourceManager, lib: Library, desired: UserPool, latest: UserPool,
                         systemTags: seq<string>, rest: SdkUserPool, faults: Faults)
    returns (res: UserPool, err: Option<GoError>)
    requires NoNilTag(desired.Value().tags) && NoNilTag(latest.Value().tags)
    requires latest.metadata != null && latest.metadata.arn.Some?
    modifies rm.sdkapi, desired`tags, latest`tags
    ensures var d, l := old(desired.Value()), old(latest.Value());
      var diff := SpecDiff(lib, Compared(d), Compared(l));
      var result := UpdateResult(d, l, diff, faults, rm.identity);
      && rm.sdkapi.Value() == AfterUpdate(old(rm.sdkapi.Value()), d, l, ReportsIn(diff), rest, faults)
      && err == UpdateReported(d, l, diff, faults)
      && res.Value() == if err.Some? then result else Filtered(result, systemTags)
    ensures fresh(res) || res == desired || res == latest
  {
    res, err := CompareAndUpdate(rm, lib, desired, latest, rest, faults);
    if err.None? {
      rm.FilterSystemTags(res, systemTags);
    }
  }

  /** The first half of a pass: the desired resource, and the pool as it is or the error of the read. */
  method PrepareAndRead(rm: ResourceManager, ghost lib: Library, user: UserPool, defaults: Tags, faults: Faults)
    returns (desired: UserPool, latest: UserPool, err: Option<GoError>)
    modifies rm.sdkapi`calls
    ensures fresh(desired) && fresh(latest)
    ensures var s, b := Setting(lib, old(user.Value()), defaults, rm.identity), old(rm.sdkapi.Value());
      && rm.sdkapi.Value() == AfterRead(b, s.user.status, faults, rm.identity)
      && if FindError(s.user.status.id, faults).Some?
         then err == s.ResultError(b, faults) && latest.Value() == s.Result(b, faults)
         else err.None? && desired.Value() == s.Desired(b) && latest.Value() == s.Latest(b)
  {
    ghost var s, b := Setting(lib, user.Value(), defaults, rm.identity), rm.sdkapi.Value();
    desired := Prepare(rm, user, defaults);
    ghost var prepared := desired.Value();
    assert prepared == s.user.(tags := ToValues(s.Wanted()));
    ValuesReadBack(s.Wanted());
    latest, err := rm.ReadOne(desired, faults);
    if err.None? {
      assert Found(prepared, b.pool, b.tags, rm.identity) == Found(s.user, b.pool, b.tags, rm.identity);
    }
  }

  /** One pass: service, error and result are those of AfterOne, ResultError and Result; user stays as it is. */
  method ReconcileOnce(rm: ResourceManager, lib: Library, user: UserPool, defaults: Tags, systemTags: seq<string>,
                       rest: SdkUserPool, faults: Faults) returns (res: UserPool, err: Option<GoError>)
    requires ArnKnown(user.Status(), rm.sdkapi.pool)
    modifies rm.sdkapi
    ensures fresh(res)
    ensures var s, b := Setting(lib, old(user.Value()), defaults, rm.identity), old(rm.sdkapi.Value());
      && rm.sdkapi.Value() == s.AfterOne(b, rest, faults)
      && err == s.ResultError(b, faults)
      && res.Value() == (if err.Some? then s.Result(b, faults) else Filtered(s.Result(b, faults), systemTags))
      && (b.pool.arn.Some? ==> NewCallsName(b, rm.sdkapi.Value(), {s.user.status.id}, b.pool.arn.value))
  {
    ghost var s, b := Setting(lib, user.Value(), defaults, rm.identity), rm.sdkapi.Value();
    if b.pool.arn.Some? {
      PassNames(s, b, rest, faults);
    }
    var desired, latest;
    desired, latest, err := PrepareAndRead(rm, lib, user, defaults, faults);
    if err.Some? {
      return latest, err;
    }
    ReadyToUpdate(s, b);
    res, err := UpdateAndFilter(rm, lib, desired, latest, systemTags, rest, faults);
  }

  /** The tags a pass without error hands back: the user's, exactly where the filter undoes the injection. */
  lemma FilteredResultTags(s: Setting, b: Backend, faults: Faults, systemTags: seq<string>)
    requires s.PassError(b, faults).None?
    ensures ToTags(Filtered(s.Result(b, faults), systemTags).tags) == ToTags(s.user.tags) <==>
      && (forall k <- s.user.tags :: !IsAws(k) && k !in systemTags)
      && (forall k <- s.defaults :: k in s.user.tags || IsAws(k) || k in systemTags)
  {
    ResultTags(s, b, faults);
    ValuesReadBack(WithoutSystem(Target(s.Wanted(), b.tags), systemTags));
    FilterUndoesInjectIff(s.user.tags, s.defaults, b.tags, systemTags);
  }

  lemma ArnStaysKnown(s: Setting, b: Backend, events: seq<RunEvent>)
    requires ArnKnown(s.user.status, b.pool)
    ensures ArnKnown(s.user.status, AfterEvents(s, b, events).pool)
  {
    RunRefines(s, b, events);
  }

  method RunOne(rm: ResourceManager, lib: Library, user: UserPool, defaults: Tags, systemTags: seq<string>,
                event: RunEvent)
    requires ArnKnown(user.Status(), rm.sdkapi.pool)
    modifies rm.sdkapi
    ensures var s := Setting(lib, old(user.Value()), defaults, rm.identity);
      rm.sdkapi.Value() == AfterEvent(s, old(rm.sdkapi.Value()), event)
  {
    match event {
      case OnePass(faults, rest) =>
        var _, _ := ReconcileOnce(rm, lib, user, defaults, systemTags, rest, faults);
      case AwsDrift(aws) =>
        rm.sdkapi.Drift(aws);
    }
  }

  /** Any number of passes, each from the user's own resource, with AWS's tags drifting in between. */
  method ReconcileRun(rm: ResourceManager, lib: Library, user: UserPool, defaults: Tags, systemTags: seq<string>,
                      events: seq<RunEvent>)
    requires ArnKnown(user.Status(), rm.sdkapi.pool)
    modifies rm.sdkapi
    ensures var s := Setting(lib, old(user.Value()), defaults, rm.identity);
      && rm.sdkapi.Value() == AfterEvents(s, old(rm.sdkapi.Value()), events)
      && (old(rm.sdkapi.pool).arn.Some? ==>
            NewCallsName(old(rm.sdkapi.Value()), rm.sdkapi.Value(), {s.user.status.id}, old(rm.sdkapi.pool).arn.value))
  {
    ghost var s, b := Setting(lib, user.Value(), defaults, rm.identity), rm.sdkapi.Value();
    for i := 0 to |events|
      invariant user.Value() == s.user
      invariant rm.sdkapi.Value() == AfterEvents(s, b, events[..i])
    {
      ArnStaysKnown(s, b, events[..i]);
      assert events[..i + 1][..i] == events[..i];
      RunOne(rm, lib, user, defaults, systemTags, events[i]);
    }
    assert events[..|events|] == events;
    if b.pool.arn.Some? {
      RunNames(s, b, events);
    }
  }

  /** Any number of passes, the status of each result written to the user's resource for the next. */
  method ReconcileCarried(rm: ResourceManager, lib: Library, user: UserPool, defaults: Tags, systemTags: seq<string>,
                          events: seq<RunEvent>)
    requires ArnKnown(user.Status(), rm.sdkapi.pool)
    modifies rm.sdkapi, user`id, user`metadata, user`conditions
    ensures var w := World(Setting(lib, old(user.Value()), defaults, rm.identity), old(rm.sdkapi.Value()));
      var end := AdvanceAll(w, events);
      && user.Value() == end.setting.user && rm.sdkapi.Value() == end.backend
      && (w.backend.pool.arn.Some? ==> NewCallsName(w.backend, rm.sdkapi.Value(), Ids(w), w.backend.pool.arn.value))
  {
    ghost var w := World(Setting(lib, user.Value(), defaults, rm.identity), rm.sdkapi.Value());
    for i := 0 to |events|
      invariant Setting(lib, user.Value(), defaults, rm.identity) == AdvanceAll(w, events[..i]).setting
      invariant rm.sdkapi.Value() == AdvanceAll(w, events[..i]).backend
    {
      CarriedArn(w, events[..i]);
      assert events[..i + 1][..i] == events[..i];
      CarryOne(rm, lib, user, defaults, systemTags, events[i]);
    }
    assert events[..|events|] == events;
    if w.backend.pool.arn.Some? {
      CarriedNames(w, events);
    }
  }

  method CarryOne(rm: ResourceManager, lib: Library, user: UserPool, defaults: Tags, systemTags: seq<string>,
                  event: RunEvent)
    requires ArnKnown(user.Status(), rm.sdkapi.pool)
    modifies rm.sdkapi, user`id, user`metadata, user`conditions
    ensures var w := World(Setting(lib, old(user.Value()), defaults, rm.identity), old(rm.sdkapi.Value()));
      Advance(w, event) == World(Setting(lib, user.Value(), defaults, rm.identity), rm.sdkapi.Value())
  {
    match event {
      case OnePass(faults, rest) =>
        var res, _ := ReconcileOnce(rm, lib, user, defaults, systemTags, rest, faults);
        user.SetStatus(res);
      case AwsDrift(aws) =>
        rm.sdkapi.Drift(aws);
    }
  }

  /** What a creation and the pass after it do to the tags: nothing, and then all. */
  lemma FirstPassReachesTarget(s: Setting, b: Backend, rest: SdkUserPool)
    requires s.user.status.id.Some?
    ensures s.AfterOne(b, rest, NO_FAULTS).tags == Target(s.Wanted(), b.tags)
    ensures s.AfterOne(b, rest, NO_FAULTS).tagCalls == b.tagCalls + PassCalls(s.Wanted(), b.tags, NO_FAULT)
  {
    PassRefines(s, b, rest, NO_FAULTS);
    PassReachesTarget(s.Wanted(), b.tags);
  }

  /** The status of a created resource names the pool the service answered with. */
  predicate NamesCreated(status: StatusValue, answer: SdkUserPool) {
    && status.id == answer.id
    && (answer.arn.Some? ==> status.metadata.Some? && status.metadata.value.arn == answer.arn)
  }

  lemma CreatedIsNamed(user: PoolValue, tags: TagValues, answer: SdkUserPool, identity: Identity)
    requires ArnKnown(user.status, answer)
    ensures var created := WithOutcome(Filled(user.(tags := tags), answer, identity), None, identity);
      NamesCreated(created.status, answer) && ArnKnown(created.status, answer)
  {
    FilledNamesPool(user.status, answer.arn, answer.id, identity);
  }

  method CreatePrepared(rm: ResourceManager, user: UserPool, defaults: Tags, answer: SdkUserPool, initial: Tags,
                        faults: Faults) returns (created: UserPool, err: Option<GoError>)
    requires ArnKnown(user.Status(), answer)
    modifies rm.sdkapi
    ensures err.Some? <==> SendCreateError(old(user.spec), faults).Some?
    ensures err.None? ==> NamesCreated(created.Status(), answer) && ArnKnown(created.Status(), answer)
    ensures rm.sdkapi.Value() == AfterCreate(old(rm.sdkapi.Value()), old(user.spec), answer, initial, faults)
  {
    ghost var v := user.Value();
    var desired := Prepare(rm, user, defaults);
    created, err := rm.Create(desired, answer, initial, faults);
    CreatedIsNamed(v, ToValues(Ensured(v.tags, defaults)), answer, rm.identity);
    assert err.None? ==> NamesCreated(created.Value().status, answer);
  }

  /** Creates the pool and writes the status of the result to the user's resource. */
  method CreateFor(rm: ResourceManager, user: UserPool, defaults: Tags, answer: SdkUserPool, initial: Tags,
                   faults: Faults) returns (err: Option<GoError>)
    requires ArnKnown(user.Status(), answer)
    modifies rm.sdkapi, user`id, user`metadata, user`conditions
    ensures err.Some? <==> SendCreateError(user.spec, faults).Some?
    ensures err.Some? ==> user.Value() == old(user.Value())
    ensures err.None? ==> NamesCreated(user.Status(), answer) && ArnKnown(user.Status(), answer)
    ensures rm.sdkapi.Value() == AfterCreate(old(rm.sdkapi.Value()), user.spec, answer, initial, faults)
  {
    var created;
    created, err := CreatePrepared(rm, user, defaults, answer, initial, faults);
    if err.None? {
      user.SetStatus(created);
    }
  }

  ghost predicate NoUpdateSince(b: Backend, after: Backend) {
    && b.otherCalls <= after.otherCalls
    && forall i | |b.otherCalls| <= i < |after.otherCalls| :: !after.otherCalls[i].UpdateUserPool?
  }

  function Created(b: Backend, spec: Spec, answer: SdkUserPool, initial: Tags): Backend {
    AfterCreate(b, spec, answer, initial, NO_FAULTS)
  }

  /** The calls of a creation and of the pass after it name the created pool. */
  lemma CreationNames(s: Setting, b: Backend, answer: SdkUserPool, initial: Tags, rest: SdkUserPool)
    requires CreatePayload(s.user.spec).Ok? && NamesCreated(s.user.status, answer) && answer.arn.Some?
    ensures NewCallsName(b, s.AfterOne(Created(b, s.user.spec, answer, initial), rest, NO_FAULTS),
                         {answer.id}, answer.arn.value)
  {
    var created := Created(b, s.user.spec, answer, initial);
    PassNames(s, created, rest, NO_FAULTS);
    NewCallsChain(b, created, s.AfterOne(created, rest, NO_FAULTS), {answer.id}, answer.arn.value);
  }

  /** A pool created from a normal spec and stored as sent is not updated afterwards. */
  lemma CreationNeedsNoUpdate(s: Setting, b: Backend, answer: SdkUserPool, initial: Tags, rest: SdkUserPool)
    requires Reflexive(s.lib) && Normal(s.user.spec) == s.user.spec
    requires CreatePayload(s.user.spec).Ok? && CreateStores(answer, CreatePayload(s.user.spec).value)
    ensures var after := s.AfterOne(Created(b, s.user.spec, answer, initial), rest, NO_FAULTS);
      after.pool == answer && NoUpdateSince(b, after)
  {
    var created := Created(b, s.user.spec, answer, initial);
    var after := s.AfterOne(created, rest, NO_FAULTS);
    CreatedPoolIsNotUpdated(s, created, rest, NO_FAULTS);
    forall i | |b.otherCalls| <= i < |after.otherCalls| ensures !after.otherCalls[i].UpdateUserPool? {
      assert i < |created.otherCalls| ==> after.otherCalls[i] == created.otherCalls[i];
    }
  }

  /** What a creation and the pass after it add up to. */
  lemma CreationAndPass(s: Setting, b: Backend, answer: SdkUserPool, initial: Tags, rest: SdkUserPool)
    requires CreatePayload(s.user.spec).Ok? && NamesCreated(s.user.status, answer)
    ensures var after := s.AfterOne(Created(b, s.user.spec, answer, initial), rest, NO_FAULTS);
      && (answer.id.Some? ==>
            && after.tags == Target(s.Wanted(), initial)
            && after.tagCalls == b.tagCalls + PassCalls(s.Wanted(), initial, NO_FAULT))
      && (answer.arn.Some? ==> NewCallsName(b, after, {answer.id}, answer.arn.value))
      && (Reflexive(s.lib) && Normal(s.user.spec) == s.user.spec &&
          CreateStores(answer, CreatePayload(s.user.spec).value) ==>
            after.pool == answer && NoUpdateSince(b, after))
  {
    if answer.id.Some? {
      FirstPassReachesTarget(s, Created(b, s.user.spec, answer, initial), rest);
    }
    if answer.arn.Some? {
      CreationNames(s, b, answer, initial, rest);
    }
    if Reflexive(s.lib) && Normal(s.user.spec) == s.user.spec &&
       CreateStores(answer, CreatePayload(s.user.spec).value)
    {
      CreationNeedsNoUpdate(s, b, answer, initial, rest);
    }
  }

  /**
   A creation makes no tag call, for it compares the tags with their own copy; the pass that
   follows brings them in.
   */
  method CreateThenReconcile(rm: ResourceManager, lib: Library, user: UserPool, defaults: Tags, systemTags: seq<string>,
                             answer: SdkUserPool, initial: Tags, rest: SdkUserPool, faults: Faults)
    returns (err: Option<GoError>)
    requires ArnKnown(user.Status(), answer)
    modifies rm.sdkapi, user`id, user`metadata, user`conditions
    ensures err.None? <==> InRange(user.spec) && faults.create.None?
    ensures err.None? ==> CreatePayload(user.spec).Ok?
    ensures !InRange(user.spec) ==> rm.sdkapi.Value() == old(rm.sdkapi.Value())
    ensures err.Some? ==>
      && rm.sdkapi.tags == old(rm.sdkapi.tags) && rm.sdkapi.Value().tagCalls == old(rm.sdkapi.Value()).tagCalls
      && user.Value() == old(user.Value())
    ensures err.None? ==> NamesCreated(user.Status(), answer)
    ensures err.None? && answer.arn.Some? ==>
      NewCallsName(old(rm.sdkapi.Value()), rm.sdkapi.Value(), {answer.id}, answer.arn.value)
    ensures err.None? && Reflexive(lib) && Normal(user.spec) == user.spec &&
            CreateStores(answer, CreatePayload(user.spec).value) ==>
      && rm.sdkapi.pool == answer
      && NoUpdateSince(old(rm.sdkapi.Value()), rm.sdkapi.Value())
    ensures err.None? && answer.id.Some? ==>
      var wanted := Ensured(Deref(user.tags), defaults);
      && rm.sdkapi.tags == Target(wanted, initial)
      && rm.sdkapi.Value().tagCalls == old(rm.sdkapi.Value()).tagCalls + PassCalls(wanted, initial, NO_FAULT)
  {
    PayloadsFailIff(user.spec, None);
    ghost var b0 := rm.sdkapi.Value();
    err := CreateFor(rm, user, defaults, answer, initial, faults);
    if err.Some? {
      return;
    }
    ghost var s := Setting(lib, user.Value(), defaults, rm.identity);
    assert rm.sdkapi.Value() == Created(b0, s.user.spec, answer, initial);
    var _, _ := ReconcileOnce(rm, lib, user, defaults, systemTags, rest, NO_FAULTS);
    CreationAndPass(s, b0, answer, initial, rest);
  }

  /** A run of outcomes, each reported on the resource the one before handed back. */
  method ReportOutcomes(rm: ResourceManager, r: UserPool, outcomes: seq<Option<GoError>>) returns (res: UserPool)
    ensures res.Status().conditions == AfterRun(old(r.Status()).conditions, outcomes)
    ensures r.Value() == old(r.Value())
  {
    res := r;
    for i := 0 to |outcomes|
      invariant res.Status().conditions == AfterRun(old(r.Status()).conditions, outcomes[..i])
    {
      assert outcomes[..i + 1][..i] == outcomes[..i];
      var next: UserPool?;
      if outcomes[i].Some? {
        var reported, _ := rm.OnError(res, outcomes[i].value);
        next := reported;
      } else {
        next := rm.OnSuccess(res);
      }
      res := next;
    }
    assert outcomes[..|outcomes|] == outcomes;
  }

  /** Replacing the shared list of one of two resources leaves the other its own, and the metadata shared. */
  method ReplaceConditionsOfSharer(a: UserPool, b: UserPool, conditions: seq<Condition>)
    modifies a`id, a`metadata, a`conditions
    ensures a.Status() == old(b.Status()).(conditions := ValuesOf(conditions))
    ensures a.metadata == old(b.metadata) && a.spec == old(a.spec) && a.tags == old(a.tags)
    ensures a != b ==> b.Value() == old(b.Value())
  {
    a.SetStatus(b);
    a.ReplaceConditions(conditions);
  }

  /** Resources that share their conditions through SetStatus: updating one's leaves both as they were. */
  method UpdateConditionsOfSharer(rm: ResourceManager, a: UserPool, b: UserPool, err: Option<GoError>)
    returns (updated: UserPool?)
    modifies a`id, a`metadata, a`conditions
    ensures a.conditions == old(b.conditions) && a.metadata == old(b.metadata)
    ensures a.Status() == old(b.Status())
    ensures a != b ==> b.Value() == old(b.Value())
    ensures updated != null <==> Touched(old(b.Status()).conditions, err)
    ensures updated != null ==>
      && updated.Status().conditions == Updated(old(b.Status()).conditions, err)
      && forall c <- updated.conditions :: c !in a.conditions
  {
    a.SetStatus(b);
    var r1, _ := rm.UpdateConditions(a, err);
    updated := r1;
  }
}
