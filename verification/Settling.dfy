/** When a controller stops writing, and when it never does. */
module Settling {
  import opened Nullable
  import opened Shapes
  import opened Codec
  import opened TagRuns
  import opened Delta
  import opened DeltaTheorems
  import opened Service
  import opened Manager
  import opened Reconcile

  /** From b to after nothing was written: pool and tag calls are the same, and only reads were added to the log. */
  ghost predicate OnlyRead(b: Backend, after: Backend) {
    && after.pool == b.pool && after.tagCalls == b.tagCalls
    && b.otherCalls <= after.otherCalls
    && forall i | |b.otherCalls| <= i < |after.otherCalls| ::
         after.otherCalls[i].DescribeUserPool? || after.otherCalls[i].ListTagsForResource?
  }

  lemma NothingLeftIff(s: Setting, b: Backend)
    ensures s.NextDelta(b) == [] <==>
      SpecsAgree(s.lib, s.user.spec, ReadBack(s.user.spec, b.pool)) && Target(s.Wanted(), b.tags) == b.tags
  {
    NothingReportedIff(s.lib, Compared(s.Desired(b)), Compared(s.Latest(b)));
    ComparedTags(s, b);
  }

  lemma EventOnlyReads(s: Setting, b: Backend, event: RunEvent)
    requires NoAwsKey(s.Wanted()) && s.NextDelta(b) == []
    ensures OnlyRead(b, AfterEvent(s, b, event)) && s.NextDelta(AfterEvent(s, b, event)) == []
  {
    var after := AfterEvent(s, b, event);
    NothingLeftIff(s, b);
    EventRefines(s, b, event);
    StepStaysAtTarget(s.Wanted(), b.tags, TagEvent(s, event));
    assert s.NextReports(b) == Reports(false, false);
    assert after.pool == b.pool;
    NothingLeftIff(s, after);
  }

  /** A controller that finds nothing different never writes again, however calls fail and AWS tags drift. */
  lemma {:induction false} SettledRunOnlyReads(s: Setting, b: Backend, events: seq<RunEvent>)
    requires NoAwsKey(s.Wanted()) && s.NextDelta(b) == []
    ensures OnlyRead(b, AfterEvents(s, b, events)) && s.NextDelta(AfterEvents(s, b, events)) == []
  {
    if events != [] {
      var mid := AfterEvents(s, b, events[..|events| - 1]);
      SettledRunOnlyReads(s, b, events[..|events| - 1]);
      EventOnlyReads(s, mid, events[|events| - 1]);
      OnlyReadChain(b, mid, AfterEvent(s, mid, events[|events| - 1]));
    }
  }

  lemma OnlyReadChain(b: Backend, mid: Backend, after: Backend)
    requires OnlyRead(b, mid) && OnlyRead(mid, after)
    ensures OnlyRead(b, after)
  {
    forall i | |b.otherCalls| <= i < |after.otherCalls|
      ensures after.otherCalls[i].DescribeUserPool? || after.otherCalls[i].ListTagsForResource?
    {
      assert i < |mid.otherCalls| ==> after.otherCalls[i] == mid.otherCalls[i];
    }
  }

  // ---- When a pass is the last to write ----

  /** The sections an update does not send, nil in desired or set at creation only, agree with the pool. */
  predicate UnsentAgree(lib: Library, spec: Spec, pool: SdkUserPool) {
    && (spec.accountRecoverySetting.None? ==> pool.accountRecoverySetting.None?)
    && (spec.adminCreateUserConfig.None? ==> pool.adminCreateUserConfig.None?)
    && (spec.autoVerifiedAttributes.None? ==> ListsAgree(lib.strings, None, pool.autoVerifiedAttributes))
    && (spec.deletionProtection.None? ==> pool.deletionProtection == "")
    && (spec.deviceConfiguration.None? ==> pool.deviceConfiguration.None?)
    && (spec.emailConfiguration.None? ==> pool.emailConfiguration.None?)
    && (spec.policies.None? ==> pool.policies.None?)
    && ListsAgree(lib.strings, spec.aliasAttributes, pool.aliasAttributes)
    && spec.name == pool.name
    && ListsAgree(lib.strings, spec.usernameAttributes, pool.usernameAttributes)
    && spec.usernameConfiguration == pool.usernameConfiguration
  }

  lemma StoredAgreeIff(lib: Library, spec: Spec, id: Option<string>, pool: SdkUserPool)
    requires Reflexive(lib) && Normal(spec) == spec
    requires UpdatePayload(spec, id).Ok? && Stores(pool, UpdatePayload(spec, id).value)
    ensures SpecsAgree(lib, spec, ReadBack(spec, pool)) <==> UnsentAgree(lib, spec, pool)
  {
    UpdateReadsBackNormal(spec, id, spec, pool);
  }

  lemma AgreedMeansUnsentAgree(lib: Library, spec: Spec, pool: SdkUserPool)
    requires SpecsAgree(lib, spec, ReadBack(spec, pool))
    ensures UnsentAgree(lib, spec, pool)
  {
  }

  /**
   After a pass without error from a spec in normal form nothing is left to report if and
   only if what it cannot send agrees.
   */
  lemma SettledIff(s: Setting, b: Backend, rest: SdkUserPool, faults: Faults)
    requires Reflexive(s.lib) && Normal(s.user.spec) == s.user.spec
    requires s.PassError(b, faults).None? && s.user.status.id == b.pool.id
    ensures var after := s.AfterOne(b, rest, faults);
      s.NextDelta(after) == [] <==> UnsentAgree(s.lib, s.user.spec, after.pool)
  {
    var after, spec, id := s.AfterOne(b, rest, faults), s.user.spec, s.user.status.id;
    CleanUpdateReachesTarget(s, b, rest, faults);
    TargetIsStable(s.Wanted(), b.tags, NO_FAULT);
    PassReachesTarget(s.Wanted(), b.tags);
    NothingLeftIff(s, after);
    OthersReportedIff(s.lib, Compared(s.Desired(b)), Compared(s.Latest(b)));
    if s.NextReports(b).others {
      OverlayStores(b.pool, UpdatePayload(spec, id).value, rest);
      StoredAgreeIff(s.lib, spec, id, after.pool);
    } else {
      AgreedMeansUnsentAgree(s.lib, spec, b.pool);
    }
  }

  /** Such a pass ends all writing: whatever fails and drifts afterwards, the controller only reads. */
  lemma {:induction false} SuccessfulPassEndsWrites(s: Setting, b: Backend, rest: SdkUserPool, faults: Faults,
                                                    events: seq<RunEvent>)
    requires Reflexive(s.lib) && Normal(s.user.spec) == s.user.spec && NoAwsKey(s.Wanted())
    requires s.PassError(b, faults).None? && s.user.status.id == b.pool.id
    requires UnsentAgree(s.lib, s.user.spec, s.AfterOne(b, rest, faults).pool)
    ensures var after := s.AfterOne(b, rest, faults); OnlyRead(after, AfterEvents(s, after, events))
  {
    SettledIff(s, b, rest, faults);
    SettledRunOnlyReads(s, s.AfterOne(b, rest, faults), events);
  }

  // ---- When no pass is ----

  /** The sections compared by pointers and values alone are in normal form. */
  predicate PlainSectionsNormal(spec: Spec) {
    && spec.adminCreateUserConfig == Normal(spec).adminCreateUserConfig
    && spec.deletionProtection == Normal(spec).deletionProtection
    && spec.deviceConfiguration == Normal(spec).deviceConfiguration
    && spec.emailConfiguration == Normal(spec).emailConfiguration
    && spec.policies == Normal(spec).policies
  }

  /** Whatever the pool holds, a section that is not in normal form is found different. */
  lemma NonNormalIsReported(s: Setting, b: Backend)
    requires !PlainSectionsNormal(s.user.spec)
    ensures s.NextReports(b).others
  {
    ReadBackIsNormal(s.user.spec, b.pool);
    OthersIff(s, b);
  }

  /** So after any run every pass without error sends the same update once more. */
  lemma {:induction false} NonNormalIsSentForever(s: Setting, b: Backend, events: seq<RunEvent>,
                                                  rest: SdkUserPool, faults: Faults)
    requires !PlainSectionsNormal(s.user.spec)
    requires s.PassError(AfterEvents(s, b, events), faults).None?
    ensures var before, payload := AfterEvents(s, b, events), UpdatePayload(s.user.spec, s.user.status.id);
      && payload.Ok?
      && s.AfterOne(before, rest, faults).otherCalls == before.otherCalls
           + ReadCalls(s.user.status, before.pool.arn, faults, s.identity) + [UpdateUserPool(payload.value)]
  {
    NonNormalIsReported(s, AfterEvents(s, b, events));
  }

  const NIL_FLAG_SPEC := Spec.Spec(None, None, None, None, None,
    Some(DeviceConfiguration.DeviceConfiguration(Some(true), None)), None, None, None, None, None, None)

  /** One nil flag is enough. */
  lemma NilFlagIsReportedForever(s: Setting, b: Backend)
    requires s.user.spec == NIL_FLAG_SPEC
    ensures s.NextReports(b).others
  {
    NonNormalIsReported(s, b);
  }

  /** The library compares lists of recovery mechanisms by their contents. */
  ghost predicate MechanismsByContents(lib: Library) {
    forall x, y :: lib.mechanisms(x, y) <==> x == y
  }

  lemma ReadBackIsInRange(before: Spec, pool: SdkUserPool)
    ensures OutOfRange(ReadBack(before, pool)).None?
  {
    var s := pool.accountRecoverySetting;
    if s.Some? && s.value.recoveryMechanisms.Some? {
      var os := DecodeMechanisms(s.value.recoveryMechanisms.value);
      assert forall i | 0 <= i < |os| :: Fits(os[i].priority);
    }
  }

  lemma AgreedMeansNormalAndInRange(lib: Library, spec: Spec, pool: SdkUserPool)
    requires MechanismsByContents(lib) && SpecsAgree(lib, spec, ReadBack(spec, pool))
    ensures Normal(spec) == spec && OutOfRange(spec).None?
  {
    ReadBackIsNormal(spec, pool);
    ReadBackIsInRange(spec, pool);
    var setting, found := spec.accountRecoverySetting, ReadBack(spec, pool).accountRecoverySetting;
    if setting.Some? && setting.value.recoveryMechanisms.Some? {
      var os := setting.value.recoveryMechanisms.value;
      if os == [] {
        assert NormalMechanisms(os) == os;
      } else {
        assert found == setting;
      }
    }
  }

  /** A pool that reads back as the normal form of a spec. */
  lemma PoolFor(spec: Spec) returns (pool: SdkUserPool)
    requires OutOfRange(spec).None?
    ensures ReadBack(spec, pool) == Normal(spec)
  {
    PayloadDeterminesNormal(spec, None);
    pool := PoolOf(UpdatePayload(spec, None).value).(
      aliasAttributes := spec.aliasAttributes,
      name := spec.name,
      usernameAttributes := spec.usernameAttributes,
      usernameConfiguration := spec.usernameConfiguration);
  }

  lemma NormalCanSettle(s: Setting) returns (b: Backend)
    requires Reflexive(s.lib) && Normal(s.user.spec) == s.user.spec && OutOfRange(s.user.spec).None?
    ensures !s.NextReports(b).others
  {
    var pool := PoolFor(s.user.spec);
    b := Backend(pool, map[], [], [], []);
    OthersIff(s, b);
  }

  lemma SettledIsNormal(s: Setting, b: Backend)
    requires MechanismsByContents(s.lib) && !s.NextReports(b).others
    ensures Normal(s.user.spec) == s.user.spec && OutOfRange(s.user.spec).None?
  {
    OthersIff(s, b);
    AgreedMeansNormalAndInRange(s.lib, s.user.spec, b.pool);
  }

  /**
   Some state of the pool leaves nothing but tags to report if and only if the spec is in
   normal form and in range.
   */
  lemma CanSettleIff(s: Setting)
    requires Reflexive(s.lib) && MechanismsByContents(s.lib)
    ensures (exists b: Backend :: !s.NextReports(b).others) <==>
      Normal(s.user.spec) == s.user.spec && InRange(s.user.spec)
  {
    PayloadsFailIff(s.user.spec, None);
    if b: Backend :| !s.NextReports(b).others {
      SettledIsNormal(s, b);
    }
    if Normal(s.user.spec) == s.user.spec && InRange(s.user.spec) {
      var b := NormalCanSettle(s);
    }
  }

  // ---- After a creation ----

  /** A pool created from a normal spec and stored as sent shows no difference but in its tags. */
  lemma CreatedPoolAgrees(s: Setting, b: Backend)
    requires Reflexive(s.lib) && Normal(s.user.spec) == s.user.spec
    requires CreatePayload(s.user.spec).Ok? && CreateStores(b.pool, CreatePayload(s.user.spec).value)
    ensures !s.NextReports(b).others
  {
    CreateReadsBackNormal(s.user.spec, b.pool);
    OthersIff(s, b);
  }

  /** So the pass after such a creation sends no update. */
  lemma CreatedPoolIsNotUpdated(s: Setting, b: Backend, rest: SdkUserPool, faults: Faults)
    requires Reflexive(s.lib) && Normal(s.user.spec) == s.user.spec
    requires CreatePayload(s.user.spec).Ok? && CreateStores(b.pool, CreatePayload(s.user.spec).value)
    ensures var after := s.AfterOne(b, rest, faults);
      && after.pool == b.pool && b.otherCalls <= after.otherCalls
      && forall i | |b.otherCalls| <= i < |after.otherCalls| ::
           after.otherCalls[i].DescribeUserPool? || after.otherCalls[i].ListTagsForResource?
  {
    CreatedPoolAgrees(s, b);
  }
}
