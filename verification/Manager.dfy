/**
 The resource manager: tags, conditions, reading, creating and updating. Every method works
 on heap objects as manager.go, hook.go and sdk.go do; its contract gives the new value of
 each object through the functions of the other modules.
 */
module Manager {
  import opened Nullable
  import opened AckTags
  import opened Errors
  import opened Shapes
  import opened Conditions
  import opened Codec
  import opened Payloads
  import opened TagRuns
  import opened ResourceDelta
  import opened DeltaTheorems
  import opened UserPools
  import opened Service

  /** The region, partition and account a manager fills in. */
  datatype Identity = Identity(region: string, partition: string, account: string)

  const NO_METADATA := MetadataValue(None, None, None, None)

  function WithDefaults(m: Option<MetadataValue>, identity: Identity): MetadataValue {
    var v := m.GetOr(NO_METADATA);
    v.(region := Some(v.region.GetOr(identity.region)),
       partition := Some(v.partition.GetOr(identity.partition)),
       ownerAccountID := Some(v.ownerAccountID.GetOr(identity.account)))
  }

  /** The value of a resource whose conditions updateConditions has brought up to date. */
  function WithOutcome(v: PoolValue, err: Option<GoError>, identity: Identity): PoolValue {
    v.(status := v.status.(
      metadata := Some(WithDefaults(v.status.metadata, identity)),
      conditions := Updated(v.status.conditions, err)))
  }

  /** SyncTags dereferences every desired value and the existing value of every desired key. */
  ghost predicate SyncCanRun(desired: TagCells, existing: TagCells) {
    forall k <- desired :: desired[k] != null && (k in existing ==> existing[k] != null)
  }

  /** A desired tag that does not exist yet or exists with another value. */
  predicate Stale(desired: TagCells, existing: TagCells, k: string)
    requires k in desired && desired[k] != null && (k in existing ==> existing[k] != null)
  {
    k !in existing || existing[k].text != desired[k].text
  }

  /** The error SyncTags returns: that of the first call it makes that fails. */
  function SyncError(desired: Tags, existing: Tags, faults: Faults): Option<GoError> {
    if Additions(desired, existing) != map[] && faults.tag.Some? then faults.tag
    else if Deletions(desired, existing) != {} then faults.untag
    else None
  }

  /** SyncTags returns no error exactly where it leaves the desired tags, else that of the half not done. */
  lemma SyncErrorIff(desired: Tags, existing: Tags, faults: Faults)
    ensures var after := Synced(existing, desired, existing, faults.tag.Some?, faults.untag.Some?);
      SyncError(desired, existing, faults) ==
        if after == desired then None
        else if forall k <- desired :: k in after && after[k] == desired[k] then faults.untag
        else faults.tag
  {
    var toAdd, toDelete := Additions(desired, existing), Deletions(desired, existing);
    SyncNeededIffDifferent(desired, existing);
    if toAdd != map[] {
      var k :| k in toAdd;
      assert k in desired && (k !in existing || existing[k] != desired[k]);
    }
    if toDelete != {} {
      var k :| k in toDelete;
      assert k in existing && k !in desired;
    }
  }

  /** The error onError returns. */
  function Reported(conditions: ConditionList, err: GoError): GoError {
    if HasTrue(Updated(conditions, Some(err)), TerminalType) then TERMINAL else err
  }

  predicate IsNotFoundException(err: GoError) {
    err.api.Some? && err.api.value.code == "ResourceNotFoundException"
  }

  /** The error sdkFind returns, if any. */
  function FindError(id: Option<string>, faults: Faults): Option<GoError> {
    if id.None? then Some(NOT_FOUND)
    else if faults.describe.Some? then
      Some(if IsNotFoundException(faults.describe.value) then NOT_FOUND else faults.describe.value)
    else faults.list
  }

  function FilledStatus(s: StatusValue, arn: Option<string>, id: Option<string>, identity: Identity): StatusValue {
    var m := s.metadata.GetOr(NO_METADATA);
    StatusValue(Some(WithDefaults(Some(if arn.Some? then m.(arn := arn) else m), identity)), s.conditions, id)
  }

  /**
   A status filled from a response names the ARN of the response, if it has one, and the id
   of the response in any case; region, partition and account once set stay, and are the
   manager's otherwise.
   */
  lemma FilledNamesPool(s: StatusValue, arn: Option<string>, id: Option<string>, identity: Identity)
    ensures var filled := FilledStatus(s, arn, id, identity);
      && filled.id == id && filled.conditions == s.conditions && filled.metadata.Some?
      && (arn.Some? ==> filled.metadata.value.arn == arn)
      && (arn.None? && s.metadata.Some? ==> filled.metadata.value.arn == s.metadata.value.arn)
      && KeepsWhatIsSet(s.metadata, filled.metadata.value, identity)
  {
  }

  predicate KeepsWhatIsSet(before: Option<MetadataValue>, after: MetadataValue, identity: Identity) {
    && (if before.Some? && before.value.region.Some? then after.region == before.value.region
        else after.region == Some(identity.region))
    && (if before.Some? && before.value.partition.Some? then after.partition == before.value.partition
        else after.partition == Some(identity.partition))
    && (if before.Some? && before.value.ownerAccountID.Some? then after.ownerAccountID == before.value.ownerAccountID
        else after.ownerAccountID == Some(identity.account))
  }

  /** A resource with a Describe or Create response written over it; its tags stay. */
  function Filled(v: PoolValue, pool: SdkUserPool, identity: Identity): PoolValue {
    PoolValue(ReadBack(v.spec, pool), v.tags, FilledStatus(v.status, pool.arn, pool.id, identity))
  }

  /** What sdkFind makes of a resource. */
  function Found(v: PoolValue, pool: SdkUserPool, tags: Tags, identity: Identity): PoolValue {
    Filled(v, pool, identity).(tags := ToValues(tags))
  }

  /** The calls sdkFind makes; the tags are listed under the ARN it ends up with. */
  function ReadCalls(s: StatusValue, arn: Option<string>, faults: Faults, identity: Identity): seq<Call> {
    if s.id.None? then []
    else if faults.describe.Some? then [DescribeUserPool(s.id)]
    else [DescribeUserPool(s.id), ListTagsForResource(FilledStatus(s, arn, None, identity).metadata.value.arn)]
  }

  function Defaulted(v: PoolValue, identity: Identity): PoolValue {
    v.(status := v.status.(metadata := Some(WithDefaults(v.status.metadata, identity))))
  }

  /** The service after SyncTags. */
  function AfterSync(b: Backend, arn: string, desired: Tags, existing: Tags, faults: Faults): Backend {
    var calls := SyncCalls(desired, existing, faults.tag.Some?);
    b.(tags := Synced(b.tags, desired, existing, faults.tag.Some?, faults.untag.Some?),
       tagCalls := b.tagCalls + calls,
       tagArns := b.tagArns + Repeated(arn, |calls|))
  }

  function AfterAdd(b: Backend, arn: string, toAdd: Tags, fault: Option<GoError>): Backend {
    if toAdd == map[] then b
    else b.(tags := if fault.Some? then b.tags else b.tags + toAdd,
            tagCalls := b.tagCalls + [Tag(toAdd)],
            tagArns := b.tagArns + [arn])
  }

  function AfterRemove(b: Backend, arn: string, toDelete: set<string>, fault: Option<GoError>): Backend {
    if toDelete == {} then b
    else b.(tags := if fault.Some? then b.tags else b.tags - toDelete,
            tagCalls := b.tagCalls + [Untag(toDelete)],
            tagArns := b.tagArns + [arn])
  }

  /** SyncTags is its two halves, the second left out where the first fails. */
  lemma SyncHalves(b: Backend, arn: string, desired: Tags, existing: Tags, faults: Faults)
    ensures var toAdd, toDelete := Additions(desired, existing), Deletions(desired, existing);
      var added := AfterAdd(b, arn, toAdd, faults.tag);
      AfterSync(b, arn, desired, existing, faults) ==
        if toAdd != map[] && faults.tag.Some? then added
        else AfterRemove(added, arn, toDelete, faults.untag)
  {
    var toAdd := Additions(desired, existing);
    if toAdd == map[] {
      assert b.tags + toAdd == b.tags;
    }
    if Deletions(desired, existing) == {} {
      assert b.tags + toAdd - {} == b.tags + toAdd;
    }
  }

  function Repeated(arn: string, n: nat): seq<string> {
    seq(n, _ => arn)
  }

  /** The ARN in a status. */
  function ArnOf(s: StatusValue): string {
    s.metadata.GetOr(NO_METADATA).arn.GetOr("")
  }

  /** The service after the update call, which is not even made if the payload cannot be built. */
  function AfterSend(b: Backend, spec: Spec, id: Option<string>, rest: SdkUserPool, faults: Faults): Backend {
    match UpdatePayload(spec, id)
    case Err(_) => b
    case Ok(input) =>
      b.(otherCalls := b.otherCalls + [UpdateUserPool(input)],
         pool := if faults.update.None? then Overlay(b.pool, input, rest) else b.pool)
  }

  function SendError(spec: Spec, id: Option<string>, faults: Faults): Option<GoError> {
    match UpdatePayload(spec, id)
    case Err(e) => Some(e)
    case Ok(_) => faults.update
  }

  /** Which parts a delta reports: the tags, or anything else. */
  datatype Reports = Reports(tags: bool, others: bool)

  function ReportsOf(delta: DeltaLog): Reports
    reads delta
  {
    Reports(delta.DifferentAt(TAGS), delta.DifferentExcept(TAGS))
  }

  /** The error of the tag half of an update. */
  function TagError(desired: PoolValue, latest: PoolValue, reports: Reports, faults: Faults): Option<GoError> {
    if reports.tags then SyncError(ToTags(desired.tags), ToTags(latest.tags), faults) else None
  }

  /** The error sdkUpdate returns, if any: of its tag half, its payload, or its call. */
  function UpdateError(desired: PoolValue, latest: PoolValue, reports: Reports, faults: Faults): Option<GoError> {
    var tagError := TagError(desired, latest, reports, faults);
    if tagError.Some? then tagError
    else if !reports.others then None
    else SendError(desired.spec, desired.status.id, faults)
  }

  /** The service after sdkUpdate: a failing tag half keeps the update call from being made. */
  function AfterUpdate(b: Backend, desired: PoolValue, latest: PoolValue, reports: Reports, rest: SdkUserPool,
                       faults: Faults): Backend
  {
    var synced :=
      if reports.tags then AfterSync(b, ArnOf(latest.status), ToTags(desired.tags), ToTags(latest.tags), faults) else b;
    if TagError(desired, latest, reports, faults).Some? || !reports.others then synced
    else AfterSend(synced, desired.spec, desired.status.id, rest, faults)
  }

  function SendCreateError(spec: Spec, faults: Faults): Option<GoError> {
    match CreatePayload(spec)
    case Err(e) => Some(e)
    case Ok(_) => faults.create
  }

  predicate NoNilTag(values: TagValues) {
    forall k <- values :: values[k].Some?
  }

  lemma NoNilCell(cells: TagCells)
    requires NoNilTag(Deref(cells))
    ensures forall k <- cells :: cells[k] != null
  {
    assert forall k <- cells :: k in Deref(cells);
  }

  predicate CreateCanSync(desired: PoolValue, answer: SdkUserPool) {
    && NoNilTag(desired.tags)
    && ArnKnown(desired.status, answer)
  }

  /** The resource or the service's answer names the ARN. */
  predicate ArnKnown(s: StatusValue, answer: SdkUserPool) {
    answer.arn.Some? || (s.metadata.Some? && s.metadata.value.arn.Some?)
  }

  /** The service after sdkCreate: the create call, if there is one, and no tag call. */
  function AfterCreate(b: Backend, spec: Spec, answer: SdkUserPool, initial: Tags, faults: Faults): Backend {
    match CreatePayload(spec)
    case Err(_) => b
    case Ok(input) =>
      var sent := b.(otherCalls := b.otherCalls + [CreateUserPool(input)]);
      if faults.create.Some? then sent else sent.(pool := answer, tags := initial)
  }

  /** The service after sdkFind: nothing but the log has changed. */
  function AfterRead(b: Backend, s: StatusValue, faults: Faults, identity: Identity): Backend {
    b.(otherCalls := b.otherCalls + ReadCalls(s, b.pool.arn, faults, identity))
  }

  predicate IsDefaulted(v: PoolValue, identity: Identity) {
    v.status.metadata == Some(WithDefaults(v.status.metadata, identity))
  }

  /** The value of a resource as onSuccess hands it back. */
  function Succeeded(v: PoolValue, identity: Identity): PoolValue {
    if Touched(v.status.conditions, None) then WithOutcome(v, None, identity) else v
  }

  /** Where onSuccess hands back the resource itself, there was nothing to change. */
  lemma SucceededIs(v: PoolValue, identity: Identity)
    requires IsDefaulted(v, identity)
    ensures Succeeded(v, identity) == WithOutcome(v, None, identity)
  {
  }

  class ResourceManager {
    const identity: Identity
    const sdkapi: UserPoolService

    constructor (identity: Identity, sdkapi: UserPoolService)
      ensures this.identity == identity && this.sdkapi == sdkapi
    {
      this.identity, this.sdkapi := identity, sdkapi;
    }

    // ---- Tags ----

    method EnsureTags(r: UserPool, defaults: Tags)
      modifies r`tags
      ensures r.Value() == old(r.Value()).(tags := ToValues(Ensured(old(Deref(r.tags)), defaults)))
      ensures SeparateCells(r.tags) && forall k <- r.tags :: fresh(r.tags[k])
    {
      var resourceTags, keyOrder := ConvertToOrderedACKTags(r.tags);
      resourceTags.entries := Merge(resourceTags.entries, defaults);
      var cells := FromACKTags(resourceTags, keyOrder);
      r.tags := cells;
    }

    method FilterSystemTags(r: UserPool?, systemTags: seq<string>)
      modifies if r == null then {} else {r}`tags
      ensures r != null ==>
        && r.Value() == old(r.Value()).(tags := ToValues(WithoutSystem(ToTags(old(Deref(r.tags))), systemTags)))
        && SeparateCells(r.tags)
    {
      if r == null {
        return;
      }
      var resourceTags, keyOrder := ConvertToOrderedACKTags(r.tags);
      IgnoreSystemTags(resourceTags, systemTags);
      var cells := FromACKTags(resourceTags, keyOrder);
      r.tags := cells;
    }

    method MirrorAWSTags(a: UserPool, b: UserPool?)
      modifies a`tags
      ensures b == null ==> a.tags == old(a.tags)
      ensures b != null ==>
        && Deref(a.tags) == ToValues(ToTags(old(Deref(a.tags))) + AwsOnly(ToTags(old(Deref(b.tags)))))
        && SeparateCells(a.tags) && (forall k <- a.tags :: fresh(a.tags[k]))
    {
      if b == null {
        return;
      }
      var desiredTags, keyOrder := ConvertToOrderedACKTags(a.tags);
      var latestTags, _ := ConvertToOrderedACKTags(b.tags);
      SyncAWSTags(desiredTags, latestTags);
      var cells := FromACKTags(desiredTags, keyOrder);
      a.tags := cells;
    }

    /** The tags to write: desired ones that are missing or different. */
    method TagsToAdd(desiredTags: TagCells, existingTags: TagCells) returns (toAdd: Tags)
      requires SyncCanRun(desiredTags, existingTags)
      ensures toAdd == Additions(ToTags(Deref(desiredTags)), ToTags(Deref(existingTags)))
    {
      toAdd := map[];
      var todo := desiredTags.Keys;
      while todo != {}
        invariant todo <= desiredTags.Keys
        invariant forall k ::
          k in toAdd <==> k in desiredTags && k !in todo && Stale(desiredTags, existingTags, k)
        invariant forall k <- toAdd :: toAdd[k] == desiredTags[k].text
        decreases |todo|
      {
        var k :| k in todo;
        if Stale(desiredTags, existingTags, k) {
          toAdd := toAdd[k := desiredTags[k].text];
        }
        todo := todo - {k};
      }
    }

    /** The keys to remove: existing ones that are not desired, each once. */
    method TagsToDelete(desiredTags: TagCells, existingTags: TagCells) returns (toDelete: seq<string>)
      ensures KeySet(toDelete) == Deletions(ToTags(Deref(desiredTags)), ToTags(Deref(existingTags)))
      ensures forall i, j | 0 <= i < j < |toDelete| :: toDelete[i] != toDelete[j]
    {
      toDelete := [];
      var todo := existingTags.Keys;
      while todo != {}
        invariant todo <= existingTags.Keys
        invariant forall k :: k in toDelete <==> k in existingTags && k !in todo && k !in desiredTags
        invariant forall i, j | 0 <= i < j < |toDelete| :: toDelete[i] != toDelete[j]
        decreases |todo|
      {
        var k :| k in todo;
        if k !in desiredTags {
          toDelete := toDelete + [k];
        }
        todo := todo - {k};
      }
    }

    method AddTagsIfAny(arn: string, toAdd: Tags, fault: Option<GoError>) returns (err: Option<GoError>)
      modifies sdkapi`tags, sdkapi`calls
      ensures err == (if toAdd == map[] then None else fault)
      ensures sdkapi.Value() == AfterAdd(old(sdkapi.Value()), arn, toAdd, fault)
      ensures Grown(old(sdkapi.calls), sdkapi.calls, arn)
    {
      err := None;
      if |toAdd| > 0 {
        CallAppended(sdkapi.calls, TagResource(arn, toAdd));
        err := sdkapi.AddTags(arn, toAdd, fault);
      }
    }

    method RemoveTagsIfAny(arn: string, toDelete: seq<string>, fault: Option<GoError>) returns (err: Option<GoError>)
      modifies sdkapi`tags, sdkapi`calls
      ensures err == (if KeySet(toDelete) == {} then None else fault)
      ensures sdkapi.Value() == AfterRemove(old(sdkapi.Value()), arn, KeySet(toDelete), fault)
      ensures Grown(old(sdkapi.calls), sdkapi.calls, arn)
    {
      err := None;
      if |toDelete| > 0 {
        assert toDelete[0] in KeySet(toDelete);
        CallAppended(sdkapi.calls, UntagResource(arn, toDelete));
        err := sdkapi.RemoveTags(arn, toDelete, fault);
      }
    }

    method SyncTags(arn: string, desiredTags: TagCells, existingTags: TagCells, faults: Faults)
      returns (err: Option<GoError>)
      requires SyncCanRun(desiredTags, existingTags)
      modifies sdkapi`tags, sdkapi`calls
      ensures var d, e := ToTags(Deref(desiredTags)), ToTags(Deref(existingTags));
        && sdkapi.Value() == AfterSync(old(sdkapi.Value()), arn, d, e, faults)
        && err == SyncError(d, e, faults)
      ensures Grown(old(sdkapi.calls), sdkapi.calls, arn)
    {
      ghost var b, d, e := sdkapi.Value(), ToTags(Deref(desiredTags)), ToTags(Deref(existingTags));
      SyncHalves(b, arn, d, e, faults);
      var toAdd := TagsToAdd(desiredTags, existingTags);
      var toDelete := TagsToDelete(desiredTags, existingTags);
      err := AddTagsIfAny(arn, toAdd, faults.tag);
      if err.Some? {
        return;
      }
      ghost var added := sdkapi.calls;
      err := RemoveTagsIfAny(arn, toDelete, faults.untag);
      GrownChain(old(sdkapi.calls), added, sdkapi.calls, arn);
    }

    // ---- Conditions ----

    method SetStatusDefaults(ko: UserPool)
      modifies ko`metadata, ko.metadata
      ensures ko.Value() == old(ko.Value()).(status :=
        old(ko.Status()).(metadata := Some(WithDefaults(old(ko.Status()).metadata, identity))))
      ensures ko.metadata != null && (ko.metadata == old(ko.metadata) || fresh(ko.metadata))
    {
      if ko.metadata == null {
        ko.metadata := new Metadata();
      }
      if ko.metadata.region == None {
        ko.metadata.region := Some(identity.region);
      }
      if ko.metadata.partition == None {
        ko.metadata.partition := Some(identity.partition);
      }
      if ko.metadata.ownerAccountID == None {
        ko.metadata.ownerAccountID := Some(identity.account);
      }
    }

    /** The last condition of a type in a list, as the scan of updateConditions finds it. */
    method LastCondition(conditions: seq<Condition>, ctype: ConditionType) returns (found: Condition?)
      ensures var i := LastOf(ValuesOf(conditions), ctype); found == if i >= 0 then conditions[i] else null
    {
      found := null;
      ghost var values := ValuesOf(conditions);
      for i := 0 to |conditions|
        invariant var j := LastOf(values[..i], ctype); found == if j >= 0 then conditions[j] else null
      {
        assert values[..i + 1][..i] == values[..i];
        if conditions[i].ctype == ctype {
          found := conditions[i];
        }
      }
      assert values[..|conditions|] == values;
    }

    method Scan(conditions: seq<Condition>)
      returns (terminal: Condition?, recoverable: Condition?, sync: Condition?)
      ensures var i := LastOf(ValuesOf(conditions), TerminalType); terminal == if i >= 0 then conditions[i] else null
      ensures var i := LastOf(ValuesOf(conditions), RecoverableType);
        recoverable == if i >= 0 then conditions[i] else null
      ensures (sync != null) == Has(ValuesOf(conditions), SyncedType)
      ensures terminal == null || terminal in conditions
      ensures recoverable == null || recoverable in conditions
    {
      terminal := LastCondition(conditions, TerminalType);
      recoverable := LastCondition(conditions, RecoverableType);
      sync := LastCondition(conditions, SyncedType);
    }

    method RaiseCondition(ko: UserPool, found: Condition?, ctype: ConditionType, message: string)
      returns (condition: Condition)
      requires Distinct(ko.conditions)
      requires var i := LastOf(ValuesOf(ko.conditions), ctype); found == if i >= 0 then ko.conditions[i] else null
      modifies ko`conditions, found
      ensures ValuesOf(ko.conditions) == Raise(old(ValuesOf(ko.conditions)), ctype, message)
      ensures Distinct(ko.conditions)
      ensures forall c <- ko.conditions :: c in old(ko.conditions) || fresh(c)
      ensures ko.metadata == old(ko.metadata)
    {
      ghost var before := ValuesOf(ko.conditions);
      if found == null {
        condition := new Condition(ctype);
        ko.conditions := ko.conditions + [condition];
      } else {
        condition := found;
      }
      condition.status := True;
      condition.message := Some(message);
      assert ValuesOf(ko.conditions) == Raise(before, ctype, message);
    }

    method ClearCondition(ghost conditions: seq<Condition>, found: Condition?, ghost ctype: ConditionType)
      requires Distinct(conditions)
      requires var i := LastOf(ValuesOf(conditions), ctype); found == if i >= 0 then conditions[i] else null
      modifies found
      ensures ValuesOf(conditions) == Clear(old(ValuesOf(conditions)), ctype)
    {
      ghost var before := ValuesOf(conditions);
      if found != null {
        found.status := False;
        found.message := None;
      }
      assert ValuesOf(conditions) == Clear(before, ctype);
    }

    /** Returns the two conditions as they are pointed to in the end. */
    method WriteOutcome(ko: UserPool, terminal: Condition?, recoverable: Condition?, err: Option<GoError>)
      returns (terminalNow: Condition?, recoverableNow: Condition?)
      requires Distinct(ko.conditions)
      requires var i := LastOf(ValuesOf(ko.conditions), TerminalType);
        terminal == if i >= 0 then ko.conditions[i] else null
      requires var i := LastOf(ValuesOf(ko.conditions), RecoverableType);
        recoverable == if i >= 0 then ko.conditions[i] else null
      modifies ko`conditions, terminal, recoverable
      ensures ValuesOf(ko.conditions) == Updated(old(ValuesOf(ko.conditions)), err)
      ensures Distinct(ko.conditions)
      ensures forall c <- ko.conditions :: c in old(ko.conditions) || fresh(c)
      ensures terminalNow != null <==> terminal != null || IsTerminal(err)
      ensures recoverableNow != null <==> recoverable != null || (err.Some? && !IsTerminal(err))
    {
      terminalNow, recoverableNow := terminal, recoverable;
      if IsTerminal(err) {
        terminalNow := RaiseCondition(ko, terminal, TerminalType, TerminalMessage(err.value));
      } else {
        ghost var before := ValuesOf(ko.conditions);
        ghost var i := LastOf(before, TerminalType);
        ClearCondition(ko.conditions, terminal, TerminalType);
        if i >= 0 {
          RewriteKeepsLasts(before, i, WithStatus(before[i], False, None));
        }
        if err.Some? {
          recoverableNow := RaiseCondition(ko, recoverable, RecoverableType, RecoverableMessage(err.value));
        } else {
          ClearCondition(ko.conditions, recoverable, RecoverableType);
        }
      }
    }

    /** Finds the managed conditions and writes the outcome of an operation to them. */
    method ScanAndWrite(ko: UserPool, err: Option<GoError>) returns (updated: bool)
      requires Distinct(ko.conditions)
      modifies ko`conditions, ko.conditions
      ensures updated == Touched(old(ValuesOf(ko.conditions)), err)
      ensures ValuesOf(ko.conditions) == Updated(old(ValuesOf(ko.conditions)), err)
      ensures Distinct(ko.conditions)
      ensures forall c <- ko.conditions :: c in old(ko.conditions) || fresh(c)
    {
      var terminal, recoverable, sync := Scan(ko.conditions);
      var terminalNow, recoverableNow := WriteOutcome(ko, terminal, recoverable, err);
      updated := terminalNow != null || recoverableNow != null || sync != null;
    }

    /** The body of updateConditions once its deep copy is made. */
    method UpdateCopy(ko: UserPool, err: Option<GoError>) returns (updated: bool)
      requires Distinct(ko.conditions)
      modifies ko, ko.metadata, ko.conditions
      ensures updated == Touched(old(ko.Status()).conditions, err)
      ensures ko.Value() == WithOutcome(old(ko.Value()), err, identity)
      ensures ko.metadata != null && (ko.metadata == old(ko.metadata) || fresh(ko.metadata))
      ensures Distinct(ko.conditions) && forall c <- ko.conditions :: c in old(ko.conditions) || fresh(c)
    {
      SetStatusDefaults(ko);
      updated := ScanAndWrite(ko, err);
    }

    /**
     Works on a deep copy throughout: nothing that existed before the call is changed, so
     neither is any other resource that shares conditions with r.
     */
    method UpdateConditions(r: UserPool, err: Option<GoError>) returns (r1: UserPool?, updated: bool)
      ensures updated == Touched(old(r.Status()).conditions, err)
      ensures !updated ==> r1 == null
      ensures updated ==>
        && r1 != null && fresh(r1) && r1.metadata != null && fresh(r1.metadata)
        && Distinct(r1.conditions) && (forall i | 0 <= i < |r1.conditions| :: fresh(r1.conditions[i]))
        && r1.Value() == WithOutcome(old(r.Value()), err, identity)
    {
      var ko := r.DeepCopy();
      ghost var v, s := ko.Value(), ko.Status();
      assert forall c <- ko.conditions :: fresh(c);
      updated := UpdateCopy(ko, err);
      assert updated == Touched(s.conditions, err) && ko.Value() == WithOutcome(v, err, identity);
      assert forall i | 0 <= i < |ko.conditions| :: ko.conditions[i] in ko.conditions;
      r1 := if updated then ko else null;
    }

    /** The loop of onError. */
    method AnyTrue(conditions: seq<Condition>, ctype: ConditionType) returns (found: bool)
      ensures found == HasTrue(ValuesOf(conditions), ctype)
    {
      ghost var values := ValuesOf(conditions);
      for i := 0 to |conditions|
        invariant forall j | 0 <= j < i :: !(values[j].ctype == ctype && values[j].status == True)
      {
        if conditions[i].ctype == ctype && conditions[i].status == True {
          assert values[i].ctype == ctype;
          return true;
        }
      }
      return false;
    }

    /** onError hands back an updated copy, and the Terminal error if the copy has a Terminal condition that is True. */
    method OnError(r: UserPool?, err: GoError) returns (res: UserPool?, out: GoError)
      ensures r == null ==> res == null && out == err
      ensures r != null ==>
        && res != null && fresh(res)
        && res.Value() == WithOutcome(old(r.Value()), Some(err), identity)
        && out == Reported(old(r.Status()).conditions, err)
      ensures r != null && Unique(old(r.Status()).conditions) ==>
        var terminal :=
          err.sentinel == SecretTypeNotSupported || err.sentinel == SecretNotFound || err.wrapsTerminal ||
          (err.api.Some? && err.api.value.code == "InvalidParameterException");
        && out == (if terminal then TERMINAL else err)
        && (HasTrue(res.Status().conditions, TerminalType) <==> terminal)
        && (!terminal ==> HasTrue(res.Status().conditions, RecoverableType))
    {
      if r == null {
        return null, err;
      }
      ghost var before := r.Status().conditions;
      if Unique(before) {
        OutcomeOf(before, err);
      }
      var r1, updated := UpdateConditions(r, Some(err));
      if !updated {
        return r, err;
      }
      var terminal := AnyTrue(r1.conditions, TerminalType);
      if terminal {
        return r1, TERMINAL;
      }
      return r1, err;
    }

    /** onError on the result of a failed operation, or on a stand-in when there is none. */
    method OnErrorOf(result: UserPool?, standIn: UserPool, err: GoError) returns (res: UserPool, out: GoError)
      ensures var r := if result != null then result else standIn;
        && fresh(res) && res.Value() == WithOutcome(old(r.Value()), Some(err), identity)
        && out == Reported(old(r.Status()).conditions, err)
    {
      if result != null {
        res, out := OnError(result, err);
      } else {
        res, out := OnError(standIn, err);
      }
    }

    /** onSuccess; a nil or untouched resource is handed back as it is. */
    method OnSuccess(r: UserPool?) returns (res: UserPool?)
      ensures r == null ==> res == null
      ensures r != null ==>
        && res != null && res.Value() == Succeeded(old(r.Value()), identity)
        && (if Touched(old(r.Status()).conditions, None) then fresh(res) else res == r)
    {
      if r == null {
        return null;
      }
      var r1, updated := UpdateConditions(r, None);
      if !updated {
        return r;
      }
      return r1;
    }

    // ---- Reading ----

    /** The status part of a Describe or Create response. */
    method WriteStatus(ko: UserPool, arn: Option<string>, id: Option<string>)
      modifies ko`metadata, ko`id, ko.metadata
      ensures ko.Status() == FilledStatus(old(ko.Status()), arn, id, identity)
      ensures ko.metadata != null && (ko.metadata == old(ko.metadata) || fresh(ko.metadata))
    {
      if ko.metadata == null {
        ko.metadata := new Metadata();
      }
      if arn.Some? {
        ko.metadata.arn := arn;
      }
      if id.Some? {
        ko.id := id;
      } else {
        ko.id := None;
      }
      SetStatusDefaults(ko);
    }

    /** Writes a Describe or Create response over a deep copy. */
    method WriteResponse(ko: UserPool, resp: SdkUserPool)
      modifies ko`spec, ko`metadata, ko`id, ko.metadata
      ensures ko.Value() == Filled(old(ko.Value()), resp, identity)
      ensures ko.metadata != null && (ko.metadata == old(ko.metadata) || fresh(ko.metadata))
    {
      var spec := ReadResponse(ko.spec, resp);
      ko.spec := spec;
      assert ko.Status() == old(ko.Status());
      WriteStatus(ko, resp.arn, resp.id);
    }

    /** A deep copy of r with a response written over it. */
    method CopyOver(r: UserPool, resp: SdkUserPool) returns (ko: UserPool)
      ensures fresh(ko) && ko.Value() == Filled(old(r.Value()), resp, identity)
      ensures ko.metadata != null && fresh(ko.metadata)
    {
      ko := r.DeepCopy();
      WriteResponse(ko, resp);
    }

    /** aws.StringMap: a fresh cell for every tag of the output. */
    method StringMap(listed: Tags) returns (cells: TagCells)
      ensures Deref(cells) == ToValues(listed) && SeparateCells(cells)
      ensures forall k <- cells :: fresh(cells[k])
    {
      var output := new AckTagMap();
      output.entries := listed;
      cells := FromACKTags(output, []);
    }

    /** DescribeUserPool; an error that says the pool does not exist becomes NotFound. */
    method DescribePool(id: Option<string>, faults: Faults) returns (resp: SdkUserPool, err: Option<GoError>)
      requires id.Some?
      modifies sdkapi`calls
      ensures err == (if faults.describe.Some? then FindError(id, faults) else None) && resp == sdkapi.pool
      ensures var b := old(sdkapi.Value());
        sdkapi.Value() == b.(otherCalls := b.otherCalls + [DescribeUserPool(id)])
      ensures old(sdkapi.calls) <= sdkapi.calls
    {
      CallAppended(sdkapi.calls, DescribeUserPool(id));
      resp, err := sdkapi.Describe(id, faults.describe);
      if err.Some? && IsNotFoundException(err.value) {
        err := Some(NOT_FOUND);
      }
    }

    method SdkFind(r: UserPool, faults: Faults) returns (latest: UserPool?, err: Option<GoError>)
      modifies sdkapi`calls
      ensures err == FindError(r.id, faults)
      ensures err.Some? ==> latest == null
      ensures err.None? ==>
        && latest != null && fresh(latest)
        && latest.Value() == Found(old(r.Value()), sdkapi.pool, sdkapi.tags, identity)
        && SeparateCells(latest.tags)
      ensures sdkapi.Value() == AfterRead(old(sdkapi.Value()), old(r.Status()), faults, identity)
      ensures old(sdkapi.calls) <= sdkapi.calls
    {
      if r.id.None? {
        return null, Some(NOT_FOUND);
      }
      var resp;
      resp, err := DescribePool(r.id, faults);
      if err.Some? {
        return null, err;
      }
      latest := CopyOver(r, resp);
      err := FillTags(latest, faults);
      if err.Some? {
        latest := null;
      }
    }

    method FillTags(ko: UserPool, faults: Faults) returns (err: Option<GoError>)
      requires ko.metadata != null
      modifies ko`tags, sdkapi`calls
      ensures err == faults.list
      ensures err.None? ==> ko.Value() == old(ko.Value()).(tags := ToValues(sdkapi.tags)) && SeparateCells(ko.tags)
      ensures var b := old(sdkapi.Value());
        sdkapi.Value() == b.(otherCalls := b.otherCalls + [ListTagsForResource(old(ko.Status()).metadata.value.arn)])
      ensures old(sdkapi.calls) <= sdkapi.calls
    {
      CallAppended(sdkapi.calls, ListTagsForResource(ko.metadata.arn));
      var listed;
      listed, err := sdkapi.ListTags(ko.metadata.arn, faults.list);
      if err.Some? {
        return;
      }
      var cells := StringMap(listed);
      ko.tags := cells;
    }

    /** Reads the pool, and mirrors the AWS tags it finds into r itself. */
    method FindAndMirror(r: UserPool, faults: Faults) returns (observed: UserPool?, err: Option<GoError>)
      modifies r`tags, sdkapi`calls
      ensures err == FindError(r.id, faults)
      ensures err.Some? ==> observed == null && r.tags == old(r.tags)
      ensures err.None? ==>
        && observed != null && fresh(observed)
        && observed.Value() == Found(old(r.Value()), sdkapi.pool, sdkapi.tags, identity)
        && Deref(r.tags) == ToValues(Target(ToTags(old(Deref(r.tags))), sdkapi.tags)) && SeparateCells(r.tags)
      ensures r.Status() == old(r.Status())
      ensures sdkapi.Value() == AfterRead(old(sdkapi.Value()), old(r.Status()), faults, identity)
      ensures old(sdkapi.calls) <= sdkapi.calls
    {
      ghost var before, mine := r.Value(), ToTags(Deref(r.tags));
      observed, err := SdkFind(r, faults);
      ghost var remote := sdkapi.tags;
      if observed != null {
        assert Deref(observed.tags) == ToValues(remote) by {
          assert observed.Value().tags == Found(before, sdkapi.pool, remote, identity).tags;
        }
        ValuesReadBack(remote);
      }
      ghost var found := if observed == null then before else observed.Value();
      MirrorAWSTags(r, observed);
      assert observed != null ==> observed.Value() == found;
    }

    method ReadOne(r: UserPool, faults: Faults) returns (res: UserPool, err: Option<GoError>)
      modifies r`tags, sdkapi`calls
      ensures var findErr := FindError(r.id, faults);
        && (findErr.Some? ==>
              && err == Some(Reported(old(r.Status()).conditions, findErr.value))
              && r.tags == old(r.tags)
              && fresh(res) && res.Value() == WithOutcome(old(r.Value()), findErr, identity))
        && (findErr.None? ==>
              && err.None?
              && Deref(r.tags) == ToValues(Target(ToTags(old(Deref(r.tags))), sdkapi.tags)) && SeparateCells(r.tags)
              && fresh(res) && res.id == sdkapi.pool.id
              && (sdkapi.pool.arn.Some? ==> res.metadata != null && res.metadata.arn == sdkapi.pool.arn)
              && res.Value() == WithOutcome(Found(old(r.Value()), sdkapi.pool, sdkapi.tags, identity), None, identity))
      ensures r.Status() == old(r.Status())
      ensures sdkapi.Value() == AfterRead(old(sdkapi.Value()), old(r.Status()), faults, identity)
      ensures old(sdkapi.calls) <= sdkapi.calls
    {
      var observed, findErr := FindAndMirror(r, faults);
      if findErr.Some? {
        var out;
        res, out := OnErrorOf(observed, r, findErr.value);
        return res, Some(out);
      }
      SucceededIs(observed.Value(), identity);
      res := OnSuccess(observed);
      assert res.Status().id == sdkapi.pool.id && res.Status().metadata.Some?;
      assert sdkapi.pool.arn.Some? ==> res.Status().metadata.value.arn == sdkapi.pool.arn;
      return res, None;
    }

    // ---- Updating ----

    /** The second half of sdkUpdate: payload, call, and a copy of desired to hand back. */
    method SendUpdate(desired: UserPool, rest: SdkUserPool, faults: Faults)
      returns (updated: UserPool?, err: Option<GoError>)
      modifies sdkapi
      ensures err == SendError(desired.spec, desired.id, faults)
      ensures if err.Some? then updated == null
        else updated != null && fresh(updated) && updated.Value() == Defaulted(old(desired.Value()), identity)
      ensures sdkapi.Value() == AfterSend(old(sdkapi.Value()), desired.spec, desired.id, rest, faults)
      ensures forall arn :: Grown(old(sdkapi.calls), sdkapi.calls, arn)
    {
      updated := null;
      var payload := NewUpdateRequestPayload(desired.spec, desired.id);
      if payload.Err? {
        return null, Some(payload.error);
      }
      CallAppended(sdkapi.calls, UpdateUserPool(payload.value));
      err := sdkapi.Update(payload.value, rest, faults.update);
      if err.Some? {
        return;
      }
      updated := CopyWithDefaults(desired);
    }

    method CopyWithDefaults(desired: UserPool) returns (ko: UserPool)
      ensures fresh(ko) && ko.Value() == Defaulted(old(desired.Value()), identity)
    {
      ko := desired.DeepCopy();
      SetStatusDefaults(ko);
    }

    /** Tag calls first, then at most one UpdateUserPool. */
    method SdkUpdate(desired: UserPool, latest: UserPool, delta: DeltaLog, rest: SdkUserPool, faults: Faults)
      returns (updated: UserPool?, err: Option<GoError>)
      requires delta.DifferentAt(TAGS) ==>
        SyncCanRun(desired.tags, latest.tags) && latest.metadata != null && latest.metadata.arn.Some?
      modifies sdkapi
      ensures err == UpdateError(old(desired.Value()), old(latest.Value()), ReportsOf(delta), faults)
      ensures if err.Some? then updated == null
        else if !delta.DifferentExcept(TAGS) then updated == desired
        else updated != null && fresh(updated) && updated.Value() == Defaulted(old(desired.Value()), identity)
      ensures sdkapi.Value() ==
        AfterUpdate(old(sdkapi.Value()), old(desired.Value()), old(latest.Value()), ReportsOf(delta), rest, faults)
      ensures delta.DifferentAt(TAGS) ==>
        Grown(old(sdkapi.calls), sdkapi.calls, old(latest.Status()).metadata.value.arn.value)
    {
      updated, err := null, None;
      if delta.DifferentAt(TAGS) {
        err := SyncTags(latest.metadata.arn.value, desired.tags, latest.tags, faults);
        if err.Some? {
          return;
        }
      }
      if !delta.DifferentExcept(TAGS) {
        return desired, None;
      }
      ghost var synced := sdkapi.calls;
      updated, err := SendUpdate(desired, rest, faults);
      if delta.DifferentAt(TAGS) {
        GrownChain(old(sdkapi.calls), synced, sdkapi.calls, old(latest.Status()).metadata.value.arn.value);
      }
    }

    /** A failed update is reported on latest, not on desired. */
    method Update(desired: UserPool, latest: UserPool, delta: DeltaLog, rest: SdkUserPool, faults: Faults)
      returns (res: UserPool, err: Option<GoError>)
      requires delta.DifferentAt(TAGS) ==>
        SyncCanRun(desired.tags, latest.tags) && latest.metadata != null && latest.metadata.arn.Some?
      modifies sdkapi
      ensures var e := UpdateError(old(desired.Value()), old(latest.Value()), ReportsOf(delta), faults);
        if e.Some? then
          && err == Some(Reported(old(latest.Status()).conditions, e.value))
          && res.Value() == WithOutcome(old(latest.Value()), e, identity)
        else
          && err.None?
          && res.Value() == Succeeded(
               if delta.DifferentExcept(TAGS) then Defaulted(old(desired.Value()), identity) else old(desired.Value()),
               identity)
      ensures fresh(res) || res == desired
      ensures sdkapi.Value() ==
        AfterUpdate(old(sdkapi.Value()), old(desired.Value()), old(latest.Value()), ReportsOf(delta), rest, faults)
      ensures delta.DifferentAt(TAGS) ==>
        Grown(old(sdkapi.calls), sdkapi.calls, old(latest.Status()).metadata.value.arn.value)
    {
      ghost var result :=
        if delta.DifferentExcept(TAGS) then Defaulted(desired.Value(), identity) else desired.Value();
      var updated, updateErr := SdkUpdate(desired, latest, delta, rest, faults);
      if updateErr.Some? {
        var out;
        res, out := OnErrorOf(updated, latest, updateErr.value);
        return res, Some(out);
      }
      assert updated.Value() == result;
      res := OnSuccess(updated);
      return res, None;
    }

    // ---- Creating ----

    /**
     The tags compared after a creation are desired's and a deep copy of them. Requires what
     the code dereferences: no nil tag value, and an ARN, where the creation succeeds.
     */
    method SdkCreate(desired: UserPool, answer: SdkUserPool, initial: Tags, faults: Faults)
      returns (created: UserPool?, err: Option<GoError>)
      requires SendCreateError(desired.spec, faults).None? ==> CreateCanSync(desired.Value(), answer)
      modifies sdkapi
      ensures err == SendCreateError(desired.spec, faults)
      ensures if err.Some? then created == null
        else created != null && fresh(created) && created.Value() == Filled(old(desired.Value()), answer, identity)
      ensures sdkapi.Value() == AfterCreate(old(sdkapi.Value()), desired.spec, answer, initial, faults)
      ensures old(sdkapi.calls) <= sdkapi.calls
    {
      var input := NewCreateRequestPayload(desired.spec);
      if input.Err? {
        return null, Some(input.error);
      }
      CallAppended(sdkapi.calls, CreateUserPool(input.value));
      var resp, createErr := sdkapi.Create(input.value, answer, initial, faults.create);
      if createErr.Some? {
        return null, createErr;
      }
      var ko := CopyOver(desired, resp);
      ghost var filled := ko.Value();
      err := SyncWithCopy(ko.metadata.arn.value, desired.tags, ko.tags, faults);
      assert ko.Value() == filled;
      created := ko;
    }

    /** SyncTags on two equal tag maps makes no call. */
    method SyncWithCopy(arn: string, tags: TagCells, copied: TagCells, faults: Faults) returns (err: Option<GoError>)
      requires Deref(copied) == Deref(tags)
      requires NoNilTag(Deref(tags))
      modifies sdkapi`tags, sdkapi`calls
      ensures err.None? && sdkapi.Value() == old(sdkapi.Value())
      ensures old(sdkapi.calls) <= sdkapi.calls
    {
      var t := ToTags(Deref(tags));
      SyncNeededIffDifferent(t, t);
      NoNilCell(tags);
      NoNilCell(copied);
      err := SyncTags(arn, tags, copied, faults);
    }

    /** A failed creation is reported on desired. */
    method Create(desired: UserPool, answer: SdkUserPool, initial: Tags, faults: Faults)
      returns (res: UserPool, err: Option<GoError>)
      requires SendCreateError(desired.spec, faults).None? ==> CreateCanSync(desired.Value(), answer)
      modifies sdkapi
      ensures fresh(res)
      ensures var e := SendCreateError(desired.spec, faults);
        if e.Some? then
          && err == Some(Reported(old(desired.Status()).conditions, e.value))
          && res.Value() == WithOutcome(old(desired.Value()), e, identity)
        else
          && err.None?
          && res.Value() == WithOutcome(Filled(old(desired.Value()), answer, identity), None, identity)
      ensures sdkapi.Value() == AfterCreate(old(sdkapi.Value()), desired.spec, answer, initial, faults)
    {
      var created, createErr := SdkCreate(desired, answer, initial, faults);
      if createErr.Some? {
        var out;
        res, out := OnErrorOf(created, desired, createErr.value);
        return res, Some(out);
      }
      SucceededIs(created.Value(), identity);
      res := OnSuccess(created);
      return res, None;
    }
  }
}
