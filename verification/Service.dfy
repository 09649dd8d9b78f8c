/**
 The part of the AWS API the controller calls: one pool, its tags, and a log of the calls.
 Every call takes the error it is to fail with, if any; a failing call changes nothing but
 the log. What the service does with the sections an update leaves out is not known, so the
 caller of the model supplies it.
 */
module Service {
  import opened Nullable
  import opened AckTags
  import opened Errors
  import opened Shapes
  import opened TagRuns

  datatype Call =
    | DescribeUserPool(id: Option<string>)
    | ListTagsForResource(listed: Option<string>)
    | TagResource(arn: string, added: Tags)
    | UntagResource(arn: string, removed: seq<string>)
    | UpdateUserPool(update: UpdateInput)
    | CreateUserPool(create: CreateInput)

  datatype Faults = Faults(
    describe: Option<GoError>,
    list: Option<GoError>,
    tag: Option<GoError>,
    untag: Option<GoError>,
    update: Option<GoError>,
    create: Option<GoError>)

  function KeySet(keys: seq<string>): set<string> {
    set k | k in keys
  }

  predicate IsTagCall(c: Call) {
    c.TagResource? || c.UntagResource?
  }

  /** The tag calls in a log. */
  function TagCallsOf(calls: seq<Call>): seq<TagCall> {
    if calls == [] then []
    else
      var c := calls[|calls| - 1];
      TagCallsOf(calls[..|calls| - 1]) +
      if c.TagResource? then [Tag(c.added)]
      else if c.UntagResource? then [Untag(KeySet(c.removed))]
      else []
  }

  /** The ARNs those calls name, one for each. */
  function TagArnsOf(calls: seq<Call>): seq<string> {
    if calls == [] then []
    else
      var c := calls[|calls| - 1];
      TagArnsOf(calls[..|calls| - 1]) + if IsTagCall(c) then [c.arn] else []
  }

  /** The calls in a log that are not tag calls. */
  function OtherCallsOf(calls: seq<Call>): seq<Call> {
    if calls == [] then []
    else
      var c := calls[|calls| - 1];
      OtherCallsOf(calls[..|calls| - 1]) + if IsTagCall(c) then [] else [c]
  }

  lemma CallAppended(calls: seq<Call>, c: Call)
    ensures TagCallsOf(calls + [c]) == TagCallsOf(calls) +
      if c.TagResource? then [Tag(c.added)]
      else if c.UntagResource? then [Untag(KeySet(c.removed))]
      else []
    ensures TagArnsOf(calls + [c]) == TagArnsOf(calls) + if IsTagCall(c) then [c.arn] else []
    ensures OtherCallsOf(calls + [c]) == OtherCallsOf(calls) + if IsTagCall(c) then [] else [c]
  {
  }

  /** The log has only grown, and its new tag calls all name one resource. */
  ghost predicate Grown(before: seq<Call>, after: seq<Call>, arn: string) {
    && before <= after
    && forall i | |before| <= i < |after| && IsTagCall(after[i]) :: after[i].arn == arn
  }

  lemma GrownChain(before: seq<Call>, between: seq<Call>, after: seq<Call>, arn: string)
    requires Grown(before, between, arn) && Grown(between, after, arn)
    ensures Grown(before, after, arn)
  {
  }

  /**
   A pool after an update: what was sent, and rest for what was not. An update that does not
   name this pool leaves it alone.
   */
  function Overlay(pool: SdkUserPool, input: UpdateInput, rest: SdkUserPool): SdkUserPool {
    if input.userPoolId != pool.id then pool else rest.(
      arn := pool.arn,
      id := pool.id,
      accountRecoverySetting :=
        if input.accountRecoverySetting.Some? then input.accountRecoverySetting else rest.accountRecoverySetting,
      adminCreateUserConfig :=
        if input.adminCreateUserConfig.Some? then input.adminCreateUserConfig else rest.adminCreateUserConfig,
      autoVerifiedAttributes :=
        if input.autoVerifiedAttributes.Some? then input.autoVerifiedAttributes else rest.autoVerifiedAttributes,
      deletionProtection :=
        if input.deletionProtection != "" then input.deletionProtection else rest.deletionProtection,
      deviceConfiguration :=
        if input.deviceConfiguration.Some? then input.deviceConfiguration else rest.deviceConfiguration,
      emailConfiguration :=
        if input.emailConfiguration.Some? then input.emailConfiguration else rest.emailConfiguration,
      policies := if input.policies.Some? then input.policies else rest.policies)
  }

  /** The state of the service, with the log split into tag calls, the ARNs they name, and other calls. */
  datatype Backend = Backend(
    pool: SdkUserPool,
    tags: Tags,
    tagCalls: seq<TagCall>,
    tagArns: seq<string>,
    otherCalls: seq<Call>)

  /** The call, if it names a pool, names one by one of these ids, or by this ARN. */
  predicate NamesPool(c: Call, ids: set<Option<string>>, arn: string) {
    match c
    case DescribeUserPool(id) => id in ids
    case ListTagsForResource(listed) => listed == Some(arn)
    case TagResource(named, _) => named == arn
    case UntagResource(named, _) => named == arn
    case UpdateUserPool(update) => update.userPoolId in ids
    case CreateUserPool(_) => true
  }

  /** From b to after the logs have only grown, and every new call names the pool. */
  ghost predicate NewCallsName(b: Backend, after: Backend, ids: set<Option<string>>, arn: string) {
    && b.tagArns <= after.tagArns && b.otherCalls <= after.otherCalls
    && (forall i | |b.tagArns| <= i < |after.tagArns| :: after.tagArns[i] == arn)
    && (forall i | |b.otherCalls| <= i < |after.otherCalls| :: NamesPool(after.otherCalls[i], ids, arn))
  }

  lemma NewCallsChain(b: Backend, mid: Backend, after: Backend, ids: set<Option<string>>, arn: string)
    requires NewCallsName(b, mid, ids, arn) && NewCallsName(mid, after, ids, arn)
    ensures NewCallsName(b, after, ids, arn)
  {
    assert forall i | |b.tagArns| <= i < |mid.tagArns| :: after.tagArns[i] == mid.tagArns[i];
    assert forall i | |b.otherCalls| <= i < |mid.otherCalls| :: after.otherCalls[i] == mid.otherCalls[i];
  }

  class UserPoolService {
    var pool: SdkUserPool
    var tags: Tags
    var calls: seq<Call>

    function Value(): Backend
      reads this
    {
      Backend(pool, tags, TagCallsOf(calls), TagArnsOf(calls), OtherCallsOf(calls))
    }

    constructor (pool: SdkUserPool, tags: Tags)
      ensures this.pool == pool && this.tags == tags && calls == []
    {
      this.pool, this.tags, calls := pool, tags, [];
    }

    method Describe(id: Option<string>, fault: Option<GoError>) returns (resp: SdkUserPool, err: Option<GoError>)
      modifies this`calls
      ensures calls == old(calls) + [DescribeUserPool(id)]
      ensures err == fault && resp == pool
    {
      calls := calls + [DescribeUserPool(id)];
      resp, err := pool, fault;
    }

    method ListTags(arn: Option<string>, fault: Option<GoError>) returns (listed: Tags, err: Option<GoError>)
      modifies this`calls
      ensures calls == old(calls) + [ListTagsForResource(arn)]
      ensures err == fault && listed == tags
    {
      calls := calls + [ListTagsForResource(arn)];
      listed, err := tags, fault;
    }

    method AddTags(arn: string, added: Tags, fault: Option<GoError>) returns (err: Option<GoError>)
      modifies this`calls, this`tags
      ensures calls == old(calls) + [TagResource(arn, added)]
      ensures err == fault && tags == if fault.None? then old(tags) + added else old(tags)
    {
      calls := calls + [TagResource(arn, added)];
      if fault.None? {
        tags := tags + added;
      }
      err := fault;
    }

    method RemoveTags(arn: string, removed: seq<string>, fault: Option<GoError>) returns (err: Option<GoError>)
      modifies this`calls, this`tags
      ensures calls == old(calls) + [UntagResource(arn, removed)]
      ensures err == fault && tags == if fault.None? then old(tags) - KeySet(removed) else old(tags)
    {
      calls := calls + [UntagResource(arn, removed)];
      if fault.None? {
        tags := tags - KeySet(removed);
      }
      err := fault;
    }

    /** AWS replaces its own tags on the pool. */
    method Drift(aws: Tags)
      modifies this`tags
      ensures tags == UserOnly(old(tags)) + AwsOnly(aws)
    {
      tags := UserOnly(tags) + AwsOnly(aws);
    }

    method Update(input: UpdateInput, rest: SdkUserPool, fault: Option<GoError>) returns (err: Option<GoError>)
      modifies this`calls, this`pool
      ensures calls == old(calls) + [UpdateUserPool(input)]
      ensures err == fault && pool == if fault.None? then Overlay(old(pool), input, rest) else old(pool)
    {
      calls := calls + [UpdateUserPool(input)];
      if fault.None? {
        pool := Overlay(pool, input, rest);
      }
      err := fault;
    }

    /** Creation: the service answers with some pool and some initial tags. */
    method Create(input: CreateInput, created: SdkUserPool, initial: Tags, fault: Option<GoError>)
      returns (resp: SdkUserPool, err: Option<GoError>)
      modifies this
      ensures calls == old(calls) + [CreateUserPool(input)]
      ensures err == fault && resp == created
      ensures pool == (if fault.None? then created else old(pool))
      ensures tags == (if fault.None? then initial else old(tags))
    {
      calls := calls + [CreateUserPool(input)];
      if fault.None? {
        pool, tags := created, initial;
      }
      resp, err := created, fault;
    }
  }
}
