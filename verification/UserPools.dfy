/**
 The custom resource on the heap: the parts of a UserPool object the controller changes in
 place, its deep copy, and SetStatus, which makes two resources share one status.
 */
module UserPools {
  import opened Nullable
  import opened AckTags
  import opened Conditions
  import opened Shapes

  class Condition {
    const ctype: ConditionType
    var status: ConditionStatus
    var message: Option<string>
    var reason: Option<string>

    constructor (ctype: ConditionType)
      ensures Value() == ConditionValue(ctype, Unknown, None, None)
    {
      this.ctype := ctype;
      status, message, reason := Unknown, None, None;
    }

    function Value(): ConditionValue
      reads this
    {
      ConditionValue(ctype, status, message, reason)
    }

    method DeepCopy() returns (out: Condition)
      ensures fresh(out) && out.Value() == Value()
    {
      out := new Condition(ctype);
      out.status, out.message, out.reason := status, message, reason;
    }
  }

  datatype MetadataValue = MetadataValue(
    arn: Option<string>,
    region: Option<string>,
    partition: Option<string>,
    ownerAccountID: Option<string>)

  class Metadata {
    var arn: Option<string>
    var region: Option<string>
    var partition: Option<string>
    var ownerAccountID: Option<string>

    constructor ()
      ensures Value() == MetadataValue(None, None, None, None)
    {
      arn, region, partition, ownerAccountID := None, None, None, None;
    }

    function Value(): MetadataValue
      reads this
    {
      MetadataValue(arn, region, partition, ownerAccountID)
    }

    method DeepCopy() returns (out: Metadata)
      ensures fresh(out) && out.Value() == Value()
    {
      out := new Metadata();
      out.arn, out.region, out.partition, out.ownerAccountID := arn, region, partition, ownerAccountID;
    }
  }

  datatype StatusValue = StatusValue(metadata: Option<MetadataValue>, conditions: ConditionList, id: Option<string>)

  /** Everything a UserPool object stands for. */
  datatype PoolValue = PoolValue(spec: Spec, tags: TagValues, status: StatusValue)

  function ValuesOf(conditions: seq<Condition>): (values: ConditionList)
    reads conditions
    ensures |values| == |conditions|
    ensures forall i | 0 <= i < |conditions| :: values[i] == conditions[i].Value()
  {
    seq(|conditions|, i requires 0 <= i < |conditions| reads conditions => conditions[i].Value())
  }

  ghost predicate Distinct(conditions: seq<Condition>) {
    forall i, j | 0 <= i < j < |conditions| :: conditions[i] != conditions[j]
  }

  method DeepCopyConditions(conditions: seq<Condition>) returns (out: seq<Condition>)
    ensures ValuesOf(out) == ValuesOf(conditions)
    ensures Distinct(out) && forall i | 0 <= i < |out| :: fresh(out[i])
  {
    out := [];
    for i := 0 to |conditions|
      invariant |out| == i
      invariant Distinct(out) && forall j | 0 <= j < i :: fresh(out[j])
      invariant forall j | 0 <= j < i :: out[j].Value() == conditions[j].Value()
    {
      var c := conditions[i].DeepCopy();
      out := out + [c];
    }
  }

  /** Tag values are copied cell by cell; nil stays nil. */
  method DeepCopyTags(tags: TagCells) returns (out: TagCells)
    ensures Deref(out) == Deref(tags)
    ensures forall k <- out | out[k] != null :: fresh(out[k])
    ensures forall j <- out, k <- out | j != k && out[j] != null :: out[j] != out[k]
  {
    out := map[];
    var todo := tags.Keys;
    while todo != {}
      invariant todo <= tags.Keys && out.Keys == tags.Keys - todo
      invariant forall k <- out :: (out[k] == null) == (tags[k] == null)
      invariant forall k <- out | out[k] != null :: fresh(out[k]) && out[k].text == tags[k].text
      invariant forall j <- out, k <- out | j != k && out[j] != null :: out[j] != out[k]
      decreases |todo|
    {
      var key :| key in todo;
      var val := tags[key];
      if val == null {
        out := out[key := null];
      } else {
        var outVal := new StringCell(val.text);
        out := out[key := outVal];
      }
      todo := todo - {key};
    }
  }

  class UserPool {
    var spec: Spec
    var tags: TagCells
    var id: Option<string>
    var metadata: Metadata?
    var conditions: seq<Condition>

    constructor (spec: Spec)
      ensures Value() == PoolValue(spec, map[], StatusValue(None, [], None))
      ensures metadata == null
    {
      this.spec := spec;
      tags, id, metadata, conditions := map[], None, null, [];
    }

    function Status(): StatusValue
      reads this`id, this`metadata, this`conditions, metadata, conditions
    {
      StatusValue(if metadata == null then None else Some(metadata.Value()), ValuesOf(conditions), id)
    }

    function Value(): PoolValue
      reads this, metadata, conditions
    {
      PoolValue(spec, Deref(tags), Status())
    }

    /** Copies the status, cell by cell, into a resource. */
    method DeepCopyStatusInto(out: UserPool)
      modifies out`id, out`metadata, out`conditions
      ensures out.Status() == old(Status())
      ensures out.metadata != null ==> fresh(out.metadata)
      ensures Distinct(out.conditions)
      ensures forall i | 0 <= i < |out.conditions| :: fresh(out.conditions[i])
    {
      var m: Metadata? := null;
      if metadata != null {
        m := metadata.DeepCopy();
      }
      var cs := DeepCopyConditions(conditions);
      out.id, out.metadata, out.conditions := id, m, cs;
    }

    /** An equal resource that shares no mutable cell with anything that existed before. */
    method DeepCopy() returns (out: UserPool)
      ensures out.Value() == old(Value())
      ensures fresh(out) && (out.metadata != null ==> fresh(out.metadata))
      ensures Distinct(out.conditions)
      ensures forall i | 0 <= i < |out.conditions| :: fresh(out.conditions[i])
      ensures forall k <- out.tags | out.tags[k] != null :: fresh(out.tags[k])
    {
      out := new UserPool(spec);
      var copied := DeepCopyTags(tags);
      out.tags := copied;
      DeepCopyStatusInto(out);
    }

    /** The status struct is copied, the cells behind its pointers are not. */
    method SetStatus(desired: UserPool)
      modifies this`id, this`metadata, this`conditions
      ensures metadata == old(desired.metadata) && conditions == old(desired.conditions) && id == old(desired.id)
      ensures Status() == old(desired.Status())
    {
      id, metadata, conditions := desired.id, desired.metadata, desired.conditions;
    }

    method ReplaceConditions(conditions: seq<Condition>)
      modifies this`conditions
      ensures Value() == old(Value()).(status := old(Status()).(conditions := ValuesOf(conditions)))
      ensures this.conditions == conditions
    {
      this.conditions := conditions;
    }
  }
}
