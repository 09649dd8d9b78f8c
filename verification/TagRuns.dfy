/**
 Tag reconciliation on values: what one pass sends and leaves behind, and what any run of
 passes does when calls fail and AWS changes its own tags between passes.
 */
module TagRuns {
  import opened AckTags

  /** One call to the tagging API. */
  datatype TagCall = Tag(tags: Tags) | Untag(keys: set<string>) {
    ghost predicate Mentions(key: string) {
      match this
      case Tag(tags) => key in tags
      case Untag(keys) => key in keys
    }
  }

  /** Which steps of a pass fail. Reading covers DescribeUserPool and ListTagsForResource. */
  datatype TagFaults = TagFaults(read: bool, tag: bool, untag: bool)

  const NO_FAULT := TagFaults(false, false, false)

  /** What EnsureTags puts in the desired resource. */
  function Ensured(user: TagValues, defaults: Tags): Tags {
    Merge(ToTags(user), defaults)
  }

  /** The desired tags once mirrorAWSTags has run: the tags a pass aims at. */
  function Target(wanted: Tags, remote: Tags): Tags {
    wanted + AwsOnly(remote)
  }

  function Additions(desired: Tags, existing: Tags): Tags {
    map k | k in desired && (k !in existing || existing[k] != desired[k]) :: desired[k]
  }

  function Deletions(desired: Tags, existing: Tags): set<string> {
    existing.Keys - desired.Keys
  }

  /** The calls SyncTags makes; a failing first call suppresses the second. */
  function SyncCalls(desired: Tags, existing: Tags, tagFails: bool): seq<TagCall> {
    var toAdd, toDelete := Additions(desired, existing), Deletions(desired, existing);
    if toAdd != map[] && tagFails then [Tag(toAdd)]
    else (if toAdd == map[] then [] else [Tag(toAdd)]) + (if toDelete == {} then [] else [Untag(toDelete)])
  }

  /** Remote tags after those calls; a failing call changes nothing. */
  function Synced(remote: Tags, desired: Tags, existing: Tags, tagFails: bool, untagFails: bool): Tags {
    var toAdd, toDelete := Additions(desired, existing), Deletions(desired, existing);
    if toAdd != map[] && tagFails then remote
    else if toDelete != {} && untagFails then remote + toAdd
    else remote + toAdd - toDelete
  }

  function PassCalls(wanted: Tags, remote: Tags, faults: TagFaults): seq<TagCall> {
    if faults.read then [] else SyncCalls(Target(wanted, remote), remote, faults.tag)
  }

  function AfterPass(wanted: Tags, remote: Tags, faults: TagFaults): Tags {
    if faults.read then remote
    else Synced(remote, Target(wanted, remote), remote, faults.tag, faults.untag)
  }

  /** The keys on which two tag maps disagree. */
  ghost function Disagreement(s: Tags, t: Tags): set<string> {
    set k | k in s.Keys + t.Keys && (k !in s || k !in t || s[k] != t[k])
  }

  ghost predicate NoAwsKey(tags: Tags) {
    forall k <- tags :: !("aws:" <= k)
  }

  // ---- One pass ----

  /** Whatever the user and default tags are, a pass without a failure reaches its target. */
  lemma PassReachesTarget(wanted: Tags, remote: Tags)
    ensures AfterPass(wanted, remote, NO_FAULT) == Target(wanted, remote)
  {
  }

  /** The target spelled out: a tag is the remote's if AWS owns it, else the user's, else the default. */
  lemma TargetIs(user: TagValues, defaults: Tags, remote: Tags)
    requires NoAwsKey(Ensured(user, defaults))
    ensures var t := Target(Ensured(user, defaults), remote);
      && AwsOnly(t) == AwsOnly(remote)
      && UserOnly(t) == Ensured(user, defaults)
      && (forall k <- user :: t[k] == user[k].GetOr(""))
      && (forall k <- defaults :: k !in user ==> t[k] == defaults[k])
      && t.Keys == user.Keys + defaults.Keys + AwsOnly(remote).Keys
  {
  }

  /** No pass, failing or not, moves the target. */
  lemma TargetIsStable(wanted: Tags, remote: Tags, faults: TagFaults)
    ensures Target(wanted, AfterPass(wanted, remote, faults)) == Target(wanted, remote)
  {
  }

  /** A pass that can read makes a tag call exactly when it does not start at its target. */
  lemma QuietIffAtTarget(wanted: Tags, remote: Tags, faults: TagFaults)
    requires !faults.read
    ensures PassCalls(wanted, remote, faults) == [] <==> remote == Target(wanted, remote)
  {
    var target := Target(wanted, remote);
    SyncNeededIffDifferent(target, remote);
  }

  lemma SyncNeededIffDifferent(desired: Tags, existing: Tags)
    ensures desired == existing <==> Additions(desired, existing) == map[] && Deletions(desired, existing) == {}
  {
    if Additions(desired, existing) == map[] && Deletions(desired, existing) == {} {
      assert forall k <- desired :: k !in Additions(desired, existing);
      assert forall k <- existing :: k !in Deletions(desired, existing);
    }
  }

  /**
   A failure-free pass mentions an AWS key exactly when the user or default tags hold one
   that the remote does not have: mirroring takes the remote's value for all the others.
   */
  lemma AwsKeyMentionedIff(wanted: Tags, remote: Tags, key: string)
    requires IsAws(key)
    ensures (exists call <- PassCalls(wanted, remote, NO_FAULT) :: call.Mentions(key))
            <==> key in wanted && key !in remote
  {
    var target := Target(wanted, remote);
    var toAdd, toDelete := Additions(target, remote), Deletions(target, remote);
    var calls := PassCalls(wanted, remote, NO_FAULT);
    if key in wanted && key !in remote {
      assert key in toAdd;
      assert calls[0].Mentions(key);
    }
  }

  // ---- Runs ----

  /** A pass, or AWS replacing its own tags on the remote by others. */
  datatype Event = Pass(faults: TagFaults) | Drift(aws: Tags)

  function Step(wanted: Tags, remote: Tags, event: Event): Tags {
    match event
    case Pass(faults) => AfterPass(wanted, remote, faults)
    case Drift(aws) => UserOnly(remote) + AwsOnly(aws)
  }

  function StepCalls(wanted: Tags, remote: Tags, event: Event): seq<TagCall> {
    match event
    case Pass(faults) => PassCalls(wanted, remote, faults)
    case Drift(_) => []
  }

  /** The remote tags after a run. */
  function After(wanted: Tags, remote: Tags, events: seq<Event>): Tags
    decreases events
  {
    if events == [] then remote
    else After(wanted, Step(wanted, remote, events[0]), events[1..])
  }

  /** All the tag calls of a run. */
  function Calls(wanted: Tags, remote: Tags, events: seq<Event>): seq<TagCall>
    decreases events
  {
    if events == [] then []
    else StepCalls(wanted, remote, events[0]) +
         Calls(wanted, Step(wanted, remote, events[0]), events[1..])
  }

  /** How far the remote is from what a pass would aim at. */
  ghost function Gap(wanted: Tags, remote: Tags): set<string> {
    Disagreement(remote, Target(wanted, remote))
  }

  lemma {:induction false} RunsCompose(wanted: Tags, remote: Tags, first: seq<Event>, second: seq<Event>)
    ensures After(wanted, remote, first + second)
            == After(wanted, After(wanted, remote, first), second)
    ensures Calls(wanted, remote, first + second)
            == Calls(wanted, remote, first) +
               Calls(wanted, After(wanted, remote, first), second)
    decreases first
  {
    if first == [] {
      assert first + second == second;
    } else {
      assert (first + second)[1..] == first[1..] + second;
      RunsCompose(wanted, Step(wanted, remote, first[0]), first[1..], second);
    }
  }

  lemma RunOfOne(wanted: Tags, remote: Tags, event: Event)
    ensures After(wanted, remote, [event]) == Step(wanted, remote, event)
    ensures Calls(wanted, remote, [event]) == StepCalls(wanted, remote, event)
  {
  }

  lemma RunExtends(wanted: Tags, remote: Tags, events: seq<Event>, last: Event)
    ensures var mid := After(wanted, remote, events);
      && After(wanted, remote, events + [last]) == Step(wanted, mid, last)
      && Calls(wanted, remote, events + [last]) == Calls(wanted, remote, events) + StepCalls(wanted, mid, last)
  {
    RunsCompose(wanted, remote, events, [last]);
    RunOfOne(wanted, After(wanted, remote, events), last);
  }

  lemma StepNarrowsGap(wanted: Tags, remote: Tags, event: Event)
    requires NoAwsKey(wanted)
    ensures Gap(wanted, Step(wanted, remote, event)) <= Gap(wanted, remote)
  {
    match event
    case Pass(faults) => TargetIsStable(wanted, remote, faults);
    case Drift(aws) =>
  }

  lemma {:induction false} RunNarrowsGap(wanted: Tags, remote: Tags, events: seq<Event>)
    requires NoAwsKey(wanted)
    ensures Gap(wanted, After(wanted, remote, events)) <= Gap(wanted, remote)
    decreases events
  {
    if events != [] {
      StepNarrowsGap(wanted, remote, events[0]);
      RunNarrowsGap(wanted, Step(wanted, remote, events[0]), events[1..]);
    }
  }

  /** However calls fail and AWS tags drift, a later point of a run is never further from its target. */
  lemma GapNeverGrows(wanted: Tags, remote: Tags, before: seq<Event>, after: seq<Event>)
    requires NoAwsKey(wanted)
    ensures Gap(wanted, After(wanted, remote, before + after))
            <= Gap(wanted, After(wanted, remote, before))
  {
    RunsCompose(wanted, remote, before, after);
    RunNarrowsGap(wanted, After(wanted, remote, before), after);
  }

  /** No run brings a key that is neither AWS's, nor wanted, nor there from the start. */
  lemma {:induction false} NoForeignKey(wanted: Tags, remote: Tags, events: seq<Event>)
    ensures UserOnly(After(wanted, remote, events)).Keys <= wanted.Keys + remote.Keys
    decreases events
  {
    if events != [] {
      NoForeignKey(wanted, Step(wanted, remote, events[0]), events[1..]);
    }
  }

  lemma StepStaysAtTarget(wanted: Tags, remote: Tags, event: Event)
    requires NoAwsKey(wanted)
    requires remote == Target(wanted, remote)
    ensures var next := Step(wanted, remote, event); next == Target(wanted, next)
    ensures StepCalls(wanted, remote, event) == []
  {
    SyncNeededIffDifferent(Target(wanted, remote), remote);
  }

  lemma {:induction false} StaysAtTarget(wanted: Tags, remote: Tags, events: seq<Event>)
    requires NoAwsKey(wanted)
    requires remote == Target(wanted, remote)
    ensures var end := After(wanted, remote, events); end == Target(wanted, end)
    ensures Calls(wanted, remote, events) == []
    decreases events
  {
    if events != [] {
      StepStaysAtTarget(wanted, remote, events[0]);
      StaysAtTarget(wanted, Step(wanted, remote, events[0]), events[1..]);
    }
  }

  /**
   Convergence: once a run contains one failure-free pass, it ends at its target whatever
   came before and fails after, and nothing after that pass makes a tag call.
   */
  lemma CleanPassConverges(wanted: Tags, remote: Tags, before: seq<Event>, after: seq<Event>)
    requires NoAwsKey(wanted)
    ensures var run := before + [Pass(NO_FAULT)];
      && var end := After(wanted, remote, run + after);
      && end == Target(wanted, end) && UserOnly(end) == wanted
      && Calls(wanted, remote, run + after) == Calls(wanted, remote, run)
  {
    var clean := [Pass(NO_FAULT)];
    var run := before + clean;
    var mid := After(wanted, remote, before);
    RunsCompose(wanted, remote, before, clean);
    PassReachesTarget(wanted, mid);
    TargetIsStable(wanted, mid, NO_FAULT);
    var reached := AfterPass(wanted, mid, NO_FAULT);
    RunOfOne(wanted, mid, clean[0]);
    RunsCompose(wanted, remote, run, after);
    StaysAtTarget(wanted, reached, after);
  }

  /** Wanted tags are all in place; only surplus keys may be left. */
  ghost predicate HasWanted(wanted: Tags, remote: Tags) {
    forall k <- Target(wanted, remote) :: k in remote && remote[k] == Target(wanted, remote)[k]
  }

  lemma NothingLeftToAdd(wanted: Tags, remote: Tags)
    requires HasWanted(wanted, remote)
    ensures Additions(Target(wanted, remote), remote) == map[]
  {
  }

  lemma {:induction false} WantedStays(wanted: Tags, remote: Tags, events: seq<Event>)
    requires NoAwsKey(wanted)
    requires HasWanted(wanted, remote)
    ensures HasWanted(wanted, After(wanted, remote, events))
    decreases events
  {
    if events != [] {
      NothingLeftToAdd(wanted, remote);
      WantedStays(wanted, Step(wanted, remote, events[0]), events[1..]);
    }
  }

  lemma AddingPassLeavesSurplus(wanted: Tags, remote: Tags, untagFails: bool)
    ensures HasWanted(wanted, AfterPass(wanted, remote, TagFaults(false, false, untagFails)))
  {
  }

  lemma DeletingPassFinishes(wanted: Tags, remote: Tags, tagFails: bool)
    requires HasWanted(wanted, remote)
    ensures AfterPass(wanted, remote, TagFaults(false, tagFails, false)) == Target(wanted, remote)
  {
  }

  // ---- The order of the two calls ----

  /** What a successful tag call does to the tags. */
  function Applied(tags: Tags, call: TagCall): Tags {
    match call
    case Tag(added) => tags + added
    case Untag(keys) => tags - keys
  }

  function AppliedAll(tags: Tags, calls: seq<TagCall>): Tags {
    if calls == [] then tags
    else Applied(AppliedAll(tags, calls[..|calls| - 1]), calls[|calls| - 1])
  }

  lemma AppliedOne(tags: Tags, call: TagCall)
    ensures AppliedAll(tags, [call]) == Applied(tags, call)
  {
    assert [call][..0] == [];
  }

  lemma AppliedTwo(tags: Tags, first: TagCall, second: TagCall)
    ensures AppliedAll(tags, [first, second]) == Applied(Applied(tags, first), second)
  {
    AppliedOne(tags, first);
    assert [first, second][..1] == [first];
  }

  /** The pool ends as the calls that worked make it: all of them, or all but the last where that one failed. */
  lemma PassAppliesItsCalls(wanted: Tags, remote: Tags, faults: TagFaults)
    ensures var calls, after := PassCalls(wanted, remote, faults), AfterPass(wanted, remote, faults);
      && |calls| <= 2
      && after == AppliedAll(remote,
           if calls != [] && (if calls[|calls| - 1].Tag? then faults.tag else faults.untag)
           then calls[..|calls| - 1] else calls)
  {
    var target := Target(wanted, remote);
    var adds, deletes := Tag(Additions(target, remote)), Untag(Deletions(target, remote));
    AppliedOne(remote, adds);
    AppliedOne(remote, deletes);
    AppliedTwo(remote, adds, deletes);
    assert [adds, deletes][..1] == [adds];
    assert remote + map[] == remote;
  }

  /**
   A key is only removed once every wanted tag is in place: no pass sends UntagResource after
   a failed TagResource.
   */
  lemma DeletionsWaitForAdditions(wanted: Tags, remote: Tags, faults: TagFaults)
    ensures var after := AfterPass(wanted, remote, faults);
      !HasWanted(wanted, after) ==>
        && remote.Keys <= after.Keys
        && forall call <- PassCalls(wanted, remote, faults) :: !call.Untag?
  {
    TargetIsStable(wanted, remote, faults);
  }

  /** An UntagResource is the last call of its pass, and what was sent before it has put every wanted tag in place. */
  lemma UntagComesLast(wanted: Tags, remote: Tags, faults: TagFaults, i: nat)
    requires var calls := PassCalls(wanted, remote, faults); i < |calls| && calls[i].Untag?
    ensures var calls := PassCalls(wanted, remote, faults);
      && i == |calls| - 1
      && HasWanted(wanted, AppliedAll(remote, calls[..i]))
  {
    var calls, target := PassCalls(wanted, remote, faults), Target(wanted, remote);
    var toAdd := Additions(target, remote);
    AddingPassLeavesSurplus(wanted, remote, true);
    if toAdd == map[] {
      assert forall k <- target :: k !in toAdd;
    } else {
      assert calls[..1] == [Tag(toAdd)];
      AppliedOne(remote, Tag(toAdd));
      assert Target(wanted, remote + toAdd) == target;
    }
  }

  /** Hence, over a run at whose end some wanted tag is still missing, no pass has removed anything. */
  lemma {:induction false} NothingRemovedBeforeWanted(wanted: Tags, remote: Tags, events: seq<Event>)
    requires NoAwsKey(wanted) && !HasWanted(wanted, After(wanted, remote, events))
    ensures UserOnly(remote).Keys <= After(wanted, remote, events).Keys
    ensures forall call <- Calls(wanted, remote, events) :: !call.Untag?
    decreases events
  {
    if events != [] {
      var next := Step(wanted, remote, events[0]);
      NothingRemovedBeforeWanted(wanted, next, events[1..]);
      if HasWanted(wanted, next) {
        WantedStays(wanted, next, events[1..]);
      }
      if events[0].Pass? {
        DeletionsWaitForAdditions(wanted, remote, events[0].faults);
      }
      assert UserOnly(remote).Keys <= UserOnly(next).Keys;
    }
  }

  lemma RunBetween(wanted: Tags, remote: Tags, first: Event, between: seq<Event>, last: Event)
    ensures After(wanted, remote, [first] + between + [last])
            == Step(wanted, After(wanted, Step(wanted, remote, first), between), last)
  {
    RunOfOne(wanted, remote, first);
    RunsCompose(wanted, remote, [first], between);
    RunsCompose(wanted, remote, [first] + between, [last]);
    RunOfOne(wanted, After(wanted, remote, [first] + between), last);
  }

  lemma TargetOfTarget(wanted: Tags, remote: Tags)
    requires NoAwsKey(wanted)
    ensures var t := Target(wanted, remote); Target(wanted, t) == t && UserOnly(t) == wanted
  {
  }

  /**
   Recovery needs no failure-free pass: one pass whose TagResource works and any later pass
   whose UntagResource works reach the target, even if the other call fails in both.
   */
  lemma TwoHalvesConverge(wanted: Tags, remote: Tags, between: seq<Event>, untagFails: bool, tagFails: bool)
    requires NoAwsKey(wanted)
    ensures var adds, deletes := Pass(TagFaults(false, false, untagFails)), Pass(TagFaults(false, tagFails, false));
      && var end := After(wanted, remote, [adds] + between + [deletes]);
      && end == Target(wanted, end) && UserOnly(end) == wanted
  {
    var adds, deletes := Pass(TagFaults(false, false, untagFails)), Pass(TagFaults(false, tagFails, false));
    var added := Step(wanted, remote, adds);
    var late := After(wanted, added, between);
    assert HasWanted(wanted, late) by {
      AddingPassLeavesSurplus(wanted, remote, untagFails);
      WantedStays(wanted, added, between);
    }
    assert Step(wanted, late, deletes) == Target(wanted, late) by {
      DeletingPassFinishes(wanted, late, tagFails);
    }
    RunBetween(wanted, remote, adds, between, deletes);
    TargetOfTarget(wanted, late);
  }

  /** No tag call of any run mentions a key that AWS owns. */
  lemma {:induction false} RunsSpareAwsKeys(wanted: Tags, remote: Tags, events: seq<Event>)
    requires NoAwsKey(wanted)
    ensures forall call <- Calls(wanted, remote, events), key | "aws:" <= key :: !call.Mentions(key)
    decreases events
  {
    if events != [] {
      RunsSpareAwsKeys(wanted, Step(wanted, remote, events[0]), events[1..]);
    }
  }

  /** The condition is needed: otherwise the very first pass over an untagged pool sends an AWS key. */
  lemma OnlyAwsFreeTagsAreSafe(wanted: Tags)
    ensures NoAwsKey(wanted) <==>
            forall remote: Tags, events: seq<Event> ::
              forall call <- Calls(wanted, remote, events), key | "aws:" <= key :: !call.Mentions(key)
  {
    if NoAwsKey(wanted) {
      forall remote: Tags, events: seq<Event>
        ensures forall call <- Calls(wanted, remote, events), key | "aws:" <= key :: !call.Mentions(key)
      {
        RunsSpareAwsKeys(wanted, remote, events);
      }
    } else {
      var key :| key in wanted && "aws:" <= key;
      AwsKeyMentionedIff(wanted, map[], key);
      var call :| call in PassCalls(wanted, map[], NO_FAULT) && call.Mentions(key);
      RunOfOne(wanted, map[], Pass(NO_FAULT));
    }
  }

  // ---- Injecting and filtering ----

  /**
   FilterSystemTags undoes EnsureTags and mirrorAWSTags exactly when no user key is AWS's or
   a system key and every default key the user lacks is one of them; the remote is irrelevant.
   */
  lemma FilterUndoesInjectIff(user: TagValues, defaults: Tags, remote: Tags, systemTags: seq<string>)
    ensures WithoutSystem(Target(Ensured(user, defaults), remote), systemTags) == ToTags(user) <==>
      && (forall k <- user :: !IsAws(k) && k !in systemTags)
      && (forall k <- defaults :: k in user || IsAws(k) || k in systemTags)
  {
    var filtered := WithoutSystem(Target(Ensured(user, defaults), remote), systemTags);
    if filtered == ToTags(user) {
      assert forall k <- user :: k in ToTags(user) && k in filtered;
      assert forall k <- defaults :: k in Target(Ensured(user, defaults), remote);
    }
  }
}
