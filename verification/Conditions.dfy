/**
 The condition list of a resource on values: what updateConditions makes of it, and what
 any run of successes, recoverable errors and terminal errors leaves in it.
 */
module Conditions {
  import opened Nullable
  import opened Errors

  datatype ConditionType = TerminalType | RecoverableType | SyncedType | OtherType(name: string)

  datatype ConditionStatus = True | False | Unknown

  datatype ConditionValue = ConditionValue(
    ctype: ConditionType,
    status: ConditionStatus,
    message: Option<string>,
    reason: Option<string>)

  type ConditionList = seq<ConditionValue>

  /** The index of the last condition of a type, or -1: the one the scan of updateConditions keeps. */
  function LastOf(conditions: ConditionList, ctype: ConditionType): (i: int)
    ensures -1 <= i < |conditions|
    ensures i >= 0 ==> conditions[i].ctype == ctype
    ensures forall j | i < j < |conditions| :: conditions[j].ctype != ctype
  {
    if conditions == [] then -1
    else if conditions[|conditions| - 1].ctype == ctype then |conditions| - 1
    else LastOf(conditions[..|conditions| - 1], ctype)
  }

  predicate Has(conditions: ConditionList, ctype: ConditionType) {
    LastOf(conditions, ctype) >= 0
  }

  function WithStatus(c: ConditionValue, status: ConditionStatus, message: Option<string>): ConditionValue {
    c.(status := status, message := message)
  }

  /** Sets the last condition of a type, appending one if there is none. */
  function Raise(conditions: ConditionList, ctype: ConditionType, message: string): ConditionList {
    var i := LastOf(conditions, ctype);
    if i >= 0 then conditions[i := WithStatus(conditions[i], True, Some(message))]
    else conditions + [ConditionValue(ctype, True, Some(message), None)]
  }

  /** Clears the last condition of a type, if there is one. */
  function Clear(conditions: ConditionList, ctype: ConditionType): ConditionList {
    var i := LastOf(conditions, ctype);
    if i >= 0 then conditions[i := WithStatus(conditions[i], False, None)] else conditions
  }

  function TerminalMessage(err: GoError): string
    requires IsTerminal(Some(err))
  {
    if LocallyTerminal(err) then err.text else err.api.value.text
  }

  function RecoverableMessage(err: GoError): string {
    if err.api.Some? then err.api.value.text else err.text
  }

  /** updateConditions; no error means success. */
  function Updated(conditions: ConditionList, err: Option<GoError>): ConditionList {
    if IsTerminal(err) then Raise(conditions, TerminalType, TerminalMessage(err.value))
    else
      var cleared := Clear(conditions, TerminalType);
      if err.Some? then Raise(cleared, RecoverableType, RecoverableMessage(err.value))
      else Clear(cleared, RecoverableType)
  }

  /** Whether updateConditions hands back a copy at all. */
  predicate Touched(conditions: ConditionList, err: Option<GoError>) {
    err.Some? || Has(conditions, TerminalType) || Has(conditions, RecoverableType) || Has(conditions, SyncedType)
  }

  /** Some condition of the type is True: what onError looks for. */
  predicate HasTrue(conditions: ConditionList, ctype: ConditionType) {
    exists i | 0 <= i < |conditions| :: conditions[i].ctype == ctype && conditions[i].status == True
  }

  predicate Unique(conditions: ConditionList) {
    forall i, j | 0 <= i < j < |conditions| :: conditions[i].ctype != conditions[j].ctype
  }

  /** The conditions updateConditions never writes, in order. */
  function Others(conditions: ConditionList): ConditionList {
    if conditions == [] then []
    else
      var c := conditions[|conditions| - 1];
      Others(conditions[..|conditions| - 1]) +
      if c.ctype == TerminalType || c.ctype == RecoverableType then [] else [c]
  }

  /** The condition updateConditions would write for a type. */
  function Effective(conditions: ConditionList, ctype: ConditionType): Option<ConditionValue> {
    var i := LastOf(conditions, ctype);
    if i >= 0 then Some(conditions[i]) else None
  }

  /** The conditions after a run of outcomes. */
  function AfterRun(conditions: ConditionList, outcomes: seq<Option<GoError>>): ConditionList {
    if outcomes == [] then conditions
    else Updated(AfterRun(conditions, outcomes[..|outcomes| - 1]), outcomes[|outcomes| - 1])
  }

  // ---- One step ----

  lemma LastIs(conditions: ConditionList, ctype: ConditionType, i: int)
    requires -1 <= i < |conditions|
    requires i >= 0 ==> conditions[i].ctype == ctype
    requires forall j | i < j < |conditions| :: conditions[j].ctype != ctype
    ensures LastOf(conditions, ctype) == i
  {
  }

  lemma RewriteKeepsLasts(conditions: ConditionList, i: nat, c: ConditionValue)
    requires i < |conditions| && c.ctype == conditions[i].ctype
    ensures forall t :: LastOf(conditions[i := c], t) == LastOf(conditions, t)
  {
    forall t ensures LastOf(conditions[i := c], t) == LastOf(conditions, t) {
      LastIs(conditions[i := c], t, LastOf(conditions, t));
    }
  }

  lemma AppendMovesOneLast(conditions: ConditionList, c: ConditionValue)
    ensures forall t :: LastOf(conditions + [c], t) == if t == c.ctype then |conditions| else LastOf(conditions, t)
  {
  }

  /** Raising or clearing a type rewrites its last condition and nothing else. */
  lemma RaiseIsLocal(conditions: ConditionList, ctype: ConditionType, message: string)
    ensures var after := Raise(conditions, ctype, message);
      && (forall t | t != ctype :: Effective(after, t) == Effective(conditions, t))
      && Effective(after, ctype) == Some(WithStatus(
           Effective(conditions, ctype).GetOr(ConditionValue(ctype, True, None, None)), True, Some(message)))
      && |after| == |conditions| + (if Has(conditions, ctype) then 0 else 1)
      && (forall i | 0 <= i < |conditions| && i != LastOf(conditions, ctype) :: after[i] == conditions[i])
  {
    var i := LastOf(conditions, ctype);
    if i >= 0 {
      RewriteKeepsLasts(conditions, i, WithStatus(conditions[i], True, Some(message)));
    } else {
      AppendMovesOneLast(conditions, ConditionValue(ctype, True, Some(message), None));
    }
  }

  lemma ClearIsLocal(conditions: ConditionList, ctype: ConditionType)
    ensures var after := Clear(conditions, ctype);
      && (forall t | t != ctype :: Effective(after, t) == Effective(conditions, t))
      && Effective(after, ctype) == (if Has(conditions, ctype)
           then Some(WithStatus(Effective(conditions, ctype).value, False, None)) else None)
      && |after| == |conditions|
      && (forall i | 0 <= i < |conditions| && i != LastOf(conditions, ctype) :: after[i] == conditions[i])
  {
    var i := LastOf(conditions, ctype);
    if i >= 0 {
      RewriteKeepsLasts(conditions, i, WithStatus(conditions[i], False, None));
    }
  }

  /** The whole effect of one step on the two managed types and on all the others. */
  lemma StepEffect(conditions: ConditionList, err: Option<GoError>)
    ensures var after := Updated(conditions, err);
      && (forall t | t != TerminalType && t != RecoverableType :: Effective(after, t) == Effective(conditions, t))
      && (IsTerminal(err) ==>
            && Effective(after, RecoverableType) == Effective(conditions, RecoverableType)
            && Effective(after, TerminalType).Some?
            && Effective(after, TerminalType).value.status == True
            && Effective(after, TerminalType).value.message == Some(TerminalMessage(err.value)))
      && (!IsTerminal(err) && Has(conditions, TerminalType) ==>
            Effective(after, TerminalType) == Some(WithStatus(Effective(conditions, TerminalType).value, False, None)))
      && (!IsTerminal(err) && !Has(conditions, TerminalType) ==> Effective(after, TerminalType) == None)
      && (!IsTerminal(err) && err.Some? ==>
            && Effective(after, RecoverableType).Some?
            && Effective(after, RecoverableType).value.status == True
            && Effective(after, RecoverableType).value.message == Some(RecoverableMessage(err.value)))
      && (err.None? && Has(conditions, RecoverableType) ==>
            Effective(after, RecoverableType) ==
              Some(WithStatus(Effective(conditions, RecoverableType).value, False, None)))
      && (err.None? && !Has(conditions, RecoverableType) ==> Effective(after, RecoverableType) == None)
  {
    if IsTerminal(err) {
      RaiseIsLocal(conditions, TerminalType, TerminalMessage(err.value));
    } else {
      ClearIsLocal(conditions, TerminalType);
      var cleared := Clear(conditions, TerminalType);
      if err.Some? {
        RaiseIsLocal(cleared, RecoverableType, RecoverableMessage(err.value));
      } else {
        ClearIsLocal(cleared, RecoverableType);
      }
    }
  }

  /** Every entry but the last of each managed type is kept in place; at most one entry is added. */
  lemma StepKeepsEntries(conditions: ConditionList, err: Option<GoError>)
    ensures var after := Updated(conditions, err);
      && |conditions| <= |after| <= |conditions| + 1
      && (forall i | 0 <= i < |conditions| ::
            && after[i].ctype == conditions[i].ctype && after[i].reason == conditions[i].reason
            && (i != LastOf(conditions, TerminalType) && i != LastOf(conditions, RecoverableType) ==>
                  after[i] == conditions[i]))
      && (forall i | |conditions| <= i < |after| ::
            && (after[i].ctype == TerminalType || after[i].ctype == RecoverableType)
            && !Has(conditions, after[i].ctype))
  {
    if IsTerminal(err) {
      RaiseIsLocal(conditions, TerminalType, TerminalMessage(err.value));
    } else {
      ClearIsLocal(conditions, TerminalType);
      var i := LastOf(conditions, TerminalType);
      if i >= 0 {
        RewriteKeepsLasts(conditions, i, WithStatus(conditions[i], False, None));
      }
    }
  }

  lemma OthersAppend(conditions: ConditionList, c: ConditionValue)
    ensures Others(conditions + [c]) ==
      Others(conditions) + if c.ctype == TerminalType || c.ctype == RecoverableType then [] else [c]
  {
  }

  lemma {:induction false} OthersIgnoreManaged(a: ConditionList, b: ConditionList)
    requires |a| == |b|
    requires forall i | 0 <= i < |a| :: a[i].ctype == b[i].ctype
    requires forall i | 0 <= i < |a| && a[i] != b[i] :: a[i].ctype == TerminalType || a[i].ctype == RecoverableType
    ensures Others(a) == Others(b)
  {
    if a != [] {
      OthersIgnoreManaged(a[..|a| - 1], b[..|b| - 1]);
    }
  }

  lemma StepKeepsOthers(conditions: ConditionList, err: Option<GoError>)
    ensures Others(Updated(conditions, err)) == Others(conditions)
  {
    StepKeepsEntries(conditions, err);
    var after := Updated(conditions, err);
    OthersIgnoreManaged(after[..|conditions|], conditions);
    if |after| == |conditions| + 1 {
      assert after == after[..|conditions|] + [after[|conditions|]];
      OthersAppend(after[..|conditions|], after[|conditions|]);
    } else {
      assert after == after[..|conditions|];
    }
  }

  lemma StepKeepsUnique(conditions: ConditionList, err: Option<GoError>)
    requires Unique(conditions)
    ensures Unique(Updated(conditions, err))
  {
    StepKeepsEntries(conditions, err);
  }

  /**
   onError reports the Terminal error exactly when the error is terminal or a Terminal
   condition other than the last one was already True: the scan only rewrites the last.
   */
  lemma TerminalReportedIff(conditions: ConditionList, err: GoError)
    ensures HasTrue(Updated(conditions, Some(err)), TerminalType) <==>
      || IsTerminal(Some(err))
      || (exists i | 0 <= i < |conditions| :: i != LastOf(conditions, TerminalType) &&
            conditions[i].ctype == TerminalType && conditions[i].status == True)
  {
    var after := Updated(conditions, Some(err));
    StepEffect(conditions, Some(err));
    StepKeepsEntries(conditions, Some(err));
    var last := LastOf(after, TerminalType);
    if IsTerminal(Some(err)) {
      assert after[last].status == True;
    } else if exists i | 0 <= i < |conditions| :: i != LastOf(conditions, TerminalType) &&
                conditions[i].ctype == TerminalType && conditions[i].status == True {
      var i :| 0 <= i < |conditions| && i != LastOf(conditions, TerminalType) &&
               conditions[i].ctype == TerminalType && conditions[i].status == True;
      assert after[i] == conditions[i];
    } else {
      LastIs(after, TerminalType, LastOf(conditions, TerminalType));
    }
  }

  /** A list with two Terminal conditions for which a plain error is reported as terminal. */
  lemma EarlierTerminalIsReported()
    ensures var conditions :=
        [ConditionValue(TerminalType, True, None, None), ConditionValue(TerminalType, False, None, None)];
      && !IsTerminal(Some(Plain("throttled")))
      && HasTrue(Updated(conditions, Some(Plain("throttled"))), TerminalType)
  {
    var conditions := [ConditionValue(TerminalType, True, None, None), ConditionValue(TerminalType, False, None, None)];
    assert LastOf(conditions, TerminalType) == 1;
    TerminalReportedIff(conditions, Plain("throttled"));
    assert conditions[0].status == True;
  }

  lemma UniqueTrueIsEffective(conditions: ConditionList, ctype: ConditionType)
    requires Unique(conditions)
    ensures HasTrue(conditions, ctype) <==>
      Effective(conditions, ctype).Some? && Effective(conditions, ctype).value.status == True
  {
  }

  lemma TerminalReportedIffUnique(conditions: ConditionList, err: GoError)
    requires Unique(conditions)
    ensures HasTrue(Updated(conditions, Some(err)), TerminalType) <==> IsTerminal(Some(err))
  {
    TerminalReportedIff(conditions, err);
  }

  /**
   Which errors are terminal, and what they say. From at most one condition per type,
   Terminal is True afterwards if and only if the error is a secret sentinel, wraps a
   terminal error, or carries the API code InvalidParameterException; any other error makes
   Recoverable True. A terminal error leaves Recoverable as it was.
   */
  lemma OutcomeOf(conditions: ConditionList, err: GoError)
    requires Unique(conditions)
    ensures var after := Updated(conditions, Some(err));
      var local := err.sentinel == SecretTypeNotSupported || err.sentinel == SecretNotFound || err.wrapsTerminal;
      var terminal := local || (err.api.Some? && err.api.value.code == "InvalidParameterException");
      && (HasTrue(after, TerminalType) <==> terminal)
      && (terminal ==>
            && (exists c <- after :: c.ctype == TerminalType && c.status == True &&
                  c.message == Some(if local then err.text else err.api.value.text))
            && (HasTrue(after, RecoverableType) <==> HasTrue(conditions, RecoverableType)))
      && (!terminal ==>
            exists c <- after :: c.ctype == RecoverableType && c.status == True &&
              c.message == Some(if err.api.Some? then err.api.value.text else err.text))
  {
    var after := Updated(conditions, Some(err));
    StepEffect(conditions, Some(err));
    TerminalReportedIffUnique(conditions, err);
    StepKeepsUnique(conditions, Some(err));
    UniqueTrueIsEffective(conditions, RecoverableType);
    UniqueTrueIsEffective(after, RecoverableType);
    var c := after[LastOf(after, if IsTerminal(Some(err)) then TerminalType else RecoverableType)];
    assert c in after;
  }

  lemma MissingIff(conditions: ConditionList, ctype: ConditionType)
    ensures Has(conditions, ctype) <==> exists c <- conditions :: c.ctype == ctype
  {
  }

  /** A copy is handed back if and only if a Terminal, Recoverable or synced condition is there in the end. */
  lemma TouchedIff(conditions: ConditionList, err: Option<GoError>)
    ensures Touched(conditions, err) <==>
      exists c <- Updated(conditions, err) ::
        c.ctype == TerminalType || c.ctype == RecoverableType || c.ctype == SyncedType
  {
    var after := Updated(conditions, err);
    StepEffect(conditions, err);
    MissingIff(after, TerminalType);
    MissingIff(after, RecoverableType);
    MissingIff(after, SyncedType);
  }

  // ---- Runs ----

  /** The index of the last outcome that was not a terminal error, or -1. */
  function LastNonTerminal(outcomes: seq<Option<GoError>>): (i: int)
    ensures -1 <= i < |outcomes|
    ensures i >= 0 ==> !IsTerminal(outcomes[i])
    ensures forall j | i < j < |outcomes| :: IsTerminal(outcomes[j])
  {
    if outcomes == [] then -1
    else if !IsTerminal(outcomes[|outcomes| - 1]) then |outcomes| - 1
    else LastNonTerminal(outcomes[..|outcomes| - 1])
  }

  ghost predicate SawTerminal(outcomes: seq<Option<GoError>>) {
    exists o <- outcomes :: IsTerminal(o)
  }

  ghost predicate SawRecoverable(outcomes: seq<Option<GoError>>) {
    exists o <- outcomes :: o.Some? && !IsTerminal(o)
  }

  /** Terminal after a run: the last outcome decides, and a condition exists once one was needed. */
  lemma {:induction false} TerminalAfterRun(conditions: ConditionList, outcomes: seq<Option<GoError>>)
    requires outcomes != []
    ensures var end, last := Effective(AfterRun(conditions, outcomes), TerminalType), outcomes[|outcomes| - 1];
      && (end.Some? <==> Has(conditions, TerminalType) || SawTerminal(outcomes))
      && (end.Some? ==>
            && end.value.status == (if IsTerminal(last) then True else False)
            && end.value.message == (if IsTerminal(last) then Some(TerminalMessage(last.value)) else None))
  {
    var earlier := outcomes[..|outcomes| - 1];
    assert outcomes == earlier + [outcomes[|outcomes| - 1]];
    StepEffect(AfterRun(conditions, earlier), outcomes[|outcomes| - 1]);
    if earlier != [] {
      TerminalAfterRun(conditions, earlier);
    }
  }

  /** Recoverable after a run: the last outcome that was not terminal decides, for terminal ones leave it alone. */
  lemma {:induction false} RecoverableAfterRun(conditions: ConditionList, outcomes: seq<Option<GoError>>)
    ensures var end, k := Effective(AfterRun(conditions, outcomes), RecoverableType), LastNonTerminal(outcomes);
      && (k < 0 ==> end == Effective(conditions, RecoverableType))
      && (end.Some? <==> Has(conditions, RecoverableType) || SawRecoverable(outcomes))
      && (k >= 0 && end.Some? ==>
            && end.value.status == (if outcomes[k].Some? then True else False)
            && end.value.message ==
                 (if outcomes[k].Some? then Some(RecoverableMessage(outcomes[k].value)) else None))
  {
    if outcomes != [] {
      var earlier := outcomes[..|outcomes| - 1];
      assert outcomes == earlier + [outcomes[|outcomes| - 1]];
      StepEffect(AfterRun(conditions, earlier), outcomes[|outcomes| - 1]);
      RecoverableAfterRun(conditions, earlier);
    }
  }

  lemma RunExtendsBy(conditions: ConditionList, outcomes: seq<Option<GoError>>, last: Option<GoError>)
    ensures AfterRun(conditions, outcomes + [last]) == Updated(AfterRun(conditions, outcomes), last)
  {
    assert (outcomes + [last])[..|outcomes|] == outcomes;
  }

  lemma RunOfOneOutcome(conditions: ConditionList, outcome: Option<GoError>)
    ensures AfterRun(conditions, [outcome]) == Updated(conditions, outcome)
  {
    RunExtendsBy(conditions, [], outcome);
    assert [] + [outcome] == [outcome];
  }

  lemma {:induction false} RunsOfOutcomesCompose(conditions: ConditionList, first: seq<Option<GoError>>,
                                                 second: seq<Option<GoError>>)
    ensures AfterRun(conditions, first + second) == AfterRun(AfterRun(conditions, first), second)
  {
    if second == [] {
      assert first + second == first;
    } else {
      var last := second[|second| - 1];
      assert first + second == first + second[..|second| - 1] + [last];
      RunsOfOutcomesCompose(conditions, first, second[..|second| - 1]);
      RunExtendsBy(conditions, first + second[..|second| - 1], last);
    }
  }

  lemma {:induction false} RunKeepsUnique(conditions: ConditionList, outcomes: seq<Option<GoError>>)
    requires Unique(conditions)
    ensures Unique(AfterRun(conditions, outcomes))
  {
    if outcomes != [] {
      RunKeepsUnique(conditions, outcomes[..|outcomes| - 1]);
      StepKeepsUnique(AfterRun(conditions, outcomes[..|outcomes| - 1]), outcomes[|outcomes| - 1]);
    }
  }

  /** What any non-empty run shows, given at most one condition per type at the start. */
  lemma {:induction false} HistoryDecides(conditions: ConditionList, outcomes: seq<Option<GoError>>)
    requires Unique(conditions) && outcomes != []
    ensures var end, k := AfterRun(conditions, outcomes), LastNonTerminal(outcomes);
      && (HasTrue(end, TerminalType) <==> IsTerminal(outcomes[|outcomes| - 1]))
      && (HasTrue(end, RecoverableType) <==>
            if k >= 0 then outcomes[k].Some? else HasTrue(conditions, RecoverableType))
  {
    RunKeepsUnique(conditions, outcomes);
    TerminalAfterRun(conditions, outcomes);
    RecoverableAfterRun(conditions, outcomes);
    var end := AfterRun(conditions, outcomes);
    UniqueTrueIsEffective(end, TerminalType);
    UniqueTrueIsEffective(end, RecoverableType);
    UniqueTrueIsEffective(conditions, RecoverableType);
    var k := LastNonTerminal(outcomes);
    if k >= 0 && outcomes[k].Some? {
      assert SawRecoverable(outcomes);
    }
    if IsTerminal(outcomes[|outcomes| - 1]) {
      assert SawTerminal(outcomes);
    }
  }

  /** A run keeps every unmanaged condition, in order, and adds exactly the managed ones missing and needed. */
  lemma {:induction false} RunKeepsOthers(conditions: ConditionList, outcomes: seq<Option<GoError>>)
    ensures var end := AfterRun(conditions, outcomes);
      && Others(end) == Others(conditions)
      && |end| == |conditions|
           + (if !Has(conditions, TerminalType) && SawTerminal(outcomes) then 1 else 0)
           + (if !Has(conditions, RecoverableType) && SawRecoverable(outcomes) then 1 else 0)
  {
    if outcomes != [] {
      var earlier, last := outcomes[..|outcomes| - 1], outcomes[|outcomes| - 1];
      assert outcomes == earlier + [last];
      var before := AfterRun(conditions, earlier);
      RunKeepsOthers(conditions, earlier);
      StepKeepsOthers(before, last);
      StepLength(before, last);
      RecoverableAfterRun(conditions, earlier);
      if earlier != [] {
        TerminalAfterRun(conditions, earlier);
      }
    }
  }

  lemma StepLength(conditions: ConditionList, err: Option<GoError>)
    ensures |Updated(conditions, err)| == |conditions|
      + (if !Has(conditions, TerminalType) && IsTerminal(err) then 1 else 0)
      + (if !Has(conditions, RecoverableType) && err.Some? && !IsTerminal(err) then 1 else 0)
  {
  }
}
