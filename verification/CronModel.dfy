/**
 * The cron action runner as interleaved steps: `runAction` between two of its awaits is one step, so that any
 * number of calls on one runner can overlap.
 */
module CronModel {
  import opened Tables

  datatype Stage = Preparing | Validating | Sanitizing | Executing | Confirming

  datatype Outcome = Skipped | FailedAt(stage: Stage) | Succeeded

  datatype Progress = At(stage: Stage) | Ended(outcome: Outcome)

  datatype Run = Run(action: string, allowConcurrent: bool, progress: Progress)

  datatype State = State(inFlight: set<string>, runs: map<int, Run>)

  /** What an awaited stage function produced; `Absent` when the caller gave no such function. */
  datatype Raw = Threw | Absent | Flag(value: bool) | Nothing | Verdict(ok: Option<bool>)

  datatype Op = Start(id: int, action: string, allowConcurrent: bool) | Resume(id: int, raw: Raw)

  function ActionName(action: string): string { if action == "" then "unnamed_action" else action }

  function LockKey(cronName: string, action: string): string { cronName + ":" + ActionName(action) }

  /** normalizeValidation and normalizeConfirm: only `false`, or an object saying so, is a refusal. */
  predicate Passes(raw: Raw)
    requires !raw.Threw?
  {
    match raw
    case Absent => true
    case Flag(value) => value
    case Nothing => true
    case Verdict(ok) => ok != Some(false)
  }

  function NextProgress(stage: Stage, raw: Raw): Progress {
    if raw.Threw? then Ended(FailedAt(stage))
    else match stage
      case Preparing => At(Validating)
      case Validating => if Passes(raw) then At(Sanitizing) else Ended(FailedAt(Validating))
      case Sanitizing => At(Executing)
      case Executing => At(Confirming)
      case Confirming => if Passes(raw) then Ended(Succeeded) else Ended(FailedAt(Confirming))
  }

  predicate InProgress(s: State, id: int) { id in s.runs && s.runs[id].progress.At? }

  /** A step of one call; steps of calls that have not begun, or have ended, do not exist. */
  function Apply(cronName: string, s: State, op: Op): State {
    match op
    case Start(id, action, allowConcurrent) =>
      if id in s.runs then s
      else if !allowConcurrent && LockKey(cronName, action) in s.inFlight then
        s.(runs := s.runs[id := Run(action, allowConcurrent, Ended(Skipped))])
      else
        State(s.inFlight + {LockKey(cronName, action)}, s.runs[id := Run(action, allowConcurrent, At(Preparing))])
    case Resume(id, raw) =>
      if !InProgress(s, id) then s
      else
        var run := s.runs[id];
        var next := NextProgress(run.progress.stage, raw);
        State(if next.Ended? then s.inFlight - {LockKey(cronName, run.action)} else s.inFlight,
              s.runs[id := run.(progress := next)])
  }

  // ---------------------------------------------------------------- invariants

  predicate Works(cronName: string, s: State, id: int, key: string) {
    InProgress(s, id) && LockKey(cronName, s.runs[id].action) == key
  }

  /** Every lock belongs to an action in progress. */
  ghost predicate LocksUsed(cronName: string, s: State) {
    forall key :: key in s.inFlight ==> exists id :: Works(cronName, s, id, key)
  }

  /** Every action in progress has its lock. */
  ghost predicate Locked(cronName: string, s: State) {
    forall id, key :: Works(cronName, s, id, key) ==> key in s.inFlight
  }

  /** No two calls for one action are in progress. */
  ghost predicate Exclusive(cronName: string, s: State) {
    forall a, b, key :: Works(cronName, s, a, key) && Works(cronName, s, b, key) ==> a == b
  }

  ghost predicate IsRun(cronName: string, states: seq<State>, ops: seq<Op>) {
    && |states| == |ops| + 1
    && forall i :: 0 <= i < |ops| ==> states[i + 1] == Apply(cronName, states[i], ops[i])
  }

  ghost predicate NoneConcurrent(ops: seq<Op>) {
    forall i :: 0 <= i < |ops| && ops[i].Start? ==> !ops[i].allowConcurrent
  }

  // ---------------------------------------------------------------- steps

  lemma KeysDiffer(cronName: string, a: string, b: string)
    requires ActionName(a) != ActionName(b)
    ensures LockKey(cronName, a) != LockKey(cronName, b)
  {
    var p := cronName + ":";
    assert LockKey(cronName, a)[|p|..] == ActionName(a) && LockKey(cronName, b)[|p|..] == ActionName(b);
  }

  lemma StepKeepsLocksUsed(cronName: string, s: State, op: Op)
    requires LocksUsed(cronName, s)
    ensures LocksUsed(cronName, Apply(cronName, s, op))
  {
    var t := Apply(cronName, s, op);
    forall key | key in t.inFlight
      ensures exists id :: Works(cronName, t, id, key)
    {
      if key in s.inFlight {
        var id :| Works(cronName, s, id, key);
        assert Works(cronName, t, id, key);
      } else {
        assert Works(cronName, t, op.id, key);
      }
    }
  }

  /** A concurrent call that starts while its action is in progress. */
  ghost predicate Intrudes(cronName: string, s: State, op: Op) {
    op.Start? && op.allowConcurrent && op.id !in s.runs
    && exists other :: Works(cronName, s, other, LockKey(cronName, op.action))
  }

  /** A step that does not start a call beside one for the same action keeps one call per action, and its lock. */
  lemma StepKeepsExclusive(cronName: string, s: State, op: Op)
    requires Locked(cronName, s) && Exclusive(cronName, s) && !Intrudes(cronName, s, op)
    ensures Locked(cronName, Apply(cronName, s, op)) && Exclusive(cronName, Apply(cronName, s, op))
  {
    var t := Apply(cronName, s, op);
    forall id, key | Works(cronName, t, id, key)
      ensures Works(cronName, s, id, key) || (op.Start? && id == op.id && key == LockKey(cronName, op.action))
    {
    }
    forall id, key | Works(cronName, t, id, key)
      ensures key in t.inFlight
    {
      if op.Resume? && InProgress(s, op.id) {
        assert Works(cronName, s, op.id, LockKey(cronName, s.runs[op.id].action));
      }
    }
    assert forall a, b, key :: Works(cronName, t, a, key) && Works(cronName, t, b, key) ==> a == b;
  }

  /** A call that ends, at whatever stage, releases the lock of its action and of no other. */
  lemma ExitReleases(cronName: string, s: State, op: Op)
    requires op.Resume? && InProgress(s, op.id) && Apply(cronName, s, op).runs[op.id].progress.Ended?
    ensures Apply(cronName, s, op).inFlight == s.inFlight - {LockKey(cronName, s.runs[op.id].action)}
    ensures forall action :: ActionName(action) != ActionName(s.runs[op.id].action) ==>
              var key := LockKey(cronName, action);
              key in Apply(cronName, s, op).inFlight <==> key in s.inFlight
  {
    forall action | ActionName(action) != ActionName(s.runs[op.id].action)
      ensures LockKey(cronName, action) != LockKey(cronName, s.runs[op.id].action)
    {
      KeysDiffer(cronName, action, s.runs[op.id].action);
    }
  }

  /** With concurrent calls, an exit leaves every other call locked exactly when no other call runs the same action. */
  lemma ExitKeepsLockedIff(cronName: string, s: State, op: Op)
    requires Locked(cronName, s) && op.Resume? && InProgress(s, op.id)
    requires Apply(cronName, s, op).runs[op.id].progress.Ended?
    ensures Locked(cronName, Apply(cronName, s, op)) <==>
            !exists other :: other != op.id && Works(cronName, s, other, LockKey(cronName, s.runs[op.id].action))
  {
    var t, key := Apply(cronName, s, op), LockKey(cronName, s.runs[op.id].action);
    forall id, k
      ensures Works(cronName, t, id, k) <==> id != op.id && Works(cronName, s, id, k)
    {
    }
    if other :| other != op.id && Works(cronName, s, other, key) {
      assert Works(cronName, t, other, key);
    }
  }

  /** A concurrent start keeps one call per action exactly when the action is not in progress. */
  lemma ConcurrentStartExclusiveIff(cronName: string, s: State, op: Op)
    requires Locked(cronName, s) && Exclusive(cronName, s) && op.Start? && op.allowConcurrent && op.id !in s.runs
    ensures Exclusive(cronName, Apply(cronName, s, op)) <==>
            !exists other :: Works(cronName, s, other, LockKey(cronName, op.action))
  {
    var t, key := Apply(cronName, s, op), LockKey(cronName, op.action);
    forall id, k
      ensures Works(cronName, t, id, k) <==> if id == op.id then k == key else Works(cronName, s, id, k)
    {
    }
    if other :| Works(cronName, s, other, key) {
      assert Works(cronName, t, other, key) && Works(cronName, t, op.id, key);
    }
  }

  // ---------------------------------------------------------------- runs

  lemma {:induction false} ExclusiveUpTo(cronName: string, states: seq<State>, ops: seq<Op>, i: nat)
    requires IsRun(cronName, states, ops) && states[0] == State({}, map[]) && i < |states|
    requires forall j :: 0 <= j < |ops| ==> !Intrudes(cronName, states[j], ops[j])
    ensures Exclusive(cronName, states[i]) && Locked(cronName, states[i]) && LocksUsed(cronName, states[i])
  {
    if i == 0 {
    } else {
      ExclusiveUpTo(cronName, states, ops, i - 1);
      StepKeepsExclusive(cronName, states[i - 1], ops[i - 1]);
      StepKeepsLocksUsed(cronName, states[i - 1], ops[i - 1]);
    }
  }

  lemma IntrusionBreaksExclusive(cronName: string, s: State, op: Op)
    requires Intrudes(cronName, s, op)
    ensures !Exclusive(cronName, Apply(cronName, s, op))
  {
    var t, key := Apply(cronName, s, op), LockKey(cronName, op.action);
    var other :| Works(cronName, s, other, key);
    assert Works(cronName, t, other, key) && Works(cronName, t, op.id, key);
  }

  /**
   * Over any interleaving no two calls of one action are ever in progress together, exactly when no concurrent call
   * starts while its action is in progress.
   */
  lemma RunExclusiveIff(cronName: string, states: seq<State>, ops: seq<Op>)
    requires IsRun(cronName, states, ops) && states[0] == State({}, map[])
    ensures (forall i :: 0 <= i < |states| ==> Exclusive(cronName, states[i])) <==>
            forall i :: 0 <= i < |ops| ==> !Intrudes(cronName, states[i], ops[i])
  {
    if forall i :: 0 <= i < |ops| ==> !Intrudes(cronName, states[i], ops[i]) {
      forall i | 0 <= i < |states|
        ensures Exclusive(cronName, states[i])
      {
        ExclusiveUpTo(cronName, states, ops, i);
      }
    } else {
      var i :| 0 <= i < |ops| && Intrudes(cronName, states[i], ops[i]);
      IntrusionBreaksExclusive(cronName, states[i], ops[i]);
      assert !Exclusive(cronName, states[i + 1]);
    }
  }

  /** For every interleaving without concurrent calls: one call per action, and the locks are the actions at work. */
  lemma RunKeepsExclusive(cronName: string, states: seq<State>, ops: seq<Op>, i: nat)
    requires IsRun(cronName, states, ops) && NoneConcurrent(ops) && states[0] == State({}, map[]) && i < |states|
    ensures Exclusive(cronName, states[i])
    ensures forall key :: key in states[i].inFlight <==> exists id :: Works(cronName, states[i], id, key)
  {
    ExclusiveUpTo(cronName, states, ops, i);
  }

  /**
   * A concurrent call that ends can leave another without its lock, and then a call that is not concurrent runs
   * beside it: calls 1 and 2 start, 2 ends, 3 starts.
   */
  lemma LostLockWitness(cronName: string) returns (states: seq<State>, ops: seq<Op>)
    ensures IsRun(cronName, states, ops) && states[0] == State({}, map[])
    ensures ops == [Start(1, "a", false), Start(2, "a", true), Resume(2, Threw), Start(3, "a", false)]
    ensures !Locked(cronName, states[3])
    ensures InProgress(states[4], 1) && InProgress(states[4], 3) && !Exclusive(cronName, states[4])
  {
    ops := [Start(1, "a", false), Start(2, "a", true), Resume(2, Threw), Start(3, "a", false)];
    var key := LockKey(cronName, "a");
    var one, two := Run("a", false, At(Preparing)), Run("a", true, At(Preparing));
    var ended := Run("a", true, Ended(FailedAt(Preparing)));
    states := [
      State({}, map[]),
      State({key}, map[1 := one]),
      State({key}, map[1 := one, 2 := two]),
      State({}, map[1 := one, 2 := ended]),
      State({key}, map[1 := one, 2 := ended, 3 := one])];
    assert states[2].runs[2 := ended] == states[3].runs && states[2].inFlight - {key} == {};
    assert states[1] == Apply(cronName, states[0], ops[0]);
    assert states[2] == Apply(cronName, states[1], ops[1]);
    assert states[3] == Apply(cronName, states[2], ops[2]);
    assert states[4] == Apply(cronName, states[3], ops[3]);
    assert Works(cronName, states[3], 1, key);
    assert Works(cronName, states[4], 1, key) && Works(cronName, states[4], 3, key);
  }

  // ---------------------------------------------------------------- stages

  /** What refuses: an exception, `false`, or an object whose `ok` is `false`. */
  predicate Refuses(raw: Raw) { raw in {Threw, Flag(false), Verdict(Some(false))} }

  /**
   * A call goes through prepare, validate, sanitize, execute and confirm, one resumption each. It ends early with the
   * stage that threw, or that validated or confirmed with a refusal, and otherwise succeeds after confirm.
   */
  lemma StagesInOrder(cronName: string, s: State, id: int, raw: Raw)
    requires id in s.runs && s.runs[id].progress.At?
    ensures var stage := s.runs[id].progress.stage;
            Apply(cronName, s, Resume(id, raw)).runs[id].progress ==
            if raw == Threw || ((stage == Validating || stage == Confirming) && Refuses(raw))
            then Ended(FailedAt(stage))
            else match stage
              case Preparing => At(Validating)
              case Validating => At(Sanitizing)
              case Sanitizing => At(Executing)
              case Executing => At(Confirming)
              case Confirming => Ended(Succeeded)
    ensures forall other :: other in s.runs && other != id ==>
              other in Apply(cronName, s, Resume(id, raw)).runs
              && Apply(cronName, s, Resume(id, raw)).runs[other] == s.runs[other]
  {
  }

  /** A new call is skipped exactly when it is not concurrent and the lock of its action is held; else it prepares. */
  lemma StartSkippedIff(cronName: string, s: State, id: int, action: string, allowConcurrent: bool)
    requires id !in s.runs
    ensures var key := cronName + ":" + if action == "" then "unnamed_action" else action;
            Apply(cronName, s, Start(id, action, allowConcurrent)) ==
            if !allowConcurrent && key in s.inFlight then
              State(s.inFlight, s.runs[id := Run(action, allowConcurrent, Ended(Skipped))])
            else
              State(s.inFlight + {key}, s.runs[id := Run(action, allowConcurrent, At(Preparing))])
  {
  }

  /** The stages in which `execute` has been reached. */
  predicate ReachedExecute(p: Progress) {
    match p
    case At(stage) => stage in {Executing, Confirming}
    case Ended(outcome) => outcome in {Succeeded, FailedAt(Executing), FailedAt(Confirming)}
  }

  predicate ReachedSanitize(p: Progress) {
    ReachedExecute(p) || p == At(Sanitizing) || p == Ended(FailedAt(Sanitizing))
  }

  predicate Validated(s: State, op: Op, id: int) {
    op.Resume? && op.id == id && InProgress(s, id) && s.runs[id].progress.stage == Validating && !Refuses(op.raw)
  }

  /** Nothing is sanitized or executed, in any interleaving, unless the same call's validation did not refuse before. */
  lemma {:induction false} ExecutesOnlyValidated(cronName: string, states: seq<State>, ops: seq<Op>, id: int, i: nat)
    requires IsRun(cronName, states, ops) && states[0].runs == map[] && i < |states|
    requires id in states[i].runs && ReachedSanitize(states[i].runs[id].progress)
    ensures exists j :: 0 <= j < i && Validated(states[j], ops[j], id)
  {
    if i == 0 {
    } else {
      var before := states[i - 1];
      if id in before.runs && ReachedSanitize(before.runs[id].progress) {
        ExecutesOnlyValidated(cronName, states, ops, id, i - 1);
      } else {
        assert Validated(before, ops[i - 1], id);
      }
    }
  }

  function StagesLeft(p: Progress): nat {
    match p
    case Ended(_) => 0
    case At(stage) =>
      match stage case Preparing => 5 case Validating => 4 case Sanitizing => 3 case Executing => 2 case Confirming => 1
  }

  function Resumptions(ops: seq<Op>, id: int, n: nat): nat
    requires n <= |ops|
  {
    if n == 0 then 0 else Resumptions(ops, id, n - 1) + if ops[n - 1].Resume? && ops[n - 1].id == id then 1 else 0
  }

  lemma StageStep(cronName: string, s: State, op: Op, id: int)
    requires id in s.runs
    ensures var t, resumed := Apply(cronName, s, op), if op.Resume? && op.id == id then 1 else 0;
            && id in t.runs
            && (t.runs[id].progress.At? ==>
                  StagesLeft(t.runs[id].progress) + resumed == StagesLeft(s.runs[id].progress))
  {
  }

  /** Five resumptions end a call at the latest, whatever the stage functions do. */
  lemma {:induction false} EndsWithinFive(
    cronName: string, states: seq<State>, ops: seq<Op>, id: int, i: nat, j: nat)
    requires IsRun(cronName, states, ops) && i <= j < |states| && id in states[i].runs
    ensures id in states[j].runs
    ensures Resumptions(ops, id, j) - Resumptions(ops, id, i) >= 5 ==> states[j].runs[id].progress.Ended?
    ensures states[j].runs[id].progress.At? ==>
              StagesLeft(states[j].runs[id].progress) + Resumptions(ops, id, j)
              == StagesLeft(states[i].runs[id].progress) + Resumptions(ops, id, i)
    decreases j
  {
    if i == j {
    } else {
      EndsWithinFive(cronName, states, ops, id, i, j - 1);
      StageStep(cronName, states[j - 1], ops[j - 1], id);
    }
  }
}
