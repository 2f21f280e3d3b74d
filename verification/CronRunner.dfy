/** The runner itself: a set of locks, and the calls that hold or wait. */
module CronRunner {
  import opened CronModel

  class Runner {
    const cronName: string
    var inFlight: set<string>
    var runs: map<int, Run>

    constructor (cronName: string)
      ensures this.cronName == cronName && Snapshot() == State({}, map[])
    {
      this.cronName := cronName;
      inFlight, runs := {}, map[];
    }

    function Snapshot(): State
      reads this
    {
      State(inFlight, runs)
    }

    /** runAction up to its first await. */
    method BeginAction(id: int, action: string, allowConcurrent: bool)
      requires id !in runs
      modifies this
      ensures Snapshot() == Apply(cronName, old(Snapshot()), Start(id, action, allowConcurrent))
    {
      var actionName := if action == "" then "unnamed_action" else action;
      var lockKey := cronName + ":" + actionName;
      if !allowConcurrent && lockKey in inFlight {
        runs := runs[id := Run(action, allowConcurrent, Ended(Skipped))];
        return;
      }
      inFlight := inFlight + {lockKey};
      runs := runs[id := Run(action, allowConcurrent, At(Preparing))];
    }

    /** The `finally` block: the lock goes, and the call has its outcome. */
    method Finish(id: int, outcome: Outcome)
      requires InProgress(Snapshot(), id)
      modifies this
      ensures Snapshot() == State(old(inFlight) - {LockKey(cronName, old(runs)[id].action)},
                                  old(runs)[id := old(runs)[id].(progress := Ended(outcome))])
    {
      inFlight := inFlight - {LockKey(cronName, runs[id].action)};
      runs := runs[id := runs[id].(progress := Ended(outcome))];
    }

    /** runAction from one await to the next, given what the awaited function produced. */
    method ResumeAction(id: int, raw: Raw)
      requires InProgress(Snapshot(), id)
      modifies this
      ensures Snapshot() == Apply(cronName, old(Snapshot()), Resume(id, raw))
    {
      var stage := runs[id].progress.stage;
      if raw.Threw? {
        Finish(id, FailedAt(stage));
        return;
      }
      var next := Validating;
      match stage {
        case Preparing =>
        case Validating =>
          if !Passes(raw) {
            Finish(id, FailedAt(Validating));
            return;
          }
          next := Sanitizing;
        case Sanitizing => next := Executing;
        case Executing => next := Confirming;
        case Confirming =>
          if !Passes(raw) {
            Finish(id, FailedAt(Confirming));
          } else {
            Finish(id, Succeeded);
          }
          return;
      }
      runs := runs[id := runs[id].(progress := At(next))];
    }
  }
}
