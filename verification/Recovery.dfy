/** The recovery closure of the Workbench startup effect, split at its awaits. */
module Recovery {
  import opened Sequences
  import opened RecoveryModel

  class GatewayRecovery {
    var alive: bool
    var initialized: bool
    var lastRecoveredGeneration: nat
    var recoveringGeneration: Option<nat>

    /** The client's connection snapshot and the view epoch, moved by others. */
    var clientConnected: bool
    var clientGeneration: nat
    var viewEpoch: nat

    /** The suspended rehydrations with what they captured. */
    var jobs: map<nat, Job>
    var nextJob: nat

    ghost function Abs(): State
      reads this
    {
      State(alive, initialized, lastRecoveredGeneration, recoveringGeneration, clientConnected, clientGeneration,
            viewEpoch, jobs, nextJob)
    }

    ghost predicate Valid()
      reads this
    {
      Inv(Abs())
    }

    constructor ()
      ensures Valid() && Abs() == INITIAL
    {
      alive, initialized, lastRecoveredGeneration, recoveringGeneration := true, false, 0, None;
      clientConnected, clientGeneration, viewEpoch := false, 0, 0;
      jobs, nextJob := map[], 0;
    }

    method RecoverGeneration(generation: nat, hasScope: bool)
      modifies this`recoveringGeneration, this`jobs, this`nextJob
      ensures Abs() == Recovered(old(Abs()), generation, hasScope)
    {
      if !alive || !initialized || recoveringGeneration == Some(generation) {
        return;
      }
      if generation <= lastRecoveredGeneration {
        return;
      }
      recoveringGeneration := Some(generation);
      jobs := jobs[nextJob := Job(generation, viewEpoch, if hasScope then AwaitSnapshot else Finished(Success))];
      nextJob := nextJob + 1;
    }

    /** The client moved and its connection-state subscriber ran. */
    method OnConnectionState(connected: bool, generation: nat, hasScope: bool)
      requires Valid() && Enabled(Abs(), ClientMoves(connected, generation, hasScope))
      modifies this
      ensures Valid() && Abs() == Apply(old(Abs()), ClientMoves(connected, generation, hasScope))
    {
      StepKeepsInv(Abs(), ClientMoves(connected, generation, hasScope));
      clientConnected, clientGeneration := connected, generation;
      if !alive {
        return;
      }
      if connected {
        if initialized && generation > 1 && generation > lastRecoveredGeneration {
          RecoverGeneration(generation, hasScope);
        } else {
          lastRecoveredGeneration := Max(lastRecoveredGeneration, generation);
        }
      }
    }

    /** One await of `rehydrate` finished. */
    method RehydrateContinues(job: nat)
      requires Valid() && Enabled(Abs(), JobContinues(job))
      modifies this`jobs
      ensures Valid() && Abs() == Apply(old(Abs()), JobContinues(job))
    {
      StepKeepsInv(Abs(), JobContinues(job));
      var Job(generation, epoch, stage) := jobs[job];
      if !alive || viewEpoch != epoch || clientGeneration != generation {
        jobs := jobs[job := Job(generation, epoch, Finished(Stale))];
      } else {
        jobs := jobs[job := Job(generation, epoch, NextStage(stage))];
      }
    }

    /** The `.then` callback of a finished rehydration. */
    method RehydrateSettles(job: nat)
      requires Valid() && Enabled(Abs(), JobSettles(job))
      modifies this`jobs, this`recoveringGeneration, this`lastRecoveredGeneration
      ensures Valid() && Abs() == Apply(old(Abs()), JobSettles(job))
      ensures lastRecoveredGeneration != old(lastRecoveredGeneration) ==>
                old(lastRecoveredGeneration) < lastRecoveredGeneration == clientGeneration && clientConnected
    {
      StepKeepsInv(Abs(), JobSettles(job));
      var Job(generation, _, stage) := jobs[job];
      jobs := jobs - {job};
      if recoveringGeneration == Some(generation) {
        recoveringGeneration := None;
      }
      if !alive || !clientConnected || clientGeneration != generation {
        return;
      }
      if stage.outcome.Success? {
        lastRecoveredGeneration := Max(lastRecoveredGeneration, generation);
      }
    }
  }
}
