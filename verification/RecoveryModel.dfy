/**
 Gateway recovery after a reconnect: a subscriber that starts a rehydration
 for each new connection generation, and rehydrations that suspend three times
 before they report.
 */
module RecoveryModel {
  import opened Sequences

  datatype Outcome = Success | Stale | Failed

  /** A rehydration waits for the snapshot, the navigation, then the history, or has an outcome. */
  datatype Stage = AwaitSnapshot | AwaitNavigation | AwaitHistory | Finished(outcome: Outcome)

  datatype Job = Job(generation: nat, epoch: nat, stage: Stage)

  datatype State = State(
    alive: bool,
    initialized: bool,
    lastRecovered: nat,
    recovering: Option<nat>,
    clientConnected: bool,
    clientGeneration: nat,
    viewEpoch: nat,
    jobs: map<nat, Job>,
    nextJob: nat)

  const INITIAL := State(true, false, 0, None, false, 0, 0, map[], 0)

  datatype Step =
    | ClientMoves(connected: bool, generation: nat, hasScope: bool)
    | Initialize
    | ViewMoves
    | Dispose
    | JobContinues(job: nat)
    | JobThrows(job: nat)
    | JobSettles(job: nat)

  /** Client generations never go down; continuations run once. */
  predicate Enabled(s: State, step: Step) {
    match step
    case ClientMoves(_, g, _) => g >= s.clientGeneration
    case JobContinues(j) => j in s.jobs && !s.jobs[j].stage.Finished?
    case JobThrows(j) => j in s.jobs && !s.jobs[j].stage.Finished?
    case JobSettles(j) => j in s.jobs && s.jobs[j].stage.Finished?
    case _ => true
  }

  function Max(a: nat, b: nat): nat {
    if a < b then b else a
  }

  /** `recoverGeneration`: without a scope there is nothing to rehydrate. */
  function Recovered(s: State, g: nat, hasScope: bool): State {
    if !s.alive || !s.initialized || s.recovering == Some(g) || g <= s.lastRecovered then s
    else s.(recovering := Some(g),
            jobs := s.jobs[s.nextJob := Job(g, s.viewEpoch, if hasScope then AwaitSnapshot else Finished(Success))],
            nextJob := s.nextJob + 1)
  }

  /** The connection-state subscriber. */
  function Notified(s: State, hasScope: bool): State {
    if !s.alive || !s.clientConnected then s
    else if s.initialized && s.clientGeneration > 1 && s.clientGeneration > s.lastRecovered then
      Recovered(s, s.clientGeneration, hasScope)
    else s.(lastRecovered := Max(s.lastRecovered, s.clientGeneration))
  }

  function SetStage(s: State, j: nat, stage: Stage): State
    requires j in s.jobs
  {
    s.(jobs := s.jobs[j := s.jobs[j].(stage := stage)])
  }

  function NextStage(stage: Stage): Stage {
    match stage
    case AwaitSnapshot => AwaitNavigation
    case AwaitNavigation => AwaitHistory
    case _ => Finished(Success)
  }

  /** After each await a rehydration goes on only if nothing moved under it. */
  function Continued(s: State, j: nat): State
    requires j in s.jobs
  {
    var job := s.jobs[j];
    if !s.alive || s.viewEpoch != job.epoch || s.clientGeneration != job.generation then SetStage(s, j, Finished(Stale))
    else SetStage(s, j, NextStage(job.stage))
  }

  function Settled(s: State, j: nat): State
    requires Enabled(s, JobSettles(j))
  {
    var job := s.jobs[j];
    var t := s.(jobs := s.jobs - {j}, recovering := if s.recovering == Some(job.generation) then None else s.recovering);
    if !s.alive || !s.clientConnected || s.clientGeneration != job.generation || !job.stage.outcome.Success? then t
    else t.(lastRecovered := Max(s.lastRecovered, job.generation))
  }

  function Apply(s: State, step: Step): State
    requires Enabled(s, step)
  {
    match step
    case ClientMoves(connected, g, hasScope) =>
      Notified(s.(clientConnected := connected, clientGeneration := g), hasScope)
    case Initialize => s.(initialized := true)
    case ViewMoves => s.(viewEpoch := s.viewEpoch + 1)
    case Dispose => s.(alive := false)
    case JobContinues(j) => Continued(s, j)
    case JobThrows(j) => SetStage(s, j, Finished(Failed))
    case JobSettles(j) => Settled(s, j)
  }

  // ----- what every step keeps -----

  /** A rehydration is for a generation seen; the one for the client's generation is the one being recovered. */
  ghost predicate JobFits(s: State, j: nat)
    requires j in s.jobs
  {
    && j < s.nextJob
    && 1 < s.jobs[j].generation <= s.clientGeneration
    && s.jobs[j].epoch <= s.viewEpoch
    && (s.jobs[j].generation == s.clientGeneration ==> s.recovering == Some(s.clientGeneration))
  }

  ghost predicate Inv(s: State) {
    && (forall j :: j in s.jobs ==> JobFits(s, j))
    && (forall j, k :: j in s.jobs && k in s.jobs && j != k ==> s.jobs[j].generation != s.jobs[k].generation)
    && s.lastRecovered <= s.clientGeneration
    && (s.recovering.Some? ==> exists j :: j in s.jobs && s.jobs[j].generation == s.recovering.value)
  }

  lemma MoveKeepsInv(s: State, connected: bool, g: nat, hasScope: bool)
    requires Inv(s) && g >= s.clientGeneration
    ensures Inv(Apply(s, ClientMoves(connected, g, hasScope)))
  {
    var t := Apply(s, ClientMoves(connected, g, hasScope));
    forall j | j in t.jobs ensures JobFits(t, j) {
      if j in s.jobs { assert JobFits(s, j); }
    }
    forall j | j in s.jobs ensures JobFits(s, j) && j != s.nextJob { assert JobFits(s, j); }
    if t.nextJob != s.nextJob {
      assert s.nextJob in t.jobs && t.jobs[s.nextJob].generation == g;
    } else if s.recovering.Some? {
      var j :| j in s.jobs && s.jobs[j].generation == s.recovering.value;
      assert j in t.jobs;
    }
  }

  lemma SettleKeepsInv(s: State, j: nat)
    requires Inv(s) && Enabled(s, JobSettles(j))
    ensures Inv(Apply(s, JobSettles(j)))
  {
    var t := Apply(s, JobSettles(j));
    assert JobFits(s, j);
    forall k | k in t.jobs ensures JobFits(t, k) { assert JobFits(s, k); }
    if t.recovering.Some? {
      var k :| k in s.jobs && s.jobs[k].generation == s.recovering.value;
      assert k in t.jobs;
    }
  }

  lemma StageKeepsInv(s: State, j: nat, stage: Stage)
    requires Inv(s) && j in s.jobs
    ensures Inv(SetStage(s, j, stage))
  {
    var t := SetStage(s, j, stage);
    forall k | k in t.jobs ensures JobFits(t, k) { assert JobFits(s, k); }
    if t.recovering.Some? {
      var k :| k in s.jobs && s.jobs[k].generation == s.recovering.value;
      assert k in t.jobs && t.jobs[k].generation == t.recovering.value;
    }
  }

  lemma StepKeepsInv(s: State, step: Step)
    requires Inv(s) && Enabled(s, step)
    ensures Inv(Apply(s, step))
  {
    match step
    case ClientMoves(connected, g, hasScope) => MoveKeepsInv(s, connected, g, hasScope);
    case JobContinues(j) => StageKeepsInv(s, j, Apply(s, step).jobs[j].stage);
    case JobThrows(j) => StageKeepsInv(s, j, Finished(Failed));
    case JobSettles(j) => SettleKeepsInv(s, j);
    case _ =>
      var t := Apply(s, step);
      forall j | j in t.jobs ensures JobFits(t, j) { assert JobFits(s, j); }
  }

  // ----- whole runs -----

  ghost predicate Runs(s: State, steps: seq<Step>)
    decreases |steps|
  {
    steps == [] || (Enabled(s, steps[0]) && Runs(Apply(s, steps[0]), steps[1..]))
  }

  ghost function After(s: State, steps: seq<Step>): State
    requires Runs(s, steps)
    decreases |steps|
  {
    if steps == [] then s else After(Apply(s, steps[0]), steps[1..])
  }

  lemma {:induction false} RunKeepsInv(s: State, steps: seq<Step>)
    requires Inv(s) && Runs(s, steps)
    ensures Inv(After(s, steps)) && After(s, steps).lastRecovered >= s.lastRecovered
    decreases |steps|
  {
    if steps != [] {
      StepKeepsInv(s, steps[0]);
      RunKeepsInv(Apply(s, steps[0]), steps[1..]);
    }
  }

  /** In every interleaving at most one rehydration per generation is in flight. */
  lemma OneRehydrationPerGeneration(steps: seq<Step>, j: nat, k: nat)
    requires Runs(INITIAL, steps)
    requires j in After(INITIAL, steps).jobs && k in After(INITIAL, steps).jobs
    requires After(INITIAL, steps).jobs[j].generation == After(INITIAL, steps).jobs[k].generation
    ensures j == k
  {
    RunKeepsInv(INITIAL, steps);
  }

  /** The last recovered generation never goes down. */
  lemma RecoveredNeverDrops(steps: seq<Step>, more: seq<Step>)
    requires Runs(INITIAL, steps) && Runs(After(INITIAL, steps), more)
    ensures After(After(INITIAL, steps), more).lastRecovered >= After(INITIAL, steps).lastRecovered
  {
    RunKeepsInv(INITIAL, steps);
    RunKeepsInv(After(INITIAL, steps), more);
  }

  /**
   Once initialized, the last recovered generation rises above 1 only when a
   rehydration of that very generation succeeded while the client is still
   connected at it.
   */
  lemma RisesOnlyBySuccess(steps: seq<Step>, step: Step)
    requires Runs(INITIAL, steps) && Enabled(After(INITIAL, steps), step)
    requires After(INITIAL, steps).initialized
    requires Apply(After(INITIAL, steps), step).lastRecovered > After(INITIAL, steps).lastRecovered
    requires Apply(After(INITIAL, steps), step).lastRecovered > 1
    ensures var s := After(INITIAL, steps);
            && step.JobSettles? && s.jobs[step.job].stage == Finished(Success)
            && s.jobs[step.job].generation == s.clientGeneration == Apply(s, step).lastRecovered
            && s.alive && s.clientConnected
  {
    RunKeepsInv(INITIAL, steps);
  }

  /** A finished rehydration keeps its outcome until it settles, and its number is not used again. */
  lemma {:induction false} FinishedStays(s: State, steps: seq<Step>, j: nat)
    requires Inv(s) && Runs(s, steps) && j < s.nextJob && (j in s.jobs ==> s.jobs[j].stage.Finished?)
    ensures j in After(s, steps).jobs ==> j in s.jobs && After(s, steps).jobs[j] == s.jobs[j]
    decreases |steps|
  {
    if steps != [] {
      StepKeepsInv(s, steps[0]);
      FinishedStays(Apply(s, steps[0]), steps[1..], j);
    }
  }
}
