/** The whole recovery of a generation, read off the steps of a run. */
module RecoveryHistory {
  import opened Sequences
  import opened RecoveryModel

  // ----- the story of a recovered generation -----

  lemma {:induction false} PrefixRuns(s: State, steps: seq<Step>, n: nat)
    requires Runs(s, steps) && n <= |steps|
    ensures Runs(s, steps[..n])
    ensures n < |steps| ==> Enabled(After(s, steps[..n]), steps[n])
    ensures n < |steps| ==> Runs(s, steps[..n + 1]) && After(s, steps[..n + 1]) == Apply(After(s, steps[..n]), steps[n])
    decreases n
  {
    if n == 0 {
      assert steps[..0] == [];
      if steps != [] {
        assert steps[..1][1..] == [];
        assert Runs(Apply(s, steps[0]), []) && After(Apply(s, steps[0]), []) == Apply(s, steps[0]);
      }
    } else {
      PrefixRuns(Apply(s, steps[0]), steps[1..], n - 1);
      assert steps[..n][1..] == steps[1..][..n - 1];
      if n < |steps| { assert steps[..n + 1][1..] == steps[1..][..n]; }
    }
  }

  /** The state before step `n` of a run. */
  ghost function At(steps: seq<Step>, n: nat): State
    requires Runs(INITIAL, steps) && n <= |steps|
  {
    PrefixRuns(INITIAL, steps, n);
    After(INITIAL, steps[..n])
  }

  lemma AtNext(steps: seq<Step>, n: nat)
    requires Runs(INITIAL, steps) && n < |steps|
    ensures Enabled(At(steps, n), steps[n]) && At(steps, n + 1) == Apply(At(steps, n), steps[n])
    ensures Inv(At(steps, n))
  {
    PrefixRuns(INITIAL, steps, n);
    RunKeepsInv(INITIAL, steps[..n]);
  }

  /** Step `p` starts rehydration `j` of the generation the client has just connected at. */
  ghost predicate StartsAt(steps: seq<Step>, p: nat, j: nat, generation: nat, epoch: nat)
    requires Runs(INITIAL, steps) && p < |steps|
  {
    && steps[p].ClientMoves? && steps[p].connected && steps[p].generation == generation
    && At(steps, p).nextJob == j && At(steps, p).viewEpoch == epoch && At(steps, p).initialized
  }

  /** Step `i` is a check of rehydration `j` that finds the view and the generation it started with. */
  ghost predicate ChecksAt(steps: seq<Step>, i: nat, j: nat, generation: nat, epoch: nat)
    requires Runs(INITIAL, steps) && i < |steps|
  {
    && steps[i] == JobContinues(j) && At(steps, i).alive
    && At(steps, i).viewEpoch == epoch && At(steps, i).clientGeneration == generation
  }

  /** Step `q` settles rehydration `j` as a success, connected at its generation. */
  ghost predicate SettlesAt(steps: seq<Step>, q: nat, j: nat, generation: nat)
    requires Runs(INITIAL, steps) && q < |steps|
  {
    var s := At(steps, q);
    && steps[q] == JobSettles(j) && j in s.jobs
    && s.jobs[j].generation == generation && s.jobs[j].stage == Finished(Success)
    && s.alive && s.clientConnected && s.clientGeneration == generation
  }

  /** A step starts a rehydration, checks it, or leaves it alone, as long as it has not ended otherwise. */
  lemma JobStep(s: State, step: Step, j: nat)
    requires Inv(s) && Enabled(s, step) && j in Apply(s, step).jobs
    requires Apply(s, step).jobs[j].stage.Finished? ==> Apply(s, step).jobs[j].stage.outcome.Success?
    ensures var job := Apply(s, step).jobs[j];
            if j in s.jobs then
              && job.generation == s.jobs[j].generation && job.epoch == s.jobs[j].epoch
              && (s.jobs[j].stage.Finished? ==> s.jobs[j].stage.outcome.Success?)
              && (if step == JobContinues(j) then
                    && ChecksPassed(job.stage) == ChecksPassed(s.jobs[j].stage) + 1 && !s.jobs[j].stage.Finished?
                    && s.alive && s.viewEpoch == job.epoch && s.clientGeneration == job.generation
                  else job.stage == s.jobs[j].stage)
            else
              && step.ClientMoves? && step.connected && step.generation == job.generation && j == s.nextJob
              && s.viewEpoch == job.epoch && s.initialized
              && job.stage == if step.hasScope then AwaitSnapshot else Finished(Success)
  {
    forall k | k in s.jobs ensures k < s.nextJob { assert JobFits(s, k); }
  }

  /** How many checks a rehydration at this stage has passed. */
  function ChecksPassed(stage: Stage): nat {
    match stage
    case AwaitSnapshot => 0
    case AwaitNavigation => 1
    case AwaitHistory => 2
    case Finished(_) => 3
  }

  /** Checks of rehydration `j` at these steps, in order, between its start and step `n`. */
  ghost predicate PassedAt(steps: seq<Step>, checks: seq<nat>, p: nat, n: nat, j: nat, generation: nat, epoch: nat)
    requires Runs(INITIAL, steps) && n <= |steps|
  {
    && (forall i :: 0 <= i < |checks| ==> p < checks[i] < n && ChecksAt(steps, checks[i], j, generation, epoch))
    && (forall i, k :: 0 <= i < k < |checks| ==> checks[i] < checks[k])
  }

  lemma PassedNext(steps: seq<Step>, checks: seq<nat>, p: nat, n: nat, j: nat, generation: nat, epoch: nat)
    requires Runs(INITIAL, steps) && p < n < |steps| && PassedAt(steps, checks, p, n, j, generation, epoch)
    ensures PassedAt(steps, checks, p, n + 1, j, generation, epoch)
    ensures ChecksAt(steps, n, j, generation, epoch) ==> PassedAt(steps, checks + [n], p, n + 1, j, generation, epoch)
  {
  }

  /**
   A rehydration that has not failed or gone stale has passed a check after
   each of its awaits so far, all three if it succeeded, each under the view
   and the generation it started with; only without a scope are there none.
   */
  lemma {:induction false} StageHasChecks(steps: seq<Step>, n: nat, j: nat) returns (p: nat, checks: seq<nat>)
    requires Runs(INITIAL, steps) && n <= |steps| && j in At(steps, n).jobs
    requires At(steps, n).jobs[j].stage.Finished? ==> At(steps, n).jobs[j].stage.outcome.Success?
    ensures var Job(g, epoch, stage) := At(steps, n).jobs[j];
            && p < n && StartsAt(steps, p, j, g, epoch) && PassedAt(steps, checks, p, n, j, g, epoch)
            && |checks| == (if steps[p].hasScope then ChecksPassed(stage) else 0)
            && (!steps[p].hasScope ==> stage.Finished?)
    decreases n
  {
    assert n > 0 by { assert steps[..0] == []; }
    AtNext(steps, n - 1);
    var s, step := At(steps, n - 1), steps[n - 1];
    JobStep(s, step, j);
    if j !in s.jobs {
      p, checks := n - 1, [];
    } else {
      p, checks := StageHasChecks(steps, n - 1, j);
      var Job(g, epoch, _) := s.jobs[j];
      PassedNext(steps, checks, p, n - 1, j, g, epoch);
      if step == JobContinues(j) { checks := checks + [n - 1]; }
    }
  }

  lemma {:induction false} StaysInitialized(steps: seq<Step>, a: nat, n: nat)
    requires Runs(INITIAL, steps) && a <= n <= |steps| && At(steps, a).initialized
    ensures At(steps, n).initialized
    decreases n
  {
    if a < n {
      StaysInitialized(steps, a, n - 1);
      AtNext(steps, n - 1);
    }
  }

  lemma {:induction false} RiseHasSettle(steps: seq<Step>, a: nat, n: nat) returns (q: nat, j: nat)
    requires Runs(INITIAL, steps) && a <= n <= |steps| && At(steps, a).initialized
    requires At(steps, n).lastRecovered > At(steps, a).lastRecovered && At(steps, n).lastRecovered > 1
    ensures a <= q < n && SettlesAt(steps, q, j, At(steps, n).lastRecovered)
    decreases n
  {
    StaysInitialized(steps, a, n - 1);
    AtNext(steps, n - 1);
    if At(steps, n - 1).lastRecovered == At(steps, n).lastRecovered {
      q, j := RiseHasSettle(steps, a, n - 1);
    } else {
      PrefixRuns(INITIAL, steps, n - 1);
      RecoveredStep(At(steps, n - 1), steps[n - 1]);
      RisesOnlyBySuccess(steps[..n - 1], steps[n - 1]);
      q, j := n - 1, steps[n - 1].job;
    }
  }

  lemma RecoveredStep(s: State, step: Step)
    requires Enabled(s, step)
    ensures Apply(s, step).lastRecovered >= s.lastRecovered
  {
  }

  /**
   Whenever the last recovered generation has risen above 1 since some
   initialized moment, the run holds the whole recovery of that generation: a
   rehydration started when the client connected at it, three checks after its
   three awaits that found the same view and generation (none without a scope),
   and its settling as a success with the client still connected at it.
   */
  lemma RecoveryStory(steps: seq<Step>, a: nat) returns (j: nat, p: nat, checks: seq<nat>, q: nat)
    requires Runs(INITIAL, steps) && a <= |steps| && At(steps, a).initialized
    requires At(steps, |steps|).lastRecovered > At(steps, a).lastRecovered && At(steps, |steps|).lastRecovered > 1
    ensures var g := At(steps, |steps|).lastRecovered;
            && p < q < |steps| && a <= q
            && StartsAt(steps, p, j, g, At(steps, p).viewEpoch)
            && PassedAt(steps, checks, p, q, j, g, At(steps, p).viewEpoch)
            && |checks| == (if steps[p].hasScope then 3 else 0)
            && SettlesAt(steps, q, j, g)
  {
    q, j := RiseHasSettle(steps, a, |steps|);
    p, checks := StageHasChecks(steps, q, j);
  }

  // ----- an undisturbed recovery -----

  function StageAfter(checks: nat): Stage {
    if checks == 0 then AwaitSnapshot else if checks == 1 then AwaitNavigation
    else if checks == 2 then AwaitHistory else Finished(Success)
  }

  /** Nothing moves under rehydration `j` of generation `g` at this step, and it neither throws nor settles. */
  predicate Leaves(step: Step, j: nat, g: nat) {
    && step != ViewMoves && step != Dispose && step != JobThrows(j) && step != JobSettles(j)
    && (step.ClientMoves? ==> step.generation == g)
  }

  function Continues(steps: seq<Step>, p: nat, n: nat, j: nat): nat
    requires p <= n <= |steps|
    decreases n
  {
    if n == p then 0 else Continues(steps, p, n - 1, j) + if steps[n - 1] == JobContinues(j) then 1 else 0
  }

  /** The client connects at a generation that is to be recovered. */
  ghost predicate Calls(s: State, g: nat) {
    s.alive && s.initialized && g > 1 && g > s.lastRecovered && s.recovering != Some(g)
  }

  ghost predicate OnCourse(s: State, j: nat, g: nat, epoch: nat, checks: nat) {
    && s.alive && s.viewEpoch == epoch && s.clientGeneration == g
    && checks <= 3 && j in s.jobs && s.jobs[j] == Job(g, epoch, StageAfter(checks))
  }

  lemma MoveStarts(s: State, g: nat)
    requires Enabled(s, ClientMoves(true, g, true)) && Calls(s, g)
    ensures OnCourse(Apply(s, ClientMoves(true, g, true)), s.nextJob, g, s.viewEpoch, 0)
  {
  }

  lemma StepKeepsCourse(s: State, step: Step, j: nat, g: nat, epoch: nat, checks: nat)
    requires Inv(s) && Enabled(s, step) && OnCourse(s, j, g, epoch, checks) && Leaves(step, j, g)
    ensures OnCourse(Apply(s, step), j, g, epoch, checks + if step == JobContinues(j) then 1 else 0)
  {
    assert JobFits(s, j);
  }

  /**
   A rehydration started for a newly connected generation takes one stage per
   check while nothing moves under it, so after three it has succeeded.
   */
  lemma {:induction false} RecoveryProgress(steps: seq<Step>, p: nat, n: nat, g: nat)
    requires Runs(INITIAL, steps) && p < n <= |steps| && steps[p] == ClientMoves(true, g, true) && Calls(At(steps, p), g)
    requires forall i :: p < i < n ==> Leaves(steps[i], At(steps, p).nextJob, g)
    ensures OnCourse(At(steps, n), At(steps, p).nextJob, g, At(steps, p).viewEpoch, Continues(steps, p + 1, n, At(steps, p).nextJob))
    decreases n
  {
    AtNext(steps, n - 1);
    if n == p + 1 {
      MoveStarts(At(steps, p), g);
    } else {
      var j := At(steps, p).nextJob;
      RecoveryProgress(steps, p, n - 1, g);
      StepKeepsCourse(At(steps, n - 1), steps[n - 1], j, g, At(steps, p).viewEpoch, Continues(steps, p + 1, n - 1, j));
    }
  }

  /** It can then settle, and if the client is still connected the generation is recovered. */
  lemma RecoveryCompletes(steps: seq<Step>, p: nat, n: nat, g: nat)
    requires Runs(INITIAL, steps) && p < n <= |steps| && steps[p] == ClientMoves(true, g, true) && Calls(At(steps, p), g)
    requires forall i :: p < i < n ==> Leaves(steps[i], At(steps, p).nextJob, g)
    requires Continues(steps, p + 1, n, At(steps, p).nextJob) == 3 && At(steps, n).clientConnected
    ensures Enabled(At(steps, n), JobSettles(At(steps, p).nextJob))
    ensures Apply(At(steps, n), JobSettles(At(steps, p).nextJob)).lastRecovered == g
  {
    RecoveryProgress(steps, p, n, g);
    PrefixRuns(INITIAL, steps, n);
    RunKeepsInv(INITIAL, steps[..n]);
  }

  /** Before initialization, or at the first generation, a connection counts as recovered at once. */
  lemma FirstConnectionNoted(steps: seq<Step>, p: nat)
    requires Runs(INITIAL, steps) && p < |steps| && steps[p].ClientMoves? && steps[p].connected
    requires At(steps, p).alive && (!At(steps, p).initialized || steps[p].generation <= 1)
    ensures At(steps, p + 1).lastRecovered == steps[p].generation
  {
    AtNext(steps, p);
  }

  // ----- after disposal -----

  lemma StepWhenDead(s: State, step: Step)
    requires Enabled(s, step) && !s.alive
    ensures var t := Apply(s, step);
            !t.alive && t.lastRecovered == s.lastRecovered && t.nextJob == s.nextJob
    ensures step.JobContinues? ==> Apply(s, step).jobs[step.job].stage == Finished(Stale)
  {
  }

  /** Once the effect is gone nothing is recovered or started, and a rehydration that goes on is stale. */
  lemma {:induction false} DisposeIsFinal(steps: seq<Step>, p: nat, n: nat)
    requires Runs(INITIAL, steps) && p < n <= |steps| && steps[p] == Dispose
    ensures !At(steps, n).alive && At(steps, n).lastRecovered == At(steps, p).lastRecovered && At(steps, n).nextJob == At(steps, p).nextJob
    ensures n > p + 1 && steps[n - 1].JobContinues? ==>
            var j := steps[n - 1].job; j in At(steps, n).jobs && At(steps, n).jobs[j].stage == Finished(Stale)
    decreases n
  {
    AtNext(steps, n - 1);
    if n > p + 1 {
      DisposeIsFinal(steps, p, n - 1);
      StepWhenDead(At(steps, n - 1), steps[n - 1]);
    }
  }
}
