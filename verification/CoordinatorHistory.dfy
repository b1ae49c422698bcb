/** How every readiness settles and what becomes of a waiting submission, read off the steps of a run. */
module CoordinatorHistory {
  import opened Sequences
  import opened CoordinatorModel

  lemma {:induction false} PrefixRuns(s: State, steps: seq<Step>, n: nat)
    requires Runs(s, steps) && n <= |steps|
    ensures Runs(s, steps[..n])
    ensures n < |steps| ==> Enabled(After(s, steps[..n]), steps[n])
    ensures n < |steps| ==> Runs(s, steps[..n + 1]) && After(s, steps[..n + 1]) == Apply(After(s, steps[..n]), steps[n])
    decreases n
  {
    if n == 0 {
      assert steps[..0] == [];
      if steps != [] {
        assert steps[..1][1..] == [];
        assert Runs(Apply(s, steps[0]), []) && After(Apply(s, steps[0]), []) == Apply(s, steps[0]);
      }
    } else {
      PrefixRuns(Apply(s, steps[0]), steps[1..], n - 1);
      assert steps[..n][1..] == steps[1..][..n - 1];
      if n < |steps| { assert steps[..n + 1][1..] == steps[1..][..n]; }
    }
  }

  /** The coordinator before step `n` of a run. */
  ghost function At(steps: seq<Step>, n: nat): State
    requires Runs(INITIAL, steps) && n <= |steps|
  {
    PrefixRuns(INITIAL, steps, n);
    After(INITIAL, steps[..n])
  }

  lemma AtNext(steps: seq<Step>, n: nat)
    requires Runs(INITIAL, steps) && n < |steps|
    ensures Enabled(At(steps, n), steps[n]) && At(steps, n + 1) == Apply(At(steps, n), steps[n])
    ensures Inv(At(steps, n)) && Inv(At(steps, n + 1))
  {
    PrefixRuns(INITIAL, steps, n);
    RunKeepsInv(INITIAL, steps[..n]);
    RunKeepsInv(INITIAL, steps[..n + 1]);
  }

  // ----- how a readiness settles -----

  /** How many of the first `n` steps begin a readiness. */
  function Begins(steps: seq<Step>, n: nat): nat
    requires n <= |steps|
  {
    if n == 0 then 0 else Begins(steps, n - 1) + if steps[n - 1].Begin? then 1 else 0
  }

  /** Step `p` begins the readiness of this token: the ids count the beginnings. */
  predicate Issues(steps: seq<Step>, p: nat, token: Token)
    requires p < |steps|
  {
    steps[p].Begin? && token == Token(steps[p].epoch, Begins(steps, p) + 1)
  }

  /** A step that settles the readiness of this token if it is open. */
  predicate Decides(step: Step, token: Token) {
    step.Begin? || step.Cancel? || (step.Settle? && step.token == token)
  }

  /** How it settles it: as the token's holder says, and otherwise not ready. */
  predicate Verdict(step: Step) {
    step.Settle? && step.ready
  }

  predicate Undecided(steps: seq<Step>, p: nat, n: nat, token: Token) {
    forall i :: p < i < n && i < |steps| ==> !Decides(steps[i], token)
  }

  ghost predicate OpenFor(s: State, token: Token) {
    Unsettled(s, token.id) && s.active.Some? && s.active.value.id == token.id && s.active.value.epoch == token.epoch
  }

  lemma BeginOpens(s: State, epoch: nat, kind: Kind)
    requires Inv(s)
    ensures OpenFor(AfterBegin(s, epoch, kind), Token(epoch, s.nextId + 1))
  {
  }

  lemma StepCounts(s: State, step: Step)
    requires Enabled(s, step)
    ensures Apply(s, step).nextId == s.nextId + if step.Begin? then 1 else 0
  {
  }

  lemma {:induction false} IdsCount(steps: seq<Step>, n: nat)
    requires Runs(INITIAL, steps) && n <= |steps|
    ensures At(steps, n).nextId == Begins(steps, n)
    decreases n
  {
    if n == 0 {
      assert steps[..0] == [];
    } else {
      IdsCount(steps, n - 1);
      AtNext(steps, n - 1);
      StepCounts(At(steps, n - 1), steps[n - 1]);
    }
  }

  /** One step settles an open readiness as it says, or leaves it open. */
  lemma StepOnOpen(s: State, step: Step, token: Token)
    requires Inv(s) && Enabled(s, step) && OpenFor(s, token)
    ensures var t := Apply(s, step);
            if Decides(step, token) then token.id in t.outcomes && t.outcomes[token.id] == [Verdict(step)]
            else OpenFor(t, token)
  {
    assert PromiseFits(s, token.id) && PromiseFits(s, s.nextId + 1);
  }

  lemma {:induction false} OpenUntilDecided(steps: seq<Step>, p: nat, n: nat, token: Token)
    requires Runs(INITIAL, steps) && p < n <= |steps| && Issues(steps, p, token) && Undecided(steps, p, n, token)
    ensures OpenFor(At(steps, n), token)
    decreases n
  {
    AtNext(steps, n - 1);
    if n == p + 1 {
      IdsCount(steps, p);
      BeginOpens(At(steps, p), steps[p].epoch, steps[p].kind);
    } else {
      OpenUntilDecided(steps, p, n - 1, token);
      StepOnOpen(At(steps, n - 1), steps[n - 1], token);
    }
  }

  lemma {:induction false} OutcomeFinal(steps: seq<Step>, n: nat, m: nat, id: nat)
    requires Runs(INITIAL, steps) && n <= m <= |steps| && id in At(steps, n).outcomes && At(steps, n).outcomes[id] != []
    ensures id in At(steps, m).outcomes && At(steps, m).outcomes[id] == At(steps, n).outcomes[id]
    decreases m
  {
    if n < m {
      OutcomeFinal(steps, n, m - 1, id);
      AtNext(steps, m - 1);
      StepKeepsOutcome(At(steps, m - 1), steps[m - 1], id);
    }
  }

  /**
   The first step after its beginning that can settle a readiness does, and for
   good: its own token's settlement as it says, a cancellation or a newer
   beginning as not ready.
   */
  lemma FirstDecisionSettles(steps: seq<Step>, p: nat, q: nat, m: nat, token: Token)
    requires Runs(INITIAL, steps) && p < q < m <= |steps| && Issues(steps, p, token)
    requires Undecided(steps, p, q, token) && Decides(steps[q], token)
    ensures token.id in At(steps, m).outcomes && At(steps, m).outcomes[token.id] == [Verdict(steps[q])]
  {
    OpenUntilDecided(steps, p, q, token);
    AtNext(steps, q);
    StepOnOpen(At(steps, q), steps[q], token);
    OutcomeFinal(steps, q + 1, m, token.id);
  }

  // ----- what a waiting submission gets -----

  predicate NotResumed(steps: seq<Step>, w: nat, n: nat, waiter: nat) {
    forall i :: w < i < n && i < |steps| ==> !(steps[i].Resume? && steps[i].waiter == waiter)
  }

  lemma StepKeepsWaiter(s: State, step: Step, waiter: nat)
    requires Inv(s) && Enabled(s, step) && waiter in s.waiters && !(step.Resume? && step.waiter == waiter)
    ensures waiter in Apply(s, step).waiters && Apply(s, step).waiters[waiter] == s.waiters[waiter]
  {
    assert WaiterFits(s, waiter);
  }

  /** A call in the epoch of an open readiness suspends on it if the slot is free. */
  lemma WaitSuspends(s: State, token: Token, inputCurrent: bool)
    requires OpenFor(s, token) && !s.active.value.settled && s.pendingSubmission == None
    ensures var t := AfterWait(s, token.epoch, inputCurrent);
            s.nextWaiter in t.waiters && t.waiters[s.nextWaiter] == token.id
  {
  }

  lemma {:induction false} WaitsOn(steps: seq<Step>, p: nat, w: nat, n: nat, token: Token, waiter: nat)
    requires Runs(INITIAL, steps) && p < w < n <= |steps| && Issues(steps, p, token) && Undecided(steps, p, w, token)
    requires steps[w].Wait? && steps[w].epoch == token.epoch
    requires At(steps, w).pendingSubmission == None && waiter == At(steps, w).nextWaiter
    requires NotResumed(steps, w, n, waiter)
    ensures waiter in At(steps, n).waiters && At(steps, n).waiters[waiter] == token.id
    decreases n
  {
    AtNext(steps, n - 1);
    if n == w + 1 {
      OpenUntilDecided(steps, p, w, token);
      assert PromiseFits(At(steps, w), token.id);
      WaitSuspends(At(steps, w), token, steps[w].inputCurrent);
    } else {
      WaitsOn(steps, p, w, n - 1, token, waiter);
      StepKeepsWaiter(At(steps, n - 1), steps[n - 1], waiter);
    }
  }

  /**
   A submission made in the epoch of an open readiness with the slot free waits
   until the readiness is settled. It can then go on, and returns true exactly
   when the readiness was settled ready and its input is still current.
   */
  lemma WaitingSubmissionAnswered(steps: seq<Step>, p: nat, w: nat, q: nat, n: nat, token: Token, waiter: nat, inputCurrent: bool)
    requires Runs(INITIAL, steps) && p < w < q < n <= |steps| && Issues(steps, p, token)
    requires Undecided(steps, p, q, token) && Decides(steps[q], token)
    requires steps[w].Wait? && steps[w].epoch == token.epoch
    requires At(steps, w).pendingSubmission == None && waiter == At(steps, w).nextWaiter
    requires NotResumed(steps, w, n, waiter)
    ensures Enabled(At(steps, n), Resume(waiter, inputCurrent))
    ensures Apply(At(steps, n), Resume(waiter, inputCurrent)).answers ==
            At(steps, n).answers + [Answer(Some(token.id), true, Verdict(steps[q]) && inputCurrent)]
  {
    WaitsOn(steps, p, w, n, token, waiter);
    FirstDecisionSettles(steps, p, q, n, token);
  }

  /** While it waits the readiness is open, and it cannot go on. */
  lemma WaitsWhileOpen(steps: seq<Step>, p: nat, w: nat, n: nat, token: Token, waiter: nat, inputCurrent: bool)
    requires Runs(INITIAL, steps) && p < w < n <= |steps| && Issues(steps, p, token) && Undecided(steps, p, n, token)
    requires steps[w].Wait? && steps[w].epoch == token.epoch
    requires At(steps, w).pendingSubmission == None && waiter == At(steps, w).nextWaiter
    requires NotResumed(steps, w, n, waiter)
    ensures !Enabled(At(steps, n), Resume(waiter, inputCurrent))
  {
    WaitsOn(steps, p, w, n, token, waiter);
    OpenUntilDecided(steps, p, n, token);
  }
}
