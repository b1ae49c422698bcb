/** When a granted lease is held and what ends it, read off the steps of a run. */
module AppLeaseHistory {
  import opened Sequences
  import opened AppLeaseModel

  lemma {:induction false} PrefixRuns(s: State, steps: seq<Step>, n: nat)
    requires Runs(s, steps) && n <= |steps|
    ensures Runs(s, steps[..n])
    ensures n < |steps| ==> Enabled(After(s, steps[..n]), steps[n])
    ensures n < |steps| ==> Runs(s, steps[..n + 1]) && After(s, steps[..n + 1]) == Apply(After(s, steps[..n]), steps[n])
    decreases n
  {
    if n == 0 {
      assert steps[..0] == [];
      if steps != [] {
        assert steps[..1][1..] == [];
        assert Runs(Apply(s, steps[0]), []) && After(Apply(s, steps[0]), []) == Apply(s, steps[0]);
      }
    } else {
      PrefixRuns(Apply(s, steps[0]), steps[1..], n - 1);
      assert steps[..n][1..] == steps[1..][..n - 1];
      if n < |steps| { assert steps[..n + 1][1..] == steps[1..][..n]; }
    }
  }

  /** The surface before step `n` of a run. */
  ghost function At(steps: seq<Step>, n: nat): State
    requires Runs(INITIAL, steps) && n <= |steps|
  {
    PrefixRuns(INITIAL, steps, n);
    After(INITIAL, steps[..n])
  }

  lemma AtNext(steps: seq<Step>, n: nat)
    requires Runs(INITIAL, steps) && n < |steps|
    ensures Enabled(At(steps, n), steps[n]) && At(steps, n + 1) == Apply(At(steps, n), steps[n])
    ensures Inv(At(steps, n)) && Inv(At(steps, n + 1))
  {
    PrefixRuns(INITIAL, steps, n);
    RunKeepsInv(INITIAL, steps[..n]);
    RunKeepsInv(INITIAL, steps[..n + 1]);
  }

  // ----- which grants are held -----

  /** A step that takes a new generation. */
  predicate Moves(step: Step) {
    step == Open || step == Close || step == EffectRuns || step == EffectCleansUp
  }

  predicate Unmoved(steps: seq<Step>, p: nat, n: nat) {
    forall i :: p < i < n && i < |steps| ==> !Moves(steps[i])
  }

  predicate Unanswered(steps: seq<Step>, p: nat, n: nat, c: nat) {
    forall i :: p < i < n && i < |steps| ==> !(steps[i].Granted? && steps[i].call == c) && steps[i] != OpenFails(c)
  }

  lemma StepGeneration(s: State, step: Step)
    requires Enabled(s, step)
    ensures Apply(s, step).generation == s.generation + if Moves(step) then 1 else 0
    ensures Apply(s, step).nextCall >= s.nextCall
  {
  }

  lemma StepKeepsCall(s: State, step: Step, c: nat)
    requires Enabled(s, step) && c in s.calls && c < s.nextCall
    requires !(step.Granted? && step.call == c) && step != OpenFails(c)
    ensures c in Apply(s, step).calls && Apply(s, step).calls[c] == s.calls[c]
  {
  }

  /** The open of step `p` is awaited until it is answered, in its own generation exactly while nothing took a new one. */
  lemma {:induction false} OpenAwaited(steps: seq<Step>, p: nat, n: nat, c: nat)
    requires Runs(INITIAL, steps) && p < n <= |steps| && steps[p] == Open && c == At(steps, p).nextCall
    requires Unanswered(steps, p, n, c)
    ensures var s := At(steps, n); c in s.calls && c < s.nextCall && s.calls[c] <= s.generation
    ensures At(steps, n).calls[c] == At(steps, n).generation <==> Unmoved(steps, p, n)
    decreases n
  {
    AtNext(steps, n - 1);
    if n > p + 1 {
      OpenAwaited(steps, p, n - 1, c);
      StepGeneration(At(steps, n - 1), steps[n - 1]);
      StepKeepsCall(At(steps, n - 1), steps[n - 1], c);
      assert Unmoved(steps, p, n) <==> Unmoved(steps, p, n - 1) && !Moves(steps[n - 1]);
    }
  }

  lemma GrantFacts(s: State, c: nat, l: nat)
    requires Inv(s) && c in s.calls && l !in s.granted
    ensures var t := AfterGrant(s, c, l);
            if s.calls[c] == s.generation then t.lease == Some(l) && t.shown && !t.opening && t.closes[l] == 0
            else t.lease == s.lease && t.shown == s.shown && t.closes[l] == 1
  {
    assert AccountedOnce(s, l);
  }

  /**
   An open may be answered by any new lease until it is answered. The lease is
   held, and the App shown, exactly when no other open, close, effect run or
   cleanup came since the open; otherwise its close is requested at once.
   */
  lemma GrantHeldIff(steps: seq<Step>, p: nat, n: nat, c: nat, l: nat)
    requires Runs(INITIAL, steps) && p < n <= |steps| && steps[p] == Open && c == At(steps, p).nextCall
    requires Unanswered(steps, p, n, c) && l !in At(steps, n).granted
    ensures Enabled(At(steps, n), Granted(c, l))
    ensures var t := Apply(At(steps, n), Granted(c, l));
            && (t.lease == Some(l) <==> Unmoved(steps, p, n))
            && (Unmoved(steps, p, n) ==> t.shown && !t.opening)
            && t.closes[l] == if Unmoved(steps, p, n) then 0 else 1
  {
    OpenAwaited(steps, p, n, c);
    PrefixRuns(INITIAL, steps, n);
    RunKeepsInv(INITIAL, steps[..n]);
    assert AccountedOnce(At(steps, n), l);
    GrantFacts(At(steps, n), c, l);
  }

  // ----- what ends a held lease -----

  predicate Gives(step: Step) {
    step == Close || step == EffectCleansUp
  }

  lemma StepOnHeld(s: State, step: Step, l: nat)
    requires Inv(s) && Enabled(s, step) && s.lease == Some(l)
    ensures var t := Apply(s, step);
            if Gives(step) then t.lease == None && t.closes[l] == 1 else t.lease == Some(l)
  {
    assert AccountedOnce(s, l);
    forall c | c in s.calls ensures s.calls[c] != s.generation { assert CallFits(s, c); }
  }

  /** A held lease is kept until a close or a cleanup, which requests its close. */
  lemma {:induction false} HeldUntilGiven(steps: seq<Step>, q: nat, n: nat, l: nat)
    requires Runs(INITIAL, steps) && q <= n < |steps| && At(steps, q).lease == Some(l)
    requires forall i :: q <= i < n ==> !Gives(steps[i])
    ensures At(steps, n).lease == Some(l)
    ensures if Gives(steps[n]) then At(steps, n + 1).lease == None && At(steps, n + 1).closes[l] == 1
            else At(steps, n + 1).lease == Some(l)
    decreases n
  {
    if q < n { HeldUntilGiven(steps, q, n - 1, l); }
    AtNext(steps, n);
    StepOnHeld(At(steps, n), steps[n], l);
  }

  // ----- when the App is shown -----

  /** Step `q` is a grant that is held. */
  ghost predicate ShowsAt(steps: seq<Step>, q: nat)
    requires Runs(INITIAL, steps) && q < |steps|
  {
    steps[q].Granted? && At(steps, q + 1).lease == Some(steps[q].lease)
  }

  lemma StepShows(s: State, step: Step)
    requires Inv(s) && Enabled(s, step)
    ensures Apply(s, step).shown <==>
            (step.Granted? && Apply(s, step).lease == Some(step.lease)) || (s.shown && step != Close)
  {
    if step.Granted? { assert AccountedOnce(s, step.lease); }
  }

  ghost predicate ShownSince(steps: seq<Step>, q: nat, n: nat)
    requires Runs(INITIAL, steps) && n <= |steps|
  {
    q < n && ShowsAt(steps, q) && forall i :: q < i < n ==> steps[i] != Close
  }

  lemma ShownSinceNext(steps: seq<Step>, n: nat, next: nat)
    requires Runs(INITIAL, steps) && n < |steps| && next == n + 1
    ensures (exists q: nat :: ShownSince(steps, q, next)) <==>
            ShowsAt(steps, n) || (steps[n] != Close && exists q: nat :: ShownSince(steps, q, n))
  {
    if ShowsAt(steps, n) {
      assert ShownSince(steps, n, next);
    } else if q: nat :| ShownSince(steps, q, n) && steps[n] != Close {
      assert ShownSince(steps, q, next);
    } else if q: nat :| ShownSince(steps, q, next) {
      assert ShownSince(steps, q, n);
    }
  }

  /** The App is shown exactly from a held grant until the next close; a cleanup leaves it shown. */
  lemma {:induction false} ShownExactly(steps: seq<Step>, n: nat)
    requires Runs(INITIAL, steps) && n <= |steps|
    ensures At(steps, n).shown <==> exists q: nat :: ShownSince(steps, q, n)
    decreases n
  {
    if n == 0 {
      assert steps[..0] == [];
    } else {
      ShownExactly(steps, n - 1);
      ShownSinceNext(steps, n - 1, n);
      AtNext(steps, n - 1);
      StepShows(At(steps, n - 1), steps[n - 1]);
    }
  }
}
