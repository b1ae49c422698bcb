/** What becomes of every connect attempt and every generation, read off the steps of a run. */
module TransportHistory {
  import opened Sequences
  import opened TransportModel

  lemma {:induction false} PrefixRuns(s: State, steps: seq<Step>, n: nat)
    requires Runs(s, steps) && n <= |steps|
    ensures Runs(s, steps[..n])
    ensures n < |steps| ==> Enabled(After(s, steps[..n]), steps[n])
    ensures n < |steps| ==> Runs(s, steps[..n + 1]) && After(s, steps[..n + 1]) == Apply(After(s, steps[..n]), steps[n])
    decreases n
  {
    if n == 0 {
      assert steps[..0] == [];
      if steps != [] {
        assert steps[..1][1..] == [];
        assert Runs(Apply(s, steps[0]), []) && After(Apply(s, steps[0]), []) == Apply(s, steps[0]);
      }
    } else {
      PrefixRuns(Apply(s, steps[0]), steps[1..], n - 1);
      assert steps[..n][1..] == steps[1..][..n - 1];
      if n < |steps| { assert steps[..n + 1][1..] == steps[1..][..n]; }
    }
  }

  /** The transport before step `n` of a run. */
  ghost function At(steps: seq<Step>, n: nat): State
    requires Runs(INITIAL, steps) && n <= |steps|
  {
    PrefixRuns(INITIAL, steps, n);
    After(INITIAL, steps[..n])
  }

  lemma AtNext(steps: seq<Step>, n: nat)
    requires Runs(INITIAL, steps) && n < |steps|
    ensures Enabled(At(steps, n), steps[n]) && At(steps, n + 1) == Apply(At(steps, n), steps[n])
    ensures Inv(At(steps, n)) && Inv(At(steps, n + 1))
  {
    PrefixRuns(INITIAL, steps, n);
    RunKeepsInv(INITIAL, steps[..n]);
    RunKeepsInv(INITIAL, steps[..n + 1]);
  }

  // ----- connect attempts -----

  /** Step `p` is a `connect` that starts attempt `c`. */
  ghost predicate Starts(steps: seq<Step>, p: nat, c: nat)
    requires Runs(INITIAL, steps) && p < |steps|
  {
    steps[p] == Connect && c !in At(steps, p).calls && c in At(steps, p + 1).calls
  }

  lemma StartFacts(s: State, c: nat)
    requires Inv(s)
    ensures c !in s.calls && c in AfterConnect(s).calls <==>
            !s.disposed && s.generation == None && s.calls == map[] && c == s.nextCall
  {
    forall d | d in s.calls ensures s.connecting == Some(d) { assert CallFits(s, d); }
    if !s.disposed && !s.connected && s.connecting.None? {
      assert s.calls.Keys == {};
    }
  }

  /** A `connect` starts an attempt exactly when the transport is not disposed, not connected and has none pending. */
  lemma ConnectStartsIff(steps: seq<Step>, p: nat)
    requires Runs(INITIAL, steps) && p < |steps| && steps[p] == Connect
    ensures (exists c :: Starts(steps, p, c)) <==>
            !At(steps, p).disposed && At(steps, p).generation == None && At(steps, p).calls == map[]
  {
    AtNext(steps, p);
    var s := At(steps, p);
    forall c: nat ensures Starts(steps, p, c) <==>
      !s.disposed && s.generation == None && s.calls == map[] && c == s.nextCall
    {
      StartFacts(s, c);
    }
    assert Starts(steps, p, s.nextCall) <==> !s.disposed && s.generation == None && s.calls == map[];
  }

  predicate Ends(step: Step) {
    step == Close || step == Dispose
  }

  /** No `close` or `dispose` comes after step `p` and before step `n`. */
  predicate Undisturbed(steps: seq<Step>, p: nat, n: nat) {
    forall i :: p < i < n && i < |steps| ==> !Ends(steps[i])
  }

  ghost predicate IsCurrent(s: State, c: nat)
    requires c in s.calls
  {
    !s.disposed && s.calls[c].epoch == s.connectEpoch
  }

  lemma StepKeepsAttempt(s: State, step: Step, c: nat)
    requires Enabled(s, step) && c < s.nextCall && c in Apply(s, step).calls
    ensures c in s.calls && Apply(s, step).calls[c].epoch == s.calls[c].epoch
  {
  }

  lemma StepEpoch(s: State, step: Step)
    requires Enabled(s, step) && (step == Connect ==> s.connecting.Some?)
    ensures var t := Apply(s, step);
            if Ends(step) then t.disposed || t.connectEpoch == s.connectEpoch + 1
            else t.disposed == s.disposed && t.connectEpoch == s.connectEpoch
  {
  }

  /** One step keeps a pending attempt current unless it closes or disposes. */
  lemma StepCurrentIff(s: State, step: Step, c: nat)
    requires Inv(s) && Enabled(s, step) && c < s.nextCall && c in Apply(s, step).calls
    ensures c in s.calls && (IsCurrent(Apply(s, step), c) <==> IsCurrent(s, c) && !Ends(step))
  {
    StepKeepsAttempt(s, step, c);
    assert CallFits(s, c);
    StepEpoch(s, step);
  }

  lemma StepNumbers(s: State, step: Step)
    requires Enabled(s, step)
    ensures Apply(s, step).nextCall >= s.nextCall
  {
  }

  lemma StartedNow(steps: seq<Step>, p: nat, c: nat)
    requires Runs(INITIAL, steps) && p < |steps| && Starts(steps, p, c)
    ensures At(steps, p + 1).nextCall == c + 1 && c in At(steps, p + 1).calls && IsCurrent(At(steps, p + 1), c)
  {
    AtNext(steps, p);
    StartFacts(At(steps, p), c);
  }

  /** A pending attempt is still the current one exactly while nothing ended it. */
  lemma {:induction false} AttemptCurrentIff(steps: seq<Step>, p: nat, c: nat, n: nat)
    requires Runs(INITIAL, steps) && p < n <= |steps| && Starts(steps, p, c)
    ensures At(steps, n).nextCall > c
    ensures c in At(steps, n).calls ==> (IsCurrent(At(steps, n), c) <==> Undisturbed(steps, p, n))
    decreases n
  {
    if n == p + 1 {
      StartedNow(steps, p, c);
    } else {
      var s, step := At(steps, n - 1), steps[n - 1];
      AttemptCurrentIff(steps, p, c, n - 1);
      AtNext(steps, n - 1);
      StepNumbers(s, step);
      if c in At(steps, n).calls { StepCurrentIff(s, step, c); }
      assert Undisturbed(steps, p, n) <==> Undisturbed(steps, p, n - 1) && !Ends(step);
    }
  }

  /** The reply to attempt `c` has not come after step `p` and before step `n`. */
  predicate Unanswered(steps: seq<Step>, p: nat, n: nat, c: nat) {
    forall i :: p < i < n && i < |steps| ==> !(steps[i].ConnectReturns? && steps[i].call == c) && steps[i] != ConnectFails(c)
  }

  lemma StepKeepsAwaiting(s: State, step: Step, c: nat)
    requires Inv(s) && Enabled(s, step) && c in s.calls && s.calls[c].phase.Connecting?
    requires !(step.ConnectReturns? && step.call == c) && step != ConnectFails(c)
    ensures c in Apply(s, step).calls && Apply(s, step).calls[c].phase.Connecting?
  {
    assert CallFits(s, c);
  }

  /** A started attempt awaits its reply until it comes, closed meanwhile or not. */
  lemma {:induction false} AttemptAwaitsReply(steps: seq<Step>, p: nat, c: nat, n: nat)
    requires Runs(INITIAL, steps) && p < n <= |steps| && Starts(steps, p, c) && Unanswered(steps, p, n, c)
    ensures c in At(steps, n).calls && At(steps, n).calls[c].phase.Connecting?
    ensures forall g :: g !in At(steps, n).ledger.returned ==> Enabled(At(steps, n), ConnectReturns(c, g))
    decreases n
  {
    AtNext(steps, n - 1);
    if n == p + 1 {
      StartFacts(At(steps, p), c);
    } else {
      AttemptAwaitsReply(steps, p, c, n - 1);
      StepKeepsAwaiting(At(steps, n - 1), steps[n - 1], c);
    }
  }

  lemma ReplyFacts(s: State, c: nat, g: nat)
    requires Inv(s) && Enabled(s, ConnectReturns(c, g))
    ensures var t := AfterReturn(s, c, g);
            && (t.generation == Some(g) <==> IsCurrent(s, c)) && (t.connected <==> IsCurrent(s, c))
            && t.ledger.disconnects[g] == if IsCurrent(s, c) then 0 else 1
  {
    assert CallFits(s, c) && AccountedOnce(s, g);
  }

  /**
   The reply to an attempt is installed exactly when neither `close` nor
   `dispose` came between the `connect` that started it and the reply;
   otherwise it is disconnected, once.
   */
  lemma ReplyInstalledIff(steps: seq<Step>, p: nat, c: nat, q: nat, g: nat)
    requires Runs(INITIAL, steps) && p < q < |steps| && Starts(steps, p, c) && steps[q] == ConnectReturns(c, g)
    ensures At(steps, q + 1).generation == Some(g) <==> Undisturbed(steps, p, q)
    ensures At(steps, q + 1).connected <==> Undisturbed(steps, p, q)
    ensures At(steps, q + 1).ledger.disconnects[g] == if Undisturbed(steps, p, q) then 0 else 1
  {
    AtNext(steps, q);
    AttemptCurrentIff(steps, p, c, q);
    ReplyFacts(At(steps, q), c, g);
  }

  lemma NewAttempt(s: State, step: Step, c: nat)
    requires Enabled(s, step) && c !in s.calls && c in Apply(s, step).calls
    ensures step == Connect
  {
  }

  /** Every reply answers an attempt that some earlier `connect` started. */
  lemma {:induction false} AttemptHasStart(steps: seq<Step>, n: nat, c: nat) returns (p: nat)
    requires Runs(INITIAL, steps) && n <= |steps| && c in At(steps, n).calls
    ensures p < n && Starts(steps, p, c)
    decreases n
  {
    assert n > 0 by { assert steps[..0] == []; }
    if c in At(steps, n - 1).calls {
      p := AttemptHasStart(steps, n - 1, c);
    } else {
      p := n - 1;
      AtNext(steps, p);
      NewAttempt(At(steps, p), steps[p], c);
    }
  }

  // ----- generations -----

  /** A step that takes generation `g` away while it is installed. */
  predicate Takes(step: Step, g: nat) {
    Ends(step) || step == DisconnectEvent(true, g) || step == SendFails(g)
  }

  predicate Untaken(steps: seq<Step>, q: nat, n: nat, g: nat) {
    forall i :: q <= i < n && i < |steps| ==> !Takes(steps[i], g)
  }

  lemma StepGeneration(s: State, step: Step, g: nat)
    requires Enabled(s, step) && s.generation == Some(g) && (s.disposed ==> step != Dispose) && !step.ConnectReturns?
    ensures Apply(s, step).generation == if Takes(step, g) then None else Some(g)
    ensures Apply(s, step).ledger.disconnects[g] == s.ledger.disconnects[g] + if Ends(step) then 1 else 0
  {
  }

  /** One step leaves an installed generation alone, or takes it away and says so. */
  lemma StepOnInstalled(s: State, step: Step, g: nat)
    requires Inv(s) && Enabled(s, step) && s.generation == Some(g)
    ensures var t := Apply(s, step);
            && t.generation == (if Takes(step, g) then None else Some(g))
            && t.ledger.disconnects[g] == (if Ends(step) then 1 else 0)
            && t.ledger.notified[g] == (if Takes(step, g) && !Ends(step) then 1 else 0)
  {
    assert AccountedOnce(s, g);
    NoReplyAwaited(s);
    StepGeneration(s, step, g);
    StepReturned(s, step, g);
    StepKeepsAccounts(s, step, g);
  }

  lemma StepReturned(s: State, step: Step, g: nat)
    requires Enabled(s, step) && g in s.ledger.returned
    ensures g in Apply(s, step).ledger.returned
  {
  }

  lemma {:induction false} InstalledUntilTaken(steps: seq<Step>, q: nat, n: nat, g: nat)
    requires Runs(INITIAL, steps) && q <= n <= |steps| && At(steps, q).generation == Some(g) && Untaken(steps, q, n, g)
    ensures At(steps, n).generation == Some(g)
    decreases n
  {
    if q < n {
      InstalledUntilTaken(steps, q, n - 1, g);
      AtNext(steps, n - 1);
      StepOnInstalled(At(steps, n - 1), steps[n - 1], g);
    }
  }

  lemma {:induction false} ReleasedStays(steps: seq<Step>, n: nat, m: nat, g: nat)
    requires Runs(INITIAL, steps) && n <= m <= |steps|
    requires At(steps, n).ledger.disconnects[g] > 0 || At(steps, n).ledger.notified[g] > 0
    ensures At(steps, m).ledger.disconnects[g] == At(steps, n).ledger.disconnects[g]
    ensures At(steps, m).ledger.notified[g] == At(steps, n).ledger.notified[g]
    decreases m
  {
    if n < m {
      ReleasedStays(steps, n, m - 1, g);
      AtNext(steps, m - 1);
      StepKeepsReleased(At(steps, m - 1), steps[m - 1], g);
    }
  }

  /**
   The first step that takes an installed generation away decides its fate for
   good: `close` and `dispose` disconnect it, a native disconnect or a failed
   send on it reports it lost. Until then it stays installed.
   */
  lemma FateOfGeneration(steps: seq<Step>, q: nat, n: nat, m: nat, g: nat)
    requires Runs(INITIAL, steps) && q <= n < m <= |steps| && At(steps, q).generation == Some(g)
    requires Untaken(steps, q, n, g) && Takes(steps[n], g)
    ensures At(steps, n).generation == Some(g) && At(steps, n + 1).generation == None
    ensures At(steps, m).ledger.disconnects[g] == if Ends(steps[n]) then 1 else 0
    ensures At(steps, m).ledger.notified[g] == if Ends(steps[n]) then 0 else 1
  {
    InstalledUntilTaken(steps, q, n, g);
    AtNext(steps, n);
    StepOnInstalled(At(steps, n), steps[n], g);
    ReleasedStays(steps, n + 1, m, g);
  }

  // ----- attempts that end -----

  /** An attempt that failed, was released or was installed can finish, and then another may start. */
  lemma AttemptFinishes(steps: seq<Step>, q: nat, c: nat)
    requires Runs(INITIAL, steps) && q < |steps|
    ensures steps[q] == ConnectFails(c) || steps[q] == ReleaseDone(c) ==> Enabled(At(steps, q + 1), Finally(c))
    ensures steps[q].ConnectReturns? && steps[q].call == c && At(steps, q + 1).generation == Some(steps[q].generation) ==>
            Enabled(At(steps, q + 1), Finally(c))
    ensures steps[q] == Finally(c) ==> At(steps, q + 1).calls == map[] && At(steps, q + 1).connecting == None
  {
    AtNext(steps, q);
    var s := At(steps, q);
    forall d | d in s.calls ensures s.connecting == Some(d) { assert CallFits(s, d); }
    if steps[q].ConnectReturns? { assert CallFits(s, steps[q].call); }
    if steps[q] == Finally(c) { assert At(steps, q + 1).calls.Keys == {}; }
  }

  // ----- sends and messages -----

  /** How many of the first `n` steps are sends on generation `g`. */
  ghost function SendsOn(steps: seq<Step>, n: nat, g: nat): nat
    requires Runs(INITIAL, steps) && n <= |steps|
    decreases n
  {
    if n == 0 then 0
    else SendsOn(steps, n - 1, g) + if steps[n - 1] == Send && At(steps, n - 1).generation == Some(g) then 1 else 0
  }

  /** How many of them finish one, well or badly. */
  function SendsEnded(steps: seq<Step>, n: nat, g: nat): nat
    requires n <= |steps|
    decreases n
  {
    if n == 0 then 0
    else SendsEnded(steps, n - 1, g) + if steps[n - 1] == SendDone(g) || steps[n - 1] == SendFails(g) then 1 else 0
  }

  lemma StepSends(s: State, step: Step, g: nat)
    requires Inv(s) && Enabled(s, step)
    ensures Apply(s, step).sends[g] + (if step == SendDone(g) || step == SendFails(g) then 1 else 0) ==
            s.sends[g] + if step == Send && s.generation == Some(g) then 1 else 0
  {
  }

  /** A send is in flight on the generation that was installed, until it is done or fails. */
  lemma {:induction false} SendsInFlight(steps: seq<Step>, n: nat, g: nat)
    requires Runs(INITIAL, steps) && n <= |steps|
    ensures At(steps, n).sends[g] + SendsEnded(steps, n, g) == SendsOn(steps, n, g)
    decreases n
  {
    if n == 0 {
      assert steps[..0] == [];
    } else {
      SendsInFlight(steps, n - 1, g);
      AtNext(steps, n - 1);
      StepSends(At(steps, n - 1), steps[n - 1], g);
    }
  }

  /** The generations of the messages for this connection that came while they were installed. */
  ghost function MessagesFor(steps: seq<Step>, n: nat): seq<nat>
    requires Runs(INITIAL, steps) && n <= |steps|
    decreases n
  {
    if n == 0 then []
    else
      MessagesFor(steps, n - 1) +
      if steps[n - 1].MessageEvent? && steps[n - 1].own && At(steps, n - 1).generation == Some(steps[n - 1].generation)
      then [steps[n - 1].generation] else []
  }

  lemma StepDelivers(s: State, step: Step)
    requires Enabled(s, step)
    ensures Apply(s, step).ledger.delivered ==
            s.ledger.delivered +
            if step.MessageEvent? && step.own && s.generation == Some(step.generation) then [step.generation] else []
  {
  }

  /** Exactly those are delivered, in order. */
  lemma {:induction false} DeliveredExactly(steps: seq<Step>, n: nat)
    requires Runs(INITIAL, steps) && n <= |steps|
    ensures At(steps, n).ledger.delivered == MessagesFor(steps, n)
    decreases n
  {
    if n == 0 {
      assert steps[..0] == [];
    } else {
      DeliveredExactly(steps, n - 1);
      AtNext(steps, n - 1);
      StepDelivers(At(steps, n - 1), steps[n - 1]);
    }
  }
}
