/**
 The lease an Extension App surface holds while its App is open. Open requests
 suspend; the effect's setup and cleanup and the Close button may run meanwhile,
 each taking a new generation.
 */
module AppLeaseModel {
  import opened Sequences

  datatype State = State(
    generation: nat,
    lease: Option<nat>,
    shown: bool,
    opening: bool,
    calls: map<nat, nat>,
    nextCall: nat,
    granted: set<nat>,
    closes: multiset<nat>)

  const INITIAL := State(0, None, false, false, map[], 0, {}, multiset{})

  datatype Step =
    | EffectRuns
    | EffectCleansUp
    | Open
    | Granted(call: nat, lease: nat)
    | OpenFails(call: nat)
    | Close

  /** Open is offered when nothing is shown as opened, Close when something is; leases are fresh. */
  predicate Enabled(s: State, step: Step) {
    match step
    case Open => !s.shown
    case Close => s.shown
    case Granted(c, l) => c in s.calls && l !in s.granted
    case OpenFails(c) => c in s.calls
    case _ => true
  }

  /** An open request of the current generation is in flight. */
  predicate Awaiting(s: State) {
    s.generation in s.calls.Values
  }

  function Bumped(s: State): State {
    s.(generation := s.generation + 1)
  }

  /** Gives the held lease up and asks the Gateway to close it. */
  function Surrendered(s: State): State {
    if s.lease.None? then s else s.(lease := None, closes := s.closes + multiset{s.lease.value})
  }

  function AfterGrant(s: State, c: nat, l: nat): State
    requires c in s.calls
  {
    var t := s.(calls := s.calls - {c}, granted := s.granted + {l});
    if s.calls[c] != s.generation then t.(closes := t.closes + multiset{l})
    else t.(lease := Some(l), shown := true, opening := false)
  }

  function AfterFailure(s: State, c: nat): State
    requires c in s.calls
  {
    s.(calls := s.calls - {c}, opening := if s.calls[c] == s.generation then false else s.opening)
  }

  function AfterOpen(s: State): State {
    s.(generation := s.generation + 1, opening := true,
       calls := s.calls[s.nextCall := s.generation + 1], nextCall := s.nextCall + 1)
  }

  function Apply(s: State, step: Step): State
    requires Enabled(s, step)
  {
    match step
    case EffectRuns => Bumped(s)
    case EffectCleansUp => Surrendered(Bumped(s))
    case Open => AfterOpen(s)
    case Granted(c, l) => AfterGrant(s, c, l)
    case OpenFails(c) => AfterFailure(s, c)
    case Close => Surrendered(Bumped(s)).(shown := false)
  }

  // ----- what every step keeps -----

  /** A granted lease is held, or exactly one close request was issued for it. */
  ghost predicate AccountedOnce(s: State, l: nat) {
    s.closes[l] + (if s.lease == Some(l) then 1 else 0) == if l in s.granted then 1 else 0
  }

  ghost predicate CallFits(s: State, c: nat)
    requires c in s.calls
  {
    && c < s.nextCall && s.calls[c] <= s.generation
    && (s.calls[c] == s.generation ==> s.lease == None && !s.shown)
  }

  ghost predicate Inv(s: State) {
    && (s.lease.Some? ==> s.shown)
    && (forall l :: AccountedOnce(s, l))
    && (forall c :: c in s.calls ==> CallFits(s, c))
    && (forall c, d :: c in s.calls && d in s.calls && c != d ==> s.calls[c] != s.calls[d])
  }

  lemma StepKeepsInv(s: State, step: Step)
    requires Inv(s) && Enabled(s, step)
    ensures Inv(Apply(s, step))
  {
    var t := Apply(s, step);
    forall l ensures AccountedOnce(t, l) {
      assert AccountedOnce(s, l);
      if step.Granted? { assert CallFits(s, step.call) && AccountedOnce(s, step.lease); }
    }
    forall c | c in t.calls ensures CallFits(t, c) {
      if c in s.calls { assert CallFits(s, c); }
    }
    forall c, d | c in t.calls && d in t.calls && c != d ensures t.calls[c] != t.calls[d] {
      if c in s.calls { assert CallFits(s, c); }
      if d in s.calls { assert CallFits(s, d); }
    }
  }

  // ----- whole runs -----

  ghost predicate Runs(s: State, steps: seq<Step>)
    decreases |steps|
  {
    steps == [] || (Enabled(s, steps[0]) && Runs(Apply(s, steps[0]), steps[1..]))
  }

  ghost function After(s: State, steps: seq<Step>): State
    requires Runs(s, steps)
    decreases |steps|
  {
    if steps == [] then s else After(Apply(s, steps[0]), steps[1..])
  }

  lemma {:induction false} RunKeepsInv(s: State, steps: seq<Step>)
    requires Inv(s) && Runs(s, steps)
    ensures Inv(After(s, steps))
    decreases |steps|
  {
    if steps != [] {
      StepKeepsInv(s, steps[0]);
      RunKeepsInv(Apply(s, steps[0]), steps[1..]);
    }
  }

  /**
   In every interleaving each granted lease is either the one held or has had
   exactly one close request issued, and none was issued for anything else.
   */
  lemma EveryLeaseClosedOnce(steps: seq<Step>, l: nat)
    requires Runs(INITIAL, steps)
    ensures var s := After(INITIAL, steps);
            && (l in s.granted ==> s.closes[l] == if s.lease == Some(l) then 0 else 1)
            && (l !in s.granted ==> s.closes[l] == 0 && s.lease != Some(l))
  {
    RunKeepsInv(INITIAL, steps);
    assert AccountedOnce(After(INITIAL, steps), l);
  }

  /** No step replaces a held lease by another. */
  lemma HeldNeverOverwritten(steps: seq<Step>, step: Step)
    requires Runs(INITIAL, steps) && Enabled(After(INITIAL, steps), step)
    requires After(INITIAL, steps).lease.Some?
    ensures var s := After(INITIAL, steps); Apply(s, step).lease == s.lease || Apply(s, step).lease == None
  {
    RunKeepsInv(INITIAL, steps);
    if step.Granted? { assert CallFits(After(INITIAL, steps), step.call); }
  }

  // ----- the Opening indicator -----

  /** The buttons as rendered: Open is also disabled while `opening` is shown. */
  predicate Offered(s: State, step: Step) {
    Enabled(s, step) && (step.Open? ==> !s.opening)
  }

  ghost predicate OfferedRun(s: State, steps: seq<Step>)
    decreases |steps|
  {
    steps == [] || (Offered(s, steps[0]) && OfferedRun(Apply(s, steps[0]), steps[1..]))
  }

  /** An effect runs or cleans up while an open request of the current generation is in flight. */
  predicate Overtakes(s: State, step: Step) {
    (step.EffectRuns? || step.EffectCleansUp?) && Awaiting(s)
  }

  /** The indicator, given whether an open request has been overtaken. */
  ghost predicate IndicatorFits(s: State, overtaken: bool) {
    && (s.opening <==> Awaiting(s) || overtaken)
    && !(Awaiting(s) && overtaken)
  }

  lemma {:induction false} IndicatorStep(s: State, step: Step, overtaken: bool)
    requires Inv(s) && IndicatorFits(s, overtaken) && Offered(s, step)
    ensures IndicatorFits(Apply(s, step), overtaken || Overtakes(s, step))
  {
    var t := Apply(s, step);
    forall c | c in s.calls ensures CallFits(s, c) { }
    match step
    case EffectRuns => NoneAhead(s);
    case EffectCleansUp => NoneAhead(s);
    case Close => NoneAhead(s);
    case Open =>
      assert t.calls[s.nextCall] == t.generation;
      assert t.generation in t.calls.Values;
    case Granted(c, _) => RemovedCall(s, c);
    case OpenFails(c) => RemovedCall(s, c);
  }

  lemma NoneAhead(s: State)
    requires Inv(s)
    ensures s.generation + 1 !in s.calls.Values
  {
    forall c | c in s.calls ensures s.calls[c] != s.generation + 1 { assert CallFits(s, c); }
  }

  lemma RemovedCall(s: State, c: nat)
    requires Inv(s) && c in s.calls
    ensures s.generation in (s.calls - {c}).Values <==> Awaiting(s) && s.calls[c] != s.generation
  {
    var rest := s.calls - {c};
    if s.generation in rest.Values {
      var d :| d in rest && rest[d] == s.generation;
      assert s.calls[d] == s.generation;
    }
    if Awaiting(s) && s.calls[c] != s.generation {
      var d :| d in s.calls && s.calls[d] == s.generation;
      assert d in rest && rest[d] == s.generation;
    }
  }

  /** Step `i` of a run overtakes an open request. */
  ghost predicate OvertakesAt(s: State, steps: seq<Step>, i: nat) {
    i < |steps| && Runs(s, steps[..i]) && Overtakes(After(s, steps[..i]), steps[i])
  }

  lemma OvertakesLater(s: State, steps: seq<Step>, i: nat)
    requires steps != [] && Enabled(s, steps[0])
    ensures OvertakesAt(s, steps, 0) <==> Overtakes(s, steps[0])
    ensures OvertakesAt(s, steps, i + 1) <==> OvertakesAt(Apply(s, steps[0]), steps[1..], i)
  {
    assert steps[..0] == [];
    if i + 1 < |steps| {
      assert steps[..i + 1][0] == steps[0] && steps[..i + 1][1..] == steps[1..][..i];
    }
  }

  lemma {:induction false} IndicatorRun(s: State, steps: seq<Step>, overtaken: bool)
    requires Inv(s) && IndicatorFits(s, overtaken) && OfferedRun(s, steps)
    ensures Runs(s, steps)
    ensures IndicatorFits(After(s, steps), overtaken || exists i :: OvertakesAt(s, steps, i))
    decreases |steps|
  {
    if steps != [] {
      var next, rest := Apply(s, steps[0]), steps[1..];
      StepKeepsInv(s, steps[0]);
      IndicatorStep(s, steps[0], overtaken);
      IndicatorRun(next, rest, overtaken || Overtakes(s, steps[0]));
      OvertakesLater(s, steps, 0);
      if i :| OvertakesAt(next, rest, i) {
        OvertakesLater(s, steps, i);
      }
      if i: nat :| i > 0 && OvertakesAt(s, steps, i) {
        OvertakesLater(s, steps, i - 1);
      }
    }
  }

  /**
   Used through its buttons, the surface shows Opening exactly while an open
   request of the current generation is in flight, or if at some earlier step
   an effect ran or cleaned up while one was.
   */
  lemma OpeningShownExactly(steps: seq<Step>)
    requires OfferedRun(INITIAL, steps)
    ensures Runs(INITIAL, steps)
    ensures var t := After(INITIAL, steps);
            t.opening <==> Awaiting(t) || exists i :: OvertakesAt(INITIAL, steps, i)
  {
    IndicatorRun(INITIAL, steps, false);
  }

  /** So Opening can stay on with no request left: an effect cleanup overtakes the only open request. */
  lemma OpeningCanStick()
    ensures var steps := [Open, EffectCleansUp, Granted(0, 7)];
            OfferedRun(INITIAL, steps) && Runs(INITIAL, steps)
            && var s := After(INITIAL, steps); s.opening && s.calls == map[] && !s.shown && s.closes == multiset{7}
  {
    var s1 := Apply(INITIAL, Open);
    var s2 := Apply(s1, EffectCleansUp);
    var s3 := Apply(s2, Granted(0, 7));
    assert OfferedRun(s3, []) && Runs(s3, []) && After(s3, []) == s3;
    assert [Granted(0, 7)][1..] == [];
    assert OfferedRun(s2, [Granted(0, 7)]) && Runs(s2, [Granted(0, 7)]) && After(s2, [Granted(0, 7)]) == s3;
    assert [EffectCleansUp, Granted(0, 7)][1..] == [Granted(0, 7)];
    assert OfferedRun(s1, [EffectCleansUp, Granted(0, 7)]) && Runs(s1, [EffectCleansUp, Granted(0, 7)]);
    assert After(s1, [EffectCleansUp, Granted(0, 7)]) == s3;
    assert [Open, EffectCleansUp, Granted(0, 7)][1..] == [EffectCleansUp, Granted(0, 7)];
    assert s3.calls == map[];
  }
}
