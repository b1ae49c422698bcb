/**
 The composer's readiness boundary as a transition system: readiness tokens
 that settle, and submissions suspended on them until they do.
 */
module CoordinatorModel {
  import opened Sequences

  datatype Kind = DraftOpen | DraftPrepare

  datatype Token = Token(epoch: nat, id: nat)

  datatype Readiness = Readiness(id: nat, epoch: nat, kind: Kind, settled: bool)

  /**
   A finished `waitToSubmit`: the readiness open when it was called, if any,
   whether it was called with that readiness's epoch, and what it returned.
   */
  datatype Answer = Answer(during: Option<nat>, own: bool, ready: bool)

  datatype State = State(
    nextId: nat,
    active: Option<Readiness>,
    pendingSubmission: Option<nat>,
    waiters: map<nat, nat>,
    nextWaiter: nat,
    outcomes: map<nat, seq<bool>>,
    answers: seq<Answer>)

  const INITIAL := State(0, None, None, map[], 0, map[], [])

  datatype Step =
    | Begin(epoch: nat, kind: Kind)
    | Settle(token: Token, ready: bool)
    | Cancel
    | Wait(epoch: nat, inputCurrent: bool)
    | Resume(waiter: nat, inputCurrent: bool)

  /** The promise of readiness `id` is still open. */
  predicate Unsettled(s: State, id: nat) {
    id in s.outcomes && s.outcomes[id] == []
  }

  /** A suspended call continues only once its promise has settled. */
  predicate Enabled(s: State, step: Step) {
    step.Resume? ==>
      && step.waiter in s.waiters
      && s.waiters[step.waiter] in s.outcomes
      && !Unsettled(s, s.waiters[step.waiter])
  }

  /** `isReadinessPending(epoch)`. */
  predicate Pending(s: State, epoch: nat) {
    s.active.Some? && s.active.value.epoch == epoch && !s.active.value.settled
  }

  /** The readiness whose promise is open. */
  function Open(s: State): Option<nat> {
    if s.active.Some? && !s.active.value.settled then Some(s.active.value.id) else None
  }

  function SettlePromise(s: State, id: nat, ready: bool): map<nat, seq<bool>> {
    s.outcomes[id := (if id in s.outcomes then s.outcomes[id] else []) + [ready]]
  }

  function AfterCancel(s: State): State {
    if s.active.None? || s.active.value.settled then s.(active := None)
    else s.(active := None, outcomes := SettlePromise(s, s.active.value.id, false))
  }

  function AfterBegin(s: State, epoch: nat, kind: Kind): State {
    var c := AfterCancel(s);
    c.(nextId := c.nextId + 1,
       active := Some(Readiness(c.nextId + 1, epoch, kind, false)),
       outcomes := c.outcomes[c.nextId + 1 := []])
  }

  function AfterSettle(s: State, token: Token, ready: bool): State {
    if s.active.None? || s.active.value.id != token.id || s.active.value.epoch != token.epoch || s.active.value.settled then s
    else s.(active := Some(s.active.value.(settled := true)), outcomes := SettlePromise(s, token.id, ready))
  }

  function AfterWait(s: State, epoch: nat, inputCurrent: bool): State {
    if !Pending(s, epoch) then s.(answers := s.answers + [Answer(Open(s), false, inputCurrent)])
    else if s.pendingSubmission.Some? then s.(answers := s.answers + [Answer(Some(s.active.value.id), true, false)])
    else s.(pendingSubmission := Some(s.active.value.id),
            waiters := s.waiters[s.nextWaiter := s.active.value.id],
            nextWaiter := s.nextWaiter + 1)
  }

  function AfterResume(s: State, waiter: nat, inputCurrent: bool): State
    requires Enabled(s, Resume(waiter, inputCurrent))
  {
    var id := s.waiters[waiter];
    s.(waiters := s.waiters - {waiter},
       pendingSubmission := if s.pendingSubmission == Some(id) then None else s.pendingSubmission,
       answers := s.answers + [Answer(Some(id), true, s.outcomes[id][0] && inputCurrent)])
  }

  function Apply(s: State, step: Step): State
    requires Enabled(s, step)
  {
    match step
    case Begin(epoch, kind) => AfterBegin(s, epoch, kind)
    case Settle(token, ready) => AfterSettle(s, token, ready)
    case Cancel => AfterCancel(s)
    case Wait(epoch, inputCurrent) => AfterWait(s, epoch, inputCurrent)
    case Resume(waiter, inputCurrent) => AfterResume(s, waiter, inputCurrent)
  }

  // ----- what every step keeps -----

  /** How many calls made in the epoch of readiness `id`, while it was open, returned true. */
  function Admitted(answers: seq<Answer>, id: nat): nat {
    if answers == [] then 0
    else
      Admitted(answers[..|answers| - 1], id)
      + if answers[|answers| - 1] == Answer(Some(id), true, true) then 1 else 0
  }

  /** How many calls made while readiness `id` was open returned true, whatever their epoch. */
  function AdmittedDuring(answers: seq<Answer>, id: nat): nat {
    if answers == [] then 0
    else
      var last := answers[|answers| - 1];
      AdmittedDuring(answers[..|answers| - 1], id) + if last.during == Some(id) && last.ready then 1 else 0
  }

  /** A readiness settles at most once, and is open exactly while it is the active, unsettled one. */
  ghost predicate PromiseFits(s: State, id: nat) {
    && (id in s.outcomes <==> 1 <= id <= s.nextId)
    && (id in s.outcomes ==> |s.outcomes[id]| <= 1)
    && (Unsettled(s, id) <==> s.active.Some? && s.active.value.id == id && !s.active.value.settled)
  }

  /** At most one gated call was admitted, none before its readiness settled ready, none while one is suspended. */
  ghost predicate AdmissionFits(s: State, id: nat) {
    && (Admitted(s.answers, id) == 0 || (Admitted(s.answers, id) == 1 && id in s.outcomes && s.outcomes[id] == [true]))
    && (forall w :: w in s.waiters && s.waiters[w] == id ==> Admitted(s.answers, id) == 0)
  }

  /** The submission slot names the readiness of the one suspended call. */
  ghost predicate WaiterFits(s: State, w: nat)
    requires w in s.waiters
  {
    w < s.nextWaiter && s.pendingSubmission == Some(s.waiters[w]) && s.waiters[w] in s.outcomes
  }

  ghost predicate Inv(s: State) {
    && (forall id :: PromiseFits(s, id))
    && (forall id :: AdmissionFits(s, id))
    && (forall w :: w in s.waiters ==> WaiterFits(s, w))
    && |s.waiters| == (if s.pendingSubmission.Some? then 1 else 0)
    && (s.active.Some? ==> s.active.value.id == s.nextId >= 1)
  }

  lemma AdmittedPush(answers: seq<Answer>, a: Answer, id: nat)
    ensures Admitted(answers + [a], id) == Admitted(answers, id) + if a == Answer(Some(id), true, true) then 1 else 0
    ensures AdmittedDuring(answers + [a], id) ==
            AdmittedDuring(answers, id) + if a.during == Some(id) && a.ready then 1 else 0
  {
    assert (answers + [a])[..|answers|] == answers;
  }

  lemma StepKeepsPromises(s: State, step: Step, id: nat)
    requires PromiseFits(s, id) && Enabled(s, step)
    ensures PromiseFits(Apply(s, step), id)
  {
  }

  /** Steps that finish no call: a promise already settled keeps its outcome. */
  lemma OutcomesKeepAdmission(s: State, step: Step, id: nat)
    requires PromiseFits(s, id) && AdmissionFits(s, id) && (step.Begin? || step.Settle? || step.Cancel?)
    ensures AdmissionFits(Apply(s, step), id)
  {
    if s.active.Some? && s.active.value.id == id {
      assert !s.active.value.settled ==> s.outcomes[id] == [];
    }
  }

  lemma WaitKeepsAdmission(s: State, epoch: nat, inputCurrent: bool, id: nat)
    requires Inv(s)
    ensures AdmissionFits(AfterWait(s, epoch, inputCurrent), id)
  {
    assert AdmissionFits(s, id);
    AdmittedPush(s.answers, Answer(Open(s), false, inputCurrent), id);
    if Pending(s, epoch) {
      var gate := s.active.value.id;
      assert PromiseFits(s, gate) && AdmissionFits(s, gate);
      AdmittedPush(s.answers, Answer(Some(gate), true, false), id);
    }
  }

  /** Answering the suspended call leaves every other readiness alone. */
  lemma ResumeKeepsOthers(s: State, waiter: nat, inputCurrent: bool, id: nat)
    requires Inv(s) && Enabled(s, Resume(waiter, inputCurrent)) && id != s.waiters[waiter]
    ensures AdmissionFits(AfterResume(s, waiter, inputCurrent), id)
  {
    var gate := s.waiters[waiter];
    assert AdmissionFits(s, id);
    AdmittedPush(s.answers, Answer(Some(gate), true, s.outcomes[gate][0] && inputCurrent), id);
  }

  /** Its own readiness had admitted none, and is settled. */
  lemma ResumeKeepsOwn(s: State, waiter: nat, inputCurrent: bool)
    requires Inv(s) && Enabled(s, Resume(waiter, inputCurrent))
    ensures AdmissionFits(AfterResume(s, waiter, inputCurrent), s.waiters[waiter])
  {
    var gate := s.waiters[waiter];
    var ready := s.outcomes[gate][0];
    assert PromiseFits(s, gate) && AdmissionFits(s, gate);
    assert ready ==> s.outcomes[gate] == [true];
    AdmittedPush(s.answers, Answer(Some(gate), true, ready && inputCurrent), gate);
    OneWaiter(s, waiter);
    assert (s.waiters - {waiter}).Keys == {};
  }

  /** What a resumed call returns, and that it is the first its readiness admits. */
  lemma ResumeAnswers(s: State, waiter: nat, inputCurrent: bool)
    requires Inv(s) && Enabled(s, Resume(waiter, inputCurrent))
    ensures var id := s.waiters[waiter];
            && (s.outcomes[id][0] <==> s.outcomes[id] == [true])
            && s.pendingSubmission == Some(id) && Admitted(s.answers, id) == 0
            && Admitted(AfterResume(s, waiter, inputCurrent).answers, id) == if s.outcomes[id] == [true] && inputCurrent then 1 else 0
  {
    var id := s.waiters[waiter];
    assert PromiseFits(s, id) && AdmissionFits(s, id) && WaiterFits(s, waiter);
    AdmittedPush(s.answers, Answer(Some(id), true, s.outcomes[id][0] && inputCurrent), id);
  }

  lemma ResumeKeepsAdmission(s: State, waiter: nat, inputCurrent: bool, id: nat)
    requires Inv(s) && Enabled(s, Resume(waiter, inputCurrent))
    ensures AdmissionFits(AfterResume(s, waiter, inputCurrent), id)
  {
    if id == s.waiters[waiter] {
      ResumeKeepsOwn(s, waiter, inputCurrent);
    } else {
      ResumeKeepsOthers(s, waiter, inputCurrent, id);
    }
  }

  lemma StepKeepsAdmissions(s: State, step: Step, id: nat)
    requires Inv(s) && Enabled(s, step)
    ensures AdmissionFits(Apply(s, step), id)
  {
    if step.Wait? {
      WaitKeepsAdmission(s, step.epoch, step.inputCurrent, id);
    } else if step.Resume? {
      ResumeKeepsAdmission(s, step.waiter, step.inputCurrent, id);
    } else {
      assert PromiseFits(s, id) && AdmissionFits(s, id);
      OutcomesKeepAdmission(s, step, id);
    }
  }

  /** The suspended call is the only one. */
  lemma OneWaiter(s: State, w: nat)
    requires Inv(s) && w in s.waiters
    ensures s.waiters.Keys == {w}
  {
    assert WaiterFits(s, w);
    assert |s.waiters.Keys| == 1;
    var rest := s.waiters.Keys - {w};
    assert |rest| == 0;
  }

  lemma StepKeepsWaiters(s: State, step: Step)
    requires Inv(s) && Enabled(s, step)
    ensures var t := Apply(s, step);
            && (forall w :: w in t.waiters ==> WaiterFits(t, w))
            && |t.waiters| == (if t.pendingSubmission.Some? then 1 else 0)
            && (t.active.Some? ==> t.active.value.id == t.nextId >= 1)
  {
    var t := Apply(s, step);
    forall w | w in t.waiters && w in s.waiters ensures WaiterFits(s, w) { }
    if step.Wait? && Pending(s, step.epoch) && s.pendingSubmission.None? {
      assert PromiseFits(s, s.active.value.id);
      assert s.waiters.Keys == {};
      assert t.waiters.Keys == {s.nextWaiter};
    } else if step.Resume? {
      OneWaiter(s, step.waiter);
      assert WaiterFits(s, step.waiter);
      assert t.waiters.Keys == {};
    }
  }

  lemma StepKeepsInv(s: State, step: Step)
    requires Inv(s) && Enabled(s, step)
    ensures Inv(Apply(s, step))
  {
    var t := Apply(s, step);
    forall id ensures PromiseFits(t, id) { StepKeepsPromises(s, step, id); }
    forall id ensures AdmissionFits(t, id) { StepKeepsAdmissions(s, step, id); }
    StepKeepsWaiters(s, step);
  }

  // ----- whole runs -----

  ghost predicate Runs(s: State, steps: seq<Step>)
    decreases |steps|
  {
    steps == [] || (Enabled(s, steps[0]) && Runs(Apply(s, steps[0]), steps[1..]))
  }

  ghost function After(s: State, steps: seq<Step>): State
    requires Runs(s, steps)
    decreases |steps|
  {
    if steps == [] then s else After(Apply(s, steps[0]), steps[1..])
  }

  lemma {:induction false} RunKeepsInv(s: State, steps: seq<Step>)
    requires Inv(s) && Runs(s, steps)
    ensures Inv(After(s, steps))
    decreases |steps|
  {
    if steps != [] {
      StepKeepsInv(s, steps[0]);
      RunKeepsInv(Apply(s, steps[0]), steps[1..]);
    }
  }

  /**
   In every interleaving each readiness settles at most once and only the
   active one can be open; the submission slot is taken exactly while one call
   is suspended.
   */
  lemma ReadinessSettlesOnce(steps: seq<Step>, id: nat)
    requires Runs(INITIAL, steps)
    ensures var s := After(INITIAL, steps);
            && (id in s.outcomes ==> |s.outcomes[id]| <= 1)
            && (Unsettled(s, id) <==> s.active.Some? && s.active.value.id == id && !s.active.value.settled)
            && |s.waiters| == (if s.pendingSubmission.Some? then 1 else 0)
            && (forall w :: w in s.waiters ==> s.pendingSubmission == Some(s.waiters[w]))
  {
    RunKeepsInv(INITIAL, steps);
    var s := After(INITIAL, steps);
    assert PromiseFits(s, id);
    assert forall w :: w in s.waiters ==> WaiterFits(s, w);
  }

  /**
   Of all calls made in a readiness's own epoch while it was open, at most one
   returned true, and only if the readiness settled ready.
   */
  lemma AtMostOneSubmissionAdmitted(steps: seq<Step>, id: nat)
    requires Runs(INITIAL, steps)
    ensures var s := After(INITIAL, steps);
            && Admitted(s.answers, id) <= 1
            && (Admitted(s.answers, id) == 1 ==> id in s.outcomes && s.outcomes[id] == [true])
  {
    RunKeepsInv(INITIAL, steps);
    assert AdmissionFits(After(INITIAL, steps), id);
  }

  /** A call with current input made while readiness `id` is open, but in another epoch. */
  predicate CallsPast(s: State, step: Step, id: nat) {
    step.Wait? && step.inputCurrent && Open(s) == Some(id) && !Pending(s, step.epoch)
  }

  ghost function PastCalls(s: State, steps: seq<Step>, id: nat): nat
    requires Runs(s, steps)
    decreases |steps|
  {
    if steps == [] then 0
    else (if CallsPast(s, steps[0], id) then 1 else 0) + PastCalls(Apply(s, steps[0]), steps[1..], id)
  }

  lemma AdmittedStep(s: State, step: Step, id: nat)
    requires Enabled(s, step)
    ensures var t := Apply(s, step);
            AdmittedDuring(t.answers, id) - Admitted(t.answers, id) ==
            AdmittedDuring(s.answers, id) - Admitted(s.answers, id) + if CallsPast(s, step, id) then 1 else 0
  {
    var t := Apply(s, step);
    if t.answers != s.answers {
      AdmittedPush(s.answers, t.answers[|s.answers|], id);
    }
  }

  lemma {:induction false} PastCallsCounted(s: State, steps: seq<Step>, id: nat)
    requires Runs(s, steps)
    ensures var t := After(s, steps);
            AdmittedDuring(t.answers, id) - Admitted(t.answers, id) ==
            AdmittedDuring(s.answers, id) - Admitted(s.answers, id) + PastCalls(s, steps, id)
    decreases |steps|
  {
    if steps != [] {
      AdmittedStep(s, steps[0], id);
      PastCallsCounted(Apply(s, steps[0]), steps[1..], id);
    }
  }

  /**
   Of all calls made while one readiness was open, those in another epoch with
   current input are admitted at once, and at most one more.
   */
  lemma AdmittedExactly(steps: seq<Step>, id: nat)
    requires Runs(INITIAL, steps)
    ensures var s := After(INITIAL, steps);
            PastCalls(INITIAL, steps, id) <= AdmittedDuring(s.answers, id) <= PastCalls(INITIAL, steps, id) + 1
    ensures AdmittedDuring(After(INITIAL, steps).answers, id) ==
            PastCalls(INITIAL, steps, id) + Admitted(After(INITIAL, steps).answers, id)
  {
    PastCallsCounted(INITIAL, steps, id);
    AtMostOneSubmissionAdmitted(steps, id);
  }

  /** Two calls in another epoch both pass an open readiness. */
  lemma TwoCallsPass()
    ensures var steps := [Begin(1, DraftOpen), Wait(0, true), Wait(0, true)];
            && Runs(INITIAL, steps)
            && var s := After(INITIAL, steps); Unsettled(s, 1) && s.answers == [Answer(Some(1), false, true), Answer(Some(1), false, true)]
  {
    var open := AfterBegin(INITIAL, 1, DraftOpen);
    assert AfterWait(open, 0, true).answers == [Answer(Some(1), false, true)];
  }

  lemma {:induction false} OutcomesStay(s: State, steps: seq<Step>, id: nat)
    requires Runs(s, steps) && id in s.outcomes
    ensures id in After(s, steps).outcomes
    decreases |steps|
  {
    if steps != [] { OutcomesStay(Apply(s, steps[0]), steps[1..], id); }
  }

  lemma StepKeepsOutcome(s: State, step: Step, id: nat)
    requires Inv(s) && Enabled(s, step) && id in s.outcomes && !Unsettled(s, id)
    ensures id in Apply(s, step).outcomes && Apply(s, step).outcomes[id] == s.outcomes[id]
  {
    assert PromiseFits(s, id);
    if s.active.Some? { assert PromiseFits(s, s.active.value.id); }
  }

  /**
   Once a readiness has settled its outcome is final, and its token is stale
   for good: settling it again changes nothing at all.
   */
  lemma {:induction false} StaleTokensChangeNothing(s: State, steps: seq<Step>, token: Token, ready: bool)
    requires Inv(s) && Runs(s, steps) && token.id in s.outcomes && !Unsettled(s, token.id)
    ensures var t := After(s, steps);
            && AfterSettle(t, token, ready) == t
            && token.id in t.outcomes && t.outcomes[token.id] == s.outcomes[token.id]
    decreases |steps|
  {
    if steps == [] {
      assert PromiseFits(s, token.id);
    } else {
      StepKeepsInv(s, steps[0]);
      StepKeepsOutcome(s, steps[0], token.id);
      StaleTokensChangeNothing(Apply(s, steps[0]), steps[1..], token, ready);
    }
  }
}
