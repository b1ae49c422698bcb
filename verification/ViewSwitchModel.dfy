/**
 Overlapping `startNewThread` calls. Each takes a view epoch and a readiness
 token, suspends three times, and may write the shared view only while its
 epoch is current. The composer waits on the same readiness coordinator.
 */
module ViewSwitchModel {
  import opened Sequences
  import C = CoordinatorModel

  /** What `thread/draft/open` returned; values are named by numbers. */
  datatype Reply = Reply(snapshot: nat, workspaceId: Option<nat>, context: nat, target: nat, problem: bool)

  datatype Phase =
    | Opening
    | Refreshing(reply: Reply)
    | Adopting(reply: Reply)
    | Applied(reply: Reply)
    | Dropped

  datatype Call = Call(epoch: nat, token: C.Token, phase: Phase)

  datatype Shown = Blank | Optimistic(epoch: nat) | Loaded(snapshot: nat)

  datatype View = View(snapshot: Shown, draftWorkspaceId: Option<nat>, context: Option<nat>, target: Option<nat>)

  datatype State = State(
    viewEpoch: nat,
    composer: C.State,
    calls: map<nat, Call>,
    nextCall: nat,
    prepared: set<nat>,
    view: View)

  const INITIAL := State(0, C.INITIAL, map[], 0, {}, View(Blank, None, None, None))

  datatype Step =
    | Start
    | OtherSwitch
    | OpenReturns(call: nat, reply: Reply)
    | OpenFails(call: nat)
    | ParseFails(call: nat)
    | BranchRefreshed(call: nat)
    | ScopeAdopted(call: nat)
    | AdoptFails(call: nat)
    | Prepare
    | PrepareSettles(token: C.Token, ready: bool)
    | PrepareFails
    | Submit(inputCurrent: bool)
    | Resume(waiter: nat, inputCurrent: bool)

  predicate Enabled(s: State, step: Step) {
    match step
    case OpenReturns(c, _) => c in s.calls && s.calls[c].phase.Opening?
    case OpenFails(c) => c in s.calls && s.calls[c].phase.Opening?
    case ParseFails(c) => c in s.calls && s.calls[c].phase.Opening?
    case BranchRefreshed(c) => c in s.calls && s.calls[c].phase.Refreshing?
    case ScopeAdopted(c) => c in s.calls && s.calls[c].phase.Adopting?
    case AdoptFails(c) => c in s.calls && s.calls[c].phase.Adopting?
    case PrepareSettles(token, _) => token.id in s.prepared
    case Resume(w, current) => C.Enabled(s.composer, C.Resume(w, current))
    case _ => true
  }

  /** `beginExplicitViewSwitch`. */
  function Switched(s: State): State {
    s.(composer := C.AfterCancel(s.composer), viewEpoch := s.viewEpoch + 1, view := s.view.(draftWorkspaceId := None))
  }

  /** `startNewThread` up to its first await. */
  function AfterStart(s: State): State {
    var t := Switched(s);
    var composer := C.AfterBegin(t.composer, t.viewEpoch, C.DraftOpen);
    t.(composer := composer,
       calls := t.calls[t.nextCall := Call(t.viewEpoch, C.Token(t.viewEpoch, composer.nextId), Opening)],
       nextCall := t.nextCall + 1,
       view := t.view.(snapshot := Optimistic(t.viewEpoch)))
  }

  function SetPhase(s: State, c: nat, phase: Phase): State
    requires c in s.calls
  {
    s.(calls := s.calls[c := s.calls[c].(phase := phase)])
  }

  predicate Current(s: State, c: nat)
    requires c in s.calls
  {
    s.calls[c].epoch == s.viewEpoch
  }

  function AfterRefresh(s: State, c: nat): State
    requires Enabled(s, BranchRefreshed(c))
  {
    var call := s.calls[c];
    if !Current(s, c) then SetPhase(s, c, Dropped)
    else
      SetPhase(s, c, Adopting(call.phase.reply)).(
        view := s.view.(draftWorkspaceId := call.phase.reply.workspaceId))
  }

  function AfterAdopt(s: State, c: nat): State
    requires Enabled(s, ScopeAdopted(c))
  {
    var call := s.calls[c];
    var reply := call.phase.reply;
    if !Current(s, c) then SetPhase(s, c, Dropped)
    else
      SetPhase(s, c, Applied(reply)).(
        view := s.view.(snapshot := Loaded(reply.snapshot), context := Some(reply.context), target := Some(reply.target)),
        composer := C.AfterSettle(s.composer, call.token, !reply.problem))
  }

  function Apply(s: State, step: Step): State
    requires Enabled(s, step)
  {
    match step
    case Start => AfterStart(s)
    case OtherSwitch => Switched(s)
    case OpenReturns(c, reply) => SetPhase(s, c, if Current(s, c) then Refreshing(reply) else Dropped)
    case OpenFails(c) => SetPhase(s, c, Dropped).(composer := C.AfterSettle(s.composer, s.calls[c].token, false))
    case ParseFails(c) => SetPhase(s, c, Dropped)
    case BranchRefreshed(c) => AfterRefresh(s, c)
    case ScopeAdopted(c) => AfterAdopt(s, c)
    case AdoptFails(c) => SetPhase(s, c, Dropped)
    case Prepare =>
      var composer := C.AfterBegin(s.composer, s.viewEpoch, C.DraftPrepare);
      s.(composer := composer, prepared := s.prepared + {composer.nextId})
    case PrepareSettles(token, ready) => s.(composer := C.AfterSettle(s.composer, token, ready))
    case PrepareFails => s.(composer := C.AfterCancel(s.composer))
    case Submit(current) => s.(composer := C.AfterWait(s.composer, s.viewEpoch, current))
    case Resume(w, current) => s.(composer := C.AfterResume(s.composer, w, current))
  }

  // ----- what composer moves do to one readiness -----

  lemma CancelEffect(k: C.State, id: nat)
    requires C.Inv(k)
    ensures C.Inv(C.AfterCancel(k)) && C.AfterCancel(k).active == None && C.AfterCancel(k).nextId == k.nextId
    ensures id in C.AfterCancel(k).outcomes <==> id in k.outcomes
    ensures id in k.outcomes ==> C.AfterCancel(k).outcomes[id] == if C.Unsettled(k, id) then [false] else k.outcomes[id]
  {
    C.StepKeepsInv(k, C.Cancel);
    assert C.PromiseFits(k, id);
    if k.active.Some? { assert C.PromiseFits(k, k.active.value.id); }
  }

  lemma BeginEffect(k: C.State, epoch: nat, kind: C.Kind, id: nat)
    requires C.Inv(k)
    ensures var t := C.AfterBegin(k, epoch, kind);
            && C.Inv(t) && t.nextId == k.nextId + 1 && C.Unsettled(t, t.nextId) && t.nextId !in k.outcomes
            && (id in t.outcomes <==> id in k.outcomes || id == t.nextId)
            && (id in k.outcomes ==> t.outcomes[id] == if C.Unsettled(k, id) then [false] else k.outcomes[id])
  {
    C.StepKeepsInv(k, C.Begin(epoch, kind));
    CancelEffect(k, id);
    assert C.PromiseFits(k, k.nextId + 1);
  }

  lemma SettleEffect(k: C.State, token: C.Token, ready: bool, id: nat)
    requires C.Inv(k)
    ensures var t := C.AfterSettle(k, token, ready);
            && C.Inv(t) && t.nextId == k.nextId
            && (id in t.outcomes <==> id in k.outcomes)
            && (id in k.outcomes && token.id != id ==> t.outcomes[id] == k.outcomes[id])
            && (id in k.outcomes && !C.Unsettled(k, id) ==> t.outcomes[id] == k.outcomes[id])
            && (id in k.outcomes ==> t.outcomes[id] == k.outcomes[id] || t.outcomes[id] == [ready])
  {
    C.StepKeepsInv(k, C.Settle(token, ready));
    assert C.PromiseFits(k, id);
    if k.active.Some? { assert C.PromiseFits(k, k.active.value.id); }
  }

  // ----- what every step keeps -----

  ghost predicate OwnsView(s: State, call: Call) {
    match call.phase
    case Applied(reply) => s.view == View(Loaded(reply.snapshot), reply.workspaceId, Some(reply.context), Some(reply.target))
    case Adopting(reply) => s.view.snapshot == Optimistic(call.epoch) && s.view.draftWorkspaceId == reply.workspaceId
    case _ => s.view.snapshot == Optimistic(call.epoch)
  }

  /** What holds of one call: its token settles ready only by applying, and is settled once superseded. */
  ghost predicate CallFits(s: State, c: nat)
    requires c in s.calls
  {
    var call := s.calls[c];
    && c < s.nextCall && call.epoch <= s.viewEpoch && call.token.epoch == call.epoch
    && call.token.id in s.composer.outcomes && call.token.id !in s.prepared
    && (s.composer.outcomes[call.token.id] == [true] ==> call.phase.Applied? && !call.phase.reply.problem)
    && (call.epoch < s.viewEpoch ==> !C.Unsettled(s.composer, call.token.id))
    && (call.epoch == s.viewEpoch ==> OwnsView(s, call))
  }

  ghost predicate Apart(s: State, c: nat, d: nat)
    requires c in s.calls && d in s.calls
  {
    c != d ==> s.calls[c].epoch != s.calls[d].epoch && s.calls[c].token.id != s.calls[d].token.id
  }

  /** An open readiness belongs to the epoch the view is in. */
  ghost predicate OpenIsCurrent(s: State) {
    C.Open(s.composer).Some? ==> s.composer.active.value.epoch == s.viewEpoch
  }

  /** Every submission that met an open readiness was made in its epoch. */
  ghost predicate AnswersOwn(answers: seq<C.Answer>) {
    forall i :: 0 <= i < |answers| && answers[i].during.Some? ==> answers[i].own
  }

  ghost predicate Inv(s: State) {
    && C.Inv(s.composer)
    && (forall c :: c in s.calls ==> CallFits(s, c))
    && (forall c, d :: c in s.calls && d in s.calls ==> Apart(s, c, d))
    && (forall id :: id in s.prepared ==> id in s.composer.outcomes)
    && OpenIsCurrent(s) && AnswersOwn(s.composer.answers)
  }

  /** What a move of the composer alone must keep of one call's token. */
  ghost predicate TokenKept(s: State, t: State, id: nat) {
    && id in s.composer.outcomes && id in t.composer.outcomes
    && (t.composer.outcomes[id] == [true] ==> s.composer.outcomes[id] == [true])
    && (!C.Unsettled(s.composer, id) ==> !C.Unsettled(t.composer, id))
    && (id !in s.prepared ==> id !in t.prepared)
  }

  predicate ComposerOnly(step: Step) {
    step.Prepare? || step.PrepareSettles? || step.PrepareFails? || step.Submit? || step.Resume?
  }

  lemma ComposerKeepsToken(s: State, step: Step, id: nat)
    requires Inv(s) && Enabled(s, step) && ComposerOnly(step) && id in s.composer.outcomes && id !in s.prepared
    ensures TokenKept(s, Apply(s, step), id)
  {
    assert C.PromiseFits(s.composer, id);
    match step
    case Prepare => BeginEffect(s.composer, s.viewEpoch, C.DraftPrepare, id);
    case PrepareSettles(token, ready) => SettleEffect(s.composer, token, ready, id);
    case PrepareFails => CancelEffect(s.composer, id);
    case _ =>
  }

  lemma ComposerKeepsCall(s: State, t: State, c: nat)
    requires c in s.calls && CallFits(s, c) && TokenKept(s, t, s.calls[c].token.id)
    requires t == s.(composer := t.composer, prepared := t.prepared)
    ensures CallFits(t, c)
  {
  }

  lemma StepKeepsCall(s: State, step: Step, c: nat)
    requires Inv(s) && Enabled(s, step) && c in s.calls
    ensures c in Apply(s, step).calls && CallFits(Apply(s, step), c)
  {
    assert CallFits(s, c);
    if ComposerOnly(step) {
      ComposerKeepsToken(s, step, s.calls[c].token.id);
      ComposerKeepsCall(s, Apply(s, step), c);
    } else {
      ViewStepKeepsCall(s, step, c);
    }
  }

  lemma ViewStepKeepsCall(s: State, step: Step, c: nat)
    requires Inv(s) && Enabled(s, step) && c in s.calls && !ComposerOnly(step)
    ensures c in Apply(s, step).calls && CallFits(Apply(s, step), c)
  {
    assert CallFits(s, c);
    var id := s.calls[c].token.id;
    assert C.PromiseFits(s.composer, id);
    match step
    case Start =>
      CancelEffect(s.composer, id);
      BeginEffect(C.AfterCancel(s.composer), s.viewEpoch + 1, C.DraftOpen, id);
    case OtherSwitch =>
      CancelEffect(s.composer, id);
    case OpenFails(d) =>
      SettleEffect(s.composer, s.calls[d].token, false, id);
      assert CallFits(s, d) && Apart(s, c, d);
    case ScopeAdopted(d) =>
      SettleEffect(s.composer, s.calls[d].token, !s.calls[d].phase.reply.problem, id);
      assert CallFits(s, d) && Apart(s, c, d);
    case BranchRefreshed(d) =>
      assert CallFits(s, d) && Apart(s, c, d);
    case _ =>
  }

  /** The coordinator's own steps that a step of the view makes. */
  function ComposerMoves(s: State, step: Step): seq<C.Step>
    requires Enabled(s, step)
  {
    match step
    case Start => [C.Cancel, C.Begin(s.viewEpoch + 1, C.DraftOpen)]
    case OtherSwitch => [C.Cancel]
    case OpenFails(c) => [C.Settle(s.calls[c].token, false)]
    case ScopeAdopted(c) => if Current(s, c) then [C.Settle(s.calls[c].token, !s.calls[c].phase.reply.problem)] else []
    case Prepare => [C.Begin(s.viewEpoch, C.DraftPrepare)]
    case PrepareSettles(token, ready) => [C.Settle(token, ready)]
    case PrepareFails => [C.Cancel]
    case Submit(current) => [C.Wait(s.viewEpoch, current)]
    case Resume(w, current) => [C.Resume(w, current)]
    case _ => []
  }

  lemma OneMove(k: C.State, move: C.Step)
    requires C.Enabled(k, move)
    ensures C.Runs(k, [move]) && C.After(k, [move]) == C.Apply(k, move)
  {
    assert [move][1..] == [];
    assert C.Runs(C.Apply(k, move), []) && C.After(C.Apply(k, move), []) == C.Apply(k, move);
  }

  /** Every run of the view is a run of the coordinator. */
  lemma ComposerFollows(s: State, step: Step)
    requires Enabled(s, step)
    ensures C.Runs(s.composer, ComposerMoves(s, step))
    ensures C.After(s.composer, ComposerMoves(s, step)) == Apply(s, step).composer
  {
    var moves := ComposerMoves(s, step);
    if step.Start? {
      assert moves[1..] == [moves[1]];
      OneMove(C.AfterCancel(s.composer), moves[1]);
    } else if moves != [] {
      assert moves == [moves[0]];
      OneMove(s.composer, moves[0]);
    }
  }

  lemma StepKeepsComposer(s: State, step: Step)
    requires C.Inv(s.composer) && Enabled(s, step)
    ensures C.Inv(Apply(s, step).composer)
  {
    ComposerFollows(s, step);
    C.RunKeepsInv(s.composer, ComposerMoves(s, step));
  }

  /** The call a `Start` adds owns a fresh epoch and a fresh, open token. */
  lemma StartAddsCall(s: State)
    requires Inv(s)
    ensures var t := AfterStart(s);
            && CallFits(t, s.nextCall) && s.nextCall !in s.calls
            && (forall c :: c in s.calls ==> Apart(t, c, s.nextCall) && Apart(t, s.nextCall, c))
  {
    var t := AfterStart(s);
    CancelEffect(s.composer, 0);
    BeginEffect(C.AfterCancel(s.composer), s.viewEpoch + 1, C.DraftOpen, 0);
    assert C.PromiseFits(s.composer, t.composer.nextId);
    forall c | c in s.calls ensures Apart(t, c, s.nextCall) && c != s.nextCall {
      assert CallFits(s, c);
    }
  }

  lemma StepKeepsApart(s: State, step: Step, c: nat, d: nat)
    requires Inv(s) && Enabled(s, step) && c in Apply(s, step).calls && d in Apply(s, step).calls
    ensures Apart(Apply(s, step), c, d)
  {
    if c in s.calls && d in s.calls { assert Apart(s, c, d); }
    if step.Start? { StartAddsCall(s); }
  }

  lemma StepKeepsPrepared(s: State, step: Step, id: nat)
    requires Inv(s) && Enabled(s, step) && id in Apply(s, step).prepared
    ensures id in Apply(s, step).composer.outcomes
  {
    if step.Prepare? {
      BeginEffect(s.composer, s.viewEpoch, C.DraftPrepare, id);
    } else {
      ComposerFollows(s, step);
      C.OutcomesStay(s.composer, ComposerMoves(s, step), id);
    }
  }

  lemma StepKeepsOpen(s: State, step: Step)
    requires OpenIsCurrent(s) && Enabled(s, step)
    ensures OpenIsCurrent(Apply(s, step))
  {
  }

  lemma StepKeepsAnswers(s: State, step: Step)
    requires OpenIsCurrent(s) && AnswersOwn(s.composer.answers) && Enabled(s, step)
    ensures AnswersOwn(Apply(s, step).composer.answers)
  {
    var answers := Apply(s, step).composer.answers;
    forall i | 0 <= i < |answers| && answers[i].during.Some? ensures answers[i].own {
      if i < |s.composer.answers| { assert answers[i] == s.composer.answers[i]; }
    }
  }

  lemma StepKeepsInv(s: State, step: Step)
    requires Inv(s) && Enabled(s, step)
    ensures Inv(Apply(s, step))
  {
    var t := Apply(s, step);
    StepKeepsComposer(s, step);
    StepKeepsOpen(s, step);
    StepKeepsAnswers(s, step);
    forall c | c in t.calls ensures CallFits(t, c) {
      if c in s.calls { StepKeepsCall(s, step, c); } else { StartAddsCall(s); }
    }
    forall c, d | c in t.calls && d in t.calls ensures Apart(t, c, d) { StepKeepsApart(s, step, c, d); }
    forall id | id in t.prepared ensures id in t.composer.outcomes { StepKeepsPrepared(s, step, id); }
  }

  /** The open token of a call is the active readiness, and the call is the current one. */
  lemma TokenIsActive(s: State, c: nat)
    requires Inv(s) && c in s.calls
    ensures var call, k := s.calls[c], s.composer;
            C.Unsettled(k, call.token.id) ==>
              && k.active.Some? && !k.active.value.settled && k.active.value.id == call.token.id
              && k.active.value.epoch == call.token.epoch == s.viewEpoch
  {
    assert CallFits(s, c) && C.PromiseFits(s.composer, s.calls[c].token.id);
  }

  // ----- whole runs -----

  ghost predicate Runs(s: State, steps: seq<Step>)
    decreases |steps|
  {
    steps == [] || (Enabled(s, steps[0]) && Runs(Apply(s, steps[0]), steps[1..]))
  }

  ghost function After(s: State, steps: seq<Step>): State
    requires Runs(s, steps)
    decreases |steps|
  {
    if steps == [] then s else After(Apply(s, steps[0]), steps[1..])
  }

  lemma {:induction false} RunKeepsInv(s: State, steps: seq<Step>)
    requires Inv(s) && Runs(s, steps)
    ensures Inv(After(s, steps))
    decreases |steps|
  {
    if steps != [] {
      StepKeepsInv(s, steps[0]);
      RunKeepsInv(Apply(s, steps[0]), steps[1..]);
    }
  }

  /** The view once `step` of call `c` has written what it writes of the call's reply. */
  function Written(view: View, step: Step, reply: Reply): View {
    if step.BranchRefreshed? then view.(draftWorkspaceId := reply.workspaceId)
    else view.(snapshot := Loaded(reply.snapshot), context := Some(reply.context), target := Some(reply.target))
  }

  /**
   In every interleaving, a step after an await that changes the view belongs
   to the one call that owns the current epoch, and changes nothing but what
   that call writes at this point, to what its own reply says.
   */
  lemma WritesAreCurrent(steps: seq<Step>, step: Step) returns (c: nat)
    requires Runs(INITIAL, steps) && Enabled(After(INITIAL, steps), step) && !step.Start? && !step.OtherSwitch?
    requires Apply(After(INITIAL, steps), step).view != After(INITIAL, steps).view
    ensures var s := After(INITIAL, steps);
            && (step == BranchRefreshed(c) || step == ScopeAdopted(c))
            && c in s.calls && s.calls[c].epoch == s.viewEpoch
            && (forall d :: d in s.calls && d != c ==> s.calls[d].epoch < s.viewEpoch)
            && Apply(s, step).view == Written(s.view, step, s.calls[c].phase.reply)
            && Apply(s, step).viewEpoch == s.viewEpoch
  {
    var s := After(INITIAL, steps);
    RunKeepsInv(INITIAL, steps);
    c := step.call;
    forall d | d in s.calls && d != c ensures s.calls[d].epoch < s.viewEpoch {
      assert CallFits(s, d) && Apart(s, c, d);
    }
  }

  lemma {:induction false} OwnAnswers(answers: seq<C.Answer>, id: nat)
    requires AnswersOwn(answers)
    ensures C.AdmittedDuring(answers, id) == C.Admitted(answers, id)
  {
    if answers != [] { OwnAnswers(answers[..|answers| - 1], id); }
  }

  /**
   In every run in which submissions carry the view's epoch, as `submitTurn`
   does, at most one of all submissions made while a readiness is open is
   admitted, and only if that readiness settled ready.
   */
  lemma ViewAdmitsAtMostOne(steps: seq<Step>, id: nat)
    requires Runs(INITIAL, steps)
    ensures var k := After(INITIAL, steps).composer;
            && C.AdmittedDuring(k.answers, id) <= 1
            && (C.AdmittedDuring(k.answers, id) == 1 ==> id in k.outcomes && k.outcomes[id] == [true])
  {
    var k := After(INITIAL, steps).composer;
    RunKeepsInv(INITIAL, steps);
    OwnAnswers(k.answers, id);
    assert C.AdmissionFits(k, id);
  }

  /** An open readiness always belongs to the view's epoch. */
  lemma OpenReadinessIsCurrent(steps: seq<Step>)
    requires Runs(INITIAL, steps) && C.Open(After(INITIAL, steps).composer).Some?
    ensures After(INITIAL, steps).composer.active.value.epoch == After(INITIAL, steps).viewEpoch
  {
    RunKeepsInv(INITIAL, steps);
  }

  /** A call superseded before it applied its reply leaves a token that settled not ready, for good. */
  lemma SupersededNeverReady(steps: seq<Step>, more: seq<Step>, c: nat)
    requires Runs(INITIAL, steps) && Runs(After(INITIAL, steps), more)
    requires c in After(INITIAL, steps).calls
    requires After(INITIAL, steps).calls[c].epoch < After(INITIAL, steps).viewEpoch
    requires !After(INITIAL, steps).calls[c].phase.Applied?
    ensures var t := After(After(INITIAL, steps), more);
            && c in t.calls && !t.calls[c].phase.Applied?
            && t.calls[c].token.id in t.composer.outcomes && t.composer.outcomes[t.calls[c].token.id] == [false]
  {
    RunKeepsInv(INITIAL, steps);
    SupersededStaysOut(After(INITIAL, steps), more, c);
  }

  lemma SupersededSettledFalse(s: State, c: nat)
    requires Inv(s) && c in s.calls && s.calls[c].epoch < s.viewEpoch && !s.calls[c].phase.Applied?
    ensures s.calls[c].token.id in s.composer.outcomes && s.composer.outcomes[s.calls[c].token.id] == [false]
  {
    assert CallFits(s, c);
    var id := s.calls[c].token.id;
    assert C.PromiseFits(s.composer, id);
    var outcome := s.composer.outcomes[id];
    assert outcome[0] <==> outcome == [true];
    assert !outcome[0] <==> outcome == [false];
  }

  lemma {:induction false} SupersededStaysOut(s: State, steps: seq<Step>, c: nat)
    requires Inv(s) && Runs(s, steps) && c in s.calls && s.calls[c].epoch < s.viewEpoch && !s.calls[c].phase.Applied?
    ensures var t := After(s, steps);
            && c in t.calls && !t.calls[c].phase.Applied?
            && t.calls[c].token.id in t.composer.outcomes && t.composer.outcomes[t.calls[c].token.id] == [false]
    decreases |steps|
  {
    if steps == [] {
      SupersededSettledFalse(s, c);
    } else {
      StepKeepsInv(s, steps[0]);
      SupersededStaysOut(Apply(s, steps[0]), steps[1..], c);
    }
  }

  /**
   If the call owning the current epoch has applied its reply, the view shows
   exactly that reply, whatever superseded calls did before or after; until it
   does, the view still shows that call's own optimistic draft.
   */
  lemma LastCallDecidesView(steps: seq<Step>, c: nat)
    requires Runs(INITIAL, steps)
    requires c in After(INITIAL, steps).calls && After(INITIAL, steps).calls[c].epoch == After(INITIAL, steps).viewEpoch
    ensures var s := After(INITIAL, steps);
            if s.calls[c].phase.Applied? then
              var reply := s.calls[c].phase.reply;
              s.view == View(Loaded(reply.snapshot), reply.workspaceId, Some(reply.context), Some(reply.target))
            else s.view.snapshot == Optimistic(s.viewEpoch)
  {
    RunKeepsInv(INITIAL, steps);
    assert CallFits(After(INITIAL, steps), c);
  }
}
