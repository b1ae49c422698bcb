/** When a call's reply reaches the view, read off the steps of a run. */
module ViewSwitchHistory {
  import opened Sequences
  import opened ViewSwitchModel
  import C = CoordinatorModel

  // ----- the reply of the last call -----

  predicate Switches(step: Step) {
    step.Start? || step.OtherSwitch?
  }

  predicate Unswitched(steps: seq<Step>) {
    forall i :: 0 <= i < |steps| ==> !Switches(steps[i])
  }

  /** Call `c` is the current one, and past its open it holds `reply`. */
  ghost predicate Holds(s: State, c: nat, reply: Reply) {
    && c in s.calls && s.calls[c].epoch == s.viewEpoch
    && (s.calls[c].phase.Dropped? || s.calls[c].phase == Refreshing(reply)
        || s.calls[c].phase == Adopting(reply) || s.calls[c].phase == Applied(reply))
  }

  ghost predicate Awaits(s: State, c: nat) {
    c in s.calls && s.calls[c].epoch == s.viewEpoch && s.calls[c].phase.Opening?
  }

  lemma StartAwaits(s: State)
    ensures Awaits(AfterStart(s), s.nextCall)
  {
  }

  lemma StepKeepsReply(s: State, step: Step, c: nat, reply: Reply)
    requires Enabled(s, step) && Holds(s, c, reply) && !Switches(step)
    ensures Holds(Apply(s, step), c, reply)
    ensures s.calls[c].phase == Applied(reply) || step == ScopeAdopted(c) ==> Apply(s, step).calls[c].phase == Applied(reply)
  {
  }

  lemma {:induction false} ReplyCarried(s: State, steps: seq<Step>, c: nat, reply: Reply)
    requires Runs(s, steps) && Holds(s, c, reply) && Unswitched(steps)
    ensures Holds(After(s, steps), c, reply)
    ensures s.calls[c].phase == Applied(reply) || ScopeAdopted(c) in steps ==> After(s, steps).calls[c].phase == Applied(reply)
    decreases |steps|
  {
    if steps != [] {
      StepKeepsReply(s, steps[0], c, reply);
      ReplyCarried(Apply(s, steps[0]), steps[1..], c, reply);
      assert steps == [steps[0]] + steps[1..];
    }
  }

  /**
   However other calls and submissions interleave: if the reply comes while its
   call is the current one and no view switch follows, then once the call has
   adopted its scope the view shows that reply.
   */
  lemma ReplyReachesView(before: seq<Step>, rest: seq<Step>, c: nat, reply: Reply)
    requires Runs(INITIAL, before) && Awaits(After(INITIAL, before), c)
    requires Runs(Apply(After(INITIAL, before), OpenReturns(c, reply)), rest) && Unswitched(rest) && ScopeAdopted(c) in rest
    ensures After(Apply(After(INITIAL, before), OpenReturns(c, reply)), rest).view ==
            View(Loaded(reply.snapshot), reply.workspaceId, Some(reply.context), Some(reply.target))
  {
    var s := After(INITIAL, before);
    RunKeepsInv(INITIAL, before);
    StepKeepsInv(s, OpenReturns(c, reply));
    OpenCarriesOn(s, c, reply);
    var carried := Apply(s, OpenReturns(c, reply));
    RunKeepsInv(carried, rest);
    ReplyCarried(carried, rest, c, reply);
    AppliedShows(After(carried, rest), c, reply);
  }

  lemma AppliedShows(s: State, c: nat, reply: Reply)
    requires Inv(s) && Holds(s, c, reply) && s.calls[c].phase == Applied(reply)
    ensures s.view == View(Loaded(reply.snapshot), reply.workspaceId, Some(reply.context), Some(reply.target))
  {
    assert CallFits(s, c);
  }

  // ----- a call left alone -----

  lemma OpenCarriesOn(s: State, c: nat, reply: Reply)
    requires Awaits(s, c)
    ensures Enabled(s, OpenReturns(c, reply))
    ensures var t := Apply(s, OpenReturns(c, reply));
            c in t.calls && t.calls[c] == s.calls[c].(phase := Refreshing(reply)) && t.viewEpoch == s.viewEpoch && t.composer == s.composer
  {
  }

  lemma RefreshCarriesOn(s: State, c: nat, reply: Reply)
    requires c in s.calls && s.calls[c].phase == Refreshing(reply) && s.calls[c].epoch == s.viewEpoch
    ensures Enabled(s, BranchRefreshed(c))
    ensures var t := Apply(s, BranchRefreshed(c));
            && c in t.calls && t.calls[c] == s.calls[c].(phase := Adopting(reply)) && t.viewEpoch == s.viewEpoch
            && t.composer == s.composer && t.view == s.view.(draftWorkspaceId := reply.workspaceId)
  {
  }

  lemma AdoptCarriesOn(s: State, c: nat, reply: Reply)
    requires c in s.calls && s.calls[c].phase == Adopting(reply) && s.calls[c].epoch == s.viewEpoch
    requires s.view.draftWorkspaceId == reply.workspaceId
    ensures Enabled(s, ScopeAdopted(c))
    ensures var t := Apply(s, ScopeAdopted(c));
            && t.view == View(Loaded(reply.snapshot), reply.workspaceId, Some(reply.context), Some(reply.target))
            && t.composer == C.AfterSettle(s.composer, s.calls[c].token, !reply.problem)
  {
  }

  /** The three continuations of a call that nothing disturbs. */
  function LoneCall(c: nat, reply: Reply): seq<Step> {
    [OpenReturns(c, reply), BranchRefreshed(c), ScopeAdopted(c)]
  }

  lemma {:induction false} LoneCallRuns(s: State, c: nat, reply: Reply)
    requires Awaits(s, c)
    ensures Runs(s, LoneCall(c, reply))
    ensures After(s, LoneCall(c, reply)).composer == C.AfterSettle(s.composer, s.calls[c].token, !reply.problem)
  {
    OpenCarriesOn(s, c, reply);
    var s1 := Apply(s, OpenReturns(c, reply));
    RefreshCarriesOn(s1, c, reply);
    var s2 := Apply(s1, BranchRefreshed(c));
    AdoptCarriesOn(s2, c, reply);
    var s3 := Apply(s2, ScopeAdopted(c));
    assert Runs(s3, []) && After(s3, []) == s3;
    assert [ScopeAdopted(c)][1..] == [];
    assert Runs(s2, [ScopeAdopted(c)]) && After(s2, [ScopeAdopted(c)]) == s3;
    assert [BranchRefreshed(c), ScopeAdopted(c)][1..] == [ScopeAdopted(c)];
    assert Runs(s1, [BranchRefreshed(c), ScopeAdopted(c)]) && After(s1, [BranchRefreshed(c), ScopeAdopted(c)]) == s3;
    assert LoneCall(c, reply)[1..] == [BranchRefreshed(c), ScopeAdopted(c)];
  }

  /** From any reached view, a call that nothing disturbs runs through and settles its readiness by its reply. */
  lemma LoneCallSucceeds(before: seq<Step>, reply: Reply)
    requires Runs(INITIAL, before)
    ensures var s := AfterStart(After(INITIAL, before));
            var c, id := After(INITIAL, before).nextCall, s.composer.nextId;
            && Runs(s, LoneCall(c, reply))
            && id in After(s, LoneCall(c, reply)).composer.outcomes
            && After(s, LoneCall(c, reply)).composer.outcomes[id] == [!reply.problem]
  {
    var s := After(INITIAL, before);
    RunKeepsInv(INITIAL, before);
    StartAwaits(s);
    TokenOpened(s);
    LoneCallRuns(AfterStart(s), s.nextCall, reply);
  }

  lemma TokenOpened(s: State)
    requires Inv(s)
    ensures var t := AfterStart(s);
            && s.nextCall in t.calls && t.calls[s.nextCall].token == C.Token(t.viewEpoch, t.composer.nextId)
            && C.Unsettled(t.composer, t.composer.nextId)
            && t.composer.active.Some? && !t.composer.active.value.settled
            && t.composer.active.value.id == t.composer.nextId && t.composer.active.value.epoch == t.viewEpoch
  {
    CancelEffect(s.composer, 0);
    BeginEffect(C.AfterCancel(s.composer), s.viewEpoch + 1, C.DraftOpen, 0);
  }

  // ----- switching, and calls that are over -----

  /** A switch takes a new epoch and clears the draft workspace; only `startNewThread` shows a draft. */
  lemma SwitchResets(before: seq<Step>, step: Step)
    requires Runs(INITIAL, before) && Switches(step)
    ensures var s, t := After(INITIAL, before), Apply(After(INITIAL, before), step);
            && t.viewEpoch == s.viewEpoch + 1
            && t.view == View(if step.Start? then Optimistic(t.viewEpoch) else s.view.snapshot, None, s.view.context, s.view.target)
  {
  }

  predicate Continues(step: Step, c: nat) {
    || (step.OpenReturns? && step.call == c) || step == OpenFails(c) || step == ParseFails(c)
    || step == BranchRefreshed(c) || step == ScopeAdopted(c) || step == AdoptFails(c)
  }

  /** The step after which call `c` has nothing left to do. */
  predicate Finishes(step: Step, c: nat) {
    step == OpenFails(c) || step == ParseFails(c) || step == AdoptFails(c) || step == ScopeAdopted(c)
  }

  ghost predicate Over(s: State, c: nat) {
    c in s.calls && (s.calls[c].phase.Dropped? || s.calls[c].phase.Applied?) && c < s.nextCall
  }

  lemma StepOnOver(s: State, step: Step, c: nat)
    requires Enabled(s, step) && Over(s, c)
    ensures Over(Apply(s, step), c) && !Continues(step, c)
  {
  }

  lemma {:induction false} OverStays(s: State, steps: seq<Step>, c: nat, i: nat)
    requires Runs(s, steps) && Over(s, c) && i < |steps|
    ensures !Continues(steps[i], c)
    decreases |steps|
  {
    StepOnOver(s, steps[0], c);
    if i > 0 { OverStays(Apply(s, steps[0]), steps[1..], c, i - 1); }
  }

  /** A call ends once: after it failed or was adopted no step of any run continues it. */
  lemma CallsEndOnce(before: seq<Step>, step: Step, rest: seq<Step>, c: nat, i: nat)
    requires Runs(INITIAL, before) && Enabled(After(INITIAL, before), step) && Finishes(step, c)
    requires Runs(Apply(After(INITIAL, before), step), rest) && i < |rest|
    ensures !Continues(rest[i], c)
  {
    var s := After(INITIAL, before);
    RunKeepsInv(INITIAL, before);
    assert CallFits(s, c);
    OverStays(Apply(s, step), rest, c, i);
  }
}
