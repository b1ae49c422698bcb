/** `startNewThread` split at its awaits, over the shared view and one coordinator. */
module ViewSwitch {
  import opened Sequences
  import opened ViewSwitchModel
  import C = CoordinatorModel
  import Coordinator

  class AppActions {
    const composer: Coordinator.ComposerSessionCoordinator
    var viewEpoch: nat
    var view: View

    /** The suspended calls with what they captured, and the draft-prepare tokens handed out. */
    var calls: map<nat, Call>
    var nextCall: nat
    ghost var prepared: set<nat>

    ghost function Abs(): State
      reads this, composer
    {
      State(viewEpoch, composer.Abs(), calls, nextCall, prepared, view)
    }

    ghost predicate Valid()
      reads this, composer
    {
      Inv(Abs())
    }

    constructor (composer: Coordinator.ComposerSessionCoordinator)
      requires composer.Abs() == C.INITIAL
      ensures Valid() && Abs() == INITIAL && this.composer == composer
    {
      this.composer := composer;
      viewEpoch, view := 0, View(Blank, None, None, None);
      calls, nextCall, prepared := map[], 0, {};
    }

    method BeginExplicitViewSwitch() returns (epoch: nat)
      requires Valid()
      modifies this, composer
      ensures Valid() && Abs() == Switched(old(Abs()))
      ensures epoch == viewEpoch
    {
      StepKeepsInv(Abs(), OtherSwitch);
      composer.CancelPending();
      viewEpoch := viewEpoch + 1;
      view := view.(draftWorkspaceId := None);
      epoch := viewEpoch;
    }

    method StartNewThread() returns (call: nat)
      requires Valid()
      modifies this, composer
      ensures Valid() && Abs() == AfterStart(old(Abs()))
      ensures call in calls && call !in old(calls) && calls[call].epoch == viewEpoch
    {
      StepKeepsInv(Abs(), Start);
      StartAddsCall(Abs());
      var epoch := BeginExplicitViewSwitch();
      view := view.(snapshot := Optimistic(epoch));
      var openToken := composer.BeginReadiness(epoch, C.DraftOpen);
      call := nextCall;
      calls := calls[call := Call(epoch, openToken, Opening)];
      nextCall := nextCall + 1;
    }

    method DraftOpenFailed(call: nat)
      requires Valid() && Enabled(Abs(), OpenFails(call))
      modifies this, composer
      ensures Valid() && Abs() == Apply(old(Abs()), OpenFails(call))
      ensures var token := old(calls[call].token);
              old(C.Unsettled(composer.Abs(), token.id)) ==> token.id in composer.outcomes && composer.outcomes[token.id] == [false]
    {
      TokenIsActive(Abs(), call);
      StepKeepsInv(Abs(), OpenFails(call));
      composer.SettleReadiness(calls[call].token, false);
      calls := calls[call := calls[call].(phase := Dropped)];
    }

    method DraftOpened(call: nat, reply: Reply)
      requires Valid() && Enabled(Abs(), OpenReturns(call, reply))
      modifies this
      ensures Valid() && Abs() == Apply(old(Abs()), OpenReturns(call, reply))
    {
      StepKeepsInv(Abs(), OpenReturns(call, reply));
      if viewEpoch == calls[call].epoch {
        calls := calls[call := calls[call].(phase := Refreshing(reply))];
      } else {
        calls := calls[call := calls[call].(phase := Dropped)];
      }
    }

    method BranchRefreshed(call: nat)
      requires Valid() && Enabled(Abs(), Step.BranchRefreshed(call))
      modifies this
      ensures Valid() && Abs() == Apply(old(Abs()), Step.BranchRefreshed(call))
    {
      StepKeepsInv(Abs(), Step.BranchRefreshed(call));
      var Call(epoch, _, phase) := calls[call];
      if viewEpoch == epoch {
        view := view.(draftWorkspaceId := phase.reply.workspaceId);
        calls := calls[call := calls[call].(phase := Adopting(phase.reply))];
      } else {
        calls := calls[call := calls[call].(phase := Dropped)];
      }
    }

    method ScopeAdopted(call: nat)
      requires Valid() && Enabled(Abs(), Step.ScopeAdopted(call))
      modifies this, composer
      ensures Valid() && Abs() == Apply(old(Abs()), Step.ScopeAdopted(call))
      ensures var Call(epoch, _, phase) := old(calls[call]);
              view == if epoch != viewEpoch then old(view)
                      else View(Loaded(phase.reply.snapshot), phase.reply.workspaceId,
                                Some(phase.reply.context), Some(phase.reply.target))
      ensures var Call(epoch, token, phase) := old(calls[call]);
              epoch == viewEpoch && old(C.Unsettled(composer.Abs(), token.id)) ==>
                token.id in composer.outcomes && composer.outcomes[token.id] == [!phase.reply.problem]
    {
      TokenIsActive(Abs(), call);
      assert CallFits(Abs(), call);
      StepKeepsInv(Abs(), Step.ScopeAdopted(call));
      var Call(epoch, openToken, phase) := calls[call];
      var reply := phase.reply;
      if viewEpoch == epoch {
        view := view.(snapshot := Loaded(reply.snapshot), context := Some(reply.context), target := Some(reply.target));
        composer.SettleReadiness(openToken, !reply.problem);
        calls := calls[call := calls[call].(phase := Applied(reply))];
      } else {
        calls := calls[call := calls[call].(phase := Dropped)];
      }
    }

    /** The gate of `submitTurn`: nothing is admitted at once while any readiness is open. */
    method SubmitTurn(inputCurrent: bool) returns (answer: Option<bool>)
      requires Valid()
      modifies composer
      ensures Valid() && Abs() == Apply(old(Abs()), Submit(inputCurrent))
      ensures answer == Some(true) ==> inputCurrent && old(C.Open(composer.Abs())) == None
    {
      StepKeepsInv(Abs(), Submit(inputCurrent));
      var turnEpoch := viewEpoch;
      answer := composer.WaitToSubmit(turnEpoch, inputCurrent);
    }
  }
}
