/** `ComposerSessionCoordinator` with its fields; `waitToSubmit` is split at its await. */
module Coordinator {
  import opened Sequences
  import opened CoordinatorModel

  class ComposerSessionCoordinator {
    var nextId: nat
    var activeReadiness: Option<Readiness>
    var pendingSubmissionReadinessId: Option<nat>

    /** The suspended `waitToSubmit` calls, and how each readiness promise settled. */
    var waiters: map<nat, nat>
    var nextWaiter: nat
    var outcomes: map<nat, seq<bool>>

    ghost var answers: seq<Answer>

    ghost function Abs(): State
      reads this
    {
      State(nextId, activeReadiness, pendingSubmissionReadinessId, waiters, nextWaiter, outcomes, answers)
    }

    ghost predicate Valid()
      reads this
    {
      Inv(Abs())
    }

    constructor ()
      ensures Valid() && Abs() == INITIAL
    {
      nextId, activeReadiness, pendingSubmissionReadinessId := 0, None, None;
      waiters, nextWaiter, outcomes := map[], 0, map[];
      answers := [];
    }

    method CancelPending()
      requires Valid()
      modifies this`activeReadiness, this`outcomes
      ensures Valid() && Abs() == AfterCancel(old(Abs()))
      ensures var was := old(activeReadiness);
              && activeReadiness == None
              && (was.Some? && !was.value.settled ==> was.value.id in outcomes && outcomes[was.value.id] == [false])
    {
      StepKeepsInv(Abs(), Cancel);
      if activeReadiness.Some? && !activeReadiness.value.settled {
        assert PromiseFits(Abs(), activeReadiness.value.id);
        outcomes := outcomes[activeReadiness.value.id := outcomes[activeReadiness.value.id] + [false]];
      }
      activeReadiness := None;
    }

    method BeginReadiness(epoch: nat, kind: Kind) returns (token: Token)
      requires Valid()
      modifies this
      ensures Valid() && Abs() == AfterBegin(old(Abs()), epoch, kind)
      ensures token == Token(epoch, nextId) && Unsettled(Abs(), token.id)
    {
      StepKeepsInv(Abs(), Begin(epoch, kind));
      CancelPending();
      token := Token(epoch, nextId + 1);
      nextId := token.id;
      activeReadiness := Some(Readiness(token.id, epoch, kind, false));
      outcomes := outcomes[token.id := []];
    }

    method SettleReadiness(token: Token, ready: bool)
      requires Valid()
      modifies this`activeReadiness, this`outcomes
      ensures Valid() && Abs() == AfterSettle(old(Abs()), token, ready)
      ensures var was := old(activeReadiness);
              if was.Some? && !was.value.settled && was.value.id == token.id && was.value.epoch == token.epoch
              then token.id in outcomes && outcomes[token.id] == [ready]
              else Abs() == old(Abs())
    {
      StepKeepsInv(Abs(), Settle(token, ready));
      var active := activeReadiness;
      if active.None? || active.value.id != token.id || active.value.epoch != token.epoch || active.value.settled {
        return;
      }
      assert PromiseFits(Abs(), token.id);
      activeReadiness := Some(active.value.(settled := true));
      outcomes := outcomes[token.id := outcomes[token.id] + [ready]];
    }

    /** Up to the await: an answer at once, or `None` when the call suspends. */
    method WaitToSubmit(epoch: nat, inputCurrent: bool) returns (answer: Option<bool>)
      requires Valid()
      modifies this
      ensures Valid() && Abs() == AfterWait(old(Abs()), epoch, inputCurrent)
      ensures answer.None? <==> waiters != old(waiters)
      ensures answer == Some(true) <==> inputCurrent && !old(Pending(Abs(), epoch))
    {
      StepKeepsInv(Abs(), Wait(epoch, inputCurrent));
      assert forall w :: w in waiters ==> WaiterFits(Abs(), w);
      var active := activeReadiness;
      if active.None? || active.value.epoch != epoch || active.value.settled {
        answers := answers + [Answer(Open(Abs()), false, inputCurrent)];
        return Some(inputCurrent);
      }
      if pendingSubmissionReadinessId.Some? {
        answers := answers + [Answer(Some(active.value.id), true, false)];
        return Some(false);
      }
      pendingSubmissionReadinessId := Some(active.value.id);
      waiters := waiters[nextWaiter := active.value.id];
      assert nextWaiter in waiters && nextWaiter !in old(waiters);
      nextWaiter := nextWaiter + 1;
      answer := None;
    }

    /** After the await: the promise has settled. */
    method ResumeWait(waiter: nat, inputCurrent: bool) returns (ready: bool)
      requires Valid() && Enabled(Abs(), Resume(waiter, inputCurrent))
      modifies this
      ensures Valid() && Abs() == AfterResume(old(Abs()), waiter, inputCurrent)
      ensures pendingSubmissionReadinessId == None
      ensures var id := old(waiters[waiter]);
              && (ready <==> inputCurrent && outcomes[id] == [true])
              && old(Admitted(answers, id)) == 0 && Admitted(answers, id) == (if ready then 1 else 0)
    {
      StepKeepsInv(Abs(), Resume(waiter, inputCurrent));
      ResumeAnswers(Abs(), waiter, inputCurrent);
      var id := waiters[waiter];
      waiters := waiters - {waiter};
      if pendingSubmissionReadinessId == Some(id) {
        pendingSubmissionReadinessId := None;
      }
      ready := outcomes[id][0] && inputCurrent;
      answers := answers + [Answer(Some(id), true, ready)];
    }
  }
}
