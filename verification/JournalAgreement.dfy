/**
 The journal's two action maps agree on what is open, and exactly which
 appends, runs and bounds break the agreement.
 */
module JournalAgreement {
  import opened Sequences
  import opened RecencyMap
  import opened GatewayEvents
  import opened JournalModel
  import opened JournalActions

  ghost predicate RememberedIn(threads: Threads, l: Entry<Lifecycle>) {
    exists t :: t in threads && SameRecord(l, t)
  }

  /** Every retained lifecycle that is still open is remembered with the same number and thread. */
  ghost predicate Agreement(threads: Threads, lifecycles: Lifecycles) {
    forall l :: l in lifecycles && OpensAction(l.value.event) ==> RememberedIn(threads, l)
  }

  ghost predicate Agrees(s: State) {
    Agreement(s.actionThreads, s.actionLifecycles)
  }

  /** The maps agree after the next append. */
  ghost predicate AgreesNext(lim: Bounds, s: State, e: Event) {
    Agreement(NextThreads(lim, s, e), NextLifecycles(lim, s, e))
  }

  // ----- one append -----

  /** What is remembered under another key stays so. */
  lemma StillRemembered(threads: Threads, more: Threads, key: string, l: Entry<Lifecycle>)
    requires RememberedIn(threads, l) && l.key != key
    ensures RememberedIn(Delete(threads, key) + more, l)
  {
    var t :| t in threads && SameRecord(l, t);
    DeleteMember(threads, key, t);
    assert t in Delete(threads, key) + more;
  }

  lemma CloseKeepsAgreement(threads: Threads, lifecycles: Lifecycles, x: Entry<Lifecycle>)
    requires Agreement(threads, lifecycles) && !OpensAction(x.value.event)
    ensures Agreement(Delete(threads, x.key), Delete(lifecycles, x.key) + [x])
  {
    var threads', lifecycles' := Delete(threads, x.key), Delete(lifecycles, x.key) + [x];
    assert threads' + [] == threads';
    forall l | l in lifecycles' && OpensAction(l.value.event) ensures RememberedIn(threads', l) {
      DeleteMember(lifecycles, x.key, l);
      StillRemembered(threads, [], x.key, l);
    }
  }

  lemma OpenKeepsAgreement(threads: Threads, lifecycles: Lifecycles, x: Entry<Lifecycle>, t: Entry<Remembered>)
    requires Agreement(threads, lifecycles) && SameRecord(x, t)
    ensures Agreement(Delete(threads, t.key) + [t], Delete(lifecycles, x.key) + [x])
  {
    var threads', lifecycles' := Delete(threads, t.key) + [t], Delete(lifecycles, x.key) + [x];
    forall l | l in lifecycles' && OpensAction(l.value.event) ensures RememberedIn(threads', l) {
      if l == x {
        assert t in threads';
      } else {
        DeleteMember(lifecycles, x.key, l);
        StillRemembered(threads, [t], t.key, l);
      }
    }
  }

  lemma FewerLifecyclesAgree(threads: Threads, lifecycles: Lifecycles, n: nat)
    requires Agreement(threads, lifecycles)
    ensures Agreement(threads, LastN(lifecycles, n))
  {
    assert forall l :: l in LastN(lifecycles, n) ==> l in lifecycles;
  }

  /** An action without an id has no open lifecycle to keep remembered. */
  lemma UnnamedLeaves(threads: Threads, lifecycles: Lifecycles, more: Threads)
    requires Agreement(threads, lifecycles) && OpeningsNamed(lifecycles)
    ensures Agreement(Delete(threads, "") + more, lifecycles)
  {
    forall l | l in lifecycles && OpensAction(l.value.event) ensures RememberedIn(Delete(threads, "") + more, l) {
      StillRemembered(threads, more, "", l);
    }
  }

  lemma {:induction false} CloseEachKeepsAgreement(threads: Threads, lifecycles: Lifecycles, gone: Threads, e: Event, stamp: nat, bound: nat)
    requires Agreement(threads, lifecycles) && !OpensAction(e)
    ensures Agreement(DeleteEach(threads, gone), TouchAll(lifecycles, Closings(gone, e, stamp), bound))
    decreases |gone|
  {
    if gone != [] {
      var x := Entry(gone[0].key, Lifecycle(stamp, e, gone[0].value.threadId));
      assert Closings(gone, e, stamp)[0] == x;
      assert Closings(gone, e, stamp)[1..] == Closings(gone[1..], e, stamp);
      CloseKeepsAgreement(threads, lifecycles, x);
      FewerLifecyclesAgree(Delete(threads, x.key), Delete(lifecycles, x.key) + [x], bound);
      CloseEachKeepsAgreement(Delete(threads, x.key), Touch(lifecycles, x, bound), gone[1..], e, stamp, bound);
    }
  }

  /** Evicting the oldest remembered action breaks the agreement exactly when its lifecycle is retained. */
  lemma EvictBreaksIff(threads: Threads, lifecycles: Lifecycles)
    requires Agreement(threads, lifecycles) && threads != []
    requires Distinct(threads) && OpeningsNamed(lifecycles) && Paired(threads, lifecycles)
    ensures Agreement(threads[1..], lifecycles) <==> threads[0].key == "" || threads[0].key !in Keys(lifecycles)
  {
    var oldest, kept := threads[0], threads[1..];
    assert threads == [oldest] + kept;
    if oldest.key != "" && oldest.key in Keys(lifecycles) {
      var i :| 0 <= i < |lifecycles| && lifecycles[i].key == oldest.key;
      assert PairFits(lifecycles[i], oldest, Keys(lifecycles));
      forall t | t in kept ensures t.key != oldest.key {
        var j :| 0 <= j < |kept| && kept[j] == t;
        assert threads[j + 1] == t;
      }
      assert !RememberedIn(kept, lifecycles[i]);
    } else {
      forall l | l in lifecycles && OpensAction(l.value.event) ensures RememberedIn(kept, l) {
        InKeys(lifecycles, l);
        var t :| t in threads && SameRecord(l, t);
      }
    }
  }

  /** The remembered actions with the new one, before the bound is applied. */
  ghost function Gathered(s: State, e: Event): Threads
    requires OpensAction(e) && Resolve(s.actionThreads, e).Some?
  {
    var t := MemoryOf(s, e, Resolve(s.actionThreads, e).value);
    Delete(s.actionThreads, t.key) + [t]
  }

  lemma GatheredTidy(lim: Bounds, s: State, e: Event)
    requires MapsTidy(lim, s.actionThreads, s.actionLifecycles, s.latestSeq)
    requires OpensAction(e) && Resolve(s.actionThreads, e).Some?
    ensures Tidy(Gathered(s, e), NextLifecycles(lim, s, e), s.latestSeq + 1)
  {
    var thread := Resolve(s.actionThreads, e).value;
    ActionTouches(lim, s, e);
    OpeningGathersTidy(lim, s.actionThreads, s.actionLifecycles, NextLifecycles(lim, s, e),
                       RecordOf(s, e, thread), MemoryOf(s, e, thread), s.latestSeq);
  }

  lemma GatheredAgrees(lim: Bounds, s: State, e: Event)
    requires Agrees(s) && OpeningsNamed(s.actionLifecycles)
    requires OpensAction(e) && Resolve(s.actionThreads, e).Some?
    ensures Agreement(Gathered(s, e), NextLifecycles(lim, s, e))
  {
    var thread := Resolve(s.actionThreads, e).value;
    var x, t := RecordOf(s, e, thread), MemoryOf(s, e, thread);
    ActionTouches(lim, s, e);
    if x.key == "" {
      UnnamedLeaves(s.actionThreads, s.actionLifecycles, [t]);
    } else {
      OpenKeepsAgreement(s.actionThreads, s.actionLifecycles, x, t);
      FewerLifecyclesAgree(Gathered(s, e), Delete(s.actionLifecycles, x.key) + [x], lim.actions);
    }
  }

  /** The event remembers one action more than there is room for, and the one pushed out is still retained. */
  ghost predicate PushesOutRetained(lim: Bounds, s: State, e: Event) {
    && OpensAction(e) && Resolve(s.actionThreads, e).Some?
    && |s.actionThreads| == lim.total && e.action.actionId !in Keys(s.actionThreads)
    && s.actionThreads[0].key != "" && s.actionThreads[0].key in Keys(NextLifecycles(lim, s, e))
  }

  lemma GatheredSize(lim: Bounds, s: State, e: Event)
    requires |s.actionThreads| <= lim.total && Distinct(s.actionThreads)
    requires OpensAction(e) && Resolve(s.actionThreads, e).Some?
    ensures var all := Gathered(s, e);
            && NextThreads(lim, s, e) == LastN(all, lim.total)
            && (|all| > lim.total <==> |s.actionThreads| == lim.total && e.action.actionId !in Keys(s.actionThreads))
            && (|all| > lim.total ==> all[0] == s.actionThreads[0] && LastN(all, lim.total) == all[1..])
  {
    OpeningRemembers(lim, s, e);
    var id := e.action.actionId;
    if id in Keys(s.actionThreads) {
      DeletePresent(s.actionThreads, id);
    } else {
      DeleteAbsent(s.actionThreads, id);
      assert Gathered(s, e)[..|s.actionThreads|] == s.actionThreads;
    }
  }

  lemma OpeningBreaksIff(lim: Bounds, s: State, e: Event)
    requires MapsTidy(lim, s.actionThreads, s.actionLifecycles, s.latestSeq) && Agrees(s) && OpensAction(e)
    ensures AgreesNext(lim, s, e) <==> !PushesOutRetained(lim, s, e)
  {
    if Resolve(s.actionThreads, e).None? {
      ActionTouches(lim, s, e);
      OpeningRemembers(lim, s, e);
    } else {
      GatheredTidy(lim, s, e);
      GatheredAgrees(lim, s, e);
      GatheredSize(lim, s, e);
      if |Gathered(s, e)| > lim.total {
        EvictBreaksIff(Gathered(s, e), NextLifecycles(lim, s, e));
      }
    }
  }

  lemma ClosingKeepsAgreement(lim: Bounds, s: State, e: Event)
    requires MapsTidy(lim, s.actionThreads, s.actionLifecycles, s.latestSeq) && Agrees(s) && ClosesAction(e)
    ensures AgreesNext(lim, s, e)
  {
    var thread := Resolve(s.actionThreads, e);
    ActionTouches(lim, s, e);
    ClosingForgets(lim, s, e);
    if e.actionId == "" {
      UnnamedLeaves(s.actionThreads, s.actionLifecycles, []);
      assert Delete(s.actionThreads, "") + [] == Delete(s.actionThreads, "");
    } else if thread.Some? {
      var x := RecordOf(s, e, thread.value);
      CloseKeepsAgreement(s.actionThreads, s.actionLifecycles, x);
      FewerLifecyclesAgree(Delete(s.actionThreads, x.key), Delete(s.actionLifecycles, x.key) + [x], lim.actions);
    } else {
      FindMeans(s.actionThreads, e.actionId);
      DeleteAbsent(s.actionThreads, e.actionId);
    }
  }

  lemma CompletionKeepsAgreement(lim: Bounds, s: State, e: Event)
    requires Agrees(s) && Distinct(s.actionThreads) && e.TurnCompleted?
    ensures AgreesNext(lim, s, e)
  {
    var thread := Resolve(s.actionThreads, e);
    CompletionAppends(lim, s, e);
    UnsettledIsRest(s.actionThreads, e.turnId, thread);
    CloseEachKeepsAgreement(s.actionThreads, s.actionLifecycles,
                            SettledActions(s.actionThreads, e.turnId, thread), e, s.latestSeq + 1, lim.actions);
  }

  lemma StepBreaksIff(lim: Bounds, s: State, e: Event)
    requires MapsTidy(lim, s.actionThreads, s.actionLifecycles, s.latestSeq) && Agrees(s)
    ensures AgreesNext(lim, s, e) <==> !PushesOutRetained(lim, s, e)
  {
    if OpensAction(e) {
      OpeningBreaksIff(lim, s, e);
    } else if ClosesAction(e) {
      ClosingKeepsAgreement(lim, s, e);
    } else if e.TurnCompleted? {
      CompletionKeepsAgreement(lim, s, e);
    } else {
      OtherwiseUnchanged(lim, s, e);
    }
  }

  // ----- whole runs -----

  /**
   From any reached journal whose maps agree, the next event breaks the
   agreement exactly when it opens an action that is not yet remembered, of a
   known thread, with the remembered map full and its oldest action named and
   still retained.
   */
  lemma AppendBreaksAgreementIff(lim: Bounds, events: seq<Event>, e: Event)
    requires Agrees(Run(lim, events))
    ensures Agrees(Run(lim, events + [e])) <==> !PushesOutRetained(lim, Run(lim, events), e)
  {
    MapsStayTidy(lim, events);
    RunPush(lim, events, e);
    StepBreaksIff(lim, Run(lim, events), e);
  }

  ghost predicate AgreesThroughout(lim: Bounds, events: seq<Event>) {
    forall n :: 0 <= n <= |events| ==> Agrees(Run(lim, events[..n]))
  }

  ghost predicate NeverPushesOut(lim: Bounds, events: seq<Event>) {
    forall n :: 0 <= n < |events| ==> !PushesOutRetained(lim, Run(lim, events[..n]), events[n])
  }

  lemma NextAgreesIff(lim: Bounds, events: seq<Event>, n: nat)
    requires n < |events| && Agrees(Run(lim, events[..n]))
    ensures Agrees(Run(lim, events[..n + 1])) <==> !PushesOutRetained(lim, Run(lim, events[..n]), events[n])
  {
    assert events[..n + 1] == events[..n] + [events[n]];
    AppendBreaksAgreementIff(lim, events[..n], events[n]);
  }

  lemma {:induction false} PrefixAgrees(lim: Bounds, events: seq<Event>, n: nat)
    requires n <= |events| && NeverPushesOut(lim, events)
    ensures Agrees(Run(lim, events[..n]))
  {
    if n == 0 {
      assert events[..0] == [];
    } else {
      PrefixAgrees(lim, events, n - 1);
      NextAgreesIff(lim, events, n - 1);
    }
  }

  /** The maps agree all along a run exactly when none of its events pushes out a retained action. */
  lemma RunAgreesIff(lim: Bounds, events: seq<Event>)
    ensures AgreesThroughout(lim, events) <==> NeverPushesOut(lim, events)
  {
    if NeverPushesOut(lim, events) {
      forall n | 0 <= n <= |events| ensures Agrees(Run(lim, events[..n])) { PrefixAgrees(lim, events, n); }
    }
    if AgreesThroughout(lim, events) {
      forall n | 0 <= n < |events| ensures !PushesOutRetained(lim, Run(lim, events[..n]), events[n]) {
        NextAgreesIff(lim, events, n);
      }
    }
  }
}
