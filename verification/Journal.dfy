/** `GatewayEventJournal` with its mutable indexes, proved to follow the model of the whole history. */
module Journal {
  import opened Sequences
  import opened RecencyMap
  import opened EventRing
  import opened GatewayEvents
  import opened JournalModel

  lemma {:induction false} SettledConcat(a: seq<Entry<Remembered>>, b: seq<Entry<Remembered>>, turnId: string, thread: Option<string>)
    ensures SettledActions(a + b, turnId, thread) == SettledActions(a, turnId, thread) + SettledActions(b, turnId, thread)
  {
    if a == [] {
      assert a + b == b;
    } else {
      assert (a + b)[0] == a[0] && (a + b)[1..] == a[1..] + b;
      SettledConcat(a[1..], b, turnId, thread);
      ConcatAssociates(if SettledByTurn(a[0].value, turnId, thread) then [a[0]] else [],
                       SettledActions(a[1..], turnId, thread), SettledActions(b, turnId, thread));
    }
  }

  lemma SettledPush(threads: seq<Entry<Remembered>>, x: Entry<Remembered>, turnId: string, thread: Option<string>)
    ensures SettledActions(threads + [x], turnId, thread) ==
            SettledActions(threads, turnId, thread) + if SettledByTurn(x.value, turnId, thread) then [x] else []
  {
    SettledConcat(threads, [x], turnId, thread);
    assert [x][1..] == [];
  }

  lemma {:induction false} UnsettledConcat(a: seq<Entry<Remembered>>, b: seq<Entry<Remembered>>, turnId: string, thread: Option<string>)
    ensures UnsettledActions(a + b, turnId, thread) == UnsettledActions(a, turnId, thread) + UnsettledActions(b, turnId, thread)
  {
    if a == [] {
      assert a + b == b;
    } else {
      assert (a + b)[0] == a[0] && (a + b)[1..] == a[1..] + b;
      UnsettledConcat(a[1..], b, turnId, thread);
      ConcatAssociates(if SettledByTurn(a[0].value, turnId, thread) then [] else [a[0]],
                       UnsettledActions(a[1..], turnId, thread), UnsettledActions(b, turnId, thread));
    }
  }

  lemma UnsettledPush(threads: seq<Entry<Remembered>>, x: Entry<Remembered>, turnId: string, thread: Option<string>)
    ensures UnsettledActions(threads + [x], turnId, thread) ==
            UnsettledActions(threads, turnId, thread) + if SettledByTurn(x.value, turnId, thread) then [] else [x]
  {
    UnsettledConcat(threads, [x], turnId, thread);
    assert [x][1..] == [];
  }

  lemma FollowsNext(bounds: Bounds, history: seq<Event>, s: State, e: Event)
    requires s == Run(bounds, history)
    ensures JournalModel.Append(bounds, s, e) == Run(bounds, history + [e])
    ensures JournalModel.Append(bounds, s, e).latestSeq == |history + [e]|
  {
    RunPush(bounds, history, e);
    LatestSeqCounts(bounds, history + [e]);
  }

  /** One turn of the lifecycle loop over the remembered actions. */
  lemma CloseNext(m: seq<Entry<Lifecycle>>, threads: seq<Entry<Remembered>>, i: nat, e: Event, thread: Option<string>, stamp: nat, bound: nat)
    requires i < |threads| && e.TurnCompleted?
    ensures var x, prior := threads[i], TouchAll(m, Closings(SettledActions(threads[..i], e.turnId, thread), e, stamp), bound);
            TouchAll(m, Closings(SettledActions(threads[..i + 1], e.turnId, thread), e, stamp), bound) ==
            if SettledByTurn(x.value, e.turnId, thread) then Touch(prior, Entry(x.key, Lifecycle(stamp, e, x.value.threadId)), bound)
            else prior
  {
    var x, settled := threads[i], SettledActions(threads[..i], e.turnId, thread);
    assert threads[..i + 1] == threads[..i] + [x];
    SettledPush(threads[..i], x, e.turnId, thread);
    if SettledByTurn(x.value, e.turnId, thread) {
      var closing := Entry(x.key, Lifecycle(stamp, e, x.value.threadId));
      assert Closings(settled + [x], e, stamp) == Closings(settled, e, stamp) + [closing];
      TouchAllPush(m, Closings(settled, e, stamp), closing, bound);
    } else {
      assert settled + [] == settled;
    }
  }

  /** One turn of the loop that forgets settled actions. */
  lemma ForgetNext(all: seq<Entry<Remembered>>, i: nat, turnId: string, thread: Option<string>)
    requires i < |all| && Distinct(UnsettledActions(all[..i], turnId, thread) + all[i..])
    ensures var now := UnsettledActions(all[..i], turnId, thread) + all[i..];
            var next := UnsettledActions(all[..i + 1], turnId, thread) + all[i + 1..];
            Distinct(next) && next == if SettledByTurn(all[i].value, turnId, thread) then Delete(now, all[i].key) else now
  {
    var kept, x, rest := UnsettledActions(all[..i], turnId, thread), all[i], all[i + 1..];
    assert all[..i + 1] == all[..i] + [x];
    UnsettledPush(all[..i], x, turnId, thread);
    assert all[i..] == [x] + rest;
    if SettledByTurn(x.value, turnId, thread) {
      assert kept + [] == kept;
      DeleteOnly(kept, x, rest);
      DeleteDistinct(kept + ([x] + rest), x.key);
    } else {
      ConcatAssociates(kept, [x], rest);
    }
  }

  lemma DeleteOnly(front: seq<Entry<Remembered>>, x: Entry<Remembered>, back: seq<Entry<Remembered>>)
    requires Distinct(front + ([x] + back))
    ensures Delete(front + ([x] + back), x.key) == front + back
  {
    var all := front + ([x] + back);
    DeleteConcat(front, [x] + back, x.key);
    assert all[|front|] == x;
    forall i | 0 <= i < |front| ensures front[i].key != x.key { assert front[i] == all[i]; }
    forall i | 0 <= i < |back| ensures back[i].key != x.key { assert back[i] == all[|front| + 1 + i]; }
    DeleteAbsent(front, x.key);
    DeleteAbsent(back, x.key);
    assert ([x] + back)[1..] == back;
  }

  class GatewayEventJournal {
    const bounds: Bounds
    const global: Ring<Routed>
    var actionLifecycles: seq<Entry<Lifecycle>>
    var actionThreads: seq<Entry<Remembered>>
    var perThread: map<string, Ring<Event>>
    var teamLifecycleSequences: map<string, nat>
    var latestSeq: nat

    /** Every event appended so far, what each thread's ring holds, and the objects behind those rings. */
    ghost var history: seq<Event>
    ghost var rings: map<string, seq<Item>>
    ghost var repr: set<object>

    ghost predicate RingValid(t: string)
      requires t in perThread && t in rings
      reads this`perThread, this`rings, this`repr, repr
    {
      && perThread[t] in repr && perThread[t].buffer in repr
      && perThread[t].Valid()
      && perThread[t].capacity == bounds.perThread
      && perThread[t].contents == rings[t]
    }

    /** The rings are separate objects over separate buffers and hold `rings`. */
    ghost predicate RingsValid()
      reads this`perThread, this`rings, this`repr, repr
    {
      && this !in repr && global !in repr && global.buffer !in repr
      && rings.Keys == perThread.Keys
      && (forall t | t in perThread :: RingValid(t))
      && (forall t, u | t in perThread && u in perThread && t != u ::
            perThread[t] != perThread[u] && perThread[t].buffer != perThread[u].buffer)
    }

    ghost function Abs(): State
      reads this, global
    {
      State(actionLifecycles, actionThreads, global.contents, rings, teamLifecycleSequences, latestSeq)
    }

    ghost predicate IndexesValid()
      reads this`perThread, this`rings, this`repr, this`actionLifecycles, this`actionThreads, repr, global, global.buffer
    {
      && RingsValid()
      && global.Valid() && global.capacity == bounds.total
      && Distinct(actionLifecycles) && Distinct(actionThreads)
    }

    /** The indexes hold exactly what the events appended so far call for. */
    ghost predicate Valid()
      reads this, repr, global, global.buffer
    {
      IndexesValid() && Abs() == Run(bounds, history)
    }

    constructor (bounds: Bounds)
      ensures Valid() && fresh(repr) && fresh(global) && fresh(global.buffer)
      ensures this.bounds == bounds && history == []
    {
      this.bounds := bounds;
      global := new Ring(bounds.total);
      actionLifecycles, actionThreads := [], [];
      perThread, teamLifecycleSequences := map[], map[];
      latestSeq := 0;
      history, rings, repr := [], map[], {};
    }

    method RememberActionLifecycle(actionId: string, record: Lifecycle)
      requires Distinct(actionLifecycles)
      modifies this`actionLifecycles
      ensures Distinct(actionLifecycles)
      ensures actionLifecycles == Touch(old(actionLifecycles), Entry(actionId, record), bounds.actions)
    {
      TouchDistinct(actionLifecycles, Entry(actionId, record), bounds.actions);
      actionLifecycles := Delete(actionLifecycles, actionId);
      actionLifecycles := actionLifecycles + [Entry(actionId, record)];
      actionLifecycles := EvictOldest(actionLifecycles, bounds.actions);
    }

    method UpdateActionLifecycle(event: Event, threadId: Option<string>, stamp: nat)
      requires Distinct(actionLifecycles)
      modifies this`actionLifecycles
      ensures Distinct(actionLifecycles)
      ensures actionLifecycles == TouchAll(old(actionLifecycles), Touches(actionThreads, event, threadId, stamp), bounds.actions)
    {
      if event.TurnCompleted? {
        for i := 0 to |actionThreads|
          invariant Distinct(actionLifecycles)
          invariant actionLifecycles == TouchAll(old(actionLifecycles),
            Closings(SettledActions(actionThreads[..i], event.turnId, threadId), event, stamp), bounds.actions)
        {
          var Entry(actionId, action) := actionThreads[i];
          CloseNext(old(actionLifecycles), actionThreads, i, event, threadId, stamp, bounds.actions);
          if SettledByTurn(action, event.turnId, threadId) {
            RememberActionLifecycle(actionId, Lifecycle(stamp, event, action.threadId));
          }
        }
        assert actionThreads[..|actionThreads|] == actionThreads;
        return;
      }
      if threadId.None? {
        return;
      }
      var actionId := ActionIdOf(event);
      if actionId.None? || actionId.value == "" {
        return;
      }
      TouchOne(actionLifecycles, Entry(actionId.value, Lifecycle(stamp, event, threadId.value)), bounds.actions);
      RememberActionLifecycle(actionId.value, Lifecycle(stamp, event, threadId.value));
    }

    method ForgetSettled(turnId: string, threadId: Option<string>)
      requires Distinct(actionThreads)
      modifies this`actionThreads
      ensures Distinct(actionThreads)
      ensures actionThreads == UnsettledActions(old(actionThreads), turnId, threadId)
    {
      var all := actionThreads;
      assert UnsettledActions(all[..0], turnId, threadId) + all[0..] == all;
      for i := 0 to |all|
        invariant Distinct(actionThreads)
        invariant actionThreads == UnsettledActions(all[..i], turnId, threadId) + all[i..]
      {
        var Entry(actionId, action) := all[i];
        ForgetNext(all, i, turnId, threadId);
        if SettledByTurn(action, turnId, threadId) {
          actionThreads := Delete(actionThreads, actionId);
        }
      }
      assert all[..|all|] == all;
    }

    method UpdateActionThreads(event: Event, threadId: Option<string>, stamp: nat)
      requires Distinct(actionThreads)
      modifies this`actionThreads
      ensures Distinct(actionThreads)
      ensures actionThreads == NextActionThreads(bounds, old(actionThreads), event, threadId, stamp)
    {
      if ClosesAction(event) {
        DeleteDistinct(actionThreads, event.actionId);
        actionThreads := Delete(actionThreads, event.actionId);
        return;
      }
      if event.TurnCompleted? {
        ForgetSettled(event.turnId, threadId);
        return;
      }
      if !OpensAction(event) || threadId.None? {
        return;
      }
      var entry := Entry(event.action.actionId, Remembered(stamp, threadId.value, event.action.turnId));
      TouchDistinct(actionThreads, entry, bounds.total);
      actionThreads := Delete(actionThreads, entry.key);
      actionThreads := actionThreads + [entry];
      actionThreads := EvictOldest(actionThreads, bounds.total);
    }

    /** Changing one thread's ring leaves the others as they were. */
    twostate lemma OthersStay(threadId: string)
      requires old(RingsValid()) && threadId in perThread
      requires perThread == old(perThread) && repr == old(repr)
      requires forall o: object | o in repr && o != perThread[threadId] && o != perThread[threadId].buffer :: unchanged(o)
      requires rings.Keys == perThread.Keys && RingValid(threadId)
      requires forall t | t in perThread && t != threadId :: rings[t] == old(rings)[t]
      ensures RingsValid()
    {
      forall t | t in perThread && t != threadId ensures RingValid(t) {
        assert old(RingValid(t));
      }
    }

    method TrimRing(threadId: string, stamp: nat) returns (empty: bool)
      requires RingsValid() && threadId in perThread
      modifies this`rings, repr
      ensures RingsValid()
      ensures rings == old(rings)[threadId := WithoutOldest(old(rings)[threadId], stamp)]
      ensures empty <==> WithoutOldest(old(rings)[threadId], stamp) == []
    {
      var ring := perThread[threadId];
      assert RingValid(threadId);
      ring.RemoveOldest(stamp);
      empty := ring.size == 0;
      rings := rings[threadId := ring.contents];
      OthersStay(threadId);
    }

    method PushToRing(threadId: string, item: Item)
      requires RingsValid() && threadId in perThread
      modifies this`rings, repr
      ensures RingsValid()
      ensures rings == old(rings)[threadId := Pushed(old(rings)[threadId], item, bounds.perThread)]
    {
      var ring := perThread[threadId];
      assert RingValid(threadId);
      var _ := ring.Push(item);
      rings := rings[threadId := ring.contents];
      OthersStay(threadId);
    }

    method AddRing(threadId: string)
      requires RingsValid() && threadId !in perThread
      modifies this`perThread, this`rings, this`repr
      ensures RingsValid() && fresh(repr - old(repr))
      ensures rings == old(rings)[threadId := []] && threadId in perThread
    {
      var ring := new Ring<Event>(bounds.perThread);
      perThread := perThread[threadId := ring];
      rings := rings[threadId := []];
      repr := repr + {ring, ring.buffer};
      forall t | t in perThread && t != threadId ensures RingValid(t) {
        assert old(RingValid(t));
      }
    }

    method DropRing(threadId: string)
      requires RingsValid() && threadId in perThread
      modifies this`perThread, this`rings
      ensures RingsValid()
      ensures rings == old(rings) - {threadId}
    {
      perThread := perThread - {threadId};
      rings := rings - {threadId};
      forall t | t in perThread ensures RingValid(t) {
        assert old(RingValid(t));
      }
    }

    /** Removes one event from the front of a thread's ring, and the thread with its last event. */
    method ForgetOldest(threadId: string, stamp: nat)
      requires RingsValid() && threadId in perThread
      modifies this`perThread, this`teamLifecycleSequences, this`rings, repr
      ensures RingsValid()
      ensures var left := WithoutOldest(old(rings)[threadId], stamp);
              && rings == (if left == [] then old(rings) - {threadId} else old(rings)[threadId := left])
              && teamLifecycleSequences ==
                   if left == [] then old(teamLifecycleSequences) - {threadId} else old(teamLifecycleSequences)
    {
      var empty := TrimRing(threadId, stamp);
      if empty {
        DropRing(threadId);
        assert rings == old(rings) - {threadId};
        teamLifecycleSequences := teamLifecycleSequences - {threadId};
      }
    }

    /** Follows a record that left the global ring into its thread's ring. */
    method ForgetEvicted(evicted: Option<Record>)
      requires RingsValid()
      modifies this`perThread, this`teamLifecycleSequences, this`rings, repr
      ensures RingsValid()
      ensures rings == ForgetItem(old(rings), evicted)
      ensures teamLifecycleSequences == ForgetRevision(old(teamLifecycleSequences), old(rings), evicted)
    {
      if evicted.Some? && evicted.value.payload.threadId.Some? {
        var threadId := evicted.value.payload.threadId.value;
        if threadId in perThread {
          ForgetOldest(threadId, evicted.value.stamp);
        }
      }
    }

    method PushToThread(threadId: string, item: Item)
      requires RingsValid()
      modifies this`perThread, this`rings, this`repr, repr
      ensures RingsValid() && fresh(repr - old(repr))
      ensures rings == old(rings)[threadId := Pushed(Items(old(rings), threadId), item, bounds.perThread)]
    {
      if threadId !in perThread {
        AddRing(threadId);
      }
      PushToRing(threadId, item);
    }

    /** Files a routed event in the rings and the revisions. */
    method Record(event: Event, threadId: Option<string>, stamp: nat)
      requires RingsValid() && global.Valid() && global.capacity == bounds.total
      modifies this`perThread, this`teamLifecycleSequences, this`rings, this`repr, global, global.buffer, repr
      ensures RingsValid() && global.Valid() && fresh(repr - old(repr))
      ensures global.contents == Pushed(old(global.contents), Stamped(stamp, Routed(event, threadId)), bounds.total)
      ensures var left := ForgetItem(old(rings), Evicted(bounds, old(global.contents)));
              rings == if threadId.None? then left
                       else left[threadId.value := Pushed(Items(left, threadId.value), Stamped(stamp, event), bounds.perThread)]
      ensures var left := ForgetRevision(old(teamLifecycleSequences), old(rings), Evicted(bounds, old(global.contents)));
              teamLifecycleSequences ==
                if threadId.Some? && IsTeamLifecycle(event) then left[threadId.value := stamp] else left
    {
      var evicted := global.Push(Stamped(stamp, Routed(event, threadId)));
      ForgetEvicted(evicted);
      if threadId.Some? {
        PushToThread(threadId.value, Stamped(stamp, event));
        if IsTeamLifecycle(event) {
          teamLifecycleSequences := teamLifecycleSequences[threadId.value := stamp];
        }
      }
    }

    /** Numbers an event, finds its thread and updates both action maps. */
    method IndexAction(event: Event) returns (stamp: nat, threadId: Option<string>)
      requires Distinct(actionLifecycles) && Distinct(actionThreads)
      modifies this`latestSeq, this`actionLifecycles, this`actionThreads
      ensures Distinct(actionLifecycles) && Distinct(actionThreads)
      ensures stamp == latestSeq == old(latestSeq) + 1 && threadId == Resolve(old(actionThreads), event)
      ensures actionLifecycles == TouchAll(old(actionLifecycles), Touches(old(actionThreads), event, threadId, stamp), bounds.actions)
      ensures actionThreads == NextActionThreads(bounds, old(actionThreads), event, threadId, stamp)
    {
      latestSeq := latestSeq + 1;
      stamp := latestSeq;
      threadId := Resolve(actionThreads, event);
      UpdateActionLifecycle(event, threadId, stamp);
      UpdateActionThreads(event, threadId, stamp);
    }

    method Advance(event: Event) returns (stamp: nat)
      requires IndexesValid()
      modifies this`latestSeq, this`actionLifecycles, this`actionThreads, this`perThread, this`teamLifecycleSequences,
               this`rings, this`repr, global, global.buffer, repr
      ensures IndexesValid() && fresh(repr - old(repr))
      ensures Abs() == JournalModel.Append(bounds, old(Abs()), event)
      ensures stamp == latestSeq
    {
      var threadId;
      stamp, threadId := IndexAction(event);
      Record(event, threadId, stamp);
    }

    method Append(event: Event) returns (stamp: nat)
      requires Valid()
      modifies this, global, global.buffer, repr
      ensures Valid() && fresh(repr - old(repr))
      ensures history == old(history) + [event]
      ensures stamp == |history|
    {
      FollowsNext(bounds, history, Abs(), event);
      stamp := Advance(event);
      history := history + [event];
    }

    method EventsThrough(latest: nat) returns (values: seq<Record>)
      requires Valid()
      ensures values == JournalModel.EventsThrough(Run(bounds, history), latest)
    {
      values := global.ValuesThrough(latest);
    }

    method EventsForThread(threadId: string, latest: nat) returns (values: seq<Item>)
      requires Valid()
      ensures values == JournalModel.EventsForThread(Run(bounds, history), threadId, latest)
    {
      if threadId in perThread {
        assert RingValid(threadId);
        values := perThread[threadId].ValuesThrough(latest);
      } else {
        values := [];
      }
    }

    method ActionLifecyclesForThread(threadId: string, after: nat, latest: nat) returns (values: seq<Lifecycle>)
      requires Valid()
      ensures values == JournalModel.ActionLifecyclesForThread(Run(bounds, history), threadId, after, latest)
    {
      values := SortByStamp(LifecyclesOfThread(actionLifecycles, threadId, after, latest));
    }

    method TeamLifecycleRevision(threadId: string, latest: nat) returns (revision: nat)
      requires Valid()
      ensures revision == JournalModel.TeamLifecycleRevision(Run(bounds, history), threadId, latest)
    {
      revision := if threadId in teamLifecycleSequences then teamLifecycleSequences[threadId] else 0;
      if latest < revision {
        revision := latest;
      }
    }
  }
}
