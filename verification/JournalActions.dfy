/**
 The two action maps of the journal after any appends: what stays true of them
 although each evicts and deletes on its own.
 */
module JournalActions {
  import opened Sequences
  import opened RecencyMap
  import opened GatewayEvents
  import opened JournalModel

  type Threads = seq<Entry<Remembered>>
  type Lifecycles = seq<Entry<Lifecycle>>

  ghost predicate SameRecord(l: Entry<Lifecycle>, t: Entry<Remembered>) {
    l.key == t.key && l.value.stamp == t.value.stamp && l.value.threadId == t.value.threadId
  }

  ghost predicate ThreadsAscend(threads: Threads, latest: nat) {
    && (forall i, j :: 0 <= i < j < |threads| ==> threads[i].value.stamp < threads[j].value.stamp)
    && (forall i :: 0 <= i < |threads| ==> threads[i].value.stamp <= latest)
  }

  ghost predicate NotAfter(a: Entry<Lifecycle>, b: Entry<Lifecycle>) {
    a.value.stamp <= b.value.stamp
  }

  ghost predicate LifecyclesAscend(lifecycles: Lifecycles, latest: nat) {
    && (forall i, j {:trigger NotAfter(lifecycles[i], lifecycles[j])} :: 0 <= i < j < |lifecycles| ==> NotAfter(lifecycles[i], lifecycles[j]))
    && (forall i :: 0 <= i < |lifecycles| ==> lifecycles[i].value.stamp <= latest)
  }

  /** An empty action id is remembered but never recorded as open. */
  ghost predicate OpeningsNamed(lifecycles: Lifecycles) {
    forall l :: l in lifecycles && OpensAction(l.value.event) ==> l.key != ""
  }

  /**
   A remembered action that is retained was last touched by the event that
   opened it, and one remembered after a retained lifecycle is itself retained.
   */
  ghost predicate PairFits(l: Entry<Lifecycle>, t: Entry<Remembered>, retained: set<string>) {
    && (l.key == t.key != "" ==> OpensAction(l.value.event) && SameRecord(l, t))
    && (t.key != "" && t.value.stamp > l.value.stamp ==> t.key in retained)
  }

  ghost predicate Paired(threads: Threads, lifecycles: Lifecycles) {
    forall l, t :: l in lifecycles && t in threads ==> PairFits(l, t, Keys(lifecycles))
  }

  ghost predicate Tidy(threads: Threads, lifecycles: Lifecycles, latest: nat) {
    && Distinct(threads) && Distinct(lifecycles)
    && ThreadsAscend(threads, latest) && LifecyclesAscend(lifecycles, latest)
    && OpeningsNamed(lifecycles) && Paired(threads, lifecycles)
  }

  // ----- the moves an append is made of -----

  lemma PushKeys(lifecycles: Lifecycles, x: Entry<Lifecycle>)
    requires Distinct(lifecycles)
    ensures Keys(Delete(lifecycles, x.key) + [x]) == Keys(lifecycles) + {x.key}
    ensures Distinct(Delete(lifecycles, x.key) + [x])
  {
    DeleteDistinct(lifecycles, x.key);
    KeysConcat(Delete(lifecycles, x.key), [x]);
    assert Keys([x]) == {x.key} by { KeysHead([x]); }
  }

  lemma {:induction false} DeleteLifecycleAscends(lifecycles: Lifecycles, key: string, latest: nat)
    requires LifecyclesAscend(lifecycles, latest)
    ensures LifecyclesAscend(Delete(lifecycles, key), latest)
  {
    if lifecycles != [] {
      var first, tail := lifecycles[0], lifecycles[1..];
      assert LifecyclesAscend(tail, latest) by {
        forall i, j | 0 <= i < j < |tail| ensures NotAfter(tail[i], tail[j]) {
          assert NotAfter(lifecycles[i + 1], lifecycles[j + 1]);
        }
      }
      DeleteLifecycleAscends(tail, key, latest);
      var rest := Delete(tail, key);
      forall j | 0 <= j < |rest| ensures NotAfter(first, rest[j]) {
        DeleteMember(tail, key, rest[j]);
        var k :| 0 <= k < |tail| && tail[k] == rest[j];
        assert NotAfter(lifecycles[0], lifecycles[k + 1]);
      }
      if first.key != key {
        var all := [first] + rest;
        forall i, j | 0 <= i < j < |all| ensures NotAfter(all[i], all[j]) {
          if i > 0 { assert NotAfter(rest[i - 1], rest[j - 1]); }
        }
      }
    }
  }

  lemma PushAscends(lifecycles: Lifecycles, x: Entry<Lifecycle>, latest: nat)
    requires LifecyclesAscend(lifecycles, latest) && latest <= x.value.stamp
    ensures LifecyclesAscend(Delete(lifecycles, x.key) + [x], x.value.stamp)
  {
    DeleteLifecycleAscends(lifecycles, x.key, latest);
    var rest := Delete(lifecycles, x.key);
    var all := rest + [x];
    forall i, j | 0 <= i < j < |all| ensures NotAfter(all[i], all[j]) {
      if j < |rest| { assert NotAfter(rest[i], rest[j]); }
    }
  }

  lemma {:induction false} DeleteRememberedAscends(threads: Threads, key: string, latest: nat)
    requires ThreadsAscend(threads, latest)
    ensures ThreadsAscend(Delete(threads, key), latest)
  {
    if threads != [] {
      var first, tail := threads[0], threads[1..];
      var rest := Delete(tail, key);
      DeleteRememberedAscends(tail, key, latest);
      forall j | 0 <= j < |rest| ensures first.value.stamp < rest[j].value.stamp {
        DeleteMember(tail, key, rest[j]);
        var k :| 0 <= k < |tail| && tail[k] == rest[j];
        assert threads[k + 1] == rest[j];
      }
      if first.key != key {
        PrependAscends(first, rest, latest);
      }
    }
  }

  lemma PrependAscends(first: Entry<Remembered>, rest: Threads, latest: nat)
    requires ThreadsAscend(rest, latest) && first.value.stamp <= latest
    requires forall j :: 0 <= j < |rest| ==> first.value.stamp < rest[j].value.stamp
    ensures ThreadsAscend([first] + rest, latest)
  {
    var all := [first] + rest;
    forall i, j | 0 <= i < j < |all| ensures all[i].value.stamp < all[j].value.stamp {
      assert all[j] == rest[j - 1];
      if i > 0 { assert all[i] == rest[i - 1]; }
    }
  }

  lemma PushNamed(lifecycles: Lifecycles, x: Entry<Lifecycle>)
    requires OpeningsNamed(lifecycles) && (OpensAction(x.value.event) ==> x.key != "")
    ensures OpeningsNamed(Delete(lifecycles, x.key) + [x])
  {
    DeleteMembers(lifecycles, x.key);
  }

  /** Forgetting an action and recording how it closed. */
  lemma CloseKeepsTidy(threads: Threads, lifecycles: Lifecycles, x: Entry<Lifecycle>, latest: nat)
    requires Tidy(threads, lifecycles, latest)
    requires latest <= x.value.stamp && !OpensAction(x.value.event)
    ensures Tidy(Delete(threads, x.key), Delete(lifecycles, x.key) + [x], x.value.stamp)
  {
    DeleteDistinct(threads, x.key);
    PushKeys(lifecycles, x);
    PushAscends(lifecycles, x, latest);
    PushNamed(lifecycles, x);
    DeleteRememberedAscends(threads, x.key, latest);
    ClosePairs(threads, lifecycles, x, latest);
  }

  lemma StampBound(threads: Threads, latest: nat, t: Entry<Remembered>)
    requires ThreadsAscend(threads, latest) && t in threads
    ensures t.value.stamp <= latest
  {
  }

  lemma ClosePairs(threads: Threads, lifecycles: Lifecycles, x: Entry<Lifecycle>, latest: nat)
    requires Paired(threads, lifecycles) && Distinct(lifecycles) && ThreadsAscend(threads, latest) && latest <= x.value.stamp
    ensures Paired(Delete(threads, x.key), Delete(lifecycles, x.key) + [x])
  {
    var threads', lifecycles' := Delete(threads, x.key), Delete(lifecycles, x.key) + [x];
    PushKeys(lifecycles, x);
    forall l, t | l in lifecycles' && t in threads' ensures PairFits(l, t, Keys(lifecycles')) {
      DeleteMember(threads, x.key, t);
      StampBound(threads, latest, t);
      if l != x {
        DeleteMember(lifecycles, x.key, l);
        assert PairFits(l, t, Keys(lifecycles));
      }
    }
  }

  /** Remembering an action and recording that it opened. */
  lemma OpenKeepsTidy(threads: Threads, lifecycles: Lifecycles, x: Entry<Lifecycle>, t: Entry<Remembered>, latest: nat)
    requires Tidy(threads, lifecycles, latest)
    requires latest < x.value.stamp && OpensAction(x.value.event) && x.key != "" && SameRecord(x, t)
    ensures Tidy(Delete(threads, t.key) + [t], Delete(lifecycles, x.key) + [x], x.value.stamp)
  {
    TouchDistinct(threads, t, 0);
    PushKeys(lifecycles, x);
    PushAscends(lifecycles, x, latest);
    PushNamed(lifecycles, x);
    PushRememberedAscends(threads, t, latest);
    OpenPairs(threads, lifecycles, x, t, latest);
  }

  lemma OpenPairs(threads: Threads, lifecycles: Lifecycles, x: Entry<Lifecycle>, t: Entry<Remembered>, latest: nat)
    requires Paired(threads, lifecycles) && Distinct(lifecycles) && ThreadsAscend(threads, latest)
    requires latest < x.value.stamp && OpensAction(x.value.event) && SameRecord(x, t)
    ensures Paired(Delete(threads, t.key) + [t], Delete(lifecycles, x.key) + [x])
  {
    var threads', lifecycles' := Delete(threads, t.key) + [t], Delete(lifecycles, x.key) + [x];
    PushKeys(lifecycles, x);
    forall l, u | l in lifecycles' && u in threads' ensures PairFits(l, u, Keys(lifecycles')) {
      if l != x { DeleteMember(lifecycles, x.key, l); }
      if u != t {
        DeleteMember(threads, t.key, u);
        StampBound(threads, latest, u);
        if l != x { assert PairFits(l, u, Keys(lifecycles)); }
      }
    }
  }

  lemma PushRememberedAscends(threads: Threads, t: Entry<Remembered>, latest: nat)
    requires ThreadsAscend(threads, latest) && latest < t.value.stamp
    ensures ThreadsAscend(Delete(threads, t.key) + [t], t.value.stamp)
  {
    DeleteRememberedAscends(threads, t.key, latest);
  }

  /** Remembering an action without an id, which is not recorded. */
  lemma OpenUnnamedKeepsTidy(threads: Threads, lifecycles: Lifecycles, t: Entry<Remembered>, latest: nat)
    requires Tidy(threads, lifecycles, latest) && latest < t.value.stamp && t.key == ""
    ensures Tidy(Delete(threads, t.key) + [t], lifecycles, t.value.stamp)
  {
    TouchDistinct(threads, t, 0);
    PushRememberedAscends(threads, t, latest);
    DeleteMembers(threads, t.key);
  }

  /** Forgetting an action and recording nothing. */
  lemma ForgetKeepsTidy(threads: Threads, lifecycles: Lifecycles, key: string, latest: nat, later: nat)
    requires Tidy(threads, lifecycles, latest) && latest <= later
    ensures Tidy(Delete(threads, key), lifecycles, later)
  {
    DeleteDistinct(threads, key);
    DeleteRememberedAscends(threads, key, latest);
    DeleteMembers(threads, key);
  }

  lemma LaterKeepsTidy(threads: Threads, lifecycles: Lifecycles, latest: nat, later: nat)
    requires Tidy(threads, lifecycles, latest) && latest <= later
    ensures Tidy(threads, lifecycles, later)
  {
  }

  /** Evicting the oldest lifecycle: nothing remembered after a kept one is lost. */
  lemma EvictLifecycleKeepsTidy(threads: Threads, lifecycles: Lifecycles, latest: nat)
    requires Tidy(threads, lifecycles, latest) && lifecycles != []
    ensures Tidy(threads, lifecycles[1..], latest)
  {
    var kept := lifecycles[1..];
    forall i, j | 0 <= i < j < |kept| ensures NotAfter(kept[i], kept[j]) {
      assert NotAfter(lifecycles[i + 1], lifecycles[j + 1]);
    }
    EvictPairs(threads, lifecycles, latest);
  }

  lemma EvictPairs(threads: Threads, lifecycles: Lifecycles, latest: nat)
    requires Paired(threads, lifecycles) && LifecyclesAscend(lifecycles, latest) && lifecycles != []
    ensures Paired(threads, lifecycles[1..])
  {
    var oldest, kept := lifecycles[0], lifecycles[1..];
    KeysHead(lifecycles);
    forall l, t | l in kept && t in threads ensures PairFits(l, t, Keys(kept)) {
      var i :| 0 <= i < |kept| && kept[i] == l;
      assert NotAfter(lifecycles[0], lifecycles[i + 1]);
      assert PairFits(l, t, Keys(lifecycles)) && PairFits(oldest, t, Keys(lifecycles));
    }
  }

  lemma EvictRememberedKeepsTidy(threads: Threads, lifecycles: Lifecycles, latest: nat)
    requires Tidy(threads, lifecycles, latest) && threads != []
    ensures Tidy(threads[1..], lifecycles, latest)
  {
    assert threads == [threads[0]] + threads[1..];
  }

  lemma TrimKeepsTidy(lim: Bounds, threads: Threads, lifecycles: Lifecycles, latest: nat)
    requires Tidy(threads, lifecycles, latest) && |threads| <= lim.total + 1 && |lifecycles| <= lim.actions + 1
    ensures Tidy(LastN(threads, lim.total), LastN(lifecycles, lim.actions), latest)
  {
    if |lifecycles| > lim.actions {
      EvictLifecycleKeepsTidy(threads, lifecycles, latest);
      assert LastN(lifecycles, lim.actions) == lifecycles[1..];
    }
    if |threads| > lim.total {
      EvictRememberedKeepsTidy(threads, LastN(lifecycles, lim.actions), latest);
      assert LastN(threads, lim.total) == threads[1..];
    }
  }

  // ----- a completed turn -----

  /** Forgetting a list of actions one by one. */
  function DeleteEach(threads: Threads, gone: Threads): Threads
    decreases |gone|
  {
    if gone == [] then threads else DeleteEach(Delete(threads, gone[0].key), gone[1..])
  }

  lemma {:induction false} DeleteEachSkips(head: Entry<Remembered>, rest: Threads, gone: Threads)
    requires head.key !in Keys(gone)
    ensures DeleteEach([head] + rest, gone) == [head] + DeleteEach(rest, gone)
    decreases |gone|
  {
    if gone != [] {
      KeysHead(gone);
      DeleteEachSkips(head, Delete(rest, gone[0].key), gone[1..]);
      assert ([head] + rest)[1..] == rest;
    }
  }

  lemma {:induction false} SettledAmong(threads: Threads, turnId: string, thread: Option<string>)
    ensures Keys(SettledActions(threads, turnId, thread)) <= Keys(threads)
  {
    if threads != [] {
      KeysHead(threads);
      SettledAmong(threads[1..], turnId, thread);
      var settled := SettledActions(threads, turnId, thread);
      if SettledByTurn(threads[0].value, turnId, thread) {
        KeysHead(settled);
        assert settled[1..] == SettledActions(threads[1..], turnId, thread);
      }
    }
  }

  lemma {:induction false} UnsettledIsRest(threads: Threads, turnId: string, thread: Option<string>)
    requires Distinct(threads)
    ensures DeleteEach(threads, SettledActions(threads, turnId, thread)) == UnsettledActions(threads, turnId, thread)
  {
    if threads != [] {
      var head, rest := threads[0], threads[1..];
      UnsettledIsRest(rest, turnId, thread);
      assert head.key !in Keys(rest);
      if SettledByTurn(head.value, turnId, thread) {
        DeleteAbsent(rest, head.key);
        assert SettledActions(threads, turnId, thread)[1..] == SettledActions(rest, turnId, thread);
      } else {
        SettledAmong(rest, turnId, thread);
        assert SettledActions(threads, turnId, thread) == SettledActions(rest, turnId, thread);
        DeleteEachSkips(head, rest, SettledActions(rest, turnId, thread));
        assert [head] + rest == threads;
      }
    }
  }

  lemma DeleteAddsNoKey(threads: Threads, gone: string, key: string)
    requires key !in Keys(threads)
    ensures key !in Keys(Delete(threads, gone))
  {
    DeleteMembers(threads, gone);
  }

  lemma {:induction false} DeleteEachShrinks(threads: Threads, gone: Threads)
    ensures |DeleteEach(threads, gone)| <= |threads|
    ensures forall key :: key !in Keys(threads) ==> key !in Keys(DeleteEach(threads, gone))
    decreases |gone|
  {
    if gone != [] {
      DeleteEachShrinks(Delete(threads, gone[0].key), gone[1..]);
      forall key | key !in Keys(threads) ensures key !in Keys(Delete(threads, gone[0].key)) {
        DeleteAddsNoKey(threads, gone[0].key, key);
      }
    }
  }

  /** A completed turn closes every action it settles. */
  lemma {:induction false} CloseEachKeepsTidy(lim: Bounds, threads: Threads, lifecycles: Lifecycles, gone: Threads, e: Event, latest: nat, stamp: nat)
    requires Tidy(threads, lifecycles, latest) && |lifecycles| <= lim.actions && |threads| <= lim.total
    requires latest <= stamp && !OpensAction(e)
    ensures var next := TouchAll(lifecycles, Closings(gone, e, stamp), lim.actions);
            |next| <= lim.actions && Tidy(DeleteEach(threads, gone), next, stamp)
    decreases |gone|
  {
    if gone == [] {
      LaterKeepsTidy(threads, lifecycles, latest, stamp);
    } else {
      var x := Entry(gone[0].key, Lifecycle(stamp, e, gone[0].value.threadId));
      assert Closings(gone, e, stamp)[0] == x;
      assert Closings(gone, e, stamp)[1..] == Closings(gone[1..], e, stamp);
      CloseKeepsTidy(threads, lifecycles, x, latest);
      TrimKeepsTidy(lim, Delete(threads, x.key), Delete(lifecycles, x.key) + [x], stamp);
      CloseEachKeepsTidy(lim, Delete(threads, x.key), Touch(lifecycles, x, lim.actions), gone[1..], e, stamp, stamp);
    }
  }

  lemma UnsettledShrinks(threads: Threads, turnId: string, thread: Option<string>)
    requires Distinct(threads)
    ensures var next := UnsettledActions(threads, turnId, thread);
            |next| <= |threads| && ("" !in Keys(threads) ==> "" !in Keys(next))
  {
    UnsettledIsRest(threads, turnId, thread);
    DeleteEachShrinks(threads, SettledActions(threads, turnId, thread));
  }

  // ----- what one append does to the maps -----

  function RecordOf(s: State, e: Event, thread: string): Entry<Lifecycle>
    requires ActionIdOf(e).Some?
  {
    Entry(ActionIdOf(e).value, Lifecycle(s.latestSeq + 1, e, thread))
  }

  function MemoryOf(s: State, e: Event, thread: string): Entry<Remembered>
    requires OpensAction(e)
  {
    Entry(e.action.actionId, Remembered(s.latestSeq + 1, thread, e.action.turnId))
  }

  lemma ActionTouches(lim: Bounds, s: State, e: Event)
    requires ActionIdOf(e).Some?
    ensures var thread := Resolve(s.actionThreads, e);
            NextLifecycles(lim, s, e) ==
            if thread.Some? && ActionIdOf(e).value != "" then Touch(s.actionLifecycles, RecordOf(s, e, thread.value), lim.actions)
            else s.actionLifecycles
  {
    var thread := Resolve(s.actionThreads, e);
    if thread.Some? && ActionIdOf(e).value != "" {
      var x := RecordOf(s, e, thread.value);
      assert Touches(s.actionThreads, e, thread, s.latestSeq + 1) == [x];
      TouchOne(s.actionLifecycles, x, lim.actions);
    }
  }

  lemma OpeningRemembers(lim: Bounds, s: State, e: Event)
    requires OpensAction(e)
    ensures var thread := Resolve(s.actionThreads, e);
            NextThreads(lim, s, e) ==
            if thread.Some? then Touch(s.actionThreads, MemoryOf(s, e, thread.value), lim.total) else s.actionThreads
  {
  }

  lemma ClosingForgets(lim: Bounds, s: State, e: Event)
    requires ClosesAction(e)
    ensures NextThreads(lim, s, e) == Delete(s.actionThreads, e.actionId)
  {
  }

  lemma CompletionAppends(lim: Bounds, s: State, e: Event)
    requires e.TurnCompleted?
    ensures var thread := Resolve(s.actionThreads, e);
            && NextThreads(lim, s, e) == UnsettledActions(s.actionThreads, e.turnId, thread)
            && NextLifecycles(lim, s, e) == TouchAll(s.actionLifecycles,
                 Closings(SettledActions(s.actionThreads, e.turnId, thread), e, s.latestSeq + 1), lim.actions)
  {
  }

  lemma OtherwiseUnchanged(lim: Bounds, s: State, e: Event)
    requires ActionIdOf(e).None? && !e.TurnCompleted?
    ensures NextThreads(lim, s, e) == s.actionThreads && NextLifecycles(lim, s, e) == s.actionLifecycles
  {
  }

  /** What every append keeps about the two maps, whatever ids and bounds. */
  ghost predicate MapsTidy(lim: Bounds, threads: Threads, lifecycles: Lifecycles, latest: nat) {
    Tidy(threads, lifecycles, latest) && |lifecycles| <= lim.actions && |threads| <= lim.total
  }

  /** The lifecycles once an opening event is recorded, which it is unless its action has no id. */
  function Recorded(lim: Bounds, lifecycles: Lifecycles, x: Entry<Lifecycle>): Lifecycles {
    if x.key == "" then lifecycles else Touch(lifecycles, x, lim.actions)
  }

  /** The new action remembered and recorded, before the remembered map is trimmed. */
  lemma OpeningGathersTidy(lim: Bounds, threads: Threads, lifecycles: Lifecycles, next: Lifecycles,
                           x: Entry<Lifecycle>, t: Entry<Remembered>, latest: nat)
    requires MapsTidy(lim, threads, lifecycles, latest) && next == Recorded(lim, lifecycles, x)
    requires latest < x.value.stamp && OpensAction(x.value.event) && SameRecord(x, t)
    ensures Tidy(Delete(threads, t.key) + [t], next, x.value.stamp)
  {
    if x.key == "" {
      OpenUnnamedKeepsTidy(threads, lifecycles, t, latest);
    } else {
      var all := Delete(lifecycles, x.key) + [x];
      OpenKeepsTidy(threads, lifecycles, x, t, latest);
      if |all| > lim.actions {
        EvictLifecycleKeepsTidy(Delete(threads, t.key) + [t], all, x.value.stamp);
        assert LastN(all, lim.actions) == all[1..];
      }
    }
  }

  lemma OpeningKeepsTidy(lim: Bounds, threads: Threads, lifecycles: Lifecycles, x: Entry<Lifecycle>, t: Entry<Remembered>, latest: nat)
    requires MapsTidy(lim, threads, lifecycles, latest)
    requires latest < x.value.stamp && OpensAction(x.value.event) && SameRecord(x, t)
    ensures MapsTidy(lim, Touch(threads, t, lim.total), Recorded(lim, lifecycles, x), x.value.stamp)
  {
    var next := Recorded(lim, lifecycles, x);
    OpeningGathersTidy(lim, threads, lifecycles, next, x, t, latest);
    TrimKeepsTidy(lim, Delete(threads, t.key) + [t], next, x.value.stamp);
    assert LastN(next, lim.actions) == next;
  }

  lemma ClosingKeepsTidy(lim: Bounds, threads: Threads, lifecycles: Lifecycles, x: Entry<Lifecycle>, latest: nat)
    requires MapsTidy(lim, threads, lifecycles, latest) && latest <= x.value.stamp && !OpensAction(x.value.event)
    ensures MapsTidy(lim, Delete(threads, x.key), Touch(lifecycles, x, lim.actions), x.value.stamp)
  {
    CloseKeepsTidy(threads, lifecycles, x, latest);
    TrimKeepsTidy(lim, Delete(threads, x.key), Delete(lifecycles, x.key) + [x], x.value.stamp);
  }

  lemma CompletionKeepsTidy(lim: Bounds, threads: Threads, lifecycles: Lifecycles, e: Event, thread: Option<string>, latest: nat)
    requires e.TurnCompleted? && MapsTidy(lim, threads, lifecycles, latest)
    ensures MapsTidy(lim, UnsettledActions(threads, e.turnId, thread),
                     TouchAll(lifecycles, Closings(SettledActions(threads, e.turnId, thread), e, latest + 1), lim.actions), latest + 1)
  {
    UnsettledIsRest(threads, e.turnId, thread);
    UnsettledShrinks(threads, e.turnId, thread);
    CloseEachKeepsTidy(lim, threads, lifecycles, SettledActions(threads, e.turnId, thread), e, latest, latest + 1);
  }

  lemma ActionEventKeepsTidy(lim: Bounds, s: State, e: Event)
    requires MapsTidy(lim, s.actionThreads, s.actionLifecycles, s.latestSeq) && ActionIdOf(e).Some?
    ensures MapsTidy(lim, NextThreads(lim, s, e), NextLifecycles(lim, s, e), s.latestSeq + 1)
  {
    var thread := Resolve(s.actionThreads, e);
    ActionTouches(lim, s, e);
    if thread.None? {
      LaterKeepsTidy(s.actionThreads, s.actionLifecycles, s.latestSeq, s.latestSeq + 1);
    } else if OpensAction(e) {
      OpeningKeepsTidy(lim, s.actionThreads, s.actionLifecycles, RecordOf(s, e, thread.value), MemoryOf(s, e, thread.value), s.latestSeq);
    }
    if OpensAction(e) {
      OpeningRemembers(lim, s, e);
    } else {
      ClosingForgets(lim, s, e);
      ForgetKeepsTidy(s.actionThreads, s.actionLifecycles, e.actionId, s.latestSeq, s.latestSeq + 1);
      if thread.Some? && e.actionId != "" {
        ClosingKeepsTidy(lim, s.actionThreads, s.actionLifecycles, RecordOf(s, e, thread.value), s.latestSeq);
      }
    }
  }

  lemma OtherEventKeepsTidy(lim: Bounds, s: State, e: Event)
    requires MapsTidy(lim, s.actionThreads, s.actionLifecycles, s.latestSeq) && ActionIdOf(e).None?
    ensures MapsTidy(lim, NextThreads(lim, s, e), NextLifecycles(lim, s, e), s.latestSeq + 1)
  {
    if e.TurnCompleted? {
      CompletionAppends(lim, s, e);
      CompletionKeepsTidy(lim, s.actionThreads, s.actionLifecycles, e, Resolve(s.actionThreads, e), s.latestSeq);
    } else {
      OtherwiseUnchanged(lim, s, e);
      LaterKeepsTidy(s.actionThreads, s.actionLifecycles, s.latestSeq, s.latestSeq + 1);
    }
  }

  lemma AppendKeepsTidy(lim: Bounds, s: State, e: Event)
    requires MapsTidy(lim, s.actionThreads, s.actionLifecycles, s.latestSeq)
    ensures MapsTidy(lim, NextThreads(lim, s, e), NextLifecycles(lim, s, e), s.latestSeq + 1)
  {
    if ActionIdOf(e).Some? {
      ActionEventKeepsTidy(lim, s, e);
    } else {
      OtherEventKeepsTidy(lim, s, e);
    }
  }

  /**
   After any appends: keys distinct and numbers ascending in both maps, every
   retained lifecycle of a remembered action is the event that opened it, and
   whatever action was remembered after a retained one is itself retained.
   */
  lemma {:induction false} MapsStayTidy(lim: Bounds, events: seq<Event>)
    ensures var s := Run(lim, events); MapsTidy(lim, s.actionThreads, s.actionLifecycles, s.latestSeq)
  {
    if events != [] {
      MapsStayTidy(lim, events[..|events| - 1]);
      AppendKeepsTidy(lim, Run(lim, events[..|events| - 1]), events[|events| - 1]);
    }
  }
}
