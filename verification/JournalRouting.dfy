/**
 Where an event goes, said of the history alone: the thread it names, or else the
 thread of the event that last opened its action, if that is still remembered.
 */
module JournalRouting {
  import opened Sequences
  import opened RecencyMap
  import opened EventRing
  import opened GatewayEvents
  import opened JournalModel
  import opened JournalActions

  // ----- the thread an event names -----

  /** The thread ids an event carries, the most telling first. */
  function Carried(e: Event): seq<Option<string>> {
    match e
    case TurnStarted(threadId, _) => [threadId]
    case TurnQueued(threadId, _) => [threadId]
    case TurnCompleted(threadId, _, turnThreadId, committed) => [threadId, turnThreadId] + committed
    case EntryChanged(threadId, _) => [threadId]
    case EntryBlockTextDelta(threadId) => [threadId]
    case ActivityChanged(threadId) => [threadId]
    case TitleChanged(threadId) => [threadId]
    case ActionRequested(action) => [action.threadId]
    case ActionUpdated(action) => [action.threadId]
    case ActionResolved(_) => []
    case ActionCancelled(_) => []
    case Warning => []
  }

  /** An id that is missing or empty says nothing. */
  ghost predicate Says(id: Option<string>) {
    id != None && id != Some("")
  }

  ghost predicate FirstSaid(ids: seq<Option<string>>, t: string) {
    exists i :: 0 <= i < |ids| && ids[i] == Some(t) && Says(ids[i]) && forall j :: 0 <= j < i ==> !Says(ids[j])
  }

  ghost predicate Names(e: Event, t: string) {
    FirstSaid(Carried(e), t)
  }

  lemma {:induction false} FirstThreadIs(ids: seq<Option<string>>, t: string)
    ensures FirstThreadId(ids) == Some(t) <==> FirstSaid(ids, t)
  {
    if ids != [] && !Says(ids[0]) {
      FirstThreadIs(ids[1..], t);
      if FirstSaid(ids[1..], t) {
        var i :| 0 <= i < |ids[1..]| && ids[1..][i] == Some(t) && Says(ids[1..][i]) && forall j :: 0 <= j < i ==> !Says(ids[1..][j]);
        forall j | 0 <= j < i + 1 ensures !Says(ids[j]) { assert j > 0 ==> ids[j] == ids[1..][j - 1]; }
        assert ids[i + 1] == Some(t);
      }
      if FirstSaid(ids, t) {
        var i :| 0 <= i < |ids| && ids[i] == Some(t) && Says(ids[i]) && forall j :: 0 <= j < i ==> !Says(ids[j]);
        forall j | 0 <= j < i - 1 ensures !Says(ids[1..][j]) { assert ids[1..][j] == ids[j + 1]; }
        assert ids[1..][i - 1] == Some(t);
      }
    }
  }

  lemma FirstOfCarried(e: Event)
    ensures NamedThreadId(e) == FirstThreadId(Carried(e))
  {
    if e.TurnCompleted? {
      var ids := Carried(e);
      assert ids[1..][1..] == e.committedThreadIds;
    }
  }

  /** The thread an event names is the first non-empty one it carries. */
  lemma NamedIff(e: Event, t: string)
    ensures NamedThreadId(e) == Some(t) <==> Names(e, t)
  {
    FirstOfCarried(e);
    FirstThreadIs(Carried(e), t);
  }

  // ----- which opened actions are remembered -----

  /** The events so far, and the thread each went to. */
  datatype Story = Story(events: seq<Event>, threads: seq<Option<string>>)

  type History = h: Story | |h.events| == |h.threads| witness Story([], [])

  predicate Opens(h: History, m: nat)
    requires m < |h.events|
  {
    (h.events[m].ActionRequested? || h.events[m].ActionUpdated?) && h.threads[m] != None
  }

  /** What an opening leaves in the journal. */
  function Memory(h: History, m: nat): Entry<Remembered>
    requires m < |h.events| && Opens(h, m)
  {
    Entry(h.events[m].action.actionId, Remembered(m + 1, h.threads[m].value, h.events[m].action.turnId))
  }

  /**
   An event that closes the action or opens it again ends the memory of it. So does a
   completed turn: of the same thread, if the action is of that turn or of none; of an
   unknown thread, only if the action is of that turn.
   */
  predicate EndsMemory(e: Event, thread: Option<string>, x: Entry<Remembered>) {
    match e
    case ActionResolved(actionId) => actionId == x.key
    case ActionCancelled(actionId) => actionId == x.key
    case ActionRequested(action) => action.actionId == x.key && thread != None
    case ActionUpdated(action) => action.actionId == x.key && thread != None
    case TurnCompleted(_, turnId, _, _) =>
      if thread == None then x.value.turnId == Some(turnId)
      else thread == Some(x.value.threadId) && (x.value.turnId == None || x.value.turnId == Some(turnId))
    case _ => false
  }

  ghost predicate Ends(h: History, m: nat, j: nat)
    requires m < |h.events| && Opens(h, m) && j < |h.events|
  {
    EndsMemory(h.events[j], h.threads[j], Memory(h, m))
  }

  /** No event after the opening and before event `n` ends its memory. */
  ghost predicate Undisturbed(h: History, m: nat, n: nat)
    requires m < |h.events| && Opens(h, m) && n <= |h.events|
  {
    forall j :: m < j < n ==> !Ends(h, m, j)
  }

  /** The later openings whose memory event `j` leaves standing. */
  ghost function Newer(h: History, m: nat, j: nat): set<nat>
    requires j < |h.events|
  {
    set p: nat | m < p <= j && Opens(h, p) && Undisturbed(h, p, j + 1)
  }

  /** There is room for as many memories as the total bound: the oldest goes when more are open. */
  ghost predicate Roomy(lim: Bounds, h: History, m: nat, n: nat)
    requires n <= |h.events|
  {
    forall j :: m < j < n ==> |Newer(h, m, j)| < lim.total
  }

  /** Before event `n`, the journal remembers opening `m`. */
  ghost predicate Held(lim: Bounds, h: History, m: nat, n: nat)
    requires n <= |h.events|
  {
    m < n && Opens(h, m) && Undisturbed(h, m, n) && Roomy(lim, h, m, n)
  }

  // ----- one event -----

  function Left(threads: Threads, e: Event, thread: Option<string>): Threads {
    if ClosesAction(e) then Delete(threads, e.actionId)
    else if e.TurnCompleted? then UnsettledActions(threads, e.turnId, thread)
    else if OpensAction(e) && thread.Some? then Delete(threads, e.action.actionId)
    else threads
  }

  function Added(e: Event, thread: Option<string>, stamp: nat): Threads {
    if OpensAction(e) && thread.Some? then
      [Entry(e.action.actionId, Remembered(stamp, thread.value, e.action.turnId))]
    else []
  }

  lemma LeftCons(x: Entry<Remembered>, rest: Threads, e: Event, thread: Option<string>)
    ensures Left([x] + rest, e, thread) == (if EndsMemory(e, thread, x) then [] else [x]) + Left(rest, e, thread)
  {
    assert ([x] + rest)[1..] == rest;
  }

  lemma {:induction false} LeftShrinks(threads: Threads, e: Event, thread: Option<string>)
    ensures |Left(threads, e, thread)| <= |threads|
  {
    if threads != [] {
      assert threads == [threads[0]] + threads[1..];
      LeftCons(threads[0], threads[1..], e, thread);
      LeftShrinks(threads[1..], e, thread);
    }
  }

  /** An event ends memories, adds its own, and then the oldest make room. */
  lemma NextIsLeftAndAdded(lim: Bounds, threads: Threads, e: Event, thread: Option<string>, stamp: nat)
    requires |threads| <= lim.total
    ensures NextActionThreads(lim, threads, e, thread, stamp) == LastN(Left(threads, e, thread) + Added(e, thread, stamp), lim.total)
  {
    LeftShrinks(threads, e, thread);
    assert Left(threads, e, thread) + [] == Left(threads, e, thread);
  }

  // ----- memories by the number of their opening -----

  ghost predicate AllOpen(h: History, order: seq<nat>) {
    forall i :: 0 <= i < |order| ==> order[i] < |h.events| && Opens(h, order[i])
  }

  function Memories(h: History, order: seq<nat>): (r: Threads)
    requires AllOpen(h, order)
    ensures |r| == |order| && forall i :: 0 <= i < |r| ==> r[i] == Memory(h, order[i])
  {
    seq(|order|, i requires 0 <= i < |order| => Memory(h, order[i]))
  }

  ghost predicate Ascends(order: seq<nat>) {
    forall i, j :: 0 <= i < j < |order| ==> order[i] < order[j]
  }

  ghost function Survivors(h: History, order: seq<nat>, n: nat): seq<nat>
    requires AllOpen(h, order) && n < |h.events|
  {
    if order == [] then []
    else (if Ends(h, order[0], n) then [] else [order[0]]) + Survivors(h, order[1..], n)
  }

  lemma {:induction false} SurvivorIff(h: History, order: seq<nat>, n: nat, m: nat)
    requires AllOpen(h, order) && n < |h.events|
    ensures m in Survivors(h, order, n) <==> m in order && !Ends(h, m, n)
  {
    if order != [] {
      SurvivorIff(h, order[1..], n, m);
      assert order == [order[0]] + order[1..];
    }
  }

  lemma ConcatAscends(a: seq<nat>, b: seq<nat>)
    requires Ascends(a) && Ascends(b) && forall x, y :: x in a && y in b ==> x < y
    ensures Ascends(a + b)
  {
    var c := a + b;
    forall i, j | 0 <= i < j < |c| ensures c[i] < c[j] {
      if i < |a| <= j { assert c[i] in a && c[j] in b; }
    }
  }

  lemma FirstIsLeast(order: seq<nat>, m: nat)
    requires Ascends(order) && order != [] && m in order[1..]
    ensures order[0] < m
  {
    var k :| 0 <= k < |order[1..]| && order[1..][k] == m;
    assert order[k + 1] == m;
  }

  lemma {:induction false} SurvivorsAscend(h: History, order: seq<nat>, n: nat)
    requires AllOpen(h, order) && n < |h.events| && Ascends(order)
    ensures Ascends(Survivors(h, order, n)) && AllOpen(h, Survivors(h, order, n))
  {
    if order != [] {
      var rest := Survivors(h, order[1..], n);
      SurvivorsAscend(h, order[1..], n);
      forall m | m in rest ensures order[0] < m {
        SurvivorIff(h, order[1..], n, m);
        FirstIsLeast(order, m);
      }
      ConcatAscends([order[0]], rest);
      assert [] + rest == rest;
    }
  }

  lemma MemoriesConcat(h: History, a: seq<nat>, b: seq<nat>)
    requires AllOpen(h, a) && AllOpen(h, b)
    ensures AllOpen(h, a + b) && Memories(h, a + b) == Memories(h, a) + Memories(h, b)
  {
  }

  lemma {:induction false} SurvivorsOpen(h: History, order: seq<nat>, n: nat)
    requires AllOpen(h, order) && n < |h.events|
    ensures AllOpen(h, Survivors(h, order, n))
  {
    if order != [] { SurvivorsOpen(h, order[1..], n); }
  }

  lemma MemoriesFirst(h: History, m: nat, rest: seq<nat>)
    requires m < |h.events| && Opens(h, m) && AllOpen(h, rest)
    ensures AllOpen(h, [m] + rest) && Memories(h, [m] + rest) == [Memory(h, m)] + Memories(h, rest)
  {
    MemoriesConcat(h, [m], rest);
    assert Memories(h, [m]) == [Memory(h, m)];
  }

  lemma {:induction false} LeftIsSurvivors(h: History, order: seq<nat>, n: nat)
    requires AllOpen(h, order) && n < |h.events| && AllOpen(h, Survivors(h, order, n))
    ensures Left(Memories(h, order), h.events[n], h.threads[n]) == Memories(h, Survivors(h, order, n))
  {
    if order == [] {
      assert Memories(h, order) == [];
    } else {
      var m, rest := order[0], order[1..];
      assert order == [m] + rest;
      MemoriesFirst(h, m, rest);
      LeftCons(Memory(h, m), Memories(h, rest), h.events[n], h.threads[n]);
      SurvivorsOpen(h, rest, n);
      LeftIsSurvivors(h, rest, n);
      if Ends(h, m, n) {
        assert Survivors(h, order, n) == Survivors(h, rest, n);
      } else {
        MemoriesFirst(h, m, Survivors(h, rest, n));
      }
    }
  }

  /** `order` lists the openings held before event `n`, the oldest first. */
  ghost predicate Lists(lim: Bounds, h: History, n: nat, order: seq<nat>)
    requires n <= |h.events|
  {
    Ascends(order) && forall m: nat :: m in order <==> Held(lim, h, m, n)
  }

  /** An opening no later than event `n`, remembered unless there is no room for it. */
  ghost predicate Candidate(lim: Bounds, h: History, m: nat, n: nat)
    requires n < |h.events|
  {
    m <= n && Opens(h, m) && Undisturbed(h, m, n + 1) && Roomy(lim, h, m, n)
  }

  lemma CandidateIff(lim: Bounds, h: History, m: nat, n: nat)
    requires n < |h.events| && m < n
    ensures Candidate(lim, h, m, n) <==> Held(lim, h, m, n) && !Ends(h, m, n)
  {
  }

  ghost predicate ListsCandidates(lim: Bounds, h: History, n: nat, order: seq<nat>)
    requires n < |h.events|
  {
    Ascends(order) && forall m: nat :: m in order <==> Candidate(lim, h, m, n)
  }

  ghost function Candidates(h: History, order: seq<nat>, n: nat): seq<nat>
    requires AllOpen(h, order) && n < |h.events|
  {
    Survivors(h, order, n) + if Opens(h, n) then [n] else []
  }

  lemma CandidateListed(lim: Bounds, h: History, n: nat, order: seq<nat>, m: nat)
    requires n < |h.events| && Lists(lim, h, n, order) && AllOpen(h, order)
    ensures m in Candidates(h, order, n) <==> Candidate(lim, h, m, n)
  {
    SurvivorIff(h, order, n, m);
    if m < n { CandidateIff(lim, h, m, n); }
  }

  lemma CandidatesList(lim: Bounds, h: History, n: nat, order: seq<nat>)
    requires n < |h.events| && Lists(lim, h, n, order) && AllOpen(h, order)
    ensures ListsCandidates(lim, h, n, Candidates(h, order, n)) && AllOpen(h, Candidates(h, order, n))
  {
    SurvivorsAscend(h, order, n);
    forall m | m in Survivors(h, order, n) ensures m < n { SurvivorIff(h, order, n, m); }
    ConcatAscends(Survivors(h, order, n), if Opens(h, n) then [n] else []);
    forall m: nat ensures m in Candidates(h, order, n) <==> Candidate(lim, h, m, n) {
      CandidateListed(lim, h, n, order, m);
    }
  }

  // ----- making room -----

  ghost function Members(order: seq<nat>): set<nat> {
    set m | m in order
  }

  lemma {:induction false} MembersCount(order: seq<nat>)
    requires Ascends(order)
    ensures |Members(order)| == |order|
  {
    if order != [] {
      var n := |order| - 1;
      MembersCount(order[..n]);
      assert order == order[..n] + [order[n]];
      assert Members(order) == Members(order[..n]) + {order[n]} && order[n] !in Members(order[..n]);
    }
  }

  /** A later candidate had room whenever an earlier one had. */
  lemma LaterIsCandidate(lim: Bounds, h: History, m: nat, p: nat, n: nat)
    requires n < |h.events| && Candidate(lim, h, m, n) && p in Newer(h, m, n)
    ensures Candidate(lim, h, p, n)
  {
    forall j | p < j < n ensures |Newer(h, p, j)| < lim.total {
      SubsetSize(Newer(h, p, j), Newer(h, m, j));
    }
  }

  lemma AfterIff(order: seq<nat>, i: nat, p: nat)
    requires Ascends(order) && i < |order|
    ensures p in order[i + 1..] <==> p in order && order[i] < p
  {
    if p in order && order[i] < p {
      var k :| 0 <= k < |order| && order[k] == p;
      assert order[i + 1..][k - i - 1] == p;
    }
  }

  /** The candidates after one of them are its newer openings. */
  lemma NewerAreAfter(lim: Bounds, h: History, n: nat, order: seq<nat>, i: nat)
    requires n < |h.events| && ListsCandidates(lim, h, n, order) && i < |order|
    ensures Newer(h, order[i], n) == Members(order[i + 1..])
  {
    assert order[i] in order;
    forall p: nat ensures p in Newer(h, order[i], n) <==> p in order[i + 1..] {
      AfterIff(order, i, p);
      if p in Newer(h, order[i], n) { LaterIsCandidate(lim, h, order[i], p, n); }
    }
  }

  lemma HeldNextIff(lim: Bounds, h: History, m: nat, n: nat)
    requires n < |h.events|
    ensures Held(lim, h, m, n + 1) <==> Candidate(lim, h, m, n) && |Newer(h, m, n)| < lim.total
  {
    if m == n { assert Newer(h, m, n) == {}; }
  }

  lemma RoomFor(lim: Bounds, h: History, n: nat, order: seq<nat>, i: nat)
    requires n < |h.events| && ListsCandidates(lim, h, n, order) && i < |order|
    ensures Held(lim, h, order[i], n + 1) <==> |order| - i <= lim.total
  {
    assert order[i] in order;
    NewerAreAfter(lim, h, n, order, i);
    MembersCount(order[i + 1..]);
    HeldNextIff(lim, h, order[i], n);
  }

  lemma KeptIff(order: seq<nat>, i: nat, bound: nat)
    requires Ascends(order) && i < |order|
    ensures order[i] in LastN(order, bound) <==> |order| - i <= bound
  {
    var kept := LastN(order, bound);
    var gone := |order| - |kept|;
    assert forall k :: 0 <= k < |kept| ==> kept[k] == order[gone + k];
    assert i >= gone ==> kept[i - gone] == order[i];
  }

  lemma RoomMadeFor(lim: Bounds, h: History, n: nat, order: seq<nat>, m: nat)
    requires n < |h.events| && ListsCandidates(lim, h, n, order)
    ensures m in LastN(order, lim.total) <==> Held(lim, h, m, n + 1)
  {
    HeldNextIff(lim, h, m, n);
    if m in order {
      var i :| 0 <= i < |order| && order[i] == m;
      RoomFor(lim, h, n, order, i);
      KeptIff(order, i, lim.total);
    }
  }

  lemma RoomMade(lim: Bounds, h: History, n: nat, order: seq<nat>)
    requires n < |h.events| && ListsCandidates(lim, h, n, order)
    ensures Lists(lim, h, n + 1, LastN(order, lim.total))
  {
    forall m: nat ensures m in LastN(order, lim.total) <==> Held(lim, h, m, n + 1) {
      RoomMadeFor(lim, h, n, order, m);
    }
  }

  // ----- whole runs -----

  function ThreadOf(lim: Bounds, events: seq<Event>, n: nat): Option<string>
    requires n < |events|
  {
    Resolve(Run(lim, events[..n]).actionThreads, events[n])
  }

  /** The thread event `n` went to. */
  function ThreadAt(lim: Bounds, events: seq<Event>, n: nat): Option<string>
    requires n < |events|
  {
    Log(lim, events)[n].payload.threadId
  }

  /** The events with the threads the journal sends them to. */
  function HistoryOf(lim: Bounds, events: seq<Event>): (h: History)
    ensures h.events == events
  {
    Story(events, seq(|events|, n requires 0 <= n < |events| => ThreadAt(lim, events, n)))
  }

  lemma LogLast(lim: Bounds, events: seq<Event>)
    requires events != []
    ensures var n := |events| - 1; Log(lim, events)[n] == Stamped(n + 1, Routed(events[n], ThreadOf(lim, events, n)))
  {
  }

  lemma LogFront(lim: Bounds, events: seq<Event>, n: nat)
    requires n < |events| - 1
    ensures Log(lim, events)[n] == Log(lim, events[..|events| - 1])[n]
  {
  }

  lemma {:induction false} LogThreads(lim: Bounds, events: seq<Event>, n: nat)
    requires n < |events|
    ensures Log(lim, events)[n] == Stamped(n + 1, Routed(events[n], ThreadOf(lim, events, n)))
  {
    if n == |events| - 1 {
      LogLast(lim, events);
    } else {
      var front := events[..|events| - 1];
      LogFront(lim, events, n);
      LogThreads(lim, front, n);
      assert front[..n] == events[..n];
    }
  }

  /** The journal's memories before event `n` are those of the held openings, in order. */
  ghost predicate Stands(lim: Bounds, h: History, n: nat, threads: Threads, order: seq<nat>)
    requires n <= |h.events|
  {
    Lists(lim, h, n, order) && AllOpen(h, order) && threads == Memories(h, order) && |order| <= lim.total
  }

  lemma MemoriesKept(h: History, order: seq<nat>, bound: nat)
    requires AllOpen(h, order)
    ensures AllOpen(h, LastN(order, bound)) && LastN(Memories(h, order), bound) == Memories(h, LastN(order, bound))
  {
  }

  lemma CandidatesGathered(lim: Bounds, h: History, n: nat, order: seq<nat>)
    requires n < |h.events| && Lists(lim, h, n, order) && AllOpen(h, order) && AllOpen(h, Candidates(h, order, n))
    ensures Left(Memories(h, order), h.events[n], h.threads[n]) + Added(h.events[n], h.threads[n], n + 1) ==
            Memories(h, Candidates(h, order, n))
  {
    SurvivorsAscend(h, order, n);
    LeftIsSurvivors(h, order, n);
  }

  lemma StandsNext(lim: Bounds, h: History, n: nat, threads: Threads, order: seq<nat>) returns (next: seq<nat>)
    requires n < |h.events| && Stands(lim, h, n, threads, order)
    ensures Stands(lim, h, n + 1, NextActionThreads(lim, threads, h.events[n], h.threads[n], n + 1), next)
  {
    var all := Candidates(h, order, n);
    CandidatesList(lim, h, n, order);
    CandidatesGathered(lim, h, n, order);
    NextIsLeftAndAdded(lim, threads, h.events[n], h.threads[n], n + 1);
    MemoriesKept(h, all, lim.total);
    RoomMade(lim, h, n, all);
    next := LastN(all, lim.total);
  }

  lemma RunNext(lim: Bounds, events: seq<Event>, n: nat)
    requires n < |events|
    ensures Run(lim, events[..n + 1]).actionThreads ==
            NextActionThreads(lim, Run(lim, events[..n]).actionThreads, events[n], ThreadOf(lim, events, n), n + 1)
  {
    assert events[..n + 1] == events[..n] + [events[n]];
    RunPush(lim, events[..n], events[n]);
    LatestSeqCounts(lim, events[..n]);
  }

  /** The history's threads are the journal's. */
  ghost predicate Follow(lim: Bounds, h: History) {
    forall n :: 0 <= n < |h.threads| ==> h.threads[n] == ThreadOf(lim, h.events, n)
  }

  lemma HistoryFollows(lim: Bounds, events: seq<Event>)
    ensures Follow(lim, HistoryOf(lim, events))
  {
    forall n | 0 <= n < |events| ensures ThreadAt(lim, events, n) == ThreadOf(lim, events, n) {
      LogThreads(lim, events, n);
    }
  }

  lemma NothingStands(lim: Bounds, h: History)
    ensures Stands(lim, h, 0, Run(lim, h.events[..0]).actionThreads, [])
  {
    assert h.events[..0] == [];
  }

  lemma {:induction false} MemoriesStand(lim: Bounds, h: History, n: nat) returns (order: seq<nat>)
    requires Follow(lim, h) && n <= |h.events|
    ensures Stands(lim, h, n, Run(lim, h.events[..n]).actionThreads, order)
  {
    if n == 0 {
      order := [];
      NothingStands(lim, h);
    } else {
      var before := MemoriesStand(lim, h, n - 1);
      RunNext(lim, h.events, n - 1);
      order := StandsNext(lim, h, n - 1, Run(lim, h.events[..n - 1]).actionThreads, before);
    }
  }

  /** What the journal remembers before event `n`: exactly the openings held until then. */
  lemma RememberedIff(lim: Bounds, events: seq<Event>, n: nat, x: Entry<Remembered>)
    requires n <= |events|
    ensures var h := HistoryOf(lim, events);
            x in Run(lim, events[..n]).actionThreads <==>
            exists m: nat :: Held(lim, h, m, n) && x == Memory(h, m)
  {
    var h := HistoryOf(lim, events);
    HistoryFollows(lim, events);
    var order := MemoriesStand(lim, h, n);
    if x in Run(lim, events[..n]).actionThreads {
      var i :| 0 <= i < |order| && x == Memory(h, order[i]);
      assert order[i] in order;
    }
    if m: nat :| Held(lim, h, m, n) && x == Memory(h, m) {
      var i :| 0 <= i < |order| && order[i] == m;
    }
  }

  ghost predicate About(e: Event, actionId: string) {
    match e
    case ActionRequested(action) => action.actionId == actionId
    case ActionUpdated(action) => action.actionId == actionId
    case ActionResolved(id) => id == actionId
    case ActionCancelled(id) => id == actionId
    case _ => false
  }

  ghost predicate NamesNone(e: Event) {
    forall i :: 0 <= i < |Carried(e)| ==> !Says(Carried(e)[i])
  }

  /** Event `n` is about the action that opening `m` opened in thread `t`. */
  ghost predicate Follows(lim: Bounds, h: History, m: nat, n: nat, t: string)
    requires n < |h.events|
  {
    Held(lim, h, m, n) && About(h.events[n], h.events[m].action.actionId) && h.threads[m] == Some(t)
  }

  ghost predicate FollowsSome(lim: Bounds, h: History, n: nat, t: string)
    requires n < |h.events|
  {
    exists m: nat :: Follows(lim, h, m, n, t)
  }

  lemma NamesNoneIff(e: Event)
    ensures NamesNone(e) <==> NamedThreadId(e) == None
  {
    FirstOfCarried(e);
    SaidNone(Carried(e));
  }

  lemma {:induction false} SaidNone(ids: seq<Option<string>>)
    ensures FirstThreadId(ids) == None <==> forall i :: 0 <= i < |ids| ==> !Says(ids[i])
  {
    if ids != [] {
      SaidNone(ids[1..]);
      assert (forall i :: 0 <= i < |ids| ==> !Says(ids[i])) ==> forall i :: 0 <= i < |ids[1..]| ==> !Says(ids[1..][i]);
      assert forall i :: 0 < i < |ids| ==> ids[i] == ids[1..][i - 1];
    }
  }

  lemma FoundFollows(lim: Bounds, events: seq<Event>, n: nat, id: string)
    requires n < |events| && About(events[n], id) && Find(Run(lim, events[..n]).actionThreads, id).Some?
    ensures FollowsSome(lim, HistoryOf(lim, events), n, Find(Run(lim, events[..n]).actionThreads, id).value.threadId)
  {
    var h, threads := HistoryOf(lim, events), Run(lim, events[..n]).actionThreads;
    var found := Find(threads, id).value;
    FindMeans(threads, id);
    RememberedIff(lim, events, n, Entry(id, found));
    var m: nat :| Held(lim, h, m, n) && Entry(id, found) == Memory(h, m);
    assert Follows(lim, h, m, n, found.threadId);
  }

  lemma FindDistinct<V>(m: seq<Entry<V>>, x: Entry<V>)
    requires Distinct(m) && x in m
    ensures Find(m, x.key) == Some(x.value)
  {
    InKeys(m, x);
    FindMeans(m, x.key);
    var i :| 0 <= i < |m| && m[i] == x;
    var j :| 0 <= j < |m| && m[j] == Entry(x.key, Find(m, x.key).value);
    assert i == j;
  }

  lemma FollowsFound(lim: Bounds, events: seq<Event>, n: nat, m: nat, t: string)
    requires n < |events| && Follows(lim, HistoryOf(lim, events), m, n, t)
    ensures var found := Find(Run(lim, events[..n]).actionThreads, events[m].action.actionId);
            found.Some? && found.value.threadId == t
  {
    var x := Memory(HistoryOf(lim, events), m);
    RememberedIff(lim, events, n, x);
    MapsStayTidy(lim, events[..n]);
    FindDistinct(Run(lim, events[..n]).actionThreads, x);
  }

  lemma ResolveFollows(lim: Bounds, events: seq<Event>, n: nat, t: string)
    requires n < |events| && NamesNone(events[n])
    ensures ThreadOf(lim, events, n) == Some(t) <==> FollowsSome(lim, HistoryOf(lim, events), n, t)
  {
    var h, e := HistoryOf(lim, events), events[n];
    NamesNoneIff(e);
    if ActionIdOf(e).Some? && Find(Run(lim, events[..n]).actionThreads, ActionIdOf(e).value).Some? {
      FoundFollows(lim, events, n, ActionIdOf(e).value);
    }
    if m: nat :| Follows(lim, h, m, n, t) {
      FollowsFound(lim, events, n, m, t);
    }
  }

  /**
   Where an event goes: the thread it names, or, if it names none, the thread in which
   the action it is about was last opened and is still remembered.
   */
  lemma RouteMeans(lim: Bounds, events: seq<Event>, n: nat, t: string)
    requires n < |events|
    ensures ThreadAt(lim, events, n) == Some(t) <==>
            Names(events[n], t) || (NamesNone(events[n]) && FollowsSome(lim, HistoryOf(lim, events), n, t))
  {
    LogThreads(lim, events, n);
    NamedIff(events[n], t);
    NamesNoneIff(events[n]);
    if NamesNone(events[n]) { ResolveFollows(lim, events, n, t); }
  }
}
