/**
 The Gateway event journal as a function of the events appended to it: two
 rings of events, two recency maps over actions and a revision per thread,
 all advanced by one append.
 */
module JournalModel {
  import opened Sequences
  import opened RecencyMap
  import opened EventRing
  import opened GatewayEvents

  datatype Limits = Limits(perThread: nat, total: nat, actions: nat)

  type Bounds = l: Limits | l.perThread > 0 && l.total > 0 && l.actions > 0
    witness Limits(1, 1, 1)

  const WORKBENCH_BOUNDS: Bounds := Limits(500, 2_000, 2_000)

  datatype Remembered = Remembered(stamp: nat, threadId: string, turnId: Option<string>)
  datatype Lifecycle = Lifecycle(stamp: nat, event: Event, threadId: string)
  datatype Routed = Routed(event: Event, threadId: Option<string>)

  type Item = Stamped<Event>
  type Record = Stamped<Routed>

  datatype State = State(
    actionLifecycles: seq<Entry<Lifecycle>>,
    actionThreads: seq<Entry<Remembered>>,
    global: seq<Record>,
    perThread: map<string, seq<Item>>,
    teamSequences: map<string, nat>,
    latestSeq: nat)

  const EMPTY := State([], [], [], map[], map[], 0)

  // ----- one append -----

  /** The thread an event names, or else the one remembered for its action. */
  function Resolve(threads: seq<Entry<Remembered>>, e: Event): Option<string> {
    if NamedThreadId(e).Some? then NamedThreadId(e)
    else if ActionIdOf(e).None? then None
    else
      var found := Find(threads, ActionIdOf(e).value);
      if found.Some? then Some(found.value.threadId) else None
  }

  predicate SettledByTurn(action: Remembered, turnId: string, thread: Option<string>) {
    && (thread == None || Some(action.threadId) == thread)
    && (action.turnId == Some(turnId) || (thread != None && action.turnId == None))
  }

  function SettledActions(threads: seq<Entry<Remembered>>, turnId: string, thread: Option<string>): seq<Entry<Remembered>> {
    if threads == [] then []
    else (if SettledByTurn(threads[0].value, turnId, thread) then [threads[0]] else [])
         + SettledActions(threads[1..], turnId, thread)
  }

  function UnsettledActions(threads: seq<Entry<Remembered>>, turnId: string, thread: Option<string>): seq<Entry<Remembered>> {
    if threads == [] then []
    else (if SettledByTurn(threads[0].value, turnId, thread) then [] else [threads[0]])
         + UnsettledActions(threads[1..], turnId, thread)
  }

  /** The lifecycle records one event writes, oldest remembered action first. */
  function Touches(threads: seq<Entry<Remembered>>, e: Event, thread: Option<string>, stamp: nat): seq<Entry<Lifecycle>> {
    if e.TurnCompleted? then
      Closings(SettledActions(threads, e.turnId, thread), e, stamp)
    else if thread.Some? && ActionIdOf(e).Some? && ActionIdOf(e).value != "" then
      [Entry(ActionIdOf(e).value, Lifecycle(stamp, e, thread.value))]
    else
      []
  }

  function Closings(settled: seq<Entry<Remembered>>, e: Event, stamp: nat): (r: seq<Entry<Lifecycle>>)
    ensures |r| == |settled|
    ensures forall i :: 0 <= i < |r| ==>
      r[i] == Entry(settled[i].key, Lifecycle(stamp, e, settled[i].value.threadId))
  {
    seq(|settled|, i requires 0 <= i < |settled| =>
      Entry(settled[i].key, Lifecycle(stamp, e, settled[i].value.threadId)))
  }

  function NextActionThreads(lim: Bounds, threads: seq<Entry<Remembered>>, e: Event,
                             thread: Option<string>, stamp: nat): seq<Entry<Remembered>> {
    if ClosesAction(e) then Delete(threads, e.actionId)
    else if e.TurnCompleted? then UnsettledActions(threads, e.turnId, thread)
    else if OpensAction(e) && thread.Some? then
      Touch(threads, Entry(e.action.actionId, Remembered(stamp, thread.value, e.action.turnId)), lim.total)
    else threads
  }

  function Items(perThread: map<string, seq<Item>>, t: string): seq<Item> {
    if t in perThread then perThread[t] else []
  }

  /** The record that leaves the global ring when another is pushed. */
  function Evicted(lim: Bounds, global: seq<Record>): Option<Record> {
    if |global| < lim.total then None else Some(global[0])
  }

  /** Drops an evicted record from its thread's ring, and the thread with its last record. */
  function ForgetItem(perThread: map<string, seq<Item>>, evicted: Option<Record>): map<string, seq<Item>> {
    if evicted.None? || evicted.value.payload.threadId.None? then perThread
    else
      var t := evicted.value.payload.threadId.value;
      if t !in perThread then perThread
      else
        var left := WithoutOldest(perThread[t], evicted.value.stamp);
        if left == [] then perThread - {t} else perThread[t := left]
  }

  /** A thread's revision goes when its ring does. */
  function ForgetRevision(team: map<string, nat>, perThread: map<string, seq<Item>>, evicted: Option<Record>): map<string, nat> {
    if evicted.None? || evicted.value.payload.threadId.None? then team
    else
      var t := evicted.value.payload.threadId.value;
      if t in perThread && WithoutOldest(perThread[t], evicted.value.stamp) == [] then team - {t} else team
  }

  /** The two action maps after an append. */
  function NextLifecycles(lim: Bounds, s: State, e: Event): seq<Entry<Lifecycle>> {
    TouchAll(s.actionLifecycles, Touches(s.actionThreads, e, Resolve(s.actionThreads, e), s.latestSeq + 1), lim.actions)
  }

  function NextThreads(lim: Bounds, s: State, e: Event): seq<Entry<Remembered>> {
    NextActionThreads(lim, s.actionThreads, e, Resolve(s.actionThreads, e), s.latestSeq + 1)
  }

  /** The per-thread rings after an append. */
  function NextPerThread(lim: Bounds, s: State, e: Event): map<string, seq<Item>> {
    var left, thread := ForgetItem(s.perThread, Evicted(lim, s.global)), Resolve(s.actionThreads, e);
    if thread.None? then left
    else left[thread.value := Pushed(Items(left, thread.value), Stamped(s.latestSeq + 1, e), lim.perThread)]
  }

  function Append(lim: Bounds, s: State, e: Event): State {
    var stamp := s.latestSeq + 1;
    var thread := Resolve(s.actionThreads, e);
    var evicted := Evicted(lim, s.global);
    var team := ForgetRevision(s.teamSequences, s.perThread, evicted);
    State(
      NextLifecycles(lim, s, e),
      NextThreads(lim, s, e),
      Pushed(s.global, Stamped(stamp, Routed(e, thread)), lim.total),
      NextPerThread(lim, s, e),
      if thread.Some? && IsTeamLifecycle(e) then team[thread.value := stamp] else team,
      stamp)
  }

  // ----- whole runs -----

  function Run(lim: Bounds, events: seq<Event>): State {
    if events == [] then EMPTY
    else Append(lim, Run(lim, events[..|events| - 1]), events[|events| - 1])
  }

  /** The unbounded history: every event with its number and the thread it resolved to. */
  function Log(lim: Bounds, events: seq<Event>): (log: seq<Record>)
    ensures |log| == |events|
  {
    if events == [] then []
    else
      var front, e := events[..|events| - 1], events[|events| - 1];
      Log(lim, front) + [Stamped(|events|, Routed(e, Resolve(Run(lim, front).actionThreads, e)))]
  }

  lemma {:induction false} LogNumbered(lim: Bounds, events: seq<Event>, i: nat)
    requires i < |events|
    ensures Log(lim, events)[i].stamp == i + 1 && Log(lim, events)[i].payload.event == events[i]
  {
    if i < |events| - 1 { LogNumbered(lim, events[..|events| - 1], i); }
  }

  /** The unbounded history of lifecycle writes. */
  function TouchLog(lim: Bounds, events: seq<Event>): seq<Entry<Lifecycle>> {
    if events == [] then []
    else
      var front, e := events[..|events| - 1], events[|events| - 1];
      var threads := Run(lim, front).actionThreads;
      TouchLog(lim, front) + Touches(threads, e, Resolve(threads, e), |events|)
  }

  lemma RunPush(lim: Bounds, events: seq<Event>, e: Event)
    ensures Run(lim, events + [e]) == Append(lim, Run(lim, events), e)
  {
    assert (events + [e])[..|events|] == events;
  }

  lemma {:induction false} LatestSeqCounts(lim: Bounds, events: seq<Event>)
    ensures Run(lim, events).latestSeq == |events|
  {
    if events != [] {
      LatestSeqCounts(lim, events[..|events| - 1]);
    }
  }

  // ----- reads -----

  function EventsThrough(s: State, latestSeq: nat): seq<Record> {
    Through(s.global, latestSeq)
  }

  function EventsForThread(s: State, threadId: string, latestSeq: nat): seq<Item> {
    Through(Items(s.perThread, threadId), latestSeq)
  }

  function LifecyclesOfThread(m: seq<Entry<Lifecycle>>, threadId: string, afterSeq: nat, latestSeq: nat): (r: seq<Lifecycle>)
    ensures forall i :: 0 <= i < |r| ==>
      r[i].threadId == threadId && afterSeq < r[i].stamp <= latestSeq && exists e :: e in m && e.value == r[i]
  {
    if m == [] then []
    else
      var v := m[0].value;
      var rest := LifecyclesOfThread(m[1..], threadId, afterSeq, latestSeq);
      assert m[0] in m;
      if v.threadId == threadId && afterSeq < v.stamp <= latestSeq then [v] + rest else rest
  }

  /** `.sort((left, right) => left.seq - right.seq)`, as a stable insertion sort. */
  function InsertByStamp(v: Lifecycle, sorted: seq<Lifecycle>): seq<Lifecycle> {
    if sorted == [] || v.stamp <= sorted[0].stamp then [v] + sorted
    else [sorted[0]] + InsertByStamp(v, sorted[1..])
  }

  function SortByStamp(s: seq<Lifecycle>): seq<Lifecycle> {
    if s == [] then [] else InsertByStamp(s[0], SortByStamp(s[1..]))
  }

  function ActionLifecyclesForThread(s: State, threadId: string, afterSeq: nat, latestSeq: nat): seq<Lifecycle> {
    SortByStamp(LifecyclesOfThread(s.actionLifecycles, threadId, afterSeq, latestSeq))
  }

  function TeamLifecycleRevision(s: State, threadId: string, latestSeq: nat): nat {
    var revision := if threadId in s.teamSequences then s.teamSequences[threadId] else 0;
    if revision < latestSeq then revision else latestSeq
  }
}
