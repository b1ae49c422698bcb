/**
 The desktop Gateway transport as a transition system. Every `await` is a
 separate step, so steps of a suspended `connect`, late send failures, native
 events and local calls may come in any order.
 */
module TransportModel {
  import opened Sequences

  /** Where a suspended `connect` stands. */
  datatype Phase = Connecting | Releasing | Settled

  datatype Call = Call(epoch: nat, phase: Phase)

  /** What the transport did to the outside: native replies, native calls and handler runs. */
  datatype Ledger = Ledger(
    returned: set<nat>,
    disconnects: multiset<nat>,
    notified: multiset<nat>,
    delivered: seq<nat>)

  datatype State = State(
    connected: bool,
    connecting: Option<nat>,
    connectEpoch: nat,
    generation: Option<nat>,
    disposed: bool,
    calls: map<nat, Call>,
    nextCall: nat,
    sends: multiset<nat>,
    ledger: Ledger)

  const INITIAL := State(false, None, 0, None, false, map[], 0, multiset{}, Ledger({}, multiset{}, multiset{}, []))

  datatype Step =
    | Connect
    | ConnectReturns(call: nat, generation: nat)
    | ConnectFails(call: nat)
    | ReleaseDone(call: nat)
    | Finally(call: nat)
    | Close
    | Send
    | SendDone(generation: nat)
    | SendFails(generation: nat)
    | DisconnectEvent(own: bool, generation: nat)
    | MessageEvent(own: bool, generation: nat)
    | Dispose

  /** Continuations run once, and the native side never returns a generation twice. */
  predicate Enabled(s: State, step: Step) {
    match step
    case ConnectReturns(c, g) => c in s.calls && s.calls[c].phase.Connecting? && g !in s.ledger.returned
    case ConnectFails(c) => c in s.calls && s.calls[c].phase.Connecting?
    case ReleaseDone(c) => c in s.calls && s.calls[c].phase.Releasing?
    case Finally(c) => c in s.calls && s.calls[c].phase.Settled?
    case SendDone(g) => g in s.sends
    case SendFails(g) => g in s.sends
    case _ => true
  }

  function SetPhase(s: State, c: nat, phase: Phase): State
    requires c in s.calls
  {
    s.(calls := s.calls[c := s.calls[c].(phase := phase)])
  }

  function AfterConnect(s: State): State {
    if s.disposed || s.connected || s.connecting.Some? then s
    else
      s.(connectEpoch := s.connectEpoch + 1,
         calls := s.calls[s.nextCall := Call(s.connectEpoch + 1, Connecting)],
         connecting := Some(s.nextCall),
         nextCall := s.nextCall + 1)
  }

  /** A reply for a disposed transport or a replaced attempt is disconnected again. */
  function AfterReturn(s: State, c: nat, g: nat): State
    requires c in s.calls
  {
    var told := s.(ledger := s.ledger.(returned := s.ledger.returned + {g}));
    if s.disposed || s.calls[c].epoch != s.connectEpoch then
      SetPhase(told, c, Releasing).(ledger := told.ledger.(disconnects := told.ledger.disconnects + multiset{g}))
    else
      SetPhase(told, c, Settled).(generation := Some(g), connected := true)
  }

  function AfterFinally(s: State, c: nat): State {
    s.(calls := s.calls - {c}, connecting := if s.connecting == Some(c) then None else s.connecting)
  }

  function AfterClose(s: State): State {
    var closed := s.(connectEpoch := s.connectEpoch + 1, connected := false, generation := None);
    if s.generation.None? then closed
    else closed.(ledger := s.ledger.(disconnects := s.ledger.disconnects + multiset{s.generation.value}))
  }

  /** The connection was lost: drop the generation and tell the handlers. */
  function AfterLoss(s: State, g: nat): State {
    if s.generation != Some(g) then s
    else s.(connected := false, generation := None,
            ledger := s.ledger.(notified := s.ledger.notified + multiset{g}))
  }

  function AfterMessage(s: State, g: nat): State {
    if s.generation != Some(g) then s
    else s.(ledger := s.ledger.(delivered := s.ledger.delivered + [g]))
  }

  function Apply(s: State, step: Step): State
    requires Enabled(s, step)
  {
    match step
    case Connect => AfterConnect(s)
    case ConnectReturns(c, g) => AfterReturn(s, c, g)
    case ConnectFails(c) => SetPhase(s, c, Settled)
    case ReleaseDone(c) => SetPhase(s, c, Settled)
    case Finally(c) => AfterFinally(s, c)
    case Close => AfterClose(s)
    case Send =>
      if s.disposed || !s.connected || s.generation.None? then s
      else s.(sends := s.sends + multiset{s.generation.value})
    case SendDone(g) => s.(sends := s.sends - multiset{g})
    case SendFails(g) => AfterLoss(s.(sends := s.sends - multiset{g}), g)
    case DisconnectEvent(own, g) => if own then AfterLoss(s, g) else s
    case MessageEvent(own, g) => if own then AfterMessage(s, g) else s
    case Dispose => if s.disposed then s else AfterClose(s.(disposed := true))
  }

  // ----- what every step keeps -----

  /** A generation is accounted for once: installed, disconnected by us, or reported lost. */
  ghost predicate AccountedOnce(s: State, g: nat) {
    s.ledger.disconnects[g] + s.ledger.notified[g] + (if s.generation == Some(g) then 1 else 0)
    == if g in s.ledger.returned then 1 else 0
  }

  /** Only the call behind `connecting` is in flight, and while its reply is awaited nothing is installed. */
  ghost predicate CallFits(s: State, c: nat)
    requires c in s.calls
  {
    && s.connecting == Some(c) && c < s.nextCall
    && s.calls[c].epoch <= s.connectEpoch
    && (s.calls[c].phase.Connecting? ==> s.generation == None)
  }

  ghost predicate Inv(s: State) {
    && (s.connected <==> s.generation.Some?)
    && (s.disposed ==> s.generation == None)
    && (forall g :: AccountedOnce(s, g))
    && (forall c :: c in s.calls ==> CallFits(s, c))
    && (s.connecting.Some? ==> s.connecting.value in s.calls)
  }

  lemma StepKeepsAccounts(s: State, step: Step, g: nat)
    requires Inv(s) && Enabled(s, step)
    ensures AccountedOnce(Apply(s, step), g)
  {
    assert AccountedOnce(s, g);
    match step
    case ConnectReturns(c, h) => assert CallFits(s, c);
      assert AccountedOnce(s, h);
    case _ =>
  }

  lemma StepKeepsCalls(s: State, step: Step, c: nat)
    requires Inv(s) && Enabled(s, step) && c in Apply(s, step).calls
    ensures CallFits(Apply(s, step), c)
  {
    if c in s.calls {
      assert CallFits(s, c);
    }
  }

  lemma StepKeepsInv(s: State, step: Step)
    requires Inv(s) && Enabled(s, step)
    ensures Inv(Apply(s, step))
  {
    forall g ensures AccountedOnce(Apply(s, step), g) { StepKeepsAccounts(s, step, g); }
    forall c | c in Apply(s, step).calls ensures CallFits(Apply(s, step), c) { StepKeepsCalls(s, step, c); }
  }

  // ----- whole runs -----

  /** `steps` can be taken one after the other from `s`. */
  ghost predicate Runs(s: State, steps: seq<Step>)
    decreases |steps|
  {
    steps == [] || (Enabled(s, steps[0]) && Runs(Apply(s, steps[0]), steps[1..]))
  }

  ghost function After(s: State, steps: seq<Step>): State
    requires Runs(s, steps)
    decreases |steps|
  {
    if steps == [] then s else After(Apply(s, steps[0]), steps[1..])
  }

  lemma {:induction false} RunKeepsInv(s: State, steps: seq<Step>)
    requires Inv(s) && Runs(s, steps)
    ensures Inv(After(s, steps))
    decreases |steps|
  {
    if steps != [] {
      StepKeepsInv(s, steps[0]);
      RunKeepsInv(Apply(s, steps[0]), steps[1..]);
    }
  }

  /**
   In every interleaving, each generation the native side returned is either
   the installed one or was released exactly once: disconnected by us, or
   reported lost to the handlers and then never disconnected by us. At most one
   connect is in flight, and `connected` says whether a generation is installed.
   */
  lemma EveryGenerationReleasedOnce(steps: seq<Step>, g: nat)
    requires Runs(INITIAL, steps)
    ensures var s := After(INITIAL, steps);
            && (g in s.ledger.returned ==>
                  if s.generation == Some(g) then s.ledger.disconnects[g] == 0 && s.ledger.notified[g] == 0
                  else s.ledger.disconnects[g] + s.ledger.notified[g] == 1)
            && (g !in s.ledger.returned ==>
                  s.generation != Some(g) && s.ledger.disconnects[g] == 0 && s.ledger.notified[g] == 0)
            && (s.connected <==> s.generation.Some?)
            && s.calls.Keys == if s.connecting.Some? then {s.connecting.value} else {}
  {
    RunKeepsInv(INITIAL, steps);
    var s := After(INITIAL, steps);
    assert AccountedOnce(s, g);
    assert forall c :: c in s.calls ==> CallFits(s, c);
  }

  lemma NoReplyAwaited(s: State)
    requires Inv(s) && s.generation.Some?
    ensures forall c :: c in s.calls ==> !s.calls[c].phase.Connecting?
  {
    forall c | c in s.calls ensures !s.calls[c].phase.Connecting? { assert CallFits(s, c); }
  }

  /** No step replaces an installed generation by another. */
  lemma InstalledNeverOverwritten(steps: seq<Step>, step: Step)
    requires Runs(INITIAL, steps) && Enabled(After(INITIAL, steps), step)
    requires After(INITIAL, steps).generation.Some?
    ensures var s := After(INITIAL, steps);
            Apply(s, step).generation == s.generation || Apply(s, step).generation == None
  {
    var s := After(INITIAL, steps);
    RunKeepsInv(INITIAL, steps);
    NoReplyAwaited(s);
  }

  /**
   Handlers hear of a lost generation at most once, and never of one we
   disconnected ourselves, however many sends on it fail afterwards.
   */
  lemma {:induction false} LossReportedAtMostOnce(s: State, steps: seq<Step>, g: nat)
    requires Inv(s) && Runs(s, steps)
    ensures var t := After(s, steps);
            && t.ledger.notified[g] <= 1
            && (s.ledger.disconnects[g] > 0 || s.ledger.notified[g] > 0 ==>
                  t.ledger.notified[g] == s.ledger.notified[g] && t.ledger.disconnects[g] == s.ledger.disconnects[g])
    decreases |steps|
  {
    assert AccountedOnce(s, g);
    if steps != [] {
      StepKeepsInv(s, steps[0]);
      if s.ledger.disconnects[g] > 0 || s.ledger.notified[g] > 0 {
        StepKeepsReleased(s, steps[0], g);
      }
      LossReportedAtMostOnce(Apply(s, steps[0]), steps[1..], g);
    }
  }

  lemma StepKeepsReleased(s: State, step: Step, g: nat)
    requires Inv(s) && Enabled(s, step)
    requires s.ledger.disconnects[g] > 0 || s.ledger.notified[g] > 0
    ensures Apply(s, step).ledger.notified[g] == s.ledger.notified[g]
    ensures Apply(s, step).ledger.disconnects[g] == s.ledger.disconnects[g]
  {
    assert AccountedOnce(s, g);
    StepKeepsAccounts(s, step, g);
  }

  /** After `dispose` nothing is installed and no message or disconnect handler runs. */
  lemma {:induction false} DisposeIsFinal(s: State, steps: seq<Step>)
    requires Inv(s) && s.disposed && Runs(s, steps)
    ensures var t := After(s, steps);
            && t.disposed && t.generation == None && !t.connected
            && t.ledger.notified == s.ledger.notified && t.ledger.delivered == s.ledger.delivered
    decreases |steps|
  {
    if steps != [] {
      StepKeepsInv(s, steps[0]);
      DisposeIsFinal(Apply(s, steps[0]), steps[1..]);
    }
  }
}
