/** `DesktopGatewayTransport` with its fields; each method is one step between awaits. */
module Transport {
  import opened Sequences
  import opened TransportModel

  class DesktopGatewayTransport {
    var connected: bool
    var connecting: Option<nat>
    var connectEpoch: nat
    var generation: Option<nat>
    var disposed: bool

    /** The suspended continuations and what they captured. */
    var calls: map<nat, Call>
    var nextCall: nat
    var sends: multiset<nat>

    ghost var ledger: Ledger

    ghost function Abs(): State
      reads this
    {
      State(connected, connecting, connectEpoch, generation, disposed, calls, nextCall, sends, ledger)
    }

    ghost predicate Valid()
      reads this
    {
      Inv(Abs())
    }

    constructor ()
      ensures Valid() && Abs() == INITIAL
    {
      connected, connecting, connectEpoch, generation, disposed := false, None, 0, None, false;
      calls, nextCall, sends := map[], 0, multiset{};
      ledger := Ledger({}, multiset{}, multiset{}, []);
    }

    method Connect() returns (accepted: bool)
      requires Valid()
      modifies this
      ensures Valid() && Abs() == Apply(old(Abs()), Step.Connect)
      ensures accepted <==> !old(disposed)
    {
      StepKeepsInv(Abs(), Step.Connect);
      if disposed {
        return false;
      }
      accepted := true;
      if connected || connecting.Some? {
        return;
      }
      connectEpoch := connectEpoch + 1;
      calls := calls[nextCall := Call(connectEpoch, Connecting)];
      connecting := Some(nextCall);
      nextCall := nextCall + 1;
    }

    /** `gateway_connect` resolved: install the generation, or hand it back. */
    method ConnectReturns(call: nat, returned: nat)
      requires Valid() && Enabled(Abs(), Step.ConnectReturns(call, returned))
      modifies this
      ensures Valid() && Abs() == Apply(old(Abs()), Step.ConnectReturns(call, returned))
      ensures generation == Some(returned) <==> !old(disposed) && old(calls[call].epoch) == old(connectEpoch)
      ensures generation == Some(returned) || (generation == old(generation) && ledger.disconnects[returned] == 1)
      ensures old(generation).Some? ==> generation == old(generation)
    {
      assert AccountedOnce(Abs(), returned) && CallFits(Abs(), call);
      StepKeepsInv(Abs(), Step.ConnectReturns(call, returned));
      var epoch := calls[call].epoch;
      ledger := ledger.(returned := ledger.returned + {returned});
      if disposed || epoch != connectEpoch {
        ledger := ledger.(disconnects := ledger.disconnects + multiset{returned});
        calls := calls[call := Call(epoch, Releasing)];
        return;
      }
      generation := Some(returned);
      connected := true;
      calls := calls[call := Call(epoch, Settled)];
    }

    method ConnectFails(call: nat)
      requires Valid() && Enabled(Abs(), Step.ConnectFails(call))
      modifies this
      ensures Valid() && Abs() == Apply(old(Abs()), Step.ConnectFails(call))
    {
      StepKeepsInv(Abs(), Step.ConnectFails(call));
      calls := calls[call := calls[call].(phase := Settled)];
    }

    method ReleaseDone(call: nat)
      requires Valid() && Enabled(Abs(), Step.ReleaseDone(call))
      modifies this
      ensures Valid() && Abs() == Apply(old(Abs()), Step.ReleaseDone(call))
    {
      StepKeepsInv(Abs(), Step.ReleaseDone(call));
      calls := calls[call := calls[call].(phase := Settled)];
    }

    method Finally(call: nat)
      requires Valid() && Enabled(Abs(), Step.Finally(call))
      modifies this
      ensures Valid() && Abs() == Apply(old(Abs()), Step.Finally(call))
    {
      StepKeepsInv(Abs(), Step.Finally(call));
      calls := calls - {call};
      if connecting == Some(call) {
        connecting := None;
      }
    }

    /** The body of `close`, which `dispose` runs too. */
    method Release()
      modifies this`connectEpoch, this`connected, this`generation, this`ledger
      ensures Abs() == AfterClose(old(Abs()))
    {
      var held := generation;
      connectEpoch := connectEpoch + 1;
      connected := false;
      generation := None;
      if held.Some? {
        ledger := ledger.(disconnects := ledger.disconnects + multiset{held.value});
      }
    }

    method Close()
      requires Valid()
      modifies this
      ensures Valid() && Abs() == Apply(old(Abs()), Step.Close)
      ensures !connected && generation == None
      ensures old(generation).Some? ==> ledger.disconnects[old(generation).value] == 1
    {
      if generation.Some? { assert AccountedOnce(Abs(), generation.value); }
      StepKeepsInv(Abs(), Step.Close);
      Release();
    }

    method Send() returns (sent: bool)
      requires Valid()
      modifies this
      ensures Valid() && Abs() == Apply(old(Abs()), Step.Send)
      ensures sent <==> !old(disposed) && old(connected)
      ensures sends == if sent then old(sends) + multiset{old(generation).value} else old(sends)
    {
      StepKeepsInv(Abs(), Step.Send);
      if disposed || !connected || generation.None? {
        return false;
      }
      sends := sends + multiset{generation.value};
      sent := true;
    }

    method Lose(lost: nat)
      modifies this`connected, this`generation, this`ledger
      ensures Abs() == AfterLoss(old(Abs()), lost)
    {
      if generation != Some(lost) {
        return;
      }
      connected := false;
      generation := None;
      ledger := ledger.(notified := ledger.notified + multiset{lost});
    }

    method SendFails(sent: nat)
      requires Valid() && sent in sends
      modifies this
      ensures Valid() && Abs() == Apply(old(Abs()), Step.SendFails(sent))
      ensures ledger.notified[sent] <= 1 && (old(generation) != Some(sent) ==> ledger == old(ledger))
      ensures old(generation) == Some(sent) ==> generation == None && ledger.notified[sent] == 1
    {
      assert AccountedOnce(Abs(), sent);
      StepKeepsInv(Abs(), Step.SendFails(sent));
      sends := sends - multiset{sent};
      Lose(sent);
    }

    method OnDisconnectEvent(own: bool, lost: nat)
      requires Valid()
      modifies this
      ensures Valid() && Abs() == Apply(old(Abs()), Step.DisconnectEvent(own, lost))
      ensures if own && old(generation) == Some(lost) then generation == None && ledger.notified[lost] == 1
              else Abs() == old(Abs())
    {
      assert AccountedOnce(Abs(), lost);
      StepKeepsInv(Abs(), Step.DisconnectEvent(own, lost));
      if own {
        Lose(lost);
      }
    }

    method OnMessageEvent(own: bool, from: nat) returns (delivered: bool)
      requires Valid()
      modifies this
      ensures Valid() && Abs() == Apply(old(Abs()), Step.MessageEvent(own, from))
      ensures delivered <==> own && old(generation) == Some(from)
    {
      StepKeepsInv(Abs(), Step.MessageEvent(own, from));
      if !own || generation != Some(from) {
        return false;
      }
      ledger := ledger.(delivered := ledger.delivered + [from]);
      delivered := true;
    }

    method Dispose()
      requires Valid()
      modifies this
      ensures Valid() && Abs() == Apply(old(Abs()), Step.Dispose)
      ensures disposed && !connected && generation == None
    {
      StepKeepsInv(Abs(), Step.Dispose);
      if disposed {
        return;
      }
      disposed := true;
      Release();
    }
  }
}
