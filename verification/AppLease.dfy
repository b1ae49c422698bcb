/** The refs and state of `ExtensionAppSurface`; `open` is split at its await. */
module AppLease {
  import opened Sequences
  import opened AppLeaseModel

  class ExtensionAppSurface {
    var generationRef: nat
    var leaseRef: Option<nat>
    var shown: bool
    var opening: bool

    /** The generation each suspended open request captured. */
    var calls: map<nat, nat>
    var nextCall: nat
    ghost var granted: set<nat>
    ghost var closes: multiset<nat>

    ghost function Abs(): State
      reads this
    {
      State(generationRef, leaseRef, shown, opening, calls, nextCall, granted, closes)
    }

    ghost predicate Valid()
      reads this
    {
      Inv(Abs())
    }

    constructor ()
      ensures Valid() && Abs() == INITIAL
    {
      generationRef, leaseRef, shown, opening := 0, None, false, false;
      calls, nextCall := map[], 0;
      granted, closes := {}, multiset{};
    }

    /** Takes a new generation, then gives up the held lease and requests its close. */
    method Surrender()
      modifies this`generationRef, this`leaseRef, this`closes
      ensures Abs() == Surrendered(Bumped(old(Abs())))
    {
      generationRef := generationRef + 1;
      var leaseId := leaseRef;
      leaseRef := None;
      if leaseId.Some? {
        closes := closes + multiset{leaseId.value};
      }
    }

    method CleanUp()
      requires Valid()
      modifies this
      ensures Valid() && Abs() == Apply(old(Abs()), EffectCleansUp)
      ensures leaseRef == None && (old(leaseRef).Some? ==> closes[old(leaseRef).value] == 1)
    {
      if leaseRef.Some? { assert AccountedOnce(Abs(), leaseRef.value); }
      StepKeepsInv(Abs(), EffectCleansUp);
      Surrender();
    }

    method CloseApp()
      requires Valid() && shown
      modifies this
      ensures Valid() && Abs() == Apply(old(Abs()), Close) && !shown
      ensures leaseRef == None && (old(leaseRef).Some? ==> closes[old(leaseRef).value] == 1)
    {
      if leaseRef.Some? { assert AccountedOnce(Abs(), leaseRef.value); }
      StepKeepsInv(Abs(), Close);
      Surrender();
      shown := false;
    }

    method OpenApp()
      requires Valid() && !shown
      modifies this
      ensures Valid() && Abs() == Apply(old(Abs()), Open)
    {
      StepKeepsInv(Abs(), Open);
      var generation := generationRef + 1;
      generationRef := generation;
      opening := true;
      calls := calls[nextCall := generation];
      nextCall := nextCall + 1;
    }

    method OpenGranted(call: nat, leaseId: nat)
      requires Valid() && Enabled(Abs(), Granted(call, leaseId))
      modifies this
      ensures Valid() && Abs() == Apply(old(Abs()), Granted(call, leaseId))
      ensures leaseRef == Some(leaseId) <==> old(calls[call]) == generationRef
      ensures closes[leaseId] == if leaseRef == Some(leaseId) then 0 else 1
      ensures old(leaseRef).Some? ==> leaseRef == old(leaseRef)
    {
      assert AccountedOnce(Abs(), leaseId) && CallFits(Abs(), call);
      StepKeepsInv(Abs(), Granted(call, leaseId));
      var generation := calls[call];
      calls := calls - {call};
      granted := granted + {leaseId};
      if generation != generationRef {
        closes := closes + multiset{leaseId};
        return;
      }
      leaseRef := Some(leaseId);
      shown := true;
      opening := false;
    }

    method OpenFailed(call: nat)
      requires Valid() && Enabled(Abs(), OpenFails(call))
      modifies this
      ensures Valid() && Abs() == Apply(old(Abs()), OpenFails(call))
    {
      StepKeepsInv(Abs(), OpenFails(call));
      var generation := calls[call];
      calls := calls - {call};
      if generation == generationRef {
        opening := false;
      }
    }
  }
}
