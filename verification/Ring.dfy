/** The fixed-capacity circular buffer behind the Gateway event journal. */
module EventRing {
  import opened Sequences

  /** A buffered value and the journal sequence number it was appended under. */
  datatype Stamped<+P> = Stamped(stamp: nat, payload: P)

  /** Appending to a window of at most `capacity` values drops the oldest. */
  function Pushed<P>(s: seq<Stamped<P>>, v: Stamped<P>, capacity: nat): seq<Stamped<P>> {
    LastN(s + [v], capacity)
  }

  function WithoutOldest<P>(s: seq<Stamped<P>>, stamp: nat): seq<Stamped<P>> {
    if s != [] && s[0].stamp == stamp then s[1..] else s
  }

  /** The values stamped no later than `latest`, in order. */
  function Through<P>(s: seq<Stamped<P>>, latest: nat): (r: seq<Stamped<P>>)
    ensures forall i :: 0 <= i < |r| ==> r[i] in s && r[i].stamp <= latest
  {
    if s == [] then [] else (if s[0].stamp <= latest then [s[0]] else []) + Through(s[1..], latest)
  }

  lemma {:induction false} ThroughConcat<P>(a: seq<Stamped<P>>, b: seq<Stamped<P>>, latest: nat)
    ensures Through(a + b, latest) == Through(a, latest) + Through(b, latest)
  {
    if a == [] {
      assert a + b == b;
    } else {
      assert (a + b)[0] == a[0] && (a + b)[1..] == a[1..] + b;
      ThroughConcat(a[1..], b, latest);
    }
  }

  lemma {:induction false} ThroughNone<P>(s: seq<Stamped<P>>, latest: nat)
    requires forall i :: 0 <= i < |s| ==> s[i].stamp > latest
    ensures Through(s, latest) == []
  {
    if s != [] {
      ThroughNone(s[1..], latest);
    }
  }

  lemma ThroughSuffix<P>(a: seq<Stamped<P>>, s: seq<Stamped<P>>, latest: nat)
    requires IsSuffix(a, s)
    ensures IsSuffix(Through(a, latest), Through(s, latest))
  {
    var p := s[..|s| - |a|];
    assert s == p + a;
    ThroughConcat(p, a, latest);
    SuffixOfConcat(Through(p, latest), Through(a, latest));
  }

  /** `(head + i) % capacity` needs no division: the sum is below twice the capacity. */
  lemma Wrapped(sum: nat, capacity: nat)
    requires 0 < capacity && sum < 2 * capacity
    ensures sum % capacity == if sum < capacity then sum else sum - capacity
  {
    if sum >= capacity {
      assert sum == capacity * 1 + (sum - capacity);
      assert sum % capacity == (sum - capacity) % capacity;
    }
  }

  class Ring<P> {
    const capacity: nat
    const buffer: array<Option<Stamped<P>>>
    var head: nat
    var size: nat
    ghost var contents: seq<Stamped<P>>

    ghost function Slot(i: nat): nat
      reads this
    {
      if head + i < capacity then head + i else head + i - capacity
    }

    /** The window holds `contents`; every slot outside it is `undefined`. */
    ghost predicate Valid()
      reads this, buffer
    {
      && 0 < capacity == buffer.Length
      && head < capacity
      && size == |contents| <= capacity
      && forall i {:trigger Slot(i)} :: 0 <= i < capacity ==>
           buffer[Slot(i)] == if i < size then Some(contents[i]) else None
    }

    constructor (capacity: nat)
      requires capacity > 0
      ensures Valid() && fresh(buffer)
      ensures this.capacity == capacity && contents == []
    {
      this.capacity := capacity;
      buffer := new Option<Stamped<P>>[capacity](_ => None);
      head, size := 0, 0;
      contents := [];
    }

    method Push(value: Stamped<P>) returns (evicted: Option<Stamped<P>>)
      requires Valid()
      modifies this, buffer
      ensures Valid()
      ensures contents == Pushed(old(contents), value, capacity)
      ensures evicted == if |old(contents)| < capacity then None else Some(old(contents)[0])
    {
      if size < capacity {
        var slot := (head + size) % capacity;
        assert slot == Slot(size) by { Wrapped(head + size, capacity); }
        label before:
        buffer[slot] := Some(value);
        size := size + 1;
        contents := contents + [value];
        evicted := None;
        forall i {:trigger Slot(i)} | 0 <= i < capacity
          ensures buffer[Slot(i)] == if i < size then Some(contents[i]) else None
        {
          assert Slot(i) == old@before(Slot(i));
        }
      } else {
        assert Slot(0) == head;
        evicted := buffer[head];
        label before:
        buffer[head] := Some(value);
        var next := (head + 1) % capacity;
        assert next == if head + 1 < capacity then head + 1 else 0 by { Wrapped(head + 1, capacity); }
        head := next;
        contents := contents[1..] + [value];
        forall i {:trigger Slot(i)} | 0 <= i < capacity
          ensures buffer[Slot(i)] == Some(contents[i])
        {
          if i + 1 < capacity { assert Slot(i) == old@before(Slot(i + 1)); }
        }
      }
    }

    method RemoveOldest(stamp: nat)
      requires Valid()
      modifies this, buffer
      ensures Valid()
      ensures contents == WithoutOldest(old(contents), stamp)
    {
      assert Slot(0) == head;
      var oldest := buffer[head];
      if oldest.None? || oldest.value.stamp != stamp {
        return;
      }
      label before:
      buffer[head] := None;
      var next := (head + 1) % capacity;
      assert next == if head + 1 < capacity then head + 1 else 0 by { Wrapped(head + 1, capacity); }
      head := next;
      size := size - 1;
      contents := contents[1..];
      forall i {:trigger Slot(i)} | 0 <= i < capacity
        ensures buffer[Slot(i)] == if i < size then Some(contents[i]) else None
      {
        if i + 1 < capacity { assert Slot(i) == old@before(Slot(i + 1)); }
      }
    }

    method ValuesThrough(latest: nat) returns (values: seq<Stamped<P>>)
      requires Valid()
      ensures values == Through(contents, latest)
    {
      values := [];
      for index := 0 to size
        invariant values == Through(contents[..index], latest)
      {
        var slot := (head + index) % capacity;
        assert slot == Slot(index) by { Wrapped(head + index, capacity); }
        var value := buffer[slot];
        if value.Some? && value.value.stamp <= latest {
          values := values + [value.value];
        }
        assert contents[..index + 1] == contents[..index] + [contents[index]];
        ThroughConcat(contents[..index], [contents[index]], latest);
      }
      assert contents[..size] == contents;
    }
  }
}
