/**
 A JavaScript `Map` used as a bounded recency list: entries stand in insertion
 order, a use deletes the key and inserts it again at the end, and the oldest
 entries are dropped while the map is over its bound.
 */
module RecencyMap {
  import opened Sequences

  datatype Entry<+V> = Entry(key: string, value: V)

  ghost predicate Distinct<V>(m: seq<Entry<V>>) {
    forall i, j :: 0 <= i < j < |m| ==> m[i].key != m[j].key
  }

  function Keys<V>(m: seq<Entry<V>>): set<string> {
    set i | 0 <= i < |m| :: m[i].key
  }

  /** `map.get(key)`. */
  function Find<V>(m: seq<Entry<V>>, key: string): Option<V> {
    if m == [] then None
    else if m[0].key == key then Some(m[0].value)
    else Find(m[1..], key)
  }

  /** `map.delete(key)`. */
  function Delete<V>(m: seq<Entry<V>>, key: string): (r: seq<Entry<V>>)
    ensures |r| <= |m|
  {
    if m == [] then []
    else if m[0].key == key then Delete(m[1..], key)
    else [m[0]] + Delete(m[1..], key)
  }

  /** Delete, insert at the end, then drop the oldest entries over the bound. */
  function Touch<V>(m: seq<Entry<V>>, e: Entry<V>, bound: nat): seq<Entry<V>> {
    LastN(Delete(m, e.key) + [e], bound)
  }

  function TouchAll<V>(m: seq<Entry<V>>, uses: seq<Entry<V>>, bound: nat): seq<Entry<V>>
    decreases |uses|
  {
    if uses == [] then m else TouchAll(Touch(m, uses[0], bound), uses[1..], bound)
  }

  /** Reference: the uses whose key is not used again later, in order. */
  function LastUses<V>(log: seq<Entry<V>>): seq<Entry<V>> {
    if log == [] then []
    else if log[0].key in Keys(log[1..]) then LastUses(log[1..])
    else [log[0]] + LastUses(log[1..])
  }

  /** Reference: the `bound` most recently used distinct keys with their last values. */
  function Recent<V>(log: seq<Entry<V>>, bound: nat): seq<Entry<V>> {
    LastN(LastUses(log), bound)
  }

  lemma KeysHead<V>(m: seq<Entry<V>>)
    requires m != []
    ensures Keys(m) == {m[0].key} + Keys(m[1..])
  {
    var tail := m[1..];
    forall k | k in Keys(m) ensures k in {m[0].key} + Keys(tail) {
      var i :| 0 <= i < |m| && m[i].key == k;
      if i > 0 { assert tail[i - 1].key == k; }
    }
    forall k | k in Keys(tail) ensures k in Keys(m) {
      var i :| 0 <= i < |tail| && tail[i].key == k;
      assert m[i + 1].key == k;
    }
  }

  lemma InKeys<V>(m: seq<Entry<V>>, e: Entry<V>)
    requires e in m
    ensures e.key in Keys(m)
  {
  }

  lemma KeysSize<V>(m: seq<Entry<V>>)
    ensures |Keys(m)| <= |m|
  {
    if m != [] {
      KeysHead(m);
      KeysSize(m[1..]);
    }
  }

  lemma {:induction false} FindMeans<V>(m: seq<Entry<V>>, key: string)
    ensures Find(m, key).Some? <==> key in Keys(m)
    ensures Find(m, key).Some? ==> Entry(key, Find(m, key).value) in m
  {
    if m != [] {
      KeysHead(m);
      FindMeans(m[1..], key);
      assert m == [m[0]] + m[1..];
    }
  }

  lemma {:induction false} DeleteMember<V>(m: seq<Entry<V>>, key: string, x: Entry<V>)
    ensures x in Delete(m, key) <==> x in m && x.key != key
  {
    if m != [] {
      DeleteMember(m[1..], key, x);
      assert m == [m[0]] + m[1..];
    }
  }

  /** Deletion removes exactly the entries under the key. */
  lemma DeleteMembers<V(!new)>(m: seq<Entry<V>>, key: string)
    ensures forall x :: x in Delete(m, key) <==> x in m && x.key != key
  {
    forall x ensures x in Delete(m, key) <==> x in m && x.key != key { DeleteMember(m, key, x); }
  }

  lemma {:induction false} DeleteConcat<V>(p: seq<Entry<V>>, q: seq<Entry<V>>, key: string)
    ensures Delete(p + q, key) == Delete(p, key) + Delete(q, key)
  {
    if p == [] {
      assert p + q == q;
    } else {
      assert (p + q)[0] == p[0] && (p + q)[1..] == p[1..] + q;
      DeleteConcat(p[1..], q, key);
    }
  }

  lemma {:induction false} DeleteAbsent<V>(m: seq<Entry<V>>, key: string)
    requires key !in Keys(m)
    ensures Delete(m, key) == m
  {
    if m != [] {
      KeysHead(m);
      DeleteAbsent(m[1..], key);
    }
  }

  lemma {:induction false} DistinctSize<V>(m: seq<Entry<V>>)
    requires Distinct(m)
    ensures |Keys(m)| == |m|
  {
    if m != [] {
      KeysHead(m);
      DistinctSize(m[1..]);
    }
  }

  lemma {:induction false} DeletePresent<V>(m: seq<Entry<V>>, key: string)
    requires key in Keys(m)
    ensures |Delete(m, key)| < |m|
  {
    KeysHead(m);
    if m[0].key != key {
      DeletePresent(m[1..], key);
    }
  }

  lemma TouchKeys<V>(m: seq<Entry<V>>, e: Entry<V>, bound: nat)
    ensures Keys(Touch(m, e, bound)) <= Keys(m) + {e.key}
  {
    var r := Touch(m, e, bound);
    forall i | 0 <= i < |r| ensures r[i].key in Keys(m) + {e.key} {
      if r[i] != e {
        DeleteMember(m, e.key, r[i]);
        InKeys(m, r[i]);
      }
    }
  }

  /** With distinct keys, deletion removes one entry at most and keeps the order. */
  lemma {:induction false} DeleteDistinct<V>(m: seq<Entry<V>>, key: string)
    requires Distinct(m)
    ensures Distinct(Delete(m, key)) && |Delete(m, key)| >= |m| - 1
    ensures Keys(Delete(m, key)) == Keys(m) - {key}
  {
    if m != [] {
      KeysHead(m);
      DeleteDistinct(m[1..], key);
      if m[0].key == key {
        DeleteAbsent(m[1..], key);
      } else {
        KeysHead([m[0]] + Delete(m[1..], key));
        assert ([m[0]] + Delete(m[1..], key))[1..] == Delete(m[1..], key);
        forall i | 0 <= i < |Delete(m[1..], key)| ensures Delete(m[1..], key)[i].key != m[0].key {
          DeleteMember(m[1..], key, Delete(m[1..], key)[i]);
          InKeys(m[1..], Delete(m[1..], key)[i]);
        }
      }
    }
  }

  lemma {:induction false} LastUsesDistinct<V>(log: seq<Entry<V>>)
    ensures Distinct(LastUses(log)) && Keys(LastUses(log)) == Keys(log)
  {
    if log != [] {
      KeysHead(log);
      LastUsesDistinct(log[1..]);
      if log[0].key !in Keys(log[1..]) {
        KeysHead(LastUses(log));
        assert LastUses(log)[1..] == LastUses(log[1..]);
        forall i | 0 <= i < |LastUses(log[1..])| ensures LastUses(log[1..])[i].key != log[0].key {
          assert LastUses(log[1..])[i].key in Keys(LastUses(log[1..]));
        }
      }
    }
  }

  lemma {:induction false} LastUsesPush<V>(log: seq<Entry<V>>, e: Entry<V>)
    ensures LastUses(log + [e]) == Delete(LastUses(log), e.key) + [e]
  {
    if log == [] {
      assert log + [e] == [e];
      assert LastUses([e][1..]) == [];
    } else {
      var rest := log[1..];
      assert (log + [e])[0] == log[0] && (log + [e])[1..] == rest + [e];
      LastUsesPush(rest, e);
      KeysConcat(rest, [e]);
      assert Keys([e]) == {e.key} by { KeysHead([e]); }
      if log[0].key in Keys(rest) {
      } else if log[0].key == e.key {
        assert LastUses(log) == [log[0]] + LastUses(rest);
        assert LastUses(log)[1..] == LastUses(rest);
      } else {
        assert LastUses(log)[1..] == LastUses(rest);
        assert [log[0]] + (Delete(LastUses(rest), e.key) + [e]) == ([log[0]] + Delete(LastUses(rest), e.key)) + [e];
      }
    }
  }

  lemma {:induction false} KeysConcat<V>(p: seq<Entry<V>>, q: seq<Entry<V>>)
    ensures Keys(p + q) == Keys(p) + Keys(q)
  {
    if p == [] {
      assert p + q == q;
    } else {
      KeysHead(p);
      KeysHead(p + q);
      assert (p + q)[1..] == p[1..] + q;
      KeysConcat(p[1..], q);
    }
  }

  lemma TouchOne<V>(m: seq<Entry<V>>, e: Entry<V>, bound: nat)
    ensures TouchAll(m, [e], bound) == Touch(m, e, bound)
  {
    assert [e][1..] == [];
    assert TouchAll(Touch(m, e, bound), [], bound) == Touch(m, e, bound);
  }

  lemma {:induction false} TouchAllPush<V>(m: seq<Entry<V>>, uses: seq<Entry<V>>, e: Entry<V>, bound: nat)
    ensures TouchAll(m, uses + [e], bound) == Touch(TouchAll(m, uses, bound), e, bound)
    decreases |uses|
  {
    if uses == [] {
      assert uses + [e] == [e];
      TouchOne(m, e, bound);
    } else {
      assert (uses + [e])[0] == uses[0] && (uses + [e])[1..] == uses[1..] + [e];
      TouchAllPush(Touch(m, uses[0], bound), uses[1..], e, bound);
    }
  }

  lemma TouchDistinct<V>(m: seq<Entry<V>>, e: Entry<V>, bound: nat)
    requires Distinct(m)
    ensures Distinct(Delete(m, e.key) + [e]) && Distinct(Touch(m, e, bound))
  {
    DeleteDistinct(m, e.key);
  }

  /** A bounded map holds nothing but old entries and new uses. */
  lemma {:induction false} TouchAllMember<V>(m: seq<Entry<V>>, uses: seq<Entry<V>>, bound: nat, x: Entry<V>)
    requires x in TouchAll(m, uses, bound)
    ensures x in m || x in uses
    decreases |uses|
  {
    if uses != [] {
      TouchAllMember(Touch(m, uses[0], bound), uses[1..], bound, x);
      DeleteMember(m, uses[0].key, x);
    }
  }

  /** One bounded use keeps the map equal to the most recently used keys of the whole log. */
  lemma TouchIsRecent<V>(log: seq<Entry<V>>, e: Entry<V>, bound: nat)
    requires bound > 0
    ensures Touch(Recent(log, bound), e, bound) == Recent(log + [e], bound)
  {
    var x := LastUses(log);
    LastUsesPush(log, e);
    if |x| > bound {
      var p, q := x[..|x| - bound], x[|x| - bound..];
      assert x == p + q;
      DeleteConcat(p, q, e.key);
      LastUsesDistinct(log);
      assert Distinct(q);
      DeleteDistinct(q, e.key);
      var tail := Delete(q, e.key) + [e];
      assert Delete(x, e.key) + [e] == Delete(p, e.key) + tail;
      LastNConcat(Delete(p, e.key), tail, bound);
    }
  }

  /** After any uses, the map is exactly the `bound` most recently used distinct keys. */
  lemma {:induction false} TouchAllIsRecent<V>(log: seq<Entry<V>>, uses: seq<Entry<V>>, bound: nat)
    requires bound > 0
    ensures TouchAll(Recent(log, bound), uses, bound) == Recent(log + uses, bound)
    decreases |uses|
  {
    if uses == [] {
      assert log + uses == log;
    } else {
      TouchIsRecent(log, uses[0], bound);
      assert log + uses == (log + [uses[0]]) + uses[1..];
      TouchAllIsRecent(log + [uses[0]], uses[1..], bound);
    }
  }

  /** What the reference means: `e` is kept only as the last use of its key. */
  lemma {:induction false} LastUseMeans<V>(log: seq<Entry<V>>, e: Entry<V>)
    ensures e in LastUses(log) <==>
            exists i :: 0 <= i < |log| && log[i] == e && forall j :: i < j < |log| ==> log[j].key != e.key
  {
    if log != [] {
      var rest := log[1..];
      LastUseMeans(rest, e);
      if e in LastUses(log) {
        if e in LastUses(rest) {
          var i :| 0 <= i < |rest| && rest[i] == e && forall j :: i < j < |rest| ==> rest[j].key != e.key;
          forall j | i + 1 < j < |log| ensures log[j].key != e.key { assert log[j] == rest[j - 1]; }
          assert log[i + 1] == e;
        } else {
          forall j | 0 < j < |log| ensures log[j].key != e.key { assert rest[j - 1] == log[j]; }
          assert log[0] == e;
        }
      }
      if i :| 0 <= i < |log| && log[i] == e && forall j :: i < j < |log| ==> log[j].key != e.key {
        if i > 0 {
          forall j | i - 1 < j < |rest| ensures rest[j].key != e.key { assert rest[j] == log[j + 1]; }
          assert rest[i - 1] == e;
        } else {
          forall k | 0 <= k < |rest| ensures rest[k].key != e.key { assert rest[k] == log[k + 1]; }
        }
      }
    }
  }

  lemma {:induction false} UsedLast<V>(log: seq<Entry<V>>, uses: seq<Entry<V>>, x: Entry<V>)
    requires Distinct(uses)
    ensures x in LastUses(log + uses) <==> x in uses || (x in LastUses(log) && x.key !in Keys(uses))
    decreases |uses|
  {
    if uses == [] {
      assert log + uses == log;
    } else {
      var n := |uses| - 1;
      var first, last := uses[..n], uses[n];
      assert uses == first + [last] && log + uses == (log + first) + [last];
      UsedLast(log, first, x);
      LastUsesPush(log + first, last);
      DeleteMember(LastUses(log + first), last.key, x);
      KeysConcat(first, [last]);
      KeysHead([last]);
    }
  }

  /** Uses in batches, one after another. */
  function AllUses<V>(batches: seq<seq<Entry<V>>>): seq<Entry<V>> {
    if batches == [] then [] else AllUses(batches[..|batches| - 1]) + batches[|batches| - 1]
  }

  lemma BatchesNext<V>(batches: seq<seq<Entry<V>>>, n: nat)
    requires n < |batches|
    ensures AllUses(batches[..n + 1]) == AllUses(batches[..n]) + batches[n]
  {
    assert batches[..n + 1][..n] == batches[..n];
  }

  /** Batch `k` uses `x`, and no later batch uses its key. */
  ghost predicate LastAt<V>(batches: seq<seq<Entry<V>>>, k: nat, x: Entry<V>) {
    k < |batches| && x in batches[k] && forall j :: k < j < |batches| ==> x.key !in Keys(batches[j])
  }

  lemma {:induction false} LastUseAt<V>(batches: seq<seq<Entry<V>>>, x: Entry<V>)
    requires forall n :: 0 <= n < |batches| ==> Distinct(batches[n])
    ensures x in LastUses(AllUses(batches)) <==> exists k: nat :: LastAt(batches, k, x)
  {
    if batches != [] {
      var n := |batches| - 1;
      var front := batches[..n];
      LastUseAt(front, x);
      UsedLast(AllUses(front), batches[n], x);
      if x in batches[n] {
        assert LastAt(batches, n, x);
      } else {
        forall k: nat ensures LastAt(batches, k, x) <==> LastAt(front, k, x) && x.key !in Keys(batches[n]) {
          LastAtFront(batches, k, x);
        }
      }
    }
  }

  lemma LastAtFront<V>(batches: seq<seq<Entry<V>>>, k: nat, x: Entry<V>)
    requires batches != [] && x !in batches[|batches| - 1]
    ensures LastAt(batches, k, x) <==>
            LastAt(batches[..|batches| - 1], k, x) && x.key !in Keys(batches[|batches| - 1])
  {
  }

  /** Dropping the oldest entry of an overfull map shortens it by one and keeps its newest entries. */
  lemma DeleteOldest<V>(m: seq<Entry<V>>, bound: nat)
    requires Distinct(m) && |m| > bound
    ensures var r := Delete(m, m[0].key); Distinct(r) && |r| == |m| - 1 && LastN(r, bound) == LastN(m, bound)
  {
    var tail := m[1..];
    forall i | 0 <= i < |tail| ensures tail[i].key != m[0].key {
      assert tail[i] == m[i + 1];
    }
    DeleteAbsent(tail, m[0].key);
    LastNDrop(m, bound);
  }

  /** `while (map.size > bound) map.delete(oldest)`. */
  method EvictOldest<V>(m: seq<Entry<V>>, bound: nat) returns (r: seq<Entry<V>>)
    requires Distinct(m)
    ensures r == LastN(m, bound)
  {
    r := m;
    while |r| > bound
      invariant Distinct(r) && LastN(r, bound) == LastN(m, bound)
      decreases |r|
    {
      DeleteOldest(r, bound);
      r := Delete(r, r[0].key);
    }
  }
}
