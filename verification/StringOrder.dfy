/** Strings in dictionary order, and the sorted listing of a finite set of strings. */
module StringOrder {

  predicate Leq(a: string, b: string) {
    a == "" || (b != "" && (a[0] < b[0] || (a[0] == b[0] && Leq(a[1..], b[1..]))))
  }

  /** Where two strings first differ, or the length of the shorter. */
  ghost predicate AgreeTo(a: string, b: string, n: nat) {
    n <= |a| && n <= |b| && a[..n] == b[..n] && (n < |a| && n < |b| ==> a[n] != b[n])
  }

  /** Dictionary order: the first difference decides, and a prefix comes first. */
  lemma {:induction false} LeqMeans(a: string, b: string, n: nat)
    requires AgreeTo(a, b, n)
    ensures Leq(a, b) <==> n == |a| || (n < |b| && a[n] < b[n])
  {
    if n > 0 {
      assert a[0] == a[..n][0] == b[..n][0] == b[0];
      assert a[1..][..n - 1] == a[..n][1..] && b[1..][..n - 1] == b[..n][1..];
      LeqMeans(a[1..], b[1..], n - 1);
    }
  }

  ghost predicate Sorted(s: seq<string>) {
    forall i, j :: 0 <= i < j < |s| ==> Leq(s[i], s[j])
  }

  ghost predicate Distinct(s: seq<string>) {
    forall i, j :: 0 <= i < j < |s| ==> s[i] != s[j]
  }

  lemma {:induction false} LeqTotal(a: string, b: string)
    ensures Leq(a, b) || Leq(b, a)
  {
    if a != "" && b != "" && a[0] == b[0] {
      LeqTotal(a[1..], b[1..]);
    }
  }

  lemma {:induction false} LeqAntisymmetric(a: string, b: string)
    requires Leq(a, b) && Leq(b, a)
    ensures a == b
  {
    if a != "" {
      LeqAntisymmetric(a[1..], b[1..]);
      assert a == [a[0]] + a[1..] && b == [b[0]] + b[1..];
    }
  }

  lemma {:induction false} LeqTransitive(a: string, b: string, c: string)
    requires Leq(a, b) && Leq(b, c)
    ensures Leq(a, c)
  {
    if a != "" && a[0] == b[0] == c[0] {
      LeqTransitive(a[1..], b[1..], c[1..]);
    }
  }

  ghost predicate IsLeast(x: string, s: set<string>) {
    x in s && forall y :: y in s ==> Leq(x, y)
  }

  lemma {:induction false} LeastExists(s: set<string>)
    requires s != {}
    ensures exists x :: IsLeast(x, s)
  {
    var x :| x in s;
    var rest := s - {x};
    if rest == {} {
      assert s == {x};
      LeqTotal(x, x);
      assert IsLeast(x, s);
    } else {
      LeastExists(rest);
      var y :| IsLeast(y, rest);
      LeqTotal(x, y);
      LeqTotal(x, x);
      var least := if Leq(x, y) then x else y;
      forall z | z in s ensures Leq(least, z) {
        if z != x && least == x { LeqTransitive(x, y, z); }
      }
      assert IsLeast(least, s);
    }
  }

  lemma LeastUnique(s: set<string>)
    ensures forall x, y :: IsLeast(x, s) && IsLeast(y, s) ==> x == y
  {
    forall x, y | IsLeast(x, s) && IsLeast(y, s) ensures x == y {
      LeqAntisymmetric(x, y);
    }
  }

  /** The least element of a set. */
  function Least(s: set<string>): (x: string)
    requires s != {}
    ensures IsLeast(x, s)
  {
    LeastExists(s);
    LeastUnique(s);
    assert exists x :: x in s && forall y :: y in s ==> Leq(x, y) by { var x :| IsLeast(x, s); }
    assert forall x, y :: x in s && y in s && (forall z :: z in s ==> Leq(x, z)) && (forall z :: z in s ==> Leq(y, z)) ==> x == y by {
      forall x, y | x in s && y in s && (forall z :: z in s ==> Leq(x, z)) && (forall z :: z in s ==> Leq(y, z)) ensures x == y {
        assert IsLeast(x, s) && IsLeast(y, s);
      }
    }
    var x :| x in s && forall y :: y in s ==> Leq(x, y);
    x
  }

  /** The elements of a set, each once, in order. */
  function Listing(s: set<string>): (r: seq<string>)
    ensures forall x :: x in r <==> x in s
    ensures |r| == |s|
  {
    if s == {} then [] else
      var x := Least(s);
      assert s == {x} + (s - {x});
      [x] + Listing(s - {x})
  }

  lemma {:induction false} ListingSorted(s: set<string>)
    ensures Sorted(Listing(s)) && Distinct(Listing(s))
  {
    if s != {} {
      var x := Least(s);
      var rest := Listing(s - {x});
      ListingSorted(s - {x});
      forall i | 0 <= i < |rest| ensures Leq(x, rest[i]) && x != rest[i] {
        assert rest[i] in rest;
      }
    }
  }

  /** A sorted list without repetition is the listing of its elements. */
  lemma {:induction false} SortedIsListing(r: seq<string>, s: set<string>)
    requires Sorted(r) && Distinct(r) && forall x :: x in r <==> x in s
    ensures r == Listing(s)
  {
    if r == [] {
      assert forall x :: x !in s;
      assert s == {};
    } else {
      assert r[0] in s;
      forall y | y in s ensures Leq(r[0], y) {
        var i :| 0 <= i < |r| && r[i] == y;
        LeqTotal(y, y);
      }
      assert IsLeast(r[0], s);
      LeastUnique(s);
      var rest := r[1..];
      forall x ensures x in rest <==> x in s - {r[0]} {
        if x in s - {r[0]} {
          var i :| 0 <= i < |r| && r[i] == x;
          assert rest[i - 1] == x;
        }
        if x in rest {
          var i :| 0 <= i < |rest| && rest[i] == x;
          assert r[i + 1] == x;
        }
      }
      SortedIsListing(rest, s - {r[0]});
    }
  }
}
