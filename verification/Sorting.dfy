/**
 Sorted lists of strings, as `sort.Strings` leaves them: the order is the
 lexicographic one, so a list of strings is determined by its multiset.
 */
module Sorting {

  predicate Leq(a: string, b: string) {
    if a == "" then true
    else if b == "" then false
    else if a[0] == b[0] then Leq(a[1..], b[1..])
    else a[0] < b[0]
  }

  lemma {:induction false} LeqAntisymmetric(a: string, b: string)
    requires Leq(a, b) && Leq(b, a)
    ensures a == b
  {
    if a != "" {
      LeqAntisymmetric(a[1..], b[1..]);
      assert a == [a[0]] + a[1..] && b == [b[0]] + b[1..];
    }
  }

  lemma {:induction false} LeqTransitive(a: string, b: string, c: string)
    requires Leq(a, b) && Leq(b, c)
    ensures Leq(a, c)
  {
    if a != "" && a[0] == b[0] == c[0] {
      LeqTransitive(a[1..], b[1..], c[1..]);
    }
  }

  lemma {:induction false} LeqTotal(a: string, b: string)
    ensures Leq(a, b) || Leq(b, a)
  {
    if a != "" && b != "" && a[0] == b[0] {
      LeqTotal(a[1..], b[1..]);
    }
  }

  ghost predicate Sorted(xs: seq<string>) {
    forall i, j | 0 <= i < j < |xs| :: Leq(xs[i], xs[j])
  }

  function Insert(x: string, xs: seq<string>): seq<string> {
    if xs == [] || Leq(x, xs[0]) then [x] + xs else [xs[0]] + Insert(x, xs[1..])
  }

  function Sort(xs: seq<string>): seq<string> {
    if xs == [] then [] else Insert(xs[0], Sort(xs[1..]))
  }

  lemma {:induction false} InsertIs(x: string, xs: seq<string>)
    requires Sorted(xs)
    ensures Sorted(Insert(x, xs)) && multiset(Insert(x, xs)) == multiset(xs) + multiset{x}
  {
    if xs == [] {
    } else if Leq(x, xs[0]) {
      forall i | 0 <= i < |xs| ensures Leq(x, xs[i]) {
        if i > 0 {
          LeqTransitive(x, xs[0], xs[i]);
        }
      }
    } else {
      LeqTotal(x, xs[0]);
      InsertIs(x, xs[1..]);
      assert xs == [xs[0]] + xs[1..];
      var rest := Insert(x, xs[1..]);
      forall i | 0 <= i < |rest| ensures Leq(xs[0], rest[i]) {
        assert rest[i] in multiset(rest);
        assert rest[i] == x || rest[i] in xs[1..];
      }
    }
  }

  // `Sort` returns its list in order and loses or adds nothing.
  lemma {:induction false} SortIs(xs: seq<string>)
    ensures Sorted(Sort(xs)) && multiset(Sort(xs)) == multiset(xs)
  {
    if xs != [] {
      SortIs(xs[1..]);
      InsertIs(xs[0], Sort(xs[1..]));
      assert xs == [xs[0]] + xs[1..];
    }
  }

  function Without<T>(xs: seq<T>, j: nat): seq<T>
    requires j < |xs|
  {
    xs[..j] + xs[j + 1..]
  }

  lemma WithoutIs<T>(xs: seq<T>, j: nat)
    requires j < |xs|
    ensures multiset(xs) == multiset(Without(xs, j)) + multiset{xs[j]}
  {
    assert xs == xs[..j] + [xs[j]] + xs[j + 1..];
  }

  lemma CancelOne<T>(a: multiset<T>, b: multiset<T>, x: T)
    requires a + multiset{x} == b + multiset{x}
    ensures a == b
  {
    assert a == a + multiset{x} - multiset{x};
    assert b == b + multiset{x} - multiset{x};
  }

  lemma Occurs<T>(xs: seq<T>, x: T) returns (j: nat)
    requires x in multiset(xs)
    ensures j < |xs| && xs[j] == x
  {
    j :| 0 <= j < |xs| && xs[j] == x;
  }

  // The least element of a sorted list is its first.
  lemma FirstIsLeast(a: seq<string>, x: string)
    requires Sorted(a) && x in multiset(a)
    ensures a != [] && Leq(a[0], x)
  {
    var j := Occurs(a, x);
    if j == 0 {
      LeqTotal(x, x);
    }
  }

  lemma SameFirst(a: seq<string>, b: seq<string>)
    requires Sorted(a) && Sorted(b) && multiset(a) == multiset(b) && a != [] && b != []
    ensures a[0] == b[0]
  {
    assert a[0] in multiset(a) && b[0] in multiset(b);
    FirstIsLeast(a, b[0]);
    FirstIsLeast(b, a[0]);
    LeqAntisymmetric(a[0], b[0]);
  }

  lemma SameRest<T>(a: seq<T>, b: seq<T>)
    requires multiset(a) == multiset(b) && a != [] && b != [] && a[0] == b[0]
    ensures multiset(a[1..]) == multiset(b[1..])
  {
    WithoutIs(a, 0);
    WithoutIs(b, 0);
    assert Without(a, 0) == a[1..] && Without(b, 0) == b[1..];
    CancelOne(multiset(a[1..]), multiset(b[1..]), a[0]);
  }

  lemma SortedRest(a: seq<string>)
    requires Sorted(a) && a != []
    ensures Sorted(a[1..])
  {}

  lemma {:induction false} SortedUnique(a: seq<string>, b: seq<string>)
    requires Sorted(a) && Sorted(b) && multiset(a) == multiset(b)
    ensures a == b
  {
    assert |multiset(a)| == |a| && |multiset(b)| == |b|;
    if a != [] {
      SameFirst(a, b);
      SameRest(a, b);
      SortedRest(a);
      SortedRest(b);
      SortedUnique(a[1..], b[1..]);
      assert a == [a[0]] + a[1..] && b == [b[0]] + b[1..];
    }
  }

  lemma SortCanonical(a: seq<string>, b: seq<string>)
    ensures Sort(a) == Sort(b) <==> multiset(a) == multiset(b)
  {
    SortIs(a);
    SortIs(b);
    if multiset(a) == multiset(b) {
      SortedUnique(Sort(a), Sort(b));
    }
  }

  lemma SortOfSorted(xs: seq<string>)
    requires Sorted(xs)
    ensures Sort(xs) == xs
  {
    SortIs(xs);
    SortedUnique(Sort(xs), xs);
  }

  lemma {:induction false} LeqAfter(p: string, x: string, y: string)
    requires Leq(x, y)
    ensures Leq(p + x, p + y)
  {
    if p == "" {
      assert p + x == x && p + y == y;
    } else {
      assert (p + x)[1..] == p[1..] + x && (p + y)[1..] == p[1..] + y;
      LeqAfter(p[1..], x, y);
    }
  }

  // If equal first entries mean equal second entries, then equal multisets of
  // first entries mean equal multisets of second entries.
  lemma {:induction false} MultisetMap<A, B>(fx: seq<A>, gx: seq<B>, fy: seq<A>, gy: seq<B>)
    requires |fx| == |gx| && |fy| == |gy| && multiset(fx) == multiset(fy)
    requires forall i, j | 0 <= i < |fx| && 0 <= j < |fy| && fx[i] == fy[j] :: gx[i] == gy[j]
    ensures multiset(gx) == multiset(gy)
    decreases |fx|
  {
    assert |multiset(fx)| == |fx| && |multiset(fy)| == |fy|;
    if fx != [] {
      assert fx[0] in multiset(fx);
      var j := Occurs(fy, fx[0]);
      WithoutIs(fx, 0);
      WithoutIs(gx, 0);
      WithoutIs(fy, j);
      WithoutIs(gy, j);
      CancelOne(multiset(Without(fx, 0)), multiset(Without(fy, j)), fx[0]);
      MultisetMap(Without(fx, 0), Without(gx, 0), Without(fy, j), Without(gy, j));
    }
  }
}
