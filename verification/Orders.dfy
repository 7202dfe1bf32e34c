/** Sorting over an arbitrary total order, and the lexicographic order on strings.
    Stands for `sort.Strings`, `sorted(...)` and `list.sort(...)`. */
module Orders {

  /** `leq` compares any two elements: an order by some key of them. */
  ghost predicate KeyOrder<T(!new)>(leq: (T, T) -> bool) {
    && (forall x, y :: leq(x, y) || leq(y, x))
    && (forall x, y, z :: leq(x, y) && leq(y, z) ==> leq(x, z))
  }

  /** And only equal elements both ways. */
  ghost predicate TotalOrder<T(!new)>(leq: (T, T) -> bool) {
    KeyOrder(leq) && (forall x, y :: leq(x, y) && leq(y, x) ==> x == y)
  }

  ghost predicate Sorted<T>(xs: seq<T>, leq: (T, T) -> bool) {
    forall i, j :: 0 <= i < j < |xs| ==> leq(xs[i], xs[j])
  }

  function Insert<T>(x: T, xs: seq<T>, leq: (T, T) -> bool): (r: seq<T>)
    ensures multiset(r) == multiset{x} + multiset(xs)
  {
    if xs == [] then [x]
    else if leq(x, xs[0]) then [x] + xs
    else
      assert xs == [xs[0]] + xs[1..];
      [xs[0]] + Insert(x, xs[1..], leq)
  }

  function Sort<T>(xs: seq<T>, leq: (T, T) -> bool): (r: seq<T>)
    ensures multiset(r) == multiset(xs)
  {
    if xs == [] then [] else
      assert xs == [xs[0]] + xs[1..];
      Insert(xs[0], Sort(xs[1..], leq), leq)
  }

  lemma {:induction false} InsertKeepsSorted<T(!new)>(x: T, xs: seq<T>, leq: (T, T) -> bool)
    requires KeyOrder(leq) && Sorted(xs, leq)
    ensures Sorted(Insert(x, xs, leq), leq)
  {
    if xs != [] && !leq(x, xs[0]) {
      var rest := Insert(x, xs[1..], leq);
      InsertKeepsSorted(x, xs[1..], leq);
      forall k | 0 <= k < |rest| ensures leq(xs[0], rest[k]) {
        assert rest[k] in multiset(rest);
        assert rest[k] == x || rest[k] in xs[1..];
      }
    }
  }

  lemma {:induction false} SortSorts<T(!new)>(xs: seq<T>, leq: (T, T) -> bool)
    requires KeyOrder(leq)
    ensures Sorted(Sort(xs, leq), leq)
  {
    if xs != [] {
      SortSorts(xs[1..], leq);
      InsertKeepsSorted(xs[0], Sort(xs[1..], leq), leq);
    }
  }

  /** A sorted arrangement is determined by what it arranges. */
  lemma {:induction false} SortedIsUnique<T(!new)>(xs: seq<T>, ys: seq<T>, leq: (T, T) -> bool)
    requires TotalOrder(leq) && Sorted(xs, leq) && Sorted(ys, leq)
    requires multiset(xs) == multiset(ys)
    ensures xs == ys
  {
    assert |xs| == |multiset(xs)| == |multiset(ys)| == |ys|;
    if xs != [] {
      SameFirst(xs, ys, leq);
      RestOf(xs);
      RestOf(ys);
      SortedIsUnique(xs[1..], ys[1..], leq);
    }
  }

  lemma RestOf<T>(xs: seq<T>)
    requires xs != []
    ensures xs == [xs[0]] + xs[1..] && multiset(xs[1..]) == multiset(xs) - multiset{xs[0]}
  {
    assert xs == [xs[0]] + xs[1..];
  }

  lemma SameFirst<T(!new)>(xs: seq<T>, ys: seq<T>, leq: (T, T) -> bool)
    requires TotalOrder(leq) && Sorted(xs, leq) && Sorted(ys, leq)
    requires multiset(xs) == multiset(ys) && xs != [] && ys != []
    ensures xs[0] == ys[0]
  {
    assert xs[0] in multiset(ys) && ys[0] in multiset(xs);
    var i :| 0 <= i < |ys| && ys[i] == xs[0];
    var j :| 0 <= j < |xs| && xs[j] == ys[0];
    assert leq(xs[0], ys[0]) && leq(ys[0], xs[0]);
  }

  predicate Distinct<T(==)>(xs: seq<T>) {
    forall i, j :: 0 <= i < j < |xs| ==> xs[i] != xs[j]
  }

  /** `xs` lists the set `s`, each element once. */
  ghost predicate Lists<T(!new)>(xs: seq<T>, s: set<T>) {
    Distinct(xs) && (forall x :: x in s <==> x in xs)
  }

  lemma {:induction false} ListingIsMultiset<T(!new)>(xs: seq<T>, s: set<T>)
    requires Lists(xs, s)
    ensures multiset(xs) == multiset(s)
    decreases |xs|
  {
    if xs == [] {
      assert s == {};
    } else {
      var x, rest := xs[0], xs[1..];
      assert xs == [x] + rest;
      RestLists(xs, s);
      ListingIsMultiset(rest, s - {x});
      assert multiset(s) == multiset(s - {x}) + multiset{x};
    }
  }

  lemma RestLists<T(!new)>(xs: seq<T>, s: set<T>)
    requires Lists(xs, s) && xs != []
    ensures Lists(xs[1..], s - {xs[0]})
  {
    var rest := xs[1..];
    assert xs == [xs[0]] + rest;
    forall i, j | 0 <= i < j < |rest| ensures rest[i] != rest[j] {
      assert rest[i] == xs[i+1] && rest[j] == xs[j+1];
    }
    forall x ensures x in s - {xs[0]} <==> x in rest {
      if x in rest {
        var k :| 0 <= k < |rest| && rest[k] == x;
        assert xs[k+1] == x && xs[0] != xs[k+1];
      }
    }
  }

  lemma ListingSize<T(!new)>(xs: seq<T>, s: set<T>)
    requires Lists(xs, s)
    ensures |xs| == |s|
  {
    ListingIsMultiset(xs, s);
    assert |multiset(xs)| == |xs|;
  }

  lemma SortedListing<T(!new)>(xs: seq<T>, s: set<T>, leq: (T, T) -> bool)
    requires Lists(xs, s)
    ensures Lists(Sort(xs, leq), s)
  {
    var r := Sort(xs, leq);
    ListingIsMultiset(xs, s);
    assert multiset(r) == multiset(s);
    forall x ensures x in s <==> x in r {
      assert x in r <==> x in multiset(r);
    }
    forall i, j | 0 <= i < j < |r| ensures r[i] != r[j] {
      assert r == r[..i] + [r[i]] + r[i+1..j] + [r[j]] + r[j+1..];
      assert multiset(r)[r[i]] <= 1;
    }
  }

  // --- strings ---------------------------------------------------------------

  predicate LexLeq(a: string, b: string) {
    if a == [] then true
    else if b == [] then false
    else if a[0] != b[0] then a[0] < b[0]
    else LexLeq(a[1..], b[1..])
  }

  /** `a` and `b` first differ in the character at `k`, and `a` has the greater one. */
  predicate GreaterAt(a: string, b: string, k: nat) {
    k < |a| && k < |b| && a[..k] == b[..k] && b[k] < a[k]
  }

  /** Dictionary order: `a` goes on where `b` ends, or is greater where they first differ. */
  ghost predicate ComesAfter(a: string, b: string) {
    b < a || exists k: nat :: GreaterAt(a, b, k)
  }

  lemma SameBefore(a: string, b: string, k: nat)
    requires GreaterAt(a, b, k)
    ensures k > 0 ==> a[0] == b[0]
  {
    if k > 0 { assert a[0] == a[..k][0] && b[0] == b[..k][0]; }
  }

  lemma {:induction false} LexMeans(a: string, b: string)
    ensures LexLeq(a, b) <==> a == b || ComesAfter(b, a)
    decreases |a|
  {
    if a != [] && b != [] {
      assert a == [a[0]] + a[1..] && b == [b[0]] + b[1..];
      if a[0] == b[0] {
        LexMeans(a[1..], b[1..]);
        if k: nat :| GreaterAt(b[1..], a[1..], k) {
          assert b[..k + 1] == [b[0]] + b[1..][..k] && a[..k + 1] == [a[0]] + a[1..][..k];
          assert GreaterAt(b, a, k + 1);
        }
        if k: nat :| GreaterAt(b, a, k) {
          assert b[1..][..k - 1] == b[..k][1..] && a[1..][..k - 1] == a[..k][1..];
          assert GreaterAt(b[1..], a[1..], k - 1);
        }
      } else {
        assert LexLeq(a, b) ==> GreaterAt(b, a, 0);
        if k: nat :| GreaterAt(b, a, k) {
          SameBefore(b, a, k);
        }
      }
    }
  }

  lemma {:induction false} LexTotal(a: string, b: string)
    ensures LexLeq(a, b) || LexLeq(b, a)
    ensures LexLeq(a, b) && LexLeq(b, a) ==> a == b
  {
    if a != [] && b != [] && a[0] == b[0] {
      LexTotal(a[1..], b[1..]);
      assert a == [a[0]] + a[1..] && b == [b[0]] + b[1..];
    }
  }

  lemma {:induction false} LexTransitive(a: string, b: string, c: string)
    requires LexLeq(a, b) && LexLeq(b, c)
    ensures LexLeq(a, c)
  {
    if a != [] && a[0] == b[0] && b[0] == c[0] {
      LexTransitive(a[1..], b[1..], c[1..]);
    }
  }

  lemma LexIsTotalOrder()
    ensures TotalOrder(LexLeq)
  {
    forall a, b ensures (LexLeq(a, b) || LexLeq(b, a)) && (LexLeq(a, b) && LexLeq(b, a) ==> a == b) {
      LexTotal(a, b);
    }
    forall a, b, c | LexLeq(a, b) && LexLeq(b, c) ensures LexLeq(a, c) {
      LexTransitive(a, b, c);
    }
  }

  /** The one sorted listing of a finite set of strings. */
  ghost function SortedStrings(s: set<string>): (r: seq<string>)
    ensures Lists(r, s) && Sorted(r, LexLeq)
  {
    LexIsTotalOrder();
    var xs := Listing(s);
    SortedListing(xs, s, LexLeq);
    SortSorts(xs, LexLeq);
    Sort(xs, LexLeq)
  }

  ghost function Listing<T(!new)>(s: set<T>): (xs: seq<T>)
    ensures Lists(xs, s)
  {
    if s == {} then []
    else
      var x :| x in s;
      [x] + Listing(s - {x})
  }
}
