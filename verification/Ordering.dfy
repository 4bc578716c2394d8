/**
 Orders and the stable sort behind Rust's `sort`, `sort_by` and `sort_by_key`, and the
 ascending key sequence behind every loop over a `BTreeMap` or `BTreeSet`.
 */
module Ordering {

  ghost predicate TotalPreorder<T(!new)>(leq: (T, T) -> bool) {
    && (forall x, y :: leq(x, y) || leq(y, x))
    && (forall x, y, z :: leq(x, y) && leq(y, z) ==> leq(x, z))
  }

  ghost predicate TotalOrder<T(!new)>(leq: (T, T) -> bool) {
    && TotalPreorder(leq)
    && (forall x, y :: leq(x, y) && leq(y, x) ==> x == y)
  }

  ghost predicate Sorted<T>(s: seq<T>, leq: (T, T) -> bool) {
    forall i, j :: 0 <= i < j < |s| ==> leq(s[i], s[j])
  }

  /** Place `x` in front of the first element it does not exceed, so equal elements keep their order. */
  function Insert<T>(x: T, s: seq<T>, leq: (T, T) -> bool): (r: seq<T>)
    ensures |r| == |s| + 1
    ensures multiset(r) == multiset(s) + multiset{x}
  {
    if s == [] || leq(x, s[0]) then [x] + s
    else
      assert s == [s[0]] + s[1..];
      [s[0]] + Insert(x, s[1..], leq)
  }

  function Sort<T>(s: seq<T>, leq: (T, T) -> bool): (r: seq<T>)
    ensures |r| == |s|
    ensures multiset(r) == multiset(s)
  {
    if s == [] then []
    else
      assert s == [s[0]] + s[1..];
      Insert(s[0], Sort(s[1..], leq), leq)
  }

  lemma {:induction false} InsertKeepsSorted<T(!new)>(x: T, s: seq<T>, leq: (T, T) -> bool)
    requires TotalPreorder(leq) && Sorted(s, leq)
    ensures Sorted(Insert(x, s, leq), leq)
  {
    if s != [] && !leq(x, s[0]) {
      var tail := Insert(x, s[1..], leq);
      InsertKeepsSorted(x, s[1..], leq);
      forall j | 0 <= j < |tail| ensures leq(s[0], tail[j]) {
        assert tail[j] in multiset(tail);
        assert tail[j] == x || tail[j] in s[1..];
      }
    }
  }

  lemma {:induction false} SortIsSorted<T(!new)>(s: seq<T>, leq: (T, T) -> bool)
    requires TotalPreorder(leq)
    ensures Sorted(Sort(s, leq), leq)
  {
    if s != [] {
      SortIsSorted(s[1..], leq);
      InsertKeepsSorted(s[0], Sort(s[1..], leq), leq);
    }
  }

  lemma SameElements<T>(a: seq<T>, b: seq<T>)
    requires multiset(a) == multiset(b)
    ensures |a| == |b|
    ensures forall x :: x in a <==> x in b
  {
    assert |multiset(a)| == |a| && |multiset(b)| == |b|;
    forall x ensures x in a <==> x in b {
      assert x in a <==> x in multiset(a);
      assert x in b <==> x in multiset(b);
    }
  }

  lemma DropFirst<T>(a: seq<T>)
    requires a != []
    ensures multiset(a[1..]) == multiset(a) - multiset{a[0]}
  {
    assert a == [a[0]] + a[1..];
  }

  ghost function Without<T>(s: seq<T>, k: nat): seq<T>
    requires k < |s|
  {
    s[..k] + s[k + 1..]
  }

  lemma TakeOut<T>(s: seq<T>, x: T) returns (k: nat)
    requires x in multiset(s)
    ensures k < |s| && s[k] == x
    ensures multiset(Without(s, k)) == multiset(s) - multiset{x}
  {
    k :| 0 <= k < |s| && s[k] == x;
    assert s == s[..k] + [s[k]] + s[k + 1..];
  }

  lemma SortedHead<T(!new)>(a: seq<T>, x: T, leq: (T, T) -> bool)
    requires TotalOrder(leq) && Sorted(a, leq) && x in a
    ensures leq(a[0], x)
  {
  }

  /** A sorted arrangement of given contents is unique, so no sort can produce anything else. */
  lemma {:induction false} SortedIsUnique<T(!new)>(a: seq<T>, b: seq<T>, leq: (T, T) -> bool)
    requires TotalOrder(leq) && Sorted(a, leq) && Sorted(b, leq)
    requires multiset(a) == multiset(b)
    ensures a == b
  {
    SameElements(a, b);
    if a != [] {
      SortedHead(a, b[0], leq);
      SortedHead(b, a[0], leq);
      DropFirst(a);
      DropFirst(b);
      SortedIsUnique(a[1..], b[1..], leq);
      assert a == [a[0]] + a[1..] && b == [b[0]] + b[1..];
    }
  }

  /** Sorting forgets the order of its input and nothing else. */
  lemma SortForgetsExactlyOrder<T(!new)>(a: seq<T>, b: seq<T>, leq: (T, T) -> bool)
    requires TotalOrder(leq)
    ensures Sort(a, leq) == Sort(b, leq) <==> multiset(a) == multiset(b)
  {
    SortIsSorted(a, leq);
    SortIsSorted(b, leq);
    if multiset(a) == multiset(b) {
      SortedIsUnique(Sort(a, leq), Sort(b, leq), leq);
    }
  }

  // ------------------------------------------------------------------
  // Strings
  // ------------------------------------------------------------------

  /** Rust's `Ord` on `String`: bytewise on UTF-8, which is code point by code point. */
  predicate LexLeq(a: string, b: string) {
    a == [] || (b != [] && (a[0] < b[0] || (a[0] == b[0] && LexLeq(a[1..], b[1..]))))
  }

  /** The strings agree up to position `k` and differ there. */
  ghost predicate DiffersFirstAt(a: string, b: string, k: int) {
    0 <= k < |a| && k < |b| && a[k] != b[k] && forall j :: 0 <= j < k ==> a[j] == b[j]
  }

  ghost predicate FirstDifferenceAscends(a: string, b: string) {
    exists k :: DiffersFirstAt(a, b, k) && a[k] < b[k]
  }

  /** The first difference decides, and a prefix comes first. */
  lemma {:induction false} LexLeqIff(a: string, b: string)
    ensures LexLeq(a, b) <==> a <= b || FirstDifferenceAscends(a, b)
  {
    if a != [] && b != [] && a[0] == b[0] {
      LexLeqIff(a[1..], b[1..]);
      assert a <= b <==> a[1..] <= b[1..];
      if FirstDifferenceAscends(a[1..], b[1..]) {
        var k :| DiffersFirstAt(a[1..], b[1..], k) && a[1..][k] < b[1..][k];
        assert DiffersFirstAt(a, b, k + 1);
      }
      if FirstDifferenceAscends(a, b) {
        var k :| DiffersFirstAt(a, b, k) && a[k] < b[k];
        assert DiffersFirstAt(a[1..], b[1..], k - 1);
      }
    } else if a != [] && b != [] {
      assert DiffersFirstAt(a, b, 0);
      assert forall k :: DiffersFirstAt(a, b, k) ==> k == 0;
    }
  }

  lemma LexTotal(a: string, b: string)
    ensures LexLeq(a, b) || LexLeq(b, a)
  {
    if a != [] && b != [] && a[0] == b[0] {
      LexTotal(a[1..], b[1..]);
    }
  }

  lemma LexTransitive(a: string, b: string, c: string)
    requires LexLeq(a, b) && LexLeq(b, c)
    ensures LexLeq(a, c)
  {
    if a != [] && a[0] == b[0] && b[0] == c[0] {
      LexTransitive(a[1..], b[1..], c[1..]);
    }
  }

  lemma {:induction false} LexAntisymmetric(a: string, b: string)
    requires LexLeq(a, b) && LexLeq(b, a)
    ensures a == b
  {
    if a != [] {
      LexAntisymmetric(a[1..], b[1..]);
      assert a == [a[0]] + a[1..] && b == [b[0]] + b[1..];
    }
  }

  lemma LexIsTotalOrder()
    ensures TotalOrder(LexLeq)
  {
    forall a, b ensures LexLeq(a, b) || LexLeq(b, a) { LexTotal(a, b); }
    forall a, b, c | LexLeq(a, b) && LexLeq(b, c) ensures LexLeq(a, c) { LexTransitive(a, b, c); }
    forall a, b | LexLeq(a, b) && LexLeq(b, a) ensures a == b { LexAntisymmetric(a, b); }
  }

  lemma {:induction false} LeastExists(s: set<string>)
    requires s != {}
    ensures exists x :: x in s && forall y :: y in s ==> LexLeq(x, y)
    decreases |s|
  {
    LexIsTotalOrder();
    var z :| z in s;
    if s == {z} {
      assert forall y :: y in s ==> LexLeq(z, y);
    } else {
      LeastExists(s - {z});
      var w :| w in s - {z} && forall y :: y in s - {z} ==> LexLeq(w, y);
      var x := if LexLeq(z, w) then z else w;
      forall y | y in s ensures LexLeq(x, y) {
        if y != z { assert LexLeq(w, y); }
      }
    }
  }

  function Least(s: set<string>): (x: string)
    requires s != {}
    ensures x in s
    ensures forall y :: y in s ==> LexLeq(x, y)
  {
    LeastExists(s);
    LexIsTotalOrder();
    var x :| x in s && forall y :: y in s ==> LexLeq(x, y);
    x
  }

  ghost predicate Distinct<T>(s: seq<T>) {
    forall i, j :: 0 <= i < j < |s| ==> s[i] != s[j]
  }

  /** The keys of a `BTreeMap`, in the order its iterator yields them. */
  function Keys(s: set<string>): (r: seq<string>)
    ensures forall x :: x in r <==> x in s
    ensures Distinct(r)
    ensures |r| == |s|
    decreases |s|
  {
    if s == {} then []
    else
      var x := Least(s);
      [x] + Keys(s - {x})
  }

  lemma KeysStep(s: set<string>)
    ensures Keys({}) == []
    ensures s != {} ==> Keys(s) == [Least(s)] + Keys(s - {Least(s)})
  {
  }

  lemma {:induction false} KeysAscend(s: set<string>)
    ensures Sorted(Keys(s), LexLeq)
    decreases |s|
  {
    if s != {} {
      KeysAscend(s - {Least(s)});
    }
  }

  // ------------------------------------------------------------------
  // Mapping
  // ------------------------------------------------------------------

  function Map<A, B>(f: A -> B, xs: seq<A>): (r: seq<B>)
    ensures |r| == |xs|
    ensures forall i :: 0 <= i < |xs| ==> r[i] == f(xs[i])
  {
    if xs == [] then [] else Map(f, xs[..|xs| - 1]) + [f(xs[|xs| - 1])]
  }

  lemma {:induction false} MapWithout<A, B>(f: A -> B, xs: seq<A>, k: nat)
    requires k < |xs|
    ensures Map(f, Without(xs, k)) == Without(Map(f, xs), k)
  {
    hide Map;
    var a, b := Map(f, Without(xs, k)), Without(Map(f, xs), k);
    forall i | 0 <= i < |a| ensures a[i] == b[i] {
    }
  }

  lemma WithoutMultiset<T>(s: seq<T>, k: nat)
    requires k < |s|
    ensures multiset(s) == multiset(Without(s, k)) + multiset{s[k]}
  {
    assert s == s[..k] + [s[k]] + s[k + 1..];
  }

  lemma WithoutAt<T>(s: seq<T>, k: nat, m: nat)
    requires k < |s| && m < |s| - 1
    ensures |Without(s, k)| == |s| - 1 && Without(s, k)[m] == s[if m < k then m else m + 1]
  {
  }

  /** Two places of one sequence are found at two places of any permutation of it. */
  lemma {:induction false} TwoPlaces<T>(a: seq<T>, b: seq<T>, i: nat, j: nat) returns (k: nat, l: nat)
    requires multiset(a) == multiset(b) && i < |b| && j < |b| && i != j
    ensures k < |a| && l < |a| && k != l && a[k] == b[i] && a[l] == b[j]
  {
    assert b[i] in multiset(b) && |a| == |multiset(a)| == |multiset(b)| == |b|;
    k := TakeOut(a, b[i]);
    WithoutMultiset(b, i);
    WithoutAt(b, i, if j < i then j else j - 1);
    hide Without;
    var rest, others := Without(b, i), Without(a, k);
    assert multiset(others) == multiset(rest);
    assert b[j] in rest;
    SameElements(rest, others);
    var m :| 0 <= m < |others| && others[m] == b[j];
    WithoutAt(a, k, 0);
    WithoutAt(a, k, m);
    l := if m < k then m else m + 1;
  }

  lemma ToFront<T>(s: seq<T>, k: nat)
    requires k < |s|
    ensures multiset([s[k]] + Without(s, k)) == multiset(s)
  {
    WithoutMultiset(s, k);
    hide Without;
  }

  lemma SameFirst<T>(x: T, a: seq<T>, b: seq<T>)
    requires multiset(a) == multiset(b)
    ensures multiset([x] + a) == multiset([x] + b)
  {
    assert multiset([x] + a) == multiset{x} + multiset(a);
  }

  /** A permutation with two given elements in front. */
  lemma {:induction false} MoveToFront<T>(xs: seq<T>, i: nat, j: nat) returns (order: seq<T>)
    requires i < |xs| && j < |xs| && i != j
    ensures multiset(order) == multiset(xs) && |order| >= 2 && order[0] == xs[i] && order[1] == xs[j]
  {
    var rest, k := Without(xs, i), if j < i then j else j - 1;
    WithoutAt(xs, i, k);
    hide Without;
    var others := [rest[k]] + Without(rest, k);
    ToFront(rest, k);
    ToFront(xs, i);
    SameFirst(xs[i], others, rest);
    order := [xs[i]] + others;
  }

  /** Removing one element from a sequence removes its image from the mapped sequence. */
  lemma MapTakeOut<A, B>(f: A -> B, xs: seq<A>, k: nat)
    requires k < |xs|
    ensures multiset(xs) == multiset(Without(xs, k)) + multiset{xs[k]}
    ensures multiset(Map(f, xs)) == multiset(Map(f, Without(xs, k))) + multiset{f(xs[k])}
  {
    hide Map;
    MapWithout(f, xs, k);
    WithoutMultiset(xs, k);
    WithoutMultiset(Map(f, xs), k);
  }

  lemma CancelOne<T>(a: multiset<T>, b: multiset<T>, x: T)
    ensures a + multiset{x} == b + multiset{x} <==> a == b
  {
    assert a + multiset{x} - multiset{x} == a;
    assert b + multiset{x} - multiset{x} == b;
  }

  lemma {:induction false} MapPermutes<A, B>(f: A -> B, a: seq<A>, b: seq<A>)
    requires multiset(a) == multiset(b)
    ensures multiset(Map(f, a)) == multiset(Map(f, b))
  {
    hide Map;
    SameElements(a, b);
    if a != [] {
      var k := TakeOut(b, a[0]);
      MapTakeOut(f, a, 0);
      MapTakeOut(f, b, k);
      CancelOne(multiset(Without(a, 0)), multiset(Without(b, k)), a[0]);
      MapPermutes(f, Without(a, 0), Without(b, k));
    } else {
      assert a == b;
    }
  }

  ghost predicate InjectiveOn<A, B>(f: A -> B, a: seq<A>, b: seq<A>) {
    forall x, y :: x in a && y in b && f(x) == f(y) ==> x == y
  }

  /** Where the mapping is injective, the images determine the contents. */
  lemma {:induction false} MapDetermines<A, B>(f: A -> B, a: seq<A>, b: seq<A>)
    requires InjectiveOn(f, a, b) && multiset(Map(f, a)) == multiset(Map(f, b))
    ensures multiset(a) == multiset(b)
  {
    hide Map;
    SameElements(Map(f, a), Map(f, b));
    if a != [] {
      assert Map(f, a)[0] in multiset(Map(f, b));
      var k := TakeOut(Map(f, b), Map(f, a)[0]);
      assert a[0] in a && b[k] in b;
      MapTakeOut(f, a, 0);
      MapTakeOut(f, b, k);
      CancelOne(multiset(Map(f, Without(a, 0))), multiset(Map(f, Without(b, k))), f(a[0]));
      MapDetermines(f, Without(a, 0), Without(b, k));
    } else {
      assert a == b;
    }
  }

  // ------------------------------------------------------------------
  // Loops that push
  // ------------------------------------------------------------------

  /** Everything a loop over `xs` pushes when element `x` pushes `f(x)`. */
  function FlatMap<A, B>(f: A -> seq<B>, xs: seq<A>): seq<B> {
    if xs == [] then [] else FlatMap(f, xs[..|xs| - 1]) + f(xs[|xs| - 1])
  }

  lemma Associate<T>(a: seq<T>, b: seq<T>, c: seq<T>)
    ensures a + b + c == a + (b + c)
  {
  }

  lemma FlatMapNil<A, B>(f: A -> seq<B>, xs: seq<A>)
    ensures FlatMap(f, xs[..0]) == []
    ensures xs[..|xs|] == xs
  {
  }

  lemma FlatMapSnoc<A, B>(f: A -> seq<B>, xs: seq<A>, i: nat)
    requires i < |xs|
    ensures FlatMap(f, xs[..i + 1]) == FlatMap(f, xs[..i]) + f(xs[i])
  {
    assert xs[..i + 1][..i] == xs[..i];
  }

  lemma SplitLast<A>(xs: seq<A>)
    requires xs != []
    ensures forall x :: x in xs <==> x in xs[..|xs| - 1] || x == xs[|xs| - 1]
  {
    assert xs == xs[..|xs| - 1] + [xs[|xs| - 1]];
  }

  lemma {:induction false} InFlatMap<A, B>(f: A -> seq<B>, xs: seq<A>, y: B)
    ensures y in FlatMap(f, xs) <==> exists x :: x in xs && y in f(x)
  {
    if xs != [] {
      SplitLast(xs);
      InFlatMap(f, xs[..|xs| - 1], y);
    }
  }

  lemma {:induction false} EmptyFlatMap<A, B>(f: A -> seq<B>, xs: seq<A>)
    ensures FlatMap(f, xs) == [] <==> forall x :: x in xs ==> f(x) == []
  {
    if xs != [] {
      SplitLast(xs);
      EmptyFlatMap(f, xs[..|xs| - 1]);
    }
  }

  lemma {:induction false} FlatMapEqual<A, B>(f: A -> seq<B>, g: A -> seq<B>, xs: seq<A>)
    requires forall x :: x in xs ==> f(x) == g(x)
    ensures FlatMap(f, xs) == FlatMap(g, xs)
  {
    if xs != [] {
      SplitLast(xs);
      FlatMapEqual(f, g, xs[..|xs| - 1]);
    }
  }
}
