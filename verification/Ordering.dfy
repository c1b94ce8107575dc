/** Sorting as the source's library calls promise it: `slices.Sort`, `sort.Strings`,
    `sort.SliceStable` and Python's `list.sort` are all modelled by one stable sort.
    `SortedUnique` shows that the choice of algorithm is immaterial whenever the
    comparison is a total order. */
module Ordering {

  ghost predicate TotalPreorder<T(!new)>(leq: (T, T) -> bool) {
    && (forall x, y :: leq(x, y) || leq(y, x))
    && (forall x, y, z :: leq(x, y) && leq(y, z) ==> leq(x, z))
  }

  ghost predicate AntiSymmetric<T(!new)>(leq: (T, T) -> bool) {
    forall x, y :: leq(x, y) && leq(y, x) ==> x == y
  }

  /** No two different elements of `s` are tied. */
  ghost predicate TieFree<T>(s: seq<T>, leq: (T, T) -> bool) {
    forall x, y :: x in s && y in s && leq(x, y) && leq(y, x) ==> x == y
  }

  ghost predicate TotalOrder<T(!new)>(leq: (T, T) -> bool) {
    TotalPreorder(leq) && AntiSymmetric(leq)
  }

  ghost predicate Sorted<T>(s: seq<T>, leq: (T, T) -> bool) {
    forall i, j :: 0 <= i < j < |s| ==> leq(s[i], s[j])
  }

  /** No element occurs twice. */
  ghost predicate Distinct<T>(s: seq<T>) {
    forall i, j :: 0 <= i < j < |s| ==> s[i] != s[j]
  }

  /** Puts `x` before every element that does not precede it strictly, so that an
      earlier equal element stays earlier. */
  function Insert<T>(x: T, s: seq<T>, leq: (T, T) -> bool): (r: seq<T>)
    ensures multiset(r) == multiset{x} + multiset(s)
    ensures |r| == |s| + 1
  {
    if s == [] then [x]
    else if leq(x, s[0]) then [x] + s
    else
      assert s == [s[0]] + s[1..];
      [s[0]] + Insert(x, s[1..], leq)
  }

  /** The stable sort. */
  function Sort<T>(s: seq<T>, leq: (T, T) -> bool): (r: seq<T>)
    ensures multiset(r) == multiset(s)
    ensures |r| == |s|
  {
    if s == [] then []
    else
      assert s == [s[0]] + s[1..];
      Insert(s[0], Sort(s[1..], leq), leq)
  }

  lemma SameElements<T>(a: seq<T>, b: seq<T>)
    requires multiset(a) == multiset(b)
    ensures forall x :: x in a <==> x in b
    ensures |a| == |b|
  {
    forall x ensures x in a <==> x in b {
      assert x in a <==> x in multiset(a);
      assert x in b <==> x in multiset(b);
    }
    assert |a| == |multiset(a)| == |multiset(b)| == |b|;
  }

  lemma {:induction false} InsertSorted<T(!new)>(x: T, s: seq<T>, leq: (T, T) -> bool)
    requires TotalPreorder(leq)
    requires Sorted(s, leq)
    ensures Sorted(Insert(x, s, leq), leq)
  {
    if s != [] && !leq(x, s[0]) {
      var t := Insert(x, s[1..], leq);
      InsertSorted(x, s[1..], leq);
      forall j | 0 <= j < |t| ensures leq(s[0], t[j]) {
        assert t[j] in multiset(t);
        assert t[j] == x || t[j] in s[1..];
      }
    }
  }

  /** What every library sort promises: the same elements, in order. */
  lemma {:induction false} SortIsSorted<T(!new)>(s: seq<T>, leq: (T, T) -> bool)
    requires TotalPreorder(leq)
    ensures Sorted(Sort(s, leq), leq)
    ensures forall x :: x in Sort(s, leq) <==> x in s
  {
    SameElements(s, Sort(s, leq));
    if s != [] {
      SortIsSorted(s[1..], leq);
      InsertSorted(s[0], Sort(s[1..], leq), leq);
    }
  }

  lemma SameTails<T>(a: seq<T>, b: seq<T>)
    requires a != [] && b != [] && a[0] == b[0] && multiset(a) == multiset(b)
    ensures multiset(a[1..]) == multiset(b[1..])
  {
    assert a == [a[0]] + a[1..] && b == [b[0]] + b[1..];
    assert multiset(a[1..]) == multiset(a) - multiset{a[0]};
    assert multiset(b[1..]) == multiset(b) - multiset{b[0]};
  }

  /** Without ties there is only one sorted arrangement of a collection. */
  lemma {:induction false} SortedUnique<T(!new)>(a: seq<T>, b: seq<T>, leq: (T, T) -> bool)
    requires TotalPreorder(leq) && TieFree(a, leq)
    requires Sorted(a, leq) && Sorted(b, leq)
    requires multiset(a) == multiset(b)
    ensures a == b
  {
    SameElements(a, b);
    if a != [] {
      assert a[0] in b && b[0] in a;
      assert leq(a[0], a[0]) && leq(a[0], b[0]) && leq(b[0], a[0]);
      SameTails(a, b);
      SortedUnique(a[1..], b[1..], leq);
      assert a == [a[0]] + a[1..] && b == [b[0]] + b[1..];
    }
  }

  /** Two duplicate-free sorted sequences over the same elements are equal. */
  lemma {:induction false} SortedSetUnique<T(!new)>(a: seq<T>, b: seq<T>, leq: (T, T) -> bool)
    requires TotalPreorder(leq) && TieFree(a, leq)
    requires Sorted(a, leq) && Distinct(a)
    requires Sorted(b, leq) && Distinct(b)
    requires forall x :: x in a <==> x in b
    ensures a == b
  {
    assert a != [] ==> a[0] in b;
    assert b != [] ==> b[0] in a;
    if a != [] {
      assert leq(a[0], a[0]) && leq(a[0], b[0]) && leq(b[0], a[0]);
      var c, d := a[1..], b[1..];
      forall x ensures x in c <==> x in d {
        assert x in c ==> x in a && x != a[0];
        assert x in d ==> x in b && x != b[0];
        assert x in a && x != a[0] ==> x in c by { assert a == [a[0]] + c; }
        assert x in b && x != b[0] ==> x in d by { assert b == [b[0]] + d; }
      }
      SortedSetUnique(c, d, leq);
    }
  }

  lemma {:induction false} DistinctMultiset<T>(a: seq<T>, b: seq<T>)
    requires Distinct(a) && multiset(a) == multiset(b)
    ensures Distinct(b)
  {
    forall i, j | 0 <= i < j < |b| ensures b[i] != b[j] {
      if b[i] == b[j] {
        TwiceCounted(b, i, j);
        OnceCounted(a, b[i]);
      }
    }
  }

  lemma TwiceCounted<T>(s: seq<T>, i: nat, j: nat)
    requires i < j < |s| && s[i] == s[j]
    ensures multiset(s)[s[i]] >= 2
  {
    assert s == s[..j] + [s[j]] + s[j + 1..];
    assert s[i] in s[..j];
    assert s[i] in multiset(s[..j]);
  }

  lemma {:induction false} OnceCounted<T>(s: seq<T>, x: T)
    requires Distinct(s)
    ensures multiset(s)[x] <= 1
  {
    if s != [] {
      assert s == [s[0]] + s[1..];
      OnceCounted(s[1..], x);
      if x == s[0] {
        assert x !in s[1..];
        assert x !in multiset(s[1..]);
      }
    }
  }

  lemma {:induction false} DistinctFits<T>(s: seq<T>, items: set<T>)
    requires Distinct(s) && forall x :: x in s ==> x in items
    ensures |s| <= |items|
  {
    if s != [] {
      var front, last := s[..|s| - 1], s[|s| - 1];
      forall x | x in front ensures x in items - {last} {
        assert x in s;
      }
      DistinctFits(front, items - {last});
    }
  }

  /** `s[first]` is the first of the least elements of `s`. */
  ghost predicate FirstLeast<T>(s: seq<T>, first: nat, leq: (T, T) -> bool) {
    && first < |s|
    && (forall k :: 0 <= k < |s| ==> leq(s[first], s[k]))
    && (forall k :: 0 <= k < first ==> !leq(s[k], s[first]))
  }

  /** The head of the stable sort is the first of the least elements. */
  lemma {:induction false} SortHead<T(!new)>(s: seq<T>, leq: (T, T) -> bool) returns (first: nat)
    requires TotalPreorder(leq)
    requires s != []
    ensures FirstLeast(s, first, leq) && Sort(s, leq)[0] == s[first]
  {
    if |s| == 1 {
      first := 0;
      assert s[1..] == [];
      assert leq(s[0], s[0]);
    } else {
      var f := SortHead(s[1..], leq);
      first := if leq(s[0], s[f + 1]) then 0 else f + 1;
    }
  }

  /** Go's string order: by character, a proper prefix first. */
  predicate StringLeq(a: string, b: string) {
    a == [] || (b != [] && (a[0] < b[0] || (a[0] == b[0] && StringLeq(a[1..], b[1..]))))
  }

  lemma {:induction false} StringTotal(a: string, b: string)
    ensures StringLeq(a, b) || StringLeq(b, a)
    ensures StringLeq(a, b) && StringLeq(b, a) ==> a == b
  {
    if a != [] && b != [] && a[0] == b[0] {
      StringTotal(a[1..], b[1..]);
      assert a == [a[0]] + a[1..] && b == [b[0]] + b[1..];
    }
  }

  lemma {:induction false} StringTransitive(a: string, b: string, c: string)
    requires StringLeq(a, b) && StringLeq(b, c)
    ensures StringLeq(a, c)
  {
    if a != [] && b != [] && c != [] && a[0] == b[0] == c[0] {
      StringTransitive(a[1..], b[1..], c[1..]);
    }
  }

  lemma StringOrder()
    ensures TotalOrder(StringLeq)
  {
    forall a, b ensures StringLeq(a, b) || StringLeq(b, a) { StringTotal(a, b); }
    forall a, b | StringLeq(a, b) && StringLeq(b, a) ensures a == b { StringTotal(a, b); }
    forall a, b, c | StringLeq(a, b) && StringLeq(b, c) ensures StringLeq(a, c) { StringTransitive(a, b, c); }
  }

  /** A set of strings in sorted order. */
  ghost predicate Listing(s: seq<string>, items: set<string>) {
    Sorted(s, StringLeq) && Distinct(s) && forall x :: x in s <==> x in items
  }

  /** There is only one, so the order in which a map yields its keys cannot show. */
  lemma ListingUnique(a: seq<string>, b: seq<string>, items: set<string>)
    requires Listing(a, items) && Listing(b, items)
    ensures a == b
  {
    StringOrder();
    SortedSetUnique(a, b, StringLeq);
  }

  /** `sort.Strings` over items that do not repeat. */
  method SortItems(items: seq<string>) returns (r: seq<string>)
    requires Distinct(items)
    ensures Listing(r, set x | x in items)
  {
    StringOrder();
    SortIsSorted(items, StringLeq);
    r := Sort(items, StringLeq);
    DistinctMultiset(items, r);
  }

  /** The keys of a map, collected in an order nobody chose and then sorted. */
  method SortedKeys(keys: set<string>) returns (r: seq<string>)
    ensures Listing(r, keys)
  {
    var rest, items := keys, [];
    while rest != {}
      invariant rest <= keys && Distinct(items)
      invariant forall x :: x in items <==> x in keys - rest
      decreases |rest|
    {
      var x :| x in rest;
      assert x !in items;
      items, rest := items + [x], rest - {x};
    }
    r := SortItems(items);
  }

  predicate IntLeq(a: int, b: int) { a <= b }

  ghost predicate Ascending(s: seq<int>) {
    forall i, j :: 0 <= i < j < |s| ==> s[i] < s[j]
  }
}
