/** Names in lexicographic order: sorted lists, lists without repetition, and lists joined by NUL. */
module Names {
  predicate Leq(a: string, b: string) {
    a == "" || (b != "" && (a[0] < b[0] || (a[0] == b[0] && Leq(a[1..], b[1..]))))
  }

  lemma {:induction false} LeqTotal(a: string, b: string)
    ensures Leq(a, b) || Leq(b, a)
  {
    if a != "" && b != "" && a[0] == b[0] {
      LeqTotal(a[1..], b[1..]);
    }
  }

  lemma {:induction false} LeqAntisymmetric(a: string, b: string)
    requires Leq(a, b) && Leq(b, a)
    ensures a == b
  {
    if a != "" && b != "" {
      LeqAntisymmetric(a[1..], b[1..]);
      assert a == [a[0]] + a[1..] && b == [b[0]] + b[1..];
    }
  }

  lemma {:induction false} LeqTransitive(a: string, b: string, c: string)
    requires Leq(a, b) && Leq(b, c)
    ensures Leq(a, c)
  {
    if a != "" && a[0] == b[0] && b[0] == c[0] {
      LeqTransitive(a[1..], b[1..], c[1..]);
    }
  }

  /** The names agree up to there, and there the first one has the smaller character. */
  predicate SmallerAt(a: string, b: string, k: nat) {
    k < |a| && k < |b| && a[..k] == b[..k] && a[k] < b[k]
  }

  lemma SmallerLater(a: string, b: string, k: nat)
    requires a != "" && b != ""
    ensures SmallerAt(a, b, k + 1) <==> a[0] == b[0] && SmallerAt(a[1..], b[1..], k)
    ensures SmallerAt(a, b, 0) <==> a[0] < b[0]
  {
    if k + 1 < |a| && k + 1 < |b| {
      assert a[..k + 1] == [a[0]] + a[1..][..k] && b[..k + 1] == [b[0]] + b[1..][..k];
    }
  }

  lemma SmallerFromHere(a: string, b: string)
    requires a != "" && b != ""
    ensures (exists k: nat :: SmallerAt(a, b, k)) <==>
            a[0] < b[0] || (a[0] == b[0] && exists k: nat :: SmallerAt(a[1..], b[1..], k))
  {
    hide SmallerAt;
    SmallerLater(a, b, 0);
    if k: nat :| SmallerAt(a, b, k) {
      if k > 0 {
        SmallerLater(a, b, k - 1);
      }
    }
    if k: nat :| SmallerAt(a[1..], b[1..], k) {
      SmallerLater(a, b, k);
    }
  }

  /** One name is first of the other, or where they first differ it has the smaller character. */
  lemma {:induction false} LeqIff(a: string, b: string)
    ensures Leq(a, b) <==> a <= b || exists k: nat :: SmallerAt(a, b, k)
  {
    if a != "" && b != "" {
      hide SmallerAt;
      LeqIff(a[1..], b[1..]);
      SmallerFromHere(a, b);
      assert a == [a[0]] + a[1..] && b == [b[0]] + b[1..];
      assert a <= b <==> a[0] == b[0] && a[1..] <= b[1..];
    }
  }

  predicate Ascending(xs: seq<string>) {
    forall i, j :: 0 <= i < j < |xs| ==> Leq(xs[i], xs[j])
  }

  /** The elements of a set, in order and each once. */
  ghost predicate Listing(xs: seq<string>, s: set<string>) {
    && Ascending(xs)
    && (forall i, j :: 0 <= i < j < |xs| ==> xs[i] != xs[j])
    && (forall x :: x in xs <==> x in s)
  }

  function Insert(xs: seq<string>, x: string): seq<string> {
    if xs == [] || Leq(xs[|xs| - 1], x) then xs + [x]
    else Insert(xs[..|xs| - 1], x) + [xs[|xs| - 1]]
  }

  function Sort(xs: seq<string>): seq<string> {
    if xs == [] then [] else Insert(Sort(xs[..|xs| - 1]), xs[|xs| - 1])
  }

  lemma {:induction false} InsertHas(xs: seq<string>, x: string)
    ensures multiset(Insert(xs, x)) == multiset(xs) + multiset{x}
  {
    if xs != [] && !Leq(xs[|xs| - 1], x) {
      InsertHas(xs[..|xs| - 1], x);
      assert xs == xs[..|xs| - 1] + [xs[|xs| - 1]];
    }
  }

  lemma {:induction false} InsertAscends(xs: seq<string>, x: string)
    requires Ascending(xs)
    ensures Ascending(Insert(xs, x))
  {
    hide Leq;
    if xs == [] {
    } else if Leq(xs[|xs| - 1], x) {
      forall i | 0 <= i < |xs| ensures Leq(xs[i], x) {
        if i < |xs| - 1 {
          LeqTransitive(xs[i], xs[|xs| - 1], x);
        }
      }
    } else {
      var rest, last := xs[..|xs| - 1], xs[|xs| - 1];
      InsertAscends(rest, x);
      LeqTotal(last, x);
      var more := Insert(rest, x);
      InsertHas(rest, x);
      forall i | 0 <= i < |more| ensures Leq(more[i], last) {
        assert more[i] in multiset(more);
        assert more[i] in multiset(rest) || more[i] == x;
      }
    }
  }

  lemma {:induction false} SortSorts(xs: seq<string>)
    ensures Ascending(Sort(xs)) && multiset(Sort(xs)) == multiset(xs)
    ensures forall x :: x in Sort(xs) <==> x in xs
  {
    if xs != [] {
      hide Ascending, Insert;
      SortSorts(xs[..|xs| - 1]);
      InsertAscends(Sort(xs[..|xs| - 1]), xs[|xs| - 1]);
      InsertHas(Sort(xs[..|xs| - 1]), xs[|xs| - 1]);
      assert xs == xs[..|xs| - 1] + [xs[|xs| - 1]];
    }
    SameElements(Sort(xs), xs);
  }

  lemma SameElements(xs: seq<string>, ys: seq<string>)
    requires multiset(xs) == multiset(ys)
    ensures forall x :: x in xs <==> x in ys
  {
    forall x ensures x in xs <==> x in ys {
      assert x in xs <==> x in multiset(xs);
      assert x in ys <==> x in multiset(ys);
    }
  }

  /** Keeps the first of each name. */
  function Unique(xs: seq<string>): (r: seq<string>)
    ensures forall x :: x in r <==> x in xs
  {
    if xs == [] then []
    else
      var r := Unique(xs[..|xs| - 1]);
      if xs[|xs| - 1] in r then r else r + [xs[|xs| - 1]]
  }

  lemma {:induction false} UniqueOfAscending(xs: seq<string>)
    requires Ascending(xs)
    ensures Listing(Unique(xs), set x | x in xs)
  {
    hide Leq;
    if xs != [] {
      var rest, last := xs[..|xs| - 1], xs[|xs| - 1];
      UniqueOfAscending(rest);
      var r := Unique(rest);
      forall i | 0 <= i < |r| ensures Leq(r[i], last) {
        assert r[i] in rest;
      }
    }
  }

  /** A sorted list without repetition is determined by its elements, in whatever order they were collected. */
  lemma {:induction false} ListingIsUnique(xs: seq<string>, ys: seq<string>, s: set<string>)
    requires Listing(xs, s) && Listing(ys, s)
    ensures xs == ys
    decreases |xs|
  {
    hide Leq;
    HasItsFirst(xs);
    HasItsFirst(ys);
    if xs != [] {
      FirstIsLeast(xs, ys[0]);
      FirstIsLeast(ys, xs[0]);
      LeqAntisymmetric(xs[0], ys[0]);
      ListingRest(xs, s);
      ListingRest(ys, s);
      ListingIsUnique(xs[1..], ys[1..], s - {xs[0]});
      assert xs == [xs[0]] + xs[1..] && ys == [ys[0]] + ys[1..];
    }
  }

  lemma HasItsFirst(xs: seq<string>)
    ensures xs != [] ==> xs[0] in xs
  {
  }

  lemma FirstIsLeast(xs: seq<string>, x: string)
    requires Ascending(xs) && x in xs
    ensures Leq(xs[0], x)
  {
    LeqTotal(xs[0], xs[0]);
  }

  lemma ListingRest(xs: seq<string>, s: set<string>)
    requires Listing(xs, s) && xs != []
    ensures Listing(xs[1..], s - {xs[0]})
  {
    hide Leq;
    forall x ensures x in xs[1..] <==> x in s - {xs[0]} {
      assert x in xs <==> x == xs[0] || x in xs[1..];
    }
  }

  lemma SortOfListing(xs: seq<string>, s: set<string>)
    requires Listing(xs, s)
    ensures Sort(xs) == xs
  {
    hide Leq, Sort;
    SortSorts(xs);
    NoRepeats(xs, Sort(xs));
    ListingIsUnique(Sort(xs), xs, s);
  }

  lemma NoRepeats(xs: seq<string>, ys: seq<string>)
    requires multiset(xs) == multiset(ys) && forall i, j :: 0 <= i < j < |xs| ==> xs[i] != xs[j]
    ensures forall i, j :: 0 <= i < j < |ys| ==> ys[i] != ys[j]
  {
    forall i, j | 0 <= i < j < |ys| ensures ys[i] != ys[j] {
      if ys[i] == ys[j] {
        TwiceCounted(ys, i, j);
        OnceCounted(xs, ys[i]);
        assert false;
      }
    }
  }

  lemma TwiceCounted(ys: seq<string>, i: nat, j: nat)
    requires i < j < |ys| && ys[i] == ys[j]
    ensures multiset(ys)[ys[i]] >= 2
  {
    assert ys == ys[..j] + ys[j..];
    assert ys[..j][i] == ys[i] && ys[j..][0] == ys[j];
    assert ys[i] in multiset(ys[..j]) && ys[i] in multiset(ys[j..]);
  }

  lemma {:induction false} OnceCounted(xs: seq<string>, x: string)
    requires forall i, j :: 0 <= i < j < |xs| ==> xs[i] != xs[j]
    ensures multiset(xs)[x] <= 1
  {
    if xs != [] {
      var rest, last := xs[..|xs| - 1], xs[|xs| - 1];
      OnceCounted(rest, x);
      assert xs == rest + [last];
      if x == last {
        assert x !in rest;
        assert multiset(rest)[x] == 0;
      }
    }
  }
}
