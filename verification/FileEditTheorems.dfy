/** What accepted edits do to a file. */
module FileEditTheorems {
  import opened FileEdit
  import opened Fuzzy
  import opened FuzzyTheorems
  import opened Wrappers

  // ---------------------------------------------------------------- unique matches

  lemma CountsSome(s: Text, sub: Text, from: nat)
    requires from <= |s| && sub != ""
    ensures CountFrom(s, sub, from) == 0 <==> forall j: nat :: from <= j ==> !Occurs(s, sub, j)
  {
    hide Occurs;
    var i := IndexFrom(s, sub, from);
    if i.Some? {
      assert Occurs(s, sub, i.value);
    }
  }

  /** It occurs, and every other occurrence overlaps the first one. */
  ghost predicate Sole(s: Text, sub: Text, i: nat) {
    Occurs(s, sub, i) && forall j: nat :: Occurs(s, sub, j) ==> i <= j < i + |sub|
  }

  /** A text is accepted as unique exactly when it occurs and every other occurrence overlaps the first one. */
  lemma UniqueIff(s: Text, sub: Text)
    requires sub != ""
    ensures Count(s, sub) == 1 <==> exists i: nat :: Sole(s, sub, i)
  {
    hide IndexFrom;
    var first := IndexFrom(s, sub, 0);
    if first.Some? {
      CountsSome(s, sub, first.value + |sub|);
      if Count(s, sub) == 1 {
        assert Sole(s, sub, first.value);
      }
      if i: nat :| Sole(s, sub, i) {
        assert i == first.value;
      }
    }
  }

  // ---------------------------------------------------------------- regions of matches

  /** An exact match is the text looked for; a tolerant one reads like it. Either way there is something to replace,
      unless the whole file is one line of white space. */
  lemma MatchedRegion(base: Text, fuzzy: bool, e: Edit, i: nat)
    requires NormalizeLF(e.oldText) != "" && Norm(base) != "" && MatchOf(base, fuzzy, e, i).Success?
    ensures var m := MatchOf(base, fuzzy, e, i).value;
      && m.length > 0 && m.index + m.length <= |base|
      && Needle(e, fuzzy) == if fuzzy then Norm(base[m.index..m.index + m.length]) else base[m.index..m.index + m.length]
  {
    hide Norm, KeptBelow, Offsets, CountFrom, NormalizeLF;
    var needle := Needle(e, fuzzy);
    if fuzzy {
      var at := IndexFrom(Norm(base), needle, 0).value;
      NormIsTrimmed(NormalizeLF(e.oldText));
      assert Norm(base)[at..at + |needle|] == needle;
      RegionReadsBack(base, at, |needle|);
    }
  }

  // ---------------------------------------------------------------- all at once

  function StartsAt(ms: seq<Match>, p: nat): (k: Option<nat>)
    ensures k.Some? ==> k.value < |ms| && ms[k.value].index == p
    ensures k.None? ==> forall j :: 0 <= j < |ms| ==> ms[j].index != p
  {
    if ms == [] then None
    else
      var before := StartsAt(ms[..|ms| - 1], p);
      if before.Some? then before else if ms[|ms| - 1].index == p then Some(|ms| - 1) else None
  }

  predicate Covered(ms: seq<Match>, p: nat) {
    exists k :: 0 <= k < |ms| && ms[k].index <= p < ms[k].index + ms[k].length
  }

  function Here(base: Text, ms: seq<Match>, p: nat): Text
    requires p < |base|
  {
    (match StartsAt(ms, p) case Some(k) => ms[k].newText case None => "") + (if Covered(ms, p) then "" else [base[p]])
  }

  /** The replacement read off position by position, whatever the order of the matches: where a region starts its new text
      is written, inside regions nothing is, and everything else is copied. */
  function Rewritten(base: Text, ms: seq<Match>, p: nat): Text
    requires p <= |base|
    decreases |base| - p
  {
    if p == |base| then "" else Here(base, ms, p) + Rewritten(base, ms, p + 1)
  }

  predicate SameRegion(a: Match, b: Match) {
    a.index == b.index && a.length == b.length && a.newText == b.newText
  }

  predicate Has(ms: seq<Match>, m: Match) {
    exists k :: 0 <= k < |ms| && SameRegion(ms[k], m)
  }

  predicate SubRegions(a: seq<Match>, b: seq<Match>) {
    forall i :: 0 <= i < |a| ==> Has(b, a[i])
  }

  predicate SameRegions(a: seq<Match>, b: seq<Match>) {
    SubRegions(a, b) && SubRegions(b, a)
  }

  predicate Apart(a: Match, b: Match) {
    a.index + a.length <= b.index || b.index + b.length <= a.index
  }

  /** No two matches overlap, whatever their order. */
  predicate AllApart(ms: seq<Match>) {
    forall i, j :: 0 <= i < |ms| && 0 <= j < |ms| && i != j ==> Apart(ms[i], ms[j])
  }

  predicate Solid(ms: seq<Match>) {
    forall k :: 0 <= k < |ms| ==> ms[k].length > 0
  }

  lemma Where(a: seq<Match>, b: seq<Match>, i: nat) returns (j: nat)
    requires SubRegions(a, b) && i < |a|
    ensures j < |b| && SameRegion(b[j], a[i])
  {
    assert Has(b, a[i]);
    j :| 0 <= j < |b| && SameRegion(b[j], a[i]);
  }

  lemma StartOnce(ms: seq<Match>, k: nat, l: nat)
    requires Solid(ms) && AllApart(ms) && k < |ms| && l < |ms| && ms[k].index == ms[l].index
    ensures k == l
  {
    var a, b := ms[k], ms[l];
    assert k == l || Apart(a, b);
  }

  lemma SameStart(a: seq<Match>, b: seq<Match>, p: nat)
    requires SameRegions(a, b) && Solid(a) && AllApart(a)
    ensures var i, j := StartsAt(a, p), StartsAt(b, p);
      i.Some? == j.Some? && (i.Some? ==> a[i.value].newText == b[j.value].newText)
  {
    hide StartsAt, Has, SubRegions;
    var i, j := StartsAt(a, p), StartsAt(b, p);
    if i.Some? {
      var there := Where(a, b, i.value);
    }
    if j.Some? {
      var there := Where(b, a, j.value);
      StartOnce(a, there, i.value);
    }
  }

  lemma CoveredToo(a: seq<Match>, b: seq<Match>, p: nat)
    requires SubRegions(a, b)
    ensures Covered(a, p) ==> Covered(b, p)
  {
    hide SubRegions;
    if k :| 0 <= k < |a| && a[k].index <= p < a[k].index + a[k].length {
      var there := Where(a, b, k);
    }
  }

  lemma SameHere(base: Text, a: seq<Match>, b: seq<Match>, p: nat)
    requires p < |base| && SameRegions(a, b) && Solid(a) && AllApart(a)
    ensures Here(base, a, p) == Here(base, b, p)
  {
    hide StartsAt, Covered, SubRegions, Solid, AllApart;
    SameStart(a, b, p);
    CoveredToo(a, b, p);
    CoveredToo(b, a, p);
  }

  lemma {:induction false} SameRewritten(base: Text, a: seq<Match>, b: seq<Match>, p: nat)
    requires p <= |base| && SameRegions(a, b) && Solid(a) && AllApart(a)
    ensures Rewritten(base, a, p) == Rewritten(base, b, p)
    decreases |base| - p
  {
    hide Here, SameRegions, Solid, AllApart;
    if p < |base| {
      SameHere(base, a, b, p);
      SameRewritten(base, a, b, p + 1);
    }
  }

  // ---------------------------------------------------------------- sorting

  lemma {:induction false} InsertedHas(ms: seq<Match>, m: Match, x: Match)
    ensures x in Inserted(ms, m) <==> x in ms || x == m
  {
    if ms != [] && ms[|ms| - 1].index > m.index {
      InsertedHas(ms[..|ms| - 1], m, x);
      assert ms == ms[..|ms| - 1] + [ms[|ms| - 1]];
    }
  }

  predicate Ascending(ms: seq<Match>) {
    forall i, j :: 0 <= i < j < |ms| ==> ms[i].index <= ms[j].index
  }

  predicate NoTwice(ms: seq<Match>) {
    forall i, j :: 0 <= i < j < |ms| ==> ms[i] != ms[j]
  }

  lemma {:induction false} InsertedInOrder(ms: seq<Match>, m: Match)
    requires Ascending(ms) && NoTwice(ms) && m !in ms
    ensures Ascending(Inserted(ms, m)) && NoTwice(Inserted(ms, m))
  {
    if ms != [] && ms[|ms| - 1].index > m.index {
      var rest, last := ms[..|ms| - 1], ms[|ms| - 1];
      InsertedInOrder(rest, m);
      forall x | x in Inserted(rest, m) ensures x.index <= last.index && x != last {
        InsertedHas(rest, m, x);
      }
    }
  }

  lemma {:induction false} SortedInOrder(ms: seq<Match>)
    requires NoTwice(ms)
    ensures Ascending(Sorted(ms)) && NoTwice(Sorted(ms))
    ensures forall x :: x in Sorted(ms) <==> x in ms
  {
    hide Inserted;
    if ms != [] {
      var rest, last := ms[..|ms| - 1], ms[|ms| - 1];
      SortedInOrder(rest);
      InsertedInOrder(Sorted(rest), last);
      assert ms == rest + [last];
      forall x ensures x in Sorted(ms) <==> x in ms {
        InsertedHas(Sorted(rest), last, x);
      }
    }
  }

  lemma SameElementsSameRegions(a: seq<Match>, b: seq<Match>)
    requires forall x :: x in a <==> x in b
    ensures SameRegions(a, b)
  {
    forall i | 0 <= i < |a| ensures Has(b, a[i]) {
      assert a[i] in b;
      var j :| 0 <= j < |b| && b[j] == a[i];
      assert SameRegion(b[j], a[i]);
    }
    forall j | 0 <= j < |b| ensures Has(a, b[j]) {
      assert b[j] in a;
      var i :| 0 <= i < |a| && a[i] == b[j];
      assert SameRegion(a[i], b[j]);
    }
  }

  lemma NeighboursApart(found: seq<Match>, i: int, j: int)
    requires NoTwice(found) && Solid(found) && FirstOverlap(Sorted(found), 1).None?
    requires 0 <= i < |found| && 0 <= j < |found| && i != j
    ensures Apart(found[i], found[j])
  {
    hide Sorted, FirstOverlap;
    SortedInOrder(found);
    var ms, x, y := Sorted(found), found[i], found[j];
    assert x in ms && y in ms && x != y;
    var k :| 0 <= k < |ms| && ms[k] == x;
    var l :| 0 <= l < |ms| && ms[l] == y;
    if k < l {
      Chained(ms, k, l);
    } else {
      Chained(ms, l, k);
    }
  }

  /** Looking at neighbours in the sorted list finds an overlap exactly when two matches overlap at all. */
  lemma NoOverlapIff(found: seq<Match>)
    requires NoTwice(found) && Solid(found)
    ensures FirstOverlap(Sorted(found), 1).None? <==> AllApart(found)
  {
    hide Sorted, FirstOverlap;
    SortedInOrder(found);
    var ms := Sorted(found);
    if FirstOverlap(ms, 1).None? {
      forall i, j | 0 <= i < |found| && 0 <= j < |found| && i != j ensures Apart(found[i], found[j]) {
        NeighboursApart(found, i, j);
      }
    }
    if AllApart(found) {
      forall j | 1 <= j < |ms| ensures ms[j - 1].index + ms[j - 1].length <= ms[j].index {
        ApartInOrder(found, ms, j);
      }
    }
  }

  lemma ApartInOrder(found: seq<Match>, ms: seq<Match>, j: nat)
    requires AllApart(found) && Solid(found) && Ascending(ms) && NoTwice(ms) && 1 <= j < |ms|
    requires forall x :: x in ms <==> x in found
    ensures ms[j - 1].index + ms[j - 1].length <= ms[j].index
  {
    var x, y := ms[j - 1], ms[j];
    assert x in found && y in found && x != y;
    var k :| 0 <= k < |found| && found[k] == x;
    var l :| 0 <= l < |found| && found[l] == y;
    assert Apart(found[k], found[l]);
  }

  lemma {:induction false} Chained(ms: seq<Match>, k: nat, l: nat)
    requires k < l < |ms|
    requires forall j :: 1 <= j < |ms| ==> ms[j - 1].index + ms[j - 1].length <= ms[j].index
    ensures ms[k].index + ms[k].length <= ms[l].index
  {
    if k < l - 1 {
      Chained(ms, k, l - 1);
    }
  }

  // ---------------------------------------------------------------- splicing is replacing at once

  lemma RewrittenStep(base: Text, ms: seq<Match>, p: nat)
    requires p < |base|
    ensures Rewritten(base, ms, p) == Here(base, ms, p) + Rewritten(base, ms, p + 1)
    ensures StartsAt(ms, p).None? && !Covered(ms, p) ==> Here(base, ms, p) == [base[p]]
    ensures StartsAt(ms, p).None? && Covered(ms, p) ==> Here(base, ms, p) == ""
  {
    hide StartsAt, Covered;
  }

  lemma RewrittenUnfolds(base: Text, ms: seq<Match>, p: nat)
    requires p < |base|
    ensures Rewritten(base, ms, p) == Here(base, ms, p) + Rewritten(base, ms, p + 1)
  {
    hide StartsAt, Covered, Here;
  }

  lemma {:induction false} CopiesBefore(base: Text, ms: seq<Match>, from: nat, at: nat)
    requires from <= at <= |base| && forall p :: from <= p < at ==> StartsAt(ms, p).None? && !Covered(ms, p)
    ensures Rewritten(base, ms, from) == base[from..at] + Rewritten(base, ms, at)
    decreases at - from
  {
    hide StartsAt, Covered, Rewritten, Here;
    if from < at {
      RewrittenStep(base, ms, from);
      CopiesBefore(base, ms, from + 1, at);
      assert base[from..at] == [base[from]] + base[from + 1..at];
    } else {
      assert base[from..at] == "";
    }
  }

  lemma {:induction false} SkipsInside(base: Text, ms: seq<Match>, from: nat, at: nat)
    requires from <= at <= |base| && forall p :: from <= p < at ==> StartsAt(ms, p).None? && Covered(ms, p)
    ensures Rewritten(base, ms, from) == Rewritten(base, ms, at)
    decreases at - from
  {
    hide StartsAt, Covered, Rewritten, Here;
    if from < at {
      RewrittenStep(base, ms, from);
      SkipsInside(base, ms, from + 1, at);
    }
  }

  predicate InRow(size: nat, ms: seq<Match>) {
    && Solid(ms)
    && (forall k :: 0 <= k < |ms| ==> ms[k].index + ms[k].length <= size)
    && (forall i, j :: 0 <= i < j < |ms| ==> ms[i].index + ms[i].length <= ms[j].index)
  }

  lemma {:induction false} DisjointIsInRow(size: nat, ms: seq<Match>, from: nat)
    requires Disjoint(size, ms, from) && Solid(ms)
    ensures InRow(size, ms) && from <= size && forall k :: 0 <= k < |ms| ==> from <= ms[k].index
    decreases |ms|
  {
    if ms != [] {
      assert forall k :: 0 <= k < |ms[1..]| ==> ms[1..][k] == ms[k + 1];
      DisjointIsInRow(size, ms[1..], ms[0].index + ms[0].length);
      assert forall k :: 1 <= k < |ms| ==> ms[k] == ms[1..][k - 1];
    }
  }

  /** The replacement from the i-th region on, against the whole list read position by position. */
  lemma {:induction false} ReplaceIsRewritten(base: Text, ms: seq<Match>, i: nat, from: nat)
    requires i <= |ms| && InRow(|base|, ms) && Disjoint(|base|, ms[i..], from)
    requires i > 0 ==> from == ms[i - 1].index + ms[i - 1].length
    requires i == 0 ==> from == 0
    ensures from <= |base| && Replace(base, ms[i..], from) == Rewritten(base, ms, from)
    decreases |ms| - i
  {
    hide Replace, Rewritten;
    DisjointFits(|base|, ms[i..], from);
    if i == |ms| {
      forall p | from <= p < |base| ensures StartsAt(ms, p).None? && !Covered(ms, p) {
        Uncovered(|base|, ms, i, p);
      }
      ReplaceNone(base, from);
      CopiesBefore(base, ms, from, |base|);
      RewrittenEnd(base, ms);
      assert base[from..|base|] == base[from..];
    } else {
      var m := ms[i];
      var end := m.index + m.length;
      assert ms[i..][0] == m && ms[i..][1..] == ms[i + 1..];
      ReplaceFirst(base, ms[i..], from);
      ReplaceIsRewritten(base, ms, i + 1, end);
      forall p | from <= p < m.index ensures StartsAt(ms, p).None? && !Covered(ms, p) {
        Uncovered(|base|, ms, i, p);
      }
      CopiesBefore(base, ms, from, m.index);
      RegionRewritten(base, ms, i);
    }
  }

  lemma RewrittenEnd(base: Text, ms: seq<Match>)
    ensures Rewritten(base, ms, |base|) == ""
  {
  }

  lemma Uncovered(size: nat, ms: seq<Match>, i: nat, p: nat)
    requires i <= |ms| && InRow(size, ms)
    requires i > 0 ==> ms[i - 1].index + ms[i - 1].length <= p
    requires i < |ms| ==> p < ms[i].index
    ensures StartsAt(ms, p).None? && !Covered(ms, p)
  {
    hide StartsAt;
    forall k | 0 <= k < |ms| ensures ms[k].index + ms[k].length <= p || p < ms[k].index {
      if k < i {
        assert k == i - 1 || ms[k].index + ms[k].length <= ms[i - 1].index;
      } else {
        assert k == i || ms[i].index + ms[i].length <= ms[k].index;
      }
    }
  }

  lemma InsideRegion(size: nat, ms: seq<Match>, i: nat, p: nat)
    requires i < |ms| && InRow(size, ms) && ms[i].index < p < ms[i].index + ms[i].length
    ensures Covered(ms, p) && StartsAt(ms, p).None?
  {
    hide StartsAt, InRow;
    var s := StartsAt(ms, p);
    if s.Some? {
      OnlyOne(size, ms, i, s.value);
    }
  }

  lemma RegionStart(base: Text, ms: seq<Match>, i: nat)
    requires i < |ms| && InRow(|base|, ms)
    ensures ms[i].index < |base| && ms[i].length > 0 && Here(base, ms, ms[i].index) == ms[i].newText
  {
    hide StartsAt, InRow;
    OnlyOne(|base|, ms, i, i);
    assert ms[i].index <= ms[i].index < ms[i].index + ms[i].length;
    var s := StartsAt(ms, ms[i].index);
    OnlyOne(|base|, ms, i, s.value);
  }

  lemma RegionSkipped(base: Text, ms: seq<Match>, i: nat)
    requires i < |ms| && InRow(|base|, ms)
    ensures 0 < ms[i].length && ms[i].index + ms[i].length <= |base|
    ensures Rewritten(base, ms, ms[i].index + 1) == Rewritten(base, ms, ms[i].index + ms[i].length)
  {
    hide StartsAt, Here, InRow, Covered, Rewritten;
    OnlyOne(|base|, ms, i, i);
    forall p | ms[i].index + 1 <= p < ms[i].index + ms[i].length ensures StartsAt(ms, p).None? && Covered(ms, p) {
      InsideRegion(|base|, ms, i, p);
    }
    SkipsInside(base, ms, ms[i].index + 1, ms[i].index + ms[i].length);
  }

  lemma RegionRewritten(base: Text, ms: seq<Match>, i: nat)
    requires i < |ms| && InRow(|base|, ms)
    ensures ms[i].index + ms[i].length <= |base|
    ensures Rewritten(base, ms, ms[i].index) == ms[i].newText + Rewritten(base, ms, ms[i].index + ms[i].length)
  {
    hide *;
    RegionStart(base, ms, i);
    RewrittenUnfolds(base, ms, ms[i].index);
    RegionSkipped(base, ms, i);
  }

  lemma OnlyOne(size: nat, ms: seq<Match>, i: nat, k: nat)
    requires i < |ms| && k < |ms| && InRow(size, ms)
    ensures k == i || ms[k].index + ms[k].length <= ms[i].index || ms[i].index + ms[i].length <= ms[k].index
    ensures ms[k].length > 0 && ms[k].index + ms[k].length <= size
  {
  }

  // ---------------------------------------------------------------- acceptance without order

  /** What makes a list of edits acceptable, said without reference to its order. */
  lemma AcceptedIff(base: Text, edits: seq<Edit>)
    requires Norm(base) != ""
    ensures AcceptedIn(base, edits).Success? <==>
      && (forall k :: 0 <= k < |edits| ==> NormalizeLF(edits[k].oldText) != "")
      && (var found := MatchesOf(base, NeedsFuzzy(base, edits), edits, |edits|);
          found.Success? && AllApart(found.value))
    ensures AcceptedIn(base, edits).Success? ==>
      Replace(base, AcceptedIn(base, edits).value, 0) ==
      Rewritten(base, MatchesOf(base, NeedsFuzzy(base, edits), edits, |edits|).value, 0)
  {
    hide NormalizeLF, NeedsFuzzy, MatchesOf, Sorted, AllApart, Norm;
    var fuzzy := NeedsFuzzy(base, edits);
    if FirstEmpty(edits, 0).None? && MatchesOf(base, fuzzy, edits, |edits|).Success? {
      var found := MatchesOf(base, fuzzy, edits, |edits|).value;
      FoundIsSolid(base, fuzzy, edits);
      NoOverlapIff(found);
      if AcceptedIn(base, edits).Success? {
        SortedInOrder(found);
        var ms := Sorted(found);
        SameElementsSameRegions(ms, found);
        FoundRewritten(base, found, ms);
      }
    }
  }

  lemma FoundRewritten(base: Text, found: seq<Match>, ms: seq<Match>)
    requires Solid(found) && AllApart(found) && SameRegions(ms, found) && Disjoint(|base|, ms, 0)
    requires forall x :: x in ms <==> x in found
    ensures Replace(base, ms, 0) == Rewritten(base, found, 0)
  {
    hide AllApart, SameRegions, Disjoint, Replace, Rewritten;
    forall k | 0 <= k < |ms| ensures ms[k].length > 0 {
      assert ms[k] in found;
    }
    DisjointIsInRow(|base|, ms, 0);
    assert ms[0..] == ms;
    ReplaceIsRewritten(base, ms, 0, 0);
    assert SameRegions(found, ms) by { Mirrored(ms, found); }
    SameRewritten(base, found, ms, 0);
  }

  lemma Mirrored(a: seq<Match>, b: seq<Match>)
    requires SameRegions(a, b)
    ensures SameRegions(b, a)
  {
    hide SubRegions;
  }

  lemma FoundIsSolid(base: Text, fuzzy: bool, edits: seq<Edit>)
    requires Norm(base) != "" && forall k :: 0 <= k < |edits| ==> NormalizeLF(edits[k].oldText) != ""
    requires MatchesOf(base, fuzzy, edits, |edits|).Success?
    ensures var found := MatchesOf(base, fuzzy, edits, |edits|).value; |found| == |edits| && Solid(found) && NoTwice(found)
  {
    hide NormalizeLF, MatchesOf, MatchOf, Norm;
    EachMatch(base, fuzzy, edits, |edits|);
    var found := MatchesOf(base, fuzzy, edits, |edits|).value;
    forall k | 0 <= k < |found| ensures found[k].length > 0 && found[k].edit == k {
      assert MatchOf(base, fuzzy, edits[k], k) == Success(found[k]);
      MatchedRegion(base, fuzzy, edits[k], k);
    }
  }

  // ---------------------------------------------------------------- the order of the edits

  /** `f` says where each edit of the second list is in the first, `g` the other way round. */
  ghost predicate Reordered(a: seq<Edit>, b: seq<Edit>, f: seq<nat>, g: seq<nat>) {
    && |a| == |b| == |f| == |g|
    && (forall k :: 0 <= k < |f| ==> f[k] < |a| && g[f[k]] == k && b[k] == a[f[k]])
    && (forall k :: 0 <= k < |g| ==> g[k] < |a| && f[g[k]] == k && a[k] == b[g[k]])
  }

  lemma ReorderedBack(a: seq<Edit>, b: seq<Edit>, f: seq<nat>, g: seq<nat>)
    requires Reordered(a, b, f, g)
    ensures Reordered(b, a, g, f)
  {
  }

  lemma SameMode(base: Text, a: seq<Edit>, b: seq<Edit>, f: seq<nat>, g: seq<nat>)
    requires Reordered(a, b, f, g)
    ensures NeedsFuzzy(base, a) == NeedsFuzzy(base, b)
  {
    hide Contains;
    if k :| 0 <= k < |a| && !Contains(base, Normal(a[k]).oldText) {
      assert !Contains(base, Normal(b[g[k]]).oldText);
    }
    if k :| 0 <= k < |b| && !Contains(base, Normal(b[k]).oldText) {
      assert !Contains(base, Normal(a[f[k]]).oldText);
    }
  }

  lemma MatchElsewhere(base: Text, fuzzy: bool, e: Edit, i: nat, j: nat)
    ensures var (m, n) := (MatchOf(base, fuzzy, e, i), MatchOf(base, fuzzy, e, j));
      m.Success? == n.Success? && (m.Success? ==> SameRegion(m.value, n.value))
  {
    hide Count, IndexFrom, Offsets, Norm;
  }

  lemma MatchesMove(base: Text, fuzzy: bool, a: seq<Edit>, b: seq<Edit>, f: seq<nat>, g: seq<nat>)
    requires Reordered(a, b, f, g) && MatchesOf(base, fuzzy, a, |a|).Success?
    ensures MatchesOf(base, fuzzy, b, |b|).Success?
    ensures var x, y := MatchesOf(base, fuzzy, a, |a|).value, MatchesOf(base, fuzzy, b, |b|).value;
      |x| == |a| == |y| && forall k :: 0 <= k < |y| ==> SameRegion(x[f[k]], y[k])
  {
    hide MatchesOf, MatchOf, SameRegion;
    EachMatch(base, fuzzy, a, |a|);
    EachMatch(base, fuzzy, b, |b|);
    var x := MatchesOf(base, fuzzy, a, |a|).value;
    forall k | 0 <= k < |b| ensures var m := MatchOf(base, fuzzy, b[k], k); m.Success? && SameRegion(x[f[k]], m.value) {
      assert MatchOf(base, fuzzy, a[f[k]], f[k]) == Success(x[f[k]]);
      MatchElsewhere(base, fuzzy, b[k], f[k], k);
    }
  }

  lemma ApartMoves(x: seq<Match>, y: seq<Match>, f: seq<nat>, g: seq<nat>)
    requires |x| == |y| == |f| == |g| && AllApart(x)
    requires forall k :: 0 <= k < |f| ==> f[k] < |x| && g[f[k]] == k
    requires forall k :: 0 <= k < |y| ==> SameRegion(x[f[k]], y[k])
    ensures AllApart(y)
  {
    forall i, j | 0 <= i < |y| && 0 <= j < |y| && i != j ensures Apart(y[i], y[j]) {
      assert g[f[i]] == i && g[f[j]] == j;
      assert Apart(x[f[i]], x[f[j]]);
    }
  }

  lemma RegionsMove(x: seq<Match>, y: seq<Match>, f: seq<nat>, g: seq<nat>)
    requires |x| == |y| == |f| == |g|
    requires forall k :: 0 <= k < |f| ==> f[k] < |x| && g[f[k]] == k
    requires forall k :: 0 <= k < |g| ==> g[k] < |x| && f[g[k]] == k
    requires forall k :: 0 <= k < |y| ==> SameRegion(x[f[k]], y[k])
    ensures SameRegions(x, y)
  {
    hide AllApart, Solid;
    forall i | 0 <= i < |x| ensures Has(y, x[i]) {
      assert SameRegion(y[g[i]], x[i]);
    }
    forall j | 0 <= j < |y| ensures Has(x, y[j]) {
      assert SameRegion(x[f[j]], y[j]);
    }
  }

  lemma OneWay(base: Text, a: seq<Edit>, b: seq<Edit>, f: seq<nat>, g: seq<nat>)
    requires Norm(base) != "" && Reordered(a, b, f, g) && AcceptedIn(base, a).Success?
    ensures AcceptedIn(base, b).Success?
    ensures Replace(base, AcceptedIn(base, b).value, 0) == Replace(base, AcceptedIn(base, a).value, 0)
  {
    hide NormalizeLF, NeedsFuzzy, MatchesOf, AllApart, Norm, AcceptedIn, Replace, Rewritten, SameRegion, SameRegions;
    AcceptedIff(base, a);
    AcceptedIff(base, b);
    SameMode(base, a, b, f, g);
    var fuzzy := NeedsFuzzy(base, a);
    MatchesMove(base, fuzzy, a, b, f, g);
    FoundIsSolid(base, fuzzy, a);
    var x, y := MatchesOf(base, fuzzy, a, |a|).value, MatchesOf(base, fuzzy, b, |b|).value;
    ApartMoves(x, y, f, g);
    RegionsMove(x, y, f, g);
    SameRewritten(base, x, y, 0);
  }

  /** Edits in another order are accepted in the same cases and leave the same text. */
  ghost predicate OrderIrrelevant(raw: Text) {
    forall a, b, f, g :: Reordered(a, b, f, g) ==>
      var x, y := ApplyEdits(raw, a), ApplyEdits(raw, b); x.Success? == y.Success? && (x.Success? ==> x == y)
  }

  lemma OrderDoesNotMatter(raw: Text, a: seq<Edit>, b: seq<Edit>, f: seq<nat>, g: seq<nat>)
    requires Norm(NormalizeLF(Body(raw))) != "" && Reordered(a, b, f, g)
    ensures var x, y := ApplyEdits(raw, a), ApplyEdits(raw, b); x.Success? == y.Success? && (x.Success? ==> x == y)
  {
    hide NormalizeLF, Norm, AcceptedIn, Replace, Reordered, WithEndings, UsesCRLF;
    var base := NormalizeLF(Body(raw));
    ReorderedBack(a, b, f, g);
    if AcceptedIn(base, a).Success? {
      OneWay(base, a, b, f, g);
    }
    if AcceptedIn(base, b).Success? {
      OneWay(base, b, a, g, f);
    }
  }

  // ---------------------------------------------------------------- one line of white space

  function Spaces(n: nat): (t: Text)
    ensures |t| == n && forall i :: 0 <= i < n ==> t[i] == ' '
  {
    if n == 0 then "" else Spaces(n - 1) + " "
  }

  lemma {:induction false} NoCRUnchanged(v: Text)
    requires '\r' !in v
    ensures NormalizeLF(v) == v
  {
    if v != "" {
      assert v[0] in v;
      assert forall c :: c in v[1..] ==> c in v;
      NoCRUnchanged(v[1..]);
    }
  }

  lemma {:induction false} BlankHasNoText(v: Text, k: nat)
    requires forall i :: 0 <= i < |v| ==> v[i] == ' '
    ensures !RestHasText(v, k)
    decreases |v| - k
  {
    if k < |v| {
      BlankHasNoText(v, k + 1);
    }
  }

  lemma SpacesReadEmpty(n: nat)
    ensures NormalizeLF(Spaces(n)) == Spaces(n) && Norm(Spaces(n)) == ""
  {
    var v := Spaces(n);
    NoCRUnchanged(v);
    if Norm(v) != "" {
      var p := KeptBelow(v, |v|)[0];
      KeptBelowContains(v, |v|, p);
      BlankHasNoText(v, p);
    }
  }

  /** Looking for more spaces than the file has characters: not there as such, and tolerantly found at its end. */
  lemma BlankMatch(base: Text, n: nat, newText: Text, i: nat)
    requires Norm(base) == "" && n > |base| && '\r' !in newText
    ensures !Contains(base, Normal(Edit(Spaces(n), newText)).oldText)
    ensures MatchOf(base, true, Edit(Spaces(n), newText), i) == Success(Match(|base|, 0, newText, i))
  {
    hide Norm, Offsets;
    SpacesReadEmpty(n);
    NoCRUnchanged(newText);
    assert Offsets(base) == [|base|] by { BlankOffsets(base); }
    assert Occurs("", "", 0);
  }

  lemma BlankOffsets(base: Text)
    requires Norm(base) == ""
    ensures Offsets(base) == [|base|]
  {
    hide KeptBelow;
  }

  lemma BlankPair(base: Text, x: Edit, y: Edit, n: nat, m: nat)
    requires Norm(base) == "" && n > |base| && m > |base|
    requires x.oldText == Spaces(n) && y.oldText == Spaces(m) && |x.newText| == 1 == |y.newText|
    requires '\r' !in x.newText && '\r' !in y.newText
    ensures AcceptedIn(base, [x, y]).Success?
    ensures Replace(base, AcceptedIn(base, [x, y]).value, 0) == base + x.newText + y.newText
  {
    hide Norm, MatchOf, MatchesOf, Contains, NormalizeLF, Replace, Sorted;
    SpacesReadEmpty(n);
    SpacesReadEmpty(m);
    assert x == Edit(Spaces(n), x.newText) && y == Edit(Spaces(m), y.newText);
    BlankMatch(base, n, x.newText, 0);
    BlankMatch(base, m, y.newText, 1);
    var edits := [x, y];
    assert !Contains(base, Normal(edits[0]).oldText);
    assert NeedsFuzzy(base, edits);
    var a, b := Match(|base|, 0, x.newText, 0), Match(|base|, 0, y.newText, 1);
    TwoMatches(base, x, y, a, b);
    SortedPair(a, b);
    assert AcceptedIn(base, edits) == Success([a, b]);
    BlankReplace(base, a, b);
  }

  lemma TwoMatches(base: Text, x: Edit, y: Edit, a: Match, b: Match)
    requires MatchOf(base, true, x, 0) == Success(a) && MatchOf(base, true, y, 1) == Success(b)
    ensures MatchesOf(base, true, [x, y], 2) == Success([a, b])
  {
    hide MatchOf;
    var edits := [x, y];
    var none: seq<Match> := [];
    assert MatchesOf(base, true, edits, 0) == Success(none);
    assert edits[0] == x && edits[1] == y;
    assert MatchesOf(base, true, edits, 1) == Success(none + [a]);
    assert none + [a] == [a];
    assert MatchesOf(base, true, edits, 2) == Success([a] + [b]);
    assert [a] + [b] == [a, b];
  }

  lemma SortedPair(a: Match, b: Match)
    requires a.index <= b.index
    ensures Sorted([a, b]) == [a, b]
  {
    assert [a][..0] == [];
    assert Sorted([a]) == [a];
    assert [a, b][..1] == [a] && [a, b][1] == b;
  }

  lemma BlankReplace(base: Text, a: Match, b: Match)
    requires a.index == |base| == b.index && a.length == 0 == b.length && Disjoint(|base|, [a, b], 0)
    ensures Replace(base, [a, b], 0) == base + a.newText + b.newText
  {
    hide Replace;
    ReplaceFirst(base, [a, b], 0);
    assert [a, b][1..] == [b] && [b][1..] == [];
    ReplaceFirst(base, [b], |base|);
    ReplaceNone(base, |base|);
    assert base[0..|base|] == base && base[|base|..|base|] == "" && base[|base|..] == "";
  }

  lemma {:induction false} EndingsSplit(crlf: bool, v: Text, w: Text)
    ensures WithEndings(crlf, v + w) == WithEndings(crlf, v) + WithEndings(crlf, w)
  {
    if crlf {
      if v == "" {
        assert v + w == w;
      } else {
        assert (v + w)[1..] == v[1..] + w;
        EndingsSplit(crlf, v[1..], w);
      }
    }
  }

  lemma OrderMatters(raw: Text) returns (a: seq<Edit>, b: seq<Edit>, f: seq<nat>, g: seq<nat>)
    requires Norm(NormalizeLF(Body(raw))) == ""
    ensures Reordered(a, b, f, g) && ApplyEdits(raw, a).Success? && ApplyEdits(raw, a) != ApplyEdits(raw, b)
  {
    hide Norm, NormalizeLF, AcceptedIn, Replace, UsesCRLF, WithEndings;
    var base := NormalizeLF(Body(raw));
    var x, y := Edit(Spaces(|base| + 1), "x"), Edit(Spaces(|base| + 2), "y");
    a, b, f, g := [x, y], [y, x], [1, 0], [1, 0];
    BlankPair(base, x, y, |base| + 1, |base| + 2);
    BlankPair(base, y, x, |base| + 2, |base| + 1);
    var crlf := UsesCRLF(Body(raw));
    EndingsSplit(crlf, base, "x" + "y");
    EndingsSplit(crlf, base, "y" + "x");
    PlainEndings(crlf);
    assert base + "x" + "y" == base + ("x" + "y") && base + "y" + "x" == base + ("y" + "x");
    assert base + ("x" + "y") != base && base + ("y" + "x") != base;
    var r, s := Mark(raw) + (WithEndings(crlf, base) + "xy"), Mark(raw) + (WithEndings(crlf, base) + "yx");
    assert ApplyEdits(raw, a) == Success(r) && ApplyEdits(raw, b) == Success(s);
    assert r[|r| - 1] == 'y' && s[|s| - 1] == 'x';
  }

  lemma PlainEndings(crlf: bool)
    ensures WithEndings(crlf, "x" + "y") == "xy" && WithEndings(crlf, "y" + "x") == "yx"
  {
    assert "xy"[1..] == "y" && "yx"[1..] == "x" && "x"[1..] == "" && "y"[1..] == "";
    assert LFToCRLF("y") == "y" && LFToCRLF("x") == "x";
  }

  /** The order of the edits never matters exactly when the file is more than a single line of white space. */
  lemma OrderIrrelevantIff(raw: Text)
    ensures OrderIrrelevant(raw) <==> Norm(NormalizeLF(Body(raw))) != ""
  {
    hide Norm, NormalizeLF, ApplyEdits, Reordered;
    if Norm(NormalizeLF(Body(raw))) == "" {
      var a, b, f, g := OrderMatters(raw);
    } else {
      forall a, b, f, g | Reordered(a, b, f, g)
        ensures var x, y := ApplyEdits(raw, a), ApplyEdits(raw, b); x.Success? == y.Success? && (x.Success? ==> x == y)
      {
        OrderDoesNotMatter(raw, a, b, f, g);
      }
    }
  }

  // ---------------------------------------------------------------- line endings

  /** Every line ends in CR LF, and CR is nowhere else. */
  predicate Paired(v: Text) {
    v == "" ||
    (if v[0] == '\r' then |v| >= 2 && v[1] == '\n' && Paired(v[2..]) else v[0] != '\n' && Paired(v[1..]))
  }

  /** The file uses one line ending throughout. */
  predicate Uniform(v: Text) {
    '\r' !in v || Paired(v)
  }

  lemma {:induction false} CRToLFHasNoCR(v: Text)
    ensures '\r' !in CRToLF(v)
  {
    if v != "" {
      CRToLFHasNoCR(v[1..]);
    }
  }

  lemma {:induction false} RestoredIsPaired(x: Text)
    requires '\r' !in x
    ensures Paired(LFToCRLF(x))
  {
    if x != "" {
      assert x[0] in x;
      assert forall c :: c in x[1..] ==> c in x;
      RestoredIsPaired(x[1..]);
      var v := LFToCRLF(x);
      if x[0] == '\n' {
        assert v[2..] == LFToCRLF(x[1..]);
      } else {
        assert v[1..] == LFToCRLF(x[1..]);
      }
    }
  }

  lemma {:induction false} PairedRoundTrip(v: Text)
    requires Paired(v)
    ensures LFToCRLF(NormalizeLF(v)) == v
  {
    if v != "" {
      if v[0] == '\r' {
        PairedRoundTrip(v[2..]);
        assert NormalizeLF(v)[1..] == NormalizeLF(v[2..]);
        assert v == "\r\n" + v[2..];
      } else {
        PairedRoundTrip(v[1..]);
        assert NormalizeLF(v)[1..] == NormalizeLF(v[1..]);
        assert v == [v[0]] + v[1..];
      }
    }
  }

  lemma {:induction false} PairedAt(v: Text, i: nat)
    requires Paired(v) && i < |v|
    ensures v[i] == '\r' ==> i + 1 < |v| && v[i + 1] == '\n'
    ensures v[i] == '\n' ==> i > 0 && v[i - 1] == '\r'
    decreases |v|
  {
    if v[0] == '\r' {
      if i >= 2 {
        PairedAt(v[2..], i - 2);
        assert v[2..][i - 2] == v[i];
        assert i > 2 ==> v[2..][i - 3] == v[i - 1];
      }
    } else if i >= 1 {
      PairedAt(v[1..], i - 1);
      assert v[1..][i - 1] == v[i];
      assert i > 1 ==> v[1..][i - 2] == v[i - 1];
    }
  }

  lemma PairedUsesCRLF(v: Text)
    requires Paired(v) && '\r' in v
    ensures UsesCRLF(v)
  {
    hide IndexFrom, Paired;
    var i :| 0 <= i < |v| && v[i] == '\r';
    PairedAt(v, i);
    assert v[i + 1..i + 2] == "\n";
    assert Occurs(v, "\n", i + 1);
    var crlf, lf := IndexFrom(v, "\r\n", 0), IndexFrom(v, "\n", 0);
    var n := lf.value;
    assert v[n] == v[n..n + 1][0] == '\n';
    PairedAt(v, n);
    assert v[n - 1..n + 1] == "\r\n";
    assert Occurs(v, "\r\n", n - 1);
    var c := crlf.value;
    assert v[c + 1] == v[c..c + 2][1] == '\n';
    assert v[c + 1..c + 2] == "\n";
    assert Occurs(v, "\n", c + 1);
  }

  lemma NoCRUsesLF(v: Text)
    requires '\r' !in v
    ensures !UsesCRLF(v)
  {
    hide IndexFrom;
    forall j: nat ensures !Occurs(v, "\r\n", j) {
      if j + 2 <= |v| {
        assert v[j] in v && v[j..j + 2][0] == v[j];
      }
    }
  }

  /** Normalising the line endings and restoring them gives the file back exactly when it uses one ending throughout. */
  lemma EndingsRestoredIff(v: Text)
    ensures WithEndings(UsesCRLF(v), NormalizeLF(v)) == v <==> Uniform(v)
  {
    hide UsesCRLF, Paired;
    CRToLFHasNoCR(CRLFToLF(v));
    if '\r' !in v {
      NoCRUsesLF(v);
      NoCRUnchanged(v);
    } else if Paired(v) {
      PairedUsesCRLF(v);
      PairedRoundTrip(v);
    } else {
      RestoredIsPaired(NormalizeLF(v));
    }
  }

  /** A file whose second line ends otherwise than its first: every edit turns its last LF into CR LF as well. */
  lemma MixedEndings()
    ensures WithEndings(UsesCRLF("a\r\nb\n"), NormalizeLF("a\r\nb\n")) != "a\r\nb\n"
  {
    hide UsesCRLF, WithEndings, NormalizeLF;
    var v := "a\r\nb\n";
    assert v[1] == '\r' && v[1..] == "\r\nb\n" && v[1..][2..] == "b\n" && "b\n"[1..] == "\n";
    assert !Paired("\n") && !Paired("b\n") && !Paired("\r\nb\n") && !Paired(v);
    EndingsRestoredIff(v);
  }

  // ---------------------------------------------------------------- everything else is untouched

  /** A match in the normalised text, as a region of the file itself. */
  function RawMatch(crlf: bool, base: Text, m: Match): Match
    requires m.index + m.length <= |base|
  {
    var region := base[m.index..m.index + m.length];
    Match(|WithEndings(crlf, base[..m.index])|, |WithEndings(crlf, region)|, WithEndings(crlf, m.newText), m.edit)
  }

  function RawMatches(crlf: bool, base: Text, ms: seq<Match>, from: nat): (r: seq<Match>)
    requires Disjoint(|base|, ms, from)
    ensures |r| == |ms|
  {
    DisjointFits(|base|, ms, from);
    if ms == [] then [] else [RawMatch(crlf, base, ms[0])] + RawMatches(crlf, base, ms[1..], ms[0].index + ms[0].length)
  }

  lemma EndingsUpTo(crlf: bool, base: Text, i: nat, j: nat)
    requires i <= j <= |base|
    ensures |WithEndings(crlf, base[..i])| <= |WithEndings(crlf, base[..j])| <= |WithEndings(crlf, base)|
    ensures |WithEndings(crlf, base[..j])| == |WithEndings(crlf, base[..i])| + |WithEndings(crlf, base[i..j])|
    ensures WithEndings(crlf, base[i..j]) == WithEndings(crlf, base)[|WithEndings(crlf, base[..i])|..|WithEndings(crlf, base[..j])|]
  {
    hide WithEndings;
    assert base[..j] == base[..i] + base[i..j];
    assert base == base[..j] + base[j..];
    EndingsSplit(crlf, base[..i], base[i..j]);
    EndingsSplit(crlf, base[..j], base[j..]);
  }

  lemma {:induction false} ReplacedInTheFile(crlf: bool, base: Text, ms: seq<Match>, from: nat)
    requires Disjoint(|base|, ms, from)
    ensures from <= |base|
    ensures Disjoint(|WithEndings(crlf, base)|, RawMatches(crlf, base, ms, from), |WithEndings(crlf, base[..from])|)
    ensures WithEndings(crlf, Replace(base, ms, from)) ==
            Replace(WithEndings(crlf, base), RawMatches(crlf, base, ms, from), |WithEndings(crlf, base[..from])|)
    decreases |ms|
  {
    hide WithEndings, Replace;
    DisjointFits(|base|, ms, from);
    var whole := WithEndings(crlf, base);
    if ms == [] {
      EndingsUpTo(crlf, base, from, |base|);
      assert base[..|base|] == base && base[from..|base|] == base[from..];
      ReplaceNone(base, from);
      ReplaceNone(whole, |WithEndings(crlf, base[..from])|);
    } else {
      var m := ms[0];
      var end := m.index + m.length;
      ReplacedInTheFile(crlf, base, ms[1..], end);
      ReplaceFirst(base, ms, from);
      EndingsUpTo(crlf, base, from, m.index);
      EndingsUpTo(crlf, base, m.index, end);
      var raw := RawMatches(crlf, base, ms, from);
      assert raw[0] == RawMatch(crlf, base, m) && raw[1..] == RawMatches(crlf, base, ms[1..], end);
      ReplaceFirst(whole, raw, |WithEndings(crlf, base[..from])|);
      EndingsSplit(crlf, base[from..m.index] + m.newText, Replace(base, ms[1..], end));
      EndingsSplit(crlf, base[from..m.index], m.newText);
    }
  }

  /** In a file that uses one line ending throughout, accepted edits replace regions of the file as it is stored; the byte
      order mark and everything outside the regions, line endings included, come back unchanged. */
  lemma OnlyRegionsChange(raw: Text, edits: seq<Edit>)
    requires Uniform(Body(raw)) && ApplyEdits(raw, edits).Success?
    ensures var base, crlf := NormalizeLF(Body(raw)), UsesCRLF(Body(raw));
      && AcceptedIn(base, edits).Success?
      && (var regions := RawMatches(crlf, base, AcceptedIn(base, edits).value, 0);
          && Disjoint(|Body(raw)|, regions, 0)
          && raw == Mark(raw) + Body(raw)
          && ApplyEdits(raw, edits) == Success(Mark(raw) + Replace(Body(raw), regions, 0)))
  {
    hide NormalizeLF, AcceptedIn, Replace, UsesCRLF, WithEndings, Uniform, RawMatches;
    var base, crlf := NormalizeLF(Body(raw)), UsesCRLF(Body(raw));
    EndingsRestoredIff(Body(raw));
    ReplacedInTheFile(crlf, base, AcceptedIn(base, edits).value, 0);
    assert base[..0] == "";
    NoEndings(crlf);
  }

  lemma NoEndings(crlf: bool)
    ensures WithEndings(crlf, "") == ""
  {
  }
}
