/** What the offset map of a tolerant reading promises. */
module FuzzyTheorems {
  import opened Fuzzy

  lemma {:induction false} KeptBelowContains(v: Text, n: nat, p: nat)
    requires n <= |v|
    ensures p in KeptBelow(v, n) <==> p < n && Kept(v, p)
  {
    hide Kept;
    if n > 0 {
      KeptBelowContains(v, n - 1, p);
    }
  }

  /** The offset map has one entry more than the tolerant reading, never goes back or stands still, starts every
      character at the character it was read from, leaves out only white space at line ends, and ends with the text. */
  lemma OffsetsMap(v: Text)
    ensures |Offsets(v)| == |Norm(v)| + 1
    ensures forall i, j :: 0 <= i < j < |Offsets(v)| ==> Offsets(v)[i] < Offsets(v)[j] <= |v|
    ensures forall i :: 0 <= i < |Norm(v)| ==> Offsets(v)[i] < |v| && Norm(v)[i] == FuzzyRune(v[Offsets(v)[i]])
    ensures Offsets(v)[|Norm(v)|] == |v|
    ensures forall p :: 0 <= p < |v| ==> (p in Offsets(v) <==> Kept(v, p))
  {
    hide Kept;
    forall p | 0 <= p < |v| ensures p in Offsets(v) <==> Kept(v, p) {
      KeptBelowContains(v, |v|, p);
    }
  }

  lemma {:induction false} TextWitness(v: Text, k: nat) returns (t: nat)
    requires RestHasText(v, k)
    ensures k <= t < |v| && !IsSpace(v[t]) && forall j :: k <= j <= t ==> v[j] != '\n'
    decreases |v| - k
  {
    if !IsSpace(v[k]) {
      t := k;
    } else {
      t := TextWitness(v, k + 1);
    }
  }

  /** The positions kept below a bound are those the whole map lists first. */
  lemma {:induction false} KeptBelowIsPrefix(v: Text, n: nat)
    requires n <= |v|
    ensures KeptBelow(v, n) <= KeptBelow(v, |v|)
    decreases |v| - n
  {
    hide Kept;
    if n < |v| {
      KeptBelowIsPrefix(v, n + 1);
    }
  }

  lemma BelowOffset(v: Text, i: nat)
    requires i < |Offsets(v)|
    ensures Offsets(v)[i] <= |v| && KeptBelow(v, Offsets(v)[i]) == Offsets(v)[..i]
  {
    hide Kept;
    var all, n := KeptBelow(v, |v|), Offsets(v)[i];
    assert n <= |v|;
    KeptBelowIsPrefix(v, n);
    var below := KeptBelow(v, n);
    if i < |all| {
      forall j | 0 <= j < |below| ensures below[j] == all[j] && j < i {
      }
      if |below| < i {
        var p := all[|below|];
        forall j | 0 <= j < |below| ensures below[j] != p {
          assert below[j] == all[j];
        }
        KeptBelowContains(v, |v|, p);
        KeptBelowContains(v, n, p);
      }
    }
  }

  /** No line of a tolerant reading ends in white space. */
  predicate Trimmed(t: Text) {
    t != "" ==> t[|t| - 1] == '\n' || !IsSpace(t[|t| - 1])
  }

  lemma NormIsTrimmed(v: Text)
    ensures Trimmed(Norm(v))
  {
    if Norm(v) != "" {
      var ps := KeptBelow(v, |v|);
      var p := ps[|ps| - 1];
      KeptBelowContains(v, |v|, p);
      if v[p] != '\n' && IsSpace(v[p]) {
        var t := TextWitness(v, p);
        TextFrom(v, t, t);
        KeptBelowContains(v, |v|, t);
        assert false;
      }
    }
  }

  // ---------------------------------------------------------------- regions

  lemma {:induction false} TextInside(v: Text, s: nat, e: nat, q: nat)
    requires s <= e <= |v| && q < e - s && RestHasText(v[s..e], q)
    ensures RestHasText(v, s + q)
  {
    var t := TextWitness(v[s..e], q);
    forall j | s + q <= j < s + t ensures v[j] != '\n' {
      assert v[j] == v[s..e][j - s];
    }
    TextFrom(v, s + q, s + t);
  }

  /** When the last kept character before `e` is a newline or no white space, a region ending at `e` keeps what the
      whole text keeps. */
  lemma KeptInRegion(v: Text, s: nat, e: nat, q: nat, last: nat)
    requires s <= q < e <= |v|
    requires s <= last < e && (v[last] == '\n' || !IsSpace(v[last]))
    requires forall p :: last < p < e ==> !Kept(v, p)
    ensures Kept(v[s..e], q - s) <==> Kept(v, q)
  {
    assert v[s..e][q - s] == v[q];
    if RestHasText(v[s..e], q - s) {
      TextInside(v, s, e, q - s);
    }
    if RestHasText(v, q) {
      var t := TextWitness(v, q);
      if t < e {
        forall j | q - s <= j < t - s ensures v[s..e][j] != '\n' {
          assert v[s..e][j] == v[j + s];
        }
        TextFrom(v[s..e], q - s, t - s);
      } else {
        TextFrom(v, e - 1, t);
        assert Kept(v, e - 1);
        assert last == e - 1;
        assert v[last] != '\n';
        forall j | q - s <= j < last - s ensures v[s..e][j] != '\n' {
          assert v[s..e][j] == v[j + s];
        }
        TextFrom(v[s..e], q - s, last - s);
      }
    }
  }

  function Shift(ps: seq<nat>, s: nat): (r: seq<nat>)
    ensures |r| == |ps| && forall i :: 0 <= i < |r| ==> r[i] == ps[i] + s
  {
    seq(|ps|, i requires 0 <= i < |ps| => ps[i] + s)
  }

  lemma {:induction false} KeptBelowShifts(v: Text, s: nat, e: nat, n: nat)
    requires s <= e <= |v| && n <= e - s
    requires forall q :: s <= q < e ==> (Kept(v[s..e], q - s) <==> Kept(v, q))
    ensures KeptBelow(v, s + n) == KeptBelow(v, s) + Shift(KeptBelow(v[s..e], n), s)
  {
    hide Kept;
    if n > 0 {
      KeptBelowShifts(v, s, e, n - 1);
      assert Kept(v[s..e], s + n - 1 - s) <==> Kept(v, s + n - 1);
    }
  }

  /** A stretch of the tolerant reading that is itself trimmed comes from a non-empty region of the original, and the
      tolerant reading of that region is the stretch. */
  lemma RegionReadsBack(v: Text, i: nat, n: nat)
    requires 0 < n && i + n <= |Norm(v)| && Trimmed(Norm(v)[i..i + n])
    ensures Offsets(v)[i] < Offsets(v)[i + n] <= |v|
    ensures Norm(v[Offsets(v)[i]..Offsets(v)[i + n]]) == Norm(v)[i..i + n]
  {
    hide Kept, KeptBelow, Norm, Offsets;
    OffsetsMap(v);
    var offsets := Offsets(v);
    var s, e, last := offsets[i], offsets[i + n], offsets[i + n - 1];
    var region := v[s..e];
    assert Norm(v)[i..i + n][n - 1] == Norm(v)[i + n - 1] == FuzzyRune(v[last]);
    forall p | last < p < e ensures !Kept(v, p) {
      NotListed(v, i + n - 1, p);
    }
    forall q | s <= q < e ensures Kept(region, q - s) <==> Kept(v, q) {
      KeptInRegion(v, s, e, q, last);
    }
    KeptBelowShifts(v, s, e, e - s);
    BelowOffset(v, i);
    BelowOffset(v, i + n);
    RegionPositions(v, i, n);
  }

  /** Between two neighbouring offsets nothing is kept. */
  lemma NotListed(v: Text, i: nat, p: nat)
    requires i < |Norm(v)| && Offsets(v)[i] < p < Offsets(v)[i + 1]
    ensures p < |v| && !Kept(v, p)
  {
    hide Kept, KeptBelow;
    OffsetsMap(v);
    forall j | 0 <= j < |Offsets(v)| ensures Offsets(v)[j] != p {
    }
  }

  lemma RegionPositions(v: Text, i: nat, n: nat)
    requires i + n < |Offsets(v)| && Offsets(v)[i] <= Offsets(v)[i + n] <= |v|
    requires var s, e := Offsets(v)[i], Offsets(v)[i + n];
      Offsets(v)[..i + n] == Offsets(v)[..i] + Shift(KeptBelow(v[s..e], e - s), s)
    ensures Norm(v[Offsets(v)[i]..Offsets(v)[i + n]]) == Norm(v)[i..i + n]
  {
    hide Kept, KeptBelow, Offsets, Norm;
    OffsetsMap(v);
    var offsets := Offsets(v);
    var s, e := offsets[i], offsets[i + n];
    var ps := KeptBelow(v[s..e], e - s);
    SameStretch(offsets, i, n, Shift(ps, s));
    forall k | 0 <= k < n ensures Norm(v)[i..i + n][k] == FuzzyRune(v[s..e][ps[k]]) {
      assert Norm(v)[i..i + n][k] == Norm(v)[i + k] == FuzzyRune(v[offsets[i + k]]);
      assert v[s..e][ps[k]] == v[ps[k] + s];
    }
    NormIsPicked(v[s..e]);
    assert Norm(v)[i..i + n] == Picked(v[s..e], ps);
  }

  lemma NormIsPicked(v: Text)
    ensures Norm(v) == Picked(v, KeptBelow(v, |v|))
  {
  }

  lemma SameStretch(a: seq<nat>, i: nat, n: nat, b: seq<nat>)
    requires i + n <= |a| && a[..i + n] == a[..i] + b
    ensures |b| == n && forall k :: 0 <= k < n ==> b[k] == a[i + k]
  {
    assert |a[..i + n]| == i + n;
    forall k | 0 <= k < n ensures b[k] == a[i + k] {
      assert a[i + k] == a[..i + n][i + k] == (a[..i] + b)[i + k];
    }
  }
}
