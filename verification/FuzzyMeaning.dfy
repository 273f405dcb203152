/**
 What tolerant matching tolerates: white space at line ends, and one typographic
 character of a kind for another. Everything is said of the texts themselves.
 */
module FuzzyMeaning {
  import opened FileEdit
  import opened FileEditTheorems
  import opened Fuzzy
  import opened FuzzyTheorems
  import opened Wrappers

  // ---------------------------------------------------------------- characters

  const WHITE_SPACE: set<char> :=
    {'\t', '\n', '\U{000B}', '\U{000C}', '\r', ' ', '\U{0085}', '\U{00A0}', '\U{1680}',
     '\U{2000}', '\U{2001}', '\U{2002}', '\U{2003}', '\U{2004}', '\U{2005}', '\U{2006}', '\U{2007}', '\U{2008}',
     '\U{2009}', '\U{200A}', '\U{2028}', '\U{2029}', '\U{202F}', '\U{205F}', '\U{3000}'}

  const SINGLE_QUOTES: set<char> := {'\'', '\U{2018}', '\U{2019}', '\U{201A}', '\U{201B}'}

  const DOUBLE_QUOTES: set<char> := {'"', '\U{201C}', '\U{201D}', '\U{201E}', '\U{201F}'}

  const DASHES: set<char> :=
    {'-', '\U{2010}', '\U{2011}', '\U{2012}', '\U{2013}', '\U{2014}', '\U{2015}', '\U{2212}'}

  const BLANKS: set<char> :=
    {' ', '\U{00A0}', '\U{2002}', '\U{2003}', '\U{2004}', '\U{2005}', '\U{2006}', '\U{2007}', '\U{2008}', '\U{2009}',
     '\U{200A}', '\U{202F}', '\U{205F}', '\U{3000}'}

  /** The same character, or two of one kind. */
  predicate Alike(a: char, b: char) {
    || a == b
    || (a in SINGLE_QUOTES && b in SINGLE_QUOTES)
    || (a in DOUBLE_QUOTES && b in DOUBLE_QUOTES)
    || (a in DASHES && b in DASHES)
    || (a in BLANKS && b in BLANKS)
  }

  lemma SpaceIff(c: char)
    ensures IsSpace(c) <==> c in WHITE_SPACE
  {
  }

  predicate HasText(t: Text) {
    exists k :: 0 <= k < |t| && t[k] !in WHITE_SPACE
  }

  lemma BlankIff(t: Text)
    ensures Blank(t) <==> !HasText(t)
  {
    hide IsSpace;
    forall k | 0 <= k < |t| ensures IsSpace(t[k]) <==> t[k] in WHITE_SPACE {
      SpaceIff(t[k]);
    }
  }

  lemma PlainKinds(c: char)
    ensures FuzzyRune(c) == '\'' <==> c in SINGLE_QUOTES
    ensures FuzzyRune(c) == '"' <==> c in DOUBLE_QUOTES
    ensures FuzzyRune(c) == '-' <==> c in DASHES
    ensures FuzzyRune(c) == ' ' <==> c in BLANKS
    ensures FuzzyRune(c) != '\'' && FuzzyRune(c) != '"' && FuzzyRune(c) != '-' && FuzzyRune(c) != ' ' ==> FuzzyRune(c) == c
  {
  }

  lemma ReadsAlikeIff(a: char, b: char)
    ensures FuzzyRune(a) == FuzzyRune(b) <==> Alike(a, b)
  {
    hide FuzzyRune;
    PlainKinds(a);
    PlainKinds(b);
  }

  // ---------------------------------------------------------------- line ends

  /** From here to the end of its line there is only white space. */
  predicate TrailsLine(v: Text, k: nat) {
    exists e :: k < e <= |v| && BlankToLineEnd(v, k, e)
  }

  predicate BlankToLineEnd(v: Text, k: nat, e: nat)
    requires k < e <= |v|
  {
    (e == |v| || v[e] == '\n') && forall j :: k <= j < e ==> v[j] in WHITE_SPACE && v[j] != '\n'
  }

  /** The first characters of the text without those that trail a line. */
  function Stripped(v: Text, n: nat): Text
    requires n <= |v|
  {
    if n == 0 then "" else Stripped(v, n - 1) + if TrailsLine(v, n - 1) then "" else [v[n - 1]]
  }

  function WithoutTrailing(v: Text): Text {
    Stripped(v, |v|)
  }

  lemma {:induction false} LineEnd(v: Text, k: nat) returns (e: nat)
    requires k < |v| && !RestHasText(v, k) && v[k] != '\n'
    ensures k < e <= |v| && (e == |v| || v[e] == '\n')
    ensures forall j :: k <= j < e ==> IsSpace(v[j]) && v[j] != '\n'
    decreases |v| - k
  {
    if k + 1 == |v| || v[k + 1] == '\n' {
      e := k + 1;
    } else {
      e := LineEnd(v, k + 1);
    }
  }

  lemma KeptIff(v: Text, k: nat)
    requires k < |v|
    ensures Kept(v, k) <==> !TrailsLine(v, k)
  {
    hide IsSpace;
    if RestHasText(v, k) {
      var t := TextWitness(v, k);
      SpaceIff(v[t]);
    } else if v[k] != '\n' {
      var e := LineEnd(v, k);
      forall j | k <= j < e ensures v[j] in WHITE_SPACE { SpaceIff(v[j]); }
      assert BlankToLineEnd(v, k, e);
    }
  }

  function Plain(t: Text): (r: Text)
    ensures |r| == |t| && forall i :: 0 <= i < |r| ==> r[i] == FuzzyRune(t[i])
  {
    seq(|t|, i requires 0 <= i < |t| => FuzzyRune(t[i]))
  }

  lemma {:induction false} PickedIsStripped(v: Text, n: nat)
    requires n <= |v|
    ensures Picked(v, KeptBelow(v, n)) == Plain(Stripped(v, n))
  {
    hide Kept, TrailsLine, FuzzyRune;
    if n > 0 {
      PickedIsStripped(v, n - 1);
      KeptIff(v, n - 1);
    }
  }

  lemma NormIsPlain(v: Text)
    ensures Norm(v) == Plain(WithoutTrailing(v))
  {
    hide KeptBelow, Picked, Stripped;
    PickedIsStripped(v, |v|);
  }

  predicate AllAlike(a: Text, b: Text) {
    |a| == |b| && forall i :: 0 <= i < |a| ==> Alike(a[i], b[i])
  }

  lemma PlainIff(a: Text, b: Text)
    ensures Plain(a) == Plain(b) <==> AllAlike(a, b)
  {
    hide FuzzyRune, Alike;
    forall i | 0 <= i < |a| && i < |b| ensures FuzzyRune(a[i]) == FuzzyRune(b[i]) <==> Alike(a[i], b[i]) {
      ReadsAlikeIff(a[i], b[i]);
    }
    if |a| == |b| {
      assert Plain(a) == Plain(b) <==> forall i :: 0 <= i < |a| ==> Plain(a)[i] == Plain(b)[i];
    }
  }

  /** Two texts read alike exactly when, without the white space at line ends, they are equally long and hold characters of
      the same kind in the same places. */
  lemma SameReadingIff(a: Text, b: Text)
    ensures Norm(a) == Norm(b) <==> AllAlike(WithoutTrailing(a), WithoutTrailing(b))
  {
    hide Norm, Plain, AllAlike, WithoutTrailing;
    NormIsPlain(a);
    NormIsPlain(b);
    PlainIff(WithoutTrailing(a), WithoutTrailing(b));
  }

  // ---------------------------------------------------------------- what is found

  /** The text stands here, character for character. */
  predicate StandsAt(s: Text, t: Text, i: nat) {
    i + |t| <= |s| && forall k :: 0 <= k < |t| ==> s[i + k] == t[k]
  }

  /** A text of the same kind of characters stands here. */
  predicate StandsAlikeAt(s: Text, t: Text, i: nat) {
    i + |t| <= |s| && forall k :: 0 <= k < |t| ==> Alike(s[i + k], t[k])
  }

  predicate Stands(s: Text, t: Text) {
    exists i :: 0 <= i <= |s| && StandsAt(s, t, i)
  }

  lemma OccursIff(s: Text, t: Text, i: nat)
    ensures Occurs(s, t, i) <==> StandsAt(s, t, i)
  {
    if StandsAt(s, t, i) {
      assert s[i..i + |t|] == t;
    }
    if Occurs(s, t, i) {
      forall k | 0 <= k < |t| ensures s[i + k] == t[k] {
        assert s[i..i + |t|][k] == s[i + k];
      }
    }
  }

  lemma OccursPlainIff(s: Text, t: Text, i: nat)
    ensures Occurs(Plain(s), Plain(t), i) <==> StandsAlikeAt(s, t, i)
  {
    hide FuzzyRune, Alike, Occurs;
    OccursIff(Plain(s), Plain(t), i);
    forall k | 0 <= k < |t| && i + k < |s| ensures FuzzyRune(s[i + k]) == FuzzyRune(t[k]) <==> Alike(s[i + k], t[k]) {
      ReadsAlikeIff(s[i + k], t[k]);
    }
    if i + |t| <= |s| {
      assert forall k :: 0 <= k < |t| ==> Plain(s)[i + k] == FuzzyRune(s[i + k]) && Plain(t)[k] == FuzzyRune(t[k]);
    }
  }

  /** It stands in one place; any other place where it stands overlaps that one. */
  ghost predicate FoundOnce(s: Text, t: Text) {
    exists i: nat :: StandsAt(s, t, i) && forall j: nat :: StandsAt(s, t, j) ==> i <= j < i + Max(|t|, 1)
  }

  ghost predicate FoundOnceAlike(s: Text, t: Text) {
    exists i: nat :: StandsAlikeAt(s, t, i) && forall j: nat :: StandsAlikeAt(s, t, j) ==> i <= j < i + Max(|t|, 1)
  }

  lemma CountOnceIff(s: Text, t: Text)
    ensures Count(s, t) == 1 <==> FoundOnce(s, t)
  {
    hide StandsAt, Occurs, CountFrom;
    forall i: nat ensures Occurs(s, t, i) <==> StandsAt(s, t, i) { OccursIff(s, t, i); }
    if t == "" {
      EmptyStands(s);
    } else {
      UniqueIff(s, t);
      if i: nat :| Sole(s, t, i) {
        assert StandsAt(s, t, i);
      }
      if i: nat :| StandsAt(s, t, i) && forall j: nat :: StandsAt(s, t, j) ==> i <= j < i + Max(|t|, 1) {
        assert Sole(s, t, i);
      }
    }
  }

  lemma EmptyStands(s: Text)
    ensures FoundOnce(s, "") <==> s == ""
  {
    assert forall j: nat :: StandsAt(s, "", j) <==> j <= |s|;
    if s != "" {
      assert StandsAt(s, "", 0) && StandsAt(s, "", 1);
    } else {
      assert StandsAt(s, "", 0);
    }
  }

  lemma PlainOnceIff(s: Text, t: Text)
    ensures FoundOnce(Plain(s), Plain(t)) <==> FoundOnceAlike(s, t)
  {
    hide StandsAt, StandsAlikeAt, Occurs, FuzzyRune;
    forall i: nat ensures StandsAt(Plain(s), Plain(t), i) <==> StandsAlikeAt(s, t, i) {
      OccursIff(Plain(s), Plain(t), i);
      OccursPlainIff(s, t, i);
    }
    if i: nat :| StandsAt(Plain(s), Plain(t), i)
                 && forall j: nat :: StandsAt(Plain(s), Plain(t), j) ==> i <= j < i + Max(|t|, 1) {
      assert StandsAlikeAt(s, t, i);
    }
    if i: nat :| StandsAlikeAt(s, t, i) && forall j: nat :: StandsAlikeAt(s, t, j) ==> i <= j < i + Max(|t|, 1) {
      assert StandsAt(Plain(s), Plain(t), i);
    }
  }

  lemma StandsInside(s: Text, t: Text, i: nat)
    requires StandsAt(s, t, i)
    ensures i <= |s|
  {
  }

  lemma ContainsIff(s: Text, t: Text)
    ensures Contains(s, t) <==> Stands(s, t)
  {
    hide StandsAt, Occurs;
    forall i: nat ensures Occurs(s, t, i) <==> StandsAt(s, t, i) { OccursIff(s, t, i); }
    var found := IndexFrom(s, t, 0);
    if found.Some? {
      assert StandsAt(s, t, found.value);
      assert found.value <= |s| by { StandsInside(s, t, found.value); }
    }
  }

  /** Every text looked for stands in the file as it is. */
  predicate AllStand(base: Text, edits: seq<Edit>) {
    forall k :: 0 <= k < |edits| ==> Stands(base, NormalizeLF(edits[k].oldText))
  }

  lemma NeedsFuzzyIff(base: Text, edits: seq<Edit>)
    ensures NeedsFuzzy(base, edits) <==> !AllStand(base, edits)
  {
    hide Contains, Stands, NormalizeLF;
    forall k | 0 <= k < |edits|
      ensures Contains(base, Normal(edits[k]).oldText) <==> Stands(base, NormalizeLF(edits[k].oldText))
    {
      ContainsIff(base, Normal(edits[k]).oldText);
    }
    if k :| 0 <= k < |edits| && !Contains(base, Normal(edits[k]).oldText) {
      assert !Stands(base, NormalizeLF(edits[k].oldText));
    }
  }

  /** One edit is found: as it stands, or, when some edit of the list is not to be found so, up to kinds of characters and white
      space at line ends. Either way in one place. */
  lemma MatchedIff(base: Text, fuzzy: bool, e: Edit, i: nat)
    ensures MatchOf(base, fuzzy, e, i).Success? <==>
            var wanted := NormalizeLF(e.oldText);
            if fuzzy then FoundOnceAlike(WithoutTrailing(base), WithoutTrailing(wanted)) else FoundOnce(base, wanted)
  {
    hide NormalizeLF, Norm, Offsets, Count, FoundOnce, FoundOnceAlike, WithoutTrailing, Plain, CountFrom;
    var wanted := NormalizeLF(e.oldText);
    if fuzzy {
      NormIsPlain(base);
      NormIsPlain(wanted);
      CountOnceIff(Norm(base), Norm(wanted));
      PlainOnceIff(WithoutTrailing(base), WithoutTrailing(wanted));
    } else {
      CountOnceIff(base, wanted);
    }
    var haystack, needle := Haystack(base, fuzzy), Needle(e, fuzzy);
    CountedIsFound(haystack, needle);
  }

  lemma CountedIsFound(s: Text, t: Text)
    ensures Count(s, t) == 1 ==> IndexFrom(s, t, 0).Some?
  {
    hide Occurs;
    if t == "" {
      assert Occurs(s, t, 0) by { OccursIff(s, t, 0); }
    }
  }

  /** Which lists of edits are accepted: each has something to look for and is found in one place, exactly if all are to be
      found exactly, tolerantly otherwise, and the regions found do not overlap. */
  lemma EditsAcceptedIff(base: Text, edits: seq<Edit>)
    requires WithoutTrailing(base) != ""
    ensures AcceptedIn(base, edits).Success? <==>
      && (forall k :: 0 <= k < |edits| ==> NormalizeLF(edits[k].oldText) != "")
      && (forall k :: 0 <= k < |edits| ==>
            if AllStand(base, edits) then FoundOnce(base, NormalizeLF(edits[k].oldText))
            else FoundOnceAlike(WithoutTrailing(base), WithoutTrailing(NormalizeLF(edits[k].oldText))))
      && (var found := MatchesOf(base, !AllStand(base, edits), edits, |edits|); found.Success? ==> AllApart(found.value))
  {
    hide NormalizeLF, Norm, MatchOf, MatchesOf, FoundOnce, FoundOnceAlike, AllStand, AllApart, NeedsFuzzy, WithoutTrailing, AcceptedIn;
    NormIsPlain(base);
    AcceptedIff(base, edits);
    NeedsFuzzyIff(base, edits);
    EachMatch(base, !AllStand(base, edits), edits, |edits|);
    forall k | 0 <= k < |edits|
      ensures MatchOf(base, !AllStand(base, edits), edits[k], k).Success? <==>
              if AllStand(base, edits) then FoundOnce(base, NormalizeLF(edits[k].oldText))
              else FoundOnceAlike(WithoutTrailing(base), WithoutTrailing(NormalizeLF(edits[k].oldText)))
    {
      MatchedIff(base, !AllStand(base, edits), edits[k], k);
    }
  }

  /** A single edit of any file is accepted exactly when it has something to look for that is found in one place: as it stands
      if it stands anywhere, and otherwise up to kinds of characters and white space at line ends. */
  lemma EditAcceptedIff(base: Text, e: Edit)
    ensures AcceptedIn(base, [e]).Success? <==>
      var wanted := NormalizeLF(e.oldText);
      && wanted != ""
      && if Stands(base, wanted) then FoundOnce(base, wanted)
         else FoundOnceAlike(WithoutTrailing(base), WithoutTrailing(wanted))
  {
    hide NormalizeLF, Norm, MatchOf, FoundOnce, FoundOnceAlike, NeedsFuzzy, WithoutTrailing, Stands;
    var edits, wanted := [e], NormalizeLF(e.oldText);
    assert edits[0] == e;
    NeedsFuzzyIff(base, edits);
    MatchedIff(base, NeedsFuzzy(base, edits), e, 0);
    OnlyMatch(base, NeedsFuzzy(base, edits), e);
  }

  lemma OnlyMatch(base: Text, fuzzy: bool, e: Edit)
    ensures MatchesOf(base, fuzzy, [e], 1).Success? <==> MatchOf(base, fuzzy, e, 0).Success?
    ensures MatchesOf(base, fuzzy, [e], 1).Success? ==> FirstOverlap(Sorted(MatchesOf(base, fuzzy, [e], 1).value), 1).None?
  {
    hide MatchOf, MatchesOf, Sorted;
    OneMatch(base, fuzzy, e);
    if MatchOf(base, fuzzy, e, 0).Success? {
      SortedOne(MatchOf(base, fuzzy, e, 0).value);
    }
  }

  // ---------------------------------------------------------------- what is written

  /** The stretch of the file is the text looked for, or reads like it. */
  predicate Meant(region: Text, wanted: Text, fuzzy: bool) {
    if fuzzy then AllAlike(WithoutTrailing(region), WithoutTrailing(wanted)) else region == wanted
  }

  lemma MatchMeans(base: Text, fuzzy: bool, e: Edit, i: nat)
    requires WithoutTrailing(base) != "" && NormalizeLF(e.oldText) != "" && MatchOf(base, fuzzy, e, i).Success?
    ensures var m := MatchOf(base, fuzzy, e, i).value;
      && m.length > 0 && m.index + m.length <= |base| && m.newText == NormalizeLF(e.newText)
      && Meant(base[m.index..m.index + m.length], NormalizeLF(e.oldText), fuzzy)
  {
    hide NormalizeLF, Norm, Offsets, Count, WithoutTrailing, Plain, AllAlike, IndexFrom;
    NormIsPlain(base);
    MatchedRegion(base, fuzzy, e, i);
    var m := MatchOf(base, fuzzy, e, i).value;
    if fuzzy {
      SameReadingIff(base[m.index..m.index + m.length], NormalizeLF(e.oldText));
    }
  }

  /** The new text stands where the stretch that was meant stood, and all else is as before. */
  predicate Writes(base: Text, e: Edit, i: nat, j: nat, updated: Text) {
    && i < j <= |base|
    && Meant(base[i..j], NormalizeLF(e.oldText), !Stands(base, NormalizeLF(e.oldText)))
    && updated == base[..i] + NormalizeLF(e.newText) + base[j..]
  }

  /** An accepted edit writes its new text over one stretch of the file, which is the text it looks for where that stands
      anywhere in the file and reads like it otherwise; the rest of the file is as it was. */
  lemma EditWrites(base: Text, e: Edit)
    requires WithoutTrailing(base) != "" && AcceptedIn(base, [e]).Success?
    ensures exists i: nat, j: nat ::
              Writes(base, e, i, j, Replace(base, AcceptedIn(base, [e]).value, 0))
  {
    hide NormalizeLF, MatchOf, NeedsFuzzy, WithoutTrailing, Stands, Meant, Replace, AcceptedIn;
    NeedsFuzzyIff(base, [e]);
    AcceptedOne(base, e);
    var fuzzy := NeedsFuzzy(base, [e]);
    assert [e][0] == e;
    var m := MatchOf(base, fuzzy, e, 0).value;
    MatchMeans(base, fuzzy, e, 0);
    ReplaceOne(base, m);
    assert Writes(base, e, m.index, m.index + m.length, Replace(base, AcceptedIn(base, [e]).value, 0));
  }

  lemma ReplaceOne(base: Text, m: Match)
    requires Disjoint(|base|, [m], 0)
    ensures m.index + m.length <= |base|
    ensures Replace(base, [m], 0) == base[..m.index] + m.newText + base[m.index + m.length..]
  {
    hide Replace;
    ReplaceFirst(base, [m], 0);
    assert [m][1..] == [];
    ReplaceNone(base, m.index + m.length);
    assert base[0..m.index] == base[..m.index];
  }

  lemma AcceptedOne(base: Text, e: Edit)
    requires AcceptedIn(base, [e]).Success?
    ensures NormalizeLF(e.oldText) != "" && MatchOf(base, NeedsFuzzy(base, [e]), e, 0).Success?
    ensures AcceptedIn(base, [e]).value == [MatchOf(base, NeedsFuzzy(base, [e]), e, 0).value]
  {
    hide NormalizeLF, MatchOf, NeedsFuzzy, Sorted, Disjoint, MatchesOf;
    var edits, fuzzy := [e], NeedsFuzzy(base, [e]);
    assert edits[0] == e;
    assert FirstEmpty(edits, 0).None?;
    OneMatch(base, fuzzy, e);
    SortedOne(MatchOf(base, fuzzy, e, 0).value);
  }

  lemma OneMatch(base: Text, fuzzy: bool, e: Edit)
    ensures MatchesOf(base, fuzzy, [e], 1).Success? <==> MatchOf(base, fuzzy, e, 0).Success?
    ensures MatchesOf(base, fuzzy, [e], 1).Success? ==>
              MatchesOf(base, fuzzy, [e], 1).value == [MatchOf(base, fuzzy, e, 0).value]
  {
    hide MatchOf;
    assert MatchesOf(base, fuzzy, [e], 0) == Success([]);
    if MatchOf(base, fuzzy, e, 0).Success? {
      var m := MatchOf(base, fuzzy, e, 0).value;
      assert [] + [m] == [m];
    }
  }

  lemma SortedOne(m: Match)
    ensures Sorted([m]) == [m]
  {
    assert [m][..0] == [];
  }

  predicate StandsAlike(s: Text, t: Text) {
    exists i :: 0 <= i <= |s| && StandsAlikeAt(s, t, i)
  }

  lemma CountNoneIff(s: Text, t: Text)
    ensures Count(s, t) == 0 <==> !Stands(s, t)
  {
    hide StandsAt, Occurs, CountFrom, IndexFrom;
    forall i: nat ensures Occurs(s, t, i) <==> StandsAt(s, t, i) { OccursIff(s, t, i); }
    forall i: nat ensures StandsAt(s, t, i) ==> i <= |s| {
      if StandsAt(s, t, i) { StandsInside(s, t, i); }
    }
    if t == "" {
      assert StandsAt(s, "", 0) by { EmptyAtStart(s); }
    } else {
      CountsSome(s, t, 0);
    }
  }

  lemma EmptyAtStart(s: Text)
    ensures StandsAt(s, "", 0)
  {
  }

  lemma PlainStandsIff(s: Text, t: Text)
    ensures Stands(Plain(s), Plain(t)) <==> StandsAlike(s, t)
  {
    hide StandsAt, StandsAlikeAt, Occurs, FuzzyRune;
    forall i: nat ensures StandsAt(Plain(s), Plain(t), i) <==> StandsAlikeAt(s, t, i) {
      OccursIff(Plain(s), Plain(t), i);
      OccursPlainIff(s, t, i);
    }
    if i :| 0 <= i <= |s| && StandsAlikeAt(s, t, i) {
      assert 0 <= i <= |Plain(s)| && StandsAt(Plain(s), Plain(t), i);
    }
    if i :| 0 <= i <= |Plain(s)| && StandsAt(Plain(s), Plain(t), i) {
      assert 0 <= i <= |s| && StandsAlikeAt(s, t, i);
    }
  }

  lemma NotFoundIff(base: Text, fuzzy: bool, e: Edit, i: nat)
    ensures MatchOf(base, fuzzy, e, i) == Failure(NotFound(i)) <==>
            var wanted := NormalizeLF(e.oldText);
            if fuzzy then !StandsAlike(WithoutTrailing(base), WithoutTrailing(wanted)) else !Stands(base, wanted)
    ensures MatchOf(base, fuzzy, e, i).Failure? ==> MatchOf(base, fuzzy, e, i).error == NotFound(i) || MatchOf(base, fuzzy, e, i).error.NotUnique?
  {
    hide NormalizeLF, Norm, Offsets, Count, Stands, StandsAlike, WithoutTrailing, Plain, CountFrom, IndexFrom;
    var wanted := NormalizeLF(e.oldText);
    if fuzzy {
      NormIsPlain(base);
      NormIsPlain(wanted);
      CountNoneIff(Norm(base), Norm(wanted));
      PlainStandsIff(WithoutTrailing(base), WithoutTrailing(wanted));
    } else {
      CountNoneIff(base, wanted);
    }
    CountedIsFound(Haystack(base, fuzzy), Needle(e, fuzzy));
  }

  /** A file is edited exactly when its edits are accepted and change something; then it is written with the mark and the line
      ending it had. */
  lemma EditedIff(raw: Text, edits: seq<Edit>)
    ensures var base := NormalizeLF(Body(raw));
      && (ApplyEdits(raw, edits).Success? <==>
            AcceptedIn(base, edits).Success? && Replace(base, AcceptedIn(base, edits).value, 0) != base)
      && (ApplyEdits(raw, edits).Success? ==>
            var updated := Replace(base, AcceptedIn(base, edits).value, 0);
            ApplyEdits(raw, edits).value == Mark(raw) + if UsesCRLF(Body(raw)) then LFToCRLF(updated) else updated)
  {
    hide NormalizeLF, AcceptedIn, Replace, LFToCRLF, UsesCRLF;
  }

  /** Writing carriage returns puts one before every line feed and nowhere else. */
  lemma EndingsWritten(a: Text, b: Text, c: char)
    ensures LFToCRLF(a + b) == LFToCRLF(a) + LFToCRLF(b)
    ensures LFToCRLF([c]) == if c == '\n' then "\r\n" else [c]
  {
    EndingsSplit(true, a, b);
    assert [c][1..] == "";
  }

  /** Why a single edit is refused: it has nothing to look for; it stands nowhere, not even alike; it stands in more than one
      place; or it would change nothing. */
  lemma RefusedBecause(raw: Text, e: Edit)
    requires ApplyEdits(raw, [e]).Failure?
    ensures var base, wanted, error := NormalizeLF(Body(raw)), NormalizeLF(e.oldText), ApplyEdits(raw, [e]).error;
      && (error == EmptyOldText(0) <==> wanted == "")
      && (error == NotFound(0) <==>
            wanted != "" && !Stands(base, wanted) && !StandsAlike(WithoutTrailing(base), WithoutTrailing(wanted)))
      && (error.NotUnique? <==>
            && wanted != ""
            && if Stands(base, wanted) then !FoundOnce(base, wanted)
               else StandsAlike(WithoutTrailing(base), WithoutTrailing(wanted))
                    && !FoundOnceAlike(WithoutTrailing(base), WithoutTrailing(wanted)))
      && (error == NoChange <==> AcceptedIn(base, [e]).Success? && Replace(base, AcceptedIn(base, [e]).value, 0) == base)
  {
    hide NormalizeLF, Norm, MatchOf, MatchesOf, FoundOnce, FoundOnceAlike, NeedsFuzzy, WithoutTrailing, Stands, StandsAlike,
         Replace, WithEndings, UsesCRLF, Sorted, FirstOverlap;
    var base, edits := NormalizeLF(Body(raw)), [e];
    assert edits[0] == e;
    NeedsFuzzyIff(base, edits);
    var fuzzy := NeedsFuzzy(base, edits);
    assert fuzzy <==> !Stands(base, NormalizeLF(e.oldText));
    MatchedIff(base, fuzzy, e, 0);
    NotFoundIff(base, fuzzy, e, 0);
    OnlyMatch(base, fuzzy, e);
    if MatchOf(base, fuzzy, e, 0).Failure? {
      OnlyFailure(base, fuzzy, e);
      assert ApplyEdits(raw, edits).error == if NormalizeLF(e.oldText) == "" then EmptyOldText(0) else MatchOf(base, fuzzy, e, 0).error;
    }
  }

  lemma OnlyFailure(base: Text, fuzzy: bool, e: Edit)
    requires MatchOf(base, fuzzy, e, 0).Failure?
    ensures MatchesOf(base, fuzzy, [e], 1) == Failure(MatchOf(base, fuzzy, e, 0).error)
  {
    hide MatchOf;
    assert MatchesOf(base, fuzzy, [e], 0) == Success([]);
  }

  // ---------------------------------------------------------------- line endings

  predicate Joins(a: Text, b: Text) {
    a != "" && b != "" && a[|a| - 1] == '\r' && b[0] == '\n'
  }

  predicate StartsCRLF(v: Text) {
    |v| >= 2 && v[0] == '\r' && v[1] == '\n'
  }

  lemma CRLFStep(v: Text)
    ensures v == "" ==> CRLFToLF(v) == ""
    ensures StartsCRLF(v) ==> CRLFToLF(v) == "\n" + CRLFToLF(v[2..])
    ensures v != "" && !StartsCRLF(v) ==> CRLFToLF(v) == [v[0]] + CRLFToLF(v[1..])
  {
  }

  lemma {:induction false} CRLFSplit(a: Text, b: Text)
    requires !Joins(a, b)
    ensures CRLFToLF(a + b) == CRLFToLF(a) + CRLFToLF(b)
    decreases |a|
  {
    hide CRLFToLF;
    CRLFStep(a);
    CRLFStep(a + b);
    if a == "" {
      assert a + b == b;
    } else if StartsCRLF(a) {
      assert (a + b)[2..] == a[2..] + b;
      CRLFSplit(a[2..], b);
    } else {
      assert (a + b)[1..] == a[1..] + b;
      CRLFSplit(a[1..], b);
    }
  }

  lemma {:induction false} CRSplit(a: Text, b: Text)
    ensures CRToLF(a + b) == CRToLF(a) + CRToLF(b)
    decreases |a|
  {
    if a == "" {
      assert a + b == b;
    } else {
      assert (a + b)[1..] == a[1..] + b;
      CRSplit(a[1..], b);
    }
  }

  lemma NormalSplit(a: Text, b: Text)
    requires !Joins(a, b)
    ensures NormalizeLF(a + b) == NormalizeLF(a) + NormalizeLF(b)
  {
    hide CRLFToLF, CRToLF;
    CRLFSplit(a, b);
    CRSplit(CRLFToLF(a), CRLFToLF(b));
  }

  /** Reading line endings: a text without carriage returns stays as it is, and wherever a carriage return stands, alone or
      before a line feed, one line feed is read. */
  lemma EndingsRead(a: Text, b: Text)
    ensures '\r' !in NormalizeLF(a)
    ensures '\r' !in a ==> NormalizeLF(a) == a
    ensures NormalizeLF(a + "\r\n" + b) == NormalizeLF(a) + "\n" + NormalizeLF(b)
    ensures b == "" || b[0] != '\n' ==> NormalizeLF(a + "\r" + b) == NormalizeLF(a) + "\n" + NormalizeLF(b)
  {
    CRToLFHasNoCR(CRLFToLF(a));
    if '\r' !in a {
      NoCRUnchanged(a);
    }
    OneEnding(b);
    assert a + "\r\n" + b == a + ("\r\n" + b) && a + "\r" + b == a + ("\r" + b);
    NormalSplit(a, "\r\n" + b);
    NormalSplit(a, "\r" + b);
  }

  lemma OneEnding(b: Text)
    ensures NormalizeLF("\r\n" + b) == "\n" + NormalizeLF(b)
    ensures b == "" || b[0] != '\n' ==> NormalizeLF("\r" + b) == "\n" + NormalizeLF(b)
  {
    var v, w := "\r\n" + b, "\r" + b;
    assert v[2..] == b && w[1..] == b;
    assert CRLFToLF(v) == "\n" + CRLFToLF(b);
    assert ("\n" + CRLFToLF(b))[1..] == CRLFToLF(b);
    if b == "" || b[0] != '\n' {
      assert CRLFToLF(w) == "\r" + CRLFToLF(b);
      assert ("\r" + CRLFToLF(b))[1..] == CRLFToLF(b);
    }
  }

  predicate FirstLineFeed(raw: Text, i: nat)
    requires i < |raw|
  {
    raw[i] == '\n' && forall j :: 0 <= j < i ==> raw[j] != '\n'
  }

  lemma EndingAt(raw: Text, j: nat)
    ensures Occurs(raw, "\n", j) <==> j < |raw| && raw[j] == '\n'
    ensures Occurs(raw, "\r\n", j) <==> j + 1 < |raw| && raw[j] == '\r' && raw[j + 1] == '\n'
  {
    if j < |raw| {
      assert raw[j..j + 1] == [raw[j]];
    }
    if j + 1 < |raw| {
      assert raw[j..j + 2] == [raw[j], raw[j + 1]];
      assert "\r\n" == ['\r', '\n'] && [raw[j], raw[j + 1]][0] == raw[j] && [raw[j], raw[j + 1]][1] == raw[j + 1];
    }
  }

  lemma FirstFeedIs(raw: Text, i: nat)
    ensures IndexFrom(raw, "\n", 0) == Some(i) <==> i < |raw| && FirstLineFeed(raw, i)
  {
    hide Occurs, IndexFrom;
    var lf := IndexFrom(raw, "\n", 0);
    EndingAt(raw, i);
    if lf.Some? {
      EndingAt(raw, lf.value);
    }
    forall j: nat | j < i ensures Occurs(raw, "\n", j) <==> j < |raw| && raw[j] == '\n' {
      EndingAt(raw, j);
    }
  }

  lemma FeedsBefore(raw: Text, i: nat)
    requires 0 < i < |raw| && FirstLineFeed(raw, i) && raw[i - 1] == '\r'
    ensures IndexFrom(raw, "\r\n", 0) == Some(i - 1)
  {
    hide Occurs, IndexFrom;
    EndingAt(raw, i - 1);
    var crlf := IndexFrom(raw, "\r\n", 0);
    assert crlf.Some?;
    EndingAt(raw, crlf.value);
  }

  /** A file is written with carriage returns exactly when its first line feed has one before it; the mark at its beginning is
      the character U+FEFF and comes back. */
  lemma FileFormat(raw: Text)
    ensures UsesCRLF(raw) <==> exists i :: 0 < i < |raw| && FirstLineFeed(raw, i) && raw[i - 1] == '\r'
    ensures if raw != "" && raw[0] == '\U{FEFF}' then Mark(raw) == ['\U{FEFF}'] && Body(raw) == raw[1..]
            else Mark(raw) == "" && Body(raw) == raw
  {
    hide IndexFrom, Occurs, FirstLineFeed;
    if i :| 0 < i < |raw| && FirstLineFeed(raw, i) && raw[i - 1] == '\r' {
      FirstFeedIs(raw, i);
      FeedsBefore(raw, i);
    }
    if UsesCRLF(raw) {
      var i := IndexFrom(raw, "\n", 0).value;
      FirstFeedIs(raw, i);
      EndingAt(raw, i - 1);
    }
  }
}
