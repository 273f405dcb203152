/**
 Several replacements in one file, each found in the original text, exactly or
 through the tolerant reading, and spliced in from the last to the first.
 */
module FileEdit {
  import Diff = Hunk
  import Lines

  import opened Fuzzy
  import opened Wrappers

  const BOM: char := '\U{FEFF}'

  datatype Edit = Edit(oldText: Text, newText: Text)
  datatype Match = Match(index: nat, length: nat, newText: Text, edit: nat)
  datatype EditError =
    | EmptyOldText(edit: nat)
    | NotFound(edit: nat)
    | NotUnique(edit: nat, count: nat)
    | Overlapping(first: nat, second: nat)
    | NoChange

  // ---------------------------------------------------------------- searching

  predicate Occurs(s: Text, sub: Text, i: nat) {
    i + |sub| <= |s| && s[i..i + |sub|] == sub
  }

  function IndexFrom(s: Text, sub: Text, from: nat): (i: Option<nat>)
    requires from <= |s|
    ensures i.Some? ==> from <= i.value && Occurs(s, sub, i.value) && forall j :: from <= j < i.value ==> !Occurs(s, sub, j)
    ensures i.None? ==> forall j :: from <= j ==> !Occurs(s, sub, j)
    decreases |s| - from
  {
    if Occurs(s, sub, from) then Some(from) else if from == |s| then None else IndexFrom(s, sub, from + 1)
  }

  function CountFrom(s: Text, sub: Text, from: nat): nat
    requires from <= |s| && sub != ""
    decreases |s| - from
  {
    match IndexFrom(s, sub, from)
    case None => 0
    case Some(i) => 1 + CountFrom(s, sub, i + |sub|)
  }

  /** Occurrences counted from the left, none overlapping the one before; the empty text is between all characters. */
  function Count(s: Text, sub: Text): nat {
    if sub == "" then |s| + 1 else CountFrom(s, sub, 0)
  }

  predicate Contains(s: Text, sub: Text) {
    IndexFrom(s, sub, 0).Some?
  }

  // ---------------------------------------------------------------- line endings

  function CRLFToLF(v: Text): Text {
    if v == "" then ""
    else if |v| >= 2 && v[0] == '\r' && v[1] == '\n' then "\n" + CRLFToLF(v[2..])
    else [v[0]] + CRLFToLF(v[1..])
  }

  function CRToLF(v: Text): Text {
    if v == "" then "" else [if v[0] == '\r' then '\n' else v[0]] + CRToLF(v[1..])
  }

  function NormalizeLF(v: Text): Text {
    CRToLF(CRLFToLF(v))
  }

  function LFToCRLF(v: Text): Text {
    if v == "" then "" else (if v[0] == '\n' then "\r\n" else [v[0]]) + LFToCRLF(v[1..])
  }

  /** The first line of the file ends in CR LF. */
  predicate UsesCRLF(raw: Text) {
    var crlf, lf := IndexFrom(raw, "\r\n", 0), IndexFrom(raw, "\n", 0);
    crlf.Some? && lf.Some? && crlf.value == lf.value - 1
  }

  function WithEndings(crlf: bool, v: Text): Text {
    if crlf then LFToCRLF(v) else v
  }

  predicate HasBOM(raw: Text) {
    raw != "" && raw[0] == BOM
  }

  function Body(raw: Text): Text {
    if HasBOM(raw) then raw[1..] else raw
  }

  function Mark(raw: Text): Text {
    if HasBOM(raw) then [BOM] else ""
  }

  function Normal(e: Edit): Edit {
    Edit(NormalizeLF(e.oldText), NormalizeLF(e.newText))
  }

  // ---------------------------------------------------------------- finding the edits

  function FirstEmpty(edits: seq<Edit>, i: nat): (k: Option<nat>)
    requires i <= |edits|
    ensures k.Some? ==> i <= k.value < |edits| && NormalizeLF(edits[k.value].oldText) == ""
    ensures k.None? ==> forall j :: i <= j < |edits| ==> NormalizeLF(edits[j].oldText) != ""
    decreases |edits| - i
  {
    if i == |edits| then None else if NormalizeLF(edits[i].oldText) == "" then Some(i) else FirstEmpty(edits, i + 1)
  }

  /** Some edit is not in the text as it stands, so every edit is looked for tolerantly. */
  predicate NeedsFuzzy(base: Text, edits: seq<Edit>) {
    exists k :: 0 <= k < |edits| && !Contains(base, Normal(edits[k]).oldText)
  }

  function Haystack(base: Text, fuzzy: bool): Text {
    if fuzzy then Norm(base) else base
  }

  function Needle(e: Edit, fuzzy: bool): Text {
    if fuzzy then Norm(Normal(e).oldText) else Normal(e).oldText
  }

  function MatchOf(base: Text, fuzzy: bool, e: Edit, i: nat): (m: Result<Match, EditError>)
    ensures m.Success? ==> m.value.index + m.value.length <= |base| && m.value.edit == i
  {
    var haystack, needle := Haystack(base, fuzzy), Needle(e, fuzzy);
    var count := Count(haystack, needle);
    if count == 0 then Failure(NotFound(i))
    else if count > 1 then Failure(NotUnique(i, count))
    else
      match IndexFrom(haystack, needle, 0)
      case None => Failure(NotFound(i))
      case Some(at) =>
        if fuzzy then
          OffsetsOrdered(base, at, at + |needle|);
          Success(Match(Offsets(base)[at], Offsets(base)[at + |needle|] - Offsets(base)[at], Normal(e).newText, i))
        else Success(Match(at, |needle|, Normal(e).newText, i))
  }

  lemma OffsetsOrdered(v: Text, i: nat, j: nat)
    requires i <= j <= |Norm(v)|
    ensures |Offsets(v)| == |Norm(v)| + 1 && Offsets(v)[i] <= Offsets(v)[j] <= |v|
  {
    hide KeptBelow;
  }

  function MatchesOf(base: Text, fuzzy: bool, edits: seq<Edit>, n: nat): (ms: Result<seq<Match>, EditError>)
    requires n <= |edits|
  {
    if n == 0 then Success([])
    else
      match MatchesOf(base, fuzzy, edits, n - 1)
      case Failure(why) => Failure(why)
      case Success(ms) =>
        match MatchOf(base, fuzzy, edits[n - 1], n - 1)
        case Failure(why) => Failure(why)
        case Success(m) => Success(ms + [m])
  }

  lemma {:induction false} EachMatch(base: Text, fuzzy: bool, edits: seq<Edit>, n: nat)
    requires n <= |edits|
    ensures var ms := MatchesOf(base, fuzzy, edits, n);
      if ms.Success? then |ms.value| == n && forall k :: 0 <= k < n ==> MatchOf(base, fuzzy, edits[k], k) == Success(ms.value[k])
      else exists k :: 0 <= k < n && MatchOf(base, fuzzy, edits[k], k).Failure?
  {
    hide MatchOf;
    if n > 0 {
      EachMatch(base, fuzzy, edits, n - 1);
    }
  }

  lemma MatchesInside(base: Text, fuzzy: bool, edits: seq<Edit>)
    requires MatchesOf(base, fuzzy, edits, |edits|).Success?
    ensures Inside(|base|, MatchesOf(base, fuzzy, edits, |edits|).value)
  {
    hide MatchOf, MatchesOf;
    EachMatch(base, fuzzy, edits, |edits|);
    var ms := MatchesOf(base, fuzzy, edits, |edits|).value;
    forall k | 0 <= k < |ms| ensures ms[k].index + ms[k].length <= |base| {
      assert MatchOf(base, fuzzy, edits[k], k) == Success(ms[k]);
    }
  }

  // ---------------------------------------------------------------- order and overlap

  /** Puts a match behind every one that does not start later. */
  function Inserted(ms: seq<Match>, m: Match): seq<Match> {
    if ms == [] || ms[|ms| - 1].index <= m.index then ms + [m]
    else Inserted(ms[..|ms| - 1], m) + [ms[|ms| - 1]]
  }

  function Sorted(ms: seq<Match>): seq<Match> {
    if ms == [] then [] else Inserted(Sorted(ms[..|ms| - 1]), ms[|ms| - 1])
  }

  function FirstOverlap(ms: seq<Match>, i: nat): (k: Option<nat>)
    requires 0 < i
    ensures k.Some? ==> i <= k.value < |ms| && ms[k.value - 1].index + ms[k.value - 1].length > ms[k.value].index
    ensures k.None? ==> forall j :: i <= j < |ms| ==> ms[j - 1].index + ms[j - 1].length <= ms[j].index
    decreases |ms| - i
  {
    if i >= |ms| then None
    else if ms[i - 1].index + ms[i - 1].length > ms[i].index then Some(i)
    else FirstOverlap(ms, i + 1)
  }

  /** The matches follow each other without overlap, from a position on and inside the text. */
  predicate Disjoint(size: nat, ms: seq<Match>, from: nat) {
    if ms == [] then from <= size
    else from <= ms[0].index && Disjoint(size, ms[1..], ms[0].index + ms[0].length)
  }

  lemma {:induction false} DisjointFits(size: nat, ms: seq<Match>, from: nat)
    requires Disjoint(size, ms, from)
    ensures from <= size
    ensures ms != [] ==> ms[0].index + ms[0].length <= size
  {
    if ms != [] {
      DisjointFits(size, ms[1..], ms[0].index + ms[0].length);
    }
  }

  /** The text with every matched region replaced, all at once. */
  function Replace(base: Text, ms: seq<Match>, from: nat): Text
    requires Disjoint(|base|, ms, from)
  {
    DisjointFits(|base|, ms, from);
    if ms == [] then base[from..]
    else base[from..ms[0].index] + ms[0].newText + Replace(base, ms[1..], ms[0].index + ms[0].length)
  }

  // ---------------------------------------------------------------- the whole operation

  /** The matches of accepted edits, in the order of the text. */
  function AcceptedIn(base: Text, edits: seq<Edit>): (ms: Result<seq<Match>, EditError>)
    ensures ms.Success? ==> Disjoint(|base|, ms.value, 0)
  {
    match FirstEmpty(edits, 0)
    case Some(k) => Failure(EmptyOldText(k))
    case None =>
      match MatchesOf(base, NeedsFuzzy(base, edits), edits, |edits|)
      case Failure(why) => Failure(why)
      case Success(found) =>
        var ms := Sorted(found);
        MatchesInside(base, NeedsFuzzy(base, edits), edits);
        SortedInside(|base|, found);
        match FirstOverlap(ms, 1)
        case Some(k) => Failure(Overlapping(ms[k - 1].edit, ms[k].edit))
        case None => InOrderIsDisjoint(|base|, ms, 0); Success(ms)
  }

  function ApplyEdits(raw: Text, edits: seq<Edit>): Result<Text, EditError> {
    var base := NormalizeLF(Body(raw));
    match AcceptedIn(base, edits)
    case Failure(why) => Failure(why)
    case Success(ms) =>
      var updated := Replace(base, ms, 0);
      if updated == base then Failure(NoChange)
      else Success(Mark(raw) + WithEndings(UsesCRLF(Body(raw)), updated))
  }

  predicate Inside(size: nat, ms: seq<Match>) {
    forall k :: 0 <= k < |ms| ==> ms[k].index + ms[k].length <= size
  }

  lemma {:induction false} InsertedInside(size: nat, ms: seq<Match>, m: Match)
    requires Inside(size, ms) && m.index + m.length <= size
    ensures Inside(size, Inserted(ms, m))
  {
    if ms != [] && ms[|ms| - 1].index > m.index {
      InsertedInside(size, ms[..|ms| - 1], m);
    }
  }

  lemma {:induction false} SortedInside(size: nat, ms: seq<Match>)
    requires Inside(size, ms)
    ensures Inside(size, Sorted(ms))
  {
    if ms != [] {
      SortedInside(size, ms[..|ms| - 1]);
      InsertedInside(size, Sorted(ms[..|ms| - 1]), ms[|ms| - 1]);
    }
  }

  lemma {:induction false} InOrderIsDisjoint(size: nat, ms: seq<Match>, from: nat)
    requires Inside(size, ms) && from <= size
    requires ms != [] ==> from <= ms[0].index
    requires forall j :: 1 <= j < |ms| ==> ms[j - 1].index + ms[j - 1].length <= ms[j].index
    ensures Disjoint(size, ms, from)
    decreases |ms|
  {
    if ms != [] {
      forall j | 1 <= j < |ms[1..]| ensures ms[1..][j - 1].index + ms[1..][j - 1].length <= ms[1..][j].index {
        assert ms[1..][j - 1] == ms[j] && ms[1..][j] == ms[j + 1];
      }
      InOrderIsDisjoint(size, ms[1..], ms[0].index + ms[0].length);
    }
  }

  // ---------------------------------------------------------------- the same, step by step

  method FindMatch(base: Text, fuzzy: bool, haystack: Text, boundaries: seq<nat>, e: Edit, i: nat)
    returns (m: Result<Match, EditError>)
    requires haystack == Haystack(base, fuzzy) && (fuzzy ==> boundaries == Offsets(base))
    ensures m == MatchOf(base, fuzzy, e, i)
  {
    hide KeptBelow, Norm, Offsets, Count, NormalizeLF;
    var needle := NormalizeLF(e.oldText);
    if fuzzy {
      var dropped;
      needle, dropped := NormalizeFuzzy(needle);
    }
    var count := Count(haystack, needle);
    if count == 0 {
      return Failure(NotFound(i));
    }
    if count > 1 {
      return Failure(NotUnique(i, count));
    }
    var found := IndexFrom(haystack, needle, 0);
    if found.None? {
      return Failure(NotFound(i));
    }
    var index, length := found.value, |needle|;
    if fuzzy {
      OffsetsOrdered(base, index, index + length);
      length := boundaries[index + length] - boundaries[index];
      index := boundaries[index];
    }
    return Success(Match(index, length, NormalizeLF(e.newText), i));
  }

  method FindMatches(base: Text, edits: seq<Edit>) returns (ms: Result<seq<Match>, EditError>)
    ensures ms == MatchesOf(base, NeedsFuzzy(base, edits), edits, |edits|)
  {
    hide Contains, MatchOf, Norm, Offsets;
    var fuzzy := false;
    for k := 0 to |edits|
      invariant !fuzzy && forall j :: 0 <= j < k ==> Contains(base, Normal(edits[j]).oldText)
    {
      if !Contains(base, Normal(edits[k]).oldText) {
        fuzzy := true;
        break;
      }
    }
    assert fuzzy == NeedsFuzzy(base, edits);
    var haystack, boundaries := base, [];
    if fuzzy {
      haystack, boundaries := NormalizeFuzzy(base);
    }
    var matches: seq<Match> := [];
    for i := 0 to |edits|
      invariant MatchesOf(base, fuzzy, edits, i) == Success(matches)
    {
      var m := FindMatch(base, fuzzy, haystack, boundaries, edits[i], i);
      if m.Failure? {
        FirstFailureWins(base, fuzzy, edits, i, |edits|);
        return Failure(m.error);
      }
      matches := matches + [m.value];
    }
    return Success(matches);
  }

  lemma {:induction false} FirstFailureWins(base: Text, fuzzy: bool, edits: seq<Edit>, i: nat, n: nat)
    requires i < n <= |edits| && MatchesOf(base, fuzzy, edits, i).Success? && MatchOf(base, fuzzy, edits[i], i).Failure?
    ensures MatchesOf(base, fuzzy, edits, n) == Failure(MatchOf(base, fuzzy, edits[i], i).error)
  {
    hide MatchOf;
    if i < n - 1 {
      FirstFailureWins(base, fuzzy, edits, i, n - 1);
    }
  }

  /** Splices the replacements in, the last region first, so that the regions still to come keep their places. */
  method Splice(base: Text, ms: seq<Match>) returns (updated: Text)
    requires Disjoint(|base|, ms, 0)
    ensures updated == Replace(base, ms, 0)
  {
    hide Replace;
    updated := base;
    var i := |ms|;
    ghost var at := |base|;
    SplicedNothing(base, ms);
    while i > 0
      invariant 0 <= i <= |ms| && at <= |base| <= |base| && at <= |updated|
      invariant i < |ms| ==> at == ms[i].index
      invariant i == |ms| ==> at == |base|
      invariant Disjoint(|base|, ms[i..], at)
      invariant updated == base[..at] + Replace(base, ms[i..], at)
    {
      i := i - 1;
      SpliceStep(base, ms, i, at, updated);
      updated := updated[..ms[i].index] + ms[i].newText + updated[ms[i].index + ms[i].length..];
      at := ms[i].index;
    }
    assert ms[0..] == ms;
    assert base[0..at] == base[..at];
    LaterStart(base, ms, 0, at);
  }

  lemma SplicedNothing(base: Text, ms: seq<Match>)
    ensures ms[|ms|..] == [] && Disjoint(|base|, [], |base|) && base == base[..|base|] + Replace(base, [], |base|)
  {
  }

  lemma ReplaceFirst(base: Text, ms: seq<Match>, from: nat)
    requires Disjoint(|base|, ms, from) && ms != []
    ensures from <= ms[0].index <= ms[0].index + ms[0].length <= |base|
    ensures Disjoint(|base|, ms[1..], ms[0].index + ms[0].length)
    ensures Replace(base, ms, from) ==
            base[from..ms[0].index] + ms[0].newText + Replace(base, ms[1..], ms[0].index + ms[0].length)
  {
    DisjointFits(|base|, ms, from);
  }

  lemma ReplaceNone(base: Text, from: nat)
    requires from <= |base|
    ensures Disjoint(|base|, [], from) && Replace(base, [], from) == base[from..]
  {
  }

  lemma CutOnce(t: Text, n: nat)
    requires n <= |t|
    ensures t == t[..n] + t[n..]
  {
  }

  lemma Regroup(a: Text, b: Text, c: Text, d: Text)
    ensures a + b + c + d == a + (b + c + d)
  {
  }

  /** What lies between two positions before the first match is copied. */
  lemma LaterStart(base: Text, ms: seq<Match>, from: nat, at: nat)
    requires Disjoint(|base|, ms, from) && Disjoint(|base|, ms, at) && from <= at <= |base|
    ensures Replace(base, ms, from) == base[from..at] + Replace(base, ms, at)
  {
    hide Replace;
    if ms == [] {
      ReplaceNone(base, from);
      ReplaceNone(base, at);
      CutOnce(base[from..], at - from);
      assert base[from..][..at - from] == base[from..at] && base[from..][at - from..] == base[at..];
    } else {
      ReplaceFirst(base, ms, from);
      ReplaceFirst(base, ms, at);
      var copied, rest := base[from..ms[0].index], Replace(base, ms[1..], ms[0].index + ms[0].length);
      assert copied[..at - from] == base[from..at] && copied[at - from..] == base[at..ms[0].index];
      CutOnce(copied, at - from);
      Regroup(base[from..at], base[at..ms[0].index], ms[0].newText, rest);
    }
  }

  lemma {:induction false} DisjointAt(size: nat, ms: seq<Match>, i: nat, from: nat)
    requires Disjoint(size, ms, from) && i < |ms|
    ensures Disjoint(size, ms[i..], ms[i].index)
    ensures ms[i].index + ms[i].length <= if i + 1 < |ms| then ms[i + 1].index else size
    decreases |ms|
  {
    DisjointFits(size, ms, from);
    if i == 0 {
      assert ms[0..] == ms;
    } else {
      assert ms[1..][i - 1..] == ms[i..];
      DisjointAt(size, ms[1..], i - 1, ms[0].index + ms[0].length);
    }
  }

  lemma SpliceStep(base: Text, ms: seq<Match>, i: nat, at: nat, updated: Text)
    requires Disjoint(|base|, ms, 0) && i < |ms| && at <= |base|
    requires at == if i + 1 < |ms| then ms[i + 1].index else |base|
    requires Disjoint(|base|, ms[i + 1..], at)
    requires updated == base[..at] + Replace(base, ms[i + 1..], at)
    ensures ms[i].index + ms[i].length <= at <= |updated|
    ensures Disjoint(|base|, ms[i..], ms[i].index)
    ensures updated[..ms[i].index] + ms[i].newText + updated[ms[i].index + ms[i].length..] ==
            base[..ms[i].index] + Replace(base, ms[i..], ms[i].index)
  {
    hide Replace;
    DisjointAt(|base|, ms, i, 0);
    var m, rest := ms[i], ms[i + 1..];
    var end := m.index + m.length;
    assert ms[i..][1..] == rest;
    ReplaceFirst(base, ms[i..], m.index);
    LaterStart(base, rest, end, at);
    assert updated[..m.index] == base[..m.index];
    assert updated[end..] == base[end..at] + Replace(base, rest, at);
  }

  method InsertMatch(sorted: seq<Match>, m: Match) returns (more: seq<Match>)
    ensures more == Inserted(sorted, m)
  {
    hide Inserted;
    var j := |sorted|;
    assert sorted[..|sorted|] == sorted;
    while j > 0 && sorted[j - 1].index > m.index
      invariant 0 <= j <= |sorted|
      invariant Inserted(sorted, m) == Inserted(sorted[..j], m) + sorted[j..]
    {
      assert sorted[..j][..j - 1] == sorted[..j - 1];
      InsertedEarlier(sorted[..j], m);
      assert sorted[j - 1..] == [sorted[j - 1]] + sorted[j..];
      j := j - 1;
    }
    InsertedHere(sorted[..j], m);
    more := sorted[..j] + [m] + sorted[j..];
  }

  lemma InsertedEarlier(ms: seq<Match>, m: Match)
    requires ms != [] && ms[|ms| - 1].index > m.index
    ensures Inserted(ms, m) == Inserted(ms[..|ms| - 1], m) + [ms[|ms| - 1]]
  {
  }

  lemma InsertedHere(ms: seq<Match>, m: Match)
    requires ms == [] || ms[|ms| - 1].index <= m.index
    ensures Inserted(ms, m) == ms + [m]
  {
  }

  method SortMatches(ms: seq<Match>) returns (sorted: seq<Match>)
    ensures sorted == Sorted(ms)
  {
    hide Inserted;
    sorted := [];
    for i := 0 to |ms|
      invariant sorted == Sorted(ms[..i])
    {
      assert ms[..i + 1][..i] == ms[..i];
      sorted := InsertMatch(sorted, ms[i]);
    }
    assert ms[..|ms|] == ms;
  }

  method AcceptEdits(base: Text, edits: seq<Edit>) returns (ms: Result<seq<Match>, EditError>)
    ensures ms == AcceptedIn(base, edits)
  {
    hide MatchesOf, Sorted, NormalizeLF, NeedsFuzzy;
    for i := 0 to |edits|
      invariant FirstEmpty(edits, 0) == FirstEmpty(edits, i)
    {
      if NormalizeLF(edits[i].oldText) == "" {
        return Failure(EmptyOldText(i));
      }
    }
    var found := FindMatches(base, edits);
    if found.Failure? {
      return Failure(found.error);
    }
    var matches := SortMatches(found.value);
    var i := 1;
    while i < |matches|
      invariant 1 <= i && FirstOverlap(matches, 1) == FirstOverlap(matches, i)
    {
      if matches[i - 1].index + matches[i - 1].length > matches[i].index {
        return Failure(Overlapping(matches[i - 1].edit, matches[i].edit));
      }
      i := i + 1;
    }
    return Success(matches);
  }

  /** The hunk leaves out the lines the two texts begin and end with in common, but for its context. */
  ghost predicate IsDiff(hunk: Diff.Hunk<Text>, oldLines: seq<Text>, newLines: seq<Text>) {
    exists prefix: nat, suffix: nat ::
      Diff.InCommon(oldLines, newLines, prefix, suffix) && hunk == Diff.HunkFor(oldLines, newLines, prefix, suffix)
  }

  /** The edited file, and the patch that turns the lines it had, endings normalised, into those it has now. */
  method ApplyFileEdits(raw: Text, edits: seq<Edit>) returns (result: Result<Text, EditError>, patch: Option<Diff.Hunk<Text>>)
    ensures result == ApplyEdits(raw, edits)
    ensures result.Success? ==>
      var base := NormalizeLF(Body(raw));
      && AcceptedIn(base, edits).Success? && patch.Some?
      && Diff.Apply(patch.value, Lines.Split(base, '\n')) ==
         Some(Lines.Split(Replace(base, AcceptedIn(base, edits).value, 0), '\n'))
    ensures result.Success? ==>
      var base := NormalizeLF(Body(raw));
      IsDiff(patch.value, Lines.Split(base, '\n'), Lines.Split(Replace(base, AcceptedIn(base, edits).value, 0), '\n'))
  {
    hide AcceptedIn, Replace, NormalizeLF, LFToCRLF, UsesCRLF, Lines.Split, Diff.Apply, Diff.InCommon, Diff.HunkFor;
    var body, bom := raw, "";
    if |raw| > 0 && raw[0] == BOM {
      body, bom := raw[1..], [BOM];
    }
    var crlf := UsesCRLF(body);
    var base := NormalizeLF(body);
    var matches := AcceptEdits(base, edits);
    if matches.Failure? {
      return Failure(matches.error), None;
    }
    var updated := Splice(base, matches.value);
    if updated == base {
      return Failure(NoChange), None;
    }
    var hunk, firstLine, suffix := Diff.RenderEditDiff(base, updated);
    assert IsDiff(hunk, Lines.Split(base, '\n'), Lines.Split(updated, '\n'));
    if crlf {
      updated := LFToCRLF(updated);
    }
    return Success(bom + updated), Some(hunk);
  }
}
