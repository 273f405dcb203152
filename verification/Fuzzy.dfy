/**
 The tolerant reading of a text used when an edit does not match exactly: spaces
 at line ends disappear, typographic quotes, dashes and spaces become plain ones,
 and an offset map leads back to the original.
 */
module Fuzzy {
  type Text = string

  /** The white space of Unicode. */
  predicate IsSpace(c: char) {
    || '\t' <= c <= '\r' || c == ' ' || c == '\U{0085}' || c == '\U{00A0}' || c == '\U{1680}'
    || '\U{2000}' <= c <= '\U{200A}' || c == '\U{2028}' || c == '\U{2029}' || c == '\U{202F}' || c == '\U{205F}'
    || c == '\U{3000}'
  }

  predicate Blank(t: Text) {
    forall k :: 0 <= k < |t| ==> IsSpace(t[k])
  }

  function FuzzyRune(c: char): (r: char)
    ensures r == '\n' <==> c == '\n'
    ensures IsSpace(r) <==> IsSpace(c)
  {
    if '\U{2018}' <= c <= '\U{201B}' then '\''
    else if '\U{201C}' <= c <= '\U{201F}' then '"'
    else if '\U{2010}' <= c <= '\U{2015}' || c == '\U{2212}' then '-'
    else if c == '\U{00A0}' || '\U{2002}' <= c <= '\U{200A}' || c == '\U{202F}' || c == '\U{205F}' || c == '\U{3000}' then ' '
    else c
  }

  /** From a position to the end of its line there is something other than white space. */
  predicate RestHasText(v: Text, k: nat)
    decreases |v| - k
  {
    k < |v| && v[k] != '\n' && (!IsSpace(v[k]) || RestHasText(v, k + 1))
  }

  predicate Kept(v: Text, k: nat)
    requires k < |v|
  {
    v[k] == '\n' || RestHasText(v, k)
  }

  function KeptBelow(v: Text, n: nat): (ps: seq<nat>)
    requires n <= |v|
    ensures forall i :: 0 <= i < |ps| ==> ps[i] < n
    ensures forall i, j :: 0 <= i < j < |ps| ==> ps[i] < ps[j]
  {
    if n == 0 then [] else KeptBelow(v, n - 1) + if Kept(v, n - 1) then [n - 1] else []
  }

  function Picked(v: Text, ps: seq<nat>): (t: Text)
    requires forall i :: 0 <= i < |ps| ==> ps[i] < |v|
    ensures |t| == |ps| && forall i :: 0 <= i < |t| ==> t[i] == FuzzyRune(v[ps[i]])
  {
    seq(|ps|, i requires 0 <= i < |ps| => FuzzyRune(v[ps[i]]))
  }

  function Norm(v: Text): Text {
    Picked(v, KeptBelow(v, |v|))
  }

  /** Where each character of the tolerant reading comes from, and where the text ends. */
  function Offsets(v: Text): seq<nat> {
    KeptBelow(v, |v|) + [|v|]
  }

  // ---------------------------------------------------------------- reading a text

  method FindNewline(v: Text, from: nat) returns (end: nat, found: bool)
    requires from <= |v|
    ensures from <= end <= |v| && (found <==> end < |v|)
    ensures forall k :: from <= k < end ==> v[k] != '\n'
    ensures found ==> v[end] == '\n'
  {
    end := from;
    while end < |v|
      invariant from <= end <= |v|
      invariant forall k :: from <= k < end ==> v[k] != '\n'
    {
      if v[end] == '\n' {
        return end, true;
      }
      end := end + 1;
    }
    found := false;
  }

  /** Drops the white space at the end of one line. */
  method TrimLine(v: Text, lineStart: nat, lineEnd: nat) returns (trimmedEnd: nat)
    requires lineStart <= lineEnd <= |v| && (lineEnd < |v| ==> v[lineEnd] == '\n')
    requires forall k :: lineStart <= k < lineEnd ==> v[k] != '\n'
    ensures lineStart <= trimmedEnd <= lineEnd
    ensures forall k :: lineStart <= k < lineEnd ==> (Kept(v, k) <==> k < trimmedEnd)
  {
    trimmedEnd := lineEnd;
    while trimmedEnd > lineStart
      invariant lineStart <= trimmedEnd <= lineEnd
      invariant !RestHasText(v, trimmedEnd)
      invariant forall k :: trimmedEnd <= k < lineEnd ==> !Kept(v, k)
    {
      if !IsSpace(v[trimmedEnd - 1]) {
        break;
      }
      trimmedEnd := trimmedEnd - 1;
    }
    if trimmedEnd > lineStart {
      forall k | lineStart <= k < trimmedEnd ensures Kept(v, k) {
        TextFrom(v, k, trimmedEnd - 1);
      }
    }
  }

  lemma {:induction false} TextFrom(v: Text, k: nat, t: nat)
    requires k <= t < |v| && !IsSpace(v[t])
    requires forall j :: k <= j < t ==> v[j] != '\n'
    ensures RestHasText(v, k)
    decreases t - k
  {
    if k < t {
      TextFrom(v, k + 1, t);
    }
  }

  method NormalizeFuzzy(value: Text) returns (out: Text, boundaries: seq<nat>)
    ensures out == Norm(value) && boundaries == Offsets(value)
  {
    hide Kept, KeptBelow, Picked;
    out, boundaries := "", [0];
    var lineStart := 0;
    NothingKept(value);
    while true
      invariant 0 <= lineStart <= |value|
      invariant |boundaries| > 0 && boundaries[..|boundaries| - 1] == KeptBelow(value, lineStart)
      invariant out == Picked(value, KeptBelow(value, lineStart))
      decreases |value| - lineStart
    {
      var lineEnd, hasNewline := FindNewline(value, lineStart);
      var trimmedEnd := TrimLine(value, lineStart, lineEnd);
      for offset := lineStart to trimmedEnd
        invariant |boundaries| > 0 && boundaries[..|boundaries| - 1] == KeptBelow(value, offset)
        invariant out == Picked(value, KeptBelow(value, offset))
      {
        OneMoreKept(value, offset);
        boundaries := boundaries[..|boundaries| - 1] + [offset] + [offset + 1];
        out := out + [FuzzyRune(value[offset])];
      }
      SkippedKeepsNone(value, trimmedEnd, lineEnd);
      if !hasNewline {
        break;
      }
      NewlineKept(value, lineEnd);
      OneMoreKept(value, lineEnd);
      boundaries := boundaries[..|boundaries| - 1] + [lineEnd] + [lineEnd + 1];
      out := out + ['\n'];
      lineStart := lineEnd + 1;
    }
    boundaries := boundaries[..|boundaries| - 1] + [|value|];
  }

  lemma NothingKept(v: Text)
    ensures KeptBelow(v, 0) == [] && Picked(v, KeptBelow(v, 0)) == ""
  {
  }

  lemma OneMoreKept(v: Text, k: nat)
    requires k < |v| && Kept(v, k)
    ensures KeptBelow(v, k + 1) == KeptBelow(v, k) + [k]
    ensures Picked(v, KeptBelow(v, k + 1)) == Picked(v, KeptBelow(v, k)) + [FuzzyRune(v[k])]
  {
  }

  lemma NewlineKept(v: Text, k: nat)
    requires k < |v| && v[k] == '\n'
    ensures Kept(v, k) && FuzzyRune(v[k]) == '\n'
  {
  }

  lemma {:induction false} SkippedKeepsNone(v: Text, from: nat, to: nat)
    requires from <= to <= |v| && forall k :: from <= k < to ==> !Kept(v, k)
    ensures KeptBelow(v, to) == KeptBelow(v, from)
  {
    hide Kept;
    if from < to {
      SkippedKeepsNone(v, from, to - 1);
    }
  }
}
