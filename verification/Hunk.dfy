/** The unified hunk shown for an edit: one change with up to four lines of context around it. */
module Hunk {
  import opened Lines
  import opened Wrappers

  const CONTEXT_LINES: nat := 4

  datatype Line<T> = Context(text: T) | Removed(text: T) | Added(text: T)

  datatype Hunk<T> = Hunk(oldStart: nat, oldCount: nat, newStart: nat, newCount: nat, body: seq<Line<T>>)

  // ---------------------------------------------------------------- reading a hunk

  /** The lines a hunk says were there before. */
  function OldSide<T>(body: seq<Line<T>>): seq<T> {
    if body == [] then []
    else OldSide(body[..|body| - 1]) + if body[|body| - 1].Added? then [] else [body[|body| - 1].text]
  }

  /** The lines a hunk says are there after. */
  function NewSide<T>(body: seq<Line<T>>): seq<T> {
    if body == [] then []
    else NewSide(body[..|body| - 1]) + if body[|body| - 1].Removed? then [] else [body[|body| - 1].text]
  }

  /** A patch tool accepts a hunk when its counts are right and its old side stands where the header says. */
  function Apply<T(==)>(hunk: Hunk<T>, lines: seq<T>): Option<seq<T>> {
    if |OldSide(hunk.body)| != hunk.oldCount || |NewSide(hunk.body)| != hunk.newCount || hunk.oldStart == 0 then None
    else
      var at := hunk.oldStart - 1;
      if at + hunk.oldCount > |lines| || lines[at..at + hunk.oldCount] != OldSide(hunk.body) then None
      else Some(lines[..at] + NewSide(hunk.body) + lines[at + hunk.oldCount..])
  }

  // ---------------------------------------------------------------- writing one

  method CommonPrefix<T(==)>(oldLines: seq<T>, newLines: seq<T>) returns (prefix: nat)
    ensures prefix <= |oldLines| && prefix <= |newLines| && oldLines[..prefix] == newLines[..prefix]
    ensures prefix < |oldLines| && prefix < |newLines| ==> oldLines[prefix] != newLines[prefix]
  {
    prefix := 0;
    while prefix < |oldLines| && prefix < |newLines| && oldLines[prefix] == newLines[prefix]
      invariant prefix <= |oldLines| && prefix <= |newLines| && oldLines[..prefix] == newLines[..prefix]
    {
      prefix := prefix + 1;
    }
  }

  /** `prefix` and `suffix` count the lines the two texts begin and end with in common, the prefix taken first. */
  predicate InCommon<T(==)>(oldLines: seq<T>, newLines: seq<T>, prefix: nat, suffix: nat) {
    && prefix + suffix <= |oldLines| && prefix + suffix <= |newLines|
    && oldLines[..prefix] == newLines[..prefix]
    && oldLines[|oldLines| - suffix..] == newLines[|newLines| - suffix..]
    && (prefix < |oldLines| && prefix < |newLines| ==> oldLines[prefix] != newLines[prefix])
    && (prefix + suffix < |oldLines| && prefix + suffix < |newLines| ==>
          oldLines[|oldLines| - 1 - suffix] != newLines[|newLines| - 1 - suffix])
  }

  method CommonSuffix<T(==)>(oldLines: seq<T>, newLines: seq<T>, prefix: nat) returns (suffix: nat)
    requires prefix <= |oldLines| && prefix <= |newLines| && oldLines[..prefix] == newLines[..prefix]
    requires prefix < |oldLines| && prefix < |newLines| ==> oldLines[prefix] != newLines[prefix]
    ensures prefix + suffix <= |oldLines| && prefix + suffix <= |newLines|
    ensures InCommon(oldLines, newLines, prefix, suffix)
  {
    suffix := 0;
    while suffix < |oldLines| - prefix && suffix < |newLines| - prefix &&
          oldLines[|oldLines| - 1 - suffix] == newLines[|newLines| - 1 - suffix]
      invariant suffix <= |oldLines| - prefix && suffix <= |newLines| - prefix
      invariant oldLines[|oldLines| - suffix..] == newLines[|newLines| - suffix..]
    {
      assert oldLines[|oldLines| - suffix - 1..] == [oldLines[|oldLines| - 1 - suffix]] + oldLines[|oldLines| - suffix..];
      assert newLines[|newLines| - suffix - 1..] == [newLines[|newLines| - 1 - suffix]] + newLines[|newLines| - suffix..];
      suffix := suffix + 1;
    }
  }

  datatype Sign = Keep | Drop | Insert

  function Marked<T>(sign: Sign, lines: seq<T>): (body: seq<Line<T>>)
  {
    if lines == [] then []
    else
      var text := lines[|lines| - 1];
      Marked(sign, lines[..|lines| - 1]) + [match sign case Keep => Context(text) case Drop => Removed(text) case Insert => Added(text)]
  }

  method WriteLines<T>(body: seq<Line<T>>, sign: Sign, lines: seq<T>, from: nat, to: nat) returns (more: seq<Line<T>>)
    requires from <= to <= |lines|
    ensures more == body + Marked(sign, lines[from..to])
  {
    more := body;
    for i := from to to
      invariant more == body + Marked(sign, lines[from..i])
    {
      assert lines[from..i + 1][..i - from] == lines[from..i];
      var line := match sign case Keep => Context(lines[i]) case Drop => Removed(lines[i]) case Insert => Added(lines[i]);
      more := more + [line];
    }
  }

  /** The bounds of a hunk: its first line, and where the common end and the lines after the hunk begin on either side. */
  datatype Bounds = Bounds(start: nat, prefix: nat, o: nat, oldEnd: nat, n: nat, newEnd: nat)

  function BoundsOf<T>(oldLines: seq<T>, newLines: seq<T>, prefix: nat, suffix: nat): (b: Bounds)
    requires prefix + suffix <= |oldLines| && prefix + suffix <= |newLines|
    ensures b.start <= prefix == b.prefix <= b.o <= b.oldEnd <= |oldLines| && prefix <= b.n <= b.newEnd <= |newLines|
    ensures b.newEnd - b.n == b.oldEnd - b.o
  {
    Bounds(Max(0, prefix - CONTEXT_LINES), prefix,
           |oldLines| - suffix, Min(|oldLines|, |oldLines| - suffix + CONTEXT_LINES),
           |newLines| - suffix, Min(|newLines|, |newLines| - suffix + CONTEXT_LINES))
  }

  /** The hunk for two texts that agree on their first and last lines. */
  function HunkFor<T>(oldLines: seq<T>, newLines: seq<T>, prefix: nat, suffix: nat): Hunk<T>
    requires prefix + suffix <= |oldLines| && prefix + suffix <= |newLines|
  {
    var b := BoundsOf(oldLines, newLines, prefix, suffix);
    Hunk(b.start + 1, b.oldEnd - b.start, b.start + 1, b.newEnd - b.start,
         Marked(Keep, oldLines[b.start..b.prefix]) + Marked(Drop, oldLines[b.prefix..b.o]) +
         Marked(Insert, newLines[b.prefix..b.n]) + Marked(Keep, newLines[b.n..b.newEnd]))
  }

  method WriteBody<T>(oldLines: seq<T>, newLines: seq<T>, start: nat, prefix: nat, o: nat, n: nat, newEnd: nat)
    returns (body: seq<Line<T>>)
    requires start <= prefix <= o <= |oldLines| && prefix <= n <= newEnd <= |newLines|
    ensures body == Marked(Keep, oldLines[start..prefix]) + Marked(Drop, oldLines[prefix..o]) +
                    Marked(Insert, newLines[prefix..n]) + Marked(Keep, newLines[n..newEnd])
  {
    hide Marked;
    body := WriteLines([], Keep, oldLines, start, prefix);
    assert body == Marked(Keep, oldLines[start..prefix]);
    body := WriteLines(body, Drop, oldLines, prefix, o);
    body := WriteLines(body, Insert, newLines, prefix, n);
    body := WriteLines(body, Keep, newLines, n, newEnd);
  }

  // ---------------------------------------------------------------- the hunk is right

  lemma {:induction false} OldSideSplit<T>(a: seq<Line<T>>, b: seq<Line<T>>)
    ensures OldSide(a + b) == OldSide(a) + OldSide(b)
  {
    if b == [] {
      assert a + b == a;
    } else {
      OldSideSplit(a, b[..|b| - 1]);
      assert (a + b)[..|a + b| - 1] == a + b[..|b| - 1];
    }
  }

  lemma {:induction false} NewSideSplit<T>(a: seq<Line<T>>, b: seq<Line<T>>)
    ensures NewSide(a + b) == NewSide(a) + NewSide(b)
  {
    if b == [] {
      assert a + b == a;
    } else {
      NewSideSplit(a, b[..|b| - 1]);
      assert (a + b)[..|a + b| - 1] == a + b[..|b| - 1];
    }
  }

  lemma {:induction false} SidesOfMarked<T>(sign: Sign, lines: seq<T>)
    ensures OldSide(Marked(sign, lines)) == if sign.Insert? then [] else lines
    ensures NewSide(Marked(sign, lines)) == if sign.Drop? then [] else lines
  {
    if lines != [] {
      SidesOfMarked(sign, lines[..|lines| - 1]);
      var body := Marked(sign, lines);
      assert body[..|body| - 1] == Marked(sign, lines[..|lines| - 1]);
    }
  }

  lemma SidesOfFour<T>(a: seq<T>, b: seq<T>, c: seq<T>, d: seq<T>)
    ensures var body := Marked(Keep, a) + Marked(Drop, b) + Marked(Insert, c) + Marked(Keep, d);
      OldSide(body) == a + b + d && NewSide(body) == a + c + d
  {
    hide Marked, OldSide, NewSide;
    SidesOfMarked(Keep, a);
    SidesOfMarked(Drop, b);
    SidesOfMarked(Insert, c);
    SidesOfMarked(Keep, d);
    OldSideSplit(Marked(Keep, a) + Marked(Drop, b) + Marked(Insert, c), Marked(Keep, d));
    NewSideSplit(Marked(Keep, a) + Marked(Drop, b) + Marked(Insert, c), Marked(Keep, d));
    OldSideSplit(Marked(Keep, a) + Marked(Drop, b), Marked(Insert, c));
    NewSideSplit(Marked(Keep, a) + Marked(Drop, b), Marked(Insert, c));
    OldSideSplit(Marked(Keep, a), Marked(Drop, b));
    NewSideSplit(Marked(Keep, a), Marked(Drop, b));
  }

  /** One side of a text put together from the stretches of the hunk. */
  lemma Stretches<T>(s: seq<T>, i: nat, j: nat, k: nat, l: nat)
    requires i <= j <= k <= l <= |s|
    ensures s[i..j] + s[j..k] + s[k..l] == s[i..l]
    ensures s[..i] + s[i..l] + s[l..] == s
  {
  }

  lemma SameTail<T>(s: seq<T>, t: seq<T>, n: nat, m: nat)
    requires m <= n <= |s| && n <= |t| && s[|s| - n..] == t[|t| - n..]
    ensures s[|s| - n..|s| - n + m] == t[|t| - n..|t| - n + m] && s[|s| - n + m..] == t[|t| - n + m..]
  {
    assert s[|s| - n..|s| - n + m] == s[|s| - n..][..m];
    assert t[|t| - n..|t| - n + m] == t[|t| - n..][..m];
    assert s[|s| - n + m..] == s[|s| - n..][m..];
    assert t[|t| - n + m..] == t[|t| - n..][m..];
  }

  lemma SameHead<T>(s: seq<T>, t: seq<T>, n: nat, m: nat)
    requires m <= n <= |s| && n <= |t| && s[..n] == t[..n]
    ensures s[m..n] == t[m..n] && s[..m] == t[..m]
  {
    assert s[m..n] == s[..n][m..];
    assert t[m..n] == t[..n][m..];
    assert s[..m] == s[..n][..m];
    assert t[..m] == t[..n][..m];
  }

  lemma PatchFits<T>(hunk: Hunk<T>, oldLines: seq<T>, newLines: seq<T>, start: nat, o: nat, n: nat)
    requires start <= o <= |oldLines| && start <= n <= |newLines|
    requires hunk.oldStart == start + 1 && hunk.oldCount == o - start && hunk.newCount == n - start
    requires OldSide(hunk.body) == oldLines[start..o] && NewSide(hunk.body) == newLines[start..n]
    requires oldLines[..start] == newLines[..start] && oldLines[o..] == newLines[n..]
    ensures Apply(hunk, oldLines) == Some(newLines)
  {
    hide OldSide, NewSide;
    assert newLines == newLines[..start] + newLines[start..n] + newLines[n..];
  }

  lemma HunkHeader<T>(oldLines: seq<T>, newLines: seq<T>, prefix: nat, suffix: nat)
    requires |oldLines| > 0 && |newLines| > 0 && prefix + suffix <= |oldLines| && prefix + suffix <= |newLines|
    ensures var hunk := HunkFor(oldLines, newLines, prefix, suffix);
      var b := BoundsOf(oldLines, newLines, prefix, suffix);
      && hunk.oldStart == b.start + 1 && 0 < hunk.oldCount == b.oldEnd - b.start && 0 < hunk.newCount == b.newEnd - b.start
      && hunk.body == Marked(Keep, oldLines[b.start..b.prefix]) + Marked(Drop, oldLines[b.prefix..b.o]) +
                      Marked(Insert, newLines[b.prefix..b.n]) + Marked(Keep, newLines[b.n..b.newEnd])
  {
    hide Marked;
  }

  lemma HunkSides<T>(oldLines: seq<T>, newLines: seq<T>, b: Bounds)
    requires b.start <= b.prefix <= b.o <= b.oldEnd <= |oldLines| && b.prefix <= b.n <= b.newEnd <= |newLines|
    requires oldLines[b.start..b.prefix] == newLines[b.start..b.prefix]
    requires oldLines[b.o..b.oldEnd] == newLines[b.n..b.newEnd]
    ensures var body := Marked(Keep, oldLines[b.start..b.prefix]) + Marked(Drop, oldLines[b.prefix..b.o]) +
                        Marked(Insert, newLines[b.prefix..b.n]) + Marked(Keep, newLines[b.n..b.newEnd]);
      OldSide(body) == oldLines[b.start..b.oldEnd] && NewSide(body) == newLines[b.start..b.newEnd]
  {
    hide Marked, OldSide, NewSide;
    SidesOfFour(oldLines[b.start..b.prefix], oldLines[b.prefix..b.o], newLines[b.prefix..b.n], newLines[b.n..b.newEnd]);
    Stretches(oldLines, b.start, b.prefix, b.o, b.oldEnd);
    Stretches(newLines, b.start, b.prefix, b.n, b.newEnd);
  }

  lemma CommonAtBounds<T>(oldLines: seq<T>, newLines: seq<T>, prefix: nat, suffix: nat)
    requires InCommon(oldLines, newLines, prefix, suffix)
    ensures prefix + suffix <= |oldLines| && prefix + suffix <= |newLines|
    ensures var b := BoundsOf(oldLines, newLines, prefix, suffix);
      && oldLines[..b.start] == newLines[..b.start] && oldLines[b.start..b.prefix] == newLines[b.start..b.prefix]
      && oldLines[b.o..b.oldEnd] == newLines[b.n..b.newEnd] && oldLines[b.oldEnd..] == newLines[b.newEnd..]
  {
    var b := BoundsOf(oldLines, newLines, prefix, suffix);
    SameHead(oldLines, newLines, prefix, b.start);
    SameTail(oldLines, newLines, suffix, b.oldEnd - b.o);
  }

  /** Whatever the two texts are, the header counts the lines that follow, neither count is zero, and the hunk applied to
      the old lines gives exactly the new ones. */
  lemma HunkIsRight<T>(oldLines: seq<T>, newLines: seq<T>, prefix: nat, suffix: nat)
    requires |oldLines| > 0 && |newLines| > 0 && InCommon(oldLines, newLines, prefix, suffix)
    ensures prefix + suffix <= |oldLines| && prefix + suffix <= |newLines|
    ensures var hunk := HunkFor(oldLines, newLines, prefix, suffix);
      hunk.oldCount > 0 && hunk.newCount > 0 && Apply(hunk, oldLines) == Some(newLines)
  {
    hide Marked, OldSide, NewSide, Apply, HunkFor, InCommon, BoundsOf;
    CommonAtBounds(oldLines, newLines, prefix, suffix);
    HunkHeader(oldLines, newLines, prefix, suffix);
    var b := BoundsOf(oldLines, newLines, prefix, suffix);
    HunkSides(oldLines, newLines, b);
    PatchFits(HunkFor(oldLines, newLines, prefix, suffix), oldLines, newLines, b.start, b.oldEnd, b.newEnd);
  }

  lemma {:induction false} MarkedAre<T>(sign: Sign, lines: seq<T>)
    ensures |Marked(sign, lines)| == |lines|
    ensures forall k :: 0 <= k < |lines| ==>
              Marked(sign, lines)[k] == match sign case Keep => Context(lines[k]) case Drop => Removed(lines[k]) case Insert => Added(lines[k])
  {
    if lines != [] {
      MarkedAre(sign, lines[..|lines| - 1]);
    }
  }

  /** A hunk shows, in this order, up to four of the lines in common before the change, the lines taken out, the lines put in, and
      up to four of the lines in common after it; its header says at which line it starts and how many it spans on either side. */
  lemma HunkShows<T>(oldLines: seq<T>, newLines: seq<T>, prefix: nat, suffix: nat)
    requires prefix + suffix <= |oldLines| && prefix + suffix <= |newLines|
    ensures var before, after := Min(4, prefix), Min(4, suffix);
      var removed, added := |oldLines| - suffix - prefix, |newLines| - suffix - prefix;
      var hunk := HunkFor(oldLines, newLines, prefix, suffix);
      && hunk.oldStart == hunk.newStart == prefix - before + 1
      && hunk.oldCount == before + removed + after && hunk.newCount == before + added + after
      && |hunk.body| == before + removed + added + after
      && (forall i :: 0 <= i < before ==> hunk.body[i] == Context(oldLines[prefix - before + i]))
      && (forall i :: before <= i < before + removed ==> hunk.body[i] == Removed(oldLines[prefix + i - before]))
      && (forall i :: before + removed <= i < before + removed + added ==>
            hunk.body[i] == Added(newLines[prefix + i - before - removed]))
      && (forall i :: before + removed + added <= i < |hunk.body| ==>
            hunk.body[i] == Context(newLines[|newLines| - suffix + i - before - removed - added]))
  {
    hide Marked;
    var b := BoundsOf(oldLines, newLines, prefix, suffix);
    MarkedAre(Keep, oldLines[b.start..b.prefix]);
    MarkedAre(Drop, oldLines[b.prefix..b.o]);
    MarkedAre(Insert, newLines[b.prefix..b.n]);
    MarkedAre(Keep, newLines[b.n..b.newEnd]);
  }

  method DiffLines<T(==)>(oldLines: seq<T>, newLines: seq<T>) returns (hunk: Hunk<T>, prefix: nat, ghost suffix: nat)
    ensures InCommon(oldLines, newLines, prefix, suffix)
    ensures hunk == HunkFor(oldLines, newLines, prefix, suffix)
  {
    hide Marked;
    prefix := CommonPrefix(oldLines, newLines);
    var same := CommonSuffix(oldLines, newLines, prefix);
    var contextStart := Max(0, prefix - CONTEXT_LINES);
    var oldEnd := Min(|oldLines|, |oldLines| - same + CONTEXT_LINES);
    var newEnd := Min(|newLines|, |newLines| - same + CONTEXT_LINES);
    var body := WriteBody(oldLines, newLines, contextStart, prefix, |oldLines| - same, |newLines| - same, newEnd);
    hunk := Hunk(contextStart + 1, oldEnd - contextStart, contextStart + 1, newEnd - contextStart, body);
    suffix := same;
  }

  method RenderEditDiff(oldText: string, newText: string) returns (hunk: Hunk<string>, firstLine: nat, ghost suffix: nat)
    ensures var (oldLines, newLines) := (Split(oldText, '\n'), Split(newText, '\n'));
      && firstLine > 0 && InCommon(oldLines, newLines, firstLine - 1, suffix)
      && hunk == HunkFor(oldLines, newLines, firstLine - 1, suffix)
    ensures hunk.oldCount > 0 && hunk.newCount > 0 && Apply(hunk, Split(oldText, '\n')) == Some(Split(newText, '\n'))
  {
    hide Split, InCommon, Apply, HunkFor;
    var oldLines, newLines := Split(oldText, '\n'), Split(newText, '\n');
    var prefix;
    hunk, prefix, suffix := DiffLines(oldLines, newLines);
    firstLine := prefix + 1;
    HunkIsRight(oldLines, newLines, prefix, suffix);
  }

  /** The patched lines joined again are the new text. */
  lemma PatchGivesTheNewText(oldText: string, newText: string, hunk: Hunk<string>)
    requires Apply(hunk, Split(oldText, '\n')) == Some(Split(newText, '\n'))
    ensures Apply(hunk, Split(oldText, '\n')).Some? && |Apply(hunk, Split(oldText, '\n')).value| > 0
    ensures Join(Apply(hunk, Split(oldText, '\n')).value, '\n') == newText
  {
    JoinSplit(newText, '\n');
  }
}
