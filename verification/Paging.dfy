/** Cutting a text to a number of lines and bytes, and reading a file page by page. */
module Paging {
  import opened Lines
  import opened Wrappers

  type Text = seq<Byte>

  const NEWLINE: Byte := 10
  const MAX_LINES: nat := 2000
  const MAX_BYTES: nat := 50 * 1024

  datatype By = Nothing | ByLines | ByBytes

  datatype Truncation = Truncation(content: Text, truncated: bool, cause: By, totalLines: nat, totalBytes: nat,
                                   outputLines: nat, outputBytes: nat, firstLineExceeds: bool, partial: bool)

  function JoinLines(lines: seq<Text>): Text {
    if lines == [] then [] else Join(lines, NEWLINE)
  }

  /** The lines of a text; a newline at its end does not begin another one. */
  function SplitCountLines(content: Text): seq<Text> {
    if content == [] then []
    else
      var lines := Split(content, NEWLINE);
      if content[|content| - 1] == NEWLINE then lines[..|lines| - 1] else lines
  }

  /** What a line adds to the lines before it. */
  function LineBytes(lines: seq<Text>, i: nat): nat
    requires i < |lines|
  {
    |lines[i]| + if i > 0 then 1 else 0
  }

  /** How many lines fit, the first `i` of them taking `size` bytes, and whether it is the bytes that stop them. */
  function Fitting(lines: seq<Text>, i: nat, size: nat, maxLines: nat, maxBytes: nat): (r: (nat, By))
    requires i <= |lines|
    ensures i <= r.0 <= |lines|
    decreases |lines| - i
  {
    if i == |lines| || i >= maxLines then (i, ByLines)
    else if size + LineBytes(lines, i) > maxBytes then (i, ByBytes)
    else Fitting(lines, i + 1, size + LineBytes(lines, i), maxLines, maxBytes)
  }

  function TruncatedHead(content: Text, maxLines: nat, maxBytes: nat): Truncation {
    var lines := SplitCountLines(content);
    if |lines| <= maxLines && |content| <= maxBytes then
      Truncation(content, false, Nothing, |lines|, |content|, |lines|, |content|, false, false)
    else if |lines| > 0 && |lines[0]| > maxBytes then
      Truncation([], true, ByBytes, |lines|, |content|, 0, 0, true, false)
    else
      var (count, cause) := Fitting(lines, 0, 0, maxLines, maxBytes);
      var kept := JoinLines(lines[..count]);
      Truncation(kept, true, cause, |lines|, |content|, count, |kept|, false, false)
  }

  method TruncateHead(content: Text, maxLines: nat, maxBytes: nat) returns (result: Truncation)
    ensures result == TruncatedHead(content, maxLines, maxBytes)
  {
    var lines := SplitCountLines(content);
    result := Truncation(content, false, Nothing, |lines|, |content|, |lines|, |content|, false, false);
    if |lines| <= maxLines && |content| <= maxBytes {
      return;
    }
    if |lines| > 0 && |lines[0]| > maxBytes {
      return Truncation([], true, ByBytes, |lines|, |content|, 0, 0, true, false);
    }
    var out: seq<Text> := [];
    var size: nat := 0;
    var cause := ByLines;
    while |out| < |lines|
      invariant |out| <= |lines| && out == lines[..|out|] && cause == ByLines
      invariant Fitting(lines, 0, 0, maxLines, maxBytes) == Fitting(lines, |out|, size, maxLines, maxBytes)
    {
      var i := |out|;
      if i >= maxLines {
        break;
      }
      var lineBytes := |lines[i]|;
      if |out| > 0 {
        lineBytes := lineBytes + 1;
      }
      if size + lineBytes > maxBytes {
        cause := ByBytes;
        break;
      }
      out := out + [lines[i]];
      size := size + lineBytes;
    }
    var kept := JoinLines(out);
    result := Truncation(kept, true, cause, |lines|, |content|, |out|, |kept|, false, false);
  }

  // ---------------------------------------------------------------- the longest prefix

  lemma {:induction false} JoinSnoc(lines: seq<Text>, line: Text)
    requires |lines| > 0
    ensures Join(lines + [line], NEWLINE) == Join(lines, NEWLINE) + [NEWLINE] + line
  {
    var all := lines + [line];
    if |lines| == 1 {
      assert all[1..] == [line];
    } else {
      JoinSnoc(lines[1..], line);
      assert all[1..] == lines[1..] + [line];
    }
  }

  lemma JoinedSize(lines: seq<Text>, i: nat)
    requires i < |lines|
    ensures |JoinLines(lines[..i + 1])| == |JoinLines(lines[..i])| + LineBytes(lines, i)
  {
    hide Join;
    if i == 0 {
      assert lines[..1] == [lines[0]];
      JoinOne(lines[0]);
    } else {
      JoinSnoc(lines[..i], lines[i]);
      assert lines[..i + 1] == lines[..i] + [lines[i]];
    }
  }

  lemma JoinOne(line: Text)
    ensures Join([line], NEWLINE) == line
  {
  }

  predicate Fits(lines: seq<Text>, k: nat, maxLines: nat, maxBytes: nat)
    requires k <= |lines|
  {
    k <= maxLines && |JoinLines(lines[..k])| <= maxBytes
  }

  /** What is kept is the longest run of first lines within both limits, and the reason given is what stops it. */
  lemma {:induction false} FittingIsLongest(lines: seq<Text>, i: nat, maxLines: nat, maxBytes: nat)
    requires i <= |lines| && Fits(lines, i, maxLines, maxBytes)
    ensures var (k, cause) := Fitting(lines, i, |JoinLines(lines[..i])|, maxLines, maxBytes);
      && Fits(lines, k, maxLines, maxBytes)
      && (k < |lines| ==> !Fits(lines, k + 1, maxLines, maxBytes))
      && (cause == ByBytes <==> k < |lines| && k < maxLines)
    decreases |lines| - i
  {
    hide Join, JoinLines;
    if i < |lines| {
      JoinedSize(lines, i);
      if i < maxLines && |JoinLines(lines[..i])| + LineBytes(lines, i) <= maxBytes {
        FittingIsLongest(lines, i + 1, maxLines, maxBytes);
      }
    }
  }

  // ---------------------------------------------------------------- the end of a text

  /** A byte that begins a character in UTF-8. */
  predicate RuneStart(b: Byte) {
    b < 128 || b >= 192
  }

  /** The last lines, as many as fit; of a last line that alone is too long, its last bytes from the beginning of a
      character on. */
  method TruncateTail(content: Text, maxLines: nat, maxBytes: nat) returns (result: Truncation)
    ensures var lines := SplitCountLines(content);
      if |lines| <= maxLines && |content| <= maxBytes then !result.truncated && result.content == content
      else
        && result.truncated
        && (!result.partial ==>
              && result.outputLines <= |lines| && result.outputLines <= maxLines
              && result.content == JoinLines(lines[|lines| - result.outputLines..]) && |result.content| <= maxBytes
              && (result.outputLines < |lines| && result.outputLines < maxLines ==>
                    |JoinLines(lines[|lines| - result.outputLines - 1..])| > maxBytes))
        && (result.partial ==>
              && result.outputLines == 1 && lines != [] && maxLines > 0 && |lines[|lines| - 1]| > maxBytes && |result.content| <= maxBytes
              && IsSuffix(result.content, lines[|lines| - 1])
              && (result.content != [] ==> RuneStart(result.content[0]))
              && NoneLonger(lines[|lines| - 1], |result.content|, maxBytes))
    ensures var lines := SplitCountLines(content);
      && result.totalLines == |lines| && result.totalBytes == |content| && result.outputBytes == |result.content|
      && !result.firstLineExceeds && (!result.truncated ==> result.outputLines == |lines| && !result.partial)
      && (result.cause == Nothing <==> !result.truncated)
      && (result.cause == ByBytes <==>
            result.truncated && (result.partial || (result.outputLines < |lines| && result.outputLines < maxLines)))
  {
    hide Split, Join;
    var lines := SplitCountLines(content);
    result := Truncation(content, false, Nothing, |lines|, |content|, |lines|, |content|, false, false);
    if |lines| <= maxLines && |content| <= maxBytes {
      return;
    }
    var out: seq<Text> := [];
    var size: nat := 0;
    var cause, partial := ByLines, false;
    var i := |lines|;
    assert lines[|lines|..] == [];
    while i > 0 && |out| < maxLines
      invariant 0 <= i <= |lines| && |out| == |lines| - i && |out| <= maxLines
      invariant out == lines[i..] && size == |JoinLines(out)| <= maxBytes
      invariant !partial && cause == ByLines
    {
      var line := lines[i - 1];
      var lineBytes := |line|;
      if |out| > 0 {
        lineBytes := lineBytes + 1;
      }
      assert lines[i - 1..] == [line] + out;
      JoinCons(line, out);
      if size + lineBytes > maxBytes {
        cause := ByBytes;
        if |out| == 0 {
          var end := LastBytes(line, maxBytes);
          out, partial := [end], true;
          JoinOne(end);
        }
        break;
      }
      out, size, i := [line] + out, size + lineBytes, i - 1;
    }
    var kept := JoinLines(out);
    result := Truncation(kept, true, cause, |lines|, |content|, |out|, |kept|, false, partial);
  }

  lemma JoinCons(line: Text, out: seq<Text>)
    ensures |JoinLines([line] + out)| == |line| + |JoinLines(out)| + if |out| > 0 then 1 else 0
  {
    assert ([line] + out)[1..] == out;
  }

  predicate IsSuffix(end: Text, line: Text) {
    |end| <= |line| && line[|line| - |end|..] == end
  }

  /** No longer run of last bytes within the limit begins at a character. */
  predicate NoneLonger(line: Text, size: nat, maxBytes: nat) {
    forall k :: 0 <= k && |line| - maxBytes <= k < |line| - size && k < |line| ==> !RuneStart(line[k])
  }

  method LastBytes(line: Text, maxBytes: nat) returns (end: Text)
    requires |line| > maxBytes
    ensures IsSuffix(end, line) && |end| <= maxBytes && (end != [] ==> RuneStart(end[0])) && NoneLonger(line, |end|, maxBytes)
  {
    var start := |line| - maxBytes;
    while start < |line| && !RuneStart(line[start])
      invariant |line| - maxBytes <= start <= |line|
      invariant forall k :: |line| - maxBytes <= k < start ==> !RuneStart(line[k])
    {
      start := start + 1;
    }
    end := line[start..];
  }

  // ---------------------------------------------------------------- reading a page

  datatype Page =
    | BeyondEnd(total: nat)
    | LineTooLong(line: nat)
    | Shown(content: Text, next: Option<nat>)

  /** One call of the read tool, with what it says about continuing. */
  method Read(data: Text, offset: int, limit: Option<int>) returns (page: Page)
    ensures page == ReadPage(data, offset, limit)
  {
    hide Split, TruncatedHead, JoinLines;
    var lines := Split(data, NEWLINE);
    var start := offset;
    if start < 1 {
      start := 1;
    }
    var end := |lines|;
    if limit.Some? {
      end := Min(end, Max(start - 1, start - 1 + limit.value));
    }
    if start > |lines| {
      return BeyondEnd(|lines|);
    }
    var truncated := TruncateHead(JoinLines(lines[start - 1..end]), MAX_LINES, MAX_BYTES);
    if truncated.firstLineExceeds {
      return LineTooLong(start);
    }
    if truncated.truncated {
      return Shown(truncated.content, Some(start + truncated.outputLines));
    }
    if limit.Some? && end < |lines| {
      return Shown(truncated.content, Some(end + 1));
    }
    return Shown(truncated.content, None);
  }

  function ReadPage(data: Text, offset: int, limit: Option<int>): Page {
    var lines := Split(data, NEWLINE);
    var start := Max(offset, 1);
    if start > |lines| then BeyondEnd(|lines|)
    else
      var end := if limit.Some? then Min(|lines|, Max(start - 1, start - 1 + limit.value)) else |lines|;
      var cut := TruncatedHead(JoinLines(lines[start - 1..end]), MAX_LINES, MAX_BYTES);
      if cut.firstLineExceeds then LineTooLong(start)
      else if cut.truncated then Shown(cut.content, Some(start + cut.outputLines))
      else Shown(cut.content, if limit.Some? && end < |lines| then Some(end + 1) else None)
  }

  // ---------------------------------------------------------------- every page leads on

  lemma {:induction false} JoinEndsWithNewline(lines: seq<Text>)
    requires |lines| > 0 && forall line :: line in lines ==> NEWLINE !in line
    ensures var s := Join(lines, NEWLINE);
      (s != [] && s[|s| - 1] == NEWLINE) <==> |lines| > 1 && lines[|lines| - 1] == []
  {
    var s := Join(lines, NEWLINE);
    if |lines| == 1 {
      assert lines[0] in lines;
      if s != [] {
        assert s[|s| - 1] in s;
      }
    } else {
      JoinEndsWithNewline(lines[1..]);
      var t := Join(lines[1..], NEWLINE);
      assert lines[1..][|lines| - 2] == lines[|lines| - 1];
      assert t != [] ==> s[|s| - 1] == t[|t| - 1];
      if |lines| == 2 {
        assert t == lines[1];
      } else {
        assert t == lines[1] + [NEWLINE] + Join(lines[1..][1..], NEWLINE);
      }
    }
  }

  /** The lines counted in a stretch of a file are its lines, but for an empty last one. */
  lemma CountedLines(stretch: seq<Text>)
    requires |stretch| > 0 && forall line :: line in stretch ==> NEWLINE !in line
    ensures SplitCountLines(JoinLines(stretch)) ==
            if stretch[|stretch| - 1] == [] then stretch[..|stretch| - 1] else stretch
  {
    hide Join, Split;
    SplitJoin(stretch, NEWLINE);
    JoinEndsWithNewline(stretch);
    EmptySplit();
    if |stretch| == 1 {
      assert stretch == [stretch[0]];
      JoinOne(stretch[0]);
    }
  }

  lemma EmptySplit()
    ensures Split([], NEWLINE) == [[]]
  {
  }

  /** Cutting a stretch of lines: nothing is cut, or its first line is too long, or its first lines are kept and at least
      one line is left. */
  lemma CutStretch(stretch: seq<Text>)
    requires |stretch| > 0 && forall line :: line in stretch ==> NEWLINE !in line
    ensures var cut := TruncatedHead(JoinLines(stretch), MAX_LINES, MAX_BYTES);
      && (cut.firstLineExceeds <==> |stretch[0]| > MAX_BYTES)
      && (!cut.truncated ==> cut.content == JoinLines(stretch) && |JoinLines(stretch)| <= MAX_BYTES)
      && (cut.truncated && !cut.firstLineExceeds ==>
            && 0 < cut.outputLines < |stretch| && cut.content == JoinLines(stretch[..cut.outputLines])
            && |cut.content| <= MAX_BYTES)
  {
    hide Join, Split, SplitCountLines, Fitting;
    CountedLines(stretch);
    var content := JoinLines(stretch);
    var lines := SplitCountLines(content);
    NoJoin();
    FirstInJoin(stretch);
    if |stretch| == 1 {
      assert stretch == [stretch[0]];
      JoinOne(stretch[0]);
    }
    if !(|lines| <= MAX_LINES && |content| <= MAX_BYTES) && lines != [] && |lines[0]| <= MAX_BYTES {
      assert lines[..0] == [];
      FittingIsLongest(lines, 0, MAX_LINES, MAX_BYTES);
      var count := Fitting(lines, 0, 0, MAX_LINES, MAX_BYTES).0;
      assert lines[..1] == [lines[0]];
      JoinOne(lines[0]);
      assert count > 0;
      assert lines[..count] == stretch[..count];
      assert lines[..|lines|] == lines;
    }
  }

  /** When something is left out, one more line would exceed a limit; what is shown exceeds neither. */
  lemma CutIsLongest(stretch: seq<Text>)
    requires |stretch| > 0 && |stretch[0]| <= MAX_BYTES && forall line :: line in stretch ==> NEWLINE !in line
    ensures var cut := TruncatedHead(JoinLines(stretch), MAX_LINES, MAX_BYTES);
      if cut.truncated then
        && 0 < cut.outputLines < |stretch| && cut.outputLines <= MAX_LINES && |JoinLines(stretch[..cut.outputLines])| <= MAX_BYTES
        && (cut.outputLines == MAX_LINES || |JoinLines(stretch[..cut.outputLines + 1])| > MAX_BYTES)
      else |SplitCountLines(JoinLines(stretch))| <= MAX_LINES && |JoinLines(stretch)| <= MAX_BYTES
  {
    hide Join, Split, SplitCountLines, Fitting, JoinLines;
    CutStretch(stretch);
    CountedLines(stretch);
    var content := JoinLines(stretch);
    var lines := SplitCountLines(content);
    var cut := TruncatedHead(content, MAX_LINES, MAX_BYTES);
    if cut.truncated {
      NoJoin();
      assert lines[..0] == [];
      FittingIsLongest(lines, 0, MAX_LINES, MAX_BYTES);
      if cut.outputLines < |lines| {
        assert lines[..cut.outputLines + 1] == stretch[..cut.outputLines + 1];
      } else {
        assert stretch[..cut.outputLines + 1] == stretch;
      }
      assert lines[..cut.outputLines] == stretch[..cut.outputLines];
    }
  }

  lemma NoJoin()
    ensures JoinLines([]) == []
  {
  }

  lemma FirstInJoin(stretch: seq<Text>)
    requires |stretch| > 0
    ensures |stretch[0]| <= |JoinLines(stretch)|
    ensures |stretch| > 1 ==> JoinLines(stretch) != []
  {
  }

  predicate Forward(limit: Option<int>) {
    limit.Some? ==> limit.value >= 1
  }

  /** A page is a stretch of the file's lines; the offset it gives for continuing is that of the first line not shown, and
      without one the file is at its end. */
  lemma PageIsStretch(data: Text, start: int, limit: Option<int>)
    requires 1 <= start <= |Split(data, NEWLINE)| && Forward(limit)
    ensures var lines, page := Split(data, NEWLINE), ReadPage(data, start, limit);
      && !page.BeyondEnd?
      && (page.LineTooLong? <==> |lines[start - 1]| > MAX_BYTES)
      && (page.Shown? ==>
            var end := if page.next.Some? then page.next.value - 1 else |lines|;
            && start <= end <= |lines| && (page.next.Some? ==> start < page.next.value <= |lines|)
            && page.content == JoinLines(lines[start - 1..end]) && |page.content| <= MAX_BYTES)
  {
    hide Split, TruncatedHead, JoinLines;
    var lines := Split(data, NEWLINE);
    SplitHasNoSeparator(data, NEWLINE);
    var end := if limit.Some? then Min(|lines|, Max(start - 1, start - 1 + limit.value)) else |lines|;
    var stretch := lines[start - 1..end];
    forall line | line in stretch ensures NEWLINE !in line {
      assert line in lines;
    }
    CutStretch(stretch);
    var cut := TruncatedHead(JoinLines(stretch), MAX_LINES, MAX_BYTES);
    if cut.truncated && !cut.firstLineExceeds {
      assert stretch[..cut.outputLines] == lines[start - 1..start - 1 + cut.outputLines];
    }
  }

  /** A limit below one shows nothing and gives the same offset again. */
  lemma NoLimitStalls(data: Text, start: int, limit: int)
    requires 1 <= start <= |Split(data, NEWLINE)| && limit < 1
    ensures ReadPage(data, start, Some(limit)) == Shown([], Some(start))
  {
    hide Split;
    assert Split(data, NEWLINE)[start - 1..start - 1] == [];
  }

  // ---------------------------------------------------------------- a whole file

  /** The pages met by following the offsets, unless one of them begins with a line too long to show. */
  function PagesFrom(data: Text, start: int, limit: Option<int>): (pages: Option<seq<Text>>)
    requires 1 <= start <= |Split(data, NEWLINE)| && Forward(limit)
    decreases |Split(data, NEWLINE)| - start
  {
    PageIsStretch(data, start, limit);
    match ReadPage(data, start, limit)
    case BeyondEnd(_) => None
    case LineTooLong(_) => None
    case Shown(content, None) => Some([content])
    case Shown(content, Some(next)) =>
      var rest := PagesFrom(data, next, limit);
      if rest.None? then None else Some([content] + rest.value)
  }

  lemma {:induction false} JoinAppend(a: seq<Text>, b: seq<Text>)
    requires |a| > 0 && |b| > 0
    ensures Join(a + b, NEWLINE) == Join(a, NEWLINE) + [NEWLINE] + Join(b, NEWLINE)
  {
    if |a| == 1 {
      assert (a + b)[1..] == b;
    } else {
      JoinAppend(a[1..], b);
      assert (a + b)[1..] == a[1..] + b;
    }
  }

  lemma {:induction false} PagesMakeTheRest(data: Text, start: int, limit: Option<int>)
    requires 1 <= start <= |Split(data, NEWLINE)| && Forward(limit)
    ensures var lines, pages := Split(data, NEWLINE), PagesFrom(data, start, limit);
      && (pages.Some? <==> forall k :: start - 1 <= k < |lines| ==> |lines[k]| <= MAX_BYTES)
      && (pages.Some? ==> pages.value != [] && Join(pages.value, NEWLINE) == Join(lines[start - 1..], NEWLINE))
    decreases |Split(data, NEWLINE)| - start
  {
    hide Split, ReadPage, Join;
    PageIsStretch(data, start, limit);
    var lines, page := Split(data, NEWLINE), ReadPage(data, start, limit);
    if page.Shown? {
      var end := if page.next.Some? then page.next.value - 1 else |lines|;
      ShownLinesFit(lines, start - 1, end);
      if page.next.Some? {
        PagesMakeTheRest(data, page.next.value, limit);
        var rest := PagesFrom(data, page.next.value, limit);
        assert lines[start - 1..] == lines[start - 1..end] + lines[end..];
        JoinAppend(lines[start - 1..end], lines[end..]);
        if rest.Some? {
          JoinAppend([page.content], rest.value);
          JoinOne(page.content);
        }
      } else {
        assert lines[start - 1..|lines|] == lines[start - 1..];
        JoinOne(page.content);
      }
    }
  }

  lemma {:induction false} ShownLinesFit(lines: seq<Text>, from: nat, end: nat)
    requires from < end <= |lines| && |JoinLines(lines[from..end])| <= MAX_BYTES
    ensures forall k :: from <= k < end ==> |lines[k]| <= MAX_BYTES
    decreases end - from
  {
    var stretch := lines[from..end];
    FirstInJoin(stretch);
    if end - from > 1 {
      assert stretch[1..] == lines[from + 1..end];
      ShownLinesFit(lines, from + 1, end);
    }
  }

  /** Following the offsets the tool gives, from the first line on, ends, and the pages joined by newlines are the file;
      it gets through exactly when no line of the file is longer than a page may be. */
  lemma PagesMakeTheFile(data: Text, limit: Option<int>)
    requires Forward(limit)
    ensures var lines, pages := Split(data, NEWLINE), PagesFrom(data, 1, limit);
      && (pages.Some? <==> forall line :: line in lines ==> |line| <= MAX_BYTES)
      && (pages.Some? ==> pages.value != [] && Join(pages.value, NEWLINE) == data)
  {
    hide Split, PagesFrom, Join;
    PagesMakeTheRest(data, 1, limit);
    var lines := Split(data, NEWLINE);
    assert lines[0..] == lines;
    JoinSplit(data, NEWLINE);
    assert forall k :: 0 <= k < |lines| ==> lines[k] in lines;
  }

  // ---------------------------------------------------------------- what is counted, cut and shown

  /** No byte in the middle of a character begins one. */
  lemma RunesStart(b: Byte)
    ensures RuneStart(b) <==> b / 64 != 2
  {
  }

  /** The lines counted have no newline in them, and joined they are the text, but for a newline at its end. */
  lemma CountedJoin(content: Text)
    ensures forall line :: line in SplitCountLines(content) ==> NEWLINE !in line
    ensures content == JoinLines(SplitCountLines(content))
            || (content != [] && content[|content| - 1] == 10 && content == JoinLines(SplitCountLines(content)) + [10])
    ensures SplitCountLines(content) == [] <==> content == []
    ensures content != [] && SplitCountLines(content)[|SplitCountLines(content)| - 1] == [] ==>
              content[|content| - 1] == 10 && content == JoinLines(SplitCountLines(content)) + [10]
  {
    if content != [] {
      hide Split, Join;
      var lines := Split(content, NEWLINE);
      JoinSplit(content, NEWLINE);
      SplitHasNoSeparator(content, NEWLINE);
      JoinEndsWithNewline(lines);
      var counted := SplitCountLines(content);
      forall line | line in counted ensures NEWLINE !in line {
        assert line in lines;
      }
      if content[|content| - 1] == NEWLINE {
        assert lines == counted + [[]];
        assert |lines| > 1;
        JoinSnoc(counted, []);
        assert JoinLines(counted) + [NEWLINE] + [] == JoinLines(counted) + [NEWLINE];
      }
    }
  }

  /** The head of a text: all of it within the limits; nothing, with a note, when its first line alone is too long; otherwise as
      many first lines as fit, with what stopped them. The counts are those of the text and of what is kept. */
  lemma HeadIs(content: Text, maxLines: nat, maxBytes: nat)
    ensures var lines, cut := SplitCountLines(content), TruncatedHead(content, maxLines, maxBytes);
      && cut.totalLines == |lines| && cut.totalBytes == |content| && cut.outputBytes == |cut.content| && !cut.partial
      && (cut.truncated <==> |lines| > maxLines || |content| > maxBytes)
      && (!cut.truncated ==> cut.content == content && cut.outputLines == |lines| && cut.cause == Nothing)
      && (cut.firstLineExceeds <==> cut.truncated && lines != [] && |lines[0]| > maxBytes)
      && (cut.firstLineExceeds ==> cut.content == [] && cut.outputLines == 0 && cut.cause == ByBytes)
      && (cut.truncated && !cut.firstLineExceeds ==>
            && cut.outputLines <= |lines| && cut.outputLines <= maxLines
            && cut.content == JoinLines(lines[..cut.outputLines]) && |cut.content| <= maxBytes
            && (cut.outputLines < |lines| && cut.outputLines < maxLines ==> |JoinLines(lines[..cut.outputLines + 1])| > maxBytes)
            && (cut.cause == ByBytes <==> cut.outputLines < |lines| && cut.outputLines < maxLines)
            && (cut.cause == ByLines <==> !(cut.outputLines < |lines| && cut.outputLines < maxLines)))
  {
    hide SplitCountLines, Join;
    var lines := SplitCountLines(content);
    assert lines[..0] == [];
    NoJoin();
    FittingIsLongest(lines, 0, maxLines, maxBytes);
    FittingHasCause(lines, 0, 0, maxLines, maxBytes);
  }

  lemma {:induction false} FittingHasCause(lines: seq<Text>, i: nat, size: nat, maxLines: nat, maxBytes: nat)
    requires i <= |lines|
    ensures Fitting(lines, i, size, maxLines, maxBytes).1 != Nothing
    decreases |lines| - i
  {
    if i < |lines| && i < maxLines && size + LineBytes(lines, i) <= maxBytes {
      FittingHasCause(lines, i + 1, size + LineBytes(lines, i), maxLines, maxBytes);
    }
  }

  /** An offset below one reads from the first line; one past the last line says how many there are. */
  lemma OffsetsAre(data: Text, offset: int, limit: Option<int>)
    ensures offset < 1 ==> ReadPage(data, offset, limit) == ReadPage(data, 1, limit)
    ensures ReadPage(data, offset, limit).BeyondEnd? <==> offset > |Split(data, NEWLINE)|
    ensures offset > |Split(data, NEWLINE)| ==> ReadPage(data, offset, limit) == BeyondEnd(|Split(data, NEWLINE)|)
  {
    hide Split, TruncatedHead;
  }

  /** How much a page shows: never more lines than asked for, and it stops before that, and before the end of the file, only
      after two thousand lines or where one more line would make more than fifty kilobytes. It gives an offset to go on from
      exactly when lines of the file are left. */
  lemma PageIsFull(data: Text, start: int, limit: Option<int>)
    requires 1 <= start <= |Split(data, NEWLINE)| && Forward(limit)
    ensures var lines, page := Split(data, NEWLINE), ReadPage(data, start, limit);
      && (page.LineTooLong? ==> page.line == start && |lines[start - 1]| > 51200)
      && (page.Shown? ==>
            var end := if page.next.Some? then page.next.value - 1 else |lines|;
            && start <= end <= |lines| && (page.next.Some? <==> end < |lines|)
            && page.content == JoinLines(lines[start - 1..end]) && |page.content| <= 51200
            && (limit.Some? ==> end - (start - 1) <= limit.value)
            && (end < |lines| && !(limit.Some? && end - (start - 1) == limit.value) ==>
                  end - (start - 1) == 2000 || |JoinLines(lines[start - 1..end + 1])| > 51200))
  {
    hide Split, TruncatedHead, JoinLines;
    var lines := Split(data, NEWLINE);
    SplitHasNoSeparator(data, NEWLINE);
    PageIsStretch(data, start, limit);
    var stop := if limit.Some? then Min(|lines|, start - 1 + limit.value) else |lines|;
    var stretch := lines[start - 1..stop];
    forall line | line in stretch ensures NEWLINE !in line {
      assert line in lines;
    }
    CutStretch(stretch);
    var cut := TruncatedHead(JoinLines(stretch), MAX_LINES, MAX_BYTES);
    if !cut.firstLineExceeds {
      CutIsLongest(stretch);
      if cut.truncated {
        assert stretch[..cut.outputLines] == lines[start - 1..start - 1 + cut.outputLines];
        assert stretch[..cut.outputLines + 1] == lines[start - 1..start + cut.outputLines];
      }
    }
  }
}
