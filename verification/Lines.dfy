/** Texts cut at a separator and joined again. */
module Lines {
  function Split<T(==)>(s: seq<T>, sep: T): (lines: seq<seq<T>>)
    ensures |lines| > 0
  {
    if s == [] then [[]]
    else
      var rest := Split(s[1..], sep);
      if s[0] == sep then [[]] + rest else [[s[0]] + rest[0]] + rest[1..]
  }

  function Join<T>(lines: seq<seq<T>>, sep: T): seq<T>
    requires |lines| > 0
  {
    if |lines| == 1 then lines[0] else lines[0] + [sep] + Join(lines[1..], sep)
  }

  lemma {:induction false} JoinSplit<T>(s: seq<T>, sep: T)
    ensures Join(Split(s, sep), sep) == s
  {
    if s != [] {
      var rest := Split(s[1..], sep);
      JoinSplit(s[1..], sep);
      if s[0] == sep {
        assert ([[]] + rest)[1..] == rest;
      } else {
        var lines := [[s[0]] + rest[0]] + rest[1..];
        assert lines[1..] == rest[1..];
        if |rest| > 1 {
          assert Join(lines, sep) == [s[0]] + (rest[0] + [sep] + Join(rest[1..], sep));
        }
      }
      assert s == [s[0]] + s[1..];
    }
  }

  lemma {:induction false} SplitHasNoSeparator<T>(s: seq<T>, sep: T)
    ensures forall line :: line in Split(s, sep) ==> sep !in line
  {
    if s != [] {
      SplitHasNoSeparator(s[1..], sep);
    }
  }

  lemma {:induction false} SplitFirst<T>(line: seq<T>, rest: seq<T>, sep: T)
    requires sep !in line
    ensures Split(line + [sep] + rest, sep) == [line] + Split(rest, sep)
  {
    var s := line + [sep] + rest;
    if line == [] {
      assert s[1..] == rest;
    } else {
      SplitFirst(line[1..], rest, sep);
      assert s[1..] == line[1..] + [sep] + rest;
      assert line == [line[0]] + line[1..];
    }
  }

  lemma {:induction false} SplitOne<T>(line: seq<T>, sep: T)
    requires sep !in line
    ensures Split(line, sep) == [line]
  {
    if line != [] {
      SplitOne(line[1..], sep);
      assert line == [line[0]] + line[1..];
    }
  }

  lemma {:induction false} SplitJoin<T>(lines: seq<seq<T>>, sep: T)
    requires |lines| > 0 && forall line :: line in lines ==> sep !in line
    ensures Split(Join(lines, sep), sep) == lines
  {
    assert lines[0] in lines;
    if |lines| == 1 {
      SplitOne(lines[0], sep);
    } else {
      SplitJoin(lines[1..], sep);
      SplitFirst(lines[0], Join(lines[1..], sep), sep);
    }
  }
}
