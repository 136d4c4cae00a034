/**
 * The built-in Python string operations the parser relies on, for the
 * one-character arguments it uses: `in`, `index`, `str.split`, `''.join`,
 * `str.startswith` and the line iteration of a text file.
 */
module PyStr {

  /** The index of the first `c` in `s`, or `|s|` when `s` has none. */
  function Find(s: string, c: char): (i: nat)
    ensures i <= |s|
    ensures i < |s| ==> s[i] == c
    ensures forall j :: 0 <= j < i ==> s[j] != c
  {
    if s == [] then 0
    else if s[0] == c then 0
    else 1 + Find(s[1..], c)
  }

  /** The number of occurrences of `c` in `s` (`s.count(c)`). */
  function Count(s: string, c: char): nat
  {
    if s == [] then 0 else (if s[0] == c then 1 else 0) + Count(s[1..], c)
  }

  /**
   * `s.split(sep)`: every occurrence of `sep` ends a piece, so empty pieces
   * are kept and the result is never empty.
   */
  function Split(s: string, sep: char): (pieces: seq<string>)
    ensures |pieces| >= 1
    ensures forall k :: 0 <= k < |pieces| ==> sep !in pieces[k]
    decreases |s|
  {
    var i := Find(s, sep);
    if i == |s| then [s] else [s[..i]] + Split(s[i + 1..], sep)
  }

  /** `sep.join(pieces)`. */
  function Join(pieces: seq<string>, sep: char): string
  {
    if |pieces| == 0 then ""
    else if |pieces| == 1 then pieces[0]
    else pieces[0] + [sep] + Join(pieces[1..], sep)
  }

  /** `''.join(parts)`. */
  function Concat(parts: seq<string>): string
  {
    if parts == [] then "" else parts[0] + Concat(parts[1..])
  }

  /** `line.startswith('#')`. */
  predicate StartsWithHash(line: string)
  {
    |line| > 0 && line[0] == '#'
  }

  /** Joining the pieces of a split gives back the text. */
  lemma {:induction false} JoinSplit(s: string, sep: char)
    ensures Join(Split(s, sep), sep) == s
    decreases |s|
  {
    var i := Find(s, sep);
    if i < |s| {
      var rest := s[i + 1..];
      JoinSplit(rest, sep);
      JoinCons(s[..i], Split(rest, sep), sep);
      assert s == s[..i] + [sep] + rest;
    } else {
      assert Split(s, sep) == [s];
    }
  }

  lemma JoinCons(x: string, ys: seq<string>, sep: char)
    requires |ys| >= 1
    ensures Join([x] + ys, sep) == x + [sep] + Join(ys, sep)
  {
    assert ([x] + ys)[0] == x && ([x] + ys)[1..] == ys;
  }

  /** Splitting a join of separator-free pieces gives back the pieces. */
  lemma {:induction false} SplitJoin(pieces: seq<string>, sep: char)
    requires |pieces| >= 1
    requires forall k :: 0 <= k < |pieces| ==> sep !in pieces[k]
    ensures Split(Join(pieces, sep), sep) == pieces
  {
    var s := Join(pieces, sep);
    if |pieces| > 1 {
      var rest := Join(pieces[1..], sep);
      SplitJoin(pieces[1..], sep);
      FindAfterFree(pieces[0], [sep] + rest, sep);
      assert s == pieces[0] + ([sep] + rest);
      var i := |pieces[0]|;
      assert s[..i] == pieces[0];
      assert s[i + 1..] == rest;
      assert Split(s, sep) == [s[..i]] + Split(s[i + 1..], sep);
    } else {
      FindAbsent(pieces[0], sep);
    }
  }

  /** A split has one more piece than the text has separators. */
  lemma {:induction false} SplitCount(s: string, sep: char)
    ensures |Split(s, sep)| == Count(s, sep) + 1
    decreases |s|
  {
    var i := Find(s, sep);
    if i < |s| {
      SplitCount(s[i + 1..], sep);
      CountAtFirst(s, sep);
      assert |Split(s, sep)| == 1 + |Split(s[i + 1..], sep)|;
    } else {
      assert sep !in s;
      CountFree(s, sep);
    }
  }

  /** The separators of `s` are the first one and those after it. */
  lemma CountAtFirst(s: string, sep: char)
    requires Find(s, sep) < |s|
    ensures Count(s, sep) == 1 + Count(s[Find(s, sep) + 1..], sep)
  {
    var i := Find(s, sep);
    var head, rest := s[..i], s[i + 1..];
    assert sep !in head;
    CountFree(head, sep);
    assert s == head + ([sep] + rest);
    CountAppend(head, [sep] + rest, sep);
    CountCons(sep, rest, sep);
  }

  lemma CountCons(c: char, rest: string, sep: char)
    ensures Count([c] + rest, sep) == (if c == sep then 1 else 0) + Count(rest, sep)
  {
    assert ([c] + rest)[0] == c && ([c] + rest)[1..] == rest;
  }

  lemma {:induction false} FindAbsent(s: string, c: char)
    requires c !in s
    ensures Find(s, c) == |s|
  {
  }

  lemma {:induction false} FindAfterFree(a: string, b: string, c: char)
    requires c !in a
    requires |b| > 0 && b[0] == c
    ensures Find(a + b, c) == |a|
  {
    assert (a + b)[|a|] == c;
    assert forall j :: 0 <= j < |a| ==> (a + b)[j] == a[j];
  }

  lemma {:induction false} CountFree(s: string, c: char)
    requires c !in s
    ensures Count(s, c) == 0
    decreases |s|
  {
    if s != [] {
      CountFree(s[1..], c);
    }
  }

  lemma {:induction false} CountAppend(a: string, b: string, c: char)
    ensures Count(a + b, c) == Count(a, c) + Count(b, c)
    decreases |a|
  {
    if a != [] {
      CountAppend(a[1..], b, c);
      assert (a + b)[1..] == a[1..] + b;
    } else {
      assert a + b == b;
    }
  }

  /** Concatenation distributes over appending lists of parts. */
  lemma {:induction false} ConcatAppend(a: seq<string>, b: seq<string>)
    ensures Concat(a + b) == Concat(a) + Concat(b)
  {
    if a == [] {
      assert a + b == b;
    } else {
      ConcatAppend(a[1..], b);
      assert (a + b)[1..] == a[1..] + b;
      Assoc(a[0], Concat(a[1..]), Concat(b));
    }
  }

  lemma Assoc(x: string, y: string, z: string)
    ensures x + (y + z) == (x + y) + z
  {
  }

  /**
   * One line as a text file yields it: not empty, no "\n" before its last
   * character, and ending in "\n" unless it is the file's last line.
   */
  predicate IsLine(line: string, last: bool)
  {
    && |line| > 0
    && '\n' !in line[..|line| - 1]
    && (!last ==> line[|line| - 1] == '\n')
  }

  /** The shape of every sequence of lines that iterating over a text file yields. */
  predicate WellFormedLines(lines: seq<string>)
  {
    forall k :: 0 <= k < |lines| ==> IsLine(lines[k], k == |lines| - 1)
  }

  /**
   * The lines that iterating over a text file yields: each ends just after
   * a "\n", and a last line without "\n" is kept.
   */
  function SplitLines(text: string): (lines: seq<string>)
    ensures WellFormedLines(lines)
    decreases |text|
  {
    if text == [] then []
    else
      var i := Find(text, '\n');
      if i == |text| then
        assert text[..|text| - 1] == text[..i][..|text| - 1];
        [text]
      else
        var line := text[..i + 1];
        assert line[..|line| - 1] == text[..i];
        [line] + SplitLines(text[i + 1..])
  }

  /** The lines of a text, concatenated, are the text. */
  lemma {:induction false} ConcatSplitLines(text: string)
    ensures Concat(SplitLines(text)) == text
    decreases |text|
  {
    if text != [] {
      var i := Find(text, '\n');
      if i < |text| {
        ConcatSplitLines(text[i + 1..]);
        assert text == text[..i + 1] + text[i + 1..];
      }
    }
  }

  /** Line iteration over the concatenation of well-formed lines yields those lines. */
  lemma {:induction false} SplitLinesConcat(lines: seq<string>)
    requires WellFormedLines(lines)
    ensures SplitLines(Concat(lines)) == lines
  {
    if lines != [] {
      var line, rest := lines[0], lines[1..];
      assert IsLine(line, |lines| == 1);
      assert WellFormedLines(rest) by {
        forall k | 0 <= k < |rest| ensures IsLine(rest[k], k == |rest| - 1) {
          assert rest[k] == lines[k + 1];
        }
      }
      SplitLinesConcat(rest);
      assert Concat(lines) == line + Concat(rest);
      if line[|line| - 1] == '\n' {
        SplitLinesCons(line, Concat(rest));
      } else {
        assert |lines| == 1;
        assert Concat(rest) == "";
        assert line + "" == line;
        SplitLinesLast(line);
      }
    }
  }

  lemma {:induction false} SplitLinesCons(line: string, tail: string)
    requires IsLine(line, false)
    ensures SplitLines(line + tail) == [line] + SplitLines(tail)
  {
    var n := |line|;
    var text := line + tail;
    assert line == line[..n - 1] + ['\n'];
    assert text == line[..n - 1] + (['\n'] + tail);
    FindAfterFree(line[..n - 1], ['\n'] + tail, '\n');
    assert text[..n] == line;
    assert text[n..] == tail;
  }

  lemma {:induction false} SplitLinesLast(line: string)
    requires IsLine(line, true) && line[|line| - 1] != '\n'
    ensures SplitLines(line) == [line]
  {
    assert line == line[..|line| - 1] + [line[|line| - 1]];
    FindAbsent(line, '\n');
  }
}
