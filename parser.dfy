/**
 * The streaming parser: a file handle over the lines of a text file, the
 * header capture of `set_header`, and `next` with its iterator form.
 */
module Parser {
  import opened Wrappers
  import opened PyStr
  import opened Decomposer

  /** The number of lines that start with '#', wherever they stand. */
  function CountHeaderLines(lines: seq<string>): (k: nat)
    ensures k <= |lines|
  {
    if lines == [] then 0
    else CountHeaderLines(lines[..|lines| - 1]) + (if StartsWithHash(lines[|lines| - 1]) then 1 else 0)
  }

  /**
   * The read position after re-reading `k` lines from the start: the loop
   * stops once its counter reaches `k`, which never happens when `k` is 0.
   */
  function CaptureEnd(lines: seq<string>, k: nat): (end: nat)
    requires k <= |lines|
    ensures k <= end <= |lines|
  {
    if k == 0 then |lines| else k
  }

  /** The read position once the header has been captured from a fresh handle. */
  function HeaderEnd(lines: seq<string>): (end: nat)
    ensures CountHeaderLines(lines) <= end <= |lines|
  {
    CaptureEnd(lines, CountHeaderLines(lines))
  }

  /** What `next` returns for a line it has read. */
  function AsNext(r: Result<Record, Error>): (n: Result<Option<Record>, Error>)
    ensures n != Ok(None)
    ensures n.Err? <==> r.Err?
    ensures r.Ok? ==> n.value == Some(r.value)
    ensures r.Err? ==> n.error == r.error
  {
    match r
    case Ok(rec) => Ok(Some(rec))
    case Err(e) => Err(e)
  }

  /** How iteration over the parser ends. */
  datatype Stop = StopIteration | Raise(error: Error)

  /** What `__next__` returns for a line it has read. */
  function AsIteration(r: Result<Record, Error>): (it: Result<Record, Stop>)
    ensures it != Err(StopIteration)
    ensures it.Ok? <==> r.Ok?
    ensures r.Ok? ==> it.value == r.value
    ensures r.Err? ==> it.error == Raise(r.error)
  {
    match r
    case Ok(rec) => Ok(rec)
    case Err(e) => Err(Raise(e))
  }

  /** Counting one more line adds one exactly when that line starts with `#`. */
  lemma CountExtend(lines: seq<string>, start: nat, end: nat)
    requires start <= end < |lines|
    ensures CountHeaderLines(lines[start..end + 1])
         == CountHeaderLines(lines[start..end]) + (if StartsWithHash(lines[end]) then 1 else 0)
  {
    assert lines[start..end + 1][..end - start] == lines[start..end];
  }

  class VcfParser {
    /** The lines of the opened file, each with its "\n". */
    var lines: seq<string>
    /** The read position of the file handle: the index of the next line. */
    var cursor: nat
    /** Whether the file handle has been closed. */
    var closed: bool
    /** The captured header text. */
    var header: string

    ghost predicate Valid()
      reads this
    {
      cursor <= |lines| && WellFormedLines(lines)
    }

    /** Opens a handle on the file's text and captures its header. */
    constructor (text: string)
      ensures Valid() && !closed
      ensures lines == SplitLines(text)
      ensures cursor == HeaderEnd(lines)
      ensures header == Concat(lines[..cursor])
    {
      lines := SplitLines(text);
      cursor := 0;
      closed := false;
      header := "";
      new;
      SetHeader();
      assert lines[0..] == lines;
    }

    /**
     * Counts the '#' lines from the read position to the end of file, rewinds,
     * and captures that many lines from the start (all of them when there are
     * none), leaving the read position after the last one captured.
     */
    method SetHeader()
      requires Valid() && !closed
      modifies this`cursor, this`header
      ensures Valid()
      ensures cursor == CaptureEnd(lines, CountHeaderLines(lines[old(cursor)..]))
      ensures header == Concat(lines[..cursor])
    {
      ghost var start := cursor;
      var numHeaderLines := 0;
      while cursor < |lines|
        invariant start <= cursor <= |lines|
        invariant numHeaderLines == CountHeaderLines(lines[start..cursor])
      {
        var line := lines[cursor];
        CountExtend(lines, start, cursor);
        cursor := cursor + 1;
        if StartsWithHash(line) {
          numHeaderLines := numHeaderLines + 1;
        }
      }
      assert lines[start..cursor] == lines[start..];
      assert numHeaderLines == CountHeaderLines(lines[start..]);
      assert numHeaderLines <= |lines|;

      cursor := 0;
      var temp: seq<string> := [];
      var i := 0;
      while cursor < |lines|
        invariant cursor == i <= |lines|
        invariant temp == lines[..i]
        invariant numHeaderLines == 0 || i < numHeaderLines
      {
        var line := lines[cursor];
        assert lines[..i + 1] == lines[..i] + [line];
        cursor := cursor + 1;
        i := i + 1;
        temp := temp + [line];
        if i == numHeaderLines {
          break;
        }
      }
      assert i != numHeaderLines ==> numHeaderLines == 0 && cursor == |lines|;
      assert cursor == CaptureEnd(lines, numHeaderLines);
      assert temp == lines[..cursor];
      header := Concat(temp);
    }

    /** `readline`: the next line and a step forward, or "" at end of file. */
    method ReadLine() returns (line: string)
      requires Valid() && !closed
      modifies this`cursor
      ensures Valid()
      ensures old(cursor) < |lines| ==> line == lines[old(cursor)] && cursor == old(cursor) + 1
      ensures old(cursor) == |lines| ==> line == "" && cursor == old(cursor)
    {
      if cursor < |lines| {
        line := lines[cursor];
        cursor := cursor + 1;
      } else {
        line := "";
      }
    }

    /**
     * `next`: `None` at end of file, leaving the read position there;
     * otherwise the decomposition of the next line, one line further on.
     */
    method Next() returns (r: Result<Option<Record>, Error>)
      requires Valid()
      modifies this`cursor
      ensures Valid()
      ensures closed ==> r == Err(ValueError) && cursor == old(cursor)
      ensures !closed && old(cursor) == |lines| ==> r == Ok(None) && cursor == old(cursor)
      ensures !closed && old(cursor) < |lines| ==>
                r == AsNext(Decompose(lines[old(cursor)])) && cursor == old(cursor) + 1
      ensures r == Ok(None) <==> !closed && old(cursor) == |lines|
    {
      if closed {
        return Err(ValueError);
      }
      var line := ReadLine();
      if line == "" {
        return Ok(None);
      }
      var rec := DecomposeLine(line);
      r := AsNext(rec);
    }

    /** `__next__`: the record, or `StopIteration` where `next` returns `None`. */
    method IterNext() returns (r: Result<Record, Stop>)
      requires Valid()
      modifies this`cursor
      ensures Valid()
      ensures closed ==> r == Err(Raise(ValueError)) && cursor == old(cursor)
      ensures !closed && old(cursor) == |lines| ==> r == Err(StopIteration) && cursor == old(cursor)
      ensures !closed && old(cursor) < |lines| ==>
                r == AsIteration(Decompose(lines[old(cursor)])) && cursor == old(cursor) + 1
    {
      var n := Next();
      match n
      case Ok(None) => r := Err(StopIteration);
      case Ok(Some(rec)) => r := Ok(rec);
      case Err(e) => r := Err(Raise(e));
    }

    /** Closes the file handle. */
    method Close()
      modifies this`closed
      ensures closed
    {
      closed := true;
    }
  }

  // ---------------------------------------------------------------------
  // Properties of the header capture.
  // ---------------------------------------------------------------------

  /** The count of '#' lines is the size of a '#' prefix followed by none. */
  lemma {:induction false} CountContiguousHeader(lines: seq<string>, n: nat)
    requires n <= |lines|
    requires forall i :: 0 <= i < n ==> StartsWithHash(lines[i])
    requires forall i :: n <= i < |lines| ==> !StartsWithHash(lines[i])
    ensures CountHeaderLines(lines) == n
  {
    if |lines| > 0 {
      var init := lines[..|lines| - 1];
      if n == |lines| {
        CountContiguousHeader(init, n - 1);
      } else {
        CountContiguousHeader(init, n);
      }
    }
  }

  /** No line starts with '#' exactly when the count is zero. */
  lemma {:induction false} CountZero(lines: seq<string>)
    ensures CountHeaderLines(lines) == 0 <==> forall i :: 0 <= i < |lines| ==> !StartsWithHash(lines[i])
  {
    if |lines| > 0 {
      var init := lines[..|lines| - 1];
      CountZero(init);
      assert forall i :: 0 <= i < |init| ==> init[i] == lines[i];
    }
  }

  /**
   * With k >= 1 lines starting with '#', the header is the first k lines
   * and the first record is line k + 1; the header and the lines after it
   * make up the text.
   */
  lemma HeaderOfHashLines(text: string)
    requires CountHeaderLines(SplitLines(text)) >= 1
    ensures HeaderEnd(SplitLines(text)) == CountHeaderLines(SplitLines(text))
    ensures Concat(SplitLines(text)[..HeaderEnd(SplitLines(text))])
          + Concat(SplitLines(text)[HeaderEnd(SplitLines(text))..]) == text
  {
    HeaderPrefix(text);
  }

  /** The captured header and the remaining lines make up the text. */
  lemma HeaderPrefix(text: string)
    ensures Concat(SplitLines(text)[..HeaderEnd(SplitLines(text))])
          + Concat(SplitLines(text)[HeaderEnd(SplitLines(text))..]) == text
  {
    var lines := SplitLines(text);
    var c := HeaderEnd(lines);
    assert lines[..c] + lines[c..] == lines;
    ConcatAppend(lines[..c], lines[c..]);
    ConcatSplitLines(text);
  }

  /**
   * A '#' prefix of n >= 1 lines followed by none: exactly those lines are
   * the header and the body starts right after them.
   */
  lemma ContiguousHeader(text: string, n: nat)
    requires 1 <= n <= |SplitLines(text)|
    requires forall i :: 0 <= i < n ==> StartsWithHash(SplitLines(text)[i])
    requires forall i :: n <= i < |SplitLines(text)| ==> !StartsWithHash(SplitLines(text)[i])
    ensures HeaderEnd(SplitLines(text)) == n
    ensures Concat(SplitLines(text)[..n]) + Concat(SplitLines(text)[n..]) == text
  {
    CountContiguousHeader(SplitLines(text), n);
    HeaderPrefix(text);
  }

  /** Without any '#' line the whole text is the header and no line is left to read. */
  lemma NoHashLines(text: string)
    requires forall i :: 0 <= i < |SplitLines(text)| ==> !StartsWithHash(SplitLines(text)[i])
    ensures HeaderEnd(SplitLines(text)) == |SplitLines(text)|
    ensures Concat(SplitLines(text)[..HeaderEnd(SplitLines(text))]) == text
  {
    var lines := SplitLines(text);
    CountZero(lines);
    assert lines[..|lines|] == lines;
    ConcatSplitLines(text);
  }

  /**
   * '#' lines after a body line still count: for `#a`, `x`, `#b` the header
   * is `#a` and `x`, and the first record is read from `#b`.
   */
  lemma ScatteredHashLines()
    ensures HeaderEnd(["#a\n", "x\n", "#b\n"]) == 2
    ensures Concat(["#a\n", "x\n", "#b\n"][..2]) == "#a\nx\n"
  {
    var lines := ["#a\n", "x\n", "#b\n"];
    assert lines[..2][..1] == ["#a\n"] && lines[..2] == ["#a\n", "x\n"];
    assert lines[..1][..0] == [];
    assert CountHeaderLines(lines[..1]) == 1;
    assert CountHeaderLines(lines[..2]) == 1;
  }
}
