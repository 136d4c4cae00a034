/**
 * The bulk path of `extract_vcf_to_dataframe`: drain a parser over the
 * file and keep, of every record, the keys named in `columns`.
 */
module Extractor {
  import opened Wrappers
  import opened PyStr
  import opened Decomposer
  import opened Parser

  /** The record restricted to the requested columns, values unchanged. */
  function Project(rec: Record, columns: seq<string>): (row: Record)
    ensures forall k :: k in row <==> k in rec && k in columns
    ensures forall k :: k in row ==> row[k] == rec[k]
  {
    map k | k in rec && k in columns :: rec[k]
  }

  /**
   * The projected rows of the body lines, in order; the first line that
   * fails to decompose aborts with its error and no rows.
   */
  function ExtractRows(body: seq<string>, columns: seq<string>): Result<seq<Record>, Error>
    decreases |body|
  {
    if body == [] then Ok([])
    else
      match ExtractRows(body[..|body| - 1], columns)
      case Err(e) => Err(e)
      case Ok(rows) =>
        match Decompose(body[|body| - 1])
        case Err(e) => Err(e)
        case Ok(rec) => Ok(rows + [Project(rec, columns)])
  }

  /** The rows extracted from a file's text: those of every line after the header. */
  function Extract(text: string, columns: seq<string>): (r: Result<seq<Record>, Error>)
    ensures r.Ok? ==> |r.value| == |SplitLines(text)| - HeaderEnd(SplitLines(text))
  {
    var lines := SplitLines(text);
    ExtractRowsOk(lines[HeaderEnd(lines)..], columns);
    ExtractRows(lines[HeaderEnd(lines)..], columns)
  }

  /**
   * Drains a parser over the text, projecting each record, and closes it on
   * every path; the parser is returned so that its closed state can be stated.
   */
  method ExtractVcfToDataframe(text: string, columns: seq<string>)
    returns (r: Result<seq<Record>, Error>, parser: VcfParser)
    ensures r == Extract(text, columns)
    ensures parser.closed
  {
    parser := new VcfParser(text);
    ghost var start := parser.cursor;
    ghost var body := parser.lines[start..];
    var collected: seq<Record> := [];
    while true
      invariant parser.Valid() && !parser.closed && parser.lines == SplitLines(text)
      invariant start <= parser.cursor
      invariant ExtractRows(body[..parser.cursor - start], columns) == Ok(collected)
      decreases |parser.lines| - parser.cursor
    {
      ghost var before := parser.cursor;
      var variant := parser.IterNext();
      match variant {
        case Err(StopIteration) =>
          assert body[..parser.cursor - start] == body;
          break;
        case Err(Raise(e)) =>
          assert body[before - start] == parser.lines[before];
          ExtractStep(body, before - start, columns);
          ExtractRowsErrorPersists(body, parser.cursor - start, columns);
          parser.Close();
          return Err(e), parser;
        case Ok(rec) =>
          assert body[before - start] == parser.lines[before];
          ExtractStep(body, before - start, columns);
          collected := collected + [Project(rec, columns)];
      }
    }
    parser.Close();
    return Ok(collected), parser;
  }

  // ---------------------------------------------------------------------
  // Properties of the extraction.
  // ---------------------------------------------------------------------

  /** One more body line: its row is appended, or its error ends the extraction. */
  lemma ExtractStep(body: seq<string>, n: nat, columns: seq<string>)
    requires n < |body| && ExtractRows(body[..n], columns).Ok?
    ensures Decompose(body[n]).Ok? ==>
              ExtractRows(body[..n + 1], columns)
              == Ok(ExtractRows(body[..n], columns).value + [Project(Decompose(body[n]).value, columns)])
    ensures Decompose(body[n]).Err? ==> ExtractRows(body[..n + 1], columns) == Err(Decompose(body[n]).error)
  {
    assert body[..n + 1][..n] == body[..n] && body[..n + 1][n] == body[n];
  }

  /** An error in a prefix of the body is the error of the whole body. */
  lemma {:induction false} ExtractRowsErrorPersists(body: seq<string>, n: nat, columns: seq<string>)
    requires n <= |body| && ExtractRows(body[..n], columns).Err?
    ensures ExtractRows(body, columns) == ExtractRows(body[..n], columns)
    decreases |body| - n
  {
    if n < |body| {
      assert body[..n + 1][..n] == body[..n];
      ExtractRowsErrorPersists(body, n + 1, columns);
    } else {
      assert body[..n] == body;
    }
  }

  /**
   * Extraction succeeds exactly when every body line decomposes; then it
   * yields one row per line, in file order, each the projection of its record.
   */
  lemma ExtractRowsOk(body: seq<string>, columns: seq<string>)
    ensures ExtractRows(body, columns).Ok? <==> forall i :: 0 <= i < |body| ==> Decompose(body[i]).Ok?
    ensures ExtractRows(body, columns).Ok? ==>
              |ExtractRows(body, columns).value| == |body| &&
              forall i :: 0 <= i < |body| ==>
                ExtractRows(body, columns).value[i] == Project(Decompose(body[i]).value, columns)
  {
    ExtractRowsSucceeds(body, columns);
    ExtractRowsValues(body, columns);
  }

  lemma {:induction false} ExtractRowsSucceeds(body: seq<string>, columns: seq<string>)
    ensures ExtractRows(body, columns).Ok? <==> forall i :: 0 <= i < |body| ==> Decompose(body[i]).Ok?
    decreases |body|
  {
    if body != [] {
      var init := body[..|body| - 1];
      ExtractRowsSucceeds(init, columns);
      assert forall i :: 0 <= i < |init| ==> init[i] == body[i];
    }
  }

  lemma {:induction false} ExtractRowsValues(body: seq<string>, columns: seq<string>)
    ensures ExtractRows(body, columns).Ok? ==>
              |ExtractRows(body, columns).value| == |body| &&
              forall i :: 0 <= i < |body| ==>
                Decompose(body[i]).Ok? &&
                ExtractRows(body, columns).value[i] == Project(Decompose(body[i]).value, columns)
    decreases |body|
  {
    if body != [] && ExtractRows(body, columns).Ok? {
      var init := body[..|body| - 1];
      ExtractRowsValues(init, columns);
      assert body[..|body|] == body;
      ExtractStep(body, |body| - 1, columns);
      var rows := ExtractRows(init, columns).value;
      assert ExtractRows(body, columns).value == rows + [Project(Decompose(body[|body| - 1]).value, columns)];
      forall i | 0 <= i < |body|
        ensures Decompose(body[i]).Ok?
        ensures ExtractRows(body, columns).value[i] == Project(Decompose(body[i]).value, columns)
      {
        if i < |init| {
          assert init[i] == body[i];
        }
      }
    }
  }

  /** A failed extraction carries the error of the first line that does not decompose. */
  lemma {:induction false} ExtractRowsFirstError(body: seq<string>, columns: seq<string>)
    requires ExtractRows(body, columns).Err?
    ensures exists i :: 0 <= i < |body| && Decompose(body[i]) == Err(ExtractRows(body, columns).error) &&
              forall j :: 0 <= j < i ==> Decompose(body[j]).Ok?
    decreases |body|
  {
    var init := body[..|body| - 1];
    assert forall i :: 0 <= i < |init| ==> init[i] == body[i];
    if ExtractRows(init, columns).Err? {
      ExtractRowsFirstError(init, columns);
      var i :| 0 <= i < |init| && Decompose(init[i]) == Err(ExtractRows(init, columns).error) &&
               forall j :: 0 <= j < i ==> Decompose(init[j]).Ok?;
      assert Decompose(body[i]) == Err(ExtractRows(body, columns).error);
    } else {
      ExtractRowsOk(init, columns);
      assert Decompose(body[|body| - 1]) == Err(ExtractRows(body, columns).error);
    }
  }

  /**
   * Row count: when the extraction succeeds, a file of n >= 1 '#' lines
   * followed by body lines yields one row per body line.
   */
  lemma RowCount(text: string, columns: seq<string>, n: nat)
    requires 1 <= n <= |SplitLines(text)|
    requires forall i :: 0 <= i < n ==> StartsWithHash(SplitLines(text)[i])
    requires forall i :: n <= i < |SplitLines(text)| ==> !StartsWithHash(SplitLines(text)[i])
    requires Extract(text, columns).Ok?
    ensures |Extract(text, columns).value| == |SplitLines(text)| - n
  {
    ContiguousHeader(text, n);
    ExtractRowsOk(SplitLines(text)[n..], columns);
  }

  /** Without any '#' line everything is header, so the extraction has no rows. */
  lemma NoHashLinesNoRows(text: string, columns: seq<string>)
    requires forall i :: 0 <= i < |SplitLines(text)| ==> !StartsWithHash(SplitLines(text)[i])
    ensures Extract(text, columns) == Ok([])
  {
    NoHashLines(text);
  }
}
