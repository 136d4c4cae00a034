/**
 * The decomposition of one VCF data line into a record: the tab-separated
 * fixed columns, then the `;`-separated INFO entries merged over them, then
 * the INFO column itself removed (the body of `VcfParser.next` after its
 * `readline`).
 */
module Decomposer {
  import opened Wrappers
  import opened PyStr

  /** A parsed record; `None` is an INFO flag, distinct from the empty value `Some("")`. */
  type Record = map<string, Option<string>>

  /** The exceptions the modelled code raises. */
  datatype Error =
    /** Line 85 indexed past the `available` tokens of a line with fewer than eight. */
    | IndexError(available: nat)
    /** The file handle was read after it had been closed. */
    | ValueError

  /** The eight fixed VCF columns, in file order. */
  const VCF_KEYS: seq<string> := ["CHROM", "POS", "ID", "REF", "ALT", "QUAL", "FILTER", "INFO"]

  /** The column that is decomposed and then removed. */
  const INFO_INDEX := 7

  /** The seven fixed columns a record keeps. */
  const FIXED_KEYS: set<string> := {"CHROM", "POS", "ID", "REF", "ALT", "QUAL", "FILTER"}

  function Min(a: nat, b: nat): nat
  {
    if a <= b then a else b
  }

  /**
   * One INFO segment as a key and a value: split at the first '=' (the value
   * may contain further '='), or the whole segment as a flag with no value.
   */
  function InfoEntry(segment: string): (entry: (string, Option<string>))
    ensures entry.1.None? <==> '=' !in segment
    ensures entry.1.None? ==> entry.0 == segment
    ensures entry.1.Some? ==> '=' !in entry.0 && entry.0 + "=" + entry.1.value == segment
  {
    if '=' in segment then
      var pos := Find(segment, '=');
      assert segment == segment[..pos] + "=" + segment[pos + 1..];
      (segment[..pos], Some(segment[pos + 1..]))
    else
      (segment, None)
  }

  /** The record after inserting the entries of `segments` into `d`, in order, each one overwriting. */
  function ApplyInfo(d: Record, segments: seq<string>): Record
    decreases |segments|
  {
    if segments == [] then d
    else
      var entry := InfoEntry(segments[|segments| - 1]);
      ApplyInfo(d, segments[..|segments| - 1])[entry.0 := entry.1]
  }

  /** The keys that the entries of `segments` insert. */
  function InfoKeys(segments: seq<string>): set<string>
  {
    set j | 0 <= j < |segments| :: InfoEntry(segments[j]).0
  }

  /** The map from the first `n` fixed column names to the first `n` tokens. */
  function FixedFields(tokens: seq<string>, n: nat): Record
    requires n <= |VCF_KEYS| && n <= |tokens|
  {
    if n == 0 then map[] else FixedFields(tokens, n - 1)[VCF_KEYS[n - 1] := Some(tokens[n - 1])]
  }

  /**
   * The reference decomposition of one line: at most the first eight tab
   * tokens are kept, a line with fewer faults, the fixed columns are
   * assigned, every INFO segment is inserted over them and INFO is removed.
   */
  function Decompose(line: string): (r: Result<Record, Error>)
    ensures r.Err? <==> |Split(line, '\t')| < |VCF_KEYS|
    ensures r.Err? ==> r.error == IndexError(|Split(line, '\t')|)
    ensures r.Ok? ==> "INFO" !in r.value
  {
    var tokens := Split(line, '\t');
    var fields := tokens[..Min(|tokens|, |VCF_KEYS|)];
    if |fields| < |VCF_KEYS| then Err(IndexError(|fields|))
    else Ok(ApplyInfo(FixedFields(fields, |VCF_KEYS|), Split(fields[INFO_INDEX], ';')) - {"INFO"})
  }

  /** The `;` segments of the INFO token of a line with at least eight tokens. */
  function InfoSegments(line: string): seq<string>
    requires |Split(line, '\t')| >= |VCF_KEYS|
  {
    Split(Split(line, '\t')[INFO_INDEX], ';')
  }

  // ---------------------------------------------------------------------
  // The loops of `next`, each proved against the functions above.
  // ---------------------------------------------------------------------

  /** Copies the tokens up to and including the eighth (the `count == 8` loop). */
  method TakeFields(tokens: seq<string>) returns (assembled: seq<string>)
    ensures assembled == tokens[..Min(|tokens|, |VCF_KEYS|)]
  {
    var count := 0;
    assembled := [];
    while count < |tokens|
      invariant count <= |tokens| && count < |VCF_KEYS|
      invariant assembled == tokens[..count]
    {
      assembled := assembled + [tokens[count]];
      count := count + 1;
      if count == |VCF_KEYS| {
        break;
      }
    }
  }

  /** Assigns the tokens to the fixed column names in order; faults on a short list. */
  method AssignFixed(assembled: seq<string>) returns (r: Result<Record, Error>)
    ensures |assembled| < |VCF_KEYS| ==> r == Err(IndexError(|assembled|))
    ensures |assembled| >= |VCF_KEYS| ==> r == Ok(FixedFields(assembled, |VCF_KEYS|))
  {
    var d: Record := map[];
    var i := 0;
    while i < |VCF_KEYS|
      invariant i <= |VCF_KEYS| && i <= |assembled|
      invariant d == FixedFields(assembled, i)
    {
      if i == |assembled| {
        return Err(IndexError(|assembled|));
      }
      d := d[VCF_KEYS[i] := Some(assembled[i])];
      i := i + 1;
    }
    return Ok(d);
  }

  /** Inserts the entry of every `;` segment of `info` into `d0`, in order. */
  method MergeInfo(d0: Record, info: string) returns (d: Record)
    ensures d == ApplyInfo(d0, Split(info, ';'))
  {
    var segments := Split(info, ';');
    d := d0;
    var k := 0;
    while k < |segments|
      invariant k <= |segments|
      invariant d == ApplyInfo(d0, segments[..k])
    {
      var element := segments[k];
      var key, val;
      if '=' in element {
        var pos := Find(element, '=');
        key := element[..pos];
        val := Some(element[pos + 1..]);
      } else {
        key, val := element, None;
      }
      assert InfoEntry(element) == (key, val);
      assert segments[..k + 1][..k] == segments[..k];
      assert ApplyInfo(d0, segments[..k + 1]) == ApplyInfo(d0, segments[..k])[key := val];
      d := d[key := val];
      k := k + 1;
    }
    assert segments[..k] == segments;
  }

  /** The decomposition of one line, as the loops of `next` compute it. */
  method DecomposeLine(line: string) returns (r: Result<Record, Error>)
    ensures r == Decompose(line)
  {
    var tokens := Split(line, '\t');
    var assembled := TakeFields(tokens);
    var fixed := AssignFixed(assembled);
    if fixed.Err? {
      return Err(fixed.error);
    }
    var d := MergeInfo(fixed.value, assembled[INFO_INDEX]);
    return Ok(d - {"INFO"});
  }

  // ---------------------------------------------------------------------
  // Properties of the decomposition.
  // ---------------------------------------------------------------------

  /** The eight fixed column names are pairwise different. */
  lemma KeysDistinct()
    ensures forall i, j :: 0 <= i < j < |VCF_KEYS| ==> VCF_KEYS[i] != VCF_KEYS[j]
  {
  }

  /** The first `n` fixed names are the keys, each holding its token verbatim. */
  lemma {:induction false} FixedFieldsAt(tokens: seq<string>, n: nat)
    requires n <= |VCF_KEYS| && n <= |tokens|
    ensures FixedFields(tokens, n).Keys == set i | 0 <= i < n :: VCF_KEYS[i]
    ensures forall i :: 0 <= i < n ==> FixedFields(tokens, n)[VCF_KEYS[i]] == Some(tokens[i])
  {
    if n > 0 {
      FixedFieldsAt(tokens, n - 1);
      KeysDistinct();
    }
  }

  /** The keys after merging are the old keys and the keys of the segments. */
  lemma {:induction false} ApplyInfoKeys(d: Record, segments: seq<string>)
    ensures ApplyInfo(d, segments).Keys == d.Keys + InfoKeys(segments)
    decreases |segments|
  {
    if segments != [] {
      var init := segments[..|segments| - 1];
      ApplyInfoKeys(d, init);
      assert InfoKeys(segments) == InfoKeys(init) + {InfoEntry(segments[|segments| - 1]).0} by {
        forall j | 0 <= j < |init| ensures init[j] == segments[j] { }
      }
    }
  }

  /** A key no segment names keeps its value (or stays absent). */
  lemma {:induction false} ApplyInfoUntouched(d: Record, segments: seq<string>, key: string)
    requires forall j :: 0 <= j < |segments| ==> InfoEntry(segments[j]).0 != key
    ensures key in ApplyInfo(d, segments) <==> key in d
    ensures key in d ==> ApplyInfo(d, segments)[key] == d[key]
    decreases |segments|
  {
    if segments != [] {
      ApplyInfoUntouched(d, segments[..|segments| - 1], key);
    }
  }

  /** Last write wins: a key ends with the value of the last segment that names it. */
  lemma {:induction false} ApplyInfoLastWins(d: Record, segments: seq<string>, j: nat)
    requires j < |segments|
    requires forall j' :: j < j' < |segments| ==> InfoEntry(segments[j']).0 != InfoEntry(segments[j]).0
    ensures InfoEntry(segments[j]).0 in ApplyInfo(d, segments)
    ensures ApplyInfo(d, segments)[InfoEntry(segments[j]).0] == InfoEntry(segments[j]).1
    decreases |segments|
  {
    if j < |segments| - 1 {
      ApplyInfoLastWins(d, segments[..|segments| - 1], j);
    }
  }

  /**
   * The key set of a record: the seven fixed columns and the keys of the
   * INFO segments, never INFO itself.
   */
  lemma DecomposeKeys(line: string)
    requires Decompose(line).Ok?
    ensures Decompose(line).value.Keys == (FIXED_KEYS + InfoKeys(InfoSegments(line))) - {"INFO"}
  {
    var fields := Split(line, '\t')[..|VCF_KEYS|];
    var fixed := FixedFields(fields, |VCF_KEYS|);
    var merged := ApplyInfo(fixed, InfoSegments(line));
    assert Decompose(line).value == merged - {"INFO"};
    FixedNames(fields);
    ApplyInfoKeys(fixed, InfoSegments(line));
  }

  /** The eight fixed columns are named by the seven kept keys and INFO. */
  lemma FixedNames(fields: seq<string>)
    requires |fields| >= |VCF_KEYS|
    ensures FixedFields(fields, |VCF_KEYS|).Keys == FIXED_KEYS + {"INFO"}
  {
    FixedFieldsAt(fields, |VCF_KEYS|);
    var names := set i | 0 <= i < |VCF_KEYS| :: VCF_KEYS[i];
    assert VCF_KEYS[0] in names && VCF_KEYS[1] in names && VCF_KEYS[2] in names && VCF_KEYS[3] in names;
    assert VCF_KEYS[4] in names && VCF_KEYS[5] in names && VCF_KEYS[6] in names && VCF_KEYS[7] in names;
    assert names <= FIXED_KEYS + {"INFO"};
  }

  /**
   * A fixed column that no INFO segment names holds the line's token at its
   * position, verbatim.
   */
  lemma DecomposeFixed(line: string, i: nat)
    requires Decompose(line).Ok? && i < INFO_INDEX
    requires VCF_KEYS[i] !in InfoKeys(InfoSegments(line))
    ensures VCF_KEYS[i] in Decompose(line).value
    ensures Decompose(line).value[VCF_KEYS[i]] == Some(Split(line, '\t')[i])
  {
    var fields := Split(line, '\t')[..|VCF_KEYS|];
    var segments := InfoSegments(line);
    FixedFieldsAt(fields, |VCF_KEYS|);
    forall j | 0 <= j < |segments| ensures InfoEntry(segments[j]).0 != VCF_KEYS[i] {
      assert InfoEntry(segments[j]).0 in InfoKeys(segments);
    }
    ApplyInfoUntouched(FixedFields(fields, |VCF_KEYS|), segments, VCF_KEYS[i]);
    KeysDistinct();
  }

  /**
   * The value of an INFO key other than INFO is that of its last segment,
   * overwriting a fixed column of the same name.
   */
  lemma DecomposeInfoLastWins(line: string, j: nat)
    requires Decompose(line).Ok? && j < |InfoSegments(line)|
    requires InfoEntry(InfoSegments(line)[j]).0 != "INFO"
    requires forall j' :: j < j' < |InfoSegments(line)| ==>
               InfoEntry(InfoSegments(line)[j']).0 != InfoEntry(InfoSegments(line)[j]).0
    ensures InfoEntry(InfoSegments(line)[j]).0 in Decompose(line).value
    ensures Decompose(line).value[InfoEntry(InfoSegments(line)[j]).0] == InfoEntry(InfoSegments(line)[j]).1
  {
    var fields := Split(line, '\t')[..|VCF_KEYS|];
    ApplyInfoLastWins(FixedFields(fields, |VCF_KEYS|), InfoSegments(line), j);
  }

  /** Tab tokens after the eighth never reach the record. */
  lemma DecomposeIgnoresExtraColumns(tokens: seq<string>)
    requires |tokens| >= |VCF_KEYS|
    requires forall k :: 0 <= k < |tokens| ==> '\t' !in tokens[k]
    ensures Decompose(Join(tokens, '\t')) == Decompose(Join(tokens[..|VCF_KEYS|], '\t'))
  {
    SplitJoin(tokens, '\t');
    SplitJoin(tokens[..|VCF_KEYS|], '\t');
    assert tokens[..|VCF_KEYS|][..|VCF_KEYS|] == tokens[..|VCF_KEYS|];
  }
}
