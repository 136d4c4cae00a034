/**
 * Decompositions of particular data lines. Each line is written as its
 * tab-free tokens joined by tabs; the fixed tokens are left arbitrary and
 * the INFO token is given.
 */
module WorkedRecords {
  import opened Wrappers
  import opened PyStr
  import opened Decomposer
  import opened Extractor

  /** The fixed columns of tokens `t`, written out and still holding INFO. */
  function FixedDisplay(t: seq<string>): Record
    requires |t| >= |VCF_KEYS|
  {
    map["CHROM" := Some(t[0]), "POS" := Some(t[1]), "ID" := Some(t[2]), "REF" := Some(t[3]),
        "ALT" := Some(t[4]), "QUAL" := Some(t[5]), "FILTER" := Some(t[6]), "INFO" := Some(t[7])]
  }

  /** A line built from tab-free tokens decomposes over exactly those tokens. */
  lemma DecomposeJoin(t: seq<string>, segments: seq<string>)
    requires |t| >= |VCF_KEYS|
    requires forall k :: 0 <= k < |t| ==> '\t' !in t[k]
    requires Split(t[INFO_INDEX], ';') == segments
    ensures Decompose(Join(t, '\t')) == Ok(ApplyInfo(FixedDisplay(t), segments) - {"INFO"})
  {
    SplitJoin(t, '\t');
    FixedFieldsDisplay(t[..|VCF_KEYS|]);
  }

  /** The eight fixed columns, written out. */
  lemma FixedFieldsDisplay(t: seq<string>)
    requires |t| >= |VCF_KEYS|
    ensures FixedFields(t, |VCF_KEYS|) == FixedDisplay(t)
  {
    assert FixedFields(t, 1) == map["CHROM" := Some(t[0])];
    assert FixedFields(t, 2) == map["CHROM" := Some(t[0]), "POS" := Some(t[1])];
    assert FixedFields(t, 3) == map["CHROM" := Some(t[0]), "POS" := Some(t[1]), "ID" := Some(t[2])];
    assert FixedFields(t, 4)
        == map["CHROM" := Some(t[0]), "POS" := Some(t[1]), "ID" := Some(t[2]), "REF" := Some(t[3])];
    assert FixedFields(t, 5)
        == map["CHROM" := Some(t[0]), "POS" := Some(t[1]), "ID" := Some(t[2]), "REF" := Some(t[3]),
               "ALT" := Some(t[4])];
    assert FixedFields(t, 6)
        == map["CHROM" := Some(t[0]), "POS" := Some(t[1]), "ID" := Some(t[2]), "REF" := Some(t[3]),
               "ALT" := Some(t[4]), "QUAL" := Some(t[5])];
    assert FixedFields(t, 7)
        == map["CHROM" := Some(t[0]), "POS" := Some(t[1]), "ID" := Some(t[2]), "REF" := Some(t[3]),
               "ALT" := Some(t[4]), "QUAL" := Some(t[5]), "FILTER" := Some(t[6])];
  }

  /** A line whose INFO token is the one segment `a`, inserted as (key, value). */
  lemma InfoOne(t: seq<string>, a: string, key: string, value: Option<string>)
    requires |t| >= |VCF_KEYS|
    requires forall k :: 0 <= k < |t| ==> '\t' !in t[k]
    requires Split(t[INFO_INDEX], ';') == [a] && InfoEntry(a) == (key, value)
    ensures Decompose(Join(t, '\t')) == Ok(FixedDisplay(t)[key := value] - {"INFO"})
  {
    DecomposeJoin(t, [a]);
    ApplyOne(FixedDisplay(t), a);
  }

  /** A line whose INFO token is the two segments `a` and `b`, inserted in that order. */
  lemma InfoTwo(t: seq<string>, a: string, b: string, ka: string, va: Option<string>, kb: string, vb: Option<string>)
    requires |t| >= |VCF_KEYS|
    requires forall k :: 0 <= k < |t| ==> '\t' !in t[k]
    requires Split(t[INFO_INDEX], ';') == [a, b] && InfoEntry(a) == (ka, va) && InfoEntry(b) == (kb, vb)
    ensures Decompose(Join(t, '\t')) == Ok(FixedDisplay(t)[ka := va][kb := vb] - {"INFO"})
  {
    DecomposeJoin(t, [a, b]);
    ApplyTwo(FixedDisplay(t), a, b);
  }

  /** The key inserted last holds its value once INFO is removed. */
  lemma LastInsert(d: Record, key: string, value: Option<string>)
    requires key != "INFO"
    ensures key in d[key := value] - {"INFO"} && (d[key := value] - {"INFO"})[key] == value
  {
  }

  /** An earlier insertion survives a later one under another key. */
  lemma EarlierInsert(d: Record, key: string, value: Option<string>, later: string, other: Option<string>)
    requires key != "INFO" && key != later
    ensures key in d[key := value][later := other] - {"INFO"}
    ensures (d[key := value][later := other] - {"INFO"})[key] == value
  {
  }

  /** Two segments merged over a record: the second is inserted last. */
  lemma ApplyTwo(d: Record, a: string, b: string)
    ensures ApplyInfo(d, [a, b]) == d[InfoEntry(a).0 := InfoEntry(a).1][InfoEntry(b).0 := InfoEntry(b).1]
  {
    assert [a, b][..1] == [a];
    ApplyOne(d, a);
  }

  /** One segment merged over a record. */
  lemma ApplyOne(d: Record, a: string)
    ensures ApplyInfo(d, [a]) == d[InfoEntry(a).0 := InfoEntry(a).1]
  {
    assert [a][..0] == [];
  }

  /** A segment with a '='-free key splits at the '=' after that key. */
  lemma InfoValued(key: string, val: string)
    requires '=' !in key
    ensures InfoEntry(key + "=" + val) == (key, Some(val))
  {
    FindAfterFree(key, "=" + val, '=');
    assert key + "=" + val == key + ("=" + val);
    var s := key + "=" + val;
    assert s[..|key|] == key && s[|key| + 1..] == val;
  }

  lemma SplitPair(a: string, b: string, sep: char)
    requires sep !in a && sep !in b
    ensures Split(a + [sep] + b, sep) == [a, b]
  {
    assert Join([a, b], sep) == a + [sep] + b;
    SplitJoin([a, b], sep);
  }

  lemma SplitOne(a: string, sep: char)
    requires sep !in a
    ensures Split(a, sep) == [a]
  {
    FindAbsent(a, sep);
  }

  /**
   * INFO `DP=10;DB`: a valued entry and a flag over the seven fixed columns;
   * for the line `1 100 rs1 A G 50 PASS DP=10;DB` this is the record
   * CHROM=1, POS=100, ID=rs1, REF=A, ALT=G, QUAL=50, FILTER=PASS, DP=10, DB.
   */
  lemma ValueAndFlag(t: seq<string>)
    requires |t| >= |VCF_KEYS| && t[INFO_INDEX] == "DP=10;DB"
    requires forall k :: 0 <= k < |t| ==> '\t' !in t[k]
    ensures Decompose(Join(t, '\t'))
         == Ok(map["CHROM" := Some(t[0]), "POS" := Some(t[1]), "ID" := Some(t[2]), "REF" := Some(t[3]),
                   "ALT" := Some(t[4]), "QUAL" := Some(t[5]), "FILTER" := Some(t[6]),
                   "DP" := Some("10"), "DB" := None])
  {
    assert "DP=10;DB" == "DP=10;" + "DB";
    SegmentsValueThenFlag("DB");
    InfoTwo(t, "DP=10", "DB", "DP", Some("10"), "DB", None);
    RecordValueAndFlag(t);
  }

  lemma RecordValueAndFlag(t: seq<string>)
    requires |t| >= |VCF_KEYS|
    ensures FixedDisplay(t)["DP" := Some("10")]["DB" := None] - {"INFO"}
         == map["CHROM" := Some(t[0]), "POS" := Some(t[1]), "ID" := Some(t[2]), "REF" := Some(t[3]),
                "ALT" := Some(t[4]), "QUAL" := Some(t[5]), "FILTER" := Some(t[6]),
                "DP" := Some("10"), "DB" := None]
  {
  }

  /** `DP=10;` followed by a flag segment: a valued entry, then the flag. */
  lemma SegmentsValueThenFlag(flag: string)
    requires ';' !in flag && '=' !in flag
    ensures Split("DP=10;" + flag, ';') == ["DP=10", flag]
    ensures InfoEntry("DP=10") == ("DP", Some("10")) && InfoEntry(flag) == (flag, None)
  {
    assert "DP=10;" + flag == "DP=10" + [';'] + flag;
    SplitPair("DP=10", flag, ';');
    assert "DP=10" == "DP" + "=" + "10";
    InfoValued("DP", "10");
  }

  /** INFO `A=1;A=2`: the last occurrence of a repeated key wins. */
  lemma LastWriteWins(t: seq<string>)
    requires |t| >= |VCF_KEYS| && t[INFO_INDEX] == "A=1;A=2"
    requires forall k :: 0 <= k < |t| ==> '\t' !in t[k]
    ensures Decompose(Join(t, '\t')).Ok?
    ensures "A" in Decompose(Join(t, '\t')).value
    ensures Decompose(Join(t, '\t')).value["A"] == Some("2")
  {
    SegmentsLastWriteWins();
    InfoTwo(t, "A=1", "A=2", "A", Some("1"), "A", Some("2"));
    LastInsert(FixedDisplay(t)["A" := Some("1")], "A", Some("2"));
  }

  lemma SegmentsLastWriteWins()
    ensures Split("A=1;A=2", ';') == ["A=1", "A=2"]
    ensures InfoEntry("A=1") == ("A", Some("1")) && InfoEntry("A=2") == ("A", Some("2"))
  {
    assert "A=1;A=2" == "A=1" + [';'] + "A=2";
    SplitPair("A=1", "A=2", ';');
    assert "A=1" == "A" + "=" + "1" && "A=2" == "A" + "=" + "2";
    InfoValued("A", "1");
    InfoValued("A", "2");
  }

  /** INFO `DB` and INFO `DB=` differ: a flag is `None`, an empty value is `Some("")`. */
  lemma FlagIsNotEmptyValue(t: seq<string>, u: seq<string>)
    requires |t| >= |VCF_KEYS| && t[INFO_INDEX] == "DB"
    requires |u| >= |VCF_KEYS| && u[INFO_INDEX] == "DB="
    requires forall k :: 0 <= k < |t| ==> '\t' !in t[k]
    requires forall k :: 0 <= k < |u| ==> '\t' !in u[k]
    ensures Decompose(Join(t, '\t')).Ok? && Decompose(Join(u, '\t')).Ok?
    ensures "DB" in Decompose(Join(t, '\t')).value && Decompose(Join(t, '\t')).value["DB"] == None
    ensures "DB" in Decompose(Join(u, '\t')).value && Decompose(Join(u, '\t')).value["DB"] == Some("")
  {
    SegmentsFlagAndEmpty();
    InfoOne(t, "DB", "DB", None);
    InfoOne(u, "DB=", "DB", Some(""));
    LastInsert(FixedDisplay(t), "DB", None);
    LastInsert(FixedDisplay(u), "DB", Some(""));
  }

  lemma SegmentsFlagAndEmpty()
    ensures Split("DB", ';') == ["DB"] && Split("DB=", ';') == ["DB="]
    ensures InfoEntry("DB") == ("DB", None) && InfoEntry("DB=") == ("DB", Some(""))
  {
    SplitOne("DB", ';');
    SplitOne("DB=", ';');
    assert '=' !in "DB";
    assert "DB=" == "DB" + "=" + "";
    InfoValued("DB", "");
  }

  /** An empty INFO is not skipped: it becomes the flag with the empty key. */
  lemma EmptyInfo(t: seq<string>)
    requires |t| >= |VCF_KEYS| && t[INFO_INDEX] == ""
    requires forall k :: 0 <= k < |t| ==> '\t' !in t[k]
    ensures Decompose(Join(t, '\t')).Ok?
    ensures "" in Decompose(Join(t, '\t')).value && Decompose(Join(t, '\t')).value[""] == None
  {
    SplitOne("", ';');
    InfoOne(t, "", "", None);
    LastInsert(FixedDisplay(t), "", None);
  }

  /** A trailing `;` also yields the flag with the empty key. */
  lemma TrailingSemicolon(t: seq<string>)
    requires |t| >= |VCF_KEYS| && t[INFO_INDEX] == "DP=10;"
    requires forall k :: 0 <= k < |t| ==> '\t' !in t[k]
    ensures Decompose(Join(t, '\t')).Ok?
    ensures "DP" in Decompose(Join(t, '\t')).value && Decompose(Join(t, '\t')).value["DP"] == Some("10")
    ensures "" in Decompose(Join(t, '\t')).value && Decompose(Join(t, '\t')).value[""] == None
  {
    SegmentsTrailingSemicolon();
    InfoTwo(t, "DP=10", "", "DP", Some("10"), "", None);
    EarlierInsert(FixedDisplay(t), "DP", Some("10"), "", None);
    LastInsert(FixedDisplay(t)["DP" := Some("10")], "", None);
  }

  lemma SegmentsTrailingSemicolon()
    ensures Split("DP=10;", ';') == ["DP=10", ""]
    ensures InfoEntry("DP=10") == ("DP", Some("10")) && InfoEntry("") == ("", None)
  {
    assert "DP=10;" == "DP=10" + [';'] + "";
    SplitPair("DP=10", "", ';');
    assert "DP=10" == "DP" + "=" + "10";
    InfoValued("DP", "10");
  }

  /** An INFO key named like a fixed column replaces that column's value. */
  lemma InfoOverwritesFixed(t: seq<string>)
    requires |t| >= |VCF_KEYS| && t[INFO_INDEX] == "POS=7"
    requires forall k :: 0 <= k < |t| ==> '\t' !in t[k]
    ensures Decompose(Join(t, '\t')).Ok?
    ensures "POS" in Decompose(Join(t, '\t')).value && Decompose(Join(t, '\t')).value["POS"] == Some("7")
  {
    SegmentsOverwrite();
    InfoOne(t, "POS=7", "POS", Some("7"));
    LastInsert(FixedDisplay(t), "POS", Some("7"));
  }

  lemma SegmentsOverwrite()
    ensures Split("POS=7", ';') == ["POS=7"]
    ensures InfoEntry("POS=7") == ("POS", Some("7"))
  {
    SplitOne("POS=7", ';');
    assert "POS=7" == "POS" + "=" + "7";
    InfoValued("POS", "7");
  }

  /**
   * Nothing strips the line: when INFO is the last column, the line's "\n"
   * stays in its last entry, here turning the flag `DB` into `DB\n`.
   */
  lemma NewlineStaysInInfo(t: seq<string>)
    requires |t| == |VCF_KEYS| && t[INFO_INDEX] == "DP=10;DB\n"
    requires forall k :: 0 <= k < |t| ==> '\t' !in t[k]
    ensures Decompose(Join(t, '\t')).Ok?
    ensures "DB\n" in Decompose(Join(t, '\t')).value && Decompose(Join(t, '\t')).value["DB\n"] == None
    ensures "DB" !in Decompose(Join(t, '\t')).value
  {
    SegmentsNewline();
    InfoTwo(t, "DP=10", "DB\n", "DP", Some("10"), "DB\n", None);
    FlagNotFixed(t);
    NewlineFacts(FixedDisplay(t));
  }

  lemma FlagNotFixed(t: seq<string>)
    requires |t| >= |VCF_KEYS|
    ensures "DB" !in FixedDisplay(t)
  {
    assert FixedDisplay(t).Keys == {"CHROM", "POS", "ID", "REF", "ALT", "QUAL", "FILTER", "INFO"};
  }

  lemma NewlineFacts(d: Record)
    requires "DB" !in d
    ensures var m := d["DP" := Some("10")]["DB\n" := None] - {"INFO"};
            "DB\n" in m && m["DB\n"] == None && "DB" !in m
  {
    assert "DB\n" != "INFO" && "DB" != "DP" && "DB" != "DB\n";
  }

  lemma SegmentsNewline()
    ensures Split("DP=10;DB\n", ';') == ["DP=10", "DB\n"]
    ensures InfoEntry("DP=10") == ("DP", Some("10")) && InfoEntry("DB\n") == ("DB\n", None)
  {
    assert "DP=10;DB\n" == "DP=10;" + "DB\n";
    assert ';' !in "DB\n" && '=' !in "DB\n";
    SegmentsValueThenFlag("DB\n");
  }

  /**
   * Two body lines projected on CHROM, POS and AF, where only the first has
   * `AF=0.5`: two rows in file order, and the second has no AF cell.
   */
  lemma ProjectTwoLines(t1: seq<string>, t2: seq<string>)
    requires |t1| >= |VCF_KEYS| && t1[INFO_INDEX] == "AF=0.5"
    requires |t2| >= |VCF_KEYS| && t2[INFO_INDEX] == "DP=3"
    requires forall k :: 0 <= k < |t1| ==> '\t' !in t1[k]
    requires forall k :: 0 <= k < |t2| ==> '\t' !in t2[k]
    ensures ExtractRows([Join(t1, '\t'), Join(t2, '\t')], ["CHROM", "POS", "AF"])
         == Ok([map["CHROM" := Some(t1[0]), "POS" := Some(t1[1]), "AF" := Some("0.5")],
                map["CHROM" := Some(t2[0]), "POS" := Some(t2[1])]])
  {
    RecordWithAf(t1);
    RecordWithoutAf(t2);
    ProjectWithAf(t1);
    ProjectWithoutAf(t2);
    ExtractTwo(Join(t1, '\t'), Join(t2, '\t'), ["CHROM", "POS", "AF"]);
  }

  lemma ExtractTwo(a: string, b: string, columns: seq<string>)
    requires Decompose(a).Ok? && Decompose(b).Ok?
    ensures ExtractRows([a, b], columns)
         == Ok([Project(Decompose(a).value, columns), Project(Decompose(b).value, columns)])
  {
    assert [a, b][..1] == [a] && [a][..0] == [];
    var empty: seq<string> := [];
    assert ExtractRows(empty, columns) == Ok([]);
    assert [] + [Project(Decompose(a).value, columns)] == [Project(Decompose(a).value, columns)];
    assert ExtractRows([a], columns) == Ok([Project(Decompose(a).value, columns)]);
    assert [Project(Decompose(a).value, columns)] + [Project(Decompose(b).value, columns)]
        == [Project(Decompose(a).value, columns), Project(Decompose(b).value, columns)];
  }

  lemma RecordWithAf(t: seq<string>)
    requires |t| >= |VCF_KEYS| && t[INFO_INDEX] == "AF=0.5"
    requires forall k :: 0 <= k < |t| ==> '\t' !in t[k]
    ensures Decompose(Join(t, '\t')) == Ok(FixedDisplay(t)["AF" := Some("0.5")] - {"INFO"})
  {
    SegmentsProjection();
    InfoOne(t, "AF=0.5", "AF", Some("0.5"));
  }

  lemma RecordWithoutAf(t: seq<string>)
    requires |t| >= |VCF_KEYS| && t[INFO_INDEX] == "DP=3"
    requires forall k :: 0 <= k < |t| ==> '\t' !in t[k]
    ensures Decompose(Join(t, '\t')) == Ok(FixedDisplay(t)["DP" := Some("3")] - {"INFO"})
  {
    SegmentsProjection();
    InfoOne(t, "DP=3", "DP", Some("3"));
  }

  lemma ProjectWithAf(t: seq<string>)
    requires |t| >= |VCF_KEYS|
    ensures Project(FixedDisplay(t)["AF" := Some("0.5")] - {"INFO"}, ["CHROM", "POS", "AF"])
         == map["CHROM" := Some(t[0]), "POS" := Some(t[1]), "AF" := Some("0.5")]
  {
    var rec := FixedDisplay(t)["AF" := Some("0.5")] - {"INFO"};
    assert rec["CHROM"] == Some(t[0]) && rec["POS"] == Some(t[1]) && rec["AF"] == Some("0.5");
    ProjectChromPosAf(rec);
  }

  lemma ProjectWithoutAf(t: seq<string>)
    requires |t| >= |VCF_KEYS|
    ensures Project(FixedDisplay(t)["DP" := Some("3")] - {"INFO"}, ["CHROM", "POS", "AF"])
         == map["CHROM" := Some(t[0]), "POS" := Some(t[1])]
  {
    var rec := FixedDisplay(t)["DP" := Some("3")] - {"INFO"};
    assert rec["CHROM"] == Some(t[0]) && rec["POS"] == Some(t[1]);
    assert rec.Keys == {"CHROM", "POS", "ID", "REF", "ALT", "QUAL", "FILTER", "DP"};
    ProjectChromPosAf(rec);
  }

  /** The projection on CHROM, POS and AF of a record holding CHROM and POS. */
  lemma ProjectChromPosAf(rec: Record)
    requires "CHROM" in rec && "POS" in rec
    ensures "AF" in rec ==> Project(rec, ["CHROM", "POS", "AF"])
                            == map["CHROM" := rec["CHROM"], "POS" := rec["POS"], "AF" := rec["AF"]]
    ensures "AF" !in rec ==> Project(rec, ["CHROM", "POS", "AF"])
                             == map["CHROM" := rec["CHROM"], "POS" := rec["POS"]]
  {
    var row := Project(rec, ["CHROM", "POS", "AF"]);
    assert forall k :: k in ["CHROM", "POS", "AF"] <==> k == "CHROM" || k == "POS" || k == "AF";
    if "AF" in rec {
      assert row.Keys == {"CHROM", "POS", "AF"};
    } else {
      assert row.Keys == {"CHROM", "POS"};
    }
  }

  lemma SegmentsProjection()
    ensures Split("AF=0.5", ';') == ["AF=0.5"] && Split("DP=3", ';') == ["DP=3"]
    ensures InfoEntry("AF=0.5") == ("AF", Some("0.5")) && InfoEntry("DP=3") == ("DP", Some("3"))
  {
    SplitOne("AF=0.5", ';');
    SplitOne("DP=3", ';');
    assert "AF=0.5" == "AF" + "=" + "0.5" && "DP=3" == "DP" + "=" + "3";
    InfoValued("AF", "0.5");
    InfoValued("DP", "3");
  }
}
