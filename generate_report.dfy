/** generate_report.py: reading back each experiment's CDF and summary
    files, the text comparison report and the run as a whole. The plots
    are not part of this model. */
module GenerateReport {
  import opened Wrappers
  import opened Text
  import opened Numerals
  import opened Samples
  import opened MergeHistograms

  // ---------------------------------------------------------------
  // load_summary

  /** A summary value: a number where float() accepts the text, else the
      text itself. */
  datatype Value = Num(x: real) | Str(s: string)

  type Summary = map<string, Value>

  /** float(text.rstrip('%')), or the text where float() raises. */
  function ParseValue(text: string): (v: Value)
    ensures v.Str? ==> v.s == text
  {
    match ParseDecimal(StripRightChar(text, '%'))
    case Some(x) => Num(x)
    case None => Str(text)
  }

  /** What one line contributes: a line holding ':' is split at its first
      ':' into a stripped key and a value; any other line is ignored. */
  function SummaryEntry(raw: string): (e: Option<(string, Value)>)
    ensures e.Some? <==> ':' in raw
  {
    if ':' !in raw then None
    else
      StripKeeps(raw, ':');
      Some(SplitEntry(Strip(raw)))
  }

  /** `key, value = line.split(':', 1)`, both sides stripped and the value
      parsed. */
  function SplitEntry(line: string): (string, Value)
    requires ':' in line
  {
    var k := FindChar(line, ':');
    (Strip(line[..k]), ParseValue(Strip(line[k + 1..])))
  }

  function Record(m: Summary, line: string): Summary
  {
    match SummaryEntry(line)
    case None => m
    case Some(e) => m[e.0 := e.1]
  }

  /** The dictionary after reading `lines` in order: a later line with
      the same key overwrites an earlier one. */
  function SummaryOf(lines: seq<string>): Summary
  {
    if |lines| == 0 then map[] else Record(SummaryOf(lines[..|lines| - 1]), lines[|lines| - 1])
  }

  method LoadSummary(lines: seq<string>) returns (summary: Summary)
    ensures summary == SummaryOf(lines)
  {
    summary := map[];
    for i := 0 to |lines|
      invariant LoadSummaryInv(lines, i, summary)
    {
      LoadSummaryStep(lines, i, summary);
      var line := lines[i];
      RecordOf(summary, line);
      if ':' in line {
        var entry := SplitEntry(Strip(line));
        summary := summary[entry.0 := entry.1];
      }
    }
    assert lines[..|lines|] == lines;
  }

  ghost predicate LoadSummaryInv(lines: seq<string>, i: int, summary: Summary) {
    0 <= i <= |lines| && summary == SummaryOf(lines[..i])
  }

  lemma LoadSummaryStep(lines: seq<string>, i: int, summary: Summary)
    requires LoadSummaryInv(lines, i, summary) && i < |lines|
    ensures LoadSummaryInv(lines, i + 1, Record(summary, lines[i]))
  {
    assert lines[..i + 1][..i] == lines[..i];
  }

  /** A line with ':' sets its key; any other line changes nothing. */
  lemma RecordOf(m: Summary, line: string)
    ensures ':' in line ==>
      ':' in Strip(line) && Record(m, line) == m[SplitEntry(Strip(line)).0 := SplitEntry(Strip(line)).1]
    ensures ':' !in line ==> Record(m, line) == m
  {
    if ':' in line {
      assert ':' in Strip(line) by { StripKeeps(line, ':'); }
      assert SummaryEntry(line) == Some(SplitEntry(Strip(line)));
    } else {
      assert SummaryEntry(line) == None;
    }
  }

  /** A key the writers use: no ':' and no surrounding whitespace. */
  predicate KeyText(name: string) {
    ':' !in name && (|name| == 0 || (!IsPySpace(name[0]) && !IsPySpace(name[|name| - 1])))
  }

  /** A value text with no surrounding whitespace. */
  predicate Padless(text: string) {
    |text| > 0 && !IsPySpace(text[0]) && !IsPySpace(text[|text| - 1])
  }

  /** A `Name: text` line reads back as the key and the parsed text. */
  lemma EntryOf(name: string, text: string)
    requires KeyText(name) && Padless(text)
    ensures SummaryEntry(KeyLine(name, text)) == Some((name, ParseValue(text)))
  {
    LineStripped(name, text);
    SplitEntryOf(name, text);
    StrippedEntry(KeyLine(name, text));
  }

  lemma StrippedEntry(line: string)
    requires ':' in line && Strip(line) == line
    ensures SummaryEntry(line) == Some(SplitEntry(line))
  {
  }

  lemma SplitEntryOf(name: string, text: string)
    requires KeyText(name) && Padless(text)
    ensures ':' in KeyLine(name, text)
    ensures SplitEntry(KeyLine(name, text)) == (name, ParseValue(text))
  {
    var line := KeyLine(name, text);
    ColonLine(name, text);
    SplitEntryParts(line, name, " " + text);
    KeyStripped(name);
    StripSpaceText(text);
  }

  /** The split in terms of the two sides of the first ':'. */
  lemma SplitEntryParts(line: string, key: string, rest: string)
    requires ':' in line
    requires line[..FindChar(line, ':')] == key && line[FindChar(line, ':') + 1..] == rest
    ensures SplitEntry(line) == (Strip(key), ParseValue(Strip(rest)))
  {
  }

  lemma KeyStripped(name: string)
    requires |name| == 0 || (!IsPySpace(name[0]) && !IsPySpace(name[|name| - 1]))
    ensures Strip(name) == name
  {
    if |name| > 0 {
      StripEnds(name);
    } else {
      assert StripLeft(name) == name && StripRight(name) == name;
    }
  }

  lemma ColonLine(name: string, text: string)
    requires ':' !in name
    ensures var line := KeyLine(name, text);
      ':' in line && FindChar(line, ':') == |name| && line[..|name|] == name && line[|name| + 1..] == " " + text
  {
    var line := KeyLine(name, text);
    assert line == name + [':'] + (" " + text);
    assert line[|name|] == ':';
    FindCharAfter(name, ':', " " + text);
  }

  lemma LineStripped(name: string, text: string)
    requires KeyText(name) && Padless(text)
    ensures Strip(KeyLine(name, text)) == KeyLine(name, text)
  {
    var line := KeyLine(name, text);
    assert !IsPySpace(line[0]) by {
      if |name| > 0 {
        assert line[0] == name[0];
      } else {
        assert line[0] == ':';
      }
    }
    assert line[|line| - 1] == text[|text| - 1];
    StripEnds(line);
  }

  lemma StripSpaceText(text: string)
    requires Padless(text)
    ensures Strip(" " + text) == text
  {
    assert StripLeft(" " + text) == StripLeft(text) by {
      assert (" " + text)[1..] == text;
    }
    StripEnds(text);
  }

  /** A numeral with no '%' at its end reads back as its number. */
  lemma NumeralValue(t: string, x: real)
    requires NumeralText(t) && ParseDecimal(t) == Some(x)
    ensures Padless(t) && ParseValue(t) == Num(x)
  {
    NumeralIsWord(t);
    assert StripRightChar(t, '%') == t;
  }

  /** A numeral followed by '%' reads back as the numeral's number. */
  lemma PercentValue(t: string, x: real)
    requires NumeralText(t) && ParseDecimal(t) == Some(x)
    ensures Padless(t + "%") && ParseValue(t + "%") == Num(x)
  {
    NumeralIsWord(t);
    assert (t + "%")[0] == t[0];
    assert StripRightChar(t + "%", '%') == StripRightChar(t, '%') by {
      assert (t + "%")[..|t|] == t;
    }
    assert StripRightChar(t, '%') == t;
  }

  /** Round trip with merge_histograms.py's `Name: {v:.4f}` lines. */
  lemma StatLineEntry(name: string, v: real)
    requires KeyText(name)
    ensures SummaryEntry(StatLine(name, v)) == Some((name, Num(Rounded(v, 4))))
  {
    var t := FormatFixed(v, 4);
    assert Padless(t) && ParseValue(t) == Num(Rounded(v, 4)) by {
      FormatFixedNumeral(v, 4);
      ParseFormatFixed(v, 4);
      NumeralValue(t, Rounded(v, 4));
    }
    EntryOf(name, t);
  }

  /** A percentage such as `Deadline Miss Rate: 1.2500%` reads back as
      the number without its '%'. */
  lemma PercentLineEntry(name: string, v: real)
    requires KeyText(name)
    ensures SummaryEntry(KeyLine(name, FormatFixed(v, 4) + "%")) == Some((name, Num(Rounded(v, 4))))
  {
    var t := FormatFixed(v, 4);
    assert Padless(t + "%") && ParseValue(t + "%") == Num(Rounded(v, 4)) by {
      FormatFixedNumeral(v, 4);
      ParseFormatFixed(v, 4);
      PercentValue(t, Rounded(v, 4));
    }
    EntryOf(name, t + "%");
  }

  /** `Total Samples: n` reads back as the number n. */
  lemma CountLineEntry(n: nat)
    ensures SummaryEntry(KeyLine("Total Samples", NatToString(n))) == Some(("Total Samples", Num(n as real)))
  {
    var t := NatToString(n);
    assert Padless(t) && ParseValue(t) == Num(n as real) by {
      NatToStringNumeral(n);
      ParseNatToString(n);
      NumeralValue(t, n as real);
    }
    LiteralKeys();
    EntryOf("Total Samples", t);
  }

  /** `Unit: us` is no number, so the text itself is kept. */
  lemma UnitLineEntry(u: Unit)
    ensures SummaryEntry(KeyLine("Unit", UnitName(u))) == Some(("Unit", Str(UnitName(u))))
  {
    var t := UnitName(u);
    assert Padless(t) && ParseValue(t) == Str(t) by {
      UnitValue(u);
    }
    LiteralKeys();
    EntryOf("Unit", t);
  }

  lemma LiteralKeys()
    ensures KeyText("Total Samples") && KeyText("Unit") && KeyText("Mean")
    ensures KeyText("Stddev") && KeyText("Min") && KeyText("Max")
  {
  }

  lemma UnitValue(u: Unit)
    ensures Padless(UnitName(u)) && ParseValue(UnitName(u)) == Str(UnitName(u))
  {
    var t := UnitName(u);
    assert StripRightChar(t, '%') == t;
    NoNumber(t);
  }

  /** A word starting with a lower-case letter is no number for float(). */
  lemma NoNumber(t: string)
    requires |t| > 0 && NoSpace(t) && 'a' <= t[0] <= 'z'
    ensures ParseDecimal(t) == None
  {
    StripNoSpace(t);
    assert SignSplit(t) == (false, t);
    var k := FindChar(t, '.');
    assert k > 0;
    assert !AllDigits(t[..k]) by {
      assert t[..k][0] == t[0];
    }
  }

  // ---------------------------------------------------------------
  // reading back the summary merge_histograms.py writes

  /** The dictionary built from `entries` in order, later keys winning. */
  function MapOf(entries: seq<(string, Value)>): Summary
  {
    if |entries| == 0 then map[]
    else MapOf(entries[..|entries| - 1])[entries[|entries| - 1].0 := entries[|entries| - 1].1]
  }

  lemma {:induction false} SummaryOfEntries(lines: seq<string>, entries: seq<(string, Value)>)
    requires |lines| == |entries|
    requires forall i :: 0 <= i < |lines| ==> SummaryEntry(lines[i]) == Some(entries[i])
    ensures SummaryOf(lines) == MapOf(entries)
  {
    if |lines| > 0 {
      SummaryOfEntries(lines[..|lines| - 1], entries[..|entries| - 1]);
    }
  }

  /** The last entry with a key decides its value. */
  lemma {:induction false} MapOfLast(entries: seq<(string, Value)>, j: nat)
    requires j < |entries|
    requires forall i :: j < i < |entries| ==> entries[i].0 != entries[j].0
    ensures entries[j].0 in MapOf(entries) && MapOf(entries)[entries[j].0] == entries[j].1
  {
    if j < |entries| - 1 {
      MapOfLast(entries[..|entries| - 1], j);
    }
  }

  lemma {:induction false} MapOfAbsent(entries: seq<(string, Value)>, key: string)
    requires forall i :: 0 <= i < |entries| ==> entries[i].0 != key
    ensures key !in MapOf(entries)
  {
    if |entries| > 0 {
      MapOfAbsent(entries[..|entries| - 1], key);
    }
  }

  /** What each line of the merged summary file reads back as. */
  function MergedEntries(combined: seq<real>, u: Unit, sqrt: real -> real): (r: seq<(string, Value)>)
    requires |combined| > 0
    ensures |r| == 6 + |LEVELS|
  {
    var scaled := Scale(combined, Divisor(u));
    [("Total Samples", Num(|combined| as real)), ("Unit", Str(UnitName(u))),
     ("Mean", Num(Rounded(Mean(scaled), 4))), ("Stddev", Num(Rounded(sqrt(Variance(scaled)), 4))),
     ("Min", Num(Rounded(Min(scaled), 4))), ("Max", Num(Rounded(Max(scaled), 4)))] +
      seq(|LEVELS|, k requires 0 <= k < |LEVELS| =>
        ("P" + LEVELS[k].name, Num(Rounded(Percentile(scaled, LEVELS[k].value), 4))))
  }

  lemma LevelKeys()
    ensures forall k :: 0 <= k < |LEVELS| ==> KeyText("P" + LEVELS[k].name) && |LEVELS[k].name| <= 5
    ensures forall k, l :: 0 <= k < l < |LEVELS| ==> "P" + LEVELS[k].name != "P" + LEVELS[l].name
  {
    forall k | 0 <= k < |LEVELS| ensures KeyText("P" + LEVELS[k].name) {
      var key := "P" + LEVELS[k].name;
      assert forall i :: 0 <= i < |key| ==> key[i] == 'P' || key[i] == '.' || IsDigit(key[i]);
    }
    forall k, l | 0 <= k < l < |LEVELS| ensures "P" + LEVELS[k].name != "P" + LEVELS[l].name {
      assert ("P" + LEVELS[k].name)[1..] == LEVELS[k].name;
      assert ("P" + LEVELS[l].name)[1..] == LEVELS[l].name;
    }
  }

  /** The first six lines: count, unit, mean, deviation, minimum, maximum. */
  lemma MergedHeadEntries(combined: seq<real>, u: Unit, sqrt: real -> real)
    requires |combined| > 0
    ensures var lines := SummaryLines(combined, u, sqrt);
      var entries := MergedEntries(combined, u, sqrt);
      forall i :: 0 <= i < 6 ==> SummaryEntry(lines[i]) == Some(entries[i])
  {
    var scaled := Scale(combined, Divisor(u));
    var lines := SummaryLines(combined, u, sqrt);
    var entries := MergedEntries(combined, u, sqrt);
    assert lines[..6] == [KeyLine("Total Samples", NatToString(|combined|)), KeyLine("Unit", UnitName(u)),
      StatLine("Mean", Mean(scaled)), StatLine("Stddev", sqrt(Variance(scaled))),
      StatLine("Min", Min(scaled)), StatLine("Max", Max(scaled))];
    assert entries[..6] == [("Total Samples", Num(|combined| as real)), ("Unit", Str(UnitName(u))),
      ("Mean", Num(Rounded(Mean(scaled), 4))), ("Stddev", Num(Rounded(sqrt(Variance(scaled)), 4))),
      ("Min", Num(Rounded(Min(scaled), 4))), ("Max", Num(Rounded(Max(scaled), 4)))];
    LiteralKeys();
    forall i | 0 <= i < 6 ensures SummaryEntry(lines[i]) == Some(entries[i]) {
      assert lines[i] == lines[..6][i] && entries[i] == entries[..6][i];
      if i == 0 {
        CountLineEntry(|combined|);
      } else if i == 1 {
        UnitLineEntry(u);
      } else if i == 2 {
        StatLineEntry("Mean", Mean(scaled));
      } else if i == 3 {
        StatLineEntry("Stddev", sqrt(Variance(scaled)));
      } else if i == 4 {
        StatLineEntry("Min", Min(scaled));
      } else {
        StatLineEntry("Max", Max(scaled));
      }
    }
  }

  /** The line of the k-th percentile level. */
  lemma MergedLevelEntry(combined: seq<real>, u: Unit, sqrt: real -> real, k: nat)
    requires |combined| > 0 && k < |LEVELS|
    ensures SummaryEntry(SummaryLines(combined, u, sqrt)[6 + k]) == Some(MergedEntries(combined, u, sqrt)[6 + k])
  {
    LevelsValid();
    var name := "P" + LEVELS[k].name;
    var v := Percentile(Scale(combined, Divisor(u)), LEVELS[k].value);
    LevelLineAt(combined, u, sqrt, k);
    LevelEntryAt(combined, u, sqrt, k);
    LevelKeys();
    StatLineEntry(name, v);
  }

  lemma LevelLineAt(combined: seq<real>, u: Unit, sqrt: real -> real, k: nat)
    requires |combined| > 0 && k < |LEVELS|
    ensures ValidLevels(LEVELS)
    ensures SummaryLines(combined, u, sqrt)[6 + k] ==
      StatLine("P" + LEVELS[k].name, Percentile(Scale(combined, Divisor(u)), LEVELS[k].value))
  {
    LevelsValid();
    var stats := ComputePercentiles(Scale(combined, Divisor(u)), LEVELS);
    assert stats[k] == ("P" + LEVELS[k].name, Percentile(Scale(combined, Divisor(u)), LEVELS[k].value));
  }

  lemma LevelEntryAt(combined: seq<real>, u: Unit, sqrt: real -> real, k: nat)
    requires |combined| > 0 && k < |LEVELS|
    ensures ValidLevels(LEVELS)
    ensures MergedEntries(combined, u, sqrt)[6 + k] ==
      ("P" + LEVELS[k].name, Num(Rounded(Percentile(Scale(combined, Divisor(u)), LEVELS[k].value), 4)))
  {
    LevelsValid();
  }

  lemma MergedLines(combined: seq<real>, u: Unit, sqrt: real -> real)
    requires |combined| > 0
    ensures SummaryOf(SummaryLines(combined, u, sqrt)) == MapOf(MergedEntries(combined, u, sqrt))
  {
    var lines := SummaryLines(combined, u, sqrt);
    var entries := MergedEntries(combined, u, sqrt);
    MergedHeadEntries(combined, u, sqrt);
    forall i | 6 <= i < |lines| ensures SummaryEntry(lines[i]) == Some(entries[i]) {
      MergedLevelEntry(combined, u, sqrt, i - 6);
    }
    SummaryOfEntries(lines, entries);
  }

  /** Which keys the entries hold: the count's key once, the level keys
      once each, and no deadline miss rate. */
  lemma MergedKeys(combined: seq<real>, u: Unit, sqrt: real -> real)
    requires |combined| > 0
    ensures var entries := MergedEntries(combined, u, sqrt);
      (forall i :: 0 < i < |entries| ==> entries[i].0 != "Total Samples") &&
      (forall i :: 0 <= i < |entries| ==> entries[i].0 != MISS_KEY) &&
      (forall i, j :: 6 <= i < j < |entries| ==> entries[i].0 != entries[j].0)
  {
    var entries := MergedEntries(combined, u, sqrt);
    MergedEntryKeys(combined, u, sqrt);
    KeysApart(entries);
  }

  /** The keys of the entries, by position. */
  lemma MergedEntryKeys(combined: seq<real>, u: Unit, sqrt: real -> real)
    requires |combined| > 0
    ensures var entries := MergedEntries(combined, u, sqrt);
      entries[0].0 == "Total Samples" && (forall i :: 0 < i < 6 ==> |entries[i].0| <= 6) &&
      forall k :: 0 <= k < |LEVELS| ==> entries[6 + k].0 == "P" + LEVELS[k].name
  {
    var entries := MergedEntries(combined, u, sqrt);
    assert entries[..6] == [("Total Samples", entries[0].1), ("Unit", entries[1].1), ("Mean", entries[2].1),
      ("Stddev", entries[3].1), ("Min", entries[4].1), ("Max", entries[5].1)];
    forall i | 0 < i < 6 ensures |entries[i].0| <= 6 {
      assert entries[i] == entries[..6][i];
    }
  }

  /** Keys laid out as in the merged summary are apart where it matters. */
  lemma KeysApart(entries: seq<(string, Value)>)
    requires |entries| == 6 + |LEVELS|
    requires entries[0].0 == "Total Samples" && forall i :: 0 < i < 6 ==> |entries[i].0| <= 6
    requires forall k :: 0 <= k < |LEVELS| ==> entries[6 + k].0 == "P" + LEVELS[k].name
    ensures forall i :: 0 < i < |entries| ==> entries[i].0 != "Total Samples"
    ensures forall i :: 0 <= i < |entries| ==> entries[i].0 != MISS_KEY
    ensures forall i, j :: 6 <= i < j < |entries| ==> entries[i].0 != entries[j].0
  {
    LevelKeys();
    assert |"Total Samples"| == 13 && |MISS_KEY| == 18;
    forall i | 6 <= i < |entries| ensures entries[i].0 == "P" + LEVELS[i - 6].name && |entries[i].0| <= 6 {
      var k := i - 6;
      assert entries[6 + k].0 == "P" + LEVELS[k].name;
    }
  }

  /** What generate_report.py finds in the summary of a merge: the sample
      count, every percentile level to 4 decimals, and no deadline miss
      rate. */
  predicate MergedReadBack(m: Summary, combined: seq<real>, u: Unit)
    requires |combined| > 0
  {
    LevelsValid();
    var scaled := Scale(combined, Divisor(u));
    "Total Samples" in m && m["Total Samples"] == Num(|combined| as real) &&
    MISS_KEY !in m &&
    forall k :: 0 <= k < |LEVELS| ==>
      "P" + LEVELS[k].name in m &&
      m["P" + LEVELS[k].name] == Num(Rounded(Percentile(scaled, LEVELS[k].value), 4))
  }

  /** Reading back merge_histograms.py's summary file. */
  lemma MergedSummaryRead(combined: seq<real>, u: Unit, sqrt: real -> real)
    requires |combined| > 0
    ensures MergedReadBack(SummaryOf(SummaryLines(combined, u, sqrt)), combined, u)
  {
    MergedLines(combined, u, sqrt);
    MergedMapRead(combined, u, sqrt);
  }

  lemma MergedMapRead(combined: seq<real>, u: Unit, sqrt: real -> real)
    requires |combined| > 0
    ensures MergedReadBack(MapOf(MergedEntries(combined, u, sqrt)), combined, u)
  {
    var entries := MergedEntries(combined, u, sqrt);
    var scaled := Scale(combined, Divisor(u));
    var m := MapOf(entries);
    assert "Total Samples" in m && m["Total Samples"] == Num(|combined| as real) by {
      MergedKeys(combined, u, sqrt);
      MapOfLast(entries, 0);
    }
    assert MISS_KEY !in m by {
      MergedKeys(combined, u, sqrt);
      MapOfAbsent(entries, MISS_KEY);
    }
    LevelsValid();
    forall k | 0 <= k < |LEVELS|
      ensures "P" + LEVELS[k].name in m &&
        m["P" + LEVELS[k].name] == Num(Rounded(Percentile(scaled, LEVELS[k].value), 4))
    {
      MergedLevelRead(combined, u, sqrt, k);
      LevelEntryAt(combined, u, sqrt, k);
    }
  }

  /** Each level's line is the last one under its key. */
  lemma MergedLevelRead(combined: seq<real>, u: Unit, sqrt: real -> real, k: nat)
    requires |combined| > 0 && k < |LEVELS|
    ensures var entries := MergedEntries(combined, u, sqrt);
      entries[6 + k].0 in MapOf(entries) && MapOf(entries)[entries[6 + k].0] == entries[6 + k].1
  {
    MergedKeys(combined, u, sqrt);
    MapOfLast(MergedEntries(combined, u, sqrt), 6 + k);
  }

  // ---------------------------------------------------------------
  // load_cdf

  /** The two columns of a CDF file. */
  datatype CdfData = CdfData(percentiles: seq<real>, latencies: seq<real>)

  /** A data line: ignored with fewer than two fields, a point when both
      fields are numbers, and ValueError otherwise. */
  datatype CdfRowResult = Skip | Row(percentile: real, latency: real) | Malformed

  function CdfRow(line: string): CdfRowResult
  {
    var parts := SplitOn(Strip(line), ',');
    if |parts| < 2 then Skip
    else
      match (ParseDecimal(parts[0]), ParseDecimal(parts[1]))
      case (Some(p), Some(l)) => Row(p, l)
      case _ => Malformed
  }

  /** The data lines in order; None once one of them raises. */
  function CdfRows(rows: seq<string>): (r: Option<CdfData>)
    ensures r.Some? ==> |r.value.percentiles| == |r.value.latencies| <= |rows|
  {
    if |rows| == 0 then Some(CdfData([], []))
    else
      match CdfRows(rows[..|rows| - 1])
      case None => None
      case Some(d) =>
        match CdfRow(rows[|rows| - 1])
        case Skip => Some(d)
        case Row(p, l) => Some(CdfData(d.percentiles + [p], d.latencies + [l]))
        case Malformed => None
  }

  /** The whole file: the first line is the header and is skipped. */
  function CdfOf(lines: seq<string>): Option<CdfData>
  {
    if |lines| == 0 then Some(CdfData([], [])) else CdfRows(lines[1..])
  }

  method LoadCdf(lines: seq<string>) returns (r: Option<CdfData>)
    ensures r == CdfOf(lines)
  {
    if |lines| == 0 {
      return Some(CdfData([], []));
    }
    var rows := lines[1..];
    var percentiles, latencies := [], [];
    for i := 0 to |rows|
      invariant CdfRows(rows[..i]) == Some(CdfData(percentiles, latencies))
    {
      var row := CdfRow(rows[i]);
      CdfRowsStep(rows, i, CdfData(percentiles, latencies));
      if row.Malformed? {
        CdfRowsFailed(rows, i + 1);
        return None;
      }
      if row.Row? {
        percentiles := percentiles + [row.percentile];
        latencies := latencies + [row.latency];
      }
    }
    assert rows[..|rows|] == rows;
    r := Some(CdfData(percentiles, latencies));
  }

  /** Reading one more line: skipped, appended, or the load fails. */
  lemma CdfRowsStep(rows: seq<string>, i: nat, d: CdfData)
    requires i < |rows| && CdfRows(rows[..i]) == Some(d)
    ensures CdfRows(rows[..i + 1]) ==
      match CdfRow(rows[i])
      case Skip => Some(d)
      case Row(p, l) => Some(CdfData(d.percentiles + [p], d.latencies + [l]))
      case Malformed => None
  {
    assert rows[..i + 1][..i] == rows[..i];
  }

  /** A line that raises ends the whole load. */
  lemma {:induction false} CdfRowsFailed(rows: seq<string>, i: nat)
    requires i <= |rows| && CdfRows(rows[..i]) == None
    ensures CdfRows(rows) == None
    decreases |rows| - i
  {
    if i < |rows| {
      assert rows[..i + 1][..i] == rows[..i];
      CdfRowsFailed(rows, i + 1);
    } else {
      assert rows[..i] == rows;
    }
  }

  function Firsts(pairs: seq<(real, real)>): (r: seq<real>)
    ensures |r| == |pairs| && forall i :: 0 <= i < |pairs| ==> r[i] == pairs[i].0
  {
    seq(|pairs|, i requires 0 <= i < |pairs| => pairs[i].0)
  }

  function Seconds(pairs: seq<(real, real)>): (r: seq<real>)
    ensures |r| == |pairs| && forall i :: 0 <= i < |pairs| ==> r[i] == pairs[i].1
  {
    seq(|pairs|, i requires 0 <= i < |pairs| => pairs[i].1)
  }

  lemma {:induction false} CdfRowsOfPairs(rows: seq<string>, pairs: seq<(real, real)>)
    requires |rows| == |pairs|
    requires forall i :: 0 <= i < |rows| ==> CdfRow(rows[i]) == Row(pairs[i].0, pairs[i].1)
    ensures CdfRows(rows) == Some(CdfData(Firsts(pairs), Seconds(pairs)))
  {
    if |rows| > 0 {
      var n := |rows| - 1;
      var init := Some(CdfData(Firsts(pairs[..n]), Seconds(pairs[..n])));
      assert CdfRows(rows[..n]) == init by {
        forall i | 0 <= i < n ensures CdfRow(rows[..n][i]) == Row(pairs[..n][i].0, pairs[..n][i].1) {
          assert rows[..n][i] == rows[i] && pairs[..n][i] == pairs[i];
        }
        CdfRowsOfPairs(rows[..n], pairs[..n]);
      }
      assert CdfRow(rows[n]) == Row(pairs[n].0, pairs[n].1);
      ColumnsLast(pairs);
    }
  }

  lemma ColumnsLast(pairs: seq<(real, real)>)
    requires |pairs| > 0
    ensures var n := |pairs| - 1;
      Firsts(pairs) == Firsts(pairs[..n]) + [pairs[n].0] &&
      Seconds(pairs) == Seconds(pairs[..n]) + [pairs[n].1]
  {
    var n := |pairs| - 1;
    var f, g := Firsts(pairs[..n]) + [pairs[n].0], Seconds(pairs[..n]) + [pairs[n].1];
    forall i | 0 <= i < |pairs| ensures f[i] == Firsts(pairs)[i] && g[i] == Seconds(pairs)[i] {
      if i < n {
        assert pairs[..n][i] == pairs[i];
      }
    }
  }

  /** A stripped line of two number fields is a point. */
  lemma CdfRowOfFields(line: string, a: string, b: string, p: real, l: real)
    requires SplitOn(Strip(line), ',') == [a, b]
    requires ParseDecimal(a) == Some(p) && ParseDecimal(b) == Some(l)
    ensures CdfRow(line) == Row(p, l)
  {
  }

  /** A row merge_histograms.py writes reads back as its rounded point. */
  lemma CdfRowOfFormatted(p: real, l: real)
    ensures CdfRow(FormatFixed(p, 4) + "," + FormatFixed(l, 4)) == Row(Rounded(p, 4), Rounded(l, 4))
  {
    var a, b := FormatFixed(p, 4), FormatFixed(l, 4);
    var line := a + "," + b;
    assert SplitOn(Strip(line), ',') == [a, b] by {
      FormatFixedNumeral(p, 4);
      FormatFixedNumeral(l, 4);
      RawRowStripped(a, b);
      RawRowSplit(a, b);
    }
    assert ParseDecimal(a) == Some(Rounded(p, 4)) && ParseDecimal(b) == Some(Rounded(l, 4)) by {
      ParseFormatFixed(p, 4);
      ParseFormatFixed(l, 4);
    }
    CdfRowOfFields(line, a, b, Rounded(p, 4), Rounded(l, 4));
  }

  /** Round trip: the CDF file merge_histograms.py writes reads back as
      its points, each rounded to 4 decimals, in order. */
  lemma CdfRoundTrip(cdf: seq<(real, real)>, u: Unit)
    ensures var r := CdfOf(CdfLines(cdf, u));
      r.Some? && |r.value.percentiles| == |cdf| &&
      forall i :: 0 <= i < |cdf| ==>
        r.value.percentiles[i] == Rounded(cdf[i].0, 4) && r.value.latencies[i] == Rounded(cdf[i].1, 4)
  {
    var rows := CdfLines(cdf, u)[1..];
    var pairs := seq(|cdf|, i requires 0 <= i < |cdf| => (Rounded(cdf[i].0, 4), Rounded(cdf[i].1, 4)));
    forall i | 0 <= i < |rows| ensures CdfRow(rows[i]) == Row(pairs[i].0, pairs[i].1) {
      CdfRowOfFormatted(cdf[i].0, cdf[i].1);
    }
    CdfRowsOfPairs(rows, pairs);
  }

  // ---------------------------------------------------------------
  // generate_text_report

  const EXP_A := "exp_a_po2"
  const EXP_B := "exp_b_malcolm"
  const EXP_C := "exp_c_malcolm_strict"
  const EXPERIMENTS: seq<string> := [EXP_A, EXP_B, EXP_C]
  const MISS_KEY := "Deadline Miss Rate"

  /** What was loaded for one experiment directory. */
  datatype ExpData = ExpData(cdf: Option<CdfData>, summary: Option<Summary>)

  /** Why the script stops: one of its two exits with status 1, a
      ValueError from float() or from a `:.Nf` format, or a TypeError from
      arithmetic on a text value. */
  datatype ReportError =
    | ResultsDirMissing
    | NoExperimentData
    | CdfUnreadable(experiment: string)
    | FormatFailed(key: string)
    | NotANumber(key: string)

  function Title(name: string): string
  {
    if name == EXP_A then "Experiment A: Power-of-2 (Baseline 1)"
    else if name == EXP_B then "Experiment B: Original Malcolm (Baseline 2)"
    else if name == EXP_C then "Experiment C: Malcolm-Strict (Our Method)"
    else name
  }

  /** Python's c * n. */
  function Rule(c: char, n: nat): (r: string)
    ensures |r| == n
  {
    seq(n, _ => c)
  }

  const MICROS := "\U{03BC}s"

  /** The six summary lines, given the text of each field. */
  function SummaryRows(total: string, p50: string, p99: string, p999: string, p9999: string, miss: string): seq<string>
  {
    ["  Total Samples: " + total,
     "  P50 Latency:   " + p50 + " " + MICROS,
     "  P99 Latency:   " + p99 + " " + MICROS,
     "  P99.9 Latency: " + p999 + " " + MICROS,
     "  P99.99 Latency:" + p9999 + " " + MICROS,
     "  Miss Rate:     " + miss + "%"]
  }

  /** `{summary.get(key, 'N/A')}`: str() of the value, with `repr` giving
      Python's shortest repr of a float. */
  function PlainField(s: Summary, key: string, repr: real -> string): string
  {
    if key !in s then "N/A"
    else match s[key]
      case Num(x) => repr(x)
      case Str(t) => t
  }

  /** `{summary.get(key, 'N/A'):.<d>f}` as written: only a number formats;
      the 'N/A' default and a text value raise ValueError. */
  function FixedField(s: Summary, key: string, d: nat): (r: Result<string, ReportError>)
    ensures r.Ok? <==> key in s && s[key].Num?
    ensures r.Err? ==> r.error == FormatFailed(key)
  {
    if key in s && s[key].Num? then Ok(FormatFixed(s[key].x, d)) else Err(FormatFailed(key))
  }

  /** The field as intended: a number to d decimals, a text as itself and
      a missing key as N/A. */
  function FieldOrNA(s: Summary, key: string, d: nat): string
  {
    if key !in s then "N/A"
    else match s[key]
      case Num(x) => FormatFixed(x, d)
      case Str(t) => t
  }

  /** The summary lines as written: the first field that is not a number
      raises. */
  function SummaryBlockAsWritten(s: Summary, repr: real -> string): Result<seq<string>, ReportError>
  {
    var p50 :- FixedField(s, "P50", 2);
    var p99 :- FixedField(s, "P99", 2);
    var p999 :- FixedField(s, "P99.9", 2);
    var p9999 :- FixedField(s, "P99.99", 2);
    var miss :- FixedField(s, MISS_KEY, 4);
    Ok(SummaryRows(PlainField(s, "Total Samples", repr), p50, p99, p999, p9999, miss))
  }

  function SummaryBlock(s: Summary, repr: real -> string): seq<string>
  {
    SummaryRows(PlainField(s, "Total Samples", repr), FieldOrNA(s, "P50", 2), FieldOrNA(s, "P99", 2),
      FieldOrNA(s, "P99.9", 2), FieldOrNA(s, "P99.99", 2), FieldOrNA(s, MISS_KEY, 4))
  }

  /** The keys the summary block formats as numbers. */
  const FIXED_KEYS: seq<string> := ["P50", "P99", "P99.9", "P99.99", MISS_KEY]

  predicate Numeric(s: Summary, key: string) {
    key in s && s[key].Num?
  }

  /** The block as written succeeds exactly when all five formatted keys
      hold numbers, and then prints what the intended block prints. */
  lemma SummaryBlockAsWrittenOk(s: Summary, repr: real -> string)
    ensures SummaryBlockAsWritten(s, repr).Ok? <==> forall i :: 0 <= i < |FIXED_KEYS| ==> Numeric(s, FIXED_KEYS[i])
    ensures SummaryBlockAsWritten(s, repr).Ok? ==> SummaryBlockAsWritten(s, repr).value == SummaryBlock(s, repr)
  {
    if forall i :: 0 <= i < |FIXED_KEYS| ==> Numeric(s, FIXED_KEYS[i]) {
      assert Numeric(s, FIXED_KEYS[0]) && Numeric(s, FIXED_KEYS[1]) && Numeric(s, FIXED_KEYS[2]);
      assert Numeric(s, FIXED_KEYS[3]) && Numeric(s, FIXED_KEYS[4]);
    }
  }

  function Block(name: string, body: seq<string>): seq<string>
  {
    [Rule('-', 40), Title(name), Rule('-', 40)] + body + [""]
  }

  const NO_DATA: seq<string> := ["  [No data available]"]

  function ExperimentBlockAsWritten(name: string, d: ExpData, repr: real -> string): Result<seq<string>, ReportError>
  {
    match d.summary
    case None => Ok(Block(name, NO_DATA))
    case Some(s) =>
      var body :- SummaryBlockAsWritten(s, repr);
      Ok(Block(name, body))
  }

  function ExperimentBlock(name: string, d: ExpData, repr: real -> string): seq<string>
  {
    Block(name, if d.summary.Some? then SummaryBlock(d.summary.value, repr) else NO_DATA)
  }

  /** One block per listed experiment that was loaded, in list order. */
  function BlocksAsWritten(exp: map<string, ExpData>, names: seq<string>, repr: real -> string): (r: Result<seq<string>, ReportError>)
    ensures r.Err? ==> r.error.FormatFailed?
  {
    if |names| == 0 then Ok([])
    else
      var init :- BlocksAsWritten(exp, names[..|names| - 1], repr);
      var n := names[|names| - 1];
      if n !in exp then Ok(init)
      else
        var b :- ExperimentBlockAsWritten(n, exp[n], repr);
        Ok(init + b)
  }

  function Blocks(exp: map<string, ExpData>, names: seq<string>, repr: real -> string): seq<string>
  {
    if |names| == 0 then []
    else
      var init := Blocks(exp, names[..|names| - 1], repr);
      var n := names[|names| - 1];
      if n !in exp then init else init + ExperimentBlock(n, exp[n], repr)
  }

  /** There is a block for every loaded experiment and for nothing else. */
  lemma {:induction false} BlocksEmpty(exp: map<string, ExpData>, names: seq<string>, repr: real -> string)
    ensures Blocks(exp, names, repr) == [] <==> forall i :: 0 <= i < |names| ==> names[i] !in exp
  {
    if |names| > 0 {
      var n := |names| - 1;
      BlocksEmpty(exp, names[..n], repr);
      assert forall i :: 0 <= i < n ==> names[..n][i] == names[i];
    }
  }

  /** `summary.get(key, default)` where arithmetic follows: a text value
      raises TypeError. */
  function Number(s: Summary, key: string, default: real): (r: Result<real, ReportError>)
    ensures r.Err? <==> key in s && s[key].Str?
    ensures r.Ok? ==> r.value == (if key in s then s[key].x else default)
  {
    if key !in s then Ok(default)
    else match s[key]
      case Num(x) => Ok(x)
      case Str(_) => Err(NotANumber(key))
  }

  function RealMax(a: real, b: real): (r: real)
    ensures r >= a && r >= b && (r == a || r == b)
  {
    if a >= b then a else b
  }

  /** The P99.9 improvement and the miss-rate reduction of `proposed`
      over `base`, as the script computes them. */
  function Comparison(base: Summary, proposed: Summary): Result<(real, real), ReportError>
  {
    var b :- Number(base, "P99.9", 0.0);
    var p :- Number(proposed, "P99.9", 0.0);
    var bd := Number(base, "P99.9", 1.0).value;
    var bm :- Number(base, MISS_KEY, 0.0);
    var pm :- Number(proposed, MISS_KEY, 0.0);
    Ok(((b - p) / RealMax(bd, 1.0) * 100.0, bm - pm))
  }

  /** Relative tail improvement in percent, the divisor kept at least 1. */
  function TailImprovement(base: real, proposed: real): real
  {
    (base - proposed) / RealMax(base, 1.0) * 100.0
  }

  /** The improvement is positive exactly when the proposed tail is lower,
      and is the plain relative change once the baseline is at least 1. */
  lemma TailImprovementSign(base: real, proposed: real)
    ensures TailImprovement(base, proposed) > 0.0 <==> proposed < base
    ensures TailImprovement(base, proposed) == 0.0 <==> proposed == base
    ensures base >= 1.0 ==> TailImprovement(base, proposed) == (base - proposed) / base * 100.0
    ensures base >= 1.0 && proposed >= 0.0 ==> TailImprovement(base, proposed) <= 100.0
  {
    var m := RealMax(base, 1.0);
    DivPositive(base - proposed, m);
    if base >= 1.0 && proposed >= 0.0 {
      assert base - proposed <= m;
      DivAtMostOne(base - proposed, m);
    }
  }

  lemma DivPositive(x: real, m: real)
    requires m > 0.0
    ensures x / m * 100.0 > 0.0 <==> x > 0.0
    ensures x / m * 100.0 == 0.0 <==> x == 0.0
  {
    if x > 0.0 {
      assert x / m > 0.0;
    } else if x < 0.0 {
      assert (-x) / m > 0.0;
      assert x / m == -((-x) / m);
    }
  }

  lemma DivAtMostOne(x: real, m: real)
    requires m > 0.0 && x <= m
    ensures x / m * 100.0 <= 100.0
  {
    assert x / m <= m / m;
  }

  /** The two defaults of the P99.9 lookups agree: a missing baseline
      counts as 0 and divides by 1, so the comparison is always
      TailImprovement of the two values (0 where missing). */
  lemma ComparisonValues(base: Summary, proposed: Summary)
    ensures Comparison(base, proposed).Ok? <==>
      !(("P99.9" in base && base["P99.9"].Str?) || ("P99.9" in proposed && proposed["P99.9"].Str?) ||
        (MISS_KEY in base && base[MISS_KEY].Str?) || (MISS_KEY in proposed && proposed[MISS_KEY].Str?))
    ensures Comparison(base, proposed).Ok? ==>
      var b := if "P99.9" in base then base["P99.9"].x else 0.0;
      var p := if "P99.9" in proposed then proposed["P99.9"].x else 0.0;
      var bm := if MISS_KEY in base then base[MISS_KEY].x else 0.0;
      var pm := if MISS_KEY in proposed then proposed[MISS_KEY].x else 0.0;
      Comparison(base, proposed).value == (TailImprovement(b, p), bm - pm)
  {
  }

  /** A P99.9 of 100 against 60 is a 40% improvement, and a miss rate of
      2.5% against 0.1% is a reduction of 2.4 points. */
  lemma ComparisonExample()
    ensures Comparison(map["P99.9" := Num(100.0), MISS_KEY := Num(2.5)],
                       map["P99.9" := Num(60.0), MISS_KEY := Num(0.1)]) == Ok((40.0, 2.4))
  {
    ComparisonValues(map["P99.9" := Num(100.0), MISS_KEY := Num(2.5)],
                     map["P99.9" := Num(60.0), MISS_KEY := Num(0.1)]);
  }

  predicate HasSummary(exp: map<string, ExpData>, name: string) {
    name in exp && exp[name].summary.Some?
  }

  function ComparisonRows(title: string, c: (real, real)): seq<string>
  {
    ["", title, "  P99.9 Improvement: " + FormatFixed(c.0, 1) + "%",
     "  Miss Rate Reduction: " + FormatFixed(c.1, 4) + "%"]
  }

  const OBSERVATION: seq<string> := ["", "Observation:",
    "  Original Malcolm achieves low load variance (Nash equilibrium)",
    "  but still exhibits high tail latency under heavy-tailed load.",
    "  This confirms the 'Variance Trap' hypothesis."]

  /** The Key Findings section: present when experiments A and C both have
      a summary, with the comparison against B added when B has one too. */
  function Findings(exp: map<string, ExpData>): Result<seq<string>, ReportError>
  {
    if !(HasSummary(exp, EXP_A) && HasSummary(exp, EXP_C)) then Ok([])
    else
      var strict := exp[EXP_C].summary.value;
      var vsPo2 :- Comparison(exp[EXP_A].summary.value, strict);
      var head := [Rule('=', 60), "Key Findings", Rule('=', 60)] + ComparisonRows("Malcolm-Strict vs Power-of-2:", vsPo2);
      if !HasSummary(exp, EXP_B) then Ok(head)
      else
        var vsMalcolm :- Comparison(exp[EXP_B].summary.value, strict);
        Ok(head + ComparisonRows("Malcolm-Strict vs Original Malcolm:", vsMalcolm) + OBSERVATION)
  }

  /** Which sections the findings hold, by which summaries exist. */
  lemma FindingsGate(exp: map<string, ExpData>)
    ensures !(HasSummary(exp, EXP_A) && HasSummary(exp, EXP_C)) ==> Findings(exp) == Ok([])
    ensures Findings(exp).Ok? && HasSummary(exp, EXP_A) && HasSummary(exp, EXP_C) ==>
      var f := Findings(exp).value;
      |f| == (if HasSummary(exp, EXP_B) then 16 else 7) && f[1] == "Key Findings" &&
      f[4] == "Malcolm-Strict vs Power-of-2:" &&
      (HasSummary(exp, EXP_B) ==> f[8] == "Malcolm-Strict vs Original Malcolm:")
  {
  }

  const BANNER: seq<string> := [Rule('=', 60), "Malcolm-Strict Experiment Report", Rule('=', 60), ""]

  const FOOTER: seq<string> := ["", Rule('=', 60)]

  /** generate_text_report as written. */
  function ReportAsWritten(exp: map<string, ExpData>, repr: real -> string): Result<seq<string>, ReportError>
  {
    var blocks :- BlocksAsWritten(exp, EXPERIMENTS, repr);
    var findings :- Findings(exp);
    Ok(BANNER + blocks + findings + FOOTER)
  }

  /** generate_text_report with the N/A default printed as intended. */
  function Report(exp: map<string, ExpData>, repr: real -> string): Result<seq<string>, ReportError>
  {
    var findings :- Findings(exp);
    Ok(BANNER + Blocks(exp, EXPERIMENTS, repr) + findings + FOOTER)
  }

  /** One more name adds its block, if it was loaded, at the end. */
  lemma BlocksStep(exp: map<string, ExpData>, names: seq<string>, i: nat, repr: real -> string)
    requires i < |names|
    ensures Blocks(exp, names[..i + 1], repr) ==
      Blocks(exp, names[..i], repr) + (if names[i] in exp then ExperimentBlock(names[i], exp[names[i]], repr) else [])
  {
    assert names[..i + 1][..i] == names[..i];
  }

  /** One more name, once the blocks before it were written: its block
      is appended, or the format error it raises stops the report. */
  lemma BlocksAsWrittenStep(exp: map<string, ExpData>, names: seq<string>, i: nat, repr: real -> string)
    requires i < |names| && BlocksAsWritten(exp, names[..i], repr).Ok?
    ensures var init := BlocksAsWritten(exp, names[..i], repr).value;
      BlocksAsWritten(exp, names[..i + 1], repr) ==
        if names[i] !in exp then Ok(init)
        else if ExperimentBlockAsWritten(names[i], exp[names[i]], repr).Err? then
          Err(ExperimentBlockAsWritten(names[i], exp[names[i]], repr).error)
        else Ok(init + ExperimentBlockAsWritten(names[i], exp[names[i]], repr).value)
  {
    assert names[..i + 1][..i] == names[..i];
  }

  /** A block that raises ends the loop: the blocks of the whole list fail
      with the same error. */
  lemma {:induction false} BlocksAsWrittenFailed(exp: map<string, ExpData>, names: seq<string>, i: nat, repr: real -> string)
    requires i <= |names| && BlocksAsWritten(exp, names[..i], repr).Err?
    ensures BlocksAsWritten(exp, names, repr) == BlocksAsWritten(exp, names[..i], repr)
    decreases |names| - i
  {
    if i < |names| {
      assert names[..i + 1][..i] == names[..i];
      BlocksAsWrittenFailed(exp, names, i + 1, repr);
    } else {
      assert names[..i] == names;
    }
  }

  /** generate_text_report: the lines are built block by block, and the
      first summary value that `:.Nf` cannot format raises. Where it
      succeeds it prints the intended report. */
  method GenerateTextReport(exp: map<string, ExpData>, repr: real -> string) returns (r: Result<seq<string>, ReportError>)
    ensures r == ReportAsWritten(exp, repr)
    ensures r.Ok? ==> r == Report(exp, repr)
  {
    var lines := BANNER;
    for i := 0 to |EXPERIMENTS|
      invariant BlocksAsWritten(exp, EXPERIMENTS[..i], repr).Ok?
      invariant lines == BANNER + BlocksAsWritten(exp, EXPERIMENTS[..i], repr).value
    {
      var name := EXPERIMENTS[i];
      ghost var before := BlocksAsWritten(exp, EXPERIMENTS[..i], repr).value;
      BlocksAsWrittenStep(exp, EXPERIMENTS, i, repr);
      if name in exp {
        var block := ExperimentBlockAsWritten(name, exp[name], repr);
        if block.Err? {
          BlocksAsWrittenFailed(exp, EXPERIMENTS, i + 1, repr);
          return Err(block.error);
        }
        AppendAssoc(BANNER, before, block.value);
        lines := lines + block.value;
      }
    }
    assert EXPERIMENTS[..|EXPERIMENTS|] == EXPERIMENTS;
    var findings := Findings(exp);
    if findings.Err? {
      return Err(findings.error);
    }
    r := Ok(lines + findings.value + FOOTER);
    ReportAgrees(exp, repr);
  }

  lemma {:induction false} BlocksAgree(exp: map<string, ExpData>, names: seq<string>, repr: real -> string)
    requires BlocksAsWritten(exp, names, repr).Ok?
    ensures BlocksAsWritten(exp, names, repr).value == Blocks(exp, names, repr)
  {
    if |names| > 0 {
      var n := names[|names| - 1];
      BlocksAgree(exp, names[..|names| - 1], repr);
      if n in exp && exp[n].summary.Some? {
        SummaryBlockAsWrittenOk(exp[n].summary.value, repr);
      }
    }
  }

  /** Wherever the report as written succeeds, the intended report is the
      same text. */
  lemma ReportAgrees(exp: map<string, ExpData>, repr: real -> string)
    requires ReportAsWritten(exp, repr).Ok?
    ensures Report(exp, repr) == ReportAsWritten(exp, repr)
  {
    BlocksAgree(exp, EXPERIMENTS, repr);
  }

  /** The intended report fails only on a text where arithmetic needs a
      number: all its errors are TypeErrors. */
  lemma ReportErrors(exp: map<string, ExpData>, repr: real -> string)
    ensures Report(exp, repr).Err? ==> Report(exp, repr).error.NotANumber?
  {
  }

  /** The report as written raises a ValueError from a format or a
      TypeError from arithmetic, and nothing else. */
  lemma ReportAsWrittenErrors(exp: map<string, ExpData>, repr: real -> string)
    ensures ReportAsWritten(exp, repr).Err? ==>
      ReportAsWritten(exp, repr).error.FormatFailed? || ReportAsWritten(exp, repr).error.NotANumber?
  {
    ReportErrors(exp, repr);
  }

  /** The summary merge_histograms.py writes has no deadline miss rate,
      so as written the report raises on the first experiment that has
      one, while the intended report prints N/A. */
  lemma MergedSummaryBreaksReport(combined: seq<real>, u: Unit, sqrt: real -> real, repr: real -> string)
    requires |combined| > 0
    ensures var exp := map[EXP_A := ExpData(None, Some(SummaryOf(SummaryLines(combined, u, sqrt))))];
      ReportAsWritten(exp, repr) == Err(FormatFailed(MISS_KEY)) &&
      Report(exp, repr).Ok? && "  Miss Rate:     N/A%" in Report(exp, repr).value
  {
    var s := SummaryOf(SummaryLines(combined, u, sqrt));
    assert Numeric(s, "P50") && Numeric(s, "P99") && Numeric(s, "P99.9") && Numeric(s, "P99.99") && MISS_KEY !in s by {
      MergedSummaryRead(combined, u, sqrt);
      MergedReadLevels(s, combined, u);
    }
    MissingRateReport(s, repr);
  }

  /** The four percentile keys of the summary block are among the levels
      merge_histograms.py writes. */
  lemma MergedReadLevels(m: Summary, combined: seq<real>, u: Unit)
    requires |combined| > 0 && MergedReadBack(m, combined, u)
    ensures Numeric(m, "P50") && Numeric(m, "P99") && Numeric(m, "P99.9") && Numeric(m, "P99.99") && MISS_KEY !in m
  {
    LevelNames();
    assert Numeric(m, "P" + LEVELS[0].name);
    assert Numeric(m, "P" + LEVELS[3].name);
    assert Numeric(m, "P" + LEVELS[5].name);
    assert Numeric(m, "P" + LEVELS[6].name);
  }

  lemma LevelNames()
    ensures "P" + LEVELS[0].name == "P50" && "P" + LEVELS[3].name == "P99"
    ensures "P" + LEVELS[5].name == "P99.9" && "P" + LEVELS[6].name == "P99.99"
  {
  }

  /** A single experiment whose summary holds the four percentiles but no
      deadline miss rate: the report as written raises on the miss rate,
      the intended one prints N/A. */
  lemma MissingRateReport(s: Summary, repr: real -> string)
    requires Numeric(s, "P50") && Numeric(s, "P99") && Numeric(s, "P99.9") && Numeric(s, "P99.99")
    requires MISS_KEY !in s
    ensures var exp := map[EXP_A := ExpData(None, Some(s))];
      ReportAsWritten(exp, repr) == Err(FormatFailed(MISS_KEY)) &&
      Report(exp, repr).Ok? && "  Miss Rate:     N/A%" in Report(exp, repr).value
  {
    MissingRateAsWritten(s, repr);
    MissingRateIntended(s, repr);
  }

  lemma MissingRateAsWritten(s: Summary, repr: real -> string)
    requires Numeric(s, "P50") && Numeric(s, "P99") && Numeric(s, "P99.9") && Numeric(s, "P99.99")
    requires MISS_KEY !in s
    ensures ReportAsWritten(map[EXP_A := ExpData(None, Some(s))], repr) == Err(FormatFailed(MISS_KEY))
  {
    SingleExperiment(ExpData(None, Some(s)), repr);
    assert SummaryBlockAsWritten(s, repr) == Err(FormatFailed(MISS_KEY));
  }

  lemma MissingRateIntended(s: Summary, repr: real -> string)
    requires MISS_KEY !in s
    ensures var exp := map[EXP_A := ExpData(None, Some(s))];
      Report(exp, repr).Ok? && "  Miss Rate:     N/A%" in Report(exp, repr).value
  {
    var d := ExpData(None, Some(s));
    var exp := map[EXP_A := d];
    SingleExperiment(d, repr);
    assert Findings(exp) == Ok([]);
    var block := SummaryBlock(s, repr);
    assert block[5] == "  Miss Rate:     N/A%" by {
      assert FieldOrNA(s, MISS_KEY, 4) == "N/A";
    }
    var report := Report(exp, repr).value;
    assert report == BANNER + Block(EXP_A, block) + FOOTER;
    assert report[4 + 3 + 5] == block[5];
  }

  /** With only the first experiment loaded, the report holds its block
      alone. */
  lemma SingleExperiment(d: ExpData, repr: real -> string)
    ensures var exp := map[EXP_A := d];
      BlocksAsWritten(exp, EXPERIMENTS, repr) == ExperimentBlockAsWritten(EXP_A, d, repr) &&
      Blocks(exp, EXPERIMENTS, repr) == ExperimentBlock(EXP_A, d, repr)
  {
    var exp := map[EXP_A := d];
    assert EXPERIMENTS[..2][..1] == [EXP_A] && EXPERIMENTS[..1] == [EXP_A] && EXPERIMENTS[..3][..2] == EXPERIMENTS[..2];
    assert EXP_B !in exp && EXP_C !in exp;
    assert Blocks(exp, [EXP_A], repr) == ExperimentBlock(EXP_A, d, repr);
    assert BlocksAsWritten(exp, [EXP_A], repr) == ExperimentBlockAsWritten(EXP_A, d, repr);
  }

  // ---------------------------------------------------------------
  // main

  /** One experiment directory: the CDF file, the merged summary, a
      summary.txt beside it, and the summary.txt files one level down in
      the order the glob lists them. */
  datatype ExpDir = ExpDir(
    cdf: Option<seq<string>>,
    mergedSummary: Option<seq<string>>,
    summaryTxt: Option<seq<string>>,
    nestedSummaries: seq<seq<string>>)

  /** The merged summary if present, else summary.txt, else the first
      nested summary.txt. */
  function SummarySource(d: ExpDir): (r: Option<seq<string>>)
    ensures r.Some? <==> d.mergedSummary.Some? || d.summaryTxt.Some? || |d.nestedSummaries| > 0
  {
    if d.mergedSummary.Some? then d.mergedSummary
    else if d.summaryTxt.Some? then d.summaryTxt
    else if |d.nestedSummaries| > 0 then Some(d.nestedSummaries[0])
    else None
  }

  function LoadExperiment(name: string, d: ExpDir): (r: Result<ExpData, ReportError>)
    ensures r.Err? ==> r.error == CdfUnreadable(name)
  {
    var cdf :-
      match d.cdf
      case None => Ok(None)
      case Some(lines) => if CdfOf(lines).None? then Err(CdfUnreadable(name)) else Ok(CdfOf(lines));
    var summary := match SummarySource(d) case None => None case Some(lines) => Some(SummaryOf(lines));
    Ok(ExpData(cdf, summary))
  }

  /** exp_data: one entry per listed experiment whose directory exists. */
  function LoadExperiments(dirs: map<string, ExpDir>, names: seq<string>): (r: Result<map<string, ExpData>, ReportError>)
    ensures r.Err? ==> r.error.CdfUnreadable?
  {
    if |names| == 0 then Ok(map[])
    else
      var m :- LoadExperiments(dirs, names[..|names| - 1]);
      var n := names[|names| - 1];
      if n !in dirs then Ok(m)
      else
        var d :- LoadExperiment(n, dirs[n]);
        Ok(m[n := d])
  }

  lemma {:induction false} LoadExperimentsKeys(dirs: map<string, ExpDir>, names: seq<string>)
    requires LoadExperiments(dirs, names).Ok?
    ensures LoadExperiments(dirs, names).value.Keys == set i | 0 <= i < |names| && names[i] in dirs :: names[i]
  {
    if |names| > 0 {
      var n := |names| - 1;
      LoadExperimentsKeys(dirs, names[..n]);
      assert forall i :: 0 <= i < n ==> names[..n][i] == names[i];
    }
  }

  lemma {:induction false} LoadExperimentsFailed(dirs: map<string, ExpDir>, names: seq<string>, i: nat)
    requires i <= |names| && LoadExperiments(dirs, names[..i]).Err?
    ensures LoadExperiments(dirs, names) == LoadExperiments(dirs, names[..i])
    decreases |names| - i
  {
    if i < |names| {
      assert names[..i + 1][..i] == names[..i];
      LoadExperimentsFailed(dirs, names, i + 1);
    } else {
      assert names[..i] == names;
    }
  }

  /** With none of the directories present nothing is loaded. */
  lemma {:induction false} LoadExperimentsNone(dirs: map<string, ExpDir>, names: seq<string>)
    requires forall i :: 0 <= i < |names| ==> names[i] !in dirs
    ensures LoadExperiments(dirs, names) == Ok(map[])
  {
    if |names| > 0 {
      var n := |names| - 1;
      assert forall i :: 0 <= i < n ==> names[..n][i] == names[i];
      LoadExperimentsNone(dirs, names[..n]);
    }
  }

  /** The script as a whole: the two exits with status 1, an exception
      while loading, or the report lines. */
  function ReportRun(resultsDirExists: bool, dirs: map<string, ExpDir>, repr: real -> string): Result<seq<string>, ReportError>
  {
    if !resultsDirExists then Err(ResultsDirMissing)
    else
      var exp :- LoadExperiments(dirs, EXPERIMENTS);
      if exp == map[] then Err(NoExperimentData)
      else ReportAsWritten(exp, repr)
  }

  method ReportMain(resultsDirExists: bool, dirs: map<string, ExpDir>, repr: real -> string) returns (r: Result<seq<string>, ReportError>)
    ensures r == ReportRun(resultsDirExists, dirs, repr)
  {
    if !resultsDirExists {
      return Err(ResultsDirMissing);
    }
    var exp: map<string, ExpData> := map[];
    for i := 0 to |EXPERIMENTS|
      invariant LoadExperiments(dirs, EXPERIMENTS[..i]) == Ok(exp)
    {
      assert EXPERIMENTS[..i + 1][..i] == EXPERIMENTS[..i];
      var name := EXPERIMENTS[i];
      if name in dirs {
        var data := ReadExperiment(name, dirs[name]);
        if data.Err? {
          LoadExperimentsFailed(dirs, EXPERIMENTS, i + 1);
          return Err(data.error);
        }
        exp := exp[name := data.value];
      }
    }
    assert EXPERIMENTS[..|EXPERIMENTS|] == EXPERIMENTS;
    if exp == map[] {
      return Err(NoExperimentData);
    }
    r := GenerateTextReport(exp, repr);
  }

  /** One directory of the loop: read its cdf.csv, then its summary. */
  method ReadExperiment(name: string, d: ExpDir) returns (r: Result<ExpData, ReportError>)
    ensures r == LoadExperiment(name, d)
  {
    var cdf: Option<CdfData> := None;
    if d.cdf.Some? {
      cdf := LoadCdf(d.cdf.value);
      if cdf.None? {
        return Err(CdfUnreadable(name));
      }
    }
    var summary: Option<Summary> := None;
    var source := SummarySource(d);
    if source.Some? {
      var s := LoadSummary(source.value);
      summary := Some(s);
    }
    r := Ok(ExpData(cdf, summary));
  }

  /** The script stops with "No experiment data found!" exactly when the
      results directory exists but none of the three experiment
      directories does. */
  lemma NoDataExit(dirs: map<string, ExpDir>, repr: real -> string)
    ensures ReportRun(true, dirs, repr) == Err(NoExperimentData) <==>
      forall i :: 0 <= i < |EXPERIMENTS| ==> EXPERIMENTS[i] !in dirs
  {
    var l := LoadExperiments(dirs, EXPERIMENTS);
    if forall i :: 0 <= i < |EXPERIMENTS| ==> EXPERIMENTS[i] !in dirs {
      LoadExperimentsNone(dirs, EXPERIMENTS);
    }
    if l.Ok? {
      LoadExperimentsKeys(dirs, EXPERIMENTS);
      ReportAsWrittenErrors(l.value, repr);
      if forall i :: 0 <= i < |EXPERIMENTS| ==> EXPERIMENTS[i] !in dirs {
        assert l.value.Keys == {};
      } else {
        var i :| 0 <= i < |EXPERIMENTS| && EXPERIMENTS[i] in dirs;
        assert EXPERIMENTS[i] in l.value.Keys;
      }
    }
  }
}
