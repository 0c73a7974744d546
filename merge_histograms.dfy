/** scripts/merge_histograms.py: reads per-client latency files (HdrHistogram
    CLASSIC text or raw CSV), merges them in file order, converts the unit,
    and produces percentile statistics, a CDF and a `key: value` summary.
    A file is its path and its lines; the glob is the list of files given. */
module MergeHistograms {
  import opened Wrappers
  import opened Text
  import opened Numerals
  import opened Samples

  /** Python int() on a float: truncation toward zero. */
  function TruncToInt(v: real): (k: int)
    ensures v >= 0.0 ==> k as real <= v < k as real + 1.0
    ensures v < 0.0 ==> k as real - 1.0 < v <= k as real
  {
    if v >= 0.0 then v.Floor else -((-v).Floor)
  }

  /** Python [v] * k: k copies, none when k <= 0. */
  function Repeat(v: real, k: int): (r: seq<real>)
    ensures |r| == if k > 0 then k else 0
    ensures forall i :: 0 <= i < |r| ==> r[i] == v
    decreases k
  {
    if k <= 0 then [] else [v] + Repeat(v, k - 1)
  }

  /** Down-sampling cap per histogram row. */
  const SAMPLE_CAP: int := 1000

  function Cap(count: int): int
  {
    if count < SAMPLE_CAP then count else SAMPLE_CAP
  }

  // ---------------------------------------------------------------
  // parse_hdr_classic

  /** What one line of a CLASSIC histogram adds to the samples: comment,
      header and blank lines nothing; otherwise the value (first field)
      repeated min(count, 1000) times, count being the third field. A line
      with fewer than three fields or a field float() rejects adds nothing. */
  function ClassicLine(raw: string): seq<real>
  {
    var line := Strip(raw);
    if line == [] || StartsWith(line, "#") || StartsWith(line, "Value") then []
    else
      var parts := SplitWs(line);
      if |parts| < 3 then []
      else
        match (ParseDecimal(parts[0]), ParseDecimal(parts[2]))
        case (Some(value), Some(count)) => Repeat(value, Cap(TruncToInt(count)))
        case _ => []
  }

  /** What a reader collects from a file: the samples of each line, in
      line order. */
  function Collect(parse: string -> seq<real>, lines: seq<string>): seq<real>
  {
    if |lines| == 0 then [] else Collect(parse, lines[..|lines| - 1]) + parse(lines[|lines| - 1])
  }

  /** One more line adds its own samples at the end. */
  lemma CollectStep(parse: string -> seq<real>, lines: seq<string>, i: nat)
    requires i < |lines|
    ensures Collect(parse, lines[..i + 1]) == Collect(parse, lines[..i]) + parse(lines[i])
  {
    assert lines[..i + 1][..i] == lines[..i];
  }

  /** Reading two pieces of a file one after the other gives the samples of
      the first followed by those of the second. */
  lemma {:induction false} CollectAppend(parse: string -> seq<real>, a: seq<string>, b: seq<string>)
    ensures Collect(parse, a + b) == Collect(parse, a) + Collect(parse, b)
    decreases |b|
  {
    if |b| == 0 {
      assert a + b == a;
    } else {
      assert (a + b)[..|a + b| - 1] == a + b[..|b| - 1];
      CollectAppend(parse, a, b[..|b| - 1]);
    }
  }

  /** When no line yields more than k samples, a file yields at most k per
      line. */
  lemma {:induction false} CollectBound(parse: string -> seq<real>, lines: seq<string>, k: nat)
    requires forall line :: |parse(line)| <= k
    ensures |Collect(parse, lines)| <= k * |lines|
  {
    if |lines| > 0 {
      CollectBound(parse, lines[..|lines| - 1], k);
      assert k * |lines| == k * (|lines| - 1) + k;
    }
  }

  function ClassicSamples(lines: seq<string>): seq<real>
  {
    Collect(ClassicLine, lines)
  }

  method ParseHdrClassic(lines: seq<string>) returns (values: seq<real>)
    ensures values == ClassicSamples(lines)
  {
    values := [];
    var i := 0;
    while i < |lines|
      invariant 0 <= i <= |lines|
      invariant values == Collect(ClassicLine, lines[..i])
    {
      CollectStep(ClassicLine, lines, i);
      values := values + ClassicLine(lines[i]);
      i := i + 1;
    }
    assert lines[..|lines|] == lines;
  }

  /** A line adds exactly max(0, min(count, 1000)) copies of its value. */
  lemma ClassicLineCount(raw: string)
    ensures |ClassicLine(raw)| <= SAMPLE_CAP
    ensures var line := Strip(raw);
      var parts := SplitWs(line);
      !(line == [] || StartsWith(line, "#") || StartsWith(line, "Value")) && |parts| >= 3 &&
      ParseDecimal(parts[0]).Some? && ParseDecimal(parts[2]).Some? ==>
        var count := TruncToInt(ParseDecimal(parts[2]).value);
        |ClassicLine(raw)| == (if count <= 0 then 0 else if count < SAMPLE_CAP then count else SAMPLE_CAP) &&
        forall i :: 0 <= i < |ClassicLine(raw)| ==> ClassicLine(raw)[i] == ParseDecimal(parts[0]).value
  {
  }

  /** A classic file never yields more than 1000 samples per line. */
  lemma ClassicSamplesBound(lines: seq<string>)
    ensures |ClassicSamples(lines)| <= SAMPLE_CAP * |lines|
  {
    forall line ensures |ClassicLine(line)| <= SAMPLE_CAP {
      ClassicLineCount(line);
    }
    CollectBound(ClassicLine, lines, SAMPLE_CAP);
  }

  /** A data row as HdrHistogram prints it: value with 3 decimals, the
      percentile, the count and 1/(1-percentile), separated by spaces. */
  function ClassicRow(value: real, percentile: real, count: nat, inverse: real): string
  {
    JoinSpace(ClassicFields(value, percentile, count, inverse))
  }

  /** A line of numerals separated by single spaces is already stripped, is
      neither a comment nor the header, and splits back into its fields. */
  lemma NumeralFields(fields: seq<string>)
    requires |fields| > 0 && forall i :: 0 <= i < |fields| ==> NumeralText(fields[i])
    ensures var line := JoinSpace(fields);
      Strip(line) == line && line != [] && !StartsWith(line, "#") && !StartsWith(line, "Value") &&
      SplitWs(line) == fields
  {
    forall i | 0 <= i < |fields| ensures IsWord(fields[i]) {
      NumeralIsWord(fields[i]);
    }
    var line := JoinSpace(fields);
    JoinSpaceEnds(fields);
    NumeralIsWord(fields[0]);
    NumeralIsWord(fields[|fields| - 1]);
    StripEnds(line);
    JoinSplitWs(fields);
    assert line[0] == '-' || IsDigit(line[0]);
    NotStartsWith(line, "#");
    NotStartsWith(line, "Value");
  }

  /** The fields of a printed row. */
  function ClassicFields(value: real, percentile: real, count: nat, inverse: real): seq<string>
  {
    [FormatFixed(value, 3), FormatFixed(percentile, 12), NatToString(count), FormatFixed(inverse, 2)]
  }

  lemma ClassicRowShape(value: real, percentile: real, count: nat, inverse: real)
    ensures var line := ClassicRow(value, percentile, count, inverse);
      Strip(line) == line && line != [] && !StartsWith(line, "#") && !StartsWith(line, "Value") &&
      SplitWs(line) == ClassicFields(value, percentile, count, inverse)
  {
    ClassicFieldsNumerals(value, percentile, count, inverse);
    NumeralFields(ClassicFields(value, percentile, count, inverse));
  }

  lemma ClassicFieldsNumerals(value: real, percentile: real, count: nat, inverse: real)
    ensures var fields := ClassicFields(value, percentile, count, inverse);
      |fields| == 4 && forall i :: 0 <= i < |fields| ==> NumeralText(fields[i])
  {
    FormatFixedNumeral(value, 3);
    FormatFixedNumeral(percentile, 12);
    NatToStringNumeral(count);
    FormatFixedNumeral(inverse, 2);
    FourNumerals(FormatFixed(value, 3), FormatFixed(percentile, 12), NatToString(count), FormatFixed(inverse, 2));
  }

  lemma FourNumerals(f0: string, f1: string, f2: string, f3: string)
    requires NumeralText(f0) && NumeralText(f1) && NumeralText(f2) && NumeralText(f3)
    ensures forall i :: 0 <= i < 4 ==> NumeralText([f0, f1, f2, f3][i])
  {
  }

  /** Round trip with the histogram writer: a printed row yields its
      (rounded) value min(count, 1000) times. */
  lemma ClassicRowRoundTrip(value: real, percentile: real, count: nat, inverse: real)
    ensures ClassicLine(ClassicRow(value, percentile, count, inverse)) ==
      Repeat(Rounded(value, 3), if count < SAMPLE_CAP then count else SAMPLE_CAP)
  {
    ClassicRowLine(value, percentile, count, inverse);
    assert TruncToInt(count as real) == count;
  }

  lemma ClassicRowLine(value: real, percentile: real, count: nat, inverse: real)
    ensures ClassicLine(ClassicRow(value, percentile, count, inverse)) ==
      Repeat(Rounded(value, 3), Cap(TruncToInt(count as real)))
  {
    var fields := ClassicFields(value, percentile, count, inverse);
    ClassicRowShape(value, percentile, count, inverse);
    assert ParseDecimal(fields[0]) == Some(Rounded(value, 3)) by {
      ParseFormatFixed(value, 3);
    }
    assert ParseDecimal(fields[2]) == Some(count as real) by {
      ParseNatToString(count);
    }
    ClassicLineOfFields(ClassicRow(value, percentile, count, inverse), fields, Rounded(value, 3), count as real);
  }

  /** ClassicLine on a data line whose fields are known. */
  lemma ClassicLineOfFields(line: string, parts: seq<string>, value: real, count: real)
    requires Strip(line) == line && line != [] && !StartsWith(line, "#") && !StartsWith(line, "Value")
    requires SplitWs(line) == parts && |parts| >= 3
    requires ParseDecimal(parts[0]) == Some(value) && ParseDecimal(parts[2]) == Some(count)
    ensures ClassicLine(line) == Repeat(value, Cap(TruncToInt(count)))
  {
  }

  // ---------------------------------------------------------------
  // parse_raw_csv

  /** What one line of a raw CSV adds: nothing for blank and comment lines
      and any line mentioning "latency" in any letter case (the header);
      otherwise its last comma-separated field when float() accepts it. */
  function RawLine(raw: string): seq<real>
  {
    var line := Strip(raw);
    if line == [] || StartsWith(line, "#") || Contains(Lower(line), "latency") then []
    else
      var parts := SplitOn(line, ',');
      match ParseDecimal(parts[|parts| - 1])
      case Some(v) => [v]
      case None => []
  }

  lemma RawLineCount(raw: string)
    ensures |RawLine(raw)| <= 1
  {
  }

  function RawSamples(lines: seq<string>): seq<real>
  {
    Collect(RawLine, lines)
  }

  method ParseRawCsv(lines: seq<string>) returns (values: seq<real>)
    ensures values == RawSamples(lines)
  {
    values := [];
    var i := 0;
    while i < |lines|
      invariant 0 <= i <= |lines|
      invariant values == Collect(RawLine, lines[..i])
    {
      CollectStep(RawLine, lines, i);
      values := values + RawLine(lines[i]);
      i := i + 1;
    }
    assert lines[..|lines|] == lines;
  }

  /** A raw file yields at most one sample per line. */
  lemma RawSamplesBound(lines: seq<string>)
    ensures |RawSamples(lines)| <= |lines|
  {
    forall line ensures |RawLine(line)| <= 1 {
      RawLineCount(line);
    }
    CollectBound(RawLine, lines, 1);
  }

  /** Only digits, signs, points and commas: what a row of numbers is. */
  predicate CsvNumerals(s: string) {
    forall i :: 0 <= i < |s| ==> s[i] == '-' || s[i] == '.' || s[i] == ',' || IsDigit(s[i])
  }

  lemma CsvRowChars(a: string, b: string)
    requires NumeralText(a) && NumeralText(b)
    ensures CsvNumerals(a + "," + b)
  {
    var row := a + "," + b;
    forall i | 0 <= i < |row| ensures row[i] == '-' || row[i] == '.' || row[i] == ',' || IsDigit(row[i]) {
      if i < |a| { assert row[i] == a[i]; }
      else if i > |a| { assert row[i] == b[i - |a| - 1]; }
    }
  }

  /** Such a row has no letter, so it is never taken for the header. */
  lemma CsvNumeralsNotHeader(s: string)
    requires CsvNumerals(s)
    ensures !Contains(Lower(s), "latency")
  {
    var t := Lower(s);
    assert 'l' !in t by {
      forall i | 0 <= i < |t| ensures t[i] != 'l' {
        assert t[i] == LowerChar(s[i]);
      }
    }
    if Contains(t, "latency") {
      ContainsFirst(t, "latency");
    }
  }

  lemma NumeralNoComma(s: string)
    requires NumeralText(s)
    ensures ',' !in s
  {
    assert forall i :: 0 <= i < |s| ==> s[i] != ',';
  }

  lemma RawRowShape(a: string, b: string)
    requires NumeralText(a) && NumeralText(b)
    ensures var row := a + "," + b;
      Strip(row) == row && row != [] && !StartsWith(row, "#") && !Contains(Lower(row), "latency") &&
      SplitOn(row, ',') == [a, b]
  {
    RawRowStripped(a, b);
    CsvRowChars(a, b);
    CsvNumeralsNotHeader(a + "," + b);
    RawRowSplit(a, b);
  }

  lemma RawRowStripped(a: string, b: string)
    requires NumeralText(a) && NumeralText(b)
    ensures var row := a + "," + b; Strip(row) == row && row != [] && !StartsWith(row, "#")
  {
    var row := a + "," + b;
    assert row[0] == a[0] && row[|row| - 1] == b[|b| - 1];
    NumeralIsWord(a);
    NumeralIsWord(b);
    StripEnds(row);
    NotStartsWith(row, "#");
  }

  lemma RawRowSplit(a: string, b: string)
    requires NumeralText(a) && NumeralText(b)
    ensures SplitOn(a + "," + b, ',') == [a, b]
  {
    NumeralNoComma(a);
    NumeralNoComma(b);
    SplitOnCons(a, ',', b);
    SplitOnNoSep(b, ',');
  }

  /** Round trip with a `timestamp,latency` row: the row yields exactly its
      (rounded) latency. */
  lemma RawRowRoundTrip(timestamp: nat, latency: real, d: nat)
    ensures RawLine(NatToString(timestamp) + "," + FormatFixed(latency, d)) == [Rounded(latency, d)]
  {
    var a, b := NatToString(timestamp), FormatFixed(latency, d);
    NatToStringNumeral(timestamp);
    FormatFixedNumeral(latency, d);
    RawRowShape(a, b);
    ParseFormatFixed(latency, d);
    RawLineOfFields(a + "," + b, a, b, Rounded(latency, d));
  }

  /** RawLine on a `timestamp,latency` line whose fields are known. */
  lemma RawLineOfFields(line: string, a: string, b: string, value: real)
    requires Strip(line) == line && line != [] && !StartsWith(line, "#") && !Contains(Lower(line), "latency")
    requires SplitOn(line, ',') == [a, b] && ParseDecimal(b) == Some(value)
    ensures RawLine(line) == [value]
  {
  }

  // ---------------------------------------------------------------
  // load_latencies

  datatype Format = Classic | Raw

  /** The reader chosen for a file: by suffix, otherwise by its first line
      (classic when it starts with '#' or mentions "Value"). */
  function DetectFormat(path: string, lines: seq<string>): (f: Format)
    ensures EndsWith(path, ".hdr") ==> f == Classic
    ensures !EndsWith(path, ".hdr") && EndsWith(path, ".csv") ==> f == Raw
    ensures !EndsWith(path, ".hdr") && !EndsWith(path, ".csv") ==>
      (f == Classic <==> var first := if |lines| > 0 then Strip(lines[0]) else "";
                          StartsWith(first, "#") || Contains(first, "Value"))
  {
    if EndsWith(path, ".hdr") then Classic
    else if EndsWith(path, ".csv") then Raw
    else
      var first := if |lines| > 0 then Strip(lines[0]) else "";
      if StartsWith(first, "#") || Contains(first, "Value") then Classic else Raw
  }

  function Load(path: string, lines: seq<string>): seq<real>
  {
    match DetectFormat(path, lines)
    case Classic => ClassicSamples(lines)
    case Raw => RawSamples(lines)
  }

  method LoadLatencies(path: string, lines: seq<string>) returns (values: seq<real>)
    ensures values == Load(path, lines)
  {
    if DetectFormat(path, lines) == Classic {
      values := ParseHdrClassic(lines);
    } else {
      values := ParseRawCsv(lines);
    }
  }

  // ---------------------------------------------------------------
  // merging

  datatype InputFile = InputFile(path: string, lines: seq<string>)

  datatype MergeError = NoFilesMatched | NoLatencyData

  /** Every file's samples, in file order. */
  function Loads(files: seq<InputFile>): seq<real>
  {
    if |files| == 0 then []
    else Loads(files[..|files| - 1]) + Load(files[|files| - 1].path, files[|files| - 1].lines)
  }

  function Concat(parts: seq<seq<real>>): seq<real>
  {
    if |parts| == 0 then [] else Concat(parts[..|parts| - 1]) + parts[|parts| - 1]
  }

  /** An empty match and a match without samples are distinct errors;
      otherwise the merged samples. */
  function Merged(files: seq<InputFile>): Result<seq<real>, MergeError>
  {
    if |files| == 0 then Err(NoFilesMatched)
    else if Loads(files) == [] then Err(NoLatencyData)
    else Ok(Loads(files))
  }

  /** The merge step of main(): the error exits, or the concatenation of
      the non-empty per-file results. */
  method MergeFiles(files: seq<InputFile>) returns (r: Result<seq<real>, MergeError>)
    ensures r == Merged(files)
  {
    if |files| == 0 {
      return Err(NoFilesMatched);
    }
    var all := LoadAll(files);
    if |all| == 0 {
      return Err(NoLatencyData);
    }
    r := Ok(Concat(all));
  }

  /** Loads every file and keeps the non-empty results, in file order. */
  method LoadAll(files: seq<InputFile>) returns (all: seq<seq<real>>)
    ensures Concat(all) == Loads(files)
    ensures all == [] <==> Concat(all) == []
  {
    all := [];
    ghost var loads: seq<seq<real>> := [];
    var i := 0;
    while i < |files|
      invariant LoadAllInv(files, i, all, loads)
    {
      var lat := LoadLatencies(files[i].path, files[i].lines);
      LoadAllStep(files, i, all, loads, lat);
      if |lat| > 0 {
        all := all + [lat];
      }
      loads := loads + [lat];
      i := i + 1;
    }
    LoadsOfEach(files, loads);
  }

  /** After i files: `loads` holds each file's samples, `all` the
      non-empty ones, and both concatenate to the same samples. */
  ghost predicate LoadAllInv(files: seq<InputFile>, i: int, all: seq<seq<real>>, loads: seq<seq<real>>) {
    0 <= i <= |files| && |loads| == i &&
    (forall k :: 0 <= k < i ==> loads[k] == Load(files[k].path, files[k].lines)) &&
    Concat(all) == Concat(loads) && (all == [] <==> Concat(all) == [])
  }

  lemma LoadAllStep(files: seq<InputFile>, i: int, all: seq<seq<real>>, loads: seq<seq<real>>, lat: seq<real>)
    requires LoadAllInv(files, i, all, loads) && i < |files| && lat == Load(files[i].path, files[i].lines)
    ensures LoadAllInv(files, i + 1, if |lat| > 0 then all + [lat] else all, loads + [lat])
  {
    ConcatSnoc(loads, lat);
    ConcatSnoc(all, lat);
  }

  /** The merge is the concatenation of the files' own samples. */
  lemma {:induction false} LoadsOfEach(files: seq<InputFile>, loads: seq<seq<real>>)
    requires |loads| == |files|
    requires forall k :: 0 <= k < |files| ==> loads[k] == Load(files[k].path, files[k].lines)
    ensures Concat(loads) == Loads(files)
    decreases |files|
  {
    if |files| > 0 {
      var n := |files| - 1;
      LoadsOfEach(files[..n], loads[..n]);
    }
  }

  lemma ConcatSnoc(parts: seq<seq<real>>, s: seq<real>)
    ensures Concat(parts + [s]) == Concat(parts) + s
  {
    assert (parts + [s])[..|parts|] == parts;
  }

  /** Empty files do not change the merged samples: the merge of a list of
      files is the merge of the files that produced samples. */
  lemma {:induction false} LoadsSkipEmpty(files: seq<InputFile>, f: InputFile)
    requires Load(f.path, f.lines) == []
    ensures Loads(files + [f]) == Loads(files)
  {
    assert (files + [f])[..|files|] == files;
  }

  // ---------------------------------------------------------------
  // unit conversion

  datatype Unit = Ns | Us | Ms

  function UnitName(u: Unit): string
  {
    match u
    case Ns => "ns"
    case Us => "us"
    case Ms => "ms"
  }

  function Divisor(u: Unit): (d: real)
    ensures d > 0.0
  {
    match u
    case Ns => 1.0
    case Us => 1000.0
    case Ms => 1000000.0
  }

  /** combined / divisor, element by element. */
  function Scale(s: seq<real>, d: real): (r: seq<real>)
    requires d > 0.0
    ensures |r| == |s|
    ensures forall i :: 0 <= i < |s| ==> r[i] == s[i] / d
  {
    seq(|s|, i requires 0 <= i < |s| => s[i] / d)
  }

  lemma ScaleTail(s: seq<real>, d: real)
    requires d > 0.0 && |s| > 0
    ensures Scale(s, d) == [s[0] / d] + Scale(s[1..], d)
  {
  }

  /** Dividing by a positive unit keeps the order, so it commutes with the
      insertion of a sample into sorted samples. */
  lemma {:induction false} ScaleInsert(x: real, s: seq<real>, d: real)
    requires d > 0.0 && Sorted(s)
    ensures Sorted(Scale(s, d))
    ensures Scale(Insert(x, s), d) == Insert(x / d, Scale(s, d))
    decreases |s|
  {
    ScaleSorted(s, d);
    if |s| == 0 {
      assert Scale([x], d) == [x / d];
    } else if x <= s[0] {
      ScaleInsertFront(x, s, d);
    } else {
      var t := Insert(x, s[1..]);
      assert Sorted(s[1..]);
      ScaleInsert(x, s[1..], d);
      DivOrder(x, s[0], d);
      ScaleTail(s, d);
      ScaleCons(s[0], t, d);
      ScaleSorted(s[1..], d);
    }
  }

  lemma ScaleInsertFront(x: real, s: seq<real>, d: real)
    requires d > 0.0 && Sorted(s) && |s| > 0 && x <= s[0]
    ensures Sorted(Scale(s, d))
    ensures Scale(Insert(x, s), d) == Insert(x / d, Scale(s, d))
  {
    ScaleSorted(s, d);
    DivOrder(x, s[0], d);
    ScaleCons(x, s, d);
  }

  lemma ScaleCons(x: real, s: seq<real>, d: real)
    requires d > 0.0
    ensures Scale([x] + s, d) == [x / d] + Scale(s, d)
  {
  }

  lemma ScaleSorted(s: seq<real>, d: real)
    requires d > 0.0 && Sorted(s)
    ensures Sorted(Scale(s, d))
  {
    var r := Scale(s, d);
    forall i, j | 0 <= i < j < |r| ensures r[i] <= r[j] {
      DivLe(s[i], s[j], d);
    }
  }

  lemma DivOrder(x: real, y: real, d: real)
    requires d > 0.0
    ensures x <= y <==> x / d <= y / d
  {
    if x <= y { DivLe(x, y, d); } else { DivLe(y, x, d); assert x / d != y / d by { assert x / d * d == x; } }
  }

  lemma {:induction false} ScaleSort(s: seq<real>, d: real)
    requires d > 0.0
    ensures Sort(Scale(s, d)) == Scale(Sort(s), d)
    decreases |s|
  {
    if |s| > 0 {
      ScaleTail(s, d);
      ScaleSort(s[1..], d);
      ScaleInsert(s[0], Sort(s[1..]), d);
      ScaleSorted(Sort(s[1..]), d);
    }
  }

  /** Converting the unit first gives the same percentiles, converted. */
  lemma ScalePercentile(s: seq<real>, d: real, p: real)
    requires |s| > 0 && d > 0.0 && 0.0 <= p <= 100.0
    ensures Percentile(Scale(s, d), p) == Percentile(s, p) / d
  {
    ScaleSort(s, d);
    PercentileOfSortedScale(Sort(s), d, p);
  }

  lemma PercentileOfSortedScale(a: seq<real>, d: real, p: real)
    requires |a| > 0 && d > 0.0 && 0.0 <= p <= 100.0
    ensures PercentileOfSorted(Scale(a, d), p) == PercentileOfSorted(a, p) / d
  {
    var lo := LowIndex(|a|, p);
    var hi := if lo + 1 < |a| then lo + 1 else lo;
    LerpScale(a[lo], a[hi], Rank(|a|, p) - lo as real, d);
  }

  lemma LerpScale(x: real, y: real, t: real, d: real)
    requires d > 0.0
    ensures Lerp(x / d, y / d, t) == Lerp(x, y, t) / d
  {
    var k := 1.0 / d;
    assert x / d == x * k && y / d == y * k;
    assert Lerp(x, y, t) / d == Lerp(x, y, t) * k;
    assert Lerp(x * k, y * k, t) == Lerp(x, y, t) * k;
  }

  // ---------------------------------------------------------------
  // compute_percentiles and generate_cdf

  /** A requested level: its text in the key ("99.9") and its value. */
  datatype Level = Level(name: string, value: real)

  const LEVELS: seq<Level> := [Level("50", 50.0), Level("90", 90.0), Level("95", 95.0),
    Level("99", 99.0), Level("99.5", 99.5), Level("99.9", 99.9), Level("99.99", 99.99)]

  predicate ValidLevels(levels: seq<Level>) {
    forall k :: 0 <= k < |levels| ==> 0.0 <= levels[k].value <= 100.0
  }

  /** One `P<level>` entry per requested level, in order. */
  function ComputePercentiles(s: seq<real>, levels: seq<Level>): (r: seq<(string, real)>)
    requires |s| > 0 && ValidLevels(levels)
    ensures |r| == |levels|
    ensures forall k :: 0 <= k < |levels| ==> r[k].0 == "P" + levels[k].name
  {
    seq(|levels|, k requires 0 <= k < |levels| => ("P" + levels[k].name, Percentile(s, levels[k].value)))
  }

  predicate Ascending(levels: seq<Level>) {
    forall k, l :: 0 <= k < l < |levels| ==> levels[k].value <= levels[l].value
  }

  /** The reported levels are percentages. */
  lemma LevelsValid()
    ensures ValidLevels(LEVELS)
  {
  }

  /** The reported levels are percentages in increasing order. */
  lemma LevelsAscending()
    ensures ValidLevels(LEVELS) && Ascending(LEVELS)
  {
  }

  /** Percentiles at ascending levels lie between the smallest and the
      largest sample and rise with the level. */
  lemma PercentilesOrdered(s: seq<real>, levels: seq<Level>)
    requires |s| > 0 && ValidLevels(levels) && Ascending(levels)
    ensures var r := ComputePercentiles(s, levels);
      (forall k :: 0 <= k < |r| ==> Min(s) <= r[k].1 <= Max(s)) &&
      (forall k, l :: 0 <= k < l < |r| ==> r[k].1 <= r[l].1)
  {
    var r := ComputePercentiles(s, levels);
    forall k | 0 <= k < |r| ensures Min(s) <= r[k].1 <= Max(s) {
      PercentileBounds(s, levels[k].value);
    }
    forall k, l | 0 <= k < l < |r| ensures r[k].1 <= r[l].1 {
      PercentileMonotone(s, levels[k].value, levels[l].value);
    }
  }

  /** p = i / N * 100 */
  function CdfPercent(i: nat, numPoints: nat): (p: real)
    requires numPoints > 0
    ensures p >= 0.0
  {
    DivNonNeg(i as real, numPoints as real);
    MulNonNeg(i as real / numPoints as real, 100.0);
    i as real / numPoints as real * 100.0
  }

  /** min(int(p / 100 * n), n - 1) */
  function CdfIndex(i: nat, n: nat, numPoints: nat): (idx: nat)
    requires numPoints > 0 && n > 0
    ensures idx < n
  {
    var x := CdfPercent(i, numPoints) / 100.0;
    DivNonNeg(CdfPercent(i, numPoints), 100.0);
    MulNonNeg(x, n as real);
    var k := (x * n as real).Floor;
    if k < n - 1 then k else n - 1
  }

  function CdfPoint(sorted: seq<real>, i: nat, numPoints: nat): (real, real)
    requires numPoints > 0 && |sorted| > 0
  {
    (CdfPercent(i, numPoints), sorted[CdfIndex(i, |sorted|, numPoints)])
  }

  /** The N + 1 points (i * 100 / N, sorted[index]) for i = 0 .. N. */
  function Cdf(latencies: seq<real>, numPoints: nat): (r: seq<(real, real)>)
    requires numPoints > 0 && |latencies| > 0
    ensures |r| == numPoints + 1
  {
    var sorted := Sort(latencies);
    seq(numPoints + 1, i requires 0 <= i <= numPoints => CdfPoint(sorted, i, numPoints))
  }

  method GenerateCdf(latencies: seq<real>, numPoints: nat) returns (cdf: seq<(real, real)>)
    requires numPoints > 0 && |latencies| > 0
    ensures cdf == Cdf(latencies, numPoints)
  {
    var sorted := Sort(latencies);
    var n := |sorted|;
    cdf := [];
    var i := 0;
    while i < numPoints + 1
      invariant 0 <= i <= numPoints + 1
      invariant |cdf| == i
      invariant forall k :: 0 <= k < i ==> cdf[k] == CdfPoint(sorted, k, numPoints)
    {
      var p := i as real / numPoints as real * 100.0;
      var idx := CdfIndex(i, n, numPoints);
      cdf := cdf + [(p, sorted[idx])];
      i := i + 1;
    }
  }

  lemma CdfPercentMonotone(i: nat, j: nat, numPoints: nat)
    requires numPoints > 0 && i <= j
    ensures CdfPercent(i, numPoints) <= CdfPercent(j, numPoints)
  {
    var N := numPoints as real;
    DivLe(i as real, j as real, N);
    MulLe(100.0, i as real / N, j as real / N);
    assert i as real / N * 100.0 == 100.0 * (i as real / N);
    assert j as real / N * 100.0 == 100.0 * (j as real / N);
  }

  /** Later points never look at an earlier sample. */
  lemma CdfIndexMonotone(i: nat, j: nat, n: nat, numPoints: nat)
    requires numPoints > 0 && n > 0 && i <= j
    ensures CdfIndex(i, n, numPoints) <= CdfIndex(j, n, numPoints)
  {
    var p, q := CdfPercent(i, numPoints), CdfPercent(j, numPoints);
    CdfPercentMonotone(i, j, numPoints);
    DivLe(p, q, 100.0);
    ScaledFloorMonotone(p / 100.0, q / 100.0, n as real);
  }

  lemma ScaledFloorMonotone(x: real, y: real, m: real)
    requires x <= y && m >= 0.0
    ensures (x * m).Floor <= (y * m).Floor
  {
    MulLe(m, x, y);
    assert x * m == m * x && y * m == m * y;
  }

  lemma CdfPercentEnds(numPoints: nat)
    requires numPoints > 0
    ensures CdfPercent(0, numPoints) == 0.0 && CdfPercent(numPoints, numPoints) == 100.0
  {
    var N := numPoints as real;
    assert 0.0 / N == 0.0;
    assert N / N == 1.0;
  }

  /** The first point looks at the smallest sample, the last at the
      largest. */
  lemma CdfIndexEnds(n: nat, numPoints: nat)
    requires numPoints > 0 && n > 0
    ensures CdfIndex(0, n, numPoints) == 0
    ensures CdfIndex(numPoints, n, numPoints) == n - 1
  {
    CdfPercentEnds(numPoints);
    assert 100.0 / 100.0 * n as real == n as real;
  }

  /** The CDF runs from 0 to 100 percent; its latency column never
      decreases, starts at the smallest sample and ends at the largest. */
  lemma CdfShape(latencies: seq<real>, numPoints: nat)
    requires numPoints > 0 && |latencies| > 0
    ensures var c := Cdf(latencies, numPoints);
      c[0].0 == 0.0 && c[numPoints].0 == 100.0 &&
      c[0].1 == Min(latencies) && c[numPoints].1 == Max(latencies)
  {
    CdfIndexEnds(|latencies|, numPoints);
    CdfPercentEnds(numPoints);
    SortEnds(latencies);
  }

  lemma CdfNonDecreasing(latencies: seq<real>, numPoints: nat)
    requires numPoints > 0 && |latencies| > 0
    ensures var c := Cdf(latencies, numPoints);
      forall i, j :: 0 <= i <= j <= numPoints ==> c[i].0 <= c[j].0 && c[i].1 <= c[j].1
  {
    var c := Cdf(latencies, numPoints);
    var sorted := Sort(latencies);
    forall i, j | 0 <= i <= j <= numPoints ensures c[i].0 <= c[j].0 && c[i].1 <= c[j].1 {
      CdfPercentMonotone(i, j, numPoints);
      CdfIndexMonotone(i, j, |sorted|, numPoints);
    }
  }

  // ---------------------------------------------------------------
  // the files main() writes

  /** The CSV written for the CDF: a header, then "{p:.4f},{lat:.4f}". */
  function CdfLines(cdf: seq<(real, real)>, u: Unit): (r: seq<string>)
    ensures |r| == |cdf| + 1
  {
    ["percentile,latency_" + UnitName(u)] +
      seq(|cdf|, i requires 0 <= i < |cdf| => FormatFixed(cdf[i].0, 4) + "," + FormatFixed(cdf[i].1, 4))
  }

  /** A `Name: text` line of the summary file. */
  function KeyLine(name: string, text: string): string
  {
    name + ": " + text
  }

  /** `Name: value` with the value printed to 4 decimals. */
  function StatLine(name: string, value: real): string
  {
    KeyLine(name, FormatFixed(value, 4))
  }

  /** The summary file: sample count, unit, mean, standard deviation
      (np.std, the square root of the population variance, with `sqrt`
      supplied), minimum, maximum and one line per percentile level. */
  function SummaryLines(combined: seq<real>, u: Unit, sqrt: real -> real): (r: seq<string>)
    requires |combined| > 0
    ensures |r| == 6 + |LEVELS|
  {
    var scaled := Scale(combined, Divisor(u));
    var stats := ComputePercentiles(scaled, LEVELS);
    [KeyLine("Total Samples", NatToString(|combined|)),
     KeyLine("Unit", UnitName(u)),
     StatLine("Mean", Mean(scaled)),
     StatLine("Stddev", sqrt(Variance(scaled))),
     StatLine("Min", Min(scaled)),
     StatLine("Max", Max(scaled))] +
      seq(|stats|, k requires 0 <= k < |stats| => StatLine(stats[k].0, stats[k].1))
  }

  const CDF_POINTS: nat := 10000

  datatype Outputs = Outputs(cdfLines: seq<string>, summaryLines: seq<string>)

  /** The run as a whole: the merge error, or the two files written. */
  function MergeRun(files: seq<InputFile>, u: Unit, sqrt: real -> real): Result<Outputs, MergeError>
  {
    match Merged(files)
    case Err(e) => Err(e)
    case Ok(combined) =>
      Ok(Outputs(CdfLines(Cdf(Scale(combined, Divisor(u)), CDF_POINTS), u), SummaryLines(combined, u, sqrt)))
  }

  method MergeMain(files: seq<InputFile>, u: Unit, sqrt: real -> real) returns (r: Result<Outputs, MergeError>)
    ensures r == MergeRun(files, u, sqrt)
    ensures r.Err? <==> |files| == 0 || Loads(files) == []
    ensures r.Err? ==> (r.error == NoFilesMatched <==> |files| == 0)
  {
    var merged := MergeFiles(files);
    if merged.Err? {
      return Err(merged.error);
    }
    var combined := merged.value;
    var scaled := Scale(combined, Divisor(u));
    var cdf := GenerateCdf(scaled, CDF_POINTS);
    r := Ok(Outputs(CdfLines(cdf, u), SummaryLines(combined, u, sqrt)));
  }
}
