/** src/common/metrics.h: the collector of request, deadline-miss and
    latency statistics, and the sliding-window throughput counter. A
    LatencyHistogram is modelled as the multiset of the int64_t values
    recorded into it; the HdrHistogram library behind it is not part of
    this model. Atomics are read with sequential semantics. */
module Metrics {
  import opened Types
  import opened Numerals
  import opened MergeHistograms
  import opened GenerateReport
  import opened Wrappers

  /** MetricsCollector::kMaxWorkers. */
  const METRICS_MAX_WORKERS: nat := 16

  /** deadline_miss_rate on given counters: 0 with no requests, otherwise
      misses / total. */
  function MissRate(misses: nat, total: nat): (r: real)
    ensures total == 0 ==> r == 0.0
    ensures total > 0 ==> r * total as real == misses as real
  {
    if total == 0 then 0.0 else misses as real / total as real
  }

  /** With no more misses than requests the rate is a fraction. */
  lemma MissRateBounds(misses: nat, total: nat)
    requires misses <= total
    ensures 0.0 <= MissRate(misses, total) <= 1.0
  {
    if total > 0 {
      RatioAtMost(misses as real, total as real, 1.0);
    }
  }

  class MetricsCollector {
    var e2eLatency: multiset<int>
    var lbOverhead: multiset<int>
    var perWorkerLatency: seq<multiset<int>>
    var totalRequests: nat
    var deadlineMisses: nat

    /** One histogram per worker slot, and one request counted per
        end-to-end sample: record_request and record_latency both add one
        of each, and reset clears both. */
    ghost predicate Valid()
      reads this
    {
      |perWorkerLatency| == METRICS_MAX_WORKERS && totalRequests == |e2eLatency|
    }

    constructor ()
      ensures Valid()
      ensures e2eLatency == multiset{} && lbOverhead == multiset{}
      ensures perWorkerLatency == seq(METRICS_MAX_WORKERS, _ => multiset{})
      ensures totalRequests == 0 && deadlineMisses == 0
    {
      e2eLatency, lbOverhead := multiset{}, multiset{};
      perWorkerLatency := seq(METRICS_MAX_WORKERS, _ => multiset{});
      totalRequests, deadlineMisses := 0, 0;
    }

    /** record_request: the end-to-end latency and the LB overhead (each
        uint64_t read as int64_t) go into their histograms, a miss is
        counted when the trace missed its deadline, and the latency also
        goes into its worker's histogram, but only for worker ids below
        16. */
    method RecordRequest(trace: RequestTrace)
      requires Valid()
      modifies this
      ensures Valid()
      ensures e2eLatency == old(e2eLatency) + multiset{ToSigned64(trace.E2eLatency())}
      ensures lbOverhead == old(lbOverhead) + multiset{ToSigned64(trace.LbOverhead())}
      ensures totalRequests == old(totalRequests) + 1
      ensures deadlineMisses == old(deadlineMisses) + (if trace.IsDeadlineMiss() then 1 else 0)
      ensures trace.targetWorkerId < METRICS_MAX_WORKERS ==>
        perWorkerLatency == old(perWorkerLatency)[trace.targetWorkerId :=
          old(perWorkerLatency[trace.targetWorkerId]) + multiset{ToSigned64(trace.E2eLatency())}]
      ensures trace.targetWorkerId >= METRICS_MAX_WORKERS ==> perWorkerLatency == old(perWorkerLatency)
    {
      var latency := ToSigned64(trace.E2eLatency());
      e2eLatency := e2eLatency + multiset{latency};
      if trace.IsDeadlineMiss() {
        deadlineMisses := deadlineMisses + 1;
      }
      totalRequests := totalRequests + 1;
      lbOverhead := lbOverhead + multiset{ToSigned64(trace.LbOverhead())};
      if trace.targetWorkerId < METRICS_MAX_WORKERS {
        var id := trace.targetWorkerId;
        perWorkerLatency := perWorkerLatency[id := perWorkerLatency[id] + multiset{latency}];
      }
    }

    /** record_latency: one sample and one request, no miss. */
    method RecordLatency(latency: Duration)
      requires Valid()
      modifies this
      ensures Valid()
      ensures e2eLatency == old(e2eLatency) + multiset{latency as int}
      ensures totalRequests == old(totalRequests) + 1 && deadlineMisses == old(deadlineMisses)
      ensures lbOverhead == old(lbOverhead) && perWorkerLatency == old(perWorkerLatency)
    {
      e2eLatency := e2eLatency + multiset{latency as int};
      totalRequests := totalRequests + 1;
    }

    /** record_deadline_miss: one more miss, nothing else. */
    method RecordDeadlineMiss()
      requires Valid()
      modifies this
      ensures Valid()
      ensures deadlineMisses == old(deadlineMisses) + 1 && totalRequests == old(totalRequests)
      ensures e2eLatency == old(e2eLatency) && lbOverhead == old(lbOverhead)
      ensures perWorkerLatency == old(perWorkerLatency)
    {
      deadlineMisses := deadlineMisses + 1;
    }

    /** deadline_miss_rate. */
    function DeadlineMissRate(): (r: real)
      reads this
      ensures totalRequests == 0 ==> r == 0.0
      ensures totalRequests > 0 ==> r * totalRequests as real == deadlineMisses as real
    {
      MissRate(deadlineMisses, totalRequests)
    }

    /** worker_latency: the histogram in slot id mod 16, so ids from 16 on
        read another worker's slot. */
    function WorkerLatency(id: nat): (h: multiset<int>)
      requires Valid()
      reads this
      ensures id < METRICS_MAX_WORKERS ==> h == perWorkerLatency[id]
      ensures h == WorkerLatency(id % METRICS_MAX_WORKERS)
    {
      perWorkerLatency[id % METRICS_MAX_WORKERS]
    }

    /** reset: every histogram emptied and both counters zero. */
    method Reset()
      requires Valid()
      modifies this
      ensures Valid()
      ensures e2eLatency == multiset{} && lbOverhead == multiset{}
      ensures perWorkerLatency == seq(METRICS_MAX_WORKERS, _ => multiset{})
      ensures totalRequests == 0 && deadlineMisses == 0
    {
      e2eLatency := multiset{};
      lbOverhead := multiset{};
      var i := 0;
      while i < METRICS_MAX_WORKERS
        invariant 0 <= i <= METRICS_MAX_WORKERS
        invariant |perWorkerLatency| == METRICS_MAX_WORKERS
        invariant e2eLatency == multiset{} && lbOverhead == multiset{}
        invariant forall j :: 0 <= j < i ==> perWorkerLatency[j] == multiset{}
      {
        perWorkerLatency := perWorkerLatency[i := multiset{}];
        i := i + 1;
      }
      totalRequests := 0;
      deadlineMisses := 0;
    }
  }

  /** A request's latency shows up in its worker's histogram exactly when
      the worker id is below 16; a larger id is dropped on record, and
      reading it back gives the histogram of slot id mod 16. */
  method WorkerSlotOfRequest(trace: RequestTrace) returns (slot: multiset<int>)
    ensures trace.targetWorkerId < METRICS_MAX_WORKERS ==>
      slot == multiset{ToSigned64(trace.E2eLatency())}
    ensures trace.targetWorkerId >= METRICS_MAX_WORKERS ==> slot == multiset{}
  {
    var collector := new MetricsCollector();
    collector.RecordRequest(trace);
    slot := collector.WorkerLatency(trace.targetWorkerId);
  }

  // ---------------------------------------------------------------
  // The summary file export_all writes

  /** The keys of summary.txt, in order. */
  const TOTAL_REQUESTS_KEY := "Total Requests"
  const DEADLINE_MISSES_KEY := "Deadline Misses"
  const SUMMARY_KEYS: seq<string> := [TOTAL_REQUESTS_KEY, DEADLINE_MISSES_KEY, MISS_KEY,
    "P50 Latency (us)", "P99 Latency (us)", "P99.9 Latency (us)", "P99.99 Latency (us)"]

  /** `Name: text` lines, one per key. */
  function KeyLines(keys: seq<string>, texts: seq<string>): (lines: seq<string>)
    requires |keys| == |texts|
    ensures |lines| == |keys|
    ensures forall i :: 0 <= i < |keys| ==> lines[i] == KeyLine(keys[i], texts[i])
  {
    seq(|keys|, i requires 0 <= i < |keys| => KeyLine(keys[i], texts[i]))
  }

  /** The entries load_summary makes of those lines. */
  function KeyEntries(keys: seq<string>, texts: seq<string>): (entries: seq<(string, Value)>)
    requires |keys| == |texts|
    ensures |entries| == |keys|
    ensures forall i :: 0 <= i < |keys| ==> entries[i] == (keys[i], ParseValue(texts[i]))
  {
    seq(|keys|, i requires 0 <= i < |keys| => (keys[i], ParseValue(texts[i])))
  }

  /** Lines with plain keys and unpadded values read back as their keys
      and parsed values, later keys winning. */
  lemma KeyLinesRead(keys: seq<string>, texts: seq<string>)
    requires |keys| == |texts|
    requires forall i :: 0 <= i < |keys| ==> KeyText(keys[i]) && Padless(texts[i])
    ensures SummaryOf(KeyLines(keys, texts)) == MapOf(KeyEntries(keys, texts))
  {
    var lines, entries := KeyLines(keys, texts), KeyEntries(keys, texts);
    forall i | 0 <= i < |lines|
      ensures SummaryEntry(lines[i]) == Some(entries[i])
    {
      EntryOf(keys[i], texts[i]);
    }
    SummaryOfEntries(lines, entries);
  }

  /** The value texts of summary.txt: the two counters in decimal, the miss
      rate in percent followed by '%', and the four percentiles.
      `rateText` and `percentileTexts` are the stream's rendering of those
      doubles. */
  function SummaryTexts(total: nat, misses: nat, rateText: string, percentileTexts: seq<string>): (texts: seq<string>)
    requires |percentileTexts| == 4
    ensures |texts| == 7
  {
    [NatToString(total), NatToString(misses), rateText + "%"] + percentileTexts
  }

  /** summary.txt as export_all writes it: the counters, the miss rate in
      percent, and the 50th, 99th, 99.9th and 99.99th percentiles of the
      end-to-end histogram in microseconds. */
  function SummaryFile(total: nat, misses: nat, rateText: string, percentileTexts: seq<string>): (lines: seq<string>)
    requires |percentileTexts| == 4
    ensures |lines| == |SUMMARY_KEYS|
  {
    KeyLines(SUMMARY_KEYS, SummaryTexts(total, misses, rateText, percentileTexts))
  }

  /** Every key is plain text, and none of the three counter keys occurs
      again later. */
  lemma SummaryKeysDistinct()
    ensures forall k :: 0 <= k < |SUMMARY_KEYS| ==> KeyText(SUMMARY_KEYS[k])
    ensures forall j, k :: 0 <= j < 3 && j < k < |SUMMARY_KEYS| ==> SUMMARY_KEYS[k] != SUMMARY_KEYS[j]
  {
    forall j, k | 0 <= j < 3 && j < k < |SUMMARY_KEYS|
      ensures SUMMARY_KEYS[k] != SUMMARY_KEYS[j]
    {
      if j == 1 && k == 2 {
        assert |SUMMARY_KEYS[k]| != |SUMMARY_KEYS[j]|;
      } else {
        assert SUMMARY_KEYS[k][0] != SUMMARY_KEYS[j][0];
      }
    }
  }

  /** No value text is padded with whitespace. */
  predicate AllPadless(texts: seq<string>) {
    forall k :: 0 <= k < |texts| ==> Padless(texts[k])
  }

  lemma PadlessPrefix(a: string, b: string, c: string, rest: seq<string>)
    requires Padless(a) && Padless(b) && Padless(c) && AllPadless(rest)
    ensures AllPadless([a, b, c] + rest)
  {
    var texts := [a, b, c] + rest;
    forall k | 3 <= k < |texts|
      ensures Padless(texts[k])
    {
      assert texts[k] == rest[k - 3];
    }
  }

  /** The value texts are unpadded. */
  lemma SummaryTextsPadless(total: nat, misses: nat, rateText: string, rate: real, percentileTexts: seq<string>)
    requires NumeralText(rateText) && ParseDecimal(rateText) == Some(rate)
    requires |percentileTexts| == 4 && AllPadless(percentileTexts)
    ensures AllPadless(SummaryTexts(total, misses, rateText, percentileTexts))
  {
    CounterValue(total);
    CounterValue(misses);
    PercentValue(rateText, rate);
    PadlessPrefix(NatToString(total), NatToString(misses), rateText + "%", percentileTexts);
  }

  /** The first three value texts parse to the two counters and the
      percentage. */
  lemma SummaryTextValue(total: nat, misses: nat, rateText: string, rate: real, percentileTexts: seq<string>)
    requires NumeralText(rateText) && ParseDecimal(rateText) == Some(rate)
    requires |percentileTexts| == 4
    ensures ParseValue(SummaryTexts(total, misses, rateText, percentileTexts)[0]) == Num(total as real)
    ensures ParseValue(SummaryTexts(total, misses, rateText, percentileTexts)[1]) == Num(misses as real)
    ensures ParseValue(SummaryTexts(total, misses, rateText, percentileTexts)[2]) == Num(rate)
  {
    var texts := SummaryTexts(total, misses, rateText, percentileTexts);
    assert texts[0] == NatToString(total) && texts[1] == NatToString(misses) && texts[2] == rateText + "%";
    CounterValue(total);
    CounterValue(misses);
    PercentValue(rateText, rate);
  }

  /** A counter written in decimal parses back to itself. */
  lemma CounterValue(n: nat)
    ensures Padless(NatToString(n)) && ParseValue(NatToString(n)) == Num(n as real)
  {
    NatToStringNumeral(n);
    ParseNatToString(n);
    NumeralValue(NatToString(n), n as real);
  }

  /** generate_report.py's load_summary reads summary.txt back: both
      counters exactly, and the miss rate as the percentage written, with
      its '%' stripped. */
  lemma SummaryFileRead(total: nat, misses: nat, rateText: string, rate: real, percentileTexts: seq<string>)
    requires NumeralText(rateText) && ParseDecimal(rateText) == Some(rate)
    requires |percentileTexts| == 4 && AllPadless(percentileTexts)
    ensures var m := SummaryOf(SummaryFile(total, misses, rateText, percentileTexts));
      SUMMARY_KEYS[0] in m && m[SUMMARY_KEYS[0]] == Num(total as real) &&
      SUMMARY_KEYS[1] in m && m[SUMMARY_KEYS[1]] == Num(misses as real) &&
      SUMMARY_KEYS[2] in m && m[SUMMARY_KEYS[2]] == Num(rate)
  {
    var texts := SummaryTexts(total, misses, rateText, percentileTexts);
    SummaryKeysDistinct();
    SummaryTextsPadless(total, misses, rateText, rate, percentileTexts);
    SummaryTextValue(total, misses, rateText, rate, percentileTexts);
    FirstThreeRead(SUMMARY_KEYS, texts, Num(total as real), Num(misses as real), Num(rate));
  }

  /** The first three keys of a file with plain keys, unpadded values and
      no later repeat of those keys map to their parsed values. */
  lemma FirstThreeRead(keys: seq<string>, texts: seq<string>, v0: Value, v1: Value, v2: Value)
    requires |keys| == |texts| && 3 <= |keys|
    requires forall k :: 0 <= k < |keys| ==> KeyText(keys[k])
    requires AllPadless(texts)
    requires forall j, k :: 0 <= j < 3 && j < k < |keys| ==> keys[k] != keys[j]
    requires ParseValue(texts[0]) == v0 && ParseValue(texts[1]) == v1 && ParseValue(texts[2]) == v2
    ensures var m := SummaryOf(KeyLines(keys, texts));
      keys[0] in m && m[keys[0]] == v0 && keys[1] in m && m[keys[1]] == v1 && keys[2] in m && m[keys[2]] == v2
  {
    LeadingKeysRead(keys, texts, 3);
  }

  /** The keys SummaryFileRead reads are the counters and the key the
      report's miss-rate column looks up. */
  lemma SummaryKeyNames()
    ensures SUMMARY_KEYS[0] == TOTAL_REQUESTS_KEY && SUMMARY_KEYS[1] == DEADLINE_MISSES_KEY
    ensures SUMMARY_KEYS[2] == MISS_KEY
  {
  }

  /** The file export_all writes has no bare "P50" key: its percentile
      keys carry a " Latency (us)" suffix. The summary block of
      generate_text_report as written therefore fails on it when it
      formats the missing P50 with two decimals; the intended block prints
      N/A there. */
  lemma ExportedSummaryBreaksBlock(total: nat, misses: nat, rateText: string, rate: real, percentileTexts: seq<string>,
                                   repr: real -> string)
    requires NumeralText(rateText) && ParseDecimal(rateText) == Some(rate)
    requires |percentileTexts| == 4 && AllPadless(percentileTexts)
    ensures var m := SummaryOf(SummaryFile(total, misses, rateText, percentileTexts));
      "P50" !in m && SummaryBlockAsWritten(m, repr) == Err(FormatFailed("P50")) &&
      FieldOrNA(m, "P50", 2) == "N/A"
  {
    var m := SummaryOf(SummaryFile(total, misses, rateText, percentileTexts));
    assert "P50" !in m by {
      var texts := SummaryTexts(total, misses, rateText, percentileTexts);
      assert forall k :: 0 <= k < |SUMMARY_KEYS| ==> SUMMARY_KEYS[k] != "P50" by {
        SummaryKeysLong();
      }
      SummaryKeysDistinct();
      SummaryTextsPadless(total, misses, rateText, rate, percentileTexts);
      KeyAbsent(SUMMARY_KEYS, texts, "P50");
    }
  }

  /** The intended summary block prints the miss rate export_all wrote,
      to four decimals. */
  lemma ExportedSummaryRate(total: nat, misses: nat, rateText: string, rate: real, percentileTexts: seq<string>,
                            repr: real -> string)
    requires NumeralText(rateText) && ParseDecimal(rateText) == Some(rate)
    requires |percentileTexts| == 4 && AllPadless(percentileTexts)
    ensures var m := SummaryOf(SummaryFile(total, misses, rateText, percentileTexts));
      SummaryBlock(m, repr)[5] == "  Miss Rate:     " + FormatFixed(rate, 4) + "%"
  {
    var m := SummaryOf(SummaryFile(total, misses, rateText, percentileTexts));
    assert MISS_KEY in m && m[MISS_KEY] == Num(rate) by {
      SummaryFileRead(total, misses, rateText, rate, percentileTexts);
      SummaryKeyNames();
    }
  }

  /** Every summary.txt key is longer than the report's percentile keys. */
  lemma SummaryKeysLong()
    ensures forall k :: 0 <= k < |SUMMARY_KEYS| ==> |SUMMARY_KEYS[k]| > 6
  {
  }

  /** The first n keys of a file with plain keys, unpadded values and no
      later repeat of those keys map to their parsed values. */
  lemma LeadingKeysRead(keys: seq<string>, texts: seq<string>, n: nat)
    requires |keys| == |texts| && n <= |keys|
    requires forall k :: 0 <= k < |keys| ==> KeyText(keys[k])
    requires AllPadless(texts)
    requires forall j, k :: 0 <= j < n && j < k < |keys| ==> keys[k] != keys[j]
    ensures forall j :: 0 <= j < n ==>
      keys[j] in SummaryOf(KeyLines(keys, texts)) && SummaryOf(KeyLines(keys, texts))[keys[j]] == ParseValue(texts[j])
  {
    var entries := KeyEntries(keys, texts);
    KeyLinesRead(keys, texts);
    forall j | 0 <= j < n
      ensures keys[j] in MapOf(entries) && MapOf(entries)[keys[j]] == ParseValue(texts[j])
    {
      MapOfLast(entries, j);
    }
  }

  /** A key no line carries is absent from what load_summary builds. */
  lemma KeyAbsent(keys: seq<string>, texts: seq<string>, key: string)
    requires |keys| == |texts|
    requires forall k :: 0 <= k < |keys| ==> KeyText(keys[k])
    requires AllPadless(texts)
    requires forall k :: 0 <= k < |keys| ==> keys[k] != key
    ensures key !in SummaryOf(KeyLines(keys, texts))
  {
    KeyLinesRead(keys, texts);
    MapOfAbsent(KeyEntries(keys, texts), key);
  }

  // ---------------------------------------------------------------
  // ThroughputCounter

  /** kWindowSize buckets of kBucketDurationNs each. */
  const WINDOW_SIZE: nat := 10
  const BUCKET_DURATION_NS: nat := 100000000

  /** The bucket a clock reading falls in. */
  function BucketOf(now: Timestamp): (b: nat)
    ensures b < WINDOW_SIZE
  {
    (now / BUCKET_DURATION_NS) % WINDOW_SIZE
  }

  /** Requests counted over the window. */
  function Total(s: seq<nat>): nat
  {
    if |s| == 0 then 0 else Total(s[..|s| - 1]) + s[|s| - 1]
  }

  /** Changing one bucket changes the total by the difference. */
  lemma {:induction false} TotalUpdate(s: seq<nat>, i: nat, v: nat)
    requires i < |s|
    ensures Total(s[i := v]) + s[i] == Total(s) + v
  {
    var t := s[i := v];
    if i < |s| - 1 {
      assert t[..|t| - 1] == s[..|s| - 1][i := v];
      TotalUpdate(s[..|s| - 1], i, v);
    } else {
      assert t[..|t| - 1] == s[..|s| - 1];
    }
  }

  class ThroughputCounter {
    const buckets: array<nat>
    var lastBucket: nat

    ghost predicate Valid()
      reads this
    {
      buckets.Length == WINDOW_SIZE && lastBucket < WINDOW_SIZE
    }

    constructor ()
      ensures Valid() && fresh(buckets)
      ensures buckets[..] == seq(WINDOW_SIZE, _ => 0) && lastBucket == 0
    {
      buckets := new nat[WINDOW_SIZE](_ => 0);
      lastBucket := 0;
    }

    /** record: one more request in the current bucket; on entering a new
        bucket the one after it, the oldest of the window, is cleared. */
    method Record(now: Timestamp)
      requires Valid()
      modifies this, buckets
      ensures Valid() && lastBucket == BucketOf(now)
      ensures var b := BucketOf(now);
        var counted := old(buckets[..])[b := old(buckets[b]) + 1];
        buckets[..] == (if old(lastBucket) != b then counted[(b + 1) % WINDOW_SIZE := 0] else counted)
      ensures var b := BucketOf(now);
        Total(buckets[..]) == Total(old(buckets[..])) + 1 -
          (if old(lastBucket) != b then old(buckets[(b + 1) % WINDOW_SIZE]) else 0)
      ensures buckets[BucketOf(now)] >= 1
    {
      var bucket := BucketOf(now);
      ghost var before := buckets[..];
      buckets[bucket] := buckets[bucket] + 1;
      TotalUpdate(before, bucket, before[bucket] + 1);
      var oldBucket := (bucket + 1) % WINDOW_SIZE;
      if lastBucket != bucket {
        ghost var counted := buckets[..];
        buckets[oldBucket] := 0;
        TotalUpdate(counted, oldBucket, 0);
        lastBucket := bucket;
      }
    }

    /** get_rps: the requests over the window divided by its length,
        10 x 10^8 ns = exactly one second, so the rate is the count. */
    method GetRps() returns (rps: real)
      requires Valid()
      ensures rps == Total(buckets[..]) as real
    {
      var total := 0;
      var i := 0;
      while i < WINDOW_SIZE
        invariant 0 <= i <= WINDOW_SIZE
        invariant total == Total(buckets[..i])
      {
        assert buckets[..i + 1][..i] == buckets[..i];
        total := total + buckets[i];
        i := i + 1;
      }
      assert buckets[..i] == buckets[..];
      var windowSec := (WINDOW_SIZE * BUCKET_DURATION_NS) as real / 1000000000.0;
      rps := total as real / windowSec;
    }
  }
}
