/** src/common/config.cpp: the experiment configuration read from command
    line options (parse_config) and from a file of `key: value` lines
    (load_config_file). A std::sto* conversion that throws is an Err
    result: nothing in these functions catches it. */
module Config {
  import opened Wrappers
  import opened Text
  import opened Numerals
  import opened Types

  /** uint64_t. */
  type U64 = n: int | 0 <= n < TWO_64

  /** ExperimentConfig (src/common/config.h) with its member defaults. */
  datatype ExperimentConfig = ExperimentConfig(
    lbAddress: string,
    workerAddresses: seq<string>,
    algorithm: SchedulerType,
    localScheduler: LocalSchedulerType,
    modelPath: string,
    targetRps: U64,
    durationSec: U32,
    warmupSec: U32,
    paretoAlpha: real,
    serviceTimeMinUs: U32,
    deadlineMultiplier: real,
    outputDir: string,
    verbose: bool)

  const DEFAULT_CONFIG: ExperimentConfig :=
    ExperimentConfig("", [], PowerOf2, Fcfs, "", 500000, 120, 30, 1.2, 10, 5.0, "", false)

  // ---------------------------------------------------------------------
  // Scheduler names
  // ---------------------------------------------------------------------

  /** The strcmp chain on an --algorithm argument; None when no name matches. */
  function AlgorithmOf(name: string): Option<SchedulerType>
  {
    if name == "po2" then Some(PowerOf2)
    else if name == "malcolm" then Some(Malcolm)
    else if name == "malcolm_strict" then Some(MalcolmStrict)
    else None
  }

  /** The name --algorithm accepts for each scheduler type. */
  function AlgorithmName(t: SchedulerType): string
  {
    match t
    case PowerOf2 => "po2"
    case Malcolm => "malcolm"
    case MalcolmStrict => "malcolm_strict"
  }

  /** Exactly the three names are accepted, each for its own type. */
  lemma AlgorithmNames(name: string, t: SchedulerType)
    ensures AlgorithmOf(name) == Some(t) <==> name == AlgorithmName(t)
    ensures AlgorithmOf(name) == None <==>
      name != "po2" && name != "malcolm" && name != "malcolm_strict"
  {
    assert "po2" != "malcolm" && "po2" != "malcolm_strict";
    assert "malcolm" != "malcolm_strict" by { assert |"malcolm"| != |"malcolm_strict"|; }
  }

  /** --scheduler: "edf" selects EDF and every other name FCFS. */
  function LocalSchedulerOf(name: string): (r: LocalSchedulerType)
    ensures r == Edf <==> name == "edf"
  {
    if name == "edf" then Edf else Fcfs
  }

  // ---------------------------------------------------------------------
  // parse_config
  // ---------------------------------------------------------------------

  /** One option as getopt_long reports it, with its argument text. */
  datatype ConfigOption =
    | LbOption(address: string)
    | WorkersOption(list: string)
    | AlgorithmOption(name: string)
    | SchedulerOption(name: string)
    | ModelOption(path: string)
    | RpsOption(arg: string)
    | DurationOption(arg: string)
    | WarmupOption(arg: string)
    | AlphaOption(arg: string)
    | OutputOption(dir: string)
    | VerboseOption
    | HelpOption
    | UnrecognisedOption  // '?': an unknown option or a missing argument

  /** std::stoul assigned to a uint32_t field: the low 32 bits. */
  function StoULTo32(arg: string): (r: Result<U32, ConvError>)
    ensures StoULL(arg).Err? <==> r.Err?
    ensures r.Ok? ==> r.value == StoULL(arg).value % TWO_32
  {
    match StoULL(arg)
    case Ok(v) => Ok(Wrap32(v))
    case Err(e) => Err(e)
  }

  /** What one pass of parse_config's switch does to the configuration.
      --workers appends the raw getline tokens, untrimmed; an unknown
      --algorithm name leaves the algorithm as it is; --help and unknown
      options change nothing. */
  function SettleOption(c: ExperimentConfig, o: ConfigOption): Result<ExperimentConfig, ConvError>
  {
    match o
    case LbOption(a) => Ok(c.(lbAddress := a))
    case WorkersOption(l) => Ok(c.(workerAddresses := c.workerAddresses + GetlineSplit(l, ',')))
    case AlgorithmOption(n) =>
      Ok(match AlgorithmOf(n) case Some(t) => c.(algorithm := t) case None => c)
    case SchedulerOption(n) => Ok(c.(localScheduler := LocalSchedulerOf(n)))
    case ModelOption(p) => Ok(c.(modelPath := p))
    case RpsOption(arg) =>
      (match StoULL(arg) case Ok(v) => Ok(c.(targetRps := v)) case Err(e) => Err(e))
    case DurationOption(arg) =>
      (match StoULTo32(arg) case Ok(v) => Ok(c.(durationSec := v)) case Err(e) => Err(e))
    case WarmupOption(arg) =>
      (match StoULTo32(arg) case Ok(v) => Ok(c.(warmupSec := v)) case Err(e) => Err(e))
    case AlphaOption(arg) =>
      (match StoD(arg) case Ok(v) => Ok(c.(paretoAlpha := v)) case Err(e) => Err(e))
    case OutputOption(d) => Ok(c.(outputDir := d))
    case VerboseOption => Ok(c.(verbose := true))
    case HelpOption => Ok(c)
    case UnrecognisedOption => Ok(c)
  }

  /** The options applied in order from `c`; the first conversion that
      throws ends the parse. */
  function ConfigOfOptions(opts: seq<ConfigOption>, c: ExperimentConfig): Result<ExperimentConfig, ConvError>
    decreases |opts|
  {
    if |opts| == 0 then Ok(c)
    else match SettleOption(c, opts[0])
      case Ok(next) => ConfigOfOptions(opts[1..], next)
      case Err(e) => Err(e)
  }

  /** The getline loop of the --workers case: every token pushed as read. */
  method AppendTokens(workers: seq<string>, list: string) returns (r: seq<string>)
    ensures r == workers + GetlineSplit(list, ',')
  {
    r := workers;
    var rest := list;
    while |rest| > 0
      invariant r + GetlineSplit(rest, ',') == workers + GetlineSplit(list, ',')
      decreases |rest|
    {
      var k := FindChar(rest, ',');
      var next := if k == |rest| then [] else rest[k + 1..];
      var token := rest[..k];
      GetlineHead(rest, ',', k, next);
      AppendAssoc(r, [token], GetlineSplit(next, ','));
      r := r + [token];
      rest := next;
    }
  }

  /** parse_config: the getopt_long loop over the options, from the
      defaults. */
  method ParseConfig(opts: seq<ConfigOption>) returns (r: Result<ExperimentConfig, ConvError>)
    ensures r == ConfigOfOptions(opts, DEFAULT_CONFIG)
  {
    var config := DEFAULT_CONFIG;
    var i := 0;
    while i < |opts|
      invariant 0 <= i <= |opts|
      invariant ConfigOfOptions(opts[i..], config) == ConfigOfOptions(opts, DEFAULT_CONFIG)
    {
      assert opts[i..][1..] == opts[i + 1..];
      var step := ApplyOption(config, opts[i]);
      if step.Err? {
        return Err(step.error);
      }
      config := step.value;
      i := i + 1;
    }
    return Ok(config);
  }

  /** One pass of parse_config's switch. */
  method ApplyOption(c: ExperimentConfig, o: ConfigOption) returns (r: Result<ExperimentConfig, ConvError>)
    ensures r == SettleOption(c, o)
  {
    var config := c;
    match o {
      case LbOption(a) =>
        config := config.(lbAddress := a);
      case WorkersOption(l) =>
        var workers := AppendTokens(config.workerAddresses, l);
        config := config.(workerAddresses := workers);
      case AlgorithmOption(n) =>
        if n == "po2" {
          config := config.(algorithm := PowerOf2);
        } else if n == "malcolm" {
          config := config.(algorithm := Malcolm);
        } else if n == "malcolm_strict" {
          config := config.(algorithm := MalcolmStrict);
        }
      case SchedulerOption(n) =>
        if n == "edf" {
          config := config.(localScheduler := Edf);
        } else {
          config := config.(localScheduler := Fcfs);
        }
      case ModelOption(p) =>
        config := config.(modelPath := p);
      case RpsOption(arg) =>
        var v := StoULL(arg);
        if v.Err? {
          return Err(v.error);
        }
        config := config.(targetRps := v.value);
      case DurationOption(arg) =>
        var v := StoULL(arg);
        if v.Err? {
          return Err(v.error);
        }
        config := config.(durationSec := Wrap32(v.value));
      case WarmupOption(arg) =>
        var v := StoULL(arg);
        if v.Err? {
          return Err(v.error);
        }
        config := config.(warmupSec := Wrap32(v.value));
      case AlphaOption(arg) =>
        var v := StoD(arg);
        if v.Err? {
          return Err(v.error);
        }
        config := config.(paretoAlpha := v.value);
      case OutputOption(d) =>
        config := config.(outputDir := d);
      case VerboseOption =>
        config := config.(verbose := true);
      case HelpOption =>
      case UnrecognisedOption =>
    }
    return Ok(config);
  }

  /** Applying two runs of options is applying their concatenation. */
  lemma {:induction false} ConfigOfOptionsAppend(a: seq<ConfigOption>, b: seq<ConfigOption>, c: ExperimentConfig)
    ensures ConfigOfOptions(a + b, c) ==
      if ConfigOfOptions(a, c).Ok? then ConfigOfOptions(b, ConfigOfOptions(a, c).value)
      else ConfigOfOptions(a, c)
    decreases |a|
  {
    if |a| == 0 {
      assert a + b == b;
    } else {
      assert (a + b)[0] == a[0];
      assert (a + b)[1..] == a[1..] + b;
      match SettleOption(c, a[0]) {
        case Ok(after) => ConfigOfOptionsAppend(a[1..], b, after);
        case Err(e) =>
      }
    }
  }

  /** An --algorithm name that is none of the three leaves the whole
      configuration unchanged (the program goes on with the earlier choice). */
  lemma UnknownAlgorithmKeeps(c: ExperimentConfig, name: string)
    requires name != "po2" && name != "malcolm" && name != "malcolm_strict"
    ensures SettleOption(c, AlgorithmOption(name)) == Ok(c)
  {
  }

  /** The getline tokens an option adds to the worker list. */
  function OptionTokens(o: ConfigOption): seq<string>
  {
    if o.WorkersOption? then GetlineSplit(o.list, ',') else []
  }

  /** The getline tokens of all --workers options, in order. */
  function WorkerTokens(opts: seq<ConfigOption>): seq<string>
    decreases |opts|
  {
    if |opts| == 0 then [] else OptionTokens(opts[0]) + WorkerTokens(opts[1..])
  }

  /** Only --workers touches the worker list, and it appends its tokens. */
  lemma SettleWorkers(c: ExperimentConfig, o: ConfigOption)
    ensures SettleOption(c, o).Ok? ==>
      SettleOption(c, o).value.workerAddresses == c.workerAddresses + OptionTokens(o)
  {
    if !o.WorkersOption? {
      assert c.workerAddresses + [] == c.workerAddresses;
    }
  }

  /** --workers appends: after a successful parse the worker list is the
      starting list followed by the tokens of every --workers option in
      order. */
  lemma {:induction false} WorkersAccumulate(opts: seq<ConfigOption>, c: ExperimentConfig)
    ensures ConfigOfOptions(opts, c).Ok? ==>
      ConfigOfOptions(opts, c).value.workerAddresses == c.workerAddresses + WorkerTokens(opts)
    decreases |opts|
  {
    if |opts| > 0 {
      var step := SettleOption(c, opts[0]);
      if step.Ok? {
        var toks := OptionTokens(opts[0]);
        assert step.value.workerAddresses == c.workerAddresses + toks by {
          SettleWorkers(c, opts[0]);
        }
        WorkersAccumulate(opts[1..], step.value);
        AppendAssoc(c.workerAddresses, toks, WorkerTokens(opts[1..]));
      }
    }
  }

  /** A conversion that throws ends the parse with that error, whatever
      follows. */
  lemma ConversionErrorStops(
    prefix: seq<ConfigOption>, o: ConfigOption, rest: seq<ConfigOption>, mid: ExperimentConfig, e: ConvError)
    requires ConfigOfOptions(prefix, DEFAULT_CONFIG) == Ok(mid)
    requires SettleOption(mid, o) == Err(e)
    ensures ConfigOfOptions(prefix + [o] + rest, DEFAULT_CONFIG) == Err(e)
  {
    ConfigOfOptionsAppend(prefix, [o] + rest, DEFAULT_CONFIG);
    assert prefix + [o] + rest == prefix + ([o] + rest);
    assert ([o] + rest)[0] == o;
  }

  // ---------------------------------------------------------------------
  // load_config_file
  // ---------------------------------------------------------------------

  /** How one line of the file reads: ignored, or a key and a value. */
  datatype LineKind = Ignored | Setting(key: string, value: string)

  /** Empty lines, comments and lines without ':' are ignored; otherwise
      the key is the text before the first ':' and the value the text after
      it, each trimmed. */
  function LineOf(line: string): (r: LineKind)
    ensures r.Ignored? <==> |line| == 0 || line[0] == '#' || ':' !in line
  {
    if |line| == 0 || line[0] == '#' then Ignored
    else
      var colon := FindChar(line, ':');
      if colon == |line| then Ignored
      else Setting(TrimBlanks(line[..colon]), TrimBlanks(line[colon + 1..]))
  }

  /** The if-chain on the key; any other key changes nothing. */
  function ApplySetting(c: ExperimentConfig, key: string, value: string): Result<ExperimentConfig, ConvError>
  {
    if key == "lb_address" then Ok(c.(lbAddress := value))
    else if key == "target_rps" then
      (match StoULL(value) case Ok(v) => Ok(c.(targetRps := v)) case Err(e) => Err(e))
    else if key == "duration_sec" then
      (match StoULTo32(value) case Ok(v) => Ok(c.(durationSec := v)) case Err(e) => Err(e))
    else if key == "pareto_alpha" then
      (match StoD(value) case Ok(v) => Ok(c.(paretoAlpha := v)) case Err(e) => Err(e))
    else Ok(c)
  }

  function ApplyLine(c: ExperimentConfig, line: string): Result<ExperimentConfig, ConvError>
  {
    match LineOf(line)
    case Ignored => Ok(c)
    case Setting(k, v) => ApplySetting(c, k, v)
  }

  /** The lines applied in order from `c`. */
  function ApplyLines(lines: seq<string>, c: ExperimentConfig): Result<ExperimentConfig, ConvError>
    decreases |lines|
  {
    if |lines| == 0 then Ok(c)
    else match ApplyLine(c, lines[0])
      case Ok(next) => ApplyLines(lines[1..], next)
      case Err(e) => Err(e)
  }

  /** load_config_file on the file's text, None when it cannot be opened:
      the defaults, updated line by line. */
  function ConfigFile(file: Option<string>): Result<ExperimentConfig, ConvError>
  {
    match file
    case None => Ok(DEFAULT_CONFIG)
    case Some(text) => ApplyLines(GetlineSplit(text, '\n'), DEFAULT_CONFIG)
  }

  /** The trim lambda: it replaces the string by its trimmed slice unless
      the string has no character other than space and tab. */
  method Trim(s: string) returns (t: string)
    ensures t == TrimBlanks(s)
  {
    t := s;
    var start := FirstNotBlank(s);
    var end := LastNotBlank(s);
    TrimBlanksSlice(s, start, end);
    if start != |s| {
      t := s[start..end + 1];
    }
  }

  /** load_config_file: read lines with std::getline and apply each. */
  method LoadConfigFile(file: Option<string>) returns (r: Result<ExperimentConfig, ConvError>)
    ensures r == ConfigFile(file)
  {
    if file.None? {
      return Ok(DEFAULT_CONFIG);
    }
    var config := DEFAULT_CONFIG;
    var rest := file.value;  // what the stream has not consumed yet
    while |rest| > 0
      invariant ApplyLines(GetlineSplit(rest, '\n'), config) == ConfigFile(file)
      decreases |rest|
    {
      var k := FindChar(rest, '\n');
      var line := rest[..k];
      var remaining := if k == |rest| then [] else rest[k + 1..];
      GetlineHead(rest, '\n', k, remaining);
      ApplyLinesCons(line, GetlineSplit(remaining, '\n'), config);
      rest := remaining;
      var step := ReadLine(config, line);
      if step.Err? {
        return Err(step.error);
      }
      config := step.value;
    }
    return Ok(config);
  }

  /** The body of the getline loop for one line: skip it, or trim the key
      and the value and run the if-chain on the key. */
  method ReadLine(c: ExperimentConfig, line: string) returns (r: Result<ExperimentConfig, ConvError>)
    ensures r == ApplyLine(c, line)
  {
    if |line| == 0 || line[0] == '#' {
      IgnoredApplied(c, line);
      return Ok(c);
    }
    var colon := FindChar(line, ':');
    if colon == |line| {
      IgnoredApplied(c, line);
      return Ok(c);
    }
    var key := Trim(line[..colon]);
    var value := Trim(line[colon + 1..]);
    SettingApplied(c, line, key, value);
    r := SetKey(c, key, value);
  }

  lemma SettingApplied(c: ExperimentConfig, line: string, key: string, value: string)
    requires LineOf(line) == Setting(key, value)
    ensures ApplyLine(c, line) == ApplySetting(c, key, value)
  {
  }

  lemma IgnoredApplied(c: ExperimentConfig, line: string)
    requires LineOf(line).Ignored?
    ensures ApplyLine(c, line) == Ok(c)
  {
  }

  /** The if-chain on the trimmed key. */
  method SetKey(c: ExperimentConfig, key: string, value: string) returns (r: Result<ExperimentConfig, ConvError>)
    ensures r == ApplySetting(c, key, value)
  {
    r := Ok(c);
    if key == "lb_address" {
      r := Ok(c.(lbAddress := value));
    } else if key == "target_rps" {
      var v := StoULL(value);
      if v.Err? {
        return Err(v.error);
      }
      r := Ok(c.(targetRps := v.value));
    } else if key == "duration_sec" {
      var v := StoULL(value);
      if v.Err? {
        return Err(v.error);
      }
      r := Ok(c.(durationSec := Wrap32(v.value)));
    } else if key == "pareto_alpha" {
      var v := StoD(value);
      if v.Err? {
        return Err(v.error);
      }
      r := Ok(c.(paretoAlpha := v.value));
    }
  }

  lemma ApplyLinesCons(line: string, lines: seq<string>, c: ExperimentConfig)
    ensures ApplyLines([line] + lines, c) ==
      if ApplyLine(c, line).Ok? then ApplyLines(lines, ApplyLine(c, line).value) else ApplyLine(c, line)
  {
    assert ([line] + lines)[1..] == lines;
  }

  /** The key and the value are split at the first ':', so a value may
      itself contain ':' (an address with a port). */
  lemma SettingLine(key: string, value: string)
    requires |key| > 0 && key[0] != '#' && ':' !in key
    ensures LineOf(key + [':'] + value) == Setting(TrimBlanks(key), TrimBlanks(value))
  {
    var line := key + [':'] + value;
    FindCharAfter(key, ':', value);
    assert line[0] == key[0];
    assert line[..|key|] == key;
    assert line[|key| + 1..] == value;
  }

  /** A key the reader does not know leaves the configuration unchanged. */
  lemma UnknownKeyIgnored(c: ExperimentConfig, key: string, value: string)
    requires key != "lb_address" && key != "target_rps"
    requires key != "duration_sec" && key != "pareto_alpha"
    ensures ApplySetting(c, key, value) == Ok(c)
  {
  }

  /** Of two settings of the same key, the later one decides: applying the
      first and then the second is applying the second alone. */
  lemma LaterSettingOverrides(c: ExperimentConfig, key: string, v1: string, v2: string)
    requires ApplySetting(c, key, v1).Ok?
    ensures ApplySetting(ApplySetting(c, key, v1).value, key, v2) == ApplySetting(c, key, v2)
  {
  }

  /** The value of the last lb_address line, if any. */
  function LastAddress(lines: seq<string>): Option<string>
    decreases |lines|
  {
    if |lines| == 0 then None
    else match LineOf(lines[|lines| - 1])
      case Setting(k, v) =>
        if k == "lb_address" then Some(v) else LastAddress(lines[..|lines| - 1])
      case Ignored => LastAddress(lines[..|lines| - 1])
  }

  lemma {:induction false} ApplyLinesSnoc(lines: seq<string>, line: string, c: ExperimentConfig)
    ensures ApplyLines(lines + [line], c) ==
      if ApplyLines(lines, c).Ok? then ApplyLine(ApplyLines(lines, c).value, line) else ApplyLines(lines, c)
    decreases |lines|
  {
    if |lines| == 0 {
      assert lines + [line] == [line];
      ApplyLinesCons(line, [], c);
    } else {
      assert lines + [line] == [lines[0]] + (lines[1..] + [line]);
      ApplyLinesCons(lines[0], lines[1..] + [line], c);
      ApplyLinesCons(lines[0], lines[1..], c);
      match ApplyLine(c, lines[0]) {
        case Ok(after) => ApplyLinesSnoc(lines[1..], line, after);
        case Err(e) =>
      }
    }
  }

  /** Only an lb_address setting changes lb_address. */
  lemma SettingAddress(c: ExperimentConfig, key: string, value: string)
    ensures ApplySetting(c, key, value).Ok? ==>
      ApplySetting(c, key, value).value.lbAddress == if key == "lb_address" then value else c.lbAddress
  {
  }

  /** The lb_address after one line: the line's value when it sets
      lb_address, otherwise unchanged. */
  lemma LineAddress(c: ExperimentConfig, line: string)
    ensures ApplyLine(c, line).Ok? ==>
      ApplyLine(c, line).value.lbAddress ==
        if LineOf(line).Setting? && LineOf(line).key == "lb_address" then LineOf(line).value else c.lbAddress
  {
    var kind := LineOf(line);
    if kind.Setting? {
      SettingAddress(c, kind.key, kind.value);
    }
  }

  /** One line on top of a prefix whose address is known. */
  lemma AddressStep(prev: ExperimentConfig, line: string, after: Result<ExperimentConfig, ConvError>,
                    last: Option<string>, last2: Option<string>, start: string)
    requires prev.lbAddress == if last.Some? then last.value else start
    requires last2 == if LineOf(line).Setting? && LineOf(line).key == "lb_address" then Some(LineOf(line).value) else last
    requires after.Ok? ==>
      after.value.lbAddress ==
        if LineOf(line).Setting? && LineOf(line).key == "lb_address" then LineOf(line).value else prev.lbAddress
    ensures after.Ok? ==> after.value.lbAddress == if last2.Some? then last2.value else start
  {
  }

  /** The file's lb_address is the value on its last lb_address line, or
      the starting one when there is none. */
  lemma {:induction false} LastAddressWins(lines: seq<string>, c: ExperimentConfig)
    ensures ApplyLines(lines, c).Ok? ==>
      ApplyLines(lines, c).value.lbAddress ==
        if LastAddress(lines).Some? then LastAddress(lines).value else c.lbAddress
    decreases |lines|
  {
    if |lines| > 0 {
      var init := lines[..|lines| - 1];
      var line := lines[|lines| - 1];
      assert lines == init + [line];
      ApplyLinesSnoc(init, line, c);
      LastAddressWins(init, c);
      var before := ApplyLines(init, c);
      if before.Ok? {
        LineAddress(before.value, line);
        AddressStep(before.value, line, ApplyLines(lines, c), LastAddress(init), LastAddress(lines), c.lbAddress);
      }
    }
  }
}
