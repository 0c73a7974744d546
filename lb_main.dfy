/** Command-line handling of the load balancer's main program
    (src/load_balancer/main.cpp): the comma-separated worker list, the
    names --algorithm accepts, and the getopt loop that ends either in a
    configuration to run with or in the status main returns. */
module LbMain {
  import opened Text
  import opened Types
  import opened Wrappers
  import opened Numerals
  import Config

  // ---------------------------------------------------------------------
  // parse_worker_list
  // ---------------------------------------------------------------------

  /** An address as parse_worker_list emits it: nonempty, without ',' and
      with no space or tab at either end. */
  predicate CleanAddress(a: string) {
    |a| > 0 && ',' !in a && !IsBlank(a[0]) && !IsBlank(a[|a| - 1])
  }

  /** What one getline token contributes to the list: nothing when
      find_first_not_of(" \t") finds no position (the token is empty or all
      blanks), otherwise the token with its blanks trimmed. */
  function Kept(token: string): (r: seq<string>)
    ensures |r| <= 1
    ensures r == [] <==> AllBlank(token)
  {
    if FirstNotBlank(token) == |token| then [] else [TrimBlanks(token)]
  }

  /** The contributions of a run of tokens, in order. */
  function KeptAll(tokens: seq<string>): seq<string>
  {
    if |tokens| == 0 then [] else Kept(tokens[0]) + KeptAll(tokens[1..])
  }

  /** The vector parse_worker_list returns for `list`. */
  function WorkerList(list: string): seq<string>
  {
    KeptAll(GetlineSplit(list, ','))
  }

  /** parse_worker_list: read tokens up to each ',' the way std::getline
      does and push every token that is not all blanks, trimmed. */
  method ParseWorkerList(list: string) returns (workers: seq<string>)
    ensures workers == WorkerList(list)
  {
    workers := [];
    var rest := list;  // what the stringstream has not consumed yet
    while |rest| > 0
      invariant workers + WorkerList(rest) == WorkerList(list)
      decreases |rest|
    {
      var k := FindChar(rest, ',');
      var addr := rest[..k];
      var next := if k == |rest| then [] else rest[k + 1..];
      var start := FirstNotBlank(addr);
      var end := LastNotBlank(addr);
      ghost var before := workers;
      if start != |addr| {
        workers := workers + [addr[start..end + 1]];
      }
      KeptSlice(addr, start, end);
      assert workers == before + Kept(addr);
      WorkerListHead(rest, k, next);
      AppendAssoc(before, Kept(addr), WorkerList(next));
      assert workers + WorkerList(next) == before + WorkerList(rest);
      rest := next;
    }
  }

  /** The token parse_worker_list pushes is the one Kept keeps. */
  lemma KeptSlice(token: string, start: nat, end: int)
    requires start == FirstNotBlank(token) && end == LastNotBlank(token)
    ensures start < |token| ==> 0 <= start <= end < |token| && Kept(token) == [token[start..end + 1]]
    ensures start == |token| ==> Kept(token) == []
  {
    TrimBlanksSlice(token, start, end);
  }

  /** One getline step: the list of a nonempty input is what its first
      token keeps, then the list of what follows the first ','. */
  lemma WorkerListHead(s: string, k: nat, next: string)
    requires |s| > 0 && k == FindChar(s, ',')
    requires next == if k == |s| then [] else s[k + 1..]
    ensures WorkerList(s) == Kept(s[..k]) + WorkerList(next)
  {
    GetlineHead(s, ',', k, next);
    KeptAllCons(s[..k], GetlineSplit(next, ','));
  }

  lemma KeptAllCons(token: string, tokens: seq<string>)
    ensures KeptAll([token] + tokens) == Kept(token) + KeptAll(tokens)
  {
    assert ([token] + tokens)[1..] == tokens;
  }

  /** A token followed by ',' contributes exactly what Kept says, ahead of
      everything after the ',': order is kept and blanks-only tokens drop out. */
  lemma WorkerListStep(token: string, rest: string)
    requires ',' !in token
    ensures WorkerList(token + [','] + rest) == Kept(token) + WorkerList(rest)
  {
    var s := token + [','] + rest;
    FindCharAfter(token, ',', rest);
    assert s[..|token|] == token;
    assert s[|token| + 1..] == rest;
    WorkerListHead(s, |token|, rest);
  }

  /** The last token, with no ',' after it. */
  lemma WorkerListLast(token: string)
    requires ',' !in token
    ensures WorkerList(token) == Kept(token)
  {
    if |token| > 0 {
      WorkerListHead(token, |token|, []);
      assert token[..|token|] == token;
    }
  }

  /** Every entry of a parsed list is a clean address. */
  lemma WorkerListClean(list: string)
    ensures forall i :: 0 <= i < |WorkerList(list)| ==> CleanAddress(WorkerList(list)[i])
  {
    GetlineSplitNoSep(list, ',');
    KeptAllClean(GetlineSplit(list, ','));
  }

  lemma {:induction false} KeptAllClean(tokens: seq<string>)
    requires forall i :: 0 <= i < |tokens| ==> ',' !in tokens[i]
    ensures forall i :: 0 <= i < |KeptAll(tokens)| ==> CleanAddress(KeptAll(tokens)[i])
  {
    if |tokens| > 0 {
      KeptAllClean(tokens[1..]);
      KeptClean(tokens[0]);
      var head, tail := Kept(tokens[0]), KeptAll(tokens[1..]);
      assert KeptAll(tokens) == head + tail;
      assert forall i :: 0 <= i < |head + tail| ==>
        (head + tail)[i] == if i < |head| then head[i] else tail[i - |head|];
    }
  }

  /** What a token without ',' keeps is a clean address. */
  lemma KeptClean(token: string)
    requires ',' !in token
    ensures forall i :: 0 <= i < |Kept(token)| ==> CleanAddress(Kept(token)[i])
  {
    var start, end := FirstNotBlank(token), LastNotBlank(token);
    KeptSlice(token, start, end);
    if start < |token| {
      SliceLacks(token, ',', start, end + 1);
      var a := token[start..end + 1];
      assert a[0] == token[start] && a[|a| - 1] == token[end];
    }
  }

  /** Addresses joined with ',' (the way a user writes --workers). */
  function JoinCommas(addresses: seq<string>): string
  {
    if |addresses| == 0 then ""
    else if |addresses| == 1 then addresses[0]
    else addresses[0] + [','] + JoinCommas(addresses[1..])
  }

  /** Clean addresses written with ',' between them parse back to the same
      list. */
  lemma {:induction false} WorkerListJoin(addresses: seq<string>)
    requires forall i :: 0 <= i < |addresses| ==> CleanAddress(addresses[i])
    ensures WorkerList(JoinCommas(addresses)) == addresses
  {
    if |addresses| == 1 {
      var a := addresses[0];
      assert WorkerList(a) == [a] by {
        WorkerListLast(a);
        TrimClean(a);
      }
      assert [a] == addresses;
    } else if |addresses| > 1 {
      var a, rest := addresses[0], addresses[1..];
      assert CleanAddress(a);
      assert WorkerList(JoinCommas(addresses)) == [a] + WorkerList(JoinCommas(rest)) by {
        WorkerListStep(a, JoinCommas(rest));
        TrimClean(a);
      }
      WorkerListJoin(rest);
      assert [a] + rest == addresses;
    }
  }

  /** Trimming leaves a clean address as it is. */
  lemma TrimClean(a: string)
    requires CleanAddress(a)
    ensures Kept(a) == [a]
  {
    assert !AllBlank(a) by { assert !IsBlank(a[0]); }
    assert FirstNotBlank(a) == 0;
    assert LastNotBlank(a) == |a| - 1;
    assert a[0..|a|] == a;
  }

  // ---------------------------------------------------------------------
  // The options loop of main
  // ---------------------------------------------------------------------

  /** uint16_t. */
  type Port = p: int | 0 <= p < TWO_16

  /** One option as getopt_long reports it, with its argument text. */
  datatype LbOption =
    | PortOption(arg: string)
    | WorkersOption(list: string)
    | AlgorithmOption(name: string)
    | ModelOption(path: string)
    | ThreadsOption(arg: string)
    | OutputOption(dir: string)
    | HelpOption
    | UnrecognisedOption  // '?': an unknown option or a missing argument

  /** The LBConfig fields main fills in from the command line. */
  datatype CliConfig = CliConfig(
    port: Port,
    workerAddresses: seq<string>,
    algorithm: SchedulerType,
    modelPath: string,
    rpcThreads: nat,
    metricsOutputDir: string)

  /** LBConfig's defaults, as main starts from them. */
  const DEFAULT_CLI_CONFIG: CliConfig := CliConfig(DEFAULT_PORT, [], PowerOf2, "", 8, "")

  /** How main's option handling ends: with a configuration to run, with
      the status main returns, or with a std::sto* exception nobody catches. */
  datatype Outcome = Run(config: CliConfig) | Exit(status: int) | Thrown(error: ConvError)

  /** The options that make main return inside the switch. */
  predicate Stops(o: LbOption) {
    o.HelpOption? || o.UnrecognisedOption? || (o.AlgorithmOption? && Config.AlgorithmOf(o.name).None?)
  }

  /** The status main returns for such an option: 0 for --help, 1 otherwise. */
  function StopStatus(o: LbOption): int {
    if o.HelpOption? then 0 else 1
  }

  /** The assignment the switch makes for an option that does not stop main
      (an option that does leaves the configuration as it is). --port keeps
      the low 16 bits of what std::stoi returned. */
  function Settle(c: CliConfig, o: LbOption): Result<CliConfig, ConvError>
  {
    match o
    case PortOption(arg) =>
      (match StoI(arg) case Ok(v) => Ok(c.(port := v % TWO_16)) case Err(e) => Err(e))
    case WorkersOption(l) => Ok(c.(workerAddresses := WorkerList(l)))
    case AlgorithmOption(n) =>
      Ok(match Config.AlgorithmOf(n) case Some(t) => c.(algorithm := t) case None => c)
    case ModelOption(p) => Ok(c.(modelPath := p))
    case ThreadsOption(arg) =>
      (match StoULL(arg) case Ok(v) => Ok(c.(rpcThreads := v)) case Err(e) => Err(e))
    case OutputOption(d) => Ok(c.(metricsOutputDir := d))
    case HelpOption => Ok(c)
    case UnrecognisedOption => Ok(c)
  }

  /** After the loop: an empty worker list is an error. */
  function Finish(c: CliConfig): Outcome {
    if |c.workerAddresses| == 0 then Exit(1) else Run(c)
  }

  /** The options loop from configuration `c`. */
  function ParseOptions(opts: seq<LbOption>, c: CliConfig): Outcome
    decreases |opts|
  {
    if |opts| == 0 then Finish(c)
    else if Stops(opts[0]) then Exit(StopStatus(opts[0]))
    else match Settle(c, opts[0])
      case Ok(after) => ParseOptions(opts[1..], after)
      case Err(e) => Thrown(e)
  }

  /** What main makes of its options, before it forms the listen URI. */
  function CommandLine(opts: seq<LbOption>): Outcome {
    ParseOptions(opts, DEFAULT_CLI_CONFIG)
  }

  /** main's getopt_long loop and the empty-worker-list check after it. */
  method ParseCommandLine(opts: seq<LbOption>) returns (out: Outcome)
    ensures out == CommandLine(opts)
  {
    var config := DEFAULT_CLI_CONFIG;
    var i := 0;
    while i < |opts|
      invariant 0 <= i <= |opts|
      invariant ParseOptions(opts[i..], config) == CommandLine(opts)
    {
      assert opts[i..][1..] == opts[i + 1..];
      match opts[i] {
        case PortOption(arg) =>
          var v := StoI(arg);
          if v.Err? {
            return Thrown(v.error);
          }
          config := config.(port := v.value % TWO_16);
        case WorkersOption(l) =>
          var workers := ParseWorkerList(l);
          config := config.(workerAddresses := workers);
        case AlgorithmOption(n) =>
          if n == "po2" {
            config := config.(algorithm := PowerOf2);
          } else if n == "malcolm" {
            config := config.(algorithm := Malcolm);
          } else if n == "malcolm_strict" {
            config := config.(algorithm := MalcolmStrict);
          } else {
            return Exit(1);
          }
        case ModelOption(p) =>
          config := config.(modelPath := p);
        case ThreadsOption(arg) =>
          var v := StoULL(arg);
          if v.Err? {
            return Thrown(v.error);
          }
          config := config.(rpcThreads := v.value);
        case OutputOption(d) =>
          config := config.(metricsOutputDir := d);
        case HelpOption =>
          return Exit(0);
        case UnrecognisedOption =>
          return Exit(1);
      }
      i := i + 1;
    }
    if |config.workerAddresses| == 0 {
      return Exit(1);
    }
    return Run(config);
  }

  predicate CleanWorkers(c: CliConfig) {
    forall i :: 0 <= i < |c.workerAddresses| ==> CleanAddress(c.workerAddresses[i])
  }

  /** A run always has at least one worker, and every worker address is
      clean. */
  lemma RunHasWorkers(opts: seq<LbOption>)
    ensures CommandLine(opts).Run? ==>
      |CommandLine(opts).config.workerAddresses| > 0 && CleanWorkers(CommandLine(opts).config)
  {
    ParseOptionsClean(opts, DEFAULT_CLI_CONFIG);
  }

  lemma {:induction false} ParseOptionsClean(opts: seq<LbOption>, c: CliConfig)
    requires CleanWorkers(c)
    ensures ParseOptions(opts, c).Run? ==>
      |ParseOptions(opts, c).config.workerAddresses| > 0 && CleanWorkers(ParseOptions(opts, c).config)
    decreases |opts|
  {
    if |opts| > 0 && !Stops(opts[0]) && Settle(c, opts[0]).Ok? {
      if opts[0].WorkersOption? {
        WorkerListClean(opts[0].list);
      }
      ParseOptionsClean(opts[1..], Settle(c, opts[0]).value);
    }
  }

  /** The first option that stops main decides its status, whatever
      follows, provided no earlier conversion threw: 0 for --help, 1 for an
      unknown algorithm or option. */
  lemma {:induction false} FirstStopDecides(
    prefix: seq<LbOption>, o: LbOption, rest: seq<LbOption>, c: CliConfig)
    requires forall i :: 0 <= i < |prefix| ==> !Stops(prefix[i])
    requires Applied(prefix, c).Ok?
    requires Stops(o)
    ensures ParseOptions(prefix + [o] + rest, c) == Exit(StopStatus(o))
    decreases |prefix|
  {
    var opts := prefix + [o] + rest;
    if |prefix| == 0 {
      assert opts[0] == o;
    } else {
      var step := Settle(c, prefix[0]);
      assert step.Ok? && Applied(prefix[1..], step.value).Ok?;
      TailAround(prefix, o, rest);
      FirstStopDecides(prefix[1..], o, rest, step.value);
    }
  }

  /** The configuration after every option has been applied in turn, or
      the first conversion error. */
  function Applied(opts: seq<LbOption>, c: CliConfig): Result<CliConfig, ConvError>
    decreases |opts|
  {
    if |opts| == 0 then Ok(c)
    else match Settle(c, opts[0])
      case Ok(after) => Applied(opts[1..], after)
      case Err(e) => Err(e)
  }

  /** When no option stops main, the outcome is decided after the loop. */
  lemma {:induction false} NoStopOutcome(opts: seq<LbOption>, c: CliConfig)
    requires forall i :: 0 <= i < |opts| ==> !Stops(opts[i])
    ensures ParseOptions(opts, c) ==
      if Applied(opts, c).Ok? then Finish(Applied(opts, c).value) else Thrown(Applied(opts, c).error)
    decreases |opts|
  {
    if |opts| > 0 {
      assert !Stops(opts[0]);
      if Settle(c, opts[0]).Ok? {
        NoStopOutcome(opts[1..], Settle(c, opts[0]).value);
      }
    }
  }

  lemma {:induction false} AppliedSnoc(opts: seq<LbOption>, o: LbOption, c: CliConfig)
    ensures Applied(opts + [o], c) ==
      if Applied(opts, c).Ok? then Settle(Applied(opts, c).value, o) else Applied(opts, c)
    decreases |opts|
  {
    if |opts| == 0 {
      assert (opts + [o])[1..] == [];
    } else {
      assert (opts + [o])[0] == opts[0];
      assert (opts + [o])[1..] == opts[1..] + [o];
      if Settle(c, opts[0]).Ok? {
        AppliedSnoc(opts[1..], o, Settle(c, opts[0]).value);
      }
    }
  }

  /** The list of the last --workers option, if any. */
  function LastWorkersOption(opts: seq<LbOption>): Option<string>
    decreases |opts|
  {
    if |opts| == 0 then None
    else if opts[|opts| - 1].WorkersOption? then Some(opts[|opts| - 1].list)
    else LastWorkersOption(opts[..|opts| - 1])
  }

  /** Only --workers touches the worker list, and it replaces it. */
  lemma SettleWorkers(c: CliConfig, o: LbOption)
    ensures Settle(c, o).Ok? ==>
      Settle(c, o).value.workerAddresses ==
        if o.WorkersOption? then WorkerList(o.list) else c.workerAddresses
  {
  }

  /** --workers replaces the list instead of adding to it: the workers after
      the loop are those of the last --workers option, or the starting ones
      when there is none. */
  lemma {:induction false} LastWorkersWin(opts: seq<LbOption>, c: CliConfig)
    ensures Applied(opts, c).Ok? ==>
      Applied(opts, c).value.workerAddresses ==
        if LastWorkersOption(opts).Some? then WorkerList(LastWorkersOption(opts).value)
        else c.workerAddresses
    decreases |opts|
  {
    if |opts| > 0 {
      var init := opts[..|opts| - 1];
      var o := opts[|opts| - 1];
      assert opts == init + [o];
      AppliedSnoc(init, o, c);
      LastWorkersWin(init, c);
      if Applied(init, c).Ok? {
        SettleWorkers(Applied(init, c).value, o);
      }
    }
  }

  /** Hence, with no stopping option and no conversion error, main runs
      exactly when the last --workers option names at least one worker, and
      runs with that list. */
  lemma NoStopRunsWithLastWorkers(opts: seq<LbOption>)
    requires forall i :: 0 <= i < |opts| ==> !Stops(opts[i])
    requires Applied(opts, DEFAULT_CLI_CONFIG).Ok?
    ensures CommandLine(opts).Run? <==>
      LastWorkersOption(opts).Some? && |WorkerList(LastWorkersOption(opts).value)| > 0
    ensures CommandLine(opts).Run? ==>
      CommandLine(opts).config.workerAddresses == WorkerList(LastWorkersOption(opts).value)
  {
    NoStopOutcome(opts, DEFAULT_CLI_CONFIG);
    LastWorkersWin(opts, DEFAULT_CLI_CONFIG);
  }
}
