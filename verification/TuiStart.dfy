/**
 The terminal interface from its command line to the use of its data source.
 */
module TuiStart {

  datatype Options = Options(
    source: string, interface: string, config: string, pcap: string, port: string, publish: bool, start: bool)

  const DEFAULTS := Options("", "", "", "", "9872", false, false)

  datatype Parsed = Rejected | Accepted(options: Options)

  predicate ValidSource(source: string) {
    source == "ecat" || source == "sniffer" || source == "pcap"
  }

  predicate TakesValue(arg: string) {
    arg == "--src" || arg == "--iface" || arg == "--config" || arg == "--pcap" || arg == "--zmq_port"
  }

  /** The effect of an option that takes a value; an unknown source is rejected. */
  function WithValue(o: Options, arg: string, value: string): Parsed
    requires TakesValue(arg)
  {
    if arg == "--src" then (if ValidSource(value) then Accepted(o.(source := value)) else Rejected)
    else if arg == "--iface" then Accepted(o.(interface := value))
    else if arg == "--config" then Accepted(o.(config := value))
    else if arg == "--pcap" then Accepted(o.(pcap := value))
    else Accepted(o.(port := value))
  }

  /** The effect of an option without a value; anything else is rejected. */
  function Alone(o: Options, arg: string): Parsed {
    if arg == "--start" then Accepted(o.(start := true))
    else if arg == "--publish_zmq" then Accepted(o.(publish := true))
    else Rejected
  }

  /** The command line from argument i on, given what the arguments before it said. */
  function Parse(args: seq<string>, i: nat, o: Options): Parsed
    requires i <= |args|
    decreases |args| - i
  {
    if i == |args| then Accepted(o)
    else if TakesValue(args[i]) then
      if i + 1 == |args| then Rejected
      else
        var p := WithValue(o, args[i], args[i + 1]);
        if p.Rejected? then Rejected else Parse(args, i + 2, p.options)
    else
      var p := Alone(o, args[i]);
      if p.Rejected? then Rejected else Parse(args, i + 1, p.options)
  }

  /** The argument loop; `args` are the arguments after the program name. */
  method ParseArguments(args: seq<string>) returns (parsed: Parsed)
    ensures parsed == Parse(args, 0, DEFAULTS)
  {
    var o := DEFAULTS;
    var i := 0;
    while i < |args|
      invariant 0 <= i <= |args| && Parse(args, i, o) == Parse(args, 0, DEFAULTS)
    {
      var p;
      if TakesValue(args[i]) {
        if |args| <= i + 1 {
          return Rejected;
        }
        p := WithValue(o, args[i], args[i + 1]);
        i := i + 1;
      } else {
        p := Alone(o, args[i]);
      }
      if p.Rejected? {
        return Rejected;
      }
      o := p.options;
      i := i + 1;
    }
    return Accepted(o);
  }

  /** What main checks before it starts the interface. */
  predicate Complete(o: Options) {
    && ValidSource(o.source)
    && (o.source == "ecat" ==> o.interface != "")
    && (o.source == "sniffer" ==> o.interface != "" && o.config != "")
    && (o.source == "pcap" ==> o.config != "" && o.pcap != "")
  }

  /** A source that was accepted is one of the three or was never given. */
  lemma {:induction false} AcceptedSource(args: seq<string>, i: nat, o: Options)
    requires i <= |args| && (o.source == "" || ValidSource(o.source)) && Parse(args, i, o).Accepted?
    ensures var source := Parse(args, i, o).options.source; source == "" || ValidSource(source)
    decreases |args| - i
  {
    if i < |args| {
      if TakesValue(args[i]) {
        AcceptedSource(args, i + 2, WithValue(o, args[i], args[i + 1]).options);
      } else {
        AcceptedSource(args, i + 1, Alone(o, args[i]).options);
      }
    }
  }

  /** Parsing continues where an accepted prefix ends. */
  lemma {:induction false} ParseConcat(a: seq<string>, b: seq<string>, i: nat, o: Options)
    requires i <= |a| && Parse(a, i, o).Accepted?
    ensures Parse(a + b, i, o) == Parse(a + b, |a|, Parse(a, i, o).options)
    decreases |a| - i
  {
    if i < |a| {
      assert (a + b)[i] == a[i];
      if TakesValue(a[i]) {
        assert (a + b)[i + 1] == a[i + 1];
        ParseConcat(a, b, i + 2, WithValue(o, a[i], a[i + 1]).options);
      } else {
        ParseConcat(a, b, i + 1, Alone(o, a[i]).options);
      }
    }
  }

  /** Argument i or a later one is `arg` where an option is expected. */
  predicate OptionFrom(args: seq<string>, i: nat, arg: string)
    requires i <= |args|
    decreases |args| - i
  {
    && i < |args|
    && (args[i] == arg || (if TakesValue(args[i]) then i + 2 <= |args| && OptionFrom(args, i + 2, arg)
                           else OptionFrom(args, i + 1, arg)))
  }

  function ValueOf(o: Options, arg: string): string
    requires TakesValue(arg)
  {
    if arg == "--src" then o.source
    else if arg == "--iface" then o.interface
    else if arg == "--config" then o.config
    else if arg == "--pcap" then o.pcap
    else o.port
  }

  lemma {:induction false} OtherOptionsKeepValue(args: seq<string>, i: nat, o: Options, arg: string)
    requires i <= |args| && TakesValue(arg) && !OptionFrom(args, i, arg) && Parse(args, i, o).Accepted?
    ensures ValueOf(Parse(args, i, o).options, arg) == ValueOf(o, arg)
    decreases |args| - i
  {
    if i < |args| {
      if TakesValue(args[i]) {
        OtherOptionsKeepValue(args, i + 2, WithValue(o, args[i], args[i + 1]).options, arg);
      } else {
        OtherOptionsKeepValue(args, i + 1, Alone(o, args[i]).options, arg);
      }
    }
  }

  /** Appending an option decides that option and leaves the others. */
  lemma {:induction false} AppendedOption(args: seq<string>, arg: string, value: string)
    requires Parse(args, 0, DEFAULTS).Accepted? && TakesValue(arg)
    ensures Parse(args + [arg, value], 0, DEFAULTS) == WithValue(Parse(args, 0, DEFAULTS).options, arg, value)
  {
    var all := args + [arg, value];
    ParseConcat(args, [arg, value], 0, DEFAULTS);
    assert all[|args|] == arg && all[|args| + 1] == value && |args| + 2 == |all|;
  }

  /** The last occurrence of an option wins, wherever it stands. */
  lemma {:induction false} LastOccurrenceWins(args: seq<string>, arg: string, value: string, rest: seq<string>)
    requires Parse(args, 0, DEFAULTS).Accepted? && TakesValue(arg)
    requires !OptionFrom(args + [arg, value] + rest, |args| + 2, arg)
    requires Parse(args + [arg, value] + rest, 0, DEFAULTS).Accepted?
    ensures ValueOf(Parse(args + [arg, value] + rest, 0, DEFAULTS).options, arg) == value
  {
    var all, o := args + [arg, value] + rest, Parse(args, 0, DEFAULTS).options;
    assert all == args + ([arg, value] + rest);
    ParseConcat(args, [arg, value] + rest, 0, DEFAULTS);
    assert all[|args|] == arg && all[|args| + 1] == value;
    assert Parse(all, |args|, o).Accepted?;
    OtherOptionsKeepValue(all, |args| + 2, WithValue(o, arg, value).options, arg);
  }

  /** An unknown word where an option is expected is always rejected, such as the README's `--enable_zmq`. */
  lemma {:induction false} UnknownOptionRejected(args: seq<string>, arg: string, rest: seq<string>)
    requires Parse(args, 0, DEFAULTS).Accepted?
    requires !TakesValue(arg) && arg != "--start" && arg != "--publish_zmq"
    ensures Parse(args + [arg] + rest, 0, DEFAULTS) == Rejected
  {
    assert args + [arg] + rest == args + ([arg] + rest);
    ParseConcat(args, [arg] + rest, 0, DEFAULTS);
    assert (args + ([arg] + rest))[|args|] == arg;
  }

  lemma {:induction false} DocumentedOptionRejected(args: seq<string>, rest: seq<string>)
    requires Parse(args, 0, DEFAULTS).Accepted?
    ensures Parse(args + ["--enable_zmq"] + rest, 0, DEFAULTS) == Rejected
    ensures Parse(args + ["--publish_zmq"], 0, DEFAULTS)
         == Accepted(Parse(args, 0, DEFAULTS).options.(publish := true))
  {
    UnknownOptionRejected(args, "--enable_zmq", rest);
    ParseConcat(args, ["--publish_zmq"], 0, DEFAULTS);
    assert (args + ["--publish_zmq"])[|args|] == "--publish_zmq";
  }

  /** What each accepted word does, whatever was said before. */
  lemma {:induction false} AcceptedWords(o: Options, value: string)
    ensures Parse(["--src", "ecat"], 0, o) == Accepted(o.(source := "ecat"))
    ensures Parse(["--src", "sniffer"], 0, o) == Accepted(o.(source := "sniffer"))
    ensures Parse(["--src", "pcap"], 0, o) == Accepted(o.(source := "pcap"))
    ensures Parse(["--iface", value], 0, o) == Accepted(o.(interface := value))
    ensures Parse(["--config", value], 0, o) == Accepted(o.(config := value))
    ensures Parse(["--pcap", value], 0, o) == Accepted(o.(pcap := value))
    ensures Parse(["--zmq_port", value], 0, o) == Accepted(o.(port := value))
    ensures Parse(["--start"], 0, o) == Accepted(o.(start := true))
    ensures Parse(["--publish_zmq"], 0, o) == Accepted(o.(publish := true))
    ensures value != "ecat" && value != "sniffer" && value != "pcap" ==> Parse(["--src", value], 0, o) == Rejected
  {
    OptionPair("--src", "ecat", o);
    OptionPair("--src", "sniffer", o);
    OptionPair("--src", "pcap", o);
    OptionPair("--iface", value, o);
    OptionPair("--config", value, o);
    OptionPair("--pcap", value, o);
    OptionPair("--zmq_port", value, o);
    OptionPair("--src", value, o);
    assert Parse(["--start"], 1, o.(start := true)).Accepted?;
    assert Parse(["--publish_zmq"], 1, o.(publish := true)).Accepted?;
  }

  lemma {:induction false} OptionPair(arg: string, value: string, o: Options)
    requires TakesValue(arg)
    ensures Parse([arg, value], 0, o) == WithValue(o, arg, value)
  {
    var p := WithValue(o, arg, value);
    assert p.Accepted? ==> Parse([arg, value], 2, p.options) == p;
  }

  /** What holds of everything that is not said: no source, port 9872, nothing published or started. */
  lemma {:induction false} NothingSaid()
    ensures Parse([], 0, DEFAULTS) == Accepted(Options("", "", "", "", "9872", false, false))
  {
  }

  /** A word that takes a value is rejected at the end of the command line. */
  lemma {:induction false} MissingValueRejected(args: seq<string>, arg: string)
    requires Parse(args, 0, DEFAULTS).Accepted?
    requires arg == "--src" || arg == "--iface" || arg == "--config" || arg == "--pcap" || arg == "--zmq_port"
    ensures Parse(args + [arg], 0, DEFAULTS) == Rejected
  {
    ParseConcat(args, [arg], 0, DEFAULTS);
    assert (args + [arg])[|args|] == arg;
  }

  /** What main asks of each source. */
  lemma CompleteCommandLines(o: Options)
    ensures o.source == "ecat" ==> (Complete(o) <==> o.interface != "")
    ensures o.source == "sniffer" ==> (Complete(o) <==> o.interface != "" && o.config != "")
    ensures o.source == "pcap" ==> (Complete(o) <==> o.config != "" && o.pcap != "")
    ensures o.source == "" ==> !Complete(o)
  {
  }

  // The interface -----------------------------------------------------------------

  datatype Kind = NoSource | Master | Sniffer

  /** What reading the configuration file does: a file that is not JSON raises an exception. */
  datatype Loading = NoFile | NotJson | Loaded

  /** What binding the publisher's port, opening a capture and loading a configuration turn out to do. */
  datatype World = World(binds: bool, opens: bool, config: Loading)

  /** Whether `start` gets as far as the configuration file. */
  predicate ReachesConfig(o: Options, w: World) {
    && w.opens && o.config != ""
    && (o.source == "sniffer" || (o.source == "pcap" && o.pcap != ""))
  }

  /** The source and the error flag when `start` is about to use the source, unless an exception was raised before. */
  method CreateSource(o: Options, w: World) returns (source: Kind, error: bool, raised: bool)
    ensures raised <==> ReachesConfig(o, w) && w.config == NotJson
    ensures !raised ==> (ValidSource(o.source) <==> (error || source != NoSource))
    ensures !raised && !error && ValidSource(o.source) ==>
              source == if o.source == "ecat" then Master else Sniffer
    ensures !raised && ValidSource(o.source) ==>
              (error <==> o.source != "ecat" && !(ReachesConfig(o, w) && w.config == Loaded))
  {
    source, error, raised := NoSource, false, false;
    if o.source == "ecat" {
      source := Master;
    } else if o.source == "sniffer" {
      source := Sniffer;
      if !w.opens {
        error := true;
      } else if o.config != "" {
        if w.config == NotJson {
          raised := true;
        } else if w.config == NoFile {
          source, error := NoSource, true;
        }
      } else {
        source, error := NoSource, true;
      }
    } else if o.source == "pcap" {
      if o.config == "" {
        error := true;
      } else if o.pcap == "" {
        error := true;
      } else {
        source := Sniffer;
        if !w.opens {
          source, error := NoSource, true;
        } else if w.config == NotJson {
          raised := true;
        } else if w.config == NoFile {
          source, error := NoSource, true;
        }
      }
    }
  }

  /** `Aborted`: an exception that nobody catches. */
  datatype Ending = Usage | Aborted | Failed | Used(source: Kind)

  ghost predicate ReadsConfig(o: Options, w: World) {
    Complete(o) && o.source != "ecat" && w.opens
  }

  /**
   The program: the source is used only when it exists, for every argument vector.
   The publisher binds its port before the arguments are checked for completeness.
   */
  method Run(args: seq<string>, w: World) returns (ending: Ending)
    ensures var p := Parse(args, 0, DEFAULTS);
            && (ending == Usage <==> p.Rejected? || (w.binds && !Complete(p.options)))
            && (ending == Aborted <==> p.Accepted? && (!w.binds || (ReadsConfig(p.options, w) && w.config == NotJson)))
            && (ending == Failed <==>
                  && p.Accepted? && w.binds && Complete(p.options) && p.options.source != "ecat"
                  && !(w.opens && w.config != NoFile))
            && (ending.Used? ==> ending.source == if p.options.source == "ecat" then Master else Sniffer)
  {
    var p := ParseArguments(args);
    if p.Rejected? {
      return Usage;
    }
    AcceptedSource(args, 0, DEFAULTS);
    var o := p.options;
    if !w.binds {
      return Aborted;
    }
    if o.source == "" {
      return Usage;
    }
    if o.source == "ecat" {
      if o.interface == "" {
        return Usage;
      }
    } else if o.source == "sniffer" {
      if o.interface == "" || o.config == "" {
        return Usage;
      }
    } else if o.source == "pcap" {
      if o.config == "" || o.pcap == "" {
        return Usage;
      }
    }
    var source, error, raised := CreateSource(o, w);
    if raised {
      return Aborted;
    }
    if error {
      return Failed;
    }
    return Used(source);
  }

  /**
   A command line without a source is accepted and incomplete, so that with a port
   that cannot be bound it ends in an exception instead of the usage text.
   */
  lemma PortComesBeforeUsage(port: string)
    ensures var p := Parse(["--zmq_port", port], 0, DEFAULTS);
            p.Accepted? && p.options.port == port && !Complete(p.options)
  {
    AppendedOption([], "--zmq_port", port);
    assert [] + ["--zmq_port", port] == ["--zmq_port", port];
  }
}
