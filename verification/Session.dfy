/**
 Sessions: how a data source starts and stops its threads, and how the buttons of
 the graphical interface drive it.
 */
module Session {

  const RETRIES := 200

  datatype SourceKind = Master | PacketSniffer

  /** What the bus answers during a start; `operational(k)` is the outcome of the k-th state check in the retry loop. */
  datatype BusAnswers = BusAnswers(socket: bool, slavesFound: bool, operational: nat -> bool)

  /** The index of the last pass of the retry loop, from pass k on. */
  function LastPass(operational: nat -> bool, k: nat): (last: nat)
    requires k <= RETRIES
    ensures k <= last <= RETRIES
    ensures last < RETRIES ==> operational(last)
    ensures forall i :: k <= i < last ==> !operational(i)
    decreases RETRIES - k
  {
    if k == RETRIES || operational(k) then k else LastPass(operational, k + 1)
  }

  class DataSource {
    const kind: SourceKind
    var discovered: bool      // getSlaves succeeded
    var running: bool         // the master's flag
    var ethercatThread: bool  // thread handles: joinable or not
    var dataCopyThread: bool
    var snifferThread: bool
    var exchanges: nat        // process data exchanges so far

    ghost predicate Valid()
      reads this
    {
      && (kind == Master ==> ethercatThread == dataCopyThread == running && !snifferThread)
      && (kind == PacketSniffer ==> !running && !ethercatThread && !dataCopyThread)
    }

    predicate AnyJoinable()
      reads this
    {
      ethercatThread || dataCopyThread || snifferThread
    }

    constructor (kind: SourceKind)
      ensures Valid() && !AnyJoinable() && !discovered && this.kind == kind && exchanges == 0
    {
      this.kind := kind;
      discovered, running := false, false;
      ethercatThread, dataCopyThread, snifferThread := false, false, false;
      exchanges := 0;
    }

    method GetSlaves(succeeds: bool)
      requires Valid()
      modifies this`discovered
      ensures discovered == succeeds
    {
      discovered := succeeds;
    }

    /** Assigning to a joinable `std::thread` would terminate the program, hence the precondition. */
    method Start(bus: BusAnswers) returns (error: string)
      requires Valid() && !AnyJoinable()
      modifies this`running, this`ethercatThread, this`dataCopyThread, this`snifferThread, this`exchanges
      ensures Valid()
      ensures kind == PacketSniffer ==> error == "" && snifferThread && exchanges == old(exchanges)
      ensures kind == Master ==> (error == "" <==> bus.socket && bus.slavesFound)
      ensures kind == Master && error != "" ==> !AnyJoinable() && exchanges == old(exchanges)
      ensures kind == Master && error == "" ==>
                && (AnyJoinable() <==> bus.operational(LastPass(bus.operational, 0)))
                && exchanges == old(exchanges) + 2 + LastPass(bus.operational, 0)
    {
      error := "";
      if kind == PacketSniffer {
        snifferThread := true;
        return;
      }
      if !bus.socket {
        return "No socket connection. (try running with sudo)";
      }
      if !bus.slavesFound {
        return "No slaves found";
      }
      exchanges := exchanges + 1;
      var operational := ReachOperational(bus.operational);
      if operational {
        running := true;
        ethercatThread := true;
        dataCopyThread := true;
      }
    }

    /** The retry loop: exchange, then check the state; give up after 201 passes. */
    method ReachOperational(operational: nat -> bool) returns (reached: bool)
      modifies this`exchanges
      ensures exchanges == old(exchanges) + LastPass(operational, 0) + 1
      ensures reached == operational(LastPass(operational, 0))
    {
      var retries: nat, pass: nat, again := RETRIES, 0, true;
      reached := false;
      while again
        invariant exchanges == old(exchanges) + pass
        invariant again ==> pass <= RETRIES && retries == RETRIES - pass
                            && LastPass(operational, 0) == LastPass(operational, pass)
        invariant !again ==> pass == LastPass(operational, 0) + 1 && reached == operational(LastPass(operational, 0))
        decreases again, retries
      {
        exchanges := exchanges + 1;
        reached := operational(pass);
        again := retries != 0 && !reached;
        retries := if retries == 0 then 0xFFFF_FFFF else retries - 1;
        pass := pass + 1;
      }
    }

    method Stop()
      requires Valid()
      modifies this`running, this`ethercatThread, this`dataCopyThread, this`snifferThread
      ensures Valid() && !AnyJoinable()
    {
      if kind == Master {
        if running {
          running := false;
          if ethercatThread { ethercatThread := false; }
          if dataCopyThread { dataCopyThread := false; }
        }
      } else {
        if snifferThread { snifferThread := false; }
      }
    }

    /**
     The destructor: a thread handle that is still joinable afterwards would terminate
     the program.  The sniffer's destructor joins its thread without stopping the
     capture, so it only returns if the capture ends by itself, as that of a file does.
     */
    method Destroy(captureEnds: bool) returns (returned: bool)
      requires Valid()
      modifies this`running, this`ethercatThread, this`dataCopyThread, this`snifferThread
      ensures Valid()
      ensures returned <==> kind == Master || !old(snifferThread) || captureEnds
      ensures returned ==> !AnyJoinable()
      ensures !returned ==> snifferThread
    {
      returned := true;
      if kind == Master {
        if running {
          running := false;
          if ethercatThread { ethercatThread := false; }
          if dataCopyThread { dataCopyThread := false; }
        }
      } else if snifferThread {
        returned := captureEnds;
        snifferThread := !captureEnds;
      }
    }
  }

  /** At most 201 passes, and the loop ends with the first operational answer. */
  lemma StartIsBounded(operational: nat -> bool)
    ensures LastPass(operational, 0) + 1 <= 201
    ensures operational(LastPass(operational, 0)) <==> exists k :: 0 <= k <= 200 && operational(k)
    ensures (forall k :: 0 <= k < 200 ==> !operational(k)) ==> LastPass(operational, 0) == 200
  {
  }

  // The graphical interface -------------------------------------------------------

  datatype Choice = EthercatMaster | Sniffer | File | NoChoice

  /** Everything a click on Discover depends on besides the controller's own state. */
  datatype Form = Form(
    choice: Choice, interfaceSelected: bool, configChosen: bool, pcapChosen: bool,
    opens: bool, configLoads: bool, slavesFound: bool)

  /** A source can be created: everything it needs was chosen and works. */
  predicate Creates(form: Form) {
    match form.choice
    case EthercatMaster => form.interfaceSelected
    case Sniffer => form.interfaceSelected && form.opens && form.configChosen && form.configLoads
    case File => form.configChosen && form.pcapChosen && form.opens && form.configLoads
    case NoChoice => false
  }

  function KindFor(choice: Choice): SourceKind {
    if choice == EthercatMaster then Master else PacketSniffer
  }

  datatype Label = StartLabel | StopLabel

  datatype Click = Discover(form: Form) | StartStop(bus: BusAnswers)

  /** The controller as a user sees it: no source, a source that can be started, or one that was started. */
  datatype View =
    | Empty
    | Ready(kind: SourceKind, exchanges: nat)
    | Started(kind: SourceKind, threads: bool, exchanges: nat)

  function AfterDiscover(v: View, form: Form): View {
    if v.Started? then v
    else if Creates(form) && form.slavesFound then Ready(KindFor(form.choice), 0)
    else Empty
  }

  /** A bus that does not become operational leaves a started source without threads. */
  function AfterStartStop(v: View, bus: BusAnswers): View {
    match v
    case Empty => Empty
    case Ready(PacketSniffer, exchanges) => Started(PacketSniffer, true, exchanges)
    case Ready(Master, exchanges) =>
      if bus.socket && bus.slavesFound
      then var last := LastPass(bus.operational, 0); Started(Master, bus.operational(last), exchanges + 2 + last)
      else v
    case Started(kind, _, exchanges) => Ready(kind, exchanges)
  }

  function AfterClick(v: View, click: Click): View {
    match click
    case Discover(form) => AfterDiscover(v, form)
    case StartStop(bus) => AfterStartStop(v, bus)
  }

  function AfterClicks(v: View, clicks: seq<Click>): View {
    if clicks == [] then v else AfterClick(AfterClicks(v, clicks[..|clicks| - 1]), clicks[|clicks| - 1])
  }

  /** What the source's threads do while the window is being destroyed: call back, and come to an end. */
  datatype Later = Later(calls: bool, ends: bool)

  /** `PureCall`: a callback into a window whose own part is already destroyed, which ends the program. */
  datatype Closing = Closed | Waits | PureCall

  class Gui {
    var source: DataSource?
    var startEnabled: bool
    var discoverEnabled: bool
    var startLabel: Label

    ghost predicate Valid()
      reads this, source
    {
      && (source != null ==> source.Valid() && source.discovered)
      && (startEnabled <==> source != null)
      && (startLabel == StartLabel ==> discoverEnabled && (source != null ==> !source.AnyJoinable()))
      && (startLabel == StopLabel ==>
            !discoverEnabled && source != null && (source.kind == PacketSniffer ==> source.snifferThread))
    }

    ghost function CurrentView(): View
      reads this, source
    {
      if source == null then Empty
      else if startLabel == StartLabel then Ready(source.kind, source.exchanges)
      else Started(source.kind, source.AnyJoinable(), source.exchanges)
    }

    constructor ()
      ensures Valid() && CurrentView() == Empty
    {
      source, startEnabled, discoverEnabled, startLabel := null, false, true, StartLabel;
    }

    /** `ecat_data_source.reset()`: the old source, if any, is destroyed; without threads that always returns. */
    method Reset()
      requires source != null ==> source.Valid() && !source.AnyJoinable()
      modifies this`source, source
      ensures source == null
    {
      if source != null {
        var returned := source.Destroy(false);
        assert returned;
        source := null;
      }
    }

    /** Creates the chosen source; every failure leaves none. */
    method CreateSource(form: Form)
      requires source == null
      modifies this`source
      ensures source != null <==> Creates(form)
      ensures source != null ==>
                && fresh(source) && source.Valid() && !source.AnyJoinable() && source.exchanges == 0
                && source.kind == KindFor(form.choice)
    {
      if form.choice == EthercatMaster {
        if !form.interfaceSelected {
          return;
        }
        source := new DataSource(Master);
      } else if form.choice == Sniffer {
        if !form.interfaceSelected {
          return;
        }
        source := new DataSource(PacketSniffer);
        if !form.opens {
          Reset();
          return;
        }
        if !form.configChosen {
          Reset();
          return;
        }
        if !form.configLoads {
          Reset();
          return;
        }
      } else if form.choice == File {
        if !form.configChosen || !form.pcapChosen {
          return;
        }
        source := new DataSource(PacketSniffer);
        if !form.opens {
          Reset();
          return;
        }
        if !form.configLoads {
          Reset();
          return;
        }
      }
    }

    /** The button is disabled while a source is started. */
    method HandleDiscover(form: Form)
      requires Valid() && discoverEnabled
      modifies this, source
      ensures Valid() && CurrentView() == AfterDiscover(old(CurrentView()), form)
      ensures source != null ==> fresh(source)
    {
      startEnabled := false;
      Reset();
      CreateSource(form);
      if source == null {
        return;
      }
      source.GetSlaves(form.slavesFound);
      if !form.slavesFound {
        Reset();
        return;
      }
      startEnabled := true;
    }

    method HandleStart(bus: BusAnswers)
      requires Valid() && startEnabled
      modifies this, source
      ensures Valid() && source == old(source) && CurrentView() == AfterStartStop(old(CurrentView()), bus)
    {
      if startLabel == StartLabel {
        var error := source.Start(bus);
        if error == "" {
          discoverEnabled := false;
          startLabel := StopLabel;
        }
      } else {
        source.Stop();
        discoverEnabled := true;
        startLabel := StartLabel;
      }
    }

    /** A disabled button delivers no click. */
    method HandleClick(click: Click)
      requires Valid()
      modifies this, source
      ensures Valid() && CurrentView() == AfterClick(old(CurrentView()), click)
      ensures source == old(source) || source == null || fresh(source)
    {
      match click {
        case Discover(form) =>
          if discoverEnabled {
            HandleDiscover(form);
          }
        case StartStop(bus) =>
          if startEnabled {
            HandleStart(bus);
          }
      }
    }

    /** Any sequence of clicks. */
    method Run(clicks: seq<Click>)
      requires Valid()
      modifies this, source
      ensures Valid() && CurrentView() == AfterClicks(old(CurrentView()), clicks)
    {
      var i := 0;
      ghost var first := CurrentView();
      while i < |clicks|
        invariant 0 <= i <= |clicks| && Valid() && CurrentView() == AfterClicks(first, clicks[..i])
        invariant source == old(source) || source == null || fresh(source)
      {
        HandleClick(clicks[i]);
        assert clicks[..i + 1][..i] == clicks[..i];
        i := i + 1;
      }
      assert clicks[..i] == clicks;
    }

    /**
     Closing the window destroys the source in the destructor of the base class, where
     the callback that the threads use is pure virtual.  The master's destructor ends
     its threads, the sniffer's only waits for the capture.
     */
    method Close(later: Later) returns (closing: Closing)
      requires Valid()
      modifies this`source, source
      ensures var threads := old(source) != null && old(source.AnyJoinable());
              && (closing == PureCall <==> threads && later.calls)
              && (closing == Waits <==> threads && !later.calls && old(source).kind == PacketSniffer && !later.ends)
      ensures closing == Closed ==> source == null && (old(source) != null ==> !old(source).AnyJoinable())
    {
      closing := Closed;
      if source != null {
        if source.AnyJoinable() && later.calls {
          return PureCall;
        }
        var returned := source.Destroy(later.ends);
        if !returned {
          return Waits;
        }
        source := null;
      }
    }
  }

  // What click sequences lead to ------------------------------------------------------

  lemma {:induction false} ClicksConcat(v: View, a: seq<Click>, b: seq<Click>)
    ensures AfterClicks(v, a + b) == AfterClicks(AfterClicks(v, a), b)
    decreases |b|
  {
    if b == [] {
      assert a + b == a;
    } else {
      assert (a + b)[..|a + b| - 1] == a + b[..|b| - 1];
      ClicksConcat(v, a, b[..|b| - 1]);
    }
  }

  /** Starting and stopping is back at the ready source, whatever the bus answers each time. */
  lemma {:induction false} StopUndoesStart(v: View, start: BusAnswers, stop: BusAnswers)
    requires v.Ready? && AfterStartStop(v, start).Started?
    ensures var w := AfterClicks(v, [StartStop(start), StartStop(stop)]);
            w.Ready? && w.kind == v.kind && v.exchanges <= w.exchanges <= v.exchanges + 202
  {
    assert [StartStop(start), StartStop(stop)] == [StartStop(start)] + [StartStop(stop)];
    ClicksConcat(v, [StartStop(start)], [StartStop(stop)]);
    assert [StartStop(start)][..0] == [] && [StartStop(stop)][..0] == [];
  }

  ghost predicate NoDiscover(clicks: seq<Click>) {
    forall i :: 0 <= i < |clicks| ==> clicks[i].StartStop?
  }

  /** Without a further Discover there is a source exactly if there was one, and it is the same kind. */
  lemma {:induction false} OnlyDiscoverChangesTheSource(v: View, clicks: seq<Click>)
    requires NoDiscover(clicks)
    ensures AfterClicks(v, clicks).Empty? <==> v.Empty?
    ensures !v.Empty? ==> AfterClicks(v, clicks).kind == v.kind
    decreases |clicks|
  {
    if clicks != [] {
      OnlyDiscoverChangesTheSource(v, clicks[..|clicks| - 1]);
    }
  }

  /**
   After any session the Start button is enabled exactly when the last Discover that
   was not disabled found slaves through a source that could be created, and the
   source is of the kind chosen there.
   */
  lemma {:induction false} LastDiscoverDecides(before: seq<Click>, form: Form, after: seq<Click>)
    requires NoDiscover(after) && !AfterClicks(Empty, before).Started?
    ensures var v := AfterClicks(Empty, before + [Discover(form)] + after);
            && (!v.Empty? <==>
                  && form.slavesFound && form.choice != NoChoice
                  && (form.choice == EthercatMaster || form.choice == Sniffer ==> form.interfaceSelected)
                  && (form.choice == Sniffer || form.choice == File ==>
                        form.configChosen && form.configLoads && form.opens)
                  && (form.choice == File ==> form.pcapChosen))
            && (!v.Empty? ==> (v.kind == Master <==> form.choice == EthercatMaster))
  {
    var discovered := before + [Discover(form)];
    assert discovered[..|discovered| - 1] == before;
    ClicksConcat(Empty, discovered, after);
    OnlyDiscoverChangesTheSource(AfterClicks(Empty, discovered), after);
  }
}
