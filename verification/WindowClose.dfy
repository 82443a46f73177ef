/**
 Closing the window while a source is started: which callbacks still come, and so
 how the destruction of the window ends.
 */
module WindowClose {
  import opened Optional
  import opened SlaveData
  import opened Acquisition
  import opened Shutdown
  import Recovery
  import Sniffer
  import Session

  // The live master ---------------------------------------------------------------------

  /**
   From the destruction of the window's own part to the end of the master's
   destructor, which clears the flag in step c and then joins both threads.
   */
  ghost predicate MasterCloses(bus: Bus, states: seq<State>, acts: seq<Action>, c: nat) {
    && ValidBus(bus) && Steps(bus, states, acts) && Inv(bus, states[0])
    && c < |acts| && acts[c] == ClearFlag
    && (forall i :: c < i < |acts| ==> Stopping(states[i]))
    && states[|acts|].controller.Idle?
  }

  ghost function Callbacks(s: State): nat {
    CountKind(s.published, Ui)
  }

  ghost function MasterLater(states: seq<State>, acts: seq<Action>): Session.Later
    requires |states| == |acts| + 1
  {
    Session.Later(Callbacks(states[|acts|]) > Callbacks(states[0]), true)
  }

  lemma CallbackStep(bus: Bus, s: State, a: Action)
    requires Inv(bus, s) && Enabled(bus, s, a)
    ensures Callbacks(s) <= Callbacks(Apply(bus, s, a))
  {
    var t := Apply(bus, s, a);
    if a.Callback? || a.Send? {
      assert t.published[..|t.published| - 1] == s.published;
    }
  }

  lemma {:induction false} CallbacksGrow(bus: Bus, states: seq<State>, acts: seq<Action>, n: nat)
    requires Steps(bus, states, acts) && Inv(bus, states[0]) && n <= |acts|
    ensures Inv(bus, states[n]) && Callbacks(states[0]) <= Callbacks(states[n])
  {
    if n != 0 {
      var s, a := states[n - 1], acts[n - 1];
      CallbacksGrow(bus, states, acts, n - 1);
      InvStep(bus, s, a);
      CallbackStep(bus, s, a);
      assert states[n - 1 + 1] == Apply(bus, s, a);
    }
  }

  /**
   Exactly the callbacks made before the flag is cleared, and one more if the
   publisher is then waiting for the mutex or inside a callback.
   */
  lemma MasterCallbacks(bus: Bus, states: seq<State>, acts: seq<Action>, c: nat)
    requires MasterCloses(bus, states, acts, c)
    ensures Callbacks(states[|acts|]) == Callbacks(states[c]) + CallbacksLeft(states[c].publisher)
    ensures MasterLater(states, acts).calls
       <==> Callbacks(states[c]) > Callbacks(states[0]) || CallbacksLeft(states[c].publisher) > 0
  {
    CallbacksGrow(bus, states, acts, c);
    CallbacksGrow(bus, states, acts, c + 1);
    assert states[c + 1] == Apply(bus, states[c], ClearFlag);
    AfterTheFlag(bus, states, acts, c);
  }

  lemma AfterTheFlag(bus: Bus, states: seq<State>, acts: seq<Action>, c: nat)
    requires MasterCloses(bus, states, acts, c) && Inv(bus, states[c + 1])
    ensures Callbacks(states[|acts|]) == Callbacks(states[c + 1]) + CallbacksLeft(states[c + 1].publisher)
  {
    var rest, more := states[c + 1..], acts[c + 1..];
    forall i | 0 <= i < |more|
      ensures Enabled(bus, rest[i], more[i]) && rest[i + 1] == Apply(bus, rest[i], more[i]) && Stopping(rest[i])
    {
      assert rest[i] == states[c + 1 + i] && more[i] == acts[c + 1 + i] && rest[i + 1] == states[c + 1 + i + 1];
    }
    assert StopStretch(bus, rest, more) && rest[|more|] == states[|acts|];
    ShutdownIsShort(bus, rest, more);
  }

  /** Where a run that starts inside the destructor first leaves it. */
  lemma {:induction false} FirstIdle(bus: Bus, states: seq<State>, acts: seq<Action>, n: nat) returns (m: nat)
    requires Steps(bus, states, acts) && n < |acts| && Inv(bus, states[n]) && states[|acts|].controller.Idle?
    requires forall i :: 0 <= i <= n ==> Stopping(states[i])
    ensures m <= |acts| && states[m].controller.Idle? && forall i :: 0 <= i < m ==> Stopping(states[i])
    decreases |acts| - n
  {
    EveryStepCounts(bus, states[n], acts[n]);
    InvStep(bus, states[n], acts[n]);
    m := n + 1;
    if Stopping(states[m]) {
      m := FirstIdle(bus, states, acts, m);
    }
  }

  lemma Prepend(bus: Bus, s: State, a: Action, states: seq<State>, acts: seq<Action>)
    requires Enabled(bus, s, a) && Steps(bus, states, acts) && states[0] == Apply(bus, s, a)
    ensures Steps(bus, [s] + states, [a] + acts)
  {
    var states', acts' := [s] + states, [a] + acts;
    forall i | 0 <= i < |acts'|
      ensures Enabled(bus, states'[i], acts'[i]) && states'[i + 1] == Apply(bus, states'[i], acts'[i])
    {
      if i > 0 {
        assert states'[i] == states[i - 1] && acts'[i] == acts[i - 1] && states'[i + 1] == states[i - 1 + 1];
      }
    }
  }

  /** While the master runs, its destructor can be carried out to its end. */
  lemma ClosingRun(bus: Bus, t: State) returns (states: seq<State>, acts: seq<Action>)
    requires ValidBus(bus) && Inv(bus, t) && t.controller.Running?
    ensures MasterCloses(bus, states, acts, 0) && states[0] == t
  {
    var u := Apply(bus, t, ClearFlag);
    InvStep(bus, t, ClearFlag);
    Recovery.LeadsToItself(bus, u);
    var v := Recovery.FinishStopping(bus, u, u);
    var ss, aa :| Steps(bus, ss, aa) && ss[0] == u && ss[|aa|] == v;
    var m := FirstIdle(bus, ss, aa, 0);
    StepsPrefix(bus, ss, aa, m);
    states, acts := [t] + ss[..m + 1], [ClearFlag] + aa[..m];
    ClearAndStop(bus, t, ss[..m + 1], aa[..m]);
  }

  lemma StepsPrefix(bus: Bus, states: seq<State>, acts: seq<Action>, m: nat)
    requires Steps(bus, states, acts) && m <= |acts|
    ensures Steps(bus, states[..m + 1], acts[..m])
  {
  }

  lemma ClearAndStop(bus: Bus, t: State, states: seq<State>, acts: seq<Action>)
    requires ValidBus(bus) && Inv(bus, t) && t.controller.Running?
    requires Steps(bus, states, acts) && states[0] == Apply(bus, t, ClearFlag)
    requires states[|acts|].controller.Idle? && forall i :: 0 <= i < |acts| ==> Stopping(states[i])
    ensures MasterCloses(bus, [t] + states, [ClearFlag] + acts, 0)
  {
    Prepend(bus, t, ClearFlag, states, acts);
    var all := [t] + states;
    assert forall i :: 0 < i < |acts| + 1 ==> all[i] == states[i - 1];
    assert all[|acts| + 1] == states[|acts|];
  }

  /** From every reachable state the master can get to where closing the window meets a callback, in every such run. */
  lemma ClosingCanMeetACallback(bus: Bus, s: State) returns (t: State)
    requires ValidBus(bus) && Inv(bus, s)
    ensures Recovery.Leads(bus, s, t)
    ensures exists states, acts :: MasterCloses(bus, states, acts, 0) && states[0] == t
    ensures forall states, acts :: MasterCloses(bus, states, acts, 0) && states[0] == t ==>
              MasterLater(states, acts).calls
  {
    t := Recovery.BackToIdle(bus, s);
    t := Recovery.StartThreads(bus, s, t, seq(bus.imageSize, i => 0));
    t := Recovery.Advance(bus, s, t, PublisherCheck);
    var states', acts' := ClosingRun(bus, t);
    forall states, acts | MasterCloses(bus, states, acts, 0) && states[0] == t
      ensures MasterLater(states, acts).calls
    {
      MasterCallbacks(bus, states, acts, 0);
    }
  }

  // The sniffer -------------------------------------------------------------------------

  /** The frames still to come: a number of them or an endless stream; and whether the capture then ends. */
  datatype Capture = Capture(frame: nat -> Sniffer.Frame, count: Option<nat>, ends: bool)

  predicate Comes(c: Capture, k: nat) {
    c.count.Some? ==> k < c.count.value
  }

  ghost predicate Sound(slots: seq<Slot>, c: Capture) {
    && (c.ends ==> c.count.Some?)
    && forall k: nat :: Comes(c, k) ==> Sniffer.Readable(slots, c.frame(k))
  }

  ghost function First(slots: seq<Slot>, c: Capture, n: nat): (frames: seq<Sniffer.Frame>)
    requires Sound(slots, c) && forall k :: 0 <= k < n ==> Comes(c, k)
    ensures |frames| == n && forall k :: 0 <= k < n ==> frames[k] == c.frame(k)
    ensures Sniffer.AllReadable(slots, frames)
  {
    seq(n, k requires 0 <= k < n => c.frame(k))
  }

  /** After some of these frames the sniffer has handed out more lists than before. */
  ghost predicate CallsBack(slots: seq<Slot>, c: Capture)
    requires Sound(slots, c)
  {
    exists n: nat, o: Sniffer.Output ::
      && (forall k :: 0 <= k < n ==> Comes(c, k))
      && |Sniffer.AfterFrames(slots, o, First(slots, c, n)).handedOut| > |o.handedOut|
  }

  ghost function SnifferLater(slots: seq<Slot>, c: Capture): Session.Later
    requires Sound(slots, c)
  {
    Session.Later(CallsBack(slots, c), c.ends)
  }

  lemma {:induction false} SomeAccepted(slots: seq<Slot>, frames: seq<Sniffer.Frame>)
    requires Sniffer.AllReadable(slots, frames)
    ensures Sniffer.AcceptedFrames(slots, frames) != []
       <==> exists k :: 0 <= k < |frames| && Sniffer.Accepted(frames[k])
    decreases |frames|
  {
    if frames != [] {
      var before := frames[..|frames| - 1];
      SomeAccepted(slots, before);
      assert forall k :: 0 <= k < |before| ==> before[k] == frames[k];
    }
  }

  lemma {:induction false} PrefixCallsBack(slots: seq<Slot>, o: Sniffer.Output, frames: seq<Sniffer.Frame>)
    requires Sniffer.AllReadable(slots, frames)
    ensures |Sniffer.AfterFrames(slots, o, frames).handedOut| > |o.handedOut|
       <==> exists k :: 0 <= k < |frames| && Sniffer.Accepted(frames[k])
  {
    SomeAccepted(slots, frames);
    Sniffer.CaptureOutcome(slots, o, frames);
  }

  /** A callback follows exactly when an accepted frame is still to come. */
  lemma SnifferCallbacks(slots: seq<Slot>, c: Capture)
    requires Sound(slots, c)
    ensures CallsBack(slots, c) <==> exists k: nat :: Comes(c, k) && Sniffer.Accepted(c.frame(k))
  {
    if k: nat :| Comes(c, k) && Sniffer.Accepted(c.frame(k)) {
      var o, frames := Sniffer.Output([], [], []), First(slots, c, k + 1);
      assert Sniffer.Accepted(frames[k]);
      PrefixCallsBack(slots, o, frames);
    }
    if CallsBack(slots, c) {
      var n: nat, o: Sniffer.Output :|
        && (forall k :: 0 <= k < n ==> Comes(c, k))
        && |Sniffer.AfterFrames(slots, o, First(slots, c, n)).handedOut| > |o.handedOut|;
      PrefixCallsBack(slots, o, First(slots, c, n));
    }
  }

  /** A file with one accepted frame left: closing the window then ends in a pure virtual call. */
  lemma OneFrameIsEnough(slots: seq<Slot>, f: Sniffer.Frame)
    requires Sniffer.Readable(slots, f) && Sniffer.Accepted(f)
    ensures var c := Capture(k => f, Some(1), true); Sound(slots, c) && SnifferLater(slots, c).calls
  {
    var c := Capture(k => f, Some(1), true);
    assert Comes(c, 0) && Sniffer.Accepted(c.frame(0));
    SnifferCallbacks(slots, c);
  }

  // The window ----------------------------------------------------------------------------

  method CloseDuringCapture(gui: Session.Gui, ghost slots: seq<Slot>, ghost c: Capture, later: Session.Later)
    returns (closing: Session.Closing)
    requires gui.Valid() && gui.CurrentView().Started? && gui.CurrentView().kind == Session.PacketSniffer
    requires Sound(slots, c) && later == SnifferLater(slots, c)
    modifies gui`source, gui.source
    ensures closing == Session.PureCall <==> exists k: nat :: Comes(c, k) && Sniffer.Accepted(c.frame(k))
    ensures closing == Session.Closed <==> c.ends && forall k: nat :: Comes(c, k) ==> !Sniffer.Accepted(c.frame(k))
  {
    SnifferCallbacks(slots, c);
    closing := gui.Close(later);
  }

  method CloseDuringCycle(gui: Session.Gui, ghost bus: Bus, ghost states: seq<State>, ghost acts: seq<Action>,
                          ghost n: nat, later: Session.Later)
    returns (closing: Session.Closing)
    requires gui.Valid() && gui.CurrentView().Started? && gui.CurrentView().kind == Session.Master
    requires gui.CurrentView().threads
    requires MasterCloses(bus, states, acts, n) && later == MasterLater(states, acts)
    modifies gui`source, gui.source
    ensures closing == Session.Closed
       <==> Callbacks(states[n]) == Callbacks(states[0]) && CallbacksLeft(states[n].publisher) == 0
    ensures closing == Session.Closed || closing == Session.PureCall
  {
    CallbacksGrow(bus, states, acts, n);
    MasterCallbacks(bus, states, acts, n);
    closing := gui.Close(later);
  }
}
