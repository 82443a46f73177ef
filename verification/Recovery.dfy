/**
 What the live master can still do: no interleaving, session or failed start leads
 to a state from which data can no longer be shown.
 */
module Recovery {
  import opened PackedCodec
  import opened SlaveData
  import opened Acquisition
  import opened Shutdown

  ghost predicate Leads(bus: Bus, s: State, t: State) {
    exists states, acts :: Steps(bus, states, acts) && states[0] == s && states[|acts|] == t
  }

  lemma LeadsToItself(bus: Bus, s: State)
    ensures Leads(bus, s, s)
  {
    assert Steps(bus, [s], []);
  }

  lemma Then(bus: Bus, s: State, t: State, a: Action)
    requires Leads(bus, s, t) && Enabled(bus, t, a)
    ensures Leads(bus, s, Apply(bus, t, a))
  {
    var states, acts :| Steps(bus, states, acts) && states[0] == s && states[|acts|] == t;
    OneMore(bus, states, acts, a);
    var states', acts' := states + [Apply(bus, t, a)], acts + [a];
    assert states'[0] == s && states'[|acts'|] == Apply(bus, t, a);
  }

  lemma OneMore(bus: Bus, states: seq<State>, acts: seq<Action>, a: Action)
    requires Steps(bus, states, acts) && Enabled(bus, states[|acts|], a)
    ensures Steps(bus, states + [Apply(bus, states[|acts|], a)], acts + [a])
  {
    var states', acts' := states + [Apply(bus, states[|acts|], a)], acts + [a];
    forall i | 0 <= i < |acts'|
      ensures Enabled(bus, states'[i], acts'[i]) && states'[i + 1] == Apply(bus, states'[i], acts'[i])
    {
      if i < |acts| {
        assert acts'[i] == acts[i] && states'[i] == states[i] && states'[i + 1] == states[i + 1];
      }
    }
  }

  // Back to idle ----------------------------------------------------------------------

  /** Whatever is enabled first, the threads end and are joined. */
  lemma {:induction false} FinishStopping(bus: Bus, s: State, t: State) returns (u: State)
    requires ValidBus(bus) && Leads(bus, s, t) && Inv(bus, t) && Stopping(t)
    ensures Leads(bus, s, u) && Inv(bus, u) && u.controller.Idle?
    decreases StepsLeft(bus, t)
  {
    StepsLeftBound(bus, t);
    SomeStepEnabled(bus, t);
    var a :| Enabled(bus, t, a);
    EveryStepCounts(bus, t, a);
    InvStep(bus, t, a);
    Then(bus, s, t, a);
    u := Apply(bus, t, a);
    if Stopping(u) {
      u := FinishStopping(bus, s, u);
    }
  }

  lemma Advance(bus: Bus, s: State, t: State, a: Action) returns (u: State)
    requires Leads(bus, s, t) && Inv(bus, t) && Enabled(bus, t, a)
    ensures Leads(bus, s, u) && Inv(bus, u) && u == Apply(bus, t, a)
  {
    Then(bus, s, t, a);
    InvStep(bus, t, a);
    u := Apply(bus, t, a);
  }

  /** A start is given up before its first exchange, or brought to its end. */
  lemma LeaveStart(bus: Bus, s: State) returns (t: State)
    requires Inv(bus, s)
    ensures Leads(bus, s, t) && Inv(bus, t) && !t.controller.Starting?
  {
    LeadsToItself(bus, s);
    t := s;
    if t.controller == Starting(0) {
      t := Advance(bus, s, t, GiveUp);
    } else if t.controller.Starting? {
      if t.controller.exchanges == 1 {
        t := Advance(bus, s, t, StartExchange(seq(bus.imageSize, i => 0)));
      }
      t := Advance(bus, s, t, GoOperational);
    }
  }

  /** Threads that are being started are started and told to stop. */
  lemma LeaveSpawning(bus: Bus, s: State, t: State) returns (u: State)
    requires Leads(bus, s, t) && Inv(bus, t) && !t.controller.Starting?
    ensures Leads(bus, s, u) && Inv(bus, u) && (u.controller.Idle? || Stopping(u))
  {
    u := t;
    if u.controller.SpawnWriter? {
      u := Advance(bus, s, u, RunWriter);
    }
    if u.controller.SpawnPublisher? {
      u := Advance(bus, s, u, RunPublisher);
    }
    if u.controller.Running? {
      u := Advance(bus, s, u, ClearFlag);
    }
  }

  lemma BackToIdle(bus: Bus, s: State) returns (t: State)
    requires ValidBus(bus) && Inv(bus, s)
    ensures Leads(bus, s, t) && Inv(bus, t) && t.controller.Idle?
  {
    t := LeaveStart(bus, s);
    t := LeaveSpawning(bus, s, t);
    if Stopping(t) {
      t := FinishStopping(bus, s, t);
    }
  }

  // From idle to a shown image --------------------------------------------------------

  /** A start whose first state check finds the bus operational, after two exchanges. */
  lemma StartThreads(bus: Bus, s: State, t: State, image: seq<byte>) returns (u: State)
    requires Leads(bus, s, t) && Inv(bus, t) && t.controller.Idle? && |image| == bus.imageSize
    ensures Leads(bus, s, u) && Inv(bus, u) && u.running && u.writer == WCheck && u.publisher == PCheck
  {
    u := Advance(bus, s, t, Start);
    u := Advance(bus, s, u, StartExchange(image));
    u := Advance(bus, s, u, StartExchange(image));
    u := Advance(bus, s, u, GoOperational);
    u := Advance(bus, s, u, RunWriter);
    u := Advance(bus, s, u, RunPublisher);
  }

  lemma ReceiveImage(bus: Bus, s: State, t: State, image: seq<byte>) returns (u: State)
    requires Leads(bus, s, t) && Inv(bus, t) && t.running && t.writer == WCheck && t.publisher == PCheck
    requires |image| == bus.imageSize
    ensures Leads(bus, s, u) && Inv(bus, u)
    ensures u == t.(received := t.received + [image], owner := HeldByWriter, writer := WCopy(0))
  {
    u := Advance(bus, s, t, WriterCheck);
    u := Advance(bus, s, u, WriterExchange(image));
    u := Advance(bus, s, u, TryLock(true));
  }

  ghost predicate CopiedUpTo(bus: Bus, t: State, image: seq<byte>, n: nat) {
    && n <= |bus.slots| == |t.copies| && SlotsInside(bus.slots, image)
    && forall i :: 0 <= i < n ==> t.copies[i] == ReadSlot(bus.slots[i], image)
  }

  lemma CopyOne(bus: Bus, s: State, t: State, image: seq<byte>, n: nat) returns (u: State)
    requires Leads(bus, s, t) && Inv(bus, t)
    requires n < |bus.slots| && t.writer == WCopy(n) && CopiedUpTo(bus, t, image, n)
    requires t.received != [] && t.received[|t.received| - 1] == image
    ensures Leads(bus, s, u) && Inv(bus, u)
    ensures u == t.(copies := u.copies, writer := WCopy(n + 1)) && CopiedUpTo(bus, u, image, n + 1)
  {
    assert SlotInside(bus.slots[n], image);
    u := Advance(bus, s, t, Action.CopySlave);
  }

  /** The rest of a copy pass. */
  lemma {:induction false} CopyRest(bus: Bus, s: State, t: State, image: seq<byte>, n: nat) returns (u: State)
    requires Leads(bus, s, t) && Inv(bus, t)
    requires t.writer == WCopy(n) && CopiedUpTo(bus, t, image, n)
    requires t.received != [] && t.received[|t.received| - 1] == image
    ensures Leads(bus, s, u) && Inv(bus, u)
    ensures u == t.(copies := u.copies, writer := WCopy(|bus.slots|)) && CopiedUpTo(bus, u, image, |bus.slots|)
    decreases |bus.slots| - n
  {
    if n == |bus.slots| {
      u := t;
    } else {
      u := CopyOne(bus, s, t, image, n);
      u := CopyRest(bus, s, u, image, n + 1);
    }
  }

  lemma ShowOne(bus: Bus, s: State, t: State, n: nat) returns (u: State)
    requires Leads(bus, s, t) && Inv(bus, t) && n < |bus.slots| && t.publisher == PUi(t.copies[..n])
    ensures Leads(bus, s, u) && Inv(bus, u)
    ensures u == t.(publisher := PUi(t.copies[..n + 1]))
  {
    assert t.copies[..n] + [t.copies[n]] == t.copies[..n + 1];
    u := Advance(bus, s, t, ShowSlave);
  }

  /** The rest of what a callback reads. */
  lemma {:induction false} ShowRest(bus: Bus, s: State, t: State, n: nat) returns (u: State)
    requires Leads(bus, s, t) && Inv(bus, t) && n <= |bus.slots| && t.publisher == PUi(t.copies[..n])
    ensures Leads(bus, s, u) && Inv(bus, u) && u == t.(publisher := PUi(t.copies))
    decreases |bus.slots| - n
  {
    if n == |bus.slots| {
      assert t.copies[..n] == t.copies;
      u := t;
    } else {
      u := ShowOne(bus, s, t, n);
      u := ShowRest(bus, s, u, n + 1);
    }
  }

  lemma UnlockAndShow(bus: Bus, s: State, t: State) returns (u: State)
    requires Leads(bus, s, t) && Inv(bus, t) && t.running && t.writer == WCopy(|bus.slots|) && t.publisher == PCheck
    ensures Leads(bus, s, u) && Inv(bus, u) && u.publisher == PDecide
    ensures u.received == t.received && u.iteration == t.iteration && u.copies == t.copies
    ensures u.published == t.published + [Publication(Ui, t.iteration, t.copies)]
  {
    u := Advance(bus, s, t, WriterUnlock);
    u := Advance(bus, s, u, PublisherCheck);
    u := Advance(bus, s, u, Lock);
    u := ShowRest(bus, s, u, 0);
    u := Advance(bus, s, u, Callback);
  }

  lemma BuildOne(bus: Bus, s: State, t: State, n: nat) returns (u: State)
    requires Leads(bus, s, t) && Inv(bus, t) && n < |bus.slots| && t.publisher == PZmq(t.copies[..n])
    ensures Leads(bus, s, u) && Inv(bus, u)
    ensures u == t.(publisher := PZmq(t.copies[..n + 1]))
  {
    assert t.copies[..n] + [t.copies[n]] == t.copies[..n + 1];
    u := Advance(bus, s, t, BuildSlave);
  }

  /** The rest of what a message is built from. */
  lemma {:induction false} BuildRest(bus: Bus, s: State, t: State, n: nat) returns (u: State)
    requires Leads(bus, s, t) && Inv(bus, t) && n <= |bus.slots| && t.publisher == PZmq(t.copies[..n])
    ensures Leads(bus, s, u) && Inv(bus, u) && u == t.(publisher := PZmq(t.copies))
    decreases |bus.slots| - n
  {
    if n == |bus.slots| {
      assert t.copies[..n] == t.copies;
      u := t;
    } else {
      u := BuildOne(bus, s, t, n);
      u := BuildRest(bus, s, u, n + 1);
    }
  }

  lemma PublishMessage(bus: Bus, s: State, t: State) returns (u: State)
    requires Leads(bus, s, t) && Inv(bus, t) && t.publisher == PDecide
    ensures Leads(bus, s, u)
    ensures u == t.(published := t.published + [Publication(Zmq, t.iteration, t.copies)], publisher := PUnlock)
  {
    u := Advance(bus, s, t, Decide(true));
    u := BuildRest(bus, s, u, 0);
    u := Advance(bus, s, u, Send);
  }

  /** The last two lists handed out: the same one to the user interface and as a message, in one iteration. */
  ghost predicate ShownAndSent(t: State, list: seq<Contents>) {
    && |t.published| >= 2
    && t.published[|t.published| - 2] == Publication(Ui, t.iteration, list)
    && t.published[|t.published| - 1] == Publication(Zmq, t.iteration, list)
  }

  /**
   From every reachable state, whatever happened before, the run can go on so that
   the next image from the bus is received and a list with its decoding is handed to
   the user interface and then sent as a message of the same iteration.
   */
  lemma DataCanAlwaysBeShown(bus: Bus, s: State, image: seq<byte>) returns (t: State)
    requires ValidBus(bus) && Inv(bus, s) && |image| == bus.imageSize
    ensures Leads(bus, s, t) && SlotsInside(bus.slots, image)
    ensures t.received != [] && t.received[|t.received| - 1] == image
    ensures ShownAndSent(t, ReadAll(bus.slots, image))
  {
    t := BackToIdle(bus, s);
    t := StartThreads(bus, s, t, image);
    t := ReceiveImage(bus, s, t, image);
    t := CopyRest(bus, s, t, image, 0);
    assert t.copies == ReadAll(bus.slots, image);
    t := UnlockAndShow(bus, s, t);
    t := PublishMessage(bus, s, t);
  }
}
