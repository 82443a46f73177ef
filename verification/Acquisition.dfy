/**
 The two threads of the live master as a transition system.

 The writer exchanges process data with the bus and copies them into the slaves
 one by one, if it gets the mutex at once.  The publisher waits for the mutex and
 hands the slaves to the user interface and, if enabled, to the ZMQ publisher.
 The controller starts the threads, clears the running flag and joins them; it
 may do so any number of times.  An action is one step of one thread; what the
 wire delivers, whether `try_lock` succeeds on a free mutex, whether publishing
 is enabled and how long anyone sleeps are left open.
 */
module Acquisition {
  import opened PackedCodec
  import opened SlaveData

  /** The windows of the slaves in the process image, and the size of the image. */
  datatype Bus = Bus(slots: seq<Slot>, imageSize: nat)

  ghost predicate ValidBus(bus: Bus) {
    forall image: seq<byte> :: |image| == bus.imageSize ==> SlotsInside(bus.slots, image)
  }

  const MAX_START_EXCHANGES := 202

  datatype Owner = Free | HeldByWriter | HeldByPublisher

  datatype WriterPc = WOff | WCheck | WExchange | WTry | WCopy(next: nat) | WSleep | WClose | WExited

  /** `shown` and `built` are what the callback and the message have read so far. */
  datatype PublisherPc =
    POff | PCheck | PLock | PUi(shown: seq<Contents>)
    | PDecide | PZmq(built: seq<Contents>) | PUnlock | PSleep | PClose | PExited

  /** `Starting` counts the exchanges of this start: one, then up to 201 with a state check each. */
  datatype ControllerPc =
    Idle | Starting(exchanges: nat) | SpawnWriter | SpawnPublisher | Running | JoinWriter | JoinPublisher

  datatype Kind = Ui | Zmq

  /** One complete hand-out of the slave list, in a numbered iteration of the publisher. */
  datatype Publication = Publication(kind: Kind, iteration: nat, list: seq<Contents>)

  datatype State = State(
    running: bool,
    owner: Owner,
    writer: WriterPc,
    publisher: PublisherPc,
    controller: ControllerPc,
    received: seq<seq<byte>>,  // the image after each receive cycle
    copies: seq<Contents>,     // the slaves' structs
    published: seq<Publication>,
    iteration: nat,
    sessions: nat,             // times the flag was set
    writerCloses: nat,
    publisherCloses: nat)

  datatype Action =
    // controller
    | Start | StartExchange(image: seq<byte>) | GiveUp | GoOperational | RunWriter | RunPublisher
    | ClearFlag | JoinedWriter | JoinedPublisher
    // writer
    | WriterCheck | WriterExchange(image: seq<byte>) | TryLock(acquired: bool) | CopySlave | WriterUnlock | WriterWake
    | WriterClose
    // publisher
    | PublisherCheck | Lock | ShowSlave | Callback | Decide(publish: bool) | BuildSlave | Send | PublisherUnlock
    | PublisherWake | PublisherClose

  ghost predicate Initial(bus: Bus, s: State) {
    && !s.running && s.owner == Free && s.writer == WOff && s.publisher == POff && s.controller == Idle
    && s.received == [] && |s.copies| == |bus.slots| && s.published == []
    && s.iteration == s.sessions == s.writerCloses == s.publisherCloses == 0
  }

  ghost predicate Enabled(bus: Bus, s: State, a: Action) {
    match a
    case Start => s.controller == Idle
    case StartExchange(image) =>
      s.controller.Starting? && s.controller.exchanges < MAX_START_EXCHANGES && |image| == bus.imageSize
    case GiveUp => s.controller == Starting(0) || s.controller == Starting(MAX_START_EXCHANGES)
    case GoOperational => s.controller.Starting? && s.controller.exchanges >= 2
    case RunWriter => s.controller == SpawnWriter
    case RunPublisher => s.controller == SpawnPublisher
    case ClearFlag => s.controller == Running
    case JoinedWriter => s.controller == JoinWriter && s.writer == WExited
    case JoinedPublisher => s.controller == JoinPublisher && s.publisher == PExited
    case WriterCheck => s.writer == WCheck
    case WriterExchange(image) => s.writer == WExchange && |image| == bus.imageSize
    case TryLock(acquired) => s.writer == WTry && (acquired ==> s.owner == Free)
    case CopySlave =>
      && s.writer.WCopy? && s.writer.next < |bus.slots| == |s.copies|
      && s.received != [] && SlotInside(bus.slots[s.writer.next], s.received[|s.received| - 1])
    case WriterUnlock => s.writer == WCopy(|bus.slots|)
    case WriterWake => s.writer == WSleep
    case WriterClose => s.writer == WClose
    case PublisherCheck => s.publisher == PCheck
    case Lock => s.publisher == PLock && s.owner == Free
    case ShowSlave => s.publisher.PUi? && |s.publisher.shown| < |bus.slots| == |s.copies|
    case Callback => s.publisher.PUi? && |s.publisher.shown| == |bus.slots|
    case Decide(publish) => s.publisher == PDecide
    case BuildSlave => s.publisher.PZmq? && |s.publisher.built| < |bus.slots| == |s.copies|
    case Send => s.publisher.PZmq? && |s.publisher.built| == |bus.slots|
    case PublisherUnlock => s.publisher == PUnlock
    case PublisherWake => s.publisher == PSleep
    case PublisherClose => s.publisher == PClose
  }

  ghost function Apply(bus: Bus, s: State, a: Action): State
    requires Enabled(bus, s, a)
  {
    match a
    case Start => s.(controller := Starting(0))
    case StartExchange(image) =>
      s.(received := s.received + [image], controller := Starting(s.controller.exchanges + 1))
    case GiveUp => s.(controller := Idle)
    case GoOperational => s.(running := true, controller := SpawnWriter, sessions := s.sessions + 1)
    case RunWriter => s.(writer := WCheck, controller := SpawnPublisher)
    case RunPublisher => s.(publisher := PCheck, controller := Running)
    case ClearFlag => s.(running := false, controller := JoinWriter)
    case JoinedWriter => s.(writer := WOff, controller := JoinPublisher)
    case JoinedPublisher => s.(publisher := POff, controller := Idle)
    case WriterCheck => s.(writer := if s.running then WExchange else WClose)
    case WriterExchange(image) => s.(received := s.received + [image], writer := WTry)
    case TryLock(acquired) =>
      if acquired then s.(owner := HeldByWriter, writer := WCopy(0)) else s.(writer := WSleep)
    case CopySlave =>
      var i := s.writer.next;
      s.(copies := s.copies[i := ReadSlot(bus.slots[i], s.received[|s.received| - 1])], writer := WCopy(i + 1))
    case WriterUnlock => s.(owner := Free, writer := WSleep)
    case WriterWake => s.(writer := WCheck)
    case WriterClose => s.(writer := WExited, writerCloses := s.writerCloses + 1)
    case PublisherCheck => s.(publisher := if s.running then PLock else PClose)
    case Lock => s.(owner := HeldByPublisher, publisher := PUi([]))
    case ShowSlave => s.(publisher := PUi(s.publisher.shown + [s.copies[|s.publisher.shown|]]))
    case Callback =>
      s.(published := s.published + [Publication(Ui, s.iteration, s.publisher.shown)], publisher := PDecide)
    case Decide(publish) => s.(publisher := if publish then PZmq([]) else PUnlock)
    case BuildSlave => s.(publisher := PZmq(s.publisher.built + [s.copies[|s.publisher.built|]]))
    case Send =>
      s.(published := s.published + [Publication(Zmq, s.iteration, s.publisher.built)], publisher := PUnlock)
    case PublisherUnlock => s.(owner := Free, publisher := PSleep, iteration := s.iteration + 1)
    case PublisherWake => s.(publisher := PCheck)
    case PublisherClose => s.(publisher := PExited, publisherCloses := s.publisherCloses + 1)
  }

  /** `states` are the states along the actions `acts`. */
  ghost predicate Steps(bus: Bus, states: seq<State>, acts: seq<Action>) {
    && |states| == |acts| + 1
    && forall i :: 0 <= i < |acts| ==>
         Enabled(bus, states[i], acts[i]) && states[i + 1] == Apply(bus, states[i], acts[i])
  }

  ghost predicate IsRun(bus: Bus, states: seq<State>, acts: seq<Action>) {
    Steps(bus, states, acts) && Initial(bus, states[0])
  }

  // Who is where -------------------------------------------------------------------

  predicate PublisherHolds(p: PublisherPc) { p.PUi? || p.PDecide? || p.PZmq? || p.PUnlock? }
  predicate WriterEnding(w: WriterPc) { w.WClose? || w.WExited? }
  predicate PublisherEnding(p: PublisherPc) { p.PClose? || p.PExited? }

  ghost predicate LockInv(s: State) {
    && (s.owner == HeldByWriter <==> s.writer.WCopy?)
    && (s.owner == HeldByPublisher <==> PublisherHolds(s.publisher))
  }

  ghost predicate ControlInv(s: State) {
    match s.controller
    case Idle => !s.running && s.writer == WOff && s.publisher == POff
    case Starting(exchanges) =>
      exchanges <= MAX_START_EXCHANGES && !s.running && s.writer == WOff && s.publisher == POff
    case SpawnWriter => s.running && s.writer == WOff && s.publisher == POff
    case SpawnPublisher => s.running && !s.writer.WOff? && !WriterEnding(s.writer) && s.publisher == POff
    case Running =>
      s.running && !s.writer.WOff? && !WriterEnding(s.writer) && !s.publisher.POff? && !PublisherEnding(s.publisher)
    case JoinWriter => !s.running && !s.writer.WOff? && !s.publisher.POff?
    case JoinPublisher => !s.running && s.writer.WOff? && !s.publisher.POff?
  }

  /** Every session closes once per thread: the closes still owed are those of unspawned and live threads. */
  ghost predicate CloseInv(s: State) {
    && s.sessions == s.writerCloses
                     + (if s.controller.SpawnWriter? || !(s.writer.WOff? || s.writer.WExited?) then 1 else 0)
    && s.sessions == s.publisherCloses
                     + (if s.controller.SpawnWriter? || s.controller.SpawnPublisher?
                           || !(s.publisher.POff? || s.publisher.PExited?) then 1 else 0)
  }

  ghost predicate SizeInv(bus: Bus, s: State) {
    && |s.copies| == |bus.slots|
    && (forall i :: 0 <= i < |s.received| ==> |s.received[i]| == bus.imageSize)
    && (s.writer.WTry? || s.writer.WCopy? ==> s.received != [])
    && (s.writer.WCopy? ==> s.writer.next <= |bus.slots|)
    && (s.publisher.PUi? ==> |s.publisher.shown| <= |bus.slots|)
    && (s.publisher.PZmq? ==> |s.publisher.built| <= |bus.slots|)
  }

  ghost predicate Inv(bus: Bus, s: State) {
    LockInv(s) && ControlInv(s) && CloseInv(s) && SizeInv(bus, s)
  }

  lemma LockStep(bus: Bus, s: State, a: Action)
    requires LockInv(s) && ControlInv(s) && Enabled(bus, s, a)
    ensures LockInv(Apply(bus, s, a))
  {
  }

  lemma ControlStep(bus: Bus, s: State, a: Action)
    requires ControlInv(s) && Enabled(bus, s, a)
    ensures ControlInv(Apply(bus, s, a))
  {
  }

  lemma CloseStep(bus: Bus, s: State, a: Action)
    requires ControlInv(s) && CloseInv(s) && Enabled(bus, s, a)
    ensures CloseInv(Apply(bus, s, a))
  {
  }

  lemma SizeStep(bus: Bus, s: State, a: Action)
    requires ControlInv(s) && SizeInv(bus, s) && Enabled(bus, s, a)
    ensures SizeInv(bus, Apply(bus, s, a))
  {
  }

  lemma InvStep(bus: Bus, s: State, a: Action)
    requires Inv(bus, s) && Enabled(bus, s, a)
    ensures Inv(bus, Apply(bus, s, a))
  {
    LockStep(bus, s, a);
    ControlStep(bus, s, a);
    CloseStep(bus, s, a);
    SizeStep(bus, s, a);
  }

  lemma {:induction false} InvRun(bus: Bus, states: seq<State>, acts: seq<Action>, n: nat)
    requires IsRun(bus, states, acts) && n <= |acts|
    ensures Inv(bus, states[n])
  {
    if n != 0 {
      InvRun(bus, states, acts, n - 1);
      InvStep(bus, states[n - 1], acts[n - 1]);
    }
  }
}
