/**
 Progress and shutdown of the live master's threads.
 */
module Shutdown {
  import opened Acquisition

  ghost predicate Stopping(s: State) {
    s.controller.JoinWriter? || s.controller.JoinPublisher?
  }

  ghost function WriterLeft(bus: Bus, s: State): int {
    var n := |bus.slots|;
    match s.writer
    case WOff => 0
    case WExited => 1
    case WClose => 2
    case WCheck => 3
    case WSleep => 4
    case WCopy(next) => 5 + n - next
    case WTry => 6 + n
    case WExchange => 7 + n
  }

  ghost function PublisherLeft(bus: Bus, s: State): int {
    var n := |bus.slots|;
    match s.publisher
    case POff => 0
    case PExited => 1
    case PClose => 2
    case PCheck => 3
    case PSleep => 4
    case PUnlock => 5
    case PZmq(built) => 6 + n - |built|
    case PDecide => 7 + n
    case PUi(shown) => 8 + 2 * n - |shown|
    case PLock => 9 + 2 * n
  }

  /** Bounds the steps that remain once the flag is cleared. */
  ghost function StepsLeft(bus: Bus, s: State): int {
    WriterLeft(bus, s) + PublisherLeft(bus, s)
  }

  lemma StepsLeftBound(bus: Bus, s: State)
    requires Inv(bus, s)
    ensures 0 <= StepsLeft(bus, s) <= 3 * |bus.slots| + 16
  {
  }

  /** Once the flag is cleared, every step of any thread is one step less. */
  lemma EveryStepCounts(bus: Bus, s: State, a: Action)
    requires Inv(bus, s) && Stopping(s) && Enabled(bus, s, a)
    ensures var t := Apply(bus, s, a);
            && StepsLeft(bus, t) < StepsLeft(bus, s)
            && (Stopping(t) || (t.controller.Idle? && StepsLeft(bus, t) == 0))
  {
  }

  /** The writer has a step in every state while it lives, whatever the publisher does. */
  ghost function WriterAction(bus: Bus, s: State): Action {
    match s.writer
    case WOff => Start
    case WExited => Start
    case WClose => WriterClose
    case WCheck => WriterCheck
    case WSleep => WriterWake
    case WCopy(next) => if next < |bus.slots| then CopySlave else WriterUnlock
    case WTry => TryLock(false)
    case WExchange => WriterExchange(seq(bus.imageSize, i => 0))
  }

  lemma WriterNeverBlocked(bus: Bus, s: State)
    requires ValidBus(bus) && Inv(bus, s) && !s.writer.WOff? && !s.writer.WExited?
    ensures Enabled(bus, s, WriterAction(bus, s))
    ensures Apply(bus, s, WriterAction(bus, s)).writer != s.writer
    ensures Apply(bus, s, WriterAction(bus, s)).publisher == s.publisher
  {
  }

  ghost function PublisherAction(bus: Bus, s: State): Action {
    match s.publisher
    case POff => Start
    case PExited => Start
    case PClose => PublisherClose
    case PCheck => PublisherCheck
    case PSleep => PublisherWake
    case PUnlock => PublisherUnlock
    case PZmq(built) => if |built| < |bus.slots| then BuildSlave else Send
    case PDecide => Decide(false)
    case PUi(shown) => if |shown| < |bus.slots| then ShowSlave else Callback
    case PLock => Lock
  }

  /** No deadlock: until both threads are joined, some step is enabled. */
  lemma SomeStepEnabled(bus: Bus, s: State)
    requires ValidBus(bus) && Inv(bus, s) && Stopping(s)
    ensures exists a :: Enabled(bus, s, a)
  {
    if !s.writer.WOff? && !s.writer.WExited? {
      WriterNeverBlocked(bus, s);
    } else if s.controller.JoinWriter? {
      assert Enabled(bus, s, JoinedWriter);
    } else if s.publisher.PExited? {
      assert Enabled(bus, s, JoinedPublisher);
    } else {
      assert Enabled(bus, s, PublisherAction(bus, s));
    }
  }

  // Whole shutdowns ------------------------------------------------------------------

  /** A stretch of a run during which the controller is inside `stop`. */
  ghost predicate StopStretch(bus: Bus, states: seq<State>, acts: seq<Action>) {
    && ValidBus(bus) && Steps(bus, states, acts) && Inv(bus, states[0])
    && forall i :: 0 <= i < |acts| ==> Stopping(states[i])
  }

  function ExchangesLeft(w: WriterPc): nat { if w.WExchange? then 1 else 0 }
  function CallbacksLeft(p: PublisherPc): nat { if p.PLock? || p.PUi? then 1 else 0 }
  function MessagesLeft(p: PublisherPc): nat { if p.PLock? || p.PUi? || p.PDecide? || p.PZmq? then 1 else 0 }

  function CountKind(ps: seq<Publication>, kind: Kind): nat {
    if ps == [] then 0 else CountKind(ps[..|ps| - 1], kind) + (if ps[|ps| - 1].kind == kind then 1 else 0)
  }

  /** What will have happened when the shutdown is over does not change on the way there. */
  lemma StretchStep(bus: Bus, s: State, a: Action)
    requires Inv(bus, s) && Stopping(s) && Enabled(bus, s, a)
    ensures var t := Apply(bus, s, a);
            && |t.received| + ExchangesLeft(t.writer) == |s.received| + ExchangesLeft(s.writer)
            && CountKind(t.published, Ui) + CallbacksLeft(t.publisher)
               == CountKind(s.published, Ui) + CallbacksLeft(s.publisher)
            && CountKind(t.published, Zmq) + MessagesLeft(t.publisher)
               <= CountKind(s.published, Zmq) + MessagesLeft(s.publisher)
  {
    var t := Apply(bus, s, a);
    if a.Callback? || a.Send? {
      assert t.published[..|t.published| - 1] == s.published;
    }
  }

  /**
   A shutdown of any interleaving ends after at most `StepsLeft` steps.  Until it is
   over there is at most one more exchange, one more callback and one more message;
   when it is over there was exactly the exchange that the writer was about to make
   when the flag was cleared, and exactly the callback that the publisher was in or
   before.
   */
  lemma ShutdownIsShort(bus: Bus, states: seq<State>, acts: seq<Action>)
    requires StopStretch(bus, states, acts) && |acts| > 0
    ensures var s, t := states[0], states[|acts|];
            && Inv(bus, t) && (Stopping(t) || t.controller.Idle?)
            && |acts| + StepsLeft(bus, t) <= StepsLeft(bus, s) <= 3 * |bus.slots| + 16
            && |t.received| <= |s.received| + ExchangesLeft(s.writer)
            && CountKind(t.published, Ui) <= CountKind(s.published, Ui) + CallbacksLeft(s.publisher)
            && CountKind(t.published, Zmq) <= CountKind(s.published, Zmq) + MessagesLeft(s.publisher)
            && (t.controller.Idle? ==>
                  && |t.received| == |s.received| + ExchangesLeft(s.writer)
                  && CountKind(t.published, Ui) == CountKind(s.published, Ui) + CallbacksLeft(s.publisher))
  {
    StepsLeftBound(bus, states[0]);
    StretchPrefix(bus, states, acts, |acts|);
  }

  lemma {:induction false} StretchPrefix(bus: Bus, states: seq<State>, acts: seq<Action>, n: nat)
    requires StopStretch(bus, states, acts) && n <= |acts|
    ensures var s, t := states[0], states[n];
            && Inv(bus, t) && (n > 0 ==> Stopping(t) || t.controller.Idle?)
            && n + StepsLeft(bus, t) <= StepsLeft(bus, s)
            && |t.received| + ExchangesLeft(t.writer) == |s.received| + ExchangesLeft(s.writer)
            && CountKind(t.published, Ui) + CallbacksLeft(t.publisher)
               == CountKind(s.published, Ui) + CallbacksLeft(s.publisher)
            && CountKind(t.published, Zmq) + MessagesLeft(t.publisher)
               <= CountKind(s.published, Zmq) + MessagesLeft(s.publisher)
  {
    if n != 0 {
      StretchPrefix(bus, states, acts, n - 1);
      InvStep(bus, states[n - 1], acts[n - 1]);
      EveryStepCounts(bus, states[n - 1], acts[n - 1]);
      StretchStep(bus, states[n - 1], acts[n - 1]);
    }
  }

  /** After `stop` has returned, and until the next start, each thread has closed once per session and nothing runs. */
  lemma ClosedAfterStop(bus: Bus, states: seq<State>, acts: seq<Action>)
    requires IsRun(bus, states, acts) && states[|acts|].controller.Idle?
    ensures var s := states[|acts|];
            && s.writerCloses == s.sessions && s.publisherCloses == s.sessions
            && s.owner == Free && !s.running
            && forall a :: Enabled(bus, s, a) <==> a == Start
  {
    InvRun(bus, states, acts, |acts|);
  }

  /** The controller is between two sessions: no thread has been created yet. */
  predicate BetweenSessions(c: ControllerPc) {
    c.Idle? || c.Starting? || c.SpawnWriter?
  }

  lemma QuietStep(bus: Bus, s: State, a: Action)
    requires Inv(bus, s) && Enabled(bus, s, a) && BetweenSessions(s.controller)
    ensures var t := Apply(bus, s, a); t.copies == s.copies && t.published == s.published
  {
  }

  /** From the end of a session to the creation of the next one's writer nothing is copied or published. */
  lemma {:induction false} QuietBetweenSessions(bus: Bus, states: seq<State>, acts: seq<Action>, n: nat)
    requires Steps(bus, states, acts) && Inv(bus, states[0]) && n <= |acts|
    requires forall i :: 0 <= i < n ==> BetweenSessions(states[i].controller)
    ensures Inv(bus, states[n]) && states[n].copies == states[0].copies && states[n].published == states[0].published
  {
    if n != 0 {
      QuietBetweenSessions(bus, states, acts, n - 1);
      InvStep(bus, states[n - 1], acts[n - 1]);
      QuietStep(bus, states[n - 1], acts[n - 1]);
    }
  }

  lemma StartStep(bus: Bus, s: State, a: Action)
    requires Inv(bus, s) && Enabled(bus, s, a) && s.controller.Starting?
    ensures var t, e := Apply(bus, s, a), s.controller.exchanges;
            || (t.controller == Starting(e + 1) && e < 202 && |t.received| == |s.received| + 1)
            || (t.controller == SpawnWriter && 2 <= e <= 202 && t.received == s.received)
            || (t.controller == Idle && (e == 0 || e == 202) && t.received == s.received)
  {
  }

  /**
   A start makes two to 202 exchanges before the first thread is created; one that
   fails makes none, or all 202.
   */
  lemma {:induction false} StartExchanges(bus: Bus, states: seq<State>, acts: seq<Action>, n: nat)
    requires Steps(bus, states, acts) && Inv(bus, states[0]) && states[0].controller == Starting(0) && n <= |acts|
    requires forall i :: 0 <= i < n ==> states[i].controller.Starting?
    ensures Inv(bus, states[n]) && |states[0].received| <= |states[n].received|
    ensures var made := |states[n].received| - |states[0].received|;
            && (states[n].controller.Starting? ==> states[n].controller.exchanges == made <= 202)
            && (!states[n].controller.Starting? ==>
                  || (states[n].controller == SpawnWriter && 2 <= made <= 202)
                  || (states[n].controller == Idle && (made == 0 || made == 202)))
  {
    if n != 0 {
      StartExchanges(bus, states, acts, n - 1);
      InvStep(bus, states[n - 1], acts[n - 1]);
      StartStep(bus, states[n - 1], acts[n - 1]);
      assert states[n - 1 + 1] == Apply(bus, states[n - 1], acts[n - 1]);
    }
  }
}
