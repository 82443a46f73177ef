/**
 Safety over all interleavings: every slave list that the master hands out is the
 decoding of one receive cycle, and cycles never go backwards.
 */
module Snapshots {
  import opened PackedCodec
  import opened SlaveData
  import opened Acquisition

  ghost predicate RightSize(bus: Bus, received: seq<seq<byte>>) {
    ValidBus(bus) && forall i :: 0 <= i < |received| ==> |received[i]| == bus.imageSize
  }

  /** What slave i holds when cycle c was copied last; before any copy it holds what it held first. */
  ghost function CycleData(bus: Bus, first: seq<Contents>, received: seq<seq<byte>>, c: nat, i: nat): Contents
    requires RightSize(bus, received) && |first| == |bus.slots| && c <= |received| && i < |bus.slots|
  {
    if c == 0 then first[i] else ReadSlot(bus.slots[i], received[c - 1])
  }

  ghost predicate Shows(bus: Bus, first: seq<Contents>, received: seq<seq<byte>>, c: nat, list: seq<Contents>) {
    && RightSize(bus, received) && |list| == |first| == |bus.slots| && c <= |received|
    && forall i :: 0 <= i < |list| ==> list[i] == CycleData(bus, first, received, c, i)
  }

  /** A past cycle's data do not depend on what is received later. */
  lemma DataStay(bus: Bus, first: seq<Contents>, received: seq<seq<byte>>, image: seq<byte>, c: nat, i: nat)
    requires RightSize(bus, received) && |image| == bus.imageSize && |first| == |bus.slots| && c <= |received|
    requires i < |bus.slots|
    ensures RightSize(bus, received + [image])
    ensures CycleData(bus, first, received + [image], c, i) == CycleData(bus, first, received, c, i)
  {
    if c > 0 {
      assert (received + [image])[c - 1] == received[c - 1];
    }
  }

  lemma ShowsStays(bus: Bus, first: seq<Contents>, received: seq<seq<byte>>, image: seq<byte>, c: nat,
                   list: seq<Contents>)
    requires Shows(bus, first, received, c, list) && |image| == bus.imageSize
    ensures Shows(bus, first, received + [image], c, list)
  {
    forall i | 0 <= i < |list|
      ensures RightSize(bus, received + [image])
      ensures list[i] == CycleData(bus, first, received + [image], c, i)
    {
      DataStay(bus, first, received, image, c, i);
    }
  }

  /** The cycle of the last completed copy pass, and the cycle of every list handed out. */
  datatype History = History(first: seq<Contents>, last: nat, cycles: seq<nat>)

  ghost predicate Base(bus: Bus, s: State, h: History) {
    && Inv(bus, s) && RightSize(bus, s.received)
    && |h.first| == |bus.slots| && h.last <= |s.received|
  }

  /** The cycle that slave i shows: during a copy pass the newest up to the next slave, else the last one copied. */
  ghost function ShownCycle(s: State, h: History, i: nat): nat {
    if s.writer.WCopy? && i < s.writer.next then |s.received| else h.last
  }

  ghost predicate CopiesInv(bus: Bus, s: State, h: History)
    requires Base(bus, s, h)
  {
    forall i :: 0 <= i < |bus.slots| ==> s.copies[i] == CycleData(bus, h.first, s.received, ShownCycle(s, h, i), i)
  }

  /** What the publisher has read under the lock is still what the slaves hold. */
  ghost predicate ReadInv(s: State) {
    && (s.publisher.PUi? ==> s.publisher.shown <= s.copies)
    && (s.publisher.PZmq? ==> s.publisher.built <= s.copies)
  }

  ghost predicate LogInv(bus: Bus, s: State, h: History) {
    && |h.cycles| == |s.published|
    && forall j :: 0 <= j < |h.cycles| ==>
         h.cycles[j] <= h.last && Shows(bus, h.first, s.received, h.cycles[j], s.published[j].list)
  }

  predicate Ascending(cycles: seq<nat>) {
    forall i, j :: 0 <= i <= j < |cycles| ==> cycles[i] <= cycles[j]
  }

  /** Lists of the running iteration are what the slaves hold; lists of one iteration coincide. */
  ghost predicate IterationInv(s: State) {
    && (forall j :: 0 <= j < |s.published| ==> s.published[j].iteration <= s.iteration)
    && (forall j :: 0 <= j < |s.published| && s.published[j].iteration == s.iteration ==>
          (s.publisher.PDecide? || s.publisher.PZmq? || s.publisher.PUnlock?) && s.published[j].list == s.copies)
    && (forall i, j :: 0 <= i < j < |s.published| && s.published[i].iteration == s.published[j].iteration ==>
          s.published[i].list == s.published[j].list)
  }

  ghost predicate DataInv(bus: Bus, s: State, h: History) {
    && Base(bus, s, h) && CopiesInv(bus, s, h) && ReadInv(s)
    && LogInv(bus, s, h) && Ascending(h.cycles) && IterationInv(s)
  }

  function NextHistory(s: State, a: Action, h: History): History {
    match a
    case WriterUnlock => h.(last := |s.received|)
    case Callback => h.(cycles := h.cycles + [h.last])
    case Send => h.(cycles := h.cycles + [h.last])
    case _ => h
  }

  lemma BaseStep(bus: Bus, s: State, a: Action, h: History)
    requires Base(bus, s, h) && Enabled(bus, s, a)
    ensures Base(bus, Apply(bus, s, a), NextHistory(s, a, h))
  {
    InvStep(bus, s, a);
  }

  lemma CopiesStep(bus: Bus, s: State, a: Action, h: History)
    requires Base(bus, s, h) && CopiesInv(bus, s, h) && Enabled(bus, s, a)
    ensures Base(bus, Apply(bus, s, a), NextHistory(s, a, h))
    ensures CopiesInv(bus, Apply(bus, s, a), NextHistory(s, a, h))
  {
    BaseStep(bus, s, a, h);
    var t, h' := Apply(bus, s, a), NextHistory(s, a, h);
    forall i | 0 <= i < |bus.slots|
      ensures t.copies[i] == CycleData(bus, h'.first, t.received, ShownCycle(t, h', i), i)
    {
      SlaveStep(bus, s, a, h, i);
    }
  }

  lemma SlaveStep(bus: Bus, s: State, a: Action, h: History, i: nat)
    requires Base(bus, s, h) && Enabled(bus, s, a) && i < |bus.slots|
    requires s.copies[i] == CycleData(bus, h.first, s.received, ShownCycle(s, h, i), i)
    requires Base(bus, Apply(bus, s, a), NextHistory(s, a, h))
    ensures var t, h' := Apply(bus, s, a), NextHistory(s, a, h);
            t.copies[i] == CycleData(bus, h'.first, t.received, ShownCycle(t, h', i), i)
  {
    var t, h' := Apply(bus, s, a), NextHistory(s, a, h);
    if a.StartExchange? || a.WriterExchange? {
      DataStay(bus, h.first, s.received, a.image, h.last, i);
    } else if a.CopySlave? && i == s.writer.next {
      assert ShownCycle(t, h', i) == |s.received|;
    } else {
      SameCycle(bus, s, a, h, i);
    }
  }

  lemma SameCycle(bus: Bus, s: State, a: Action, h: History, i: nat)
    requires Inv(bus, s) && Enabled(bus, s, a) && i < |bus.slots|
    requires !a.StartExchange? && !a.WriterExchange? && !(a.CopySlave? && i == s.writer.next)
    ensures var t := Apply(bus, s, a);
            && t.received == s.received && |t.copies| == |s.copies| && t.copies[i] == s.copies[i]
            && ShownCycle(t, NextHistory(s, a, h), i) == ShownCycle(s, h, i)
            && NextHistory(s, a, h).first == h.first
  {
  }

  lemma ReadStep(bus: Bus, s: State, a: Action)
    requires Inv(bus, s) && ReadInv(s) && Enabled(bus, s, a)
    ensures ReadInv(Apply(bus, s, a))
  {
  }

  /** While the publisher holds the mutex the slaves show the last completed pass. */
  lemma HeldCopies(bus: Bus, s: State, h: History)
    requires Base(bus, s, h) && CopiesInv(bus, s, h) && PublisherHolds(s.publisher)
    ensures Shows(bus, h.first, s.received, h.last, s.copies)
  {
    forall i | 0 <= i < |bus.slots|
      ensures s.copies[i] == CycleData(bus, h.first, s.received, h.last, i)
    {
      assert ShownCycle(s, h, i) == h.last;
    }
  }

  lemma LogReceive(bus: Bus, s: State, t: State, image: seq<byte>, h: History)
    requires LogInv(bus, s, h) && |image| == bus.imageSize
    requires t.received == s.received + [image] && t.published == s.published
    ensures LogInv(bus, t, h)
  {
    forall j | 0 <= j < |h.cycles|
      ensures Shows(bus, h.first, t.received, h.cycles[j], t.published[j].list)
    {
      ShowsStays(bus, h.first, s.received, image, h.cycles[j], s.published[j].list);
    }
  }

  lemma LogAppend(bus: Bus, s: State, t: State, p: Publication, h: History)
    requires LogInv(bus, s, h) && Shows(bus, h.first, s.received, h.last, p.list)
    requires t.received == s.received && t.published == s.published + [p]
    ensures LogInv(bus, t, h.(cycles := h.cycles + [h.last]))
  {
    var cycles := h.cycles + [h.last];
    forall j | 0 <= j < |cycles|
      ensures cycles[j] <= h.last && Shows(bus, h.first, t.received, cycles[j], t.published[j].list)
    {
      if j < |h.cycles| {
        assert t.published[j] == s.published[j] && cycles[j] == h.cycles[j];
      } else {
        assert t.published[j] == p;
      }
    }
  }

  lemma AscendingAppend(cycles: seq<nat>, last: nat)
    requires Ascending(cycles) && forall j :: 0 <= j < |cycles| ==> cycles[j] <= last
    ensures Ascending(cycles + [last])
  {
  }

  lemma LogStep(bus: Bus, s: State, a: Action, h: History)
    requires Base(bus, s, h) && CopiesInv(bus, s, h) && ReadInv(s) && LogInv(bus, s, h) && Ascending(h.cycles)
    requires Enabled(bus, s, a)
    ensures LogInv(bus, Apply(bus, s, a), NextHistory(s, a, h)) && Ascending(NextHistory(s, a, h).cycles)
  {
    var t := Apply(bus, s, a);
    if a.StartExchange? || a.WriterExchange? {
      LogReceive(bus, s, t, a.image, h);
    } else if a.Callback? {
      HeldCopies(bus, s, h);
      LogAppend(bus, s, t, Publication(Ui, s.iteration, s.publisher.shown), h);
      AscendingAppend(h.cycles, h.last);
    } else if a.Send? {
      HeldCopies(bus, s, h);
      LogAppend(bus, s, t, Publication(Zmq, s.iteration, s.publisher.built), h);
      AscendingAppend(h.cycles, h.last);
    } else {
      LogKept(bus, s, t, h, NextHistory(s, a, h));
    }
  }

  lemma LogKept(bus: Bus, s: State, t: State, h: History, h': History)
    requires LogInv(bus, s, h) && t.received == s.received && t.published == s.published
    requires h'.first == h.first && h'.cycles == h.cycles && h.last <= h'.last
    ensures LogInv(bus, t, h')
  {
  }

  lemma IterationStep(bus: Bus, s: State, a: Action)
    requires Inv(bus, s) && ReadInv(s) && IterationInv(s) && Enabled(bus, s, a)
    ensures IterationInv(Apply(bus, s, a))
  {
    var t := Apply(bus, s, a);
    if a.Callback? {
      IterationAppend(s, t, Publication(Ui, s.iteration, s.publisher.shown));
    } else if a.Send? {
      IterationAppend(s, t, Publication(Zmq, s.iteration, s.publisher.built));
    } else {
      IterationKept(bus, s, a);
    }
  }

  lemma IterationAppend(s: State, t: State, p: Publication)
    requires IterationInv(s) && t.published == s.published + [p] && t.iteration == s.iteration && t.copies == s.copies
    requires p.iteration == s.iteration && p.list == s.copies
    requires t.publisher.PDecide? || t.publisher.PUnlock?
    ensures IterationInv(t)
  {
  }

  lemma IterationKept(bus: Bus, s: State, a: Action)
    requires Inv(bus, s) && IterationInv(s) && Enabled(bus, s, a) && !a.Callback? && !a.Send?
    ensures IterationInv(Apply(bus, s, a))
  {
    var t := Apply(bus, s, a);
    if a.CopySlave? || a.PublisherUnlock? {
      IterationWithoutLists(s, t);
    } else {
      IterationUntouched(s, t);
    }
  }

  lemma IterationUntouched(s: State, t: State)
    requires IterationInv(s) && t.published == s.published && t.iteration == s.iteration && t.copies == s.copies
    requires s.publisher.PDecide? || s.publisher.PZmq? || s.publisher.PUnlock? ==>
               t.publisher.PDecide? || t.publisher.PZmq? || t.publisher.PUnlock?
    ensures IterationInv(t)
  {
  }

  /** No list of the running iteration has been handed out, before the mutex is taken or after the counter advanced. */
  lemma IterationWithoutLists(s: State, t: State)
    requires IterationInv(s) && t.published == s.published
    requires t.iteration == s.iteration + 1
             || (t.iteration == s.iteration && !(s.publisher.PDecide? || s.publisher.PZmq? || s.publisher.PUnlock?))
    ensures IterationInv(t)
  {
  }

  lemma DataStep(bus: Bus, s: State, a: Action, h: History)
    requires DataInv(bus, s, h) && Enabled(bus, s, a)
    ensures DataInv(bus, Apply(bus, s, a), NextHistory(s, a, h))
  {
    CopiesStep(bus, s, a, h);
    ReadStep(bus, s, a);
    LogStep(bus, s, a, h);
    IterationStep(bus, s, a);
  }

  /**
   Along a run: the newest cycle whose copy pass was completed, and for each list
   handed out the newest such cycle at that moment.
   */
  ghost function HistoryAt(states: seq<State>, acts: seq<Action>, n: nat): History
    requires n <= |acts| && |states| == |acts| + 1
  {
    if n == 0 then History(states[0].copies, 0, [])
    else NextHistory(states[n - 1], acts[n - 1], HistoryAt(states, acts, n - 1))
  }

  lemma DataStart(bus: Bus, s: State)
    requires ValidBus(bus) && Initial(bus, s)
    ensures DataInv(bus, s, History(s.copies, 0, []))
  {
  }

  lemma {:induction false} DataRun(bus: Bus, states: seq<State>, acts: seq<Action>, n: nat)
    requires ValidBus(bus) && IsRun(bus, states, acts) && n <= |acts|
    ensures HistoryAt(states, acts, n).first == states[0].copies
    ensures DataInv(bus, states[n], HistoryAt(states, acts, n))
  {
    if n == 0 {
      DataStart(bus, states[0]);
    } else {
      var s, a, h := states[n - 1], acts[n - 1], HistoryAt(states, acts, n - 1);
      DataRun(bus, states, acts, n - 1);
      DataStep(bus, s, a, h);
      assert states[n - 1 + 1] == Apply(bus, s, a);
      assert HistoryAt(states, acts, n) == NextHistory(s, a, h);
    }
  }

  /** Every list handed out is the decoding of one cycle: `cycles[j]` for list j. */
  ghost predicate ShowsCycles(bus: Bus, first: seq<Contents>, s: State, cycles: seq<nat>) {
    && |cycles| == |s.published|
    && forall j :: 0 <= j < |cycles| ==> Shows(bus, first, s.received, cycles[j], s.published[j].list)
  }

  /**
   In every interleaving, every list that the publisher hands out shows all slaves
   from one and the same receive cycle (or all initial), namely the newest one
   completely copied by then; the cycles never go backwards; and the callback and
   the message of one iteration show the same list.
   */
  lemma {:induction false} PublishedSnapshots(bus: Bus, states: seq<State>, acts: seq<Action>)
    requires ValidBus(bus) && IsRun(bus, states, acts)
    ensures var s, cycles := states[|acts|], HistoryAt(states, acts, |acts|).cycles;
            && ShowsCycles(bus, states[0].copies, s, cycles) && Ascending(cycles)
            && forall i, j :: 0 <= i < j < |s.published| && s.published[i].iteration == s.published[j].iteration ==>
                 s.published[i].list == s.published[j].list
  {
    DataRun(bus, states, acts, |acts|);
  }

  /** While the publisher reads, all slaves show the newest cycle that was completely copied. */
  lemma {:induction false} LockedCopiesAreWhole(bus: Bus, states: seq<State>, acts: seq<Action>)
    requires ValidBus(bus) && IsRun(bus, states, acts) && PublisherHolds(states[|acts|].publisher)
    ensures var s := states[|acts|];
            Shows(bus, states[0].copies, s.received, HistoryAt(states, acts, |acts|).last, s.copies)
  {
    DataRun(bus, states, acts, |acts|);
    HeldCopies(bus, states[|acts|], HistoryAt(states, acts, |acts|));
  }

  /** The receive cycle that list j shows; 0 for the initial contents. */
  ghost function CycleOf(states: seq<State>, acts: seq<Action>, j: nat): nat
    requires |states| == |acts| + 1
  {
    var cycles := HistoryAt(states, acts, |acts|).cycles;
    if j < |cycles| then cycles[j] else 0
  }

  lemma ListShowsItsCycle(bus: Bus, states: seq<State>, acts: seq<Action>, j: nat)
    requires ValidBus(bus) && IsRun(bus, states, acts) && j < |states[|acts|].published|
    requires CycleOf(states, acts, j) > 0
    ensures var s, c := states[|acts|], CycleOf(states, acts, j);
            && c <= |s.received| && SlotsInside(bus.slots, s.received[c - 1])
            && s.published[j].list == ReadAll(bus.slots, s.received[c - 1])
  {
    PublishedSnapshots(bus, states, acts);
    var s, c := states[|acts|], CycleOf(states, acts, j);
    assert Shows(bus, states[0].copies, s.received, c, s.published[j].list);
  }
}
