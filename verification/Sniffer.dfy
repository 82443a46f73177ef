/**
 The packet sniffer: which frames it decodes, what a decoded frame leaves in
 the slaves, and what a whole capture leaves.
 */
module Sniffer {
  import opened PackedCodec
  import opened SlaveData
  import opened Slaves

  const ETHERNET_HEADER := 14
  const RETURNING_SOURCE: seq<byte> := [3, 1, 1, 1, 1, 1]
  const LRW := 12

  // `ec_comt`: frame length, command, index, ADP, ADO, datagram length, interrupt
  const DATAGRAM_HEADER: seq<nat> := [2, 1, 1, 2, 2, 2, 2]
  const IMAGE_START := 26

  type Frame = f: seq<byte> | |f| >= ETHERNET_HEADER witness seq(14, i => 0)

  predicate Returning(f: Frame) {
    f[6..12] == RETURNING_SOURCE
  }

  function Command(f: Frame): nat
    requires |f| >= IMAGE_START
  {
    f[16]
  }

  /** The low twelve bits of the length field; the upper four are flags. */
  function DatagramLength(f: Frame): (n: nat)
    requires |f| >= IMAGE_START
    ensures n < 4096
  {
    FromBytes(f[22..24]) % 4096
  }

  /** Command and length are fields 1 and 5 of the packed datagram header that follows the Ethernet header. */
  lemma HeaderFields(f: Frame)
    requires |f| >= IMAGE_START
    ensures ETHERNET_HEADER + Size(DATAGRAM_HEADER) == IMAGE_START
    ensures var fields := Unpack(DATAGRAM_HEADER, f[ETHERNET_HEADER..IMAGE_START]);
            Command(f) == fields[1] && DatagramLength(f) == fields[5] % 4096
  {
    var header := f[ETHERNET_HEADER..IMAGE_START];
    assert Size(DATAGRAM_HEADER) == 12;
    assert DATAGRAM_HEADER[..1] == [2] && DATAGRAM_HEADER[..5] == [2, 1, 1, 2, 2];
    UnpackAt(DATAGRAM_HEADER, header, 1);
    UnpackAt(DATAGRAM_HEADER, header, 5);
    CommandAndLengthBytes(f, header);
  }

  lemma CommandAndLengthBytes(f: Frame, header: seq<byte>)
    requires |f| >= IMAGE_START && header == f[ETHERNET_HEADER..IMAGE_START]
    ensures FromBytes(header[2..][..1]) == f[16]
    ensures FromBytes(header[8..][..2]) == FromBytes(f[22..24])
  {
    assert header[2..][..1] == [f[16]];
    assert header[8..][..2] == f[22..24];
  }

  function ProcessImage(f: Frame): seq<byte>
    requires |f| >= IMAGE_START
  {
    f[IMAGE_START..]
  }

  function WorkingCounter(f: Frame): nat
    requires |f| >= IMAGE_START && IMAGE_START + DatagramLength(f) + 2 <= |f|
  {
    FromBytes(f[IMAGE_START + DatagramLength(f)..][..2])
  }

  predicate Accepted(f: Frame)
    requires Returning(f) ==> |f| >= IMAGE_START
  {
    Returning(f) && Command(f) == LRW
  }

  /** Every byte the callback reads exists. */
  ghost predicate Readable(slots: seq<Slot>, f: Frame) {
    && (Returning(f) ==> |f| >= IMAGE_START)
    && (Accepted(f) ==>
          && IMAGE_START + DatagramLength(f) + 2 <= |f|
          && SlotsInside(slots, ProcessImage(f)))
  }

  ghost predicate AllReadable(slots: seq<Slot>, frames: seq<Frame>) {
    forall i :: 0 <= i < |frames| ==> Readable(slots, frames[i])
  }

  /** A frame from any source around a datagram with the given header fields, process image and working counter. */
  function FrameFrom(source: seq<byte>, destination: seq<byte>, etherType: seq<byte>, fields: seq<nat>,
                     image: seq<byte>, counter: nat, trailer: seq<byte>): Frame
    requires |source| == |destination| == 6 && |etherType| == 2 && Fits(DATAGRAM_HEADER, fields)
  {
    destination + source + etherType + Pack(DATAGRAM_HEADER, fields) + image + ToBytes(counter, 2) + trailer
  }

  /** A returning frame. */
  function FrameAround(destination: seq<byte>, etherType: seq<byte>, fields: seq<nat>, image: seq<byte>,
                       counter: nat, trailer: seq<byte>): Frame
    requires |destination| == 6 && |etherType| == 2 && Fits(DATAGRAM_HEADER, fields)
  {
    FrameFrom([3, 1, 1, 1, 1, 1], destination, etherType, fields, image, counter, trailer)
  }

  /** A frame is accepted exactly if it comes from 03:01:01:01:01:01 and its command is 12. */
  lemma AcceptedIff(source: seq<byte>, destination: seq<byte>, etherType: seq<byte>, fields: seq<nat>,
                    image: seq<byte>, counter: nat, trailer: seq<byte>)
    requires |source| == |destination| == 6 && |etherType| == 2 && Fits(DATAGRAM_HEADER, fields)
    ensures var f := FrameFrom(source, destination, etherType, fields, image, counter, trailer);
            |f| >= IMAGE_START && (Accepted(f) <==> source == [3, 1, 1, 1, 1, 1] && fields[1] == 12)
  {
    var f := FrameFrom(source, destination, etherType, fields, image, counter, trailer);
    var header, body := Pack(DATAGRAM_HEADER, fields), image + ToBytes(counter, 2) + trailer;
    HeaderLength(fields);
    assert f == destination + source + etherType + header + body;
    Slices(destination, source, etherType, header, body);
    HeaderFields(f);
    UnpackPack(DATAGRAM_HEADER, fields);
  }

  /** Whatever else it holds, a frame from another source is read no further and changes nothing. */
  lemma OtherSourcesChangeNothing(slots: seq<Slot>, o: Output, f: Frame)
    requires f[6..12] != [3, 1, 1, 1, 1, 1]
    ensures Readable(slots, f) && AfterFrame(slots, o, f) == o
  {
  }

  /** Nor does a returning frame with another command. */
  lemma OtherCommandsChangeNothing(slots: seq<Slot>, o: Output, f: Frame)
    requires |f| >= IMAGE_START && f[16] != 12
    ensures Readable(slots, f) && AfterFrame(slots, o, f) == o
  {
  }

  /** A well-formed frame is taken apart into what it was built from. */
  lemma FrameParts(destination: seq<byte>, etherType: seq<byte>, fields: seq<nat>, image: seq<byte>,
                   counter: nat, trailer: seq<byte>)
    requires |destination| == 6 && |etherType| == 2 && Fits(DATAGRAM_HEADER, fields)
    requires fields[5] % 4096 == |image| && counter < 65536
    ensures var f := FrameAround(destination, etherType, fields, image, counter, trailer);
            && Returning(f) && |f| >= IMAGE_START && (Accepted(f) <==> fields[1] == LRW)
            && DatagramLength(f) == |image| <= |ProcessImage(f)| - 2
            && ProcessImage(f)[..|image|] == image
            && WorkingCounter(f) == counter
  {
    var f := FrameAround(destination, etherType, fields, image, counter, trailer);
    var header, body := Pack(DATAGRAM_HEADER, fields), image + ToBytes(counter, 2) + trailer;
    HeaderLength(fields);
    assert f == destination + RETURNING_SOURCE + etherType + header + body;
    Slices(destination, RETURNING_SOURCE, etherType, header, body);
    HeaderFields(f);
    UnpackPack(DATAGRAM_HEADER, fields);
    CounterBytes(f, image, counter, trailer);
  }

  lemma {:induction false} HeaderLength(fields: seq<nat>)
    requires Fits(DATAGRAM_HEADER, fields)
    ensures |Pack(DATAGRAM_HEADER, fields)| == Size(DATAGRAM_HEADER) == 12
  {
  }

  lemma {:induction false} CounterBytes(f: Frame, image: seq<byte>, counter: nat, trailer: seq<byte>)
    requires |f| >= IMAGE_START && f[IMAGE_START..] == image + ToBytes(counter, 2) + trailer && counter < 65536
    ensures f[IMAGE_START..][..|image|] == image
    ensures FromBytes(f[IMAGE_START + |image|..][..2]) == counter
  {
    var body := image + ToBytes(counter, 2) + trailer;
    assert f[IMAGE_START + |image|..] == body[|image|..];
    assert body[|image|..][..2] == ToBytes(counter, 2);
    assert Pow256(2) == 65536;
    FromToBytes(counter, 2);
  }

  lemma Slices(a: seq<byte>, b: seq<byte>, c: seq<byte>, d: seq<byte>, e: seq<byte>)
    requires |a| == 6 && |b| == 6 && |c| == 2 && |d| == 12
    ensures var f := a + b + c + d + e; f[6..12] == b && f[14..26] == d && f[26..] == e
  {
  }

  /** The frames of a capture that pass both filters, in order. */
  ghost function AcceptedFrames(slots: seq<Slot>, frames: seq<Frame>): (fs: seq<Frame>)
    requires AllReadable(slots, frames)
    ensures AllReadable(slots, fs)
    ensures forall i :: 0 <= i < |fs| ==> Accepted(fs[i])
  {
    if frames == [] then []
    else
      var last := frames[|frames| - 1];
      AcceptedFrames(slots, frames[..|frames| - 1]) + (if Accepted(last) then [last] else [])
  }

  ghost function Decodings(slots: seq<Slot>, fs: seq<Frame>): (ds: seq<seq<Contents>>)
    requires AllReadable(slots, fs) && forall i :: 0 <= i < |fs| ==> Accepted(fs[i])
    ensures |ds| == |fs|
  {
    seq(|fs|, i requires 0 <= i < |fs| => ReadAll(slots, ProcessImage(fs[i])))
  }

  datatype Mismatch = Mismatch(counter: nat, expected: nat)

  /** Everything the sniffer has produced: slave contents, lists given to the UI, working counter messages. */
  datatype Output = Output(data: seq<Contents>, handedOut: seq<seq<Contents>>, printed: seq<Mismatch>)

  /** A wrong working counter is printed and otherwise ignored. */
  ghost function AfterFrame(slots: seq<Slot>, o: Output, f: Frame): Output
    requires Readable(slots, f)
  {
    if !Accepted(f) then o
    else
      var data := ReadAll(slots, ProcessImage(f));
      Output(data, o.handedOut + [data], o.printed + Complaint(f, |slots|))
  }

  ghost function Complaint(f: Frame, slaveCount: nat): seq<Mismatch>
    requires |f| >= IMAGE_START && IMAGE_START + DatagramLength(f) + 2 <= |f|
  {
    if WorkingCounter(f) == 3 * slaveCount then [] else [Mismatch(WorkingCounter(f), 3 * slaveCount)]
  }

  ghost function AfterFrames(slots: seq<Slot>, o: Output, frames: seq<Frame>): Output
    requires AllReadable(slots, frames)
  {
    if frames == [] then o
    else AfterFrame(slots, AfterFrames(slots, o, frames[..|frames| - 1]), frames[|frames| - 1])
  }

  class PacketSniffer {
    var slaves: seq<EthercatSlave>
    var zmqEnabled: bool
    var handedOut: seq<seq<Contents>>
    var messages: seq<seq<Contents>>  // lists sent over ZMQ
    var printed: seq<Mismatch>

    ghost predicate Valid()
      reads this
    {
      Distinct(slaves)
    }

    ghost function Out(): Output
      reads this, slaves
    {
      Output(DataOf(slaves), handedOut, printed)
    }

    constructor (slaves: seq<EthercatSlave>, zmqEnabled: bool)
      requires Distinct(slaves)
      ensures Valid() && this.slaves == slaves && this.zmqEnabled == zmqEnabled
      ensures Out() == Output(DataOf(slaves), [], []) && messages == []
    {
      this.slaves := slaves;
      this.zmqEnabled := zmqEnabled;
      handedOut, messages, printed := [], [], [];
    }

    method CopySlave(slave: EthercatSlave, f: Frame)
      requires |f| >= IMAGE_START && SlotInside(SlotOf(slave), ProcessImage(f))
      modifies slave
      ensures slave.data == ReadSlot(SlotOf(slave), ProcessImage(f))
    {
      var rxData := f[IMAGE_START + slave.info.rxStart..];
      var txData := f[IMAGE_START + slave.info.txStart..];
      CopiesItsWindow(slave, f);
      slave.CopyData(rxData, txData);
    }

    /** The copy loop: every slave's structs from its windows of the frame. */
    method CopySlaves(f: Frame)
      requires Valid() && |f| >= IMAGE_START && SlotsInside(SlotsOf(slaves), ProcessImage(f))
      modifies slaves
      ensures DataOf(slaves) == ReadAll(SlotsOf(slaves), ProcessImage(f))
    {
      var i := 0;
      ghost var slots := SlotsOf(slaves);
      while i < |slaves|
        invariant 0 <= i <= |slaves|
        invariant forall j :: 0 <= j < i ==> slaves[j].data == ReadSlot(slots[j], ProcessImage(f))
      {
        assert slots[i] == SlotOf(slaves[i]) && SlotInside(slots[i], ProcessImage(f));
        CopySlave(slaves[i], f);
        i := i + 1;
      }
    }

    /** The UI callback, and the ZMQ message when publishing is enabled, with the current contents. */
    method HandOut()
      modifies this`handedOut, this`messages
      ensures handedOut == old(handedOut) + [DataOf(slaves)]
      ensures messages == old(messages) + (if zmqEnabled then [DataOf(slaves)] else [])
    {
      handedOut := handedOut + [DataOf(slaves)];
      if zmqEnabled {
        messages := messages + [DataOf(slaves)];
      }
    }

    method CheckCounter(f: Frame)
      requires |f| >= IMAGE_START && IMAGE_START + DatagramLength(f) + 2 <= |f|
      modifies this`printed
      ensures printed == old(printed) + Complaint(f, |slaves|)
    {
      var expected := |slaves| * 3;
      var counter := WorkingCounter(f);
      if expected != counter {
        printed := printed + [Mismatch(counter, expected)];
      }
    }

    /** One captured frame. */
    method PacketCallback(f: Frame) returns (keepSniffing: bool)
      requires Valid() && Readable(SlotsOf(slaves), f)
      modifies this`handedOut, this`messages, this`printed, slaves
      ensures keepSniffing && Valid()
      ensures Out() == AfterFrame(SlotsOf(slaves), old(Out()), f)
      ensures Mirrored(old(handedOut), handedOut, old(messages), messages, zmqEnabled)
    {
      if !Returning(f) {
        return true;
      }
      if Command(f) != LRW {
        return true;
      }
      ghost var data := ReadAll(SlotsOf(slaves), ProcessImage(f));
      CheckCounter(f);
      CopySlaves(f);
      HandOut();
      assert Out() == Output(data, old(handedOut) + [data], old(printed) + Complaint(f, |slaves|));
      return true;
    }

    /** The first n frames of a capture have been handled, from output `first` and messages `sent` on. */
    ghost predicate Handled(slots: seq<Slot>, first: Output, frames: seq<Frame>, n: int, sent: seq<seq<Contents>>)
      reads this, slaves
    {
      && Valid() && slots == SlotsOf(slaves) && AllReadable(slots, frames) && 0 <= n <= |frames|
      && Out() == AfterFrames(slots, first, frames[..n])
      && Mirrored(first.handedOut, handedOut, sent, messages, zmqEnabled)
    }

    method SniffOne(frames: seq<Frame>, i: nat, ghost slots: seq<Slot>, ghost first: Output,
                    ghost sent: seq<seq<Contents>>)
      returns (more: bool)
      requires i < |frames| && Handled(slots, first, frames, i, sent)
      modifies this`handedOut, this`messages, this`printed, slaves
      ensures more && Handled(slots, first, frames, i + 1, sent)
    {
      ghost var listsBefore, sentBefore := handedOut, messages;
      more := PacketCallback(frames[i]);
      assert frames[..i + 1][..i] == frames[..i];
      MirroredSteps(first.handedOut, listsBefore, handedOut, sent, sentBefore, messages, zmqEnabled);
    }

    /** The capture loop: the callback on every frame until it returns false. */
    method Sniff(frames: seq<Frame>)
      requires Valid() && AllReadable(SlotsOf(slaves), frames)
      modifies this`handedOut, this`messages, this`printed, slaves
      ensures Valid()
      ensures Out() == AfterFrames(SlotsOf(slaves), old(Out()), frames)
      ensures Mirrored(old(handedOut), handedOut, old(messages), messages, zmqEnabled)
    {
      var i, more := 0, true;
      ghost var slots, first, sent := SlotsOf(slaves), Out(), messages;
      while i < |frames| && more
        invariant more && Handled(slots, first, frames, i, sent)
      {
        more := SniffOne(frames, i, slots, first, sent);
        i := i + 1;
      }
      assert frames[..i] == frames;
    }
  }

  /** The lists handed out in between were also sent, in the same order, when publishing is enabled. */
  ghost predicate Mirrored<T>(lists: seq<T>, lists': seq<T>, sent: seq<T>, sent': seq<T>, enabled: bool) {
    && lists <= lists'
    && sent' == sent + (if enabled then lists'[|lists|..] else [])
  }

  lemma MirroredSteps<T>(a: seq<T>, b: seq<T>, c: seq<T>, a': seq<T>, b': seq<T>, c': seq<T>, enabled: bool)
    requires Mirrored(a, b, a', b', enabled) && Mirrored(b, c, b', c', enabled)
    ensures Mirrored(a, c, a', c', enabled)
  {
    assert c[|a|..] == b[|a|..] + c[|b|..];
  }

  /**
   After any capture the slaves hold the decoding of the last accepted frame
   (what they held before, if there is none), and the UI was called once per
   accepted frame, with that frame's decoding.
   */
  lemma {:induction false} CaptureOutcome(slots: seq<Slot>, o: Output, frames: seq<Frame>)
    requires AllReadable(slots, frames)
    ensures var accepted, result := AcceptedFrames(slots, frames), AfterFrames(slots, o, frames);
            && result.handedOut == o.handedOut + Decodings(slots, accepted)
            && result.data == if accepted == [] then o.data
                              else ReadAll(slots, ProcessImage(accepted[|accepted| - 1]))
    decreases |frames|
  {
    if frames != [] {
      var before, f := frames[..|frames| - 1], frames[|frames| - 1];
      CaptureOutcome(slots, o, before);
      var accepted, result := AcceptedFrames(slots, before), AfterFrames(slots, o, before);
      assert AfterFrames(slots, o, frames) == AfterFrame(slots, result, f);
      if Accepted(f) {
        assert AcceptedFrames(slots, frames) == accepted + [f];
        DecodingsAppend(slots, accepted, f);
        AppendAssociates(o.handedOut, Decodings(slots, accepted), ReadAll(slots, ProcessImage(f)));
      } else {
        assert AcceptedFrames(slots, frames) == accepted;
      }
    }
  }

  lemma AppendAssociates<T>(a: seq<T>, b: seq<T>, x: T)
    ensures (a + b) + [x] == a + (b + [x])
  {
  }

  lemma DecodingsAppend(slots: seq<Slot>, fs: seq<Frame>, f: Frame)
    requires AllReadable(slots, fs) && forall i :: 0 <= i < |fs| ==> Accepted(fs[i])
    requires Readable(slots, f) && Accepted(f)
    ensures AllReadable(slots, fs + [f])
    ensures Decodings(slots, fs + [f]) == Decodings(slots, fs) + [ReadAll(slots, ProcessImage(f))]
  {
  }

  /** The two pointers handed to `copyData` are the start of the slave's windows in the process image. */
  lemma CopiesItsWindow(slave: EthercatSlave, f: Frame)
    requires |f| >= IMAGE_START && SlotInside(SlotOf(slave), ProcessImage(f))
    ensures var rx, tx := f[IMAGE_START + slave.info.rxStart..], f[IMAGE_START + slave.info.txStart..];
            && Size(slave.shape.rx) <= |rx| && Size(slave.shape.tx) <= |tx|
            && ReadSlot(SlotOf(slave), ProcessImage(f))
               == Contents(Unpack(slave.shape.rx, rx[..Size(slave.shape.rx)]),
                           Unpack(slave.shape.tx, tx[..Size(slave.shape.tx)]))
  {
    var rx, tx := f[IMAGE_START + slave.info.rxStart..], f[IMAGE_START + slave.info.txStart..];
    assert Window(ProcessImage(f), slave.info.rxStart, Size(slave.shape.rx)) == rx[..Size(slave.shape.rx)];
    assert Window(ProcessImage(f), slave.info.txStart, Size(slave.shape.tx)) == tx[..Size(slave.shape.tx)];
  }

  /** A frame is accepted and decoded the same whatever its working counter says. */
  lemma CounterDoesNotMatter(slots: seq<Slot>, f: Frame, g: Frame)
    requires Readable(slots, f) && Accepted(f)
    requires SlotsInside(slots, ProcessImage(f)[..DatagramLength(f)])
    requires |g| == |f| && g[..IMAGE_START + DatagramLength(f)] == f[..IMAGE_START + DatagramLength(f)]
    ensures Readable(slots, g) && Accepted(g)
    ensures ReadAll(slots, ProcessImage(g)) == ReadAll(slots, ProcessImage(f))
  {
    var n := DatagramLength(f);
    var end := IMAGE_START + n;
    assert f[6..12] == f[..end][6..12] && g[6..12] == g[..end][6..12];
    assert f[16] == f[..end][16] && g[16] == g[..end][16];
    assert f[22..24] == f[..end][22..24] && g[22..24] == g[..end][22..24];
    assert ProcessImage(f)[..n] == f[..end][IMAGE_START..] == ProcessImage(g)[..n];
    forall i | 0 <= i < |slots|
      ensures SlotInside(slots[i], ProcessImage(g))
      ensures ReadSlot(slots[i], ProcessImage(g)) == ReadSlot(slots[i], ProcessImage(f))
    {
      CommonPrefixReadsTheSame(slots[i], ProcessImage(f), ProcessImage(g), n);
    }
  }

  /** A rejected frame can be cut out of a capture anywhere. */
  lemma {:induction false} RejectedFramesChangeNothing(slots: seq<Slot>, o: Output, a: seq<Frame>, f: Frame,
                                                       b: seq<Frame>)
    requires AllReadable(slots, a + b) && Readable(slots, f) && !Accepted(f)
    ensures AllReadable(slots, a + [f] + b)
    ensures AfterFrames(slots, o, a + [f] + b) == AfterFrames(slots, o, a + b)
    decreases |b|
  {
    assert forall i :: 0 <= i < |a| ==> a[i] == (a + b)[i];
    assert forall i :: 0 <= i < |b| ==> b[i] == (a + b)[|a| + i];
    if b == [] {
      assert (a + [f])[..|a|] == a && a + [f] + b == a + [f] && a + b == a;
    } else {
      var b', last := b[..|b| - 1], b[|b| - 1];
      assert (a + b)[..|a + b| - 1] == a + b' && (a + b)[|a + b| - 1] == last;
      var all := a + [f] + b;
      assert all[..|all| - 1] == a + [f] + b' && all[|all| - 1] == last;
      RejectedFramesChangeNothing(slots, o, a, f, b');
    }
  }

  // Working counter -----------------------------------------------------------

  /** What one slave did with a logical read/write datagram: a read adds 1, a write adds 2. */
  datatype Service = Service(read: bool, wrote: bool) {
    function Count(): nat {
      (if read then 1 else 0) + (if wrote then 2 else 0)
    }
  }

  function Counted(services: seq<Service>): nat {
    if services == [] then 0 else Counted(services[1..]) + services[0].Count()
  }

  lemma {:induction false} CountedBound(services: seq<Service>)
    ensures Counted(services) <= 3 * |services|
    ensures Counted(services) == 3 * |services|
       <==> forall i :: 0 <= i < |services| ==> services[i].read && services[i].wrote
  {
    if services != [] {
      CountedBound(services[1..]);
      assert services == [services[0]] + services[1..];
    }
  }

  /**
   With a counter that only the listed slaves touch, silence means that every
   slave read and wrote, as long as 3n fits the 16-bit counter; beyond that the
   message is always printed.
   */
  lemma {:induction false} SilentIffAllServed(f: Frame, services: seq<Service>)
    requires |f| >= IMAGE_START && IMAGE_START + DatagramLength(f) + 2 <= |f|
    requires WorkingCounter(f) == Counted(services) % 65536
    ensures Complaint(f, |services|) == []
       <==> && 3 * |services| < 65536
            && forall i :: 0 <= i < |services| ==> services[i].read && services[i].wrote
  {
    CountedBound(services);
    assert WorkingCounter(f) < Pow256(2) == 65536;
  }

  /** A frame around an image that holds all windows, with any working counter. */
  ghost predicate CarriesCounter(f: Frame, image: seq<byte>, counter: nat) {
    |image| < 4096 && Fits(DATAGRAM_HEADER, LrwHeader(|image|))
    && f == FrameAround(BROADCAST, ETHERCAT_TYPE, LrwHeader(|image|), image, counter, [])
  }

  lemma ImageFrame(image: seq<byte>, counter: nat) returns (f: Frame)
    requires |image| < 4096
    ensures CarriesCounter(f, image, counter)
  {
    LrwHeaderFits(|image|);
    f := FrameAround(BROADCAST, ETHERCAT_TYPE, LrwHeader(|image|), image, counter, []);
  }

  lemma ImageFrameIsReadable(slots: seq<Slot>, f: Frame, image: seq<byte>, counter: nat)
    requires CarriesCounter(f, image, counter) && counter < 65536 && SlotsInside(slots, image)
    ensures Readable(slots, f) && Accepted(f) && WorkingCounter(f) == counter
  {
    FrameParts(BROADCAST, ETHERCAT_TYPE, LrwHeader(|image|), image, counter, []);
    InsideLonger(slots, image, ProcessImage(f));
  }

  /**
   21846 slaves that all read and wrote count to 65538, which is 2 in 16 bits: the
   frame is decoded and the message printed, whatever the image and the windows.
   */
  lemma {:induction false} WrappedCounterIsPrinted(slots: seq<Slot>, f: Frame, image: seq<byte>,
                                                   services: seq<Service>, o: Output)
    requires |slots| == |services| == 21846 && SlotsInside(slots, image) && CarriesCounter(f, image, 2)
    requires forall i :: 0 <= i < |services| ==> services[i].read && services[i].wrote
    ensures Readable(slots, f) && Accepted(f) && WorkingCounter(f) == Counted(services) % 65536
    ensures AfterFrame(slots, o, f).printed == o.printed + [Mismatch(2, 65538)]
  {
    CountedBound(services);
    ImageFrameIsReadable(slots, f, image, 2);
  }

  const BROADCAST: seq<byte> := [0xFF, 0xFF, 0xFF, 0xFF, 0xFF, 0xFF]
  const ETHERCAT_TYPE: seq<byte> := [0x88, 0xA4]

  function LrwHeader(length: nat): seq<nat> {
    [0, LRW, 0, 0, 0, length, 0]
  }

  lemma LrwHeaderFits(length: nat)
    requires length < 4096
    ensures Fits(DATAGRAM_HEADER, LrwHeader(length))
  {
    assert Pow256(1) == 256 && Pow256(2) == 65536;
  }

  lemma InsideLonger(slots: seq<Slot>, image: seq<byte>, longer: seq<byte>)
    requires SlotsInside(slots, image) && |image| <= |longer|
    ensures SlotsInside(slots, longer)
  {
  }

  /** For instance 21846 slaves that all show one drive's windows. */
  lemma {:induction false} ManyDrives(services: seq<Service>, o: Output) returns (slots: seq<Slot>, f: Frame)
    requires |services| == 21846 && forall i :: 0 <= i < |services| ==> services[i].read && services[i].wrote
    ensures |slots| == 21846 && forall i :: 0 <= i < |slots| ==> slots[i] == Slot(ShapeOf(KeloDrive), 0, 36)
    ensures Readable(slots, f) && AfterFrame(slots, o, f).printed == o.printed + [Mismatch(2, 65538)]
  {
    slots := seq(21846, i => Slot(ShapeOf(KeloDrive), 0, 36));
    var image: seq<byte> := seq(208, i => 0);
    DriveSizes();
    assert SlotsInside(slots, image);
    f := ImageFrame(image, 2);
    WrappedCounterIsPrinted(slots, f, image, services, o);
  }
}
