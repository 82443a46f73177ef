/**
 The live master and the sniffer decode the same process image to the same
 slave contents.
 */
module TwoSources {
  import opened PackedCodec
  import opened SlaveData
  import opened Slaves
  import opened PdoMapping
  import opened SyncManagers
  import opened Discovery
  import Sniffer

  /** The sniffer's windows, from the configuration it read. */
  function SnifferSlots(infos: seq<SlaveInfo>): (slots: seq<Slot>)
    ensures |slots| == |infos|
  {
    if infos == [] then []
    else
      var last := infos[|infos| - 1];
      SnifferSlots(infos[..|infos| - 1]) + [Slot(ShapeOf(last.id.slaveType), last.rxStart, last.txStart)]
  }

  lemma {:induction false} SnifferSlotsAt(infos: seq<SlaveInfo>, i: nat)
    requires i < |infos|
    ensures SnifferSlots(infos)[i] == Slot(ShapeOf(infos[i].id.slaveType), infos[i].rxStart, infos[i].txStart)
    decreases |infos|
  {
    if i < |infos| - 1 {
      SnifferSlotsAt(infos[..|infos| - 1], i);
    }
  }

  /** The bus library's slave table: the two pointers of a slave number, as offsets into the process image. */
  datatype Pointers = Pointers(outputs: int -> int, inputs: int -> int)

  function BusPointers(bus: seq<BusSlave>): Pointers {
    Pointers(number => if 1 <= number <= |bus| then bus[number - 1].outputs else 0,
             number => if 1 <= number <= |bus| then bus[number - 1].inputs else 0)
  }

  function SlotFor(id: Identity, p: Pointers): Slot {
    Slot(ShapeOf(id.slaveType), p.outputs(id.number), p.inputs(id.number))
  }

  function LookUp(ids: seq<Identity>, p: Pointers): (slots: seq<Slot>)
    ensures |slots| == |ids|
    ensures forall i :: 0 <= i < |ids| ==> slots[i] == SlotFor(ids[i], p)
  {
    seq(|ids|, i requires 0 <= i < |ids| => SlotFor(ids[i], p))
  }

  /** The master's windows: for every slave it built, the table entry of that slave's number. */
  function MasterSlots(bus: seq<BusSlave>): seq<Slot> {
    LookUp(MasterSlaves(bus, |bus|), BusPointers(bus))
  }

  function PointerSlot(s: BusSlave): Slot
    requires GetSlaveType(s.name).Some?
  {
    Slot(ShapeOf(GetSlaveType(s.name).value), s.outputs, s.inputs)
  }

  /** The pointers of the drives and batteries among the first n slaves of the bus. */
  function OwnSlots(bus: seq<BusSlave>, n: nat): seq<Slot>
    requires n <= |bus|
  {
    if n == 0 then []
    else OwnSlots(bus, n - 1) + (if Built(bus[n - 1].name) then [PointerSlot(bus[n - 1])] else [])
  }

  /** The numbers given at discovery lead every slave back to its own pointers. */
  lemma {:induction false} LookUpFindsOwnPointers(bus: seq<BusSlave>, n: nat)
    requires n <= |bus|
    ensures LookUp(MasterSlaves(bus, n), BusPointers(bus)) == OwnSlots(bus, n)
  {
    if n != 0 {
      LookUpFindsOwnPointers(bus, n - 1);
      if Built(bus[n - 1].name) {
        LookUpAppend(MasterSlaves(bus, n - 1), IdentityFor(bus[n - 1], n), BusPointers(bus));
      }
    }
  }

  lemma LookUpAppend(ids: seq<Identity>, id: Identity, p: Pointers)
    ensures LookUp(ids + [id], p) == LookUp(ids, p) + [SlotFor(id, p)]
  {
  }

  // When a computed offset is the pointer ----------------------------------------------

  /**
   The last sync manager that starts a PDO has fewer than eight bits before it, or
   none starts one and the uninitialized offset happens to be right.
   */
  ghost predicate FindsPointer(od: Dictionary, direction: u8, base: int, initial: int) {
    || (exists sm :: LastStarting(od, direction, LastSm(od) + 1, sm) && DirectionBits(od, direction, sm) < 8)
    || (initial == base && forall sm :: 2 <= sm <= LastSm(od) ==> !Starts(od, direction, sm))
  }

  lemma FindsPointerIff(od: Dictionary, direction: u8, base: int, initial: int)
    ensures Offset(od, direction, base, initial) == base <==> FindsPointer(od, direction, base, initial)
  {
    var n := LastSm(od) + 1;
    OffsetIsPointer(od, direction, base, initial, n);
    if sm :| 2 <= sm < n && Starts(od, direction, sm) {
      SomeStartsLast(od, direction, n, sm);
    }
  }

  lemma {:induction false} SomeStartsLast(od: Dictionary, direction: u8, n: nat, sm: nat)
    requires 2 <= sm < n && Starts(od, direction, sm)
    ensures exists last :: LastStarting(od, direction, n, last)
  {
    if Starts(od, direction, n - 1) {
      assert LastStarting(od, direction, n, n - 1);
    } else {
      SomeStartsLast(od, direction, n - 1, sm);
      var last :| LastStarting(od, direction, n - 1, last);
      assert LastStarting(od, direction, n, last);
    }
  }

  /** Exactly one sync manager of the direction, and its first PDO is not empty. */
  ghost predicate SingleSm(od: Dictionary, direction: u8) {
    exists sm :: SingleSmIs(od, direction, sm)
  }

  ghost predicate SingleSmIs(od: Dictionary, direction: u8, sm: nat) {
    && 2 <= sm <= LastSm(od) && Starts(od, direction, sm)
    && forall other :: 2 <= other <= LastSm(od) && other != sm ==> SmType(od, other) != direction
  }

  lemma SingleSmOffset(od: Dictionary, direction: u8, base: int, initial: int)
    requires SingleSm(od, direction)
    ensures FindsPointer(od, direction, base, initial) && Offset(od, direction, base, initial) == base
  {
    var sm :| SingleSmIs(od, direction, sm);
    assert LastStarting(od, direction, LastSm(od) + 1, sm);
    NothingBefore(od, direction, sm);
    FindsPointerIff(od, direction, base, initial);
  }

  lemma {:induction false} NothingBefore(od: Dictionary, direction: u8, n: nat)
    requires forall sm :: 2 <= sm < n ==> SmType(od, sm) != direction
    ensures DirectionBits(od, direction, n) == 0
  {
    if n > 2 {
      NothingBefore(od, direction, n - 1);
    }
  }

  // The windows of both sources --------------------------------------------------------

  /** The generator finds both pointers of bus slave k. */
  ghost predicate FoundFor(bus: seq<BusSlave>, garbage: Garbage, k: nat)
    requires k < |bus|
  {
    && FindsPointer(bus[k].od, OUTPUTS, bus[k].outputs, garbage(k + 1).0)
    && FindsPointer(bus[k].od, INPUTS, bus[k].inputs, garbage(k + 1).1)
  }

  /** It does so for every drive and battery. */
  ghost predicate PointersFound(bus: seq<BusSlave>, garbage: Garbage, n: nat)
    requires n <= |bus|
  {
    forall k :: 0 <= k < n && Built(bus[k].name) ==> FoundFor(bus, garbage, k)
  }

  /** Every drive and battery has one output and one input sync manager with a non-empty first PDO. */
  ghost predicate SimpleBus(bus: seq<BusSlave>) {
    forall k :: 0 <= k < |bus| && Built(bus[k].name) ==> SingleSm(bus[k].od, OUTPUTS) && SingleSm(bus[k].od, INPUTS)
  }

  lemma SimpleBusIsFound(bus: seq<BusSlave>, garbage: Garbage)
    requires SimpleBus(bus)
    ensures PointersFound(bus, garbage, |bus|)
  {
    forall k | 0 <= k < |bus| && Built(bus[k].name)
      ensures FoundFor(bus, garbage, k)
    {
      SingleSmOffset(bus[k].od, OUTPUTS, bus[k].outputs, garbage(k + 1).0);
      SingleSmOffset(bus[k].od, INPUTS, bus[k].inputs, garbage(k + 1).1);
    }
  }

  function ComputedSlot(s: BusSlave, number: nat, garbage: Garbage): Slot
    requires GetSlaveType(s.name).Some?
  {
    Slot(ShapeOf(GetSlaveType(s.name).value), RxOffset(s, number, garbage), TxOffset(s, number, garbage))
  }

  /** The computed offsets of the drives and batteries among the first n slaves. */
  function ComputedSlots(bus: seq<BusSlave>, garbage: Garbage, n: nat): seq<Slot>
    requires n <= |bus|
  {
    if n == 0 then []
    else ComputedSlots(bus, garbage, n - 1)
         + (if Built(bus[n - 1].name) then [ComputedSlot(bus[n - 1], n, garbage)] else [])
  }

  /** They are the sniffer's windows without the power distribution boards. */
  lemma {:induction false} SnifferWindows(bus: seq<BusSlave>, garbage: Garbage, n: nat)
    requires n <= |bus|
    ensures var infos := ReadBack(bus, garbage, n);
            WithoutBms(infos, SnifferSlots(infos)) == ComputedSlots(bus, garbage, n)
  {
    if n != 0 {
      SnifferWindows(bus, garbage, n - 1);
      var s, infos := bus[n - 1], ReadBack(bus, garbage, n - 1);
      ListedIffSupported(s.name);
      if Listed(s.name) {
        var info := InfoFor(EntryFor(s, n, garbage));
        assert (infos + [info])[..|infos|] == infos;
        assert SnifferSlots(infos + [info]) == SnifferSlots(infos) + [ComputedSlot(s, n, garbage)];
        WithoutBmsAppend(infos, SnifferSlots(infos), info, ComputedSlot(s, n, garbage));
      } else {
        assert ReadBack(bus, garbage, n) == infos;
      }
    }
  }

  /** Two windows of one slave, of which none is empty. */
  ghost predicate SameStructs(a: Slot, b: Slot) {
    a.shape == b.shape && Size(a.shape.rx) > 0 && Size(a.shape.tx) > 0
  }

  ghost predicate AllSameStructs(a: seq<Slot>, b: seq<Slot>) {
    |a| == |b| && forall i :: 0 <= i < |a| ==> SameStructs(a[i], b[i])
  }

  lemma StructsAreNotEmpty(t: SlaveType)
    ensures Size(ShapeOf(t).rx) > 0 && Size(ShapeOf(t).tx) > 0
  {
    match t
    case KeloDrive => DriveSizes();
    case RobileBattery => BatterySizes();
    case KeloBms => BmsSizes();
  }

  lemma OneSlotIff(bus: seq<BusSlave>, garbage: Garbage, k: nat)
    requires k < |bus| && Built(bus[k].name)
    ensures SameStructs(ComputedSlot(bus[k], k + 1, garbage), PointerSlot(bus[k]))
    ensures ComputedSlot(bus[k], k + 1, garbage) == PointerSlot(bus[k]) <==> FoundFor(bus, garbage, k)
  {
    StructsAreNotEmpty(GetSlaveType(bus[k].name).value);
    FindsPointerIff(bus[k].od, OUTPUTS, bus[k].outputs, garbage(k + 1).0);
    FindsPointerIff(bus[k].od, INPUTS, bus[k].inputs, garbage(k + 1).1);
  }

  /** The windows of both sources coincide exactly when the generator finds every pointer. */
  lemma {:induction false} SameWindowsIff(bus: seq<BusSlave>, garbage: Garbage, n: nat)
    requires n <= |bus|
    ensures AllSameStructs(ComputedSlots(bus, garbage, n), OwnSlots(bus, n))
    ensures ComputedSlots(bus, garbage, n) == OwnSlots(bus, n) <==> PointersFound(bus, garbage, n)
  {
    if n != 0 {
      SameWindowsIff(bus, garbage, n - 1);
      var computed, own := ComputedSlots(bus, garbage, n - 1), OwnSlots(bus, n - 1);
      if Built(bus[n - 1].name) {
        OneSlotIff(bus, garbage, n - 1);
        AppendBoth(computed, own, ComputedSlot(bus[n - 1], n, garbage), PointerSlot(bus[n - 1]));
      } else {
        assert ComputedSlots(bus, garbage, n) == computed && OwnSlots(bus, n) == own;
      }
      PointersFoundStep(bus, garbage, n);
    }
  }

  lemma AppendBoth(a: seq<Slot>, b: seq<Slot>, x: Slot, y: Slot)
    requires AllSameStructs(a, b) && SameStructs(x, y)
    ensures AllSameStructs(a + [x], b + [y])
    ensures a + [x] == b + [y] <==> a == b && x == y
  {
    if a + [x] == b + [y] {
      assert a == (a + [x])[..|a|] && b == (b + [y])[..|a|];
      assert x == (a + [x])[|a|] && y == (b + [y])[|a|];
    }
  }

  lemma PointersFoundStep(bus: seq<BusSlave>, garbage: Garbage, n: nat)
    requires 0 < n <= |bus|
    ensures PointersFound(bus, garbage, n)
       <==> PointersFound(bus, garbage, n - 1) && (Built(bus[n - 1].name) ==> FoundFor(bus, garbage, n - 1))
  {
  }

  /** The datagram of frame f carries the image at its start. */
  ghost predicate CarriesImage(f: Sniffer.Frame, image: seq<byte>) {
    && |f| >= Sniffer.IMAGE_START
    && Sniffer.DatagramLength(f) <= |Sniffer.ProcessImage(f)|
    && Sniffer.DatagramLength(f) <= |image|
    && Sniffer.ProcessImage(f)[..Sniffer.DatagramLength(f)] == image[..Sniffer.DatagramLength(f)]
  }

  ghost predicate InDatagram(slots: seq<Slot>, f: Sniffer.Frame)
    requires |f| >= Sniffer.IMAGE_START && Sniffer.DatagramLength(f) <= |Sniffer.ProcessImage(f)|
  {
    SlotsInside(slots, Sniffer.ProcessImage(f)[..Sniffer.DatagramLength(f)])
  }

  /**
   The two sources agree: where the generator finds the pointers, as on every simple
   bus, the slaves of the sniffer after a frame that carries the master's process
   image hold what the master's slaves hold after its copy loop, the power
   distribution boards aside.
   */
  lemma {:induction false} TwoSourcesAgree(bus: seq<BusSlave>, garbage: Garbage, f: Sniffer.Frame, image: seq<byte>)
    requires PointersFound(bus, garbage, |bus|) && CarriesImage(f, image)
    requires InDatagram(SnifferSlots(ReadBack(bus, garbage, |bus|)), f)
    ensures var infos := ReadBack(bus, garbage, |bus|);
            && SlotsInside(SnifferSlots(infos), Sniffer.ProcessImage(f))
            && SlotsInside(MasterSlots(bus), image)
            && WithoutBms(infos, ReadAll(SnifferSlots(infos), Sniffer.ProcessImage(f)))
               == ReadAll(MasterSlots(bus), image)
  {
    var infos := ReadBack(bus, garbage, |bus|);
    SnifferWindows(bus, garbage, |bus|);
    SameWindowsIff(bus, garbage, |bus|);
    LookUpFindsOwnPointers(bus, |bus|);
    var slots := SnifferSlots(infos);
    forall i | 0 <= i < |slots|
      ensures SlotInside(slots[i], Sniffer.ProcessImage(f)) && SlotInside(slots[i], image)
      ensures ReadSlot(slots[i], Sniffer.ProcessImage(f)) == ReadSlot(slots[i], image)
    {
      CommonPrefixReadsTheSame(slots[i], Sniffer.ProcessImage(f), image, Sniffer.DatagramLength(f));
    }
    assert ReadAll(slots, Sniffer.ProcessImage(f)) == ReadAll(slots, image);
    FilteredRead(infos, slots, image);
  }

  /** Both sources can decode every image of the given size. */
  ghost predicate BothInside(bus: seq<BusSlave>, garbage: Garbage, size: nat) {
    forall image: seq<byte> :: |image| == size ==>
      SlotsInside(SnifferSlots(ReadBack(bus, garbage, |bus|)), image) && SlotsInside(MasterSlots(bus), image)
  }

  ghost predicate AgreeOn(bus: seq<BusSlave>, garbage: Garbage, image: seq<byte>)
    requires BothInside(bus, garbage, |image|)
  {
    var infos := ReadBack(bus, garbage, |bus|);
    WithoutBms(infos, ReadAll(SnifferSlots(infos), image)) == ReadAll(MasterSlots(bus), image)
  }

  /** The exact condition: the sources agree on all images exactly when the generator finds every pointer. */
  lemma SourcesAgreeIff(bus: seq<BusSlave>, garbage: Garbage, size: nat)
    requires BothInside(bus, garbage, size)
    ensures (forall image: seq<byte> :: |image| == size ==> AgreeOn(bus, garbage, image))
       <==> PointersFound(bus, garbage, |bus|)
  {
    var infos := ReadBack(bus, garbage, |bus|);
    var computed, own := ComputedSlots(bus, garbage, |bus|), OwnSlots(bus, |bus|);
    SnifferWindows(bus, garbage, |bus|);
    SameWindowsIff(bus, garbage, |bus|);
    LookUpFindsOwnPointers(bus, |bus|);
    forall image: seq<byte> | |image| == size
      ensures SlotsInside(computed, image) && SlotsInside(own, image)
      ensures AgreeOn(bus, garbage, image) <==> ReadAll(computed, image) == ReadAll(own, image)
    {
      FilteredRead(infos, SnifferSlots(infos), image);
    }
    if forall image: seq<byte> :: |image| == size ==> AgreeOn(bus, garbage, image) {
      forall image: seq<byte> | |image| == size
        ensures SlotsInside(computed, image) && SlotsInside(own, image)
        ensures ReadAll(computed, image) == ReadAll(own, image)
      {
        assert AgreeOn(bus, garbage, image);
      }
      PlacementsAreDetermined(computed, own, size);
    }
  }

  /** Windows of the same structs that decode every image alike are the same windows. */
  lemma PlacementsAreDetermined(a: seq<Slot>, b: seq<Slot>, size: nat)
    requires AllSameStructs(a, b)
    requires forall image: seq<byte> :: |image| == size ==>
               SlotsInside(a, image) && SlotsInside(b, image) && ReadAll(a, image) == ReadAll(b, image)
    ensures a == b
  {
    forall i | 0 <= i < |a|
      ensures a[i] == b[i]
    {
      forall image: seq<byte> | |image| == size
        ensures SlotInside(a[i], image) && SlotInside(b[i], image) && ReadSlot(a[i], image) == ReadSlot(b[i], image)
      {
        assert ReadAll(a, image)[i] == ReadAll(b, image)[i];
      }
      PlacementIsDetermined(a[i], b[i], size);
    }
  }

  /** Dropping slaves and decoding commute. */
  lemma {:induction false} FilteredRead(infos: seq<SlaveInfo>, slots: seq<Slot>, image: seq<byte>)
    requires |infos| == |slots| && SlotsInside(slots, image)
    ensures SlotsInside(WithoutBms(infos, slots), image)
    ensures WithoutBms(infos, ReadAll(slots, image)) == ReadAll(WithoutBms(infos, slots), image)
    decreases |infos|
  {
    if infos != [] {
      var last := |infos| - 1;
      FilteredRead(infos[..last], slots[..last], image);
      assert ReadAll(slots, image)[..last] == ReadAll(slots[..last], image);
      if infos[last].id.slaveType != KeloBms {
        ReadOneMore(WithoutBms(infos[..last], slots[..last]), slots[last], image);
      }
    }
  }

  lemma ReadOneMore(slots: seq<Slot>, slot: Slot, image: seq<byte>)
    requires SlotsInside(slots, image) && SlotInside(slot, image)
    ensures SlotsInside(slots + [slot], image)
    ensures ReadAll(slots + [slot], image) == ReadAll(slots, image) + [ReadSlot(slot, image)]
  {
  }

  /**
   Nothing weaker will do: two placements of one slave decode every image alike
   only if they are the same placement.
   */
  lemma PlacementIsDetermined(a: Slot, b: Slot, size: nat)
    requires a.shape == b.shape && Size(a.shape.rx) > 0 && Size(a.shape.tx) > 0
    requires forall image: seq<byte> :: |image| == size ==> SlotInside(a, image) && SlotInside(b, image)
    ensures (forall image: seq<byte> :: |image| == size ==> ReadSlot(a, image) == ReadSlot(b, image))
       <==> a.rxStart == b.rxStart && a.txStart == b.txStart
  {
    if a.rxStart != b.rxStart || a.txStart != b.txStart {
      var p := if a.rxStart != b.rxStart then a.rxStart else a.txStart;
      var zeros: seq<byte> := seq(size, i => 0);
      assert SlotInside(a, zeros);
      var image := zeros[p := 1];
      SameContentsIffSameBytes(a.shape, image, a.rxStart, a.txStart, image, b.rxStart, b.txStart);
      if a.rxStart != b.rxStart {
        assert Window(image, a.rxStart, Size(a.shape.rx))[0] == 1;
        assert Window(image, b.rxStart, Size(a.shape.rx))[0] == 0;
      } else {
        assert Window(image, a.txStart, Size(a.shape.tx))[0] == 1;
        assert Window(image, b.txStart, Size(a.shape.tx))[0] == 0;
      }
    }
  }
}
