/**
 The live master's copy loop on slave objects, and what its publisher shows
 compared with a sniffer on the same bus.
 */
module Master {
  import opened PackedCodec
  import opened SlaveData
  import opened Slaves
  import opened Discovery
  import opened TwoSources
  import Acquisition
  import Snapshots
  import Sniffer

  function PointerSlots(slaves: seq<EthercatSlave>, p: Pointers): (slots: seq<Slot>)
    ensures |slots| == |slaves|
    ensures forall i :: 0 <= i < |slaves| ==>
              slots[i] == Slot(slaves[i].shape, p.outputs(slaves[i].info.id.number), p.inputs(slaves[i].info.id.number))
  {
    seq(|slaves|, i requires 0 <= i < |slaves| =>
      Slot(slaves[i].shape, p.outputs(slaves[i].info.id.number), p.inputs(slaves[i].info.id.number)))
  }

  class EthercatMaster {
    var slaves: seq<EthercatSlave>
    var ioMap: seq<byte>

    constructor (slaves: seq<EthercatSlave>, ioMap: seq<byte>)
      ensures this.slaves == slaves && this.ioMap == ioMap
    {
      this.slaves, this.ioMap := slaves, ioMap;
    }

    method CopySlave(slave: EthercatSlave, outputs: int, inputs: int)
      requires SlotInside(Slot(slave.shape, outputs, inputs), ioMap)
      modifies slave
      ensures slave.data == ReadSlot(Slot(slave.shape, outputs, inputs), ioMap)
    {
      SuffixRead(Slot(slave.shape, outputs, inputs), ioMap);
      slave.CopyData(ioMap[outputs..], ioMap[inputs..]);
    }

    /** Copies only when the mutex is acquired at once; otherwise the slaves keep their contents. */
    method CopyData(acquired: bool, p: Pointers)
      requires Distinct(slaves) && SlotsInside(PointerSlots(slaves, p), ioMap)
      modifies slaves
      ensures DataOf(slaves) == if acquired then ReadAll(PointerSlots(slaves, p), ioMap) else old(DataOf(slaves))
    {
      if acquired {
        ghost var slots := PointerSlots(slaves, p);
        var i := 0;
        while i < |slaves|
          invariant 0 <= i <= |slaves|
          invariant forall j :: 0 <= j < i ==> slaves[j].data == ReadSlot(slots[j], ioMap)
        {
          CopySlave(slaves[i], p.outputs(slaves[i].info.id.number), p.inputs(slaves[i].info.id.number));
          i := i + 1;
        }
      }
    }
  }

  lemma SuffixRead(slot: Slot, image: seq<byte>)
    requires SlotInside(slot, image)
    ensures var outputs, inputs := image[slot.rxStart..], image[slot.txStart..];
            && Size(slot.shape.rx) <= |outputs| && Size(slot.shape.tx) <= |inputs|
            && ReadSlot(slot, image) == Contents(Unpack(slot.shape.rx, outputs[..Size(slot.shape.rx)]),
                                                 Unpack(slot.shape.tx, inputs[..Size(slot.shape.tx)]))
  {
    assert Window(image, slot.rxStart, Size(slot.shape.rx)) == image[slot.rxStart..][..Size(slot.shape.rx)];
    assert Window(image, slot.txStart, Size(slot.shape.tx)) == image[slot.txStart..][..Size(slot.shape.tx)];
  }

  // Slave objects as the two discoveries make them -----------------------------------

  /** One object per identity, with the structs of its type. */
  ghost predicate BuiltFor(slaves: seq<EthercatSlave>, ids: seq<Identity>) {
    && |slaves| == |ids| && Distinct(slaves)
    && forall i :: 0 <= i < |slaves| ==> slaves[i].info.id == ids[i] && slaves[i].shape == ShapeOf(ids[i].slaveType)
  }

  /** One object per configuration entry. */
  ghost predicate ReadFrom(slaves: seq<EthercatSlave>, infos: seq<SlaveInfo>) {
    && |slaves| == |infos| && Distinct(slaves)
    && forall i :: 0 <= i < |slaves| ==> slaves[i].info == infos[i] && slaves[i].shape == ShapeOf(infos[i].id.slaveType)
  }

  lemma {:induction false} MasterObjectsHaveMasterSlots(slaves: seq<EthercatSlave>, bus: seq<BusSlave>)
    requires BuiltFor(slaves, MasterSlaves(bus, |bus|))
    ensures PointerSlots(slaves, BusPointers(bus)) == MasterSlots(bus)
  {
  }

  lemma {:induction false} SnifferObjectsHaveSnifferSlots(slaves: seq<EthercatSlave>, infos: seq<SlaveInfo>)
    requires ReadFrom(slaves, infos)
    ensures SlotsOf(slaves) == SnifferSlots(infos)
  {
    forall i | 0 <= i < |slaves|
      ensures SlotsOf(slaves)[i] == SnifferSlots(infos)[i]
    {
      SnifferSlotsAt(infos, i);
    }
  }

  /** What both copy loops will read, from the objects' own slots. */
  lemma {:induction false} ObjectsAgree(masters: seq<EthercatSlave>, sniffed: seq<EthercatSlave>, bus: seq<BusSlave>,
                                        garbage: Garbage, f: Sniffer.Frame, image: seq<byte>)
    requires PointersFound(bus, garbage, |bus|)
    requires BuiltFor(masters, MasterSlaves(bus, |bus|)) && ReadFrom(sniffed, ReadBack(bus, garbage, |bus|))
    requires CarriesImage(f, image) && InDatagram(SnifferSlots(ReadBack(bus, garbage, |bus|)), f)
    ensures SlotsInside(PointerSlots(masters, BusPointers(bus)), image)
    ensures SlotsInside(SlotsOf(sniffed), Sniffer.ProcessImage(f))
    ensures ReadAll(PointerSlots(masters, BusPointers(bus)), image)
         == WithoutBms(ReadBack(bus, garbage, |bus|), ReadAll(SlotsOf(sniffed), Sniffer.ProcessImage(f)))
  {
    TwoSourcesAgree(bus, garbage, f, image);
    MasterObjectsHaveMasterSlots(masters, bus);
    SnifferObjectsHaveSnifferSlots(sniffed, ReadBack(bus, garbage, |bus|));
  }

  twostate lemma {:induction false} SameData(slaves: seq<EthercatSlave>)
    requires forall s :: s in slaves ==> old(allocated(s)) && s.data == old(s.data)
    ensures DataOf(slaves) == old(DataOf(slaves))
  {
  }

  method CopyBoth(master: EthercatMaster, sniffer: Sniffer.PacketSniffer, p: Pointers, f: Sniffer.Frame,
                  ghost copied: seq<Contents>, ghost shown: seq<Contents>)
    requires Distinct(master.slaves) && SlotsInside(PointerSlots(master.slaves, p), master.ioMap)
    requires sniffer.Valid() && |f| >= Sniffer.IMAGE_START
    requires SlotsInside(SlotsOf(sniffer.slaves), Sniffer.ProcessImage(f))
    requires forall s :: s in sniffer.slaves ==> s !in master.slaves
    requires copied == ReadAll(PointerSlots(master.slaves, p), master.ioMap)
    requires shown == ReadAll(SlotsOf(sniffer.slaves), Sniffer.ProcessImage(f))
    modifies master.slaves, sniffer.slaves
    ensures DataOf(master.slaves) == copied && DataOf(sniffer.slaves) == shown
  {
    sniffer.CopySlaves(f);
    label copied:
    master.CopyData(true, p);
    SameData@copied(sniffer.slaves);
  }

  /**
   Both copy loops side by side: the master's objects, filled through the table by
   number, hold what the sniffer's objects hold after a frame with the same image.
   */
  method CopyOnBothSides(master: EthercatMaster, sniffer: Sniffer.PacketSniffer, bus: seq<BusSlave>,
                         ghost garbage: Garbage, f: Sniffer.Frame)
    requires PointersFound(bus, garbage, |bus|)
    requires BuiltFor(master.slaves, MasterSlaves(bus, |bus|))
    requires ReadFrom(sniffer.slaves, ReadBack(bus, garbage, |bus|))
    requires forall s :: s in sniffer.slaves ==> s !in master.slaves
    requires CarriesImage(f, master.ioMap) && InDatagram(SnifferSlots(ReadBack(bus, garbage, |bus|)), f)
    modifies master.slaves, sniffer.slaves
    ensures DataOf(master.slaves) == WithoutBms(ReadBack(bus, garbage, |bus|), DataOf(sniffer.slaves))
  {
    var p := BusPointers(bus);
    ObjectsAgree(master.slaves, sniffer.slaves, bus, garbage, f, master.ioMap);
    ghost var copied := ReadAll(PointerSlots(master.slaves, p), master.ioMap);
    ghost var shown := ReadAll(SlotsOf(sniffer.slaves), Sniffer.ProcessImage(f));
    assert copied == WithoutBms(ReadBack(bus, garbage, |bus|), shown);
    CopyBoth(master, sniffer, p, f, copied, shown);
  }

  /** The acquisition protocol of the slaves that the master found on `bus`. */
  ghost function ProtocolOf(bus: seq<BusSlave>, imageSize: nat): Acquisition.Bus {
    Acquisition.Bus(MasterSlots(bus), imageSize)
  }

  /**
   End to end: whatever the interleaving, a list that the master hands out after
   its first copy pass is, slave by slave, what a sniffer with the generated
   configuration shows for any frame that carries that receive cycle's image.
   */
  lemma {:induction false} MasterShowsWhatTheSnifferShows(
      bus: seq<BusSlave>, garbage: Garbage, imageSize: nat,
      states: seq<Acquisition.State>, acts: seq<Acquisition.Action>, j: nat, f: Sniffer.Frame)
    requires PointersFound(bus, garbage, |bus|)
    requires Acquisition.ValidBus(ProtocolOf(bus, imageSize))
    requires Acquisition.IsRun(ProtocolOf(bus, imageSize), states, acts)
    requires j < |states[|acts|].published|
    requires 0 < Snapshots.CycleOf(states, acts, j) <= |states[|acts|].received|
    requires CarriesImage(f, states[|acts|].received[Snapshots.CycleOf(states, acts, j) - 1])
    requires InDatagram(SnifferSlots(ReadBack(bus, garbage, |bus|)), f)
    ensures var infos := ReadBack(bus, garbage, |bus|);
            && SlotsInside(SnifferSlots(infos), Sniffer.ProcessImage(f))
            && states[|acts|].published[j].list
               == WithoutBms(infos, ReadAll(SnifferSlots(infos), Sniffer.ProcessImage(f)))
  {
    Snapshots.ListShowsItsCycle(ProtocolOf(bus, imageSize), states, acts, j);
    TwoSourcesAgree(bus, garbage, f, states[|acts|].received[Snapshots.CycleOf(states, acts, j) - 1]);
  }
}
