/**
 Slave objects as the data sources hold them.
 */
module Slaves {
  import opened PackedCodec
  import opened SlaveData

  datatype Identity = Identity(
    name: string, slaveType: SlaveType, number: int, eepMan: int, eepRev: int, eepId: int, address: int)

  /** The master leaves the two start offsets unset; the sniffer reads them from its configuration. */
  datatype SlaveInfo = SlaveInfo(id: Identity, rxStart: int, txStart: int)

  class EthercatSlave {
    const info: SlaveInfo
    const shape: Shape
    var data: Contents

    /** The structs of a new slave are uninitialized: `garbage` is whatever they hold. */
    constructor (info: SlaveInfo, garbage: Contents)
      ensures this.info == info && shape == ShapeOf(info.id.slaveType) && data == garbage
    {
      this.info := info;
      shape := ShapeOf(info.id.slaveType);
      data := garbage;
    }

    /** `outputs` and `inputs` are the bytes from the two pointers on. */
    method CopyData(outputs: seq<byte>, inputs: seq<byte>)
      requires Size(shape.rx) <= |outputs| && Size(shape.tx) <= |inputs|
      modifies this
      ensures data == Contents(Unpack(shape.rx, outputs[..Size(shape.rx)]), Unpack(shape.tx, inputs[..Size(shape.tx)]))
      ensures WellFormed(shape, data)
      ensures Pack(shape.rx, data.rx) == outputs[..Size(shape.rx)]
      ensures Pack(shape.tx, data.tx) == inputs[..Size(shape.tx)]
    {
      data := Contents(Unpack(shape.rx, outputs[..Size(shape.rx)]), Unpack(shape.tx, inputs[..Size(shape.tx)]));
      PackUnpack(shape.rx, outputs[..Size(shape.rx)]);
      PackUnpack(shape.tx, inputs[..Size(shape.tx)]);
    }
  }

  ghost predicate Distinct(slaves: seq<EthercatSlave>) {
    forall i, j :: 0 <= i < j < |slaves| ==> slaves[i] != slaves[j]
  }

  function SlotOf(slave: EthercatSlave): Slot {
    Slot(slave.shape, slave.info.rxStart, slave.info.txStart)
  }

  function SlotsOf(slaves: seq<EthercatSlave>): (slots: seq<Slot>)
    ensures |slots| == |slaves|
    ensures forall i :: 0 <= i < |slaves| ==> slots[i] == SlotOf(slaves[i])
  {
    seq(|slaves|, i requires 0 <= i < |slaves| => SlotOf(slaves[i]))
  }

  function DataOf(slaves: seq<EthercatSlave>): (data: seq<Contents>)
    reads slaves
    ensures |data| == |slaves|
    ensures forall i :: 0 <= i < |slaves| ==> data[i] == slaves[i].data
  {
    if slaves == [] then [] else [slaves[0].data] + DataOf(slaves[1..])
  }
}
