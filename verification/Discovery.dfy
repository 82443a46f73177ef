/**
 Which slaves each program finds: the configuration generator and the master on
 the bus, the sniffer in a configuration file.
 */
module Discovery {
  import opened Optional
  import opened SlaveData
  import opened Slaves
  import opened PdoMapping
  import opened SyncManagers

  type u32 = i: int | 0 <= i < 0x1_0000_0000

  /** One slave on the bus; `outputs` and `inputs` are its pointers minus the start of the process image. */
  datatype BusSlave = BusSlave(
    name: string, eepMan: u32, eepRev: u32, eepId: u32, address: u16,
    outputs: int, inputs: int, od: Dictionary)

  datatype ConfigEntry = ConfigEntry(
    name: string, slaveId: int, eepMan: int, eepId: int, eepRev: int, address: int, rxStart: int, txStart: int)

  // The generator ---------------------------------------------------------------

  /** The names the generator lists. */
  predicate Listed(name: string) {
    name == "SWMC" || name == "KELO_ROBILE" || name == "KELOD105" || name == "KeloEcPd"
  }

  /** The contents of an uninitialized local pair of offsets, per slave. */
  type Garbage = nat -> (int, int)

  function RxOffset(s: BusSlave, number: nat, garbage: Garbage): int {
    Offset(s.od, OUTPUTS, s.outputs, garbage(number).0)
  }

  function TxOffset(s: BusSlave, number: nat, garbage: Garbage): int {
    Offset(s.od, INPUTS, s.inputs, garbage(number).1)
  }

  function EntryFor(s: BusSlave, number: nat, garbage: Garbage): ConfigEntry {
    ConfigEntry(s.name, number, s.eepMan, s.eepId, s.eepRev, s.address,
                RxOffset(s, number, garbage), TxOffset(s, number, garbage))
  }

  /** The configuration for the first n slaves of the bus. */
  function Config(bus: seq<BusSlave>, garbage: Garbage, n: nat): seq<ConfigEntry>
    requires n <= |bus|
  {
    if n == 0 then []
    else Config(bus, garbage, n - 1) + (if Listed(bus[n - 1].name) then [EntryFor(bus[n - 1], n, garbage)] else [])
  }

  method GetInfo(bus: seq<BusSlave>, garbage: Garbage) returns (config: seq<ConfigEntry>)
    requires forall s :: s in bus && Listed(s.name) ==> Terminates(s.od)
    ensures config == Config(bus, garbage, |bus|)
  {
    config := [];
    var cnt := 1;
    while cnt <= |bus|
      invariant 1 <= cnt <= |bus| + 1
      invariant config == Config(bus, garbage, cnt - 1)
    {
      var s := bus[cnt - 1];
      if Listed(s.name) {
        var rx, tx := garbage(cnt).0, garbage(cnt).1;
        var found;
        ghost var outPlaced, inPlaced;
        found, rx, tx, outPlaced, inPlaced := SiMapSdo(s.od, s.outputs, s.inputs, rx, tx);
        config := config + [ConfigEntry(s.name, cnt, s.eepMan, s.eepId, s.eepRev, s.address, rx, tx)];
      }
      cnt := cnt + 1;
    }
  }

  // The sniffer -----------------------------------------------------------------

  /** A JSON number is converted to a 32-bit int or an exception is thrown. */
  predicate FitsInt(i: int) { -0x8000_0000 <= i < 0x8000_0000 }

  predicate Readable(e: ConfigEntry) {
    && FitsInt(e.slaveId) && FitsInt(e.eepMan) && FitsInt(e.eepId) && FitsInt(e.eepRev)
    && FitsInt(e.address) && FitsInt(e.rxStart) && FitsInt(e.txStart)
  }

  predicate Supported(e: ConfigEntry) {
    GetSlaveType(e.name).Some?
  }

  function InfoFor(e: ConfigEntry): SlaveInfo
    requires Supported(e)
  {
    SlaveInfo(Identity(e.name, GetSlaveType(e.name).value, e.slaveId, e.eepMan, e.eepRev, e.eepId, e.address),
              e.rxStart, e.txStart)
  }

  datatype ReadOutcome = NoConfig | NotAnInt | Read(slaves: seq<SlaveInfo>)

  /** `None` is the empty JSON value, as before any file was read. */
  method SnifferGetSlaves(config: Option<seq<ConfigEntry>>) returns (outcome: ReadOutcome)
    requires config.Some? ==> forall e :: e in config.value ==> Supported(e)
    ensures outcome == NoConfig <==> config.None?
    ensures outcome == NotAnInt <==> config.Some? && exists e :: e in config.value && !Readable(e)
    ensures outcome.Read? ==>
              && |outcome.slaves| == |config.value|
              && forall i :: 0 <= i < |config.value| ==> outcome.slaves[i] == InfoFor(config.value[i])
  {
    if config.None? {
      return NoConfig;
    }
    var slaves := [];
    var i := 0;
    while i < |config.value|
      invariant 0 <= i <= |config.value| && |slaves| == i
      invariant forall j :: 0 <= j < i ==> Readable(config.value[j]) && slaves[j] == InfoFor(config.value[j])
    {
      var e := config.value[i];
      if !Readable(e) {
        return NotAnInt;
      }
      slaves := slaves + [InfoFor(e)];
      i := i + 1;
    }
    return Read(slaves);
  }

  // The master ------------------------------------------------------------------

  /** An unsigned word stored in an int. */
  function AsInt(u: u32): int {
    if u < 0x8000_0000 then u else u - 0x1_0000_0000
  }

  /** The int has the same 32 bits. */
  lemma AsIntKeepsTheBits(u: u32)
    ensures FitsInt(AsInt(u)) && (AsInt(u) == u || AsInt(u) == u - 0x1_0000_0000)
    ensures AsInt(u) == u <==> u < 0x8000_0000
  {
  }

  function IdentityFor(s: BusSlave, number: nat): Identity
    requires GetSlaveType(s.name).Some?
  {
    Identity(s.name, GetSlaveType(s.name).value, number, AsInt(s.eepMan), AsInt(s.eepRev), AsInt(s.eepId), s.address)
  }

  /** The master only builds drives and batteries. */
  predicate Built(name: string) {
    GetSlaveType(name) == Some(KeloDrive) || GetSlaveType(name) == Some(RobileBattery)
  }

  function MasterSlaves(bus: seq<BusSlave>, n: nat): seq<Identity>
    requires n <= |bus|
  {
    if n == 0 then []
    else MasterSlaves(bus, n - 1) + (if Built(bus[n - 1].name) then [IdentityFor(bus[n - 1], n)] else [])
  }

  datatype BusAnswer = NoSocket | NoSlaves | NotSafeOp | SafeOp

  method MasterGetSlaves(answer: BusAnswer, bus: seq<BusSlave>) returns (slaves: seq<Identity>, error: string)
    ensures error == match answer
                     case NoSocket => "No socket connection. (try running with sudo)"
                     case NoSlaves => "No slaves found"
                     case NotSafeOp => "Not in SAFE_OP state"
                     case SafeOp => ""
    ensures slaves == if answer == SafeOp then MasterSlaves(bus, |bus|) else []
  {
    slaves, error := [], "";
    if answer == NoSocket {
      return [], "No socket connection. (try running with sudo)";
    }
    if answer == NoSlaves {
      return [], "No slaves found";
    }
    if answer == NotSafeOp {
      return [], "Not in SAFE_OP state";
    }
    var cnt := 1;
    while cnt <= |bus|
      invariant 1 <= cnt <= |bus| + 1
      invariant slaves == MasterSlaves(bus, cnt - 1)
    {
      if Built(bus[cnt - 1].name) {
        slaves := slaves + [IdentityFor(bus[cnt - 1], cnt)];
      }
      cnt := cnt + 1;
    }
  }

  // How they relate ---------------------------------------------------------------

  /** The items that belong to drives and batteries. */
  function WithoutBms<T>(infos: seq<SlaveInfo>, items: seq<T>): seq<T>
    requires |infos| == |items|
  {
    if infos == [] then []
    else
      var last := |infos| - 1;
      WithoutBms(infos[..last], items[..last]) + (if infos[last].id.slaveType == KeloBms then [] else [items[last]])
  }

  /** Generator and sniffer agree on which names they know. */
  lemma ListedIffSupported(name: string)
    ensures Listed(name) <==> GetSlaveType(name).Some?
    ensures Built(name) <==> Listed(name) && GetSlaveType(name) != Some(KeloBms)
  {
  }

  function ReadBack(bus: seq<BusSlave>, garbage: Garbage, n: nat): (infos: seq<SlaveInfo>)
    requires n <= |bus|
  {
    if n == 0 then []
    else
      ListedIffSupported(bus[n - 1].name);
      ReadBack(bus, garbage, n - 1)
      + (if Listed(bus[n - 1].name) then [InfoFor(EntryFor(bus[n - 1], n, garbage))] else [])
  }

  /** Reading the generated configuration yields one typed slave per listed bus slave, in bus order. */
  lemma {:induction false} ConfigReadsBack(bus: seq<BusSlave>, garbage: Garbage, n: nat)
    requires n <= |bus|
    ensures var config, infos := Config(bus, garbage, n), ReadBack(bus, garbage, n);
            && |infos| == |config|
            && forall i :: 0 <= i < |config| ==> Supported(config[i]) && infos[i] == InfoFor(config[i])
    ensures var infos := ReadBack(bus, garbage, n);
            && (forall i :: 0 <= i < |infos| ==> 1 <= infos[i].id.number <= n)
            && forall i, j :: 0 <= i < j < |infos| ==> infos[i].id.number < infos[j].id.number
  {
    if n != 0 {
      ConfigReadsBack(bus, garbage, n - 1);
      ListedIffSupported(bus[n - 1].name);
    }
  }

  predicate SmallEeprom(s: BusSlave) {
    s.eepMan < 0x8000_0000 && s.eepId < 0x8000_0000 && s.eepRev < 0x8000_0000
  }

  ghost predicate OffsetsAreInts(bus: seq<BusSlave>, garbage: Garbage) {
    && |bus| < 0x8000_0000
    && forall k :: 0 <= k < |bus| ==>
         FitsInt(RxOffset(bus[k], k + 1, garbage)) && FitsInt(TxOffset(bus[k], k + 1, garbage))
  }

  /** The generated configuration can be read exactly when no listed slave has an EEPROM word of 2^31 or more. */
  lemma {:induction false} ConfigReadableIff(bus: seq<BusSlave>, garbage: Garbage, n: nat)
    requires n <= |bus| && OffsetsAreInts(bus, garbage)
    ensures (forall e :: e in Config(bus, garbage, n) ==> Readable(e))
       <==> forall k :: 0 <= k < n && Listed(bus[k].name) ==> SmallEeprom(bus[k])
  {
    if n != 0 {
      ConfigReadableIff(bus, garbage, n - 1);
      assert Readable(EntryFor(bus[n - 1], n, garbage)) <==> SmallEeprom(bus[n - 1]);
      var before := Config(bus, garbage, n - 1);
      if Listed(bus[n - 1].name) {
        assert Config(bus, garbage, n) == before + [EntryFor(bus[n - 1], n, garbage)];
        assert forall e :: e in Config(bus, garbage, n) <==> e in before || e == EntryFor(bus[n - 1], n, garbage);
      } else {
        assert Config(bus, garbage, n) == before;
      }
    }
  }

  /** A slave that the generator lists and the sniffer cannot read. */
  lemma LargeEepromIsUnreadable(garbage: Garbage, od: Dictionary)
    ensures var drive := BusSlave("SWMC", 0x8000_0000, 0, 0, 4097, 0, 36, od);
            var config := Config([drive], garbage, 1);
            config == [EntryFor(drive, 1, garbage)] && Supported(config[0]) && !Readable(config[0])
  {
    var drive := BusSlave("SWMC", 0x8000_0000, 0, 0, 4097, 0, 36, od);
    assert Listed(drive.name);
    assert Config([drive], garbage, 1) == Config([drive], garbage, 0) + [EntryFor(drive, 1, garbage)];
  }

  function Identities(infos: seq<SlaveInfo>): (ids: seq<Identity>)
    ensures |ids| == |infos|
  {
    if infos == [] then [] else Identities(infos[..|infos| - 1]) + [infos[|infos| - 1].id]
  }

  lemma {:induction false} IdentitiesAppend(infos: seq<SlaveInfo>, info: SlaveInfo)
    ensures Identities(infos + [info]) == Identities(infos) + [info.id]
  {
    assert (infos + [info])[..|infos|] == infos;
  }

  lemma {:induction false} WithoutBmsAppend<T>(infos: seq<SlaveInfo>, items: seq<T>, info: SlaveInfo, item: T)
    requires |infos| == |items|
    ensures WithoutBms(infos + [info], items + [item])
         == WithoutBms(infos, items) + (if info.id.slaveType == KeloBms then [] else [item])
  {
    assert (infos + [info])[..|infos|] == infos && (items + [item])[..|infos|] == items;
  }

  /** The master finds exactly the sniffer's slaves without the power distribution boards, identities included. */
  lemma {:induction false} DiscoveryAgrees(bus: seq<BusSlave>, garbage: Garbage, n: nat)
    requires n <= |bus|
    requires forall k :: 0 <= k < n && Listed(bus[k].name) ==> SmallEeprom(bus[k])
    ensures var infos := ReadBack(bus, garbage, n);
            MasterSlaves(bus, n) == WithoutBms(infos, Identities(infos))
  {
    if n != 0 {
      DiscoveryAgrees(bus, garbage, n - 1);
      ListedIffSupported(bus[n - 1].name);
      if Listed(bus[n - 1].name) {
        var infos, info := ReadBack(bus, garbage, n - 1), InfoFor(EntryFor(bus[n - 1], n, garbage));
        IdentitiesAppend(infos, info);
        WithoutBmsAppend(infos, Identities(infos), info, info.id);
        assert info.id == IdentityFor(bus[n - 1], n);
      } else {
        assert ReadBack(bus, garbage, n) == ReadBack(bus, garbage, n - 1);
      }
    }
  }
}
