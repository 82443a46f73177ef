/**
 The configuration files of the repository, from the names and offsets they list to
 the windows that the sniffer cuts out of a frame.
 */
module ShippedConfigurations {
  import opened Optional
  import opened PackedCodec
  import opened SlaveData
  import opened Slaves
  import opened ImageLayout
  import opened Discovery
  import opened TwoSources

  /** The entries of a file have these names and offsets; the other values do not matter here. */
  ghost predicate Has(config: seq<ConfigEntry>, names: seq<string>, rx: seq<nat>, tx: seq<nat>) {
    && |config| == |names| == |rx| == |tx|
    && forall i :: 0 <= i < |config| ==>
         config[i].name == names[i] && config[i].rxStart == rx[i] && config[i].txStart == tx[i]
  }

  function Infos(config: seq<ConfigEntry>): (infos: seq<SlaveInfo>)
    requires forall i :: 0 <= i < |config| ==> Supported(config[i])
    ensures |infos| == |config| && forall i :: 0 <= i < |config| ==> infos[i] == InfoFor(config[i])
  {
    seq(|config|, i requires 0 <= i < |config| => InfoFor(config[i]))
  }

  /** The file can be read, its structs have these sizes and lie without gaps or overlaps. */
  ghost predicate ReadsAs(config: seq<ConfigEntry>, rxBytes: seq<nat>, txBytes: seq<nat>) {
    && |config| == |rxBytes| == |txBytes|
    && (forall i :: 0 <= i < |config| ==> Supported(config[i]))
    && var slots := SnifferSlots(Infos(config));
       && (forall i :: 0 <= i < |config| ==> HasSizes(slots[i].shape, rxBytes[i], txBytes[i]))
       && slots == SlotsFor(seq(|slots|, i requires 0 <= i < |slots| => slots[i].shape))
  }

  ghost predicate HasSizes(s: Shape, rx: nat, tx: nat) {
    Size(s.rx) == rx && Size(s.tx) == tx
  }

  /** What the names stand for. */
  lemma NamesHaveTypes(name: string)
    ensures GetSlaveType(name) == Some(KeloDrive) <==> name == "SWMC" || name == "KELOD105"
    ensures GetSlaveType(name) == Some(RobileBattery) <==> name == "KELO_ROBILE"
    ensures GetSlaveType(name) == Some(KeloBms) <==> name == "KeloEcPd"
  {
  }

  /** The struct sizes behind a name. */
  lemma NamesHaveSizes(e: ConfigEntry)
    ensures e.name == "SWMC" || e.name == "KELOD105" ==>
              Supported(e) && HasSizes(ShapeOf(InfoFor(e).id.slaveType), 36, 172)
    ensures e.name == "KELO_ROBILE" ==> Supported(e) && HasSizes(ShapeOf(InfoFor(e).id.slaveType), 12, 68)
    ensures e.name == "KeloEcPd" ==> Supported(e) && HasSizes(ShapeOf(InfoFor(e).id.slaveType), 20, 112)
  {
    NamesHaveTypes(e.name);
    DriveSizes();
    BatterySizes();
    BmsSizes();
  }

  ghost predicate NamesSize(name: string, rx: nat, tx: nat) {
    || ((name == "SWMC" || name == "KELOD105") && rx == 36 && tx == 172)
    || (name == "KELO_ROBILE" && rx == 12 && tx == 68)
    || (name == "KeloEcPd" && rx == 20 && tx == 112)
  }

  /** RX offsets grow by RX sizes from 0 on, TX offsets by TX sizes from where the RX structs end. */
  ghost predicate Grows(rx: seq<nat>, tx: seq<nat>, rxBytes: seq<nat>, txBytes: seq<nat>) {
    && |rx| == |tx| == |rxBytes| == |txBytes| > 0
    && rx[0] == 0 && tx[0] == rx[|rx| - 1] + rxBytes[|rx| - 1]
    && forall i :: 0 <= i < |rx| - 1 ==> rx[i + 1] == rx[i] + rxBytes[i] && tx[i + 1] == tx[i] + txBytes[i]
  }

  lemma SlotOfEntry(config: seq<ConfigEntry>, i: nat)
    requires i < |config| && forall k :: 0 <= k < |config| ==> Supported(config[k])
    ensures SnifferSlots(Infos(config))[i]
         == Slot(ShapeOf(InfoFor(config[i]).id.slaveType), config[i].rxStart, config[i].txStart)
  {
    SnifferSlotsAt(Infos(config), i);
  }

  lemma SlotsTile(slots: seq<Slot>, rx: seq<nat>, tx: seq<nat>, rxBytes: seq<nat>, txBytes: seq<nat>)
    requires |slots| == |rx| && Grows(rx, tx, rxBytes, txBytes)
    requires forall i :: 0 <= i < |slots| ==>
               HasSizes(slots[i].shape, rxBytes[i], txBytes[i])
               && slots[i].rxStart == rx[i] && slots[i].txStart == tx[i]
    ensures slots == SlotsFor(seq(|slots|, i requires 0 <= i < |slots| => slots[i].shape))
  {
    var shapes := seq(|slots|, i requires 0 <= i < |slots| => slots[i].shape);
    var starts := rx + [tx[0]];
    ListsConfiguration(shapes, starts, tx);
    assert starts[..|rx|] == rx;
  }

  lemma FileIsRead(config: seq<ConfigEntry>, names: seq<string>, rx: seq<nat>, tx: seq<nat>,
                   rxBytes: seq<nat>, txBytes: seq<nat>)
    requires Has(config, names, rx, tx) && Grows(rx, tx, rxBytes, txBytes)
    requires forall i :: 0 <= i < |names| ==> NamesSize(names[i], rxBytes[i], txBytes[i])
    ensures ReadsAs(config, rxBytes, txBytes)
  {
    forall i | 0 <= i < |config|
      ensures Supported(config[i]) && HasSizes(ShapeOf(InfoFor(config[i]).id.slaveType), rxBytes[i], txBytes[i])
    {
      NamesHaveSizes(config[i]);
      assert NamesSize(names[i], rxBytes[i], txBytes[i]);
    }
    var slots := SnifferSlots(Infos(config));
    forall i | 0 <= i < |slots|
      ensures HasSizes(slots[i].shape, rxBytes[i], txBytes[i]) && slots[i].rxStart == rx[i] && slots[i].txStart == tx[i]
    {
      SlotOfEntry(config, i);
    }
    SlotsTile(slots, rx, tx, rxBytes, txBytes);
  }

  /** `config/freddy.json` */
  lemma FreddyIsRead(config: seq<ConfigEntry>)
    requires Has(config, ["KELOD105", "KeloEcPd", "KELOD105", "KELOD105", "KELOD105"],
                 [0, 36, 56, 92, 128], [164, 336, 448, 620, 792])
    ensures ReadsAs(config, [36, 20, 36, 36, 36], [172, 112, 172, 172, 172])
  {
    FileIsRead(config, ["KELOD105", "KeloEcPd", "KELOD105", "KELOD105", "KELOD105"],
               [0, 36, 56, 92, 128], [164, 336, 448, 620, 792], [36, 20, 36, 36, 36], [172, 112, 172, 172, 172]);
  }

  /** `config/ropod.json` */
  lemma RopodIsRead(config: seq<ConfigEntry>)
    requires Has(config, ["SWMC", "SWMC", "SWMC", "SWMC", "SWMC"], [0, 36, 72, 108, 144], [180, 352, 524, 696, 868])
    ensures ReadsAs(config, [36, 36, 36, 36, 36], [172, 172, 172, 172, 172])
  {
    FileIsRead(config, ["SWMC", "SWMC", "SWMC", "SWMC", "SWMC"],
               [0, 36, 72, 108, 144], [180, 352, 524, 696, 868], [36, 36, 36, 36, 36], [172, 172, 172, 172, 172]);
  }

  /** `config/robile_4w_platform.json` */
  lemma Robile4wIsRead(config: seq<ConfigEntry>)
    requires Has(config, ["KELO_ROBILE", "KELOD105", "KELOD105", "KELOD105", "KELOD105"],
                 [0, 12, 48, 84, 120], [156, 224, 396, 568, 740])
    ensures ReadsAs(config, [12, 36, 36, 36, 36], [68, 172, 172, 172, 172])
  {
    FileIsRead(config, ["KELO_ROBILE", "KELOD105", "KELOD105", "KELOD105", "KELOD105"],
               [0, 12, 48, 84, 120], [156, 224, 396, 568, 740], [12, 36, 36, 36, 36], [68, 172, 172, 172, 172]);
  }

  /** `config/robile_2w_platform.json` */
  lemma Robile2wIsRead(config: seq<ConfigEntry>)
    requires Has(config, ["KELO_ROBILE", "KELOD105", "KELOD105"], [0, 12, 48], [84, 152, 324])
    ensures ReadsAs(config, [12, 36, 36], [68, 172, 172])
  {
    FileIsRead(config, ["KELO_ROBILE", "KELOD105", "KELOD105"], [0, 12, 48], [84, 152, 324],
               [12, 36, 36], [68, 172, 172]);
  }
}
