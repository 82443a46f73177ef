/**
 The three supported slave types: their packed process data structs and the
 text shown for each field.
 */
module SlaveData {
  import opened Optional
  import opened PackedCodec
  import Decimal

  datatype SlaveType = KeloDrive | RobileBattery | KeloBms

  /** Maps the name stored in a slave's EEPROM to its type; unknown names have none. */
  function GetSlaveType(name: string): (t: Option<SlaveType>) {
    if name == "KELO_ROBILE" then Some(RobileBattery)
    else if name == "SWMC" || name == "KELOD105" then Some(KeloDrive)
    else if name == "KeloEcPd" then Some(KeloBms)
    else None
  }

  /** The field widths, in bytes, of a slave class's two packed structs. */
  datatype Shape = Shape(rx: seq<nat>, tx: seq<nat>)

  function ShapeOf(t: SlaveType): (s: Shape) {
    match t
    case KeloDrive => Shape(DriveRx(), DriveStatus() + DriveMotor() + DriveMotor() + DriveImu())
    case RobileBattery => Shape(BatteryRx(), BatterySupply() + BatteryPack())
    case KeloBms => Shape(BmsRx(), BmsBoard() + BmsPack() + BmsPack())
  }

  // command1 to timestamp
  function DriveRx(): seq<nat> { [2, 2, 4, 4, 4, 4, 4, 4, 8] }

  // status1, status2, sensor_ts, setpoint_ts
  function DriveStatus(): seq<nat> { [2, 2, 8, 8] }

  // encoder to temperature of one motor
  function DriveMotor(): seq<nat> { [4, 4, 4, 4, 4, 4, 4, 4, 4, 4, 4, 4] }

  // encoder_pivot to current_in
  function DriveImu(): seq<nat> { [4, 4, 4, 8, 4, 4, 4, 4, 4, 4, 4, 4, 4] }

  // Command1 to PwrDeviceId
  function BatteryRx(): seq<nat> { [4, 4, 2, 2] }

  // TimeStamp to GenericData2
  function BatterySupply(): seq<nat> { [8, 2, 2, 2, 4, 4, 4, 4, 4, 4] }

  // bmsm_PwrDeviceId to bmsm_BatData2
  function BatteryPack(): seq<nat> { [2, 2, 4, 4, 4, 2, 4, 4, 4] }

  // command to neopixel_color2
  function BmsRx(): seq<nat> { [4, 2, 2, 2, 4, 2, 4] }

  // status to bus_voltage
  function BmsBoard(): seq<nat> { [4, 8, 4, 4, 4, 4, 4, 4, 4, 4, 4, 4, 4, 4] }

  // id to cycles of one battery
  function BmsPack(): seq<nat> { [4, 2, 4, 4, 4, 4, 4] }

  function RxVariables(t: SlaveType): seq<string> {
    match t
    case KeloDrive =>
      ["command1", "command2", "setpoint1", "setpoint2", "limit1_p", "limit1_n", "limit2_p", "limit2_n", "timestamp"]
    case RobileBattery =>
      ["command1", "command2", "shutdown", "pwr_device_id"]
    case KeloBms =>
      ["command", "bms1_command", "bms2_command", "neopixel_range1", "neopixel_color1", "neopixel_range2",
       "neopixel_color2"]
  }

  function TxVariables(t: SlaveType): seq<string> {
    match t
    case KeloDrive =>
      ["status1", "status2", "sensor_ts", "setpoint_ts", "encoder_1", "velocity_1", "current_1_d", "current_1_q",
       "current_1_u", "current_1_v", "current_1_w", "voltage_1", "voltage_1_u", "voltage_1_v", "voltage_1_w",
       "temperature_1", "encoder_2", "velocity_2", "current_2_d", "current_2_q", "current_2_u", "current_2_v",
       "current_2_w", "voltage_2", "voltage_2_u", "voltage_2_v", "voltage_2_w", "temperature_2", "encoder_pivot",
       "velocity_pivot", "voltage_bus", "imu_ts", "accel_x", "accel_y", "accel_z", "gyro_x", "gyro_y", "gyro_z",
       "temperature_imu", "pressure", "current_in"]
    case RobileBattery =>
      ["timestamp", "status", "error", "warning", "output_current", "output_voltage", "output_power",
       "aux_port_current", "generic_data1", "generic_data2", "bmsm_pwr_device_id", "bmsm_status", "bmsm_voltage",
       "bmsm_current", "bmsm_temperature", "bmsm_soc", "bmsm_sn", "bmsm_bat_data1", "bmsm_bat_data2"]
    case KeloBms =>
      ["status", "imu_ts", "accel_x", "accel_y", "accel_z", "gyro_x", "gyro_y", "gyro_z", "imu_temperature",
       "pressure", "chargeport_voltage", "enable_voltage", "neopixel_voltage", "bus_voltage", "id1", "status1",
       "voltage1", "current1", "soc1", "temperature1", "cycles1", "id2", "status2", "voltage2", "current2", "soc2",
       "temperature2", "cycles2"]
  }

  lemma DriveRxSize() ensures Size(DriveRx()) == 36 {}
  lemma DriveStatusSize() ensures Size(DriveStatus()) == 20 {}
  lemma DriveMotorSize() ensures Size(DriveMotor()) == 48 {}
  lemma DriveImuSize() ensures Size(DriveImu()) == 56 {}
  lemma BatteryRxSize() ensures Size(BatteryRx()) == 12 {}
  lemma BatterySupplySize() ensures Size(BatterySupply()) == 38 {}
  lemma BatteryPackSize() ensures Size(BatteryPack()) == 30 {}
  lemma BmsRxSize() ensures Size(BmsRx()) == 20 {}
  lemma BmsBoardSize() ensures Size(BmsBoard()) == 60 {}
  lemma BmsPackSize() ensures Size(BmsPack()) == 26 {}

  lemma {:induction false} SumOfGroups(a: seq<nat>, b: seq<nat>, c: seq<nat>, d: seq<nat>)
    ensures Size(a + b) == Size(a) + Size(b)
    ensures Size(a + b + c) == Size(a) + Size(b) + Size(c)
    ensures Size(a + b + c + d) == Size(a) + Size(b) + Size(c) + Size(d)
  {
    SizeConcat(a, b);
    SizeConcat(a + b, c);
    SizeConcat(a + b + c, d);
  }

  lemma DriveSizes()
    ensures Size(ShapeOf(KeloDrive).rx) == 36 && Size(ShapeOf(KeloDrive).tx) == 172
  {
    DriveRxSize();
    DriveStatusSize();
    DriveMotorSize();
    DriveImuSize();
    SumOfGroups(DriveStatus(), DriveMotor(), DriveMotor(), DriveImu());
  }

  lemma BatterySizes()
    ensures Size(ShapeOf(RobileBattery).rx) == 12 && Size(ShapeOf(RobileBattery).tx) == 68
  {
    BatteryRxSize();
    BatterySupplySize();
    BatteryPackSize();
    SizeConcat(BatterySupply(), BatteryPack());
  }

  lemma BmsSizes()
    ensures Size(ShapeOf(KeloBms).rx) == 20 && Size(ShapeOf(KeloBms).tx) == 112
  {
    BmsRxSize();
    BmsBoardSize();
    BmsPackSize();
    SizeConcat(BmsBoard(), BmsPack());
    SizeConcat(BmsBoard() + BmsPack(), BmsPack());
  }

  /** The contents of a slave's `rx` and `tx` structs. */
  datatype Contents = Contents(rx: seq<nat>, tx: seq<nat>)

  ghost predicate WellFormed(s: Shape, c: Contents) {
    Fits(s.rx, c.rx) && Fits(s.tx, c.tx)
  }

  /** Both windows lie inside the buffer, so that `copyData` reads defined bytes. */
  ghost predicate WindowsInside(s: Shape, buffer: seq<byte>, rxStart: int, txStart: int) {
    && 0 <= rxStart && rxStart + Size(s.rx) <= |buffer|
    && 0 <= txStart && txStart + Size(s.tx) <= |buffer|
  }

  /** The bytes that a `memcpy` of `size` bytes from `buffer + start` moves. */
  function Window(buffer: seq<byte>, start: int, size: nat): (w: seq<byte>)
    requires 0 <= start && start + size <= |buffer|
    ensures |w| == size
  {
    buffer[start..start + size]
  }

  /** What `copyData` leaves in the structs when its pointers are `buffer + rxStart` and `buffer + txStart`. */
  function ReadContents(s: Shape, buffer: seq<byte>, rxStart: int, txStart: int): (c: Contents)
    requires WindowsInside(s, buffer, rxStart, txStart)
    ensures WellFormed(s, c)
  {
    Contents(Unpack(s.rx, Window(buffer, rxStart, Size(s.rx))), Unpack(s.tx, Window(buffer, txStart, Size(s.tx))))
  }

  /** Where one slave's two structs start, relative to the process image. */
  datatype Slot = Slot(shape: Shape, rxStart: int, txStart: int)

  ghost predicate SlotsInside(slots: seq<Slot>, image: seq<byte>) {
    forall i :: 0 <= i < |slots| ==> SlotInside(slots[i], image)
  }

  ghost predicate SlotInside(slot: Slot, image: seq<byte>) {
    WindowsInside(slot.shape, image, slot.rxStart, slot.txStart)
  }

  function ReadSlot(slot: Slot, image: seq<byte>): Contents
    requires SlotInside(slot, image)
  {
    ReadContents(slot.shape, image, slot.rxStart, slot.txStart)
  }

  /** The contents of all slaves after one pass of the copy loop over `image`. */
  function ReadAll(slots: seq<Slot>, image: seq<byte>): (all: seq<Contents>)
    requires SlotsInside(slots, image)
    ensures |all| == |slots|
    ensures forall i :: 0 <= i < |slots| ==> all[i] == ReadSlot(slots[i], image)
  {
    seq(|slots|, i requires 0 <= i < |slots| => ReadSlot(slots[i], image))
  }

  /** Only the bytes up to the end of the windows matter. */
  lemma CommonPrefixReadsTheSame(slot: Slot, a: seq<byte>, b: seq<byte>, n: nat)
    requires n <= |a| && n <= |b| && a[..n] == b[..n]
    requires SlotInside(slot, a[..n])
    ensures SlotInside(slot, a) && SlotInside(slot, b)
    ensures ReadSlot(slot, a) == ReadSlot(slot, b)
  {
    var Slot(shape, rx, tx) := slot;
    CommonPrefixWindow(a, b, n, rx, Size(shape.rx));
    CommonPrefixWindow(a, b, n, tx, Size(shape.tx));
  }

  lemma CommonPrefixWindow(a: seq<byte>, b: seq<byte>, n: nat, start: int, size: nat)
    requires n <= |a| && n <= |b| && a[..n] == b[..n]
    requires 0 <= start && start + size <= n
    ensures Window(a, start, size) == Window(b, start, size)
  {
    assert Window(a, start, size) == Window(a[..n], start, size);
    assert Window(b, start, size) == Window(b[..n], start, size);
  }

  /** Two buffers leave the same contents exactly when the bytes of both windows coincide. */
  lemma SameContentsIffSameBytes(s: Shape, a: seq<byte>, rxA: int, txA: int, b: seq<byte>, rxB: int, txB: int)
    requires WindowsInside(s, a, rxA, txA) && WindowsInside(s, b, rxB, txB)
    ensures ReadContents(s, a, rxA, txA) == ReadContents(s, b, rxB, txB)
       <==> && Window(a, rxA, Size(s.rx)) == Window(b, rxB, Size(s.rx))
            && Window(a, txA, Size(s.tx)) == Window(b, txB, Size(s.tx))
  {
    UnpackInjective(s.rx, Window(a, rxA, Size(s.rx)), Window(b, rxB, Size(s.rx)));
    UnpackInjective(s.tx, Window(a, txA, Size(s.tx)), Window(b, txB, Size(s.tx)));
  }

  lemma {:induction false} UnpackInjective(widths: seq<nat>, a: seq<byte>, b: seq<byte>)
    requires |a| == |b| == Size(widths)
    ensures Unpack(widths, a) == Unpack(widths, b) <==> a == b
  {
    PackUnpack(widths, a);
    PackUnpack(widths, b);
  }

  /** One line of the display: a variable name and the word of its struct field. */
  datatype Row = Row(variable: string, word: nat)

  /** `getRxVariables` beside `getRxValues`, and the same for `tx`; the text of a word is not modelled here. */
  function Rows(variables: seq<string>, values: seq<nat>): (rows: seq<Row>)
    requires |variables| == |values|
    ensures |rows| == |values|
  {
    if values == [] then [] else [Row(variables[0], values[0])] + Rows(variables[1..], values[1..])
  }

  lemma {:induction false} RowAt(variables: seq<string>, values: seq<nat>, k: nat)
    requires |variables| == |values| && k < |values|
    ensures Rows(variables, values)[k] == Row(variables[k], values[k])
  {
    if k != 0 {
      RowAt(variables[1..], values[1..], k - 1);
    }
  }

  /** Row k shows variable k beside the number at field k's packed offset from `start` on. */
  ghost predicate ShowsField(row: Row, variables: seq<string>, widths: seq<nat>, image: seq<byte>, start: int, k: nat) {
    && k < |variables| && k < |widths| && 0 <= start
    && start + Size(widths[..k]) + widths[k] <= |image|
    && row == Row(variables[k], FromBytes(Window(image, start + Size(widths[..k]), widths[k])))
  }

  lemma {:induction false} RowShowsField(variables: seq<string>, widths: seq<nat>, image: seq<byte>, start: nat, k: nat)
    requires start + Size(widths) <= |image| && |variables| == |widths| && k < |widths|
    ensures ShowsField(Rows(variables, Unpack(widths, Window(image, start, Size(widths))))[k],
                       variables, widths, image, start, k)
  {
    var window, offset := Window(image, start, Size(widths)), Size(widths[..k]);
    UnpackAt(widths, window, k);
    RowAt(variables, Unpack(widths, window), k);
    assert window[offset..][..widths[k]] == Window(image, start + offset, widths[k]);
  }

  /** Every slave class has exactly one table entry per struct field. */
  lemma TablesMatchStructs(t: SlaveType)
    ensures |RxVariables(t)| == |ShapeOf(t).rx| && |TxVariables(t)| == |ShapeOf(t).tx|
  {
  }

  /**
   For every slave type, every row of both tables shows its variable beside the
   number that the process image holds at that field's place in the slave's window.
   */
  lemma RendersInTableOrder(t: SlaveType, slot: Slot, image: seq<byte>)
    requires slot.shape == ShapeOf(t) && SlotInside(slot, image)
    ensures |RxVariables(t)| == |slot.shape.rx| && |TxVariables(t)| == |slot.shape.tx|
    ensures forall k :: 0 <= k < |slot.shape.rx| ==>
              ShowsField(Rows(RxVariables(t), ReadSlot(slot, image).rx)[k],
                         RxVariables(t), slot.shape.rx, image, slot.rxStart, k)
    ensures forall k :: 0 <= k < |slot.shape.tx| ==>
              ShowsField(Rows(TxVariables(t), ReadSlot(slot, image).tx)[k],
                         TxVariables(t), slot.shape.tx, image, slot.txStart, k)
  {
    TablesMatchStructs(t);
    RendersAll(RxVariables(t), slot.shape.rx, image, slot.rxStart);
    RendersAll(TxVariables(t), slot.shape.tx, image, slot.txStart);
  }

  lemma {:induction false} RendersAll(variables: seq<string>, widths: seq<nat>, image: seq<byte>, start: nat)
    requires start + Size(widths) <= |image| && |variables| == |widths|
    ensures forall k :: 0 <= k < |widths| ==>
              ShowsField(Rows(variables, Unpack(widths, Window(image, start, Size(widths))))[k],
                         variables, widths, image, start, k)
  {
    forall k | 0 <= k < |widths|
      ensures ShowsField(Rows(variables, Unpack(widths, Window(image, start, Size(widths))))[k],
                         variables, widths, image, start, k)
    {
      RowShowsField(variables, widths, image, start, k);
    }
  }

  /** The time stamps are the eight-byte fields. */
  lemma {:induction false} DriveTimestamps()
    ensures RxVariables(KeloDrive)[8] == "timestamp" && ShapeOf(KeloDrive).rx[8] == 8
    ensures TxVariables(KeloDrive)[2] == "sensor_ts" && ShapeOf(KeloDrive).tx[2] == 8
    ensures TxVariables(KeloDrive)[3] == "setpoint_ts" && ShapeOf(KeloDrive).tx[3] == 8
    ensures TxVariables(KeloDrive)[31] == "imu_ts" && ShapeOf(KeloDrive).tx[31] == 8
  {
  }

  lemma {:induction false} BatteryTimestamp()
    ensures TxVariables(RobileBattery)[0] == "timestamp" && ShapeOf(RobileBattery).tx[0] == 8
  {
  }

  lemma {:induction false} BmsTimestamp()
    ensures TxVariables(KeloBms)[1] == "imu_ts" && ShapeOf(KeloBms).tx[1] == 8
  {
  }

  // Byte offsets ---------------------------------------------------------------------

  /** Field k of a packed struct starts at byte `offsets[k]`. */
  ghost predicate StartAt(widths: seq<nat>, offsets: seq<nat>) {
    |offsets| == |widths| && forall k :: 0 <= k < |widths| ==> Size(widths[..k]) == offsets[k]
  }

  ghost predicate Follow(widths: seq<nat>, offsets: seq<nat>) {
    && |offsets| == |widths| > 0 && offsets[0] == 0
    && forall k :: 0 <= k < |widths| - 1 ==> offsets[k + 1] == offsets[k] + widths[k]
  }

  lemma {:induction false} StepByStep(widths: seq<nat>, offsets: seq<nat>, n: nat)
    requires Follow(widths, offsets) && n < |widths|
    ensures forall k :: 0 <= k <= n ==> Size(widths[..k]) == offsets[k]
  {
    if n != 0 {
      StepByStep(widths, offsets, n - 1);
      SizeConcat(widths[..n - 1], [widths[n - 1]]);
      assert widths[..n] == widths[..n - 1] + [widths[n - 1]];
    }
  }

  lemma {:induction false} DriveRxOffsets()
    ensures StartAt(DriveRx(), [0, 2, 4, 8, 12, 16, 20, 24, 28])
  {
    StepByStep(DriveRx(), [0, 2, 4, 8, 12, 16, 20, 24, 28], 8);
  }

  lemma {:induction false} DriveStatusOffsets()
    ensures StartAt(DriveStatus(), [0, 2, 4, 12])
  {
    StepByStep(DriveStatus(), [0, 2, 4, 12], 3);
  }

  lemma {:induction false} DriveMotorOffsets()
    ensures StartAt(DriveMotor(), [0, 4, 8, 12, 16, 20, 24, 28, 32, 36, 40, 44])
  {
    StepByStep(DriveMotor(), [0, 4, 8, 12, 16, 20, 24, 28, 32, 36, 40, 44], 11);
  }

  lemma {:induction false} DriveImuOffsets()
    ensures StartAt(DriveImu(), [0, 4, 8, 12, 20, 24, 28, 32, 36, 40, 44, 48, 52])
  {
    StepByStep(DriveImu(), [0, 4, 8, 12, 20, 24, 28, 32, 36, 40, 44, 48, 52], 12);
  }

  lemma {:induction false} BatteryRxOffsets()
    ensures StartAt(BatteryRx(), [0, 4, 8, 10])
  {
    StepByStep(BatteryRx(), [0, 4, 8, 10], 3);
  }

  lemma {:induction false} BatterySupplyOffsets()
    ensures StartAt(BatterySupply(), [0, 8, 10, 12, 14, 18, 22, 26, 30, 34])
  {
    StepByStep(BatterySupply(), [0, 8, 10, 12, 14, 18, 22, 26, 30, 34], 9);
  }

  lemma {:induction false} BatteryPackOffsets()
    ensures StartAt(BatteryPack(), [0, 2, 4, 8, 12, 16, 18, 22, 26])
  {
    StepByStep(BatteryPack(), [0, 2, 4, 8, 12, 16, 18, 22, 26], 8);
  }

  lemma {:induction false} BmsRxOffsets()
    ensures StartAt(BmsRx(), [0, 4, 6, 8, 10, 14, 16])
  {
    StepByStep(BmsRx(), [0, 4, 6, 8, 10, 14, 16], 6);
  }

  lemma {:induction false} BmsBoardOffsets()
    ensures StartAt(BmsBoard(), [0, 4, 12, 16, 20, 24, 28, 32, 36, 40, 44, 48, 52, 56])
  {
    StepByStep(BmsBoard(), [0, 4, 12, 16, 20, 24, 28, 32, 36, 40, 44, 48, 52, 56], 13);
  }

  lemma {:induction false} BmsPackOffsets()
    ensures StartAt(BmsPack(), [0, 4, 6, 10, 14, 18, 22])
  {
    StepByStep(BmsPack(), [0, 4, 6, 10, 14, 18, 22], 6);
  }

  /** The fields of a group stand together in a struct, from field `index` and byte `start` on. */
  ghost predicate GroupAt(widths: seq<nat>, group: seq<nat>, index: nat, start: nat) {
    index + |group| <= |widths| && widths[index..index + |group|] == group && Size(widths[..index]) == start
  }

  lemma {:induction false} FieldInGroup(widths: seq<nat>, group: seq<nat>, index: nat, start: nat,
                                        offsets: seq<nat>, k: nat)
    requires GroupAt(widths, group, index, start) && StartAt(group, offsets) && k < |group|
    ensures Size(widths[..index + k]) == start + offsets[k]
  {
    assert widths[..index + k] == widths[..index] + group[..k];
    SizeConcat(widths[..index], group[..k]);
  }

  lemma {:induction false} ConcatGroups(before: seq<nat>, group: seq<nat>, after: seq<nat>)
    ensures GroupAt(before + group + after, group, |before|, Size(before))
  {
    assert (before + group + after)[..|before|] == before;
  }

  /** Status, both motors, then pivot, IMU and supply. */
  lemma {:induction false} DriveTxGroups()
    ensures var tx := ShapeOf(KeloDrive).tx;
            GroupAt(tx, DriveStatus(), 0, 0) && GroupAt(tx, DriveMotor(), 4, 20)
            && GroupAt(tx, DriveMotor(), 16, 68) && GroupAt(tx, DriveImu(), 28, 116)
  {
    var status, motor, imu := DriveStatus(), DriveMotor(), DriveImu();
    DriveStatusSize();
    DriveMotorSize();
    SumOfGroups(status, motor, motor, imu);
    FourGroups(status, motor, motor, imu);
  }

  lemma {:induction false} FourGroups(a: seq<nat>, b: seq<nat>, c: seq<nat>, d: seq<nat>)
    ensures GroupAt(a + b + c + d, a, 0, 0) && GroupAt(a + b + c + d, b, |a|, Size(a))
    ensures GroupAt(a + b + c + d, c, |a| + |b|, Size(a + b))
    ensures GroupAt(a + b + c + d, d, |a| + |b| + |c|, Size(a + b + c))
  {
    var all := a + b + c + d;
    assert all == [] + a + (b + c + d) && all == a + b + (c + d) && all == a + b + c + d && all == (a + b + c) + d + [];
    ConcatGroups([], a, b + c + d);
    ConcatGroups(a, b, c + d);
    ConcatGroups(a + b, c, d);
    ConcatGroups(a + b + c, d, []);
  }

  /** Supply, then battery. */
  lemma {:induction false} BatteryTxGroups()
    ensures var tx := ShapeOf(RobileBattery).tx;
            GroupAt(tx, BatterySupply(), 0, 0) && GroupAt(tx, BatteryPack(), 10, 38)
  {
    BatterySupplySize();
    FourGroups(BatterySupply(), BatteryPack(), [], []);
    assert BatterySupply() + BatteryPack() + [] + [] == BatterySupply() + BatteryPack();
  }

  /** Board, then both batteries. */
  lemma {:induction false} BmsTxGroups()
    ensures var tx := ShapeOf(KeloBms).tx;
            GroupAt(tx, BmsBoard(), 0, 0) && GroupAt(tx, BmsPack(), 14, 60) && GroupAt(tx, BmsPack(), 21, 86)
  {
    BmsBoardSize();
    BmsPackSize();
    SizeConcat(BmsBoard(), BmsPack());
    FourGroups(BmsBoard(), BmsPack(), BmsPack(), []);
    assert BmsBoard() + BmsPack() + BmsPack() + [] == BmsBoard() + BmsPack() + BmsPack();
  }

  // Tooltips ---------------------------------------------------------------------

  /** The word whose bits a tooltip explains: the text of a value, read back and cast to 16 bits. */
  function TooltipWord(word: nat): nat {
    Decimal.ToNat(Decimal.OfNat(word)) % 65536
  }

  /** It is the low two bytes of the field. */
  lemma {:induction false} TooltipShowsLowBytes(field: seq<byte>)
    requires |field| >= 2
    ensures TooltipWord(FromBytes(field)) == FromBytes(field[..2])
  {
    Decimal.ReadBack(FromBytes(field));
    LowBytes(field);
    LowWord(field[0], field[1], FromBytes(field[2..]));
  }

  lemma {:induction false} LowBytes(field: seq<byte>)
    requires |field| >= 2
    ensures FromBytes(field) == field[0] + 256 * (field[1] + 256 * FromBytes(field[2..]))
    ensures FromBytes(field[..2]) == (field[0] as int) + 256 * (field[1] as int)
  {
    assert field[1..][1..] == field[2..];
    assert field[..2][1..] == [field[1]];
  }

  lemma LowWord(low: byte, high: byte, rest: nat)
    ensures (low + 256 * (high + 256 * rest)) % 65536 == low + 256 * high
  {
    assert low + 256 * (high + 256 * rest) == low + 256 * high + 65536 * rest;
  }

  /** The variables with tooltips are stored in two bytes, so that they are explained completely. */
  lemma TooltipFieldsHaveTwoBytes()
    ensures RxVariables(KeloDrive)[0] == "command1" && ShapeOf(KeloDrive).rx[0] == 2
    ensures TxVariables(KeloDrive)[0] == "status1" && ShapeOf(KeloDrive).tx[0] == 2
    ensures TxVariables(RobileBattery)[2] == "error" && ShapeOf(RobileBattery).tx[2] == 2
    ensures TxVariables(RobileBattery)[3] == "warning" && ShapeOf(RobileBattery).tx[3] == 2
  {
  }
}
