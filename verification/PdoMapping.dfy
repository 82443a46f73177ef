/**
 The offset calculator: which objects a slave maps into the process image, at
 which bit positions, and where its RX and TX data start.

 A slave is seen through its object dictionary.  The objects read are those of
 CANopen over EtherCAT (section 5.6 of ETG.1000.6).
 */
module PdoMapping {

  type u8 = i: int | 0 <= i < 0x100
  type u16 = i: int | 0 <= i < 0x1_0000

  /** A mapping entry: object index, subindex and length in bits, high to low bytes of a 32-bit word. */
  datatype Entry = Entry(index: u16, sub: u8, bitLength: u8)

  datatype Upload<T> = Upload(wkc: int, value: T)

  /**
   What reading (index, subindex) into a zeroed buffer of one, two or four bytes
   yields: the working counter and the buffer afterwards.
   */
  datatype Dictionary = Dictionary(
    read8: (nat, nat) -> Upload<u8>, read16: (nat, nat) -> Upload<u16>, read32: (nat, nat) -> Upload<Entry>)

  /** A subindex is passed on as one byte. */
  function LowByte(i: nat): (r: nat)
    ensures r < 0x100
  {
    if i < 0x100 then i else LowByte(i - 0x100)
  }

  // One sync manager ----------------------------------------------------------

  /** Number of PDOs assigned to a sync manager; none when the count cannot be read. */
  function AssignedCount(od: Dictionary, assign: nat): u16 {
    if od.read16(assign, 0).wkc > 0 then od.read16(assign, 0).value else 0
  }

  /** Index of the j-th assigned PDO. */
  function PdoIndex(od: Dictionary, assign: nat, j: nat): u16 {
    od.read16(assign, LowByte(j)).value
  }

  /** Number of entries of a PDO; index 0 marks an unused assignment. */
  function EntryCount(od: Dictionary, pdo: nat): u8 {
    if pdo == 0 then 0 else od.read8(pdo, 0).value
  }

  /** The first k entries of a PDO. */
  function Entries(od: Dictionary, pdo: nat, k: nat): (es: seq<Entry>)
    ensures |es| == k
  {
    if k == 0 then [] else Entries(od, pdo, k - 1) + [od.read32(pdo, LowByte(k)).value]
  }

  function PdoEntries(od: Dictionary, pdo: nat): (es: seq<Entry>)
    ensures |es| == EntryCount(od, pdo)
  {
    Entries(od, pdo, EntryCount(od, pdo))
  }

  /** The entries of the first j assigned PDOs. */
  function Assigned(od: Dictionary, assign: nat, j: nat): seq<Entry> {
    if j == 0 then [] else Assigned(od, assign, j - 1) + PdoEntries(od, PdoIndex(od, assign, j))
  }

  /** Everything a sync manager maps, in order. */
  function Mapped(od: Dictionary, assign: nat): seq<Entry> {
    Assigned(od, assign, AssignedCount(od, assign))
  }

  function Bits(es: seq<Entry>): nat {
    if es == [] then 0 else Bits(es[..|es| - 1]) + es[|es| - 1].bitLength
  }

  lemma {:induction false} BitsConcat(a: seq<Entry>, b: seq<Entry>)
    ensures Bits(a + b) == Bits(a) + Bits(b)
  {
    if b == [] {
      assert a + b == a;
    } else {
      assert (a + b)[..|a + b| - 1] == a + b[..|b| - 1];
      BitsConcat(a, b[..|b| - 1]);
    }
  }

  /** The first assigned PDO exists and has an entry. */
  predicate FirstPdoNonEmpty(od: Dictionary, assign: nat) {
    AssignedCount(od, assign) > 0 && PdoEntries(od, PdoIndex(od, assign, 1)) != []
  }

  /** Where an entry lands in the process image. */
  datatype Placement = Placement(entry: Entry, byteOffset: int, bit: nat)

  /** Entry m starts right after the lengths of the entries before it. */
  ghost predicate Placed(placed: seq<Placement>, es: seq<Entry>, mapOffset: int, bitOffset: nat) {
    && |placed| == |es|
    && forall m :: 0 <= m < |es| ==>
         && placed[m].entry == es[m] && placed[m].bit < 8
         && 8 * placed[m].byteOffset + placed[m].bit == 8 * mapOffset + bitOffset + Bits(es[..m])
  }

  lemma {:induction false} PlaceNext(placed: seq<Placement>, es: seq<Entry>, next: Placement,
                                     mapOffset: int, bitOffset: nat)
    requires Placed(placed, es, mapOffset, bitOffset) && next.bit < 8
    requires 8 * next.byteOffset + next.bit == 8 * mapOffset + bitOffset + Bits(es)
    ensures Placed(placed + [next], es + [next.entry], mapOffset, bitOffset)
    ensures Bits(es + [next.entry]) == Bits(es) + next.entry.bitLength
  {
    var all := es + [next.entry];
    assert all[..|es|] == es;
    forall m | 0 <= m < |es|
      ensures all[..m] == es[..m]
    {
    }
  }

  lemma {:induction false} PlaceAppend(a: seq<Placement>, ea: seq<Entry>,
                                       b: seq<Placement>, eb: seq<Entry>, mapOffset: int, bitOffset: nat)
    requires Placed(a, ea, mapOffset, bitOffset)
    requires Placed(b, eb, mapOffset, bitOffset + Bits(ea))
    ensures Placed(a + b, ea + eb, mapOffset, bitOffset)
  {
    forall m | 0 <= m < |ea + eb|
      ensures Bits((ea + eb)[..m]) == if m < |ea| then Bits(ea[..m]) else Bits(ea) + Bits(eb[..m - |ea|])
    {
      if m < |ea| {
        assert (ea + eb)[..m] == ea[..m];
      } else {
        assert (ea + eb)[..m] == ea + eb[..m - |ea|];
        BitsConcat(ea, eb[..m - |ea|]);
      }
    }
  }

  /** Byte and bit position of a bit offset. */
  function Position(entry: Entry, mapOffset: int, offset: nat): (p: Placement)
    ensures p.bit < 8 && 8 * p.byteOffset + p.bit == 8 * mapOffset + offset
  {
    Placement(entry, StartByte(mapOffset, offset), offset % 8)
  }

  function StartByte(mapOffset: int, bitOffset: nat): int {
    mapOffset + bitOffset / 8
  }

  /** The inner loop: the entries of one PDO. */
  method PlacePdo(od: Dictionary, pdo: nat, mapOffset: int, bitOffset: nat, first: bool, startIn: int)
    returns (bits: nat, start: int, ghost placed: seq<Placement>)
    requires pdo > 0
    ensures bits == Bits(PdoEntries(od, pdo)) && Placed(placed, PdoEntries(od, pdo), mapOffset, bitOffset)
    ensures start == if first && PdoEntries(od, pdo) != [] then StartByte(mapOffset, bitOffset) else startIn
  {
    var count: int := od.read8(pdo, 0).value;
    var sub: int := 1;
    bits, start, placed := 0, startIn, [];
    ghost var es := [];
    while sub <= count
      invariant 1 <= sub <= count + 1
      invariant es == Entries(od, pdo, sub - 1)
      invariant bits == Bits(es) && Placed(placed, es, mapOffset, bitOffset)
      invariant start == if first && sub > 1 then StartByte(mapOffset, bitOffset) else startIn
    {
      var next := Position(od.read32(pdo, LowByte(sub)).value, mapOffset, bitOffset + bits);
      if first && sub == 1 {
        start := next.byteOffset;
      }
      PlaceNext(placed, es, next, mapOffset, bitOffset);
      placed, es := placed + [next], es + [next.entry];
      bits := bits + next.entry.bitLength;
      sub := sub + 1;
    }
  }

  /** Increment of a 16-bit loop counter. */
  function Next16(i: u16): u16 {
    if i == 0xFFFF then 0 else i + 1
  }

  /** The entries of the PDOs up to number idx - 1 have been placed; the first of them has set the start offset. */
  ghost predicate PlacedUpTo(od: Dictionary, assign: nat, mapOffset: int, bitOffset: nat, startIn: int,
                             idx: nat, bits: nat, start: int, placed: seq<Placement>)
    requires idx >= 1
  {
    && bits == Bits(Assigned(od, assign, idx - 1))
    && Placed(placed, Assigned(od, assign, idx - 1), mapOffset, bitOffset)
    && start == if idx > 1 && PdoEntries(od, PdoIndex(od, assign, 1)) != []
                then StartByte(mapOffset, bitOffset) else startIn
  }

  /** The body of the outer loop. */
  method PlaceAssigned(od: Dictionary, assign: nat, mapOffset: int, bitOffset: nat, ghost startIn: int, idx: u16,
                       bitsIn: nat, startBefore: int, ghost placedIn: seq<Placement>)
    returns (bits: nat, start: int, ghost placed: seq<Placement>)
    requires idx >= 1 && PlacedUpTo(od, assign, mapOffset, bitOffset, startIn, idx, bitsIn, startBefore, placedIn)
    ensures PlacedUpTo(od, assign, mapOffset, bitOffset, startIn, idx + 1, bits, start, placed)
  {
    bits, start, placed := bitsIn, startBefore, placedIn;
    var pdo := od.read16(assign, LowByte(idx)).value;
    ghost var es, more := Assigned(od, assign, idx - 1), PdoEntries(od, pdo);
    if pdo > 0 {
      var length;
      ghost var ps;
      length, start, ps := PlacePdo(od, pdo, mapOffset, bitOffset + bitsIn, idx == 1, startBefore);
      BitsConcat(es, more);
      PlaceAppend(placedIn, es, ps, more, mapOffset, bitOffset);
      bits, placed := bitsIn + length, placedIn + ps;
    } else {
      assert es + more == es;
    }
  }

  /**
   All PDOs of one sync manager.  The loop counter is 16 bits wide, so a count of
   65535 would never be passed (see `CounterPassesCount`).
   */
  method SiPdoAssign(od: Dictionary, assign: nat, mapOffset: int, bitOffset: nat, startIn: int)
    returns (bits: nat, start: int, ghost placed: seq<Placement>)
    requires AssignedCount(od, assign) < 0xFFFF
    ensures bits == Bits(Mapped(od, assign))
    ensures start == if FirstPdoNonEmpty(od, assign) then StartByte(mapOffset, bitOffset) else startIn
    ensures Placed(placed, Mapped(od, assign), mapOffset, bitOffset)
  {
    bits, start, placed := 0, startIn, [];
    if od.read16(assign, 0).wkc > 0 && od.read16(assign, 0).value > 0 {
      var count: u16 := od.read16(assign, 0).value;
      var idx: u16 := 1;
      while idx <= count
        invariant 1 <= idx <= count + 1 <= 0xFFFF
        invariant PlacedUpTo(od, assign, mapOffset, bitOffset, startIn, idx, bits, start, placed)
      {
        bits, start, placed := PlaceAssigned(od, assign, mapOffset, bitOffset, startIn, idx, bits, start, placed);
        idx := Next16(idx);
      }
    }
  }

  /** The outer loop's counter after k iterations. */
  function Counter(k: nat): u16 {
    if k == 0 then 1 else Next16(Counter(k - 1))
  }

  lemma {:induction false} CounterWraps(k: nat)
    ensures Counter(k) == (k + 1) % 0x1_0000
  {
    if k != 0 {
      CounterWraps(k - 1);
    }
  }

  /** The outer loop ends exactly for counts below 65535. */
  lemma {:induction false} CounterPassesCount(count: u16)
    ensures (exists k :: Counter(k) > count) <==> count < 0xFFFF
  {
    if count < 0xFFFF {
      CounterWraps(count);
    }
  }
}
