/**
 The mapping of a whole slave: which sync managers carry outputs and inputs,
 where RX and TX data start, and the workaround for slaves that number their
 sync manager types one too low.
 */
module SyncManagers {
  import opened PdoMapping

  const SM_COMM_TYPE := 0x1C00
  const PDO_ASSIGN := 0x1C10
  const MAX_SM := 8
  const OUTPUTS: u8 := 3
  const INPUTS: u8 := 4

  /** The last sync manager looked at; the loop starts at 2, so 1 stands for none. */
  function LastSm(od: Dictionary): (n: nat)
    ensures 1 <= n <= MAX_SM
  {
    var count := od.read8(SM_COMM_TYPE, 0);
    if count.wkc > 0 && count.value > 2 then (if count.value - 1 > MAX_SM then MAX_SM else count.value - 1) else 1
  }

  function TypeAnswer(od: Dictionary, sm: nat): Upload<u8> {
    od.read8(SM_COMM_TYPE, sm + 1)
  }

  /** SM2 says it is a mailbox, which means that all types are one too low. */
  predicate Triggers(od: Dictionary) {
    TypeAnswer(od, 2).wkc > 0 && TypeAnswer(od, 2).value == 2
  }

  /** One more, in eight bits; 0 stays 0. */
  function Raise(t: u8): u8 {
    if t == 0 || t == 0xFF then 0 else t + 1
  }

  /** The type a sync manager is taken to have; 0 when its type cannot be read. */
  function SmType(od: Dictionary, sm: nat): u8 {
    if TypeAnswer(od, sm).wkc <= 0 then 0
    else if Triggers(od) then Raise(TypeAnswer(od, sm).value)
    else TypeAnswer(od, sm).value
  }

  function AssignedPdos(od: Dictionary, sm: nat): u16 {
    AssignedCount(od, PDO_ASSIGN + sm)
  }

  function SmBits(od: Dictionary, sm: nat): nat {
    Bits(Mapped(od, PDO_ASSIGN + sm))
  }

  /** Bits mapped by the sync managers 2..n-1 of one direction. */
  function DirectionBits(od: Dictionary, direction: u8, n: nat): nat {
    if n <= 2 then 0
    else DirectionBits(od, direction, n - 1) + (if SmType(od, n - 1) == direction then SmBits(od, n - 1) else 0)
  }

  /** Everything the sync managers 2..n-1 of one direction map, in order. */
  function DirectionEntries(od: Dictionary, direction: u8, n: nat): seq<Entry> {
    if n <= 2 then []
    else DirectionEntries(od, direction, n - 1)
         + (if SmType(od, n - 1) == direction then Mapped(od, PDO_ASSIGN + n - 1) else [])
  }

  lemma {:induction false} DirectionEntriesBits(od: Dictionary, direction: u8, n: nat)
    ensures Bits(DirectionEntries(od, direction, n)) == DirectionBits(od, direction, n)
  {
    if n > 2 {
      DirectionEntriesBits(od, direction, n - 1);
      BitsConcat(DirectionEntries(od, direction, n - 1),
                 if SmType(od, n - 1) == direction then Mapped(od, PDO_ASSIGN + n - 1) else []);
    }
  }

  /** Sync manager sm writes the start offset of the direction. */
  predicate Starts(od: Dictionary, direction: u8, sm: nat) {
    SmType(od, sm) == direction && FirstPdoNonEmpty(od, PDO_ASSIGN + sm)
  }

  /** The start offset after the sync managers 2..n-1: the last one that starts with a non-empty PDO wins. */
  function StartOffset(od: Dictionary, direction: u8, base: int, initial: int, n: nat): int {
    if n <= 2 then initial
    else if Starts(od, direction, n - 1) then StartByte(base, DirectionBits(od, direction, n - 1))
    else StartOffset(od, direction, base, initial, n - 1)
  }

  /** No sync manager that is walked has the count that the 16-bit loop never passes. */
  ghost predicate Terminates(od: Dictionary) {
    forall sm :: 2 <= sm <= LastSm(od) && (SmType(od, sm) == OUTPUTS || SmType(od, sm) == INPUTS)
                 ==> AssignedPdos(od, sm) < 0xFFFF
  }

  /** One sync manager of a direction, whose entries follow those of the earlier ones. */
  method MapSm(od: Dictionary, direction: u8, sm: nat, base: int, bitsIn: nat, startIn: int,
               ghost placedIn: seq<Placement>)
    returns (bits: nat, start: int, ghost placed: seq<Placement>)
    requires sm >= 2 && SmType(od, sm) == direction && AssignedPdos(od, sm) < 0xFFFF
    requires bitsIn == DirectionBits(od, direction, sm)
    requires Placed(placedIn, DirectionEntries(od, direction, sm), base, 0)
    ensures bits == DirectionBits(od, direction, sm + 1)
    ensures start == if Starts(od, direction, sm) then StartByte(base, bitsIn) else startIn
    ensures Placed(placed, DirectionEntries(od, direction, sm + 1), base, 0)
  {
    var size;
    ghost var more;
    size, start, more := SiPdoAssign(od, PDO_ASSIGN + sm, base, bitsIn, startIn);
    DirectionEntriesBits(od, direction, sm);
    PlaceAppend(placedIn, DirectionEntries(od, direction, sm), more, Mapped(od, PDO_ASSIGN + sm), base, 0);
    bits, placed := bitsIn + size, placedIn + more;
  }

  /** A sync manager of another type adds nothing to the direction. */
  lemma OtherType(od: Dictionary, direction: u8, sm: nat)
    requires sm >= 2 && SmType(od, sm) != direction
    ensures DirectionBits(od, direction, sm + 1) == DirectionBits(od, direction, sm)
    ensures DirectionEntries(od, direction, sm + 1) == DirectionEntries(od, direction, sm)
    ensures forall base, initial ::
              StartOffset(od, direction, base, initial, sm + 1) == StartOffset(od, direction, base, initial, sm)
  {
  }

  /** The type that the loop works with, given the workaround flag before this sync manager. */
  method CorrectedType(od: Dictionary, sm: nat, bugAddIn: bool) returns (bugAdd: bool, smType: u8)
    requires sm >= 2 && bugAddIn == (sm > 2 && Triggers(od))
    ensures bugAdd == Triggers(od) && smType == SmType(od, sm)
  {
    bugAdd, smType := bugAddIn, 0;
    var answer := TypeAnswer(od, sm);
    if answer.wkc > 0 {
      if sm == 2 && answer.value == 2 {
        bugAdd := true;
      }
      smType := if bugAdd then Raise(answer.value) else answer.value;
    }
  }

  method SiMapSdo(od: Dictionary, outputs: int, inputs: int, rxIn: int, txIn: int)
    returns (found: int, rx: int, tx: int, ghost outPlaced: seq<Placement>, ghost inPlaced: seq<Placement>)
    requires Terminates(od)
    ensures rx == StartOffset(od, OUTPUTS, outputs, rxIn, LastSm(od) + 1)
    ensures tx == StartOffset(od, INPUTS, inputs, txIn, LastSm(od) + 1)
    ensures found
         == if DirectionBits(od, OUTPUTS, LastSm(od) + 1) + DirectionBits(od, INPUTS, LastSm(od) + 1) > 0 then 1 else 0
    ensures Placed(outPlaced, DirectionEntries(od, OUTPUTS, LastSm(od) + 1), outputs, 0)
    ensures Placed(inPlaced, DirectionEntries(od, INPUTS, LastSm(od) + 1), inputs, 0)
  {
    var bugAdd, outBits, inBits := false, 0, 0;
    rx, tx, outPlaced, inPlaced := rxIn, txIn, [], [];
    var last := LastSm(od);
    var sm := 2;
    while sm <= last
      invariant 2 <= sm <= last + 1 || (sm == 2 && last == 1)
      invariant bugAdd == (sm > 2 && Triggers(od))
      invariant outBits == DirectionBits(od, OUTPUTS, sm) && inBits == DirectionBits(od, INPUTS, sm)
      invariant rx == StartOffset(od, OUTPUTS, outputs, rxIn, sm)
      invariant tx == StartOffset(od, INPUTS, inputs, txIn, sm)
      invariant Placed(outPlaced, DirectionEntries(od, OUTPUTS, sm), outputs, 0)
      invariant Placed(inPlaced, DirectionEntries(od, INPUTS, sm), inputs, 0)
    {
      var smType;
      bugAdd, smType := CorrectedType(od, sm, bugAdd);
      if smType == OUTPUTS {
        outBits, rx, outPlaced := MapSm(od, OUTPUTS, sm, outputs, outBits, rx, outPlaced);
      } else {
        OtherType(od, OUTPUTS, sm);
      }
      if smType == INPUTS {
        inBits, tx, inPlaced := MapSm(od, INPUTS, sm, inputs, inBits, tx, inPlaced);
      } else {
        OtherType(od, INPUTS, sm);
      }
      sm := sm + 1;
    }
    found := if outBits > 0 || inBits > 0 then 1 else 0;
  }

  // When the offset is the pointer ----------------------------------------------

  /** Sync manager `sm` is the last of 2..n-1 that writes the direction's start offset. */
  ghost predicate LastStarting(od: Dictionary, direction: u8, n: nat, sm: nat) {
    && 2 <= sm < n && Starts(od, direction, sm)
    && forall later :: sm < later < n ==> !Starts(od, direction, later)
  }

  /**
   The offset is assigned exactly when some sync manager of the direction starts
   with a non-empty PDO, and it is the slave's own pointer into the image exactly
   when fewer than eight bits of that direction were mapped before the last one
   that does.
   */
  lemma {:induction false} OffsetIsPointer(od: Dictionary, direction: u8, base: int, initial: int, n: nat)
    ensures (forall sm :: 2 <= sm < n ==> !Starts(od, direction, sm))
            ==> StartOffset(od, direction, base, initial, n) == initial
    ensures forall sm :: LastStarting(od, direction, n, sm) ==>
              && StartOffset(od, direction, base, initial, n) == StartByte(base, DirectionBits(od, direction, sm))
              && (StartOffset(od, direction, base, initial, n) == base <==> DirectionBits(od, direction, sm) < 8)
  {
    if n > 2 && !Starts(od, direction, n - 1) {
      OffsetIsPointer(od, direction, base, initial, n - 1);
      forall sm | LastStarting(od, direction, n, sm)
        ensures LastStarting(od, direction, n - 1, sm)
      {
      }
    }
  }

  /** A slave with two output sync managers, each with one PDO of one 16-bit entry. */
  function TwoOutputSms(): Dictionary {
    Dictionary(
      (i: nat, s: nat) => Upload(1, if i == SM_COMM_TYPE then (if s == 0 then 4 else OUTPUTS) else 1),
      (i: nat, s: nat) => Upload(1, if s == 0 then 1 else 0x1600),
      (i: nat, s: nat) => Upload(1, Entry(0x7000, 1, 16)))
  }

  /** Its offset is that of the second sync manager, two bytes behind its pointer. */
  lemma SecondSmMovesOffset(base: int, initial: int)
    ensures StartOffset(TwoOutputSms(), OUTPUTS, base, initial, LastSm(TwoOutputSms()) + 1) == base + 2
  {
    var od := TwoOutputSms();
    assert Entries(od, 0x1600, 1) == Entries(od, 0x1600, 0) + [Entry(0x7000, 1, 16)];
    assert PdoEntries(od, 0x1600) == [Entry(0x7000, 1, 16)];
    assert Mapped(od, PDO_ASSIGN + 2) == Assigned(od, PDO_ASSIGN + 2, 0) + PdoEntries(od, 0x1600);
    assert SmBits(od, 2) == 16;
    assert DirectionBits(od, OUTPUTS, 3) == 16;
    assert Starts(od, OUTPUTS, 3);
  }

  // Sizes ------------------------------------------------------------------------

  lemma {:induction false} AssignedBound(od: Dictionary, assign: nat, j: nat)
    ensures Bits(Assigned(od, assign, j)) <= j * 65025
  {
    if j != 0 {
      AssignedBound(od, assign, j - 1);
      var pdo := PdoIndex(od, assign, j);
      BitsConcat(Assigned(od, assign, j - 1), PdoEntries(od, pdo));
      EntriesBound(od, pdo, EntryCount(od, pdo));
    }
  }

  lemma {:induction false} EntriesBound(od: Dictionary, pdo: nat, k: nat)
    ensures Bits(Entries(od, pdo, k)) <= k * 255
  {
    if k != 0 {
      EntriesBound(od, pdo, k - 1);
      BitsConcat(Entries(od, pdo, k - 1), [od.read32(pdo, LowByte(k)).value]);
      assert Bits([od.read32(pdo, LowByte(k)).value]) <= 255;
    }
  }

  /** The 32-bit running totals do not overflow for slaves that assign at most 4717 PDOs to each sync manager. */
  lemma {:induction false} TotalsFit(od: Dictionary, direction: u8, n: nat)
    requires 2 <= n <= MAX_SM + 1
    requires forall sm :: 2 <= sm < n ==> AssignedPdos(od, sm) <= 4717
    ensures DirectionBits(od, direction, n) <= (n - 2) * 306722925
    ensures DirectionBits(od, direction, n) < 0x8000_0000
  {
    if n > 2 {
      TotalsFit(od, direction, n - 1);
      AssignedBound(od, PDO_ASSIGN + n - 1, AssignedPdos(od, n - 1));
    }
  }

  // The workaround ----------------------------------------------------------------

  /**
   `raised` is the slave `od` with every type from SM2 on raised by one.  Four-byte
   reads of the type object itself may then differ as well.
   */
  ghost predicate RaisedTypes(od: Dictionary, raised: Dictionary) {
    && (forall i, s :: raised.read16(i, s) == od.read16(i, s))
    && (forall i, s :: i != SM_COMM_TYPE || s < 3 ==> raised.read8(i, s) == od.read8(i, s))
    && (forall i, s :: i != SM_COMM_TYPE || s < 3 ==> raised.read32(i, s) == od.read32(i, s))
    && (forall s :: s >= 3 ==>
          raised.read8(SM_COMM_TYPE, s)
          == Upload(od.read8(SM_COMM_TYPE, s).wkc, Raise(od.read8(SM_COMM_TYPE, s).value)))
  }

  /** The two slaves get the same bit totals and the same start offsets, whatever their pointers are. */
  ghost predicate SameMapping(a: Dictionary, b: Dictionary) {
    && LastSm(a) == LastSm(b)
    && SameDirection(a, b, OUTPUTS) && SameDirection(a, b, INPUTS)
  }

  ghost predicate SameDirection(a: Dictionary, b: Dictionary, direction: u8) {
    && DirectionBits(a, direction, LastSm(a) + 1) == DirectionBits(b, direction, LastSm(b) + 1)
    && forall base, initial :: Offset(a, direction, base, initial) == Offset(b, direction, base, initial)
  }

  function Offset(od: Dictionary, direction: u8, base: int, initial: int): int {
    StartOffset(od, direction, base, initial, LastSm(od) + 1)
  }

  predicate IsProcessData(t: u8) { t == OUTPUTS || t == INPUTS }

  /** The j-th PDO of a sync manager is the type object itself, mapped beyond its first two entries. */
  predicate HitsTypeObject(od: Dictionary, sm: nat, j: nat) {
    PdoIndex(od, PDO_ASSIGN + sm, j) == SM_COMM_TYPE && EntryCount(od, SM_COMM_TYPE) >= 3
  }

  ghost predicate MapsTypeObject(od: Dictionary) {
    exists sm, j :: 2 <= sm <= LastSm(od) && IsProcessData(SmType(od, sm))
                    && 1 <= j <= AssignedPdos(od, sm) && HitsTypeObject(od, sm, j)
  }

  lemma RaisedSlaveDoesNotTrigger(od: Dictionary, raised: Dictionary)
    requires Triggers(od) && RaisedTypes(od, raised)
    ensures !Triggers(raised) && LastSm(raised) == LastSm(od)
    ensures forall sm :: 2 <= sm ==> SmType(raised, sm) == SmType(od, sm)
  {
    assert raised.read8(SM_COMM_TYPE, 3).value == 3;
  }

  /**
   The slave `od` with every type from SM2 on raised by one.  A type is a one-byte
   object, so that a four-byte read gives its byte and three zero bytes.
   */
  function Raised(od: Dictionary): Dictionary {
    Dictionary(
      (i: nat, s: nat) => if i == SM_COMM_TYPE && s >= 3 then RaisedByte(od, s) else od.read8(i, s),
      od.read16,
      (i: nat, s: nat) => if i == SM_COMM_TYPE && s >= 3 then Extended(RaisedByte(od, s)) else od.read32(i, s))
  }

  function RaisedByte(od: Dictionary, s: nat): Upload<u8> {
    Upload(od.read8(SM_COMM_TYPE, s).wkc, Raise(od.read8(SM_COMM_TYPE, s).value))
  }

  function Extended(answer: Upload<u8>): Upload<Entry> {
    Upload(answer.wkc, Entry(0, 0, answer.value))
  }

  /** The types of `od` are one-byte objects as well. */
  ghost predicate ByteTypes(od: Dictionary) {
    forall s :: s >= 3 ==> od.read32(SM_COMM_TYPE, s) == Extended(od.read8(SM_COMM_TYPE, s))
  }

  /**
   The workaround maps a slave exactly as if its types were numbered correctly,
   unless the slave maps the type object into its own process data: then already
   the bit totals differ.
   */
  lemma WorkaroundPreservesMapping(od: Dictionary)
    requires Triggers(od) && ByteTypes(od)
    ensures SameMapping(od, Raised(od)) <==> !MapsTypeObject(od)
  {
    assert RaisedTypes(od, Raised(od));
    if MapsTypeObject(od) {
      RaisingGrows(od, EntryCount(od, SM_COMM_TYPE));
      TotalsDiffer(od, Raised(od));
    } else {
      UnmappedTypesDoNotMatter(od, Raised(od));
    }
  }

  /**
   Whatever four-byte reads of its type object give, a slave is mapped like all
   raised slaves exactly when it does not map that object.
   */
  lemma WorkaroundOnAnySlave(od: Dictionary)
    requires Triggers(od)
    ensures (forall raised :: RaisedTypes(od, raised) ==> SameMapping(od, raised)) <==> !MapsTypeObject(od)
  {
    if MapsTypeObject(od) {
      var raised := Perturbed(od);
      assert RaisedTypes(od, raised);
      PerturbedGrows(od, EntryCount(od, SM_COMM_TYPE));
      TotalsDiffer(od, raised);
    } else {
      forall raised | RaisedTypes(od, raised)
        ensures SameMapping(od, raised)
      {
        UnmappedTypesDoNotMatter(od, raised);
      }
    }
  }

  lemma {:induction false} UnmappedTypesDoNotMatter(od: Dictionary, raised: Dictionary)
    requires Triggers(od) && RaisedTypes(od, raised) && !MapsTypeObject(od)
    ensures SameMapping(od, raised)
    ensures forall direction :: IsProcessData(direction) ==>
              DirectionEntries(od, direction, LastSm(od) + 1) == DirectionEntries(raised, direction, LastSm(od) + 1)
  {
    RaisedSlaveDoesNotTrigger(od, raised);
    SameWalk(od, raised, OUTPUTS, LastSm(od) + 1);
    SameWalk(od, raised, INPUTS, LastSm(od) + 1);
  }

  lemma {:induction false} SameWalk(od: Dictionary, raised: Dictionary, direction: u8, n: nat)
    requires Triggers(od) && RaisedTypes(od, raised) && !MapsTypeObject(od)
    requires n <= LastSm(od) + 1 && IsProcessData(direction)
    ensures DirectionEntries(od, direction, n) == DirectionEntries(raised, direction, n)
    ensures DirectionBits(od, direction, n) == DirectionBits(raised, direction, n)
    ensures forall base, initial ::
              StartOffset(od, direction, base, initial, n) == StartOffset(raised, direction, base, initial, n)
  {
    if n > 2 {
      SameWalk(od, raised, direction, n - 1);
      RaisedSlaveDoesNotTrigger(od, raised);
      var sm := n - 1;
      if SmType(od, sm) == direction {
        SameAssigned(od, raised, sm, AssignedPdos(od, sm));
        if AssignedPdos(od, sm) > 0 {
          SamePdo(od, raised, sm, 1);
        }
      }
    }
  }

  lemma SamePdo(od: Dictionary, raised: Dictionary, sm: nat, j: nat)
    requires RaisedTypes(od, raised) && !HitsTypeObject(od, sm, j)
    ensures PdoIndex(raised, PDO_ASSIGN + sm, j) == PdoIndex(od, PDO_ASSIGN + sm, j)
    ensures PdoEntries(raised, PdoIndex(raised, PDO_ASSIGN + sm, j)) == PdoEntries(od, PdoIndex(od, PDO_ASSIGN + sm, j))
  {
    var pdo := PdoIndex(od, PDO_ASSIGN + sm, j);
    assert EntryCount(raised, pdo) == EntryCount(od, pdo);
    SameEntries(od, raised, pdo, EntryCount(od, pdo));
  }

  lemma {:induction false} SameEntries(od: Dictionary, raised: Dictionary, pdo: nat, k: nat)
    requires RaisedTypes(od, raised) && (pdo == SM_COMM_TYPE ==> k < 3)
    ensures Entries(raised, pdo, k) == Entries(od, pdo, k)
  {
    if k != 0 {
      SameEntries(od, raised, pdo, k - 1);
    }
  }

  lemma {:induction false} SameAssigned(od: Dictionary, raised: Dictionary, sm: nat, j: nat)
    requires RaisedTypes(od, raised)
    requires forall i :: 1 <= i <= j ==> !HitsTypeObject(od, sm, i)
    ensures Assigned(raised, PDO_ASSIGN + sm, j) == Assigned(od, PDO_ASSIGN + sm, j)
  {
    if j != 0 {
      SameAssigned(od, raised, sm, j - 1);
      SamePdo(od, raised, sm, j);
    }
  }

  // A slave that maps its type object -----------------------------------------------

  /** By how much the first k entries of the type object get longer. */
  function Growth(od: Dictionary, raised: Dictionary, k: nat): int {
    if k == 0 then 0
    else Growth(od, raised, k - 1)
         + raised.read32(SM_COMM_TYPE, LowByte(k)).value.bitLength - od.read32(SM_COMM_TYPE, LowByte(k)).value.bitLength
  }

  /** The same for the whole type object. */
  function TypeGrowth(od: Dictionary, raised: Dictionary): int {
    Growth(od, raised, EntryCount(od, SM_COMM_TYPE))
  }

  /** Every type grows by one, or falls from 255 to 0; at most 253 types cannot make up for one such fall. */
  lemma {:induction false} RaisingGrows(od: Dictionary, k: nat)
    requires Triggers(od) && ByteTypes(od) && 3 <= k <= 0xFF
    ensures 1 <= Growth(od, Raised(od), k) <= k - 2 || Growth(od, Raised(od), k) <= k - 2 - 0x100
  {
    SmallSubindexes(od, Raised(od), 2);
    if k > 3 {
      RaisingGrows(od, k - 1);
    }
  }

  lemma {:induction false} SmallSubindexes(od: Dictionary, raised: Dictionary, k: nat)
    requires k <= 2 && forall s :: s < 3 ==> raised.read32(SM_COMM_TYPE, s) == od.read32(SM_COMM_TYPE, s)
    ensures Growth(od, raised, k) == 0
  {
    if k != 0 {
      SmallSubindexes(od, raised, k - 1);
    }
  }

  /** A raised slave whose third entry grows by one, in eight bits, and no other. */
  function Perturbed(od: Dictionary): Dictionary {
    Dictionary(
      Raised(od).read8,
      od.read16,
      (i: nat, s: nat) => if i == SM_COMM_TYPE && s == 3 then Bumped(od.read32(i, s)) else od.read32(i, s))
  }

  function Bumped(answer: Upload<Entry>): Upload<Entry> {
    var Upload(wkc, e) := answer;
    Upload(wkc, Entry(e.index, e.sub, if e.bitLength == 0xFF then 0 else e.bitLength + 1))
  }

  lemma {:induction false} PerturbedGrows(od: Dictionary, k: nat)
    requires 3 <= k <= 0xFF
    ensures Growth(od, Perturbed(od), k) == 1 || Growth(od, Perturbed(od), k) == -0xFF
  {
    SmallSubindexes(od, Perturbed(od), 2);
    if k > 3 {
      PerturbedGrows(od, k - 1);
    }
  }

  /** How often the first j PDOs of a sync manager are the type object. */
  function Hits(od: Dictionary, sm: nat, j: nat): nat {
    if j == 0 then 0 else Hits(od, sm, j - 1) + (if HitsTypeObject(od, sm, j) then 1 else 0)
  }

  function DirectionHits(od: Dictionary, direction: u8, n: nat): nat {
    if n <= 2 then 0
    else DirectionHits(od, direction, n - 1)
         + (if SmType(od, n - 1) == direction then Hits(od, n - 1, AssignedPdos(od, n - 1)) else 0)
  }

  lemma TotalsDiffer(od: Dictionary, raised: Dictionary)
    requires Triggers(od) && RaisedTypes(od, raised) && MapsTypeObject(od) && TypeGrowth(od, raised) != 0
    ensures !SameMapping(od, raised)
  {
    RaisedSlaveDoesNotTrigger(od, raised);
    var sm, j :| 2 <= sm <= LastSm(od) && IsProcessData(SmType(od, sm))
                 && 1 <= j <= AssignedPdos(od, sm) && HitsTypeObject(od, sm, j);
    var direction, n := SmType(od, sm), LastSm(od) + 1;
    HitIsCounted(od, sm, j, AssignedPdos(od, sm));
    DirectionHitIsCounted(od, direction, sm, n);
    DirectionGrows(od, raised, direction, n);
    NonZeroProduct(DirectionHits(od, direction, n), TypeGrowth(od, raised));
  }

  lemma NonZeroProduct(hits: nat, growth: int)
    requires hits > 0 && growth != 0
    ensures hits * growth != 0
  {
  }

  lemma {:induction false} HitIsCounted(od: Dictionary, sm: nat, j: nat, n: nat)
    requires 1 <= j <= n && HitsTypeObject(od, sm, j)
    ensures Hits(od, sm, n) > 0
  {
    if j < n {
      HitIsCounted(od, sm, j, n - 1);
    }
  }

  lemma {:induction false} DirectionHitIsCounted(od: Dictionary, direction: u8, sm: nat, n: nat)
    requires 2 <= sm < n && SmType(od, sm) == direction && Hits(od, sm, AssignedPdos(od, sm)) > 0
    ensures DirectionHits(od, direction, n) > 0
  {
    if sm < n - 1 {
      DirectionHitIsCounted(od, direction, sm, n - 1);
    }
  }

  /** A total grows by the type object's growth for every time that object is mapped. */
  lemma {:induction false} DirectionGrows(od: Dictionary, raised: Dictionary, direction: u8, n: nat)
    requires Triggers(od) && RaisedTypes(od, raised)
    ensures DirectionBits(raised, direction, n)
         == DirectionBits(od, direction, n) + DirectionHits(od, direction, n) * TypeGrowth(od, raised)
  {
    if n > 2 {
      DirectionGrows(od, raised, direction, n - 1);
      RaisedSlaveDoesNotTrigger(od, raised);
      if SmType(od, n - 1) == direction {
        AssignedGrows(od, raised, n - 1, AssignedPdos(od, n - 1));
        Distribute(DirectionHits(od, direction, n - 1), Hits(od, n - 1, AssignedPdos(od, n - 1)),
                   TypeGrowth(od, raised));
      }
    }
  }

  lemma Distribute(a: int, b: int, growth: int)
    ensures (a + b) * growth == a * growth + b * growth
  {
  }

  lemma {:induction false} AssignedGrows(od: Dictionary, raised: Dictionary, sm: nat, j: nat)
    requires RaisedTypes(od, raised)
    ensures Bits(Assigned(raised, PDO_ASSIGN + sm, j))
         == Bits(Assigned(od, PDO_ASSIGN + sm, j)) + Hits(od, sm, j) * TypeGrowth(od, raised)
  {
    if j != 0 {
      AssignedGrows(od, raised, sm, j - 1);
      PdoGrows(od, raised, sm, j);
      var pdo := PdoIndex(od, PDO_ASSIGN + sm, j);
      BitsConcat(Assigned(od, PDO_ASSIGN + sm, j - 1), PdoEntries(od, pdo));
      BitsConcat(Assigned(raised, PDO_ASSIGN + sm, j - 1), PdoEntries(raised, pdo));
      Distribute(Hits(od, sm, j - 1), 1, TypeGrowth(od, raised));
    }
  }

  lemma PdoGrows(od: Dictionary, raised: Dictionary, sm: nat, j: nat)
    requires RaisedTypes(od, raised)
    ensures var pdo := PdoIndex(od, PDO_ASSIGN + sm, j);
            && PdoIndex(raised, PDO_ASSIGN + sm, j) == pdo
            && Bits(PdoEntries(raised, pdo))
               == Bits(PdoEntries(od, pdo)) + (if HitsTypeObject(od, sm, j) then TypeGrowth(od, raised) else 0)
  {
    var pdo := PdoIndex(od, PDO_ASSIGN + sm, j);
    EntriesGrow(od, raised, pdo, EntryCount(od, pdo));
    if EntryCount(od, SM_COMM_TYPE) < 3 {
      SmallSubindexes(od, raised, EntryCount(od, SM_COMM_TYPE));
    }
  }

  lemma {:induction false} EntriesGrow(od: Dictionary, raised: Dictionary, pdo: nat, k: nat)
    requires RaisedTypes(od, raised)
    ensures Bits(Entries(raised, pdo, k))
         == Bits(Entries(od, pdo, k)) + (if pdo == SM_COMM_TYPE then Growth(od, raised, k) else 0)
  {
    if k != 0 {
      EntriesGrow(od, raised, pdo, k - 1);
      LastEntry(od, pdo, k);
      LastEntry(raised, pdo, k);
    }
  }

  lemma LastEntry(od: Dictionary, pdo: nat, k: nat)
    requires k > 0
    ensures Bits(Entries(od, pdo, k)) == Bits(Entries(od, pdo, k - 1)) + od.read32(pdo, LowByte(k)).value.bitLength
  {
    var last := od.read32(pdo, LowByte(k)).value;
    BitsConcat(Entries(od, pdo, k - 1), [last]);
    assert Bits([last]) == last.bitLength;
  }

  /** A slave that needs the workaround and maps its own type object as output data. */
  function SelfMapping(): Dictionary {
    var types := (s: nat) => Upload(1, if s == 0 then 3 else if s == 3 then 2 else 0);
    Dictionary(
      (i: nat, s: nat) => if i == SM_COMM_TYPE then types(s) else Upload(1, 0),
      (i: nat, s: nat) => Upload(1, if s == 0 then 1 else SM_COMM_TYPE),
      (i: nat, s: nat) => if i == SM_COMM_TYPE then Extended(types(s)) else Upload(1, Entry(0, 0, 0)))
  }

  /** The entry that says 2 in the slave says 3 in the raised one, and is taken for a length. */
  lemma SelfMappingIsMappedDifferently()
    ensures Triggers(SelfMapping()) && ByteTypes(SelfMapping()) && MapsTypeObject(SelfMapping())
    ensures !SameMapping(SelfMapping(), Raised(SelfMapping()))
  {
    var od := SelfMapping();
    assert LastSm(od) == 2 && SmType(od, 2) == OUTPUTS;
    assert AssignedPdos(od, 2) == 1 && HitsTypeObject(od, 2, 1);
    WorkaroundPreservesMapping(od);
  }
}
