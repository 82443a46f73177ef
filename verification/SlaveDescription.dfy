/**
 What the offset calculator makes of a slave that is described by its sync
 managers, their PDOs and the entries of these.
 */
module SlaveDescription {
  import opened PdoMapping
  import opened SyncManagers

  datatype Pdo = Pdo(index: u16, entries: seq<Entry>)

  datatype Sm = Sm(smType: u8, pdos: seq<Pdo>)

  // What a described slave answers -----------------------------------------------------

  /** An index of 0 stands for an assignment that is not used. */
  ghost predicate AnswersPdo(od: Dictionary, pdo: Pdo) {
    if pdo.index == 0 then pdo.entries == []
    else
      && |pdo.entries| < 256 && od.read8(pdo.index, 0).value == |pdo.entries|
      && forall m :: 0 <= m < |pdo.entries| ==> od.read32(pdo.index, m + 1).value == pdo.entries[m]
  }

  ghost predicate AnswersPdos(od: Dictionary, assign: nat, pdos: seq<Pdo>) {
    && |pdos| < 256 && od.read16(assign, 0) == Upload(1, |pdos|)
    && forall j :: 0 <= j < |pdos| ==> od.read16(assign, j + 1).value == pdos[j].index && AnswersPdo(od, pdos[j])
  }

  /** Object 0x1C00 lists the types, object 0x1C10 + k the PDOs of sync manager k. */
  ghost predicate Answers(od: Dictionary, sms: seq<Sm>) {
    && |sms| < 256 && od.read8(0x1C00, 0) == Upload(1, |sms|)
    && forall k :: 0 <= k < |sms| ==>
         od.read8(0x1C00, k + 1) == Upload(1, sms[k].smType) && AnswersPdos(od, 0x1C10 + k, sms[k].pdos)
  }

  // What it maps -------------------------------------------------------------------------

  /** The entries of the PDOs, one PDO after the other. */
  function Flatten(pdos: seq<Pdo>): seq<Entry> {
    if pdos == [] then [] else pdos[0].entries + Flatten(pdos[1..])
  }

  function Length(es: seq<Entry>): nat {
    if es == [] then 0 else es[0].bitLength + Length(es[1..])
  }

  /** The workaround: if SM2 has type 2, every type that is not 0 counts one more, in eight bits. */
  function TypeOf(sms: seq<Sm>, k: nat): u8
    requires 2 <= k < |sms|
  {
    if sms[2].smType == 2 && sms[k].smType != 0 then (sms[k].smType + 1) % 256 else sms[k].smType
  }

  /** Sync managers from 2 on are looked at, and none after number 8. */
  function Number(sms: seq<Sm>): nat {
    if |sms| <= 9 then |sms| else 9
  }

  /** What the sync managers 2..n-1 of one type map. */
  function Carried(sms: seq<Sm>, smType: u8, n: nat): seq<Entry>
    requires n <= |sms|
  {
    if n <= 2 then []
    else Carried(sms, smType, n - 1) + (if TypeOf(sms, n - 1) == smType then Flatten(sms[n - 1].pdos) else [])
  }

  /** Sync manager k is of that type and its first PDO has an entry. */
  predicate Opens(sms: seq<Sm>, smType: u8, k: nat)
    requires 2 <= k < |sms|
  {
    TypeOf(sms, k) == smType && sms[k].pdos != [] && sms[k].pdos[0].entries != []
  }

  /** Where the data of one type start: at the whole bytes before the last sync manager that opens. */
  function OpeningByte(sms: seq<Sm>, smType: u8, base: int, initial: int, n: nat): int
    requires n <= |sms|
  {
    if n <= 2 then initial
    else if Opens(sms, smType, n - 1) then base + Length(Carried(sms, smType, n - 1)) / 8
    else OpeningByte(sms, smType, base, initial, n - 1)
  }

  // The walk finds it ---------------------------------------------------------------------

  lemma {:induction false} LengthAppend(a: seq<Entry>, e: Entry)
    ensures Length(a + [e]) == Length(a) + e.bitLength
  {
    if a != [] {
      assert (a + [e])[1..] == a[1..] + [e];
      LengthAppend(a[1..], e);
    }
  }

  lemma {:induction false} BitsAreLength(es: seq<Entry>)
    ensures Bits(es) == Length(es)
  {
    if es != [] {
      var last := |es| - 1;
      BitsAreLength(es[..last]);
      LengthAppend(es[..last], es[last]);
      assert es == es[..last] + [es[last]];
    }
  }

  lemma {:induction false} WalkReadsEntries(od: Dictionary, pdo: Pdo, k: nat)
    requires AnswersPdo(od, pdo) && pdo.index != 0 && k <= |pdo.entries|
    ensures Entries(od, pdo.index, k) == pdo.entries[..k]
  {
    if k != 0 {
      WalkReadsEntries(od, pdo, k - 1);
      assert pdo.entries[..k] == pdo.entries[..k - 1] + [pdo.entries[k - 1]];
    }
  }

  lemma WalkReadsPdo(od: Dictionary, pdo: Pdo)
    requires AnswersPdo(od, pdo)
    ensures PdoEntries(od, pdo.index) == pdo.entries
  {
    if pdo.index != 0 {
      WalkReadsEntries(od, pdo, |pdo.entries|);
      assert pdo.entries[..|pdo.entries|] == pdo.entries;
    }
  }

  lemma {:induction false} FlattenAppend(pdos: seq<Pdo>, pdo: Pdo)
    ensures Flatten(pdos + [pdo]) == Flatten(pdos) + pdo.entries
  {
    if pdos == [] {
      assert [pdo][1..] == [] && Flatten([pdo]) == pdo.entries + Flatten([]);
    } else {
      assert (pdos + [pdo])[1..] == pdos[1..] + [pdo];
      FlattenAppend(pdos[1..], pdo);
    }
  }

  lemma {:induction false} WalkReadsAssigned(od: Dictionary, assign: nat, pdos: seq<Pdo>, j: nat)
    requires AnswersPdos(od, assign, pdos) && j <= |pdos|
    ensures Assigned(od, assign, j) == Flatten(pdos[..j])
  {
    if j != 0 {
      WalkReadsAssigned(od, assign, pdos, j - 1);
      WalkReadsPdo(od, pdos[j - 1]);
      FlattenAppend(pdos[..j - 1], pdos[j - 1]);
      assert pdos[..j] == pdos[..j - 1] + [pdos[j - 1]];
    }
  }

  /**
   One sync manager: the walk maps the entries of all its PDOs in order, their lengths
   add up, and a start offset is written exactly if the first PDO has an entry.
   */
  lemma {:induction false} WalkReadsPdos(od: Dictionary, assign: nat, pdos: seq<Pdo>)
    requires AnswersPdos(od, assign, pdos)
    ensures Mapped(od, assign) == Flatten(pdos) && Bits(Mapped(od, assign)) == Length(Flatten(pdos))
    ensures AssignedCount(od, assign) == |pdos|
    ensures FirstPdoNonEmpty(od, assign) <==> pdos != [] && pdos[0].entries != []
  {
    WalkReadsAssigned(od, assign, pdos, |pdos|);
    assert pdos[..|pdos|] == pdos;
    BitsAreLength(Flatten(pdos));
    if pdos != [] {
      WalkReadsPdo(od, pdos[0]);
    }
  }

  lemma WalkReadsTypes(od: Dictionary, sms: seq<Sm>)
    requires Answers(od, sms)
    ensures LastSm(od) + 1 == if |sms| <= 2 then 2 else Number(sms)
    ensures forall k :: 2 <= k < Number(sms) ==> SmType(od, k) == TypeOf(sms, k)
  {
    forall k | 2 <= k < Number(sms)
      ensures SmType(od, k) == TypeOf(sms, k)
    {
      assert od.read8(0x1C00, k + 1) == Upload(1, sms[k].smType);
      assert od.read8(0x1C00, 3) == Upload(1, sms[2].smType);
    }
  }

  lemma {:induction false} WalkReadsDirection(od: Dictionary, sms: seq<Sm>, smType: u8, n: nat)
    requires Answers(od, sms) && n <= Number(sms)
    ensures DirectionEntries(od, smType, n) == Carried(sms, smType, n)
    ensures DirectionBits(od, smType, n) == Length(Carried(sms, smType, n))
    ensures forall base, initial ::
              StartOffset(od, smType, base, initial, n) == OpeningByte(sms, smType, base, initial, n)
  {
    DirectionEntriesBits(od, smType, n);
    BitsAreLength(Carried(sms, smType, n));
    if n > 2 {
      WalkReadsDirection(od, sms, smType, n - 1);
      WalkReadsTypes(od, sms);
      assert AnswersPdos(od, 0x1C10 + (n - 1), sms[n - 1].pdos);
      WalkReadsPdos(od, 0x1C10 + (n - 1), sms[n - 1].pdos);
    }
  }

  lemma WalkEnds(od: Dictionary, sms: seq<Sm>)
    requires Answers(od, sms)
    ensures Terminates(od)
  {
    WalkReadsTypes(od, sms);
    forall k | 2 <= k < Number(sms)
      ensures AssignedPdos(od, k) < 256
    {
      assert AnswersPdos(od, 0x1C10 + k, sms[k].pdos);
    }
  }

  /**
   A whole slave, as the source's calls see it: the outputs are what the sync managers
   of type 3 carry and the inputs what those of type 4 carry, bit for bit, and both
   start where the last opening sync manager of that type says.
   */
  method MapDescribedSlave(od: Dictionary, ghost sms: seq<Sm>, outputs: int, inputs: int, rxIn: int, txIn: int)
    returns (found: int, rx: int, tx: int, ghost outPlaced: seq<Placement>, ghost inPlaced: seq<Placement>)
    requires Answers(od, sms)
    ensures rx == OpeningByte(sms, 3, outputs, rxIn, Number(sms))
    ensures tx == OpeningByte(sms, 4, inputs, txIn, Number(sms))
    ensures found == if Length(Carried(sms, 3, Number(sms))) + Length(Carried(sms, 4, Number(sms))) > 0 then 1 else 0
    ensures Placed(outPlaced, Carried(sms, 3, Number(sms)), outputs, 0)
    ensures Placed(inPlaced, Carried(sms, 4, Number(sms)), inputs, 0)
  {
    WalkEnds(od, sms);
    WalkReadsTypes(od, sms);
    WalkReadsDirection(od, sms, OUTPUTS, Number(sms));
    WalkReadsDirection(od, sms, INPUTS, Number(sms));
    found, rx, tx, outPlaced, inPlaced := SiMapSdo(od, outputs, inputs, rxIn, txIn);
  }

  /** What cannot be read is taken to be absent: the PDOs of a sync manager, its type, or all sync managers. */
  lemma {:induction false} UnreadableIsAbsent(od: Dictionary, sm: nat, direction: u8)
    requires direction == 3 || direction == 4
    ensures od.read16(0x1C10 + sm, 0).wkc <= 0 ==>
              Mapped(od, 0x1C10 + sm) == [] && !Starts(od, direction, sm)
    ensures od.read8(0x1C00, sm + 1).wkc <= 0 ==>
              DirectionEntries(od, direction, sm + 1) == DirectionEntries(od, direction, sm)
    ensures od.read8(0x1C00, 0).wkc <= 0 ==> DirectionEntries(od, direction, LastSm(od) + 1) == []
  {
    if od.read8(0x1C00, sm + 1).wkc <= 0 && sm >= 2 {
      OtherType(od, direction, sm);
    }
  }

  /** The subindex is passed on in eight bits: the PDO after number 255 is read from subindex 0. */
  lemma {:induction false} SubindexWraps(i: nat)
    ensures LowByte(i) == i % 256
  {
    if i >= 256 {
      SubindexWraps(i - 256);
    }
  }

  /** A described slave: three output PDOs of 16, 32 and 8 bits behind two mailboxes, no inputs. */
  function ThreePdos(): seq<Sm> {
    [Sm(1, []), Sm(2, []),
     Sm(3, [Pdo(0x1600, [Entry(0x7000, 1, 16)]), Pdo(0x1601, [Entry(0x7001, 1, 32)]),
            Pdo(0x1602, [Entry(0x7002, 1, 8)])])]
  }

  function ThreePdosDictionary(): Dictionary {
    Dictionary(
      (i: nat, s: nat) =>
        Upload(1, if i == 0x1C00 then (if s == 0 then 3 else if s <= 3 then s else 0) else if s == 0 then 1 else 0),
      (i: nat, s: nat) =>
        Upload(1, if i == 0x1C12 then (if s == 0 then 3 else if s <= 3 then 0x1600 + s - 1 else 0) else 0),
      (i: nat, s: nat) =>
        Upload(1, if i == 0x1600 then Entry(0x7000, 1, 16)
                  else if i == 0x1601 then Entry(0x7001, 1, 32) else Entry(0x7002, 1, 8)))
  }

  const THREE_ENTRIES: seq<Entry> := [Entry(0x7000, 1, 16), Entry(0x7001, 1, 32), Entry(0x7002, 1, 8)]

  lemma ThreePdosAnswer()
    ensures Answers(ThreePdosDictionary(), ThreePdos())
  {
    var od, sms := ThreePdosDictionary(), ThreePdos();
    assert AnswersPdos(od, 0x1C12, sms[2].pdos);
  }

  lemma ThreePdosFlatten()
    ensures Flatten(ThreePdos()[2].pdos) == THREE_ENTRIES
  {
    var pdos := ThreePdos()[2].pdos;
    assert pdos[1..] == [pdos[1], pdos[2]] && pdos[1..][1..] == [pdos[2]] && pdos[1..][1..][1..] == [];
  }

  lemma ThreeLengths()
    ensures Length(THREE_ENTRIES) == 56
  {
    var es := THREE_ENTRIES;
    assert es[1..] == [es[1], es[2]] && es[1..][1..] == [es[2]] && es[1..][1..][1..] == [];
  }

  lemma ThreePdosAreMapped()
    ensures DirectionEntries(ThreePdosDictionary(), OUTPUTS, 3) == THREE_ENTRIES
    ensures DirectionBits(ThreePdosDictionary(), OUTPUTS, 3) == 56
  {
    var sms := ThreePdos();
    ThreePdosAnswer();
    WalkReadsDirection(ThreePdosDictionary(), sms, OUTPUTS, 3);
    assert TypeOf(sms, 2) == 3 && Carried(sms, 3, 3) == Carried(sms, 3, 2) + Flatten(sms[2].pdos);
    ThreePdosFlatten();
    ThreeLengths();
  }
}
