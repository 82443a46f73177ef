/**
 The process image of a bus: all RX structs in slave order, then all TX
 structs, without gaps.  This is how the shipped configuration files lay it out.
 */
module ImageLayout {
  import opened PackedCodec
  import opened SlaveData

  function RxSizes(shapes: seq<Shape>): (ns: seq<nat>)
    ensures |ns| == |shapes| && forall i :: 0 <= i < |ns| ==> ns[i] == Size(shapes[i].rx)
  {
    seq(|shapes|, i requires 0 <= i < |shapes| => Size(shapes[i].rx))
  }

  function TxSizes(shapes: seq<Shape>): (ns: seq<nat>)
    ensures |ns| == |shapes| && forall i :: 0 <= i < |ns| ==> ns[i] == Size(shapes[i].tx)
  {
    seq(|shapes|, i requires 0 <= i < |shapes| => Size(shapes[i].tx))
  }

  /** Start of block i when blocks of the given sizes follow each other. */
  function Start(sizes: seq<nat>, i: nat): nat
    requires i <= |sizes|
  {
    Size(sizes[..i])
  }

  function RxStart(shapes: seq<Shape>, i: nat): nat
    requires i < |shapes|
  {
    Start(RxSizes(shapes), i)
  }

  function TxStart(shapes: seq<Shape>, i: nat): nat
    requires i < |shapes|
  {
    Size(RxSizes(shapes)) + Start(TxSizes(shapes), i)
  }

  function ImageSize(shapes: seq<Shape>): nat {
    Size(RxSizes(shapes)) + Size(TxSizes(shapes))
  }

  function SlotsFor(shapes: seq<Shape>): (slots: seq<Slot>)
    ensures |slots| == |shapes|
  {
    seq(|shapes|, i requires 0 <= i < |shapes| => Slot(shapes[i], RxStart(shapes, i), TxStart(shapes, i)))
  }

  // Blocks that follow each other -----------------------------------------------

  lemma NextStart(sizes: seq<nat>, i: nat)
    requires i < |sizes|
    ensures Start(sizes, i + 1) == Start(sizes, i) + sizes[i]
  {
    assert sizes[..i + 1] == sizes[..i] + [sizes[i]];
    SizeConcat(sizes[..i], [sizes[i]]);
  }

  lemma {:induction false} StartsAscend(sizes: seq<nat>, i: nat, j: nat)
    requires i < j <= |sizes|
    ensures Start(sizes, i) + sizes[i] <= Start(sizes, j) <= Size(sizes)
  {
    NextStart(sizes, i);
    if i + 1 < j {
      NextStart(sizes, j - 1);
      StartsAscend(sizes, i, j - 1);
    }
    SizePrefix(sizes, j);
  }

  /** Every position falls into some block. */
  lemma {:induction false} Locate(sizes: seq<nat>, p: nat, n: nat) returns (i: nat)
    requires n <= |sizes| && p < Start(sizes, n)
    ensures i < n && Start(sizes, i) <= p < Start(sizes, i) + sizes[i]
  {
    NextStart(sizes, n - 1);
    if Start(sizes, n - 1) <= p {
      i := n - 1;
    } else {
      i := Locate(sizes, p, n - 1);
    }
  }

  // The windows of the slaves ---------------------------------------------------

  ghost predicate InRx(shapes: seq<Shape>, i: nat, p: nat)
    requires i < |shapes|
  {
    RxStart(shapes, i) <= p < RxStart(shapes, i) + Size(shapes[i].rx)
  }

  ghost predicate InTx(shapes: seq<Shape>, i: nat, p: nat)
    requires i < |shapes|
  {
    TxStart(shapes, i) <= p < TxStart(shapes, i) + Size(shapes[i].tx)
  }

  /** Position p of the image belongs to slave i. */
  ghost predicate Owns(shapes: seq<Shape>, i: nat, p: nat)
    requires i < |shapes|
  {
    InRx(shapes, i, p) || InTx(shapes, i, p)
  }

  lemma RxWindowInside(shapes: seq<Shape>, i: nat)
    requires i < |shapes|
    ensures RxStart(shapes, i) + Size(shapes[i].rx) <= Size(RxSizes(shapes))
  {
    StartsAscend(RxSizes(shapes), i, |shapes|);
  }

  lemma TxWindowInside(shapes: seq<Shape>, i: nat)
    requires i < |shapes|
    ensures TxStart(shapes, i) + Size(shapes[i].tx) <= ImageSize(shapes)
  {
    StartsAscend(TxSizes(shapes), i, |shapes|);
  }

  lemma SlotsFit(shapes: seq<Shape>, image: seq<byte>)
    requires |image| == ImageSize(shapes)
    ensures SlotsInside(SlotsFor(shapes), image)
  {
    forall i | 0 <= i < |shapes|
      ensures SlotInside(SlotsFor(shapes)[i], image)
    {
      RxWindowInside(shapes, i);
      TxWindowInside(shapes, i);
    }
  }

  /** The windows cover the image: every position has an owner. */
  lemma EveryByteIsOwned(shapes: seq<Shape>, p: nat) returns (i: nat)
    requires p < ImageSize(shapes)
    ensures i < |shapes| && Owns(shapes, i, p)
  {
    var rx, tx := RxSizes(shapes), TxSizes(shapes);
    assert rx[..|rx|] == rx && tx[..|tx|] == tx;
    if p < Size(rx) {
      i := Locate(rx, p, |rx|);
    } else {
      i := Locate(tx, p - Size(rx), |tx|);
    }
  }

  /** The windows are disjoint: no position has two owners or lies in both windows of one slave. */
  lemma OwnersAreUnique(shapes: seq<Shape>, i: nat, j: nat, p: nat)
    requires i < |shapes| && j < |shapes|
    requires Owns(shapes, i, p) && Owns(shapes, j, p)
    ensures i == j && !(InRx(shapes, i, p) && InTx(shapes, i, p))
  {
    RxWindowInside(shapes, i);
    RxWindowInside(shapes, j);
    if i < j {
      StartsAscend(RxSizes(shapes), i, j);
      StartsAscend(TxSizes(shapes), i, j);
    } else if j < i {
      StartsAscend(RxSizes(shapes), j, i);
      StartsAscend(TxSizes(shapes), j, i);
    }
  }

  /**
   Two images decode to the same contents for every slave but i exactly when
   they agree outside slave i's windows.
   */
  lemma Isolation(shapes: seq<Shape>, a: seq<byte>, b: seq<byte>, i: nat)
    requires |a| == |b| == ImageSize(shapes) && i < |shapes|
    ensures SlotsInside(SlotsFor(shapes), a) && SlotsInside(SlotsFor(shapes), b)
    ensures (forall j :: 0 <= j < |shapes| && j != i
                         ==> ReadAll(SlotsFor(shapes), a)[j] == ReadAll(SlotsFor(shapes), b)[j])
       <==> (forall p :: 0 <= p < |a| && !Owns(shapes, i, p) ==> a[p] == b[p])
  {
    SlotsFit(shapes, a);
    SlotsFit(shapes, b);
    var da, db := ReadAll(SlotsFor(shapes), a), ReadAll(SlotsFor(shapes), b);
    forall j | 0 <= j < |shapes|
      ensures da[j] == db[j] <==> AgreeOn(shapes, a, b, j)
    {
      SameOwnBytes(shapes, a, b, j);
    }
    if forall j :: 0 <= j < |shapes| && j != i ==> da[j] == db[j] {
      forall p | 0 <= p < |a| && !Owns(shapes, i, p)
        ensures a[p] == b[p]
      {
        var j := EveryByteIsOwned(shapes, p);
        assert AgreeOn(shapes, a, b, j);
      }
    }
    if forall p :: 0 <= p < |a| && !Owns(shapes, i, p) ==> a[p] == b[p] {
      forall j | 0 <= j < |shapes| && j != i
        ensures da[j] == db[j]
      {
        forall p | 0 <= p < |a| && Owns(shapes, j, p)
          ensures a[p] == b[p]
        {
          if Owns(shapes, i, p) {
            OwnersAreUnique(shapes, i, j, p);
          }
        }
        assert AgreeOn(shapes, a, b, j);
      }
    }
  }

  ghost predicate AgreeOn(shapes: seq<Shape>, a: seq<byte>, b: seq<byte>, j: nat)
    requires |a| == |b| && j < |shapes|
  {
    forall p :: 0 <= p < |a| && Owns(shapes, j, p) ==> a[p] == b[p]
  }

  lemma SameOwnBytes(shapes: seq<Shape>, a: seq<byte>, b: seq<byte>, j: nat)
    requires |a| == |b| == ImageSize(shapes) && j < |shapes|
    requires SlotsInside(SlotsFor(shapes), a) && SlotsInside(SlotsFor(shapes), b)
    ensures ReadSlot(SlotsFor(shapes)[j], a) == ReadSlot(SlotsFor(shapes)[j], b) <==> AgreeOn(shapes, a, b, j)
  {
    var s, rx, tx := shapes[j], RxStart(shapes, j), TxStart(shapes, j);
    RxWindowInside(shapes, j);
    TxWindowInside(shapes, j);
    SameContentsIffSameBytes(s, a, rx, tx, b, rx, tx);
    SameWindowIffSameBytes(a, b, rx, Size(s.rx));
    SameWindowIffSameBytes(a, b, tx, Size(s.tx));
  }

  lemma SameWindowIffSameBytes(a: seq<byte>, b: seq<byte>, start: nat, size: nat)
    requires |a| == |b| && start + size <= |a|
    ensures Window(a, start, size) == Window(b, start, size)
       <==> forall p :: start <= p < start + size ==> a[p] == b[p]
  {
    if Window(a, start, size) == Window(b, start, size) {
      forall p | start <= p < start + size
        ensures a[p] == b[p]
      {
        assert a[p] == Window(a, start, size)[p - start];
        assert b[p] == Window(b, start, size)[p - start];
      }
    }
  }

  // The whole image as one codec ---------------------------------------------

  ghost predicate AllWellFormed(shapes: seq<Shape>, contents: seq<Contents>) {
    && |contents| == |shapes|
    && forall i :: 0 <= i < |shapes| ==> WellFormed(shapes[i], contents[i])
  }

  /** The image that carries the given contents. */
  ghost predicate Carries(shapes: seq<Shape>, contents: seq<Contents>, image: seq<byte>) {
    && |image| == ImageSize(shapes)
    && SlotsInside(SlotsFor(shapes), image)
    && ReadAll(SlotsFor(shapes), image) == contents
  }

  function Concat(blocks: seq<seq<byte>>): seq<byte> {
    if blocks == [] then [] else Concat(blocks[..|blocks| - 1]) + blocks[|blocks| - 1]
  }

  ghost predicate HasSizes(blocks: seq<seq<byte>>, sizes: seq<nat>) {
    |blocks| == |sizes| && forall i :: 0 <= i < |blocks| ==> |blocks[i]| == sizes[i]
  }

  lemma {:induction false} BlockAt(blocks: seq<seq<byte>>, sizes: seq<nat>, n: nat)
    requires HasSizes(blocks, sizes) && n <= |blocks|
    ensures |Concat(blocks[..n])| == Start(sizes, n)
    ensures forall i :: 0 <= i < n ==>
              Start(sizes, i) + sizes[i] <= Start(sizes, n)
              && Window(Concat(blocks[..n]), Start(sizes, i), sizes[i]) == blocks[i]
  {
    if n != 0 {
      BlockAt(blocks, sizes, n - 1);
      NextStart(sizes, n - 1);
      assert blocks[..n][..n - 1] == blocks[..n - 1];
      forall i | 0 <= i < n
        ensures Start(sizes, i) + sizes[i] <= Start(sizes, n)
        ensures Window(Concat(blocks[..n]), Start(sizes, i), sizes[i]) == blocks[i]
      {
        if i < n - 1 {
          assert Window(Concat(blocks[..n]), Start(sizes, i), sizes[i])
              == Window(Concat(blocks[..n - 1]), Start(sizes, i), sizes[i]);
        }
      }
    }
  }

  ghost function RxBlocks(shapes: seq<Shape>, contents: seq<Contents>): (blocks: seq<seq<byte>>)
    requires AllWellFormed(shapes, contents)
    ensures HasSizes(blocks, RxSizes(shapes))
    ensures forall i :: 0 <= i < |shapes| ==> blocks[i] == Pack(shapes[i].rx, contents[i].rx)
  {
    seq(|shapes|, i requires 0 <= i < |shapes| => Pack(shapes[i].rx, contents[i].rx))
  }

  ghost function TxBlocks(shapes: seq<Shape>, contents: seq<Contents>): (blocks: seq<seq<byte>>)
    requires AllWellFormed(shapes, contents)
    ensures HasSizes(blocks, TxSizes(shapes))
    ensures forall i :: 0 <= i < |shapes| ==> blocks[i] == Pack(shapes[i].tx, contents[i].tx)
  {
    seq(|shapes|, i requires 0 <= i < |shapes| => Pack(shapes[i].tx, contents[i].tx))
  }

  /** The image that carries the given contents. */
  ghost function Compose(shapes: seq<Shape>, contents: seq<Contents>): seq<byte>
    requires AllWellFormed(shapes, contents)
  {
    Concat(RxBlocks(shapes, contents)) + Concat(TxBlocks(shapes, contents))
  }

  lemma {:induction false} AllBlocks(blocks: seq<seq<byte>>, sizes: seq<nat>)
    requires HasSizes(blocks, sizes)
    ensures |Concat(blocks)| == Size(sizes)
    ensures forall i :: 0 <= i < |blocks| ==>
              Start(sizes, i) + sizes[i] <= Size(sizes)
              && Window(Concat(blocks), Start(sizes, i), sizes[i]) == blocks[i]
  {
    BlockAt(blocks, sizes, |blocks|);
    assert blocks[..|blocks|] == blocks && sizes[..|blocks|] == sizes;
  }

  lemma WindowOfLeft(a: seq<byte>, b: seq<byte>, start: nat, size: nat)
    requires start + size <= |a|
    ensures Window(a + b, start, size) == Window(a, start, size)
  {
  }

  lemma WindowOfRight(a: seq<byte>, b: seq<byte>, start: nat, size: nat)
    requires start + size <= |b|
    ensures Window(a + b, |a| + start, size) == Window(b, start, size)
  {
  }

  lemma ComposedRxWindow(shapes: seq<Shape>, contents: seq<Contents>, i: nat)
    requires AllWellFormed(shapes, contents) && i < |shapes|
    ensures RxStart(shapes, i) + Size(shapes[i].rx) <= |Compose(shapes, contents)|
    ensures Window(Compose(shapes, contents), RxStart(shapes, i), Size(shapes[i].rx))
         == Pack(shapes[i].rx, contents[i].rx)
  {
    var rx, tx := RxBlocks(shapes, contents), TxBlocks(shapes, contents);
    AllBlocks(rx, RxSizes(shapes));
    WindowOfLeft(Concat(rx), Concat(tx), RxStart(shapes, i), Size(shapes[i].rx));
  }

  lemma ComposedTxWindow(shapes: seq<Shape>, contents: seq<Contents>, i: nat)
    requires AllWellFormed(shapes, contents) && i < |shapes|
    ensures TxStart(shapes, i) + Size(shapes[i].tx) <= |Compose(shapes, contents)| == ImageSize(shapes)
    ensures Window(Compose(shapes, contents), TxStart(shapes, i), Size(shapes[i].tx))
         == Pack(shapes[i].tx, contents[i].tx)
  {
    var rx, tx := RxBlocks(shapes, contents), TxBlocks(shapes, contents);
    AllBlocks(rx, RxSizes(shapes));
    AllBlocks(tx, TxSizes(shapes));
    WindowOfRight(Concat(rx), Concat(tx), Start(TxSizes(shapes), i), Size(shapes[i].tx));
  }

  /** Decoding the composed image gives the contents back. */
  lemma DecodeCompose(shapes: seq<Shape>, contents: seq<Contents>)
    requires AllWellFormed(shapes, contents)
    ensures Carries(shapes, contents, Compose(shapes, contents))
  {
    AllBlocks(RxBlocks(shapes, contents), RxSizes(shapes));
    AllBlocks(TxBlocks(shapes, contents), TxSizes(shapes));
    var image := Compose(shapes, contents);
    SlotsFit(shapes, image);
    forall i | 0 <= i < |shapes|
      ensures ReadSlot(SlotsFor(shapes)[i], image) == contents[i]
    {
      ComposedRxWindow(shapes, contents, i);
      ComposedTxWindow(shapes, contents, i);
      UnpackPack(shapes[i].rx, contents[i].rx);
      UnpackPack(shapes[i].tx, contents[i].tx);
    }
  }

  /** Composing what an image decodes to gives the image back: no byte is lost. */
  lemma ComposeDecode(shapes: seq<Shape>, image: seq<byte>)
    requires |image| == ImageSize(shapes)
    ensures SlotsInside(SlotsFor(shapes), image)
    ensures AllWellFormed(shapes, ReadAll(SlotsFor(shapes), image))
    ensures Compose(shapes, ReadAll(SlotsFor(shapes), image)) == image
  {
    SlotsFit(shapes, image);
    var contents := ReadAll(SlotsFor(shapes), image);
    forall i | 0 <= i < |shapes|
      ensures WellFormed(shapes[i], contents[i])
    {
      assert contents[i] == ReadSlot(SlotsFor(shapes)[i], image);
    }
    DecodeCompose(shapes, contents);
    DecodingIsInjective(shapes, contents, image, Compose(shapes, contents));
  }

  lemma DecodingIsInjective(shapes: seq<Shape>, contents: seq<Contents>, a: seq<byte>, b: seq<byte>)
    requires Carries(shapes, contents, a) && Carries(shapes, contents, b)
    ensures a == b
  {
    forall p | 0 <= p < |a|
      ensures a[p] == b[p]
    {
      var j := EveryByteIsOwned(shapes, p);
      assert ReadAll(SlotsFor(shapes), a)[j] == ReadAll(SlotsFor(shapes), b)[j];
      SameOwnBytes(shapes, a, b, j);
      assert AgreeOn(shapes, a, b, j);
    }
  }

  // Listed offsets -------------------------------------------------

  /** The RX and TX start offsets that a configuration file lists for its slaves. */
  ghost predicate Lists(shapes: seq<Shape>, rx: seq<nat>, tx: seq<nat>) {
    && |rx| == |tx| == |shapes|
    && (forall i :: 0 <= i < |shapes| ==> RxStart(shapes, i) == rx[i])
    && (forall i :: 0 <= i < |shapes| ==> TxStart(shapes, i) == tx[i])
  }

  /** Offsets that grow block by block are the prefix sums. */
  lemma {:induction false} StartsByStep(sizes: seq<nat>, starts: seq<nat>, n: nat)
    requires n < |starts| <= |sizes| + 1
    requires forall i :: 0 <= i < |starts| - 1 ==> starts[i + 1] == starts[i] + sizes[i]
    ensures starts[0] + Start(sizes, n) == starts[n]
  {
    if n != 0 {
      StartsByStep(sizes, starts, n - 1);
      NextStart(sizes, n - 1);
    }
  }

  lemma ListsConfiguration(shapes: seq<Shape>, rx: seq<nat>, tx: seq<nat>)
    requires |rx| == |shapes| + 1 && |tx| == |shapes| && rx[0] == 0
    requires forall i :: 0 <= i < |shapes| ==> rx[i + 1] == rx[i] + Size(shapes[i].rx)
    requires forall i :: 0 <= i < |shapes| - 1 ==> tx[i + 1] == tx[i] + Size(shapes[i].tx)
    requires |shapes| > 0 ==> tx[0] == rx[|shapes|]
    ensures Lists(shapes, rx[..|shapes|], tx)
  {
    var rxSizes, txSizes := RxSizes(shapes), TxSizes(shapes);
    StartsByStep(rxSizes, rx, |shapes|);
    assert rxSizes[..|shapes|] == rxSizes;
    forall i | 0 <= i < |shapes|
      ensures RxStart(shapes, i) == rx[i] && TxStart(shapes, i) == tx[i]
    {
      StartsByStep(rxSizes, rx, i);
      StartsByStep(txSizes, tx, i);
    }
  }
}
