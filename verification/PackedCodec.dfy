/**
 Little-endian packed structs.

 The slave classes move a struct with one `memcpy` between a byte buffer and a
 packed C struct.  On the little-endian hosts the program runs on, that is the
 codec below: a struct is a list of field widths, and field k occupies the
 bytes that follow the fields before it, without padding.
 */
module PackedCodec {

  type byte = b: int | 0 <= b < 256

  function Pow256(n: nat): (p: nat)
    ensures p > 0
  {
    if n == 0 then 1 else 256 * Pow256(n - 1)
  }

  /** The unsigned integer stored in `bs`, least significant byte first. */
  function FromBytes(bs: seq<byte>): (v: nat)
    ensures v < Pow256(|bs|)
  {
    if bs == [] then 0 else bs[0] + 256 * FromBytes(bs[1..])
  }

  /** The `width` low bytes of `v`, least significant byte first. */
  function ToBytes(v: nat, width: nat): (bs: seq<byte>)
    ensures |bs| == width
  {
    if width == 0 then [] else [v % 256] + ToBytes(v / 256, width - 1)
  }

  lemma {:induction false} FromToBytes(v: nat, width: nat)
    requires v < Pow256(width)
    ensures FromBytes(ToBytes(v, width)) == v
  {
    if width != 0 {
      FromToBytes(v / 256, width - 1);
      assert ToBytes(v, width)[1..] == ToBytes(v / 256, width - 1);
    }
  }

  /** The first byte is the lowest. */
  lemma LowByteFirst(a: byte, b: byte, c: byte, d: byte)
    ensures FromBytes([a, b, c, d]) == (a as int) + 0x100 * (b as int) + 0x1_0000 * (c as int) + 0x100_0000 * (d as int)
  {
    var bs := [a, b, c, d];
    assert bs[1..] == [b, c, d] && [b, c, d][1..] == [c, d] && [c, d][1..] == [d] && [d][1..] == [];
    assert FromBytes([d]) == d && FromBytes([c, d]) == (c as int) + 0x100 * (d as int);
  }

  lemma SplitByte(low: byte, rest: nat)
    ensures (low + 256 * rest) % 256 == low
    ensures (low + 256 * rest) / 256 == rest
  {
  }

  lemma {:induction false} ToFromBytes(bs: seq<byte>)
    ensures ToBytes(FromBytes(bs), |bs|) == bs
  {
    if bs != [] {
      ToFromBytes(bs[1..]);
      SplitByte(bs[0], FromBytes(bs[1..]));
      assert bs == [bs[0]] + bs[1..];
    }
  }

  /** Number of bytes of a packed struct. */
  function Size(widths: seq<nat>): (n: nat) {
    if widths == [] then 0 else widths[0] + Size(widths[1..])
  }

  /** The field values of a struct whose bytes are `bs`. */
  function Unpack(widths: seq<nat>, bs: seq<byte>): (vs: seq<nat>)
    requires |bs| == Size(widths)
    ensures Fits(widths, vs)
    decreases |widths|
  {
    if widths == [] then []
    else [FromBytes(bs[..widths[0]])] + Unpack(widths[1..], bs[widths[0]..])
  }

  /** Every value is representable in its field. */
  ghost predicate Fits(widths: seq<nat>, vs: seq<nat>) {
    && |vs| == |widths|
    && forall i :: 0 <= i < |vs| ==> vs[i] < Pow256(widths[i])
  }

  /** The bytes of a struct whose field values are `vs`. */
  function Pack(widths: seq<nat>, vs: seq<nat>): (bs: seq<byte>)
    requires |vs| == |widths|
    ensures |bs| == Size(widths)
    decreases |widths|
  {
    if widths == [] then []
    else ToBytes(vs[0], widths[0]) + Pack(widths[1..], vs[1..])
  }

  /** Reading a struct back from its own bytes gives the struct. */
  lemma {:induction false} UnpackPack(widths: seq<nat>, vs: seq<nat>)
    requires Fits(widths, vs)
    ensures Unpack(widths, Pack(widths, vs)) == vs
    decreases |widths|
  {
    if widths != [] {
      var bs := Pack(widths, vs);
      assert bs[..widths[0]] == ToBytes(vs[0], widths[0]);
      assert bs[widths[0]..] == Pack(widths[1..], vs[1..]);
      FromToBytes(vs[0], widths[0]);
      UnpackPack(widths[1..], vs[1..]);
    }
  }

  /** No byte of a window is lost by reading it as a struct. */
  lemma {:induction false} PackUnpack(widths: seq<nat>, bs: seq<byte>)
    requires |bs| == Size(widths)
    ensures Pack(widths, Unpack(widths, bs)) == bs
    decreases |widths|
  {
    if widths != [] {
      ToFromBytes(bs[..widths[0]]);
      PackUnpack(widths[1..], bs[widths[0]..]);
    }
  }

  lemma {:induction false} SizePrefix(widths: seq<nat>, k: nat)
    requires k <= |widths|
    ensures Size(widths) == Size(widths[..k]) + Size(widths[k..])
  {
    if k != 0 {
      SizePrefix(widths[1..], k - 1);
      assert widths[..k][1..] == widths[1..][..k - 1];
      assert widths[k..] == widths[1..][k - 1..];
    }
  }

  lemma {:induction false} SizeConcat(a: seq<nat>, b: seq<nat>)
    ensures Size(a + b) == Size(a) + Size(b)
  {
    SizePrefix(a + b, |a|);
    assert (a + b)[..|a|] == a && (a + b)[|a|..] == b;
  }

  lemma SizeOfPrefix(widths: seq<nat>, k: nat)
    requires 0 < k <= |widths|
    ensures Size(widths[..k]) == widths[0] + Size(widths[1..][..k - 1])
  {
    assert widths[..k][1..] == widths[1..][..k - 1];
  }

  lemma {:induction false} UnpackTail(widths: seq<nat>, bs: seq<byte>, k: nat)
    requires |bs| == Size(widths) && 0 < k < |widths|
    ensures widths[0] <= |bs| && |bs[widths[0]..]| == Size(widths[1..])
    ensures Unpack(widths, bs)[k] == Unpack(widths[1..], bs[widths[0]..])[k - 1]
  {
  }

  lemma {:induction false} UnpackHead(widths: seq<nat>, bs: seq<byte>)
    requires |bs| == Size(widths) && widths != []
    ensures Size(widths[..0]) == 0 && widths[0] <= |bs|
    ensures Unpack(widths, bs)[0] == FromBytes(bs[0..][..widths[0]])
  {
    assert bs[0..] == bs;
  }

  lemma SameField(bs: seq<byte>, a: nat, b: nat, n: nat)
    requires a + b + n <= |bs|
    ensures FromBytes(bs[a..][b..][..n]) == FromBytes(bs[a + b..][..n])
  {
    assert bs[a..][b..][..n] == bs[a + b..][..n];
  }

  /** v is the little-endian number at the packed offset of field k. */
  ghost predicate IsField(widths: seq<nat>, bs: seq<byte>, k: nat, v: nat) {
    && k < |widths| && Size(widths[..k]) + widths[k] <= |bs|
    && v == FromBytes(bs[Size(widths[..k])..][..widths[k]])
  }

  lemma IsFieldOfTail(widths: seq<nat>, bs: seq<byte>, k: nat, v: nat)
    requires 0 < k < |widths| && widths[0] <= |bs| && IsField(widths[1..], bs[widths[0]..], k - 1, v)
    ensures IsField(widths, bs, k, v)
  {
    SizeOfPrefix(widths, k);
    SameField(bs, widths[0], Size(widths[1..][..k - 1]), widths[k]);
  }

  /** Field k is the little-endian number at the packed offset of field k. */
  lemma {:induction false} UnpackAt(widths: seq<nat>, bs: seq<byte>, k: nat)
    requires |bs| == Size(widths) && k < |widths|
    ensures IsField(widths, bs, k, Unpack(widths, bs)[k])
    decreases k
  {
    if k == 0 {
      UnpackHead(widths, bs);
    } else {
      UnpackTail(widths, bs, k);
      UnpackAt(widths[1..], bs[widths[0]..], k - 1);
      IsFieldOfTail(widths, bs, k, Unpack(widths, bs)[k]);
    }
  }
}
