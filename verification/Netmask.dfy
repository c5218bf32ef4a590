/** The two netmask builders of the BSD route helper and its check that a mask is contiguous.
    Bit tests and shifts of 32-bit words are written arithmetically. */
module Netmask {
  import opened Bytes
  import opened Powers

  /** Bit `i` of a number. */
  function Bit(m: nat, i: nat): nat {
    if i == 0 then m % 2 else Bit(m / 2, i - 1)
  }

  /** `width` bits of which all but the lowest `k` are set. */
  function HighBits(width: nat, k: nat): nat
    requires k <= width
  {
    Pow2Grows(k, width);
    Pow2(width) - Pow2(k)
  }

  lemma {:induction false} BitOfHighBits(width: nat, k: nat, i: nat)
    requires k <= width && i < width
    ensures Bit(HighBits(width, k), i) == if i >= k then 1 else 0
  {
    var m := HighBits(width, k);
    if k == 0 {
      if width == 1 {
        assert Pow2(1) == 2;
      } else {
        assert m == 2 * (Pow2(width - 1) - 1) + 1;
        if i > 0 {
          BitOfHighBits(width - 1, 0, i - 1);
        }
      }
    } else {
      assert m == 2 * (Pow2(width - 1) - Pow2(k - 1));
      if i > 0 {
        BitOfHighBits(width - 1, k - 1, i - 1);
      }
    }
  }

  /** Numbers of `width` bits with the same bits are equal. */
  lemma {:induction false} BitsDetermine(m: nat, n: nat, width: nat)
    requires m < Pow2(width) && n < Pow2(width)
    requires forall i :: 0 <= i < width ==> Bit(m, i) == Bit(n, i)
    ensures m == n
  {
    if width == 0 {
    } else {
      assert Bit(m, 0) == Bit(n, 0);
      forall i | 0 <= i < width - 1
        ensures Bit(m / 2, i) == Bit(n / 2, i)
      {
        assert Bit(m, i + 1) == Bit(n, i + 1);
      }
      BitsDetermine(m / 2, n / 2, width - 1);
    }
  }

  ghost predicate Contiguous(mask: Word32) {
    exists k: nat :: k <= 32 && mask == HighBits(32, k)
  }

  /** The two loops of `newroute`: skip the clear low bits, then every bit must be set. */
  method CheckMask(mask: Word32) returns (valid: bool)
    ensures valid <==> Contiguous(mask)
  {
    Pow2Of32();
    var i := 0;
    while i < 32
      invariant 0 <= i <= 32
      invariant forall j :: 0 <= j < i ==> Bit(mask, j) == 0
    {
      if Bit(mask, i) != 0 {
        break;
      }
      i := i + 1;
    }
    ghost var k := i;
    while i < 32
      invariant k <= i <= 32
      invariant forall j :: k <= j < i ==> Bit(mask, j) == 1
      invariant k < 32 ==> Bit(mask, k) != 0
    {
      if Bit(mask, i) == 0 {
        GapIsNotContiguous(mask, k, i);
        return false;
      }
      BitIsBinary(mask, i);
      i := i + 1;
    }
    forall j | 0 <= j < 32
      ensures Bit(mask, j) == Bit(HighBits(32, k), j)
    {
      BitOfHighBits(32, k, j);
    }
    BitsDetermine(mask, HighBits(32, k), 32);
    return true;
  }

  lemma {:induction false} BitIsBinary(m: nat, i: nat)
    ensures Bit(m, i) == 0 || Bit(m, i) == 1
  {
    if i == 0 {
    } else {
      BitIsBinary(m / 2, i - 1);
    }
  }

  lemma GapIsNotContiguous(mask: Word32, k: nat, i: nat)
    requires k <= i < 32 && Bit(mask, k) != 0 && Bit(mask, i) == 0
    ensures !Contiguous(mask)
  {
    forall j: nat | j <= 32
      ensures mask != HighBits(32, j)
    {
      BitOfHighBits(32, j, k);
      BitOfHighBits(32, j, i);
    }
  }

  /** The mask of a prefix of `bits` bits. */
  function MaskOf(bits: nat): nat
    requires bits <= 32
  {
    HighBits(32, 32 - bits)
  }

  /** `0xffffffff << k` in 32 bits. */
  function ShiftedOnes(k: nat): Word32 {
    0xffff_ffff * Pow2(k) % 0x1_0000_0000
  }

  lemma ShiftedOnesIsMask(k: nat)
    requires k <= 32
    ensures ShiftedOnes(k) == HighBits(32, k)
  {
    Pow2Of32();
    Pow2Grows(k, 32);
    var p := Pow2(k);
    assert 0xffff_ffff * p == 0x1_0000_0000 * (p - 1) + (0x1_0000_0000 - p);
  }

  /** The weight of the byte `i` places from the lowest. */
  function Weight(i: nat): nat
    requires i <= 4
  {
    [1, 256, 65536, 0x100_0000, 0x1_0000_0000][i]
  }

  /** The number shifted left by whole bytes until its highest byte is not zero. */
  ghost predicate Normalised(net: Word32, from: Word32) {
    (exists k: nat :: k <= 3 && net == from * Weight(k)) && (net == 0 || net >= 0x100_0000)
  }

  /** The bytes of the net below the prefix of `bytes` bytes are zero. */
  predicate CoversNet(net: Word32, bytes: nat)
    requires bytes <= 4
  {
    net % Weight(4 - bytes) == 0
  }

  /** `inet_makenetandmask`: a word-wise mask, for a length that is given or worked out. */
  method MakeNetAndMask(from: Word32, given: nat) returns (net: Word32, mask: Word32)
    requires given <= 32
    ensures Normalised(net, from)
    // an explicit length is honoured unless it is 0 for a net that is not
    ensures mask == MaskOf(given) <==> given != 0 || from == 0
    // no length given: the shortest byte-aligned prefix that covers the net
    ensures given == 0 && from != 0 ==>
              exists bytes: nat :: 1 <= bytes <= 4 && mask == MaskOf(8 * bytes) && CoversNet(net, bytes)
                && forall fewer: nat :: fewer < bytes ==> !CoversNet(net, fewer)
  {
    net := NormaliseNet(from);
    var bits := given;
    if bits == 0 && net != 0 {
      var i := LowestByte(net);
      bits := 32 - i * 8;
      ByteMaskIsNotZero(4 - i);
      assert bits == 8 * (4 - i);
    }
    mask := BuildMask(bits);
  }

  method BuildMask(bits: nat) returns (mask: Word32)
    requires bits <= 32
    ensures mask == MaskOf(bits)
  {
    mask := 0;
    if bits != 0 {
      ShiftedOnesIsMask(32 - bits);
      mask := ShiftedOnes(32 - bits);
    }
  }

  /** The normalising loop; it terminates because a net below 2^24 grows. */
  method NormaliseNet(from: Word32) returns (net: Word32)
    ensures Normalised(net, from) && (net == 0 <==> from == 0)
  {
    net := from;
    if net > 0 {
      ghost var k := 0;
      while net < 0x100_0000
        invariant 0 < net <= 0xffff_ffff && k <= 3 && net == from * Weight(k)
        invariant k == 3 ==> net >= 0x100_0000
        decreases 0x100_0000 - net
      {
        net := net * 256;
        k := k + 1;
      }
    } else {
      assert 0 == from * Weight(0);
    }
  }

  lemma NextByte(net: Word32, i: nat)
    requires i <= 3 && net % Weight(i) == 0
    ensures net / Weight(i) % 256 == 0 <==> net % Weight(i + 1) == 0
  {
  }

  lemma WeightsNest(net: Word32, i: nat, j: nat)
    requires i <= j <= 4 && net % Weight(j) == 0
    ensures net % Weight(i) == 0
    decreases j - i
  {
    if i < j {
      WeightsNest(net, i + 1, j);
      assert Weight(i + 1) == 256 * Weight(i);
    }
  }

  /** The first byte from below that is not zero. */
  method LowestByte(net: Word32) returns (i: nat)
    requires net >= 0x100_0000
    ensures i <= 3 && CoversNet(net, 4 - i)
    ensures forall fewer: nat :: fewer < 4 - i ==> !CoversNet(net, fewer)
  {
    i := 0;
    while i < 4
      invariant 0 <= i <= 4 && net % Weight(i) == 0
    {
      NextByte(net, i);
      if net / Weight(i) % 256 != 0 {
        break;
      }
      i := i + 1;
    }
    forall fewer: nat | fewer < 4 - i
      ensures !CoversNet(net, fewer)
    {
      if CoversNet(net, fewer) {
        WeightsNest(net, i + 1, 4 - fewer);
      }
    }
  }

  lemma ByteMaskIsNotZero(bytes: nat)
    requires 1 <= bytes <= 4
    ensures MaskOf(8 * bytes) != MaskOf(0)
  {
    Pow2Of32();
    Pow2Grows(32 - 8 * bytes, 24);
  }

  /** The bytes as one number, the first the most significant. */
  function BigEndian(bytes: seq<Byte>): nat {
    if bytes == [] then 0 else BigEndian(bytes[..|bytes| - 1]) * 256 + bytes[|bytes| - 1]
  }

  /** Byte `i` of the mask of a prefix. */
  function PrefixByte(length: nat, i: nat): Byte {
    if i < length / 8 then 255
    else if i == length / 8 && length % 8 > 0 then 0xff00 / Pow2Small(length % 8) % 256
    else 0
  }

  function Pow2Small(r: nat): nat
    requires r <= 8
  {
    [1, 2, 4, 8, 16, 32, 64, 128, 256][r]
  }

  lemma PrefixByteValue(length: nat, i: nat)
    ensures PrefixByte(length, i) ==
              if length >= 8 * (i + 1) then 255
              else if length <= 8 * i then 0 else 256 - Pow2Small(8 * (i + 1) - length)
  {
  }

  lemma Pow2SmallIsPow2(r: nat)
    requires r <= 8
    ensures Pow2Small(r) == Pow2(r)
  {
    assert Pow2(4) == 16;
    assert Pow2(8) == 16 * Pow2(4);
  }

  /** The first `n` bytes of the mask as a number. */
  lemma {:induction false} PrefixBytesValue(bytes: seq<Byte>, length: nat)
    requires length <= 8 * |bytes|
    requires forall i :: 0 <= i < |bytes| ==> bytes[i] == PrefixByte(length, i)
    ensures BigEndian(bytes) == HighBits(8 * |bytes|, 8 * |bytes| - length)
  {
    var n := |bytes|;
    if n == 0 {
    } else {
      var init := bytes[..n - 1];
      PrefixByteValue(length, n - 1);
      Pow2Adds(8, 8 * (n - 1));
      Pow2Of32();
      if length <= 8 * (n - 1) {
        PrefixBytesValue(init, length);
        Pow2Adds(8, 8 * (n - 1) - length);
      } else {
        forall i | 0 <= i < n - 1
          ensures init[i] == PrefixByte(8 * (n - 1), i)
        {
          PrefixByteValue(length, i);
          PrefixByteValue(8 * (n - 1), i);
        }
        PrefixBytesValue(init, 8 * (n - 1));
        Pow2SmallIsPow2(8 * n - length);
      }
    }
  }

  /** `prefixlen` for an address family of `4` (IPv4) or `16` (IPv6) bytes: the byte-wise mask is
      written in place; a length out of range leaves it alone and returns 1. */
  method PrefixLen(mask: array<Byte>, length: int) returns (code: int)
    modifies mask
    ensures !(0 <= length <= 8 * mask.Length) ==> code == 1 && mask[..] == old(mask[..])
    ensures 0 <= length <= 8 * mask.Length ==>
              && code == (if length == 8 * mask.Length then -1 else length)
              && (forall i :: 0 <= i < mask.Length ==> mask[i] == PrefixByte(length, i))
              && BigEndian(mask[..]) == HighBits(8 * mask.Length, 8 * mask.Length - length)
  {
    var max := 8 * mask.Length;
    if length < 0 || max < length {
      return 1;
    }
    var q, r := length / 8, length % 8;
    for i := 0 to mask.Length
      invariant forall j :: 0 <= j < i ==> mask[j] == 0
    {
      mask[i] := 0;
    }
    for i := 0 to q
      invariant forall j :: 0 <= j < i ==> mask[j] == 255
      invariant forall j :: i <= j < mask.Length ==> mask[j] == 0
    {
      mask[i] := 255;
    }
    if r > 0 {
      mask[q] := 0xff00 / Pow2Small(r) % 256;
    }
    PrefixBytesValue(mask[..], length);
    return if length == max then -1 else length;
  }

  /** The two builders agree: stored big-endian, the byte-wise mask is the word-wise one, and both
      are contiguous. */
  lemma BuildersAgree(bytes: seq<Byte>, length: nat)
    requires |bytes| == 4 && length <= 32
    requires forall i :: 0 <= i < 4 ==> bytes[i] == PrefixByte(length, i)
    ensures BigEndian(bytes) == MaskOf(length)
    ensures length >= 1 ==> BigEndian(bytes) == ShiftedOnes(32 - length)
    ensures BigEndian(bytes) <= 0xffff_ffff && Contiguous(BigEndian(bytes))
  {
    PrefixBytesValue(bytes, length);
    ShiftedOnesIsMask(32 - length);
    Pow2Of32();
  }
}
