/**
 * The bool-array wire encoding the generated C# code uses: `n` flags travel
 * in `ceil(n/8)` bytes, flag `i` in byte `i / 8` at bit `i % 8`, least
 * significant bit first. The request builder packs with
 * `bits[i / 8] |= (byte)(1 << (i % 8))`; the response and callback parsers
 * unpack with `(bits[i / 8] & (1 << (i % 8))) != 0`.
 */
module BitPacking {
  import opened DeviceModel

  /** `1 << k` as a byte. */
  function Mask(k: nat): bv8
    requires k < 8
  {
    (1 as bv8) << k
  }

  /** Whether bit `k` of `b` is set: `(b & (1 << k)) != 0`. */
  predicate Bit(b: bv8, k: nat)
    requires k < 8
  {
    b & Mask(k) != 0
  }

  /** Flag `p`, and `false` for the padding positions past the end. */
  predicate FlagAt(flags: seq<bool>, p: nat) {
    p < |flags| && flags[p]
  }

  /** Byte `j` of the packed encoding: the eight flags `8j .. 8j+7`, lowest first. */
  function PackByte(flags: seq<bool>, j: nat): bv8 {
    (if FlagAt(flags, 8 * j) then Mask(0) else 0) |
    (if FlagAt(flags, 8 * j + 1) then Mask(1) else 0) |
    (if FlagAt(flags, 8 * j + 2) then Mask(2) else 0) |
    (if FlagAt(flags, 8 * j + 3) then Mask(3) else 0) |
    (if FlagAt(flags, 8 * j + 4) then Mask(4) else 0) |
    (if FlagAt(flags, 8 * j + 5) then Mask(5) else 0) |
    (if FlagAt(flags, 8 * j + 6) then Mask(6) else 0) |
    (if FlagAt(flags, 8 * j + 7) then Mask(7) else 0)
  }

  /** The packed encoding of a bool sequence. */
  function Pack(flags: seq<bool>): (bytes: seq<bv8>)
    ensures |bytes| == CeilDiv8(|flags|)
  {
    seq(CeilDiv8(|flags|), j requires 0 <= j => PackByte(flags, j))
  }

  /** The first `n` flags of a packed encoding. */
  function Unpack(bytes: seq<bv8>, n: nat): (flags: seq<bool>)
    requires n <= 8 * |bytes|
    ensures |flags| == n
  {
    seq(n, i requires 0 <= i < n => Bit(bytes[i / 8], i % 8))
  }

  /** Bytes whose bits past flag `n` are all clear. */
  predicate PaddingClear(bytes: seq<bv8>, n: nat) {
    forall p :: n <= p < 8 * |bytes| ==> !Bit(bytes[p / 8], p % 8)
  }

  lemma BitOfMaskOr(b: bv8, k: nat, q: nat)
    requires k < 8 && q < 8
    ensures Bit(b | Mask(k), q) == (Bit(b, q) || q == k)
  {
  }

  /** A byte is determined by its eight bits. */
  lemma ByteExtensionality(a: bv8, b: bv8)
    requires forall k :: 0 <= k < 8 ==> Bit(a, k) == Bit(b, k)
    ensures a == b
  {
    assert Mask(0) == 1 && Mask(1) == 2 && Mask(2) == 4 && Mask(3) == 8;
    assert Mask(4) == 16 && Mask(5) == 32 && Mask(6) == 64 && Mask(7) == 128;
    assert Bit(a, 0) == Bit(b, 0) && Bit(a, 1) == Bit(b, 1);
    assert Bit(a, 2) == Bit(b, 2) && Bit(a, 3) == Bit(b, 3);
    assert Bit(a, 4) == Bit(b, 4) && Bit(a, 5) == Bit(b, 5);
    assert Bit(a, 6) == Bit(b, 6) && Bit(a, 7) == Bit(b, 7);
  }

  /** Position `8j + k` is bit `k` of byte `j`. */
  lemma Position(j: nat, k: nat)
    requires k < 8
    ensures (8 * j + k) / 8 == j && (8 * j + k) % 8 == k
  {
  }

  /** A byte whose bits are flags `8j .. 8j+7` is byte `j` of the packed encoding. */
  lemma PackByteOfBits(flags: seq<bool>, j: nat, b: bv8)
    requires forall k :: 0 <= k < 8 ==> Bit(b, k) == FlagAt(flags, 8 * j + k)
    ensures PackByte(flags, j) == b
  {
    forall k | 0 <= k < 8 ensures Bit(PackByte(flags, j), k) == Bit(b, k) {
      BitOfPackByte(flags, j, k);
    }
    ByteExtensionality(PackByte(flags, j), b);
  }

  lemma BitOfPackByte(flags: seq<bool>, j: nat, k: nat)
    requires k < 8
    ensures Bit(PackByte(flags, j), k) == FlagAt(flags, 8 * j + k)
  {
    assert Mask(0) == 1 && Mask(1) == 2 && Mask(2) == 4 && Mask(3) == 8;
    assert Mask(4) == 16 && Mask(5) == 32 && Mask(6) == 64 && Mask(7) == 128;
  }

  /** Flag `i` is bit `i % 8` of byte `i / 8`, and every bit past the last flag is clear. */
  lemma PackBitLayout(flags: seq<bool>)
    ensures forall i :: 0 <= i < |flags| ==> Bit(Pack(flags)[i / 8], i % 8) == flags[i]
    ensures PaddingClear(Pack(flags), |flags|)
  {
    var bytes := Pack(flags);
    forall p | 0 <= p < 8 * |bytes|
      ensures Bit(bytes[p / 8], p % 8) == FlagAt(flags, p)
    {
      BitOfPackByte(flags, p / 8, p % 8);
    }
  }

  /** Unpacking a packed bool sequence gives it back. */
  lemma UnpackPack(flags: seq<bool>)
    ensures Unpack(Pack(flags), |flags|) == flags
  {
    PackBitLayout(flags);
  }

  /** Packing the flags read from bytes whose padding is clear gives the bytes back. */
  lemma PackUnpack(bytes: seq<bv8>, n: nat)
    requires |bytes| == CeilDiv8(n)
    requires PaddingClear(bytes, n)
    ensures Pack(Unpack(bytes, n)) == bytes
  {
    var flags := Unpack(bytes, n);
    forall p | 0 <= p < 8 * |bytes| ensures Bit(bytes[p / 8], p % 8) == FlagAt(flags, p) {
    }
    BitsDeterminePack(bytes, flags);
  }

  /** Bytes whose bits are exactly the flags followed by clear padding are the packed encoding. */
  lemma BitsDeterminePack(bytes: seq<bv8>, flags: seq<bool>)
    requires |bytes| == CeilDiv8(|flags|)
    requires forall p :: 0 <= p < 8 * |bytes| ==> Bit(bytes[p / 8], p % 8) == FlagAt(flags, p)
    ensures bytes == Pack(flags)
  {
    forall j | 0 <= j < |bytes| ensures Pack(flags)[j] == bytes[j] {
      forall k | 0 <= k < 8 ensures Bit(bytes[j], k) == FlagAt(flags, 8 * j + k) {
        Position(j, k);
      }
      PackByteOfBits(flags, j, bytes[j]);
    }
  }

  /** Setting bit `i % 8` of byte `i / 8` sets flag position `i` and no other. */
  lemma SetFlagStep(before: seq<bv8>, after: seq<bv8>, i: nat)
    requires i < 8 * |before| && |after| == |before|
    requires after == before[i / 8 := before[i / 8] | Mask(i % 8)]
    ensures forall p :: 0 <= p < 8 * |after| ==>
      Bit(after[p / 8], p % 8) == (Bit(before[p / 8], p % 8) || p == i)
  {
    forall p | 0 <= p < 8 * |after|
      ensures Bit(after[p / 8], p % 8) == (Bit(before[p / 8], p % 8) || p == i)
    {
      if p / 8 == i / 8 {
        BitOfMaskOr(before[i / 8], i % 8, p % 8);
        assert p % 8 == i % 8 <==> p == i;
      }
    }
  }

  /**
   * The packing loop of the generated request builder: `count` is the
   * element's declared cardinality, which sizes the byte array and bounds
   * the loop; flags past `count` are not read.
   */
  method PackBoolArray(flags: array<bool>, count: nat) returns (bits: array<bv8>)
    requires count <= flags.Length
    ensures fresh(bits)
    ensures bits[..] == Pack(flags[..count])
  {
    bits := new bv8[CeilDiv8(count)](_ => 0);
    for i := 0 to count
      invariant forall p :: 0 <= p < 8 * bits.Length ==> Bit(bits[p / 8], p % 8) == (p < i && flags[p])
    {
      if flags[i] {
        ghost var before := bits[..];
        bits[i / 8] := bits[i / 8] | Mask(i % 8);
        SetFlagStep(before, bits[..], i);
      }
    }
    assert forall p :: 0 <= p < 8 * bits.Length ==> Bit(bits[..][p / 8], p % 8) == FlagAt(flags[..count], p);
    BitsDeterminePack(bits[..], flags[..count]);
  }

  /** The unpacking loop of the generated response and callback parsers. */
  method UnpackBoolArray(bits: array<bv8>, n: nat) returns (flags: array<bool>)
    requires n <= 8 * bits.Length
    ensures fresh(flags)
    ensures flags[..] == Unpack(bits[..], n)
  {
    flags := new bool[n];
    for i := 0 to n
      invariant forall k :: 0 <= k < i ==> flags[k] == Bit(bits[k / 8], k % 8)
    {
      flags[i] := (bits[i / 8] & Mask(i % 8)) != 0;
    }
  }

  /** A flag array sent through the generated packer and read back by the generated parser is unchanged. */
  method PackThenUnpack(flags: array<bool>) returns (back: array<bool>)
    ensures back[..] == flags[..]
  {
    var bits := PackBoolArray(flags, flags.Length);
    back := UnpackBoolArray(bits, flags.Length);
    assert flags[..flags.Length] == flags[..];
    UnpackPack(flags[..]);
  }
}
