/** The hashing capability (FileHasher::Hasher) and its three implementations
    of Hashers.h: what each reports as its input and output sizes, and what
    its `operator()` does to the output buffer. */
module Hashers {
  import opened Common

  /** The 16 bytes of an RFC 1321 MD5 digest, `sizeof(md5::digest_type)`. */
  type Md5Digest = s: seq<byte> | |s| == 16 witness [0, 0, 0, 0, 0, 0, 0, 0, 0, 0, 0, 0, 0, 0, 0, 0]

  /** The closed set of hashers. `md5` is the external MD5 (boost's
      `process_bytes` followed by `get_digest`), whose internals are not part
      of this model; it always yields 16 bytes. */
  datatype Hasher =
    | Crc32Hasher(blockSize: Size)
    | Md5Hasher(blockSize: Size, md5: seq<byte> -> Md5Digest)
    | NoneHasher(blockSize: Size)
  {
    /** `input_size()`: the block size given to the constructor. */
    function InputSize(): Size { blockSize }

    /** `output_size()`: 4 for CRC32, `sizeof(md5::digest_type)` for MD5, 16 for NONE. */
    function OutputSize(): nat
    {
      match this
      case Crc32Hasher(_) => 4
      case Md5Hasher(_, _) => 16
      case NoneHasher(_) => 16
    }
  }

  lemma HasherSizes(h: Hasher)
    ensures h.InputSize() == h.blockSize
    ensures h.Crc32Hasher? ==> h.OutputSize() == 4
    ensures !h.Crc32Hasher? ==> h.OutputSize() == 16
  {
  }

  // ---------------------------------------------------------------------------
  // CRC32Hasher: a lane-wise XOR accumulation (not the IEEE 802.3 CRC-32)

  /** The byte that input position `i` contributes: `uint8_t(in[i]) + uint8_t(i % 256)`,
      truncated back to a byte. */
  function Mix(b: byte, i: nat): byte { b + (i % 256) as byte }

  /** The mixed byte of every input position. */
  function MixAll(block: seq<byte>): (r: seq<byte>)
    ensures |r| == |block|
    ensures forall i :: 0 <= i < |block| ==> r[i] == Mix(block[i], i)
  {
    seq(|block|, i requires 0 <= i < |block| => Mix(block[i], i))
  }

  /** XORs byte `i` of `mixed` into byte `i % 4` of `acc`, for each position in turn. */
  function XorFold(acc: seq<byte>, mixed: seq<byte>): (r: seq<byte>)
    requires |acc| == 4
    ensures |r| == 4
    decreases |mixed|
  {
    if |mixed| == 0 then acc
    else
      var i := |mixed| - 1;
      var prev := XorFold(acc, mixed[..i]);
      prev[i % 4 := prev[i % 4] ^ mixed[i]]
  }

  /** What CRC32Hasher's loop leaves in `out[0..4)` when it starts from `acc`
      and has consumed the bytes of `block`, one position at a time. */
  function Crc32Accumulate(acc: seq<byte>, block: seq<byte>): (r: seq<byte>)
    requires |acc| == 4
    ensures |r| == 4
    decreases |block|
  {
    if |block| == 0 then acc
    else
      var i := |block| - 1;
      var prev := Crc32Accumulate(acc, block[..i]);
      prev[i % 4 := prev[i % 4] ^ Mix(block[i], i)]
  }

  /** The loop is the XOR fold of the mixed input bytes. */
  lemma {:induction false} Crc32IsXorFold(acc: seq<byte>, block: seq<byte>)
    requires |acc| == 4
    ensures Crc32Accumulate(acc, block) == XorFold(acc, MixAll(block))
    decreases |block|
  {
    if |block| > 0 {
      var i := |block| - 1;
      Crc32IsXorFold(acc, block[..i]);
      assert MixAll(block)[..i] == MixAll(block[..i]);
    }
  }

  /** The XOR of the bytes of `mixed` at the positions `i` with `i % 4 == lane`. */
  function LaneXor(mixed: seq<byte>, lane: nat): byte
    decreases |mixed|
  {
    if |mixed| == 0 then 0
    else
      var i := |mixed| - 1;
      LaneXor(mixed[..i], lane) ^ LaneByte(mixed, i, lane)
  }

  /** Byte `i` of `mixed` if position `i` lies in `lane`, otherwise 0. */
  function LaneByte(mixed: seq<byte>, i: nat, lane: nat): byte
    requires i < |mixed|
  {
    if i % 4 == lane then mixed[i] else 0
  }

  /** Folding leaves each byte `lane` as its old value XOR the lane's bytes. */
  lemma {:induction false} XorFoldLanes(acc: seq<byte>, mixed: seq<byte>, lane: nat)
    requires |acc| == 4 && lane < 4
    ensures XorFold(acc, mixed)[lane] == acc[lane] ^ LaneXor(mixed, lane)
    decreases |mixed|
  {
    if |mixed| > 0 {
      XorFoldLanes(acc, mixed[..|mixed| - 1], lane);
      XorFoldLanesStep(acc, mixed, lane);
    }
  }

  lemma LaneXorLast(mixed: seq<byte>, lane: nat)
    requires |mixed| > 0
    ensures LaneXor(mixed, lane) == LaneXor(mixed[..|mixed| - 1], lane) ^ LaneByte(mixed, |mixed| - 1, lane)
  {
  }

  /** The inductive step of XorFoldLanes: the claim for all but the last
      position extends to the whole of `mixed`. */
  lemma XorFoldLanesStep(acc: seq<byte>, mixed: seq<byte>, lane: nat)
    requires |acc| == 4 && lane < 4 && |mixed| > 0
    requires XorFold(acc, mixed[..|mixed| - 1])[lane] == acc[lane] ^ LaneXor(mixed[..|mixed| - 1], lane)
    ensures XorFold(acc, mixed)[lane] == acc[lane] ^ LaneXor(mixed, lane)
  {
    XorFoldStep(acc, mixed, lane);
    LaneXorLast(mixed, lane);
  }

  /** The last position of `mixed` changes byte `lane` only when it lies in that lane. */
  lemma XorFoldStep(acc: seq<byte>, mixed: seq<byte>, lane: nat)
    requires |acc| == 4 && lane < 4 && |mixed| > 0
    ensures var i := |mixed| - 1;
      XorFold(acc, mixed)[lane] == XorFold(acc, mixed[..i])[lane] ^ LaneByte(mixed, i, lane)
  {
    var i := |mixed| - 1;
    var j := i % 4;
    var prev := XorFold(acc, mixed[..i]);
    assert XorFold(acc, mixed) == prev[j := prev[j] ^ mixed[i]];
    XorLane(prev, j, mixed[i], lane);
  }

  /** XOR-updating byte `j` changes byte `lane` only when `j == lane`. */
  lemma XorLane(prev: seq<byte>, j: nat, m: byte, lane: nat)
    requires j < |prev| && lane < |prev|
    ensures prev[j := prev[j] ^ m][lane] == prev[lane] ^ (if j == lane then m else 0)
  {
  }

  /** Each output byte `lane` of CRC32Hasher ends as its old value XOR the
      mixed input bytes at the positions `i` with `i % 4 == lane`. */
  lemma Crc32Lanes(acc: seq<byte>, block: seq<byte>, lane: nat)
    requires |acc| == 4 && lane < 4
    ensures Crc32Accumulate(acc, block)[lane] == acc[lane] ^ LaneXor(MixAll(block), lane)
  {
    Crc32IsXorFold(acc, block);
    XorFoldLanes(acc, MixAll(block), lane);
  }

  /** Running the loop twice over the same block restores `out`: pure XOR accumulation. */
  lemma Crc32Involution(acc: seq<byte>, block: seq<byte>)
    requires |acc| == 4
    ensures Crc32Accumulate(Crc32Accumulate(acc, block), block) == acc
  {
    var once := Crc32Accumulate(acc, block);
    var twice := Crc32Accumulate(once, block);
    forall lane | 0 <= lane < 4
      ensures twice[lane] == acc[lane]
    {
      Crc32Lanes(acc, block, lane);
      Crc32Lanes(once, block, lane);
    }
  }

  /** The checksum of a block alone: the loop run on a cleared buffer. */
  function Crc32Cleared(block: seq<byte>): (r: seq<byte>)
    ensures |r| == 4
  {
    Crc32Accumulate(Zeros(4), block)
  }

  /** The loop as written yields the old buffer XOR the block's own checksum. */
  lemma Crc32IsPriorXorCleared(acc: seq<byte>, block: seq<byte>, lane: nat)
    requires |acc| == 4 && lane < 4
    ensures Crc32Accumulate(acc, block)[lane] == acc[lane] ^ Crc32Cleared(block)[lane]
  {
    Crc32Lanes(acc, block, lane);
    Crc32Lanes(Zeros(4), block, lane);
  }

  /** Whatever the block, two different prior buffers give two different results:
      the digest of CRC32Hasher is not a function of the block alone. */
  lemma Crc32DependsOnPriorBuffer(block: seq<byte>)
    ensures Crc32Accumulate(Zeros(4), block) != Crc32Accumulate([1, 0, 0, 0], block)
  {
    Crc32Lanes(Zeros(4), block, 0);
    Crc32Lanes([1, 0, 0, 0], block, 0);
  }

  // ---------------------------------------------------------------------------
  // NoneHasher

  /** The bytes of "NONENONENONENONE". */
  const NONE_PATTERN: seq<byte> := seq(16, k requires 0 <= k < 16 => ("NONENONENONENONE"[k] as int) as byte)

  // ---------------------------------------------------------------------------
  // The digest each hasher writes

  /** The new contents of `out[0..OutputSize())` after `operator()` with the
      prior contents `prior` and the input block `block`. */
  function Digest(h: Hasher, prior: seq<byte>, block: seq<byte>): (r: seq<byte>)
    requires |prior| == h.OutputSize()
    ensures |r| == h.OutputSize()
  {
    match h
    case Crc32Hasher(_) => Crc32Accumulate(prior, block)
    case Md5Hasher(_, md5) => md5(block)
    case NoneHasher(_) => NONE_PATTERN
  }

  /** A hasher whose digest overwrites the whole output buffer. */
  predicate Stateless(h: Hasher) { !h.Crc32Hasher? }

  /** MD5 and NONE do not read `out`: their digest depends on the block only
      (NONE not even on that), and CRC32 with a block size of at least one
      position does depend on `out`. */
  lemma StatelessExactly(h: Hasher, p1: seq<byte>, p2: seq<byte>, block: seq<byte>)
    requires |p1| == |p2| == h.OutputSize()
    ensures Stateless(h) ==> Digest(h, p1, block) == Digest(h, p2, block)
    ensures h.NoneHasher? ==> Digest(h, p1, block) == NONE_PATTERN
    ensures h.Crc32Hasher? && p1 == Zeros(4) && p2 == [1, 0, 0, 0] ==> Digest(h, p1, block) != Digest(h, p2, block)
  {
    if h.Crc32Hasher? && p1 == Zeros(4) && p2 == [1, 0, 0, 0] {
      Crc32DependsOnPriorBuffer(block);
    }
  }

  // ---------------------------------------------------------------------------
  // operator(): each writes into `out` in place and reads `in[0..block_size)`,
  // here the slice src[off..off + block_size)

  /** CRC32Hasher::operator(): XOR-updates `out[i % 4]` for each input position;
      `out` is not cleared first and nothing beyond `out[3]` changes. */
  method Crc32Apply(blockSize: Size, out: array<byte>, src: seq<byte>, off: nat)
    requires 4 <= out.Length
    requires off + blockSize <= |src|
    modifies out
    ensures out[..4] == Crc32Accumulate(old(out[..4]), src[off..off + blockSize])
    ensures out[4..] == old(out[4..])
  {
    ghost var block := src[off..off + blockSize];
    ghost var acc := out[..4];
    var i := 0;
    while i < blockSize
      invariant 0 <= i <= blockSize
      invariant out[..4] == Crc32Accumulate(acc, block[..i])
      invariant out[4..] == old(out[4..])
    {
      assert block[..i + 1][..i] == block[..i];
      out[i % 4] := out[i % 4] ^ Mix(src[off + i], i);
      i := i + 1;
    }
    assert block[..blockSize] == block;
  }

  /** The evident intent of CRC32Hasher::operator(): clear `out[0..4)` before
      accumulating, so that the checksum is that of the block alone. */
  method Crc32ClearedApply(blockSize: Size, out: array<byte>, src: seq<byte>, off: nat)
    requires 4 <= out.Length
    requires off + blockSize <= |src|
    modifies out
    ensures out[..4] == Crc32Cleared(src[off..off + blockSize])
    ensures out[4..] == old(out[4..])
  {
    out[0], out[1], out[2], out[3] := 0, 0, 0, 0;
    assert out[..4] == Zeros(4);
    Crc32Apply(blockSize, out, src, off);
  }

  /** `std::copy` of `bytes` to the front of `out`. */
  method CopyTo(bytes: seq<byte>, out: array<byte>)
    requires |bytes| <= out.Length
    modifies out
    ensures out[..|bytes|] == bytes
    ensures out[|bytes|..] == old(out[|bytes|..])
  {
    var k := 0;
    while k < |bytes|
      invariant 0 <= k <= |bytes|
      invariant out[..k] == bytes[..k]
      invariant out[|bytes|..] == old(out[|bytes|..])
    {
      out[k] := bytes[k];
      k := k + 1;
    }
  }

  /** MD5Hasher::operator(): digests the block and copies the 16 digest bytes into `out`. */
  method Md5Apply(h: Hasher, out: array<byte>, src: seq<byte>, off: nat)
    requires h.Md5Hasher?
    requires 16 <= out.Length
    requires off + h.blockSize <= |src|
    modifies out
    ensures out[..16] == h.md5(src[off..off + h.blockSize])
    ensures out[16..] == old(out[16..])
  {
    var digest := h.md5(src[off..off + h.blockSize]);
    CopyTo(digest, out);
  }

  /** NoneHasher::operator(): copies the 16 bytes of "NONENONENONENONE" into `out`. */
  method NoneApply(out: array<byte>)
    requires 16 <= out.Length
    modifies out
    ensures out[..16] == NONE_PATTERN
    ensures out[16..] == old(out[16..])
  {
    CopyTo(NONE_PATTERN, out);
  }

  /** The virtual `(*hasher)(out, in)` call: dispatches on the hasher. */
  method Apply(h: Hasher, out: array<byte>, src: seq<byte>, off: nat)
    requires h.OutputSize() <= out.Length
    requires off + h.InputSize() <= |src|
    modifies out
    ensures out[..h.OutputSize()] == Digest(h, old(out[..h.OutputSize()]), src[off..off + h.InputSize()])
    ensures out[h.OutputSize()..] == old(out[h.OutputSize()..])
  {
    match h
    case Crc32Hasher(bs) => Crc32Apply(bs, out, src, off);
    case Md5Hasher(_, _) => Md5Apply(h, out, src, off);
    case NoneHasher(_) => NoneApply(out);
  }
}
