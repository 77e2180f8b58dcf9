/** What FileHasher::worker does with each pack, as functions of the state it
    touches: the output file, the output stream's cursor, the worker's reusable
    `out` buffer and the memory counter. The engine's worker method is proved
    to follow these functions step by step. */
module Sink {
  import opened Common
  import opened Hashers
  import opened Packs

  /** The output file: the byte at each offset written so far. */
  type File = map<nat, byte>

  /** The bytes `bytes` placed at offsets `pos ..`. */
  function Span(pos: nat, bytes: seq<byte>): (r: File)
    ensures forall q :: q in r <==> pos <= q < pos + |bytes|
    ensures forall q :: q in r ==> r[q] == bytes[q - pos]
    decreases |bytes|
  {
    if |bytes| == 0 then map[]
    else Span(pos, bytes[..|bytes| - 1])[pos + |bytes| - 1 := bytes[|bytes| - 1]]
  }

  /** `m_output.seekp(pos)` followed by `m_output.write(bytes)`. */
  function Written(file: File, pos: nat, bytes: seq<byte>): File
  {
    file + Span(pos, bytes)
  }

  /** A write covers its own offsets, with its own bytes, and keeps the rest;
      its bytes start the buffer `bytes + rest` they were taken from. */
  lemma WrittenBytes(file: File, pos: nat, bytes: seq<byte>, rest: seq<byte>)
    ensures forall q :: q in Written(file, pos, bytes) <==> q in file || pos <= q < pos + |bytes|
    ensures forall q :: q in file && !(pos <= q < pos + |bytes|) ==> Written(file, pos, bytes)[q] == file[q]
    ensures forall t :: 0 <= t < |bytes| ==> Written(file, pos, bytes)[pos + t] == (bytes + rest)[t]
  {
    forall t | 0 <= t < |bytes|
      ensures Written(file, pos, bytes)[pos + t] == (bytes + rest)[t]
    {
      assert (bytes + rest)[t] == bytes[t];
    }
  }

  /** The bytes of a `new std::byte[]` that the program never writes before
      reading them: `out` of the worker after it is (re)allocated. */
  type OutFill = nat -> byte

  /** The state one worker changes besides `m_memsize`: the file and cursor
      of `m_output` and its own `out` buffer (whose length is `out_size`). The
      memory counter is released block by block by Released below. */
  datatype WorkState = WorkState(file: File, cursor: nat, out: seq<byte>)

  /** The `out` buffer the block is hashed into: a fresh one of `output_size()`
      bytes when the current one is smaller (lines 131-134), otherwise the same. */
  function OutFor(out: seq<byte>, outputSize: nat, outFill: OutFill): (r: seq<byte>)
    ensures |r| == Max(|out|, outputSize)
    ensures |out| >= outputSize ==> r == out
  {
    if |out| < outputSize then seq(outputSize, k requires 0 <= k => outFill(k)) else out
  }

  /** The body of the loop of lines 130-139 for block `j`: hash into `out`,
      seek if the cursor is elsewhere and write `output_size()` bytes. */
  function BlockStep(s: WorkState, p: BlocksPack, j: nat, outFill: OutFill): WorkState
    requires SlicesInside(p) && j < |p.blocks|
  {
    var b := p.blocks[j];
    var os := b.hasher.OutputSize();
    var out := OutFor(s.out, os, outFill);
    var digest := Digest(b.hasher, out[..os], BlockBytes(p, j));
    WorkState(Written(s.file, b.position, digest), b.position + os, digest + out[os..])
  }

  /** The worker state after the first `j` blocks of `p`. */
  function PackPrefix(s: WorkState, p: BlocksPack, j: nat, outFill: OutFill): WorkState
    requires SlicesInside(p) && j <= |p.blocks|
    decreases j
  {
    if j == 0 then s else BlockStep(PackPrefix(s, p, j - 1, outFill), p, j - 1, outFill)
  }

  /** The worker state after the whole of `p`. */
  function PackStep(s: WorkState, p: BlocksPack, outFill: OutFill): WorkState
    requires SlicesInside(p)
  {
    PackPrefix(s, p, |p.blocks|, outFill)
  }

  predicate AllSlicesInside(packs: seq<BlocksPack>)
  {
    forall n :: 0 <= n < |packs| ==> SlicesInside(packs[n])
  }

  /** One worker processing `packs` in order. */
  function Drain(s: WorkState, packs: seq<BlocksPack>, outFill: OutFill): WorkState
    requires AllSlicesInside(packs)
    decreases |packs|, 1
  {
    if |packs| == 0 then s else DrainLast(s, packs, outFill)
  }

  /** One worker processing all of `packs` but the last, and then the last. */
  function DrainLast(s: WorkState, packs: seq<BlocksPack>, outFill: OutFill): WorkState
    requires AllSlicesInside(packs) && |packs| > 0
    decreases |packs|, 0
  {
    PackStep(Drain(s, packs[..|packs| - 1], outFill), packs[|packs| - 1], outFill)
  }

  lemma DrainAppend(s: WorkState, packs: seq<BlocksPack>, p: BlocksPack, outFill: OutFill)
    requires AllSlicesInside(packs) && SlicesInside(p)
    ensures AllSlicesInside(packs + [p])
    ensures Drain(s, packs + [p], outFill) == PackStep(Drain(s, packs, outFill), p, outFill)
  {
    assert (packs + [p])[..|packs|] == packs;
  }

  // ---------------------------------------------------------------------------
  // One block

  /** A block's write: `output_size()` digest bytes at `block.position`,
      whatever the cursor was, leaving the cursor just after them, so that
      seek-if-different (lines 137-138) is the same as always seeking. The
      buffer only grows, and only to `output_size()`. */
  lemma BlockStepWrites(s: WorkState, p: BlocksPack, j: nat, outFill: OutFill)
    requires SlicesInside(p) && j < |p.blocks|
    ensures var b := p.blocks[j];
      var r := BlockStep(s, p, j, outFill);
      && |r.out| == Max(|s.out|, b.hasher.OutputSize())
      && r.cursor == b.position + b.hasher.OutputSize()
      && (forall q :: q in r.file <==> q in s.file || b.position <= q < b.position + b.hasher.OutputSize())
      && (forall q :: q in s.file && !(b.position <= q < b.position + b.hasher.OutputSize()) ==> r.file[q] == s.file[q])
      && (forall t :: 0 <= t < b.hasher.OutputSize() ==> r.file[b.position + t] == r.out[t])
  {
    var b := p.blocks[j];
    var os := b.hasher.OutputSize();
    var out := OutFor(s.out, os, outFill);
    var digest := Digest(b.hasher, out[..os], BlockBytes(p, j));
    assert |digest| == os && |out| == Max(|s.out|, os);
    var r := BlockStep(s, p, j, outFill);
    assert r == WorkState(Written(s.file, b.position, digest), b.position + os, digest + out[os..]);
    WrittenBytes(s.file, b.position, digest, out[os..]);
  }

  /** The digest a block gets from a cleared buffer. */
  function Fresh(h: Hasher, block: seq<byte>): (r: seq<byte>)
    ensures |r| == h.OutputSize()
  {
    Digest(h, Zeros(h.OutputSize()), block)
  }

  /** With MD5 and NONE what a block writes depends on the block alone. */
  lemma StatelessBlockStep(s: WorkState, p: BlocksPack, j: nat, outFill: OutFill)
    requires SlicesInside(p) && j < |p.blocks| && Stateless(p.blocks[j].hasher)
    ensures BlockStep(s, p, j, outFill).file
         == Written(s.file, p.blocks[j].position, Fresh(p.blocks[j].hasher, BlockBytes(p, j)))
  {
    var h := p.blocks[j].hasher;
    var out := OutFor(s.out, h.OutputSize(), outFill);
    StatelessExactly(h, out[..h.OutputSize()], Zeros(h.OutputSize()), BlockBytes(p, j));
  }

  /** CRC32 as written: one worker hashes two one-byte blocks holding 1 into
      the same reused `out`; the second digest comes out 0 where the block's
      own checksum is 1, because the buffer still holds the first digest. */
  lemma Crc32ReusedBuffer()
    ensures var p := BlocksPack([Block(Crc32Hasher(1), 0, 0), Block(Crc32Hasher(1), 1, 4)], [1, 1]);
      && SlicesInside(p)
      && PackStep(WorkState(map[], 0, []), p, k => 0).file[4] == 0
      && Fresh(Crc32Hasher(1), BlockBytes(p, 1))[0] == 1
  {
    var h := Crc32Hasher(1);
    var p := BlocksPack([Block(h, 0, 0), Block(h, 1, 4)], [1, 1]);
    var outFill: OutFill := k => 0;
    assert BlockBytes(p, 0) == [1] && BlockBytes(p, 1) == [1];
    var s0 := WorkState(map[], 0, []);
    assert OutFor(s0.out, 4, outFill) == Zeros(4);
    var s1 := BlockStep(s0, p, 0, outFill);
    assert s1.out == [1, 0, 0, 0] by {
      Crc32Lanes(Zeros(4), [1], 0);
      Crc32Lanes(Zeros(4), [1], 1);
      Crc32Lanes(Zeros(4), [1], 2);
      Crc32Lanes(Zeros(4), [1], 3);
    }
    var s2 := BlockStep(s1, p, 1, outFill);
    assert s2.file[4] == 0 by {
      Crc32Lanes([1, 0, 0, 0], [1], 0);
    }
    assert PackStep(s0, p, outFill) == s2;
    Crc32Lanes(Zeros(4), [1], 0);
  }

  // ---------------------------------------------------------------------------
  // The output, as a reference that does not mention the worker: each block
  // writes the digest `d` gives for its hasher and its bytes (a worker with
  // stateless hashers writes `Fresh`, as DrainFile shows)

  /** What a block writes, from its hasher and its input bytes. */
  type DigestFn = (Hasher, seq<byte>) -> seq<byte>

  /** `d` gives `output_size()` bytes for every input of `h`. */
  ghost predicate Sized(d: DigestFn, h: Hasher)
  {
    forall block :: |d(h, block)| == h.OutputSize()
  }

  /** Fresh digests have `output_size()` bytes. */
  lemma FreshSized(h: Hasher)
    ensures Sized(Fresh, h)
  {
  }

  /** The writes of the first `j` blocks of `p`. */
  function PackWrites(p: BlocksPack, j: nat, d: DigestFn): File
    requires SlicesInside(p) && j <= |p.blocks|
    decreases j
  {
    if j == 0 then map[]
    else PackWrites(p, j - 1, d) + Span(p.blocks[j - 1].position, d(p.blocks[j - 1].hasher, BlockBytes(p, j - 1)))
  }

  /** `file` after the first `j` blocks of `p` wrote their digests. */
  function WritePack(file: File, p: BlocksPack, j: nat, d: DigestFn): File
    requires SlicesInside(p) && j <= |p.blocks|
    decreases j
  {
    if j == 0 then file
    else Written(WritePack(file, p, j - 1, d), p.blocks[j - 1].position, d(p.blocks[j - 1].hasher, BlockBytes(p, j - 1)))
  }

  /** `file` after every block of `packs` wrote its digest, pack by pack. */
  function WritePacks(file: File, packs: seq<BlocksPack>, d: DigestFn): File
    requires AllSlicesInside(packs)
    decreases |packs|
  {
    if |packs| == 0 then file
    else WritePack(WritePacks(file, packs[..|packs| - 1], d), packs[|packs| - 1], |packs[|packs| - 1].blocks|, d)
  }

  predicate StatelessPack(p: BlocksPack)
  {
    forall j :: 0 <= j < |p.blocks| ==> Stateless(p.blocks[j].hasher)
  }

  predicate StatelessPacks(packs: seq<BlocksPack>)
  {
    forall n :: 0 <= n < |packs| ==> StatelessPack(packs[n])
  }

  /** With stateless hashers, a worker writes each block's fresh digest. */
  lemma {:induction false} PackPrefixFile(s: WorkState, p: BlocksPack, j: nat, outFill: OutFill)
    requires SlicesInside(p) && j <= |p.blocks| && StatelessPack(p)
    ensures PackPrefix(s, p, j, outFill).file == WritePack(s.file, p, j, Fresh)
    decreases j
  {
    if j > 0 {
      PackPrefixFile(s, p, j - 1, outFill);
      assert PackPrefix(s, p, j - 1, outFill).file == WritePack(s.file, p, j - 1, Fresh);
      PackPrefixStepFile(s, p, j, outFill);
    }
  }

  /** One block more: when the first `j - 1` blocks wrote their fresh
      digests, so do the first `j`. */
  lemma PackPrefixStepFile(s: WorkState, p: BlocksPack, j: nat, outFill: OutFill)
    requires SlicesInside(p) && 0 < j <= |p.blocks| && StatelessPack(p)
    requires PackPrefix(s, p, j - 1, outFill).file == WritePack(s.file, p, j - 1, Fresh)
    ensures PackPrefix(s, p, j, outFill).file == WritePack(s.file, p, j, Fresh)
  {
    var b := p.blocks[j - 1];
    var digest := Fresh(b.hasher, BlockBytes(p, j - 1));
    StatelessBlockStep(PackPrefix(s, p, j - 1, outFill), p, j - 1, outFill);
    assert PackPrefix(s, p, j, outFill).file == Written(PackPrefix(s, p, j - 1, outFill).file, b.position, digest);
    assert WritePack(s.file, p, j, Fresh) == Written(WritePack(s.file, p, j - 1, Fresh), b.position, digest);
  }

  /** With stateless hashers, the file a worker leaves is the old file with
      every block's fresh digest written over it: the buffer it reuses and the
      uninitialised bytes of that buffer play no part. */
  lemma {:induction false} DrainFile(s: WorkState, packs: seq<BlocksPack>, outFill: OutFill)
    requires AllSlicesInside(packs) && StatelessPacks(packs)
    ensures Drain(s, packs, outFill).file == WritePacks(s.file, packs, Fresh)
    decreases |packs|
  {
    if |packs| > 0 {
      var init, last := packs[..|packs| - 1], packs[|packs| - 1];
      DrainFile(s, init, outFill);
      PackPrefixFile(Drain(s, init, outFill), last, |last.blocks|, outFill);
    }
  }

  lemma OverrideAssoc(a: File, b: File, c: File)
    ensures (a + b) + c == a + (b + c)
  {
  }

  lemma OverrideCommute(a: File, b: File)
    requires forall k :: k in a ==> k !in b
    ensures a + b == b + a
  {
  }

  /** Writing a pack lays its writes over the file. */
  lemma {:induction false} WritePackOverlays(file: File, p: BlocksPack, j: nat, d: DigestFn)
    requires SlicesInside(p) && j <= |p.blocks|
    ensures WritePack(file, p, j, d) == file + PackWrites(p, j, d)
    decreases j
  {
    if j == 0 {
      assert file + map[] == file;
    } else {
      WritePackOverlays(file, p, j - 1, d);
      OverrideAssoc(file, PackWrites(p, j - 1, d),
                    Span(p.blocks[j - 1].position, d(p.blocks[j - 1].hasher, BlockBytes(p, j - 1))));
    }
  }

  /** Two packs whose writes do not overlap may be written in either order. */
  lemma WritePackCommute(file: File, p: BlocksPack, q: BlocksPack, d: DigestFn)
    requires SlicesInside(p) && SlicesInside(q)
    requires forall k :: k in PackWrites(p, |p.blocks|, d) ==> k !in PackWrites(q, |q.blocks|, d)
    ensures WritePack(WritePack(file, p, |p.blocks|, d), q, |q.blocks|, d)
         == WritePack(WritePack(file, q, |q.blocks|, d), p, |p.blocks|, d)
  {
    var a, b := PackWrites(p, |p.blocks|, d), PackWrites(q, |q.blocks|, d);
    WritePackOverlays(file, p, |p.blocks|, d);
    WritePackOverlays(file + a, q, |q.blocks|, d);
    WritePackOverlays(file, q, |q.blocks|, d);
    WritePackOverlays(file + b, p, |p.blocks|, d);
    OverrideAssoc(file, a, b);
    OverrideAssoc(file, b, a);
    OverrideCommute(a, b);
  }

  lemma WritePacksPair(file: File, p: BlocksPack, q: BlocksPack, d: DigestFn)
    requires SlicesInside(p) && SlicesInside(q)
    ensures AllSlicesInside([p, q])
    ensures WritePacks(file, [p, q], d) == WritePack(WritePack(file, p, |p.blocks|, d), q, |q.blocks|, d)
  {
    assert [p, q][..1] == [p] && [p][..0] == [];
    assert WritePacks(file, [p], d) == WritePack(file, p, |p.blocks|, d);
  }

  /** Two packs whose writes do not overlap may be processed in either order,
      by workers in any state: with stateless hashers the file comes out the same. */
  lemma PacksCommute(s: WorkState, s': WorkState, p: BlocksPack, q: BlocksPack, outFill: OutFill, outFill': OutFill)
    requires SlicesInside(p) && SlicesInside(q) && StatelessPack(p) && StatelessPack(q)
    requires s.file == s'.file
    requires forall k :: k in PackWrites(p, |p.blocks|, Fresh) ==> k !in PackWrites(q, |q.blocks|, Fresh)
    ensures Drain(s, [p, q], outFill).file == Drain(s', [q, p], outFill').file
  {
    DrainFile(s, [p, q], outFill);
    DrainFile(s', [q, p], outFill');
    WritePacksPair(s.file, p, q, Fresh);
    WritePacksPair(s.file, q, p, Fresh);
    WritePackCommute(s.file, p, q, Fresh);
  }

  // ---------------------------------------------------------------------------
  // Packs with disjoint writes, in any order

  /** The writes of every block of `packs`, merged pack by pack. */
  function AllWrites(packs: seq<BlocksPack>, d: DigestFn): File
    requires AllSlicesInside(packs)
    decreases |packs|
  {
    if |packs| == 0 then map[]
    else AllWrites(packs[..|packs| - 1], d) + PackWrites(packs[|packs| - 1], |packs[|packs| - 1].blocks|, d)
  }

  /** `p` and `q` write no output byte in common. */
  ghost predicate DisjointWrites(p: BlocksPack, q: BlocksPack, d: DigestFn)
    requires SlicesInside(p) && SlicesInside(q)
  {
    forall k :: k in PackWrites(p, |p.blocks|, d) ==> k !in PackWrites(q, |q.blocks|, d)
  }

  /** No two packs of `packs` write the same output byte. */
  ghost predicate PairwiseDisjoint(packs: seq<BlocksPack>, d: DigestFn)
    requires AllSlicesInside(packs)
  {
    forall n, m :: 0 <= n < |packs| && 0 <= m < |packs| && n != m ==> DisjointWrites(packs[n], packs[m], d)
  }

  /** `perm` lists each index `0 .. n - 1` exactly once. */
  predicate IsPermutation(perm: seq<nat>, n: nat)
  {
    && |perm| == n
    && (forall i :: 0 <= i < |perm| ==> perm[i] < n)
    && (forall i, j :: 0 <= i < j < |perm| ==> perm[i] != perm[j])
    && (forall m :: 0 <= m < n ==> m in perm)
  }

  /** Where index `m` stands in the order `perm`. */
  lemma PermIndex(perm: seq<nat>, n: nat, m: nat) returns (i: nat)
    requires IsPermutation(perm, n) && m < n
    ensures i < |perm| && perm[i] == m
  {
    assert m in perm;
    i :| 0 <= i < |perm| && perm[i] == m;
  }

  /** `packs` taken in the order `perm`. */
  function Reordered(packs: seq<BlocksPack>, perm: seq<nat>): (r: seq<BlocksPack>)
    requires forall i :: 0 <= i < |perm| ==> perm[i] < |packs|
    ensures |r| == |perm|
    ensures forall i :: 0 <= i < |perm| ==> r[i] == packs[perm[i]]
    ensures AllSlicesInside(packs) ==> AllSlicesInside(r)
  {
    seq(|perm|, i requires 0 <= i < |perm| => packs[perm[i]])
  }

  /** Writing packs one after the other lays their merged writes over the file. */
  lemma {:induction false} WritePacksOverlays(file: File, packs: seq<BlocksPack>, d: DigestFn)
    requires AllSlicesInside(packs)
    ensures WritePacks(file, packs, d) == file + AllWrites(packs, d)
    decreases |packs|
  {
    if |packs| == 0 {
      assert file + map[] == file;
    } else {
      var init, last := packs[..|packs| - 1], packs[|packs| - 1];
      assert AllSlicesInside(init);
      WritePacksOverlays(file, init, d);
      WritePackOverlays(WritePacks(file, init, d), last, |last.blocks|, d);
      OverrideAssoc(file, AllWrites(init, d), PackWrites(last, |last.blocks|, d));
    }
  }

  /** Among packs with disjoint writes, a byte that pack `n` writes keeps
      pack `n`'s value in the merged writes. */
  lemma {:induction false} AllWritesOwner(packs: seq<BlocksPack>, d: DigestFn, n: nat, q: nat)
    requires AllSlicesInside(packs) && PairwiseDisjoint(packs, d)
    requires n < |packs| && q in PackWrites(packs[n], |packs[n].blocks|, d)
    ensures q in AllWrites(packs, d)
    ensures AllWrites(packs, d)[q] == PackWrites(packs[n], |packs[n].blocks|, d)[q]
    decreases |packs|
  {
    var m := |packs| - 1;
    var init := packs[..m];
    assert AllSlicesInside(init);
    if n < m {
      assert DisjointWrites(packs[n], packs[m], d);
      assert PairwiseDisjoint(init, d) by {
        forall a, b | 0 <= a < m && 0 <= b < m && a != b
          ensures DisjointWrites(init[a], init[b], d)
        {
          assert init[a] == packs[a] && init[b] == packs[b];
        }
      }
      assert init[n] == packs[n];
      AllWritesOwner(init, d, n, q);
    }
  }

  /** Every byte of the merged writes was written by one of the packs. */
  lemma {:induction false} AllWritesOwned(packs: seq<BlocksPack>, d: DigestFn, q: nat) returns (n: nat)
    requires AllSlicesInside(packs) && q in AllWrites(packs, d)
    ensures n < |packs| && q in PackWrites(packs[n], |packs[n].blocks|, d)
    decreases |packs|
  {
    var m := |packs| - 1;
    if q in PackWrites(packs[m], |packs[m].blocks|, d) {
      n := m;
    } else {
      var init := packs[..m];
      assert AllSlicesInside(init);
      n := AllWritesOwned(init, d, q);
      assert init[n] == packs[n];
    }
  }

  /** Reordering keeps the packs' writes pairwise disjoint. */
  lemma ReorderedDisjoint(packs: seq<BlocksPack>, perm: seq<nat>, d: DigestFn)
    requires AllSlicesInside(packs) && PairwiseDisjoint(packs, d) && IsPermutation(perm, |packs|)
    ensures AllSlicesInside(Reordered(packs, perm)) && PairwiseDisjoint(Reordered(packs, perm), d)
  {
    var r := Reordered(packs, perm);
    forall a, b | 0 <= a < |r| && 0 <= b < |r| && a != b
      ensures DisjointWrites(r[a], r[b], d)
    {
      assert r[a] == packs[perm[a]] && r[b] == packs[perm[b]];
      assert perm[a] != perm[b];
    }
  }

  /** A byte of the reordered writes is the same byte of the writes in order. */
  lemma ReorderedKeyKept(packs: seq<BlocksPack>, perm: seq<nat>, d: DigestFn, q: nat)
    requires AllSlicesInside(packs) && PairwiseDisjoint(packs, d)
    requires forall i :: 0 <= i < |perm| ==> perm[i] < |packs|
    requires AllSlicesInside(Reordered(packs, perm)) && PairwiseDisjoint(Reordered(packs, perm), d)
    requires q in AllWrites(Reordered(packs, perm), d)
    ensures q in AllWrites(packs, d) && AllWrites(Reordered(packs, perm), d)[q] == AllWrites(packs, d)[q]
  {
    var r := Reordered(packs, perm);
    var i := AllWritesOwned(r, d, q);
    assert r[i] == packs[perm[i]];
    AllWritesOwner(r, d, i, q);
    AllWritesOwner(packs, d, perm[i], q);
  }

  /** A byte of the writes in order is also written in the new order. */
  lemma ReorderedKeyFound(packs: seq<BlocksPack>, perm: seq<nat>, d: DigestFn, q: nat)
    requires AllSlicesInside(packs) && IsPermutation(perm, |packs|)
    requires AllSlicesInside(Reordered(packs, perm)) && PairwiseDisjoint(Reordered(packs, perm), d)
    requires q in AllWrites(packs, d)
    ensures q in AllWrites(Reordered(packs, perm), d)
  {
    var n := AllWritesOwned(packs, d, q);
    var i := PermIndex(perm, |packs|, n);
    var r := Reordered(packs, perm);
    assert r[i] == packs[n];
    AllWritesOwner(r, d, i, q);
  }

  /** Every byte of the reordered writes is the same byte of the writes in order. */
  lemma ReorderedKeysKept(packs: seq<BlocksPack>, perm: seq<nat>, d: DigestFn)
    requires AllSlicesInside(packs) && PairwiseDisjoint(packs, d)
    requires forall i :: 0 <= i < |perm| ==> perm[i] < |packs|
    requires AllSlicesInside(Reordered(packs, perm)) && PairwiseDisjoint(Reordered(packs, perm), d)
    ensures forall q :: q in AllWrites(Reordered(packs, perm), d) ==>
      q in AllWrites(packs, d) && AllWrites(Reordered(packs, perm), d)[q] == AllWrites(packs, d)[q]
  {
    forall q | q in AllWrites(Reordered(packs, perm), d)
      ensures q in AllWrites(packs, d) && AllWrites(Reordered(packs, perm), d)[q] == AllWrites(packs, d)[q]
    {
      ReorderedKeyKept(packs, perm, d, q);
    }
  }

  /** Every byte of the writes in order is written in the new order too. */
  lemma ReorderedKeysFound(packs: seq<BlocksPack>, perm: seq<nat>, d: DigestFn)
    requires AllSlicesInside(packs) && IsPermutation(perm, |packs|)
    requires AllSlicesInside(Reordered(packs, perm)) && PairwiseDisjoint(Reordered(packs, perm), d)
    ensures forall q :: q in AllWrites(packs, d) ==> q in AllWrites(Reordered(packs, perm), d)
  {
    forall q | q in AllWrites(packs, d)
      ensures q in AllWrites(Reordered(packs, perm), d)
    {
      ReorderedKeyFound(packs, perm, d, q);
    }
  }

  /** Two files with the same offsets and the same byte at each are one file. */
  lemma SameFile(a: File, b: File)
    requires forall q :: q in a ==> q in b && a[q] == b[q]
    requires forall q :: q in b ==> q in a
    ensures a == b
  {
    assert a.Keys == b.Keys;
  }

  /** Packs with disjoint writes merge to the same writes in any order. */
  lemma AllWritesReordered(packs: seq<BlocksPack>, perm: seq<nat>, d: DigestFn)
    requires AllSlicesInside(packs) && PairwiseDisjoint(packs, d) && IsPermutation(perm, |packs|)
    ensures AllSlicesInside(Reordered(packs, perm))
    ensures AllWrites(Reordered(packs, perm), d) == AllWrites(packs, d)
  {
    ReorderedDisjoint(packs, perm, d);
    ReorderedKeysKept(packs, perm, d);
    ReorderedKeysFound(packs, perm, d);
    SameFile(AllWrites(Reordered(packs, perm), d), AllWrites(packs, d));
  }

  /** Packs with disjoint writes leave the same file in any order. */
  lemma WritePacksReordered(file: File, packs: seq<BlocksPack>, perm: seq<nat>, d: DigestFn)
    requires AllSlicesInside(packs) && PairwiseDisjoint(packs, d) && IsPermutation(perm, |packs|)
    ensures AllSlicesInside(Reordered(packs, perm))
    ensures WritePacks(file, Reordered(packs, perm), d) == WritePacks(file, packs, d)
  {
    AllWritesReordered(packs, perm, d);
    WritePacksOverlays(file, Reordered(packs, perm), d);
    WritePacksOverlays(file, packs, d);
  }

  /** Writing `a` and then `b` is writing `a + b`. */
  lemma {:induction false} WritePacksSplit(file: File, a: seq<BlocksPack>, b: seq<BlocksPack>, d: DigestFn)
    requires AllSlicesInside(a) && AllSlicesInside(b)
    ensures AllSlicesInside(a + b)
    ensures WritePacks(WritePacks(file, a, d), b, d) == WritePacks(file, a + b, d)
    decreases |b|
  {
    SlicesConcat(a, b);
    if |b| == 0 {
      assert a + b == a;
    } else {
      var init, p := b[..|b| - 1], b[|b| - 1];
      assert AllSlicesInside(init);
      WritePacksSplit(file, a, init, d);
      assert (a + b)[..|a + b| - 1] == a + init && (a + b)[|a + b| - 1] == p;
    }
  }

  /** With stateless hashers, packs with disjoint writes leave the same file
      in any order, whatever state the worker starts in. */
  lemma DrainReordered(s: WorkState, s': WorkState, packs: seq<BlocksPack>, perm: seq<nat>, outFill: OutFill, outFill': OutFill)
    requires AllSlicesInside(packs) && StatelessPacks(packs) && PairwiseDisjoint(packs, Fresh)
    requires IsPermutation(perm, |packs|) && s.file == s'.file
    ensures AllSlicesInside(Reordered(packs, perm))
    ensures Drain(s, Reordered(packs, perm), outFill).file == Drain(s', packs, outFill').file
  {
    var r := Reordered(packs, perm);
    WritePacksReordered(s.file, packs, perm, Fresh);
    ReorderedStateless(packs, perm);
    DrainFile(s, r, outFill);
    DrainFile(s', packs, outFill');
  }

  /** The first `c` packs of the order `perm` written, and then the rest on
      top: with disjoint writes, the file is the one `packs` in order leave. */
  lemma WritePacksRelay(file: File, packs: seq<BlocksPack>, perm: seq<nat>, c: nat, d: DigestFn)
    requires AllSlicesInside(packs) && PairwiseDisjoint(packs, d) && IsPermutation(perm, |packs|) && c <= |perm|
    ensures AllSlicesInside(Reordered(packs, perm)[..c]) && AllSlicesInside(Reordered(packs, perm)[c..])
    ensures WritePacks(WritePacks(file, Reordered(packs, perm)[..c], d), Reordered(packs, perm)[c..], d)
         == WritePacks(file, packs, d)
  {
    var r := Reordered(packs, perm);
    var a, b := r[..c], r[c..];
    assert AllSlicesInside(a) && AllSlicesInside(b) by {
      assert forall n :: 0 <= n < |a| ==> a[n] == r[n];
      assert forall n :: 0 <= n < |b| ==> b[n] == r[c + n];
    }
    WritePacksSplit(file, a, b, d);
    assert a + b == r;
    WritePacksReordered(file, packs, perm, d);
  }

  /** Packs of stateless hashers only, in any order. */
  lemma ReorderedStateless(packs: seq<BlocksPack>, perm: seq<nat>)
    requires StatelessPacks(packs) && forall i :: 0 <= i < |perm| ==> perm[i] < |packs|
    ensures StatelessPacks(Reordered(packs, perm))
  {
    var r := Reordered(packs, perm);
    forall n | 0 <= n < |r|
      ensures StatelessPack(r[n])
    {
      assert r[n] == packs[perm[n]];
    }
  }

  /** Both parts of a sequence of stateless packs are stateless. */
  lemma PartsStateless(packs: seq<BlocksPack>, c: nat)
    requires StatelessPacks(packs) && c <= |packs|
    ensures StatelessPacks(packs[..c]) && StatelessPacks(packs[c..])
  {
    assert forall n :: 0 <= n < c ==> packs[..c][n] == packs[n];
    assert forall n :: 0 <= n < |packs| - c ==> packs[c..][n] == packs[c + n];
  }

  /** Two workers in turn: one drains the first `c` packs of the order
      `perm` from state `s`, and another, in any state `t`, drains the rest
      on the file the first one left. With stateless hashers and disjoint
      writes the file is the one a single worker leaves with `packs` in order. */
  lemma RelayReordered(s: WorkState, t: WorkState, u: WorkState, packs: seq<BlocksPack>, perm: seq<nat>, c: nat,
                       outFill: OutFill, outFill': OutFill, outFill'': OutFill)
    requires AllSlicesInside(packs) && StatelessPacks(packs) && PairwiseDisjoint(packs, Fresh)
    requires IsPermutation(perm, |packs|) && c <= |perm| && u.file == s.file
    requires AllSlicesInside(Reordered(packs, perm)[..c])
    requires t.file == Drain(s, Reordered(packs, perm)[..c], outFill).file
    ensures AllSlicesInside(Reordered(packs, perm)[c..])
    ensures Drain(t, Reordered(packs, perm)[c..], outFill').file == Drain(u, packs, outFill'').file
  {
    var r := Reordered(packs, perm);
    var a, b := r[..c], r[c..];
    WritePacksRelay(s.file, packs, perm, c, Fresh);
    ReorderedStateless(packs, perm);
    PartsStateless(r, c);
    DrainFile(s, a, outFill);
    DrainFile(t, b, outFill');
    DrainFile(u, packs, outFill'');
  }

  // ---------------------------------------------------------------------------
  // The memory counter

  /** The counter after the first `j` blocks of `blocks` each released their `input_size()`. */
  function Released(m: Size, blocks: seq<Block>, j: nat): Size
    requires j <= |blocks|
    decreases j
  {
    if j == 0 then m else SubWrap(Released(m, blocks, j - 1), blocks[j - 1].hasher.InputSize())
  }

  /** Releasing block by block is releasing the blocks' input bytes at once, modulo 2^64. */
  lemma {:induction false} ReleasedIsWrap(m: Size, blocks: seq<Block>, j: nat)
    requires j <= |blocks|
    ensures Released(m, blocks, j) == Wrap(m - PackInputBytes(blocks[..j]))
    decreases j
  {
    if j == 0 {
      assert blocks[..0] == [];
      WrapSize(m);
    } else {
      var b := blocks[j - 1].hasher.InputSize();
      ReleasedIsWrap(m, blocks, j - 1);
      assert blocks[..j][..j - 1] == blocks[..j - 1];
      WrapSub(m - PackInputBytes(blocks[..j - 1]), b);
    }
  }

  /** The counter after a whole pack: down by the pack's input bytes, modulo 2^64. */
  lemma ReleasedPack(m: Size, p: BlocksPack)
    ensures Released(m, p.blocks, |p.blocks|) == Wrap(m - PackInputBytes(p.blocks))
  {
    ReleasedIsWrap(m, p.blocks, |p.blocks|);
    assert p.blocks[..|p.blocks|] == p.blocks;
  }

  /** The counter after packs `packs` released their blocks one by one. */
  function PacksReleased(m: Size, packs: seq<BlocksPack>): Size
    decreases |packs|
  {
    if |packs| == 0 then m
    else
      var last := packs[|packs| - 1];
      Released(PacksReleased(m, packs[..|packs| - 1]), last.blocks, |last.blocks|)
  }

  lemma PacksReleasedAppend(m: Size, packs: seq<BlocksPack>, p: BlocksPack)
    ensures PacksReleased(m, packs + [p]) == Released(PacksReleased(m, packs), p.blocks, |p.blocks|)
  {
    assert (packs + [p])[..|packs|] == packs;
  }

  /** Draining a queue releases the queue's input bytes, modulo 2^64, so a
      counter raised by a queue's bytes is back where it started once the
      queue has been drained. */
  lemma {:induction false} PacksReleasedIsWrap(m: Size, packs: seq<BlocksPack>)
    ensures PacksReleased(m, packs) == Wrap(m - QueuedBytes(packs))
    decreases |packs|
  {
    if |packs| == 0 {
      WrapSize(m);
    } else {
      var init, last := packs[..|packs| - 1], packs[|packs| - 1];
      var x := m - QueuedBytes(init);
      PacksReleasedIsWrap(m, init);
      ReleasedPack(PacksReleased(m, init), last);
      WrapSubAny(x, PackInputBytes(last.blocks));
      QueuedBytesLast(packs);
    }
  }

  /** Joining two lists of packs keeps every slice inside its buffer. */
  lemma SlicesConcat(a: seq<BlocksPack>, b: seq<BlocksPack>)
    requires AllSlicesInside(a) && AllSlicesInside(b)
    ensures AllSlicesInside(a + b)
  {
    forall n | 0 <= n < |a + b|
      ensures SlicesInside((a + b)[n])
    {
      if n >= |a| {
        assert (a + b)[n] == b[n - |a|];
      }
    }
  }

  /** Draining `a` and then `b` is draining `a + b`. */
  lemma {:induction false} DrainSplit(s: WorkState, a: seq<BlocksPack>, b: seq<BlocksPack>, outFill: OutFill)
    requires AllSlicesInside(a) && AllSlicesInside(b)
    ensures AllSlicesInside(a + b)
    ensures Drain(Drain(s, a, outFill), b, outFill) == Drain(s, a + b, outFill)
    decreases |b|
  {
    SlicesConcat(a, b);
    if |b| == 0 {
      assert a + b == a;
    } else {
      var init, p := b[..|b| - 1], b[|b| - 1];
      assert AllSlicesInside(init) && SlicesInside(p);
      DrainSplit(s, a, init, outFill);
      assert a + b == (a + init) + [p];
      DrainAppend(s, a + init, p, outFill);
    }
  }

  /** The counter after the producer added each pack's input bytes to it
      (`m_memsize += block_size * count`), modulo 2^64. */
  function Acquired(m: Size, packs: seq<BlocksPack>): Size
    decreases |packs|
  {
    if |packs| == 0 then m
    else Wrap(Acquired(m, packs[..|packs| - 1]) + PackInputBytes(packs[|packs| - 1].blocks))
  }

  lemma AcquiredAppend(m: Size, packs: seq<BlocksPack>, p: BlocksPack)
    ensures Acquired(m, packs + [p]) == Wrap(Acquired(m, packs) + PackInputBytes(p.blocks))
  {
    assert (packs + [p])[..|packs|] == packs;
  }

  /** Adding pack by pack is adding the queue's bytes at once, modulo 2^64. */
  lemma {:induction false} AcquiredIsWrap(m: Size, packs: seq<BlocksPack>)
    ensures Acquired(m, packs) == Wrap(m + QueuedBytes(packs))
    decreases |packs|
  {
    if |packs| == 0 {
      WrapSize(m);
    } else {
      var init, last := packs[..|packs| - 1], packs[|packs| - 1];
      AcquiredIsWrap(m, init);
      WrapAddAny(m + QueuedBytes(init), PackInputBytes(last.blocks));
      QueuedBytesLast(packs);
    }
  }

  /** Once every pushed pack has been released the counter is back at its
      start, whatever wrapped on the way. */
  lemma ReleasedAll(m: Size, packs: seq<BlocksPack>)
    ensures PacksReleased(Acquired(m, packs), packs) == m
  {
    AcquiredIsWrap(m, packs);
    PacksReleasedIsWrap(Acquired(m, packs), packs);
    WrapSubAny(m + QueuedBytes(packs), QueuedBytes(packs));
    WrapSize(m);
  }
}
