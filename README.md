# Hasher_x01 in Dafny

Hasher_x01 hashes a large file block by block. It writes each block's digest
to a fixed offset in an output file. One producer reads the file in packs of
blocks and queues them, and a pool of workers hashes them. A byte counter
(`m_memsize`) holds the producer back while too much input is queued. The
hasher is CRC32Hasher, MD5Hasher or NoneHasher, chosen by name on the
command line.

This project models the core of that program:

- `common.dfy` (`Common`): bytes as `bv8`, `size_t` as `Size` with explicit
  wrap-around, and Option/Result.
- `grouping.dfy` (`Grouping`): `get_min_optimal_block_count` and
  `set_thread_count` as functions of their inputs.
- `hashers.dfy` (`Hashers`): the three hashers. Each has its sizes, the
  digest it leaves in `out`, and its `operator()` as a method over an
  `array`. The CRC32 loop is modelled exactly; MD5 is a function parameter.
- `packs.dfy` (`Packs`): `Block` and `BlocksPack`.
- `schedule.dfy` (`Schedule`): the producer loop of `do_hash` as a plan of
  reads and the packs they make.
- `sink.dfy` (`Sink`): what a worker does to the output file, its cursor,
  its reused `out` buffer and the counter, as functions.
- `layout.dfy` (`Layout`): where each digest lands. This is a reference
  description of the output that does not mention the worker.
- `engine.dfy` (`Engine`): the `FileHasher` class and a `Worker` class,
  with methods that follow the C++ step by step. Each method is proved
  against the functions above.
- `frontend.dfy` (`Frontend`): `upper`, `lower`, the hasher chosen by
  name, the positional arguments and `main`.

`do_hash` is modelled with its threads made sequential. Worker 0 takes packs
from the front of the queue while the producer waits for memory. After the
loop, worker 0 drains the rest and every worker pulls its end-of-work pack.
`Engine.FileHasher.DoHash` proves that the output file is what one worker
leaves after draining the plan's packs in order. For the stateless hashers
(MD5, NONE), `Layout.StatelessRunFile` then says which bytes that output
holds: the old file with exactly `block_count + 1` digest slots written, and
every full block's own digest in its slot. It joins `Sink.DrainFile` (the
drain writes every block's fresh digest) and `Layout.PlannedFile` (where
those digests land). `Layout.PlannedPacksAnyOrder` and
`Layout.PlannedDrainAnyOrder` show that the whole plan gives the same file in
any order of its packs, and `Layout.PlannedRelay` shows the same for the
packs split between two workers.

The model follows the code as written:

- the `std::min` at FileHasher.cpp:49;
- the loop bound `i <= block_count`, which gives an extra block;
- the unpadded short last read;
- CRC32 accumulating into a buffer the worker reuses.

On each point the code itself points to a different intent, and this
project reads it so:

- `do_hash` computes the same group size with `std::max` (line 69), so the
  `std::min` at line 49 is a slip;
- the loop bound `i <= block_count` (line 77) and the memset for the read
  at `i == block_count` (lines 84-86) both treat `block_count` as the index
  of the partial last block, which is to be zero-padded. Line 75 already
  counts that block, so the intended output is one record per block of the
  file, with the last block zero-padded;
- each block's digest slot and its bytes are computed independently of the
  other blocks (lines 91-97), so a digest that depends on what the worker
  hashed before cannot be the intent.

`## Findings` sets each as-written member beside a corrected one, and proves
the intended property of the corrected one. Values C++ leaves uninitialised
are parameters or absent:

- the engine's `m_thread_count`, `m_memlimit` and `m_memsize`;
- the engine's `m_hasher` (FileHasher.h:66), which is `None`, standing for
  "not set yet": every use requires it set, and `main` calls `set_hasher`
  first;
- the bytes of a fresh `new std::byte[]` (`Fill`, `OutFill`).

`std::thread::hardware_concurrency()` is an input from the environment, not
an uninitialised value; the model takes it as the parameter `hardware`.

## Model

| member | source | states |
|---|---|---|
| Common.AddWrapValue | Hasher_x01/FileHasher.cpp:100 | `m_memsize += n` on `size_t` is exact below 2^64 and loses 2^64 otherwise |
| Common.SubWrapValue | Hasher_x01/FileHasher.cpp:141 | `m_memsize -= n` on `size_t` is exact when no underflow happens and gains 2^64 otherwise |
| Common.AddWrap | Hasher_x01/FileHasher.cpp:100 | `a + b` on `size_t`, reduced modulo 2^64; its value is pinned by `Common.AddWrapValue` |
| Common.SubWrap | Hasher_x01/FileHasher.cpp:141 | `a - b` on `size_t`, reduced modulo 2^64; its value is pinned by `Common.SubWrapValue` |
| Grouping.GcdDivides | Hasher_x01/FileHasher.cpp:42 | the gcd divides both arguments (the quotients are returned) |
| Grouping.GcdBounds | Hasher_x01/FileHasher.cpp:42 | `gcd(clmod, cache_line)` is between 1 and `cache_line`, so line 43 never divides by zero |
| Grouping.MinOptimalBlockCount | Hasher_x01/FileHasher.cpp:40-44 | the pack size is at least 1 and at least `64 MiB / block_size` |
| Grouping.MinOptimalIsMax | Hasher_x01/FileHasher.cpp:43 | the result is the larger of the 64 MiB term and `cache_line / gcd(block_size % cache_line, cache_line)` |
| Grouping.CacheLineBlocksAligned | Hasher_x01/FileHasher.cpp:41-43 | the cache-line term times `block_size` is a multiple of `cache_line` |
| Grouping.CacheLineBlocks | Hasher_x01/FileHasher.cpp:41-43 | the second term of line 43, `cache_line / gcd(block_size % cache_line, cache_line)`; `Grouping.CacheLineBlocksAligned` states what it guarantees |
| Grouping.MinOptimalForAlignedBlocks | Hasher_x01/FileHasher.cpp:40-44 | for a block size that is a multiple of `cache_line` the result is `max(64 MiB / block_size, 1)` |
| Grouping.RequestedCount | Hasher_x01/FileHasher.cpp:51-53 | a request of 0 becomes `max(hardware_concurrency(), 1)`; any other request is kept |
| Grouping.ThreadCount | Hasher_x01/FileHasher.cpp:46-61 | the count is at least 1 and equals `min(request, max(file_size / block_size, 1))`; the line-49 divisor is 1; a request that fits is granted |
| Grouping.ThreadCountByGroups | Hasher_x01/FileHasher.cpp:49-58 | the corrected count never exceeds `max(file_size / block_size / min_opt_block_count, 1)` and is exactly the request capped by that |
| Grouping.ThreadCountIgnoresGrouping | Hasher_x01/FileHasher.cpp:49 | for a 64 MiB file in 1 MiB blocks (one group of 64), 4 threads are granted as written, against 1 as corrected |
| Hashers.HasherSizes | Hasher_x01/Hashers.h:14-68 | `input_size()` is the constructor's block size; `output_size()` is 4 for CRC32 and 16 for MD5 and NONE |
| Hashers.MixAll | Hasher_x01/Hashers.h:23 | position `i` contributes `uint8(in[i]) + uint8(i % 256)`, truncated to a byte |
| Hashers.Crc32IsXorFold | Hasher_x01/Hashers.h:22-24 | the CRC32 loop is the XOR fold of the mixed bytes into `out[i % 4]` |
| Hashers.Crc32Accumulate | Hasher_x01/Hashers.h:22-24 | the four bytes `out[0..4)` after the CRC32 loop has consumed the block one position at a time from a given start; its closed forms are `Hashers.Crc32IsXorFold` and `Hashers.Crc32Lanes` |
| Hashers.XorFoldLanes | Hasher_x01/Hashers.h:22-24 | folding leaves each `out[lane]` as its old value XOR that lane's mixed bytes |
| Hashers.Crc32Lanes | Hasher_x01/Hashers.h:22-24 | each `out[r]` becomes its old value XOR the mixed bytes at the positions `i % 4 == r` |
| Hashers.Crc32Involution | Hasher_x01/Hashers.h:22-24 | running the loop twice over the same block restores `out` |
| Hashers.Crc32IsPriorXorCleared | Hasher_x01/Hashers.h:22-24 | the result is the old buffer XOR the block's checksum from a cleared buffer |
| Hashers.Crc32DependsOnPriorBuffer | Hasher_x01/Hashers.h:22-24 | for every block, two different prior buffers give different digests |
| Hashers.Digest | Hasher_x01/Hashers.h:21-72 | each hasher's digest has exactly `output_size()` bytes |
| Hashers.StatelessExactly | Hasher_x01/Hashers.h:45-72 | MD5 and NONE ignore the prior `out`; NONE's digest is the constant "NONENONENONENONE"; CRC32's depends on the prior `out` |
| Hashers.Crc32Apply | Hasher_x01/Hashers.h:21-25 | `operator()` sets `out[0..4)` to the accumulation from its old contents and changes nothing after `out[3]` |
| Hashers.Crc32ClearedApply | Hasher_x01/Hashers.h:21-25 | the corrected CRC32 clears `out[0..4)` first, so it leaves the block's own checksum |
| Hashers.CopyTo | Hasher_x01/Hashers.h:50 | `std::copy` puts the bytes at the front of `out` and keeps the rest |
| Hashers.Md5Apply | Hasher_x01/Hashers.h:45-51 | `out[0..16)` is the block's MD5 digest and the rest of `out` is unchanged |
| Hashers.NoneApply | Hasher_x01/Hashers.h:70-72 | `out[0..16)` is "NONENONENONENONE" whatever the input and the prior `out` |
| Hashers.Apply | Hasher_x01/FileHasher.cpp:136 | the virtual call leaves the hasher's `Digest` of the prior `out` and the block, and keeps the rest of `out` |
| Packs.SlotIsProduct | Hasher_x01/FileHasher.cpp:103 | positions that advance by `output_size()` per block put block `k` at `k * output_size()` |
| Packs.BlockBytes | Hasher_x01/FileHasher.cpp:95 | a block's slice has `input_size()` bytes |
| Packs.QueuedBytesAppend | Hasher_x01/FileHasher.cpp:99-100 | pushing a pack adds its input bytes to the bytes queued |
| Packs.UniformInputBytes | Hasher_x01/FileHasher.cpp:100 | a pack of `count` blocks of one hasher holds `count * block_size` input bytes |
| Schedule.BlockCount | Hasher_x01/FileHasher.cpp:68-75 | `block_count` blocks cover the file, and one block fewer would not |
| Schedule.CoversIsBlockCount | Hasher_x01/FileHasher.cpp:68-75 | `block_count` is the only count that just covers the file |
| Schedule.BlockInside | Hasher_x01/FileHasher.cpp:68-75 | a block that lies wholly inside the file is one of the `block_count` blocks |
| Schedule.BlockCountIsCeiling | Hasher_x01/FileHasher.cpp:68-75 | `block_count == ceil(file_size / block_size)` |
| Schedule.PackCount | Hasher_x01/FileHasher.cpp:81 | a read takes 1 to `min_opt_block_count` blocks and never passes `block_count`; the read at `i == block_count` takes one |
| Schedule.PackRaw | Hasher_x01/FileHasher.cpp:82-88 | a buffer holds `block_size * count` bytes (more only if the read delivered more) |
| Schedule.Delivered | Hasher_x01/FileHasher.cpp:88 | a read delivers at most `block_size * count` bytes |
| Schedule.PackBlocks | Hasher_x01/FileHasher.cpp:90-97 | a read of `count` blocks makes `count` blocks |
| Schedule.PlanStep | Hasher_x01/FileHasher.cpp:77-104 | the loop's read from block `i` takes `count` blocks, and the rest of the plan starts from `i + count` |
| Schedule.Plan | Hasher_x01/FileHasher.cpp:77-104 | the sequence of reads (first block, block count) the loop makes from block `i` on; `Schedule.PlanTiles` states that they tile blocks `0 .. block_count` |
| Schedule.PlanPacksAt | Hasher_x01/FileHasher.cpp:99 | pack `k` pushed is the pack of read `k` |
| Schedule.PlanPackStep | Hasher_x01/FileHasher.cpp:81-99 | the pack pushed at the loop's read from block `i` is that read's pack |
| Schedule.PlanTiles | Hasher_x01/FileHasher.cpp:77-104 | the loop reads every block from 0 to `block_count` once, in order, 1 to `min_opt_block_count` at a time, so it ends with `i == block_count + 1` |
| Schedule.PlanEndsWithExtraBlock | Hasher_x01/FileHasher.cpp:77-86 | the last read is the single block `block_count`, the one whose first block is zeroed |
| Schedule.TilesCount | Hasher_x01/FileHasher.cpp:77-102 | the reads take `block_count + 1` blocks in all |
| Schedule.TilesOrdered | Hasher_x01/FileHasher.cpp:102 | a later read starts after an earlier one ends |
| Schedule.TilesCover | Hasher_x01/FileHasher.cpp:77-102 | every block up to `block_count` lies in some read |
| Schedule.PackRawAt | Hasher_x01/FileHasher.cpp:82-88 | buffer byte `at` is the file's byte if the file has one, else a memset zero (first block of the read at `block_count`), else uninitialised |
| Schedule.PackBlocksShape | Hasher_x01/FileHasher.cpp:90-97 | block `j` slices the buffer at `j * block_size`, inside it, and writes at `(i + j) * output_size()` |
| Schedule.MakePackShape | Hasher_x01/FileHasher.cpp:81-99 | a pushed pack has `count` blocks of this hasher, slices inside a `block_size * count` buffer and the positions above |
| Schedule.MakePack | Hasher_x01/FileHasher.cpp:81-99 | the pack pushed for one read: its blocks and its freshly read buffer; `Schedule.MakePackShape` states its shape |
| Schedule.PackBytesFit | Hasher_x01/FileHasher.cpp:82 | `block_size * count` fits a `size_t` when the file and one block do |
| Schedule.BlockBytesAt | Hasher_x01/FileHasher.cpp:82-95 | byte `t` of block `j` of a read is the file's byte at its offset, a memset zero, or uninitialised |
| Schedule.ExtraRead | Hasher_x01/FileHasher.cpp:77 | a one-block file is read twice: blocks 0 and 1 |
| Schedule.ExtraZeroBlock | Hasher_x01/FileHasher.cpp:84-86 | the extra block of a 2-byte file in 2-byte blocks is the memset zeros |
| Schedule.ShortTailIndeterminate | Hasher_x01/FileHasher.cpp:82-88 | a 1-byte file in 2-byte blocks hashes its byte followed by an uninitialised one |
| Schedule.IntendedCount | Hasher_x01/FileHasher.cpp:81 | the corrected read never passes the last block |
| Schedule.IntendedPlanTiles | Hasher_x01/FileHasher.cpp:77 | the corrected loop reads each block of the file exactly once and none beyond |
| Schedule.PaddedRaw | Hasher_x01/FileHasher.cpp:82-88 | the corrected buffer has `block_size * count` bytes |
| Schedule.PaddedRawAt | Hasher_x01/FileHasher.cpp:84-88 | a corrected buffer byte is the file's byte, or zero past the end |
| Schedule.IntendedBlockBytes | Hasher_x01/FileHasher.cpp:82-88 | a corrected block's byte is the file's byte, or zero; nothing is uninitialised |
| Sink.Span | Hasher_x01/FileHasher.cpp:139 | a write of `bytes` at `pos` covers exactly `pos .. pos + n - 1`, each with its own byte |
| Sink.WrittenBytes | Hasher_x01/FileHasher.cpp:137-139 | seek and write cover their own offsets with the written bytes and keep every other byte of the file |
| Sink.OutFor | Hasher_x01/FileHasher.cpp:131-134 | `out` is reallocated to `output_size()` bytes only when it is smaller, and kept otherwise |
| Sink.DrainAppend | Hasher_x01/FileHasher.cpp:120-142 | a worker draining one more pack does that pack after the others |
| Sink.BlockStep | Hasher_x01/FileHasher.cpp:130-141 | the worker state after one block: `out` grown if too small, the digest into `out`, the write at `block.position` and the cursor after it; `Sink.BlockStepWrites` states what it writes |
| Sink.PackStep | Hasher_x01/FileHasher.cpp:130-142 | the worker state after every block of one pack, in order; `Sink.PackPrefixFile` states its file for stateless hashers |
| Sink.Drain | Hasher_x01/FileHasher.cpp:120-142 | the worker state after a sequence of packs, one after the other; `Sink.DrainFile` states its file for stateless hashers and `Sink.DrainSplit` how drains compose |
| Sink.BlockStepWrites | Hasher_x01/FileHasher.cpp:130-139 | a block writes exactly `output_size()` digest bytes at `block.position` whatever the cursor was (seek-if-different is always seeking), leaves the cursor after them and keeps everything else; `out` only grows, to `output_size()` |
| Sink.Fresh | Hasher_x01/FileHasher.cpp:136 | a digest from a cleared buffer has `output_size()` bytes |
| Sink.StatelessBlockStep | Hasher_x01/FileHasher.cpp:136-139 | with MD5 or NONE a block writes its own digest, whatever the reused buffer held |
| Sink.Crc32ReusedBuffer | Hasher_x01/Hashers.h:22-24 | two one-byte blocks of CRC32 in one pack: the second writes 0 where its own checksum is 1 |
| Sink.PackPrefixFile | Hasher_x01/FileHasher.cpp:130-142 | with stateless hashers, a worker's first `j` blocks write their fresh digests in order |
| Sink.DrainFile | Hasher_x01/FileHasher.cpp:120-142 | with stateless hashers, the file one worker leaves is every block's fresh digest written over the old file; the reused buffer and its uninitialised bytes play no part |
| Sink.WritePackOverlays | Hasher_x01/FileHasher.cpp:130-139 | writing a pack lays its blocks' writes over the file |
| Sink.WritePackCommute | Hasher_x01/FileHasher.cpp:130-139 | two packs whose writes do not overlap can be written in either order |
| Sink.WritePacksPair | Hasher_x01/FileHasher.cpp:120-142 | writing two packs in turn is writing the first and then the second |
| Sink.PacksCommute | Hasher_x01/FileHasher.cpp:120-142 | two non-overlapping packs processed in either order, by workers in any state, give the same file with stateless hashers |
| Sink.WritePacksOverlays | Hasher_x01/FileHasher.cpp:120-142 | writing packs one after another lays the merge of all their writes over the old file |
| Sink.AllWritesOwner | Hasher_x01/FileHasher.cpp:120-142 | among packs with pairwise disjoint writes, a byte that pack `n` writes holds pack `n`'s value in the merged writes |
| Sink.AllWritesOwned | Hasher_x01/FileHasher.cpp:120-142 | every byte of the merged writes was written by one of the packs |
| Sink.AllWritesReordered | Hasher_x01/FileHasher.cpp:120-142 | packs with pairwise disjoint writes merge to the same writes in every order (any permutation of their indices) |
| Sink.WritePacksReordered | Hasher_x01/FileHasher.cpp:120-142 | packs with pairwise disjoint writes leave the same file in every order |
| Sink.WritePacksSplit | Hasher_x01/FileHasher.cpp:120-142 | writing one run of packs and then another is writing their concatenation |
| Sink.DrainReordered | Hasher_x01/FileHasher.cpp:120-142 | with stateless hashers and disjoint writes, a worker in any state leaves the same file whatever the order of the packs |
| Sink.RelayReordered | Hasher_x01/FileHasher.cpp:120-142 | with stateless hashers and disjoint writes, two workers in any states that take the first part and then the rest of any order leave the file of one worker in the original order |
| Sink.ReleasedIsWrap | Hasher_x01/FileHasher.cpp:141 | releasing block by block is releasing the blocks' input bytes at once, modulo 2^64 |
| Sink.ReleasedPack | Hasher_x01/FileHasher.cpp:130-142 | a whole pack lowers the counter by its input bytes, modulo 2^64 |
| Sink.PacksReleasedAppend | Hasher_x01/FileHasher.cpp:141 | draining one more pack releases its bytes after the others |
| Sink.PacksReleasedIsWrap | Hasher_x01/FileHasher.cpp:141 | draining a queue lowers the counter by the queue's input bytes, modulo 2^64 |
| Sink.DrainSplit | Hasher_x01/FileHasher.cpp:120-142 | draining `a` and then `b` is draining `a + b` |
| Sink.AcquiredAppend | Hasher_x01/FileHasher.cpp:100 | pushing one more pack adds its bytes after the others |
| Sink.AcquiredIsWrap | Hasher_x01/FileHasher.cpp:100 | adding pack by pack is adding the queue's bytes at once, modulo 2^64 |
| Sink.ReleasedAll | Hasher_x01/FileHasher.cpp:100 | once every pushed block is written the counter is back at its start, whatever wrapped |
| Layout.SlotUnique | Hasher_x01/FileHasher.cpp:94 | offset `t < output_size()` of block `k`'s slot lies in block `m`'s slot exactly when `k == m`: the slots are disjoint |
| Layout.WrittenAt | Hasher_x01/FileHasher.cpp:139 | the byte a write leaves at `q`: its own byte if it covers `q`, otherwise the earlier one |
| Layout.WritePackKeeps | Hasher_x01/FileHasher.cpp:91-103 | after `j` blocks of a laid-out pack write digests of `output_size()` bytes, slot `k` is written exactly when its block is among them; other bytes are kept |
| Layout.WritePackAt | Hasher_x01/FileHasher.cpp:91-103 | within those `j` blocks, slot `k` holds block `k`'s digest |
| Layout.WritePacksKeeps | Hasher_x01/FileHasher.cpp:77-104 | packs that tile blocks `from .. to - 1` write exactly those slots and keep every other byte |
| Layout.WritePacksAt | Hasher_x01/FileHasher.cpp:77-104 | in those packs, slot `k` holds the digest of the block of the read that holds `k` |
| Layout.LaidOutSlices | Hasher_x01/FileHasher.cpp:95 | laid-out packs keep their slices inside their buffers |
| Layout.LaidOutLast | Hasher_x01/FileHasher.cpp:77-104 | the last pack of a laid-out tiling starts where the others end |
| Layout.PlanLaidOut | Hasher_x01/FileHasher.cpp:90-103 | block `j` of the read from block `i` writes in slot `i + j` |
| Layout.FullBlockBytes | Hasher_x01/FileHasher.cpp:88-95 | a block wholly inside the file hands its hasher exactly the file's bytes, whatever memory held |
| Layout.PlannedPacks | Hasher_x01/FileHasher.cpp:77-104 | the producer's packs keep their slices inside their buffers and are laid out block by block |
| Layout.PlannedFile | Hasher_x01/FileHasher.cpp:64-111 | the output holds exactly the `block_count + 1` digest slots on top of the old file, keeps the other bytes, has NONE's constant in every slot, and has in the slot of every block wholly inside the file that block's digest |
| Layout.PlannedSlot | Hasher_x01/FileHasher.cpp:77-104 | slot `k <= block_count` is written, and holds the block's digest when the block is wholly inside the file |
| Layout.PackWritesAt | Hasher_x01/FileHasher.cpp:91-97 | a laid-out pack writes exactly the slots of its own blocks |
| Layout.PlannedPacksDisjoint | Hasher_x01/FileHasher.cpp:94-103 | no two packs of the producer write the same output byte |
| Layout.PlannedPacksCommute | Hasher_x01/FileHasher.cpp:113-142 | with a stateless hasher, any two of the producer's packs can be processed in either order, by any worker, for the same file |
| Layout.PlannedPairwiseDisjoint | Hasher_x01/FileHasher.cpp:94-103 | no two of the producer's packs, in either order of the pair, write the same output byte |
| Layout.PlannedStateless | Hasher_x01/FileHasher.cpp:93 | every block of every planned pack has the configured hasher, so with MD5 or NONE every pack is stateless |
| Layout.PlannedPacksAnyOrder | Hasher_x01/FileHasher.cpp:77-142 | the whole plan written in any permutation of its packs leaves the same file as the plan in the order it is pushed |
| Layout.PlannedDrainAnyOrder | Hasher_x01/FileHasher.cpp:77-142 | with a stateless hasher, a worker in any state that drains the plan's packs in any permutation leaves the file of a worker that drains them in pushed order |
| Layout.PlannedRelay | Hasher_x01/FileHasher.cpp:77-142 | with a stateless hasher, the plan split between two workers in any states, each taking whole packs of any permutation in turn, leaves the file of one worker in pushed order |
| Layout.StatelessRunFile | Hasher_x01/FileHasher.cpp:64-142 | with MD5 or NONE, a worker draining the producer's packs from any state writes exactly the `block_count + 1` digest slots over the old file, NONE's constant in each, and each full block's digest of its own bytes at `k * output_size()` |
| Layout.IntendedPacks | Hasher_x01/FileHasher.cpp:77-104 | the corrected producer's packs are laid out block by block |
| Layout.PaddedBlock | Hasher_x01/FileHasher.cpp:84-88 | a zero-padded block is the file's bytes, then zeros |
| Layout.IntendedFile | Hasher_x01/FileHasher.cpp:64-111 | the corrected output holds exactly `block_count` slots, and slot `k` holds the digest of block `k`, zero-padded; nothing depends on uninitialised memory |
| Layout.IntendedPackBytes | Hasher_x01/FileHasher.cpp:82-95 | a corrected block is the file's block, zero-padded |
| Engine.Memset | Hasher_x01/FileHasher.cpp:84-86 | `memset(data, 0, block_size)` zeroes the first `n` bytes and keeps the rest |
| Engine.MakeBlocks | Hasher_x01/FileHasher.cpp:90-97 | the loop builds exactly the read's blocks |
| Engine.EndPacks | Hasher_x01/FileHasher.cpp:106-107 | `n` end-of-work packs, all empty |
| Engine.FirstSentinel | Hasher_x01/FileHasher.cpp:127-128 | the first end-of-work pack of the queue, with none before it |
| Engine.FileHasher.constructor | Hasher_x01/FileHasher.h:27 | `cache_line == 256`, the hasher not set yet (`None`; `m_hasher` is left uninitialised), an empty queue; the uninitialised size fields get the given values |
| Engine.FileHasher.Open | Hasher_x01/FileHasher.cpp:21-37 | the input is read from its start and the output is an empty file |
| Engine.FileHasher.SetHasher | Hasher_x01/FileHasher.cpp:10-15 | a null hasher is refused and `m_hasher` kept; any other is stored |
| Engine.FileHasher.SetMemlimit | Hasher_x01/FileHasher.cpp:17-19 | the limit is stored and nothing else changes |
| Engine.FileHasher.SetThreadCount | Hasher_x01/FileHasher.cpp:46-61 | returns `Grouping.ThreadCount`, at least 1, and stores it in `m_thread_count` |
| Engine.FileHasher.Push | Hasher_x01/FileHasher.cpp:99 | the pack joins the back of the queue |
| Engine.FileHasher.Pull | Hasher_x01/FileHasher.cpp:124 | the front pack leaves the queue |
| Engine.FileHasher.ReadInto | Hasher_x01/FileHasher.cpp:88 | the next bytes of the input, up to `n` or the end, go to the front of the buffer; the rest is kept |
| Engine.FileHasher.ReadPack | Hasher_x01/FileHasher.cpp:82-88 | the buffer is the plan's `PackRaw`, and the read position moves on by the read |
| Engine.FileHasher.PushEndPacks | Hasher_x01/FileHasher.cpp:106-107 | one end-of-work pack per thread goes behind the queue |
| Engine.FileHasher.AwaitMemory | Hasher_x01/FileHasher.cpp:78-79 | the wait ends with the counter within the limit, or stalls with the queue empty; the drained packs stay accounted |
| Engine.FileHasher.TakeFront | Hasher_x01/FileHasher.cpp:124-142 | a worker pass drains one more pack of the plan and releases its bytes |
| Engine.FileHasher.ProducePack | Hasher_x01/FileHasher.cpp:81-100 | the read pushes the plan's pack and raises the counter by its bytes, modulo 2^64 |
| Engine.FileHasher.ProducerPass | Hasher_x01/FileHasher.cpp:77-104 | one pass waits and pushes the next pack of the plan; it stalls only at the first pass, when the counter starts over the limit |
| Engine.FileHasher.Advance | Hasher_x01/FileHasher.cpp:81-103 | pushes pack `k` and moves `i` and `position` on to the next read |
| Engine.FileHasher.PushPack | Hasher_x01/FileHasher.cpp:81-100 | the queue grows by pack `k` of the plan, and the counter still stands for the queued bytes |
| Engine.FileHasher.EndWork | Hasher_x01/FileHasher.cpp:106-110 | after the end-of-work packs, the file and cursor are one worker's drain of the queue, the queue is empty and the queue's bytes are released |
| Engine.FileHasher.RunIdleWorkers | Hasher_x01/FileHasher.cpp:120-128 | a worker that pulls an end-of-work pack returns and changes nothing else |
| Engine.FileHasher.DoHash | Hasher_x01/FileHasher.cpp:64-111 | do_hash stalls exactly when the counter starts over the limit; otherwise the file and cursor are those of one worker draining the plan's packs, the counter is back at its start, the queue is empty and the file is read to its end |
| Engine.FileHasher.HashBlocks | Hasher_x01/FileHasher.cpp:77-110 | the loop and the end of work give the same outcome for the plan's packs |
| Engine.FileHasher.ProduceAll | Hasher_x01/FileHasher.cpp:77-104 | the loop pushes every pack of the plan and reads the whole input, or stalls with nothing changed |
| Engine.FileHasher.FinishWork | Hasher_x01/FileHasher.cpp:106-110 | after the loop the file is the drain of all packs and the counter is back at its start |
| Engine.Worker.constructor | Hasher_x01/FileHasher.cpp:116-117 | `out` starts empty, `out_size == 0` |
| Engine.Worker.ProcessBlock | Hasher_x01/FileHasher.cpp:130-142 | one block changes the file, cursor and `out` as `Sink.BlockStep` says and lowers the counter by `input_size()`, modulo 2^64 |
| Engine.Worker.ProcessPack | Hasher_x01/FileHasher.cpp:130-142 | a pack changes the state as `Sink.PackStep` says and releases its blocks one by one |
| Engine.Worker.Run | Hasher_x01/FileHasher.cpp:113-142 | a worker drains the packs before the first end-of-work pack, releases their bytes, and returns after pulling that pack |
| Engine.TakeOneMore | Hasher_x01/FileHasher.cpp:124 | one pull more takes the next pack |
| Engine.QueueStep | Hasher_x01/FileHasher.cpp:99 | a push extends the queued run of the plan's packs by one |
| Engine.CounterPull | Hasher_x01/FileHasher.cpp:100-141 | processing the front pack leaves the counter standing for the packs left in the queue |
| Engine.PlanPacksShape | Hasher_x01/FileHasher.cpp:77-104 | the plan's packs have slices inside their buffers and none is an end-of-work pack |
| Engine.PlanReady | Hasher_x01/FileHasher.cpp:64-75 | the plan of `do_hash` is the one `Layout.PlannedPacks` describes |
| Engine.SentinelAfterPacks | Hasher_x01/FileHasher.cpp:106-107 | behind the data packs, the first end-of-work pack is the first of those pushed at the end |
| Frontend.Upper | Hasher_x01/Hasher_x01.cpp:14-19 | `upper` gives a string of the same length whose character `i` is `toupper` of the argument's; the argument is unchanged |
| Frontend.Lower | Hasher_x01/Hasher_x01.cpp:21-26 | `lower` gives a string of the same length whose character `i` is `tolower` of the argument's |
| Frontend.ToUpper | Hasher_x01/Hasher_x01.cpp:14-19 | the string whose character `i` is the upper-case map of the argument's; `Frontend.Upper` is proved to compute it and `Frontend.CaseMapping` states the map |
| Frontend.ToLower | Hasher_x01/Hasher_x01.cpp:21-26 | the string whose character `i` is the lower-case map of the argument's; `Frontend.Lower` is proved to compute it and `Frontend.CaseMapping` states the map |
| Frontend.CaseMapping | Hasher_x01/Hasher_x01.cpp:17-24 | upper-cased characters are never lower-case letters, non-letters are kept, and each mapping undoes the other on letters |
| Frontend.CaseIdempotent | Hasher_x01/Hasher_x01.cpp:14-26 | `upper(upper(s)) == upper(s)` and `lower(lower(s)) == lower(s)` |
| Frontend.CaseForgets | Hasher_x01/Hasher_x01.cpp:14-26 | `upper(lower(s)) == upper(s)` and `lower(upper(s)) == lower(s)` |
| Frontend.SelectHasher | Hasher_x01/Hasher_x01.cpp:60-67 | the chosen hasher has the configured block size |
| Frontend.SelectHasherNames | Hasher_x01/Hasher_x01.cpp:60-67 | a name is accepted exactly when its upper-case form is MD5, CRC32 or NONE, and each picks its own hasher |
| Frontend.SelectHasherIgnoresCase | Hasher_x01/Hasher_x01.cpp:60-64 | a name and its lower- or upper-cased form choose the same hasher |
| Frontend.SelectHasherLowerCaseNames | Hasher_x01/Hasher_x01.cpp:38-65 | the default "none" chooses NoneHasher, "md5" MD5Hasher and "crc32" CRC32Hasher |
| Frontend.ParseCommandLine | Hasher_x01/Hasher_x01.cpp:32-67 | main's locals, reassigned argument by argument, give `CommandLine` |
| Frontend.CommandLine | Hasher_x01/Hasher_x01.cpp:32-67 | the configuration of the positional arguments, or the first error in the order the code meets them; `Frontend.CommandLineAccepted`, `Frontend.CommandLineFirstError`, `Frontend.CommandLineDefaults` and `Frontend.CommandLineOverrides` state it |
| Frontend.Memory | Hasher_x01/Hasher_x01.cpp:41-58 | the memory limit: 200 MiB, or argument 6 times 1024 wrapped to `size_t`, or no value when that argument does not parse; `Frontend.CommandLineOverrides` states it |
| Frontend.CommandLineTooFew | Hasher_x01/Hasher_x01.cpp:32-35 | with fewer than 3 arguments nothing is parsed, and this is the only case of that error |
| Frontend.CommandLineDefaults | Hasher_x01/Hasher_x01.cpp:38-41 | with only the two paths: 1 MiB blocks, NONE, 0 threads and 200 MiB |
| Frontend.CommandLineOverrides | Hasher_x01/Hasher_x01.cpp:51-58 | `argv[3..6]` set the block size, the name, the thread count and the memory times 1024 (wrapping), each when present |
| Frontend.CommandLineAccepted | Hasher_x01/Hasher_x01.cpp:45-76 | the command line is accepted exactly when there are 3 arguments or more, every number present parses and the name is known |
| Frontend.CommandLineFirstError | Hasher_x01/Hasher_x01.cpp:51-67 | the number rejected is the first of `argv[3]`, `argv[5]`, `argv[6]` that fails to parse; the name is checked only after all of them |
| Frontend.RunHasher | Hasher_x01/Hasher_x01.cpp:82-88 | `open`, `set_memlimit`, `set_hasher`, `set_thread_count` and `do_hash` run in that order; a zero block size divides by zero; the run stalls exactly when the counter starts over the limit; otherwise it ends with 0 and the file is one worker's drain of the producer's packs |
| Frontend.HasherMain | Hasher_x01/Hasher_x01.cpp:29-100 | a rejected command line exits with 1 and writes nothing; an accepted one has the outcome and file of `RunHasher` for its configuration |

## Left out

- Threads and blocking. The model leaves out `std::thread` spawn and join, the blocking `sync_queue`, the two mutexes, the 100 ms sleep poll and `worker_index`. In the one schedule modelled, worker 0 runs while the producer waits. Atomicity of `m_memsize` is not modelled.
- Layout.PlannedPacksCommute: states only two packs in either order. The whole plan in any order is `Layout.PlannedPacksAnyOrder` and `Layout.PlannedDrainAnyOrder`, and a split between two workers is `Layout.PlannedRelay`, all for stateless hashers only.
- Layout.PlannedRelay: covers two workers that take whole packs in turn. Workers whose blocks interleave inside packs, and more than two workers, are not stated; the model's order is pack by pack.
- Engine.FileHasher.DoHash: only one interleaving is modelled, in which worker 0 drains the queue while the producer waits. The producer waiting while workers other than worker 0 process packs is not modelled. A hang happens only when the counter starts over the limit: ahead of the loop nothing can lower it, and once the first wait ends every pushed pack is eventually released.
- File and stream I/O. The model leaves out opening the files and the exception masks of `open` (FileHasher.cpp:21-37), read and write failures, and `std::filesystem::file_size`. The input is a byte sequence whose length is the file size. The output file is a map from offsets to bytes, so a gap left by `seekp` past the end is an absent key, not a zero.
- Engine.FileHasher.Open: assumes untranslated (binary) streams, as on POSIX. The source opens `m_input` and `m_output` (FileHasher.h:69-70) without `std::ios::binary` (FileHasher.cpp:27, 30). Text-mode newline translation, such as a 0x0A digest byte written as 0x0D 0x0A, or fewer bytes read than `file_size` reports, is left out. With it, `block_count` and the slot layout of `Layout.PlannedFile` would not hold.
- Engine.FileHasher.DoHash: requires that the file size plus one block fits a `size_t`, and so do Frontend.RunHasher and Frontend.HasherMain. The source has no such guard. It would wrap, which the model does not follow.
- Engine.FileHasher.DoHash: requires a positive block size. Frontend.HasherMain reports a zero block size as `DividesByZero`, because C++ leaves the division in `get_min_optimal_block_count` undefined.
- Block positions (`std::streampos`) are unbounded naturals.
- Console output, timing and floating point are left out. This covers the per-pack report (FileHasher.cpp:144-152), "thread will be used", the error messages and the timing in Hasher_x01.cpp.
- Foreign code. The MD5 digest is the function parameter `md5`, since boost's implementation is not part of this model. `Grouping.Gcd` stands in for `boost::math::gcd`. `boost::lexical_cast<size_t>` is the parameter `parse`, and its failure is `BadLexicalCast`.
- Frontend.UpperChar: `setlocale(LC_ALL, "rus")` and locale-dependent `toupper`/`tolower` are not modelled. Only ASCII letters change case, and `toupper` of a negative `char` is not modelled.
- Frontend.HasherMain: a `runtime_error` from `open` or from the engine, which gives status 1, is not modelled. Nor is the unreachable second argument check (Hasher_x01.cpp:45-46).
- Hasher_x01/CommandLine.h is not part of this model, because `main` does not use it.
- The engine follows the as-written code. The corrected members of `## Findings` stand beside it and are not used by `Engine.FileHasher.DoHash`.

## Findings

| source | as written | input that shows it | evidently intended | confidence | as-written member | corrected member |
|---|---|---|---|---|---|---|
| Hasher_x01/FileHasher.cpp:49 | `std::min(get_min_optimal_block_count(...), 1)` is always 1, so workers are capped by blocks, not by pack groups | a 64 MiB file in 1 MiB blocks, 4 threads requested: 4 granted for one pack of 64 blocks | `std::max`, as at line 69 | not executed | Grouping.ThreadCountIgnoresGrouping | Grouping.ThreadCountByGroups |
| Hasher_x01/FileHasher.cpp:77 | `i <= block_count` makes one read past the file and writes one extra digest record | a file of one block with one block per read: reads of blocks 0 and 1 | `i < block_count`: one record per block of the file | not executed | Schedule.ExtraRead | Layout.IntendedFile |
| Hasher_x01/FileHasher.cpp:82-88 | only the extra read's first block is zeroed, so a short last read leaves the buffer's tail uninitialised | a 1-byte file in 2-byte blocks: the block hashed is the byte and one uninitialised byte | zero-pad the last block | not executed | Schedule.ShortTailIndeterminate | Schedule.IntendedBlockBytes |
| Hasher_x01/Hashers.h:22-24 | CRC32 XORs into `out` without clearing it, and the worker reuses `out` from block to block | two one-byte blocks holding 1 in one pack, with a zeroed fresh buffer: the second digest is 0, where its own checksum is 1 (with any fresh buffer, `Hashers.Crc32DependsOnPriorBuffer`: different prior buffers give different digests) | clear `out[0..4)` before accumulating | not executed | Sink.Crc32ReusedBuffer | Hashers.Crc32ClearedApply |
