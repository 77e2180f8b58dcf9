/** FileHasher (FileHasher.h, FileHasher.cpp) with its threads made
    sequential. The producer loop of `do_hash` and the `worker` loop are
    methods over the engine's fields; the queue `m_blocks` is a sequence that
    `Push` appends to and `Pull` takes from the front of. In the schedule
    modelled here the producer's wait for memory (lines 78-79) is the time in
    which worker 0 takes packs from the queue; the other workers only take
    their end-of-work packs. */
module Engine {
  import opened Common
  import opened Hashers
  import opened Packs
  import opened Schedule
  import opened Sink
  import opened Layout
  import Grouping

  /** `memset(buf, 0, n)`. */
  method Memset(buf: array<byte>, n: nat)
    requires n <= buf.Length
    modifies buf
    ensures buf[..n] == Zeros(n)
    ensures buf[n..] == old(buf[n..])
  {
    var k := 0;
    while k < n
      invariant k <= n
      invariant buf[..k] == Zeros(k)
      invariant buf[n..] == old(buf[n..])
    {
      buf[k] := 0;
      k := k + 1;
    }
  }

  /** The blocks of a read of `count` blocks (lines 90-97): block `j` slices
      the buffer at `j * block_size` and writes behind `position`, which is
      where the digest of block `i` goes. */
  method MakeBlocks(h: Hasher, position: nat, count: nat, ghost i: nat) returns (blocks: seq<Block>)
    requires position == i * h.OutputSize()
    ensures blocks == PackBlocks(h, i, count)
  {
    blocks := [];
    var j := 0;
    while j < count
      invariant j <= count
      invariant blocks == PackBlocks(h, i, count)[..j]
    {
      blocks := blocks + [Block(h, j * h.InputSize(), position + j * h.OutputSize())];
      j := j + 1;
    }
  }

  /** A queue of `n` end-of-work packs. */
  function EndPacks(n: nat): (r: seq<BlocksPack>)
    ensures |r| == n && forall k :: 0 <= k < n ==> IsSentinel(r[k])
  {
    seq(n, _ => BlocksPack([], []))
  }

  /** The queue holds an end-of-work pack. */
  predicate HasSentinel(queue: seq<BlocksPack>)
    decreases |queue|
  {
    |queue| > 0 && (IsSentinel(queue[0]) || HasSentinel(queue[1..]))
  }

  /** The position of the first end-of-work pack of the queue. */
  function FirstSentinel(queue: seq<BlocksPack>): (n: nat)
    requires HasSentinel(queue)
    ensures n < |queue| && IsSentinel(queue[n])
    ensures forall k :: 0 <= k < n ==> !IsSentinel(queue[k])
    decreases |queue|
  {
    if IsSentinel(queue[0]) then 0 else FirstSentinel(queue[1..]) + 1
  }

  /** FileHasher. `hasher` is `m_hasher` (None until `set_hasher`), `input`
      the contents of the file at `m_input_path` and `inPos` the read
      position of `m_input`, `output` the contents of `m_output` and `outPos`
      its `tellp()`, `queue` the queue `m_blocks`. */
  class FileHasher {
    var cacheLine: Size
    var queue: seq<BlocksPack>
    var hasher: Option<Hasher>
    var input: seq<byte>
    var inPos: nat
    var output: File
    var outPos: nat
    var threadCount: Size
    var memlimit: Size
    var memsize: Size

    /** FileHasher(): sets `cache_line` to 256. `m_thread_count`,
        `m_memlimit` and `m_memsize` are not initialised: their values are
        parameters here. Nor is `m_hasher`; `None` stands for "not set yet",
        and every use of the hasher requires it set. */
    constructor(threadCount0: Size, memlimit0: Size, memsize0: Size)
      ensures cacheLine == Grouping.CACHE_LINE
      ensures queue == [] && hasher == None
      ensures input == [] && inPos == 0 && output == map[] && outPos == 0
      ensures threadCount == threadCount0 && memlimit == memlimit0 && memsize == memsize0
    {
      cacheLine := Grouping.CACHE_LINE;
      queue := [];
      hasher := None;
      input, inPos := [], 0;
      output, outPos := map[], 0;
      threadCount, memlimit, memsize := threadCount0, memlimit0, memsize0;
    }

    /** open(input, output): the input stream reads `contents` from its
        start, the output stream starts an empty file. */
    method Open(contents: seq<byte>)
      modifies this`input, this`inPos, this`output, this`outPos
      ensures input == contents && inPos == 0
      ensures output == map[] && outPos == 0
    {
      input, inPos := contents, 0;
      output, outPos := map[], 0;
    }

    /** set_hasher: a null hasher throws "Hasher == nullptr" and leaves
        `m_hasher` as it was; any other is stored. */
    method SetHasher(h: Option<Hasher>) returns (ok: bool)
      modifies this`hasher
      ensures ok <==> h.Some?
      ensures ok ==> hasher == h
      ensures !ok ==> hasher == old(hasher)
    {
      if h.Some? {
        hasher := h;
        ok := true;
      } else {
        ok := false;
      }
    }

    /** set_memlimit: stores the limit and changes nothing else. */
    method SetMemlimit(limit: Size)
      modifies this`memlimit
      ensures memlimit == limit
    {
      memlimit := limit;
    }

    /** set_thread_count(count), with `hardware_concurrency()` as
        `hardware`: the count as written (see Grouping.ThreadCount), which is
        also stored in `m_thread_count`. */
    method SetThreadCount(count: Size, hardware: Grouping.Uint) returns (r: Size)
      requires hasher.Some? && hasher.value.InputSize() > 0 && cacheLine > 0
      requires |input| < SIZE_MODULUS
      modifies this`threadCount
      ensures r == threadCount
      ensures r == Grouping.ThreadCount(count, hardware, |input|, hasher.value.InputSize(), cacheLine)
      ensures r >= 1
    {
      var blockSize := hasher.value.InputSize();
      var fileSize := |input|;
      var minOptBlockCount := Min(Grouping.MinOptimalBlockCount(blockSize, cacheLine), 1);
      var requested := count;
      if requested == 0 {
        requested := Max(hardware, 1);
      }
      var maxWorkerCount := fileSize / blockSize / minOptBlockCount;
      if maxWorkerCount < requested {
        requested := Max(maxWorkerCount, 1);
      }
      threadCount := requested;
      r := requested;
    }

    /** `m_blocks.push(p)`. */
    method Push(p: BlocksPack)
      modifies this`queue
      ensures queue == old(queue) + [p]
    {
      queue := queue + [p];
    }

    /** `m_blocks.pull(p)` on a queue that holds a pack. */
    method Pull() returns (p: BlocksPack)
      requires queue != []
      modifies this`queue
      ensures p == old(queue)[0] && queue == old(queue)[1..]
    {
      p := queue[0];
      queue := queue[1..];
    }

    /** `m_input.read(buf, n)`: copies the next bytes of the input, up to `n`
        of them or the end of the file, to the front of `buf`; `got` is
        `gcount()`. */
    method ReadInto(buf: array<byte>, n: nat) returns (got: nat)
      requires inPos <= |input| && n <= buf.Length
      modifies buf, this`inPos
      ensures inPos == Min(old(inPos) + n, |input|) && got == inPos - old(inPos)
      ensures buf[..got] == input[old(inPos)..inPos]
      ensures buf[got..] == old(buf[got..])
    {
      var from := inPos;
      var end := Min(inPos + n, |input|);
      while inPos < end
        invariant from <= inPos <= end
        invariant buf[..inPos - from] == input[from..inPos]
        invariant buf[end - from..] == old(buf[end - from..])
      {
        buf[inPos - from] := input[inPos];
        inPos := inPos + 1;
      }
      got := inPos - from;
    }

    /** Lines 82-88 for the read of `count` blocks from block `i`: a fresh
        buffer of `block_size * count` bytes whose contents no one wrote,
        its first block zeroed when `i == block_count`, then filled by the
        read. The buffer is the pack's buffer of the plan. */
    method ReadPack(h: Hasher, blockCount: nat, i: nat, count: nat, fill: Fill) returns (raw: seq<byte>)
      requires count >= 1 && inPos == Min(i * h.InputSize(), |input|)
      modifies this`inPos
      ensures raw == PackRaw(input, h.InputSize(), blockCount, i, count, fill)
      ensures inPos == Min((i + count) * h.InputSize(), |input|)
    {
      var bs := h.InputSize();
      var n := bs * count;
      assert bs <= n by {
        MulMono(1, count, bs);
      }
      var data := new byte[n](k requires 0 <= k => fill(i, k));
      if i == blockCount {
        Memset(data, bs);
      }
      ghost var before := data[..];
      ghost var from := inPos;
      var _ := ReadInto(data, n);
      ghost var got := input[from..inPos];
      assert (i + count) * bs == i * bs + n;
      assert got == Delivered(input, bs, i, count);
      raw := data[..];
      forall k | 0 <= k < n
        ensures raw[k] == PackRaw(input, bs, blockCount, i, count, fill)[k]
      {
        PackRawAt(input, bs, blockCount, i, count, fill, k);
        if k < |got| {
          assert raw[k] == got[k];
        } else {
          assert raw[k] == before[k];
        }
      }
    }

    /** Lines 106-107: one end-of-work pack per worker. */
    method PushEndPacks(n: nat)
      modifies this`queue
      ensures queue == old(queue) + EndPacks(n)
    {
      var t := 0;
      while t < n
        invariant t <= n
        invariant queue == old(queue) + EndPacks(t)
      {
        Push(BlocksPack([], []));
        assert EndPacks(t + 1) == EndPacks(t) + [BlocksPack([], [])];
        t := t + 1;
      }
    }

    /** Lines 78-79 in the sequential schedule: while the counter is over
        the limit, worker `w` takes the front pack of the queue and processes
        it. Of the first `k` packs of `all`, pushed so far, `w` has drained
        the first `np` from the state `s0`, and it goes on from there. With
        an empty queue and the counter still over the limit nothing can lower
        it: the program waits forever, reported as `stalled`. */
    method AwaitMemory(w: Worker, outFill: OutFill, ghost s0: WorkState, ghost all: seq<BlocksPack>,
                       ghost np: nat, ghost k: nat, ghost m0: Size)
      returns (stalled: bool, ghost drained: nat)
      requires Accounted(queue, WorkState(output, outPos, w.out[..]), memsize, outFill, s0, all, np, k, m0)
      modifies w`out, w.out, this`output, this`outPos, this`memsize, this`queue
      ensures fresh(w.out) || w.out == old(w.out)
      ensures np <= drained && Accounted(queue, WorkState(output, outPos, w.out[..]), memsize, outFill, s0, all, drained, k, m0)
      ensures stalled <==> memsize > memlimit
      ensures stalled ==> drained == k
    {
      drained := np;
      while memsize > memlimit
        invariant np <= drained && Accounted(queue, WorkState(output, outPos, w.out[..]), memsize, outFill, s0, all, drained, k, m0)
        invariant fresh(w.out) || w.out == old(w.out)
        decreases k - drained
      {
        if queue == [] {
          stalled := true;
          return;
        }
        TakeFront(w, outFill, s0, all, drained, k, m0);
        drained := drained + 1;
      }
      stalled := false;
    }

    /** One pass of the `worker` loop on a pack that holds blocks: `w`
        pulls the front pack of the queue, pack `np` of `all`, and processes
        it, which is draining one more pack and releasing its bytes. */
    method TakeFront(w: Worker, outFill: OutFill, ghost s0: WorkState, ghost all: seq<BlocksPack>,
                     ghost np: nat, ghost k: nat, ghost m0: Size)
      requires Accounted(queue, WorkState(output, outPos, w.out[..]), memsize, outFill, s0, all, np, k, m0) && queue != []
      modifies w`out, w.out, this`output, this`outPos, this`memsize, this`queue
      ensures fresh(w.out) || w.out == old(w.out)
      ensures np < k && Accounted(queue, WorkState(output, outPos, w.out[..]), memsize, outFill, s0, all, np + 1, k, m0)
    {
      ghost var q0, m1 := queue, memsize;
      var p := Pull();
      assert p == all[np] && SlicesInside(p);
      assert queue == all[np + 1..k];
      w.ProcessPack(this, p, outFill);
      TakeOneMore(all, np);
      DrainAppend(s0, all[..np], p, outFill);
      CounterPull(m0, q0, m1, memsize);
    }

    /** Lines 81-100: the read of the pack starting at block `i`, whose
        digests go from `position` on. The pushed pack is the plan's pack for
        that read, and the counter rises by its input bytes, modulo 2^64. */
    method ProducePack(blockCount: nat, minOptBlockCount: nat, i: nat, position: nat, fill: Fill)
      returns (count: nat, p: BlocksPack)
      requires hasher.Some? && hasher.value.InputSize() > 0 && minOptBlockCount >= 1
      requires Covers(|input|, hasher.value.InputSize(), blockCount) && i <= blockCount
      requires |input| + hasher.value.InputSize() < SIZE_MODULUS
      requires position == i * hasher.value.OutputSize() && inPos == Min(i * hasher.value.InputSize(), |input|)
      modifies this`inPos, this`queue, this`memsize
      ensures count == PackCount(blockCount, minOptBlockCount, i)
      ensures p == MakePack(hasher.value, input, blockCount, i, count, fill)
      ensures queue == old(queue) + [p]
      ensures memsize == Wrap(old(memsize) + PackInputBytes(p.blocks))
      ensures inPos == Min((i + count) * hasher.value.InputSize(), |input|)
    {
      var h := hasher.value;
      var bs := h.InputSize();
      count := Min(Max(blockCount - i, 1), minOptBlockCount);
      PackBytesFit(|input|, bs, blockCount, minOptBlockCount, i);
      var raw := ReadPack(h, blockCount, i, count, fill);
      var blocks := MakeBlocks(h, position, count, i);
      p := BlocksPack(blocks, raw);
      assert p == MakePack(h, input, blockCount, i, count, fill);
      MakePackShape(h, input, blockCount, i, count, fill);
      Push(p);
      memsize := AddWrap(memsize, bs * count);
    }

    /** One pass of the loop of lines 77-104 at block `i`, with pack `k` of
        the plan next: the wait of lines 78-79, then the read and push. It
        stalls only at the first pass, with nothing pushed, when the counter
        starts over the limit. */
    method ProducerPass(w0: Worker, h: Hasher, ghost inp: seq<byte>, fill: Fill, outFill: OutFill,
                        blockCount: nat, minOptBlockCount: nat, i: nat, position: nat, ghost s0: WorkState,
                        ghost plan: seq<Read>, ghost all: seq<BlocksPack>, ghost k: nat, ghost np: nat, ghost m0: Size)
      returns (stalled: bool, i': nat, position': nat, ghost k': nat, ghost np': nat)
      requires hasher == Some(h) && input == inp
      requires Planned(h, inp, blockCount, minOptBlockCount, fill, plan, all) && i <= blockCount
      requires PlannedFrom(plan, k, blockCount, minOptBlockCount, i) && AtBlock(h, inp, i, position, inPos)
      requires Accounted(queue, WorkState(output, outPos, w0.out[..]), memsize, outFill, s0, all, np, k, m0)
      requires k > 0 ==> m0 <= memlimit
      modifies w0`out, w0.out, this`output, this`outPos, this`memsize, this`queue, this`inPos
      ensures fresh(w0.out) || w0.out == old(w0.out)
      ensures stalled ==> k == 0 && m0 > memlimit
      ensures stalled ==> queue == [] && memsize == m0 && WorkState(output, outPos, w0.out[..]) == s0
      ensures !stalled ==> i' > i && k' > 0 && m0 <= memlimit
      ensures !stalled ==> PlannedFrom(plan, k', blockCount, minOptBlockCount, i') && AtBlock(h, inp, i', position', inPos)
      ensures !stalled ==> Accounted(queue, WorkState(output, outPos, w0.out[..]), memsize, outFill, s0, all, np', k', m0)
    {
      i', position', k' := i, position, k;
      stalled, np' := AwaitMemory(w0, outFill, s0, all, np, k, m0);
      if stalled {
        assert all[np'..k] == [] && all[..np'] == [];
      } else {
        assert k == 0 ==> all[np'..k] == [];
        i', position' := Advance(w0, h, inp, fill, outFill, blockCount, minOptBlockCount, i, position, s0, plan, all, k, np', m0);
        k' := k + 1;
      }
    }

    /** Lines 81-103 once the wait is over: push pack `k` of the plan, the
        read from block `i`, and move `i` and `position` on to the block
        after it. */
    method Advance(w0: Worker, h: Hasher, ghost inp: seq<byte>, fill: Fill, outFill: OutFill,
                   blockCount: nat, minOptBlockCount: nat, i: nat, position: nat, ghost s0: WorkState,
                   ghost plan: seq<Read>, ghost all: seq<BlocksPack>, ghost k: nat, ghost np: nat, ghost m0: Size)
      returns (i': nat, position': nat)
      requires hasher == Some(h) && input == inp
      requires Planned(h, inp, blockCount, minOptBlockCount, fill, plan, all) && i <= blockCount
      requires PlannedFrom(plan, k, blockCount, minOptBlockCount, i) && AtBlock(h, inp, i, position, inPos)
      requires Accounted(queue, WorkState(output, outPos, w0.out[..]), memsize, outFill, s0, all, np, k, m0)
      modifies this`inPos, this`queue, this`memsize
      ensures i' > i
      ensures PlannedFrom(plan, k + 1, blockCount, minOptBlockCount, i') && AtBlock(h, inp, i', position', inPos)
      ensures Accounted(queue, WorkState(output, outPos, w0.out[..]), memsize, outFill, s0, all, np, k + 1, m0)
    {
      PlanPackStep(h, input, blockCount, minOptBlockCount, fill, plan, k, i);
      var count := PushPack(blockCount, minOptBlockCount, i, position, fill, all, k, np, m0);
      assert i + count <= blockCount + 1;
      MulAdd(i, count, h.OutputSize());
      i', position' := i + count, position + count * h.OutputSize();
      PlannedNext(plan, k, blockCount, minOptBlockCount, i, count, k + 1, i');
      MulStep(i, count, i', h.OutputSize());
      MulStep(i, count, i', h.InputSize());
      assert position' == i' * h.OutputSize();
      assert inPos == Min(i' * h.InputSize(), |input|);
    }

    /** Lines 81-100 seen from the plan: the pack pushed is pack `k` of
        `all`, so the queue grows from `all[np..k]` to `all[np..k + 1]` and
        the counter still stands for `m0` and the queued bytes. */
    method PushPack(blockCount: nat, minOptBlockCount: nat, i: nat, position: nat, fill: Fill,
                    ghost all: seq<BlocksPack>, ghost k: nat, ghost np: nat, ghost m0: Size)
      returns (count: nat)
      requires hasher.Some? && hasher.value.InputSize() > 0 && minOptBlockCount >= 1
      requires Covers(|input|, hasher.value.InputSize(), blockCount) && i <= blockCount
      requires |input| + hasher.value.InputSize() < SIZE_MODULUS
      requires position == i * hasher.value.OutputSize() && inPos == Min(i * hasher.value.InputSize(), |input|)
      requires np <= k < |all|
      requires all[k] == MakePack(hasher.value, input, blockCount, i, PackCount(blockCount, minOptBlockCount, i), fill)
      requires queue == all[np..k] && memsize == Acquired(m0, queue)
      modifies this`inPos, this`queue, this`memsize
      ensures count == PackCount(blockCount, minOptBlockCount, i)
      ensures queue == all[np..k + 1] && memsize == Acquired(m0, queue)
      ensures inPos == Min((i + count) * hasher.value.InputSize(), |input|)
    {
      ghost var q0 := queue;
      var p;
      count, p := ProducePack(blockCount, minOptBlockCount, i, position, fill);
      QueueStep(all, np, k, q0, queue);
      AcquiredAppend(m0, q0, p);
    }

    /** Lines 106-110: the end-of-work packs go behind the queued packs and
        every worker returns at its own. Worker 0 is `w0` and drains what is
        still queued, from the state `s`; the others are `RunIdleWorkers`. */
    method EndWork(w0: Worker, outFill: OutFill, ghost s: WorkState)
      requires threadCount >= 1 && AllSlicesInside(queue)
      requires forall n :: 0 <= n < |queue| ==> !IsSentinel(queue[n])
      requires WorkState(output, outPos, w0.out[..]) == s
      modifies w0`out, w0.out, this`output, this`outPos, this`memsize, this`queue
      ensures output == Drain(s, old(queue), outFill).file
      ensures outPos == Drain(s, old(queue), outFill).cursor
      ensures memsize == PacksReleased(old(memsize), old(queue))
      ensures queue == []
    {
      ghost var packs := queue;
      PushEndPacks(threadCount);
      SentinelAfterPacks(packs, EndPacks(threadCount));
      w0.Run(this, outFill);
      assert (packs + EndPacks(threadCount))[..|packs|] == packs;
      assert (packs + EndPacks(threadCount))[|packs| + 1..] == EndPacks(threadCount - 1);
      RunIdleWorkers(outFill, threadCount - 1);
    }

    /** The workers other than worker 0: with only end-of-work packs left,
        each pulls one and returns, and nothing else changes. */
    method RunIdleWorkers(outFill: OutFill, n: nat)
      requires queue == EndPacks(n)
      modifies this`output, this`outPos, this`memsize, this`queue
      ensures queue == []
      ensures output == old(output) && outPos == old(outPos) && memsize == old(memsize)
    {
      var k := 0;
      while k < n
        invariant k <= n
        invariant queue == EndPacks(n - k)
        invariant output == old(output) && outPos == old(outPos) && memsize == old(memsize)
      {
        var w := new Worker();
        assert FirstSentinel(queue) == 0;
        w.Run(this, outFill);
        assert queue == EndPacks(n - k)[1..];
        k := k + 1;
      }
    }

    /** FileHasher::do_hash in the sequential schedule. It stalls exactly
        when the counter starts over the limit (the program then waits
        forever). Otherwise the queue ends empty, the counter is back at its
        starting value, the whole input has been read, and the file and
        cursor are those of one worker draining, in order, the packs of the
        plan (Layout.PlannedPacks), the end-of-work packs aside. */
    method DoHash(fill: Fill, outFill: OutFill) returns (stalled: bool)
      requires hasher.Some? && hasher.value.InputSize() > 0 && cacheLine > 0
      requires threadCount >= 1 && queue == [] && inPos == 0
      requires |input| + hasher.value.InputSize() < SIZE_MODULUS
      modifies this`output, this`outPos, this`memsize, this`queue, this`inPos
      ensures stalled <==> old(memsize) > memlimit
      ensures stalled ==> output == old(output) && outPos == old(outPos) && memsize == old(memsize) && queue == []
      ensures !stalled ==>
        var h := hasher.value;
        var minOptBlockCount := Max(Grouping.MinOptimalBlockCount(h.InputSize(), cacheLine), 1);
        var d := Drain(WorkState(old(output), old(outPos), []), PlannedPacks(h, input, minOptBlockCount, fill), outFill);
        && output == d.file && outPos == d.cursor
        && memsize == old(memsize) && queue == [] && inPos == |input|
    {
      var h := hasher.value;
      var bs := h.InputSize();
      var fileSize := |input|;
      var sizeWithoutLast := fileSize - fileSize % bs;
      var minOptBlockCount := Max(Grouping.MinOptimalBlockCount(bs, cacheLine), 1);
      var w0 := new Worker();
      var blockCount := sizeWithoutLast / bs + (if fileSize - sizeWithoutLast != 0 then 1 else 0);
      assert blockCount == BlockCount(fileSize, bs);
      ghost var plan := Plan(blockCount, minOptBlockCount, 0);
      ghost var all := PlanPacks(h, input, blockCount, fill, plan);
      PlanReady(h, input, blockCount, minOptBlockCount, fill);
      stalled := HashBlocks(w0, h, blockCount, minOptBlockCount, fill, outFill, plan, all);
    }

    /** Lines 77-110 of do_hash, for the packs `all` of the plan `plan`:
        the producer loop, then the end of work. It stalls exactly when the
        counter starts over the limit, and then nothing has changed;
        otherwise the file and cursor are those of one worker draining `all`
        in order, and the queue, the counter and the input are as the loop
        found them, the input read to its end. */
    method HashBlocks(w0: Worker, h: Hasher, blockCount: nat, minOptBlockCount: nat, fill: Fill, outFill: OutFill,
                      ghost plan: seq<Read>, ghost all: seq<BlocksPack>)
      returns (stalled: bool)
      requires hasher == Some(h) && threadCount >= 1
      requires Planned(h, input, blockCount, minOptBlockCount, fill, plan, all) && AllSlicesInside(all)
      requires plan == Plan(blockCount, minOptBlockCount, 0) && forall n :: 0 <= n < |all| ==> !IsSentinel(all[n])
      requires queue == [] && inPos == 0 && w0.out[..] == []
      modifies w0`out, w0.out, this`output, this`outPos, this`memsize, this`queue, this`inPos
      ensures stalled <==> old(memsize) > memlimit
      ensures stalled ==> output == old(output) && outPos == old(outPos) && memsize == old(memsize) && queue == []
      ensures !stalled ==>
        var d := Drain(WorkState(old(output), old(outPos), []), all, outFill);
        && output == d.file && outPos == d.cursor
        && memsize == old(memsize) && queue == [] && inPos == |input|
    {
      ghost var m0 := memsize;
      ghost var s0 := WorkState(output, outPos, w0.out[..]);
      ghost var np;
      stalled, np := ProduceAll(w0, h, input, fill, outFill, blockCount, minOptBlockCount, s0, plan, all);
      if !stalled {
        FinishWork(w0, outFill, s0, all, np, m0);
      }
    }

    /** The loop of lines 77-104 from its start, with worker 0 `w0` taking
        packs while the producer waits. It stalls exactly when the counter
        starts over the limit, and then nothing has changed. Otherwise every
        pack of the plan has been pushed, the first `np` of them drained, and
        the whole input read. */
    method ProduceAll(w0: Worker, h: Hasher, ghost inp: seq<byte>, fill: Fill, outFill: OutFill,
                      blockCount: nat, minOptBlockCount: nat, ghost s0: WorkState, ghost plan: seq<Read>,
                      ghost all: seq<BlocksPack>)
      returns (stalled: bool, ghost np: nat)
      requires hasher == Some(h) && input == inp
      requires Planned(h, inp, blockCount, minOptBlockCount, fill, plan, all) && AllSlicesInside(all)
      requires plan == Plan(blockCount, minOptBlockCount, 0)
      requires queue == [] && inPos == 0 && WorkState(output, outPos, w0.out[..]) == s0
      modifies w0`out, w0.out, this`output, this`outPos, this`memsize, this`queue, this`inPos
      ensures fresh(w0.out) || w0.out == old(w0.out)
      ensures stalled <==> old(memsize) > memlimit
      ensures stalled ==> queue == [] && memsize == old(memsize) && WorkState(output, outPos, w0.out[..]) == s0
      ensures !stalled ==> Accounted(queue, WorkState(output, outPos, w0.out[..]), memsize, outFill, s0, all, np, |all|, old(memsize)) && inPos == |inp|
    {
      ghost var m0 := memsize;
      ghost var k: nat := 0;
      np := 0;
      var position: nat := 0;
      var i: nat := 0;
      stalled := false;
      assert all[..0] == [] && all[0..0] == [];
      while i <= blockCount
        invariant PlannedFrom(plan, k, blockCount, minOptBlockCount, i) && AtBlock(h, inp, i, position, inPos)
        invariant Accounted(queue, WorkState(output, outPos, w0.out[..]), memsize, outFill, s0, all, np, k, m0)
        invariant fresh(w0.out) || w0.out == old(w0.out)
        invariant k > 0 ==> m0 <= memlimit
        decreases blockCount + 1 - i
      {
        stalled, i, position, k, np := ProducerPass(w0, h, inp, fill, outFill, blockCount, minOptBlockCount,
                                                    i, position, s0, plan, all, k, np, m0);
        if stalled {
          break;
        }
      }
      MulAdd(blockCount, 1, h.InputSize());
    }

    /** Lines 106-110 after the loop: worker 0 drains the packs still
        queued, every worker returns at its end-of-work pack, and the
        counter is back at `m0`, every pushed byte released. */
    method FinishWork(w0: Worker, outFill: OutFill, ghost s0: WorkState, ghost all: seq<BlocksPack>,
                      ghost np: nat, ghost m0: Size)
      requires threadCount >= 1 && Accounted(queue, WorkState(output, outPos, w0.out[..]), memsize, outFill, s0, all, np, |all|, m0)
      requires forall n :: 0 <= n < |all| ==> !IsSentinel(all[n])
      modifies w0`out, w0.out, this`output, this`outPos, this`memsize, this`queue
      ensures output == Drain(s0, all, outFill).file && outPos == Drain(s0, all, outFill).cursor
      ensures memsize == m0 && queue == []
    {
      ghost var q, m := queue, memsize;
      assert all[..|all|] == all;
      EndWork(w0, outFill, Drain(s0, all[..np], outFill));
      assert all[..np] + all[np..] == all;
      DrainSplit(s0, all[..np], all[np..], outFill);
      ReleasedAll(m0, q);
    }
  }

  /** The locals of one `worker()` call that outlive a pack: `out` together
      with `out_size`, the array's length. */
  class Worker {
    var out: array<byte>

    /** `out` starts null, with `out_size == 0`. */
    constructor()
      ensures fresh(out) && out.Length == 0
    {
      out := new byte[0];
    }

    /** The body of the loop of lines 130-142 for block `j` of `p`. */
    method ProcessBlock(fh: FileHasher, p: BlocksPack, j: nat, outFill: OutFill)
      requires SlicesInside(p) && j < |p.blocks|
      modifies this`out, out, fh`output, fh`outPos, fh`memsize
      ensures fresh(out) || out == old(out)
      ensures WorkState(fh.output, fh.outPos, out[..]) == BlockStep(WorkState(old(fh.output), old(fh.outPos), old(out[..])), p, j, outFill)
      ensures fh.memsize == SubWrap(old(fh.memsize), p.blocks[j].hasher.InputSize())
    {
      ghost var s := WorkState(fh.output, fh.outPos, out[..]);
      var b := p.blocks[j];
      var os := b.hasher.OutputSize();
      ghost var buffer := OutFor(s.out, os, outFill);
      if out.Length < os {
        out := new byte[os](k requires 0 <= k => outFill(k));
      }
      assert out[..] == buffer;
      Apply(b.hasher, out, p.raw, b.data);
      ghost var digest := Digest(b.hasher, buffer[..os], BlockBytes(p, j));
      assert out[..] == digest + buffer[os..] by {
        assert out[..os] == digest;
      }
      if b.position != fh.outPos {
        fh.outPos := b.position;
      }
      fh.output := Written(fh.output, fh.outPos, out[..os]);
      fh.outPos := fh.outPos + os;
      fh.memsize := SubWrap(fh.memsize, b.hasher.InputSize());
      assert WorkState(fh.output, fh.outPos, out[..]) == WorkState(Written(s.file, b.position, digest), b.position + os, digest + buffer[os..]);
    }

    /** Lines 130-142: every block of `p`, in order. */
    method ProcessPack(fh: FileHasher, p: BlocksPack, outFill: OutFill)
      requires SlicesInside(p)
      modifies this`out, out, fh`output, fh`outPos, fh`memsize
      ensures fresh(out) || out == old(out)
      ensures WorkState(fh.output, fh.outPos, out[..]) == PackStep(WorkState(old(fh.output), old(fh.outPos), old(out[..])), p, outFill)
      ensures fh.memsize == Released(old(fh.memsize), p.blocks, |p.blocks|)
    {
      ghost var s0 := WorkState(fh.output, fh.outPos, out[..]);
      var j := 0;
      while j < |p.blocks|
        invariant j <= |p.blocks|
        invariant fresh(out) || out == old(out)
        invariant WorkState(fh.output, fh.outPos, out[..]) == PackPrefix(s0, p, j, outFill)
        invariant fh.memsize == Released(old(fh.memsize), p.blocks, j)
      {
        ProcessBlock(fh, p, j, outFill);
        j := j + 1;
      }
    }

    /** worker(): pulls packs and processes them until it pulls an
        end-of-work pack, and then returns. */
    method Run(fh: FileHasher, outFill: OutFill)
      requires AllSlicesInside(fh.queue) && HasSentinel(fh.queue)
      modifies this`out, out, fh`output, fh`outPos, fh`memsize, fh`queue
      ensures fresh(out) || out == old(out)
      ensures var n := FirstSentinel(old(fh.queue));
        && WorkState(fh.output, fh.outPos, out[..]) == Drain(WorkState(old(fh.output), old(fh.outPos), old(out[..])), old(fh.queue)[..n], outFill)
        && fh.memsize == PacksReleased(old(fh.memsize), old(fh.queue)[..n])
        && fh.queue == old(fh.queue)[n + 1..]
    {
      ghost var s0 := WorkState(fh.output, fh.outPos, out[..]);
      ghost var q0 := fh.queue;
      ghost var n0 := FirstSentinel(q0);
      ghost var done := 0;
      while true
        invariant done <= n0
        invariant fresh(out) || out == old(out)
        invariant fh.queue == q0[done..]
        invariant WorkState(fh.output, fh.outPos, out[..]) == Drain(s0, q0[..done], outFill)
        invariant fh.memsize == PacksReleased(old(fh.memsize), q0[..done])
        decreases |fh.queue|
      {
        var p := fh.Pull();
        if |p.blocks| == 0 {
          assert done == n0;
          return;
        }
        ProcessPack(fh, p, outFill);
        TakeOneMore(q0, done);
        DrainAppend(s0, q0[..done], p, outFill);
        PacksReleasedAppend(old(fh.memsize), q0[..done], p);
        done := done + 1;
      }
    }
  }

  /** The producer is at block `i`: `position` is where that block's digest
      goes, and the input `input` has been read up to `inPos`, the block's start. */
  ghost predicate AtBlock(h: Hasher, input: seq<byte>, i: nat, position: nat, inPos: nat)
  {
    && position == i * h.OutputSize()
    && inPos == Min(i * h.InputSize(), |input|)
  }

  /** The first `k` packs of `all` have been pushed and the first `np` of
      them drained from the state `s0`, giving the worker state `view`: the
      queue holds the others, and the counter is `m0` with the input bytes of
      the queued packs acquired, modulo 2^64. */
  ghost predicate Accounted(queue: seq<BlocksPack>, view: WorkState, memsize: Size, outFill: OutFill,
                            s0: WorkState, all: seq<BlocksPack>, np: nat, k: nat, m0: Size)
  {
    && np <= k <= |all| && AllSlicesInside(all) && queue == all[np..k]
    && view == Drain(s0, all[..np], outFill)
    && memsize == Acquired(m0, queue)
  }

  /** What the loop of lines 77-104 does not change: the hasher `h`, the
      input, so `block_count`, and the packs `all` of its plan. */
  ghost predicate Planned(h: Hasher, input: seq<byte>, blockCount: nat, minOptBlockCount: nat, fill: Fill,
                          plan: seq<Read>, all: seq<BlocksPack>)
  {
    && h.InputSize() > 0 && minOptBlockCount >= 1
    && Covers(|input|, h.InputSize(), blockCount)
    && |input| + h.InputSize() < SIZE_MODULUS
    && all == PlanPacks(h, input, blockCount, fill, plan)
  }

  /** The reads still to come after `k` of `plan` are the loop's reads from block `i`. */
  ghost predicate PlannedFrom(plan: seq<Read>, k: nat, blockCount: nat, minOptBlockCount: nat, i: nat)
  {
    minOptBlockCount >= 1 && i <= blockCount + 1 && k <= |plan| && plan[k..] == Plan(blockCount, minOptBlockCount, i)
  }

  /** The loop moving on by one read keeps the plan's account. */
  lemma PlannedNext(plan: seq<Read>, k: nat, blockCount: nat, minOptBlockCount: nat, i: nat, count: nat,
                    k': nat, i': nat)
    requires PlannedFrom(plan, k, blockCount, minOptBlockCount, i) && i <= blockCount
    requires count == PackCount(blockCount, minOptBlockCount, i)
    requires k' == k + 1 && i' == i + count
    ensures PlannedFrom(plan, k', blockCount, minOptBlockCount, i')
  {
    PlanStep(blockCount, minOptBlockCount, i, plan, k);
  }

  /** A prefix one longer is the prefix and the next element. */
  lemma TakeOneMore(s: seq<BlocksPack>, n: nat)
    requires n < |s|
    ensures s[..n + 1] == s[..n] + [s[n]]
  {
  }

  /** A queue that held the packs `from .. to - 1` of `packs` and had pack
      `to` pushed holds the packs `from .. to`. */
  lemma QueueStep(packs: seq<BlocksPack>, from: nat, to: nat, before: seq<BlocksPack>, after: seq<BlocksPack>)
    requires from <= to < |packs| && before == packs[from..to] && after == before + [packs[to]]
    ensures after == packs[from..to + 1]
  {
    assert packs[from..to + 1] == packs[from..to] + [packs[to]];
  }

  /** Processing the front pack releases its input bytes, so the counter
      stands for `m0` and the packs left in the queue. */
  lemma CounterPull(m0: Size, queue: seq<BlocksPack>, before: Size, after: Size)
    requires |queue| > 0 && before == Acquired(m0, queue)
    requires after == Released(before, queue[0].blocks, |queue[0].blocks|)
    ensures after == Acquired(m0, queue[1..])
  {
    var n := PackInputBytes(queue[0].blocks);
    AcquiredIsWrap(m0, queue);
    AcquiredIsWrap(m0, queue[1..]);
    ReleasedPack(before, queue[0]);
    WrapSubAny(m0 + QueuedBytes(queue), n);
    assert m0 + QueuedBytes(queue) - n == m0 + QueuedBytes(queue[1..]);
  }

  /** The packs of the loop's plan lie inside their buffers, and none of
      them is an end-of-work pack, since every read takes at least one block. */
  lemma PlanPacksShape(h: Hasher, input: seq<byte>, blockCount: nat, minOptBlockCount: nat, fill: Fill)
    requires minOptBlockCount >= 1
    ensures var packs := PlanPacks(h, input, blockCount, fill, Plan(blockCount, minOptBlockCount, 0));
      && AllSlicesInside(packs)
      && forall n :: 0 <= n < |packs| ==> !IsSentinel(packs[n])
  {
    var plan := Plan(blockCount, minOptBlockCount, 0);
    var packs := PlanPacks(h, input, blockCount, fill, plan);
    PlanTiles(blockCount, minOptBlockCount, 0);
    forall n | 0 <= n < |packs|
      ensures SlicesInside(packs[n]) && !IsSentinel(packs[n])
    {
      PlanPacksAt(h, input, blockCount, fill, plan, n);
      MakePackShape(h, input, blockCount, plan[n].start, plan[n].count, fill);
    }
  }

  /** The plan of `do_hash` for `input`: its packs are the packs Layout
      describes, they lie inside their buffers and none of them is an
      end-of-work pack. */
  lemma PlanReady(h: Hasher, input: seq<byte>, blockCount: nat, minOptBlockCount: nat, fill: Fill)
    requires h.InputSize() > 0 && minOptBlockCount >= 1 && |input| + h.InputSize() < SIZE_MODULUS
    requires blockCount == BlockCount(|input|, h.InputSize())
    ensures var plan := Plan(blockCount, minOptBlockCount, 0);
      var all := PlanPacks(h, input, blockCount, fill, plan);
      && Planned(h, input, blockCount, minOptBlockCount, fill, plan, all) && AllSlicesInside(all)
      && (forall n :: 0 <= n < |all| ==> !IsSentinel(all[n]))
      && PlannedPacks(h, input, minOptBlockCount, fill) == all
  {
    CoversIsBlockCount(|input|, h.InputSize(), blockCount);
    PlanPacksShape(h, input, blockCount, minOptBlockCount, fill);
  }

  /** The first end-of-work pack behind packs that are not is the first of
      the end-of-work packs. */
  lemma {:induction false} SentinelAfterPacks(packs: seq<BlocksPack>, ends: seq<BlocksPack>)
    requires forall n :: 0 <= n < |packs| ==> !IsSentinel(packs[n])
    requires |ends| > 0 && IsSentinel(ends[0])
    ensures HasSentinel(packs + ends) && FirstSentinel(packs + ends) == |packs|
    decreases |packs|
  {
    if |packs| > 0 {
      assert (packs + ends)[1..] == packs[1..] + ends;
      SentinelAfterPacks(packs[1..], ends);
    } else {
      assert packs + ends == ends;
    }
  }
}
