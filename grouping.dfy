/** The scheduling arithmetic of FileHasher.cpp: how many blocks are read
    together (get_min_optimal_block_count) and how many workers are started
    (set_thread_count). */
module Grouping {
  import opened Common

  /** `cache_line`, set to 256 by FileHasher's constructor. */
  const CACHE_LINE: nat := 256

  /** 64 MiB: the amount of input each read aims to cover. */
  const GROUP_BYTES: nat := 64 * 1024 * 1024

  /** An `unsigned int`, the type of `std::thread::hardware_concurrency()`. */
  type Uint = x: int | 0 <= x < 0x1_0000_0000

  /** Euclid's greatest common divisor, with `Gcd(0, n) == n` as for `boost::math::gcd`. */
  function Gcd(a: nat, b: nat): nat
    decreases b
  {
    if b == 0 then a else Gcd(b, a % b)
  }

  /** `Gcd(a, b)` divides both arguments; the quotients are returned. */
  lemma {:induction false} GcdDivides(a: nat, b: nat) returns (x: nat, y: nat)
    ensures a == Gcd(a, b) * x && b == Gcd(a, b) * y
    decreases b
  {
    if b == 0 {
      x, y := 1, 0;
    } else {
      var q, r := a / b, a % b;
      var g := Gcd(b, r);
      var x', y' := GcdDivides(b, r);
      assert a == q * b + r;
      FactorOut(g, q, x', y');
      x, y := q * x' + y', x';
    }
  }

  /** Taking the common factor `g` out of a combination of its multiples. */
  lemma FactorOut(g: nat, q: nat, x: nat, y: nat)
    ensures q * (g * x) + g * y == g * (q * x + y)
  {
  }

  /** `Gcd(a, b)` is positive and at most `b` when `b` is positive. */
  lemma GcdBounds(a: nat, b: nat)
    requires b > 0
    ensures 0 < Gcd(a, b) <= b
  {
    var x, y := GcdDivides(a, b);
    var g := Gcd(a, b);
    if g > 0 {
      MulSign(g, y);
    }
  }

  /** get_min_optimal_block_count(block_size, cache_line): at least one block,
      and at least enough blocks to cover 64 MiB. */
  function MinOptimalBlockCount(blockSize: nat, cacheLine: nat): (r: nat)
    requires blockSize > 0 && cacheLine > 0
    ensures r >= 1 && r >= GROUP_BYTES / blockSize
  {
    var clmod := blockSize % cacheLine;
    var gcd := Gcd(clmod, cacheLine);
    GcdBounds(clmod, cacheLine);
    assert cacheLine / gcd >= 1 by {
      var x, y := GcdDivides(clmod, cacheLine);
      MulDiv(gcd, y);
      MulSign(gcd, y);
    }
    Max(GROUP_BYTES / blockSize, cacheLine / gcd)
  }

  /** The second term of the grouping: the number of blocks after which a group
      ends on a cache-line boundary. */
  function CacheLineBlocks(blockSize: nat, cacheLine: nat): nat
    requires cacheLine > 0
  {
    GcdBounds(blockSize % cacheLine, cacheLine);
    cacheLine / Gcd(blockSize % cacheLine, cacheLine)
  }

  /** The grouping is the larger of the 64 MiB term and the cache-line term. */
  lemma MinOptimalIsMax(blockSize: nat, cacheLine: nat)
    requires blockSize > 0 && cacheLine > 0
    ensures MinOptimalBlockCount(blockSize, cacheLine) >= CacheLineBlocks(blockSize, cacheLine)
    ensures MinOptimalBlockCount(blockSize, cacheLine) == GROUP_BYTES / blockSize
         || MinOptimalBlockCount(blockSize, cacheLine) == CacheLineBlocks(blockSize, cacheLine)
  {
  }

  /** A group of CacheLineBlocks blocks spans a whole number of cache lines. */
  lemma CacheLineBlocksAligned(blockSize: nat, cacheLine: nat)
    requires cacheLine > 0
    ensures (CacheLineBlocks(blockSize, cacheLine) * blockSize) % cacheLine == 0
  {
    var m := blockSize % cacheLine;
    GcdBounds(m, cacheLine);
    var y, x := GcdDivides(m, cacheLine);
    AlignedGroup(blockSize, cacheLine, Gcd(m, cacheLine), x, y);
  }

  /** With `g` dividing both the cache line (`g * x`) and the block size's
      remainder (`g * y`), `x` blocks span whole cache lines. */
  lemma AlignedGroup(blockSize: nat, cacheLine: nat, g: nat, x: nat, y: nat)
    requires g > 0 && cacheLine > 0 && cacheLine == g * x && blockSize % cacheLine == g * y
    ensures cacheLine / g == x && (x * blockSize) % cacheLine == 0
  {
    MulDiv(g, x);
    var q := blockSize / cacheLine;
    assert blockSize == q * cacheLine + g * y;
    AlignedProduct(x, q, g, y, cacheLine);
    MulDiv(cacheLine, x * q + y);
  }

  lemma AlignedProduct(x: nat, q: nat, g: nat, y: nat, cacheLine: nat)
    requires cacheLine == g * x
    ensures x * (q * cacheLine + g * y) == cacheLine * (x * q + y)
  {
    assert x * (g * y) == cacheLine * y;
  }

  /** For a block size that is a multiple of the cache line, the cache-line term is 1. */
  lemma MinOptimalForAlignedBlocks(blockSize: nat, cacheLine: nat)
    requires blockSize > 0 && cacheLine > 0 && blockSize % cacheLine == 0
    ensures MinOptimalBlockCount(blockSize, cacheLine) == Max(GROUP_BYTES / blockSize, 1)
  {
    assert Gcd(0, cacheLine) == Gcd(cacheLine, 0) == cacheLine;
  }

  /** `count`, with 0 replaced by `max(hardware_concurrency(), 1)`. */
  function RequestedCount(requested: Size, hardware: Uint): (r: Size)
    ensures r >= 1
    ensures requested != 0 ==> r == requested
    ensures requested == 0 ==> r == Max(hardware, 1)
  {
    if requested == 0 then Max(hardware, 1) else requested
  }

  /** set_thread_count(count) as written: line 49 takes std::min of the grouping
      and 1, so the cap is file_size / block_size / 1. The result is the request
      when that many blocks exist, otherwise the number of blocks (at least 1). */
  function ThreadCount(requested: Size, hardware: Uint, fileSize: Size, blockSize: Size, cacheLine: nat): (r: Size)
    requires blockSize > 0 && cacheLine > 0
    ensures r >= 1
    ensures r == Min(RequestedCount(requested, hardware), Max(fileSize / blockSize, 1))
    ensures RequestedCount(requested, hardware) <= fileSize / blockSize ==> r == RequestedCount(requested, hardware)
  {
    var minOptBlockCount := Min(MinOptimalBlockCount(blockSize, cacheLine), 1);
    var count := RequestedCount(requested, hardware);
    var maxWorkerCount := fileSize / blockSize / minOptBlockCount;
    if maxWorkerCount < count then Max(maxWorkerCount, 1) else count
  }

  /** The source's evident intent, as in line 69: divide by std::max of the
      grouping and 1, so that no more workers start than there are groups. */
  function ThreadCountByGroups(requested: Size, hardware: Uint, fileSize: Size, blockSize: Size, cacheLine: nat): (r: Size)
    requires blockSize > 0 && cacheLine > 0
    ensures r >= 1
    ensures r <= Max(fileSize / blockSize / MinOptimalBlockCount(blockSize, cacheLine), 1)
    ensures r == Min(RequestedCount(requested, hardware),
                     Max(fileSize / blockSize / MinOptimalBlockCount(blockSize, cacheLine), 1))
  {
    var minOptBlockCount := Max(MinOptimalBlockCount(blockSize, cacheLine), 1);
    var count := RequestedCount(requested, hardware);
    var maxWorkerCount := fileSize / blockSize / minOptBlockCount;
    if maxWorkerCount < count then Max(maxWorkerCount, 1) else count
  }

  /** The cap as written ignores the grouping: a 64 MiB file in 1 MiB blocks is
      one group of 64 blocks, yet a request for 4 threads is granted 4 workers. */
  lemma ThreadCountIgnoresGrouping()
    ensures MinOptimalBlockCount(1024 * 1024, CACHE_LINE) == 64
    ensures ThreadCount(4, 8, GROUP_BYTES, 1024 * 1024, CACHE_LINE) == 4
    ensures ThreadCountByGroups(4, 8, GROUP_BYTES, 1024 * 1024, CACHE_LINE) == 1
  {
    MinOptimalForAlignedBlocks(1024 * 1024, CACHE_LINE);
  }
}
