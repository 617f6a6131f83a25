/**
 * The access-pattern generator of `launchBenchmark` in mstream: which offset
 * each step of one pass touches, the direction of the step, and how many
 * steps a pass has.  This is the specification the imperative loop in
 * module Engine is proved against.
 */
module AccessPattern {
  import opened Common
  import Arith

  /** The arguments of one `launchBenchmark` call that shape its pattern. */
  datatype Pass = Pass(isRandom: bool, rank: nat, allocSize: uint64,
                       sizeB: uint64, chunkSize: uint64, padding: uint64)

  /** A pass terminates and its `% alloc_size` is defined. */
  predicate Runnable(p: Pass)
  {
    p.chunkSize > 0 && p.allocSize > 0
  }

  /** One generated step: where, how many bytes, which direction, and the
      step's position in the pass (`offset_b / chunk_size`). */
  datatype AccessOp = AccessOp(offset: nat, length: nat, isWrite: bool, step: nat)

  /** The seed `(drank + 1) * 921` stored into a `uint32_t`. */
  function InitialSeed(rank: nat): (s: uint32)
    ensures rank < 4663373 ==> s == (rank + 1) * 921
  {
    Wrap32((rank + 1) * 921)
  }

  /** `RAND_OFFSET`: the draw scaled by the chunk size in 64-bit unsigned
      arithmetic, reduced modulo the allocation size. */
  function RandOffset(draw: Draw, chunkSize: uint64, size: uint64): (r: nat)
    requires size > 0
    ensures r < size
  {
    Wrap64(draw * chunkSize) % size
  }

  /** The generator's mutable state: `offset` and `seed`. */
  datatype Cursor = Cursor(offset: nat, seed: uint32)

  /** State before the first step: a random pass discards one draw and takes
      its first offset from the second; a strided pass starts at offset 0. */
  function Start(p: Pass, rand: RandR): (c: Cursor)
    requires Runnable(p)
    ensures c.offset < p.allocSize
  {
    var seed := InitialSeed(p.rank);
    if p.isRandom then
      var discarded := rand(seed);
      var d := rand(discarded.next);
      Cursor(RandOffset(d.value, p.chunkSize, p.allocSize), d.next)
    else
      Cursor(0, seed)
  }

  /** State after a step: a fresh draw, or the offset advanced by `padding`
      (in 64-bit unsigned arithmetic) modulo the allocation size. */
  function Advance(p: Pass, rand: RandR, c: Cursor): (c': Cursor)
    requires Runnable(p)
    ensures c'.offset < p.allocSize
    ensures !p.isRandom ==> c'.seed == c.seed
  {
    if p.isRandom then
      var d := rand(c.seed);
      Cursor(RandOffset(d.value, p.chunkSize, p.allocSize), d.next)
    else
      Cursor(Wrap64(c.offset + p.padding) % p.allocSize, c.seed)
  }

  /** State before step i. */
  function CursorAt(p: Pass, rand: RandR, i: nat): (c: Cursor)
    requires Runnable(p)
    ensures c.offset < p.allocSize
    decreases i
  {
    if i == 0 then Start(p, rand) else Advance(p, rand, CursorAt(p, rand, i - 1))
  }

  /** Number of iterations of `for (offset_b = 0; offset_b < size_b;
      offset_b += chunk_size)`, in closed form: the ceiling of sizeB / chunk. */
  function StepCount(sizeB: nat, chunk: nat): nat
    requires chunk > 0
  {
    (sizeB + chunk - 1) / chunk
  }

  /** Step i of a pass: writes on even steps, reads on odd steps. */
  function OpAt(p: Pass, rand: RandR, i: nat): AccessOp
    requires Runnable(p)
  {
    AccessOp(CursorAt(p, rand, i).offset, p.chunkSize, i % 2 == 0, i)
  }

  /** The whole operation stream of one pass. */
  function Pattern(p: Pass, rand: RandR): seq<AccessOp>
    requires Runnable(p)
  {
    seq(StepCount(p.sizeB, p.chunkSize), i requires 0 <= i => OpAt(p, rand, i))
  }

  /** The first i steps of a pass. */
  function PatternPrefix(p: Pass, rand: RandR, i: nat): seq<AccessOp>
    requires Runnable(p)
  {
    seq(i, j requires 0 <= j => OpAt(p, rand, j))
  }

  lemma PatternPrefixSnoc(p: Pass, rand: RandR, i: nat)
    requires Runnable(p)
    ensures PatternPrefix(p, rand, i + 1) == PatternPrefix(p, rand, i) + [OpAt(p, rand, i)]
  {
  }

  lemma PatternPrefixComplete(p: Pass, rand: RandR)
    requires Runnable(p)
    ensures PatternPrefix(p, rand, StepCount(p.sizeB, p.chunkSize)) == Pattern(p, rand)
  {
  }

  /** The cursor after step i, in the terms the loop computes it. */
  lemma CursorStep(p: Pass, rand: RandR, i: nat, offset: nat, seed: uint32)
    requires Runnable(p) && Cursor(offset, seed) == CursorAt(p, rand, i)
    ensures OpAt(p, rand, i) == AccessOp(offset, p.chunkSize, i % 2 == 0, i)
    ensures CursorAt(p, rand, i + 1) ==
              if p.isRandom then Cursor(RandOffset(rand(seed).value, p.chunkSize, p.allocSize), rand(seed).next)
              else Cursor(Wrap64(offset + p.padding) % p.allocSize, seed)
  {
  }

  /** The largest chunk size for which `rand_r() * chunk_size` cannot wrap
      at 64 bits (MAX_RANDOM_CHUNK * RAND_MAX < 2^64). */
  const MAX_RANDOM_CHUNK: nat := 0x2_0000_0004

  /** The offset arithmetic of pass p never wraps at 64 bits, and every
      offset it can produce is chunk-aligned inside the allocation. */
  predicate MemorySafe(p: Pass)
  {
    && Runnable(p)
    && p.allocSize % p.chunkSize == 0
    && (p.isRandom ==> p.chunkSize <= MAX_RANDOM_CHUNK)
    && (!p.isRandom ==> p.padding % p.chunkSize == 0 && p.allocSize + p.padding <= TWO_64)
  }

  // ---------------------------------------------------------------------
  // Properties of the generator
  // ---------------------------------------------------------------------

  /** Step i is executed by the loop exactly when i < StepCount: the loop
      condition `offset_b < size_b` with `offset_b == i * chunk_size`. */
  lemma StepCountIsLoopBound(sizeB: nat, chunk: nat, i: nat)
    requires chunk > 0
    ensures i * chunk < sizeB <==> i < StepCount(sizeB, chunk)
  {
    var n := StepCount(sizeB, chunk);
    var r := (sizeB + chunk - 1) % chunk;
    assert sizeB + chunk - 1 == n * chunk + r;
    if i < n {
      Arith.MulAtLeast(n - i, chunk);
      assert n * chunk - i * chunk == (n - i) * chunk;
    } else {
      if i > n {
        Arith.MulAtLeast(i - n, chunk);
        assert i * chunk - n * chunk == (i - n) * chunk;
      }
    }
  }

  /** When the chunk divides sizeB, a pass has exactly sizeB / chunk steps. */
  lemma StepCountOfMultiple(sizeB: nat, chunk: nat)
    requires chunk > 0 && sizeB % chunk == 0
    ensures StepCount(sizeB, chunk) == sizeB / chunk
    ensures StepCount(sizeB, chunk) * chunk == sizeB
  {
    var q := sizeB / chunk;
    assert sizeB == q * chunk;
    Arith.ModUnique(sizeB + chunk - 1, q, chunk - 1, chunk);
  }

  /** A strided pass visits offset (i * padding) mod alloc_size at step i,
      starting from 0, as long as `offset + padding` does not wrap. */
  lemma {:induction false} StridedOffset(p: Pass, rand: RandR, i: nat)
    requires Runnable(p) && !p.isRandom && p.allocSize + p.padding <= TWO_64
    ensures CursorAt(p, rand, i).offset == (i * p.padding) % p.allocSize
    ensures CursorAt(p, rand, i).seed == InitialSeed(p.rank)
  {
    if i > 0 {
      StridedOffset(p, rand, i - 1);
      var before := CursorAt(p, rand, i - 1);
      StridedAdvance(p, rand, before, CursorAt(p, rand, i));
      StrideStep(i, p.padding, p.allocSize, before.offset);
    }
  }

  /** A strided step, on a cursor already computed. */
  lemma StridedAdvance(p: Pass, rand: RandR, before: Cursor, after: Cursor)
    requires Runnable(p) && !p.isRandom && after == Advance(p, rand, before)
    ensures after == Cursor(Wrap64(before.offset + p.padding) % p.allocSize, before.seed)
  {
  }

  /** One stride from offset ((i-1)*padding) mod alloc lands on (i*padding) mod alloc. */
  lemma StrideStep(i: nat, padding: nat, alloc: nat, prev: nat)
    requires i > 0 && alloc > 0 && prev < alloc && alloc + padding <= TWO_64
    requires prev == ((i - 1) * padding) % alloc
    ensures Wrap64(prev + padding) % alloc == (i * padding) % alloc
  {
    var a := (i - 1) * padding;
    assert a + padding == i * padding;
    Arith.ModAddLeft(a, padding, alloc);
  }

  /** The sequential pass (padding == chunk, sizeB == alloc_size, chunk
      dividing alloc_size) visits the chunks 0, 1, 2, ... in order: step i
      is at offset i * chunk, and there is exactly one step per chunk. */
  lemma SequentialVisitsEachChunk(p: Pass, rand: RandR, i: nat)
    requires Runnable(p) && !p.isRandom && p.padding == p.chunkSize
    requires p.sizeB == p.allocSize && p.allocSize % p.chunkSize == 0
    requires p.allocSize + p.padding <= TWO_64
    ensures |Pattern(p, rand)| * p.chunkSize == p.allocSize
    ensures i < |Pattern(p, rand)| ==> Pattern(p, rand)[i].offset == i * p.chunkSize
  {
    StepCountOfMultiple(p.sizeB, p.chunkSize);
    if i < |Pattern(p, rand)| {
      StridedOffset(p, rand, i);
      StepCountIsLoopBound(p.sizeB, p.chunkSize, i);
      Arith.ModUnique(i * p.chunkSize, 0, i * p.chunkSize, p.allocSize);
    }
  }

  /** Every offset of a memory-safe pass is a multiple of the chunk size and
      leaves room for a whole chunk: the copy never leaves the buffer.  For a
      random pass this is because (r*c) mod (m*c) == c * (r mod m). */
  lemma CursorAligned(p: Pass, rand: RandR, i: nat)
    requires MemorySafe(p)
    ensures CursorAt(p, rand, i).offset % p.chunkSize == 0
    ensures CursorAt(p, rand, i).offset + p.chunkSize <= p.allocSize
  {
    if p.isRandom {
      RandomCursorAligned(p, rand, i);
    } else {
      StridedCursorAligned(p, rand, i);
    }
    Arith.AlignedFits(CursorAt(p, rand, i).offset, p.chunkSize, p.allocSize);
  }

  lemma RandomCursorAligned(p: Pass, rand: RandR, i: nat)
    requires MemorySafe(p) && p.isRandom
    ensures CursorAt(p, rand, i).offset % p.chunkSize == 0
  {
    RandomAtIsDraw(p, rand, i);
    var d: Draw :| RandOffset(d, p.chunkSize, p.allocSize) == CursorAt(p, rand, i).offset;
    RandomOffsetAligned(d, p.chunkSize, p.allocSize);
  }

  lemma {:induction false} StridedCursorAligned(p: Pass, rand: RandR, i: nat)
    requires MemorySafe(p) && !p.isRandom
    ensures CursorAt(p, rand, i).offset % p.chunkSize == 0
  {
    if i > 0 {
      StridedCursorAligned(p, rand, i - 1);
      var prev := CursorAt(p, rand, i - 1).offset;
      var sum: nat := prev + p.padding;
      Arith.AlignedSum(prev, p.padding, p.chunkSize);
      assert sum < TWO_64;
      assert CursorAt(p, rand, i).offset == Wrap64(sum) % p.allocSize;
      assert Wrap64(sum) == sum;
      Arith.AlignedMod(sum, p.chunkSize, p.allocSize);
    } else {
      assert CursorAt(p, rand, i).offset == 0;
      Arith.ModUnique(0, 0, 0, p.chunkSize);
    }
  }

  /** Every offset of a random pass is RAND_OFFSET of some draw. */
  lemma RandomAtIsDraw(p: Pass, rand: RandR, i: nat)
    requires Runnable(p) && p.isRandom
    ensures exists d: Draw :: RandOffset(d, p.chunkSize, p.allocSize) == CursorAt(p, rand, i).offset
  {
    if i == 0 {
      var d := rand(rand(InitialSeed(p.rank)).next);
      assert RandOffset(d.value, p.chunkSize, p.allocSize) == CursorAt(p, rand, i).offset;
    } else {
      var d := rand(CursorAt(p, rand, i - 1).seed);
      assert RandOffset(d.value, p.chunkSize, p.allocSize) == CursorAt(p, rand, i).offset;
    }
  }

  /** RAND_OFFSET without wrap-around is chunk * (draw mod (alloc / chunk)). */
  lemma RandomOffsetAligned(d: Draw, chunk: uint64, size: uint64)
    requires chunk > 0 && size > 0 && size % chunk == 0 && chunk <= MAX_RANDOM_CHUNK
    ensures RandOffset(d, chunk, size) == (d % (size / chunk)) * chunk
    ensures RandOffset(d, chunk, size) % chunk == 0
  {
    var m := size / chunk;
    assert size == m * chunk;
    assert d * chunk <= RAND_MAX * MAX_RANDOM_CHUNK by {
      assert d * chunk <= RAND_MAX * chunk;
      assert RAND_MAX * chunk <= RAND_MAX * MAX_RANDOM_CHUNK;
    }
    Arith.ScaledMod(d, m, chunk);
    Arith.ModUnique((d % m) * chunk, d % m, 0, chunk);
  }

  /** The random offset sequence depends only on the rank, the chunk size
      and the allocation size: neither the pass length nor the padding
      argument affects it. */
  lemma {:induction false} RandomCursorDeterminism(p: Pass, q: Pass, rand: RandR, i: nat)
    requires Runnable(p) && p.isRandom && q.isRandom
    requires q.rank == p.rank && q.chunkSize == p.chunkSize && q.allocSize == p.allocSize
    ensures CursorAt(p, rand, i) == CursorAt(q, rand, i)
  {
    if i > 0 {
      RandomCursorDeterminism(p, q, rand, i - 1);
    }
  }

  /** A shorter random pass (the first half of mixed mode) performs exactly
      the first steps of the full random pass. */
  lemma RandomPassIsPrefix(short: Pass, full: Pass, rand: RandR)
    requires Runnable(full) && full.isRandom && short.isRandom
    requires short.rank == full.rank && short.chunkSize == full.chunkSize
    requires short.allocSize == full.allocSize && short.sizeB <= full.sizeB
    ensures |Pattern(short, rand)| <= |Pattern(full, rand)|
    ensures Pattern(short, rand) == Pattern(full, rand)[..|Pattern(short, rand)|]
  {
    var n := |Pattern(short, rand)|;
    if n > |Pattern(full, rand)| {
      var i := |Pattern(full, rand)|;
      StepCountIsLoopBound(short.sizeB, short.chunkSize, i);
      StepCountIsLoopBound(full.sizeB, full.chunkSize, i);
    }
    forall i | 0 <= i < n
      ensures Pattern(short, rand)[i] == Pattern(full, rand)[i]
    {
      RandomCursorDeterminism(short, full, rand, i);
    }
  }
}
