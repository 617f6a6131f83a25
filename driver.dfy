/**
 * The benchmark driver in mstream's `main`: the argument-count guard, the
 * dynamic per-rank sizing rule, the mode dispatch and the iteration loop
 * that calls `launchBenchmark`, and the integer totals of the report.
 */
module Driver {
  import opened Common
  import opened AccessPattern
  import opened Engine
  import Arith

  const NUM_ITER_INIT: nat := 0
  const NUM_ITER: nat := 10
  const NUM_ITER_TOTAL: nat := NUM_ITER_INIT + NUM_ITER

  // Benchmark modes (enum BenchmarkType).
  const BENCHMARK_SEQUENTIAL: int := 0
  const BENCHMARK_PADDING: int := 1
  const BENCHMARK_PRANDOM: int := 2
  const BENCHMARK_MIXED: int := 3

  // ---------------------------------------------------------------------
  // Command line
  // ---------------------------------------------------------------------

  /** The integers `sscanf` reads from argv[1..8]. */
  datatype RawArgs = RawArgs(allocSize: uint64, segSize: uint64, chunkSize: uint64,
                             benchmark: int, impl: int, readFile: int, ptype: int,
                             isDynamic: int)

  /** The run parameters once the command line has been accepted. */
  datatype Settings = Settings(allocSize: uint64, segSize: uint64, chunkSize: uint64,
                               benchmark: int, impl: int, readFile: int, ptype: int,
                               isDynamic: int, folder: string)

  /** The guard at the top of `main` and the defaulted output folder: with
      fewer than 9 or more than 10 arguments `main` returns -1 and nothing
      else happens; otherwise the folder is argv[9] if present, else ".". */
  function ParseArguments(argc: int, raw: RawArgs, folderArg: string): (r: Result<Settings, int>)
    ensures r.Err? <==> argc < 9 || argc > 10
    ensures r.Err? ==> r.error == -1
    ensures r.Ok? ==> r.value.folder == (if argc == 10 then folderArg else ".")
    ensures r.Ok? ==> r.value.allocSize == raw.allocSize && r.value.segSize == raw.segSize
                      && r.value.chunkSize == raw.chunkSize
                      && r.value.benchmark == raw.benchmark && r.value.impl == raw.impl
                      && r.value.readFile == raw.readFile && r.value.ptype == raw.ptype
                      && r.value.isDynamic == raw.isDynamic
  {
    if argc < 9 || argc > 10 then Err(-1)
    else
      Ok(Settings(raw.allocSize, raw.segSize, raw.chunkSize, raw.benchmark, raw.impl,
                  raw.readFile, raw.ptype, raw.isDynamic, if argc > 9 then folderArg else "."))
  }

  // ---------------------------------------------------------------------
  // Dynamic sizing
  // ---------------------------------------------------------------------

  /** `x >> n` on a `size_t`, as repeated halving. */
  function ShiftRight(x: uint64, n: nat): (r: uint64)
    ensures r <= x
    decreases n
  {
    if n == 0 then x else ShiftRight(x, n - 1) / 2
  }

  function Pow2(n: nat): (p: nat)
    ensures p >= 1
  {
    if n == 0 then 1 else 2 * Pow2(n - 1)
  }

  /** C's `x >> n` on an unsigned operand (for n below its width) is
      division by 2^n, rounding down; so is the repeated halving. */
  lemma {:induction false} ShiftRightIsDivision(x: uint64, n: nat)
    ensures ShiftRight(x, n) == x / Pow2(n)
  {
    if n > 0 {
      ShiftRightIsDivision(x, n - 1);
      HalveQuotient(x, Pow2(n - 1));
    }
  }

  /** Halving a quotient divides by twice the divisor. */
  lemma HalveQuotient(x: nat, a: nat)
    requires a > 0
    ensures x / a / 2 == x / (2 * a)
  {
    var q, r := x / a, x % a;
    var hq, hr := q / 2, q % 2;
    assert x == q * a + r;
    assert q == hq * 2 + hr;
    assert x == hq * (2 * a) + (hr * a + r);
    assert hr * a + r < 2 * a;
    Arith.ModUnique(x, hq, hr * a + r, 2 * a);
  }

  const ONE_GIB: nat := 0x4000_0000

  /** `size = 1073741824 + (alloc_size >> rank)` in `size_t` arithmetic and
      `alloc_size = min(alloc_size, size)`. */
  function DynamicAllocSize(alloc: uint64, rank: nat): (r: uint64)
    ensures r <= alloc
    ensures alloc + ONE_GIB < TWO_64 ==> r == alloc || r >= ONE_GIB
  {
    var size := Wrap64(ONE_GIB + ShiftRight(alloc, rank));
    if size > alloc then alloc else size
  }

  /** The allocation size a rank uses: reduced only when `is_dynamic` is set. */
  function RankAllocSize(isDynamic: int, alloc: uint64, rank: nat): (r: uint64)
    ensures r <= alloc
    ensures isDynamic == 0 ==> r == alloc
  {
    if isDynamic != 0 then DynamicAllocSize(alloc, rank) else alloc
  }

  /** Rank 0 keeps the requested size, unless 2^30 + alloc wraps at 64 bits. */
  lemma DynamicSizeOfRankZero(alloc: uint64)
    requires alloc + ONE_GIB < TWO_64
    ensures DynamicAllocSize(alloc, 0) == alloc
  {
  }

  /** Near the top of the 64-bit range the sum wraps and even rank 0 is cut
      down: 2^64 - 1 bytes become 2^30 - 1. */
  lemma DynamicSizeWrapsNearTop()
    ensures DynamicAllocSize(TWO_64 - 1, 0) == ONE_GIB - 1
  {
  }

  /** Higher ranks never get more memory than lower ranks. */
  lemma DynamicSizeShrinksWithRank(alloc: uint64, rank: nat)
    requires alloc + ONE_GIB < TWO_64
    ensures DynamicAllocSize(alloc, rank + 1) <= DynamicAllocSize(alloc, rank)
  {
    assert ShiftRight(alloc, rank + 1) <= ShiftRight(alloc, rank);
  }

  // ---------------------------------------------------------------------
  // Mode dispatch
  // ---------------------------------------------------------------------

  /** `chunk_size << 1` on a `size_t`. */
  function DoubleChunk(chunk: uint64): uint64
  {
    Wrap64(chunk * 2)
  }

  // The `launchBenchmark` calls of each mode.
  function SequentialPass(rank: nat, alloc: uint64, chunk: uint64): Pass
  {
    Pass(false, rank, alloc, alloc, chunk, chunk)
  }

  function PaddingPass(rank: nat, alloc: uint64, chunk: uint64): Pass
  {
    Pass(false, rank, alloc, alloc, chunk, DoubleChunk(chunk))
  }

  function RandomPass(rank: nat, alloc: uint64, chunk: uint64): Pass
  {
    Pass(true, rank, alloc, alloc, chunk, 0)
  }

  function MixedRandomHalf(rank: nat, alloc: uint64, chunk: uint64): Pass
  {
    Pass(true, rank, alloc, alloc / 2, chunk, 0)
  }

  function MixedPaddingHalf(rank: nat, alloc: uint64, chunk: uint64): Pass
  {
    Pass(false, rank, alloc, alloc / 2, chunk, DoubleChunk(chunk))
  }

  /** The `launchBenchmark` calls one iteration makes, per mode. */
  function ModePasses(benchmark: int, rank: nat, alloc: uint64, chunk: uint64): seq<Pass>
  {
    if benchmark == BENCHMARK_SEQUENTIAL then
      [SequentialPass(rank, alloc, chunk)]
    else if benchmark == BENCHMARK_PADDING then
      [PaddingPass(rank, alloc, chunk)]
    else if benchmark == BENCHMARK_PRANDOM then
      [RandomPass(rank, alloc, chunk)]
    else if benchmark == BENCHMARK_MIXED then
      [MixedRandomHalf(rank, alloc, chunk),
       MixedPaddingHalf(rank, alloc, chunk)]
    else
      []
  }

  /** A mode that calls `launchBenchmark` needs a non-zero chunk (or its loop
      never ends) and a non-zero allocation (or `% alloc_size` is undefined). */
  predicate ModeRunnable(benchmark: int, alloc: uint64, chunk: uint64)
  {
    BENCHMARK_SEQUENTIAL <= benchmark <= BENCHMARK_MIXED ==> chunk > 0 && alloc > 0
  }

  predicate AllRunnable(ps: seq<Pass>)
  {
    forall i :: 0 <= i < |ps| ==> Runnable(ps[i])
  }

  /** The operation streams of ps, one after the other. */
  function Passes(ps: seq<Pass>, rand: RandR): seq<AccessOp>
    requires AllRunnable(ps)
    decreases |ps|
  {
    if ps == [] then [] else
      assert AllRunnable(ps[..|ps| - 1]);
      Passes(ps[..|ps| - 1], rand) + Pattern(ps[|ps| - 1], rand)
  }

  lemma PassesOfOne(p: Pass, rand: RandR)
    requires Runnable(p)
    ensures Passes([p], rand) == Pattern(p, rand)
  {
    assert [p][..0] == [];
  }

  lemma PassesOfTwo(p: Pass, q: Pass, rand: RandR)
    requires Runnable(p) && Runnable(q)
    ensures Passes([p, q], rand) == Pattern(p, rand) + Pattern(q, rand)
  {
    assert [p, q][..1] == [p];
    PassesOfOne(p, rand);
  }

  /** The trace of one iteration, pass by pass. */
  lemma ModeTraceUnfold(benchmark: int, rank: nat, alloc: uint64, chunk: uint64, rand: RandR)
    requires ModeRunnable(benchmark, alloc, chunk)
    ensures benchmark == BENCHMARK_SEQUENTIAL ==>
              ModeTrace(benchmark, rank, alloc, chunk, rand) == Pattern(SequentialPass(rank, alloc, chunk), rand)
    ensures benchmark == BENCHMARK_PADDING ==>
              ModeTrace(benchmark, rank, alloc, chunk, rand) == Pattern(PaddingPass(rank, alloc, chunk), rand)
    ensures benchmark == BENCHMARK_PRANDOM ==>
              ModeTrace(benchmark, rank, alloc, chunk, rand) == Pattern(RandomPass(rank, alloc, chunk), rand)
    ensures benchmark == BENCHMARK_MIXED ==>
              ModeTrace(benchmark, rank, alloc, chunk, rand) ==
                Pattern(MixedRandomHalf(rank, alloc, chunk), rand) +
                Pattern(MixedPaddingHalf(rank, alloc, chunk), rand)
    ensures !(BENCHMARK_SEQUENTIAL <= benchmark <= BENCHMARK_MIXED) ==>
              ModeTrace(benchmark, rank, alloc, chunk, rand) == []
  {
    var ps := ModePasses(benchmark, rank, alloc, chunk);
    if |ps| == 1 {
      PassesOfOne(ps[0], rand);
    } else if |ps| == 2 {
      PassesOfTwo(ps[0], ps[1], rand);
    }
  }

  /** Every operation one iteration issues. */
  function ModeTrace(benchmark: int, rank: nat, alloc: uint64, chunk: uint64, rand: RandR): seq<AccessOp>
    requires ModeRunnable(benchmark, alloc, chunk)
  {
    Passes(ModePasses(benchmark, rank, alloc, chunk), rand)
  }

  /** s repeated n times. */
  function Repeat<T>(s: seq<T>, n: nat): seq<T>
  {
    if n == 0 then [] else Repeat(s, n - 1) + s
  }

  /** n repetitions of s are n * |s| elements long. */
  lemma {:induction false} RepeatLength<T>(s: seq<T>, n: nat)
    ensures |Repeat(s, n)| == n * |s|
  {
    if n > 0 {
      RepeatLength(s, n - 1);
      assert n * |s| == (n - 1) * |s| + |s|;
    }
  }

  /** All passes of a mode stay inside the buffer on the in-process backends. */
  predicate ModeMemorySafe(benchmark: int, rank: nat, alloc: uint64, chunk: uint64)
  {
    forall i :: 0 <= i < |ModePasses(benchmark, rank, alloc, chunk)| ==>
                  MemorySafe(ModePasses(benchmark, rank, alloc, chunk)[i])
  }

  lemma ConcatFits(a: seq<AccessOp>, b: seq<AccessOp>, baseLen: nat, scratchLen: nat)
    requires AllFit(a, baseLen, scratchLen) && AllFit(b, baseLen, scratchLen)
    ensures AllFit(a + b, baseLen, scratchLen)
  {
    assert forall i :: 0 <= i < |a + b| ==> (a + b)[i] == if i < |a| then a[i] else b[i - |a|];
  }

  /** Every op of a stream repeated n times fits, if every op of the stream does. */
  lemma {:induction false} RepeatFits(s: seq<AccessOp>, n: nat, baseLen: nat, scratchLen: nat)
    requires AllFit(s, baseLen, scratchLen)
    ensures AllFit(Repeat(s, n), baseLen, scratchLen)
  {
    if n > 0 {
      RepeatFits(s, n - 1, baseLen, scratchLen);
      ConcatFits(Repeat(s, n - 1), s, baseLen, scratchLen);
    }
  }

  /** One more repetition of a stream applies the stream once more. */
  lemma RepeatStepEffect(s: seq<AccessOp>, n: nat, m: Buffers, verify: bool)
    requires AllFit(s, |m.base|, |m.scratch|)
    ensures AllFit(Repeat(s, n), |m.base|, |m.scratch|)
    ensures AllFit(Repeat(s, n + 1), |m.base|, |m.scratch|)
    ensures ExecOps(Repeat(s, n + 1), m, verify) == ExecOps(s, ExecOps(Repeat(s, n), m, verify), verify)
  {
    RepeatFits(s, n, |m.base|, |m.scratch|);
    RepeatFits(s, n + 1, |m.base|, |m.scratch|);
    ExecOpsAppend(Repeat(s, n), s, m, verify);
  }

  /** Every call j of ps may run on the buffer, and scratchInits[j] is a
      chunk-sized scratch buffer for it. */
  predicate LaunchesFit(ps: seq<Pass>, baseLen: nat, scratchInits: seq<seq<uint8>>)
  {
    && |scratchInits| == |ps|
    && forall j :: 0 <= j < |ps| ==>
         MemorySafe(ps[j]) && ps[j].allocSize == baseLen && |scratchInits[j]| == ps[j].chunkSize
  }

  /** `baseptr` after the calls ps in order, call j on a newly allocated
      scratch buffer that starts out holding scratchInits[j]. */
  function Launches(ps: seq<Pass>, rand: RandR, base: seq<uint8>, scratchInits: seq<seq<uint8>>,
                    verify: bool): (r: seq<uint8>)
    requires LaunchesFit(ps, |base|, scratchInits)
    ensures |r| == |base|
    decreases |ps|
  {
    if ps == [] then base
    else
      var n := |ps| - 1;
      assert LaunchesFit(ps[..n], |base|, scratchInits[..n]);
      Launch(ps[n], rand, Launches(ps[..n], rand, base, scratchInits[..n], verify), scratchInits[n], verify)
  }

  /** A chunk-sized scratch buffer for each of the calls of every iteration. */
  predicate ScratchSizes(scratchInits: seq<seq<seq<uint8>>>, calls: nat, chunk: nat)
  {
    forall i :: 0 <= i < |scratchInits| ==>
      |scratchInits[i]| == calls && forall j :: 0 <= j < calls ==> |scratchInits[i][j]| == chunk
  }

  predicate IterationsFit(ps: seq<Pass>, baseLen: nat, scratchInits: seq<seq<seq<uint8>>>)
  {
    forall i :: 0 <= i < |scratchInits| ==> LaunchesFit(ps, baseLen, scratchInits[i])
  }

  /** `baseptr` after |scratchInits| iterations of the calls ps, iteration i
      using the scratch contents scratchInits[i]. */
  function Iterations(ps: seq<Pass>, rand: RandR, base: seq<uint8>, scratchInits: seq<seq<seq<uint8>>>,
                      verify: bool): (r: seq<uint8>)
    requires IterationsFit(ps, |base|, scratchInits)
    ensures |r| == |base|
    decreases |scratchInits|
  {
    if scratchInits == [] then base
    else
      var n := |scratchInits| - 1;
      assert IterationsFit(ps, |base|, scratchInits[..n]);
      Launches(ps, rand, Iterations(ps, rand, base, scratchInits[..n], verify), scratchInits[n], verify)
  }

  /** One more iteration launches the calls once more. */
  lemma IterationsStep(ps: seq<Pass>, rand: RandR, base: seq<uint8>, scratchInits: seq<seq<seq<uint8>>>,
                       i: nat, verify: bool)
    requires i < |scratchInits|
    requires IterationsFit(ps, |base|, scratchInits[..i]) && LaunchesFit(ps, |base|, scratchInits[i])
    ensures IterationsFit(ps, |base|, scratchInits[..i + 1])
    ensures Iterations(ps, rand, base, scratchInits[..i + 1], verify) ==
              Launches(ps, rand, Iterations(ps, rand, base, scratchInits[..i], verify), scratchInits[i], verify)
  {
    assert scratchInits[..i + 1][..i] == scratchInits[..i];
  }

  /** The calls of a memory-safe mode fit a buffer of alloc_size bytes. */
  lemma ModeLaunchesFit(benchmark: int, rank: nat, alloc: uint64, chunk: uint64, scratchInits: seq<seq<uint8>>)
    requires ModeMemorySafe(benchmark, rank, alloc, chunk)
    requires ScratchSizes([scratchInits], |ModePasses(benchmark, rank, alloc, chunk)|, chunk)
    ensures LaunchesFit(ModePasses(benchmark, rank, alloc, chunk), alloc, scratchInits)
  {
    assert [scratchInits][0] == scratchInits;
  }

  lemma LaunchesOfTwo(p: Pass, q: Pass, rand: RandR, base: seq<uint8>, s1: seq<uint8>, s2: seq<uint8>, verify: bool)
    requires MemorySafe(p) && p.allocSize == |base| && |s1| == p.chunkSize
    requires MemorySafe(q) && q.allocSize == |base| && |s2| == q.chunkSize
    ensures LaunchesFit([p, q], |base|, [s1, s2])
    ensures Launches([p, q], rand, base, [s1, s2], verify) ==
              Launch(q, rand, Launch(p, rand, base, s1, verify), s2, verify)
  {
    assert LaunchesFit([p, q], |base|, [s1, s2]);
    assert [p, q][..1] == [p] && [s1, s2][..1] == [s1];
    assert [p][..0] == [] && [s1][..0] == [];
    assert Launches([p], rand, base, [s1], verify) == Launch(p, rand, base, s1, verify);
  }

  /** One iteration of the loop in `main`: the switch on the benchmark mode.
      Any mode outside 0..3 issues nothing.  scratchInits holds one scratch
      buffer's initial contents per `launchBenchmark` call. */
  method RunMode(impl: int, base: array<uint8>, scratchInits: seq<seq<uint8>>, rand: RandR,
                 benchmark: int, rank: nat, alloc: uint64, chunk: uint64, verify: bool)
    returns (issued: seq<AccessOp>)
    requires ModeRunnable(benchmark, alloc, chunk)
    requires ScratchSizes([scratchInits], |ModePasses(benchmark, rank, alloc, chunk)|, chunk)
    requires IsMemoryImpl(impl) ==> base.Length == alloc && ModeMemorySafe(benchmark, rank, alloc, chunk)
    modifies base
    ensures issued == ModeTrace(benchmark, rank, alloc, chunk, rand)
    ensures IsMemoryImpl(impl) ==> AllFit(issued, base.Length, chunk)
    ensures IsMemoryImpl(impl) ==>
              && LaunchesFit(ModePasses(benchmark, rank, alloc, chunk), base.Length, scratchInits)
              && base[..] == Launches(ModePasses(benchmark, rank, alloc, chunk), rand, old(base[..]),
                                      scratchInits, verify)
  {
    ghost var ps := ModePasses(benchmark, rank, alloc, chunk);
    assert [scratchInits][0] == scratchInits;
    if IsMemoryImpl(impl) {
      ModeLaunchesFit(benchmark, rank, alloc, chunk, scratchInits);
    }
    ModeTraceUnfold(benchmark, rank, alloc, chunk, rand);
    if BENCHMARK_SEQUENTIAL <= benchmark <= BENCHMARK_PRANDOM {
      var p := if benchmark == BENCHMARK_SEQUENTIAL then SequentialPass(rank, alloc, chunk)
               else if benchmark == BENCHMARK_PADDING then PaddingPass(rank, alloc, chunk)
               else RandomPass(rank, alloc, chunk);
      assert ps == [p];
      issued := LaunchBenchmark(impl, base, scratchInits[0], rand, p, verify);
      assert ps[..0] == [] && scratchInits[..0] == [];
    } else if benchmark == BENCHMARK_MIXED {
      issued := RunMixed(impl, base, scratchInits[0], scratchInits[1], rand, rank, alloc, chunk, verify);
      assert scratchInits == [scratchInits[0], scratchInits[1]];
      if IsMemoryImpl(impl) {
        LaunchesOfTwo(ps[0], ps[1], rand, old(base[..]), scratchInits[0], scratchInits[1], verify);
      }
    } else {
      issued := [];
    }
  }

  /** The mixed-mode case of the switch: a random pass over half the
      steps followed by a padding pass over half the steps, each on its own
      newly allocated scratch buffer. */
  method RunMixed(impl: int, base: array<uint8>, first: seq<uint8>, second: seq<uint8>, rand: RandR,
                  rank: nat, alloc: uint64, chunk: uint64, verify: bool)
    returns (issued: seq<AccessOp>)
    requires chunk > 0 && alloc > 0 && |first| == chunk && |second| == chunk
    requires IsMemoryImpl(impl) ==> base.Length == alloc && MemorySafe(MixedRandomHalf(rank, alloc, chunk))
                                    && MemorySafe(MixedPaddingHalf(rank, alloc, chunk))
    modifies base
    ensures issued == Pattern(MixedRandomHalf(rank, alloc, chunk), rand) + Pattern(MixedPaddingHalf(rank, alloc, chunk), rand)
    ensures IsMemoryImpl(impl) ==> AllFit(issued, base.Length, chunk)
    ensures IsMemoryImpl(impl) ==>
              base[..] == Launch(MixedPaddingHalf(rank, alloc, chunk), rand,
                                 Launch(MixedRandomHalf(rank, alloc, chunk), rand, old(base[..]), first, verify),
                                 second, verify)
  {
    var randomHalf := LaunchBenchmark(impl, base, first, rand, MixedRandomHalf(rank, alloc, chunk), verify);
    var paddingHalf := LaunchBenchmark(impl, base, second, rand, MixedPaddingHalf(rank, alloc, chunk), verify);
    issued := randomHalf + paddingHalf;
    if IsMemoryImpl(impl) {
      ConcatFits(randomHalf, paddingHalf, base.Length, chunk);
    }
  }

  /**
   * The loop `for (iteration = 0; iteration < NUM_ITER_TOTAL; iteration++)`
   * of `main`.  `timedFrom` is the iteration at which the timer is started;
   * scratchInits[i][j] is the initial content of the scratch buffer of
   * call j in iteration i.
   */
  method BenchmarkLoop(impl: int, base: array<uint8>, scratchInits: seq<seq<seq<uint8>>>, rand: RandR,
                       benchmark: int, rank: nat, alloc: uint64, chunk: uint64, verify: bool)
    returns (issued: seq<AccessOp>, timedFrom: int)
    requires ModeRunnable(benchmark, alloc, chunk)
    requires |scratchInits| == NUM_ITER_TOTAL
    requires ScratchSizes(scratchInits, |ModePasses(benchmark, rank, alloc, chunk)|, chunk)
    requires IsMemoryImpl(impl) ==> base.Length == alloc && ModeMemorySafe(benchmark, rank, alloc, chunk)
    modifies base
    ensures issued == Repeat(ModeTrace(benchmark, rank, alloc, chunk, rand), NUM_ITER_TOTAL)
    ensures timedFrom == NUM_ITER_INIT
    ensures IsMemoryImpl(impl) ==> AllFit(issued, base.Length, chunk)
    ensures IsMemoryImpl(impl) ==>
              && IterationsFit(ModePasses(benchmark, rank, alloc, chunk), base.Length, scratchInits)
              && base[..] == Iterations(ModePasses(benchmark, rank, alloc, chunk), rand, old(base[..]),
                                        scratchInits, verify)
  {
    ghost var base0 := base[..];
    ghost var ps := ModePasses(benchmark, rank, alloc, chunk);
    ghost var trace := ModeTrace(benchmark, rank, alloc, chunk, rand);
    issued := [];
    timedFrom := -1;
    var iteration: nat := 0;
    while iteration < NUM_ITER_TOTAL
      invariant iteration <= NUM_ITER_TOTAL
      invariant issued == Repeat(trace, iteration)
      invariant timedFrom == if iteration > NUM_ITER_INIT then NUM_ITER_INIT else -1
      invariant IsMemoryImpl(impl) ==>
                  && AllFit(issued, base.Length, chunk)
                  && IterationsFit(ps, base.Length, scratchInits[..iteration])
                  && base[..] == Iterations(ps, rand, base0, scratchInits[..iteration], verify)
    {
      if iteration == NUM_ITER_INIT {
        timedFrom := iteration;
      }
      assert ScratchSizes([scratchInits[iteration]], |ps|, chunk);
      var pass := RunMode(impl, base, scratchInits[iteration], rand, benchmark, rank, alloc, chunk, verify);
      if IsMemoryImpl(impl) {
        RepeatFits(trace, iteration + 1, base.Length, chunk);
        IterationsStep(ps, rand, base0, scratchInits, iteration, verify);
      }
      issued := issued + pass;
      iteration := iteration + 1;
    }
    assert scratchInits[..NUM_ITER_TOTAL] == scratchInits;
  }

  // ---------------------------------------------------------------------
  // With VERIFY_OUTPUT on, the result is one stream on one buffer
  // ---------------------------------------------------------------------

  /** With VERIFY_OUTPUT on, the calls ps leave `baseptr` exactly as one
      stream of all their operations on a single scratch buffer would,
      whatever each newly allocated scratch buffer held. */
  lemma {:induction false} VerifiedLaunchesAreOneStream(ps: seq<Pass>, rand: RandR, base: seq<uint8>,
                                                      scratchInits: seq<seq<uint8>>, s: seq<uint8>)
    requires LaunchesFit(ps, |base|, scratchInits)
    requires forall j :: 0 <= j < |ps| ==> ps[j].chunkSize == |s|
    ensures AllRunnable(ps) && AllFit(Passes(ps, rand), |base|, |s|)
    ensures Launches(ps, rand, base, scratchInits, true) == ExecOps(Passes(ps, rand), Buffers(base, s), true).base
    decreases |ps|
  {
    if ps != [] {
      var n := |ps| - 1;
      assert LaunchesFit(ps[..n], |base|, scratchInits[..n]);
      VerifiedLaunchesAreOneStream(ps[..n], rand, base, scratchInits[..n], s);
      VerifiedLaunchStep(ps[n], rand, Passes(ps[..n], rand), base, s, scratchInits[n]);
    }
  }

  /** With VERIFY_OUTPUT on, launching one more pass on a new scratch
      buffer continues the single stream. */
  lemma VerifiedLaunchStep(last: Pass, rand: RandR, prior: seq<AccessOp>, base: seq<uint8>,
                           s: seq<uint8>, scratchInit: seq<uint8>)
    requires AllFit(prior, |base|, |s|)
    requires MemorySafe(last) && last.allocSize == |base| && last.chunkSize == |s| && |scratchInit| == |s|
    ensures AllFit(prior + Pattern(last, rand), |base|, |s|)
    ensures Launch(last, rand, ExecOps(prior, Buffers(base, s), true).base, scratchInit, true) ==
              ExecOps(prior + Pattern(last, rand), Buffers(base, s), true).base
  {
    var x := ExecOps(prior, Buffers(base, s), true);
    PatternFits(last, rand);
    ConcatFits(prior, Pattern(last, rand), |base|, |s|);
    ExecOpsAppend(prior, Pattern(last, rand), Buffers(base, s), true);
    if Pattern(last, rand) != [] {
      VerifiedIgnoresScratch(Pattern(last, rand), x.base, scratchInit, x.scratch);
    }
  }

  /** With VERIFY_OUTPUT on, the whole benchmark loop leaves `baseptr` as the
      repeated trace run on one scratch buffer, whatever `malloc` returned. */
  lemma {:induction false} VerifiedIterationsAreOneStream(ps: seq<Pass>, rand: RandR, base: seq<uint8>,
                                                        scratchInits: seq<seq<seq<uint8>>>, s: seq<uint8>)
    requires IterationsFit(ps, |base|, scratchInits)
    requires forall j :: 0 <= j < |ps| ==> ps[j].chunkSize == |s|
    requires forall j :: 0 <= j < |ps| ==> MemorySafe(ps[j]) && ps[j].allocSize == |base|
    ensures AllRunnable(ps) && AllFit(Repeat(Passes(ps, rand), |scratchInits|), |base|, |s|)
    ensures Iterations(ps, rand, base, scratchInits, true) ==
              ExecOps(Repeat(Passes(ps, rand), |scratchInits|), Buffers(base, s), true).base
    decreases |scratchInits|
  {
    var sample := seq(|ps|, j requires 0 <= j < |ps| => s);
    assert LaunchesFit(ps, |base|, sample);
    VerifiedLaunchesAreOneStream(ps, rand, base, sample, s);
    var trace := Passes(ps, rand);
    RepeatFits(trace, |scratchInits|, |base|, |s|);
    if scratchInits != [] {
      var n := |scratchInits| - 1;
      assert IterationsFit(ps, |base|, scratchInits[..n]);
      VerifiedIterationsAreOneStream(ps, rand, base, scratchInits[..n], s);
      var y := ExecOps(Repeat(trace, n), Buffers(base, s), true);
      VerifiedLaunchesAreOneStream(ps, rand, y.base, scratchInits[n], y.scratch);
      RepeatStepEffect(trace, n, Buffers(base, s), true);
    }
  }

  // ---------------------------------------------------------------------
  // Properties of the dispatch
  // ---------------------------------------------------------------------

  /** Operation count of one iteration per mode: one full pass for modes
      0-2, two passes over alloc_size >> 1 for mixed mode, none otherwise. */
  lemma ModeStepCount(benchmark: int, rank: nat, alloc: uint64, chunk: uint64, rand: RandR)
    requires ModeRunnable(benchmark, alloc, chunk)
    ensures BENCHMARK_SEQUENTIAL <= benchmark <= BENCHMARK_PRANDOM ==>
              |ModeTrace(benchmark, rank, alloc, chunk, rand)| == StepCount(alloc, chunk)
    ensures benchmark == BENCHMARK_MIXED ==>
              |ModeTrace(benchmark, rank, alloc, chunk, rand)| == 2 * StepCount(alloc / 2, chunk)
    ensures !(BENCHMARK_SEQUENTIAL <= benchmark <= BENCHMARK_MIXED) ==>
              ModeTrace(benchmark, rank, alloc, chunk, rand) == []
  {
    ModeTraceUnfold(benchmark, rank, alloc, chunk, rand);
  }

  /** Mixed mode's random half repeats the start of the full random pass
      (same seed, same draws), its padding half (padding twice the chunk)
      restarts at offset 0, and both halves stay below the whole
      alloc_size, since each is taken modulo alloc_size. */
  lemma MixedModeShape(rank: nat, alloc: uint64, chunk: uint64, rand: RandR)
    requires chunk > 0 && alloc > 0
    ensures |Pattern(MixedRandomHalf(rank, alloc, chunk), rand)| <= |Pattern(RandomPass(rank, alloc, chunk), rand)|
    ensures var half := Pattern(MixedRandomHalf(rank, alloc, chunk), rand);
            half == Pattern(RandomPass(rank, alloc, chunk), rand)[..|half|]
    ensures var half := Pattern(MixedPaddingHalf(rank, alloc, chunk), rand);
            |half| > 0 ==> half[0].offset == 0
    ensures var trace := ModeTrace(BENCHMARK_MIXED, rank, alloc, chunk, rand);
            forall i :: 0 <= i < |trace| ==> trace[i].offset < alloc
  {
    RandomPassIsPrefix(MixedRandomHalf(rank, alloc, chunk), RandomPass(rank, alloc, chunk), rand);
    MixedOffsetsBelow(rank, alloc, chunk, rand);
  }

  lemma MixedOffsetsBelow(rank: nat, alloc: uint64, chunk: uint64, rand: RandR)
    requires chunk > 0 && alloc > 0
    ensures var trace := ModeTrace(BENCHMARK_MIXED, rank, alloc, chunk, rand);
            forall i :: 0 <= i < |trace| ==> trace[i].offset < alloc
  {
    ModeTraceUnfold(BENCHMARK_MIXED, rank, alloc, chunk, rand);
    ConcatOffsetsBelow(Pattern(MixedRandomHalf(rank, alloc, chunk), rand),
                       Pattern(MixedPaddingHalf(rank, alloc, chunk), rand), alloc);
  }

  lemma ConcatOffsetsBelow(a: seq<AccessOp>, b: seq<AccessOp>, bound: nat)
    requires forall i :: 0 <= i < |a| ==> a[i].offset < bound
    requires forall i :: 0 <= i < |b| ==> b[i].offset < bound
    ensures forall i :: 0 <= i < |a + b| ==> (a + b)[i].offset < bound
  {
    assert forall i :: 0 <= i < |a + b| ==> (a + b)[i] == if i < |a| then a[i] else b[i - |a|];
  }

  /** The two halves of mixed mode cover alloc_size / chunk_size steps in
      total when twice the chunk divides alloc_size. */
  lemma MixedModeSplitsEvenly(rank: nat, alloc: uint64, chunk: uint64, rand: RandR)
    requires chunk > 0 && alloc > 0 && alloc % (2 * chunk) == 0
    ensures |ModeTrace(BENCHMARK_MIXED, rank, alloc, chunk, rand)| == alloc / chunk
  {
    ModeStepCount(BENCHMARK_MIXED, rank, alloc, chunk, rand);
    HalfSteps(alloc, chunk);
  }

  /** Two half passes of ceil((alloc >> 1) / chunk) steps make alloc / chunk
      steps when 2 * chunk divides alloc. */
  lemma HalfSteps(alloc: nat, chunk: nat)
    requires chunk > 0 && alloc % (2 * chunk) == 0
    ensures 2 * StepCount(alloc / 2, chunk) == alloc / chunk
  {
    var k := alloc / (2 * chunk);
    assert alloc == k * (2 * chunk);
    assert alloc / 2 == k * chunk;
    Arith.ModUnique(alloc / 2, k, 0, chunk);
    StepCountOfMultiple(alloc / 2, chunk);
    Arith.ModUnique(alloc, 2 * k, 0, chunk);
  }

  /** When the chunk divides alloc_size, the two halves of mixed mode make
      alloc_size / chunk_size steps exactly when twice the chunk divides
      alloc_size; otherwise they make one step more or one step fewer. */
  lemma MixedModeTotalIff(rank: nat, alloc: uint64, chunk: uint64, rand: RandR)
    requires chunk > 0 && alloc > 0 && alloc % chunk == 0
    ensures (|ModeTrace(BENCHMARK_MIXED, rank, alloc, chunk, rand)| == alloc / chunk) <==> alloc % (2 * chunk) == 0
  {
    ModeStepCount(BENCHMARK_MIXED, rank, alloc, chunk, rand);
    if alloc % (2 * chunk) == 0 {
      HalfSteps(alloc, chunk);
    } else {
      UnevenHalfSteps(alloc, chunk);
    }
  }

  /** An odd number of chunks splits into halves of ceil((alloc >> 1) / chunk)
      steps that do not add up to alloc / chunk. */
  lemma UnevenHalfSteps(alloc: nat, chunk: nat)
    requires chunk > 0 && alloc % chunk == 0 && alloc % (2 * chunk) != 0
    ensures 2 * StepCount(alloc / 2, chunk) != alloc / chunk
  {
    var q := alloc / chunk;
    assert alloc == q * chunk;
    var k := q / 2;
    if q % 2 == 0 {
      assert q == 2 * k;
      assert alloc == k * (2 * chunk);
      Arith.ModUnique(alloc, k, 0, 2 * chunk);
      assert false;
    }
    assert q == 2 * k + 1;
    var h := chunk / 2;
    assert alloc == 2 * (k * chunk + h) + chunk % 2;
    Arith.ModUnique(alloc, k * chunk + h, chunk % 2, 2);
    assert alloc / 2 == k * chunk + h;
    if chunk == 1 {
      assert StepCount(alloc / 2, chunk) == k;
    } else {
      assert alloc / 2 + chunk - 1 == (k + 1) * chunk + (h - 1);
      Arith.ModUnique(alloc / 2 + chunk - 1, k + 1, h - 1, chunk);
      assert StepCount(alloc / 2, chunk) == k + 1;
    }
  }

  /** Within every pass of every mode, step i is a write exactly when i is
      even, and each step moves chunk_size bytes. */
  lemma ModeAlternates(benchmark: int, rank: nat, alloc: uint64, chunk: uint64, j: nat, rand: RandR)
    requires ModeRunnable(benchmark, alloc, chunk)
    requires j < |ModePasses(benchmark, rank, alloc, chunk)|
    ensures var pattern := Pattern(ModePasses(benchmark, rank, alloc, chunk)[j], rand);
            forall i :: 0 <= i < |pattern| ==> pattern[i].isWrite == (i % 2 == 0) && pattern[i].length == chunk
  {
  }

  // ---------------------------------------------------------------------
  // Report totals
  // ---------------------------------------------------------------------

  /** `alloc_size_all = alloc_size * num_procs` in `size_t` arithmetic. */
  function AllRanksSize(alloc: uint64, numProcs: int): (r: uint64)
    ensures 0 <= alloc * numProcs < TWO_64 ==> r == alloc * numProcs
  {
    // num_procs is converted to size_t first; reducing it modulo 2^64
    // before the product does not change the product's residue.
    Wrap64(alloc * numProcs)
  }

  /** `wsize = alloc_size * NUM_ITER` in `size_t` arithmetic. */
  function MeasuredBytes(alloc: uint64): (r: uint64)
    ensures alloc * NUM_ITER < TWO_64 ==> r == alloc * NUM_ITER
  {
    Wrap64(alloc * NUM_ITER)
  }

  /** The bytes the report counts as moved equal the bytes the measured
      passes move: NUM_ITER iterations of chunk-sized steps add up to
      wsize, provided the chunk divides each pass (twice the chunk divides
      alloc_size in mixed mode). */
  lemma MeasuredBytesMatchTraffic(benchmark: int, rank: nat, alloc: uint64, chunk: uint64, rand: RandR)
    requires BENCHMARK_SEQUENTIAL <= benchmark <= BENCHMARK_MIXED && chunk > 0 && alloc > 0
    requires alloc % chunk == 0
    requires benchmark == BENCHMARK_MIXED ==> alloc % (2 * chunk) == 0
    requires alloc * NUM_ITER < TWO_64
    ensures |ModeTrace(benchmark, rank, alloc, chunk, rand)| * chunk == alloc
    ensures NUM_ITER * (|ModeTrace(benchmark, rank, alloc, chunk, rand)| * chunk) == MeasuredBytes(alloc)
  {
    PassTraffic(benchmark, rank, alloc, chunk, rand);
    Arith.ExactDiv(alloc, chunk);
  }

  lemma PassTraffic(benchmark: int, rank: nat, alloc: uint64, chunk: uint64, rand: RandR)
    requires BENCHMARK_SEQUENTIAL <= benchmark <= BENCHMARK_MIXED && chunk > 0 && alloc > 0
    requires alloc % chunk == 0
    requires benchmark == BENCHMARK_MIXED ==> alloc % (2 * chunk) == 0
    ensures |ModeTrace(benchmark, rank, alloc, chunk, rand)| == alloc / chunk
  {
    if benchmark == BENCHMARK_MIXED {
      MixedModeSplitsEvenly(rank, alloc, chunk, rand);
    } else {
      ModeStepCount(benchmark, rank, alloc, chunk, rand);
      StepCountOfMultiple(alloc, chunk);
    }
  }

  /** The end-to-end scenario of 1 MiB in 4 KiB chunks, sequential mode:
      256 alternating steps per pass, 2560 over the 10 passes, and the two
      reported sizes for one and for four ranks. */
  lemma SequentialScenario(rank: nat, rand: RandR)
    ensures |ModeTrace(BENCHMARK_SEQUENTIAL, rank, 1048576, 4096, rand)| == 256
    ensures |Repeat(ModeTrace(BENCHMARK_SEQUENTIAL, rank, 1048576, 4096, rand), NUM_ITER_TOTAL)| == 2560
    ensures AllRanksSize(1048576, 1) == 1048576 && AllRanksSize(1048576, 4) == 4194304
    ensures RankAllocSize(0, 1048576, rank) == 1048576
  {
    ModeStepCount(BENCHMARK_SEQUENTIAL, rank, 1048576, 4096, rand);
    StepCountOfMultiple(1048576, 4096);
    RepeatLength(ModeTrace(BENCHMARK_SEQUENTIAL, rank, 1048576, 4096, rand), NUM_ITER_TOTAL);
  }
}
