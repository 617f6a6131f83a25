# mstream and pflatency: a Dafny model of the benchmark core

This project models the core of two MPI benchmarks.

**mstream** allocates a buffer on each rank through one of six backends.
The backends are private memory, `mmap`, the user-level paging library
`ummap`, two MPI one-sided window variants, and MPI-IO. mstream then walks
that buffer in chunk-sized steps that alternate write and read. It runs ten
measured iterations of one access mode and prints one report line per rank,
in rank order. The four modes are sequential, padded, pseudo-random and mixed.

**pflatency** measures first-touch page-fault latency. It splits one size
over several mappings and stores one byte per page of each mapping.

The model has nine modules in eight files:

- `Common` (common.dfy): fixed-width integers with explicit wrap-around, the
  abstract `rand_r`, and Option/Result. `Arith` in the same file holds the
  division facts.
- `AccessPattern` (access_pattern.dfy): the offset generator of
  `launchBenchmark` as pure functions. These are the `RAND_OFFSET` macro, the
  seed, the strided step, the step count and the whole operation stream of a
  pass. It also holds the properties of that stream: alignment, the
  sequential order, determinism of the random stream, and the prefix
  relation.
- `Engine` (engine.dfy): what one step does to the mapped buffer and the
  scratch buffer on the in-process backends. It also holds
  `launchBenchmark` itself, as a loop over two arrays proved against the
  pass's operation stream.
- `Driver` (driver.dfy): the parts of `main` that carry logic. These are the
  argument-count guard, the dynamic per-rank sizing, the mode switch, the
  10-iteration loop, and the integer report totals.
- `Paths` (paths.dfy): the `sprintf` paths and the `%d` rendering they rely
  on.
- `RankOrder` (rank_order.dfy): the barrier-separated print loop. It is
  shared by both programs (src/mstream.c:379-405 and
  src/pflatency.c:109-121 have the same shape).
- `PageFaultProbe` (pflatency.dfy): pflatency's argument handling,
  per-allocation size, allocation loop, nested touch loop, fault divisor,
  and release loop.
- `Util` (util.dfy): the integer part of `getElapsed`, the time units, and
  `openFile` over an abstract file-size state held by a class.

Conventions:

- Results of system calls are method or function parameters: the descriptor
  `open` returns, and whether `fstat` or `ftruncate` fails.
- `rand_r` is an arbitrary total function from seed to (value, next seed).
  Every property proved holds for any such generator.
- MPI's rank and number of processes are parameters.
- The code's integer arithmetic is modelled at its C width wherever it can
  wrap: `RAND_OFFSET`, `(offset + padding) % alloc_size`, `chunk_size << 1`,
  `1073741824 + (alloc_size >> rank)`, `alloc_size * num_procs`,
  `alloc_size * NUM_ITER`, the seed `(drank + 1) * 921` stored in a
  `uint32_t`, the numerator of `getElapsed`, and `(size_t)num_alloc`.

Two behaviours of the code are easy to misread, and the model states them
as the code has them:

- **Mixed mode** (src/mstream.c:337-343) is not a random pass over the
  first half of the allocation followed by a padding pass over the second
  half, with `alloc_size / chunk_size` operations in total. Both passes
  are `alloc_size >> 1` bytes long and take offsets modulo the whole
  `alloc_size`. The padding pass restarts at offset 0 with stride
  `2 * chunk_size` (`Driver.MixedModeShape`). The total is
  `2 * ceil((alloc_size >> 1) / chunk_size)` (`Driver.ModeStepCount`).
  When `chunk_size` divides `alloc_size`, this equals
  `alloc_size / chunk_size` exactly when `2 * chunk_size` divides
  `alloc_size` too (`Driver.MixedModeSplitsEvenly`,
  `Driver.MixedModeTotalIff`).
- **Dynamic sizing at rank 0** (src/mstream.c:239-243) leaves rank 0's
  size unchanged only while `2^30 + alloc_size` fits in 64 bits; above
  that the sum wraps (`Driver.DynamicSizeWrapsNearTop`).
- **The scratch buffer** of `launchBenchmark` (src/mstream.c:103, 169) is
  allocated anew by every call and freed at its end, so each call starts
  from whatever bytes `malloc` returns. The model makes those bytes an
  input of every call. With `VERIFY_OUTPUT` off, the first write of a
  pass stores them into the buffer. With it on, they never matter
  (`Driver.VerifiedIterationsAreOneStream`).

## Model

| member | source | states |
|---|---|---|
| AccessPattern.InitialSeed | src/mstream.c:104 | the seed is `(drank + 1) * 921` reduced to 32 bits, exactly that product below the wrap point |
| AccessPattern.RandOffset | src/mstream.c:24-25 | `RAND_OFFSET` is the draw times the chunk in 64-bit unsigned arithmetic modulo the size, so always below the size |
| AccessPattern.Start | src/mstream.c:101-111 | the first offset is inside the allocation |
| AccessPattern.OpAt | src/mstream.c:115-166 | definition; no contract: step i is at the cursor's offset, moves chunk_size bytes, and is a write iff i is even |
| AccessPattern.StepCount | src/mstream.c:113 | definition; no contract: ceil(size_b / chunk_size), related to the loop by StepCountIsLoopBound |
| AccessPattern.Pattern | src/mstream.c:101-167 | definition; no contract: the operation stream of one pass, the reference the loop of Engine.LaunchBenchmark is proved equal to |
| AccessPattern.MemorySafe | src/mstream.c:101-167 | definition; no contract: the conditions under which every `memcpy` stays inside the buffer (see CursorAligned) |
| AccessPattern.Advance | src/mstream.c:164-165 | the next offset is inside the allocation, and a strided step keeps the seed unchanged |
| AccessPattern.CursorAt | src/mstream.c:113-167 | the offset before every step of a pass is below `alloc_size` |
| AccessPattern.CursorStep | src/mstream.c:113-166 | step i uses the current offset, is a write iff i is even, and the next cursor is the code's update (a fresh draw, or the wrapped stride modulo `alloc_size`) |
| AccessPattern.StepCountIsLoopBound | src/mstream.c:113 | the loop runs step i exactly when `i * chunk_size < size_b`, so a pass has ceil(size_b / chunk_size) steps |
| AccessPattern.StepCountOfMultiple | src/mstream.c:113 | when the chunk divides `size_b`, a pass has exactly size_b / chunk steps, covering size_b bytes |
| AccessPattern.StridedOffset | src/mstream.c:164-165 | without 64-bit wrap, a strided pass is at offset (i * padding) mod alloc_size at step i and never changes the seed |
| AccessPattern.SequentialVisitsEachChunk | src/mstream.c:325-328 | the sequential pass visits chunk i at step i and has exactly one step per chunk of the allocation |
| AccessPattern.CursorAligned | src/mstream.c:113-167 | every offset of a memory-safe pass is chunk-aligned and leaves room for a full chunk inside the allocation |
| AccessPattern.RandomCursorAligned | src/mstream.c:24-25 | every random offset is a multiple of the chunk size when the chunk divides the allocation and the product cannot wrap |
| AccessPattern.StridedCursorAligned | src/mstream.c:164-165 | every strided offset is a multiple of the chunk size when the chunk divides the allocation and the padding |
| AccessPattern.RandomAtIsDraw | src/mstream.c:106-111 | every random offset is `RAND_OFFSET` of some value `rand_r` can return |
| AccessPattern.RandomOffsetAligned | src/mstream.c:24-25 | without wrap, `RAND_OFFSET` equals chunk * (draw mod (alloc / chunk)), an aligned offset |
| AccessPattern.RandomCursorDeterminism | src/mstream.c:104-111 | the random offset sequence depends only on the rank, the chunk size and the allocation size, not on `size_b` or `padding` |
| AccessPattern.RandomPassIsPrefix | src/mstream.c:337-340 | a shorter random pass performs exactly the first steps of the longer one |
| Engine.Marker | src/mstream.c:118 | definition; no contract: the `memset` byte `(offset_b / chunk_size) + 1` as an `unsigned char` |
| Engine.IsMemoryImpl | src/mstream.c:121-162 | definition; no contract: the `default:` branch of both switches, every selector except 3, 4 and 5 |
| Engine.ExecOp | src/mstream.c:115-162 | a write stores the scratch buffer (first filled with the step marker when verification is on) into exactly the op's range, leaving every other byte unchanged; a read copies that range into the scratch buffer and leaves the base buffer unchanged |
| Engine.ExecOps | src/mstream.c:113-167 | applying a stream of steps keeps both buffer lengths |
| Engine.ExecOpsAppend | src/mstream.c:337-343 | running two streams one after the other is running their concatenation |
| Engine.UntouchedRangePreserved | src/mstream.c:138 | bytes that no write of a stream covers keep their value |
| Engine.ReadReturnsLastWrite | src/mstream.c:115-162 | a read of the range a write stored returns exactly the stored bytes when no write in between overlaps that range |
| Engine.PatternFits | src/mstream.c:138 | every step of a memory-safe pass copies a whole chunk inside the buffer |
| Engine.Launch | src/mstream.c:97-172 | definition: `baseptr` after one in-process pass whose scratch buffer starts with the given bytes; keeps the buffer length |
| Engine.VerifiedIgnoresScratch | src/mstream.c:115-118 | with verification on, a stream that starts with a write ends in the same state whatever the scratch buffer held |
| Engine.IssueOp | src/mstream.c:115-162 | on the in-process backends, one loop body changes the two arrays exactly as ExecOp says |
| Engine.LaunchBenchmark | src/mstream.c:97-172 | the issued steps are the pass's operation stream for every backend; on the in-process backends they fit the buffer, and the final `baseptr` is that stream applied to the initial one with a newly allocated scratch buffer holding the given bytes |
| Driver.ParseArguments | src/mstream.c:199-224 | fewer than 9 or more than 10 arguments give -1 and nothing else; otherwise the folder is argv[9] when present, else ".", and all eight integer settings are passed through unchanged; it is the one definition of the folder rule, used for the configuration folder (src/mstream.c:223) and the deleted folder (src/mstream.c:440) |
| Driver.ShiftRight | src/mstream.c:241 | `alloc_size >> rank` never exceeds `alloc_size` |
| Driver.ShiftRightIsDivision | src/mstream.c:241 | `x >> n` is x / 2^n rounded down |
| Driver.DynamicAllocSize | src/mstream.c:239-243 | a dynamic size never exceeds the requested one and, without wrap, is either unchanged or at least 1 GiB |
| Driver.RankAllocSize | src/mstream.c:239-243 | the size of a rank never exceeds the request, and equals it when `is_dynamic` is 0 |
| Driver.DynamicSizeOfRankZero | src/mstream.c:241-242 | rank 0 keeps the requested size while `2^30 + alloc_size` fits in 64 bits |
| Driver.DynamicSizeWrapsNearTop | src/mstream.c:241-242 | a request of 2^64 - 1 bytes is cut down to 2^30 - 1 even on rank 0 |
| Driver.DynamicSizeShrinksWithRank | src/mstream.c:241-242 | higher ranks never get more memory than lower ranks |
| Driver.DoubleChunk | src/mstream.c:329-343 | definition; no contract: `chunk_size << 1` modulo 2^64 |
| Driver.SequentialPass | src/mstream.c:325-328 | definition; no contract: a strided pass over all of alloc_size with stride chunk_size |
| Driver.PaddingPass | src/mstream.c:329-332 | definition; no contract: a strided pass over all of alloc_size with stride `chunk_size << 1` |
| Driver.RandomPass | src/mstream.c:333-336 | definition; no contract: a random pass over all of alloc_size |
| Driver.MixedRandomHalf | src/mstream.c:338-340 | definition; no contract: a random pass of `alloc_size >> 1` bytes |
| Driver.MixedPaddingHalf | src/mstream.c:341-343 | definition; no contract: a strided pass of `alloc_size >> 1` bytes with stride `chunk_size << 1` |
| Driver.ModePasses | src/mstream.c:323-344 | definition; no contract: the `launchBenchmark` calls of each mode, none for other modes |
| Driver.ModeTrace | src/mstream.c:323-344 | definition; no contract: the operation stream of one iteration, the reference RunMode is proved equal to |
| Driver.Repeat | src/mstream.c:309 | definition; no contract: the trace of NUM_ITER_TOTAL iterations |
| Driver.Launches | src/mstream.c:323-344 | definition: `baseptr` after the calls of one iteration, each on its own newly allocated scratch buffer; keeps the buffer length |
| Driver.Iterations | src/mstream.c:309-345 | definition: `baseptr` after the iterations, each with its own scratch contents; keeps the buffer length |
| Driver.ModeTraceUnfold | src/mstream.c:323-344 | one iteration issues the sequential, padded (stride 2 * chunk) or random full pass, the random half followed by the padded half for mixed mode, and nothing for any other mode |
| Driver.RunMode | src/mstream.c:323-344 | one iteration of the switch issues the mode's trace; on the in-process backends every step fits and `baseptr` ends as Launches of the mode's calls, one scratch buffer per call |
| Driver.RunMixed | src/mstream.c:337-343 | the mixed case issues the random half pass followed by the padded half pass; on the in-process backends `baseptr` ends as the padded half launched on the result of the random half, each with its own scratch contents |
| Driver.BenchmarkLoop | src/mstream.c:309-345 | the loop issues the mode's trace NUM_ITER_TOTAL = 10 times and starts the timer at iteration NUM_ITER_INIT = 0; on the in-process backends every step fits and `baseptr` ends as Iterations of the mode's calls with the given scratch contents |
| Driver.VerifiedLaunchesAreOneStream | src/mstream.c:103-118 | with verification on, the calls of an iteration leave `baseptr` as their concatenated stream on one scratch buffer would, whatever each new scratch buffer held |
| Driver.VerifiedIterationsAreOneStream | src/mstream.c:309-345 | with verification on (every call mallocs at src/mstream.c:103), the whole loop leaves `baseptr` as the repeated trace applied on one scratch buffer, whatever `malloc` returned |
| Driver.RepeatLength | src/mstream.c:309 | n repetitions of an iteration's trace are n times its length |
| Driver.ModeStepCount | src/mstream.c:323-344 | modes 0-2 issue ceil(alloc / chunk) steps per iteration, mixed mode 2 * ceil((alloc >> 1) / chunk), other modes none |
| Driver.MixedModeShape | src/mstream.c:337-343 | mixed mode's random half repeats the start of the full random pass, its padded half starts at offset 0, and every offset of both is below the whole `alloc_size` |
| Driver.MixedModeSplitsEvenly | src/mstream.c:337-343 | mixed mode performs alloc / chunk steps when 2 * chunk divides alloc |
| Driver.MixedModeTotalIff | src/mstream.c:337-343 | when the chunk divides alloc, mixed mode performs alloc / chunk steps iff 2 * chunk divides alloc |
| Driver.ModeAlternates | src/mstream.c:101-166 | in every pass of every mode step i is a write iff i is even and moves chunk_size bytes; the loop of Engine.LaunchBenchmark carries this as its invariant `writeActive == (i % 2 == 0)` |
| Driver.AllRanksSize | src/mstream.c:385 | `alloc_size * num_procs` in size_t arithmetic is the exact product when it fits |
| Driver.MeasuredBytes | src/mstream.c:386 | `wsize = alloc_size * NUM_ITER` in size_t arithmetic is the exact product when it fits |
| Driver.MeasuredBytesMatchTraffic | src/mstream.c:386 | when the chunk divides every pass, one iteration moves alloc_size bytes and the ten measured iterations move exactly `wsize` bytes |
| Driver.PassTraffic | src/mstream.c:323-344 | when the chunk divides every pass, one iteration issues alloc / chunk steps |
| Driver.SequentialScenario | src/mstream.c:325-328 | 1 MiB in 4 KiB chunks gives 256 steps per iteration, 2560 in all, and 1 MiB and 4 MiB as the all-rank size for one and four ranks |
| Paths.NatDigits | src/mstream.c:235 | the decimal digits of a natural number, with no leading zero |
| Paths.FormatInt | src/mstream.c:235 | `%d` starts with '-' iff the number is negative, followed by digits only |
| Paths.FormatIntRoundTrip | src/mstream.c:235 | a `%d` field parses back to the number printed |
| Paths.FormatIntInjective | src/mstream.c:223-224 | distinct numbers print as distinct text |
| Paths.CleanupPath | src/mstream.c:440 | definition; no contract: `"%s/%s"` of the folder and TMP_FOLDER |
| Paths.ConfigName | src/mstream.c:223-224 | definition; no contract: `"%d_%d_%d_%d_%d"` of the five settings |
| Paths.TempPath | src/mstream.c:223-224 | definition; no contract: the configuration folder below CleanupPath |
| Paths.RankDir | src/mstream.c:235 | definition; no contract: `"%s/p%d"` of the configuration folder and the rank |
| Paths.RankFile | src/mstream.c:237 | definition; no contract: `"%s/p%d/mstream.tmp"` of the configuration folder and the rank |
| Paths.CleanupCoversRunFiles | src/mstream.c:437-443 | the folder rank 0 deletes, followed by '/', prefixes the configuration folder and every rank's folder and file |
| Paths.RankPathsDecompose | src/mstream.c:235-237 | the rank folder's suffix parses back to the rank, and the rank file is the rank folder plus "/mstream.tmp" |
| Paths.RankFilesDistinct | src/mstream.c:235-237 | no two ranks share a folder or a backing file |
| Paths.DefaultPaths | src/mstream.c:223-224 | with the default folder, 4 ranks, mode 0 and backend 0, the paths are "./tmp/4_0_0_0_0", "./tmp/4_0_0_0_0/p3/mstream.tmp" and "./tmp" |
| RankOrder.PrintTurns | src/mstream.c:379-383 | a rank prints exactly once, in round `rank`, when its rank is below num_procs, and never otherwise; every rank enters exactly num_procs barriers |
| RankOrder.OnePrinterPerRound | src/mstream.c:379-383 | exactly one rank prints in each round: the rank equal to the round |
| RankOrder.OutputInRankOrder | src/mstream.c:379-405 | the report lines appear once per rank, in ascending rank order |
| Util.ElapsedNanos | src/util/util.c:51-52 | the numerator is the nanosecond difference modulo 2^64, and 0 for equal stamps |
| Util.ElapsedIsExact | src/util/util.c:51-52 | for normalised, ordered stamps less than 2^64 ns apart the numerator is the exact difference |
| Util.ElapsedAddsModulo | src/util/util.c:51-52 | elapsed(a, b) + elapsed(b, c) equals elapsed(a, c) modulo 2^64 for any stamps |
| Util.ElapsedAdds | src/util/util.c:51-52 | for ordered normalised stamps, consecutive intervals add up exactly |
| Util.UnitDivisor | src/util/util.h:13-19 | every unit divides by at least 1 |
| Util.UnitsScaleByThousand | src/util/util.h:13-19 | each unit is 1000 times the previous one, and a second is 10^9 ns |
| Util.GetElapsed | src/util/util.c:49-53 | the result is non-negative and times the unit's divisor gives the numerator |
| Util.SecondsToNanos | src/util/util.c:49-53 | the elapsed seconds times 10^9 are the elapsed nanoseconds |
| Util.OpenEffect | src/util/util.c:33-47 | EIO iff the open or fstat fails, truncating nothing; the truncate-failure status iff a needed `ftruncate` fails, so the call succeeds whenever its system calls do; a successful preallocating open leaves the file exactly `size` long and truncates iff its size was different; without preallocation no existing file changes; no other file is touched |
| Util.PreallocateIsIdempotent | src/util/util.c:41-44 | a second preallocating open finds the size right and truncates nothing |
| Util.FileSystem.OpenFile | src/util/util.c:33-47 | the file sizes, the status and the count of `ftruncate` calls change exactly as OpenEffect says |
| PageFaultProbe.ParseProbeArguments | src/pflatency.c:41-61 | fewer than 5 or more than 6 arguments give -1; otherwise the segment size is argv[5] when present, else the page size |
| PageFaultProbe.PerAllocationSize | src/pflatency.c:74 | undefined iff num_alloc is 0; otherwise at most alloc_size, alloc_size / num_alloc for positive counts, and at most 1 for negative ones |
| PageFaultProbe.ConvertedCountIsWrap | src/pflatency.c:74 | `(size_t)num_alloc` (the count itself when non-negative, 2^64 + num_alloc when negative) is reduction modulo 2^64 |
| PageFaultProbe.ProbeFile | src/pflatency.c:80 | definition; no contract: `"%s/%s"` of the folder and TMP_FILE |
| PageFaultProbe.ManagesFolder | src/pflatency.c:64-67 | definition; no contract: rank 0 creates the folder, and deletes it at src/pflatency.c:143-146, only for ummap |
| PageFaultProbe.AllocateBuffers | src/pflatency.c:76-92 | max(num_alloc, 0) mappings of alloc_size_s bytes, backed by the probe file iff the backend is ummap, each with one non-preallocating open of that file |
| PageFaultProbe.TouchRow | src/pflatency.c:101-104 | the inner loop stores 21 at one offset of every allocation, in allocation order, and changes no other byte |
| PageFaultProbe.TouchPages | src/pflatency.c:99-105 | the stores follow the offset-major order, and afterwards a byte holds 21 iff its offset is a multiple of the padding; otherwise it is unchanged |
| PageFaultProbe.TouchRows | src/pflatency.c:99-105 | the stores of the first `rows` outer iterations number rows * num_alloc |
| PageFaultProbe.TouchOrder | src/pflatency.c:99-105 | definition; no contract: all stores of the probe, ceil(alloc_size_s / padding) rows |
| PageFaultProbe.TouchRowsAt | src/pflatency.c:99-105 | store r * n + a is allocation a at offset r * padding |
| PageFaultProbe.TouchOrderShape | src/pflatency.c:99-105 | the probe makes num_alloc * ceil(alloc_size_s / padding) stores, offset-major and allocation-minor |
| PageFaultProbe.FaultDivisor | src/pflatency.c:115 | definition; no contract: `alloc_size / padding` |
| PageFaultProbe.FaultDivisorMatchesTouches | src/pflatency.c:115 | `alloc_size / padding` is exactly the number of stores when num_alloc divides alloc_size and the padding divides each allocation |
| PageFaultProbe.ReleaseBuffers | src/pflatency.c:124-134 | each allocation is released once, in order, by the primitive that created it (`umunmap` for ummap, `munmap` of alloc_size_s otherwise) |

## Left out

- Engine.LaunchBenchmark: on the in-process backends it requires `MemorySafe`: the chunk divides `alloc_size`, random chunks are at most 2^33 + 4 bytes so the `RAND_OFFSET` product cannot wrap, and the stride is chunk-aligned and cannot wrap. The code demands nothing. Outside these conditions its `memcpy` can leave the buffer, which is undefined behaviour the model does not describe.
- Driver.RunMode, Driver.RunMixed, Driver.BenchmarkLoop: these inherit the same memory-safety precondition through `ModeMemorySafe`.
- Engine.LaunchBenchmark: `offset_b += chunk_size` adds a `size_t` to an `off_t`, so the sum is taken modulo 2^64 (storing it back into the signed `off_t` is implementation-defined). The sum wraps exactly when `StepCount(size_b, chunk_size) * chunk_size >= 2^64`. The loop at src/mstream.c:113 then goes on from a small `offset_b` instead of stopping after ceil(size_b / chunk_size) steps. The model's byte counter is unbounded, so the loop always ends after ceil(size_b / chunk_size) steps.
- Engine.LaunchBenchmark: for the two MPI window backends and MPI-IO only the issued operation stream is modelled (the `MPI_Put`/`MPI_Get` and `MPI_File_write_at`/`read_at` calls). Their effect on remote memory or on the file is not modelled.
- PageFaultProbe.FaultDivisor: it has no contract of its own. It is related to the number of stores only under the divisibility conditions of `FaultDivisorMatchesTouches`, because otherwise page rounding makes the two differ.
- Driver.MixedModeSplitsEvenly: it requires 2 * chunk_size to divide alloc_size. When only chunk_size divides it, the total differs (Driver.MixedModeTotalIff). When chunk_size does not divide it either, the two totals may or may not agree.
- Driver.DynamicSizeOfRankZero, Driver.DynamicSizeShrinksWithRank, Driver.DynamicAllocSize: the "unchanged or at least 1 GiB" and monotonicity facts are stated for `alloc_size + 2^30 < 2^64`, because above that the sum wraps.
- Driver.ShiftRight: `>>` by 64 or more is undefined in C. It is modelled as repeated halving, which gives 0.
- AccessPattern.InitialSeed: `(drank + 1) * 921` is an `int` product. For ranks of 2331686 and above it overflows a signed int (undefined in C). It is modelled as reduction modulo 2^32.
- Util.ElapsedNanos: the difference of `tv_sec` values is taken as an unbounded integer. A signed overflow of the `time_t` subtraction is not modelled.
- Util.GetElapsed: the `double` conversion and division are modelled as exact real division, so rounding is not modelled.
- PageFaultProbe.PerAllocationSize: division by a zero `num_alloc` is undefined in C. It is modelled as `None`.
- PageFaultProbe.TouchPages: the buffers are given as distinct arrays. The `malloc` of the pointer table (which fails for a negative `num_alloc`) is not modelled, and neither is the wrap of `offset += padding`: `padding` is a `size_t`, so the sum is unsigned and wraps modulo 2^64, and storing it back into the `off_t` offset is implementation-defined.
- `rand_r` internals: the C library's generator is an arbitrary function parameter.
- MPI: initialisation, barriers, window allocation and locking (src/mstream.c:246-265), `setStorageInfo`, `MPI_File_open` and preallocation (src/mstream.c:267-273), synchronisation (src/mstream.c:347-373), release (src/mstream.c:407-431) and finalisation. These are foreign calls. Their only modelled trace is the barrier-separated rounds of `RankOrder`.
- The backend allocation switch of mstream (src/mstream.c:275-303): `mmap` and `ummap` are foreign calls. Its `openFile` call with preallocation is covered by `Util.FileSystem.OpenFile` with `preallocate` true, but it is not wired into the driver.
- `ummap`, `umsync`, `umunmap`, `umstats`, `mmap`, `msync` and `munmap` internals belong to other libraries. pflatency's mappings are modelled as request values (`Mapping`, `Release`).
- Time: `clock_gettime`, the `usleep(rank * 921921)` stagger and the bandwidth and per-fault latency divisions are clock readings and floating point. Only the timer's start iteration is modelled. The claim that aggregate bandwidth never exceeds the rank count times per-rank bandwidth depends on measured times and is not modelled.
- The printed report fields (`printf`) are not modelled; only which rank prints in which round is.
- `sscanf` parsing: the parsed integers are taken as inputs (`RawArgs`, `RawProbeArgs`).
- `createDir` and `deleteDir` run shell commands. Only the paths they receive are modelled (`Paths.CleanupPath`, `Paths.TempPath`, `Paths.RankDir`, `PageFaultProbe.ProbeFile`), and for pflatency only which rank creates and deletes the folder (`PageFaultProbe.ManagesFolder`).
- Util.OpenEffect: the `flags` argument of `openFile` is not a parameter. Both callers pass `O_CREAT | O_RDWR`, so the model always creates a missing file, empty.
- `sprintf` into the `PATH_MAX` buffers `filename` and `tmp_path` (src/mstream.c:194-195, 223-237, 440; src/pflatency.c:36, 80): a folder argument long enough to overflow them is undefined behaviour in C. The Paths functions build the whole string at any length.
- Engine.LaunchBenchmark: a failing `malloc` of the scratch buffer is not modelled. The bytes a successful one returns are an input of each call, not a nondeterministic choice.
