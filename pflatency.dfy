/**
 * The page-fault latency probe (pflatency): it splits one allocation size
 * over num_alloc mappings, writes one byte per page of every mapping, and
 * divides the elapsed time by the number of pages of the total size.
 */
module PageFaultProbe {
  import opened Common
  import Arith
  import AccessPattern

  /** The user-level paging backend; every other selector maps anonymous
      memory. */
  const IMPL_UMMAP: int := 2

  const TMP_FILE: string := "pflatency_test.tmp"

  /** The byte written into every touched page. */
  const TOUCH_BYTE: uint8 := 21

  // ---------------------------------------------------------------------
  // Command line
  // ---------------------------------------------------------------------

  /** The integers `sscanf` reads: argv[1..3], and argv[5] when present. */
  datatype RawProbeArgs = RawProbeArgs(allocSize: uint64, impl: int, numAlloc: int32, segSize: uint64)

  datatype ProbeSettings = ProbeSettings(allocSize: uint64, impl: int, numAlloc: int32,
                                         folder: string, segSize: uint64)

  /** The argument-count guard (-1 outside 5..6, before anything else) and
      the segment size: argv[5] when given, else the page size. */
  function ParseProbeArguments(argc: int, raw: RawProbeArgs, folderArg: string, pageSize: uint64)
    : (r: Result<ProbeSettings, int>)
    ensures r.Err? <==> argc < 5 || argc > 6
    ensures r.Err? ==> r.error == -1
    ensures r.Ok? ==> r.value.segSize == (if argc == 6 then raw.segSize else pageSize)
    ensures r.Ok? ==> r.value.folder == folderArg && r.value.allocSize == raw.allocSize
                      && r.value.impl == raw.impl && r.value.numAlloc == raw.numAlloc
  {
    if argc < 5 || argc > 6 then Err(-1)
    else
      var seg := if argc == 6 then raw.segSize else pageSize;
      Ok(ProbeSettings(raw.allocSize, raw.impl, raw.numAlloc, folderArg, seg))
  }

  // ---------------------------------------------------------------------
  // Allocation
  // ---------------------------------------------------------------------

  /** `alloc_size / (size_t)num_alloc`; None for num_alloc == 0, where the
      division is undefined. */
  function PerAllocationSize(alloc: uint64, numAlloc: int32): (r: Option<uint64>)
    ensures r.None? <==> numAlloc == 0
    ensures r.Some? ==> r.value <= alloc
    ensures numAlloc > 0 ==> r == Some(alloc / numAlloc)
    ensures numAlloc < 0 ==> r.Some? && r.value <= 1
  {
    if numAlloc == 0 then None
    else
      Some(Quotient(alloc, ConvertedCount(numAlloc)))
  }

  /** `size_t` division; at most 1 when the divisor exceeds half the dividend. */
  function Quotient(x: uint64, d: uint64): (q: uint64)
    requires d > 0
    ensures q == x / d && q <= x
    ensures 2 * d > x ==> q <= 1
  {
    Arith.QuotientBounds(x, d);
    x / d
  }

  /** `(size_t)num_alloc`: the count itself, or 2^64 + num_alloc when
      negative, which is above 2^63. */
  function ConvertedCount(numAlloc: int32): (d: uint64)
    ensures numAlloc >= 0 ==> d == numAlloc
    ensures numAlloc < 0 ==> d >= TWO_64 - 0x8000_0000
  {
    if numAlloc >= 0 then numAlloc else numAlloc + TWO_64
  }

  /** ConvertedCount is C's conversion to `size_t`: reduction modulo 2^64. */
  lemma ConvertedCountIsWrap(numAlloc: int32)
    ensures ConvertedCount(numAlloc) == Wrap64(numAlloc)
  {
    if numAlloc < 0 {
      Arith.ModUnique(numAlloc, -1, numAlloc + TWO_64, TWO_64);
    }
  }

  /** One mapping: anonymous private memory, or a `ummap` of the probe file. */
  datatype Mapping = Anonymous(size: uint64) | FileBacked(size: uint64, segSize: uint64, path: string)

  /** An `openFile` call: the path, the preallocation flag and the size. */
  datatype OpenRequest = OpenRequest(path: string, preallocate: bool, size: uint64)

  /** `"%s/%s"` of the folder and TMP_FILE. */
  function ProbeFile(folder: string): string
  {
    folder + "/" + TMP_FILE
  }

  /** Rank 0 creates the folder before allocating, and deletes it at the
      end, only for the user-level paging backend. */
  predicate ManagesFolder(rank: nat, impl: int)
  {
    rank == 0 && impl == IMPL_UMMAP
  }

  /** The allocation loop: one mapping of alloc_size_s bytes per allocation;
      with the paging backend each one opens the same probe file without
      preallocation and maps it, otherwise each is anonymous memory. */
  method AllocateBuffers(impl: int, numAlloc: int32, sizeS: uint64, segSize: uint64, folder: string)
    returns (maps: seq<Mapping>, opens: seq<OpenRequest>)
    ensures |maps| == if numAlloc > 0 then numAlloc else 0
    ensures forall i :: 0 <= i < |maps| ==> maps[i].size == sizeS
    ensures forall i :: 0 <= i < |maps| ==> (maps[i].FileBacked? <==> impl == IMPL_UMMAP)
    ensures forall i :: 0 <= i < |maps| && maps[i].FileBacked? ==>
              maps[i].path == ProbeFile(folder) && maps[i].segSize == segSize
    ensures |opens| == if impl == IMPL_UMMAP then |maps| else 0
    ensures forall j :: 0 <= j < |opens| ==> opens[j] == OpenRequest(ProbeFile(folder), false, sizeS)
  {
    maps := [];
    opens := [];
    var alloc := 0;
    while alloc < numAlloc
      invariant alloc == |maps| && alloc <= if numAlloc > 0 then numAlloc else 0
      invariant forall i :: 0 <= i < |maps| ==> maps[i].size == sizeS
      invariant forall i :: 0 <= i < |maps| ==> (maps[i].FileBacked? <==> impl == IMPL_UMMAP)
      invariant forall i :: 0 <= i < |maps| && maps[i].FileBacked? ==>
                  maps[i].path == ProbeFile(folder) && maps[i].segSize == segSize
      invariant |opens| == if impl == IMPL_UMMAP then |maps| else 0
      invariant forall j :: 0 <= j < |opens| ==> opens[j] == OpenRequest(ProbeFile(folder), false, sizeS)
    {
      if impl == IMPL_UMMAP {
        var filename := ProbeFile(folder);
        opens := opens + [OpenRequest(filename, false, sizeS)];
        maps := maps + [FileBacked(sizeS, segSize, filename)];
      } else {
        maps := maps + [Anonymous(sizeS)];
      }
      alloc := alloc + 1;
    }
  }

  // ---------------------------------------------------------------------
  // The page-touch loop
  // ---------------------------------------------------------------------

  /** One store `baseptr[alloc][offset] = 21`. */
  datatype Touch = Touch(alloc: nat, offset: nat)

  /** The stores of one outer iteration: every allocation at one offset. */
  function Row(n: nat, offset: nat): seq<Touch>
  {
    seq(n, a requires 0 <= a < n => Touch(a, offset))
  }

  /** The stores of the first `rows` outer iterations. */
  function TouchRows(n: nat, padding: nat, rows: nat): (t: seq<Touch>)
    ensures |t| == rows * n
  {
    if rows == 0 then [] else TouchRows(n, padding, rows - 1) + Row(n, (rows - 1) * padding)
  }

  /** All stores of the probe, in program order. */
  function TouchOrder(n: nat, sizeS: nat, padding: nat): seq<Touch>
    requires padding > 0
  {
    TouchRows(n, padding, AccessPattern.StepCount(sizeS, padding))
  }

  predicate Distinct(bufs: seq<array<uint8>>)
  {
    forall i, j :: 0 <= i < j < |bufs| ==> bufs[i] != bufs[j]
  }

  /** Offsets that are multiples of the padding, below a limit. */
  predicate Stride(k: nat, padding: nat, limit: nat)
    requires padding > 0
  {
    k % padding == 0 && k < limit
  }

  /** The inner loop: store 21 at one offset of every allocation. */
  method TouchRow(bufs: seq<array<uint8>>, sizeS: uint64, offset: nat) returns (row: seq<Touch>)
    requires offset < sizeS && Distinct(bufs)
    requires forall i :: 0 <= i < |bufs| ==> bufs[i].Length == sizeS
    modifies set i | 0 <= i < |bufs| :: bufs[i]
    ensures row == Row(|bufs|, offset)
    ensures forall i, k :: 0 <= i < |bufs| && 0 <= k < sizeS ==>
              bufs[i][k] == if k == offset then TOUCH_BYTE else old(bufs[i][k])
  {
    row := [];
    var alloc := 0;
    while alloc < |bufs|
      invariant 0 <= alloc <= |bufs|
      invariant row == Row(alloc, offset)
      invariant forall i, k :: 0 <= i < |bufs| && 0 <= k < sizeS ==>
                  bufs[i][k] == if k == offset && i < alloc then TOUCH_BYTE else old(bufs[i][k])
    {
      bufs[alloc][offset] := TOUCH_BYTE;
      assert Row(alloc + 1, offset) == Row(alloc, offset) + [Touch(alloc, offset)];
      row := row + [Touch(alloc, offset)];
      alloc := alloc + 1;
    }
  }

  /** The nested loop: for each page offset, for each allocation, store 21. */
  method TouchPages(bufs: seq<array<uint8>>, sizeS: uint64, padding: uint64) returns (touches: seq<Touch>)
    requires padding > 0 && Distinct(bufs)
    requires forall i :: 0 <= i < |bufs| ==> bufs[i].Length == sizeS
    modifies set i | 0 <= i < |bufs| :: bufs[i]
    ensures touches == TouchOrder(|bufs|, sizeS, padding)
    ensures forall i, k :: 0 <= i < |bufs| && 0 <= k < sizeS ==>
              bufs[i][k] == if k % padding == 0 then TOUCH_BYTE else old(bufs[i][k])
  {
    touches := [];
    var offset: nat := 0;
    ghost var row: nat := 0;
    while offset < sizeS
      invariant offset == row * padding
      invariant row <= AccessPattern.StepCount(sizeS, padding)
      invariant touches == TouchRows(|bufs|, padding, row)
      invariant forall i, k :: 0 <= i < |bufs| && 0 <= k < sizeS ==>
                  bufs[i][k] == if Stride(k, padding, offset) then TOUCH_BYTE else old(bufs[i][k])
      decreases sizeS - offset
    {
      AccessPattern.StepCountIsLoopBound(sizeS, padding, row);
      label BeforeRow:
      var r := TouchRow(bufs, sizeS, offset);
      touches := touches + r;
      Arith.ModUnique(offset, row, 0, padding);
      forall i, k | 0 <= i < |bufs| && 0 <= k < sizeS
        ensures bufs[i][k] == if Stride(k, padding, offset + padding) then TOUCH_BYTE else old(bufs[i][k])
      {
        assert bufs[i][k] == if k == offset then TOUCH_BYTE else old@BeforeRow(bufs[i][k]);
        NextStride(k, offset, padding);
      }
      offset := offset + padding;
      row := row + 1;
    }
    AccessPattern.StepCountIsLoopBound(sizeS, padding, row);
    forall i, k | 0 <= i < |bufs| && 0 <= k < sizeS
      ensures bufs[i][k] == if k % padding == 0 then TOUCH_BYTE else old(bufs[i][k])
    {
      assert Stride(k, padding, offset) <==> k % padding == 0;
    }
  }

  /** Between one stride offset and the next there is no other multiple. */
  lemma NextStride(k: nat, offset: nat, padding: nat)
    requires padding > 0 && offset % padding == 0
    ensures Stride(k, padding, offset + padding) <==> Stride(k, padding, offset) || k == offset
  {
    if Stride(k, padding, offset + padding) && offset <= k {
      var q := offset / padding;
      Arith.ModUnique(offset, q, 0, padding);
      Arith.OnlyMultipleInSlot(k, q, padding);
    }
  }

  // ---------------------------------------------------------------------
  // Properties of the touch order and the fault divisor
  // ---------------------------------------------------------------------

  /** Store number r*n + a is allocation a at offset r*padding. */
  lemma {:induction false} TouchRowsAt(n: nat, padding: nat, rows: nat, r: nat, a: nat)
    requires r < rows && a < n
    ensures r * n + a < |TouchRows(n, padding, rows)|
    ensures TouchRows(n, padding, rows)[r * n + a] == Touch(a, r * padding)
  {
    var prev := TouchRows(n, padding, rows - 1);
    assert TouchRows(n, padding, rows) == prev + Row(n, (rows - 1) * padding);
    if r < rows - 1 {
      TouchRowsAt(n, padding, rows - 1, r, a);
      Arith.MulAtLeast(rows - 1 - r, n);
      assert (rows - 1 - r) * n == (rows - 1) * n - r * n;
    } else {
      assert r * n + a == |prev| + a;
    }
  }

  /** The probe makes num_alloc * ceil(alloc_size_s / padding) stores; store
      r*n + a writes allocation a at page offset r*padding < alloc_size_s,
      so the order is offset-major and allocation-minor. */
  lemma TouchOrderShape(n: nat, sizeS: nat, padding: nat, r: nat, a: nat)
    requires padding > 0
    ensures |TouchOrder(n, sizeS, padding)| == n * AccessPattern.StepCount(sizeS, padding)
    ensures r * padding < sizeS && a < n ==>
              r * n + a < |TouchOrder(n, sizeS, padding)| &&
              TouchOrder(n, sizeS, padding)[r * n + a] == Touch(a, r * padding)
  {
    AccessPattern.StepCountIsLoopBound(sizeS, padding, r);
    if r * padding < sizeS && a < n {
      TouchRowsAt(n, padding, AccessPattern.StepCount(sizeS, padding), r, a);
    }
  }

  /** The number of page faults the report divides by: `alloc_size / padding`. */
  function FaultDivisor(alloc: uint64, padding: uint64): nat
    requires padding > 0
  {
    alloc / padding
  }

  /** The divisor counts exactly the stores when num_alloc divides alloc_size
      and the padding divides each allocation. */
  lemma FaultDivisorMatchesTouches(alloc: uint64, numAlloc: int32, padding: uint64)
    requires padding > 0 && numAlloc > 0
    requires alloc % numAlloc == 0 && (alloc / numAlloc) % padding == 0
    ensures PerAllocationSize(alloc, numAlloc).Some?
    ensures |TouchOrder(numAlloc, PerAllocationSize(alloc, numAlloc).value, padding)| == FaultDivisor(alloc, padding)
  {
    var sizeS: nat := alloc / numAlloc;
    var pages: nat := sizeS / padding;
    TouchOrderShape(numAlloc, sizeS, padding, 0, 0);
    AccessPattern.StepCountOfMultiple(sizeS, padding);
    Arith.ExactDiv(alloc, numAlloc);
    Arith.ExactDiv(sizeS, padding);
    PagesOfProduct(alloc, numAlloc, sizeS, pages, padding);
  }

  lemma PagesOfProduct(alloc: nat, n: nat, sizeS: nat, pages: nat, padding: nat)
    requires padding > 0 && sizeS * n == alloc && pages * padding == sizeS
    ensures alloc / padding == n * pages
  {
    assert alloc == (n * pages) * padding;
    Arith.ModUnique(alloc, n * pages, 0, padding);
  }

  // ---------------------------------------------------------------------
  // Release
  // ---------------------------------------------------------------------

  /** `umunmap(baseptr[i])` or `munmap(baseptr[i], alloc_size_s)`. */
  datatype Release = Umunmap(index: nat) | Munmap(index: nat, size: uint64)

  /** A release undoes a mapping with the primitive that created it. */
  predicate Undoes(r: Release, m: Mapping)
  {
    match m
    case FileBacked(_, _, _) => r.Umunmap?
    case Anonymous(size) => r.Munmap? && r.size == size
  }

  /** The release loop: allocation i is released once, at position i, with
      the primitive matching how it was mapped. */
  method ReleaseBuffers(impl: int, numAlloc: int32, sizeS: uint64, maps: seq<Mapping>)
    returns (released: seq<Release>)
    requires |maps| == if numAlloc > 0 then numAlloc else 0
    requires forall i :: 0 <= i < |maps| ==> maps[i].size == sizeS && (maps[i].FileBacked? <==> impl == IMPL_UMMAP)
    ensures |released| == |maps|
    ensures forall i :: 0 <= i < |maps| ==> released[i].index == i && Undoes(released[i], maps[i])
  {
    released := [];
    var alloc := 0;
    while alloc < numAlloc
      invariant alloc == |released| && alloc <= if numAlloc > 0 then numAlloc else 0
      invariant forall i :: 0 <= i < alloc ==> released[i].index == i && Undoes(released[i], maps[i])
    {
      if impl == IMPL_UMMAP {
        released := released + [Umunmap(alloc)];
      } else {
        released := released + [Munmap(alloc, sizeS)];
      }
      alloc := alloc + 1;
    }
  }
}
