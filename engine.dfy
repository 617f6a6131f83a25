/**
 * The execution side of `launchBenchmark` in mstream: what a write and a
 * read do to the mapped buffer (`baseptr`) and to the scratch buffer
 * (`baseptr_tmp`) for the in-process backends, and the loop itself.
 */
module Engine {
  import opened Common
  import opened AccessPattern
  import Arith

  // Backend selectors (enum ImplType) that do not copy with `memcpy`; the
  // in-process backends are 0 (memory), 1 (mmap) and 2 (ummap).
  const IMPL_MPI1SM: int := 3
  const IMPL_MPI1SS: int := 4
  const IMPL_MPIIO: int := 5

  /** The `default:` branch of both switches: every selector other than the
      two window backends and the MPI-IO backend copies with `memcpy`. */
  predicate IsMemoryImpl(impl: int)
  {
    impl != IMPL_MPI1SM && impl != IMPL_MPI1SS && impl != IMPL_MPIIO
  }

  /** The two byte ranges an in-process pass works on. */
  datatype Buffers = Buffers(base: seq<uint8>, scratch: seq<uint8>)

  /** The byte `memset` stores at step i when VERIFY_OUTPUT is on: the int
      `(offset_b / chunk_size) + 1` converted to `unsigned char`. */
  function Marker(step: nat): uint8
  {
    (step + 1) % 256
  }

  function Fill(n: nat, b: uint8): (s: seq<uint8>)
    ensures |s| == n
    ensures forall k :: 0 <= k < n ==> s[k] == b
  {
    seq(n, _ => b)
  }

  /** The op's byte range lies inside the buffer and matches the scratch size. */
  predicate Fits(op: AccessOp, baseLen: nat, scratchLen: nat)
  {
    op.offset + op.length <= baseLen && op.length == scratchLen
  }

  predicate AllFit(ops: seq<AccessOp>, baseLen: nat, scratchLen: nat)
  {
    forall i :: 0 <= i < |ops| ==> Fits(ops[i], baseLen, scratchLen)
  }

  /** One step of the in-process backends.  A write (after the optional
      marker `memset`) copies the scratch buffer into the op's range of the
      base buffer; a read copies that range into the scratch buffer. */
  function ExecOp(op: AccessOp, m: Buffers, verify: bool): (m': Buffers)
    requires Fits(op, |m.base|, |m.scratch|)
    ensures |m'.base| == |m.base| && |m'.scratch| == |m.scratch|
    ensures op.isWrite && verify ==> m'.scratch == Fill(op.length, Marker(op.step))
    ensures op.isWrite && !verify ==> m'.scratch == m.scratch
    ensures op.isWrite ==> m'.base[op.offset..op.offset + op.length] == m'.scratch
    ensures op.isWrite ==> forall k :: 0 <= k < |m.base| && !(op.offset <= k < op.offset + op.length)
                                       ==> m'.base[k] == m.base[k]
    ensures !op.isWrite ==> m'.base == m.base
    ensures !op.isWrite ==> m'.scratch == m.base[op.offset..op.offset + op.length]
  {
    if op.isWrite then
      var buf := if verify then Fill(op.length, Marker(op.step)) else m.scratch;
      Buffers(m.base[..op.offset] + buf + m.base[op.offset + op.length..], buf)
    else
      Buffers(m.base, m.base[op.offset..op.offset + op.length])
  }

  /** The steps of ops applied in order. */
  function ExecOps(ops: seq<AccessOp>, m: Buffers, verify: bool): (m': Buffers)
    requires AllFit(ops, |m.base|, |m.scratch|)
    ensures |m'.base| == |m.base| && |m'.scratch| == |m.scratch|
    decreases |ops|
  {
    if ops == [] then m
    else
      var prefix := ops[..|ops| - 1];
      assert AllFit(prefix, |m.base|, |m.scratch|);
      ExecOp(ops[|ops| - 1], ExecOps(prefix, m, verify), verify)
  }

  /** Running two streams one after the other is running their concatenation. */
  lemma {:induction false} ExecOpsAppend(a: seq<AccessOp>, b: seq<AccessOp>, m: Buffers, verify: bool)
    requires AllFit(a + b, |m.base|, |m.scratch|)
    ensures AllFit(a, |m.base|, |m.scratch|)
    ensures AllFit(b, |m.base|, |m.scratch|)
    ensures ExecOps(a + b, m, verify) == ExecOps(b, ExecOps(a, m, verify), verify)
    decreases |b|
  {
    assert forall i :: 0 <= i < |a| ==> a[i] == (a + b)[i];
    assert forall i :: 0 <= i < |b| ==> b[i] == (a + b)[|a| + i];
    if b == [] {
      assert a + b == a;
    } else {
      var b' := b[..|b| - 1];
      assert (a + b)[..|a + b| - 1] == a + b';
      assert AllFit(a + b', |m.base|, |m.scratch|);
      ExecOpsAppend(a, b', m, verify);
    }
  }

  /** The op never writes into [o, o + n). */
  predicate SparesRange(op: AccessOp, o: nat, n: nat)
  {
    !op.isWrite || op.offset + op.length <= o || o + n <= op.offset
  }

  /** Bytes that no op of the stream writes to keep their value. */
  lemma {:induction false} UntouchedRangePreserved(ops: seq<AccessOp>, m: Buffers, verify: bool, o: nat, n: nat)
    requires AllFit(ops, |m.base|, |m.scratch|) && o + n <= |m.base|
    requires forall i :: 0 <= i < |ops| ==> SparesRange(ops[i], o, n)
    ensures ExecOps(ops, m, verify).base[o..o + n] == m.base[o..o + n]
    decreases |ops|
  {
    if ops != [] {
      var prefix := ops[..|ops| - 1];
      assert AllFit(prefix, |m.base|, |m.scratch|);
      UntouchedRangePreserved(prefix, m, verify, o, n);
      var before := ExecOps(prefix, m, verify);
      var after := ExecOp(ops[|ops| - 1], before, verify);
      assert SparesRange(ops[|ops| - 1], o, n);
      assert forall k :: o <= k < o + n ==> after.base[k] == before.base[k];
      assert after.base[o..o + n] == before.base[o..o + n];
    }
  }

  /** Content fidelity of the in-process backends: a read of the range a
      write stored, when nothing in between wrote over that range, returns
      exactly the bytes the write stored. */
  lemma ReadReturnsLastWrite(w: AccessOp, between: seq<AccessOp>, r: AccessOp, m: Buffers, verify: bool)
    requires w.isWrite && !r.isWrite && r.offset == w.offset && r.length == w.length
    requires AllFit([w] + between + [r], |m.base|, |m.scratch|)
    requires forall i :: 0 <= i < |between| ==> SparesRange(between[i], w.offset, w.length)
    ensures ExecOps([w] + between + [r], m, verify).scratch == ExecOp(w, m, verify).scratch
  {
    var ops := [w] + between + [r];
    assert Fits(ops[0], |m.base|, |m.scratch|);
    ExecOpsAppend([w] + between, [r], m, verify);
    ExecOpsAppend([w], between, m, verify);
    var afterW := ExecOps([w], m, verify);
    assert ([w])[..0] == [];
    assert afterW == ExecOp(w, m, verify);
    UntouchedRangePreserved(between, afterW, verify, w.offset, w.length);
    var beforeR := ExecOps(between, afterW, verify);
    assert ([r])[..0] == [];
    assert ExecOps([r], beforeR, verify) == ExecOp(r, beforeR, verify);
  }

  /** Every op of a memory-safe pass fits the buffers it runs on. */
  lemma PatternFits(p: Pass, rand: RandR)
    requires MemorySafe(p)
    ensures AllFit(Pattern(p, rand), p.allocSize, p.chunkSize)
  {
    forall i | 0 <= i < |Pattern(p, rand)|
      ensures Fits(Pattern(p, rand)[i], p.allocSize, p.chunkSize)
    {
      CursorAligned(p, rand, i);
    }
  }

  /** The loop counters after one more step: the byte counter grows by a
      chunk and the write flag flips. */
  lemma NextStep(i: nat, chunk: nat, offsetB: nat, writeActive: bool)
    requires offsetB == i * chunk && writeActive == (i % 2 == 0)
    ensures offsetB + chunk == (i + 1) * chunk
    ensures !writeActive == ((i + 1) % 2 == 0)
  {
    ParityStep(i);
  }

  lemma ParityStep(i: nat)
    ensures ((i + 1) % 2 == 0) == (i % 2 != 0)
  {
    Arith.ModUnique(i, i / 2, i % 2, 2);
    Arith.ModUnique(i + 1, if i % 2 == 0 then i / 2 else i / 2 + 1, if i % 2 == 0 then 1 else 0, 2);
  }

  /** Extending the stream by one op applies that op last. */
  lemma ExecOpsSnoc(ops: seq<AccessOp>, op: AccessOp, m: Buffers, verify: bool)
    requires AllFit(ops, |m.base|, |m.scratch|)
    requires Fits(op, |m.base|, |m.scratch|)
    ensures AllFit(ops + [op], |m.base|, |m.scratch|)
    ensures ExecOps(ops + [op], m, verify) == ExecOp(op, ExecOps(ops, m, verify), verify)
  {
    assert (ops + [op])[..|ops|] == ops;
  }

  /** The body of one loop iteration: the optional marker `memset` before a
      write, then the `memcpy` of the in-process backends. */
  method IssueOp(impl: int, base: array<uint8>, scratch: array<uint8>, op: AccessOp, verify: bool)
    requires scratch.Length == op.length && base != scratch
    requires IsMemoryImpl(impl) ==> Fits(op, base.Length, scratch.Length)
    modifies base, scratch
    ensures IsMemoryImpl(impl) ==>
              Buffers(base[..], scratch[..]) == ExecOp(op, Buffers(old(base[..]), old(scratch[..])), verify)
  {
    ghost var before := Buffers(base[..], scratch[..]);
    if op.isWrite {
      if verify {
        forall k | 0 <= k < op.length {
          scratch[k] := Marker(op.step);
        }
      }
      if IsMemoryImpl(impl) {
        forall k | 0 <= k < op.length {
          base[op.offset + k] := scratch[k];
        }
        ghost var after := ExecOp(op, before, verify);
        assert scratch[..] == after.scratch;
        assert forall k :: 0 <= k < base.Length ==> base[k] == after.base[k];
        assert base[..] == after.base;
      }
    } else {
      if IsMemoryImpl(impl) {
        forall k | 0 <= k < op.length {
          scratch[k] := base[op.offset + k];
        }
        ghost var after := ExecOp(op, before, verify);
        assert scratch[..] == after.scratch;
      }
    }
  }

  /** `baseptr` after one in-process pass whose scratch buffer starts out
      holding `scratchInit`, the bytes `malloc` happened to return. */
  function Launch(p: Pass, rand: RandR, base: seq<uint8>, scratchInit: seq<uint8>, verify: bool): (r: seq<uint8>)
    requires MemorySafe(p) && p.allocSize == |base| && |scratchInit| == p.chunkSize
    ensures |r| == |base|
  {
    PatternFits(p, rand);
    ExecOps(Pattern(p, rand), Buffers(base, scratchInit), verify).base
  }

  /** With VERIFY_OUTPUT on, a stream that starts with a write never looks at
      the scratch buffer's initial contents: the first `memset` overwrites
      all of it before anything is copied. */
  lemma {:induction false} VerifiedIgnoresScratch(ops: seq<AccessOp>, b: seq<uint8>, s1: seq<uint8>, s2: seq<uint8>)
    requires |s1| == |s2| && AllFit(ops, |b|, |s1|)
    requires ops != [] && ops[0].isWrite
    ensures ExecOps(ops, Buffers(b, s1), true) == ExecOps(ops, Buffers(b, s2), true)
    decreases |ops|
  {
    var prefix := ops[..|ops| - 1];
    assert AllFit(prefix, |b|, |s1|);
    if prefix != [] {
      assert prefix[0] == ops[0];
      VerifiedIgnoresScratch(prefix, b, s1, s2);
    }
  }

  /**
   * `launchBenchmark`: allocates a chunk-sized scratch buffer, walks the
   * pass in chunk-sized steps, alternating write and read starting with a
   * write, and computes each next offset by a draw or a stride.  `base` is
   * `baseptr`; `scratchInit` is what the scratch buffer holds when `malloc`
   * returns it (the C code leaves it undetermined), and the buffer is
   * dropped at the end.  The result lists every operation issued to the
   * backend; for the in-process backends the new `baseptr` is Launch of the
   * old one.  The effects of the window and MPI-IO backends are not
   * modelled.
   */
  method LaunchBenchmark(impl: int, base: array<uint8>, scratchInit: seq<uint8>, rand: RandR,
                         p: Pass, verify: bool) returns (issued: seq<AccessOp>)
    requires Runnable(p) && |scratchInit| == p.chunkSize
    requires IsMemoryImpl(impl) ==> base.Length == p.allocSize && MemorySafe(p)
    modifies base
    ensures issued == Pattern(p, rand)
    ensures IsMemoryImpl(impl) ==> AllFit(issued, base.Length, p.chunkSize)
    ensures IsMemoryImpl(impl) ==> base[..] == Launch(p, rand, old(base[..]), scratchInit, verify)
  {
    var scratch := new uint8[p.chunkSize](k requires 0 <= k < p.chunkSize => scratchInit[k]);
    assert scratch[..] == scratchInit;
    ghost var m0 := Buffers(base[..], scratch[..]);
    var chunk := p.chunkSize;
    var n := StepCount(p.sizeB, chunk);
    if IsMemoryImpl(impl) {
      PatternFits(p, rand);
    }

    var offset: nat := 0;
    var writeActive := true;
    var seed := InitialSeed(p.rank);
    if p.isRandom {
      seed := rand(seed).next;
      var d := rand(seed);
      offset, seed := RandOffset(d.value, chunk, p.allocSize), d.next;
    }

    issued := [];
    var offsetB: nat := 0;
    ghost var i: nat := 0;
    while offsetB < p.sizeB
      invariant offsetB == i * chunk && i <= n
      invariant Cursor(offset, seed) == CursorAt(p, rand, i)
      invariant writeActive == (i % 2 == 0)
      invariant issued == PatternPrefix(p, rand, i)
      invariant IsMemoryImpl(impl) ==>
                  AllFit(issued, base.Length, scratch.Length) &&
                  Buffers(base[..], scratch[..]) == ExecOps(issued, m0, verify)
      decreases p.sizeB - offsetB
    {
      StepCountIsLoopBound(p.sizeB, chunk, i);
      var step := offsetB / chunk;
      Arith.ModUnique(offsetB, i, 0, chunk);
      CursorStep(p, rand, i, offset, seed);
      var op := AccessOp(offset, chunk, writeActive, step);
      if IsMemoryImpl(impl) {
        assert op == Pattern(p, rand)[i];
      }
      IssueOp(impl, base, scratch, op, verify);
      if IsMemoryImpl(impl) {
        ExecOpsSnoc(issued, op, m0, verify);
      }
      PatternPrefixSnoc(p, rand, i);
      issued := issued + [op];
      NextStep(i, chunk, offsetB, writeActive);
      if p.isRandom {
        var d := rand(seed);
        offset, seed := RandOffset(d.value, chunk, p.allocSize), d.next;
      } else {
        offset := Wrap64(offset + p.padding) % p.allocSize;
      }
      writeActive := !writeActive;
      offsetB := offsetB + chunk;
      i := i + 1;
    }
    StepCountIsLoopBound(p.sizeB, chunk, i);
    PatternPrefixComplete(p, rand);
  }
}
