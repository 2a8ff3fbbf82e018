/**
 What a computation does to host memory. The compute thread touches memory in four separate
 stretches; every run nevertheless acts on memory as a sequence of indivisible operations.
 */
module Refinement {
  import opened Bytes
  import opened Matrix
  import opened Registers
  import opened HostMemory
  import opened Endpoint
  import opened Invariants

  // ---------------------------------------------------------------- the indivisible multiply

  datatype Outcome = Outcome(ok: bool, mem: seq<Byte>)

  /** Reference definition: check, load both operands, multiply, store, all at once. */
  function AtomicMultiply(f: FloatUnit, mem: seq<Byte>, n: nat, aPtr: nat, bPtr: nat, cPtr: nat): Outcome
  {
    if ValidDim(n) && Fits(mem, aPtr, n) && Fits(mem, bPtr, n) && Fits(mem, cPtr, n)
    then Outcome(true, Splice(mem, cPtr, BytesOf(Product(f, LoadMatrix(mem, aPtr, n), LoadMatrix(mem, bPtr, n), n))))
    else Outcome(false, mem)
  }

  /** When it succeeds, and what it leaves alone. */
  lemma ReferenceExactly(f: FloatUnit, mem: seq<Byte>, n: nat, aPtr: nat, bPtr: nat, cPtr: nat)
    ensures var r := AtomicMultiply(f, mem, n, aPtr, bPtr, cPtr);
            && (r.ok <==> 1 <= n <= 256 && aPtr + 4 * (n * n) <= |mem| && bPtr + 4 * (n * n) <= |mem| && cPtr + 4 * (n * n) <= |mem|)
            && (!r.ok ==> r.mem == mem)
  {
  }

  lemma ReferenceFrame(f: FloatUnit, mem: seq<Byte>, n: nat, aPtr: nat, bPtr: nat, cPtr: nat)
    ensures var m := AtomicMultiply(f, mem, n, aPtr, bPtr, cPtr).mem;
            |m| == |mem| && forall x :: 0 <= x < |mem| && !(cPtr <= x < cPtr + 4 * (n * n)) ==> m[x] == mem[x]
  {
    if AtomicMultiply(f, mem, n, aPtr, bPtr, cPtr).ok {
      SpliceFrame(mem, cPtr, BytesOf(Product(f, LoadMatrix(mem, aPtr, n), LoadMatrix(mem, bPtr, n), n)));
    }
  }

  lemma SpliceFrame(mem: seq<Byte>, p: nat, d: seq<Byte>)
    requires p + |d| <= |mem|
    ensures forall x :: 0 <= x < |mem| && !(p <= x < p + |d|) ==> Splice(mem, p, d)[x] == mem[x]
  {
  }

  lemma ElementsInWindow(mem: seq<Byte>, p: nat, n: nat, i: nat, j: nat)
    requires Fits(mem, p, n) && i < n && j < n
    ensures Cell(LoadMatrix(mem, p, n), i * n + j) == WordAt(mem, p + 4 * (i * n + j))
  {
    CellFits(n, i, j, n);
    LoadedElement(mem, p, n, i * n + j);
  }

  /** The products that make up the sum for row i and column j, in the order of k, as words of memory. */
  ghost predicate TermsOf(f: FloatUnit, mem: seq<Byte>, n: nat, aPtr: nat, bPtr: nat, i: nat, j: nat, terms: seq<Word>)
  {
    |terms| == n && forall k :: 0 <= k < n ==>
      terms[k] == f.mul(WordAt(mem, aPtr + 4 * (i * n + k)), WordAt(mem, bPtr + 4 * (k * n + j)))
  }

  /**
   What it stores, in terms of memory words: the word of C for row i and column j is the sum, in the
   order of k, of the products of the old words of A for row i and of B for column j.
   */
  lemma ReferenceCell(f: FloatUnit, mem: seq<Byte>, n: nat, aPtr: nat, bPtr: nat, cPtr: nat, i: nat, j: nat, terms: seq<Word>)
    requires AtomicMultiply(f, mem, n, aPtr, bPtr, cPtr).ok && i < n && j < n
    requires TermsOf(f, mem, n, aPtr, bPtr, i, j, terms)
    ensures WordAt(AtomicMultiply(f, mem, n, aPtr, bPtr, cPtr).mem, cPtr + 4 * (i * n + j)) == Sum(f, terms)
  {
    var a, b := LoadMatrix(mem, aPtr, n), LoadMatrix(mem, bPtr, n);
    forall k | 0 <= k < n ensures terms[k] == f.mul(Cell(a, i * n + k), Cell(b, k * n + j)) {
      ElementsInWindow(mem, aPtr, n, i, k);
      ElementsInWindow(mem, bPtr, n, k, j);
    }
    DotIsSum(f, a, b, n, i, j, terms);
    ProductCell(f, a, b, n, i, j);
    StoredElement(mem, cPtr, n, Product(f, a, b, n), i, j);
  }

  lemma StoredElement(mem: seq<Byte>, p: nat, n: nat, m: seq<Word>, i: nat, j: nat)
    requires Fits(mem, p, n) && |m| == n * n && i < n && j < n
    ensures |BytesOf(m)| == MatrixBytes(n)
    ensures WordAt(Splice(mem, p, BytesOf(m)), p + 4 * (i * n + j)) == Cell(m, i * n + j)
  {
    LoadStored(mem, p, n, m);
    ElementsInWindow(Splice(mem, p, BytesOf(m)), p, n, i, j);
  }

  // ---------------------------------------------------------------- observing a computation

  /** The states in which the latest computation sampled its inputs, and how many stretches it has run. */
  datatype Job = NoJob | Job(wake: State, atB: State, steps: nat)

  ghost function NextJob(j: Job, t: State, e: Event): Job
  {
    if !e.RunCompute? then j
    else if Begins(t) then Job(t, t, 1)
    else if j.NoJob? then NoJob
    else Job(j.wake, if j.steps == 1 then t else j.atB, j.steps + 1)
  }

  ghost function Observe(f: FloatUnit, s: State, es: seq<Event>): Job
    decreases |es|
  {
    if es == [] then NoJob
    else NextJob(Observe(f, s, es[..|es| - 1]), Exec(f, s, es[..|es| - 1]), es[|es| - 1])
  }

  /** The dimension, and the operands, as sampled. */
  ghost function Dim(j: Job): nat requires j.Job? { j.wake.regs.dimN }
  ghost function OperandA(j: Job): seq<Word> requires j.Job? { LoadMatrix(j.wake.mem, j.wake.regs.aPtr, Dim(j)) }
  ghost function OperandB(j: Job): seq<Word> requires j.Job? { LoadMatrix(j.atB.mem, j.atB.regs.bPtr, Dim(j)) }
  ghost predicate FitsA(j: Job) requires j.Job? { Fits(j.wake.mem, j.wake.regs.aPtr, Dim(j)) }
  ghost predicate FitsB(j: Job) requires j.Job? { Fits(j.atB.mem, j.atB.regs.bPtr, Dim(j)) }

  /** The thread's locals are determined by the samples and the number of stretches run. */
  ghost predicate Tracks(f: FloatUnit, t: Thread, j: Job)
  {
    t.Computing() ==>
      && j.Job? && ValidDim(Dim(j)) && t.n == Dim(j)
      && match t
         case ReadA(_, a, ok) => j.steps == 1 && a == OperandA(j) && ok == FitsA(j)
         case ReadB(_, a, b, ok) => j.steps == 2 && FitsA(j) && a == OperandA(j) && b == OperandB(j) && ok == FitsB(j)
         case RowDone(n, a, b, c, i) =>
           && FitsA(j) && FitsB(j) && a == OperandA(j) && b == OperandB(j)
           && i < n && j.steps == i + 3 && c == Partial(f, a, b, n, i + 1)
         case WroteC(n, _) => FitsA(j) && FitsB(j) && j.steps == n + 3
         case _ => true
  }

  /** Row i, put in its place, extends the computed part. */
  lemma PutNextRow(f: FloatUnit, a: seq<Word>, b: seq<Word>, n: nat, i: nat)
    requires i < n
    ensures PutRow(Partial(f, a, b, n, i), i * n, Row(f, a, b, n, i)) == Partial(f, a, b, n, i + 1)
  {
    NextRow(f, a, b, n, i);
  }

  lemma FirstRow(f: FloatUnit, a: seq<Word>, b: seq<Word>, n: nat)
    requires n >= 1
    ensures PutRow(Zeros(n * n), 0, Row(f, a, b, n, 0)) == Partial(f, a, b, n, 1)
  {
    NoRows(f, a, b, n);
    PutNextRow(f, a, b, n, 0);
  }

  lemma TracksRowDone(f: FloatUnit, j: Job, i: nat)
    requires j.Job? && ValidDim(Dim(j)) && FitsA(j) && FitsB(j) && i < Dim(j) && j.steps == i + 3
    ensures Tracks(f, RowDone(Dim(j), OperandA(j), OperandB(j), Partial(f, OperandA(j), OperandB(j), Dim(j), i + 1), i), j)
  {
  }

  /** The stretch that computes a row leaves the thread after that row. */
  lemma RowStretch(f: FloatUnit, t: State, c': seq<Word>)
    requires t.compute.RowDone? && t.compute.i + 1 < t.compute.n
    requires var n, a, b, i := t.compute.n, t.compute.a, t.compute.b, t.compute.i + 1;
             c' == PutRow(t.compute.c, i * n, Row(f, a, b, n, i))
    ensures ComputeStep(f, t).compute == t.compute.(c := c', i := t.compute.i + 1)
  {
  }

  lemma TracksFirstRow(f: FloatUnit, t: State, j: Job)
    requires Tracks(f, t.compute, j) && t.compute.ReadB? && t.compute.ok
    ensures Tracks(f, ComputeStep(f, t).compute, NextJob(j, t, RunCompute))
  {
    FirstRow(f, t.compute.a, t.compute.b, t.compute.n);
    TracksRowDone(f, Job(j.wake, j.atB, 3), 0);
  }

  lemma TracksNextRow(f: FloatUnit, t: State, j: Job)
    requires Tracks(f, t.compute, j) && t.compute.RowDone? && t.compute.i + 1 < t.compute.n
    ensures Tracks(f, ComputeStep(f, t).compute, NextJob(j, t, RunCompute))
  {
    var n, a, b, i := t.compute.n, t.compute.a, t.compute.b, t.compute.i + 1;
    PutNextRow(f, a, b, n, i);
    RowStretch(f, t, Partial(f, a, b, n, i + 1));
    TracksRowDone(f, Job(j.wake, j.atB, i + 3), i);
  }

  /** The stretches that begin a computation, read B or end one. */
  lemma TracksOther(f: FloatUnit, t: State, j: Job)
    requires Tracks(f, t.compute, j)
    requires !(t.compute.ReadB? && t.compute.ok) && !(t.compute.RowDone? && t.compute.i + 1 < t.compute.n)
    ensures Tracks(f, ComputeStep(f, t).compute, NextJob(j, t, RunCompute))
  {
  }

  lemma TracksHost(f: FloatUnit, t: State, j: Job, e: Event)
    requires Tracks(f, t.compute, j) && !e.RunCompute?
    ensures Tracks(f, Step(f, t, e).compute, j)
  {
  }

  lemma TracksStep(f: FloatUnit, t: State, j: Job, e: Event)
    requires Tracks(f, t.compute, j)
    ensures Tracks(f, Step(f, t, e).compute, NextJob(j, t, e))
  {
    if !e.RunCompute? {
      TracksHost(f, t, j, e);
    } else if t.compute.ReadB? && t.compute.ok {
      TracksFirstRow(f, t, j);
    } else if t.compute.RowDone? && t.compute.i + 1 < t.compute.n {
      TracksNextRow(f, t, j);
    } else {
      TracksOther(f, t, j);
    }
  }

  lemma {:induction false} Tracking(f: FloatUnit, s: State, es: seq<Event>)
    requires !s.compute.Computing()
    ensures Tracks(f, Exec(f, s, es).compute, Observe(f, s, es))
    decreases |es|
  {
    if es != [] {
      var k := |es| - 1;
      Tracking(f, s, es[..k]);
      TracksStep(f, Exec(f, s, es[..k]), Observe(f, s, es[..k]), es[k]);
    }
  }

  // ---------------------------------------------------------------- every run replays indivisible operations

  /** The next stretch writes C. */
  predicate Commits(t: State, e: Event)
  {
    e.RunCompute? && t.compute.RowDone? && t.compute.i + 1 >= t.compute.n
  }

  lemma CommitWrites(f: FloatUnit, t: State)
    requires Commits(t, RunCompute)
    ensures ComputeStep(f, t).mem == Stored(t.mem, t.regs.cPtr, BytesOf(t.compute.c))
  {
  }

  lemma CommitsProduct(f: FloatUnit, t: State, j: Job)
    requires Tracks(f, t.compute, j) && Commits(t, RunCompute)
    ensures j.Job? && t.compute.c == Product(f, OperandA(j), OperandB(j), Dim(j))
  {
    AllRows(f, OperandA(j), OperandB(j), Dim(j));
  }

  lemma CommitStores(f: FloatUnit, t: State, j: Job)
    requires Tracks(f, t.compute, j) && Commits(t, RunCompute)
    ensures j.Job?
    ensures ComputeStep(f, t).mem == Stored(t.mem, t.regs.cPtr, BytesOf(Product(f, OperandA(j), OperandB(j), Dim(j))))
  {
    CommitWrites(f, t);
    CommitsProduct(f, t, j);
  }

  lemma OthersKeepMemory(f: FloatUnit, t: State, e: Event)
    requires !e.Store? && !Commits(t, e)
    ensures Step(f, t, e).mem == t.mem
  {
  }

  /** Memory changes only by host stores and by the stretch that writes C, which stores the product of the samples. */
  lemma MemoryStep(f: FloatUnit, t: State, j: Job, e: Event)
    requires Tracks(f, t.compute, j)
    ensures !e.Store? && !Commits(t, e) ==> Step(f, t, e).mem == t.mem
    ensures Commits(t, e) ==>
      j.Job? && Step(f, t, e).mem == Stored(t.mem, t.regs.cPtr, BytesOf(Product(f, OperandA(j), OperandB(j), Dim(j))))
  {
    if Commits(t, e) {
      CommitStores(f, t, j);
    } else if !e.Store? {
      OthersKeepMemory(f, t, e);
    }
  }

  datatype Effect =
    | HostStore(addr: Long, data: seq<Byte>)
    | StoreProduct(n: nat, a: seq<Word>, b: seq<Word>, cPtr: Long)

  /** The memory operations of a run, in the order in which they take effect. */
  ghost function Effects(f: FloatUnit, s: State, es: seq<Event>): seq<Effect>
    decreases |es|
  {
    if es == [] then []
    else
      var k := |es| - 1;
      var t, job, before := Exec(f, s, es[..k]), Observe(f, s, es[..k]), Effects(f, s, es[..k]);
      if es[k].Store? then before + [HostStore(es[k].addr, es[k].data)]
      else if Commits(t, es[k]) && job.Job? then
        before + [StoreProduct(Dim(job), OperandA(job), OperandB(job), t.regs.cPtr)]
      else before
  }

  ghost function Apply(f: FloatUnit, mem: seq<Byte>, e: Effect): seq<Byte>
  {
    match e
    case HostStore(addr, data) => Stored(mem, addr, data)
    case StoreProduct(n, a, b, cPtr) => Stored(mem, cPtr, BytesOf(Product(f, a, b, n)))
  }

  ghost function Replay(f: FloatUnit, mem: seq<Byte>, xs: seq<Effect>): seq<Byte>
    decreases |xs|
  {
    if xs == [] then mem else Apply(f, Replay(f, mem, xs[..|xs| - 1]), xs[|xs| - 1])
  }

  lemma ReplaySnoc(f: FloatUnit, mem: seq<Byte>, xs: seq<Effect>, x: Effect)
    ensures Replay(f, mem, xs + [x]) == Apply(f, Replay(f, mem, xs), x)
  {
    assert (xs + [x])[..|xs|] == xs;
  }

  /**
   Refinement: under every interleaving, host stores and resets included, memory is the replay of
   whole operations: host stores, and at most one store for each computation begun, of the product of
   the operands it sampled at the pointer it sampled last.
   */
  lemma {:induction false} MemoryIsReplay(f: FloatUnit, mem: seq<Byte>, es: seq<Event>)
    requires Run(f, mem, es)
    ensures Exec(f, Init(mem), es).mem == Replay(f, mem, Effects(f, Init(mem), es))
    ensures Products(Effects(f, Init(mem), es)) <= Begun(f, Init(mem), es)
    decreases |es|
  {
    AtMostOneStoreEach(f, mem, es);
    if es != [] {
      var k := |es| - 1;
      var s := Init(mem);
      var t, job, before := Exec(f, s, es[..k]), Observe(f, s, es[..k]), Effects(f, s, es[..k]);
      MemoryIsReplay(f, mem, es[..k]);
      Tracking(f, s, es[..k]);
      MemoryStep(f, t, job, es[k]);
      if es[k].Store? {
        ReplaySnoc(f, mem, before, HostStore(es[k].addr, es[k].data));
      } else if Commits(t, es[k]) {
        ReplaySnoc(f, mem, before, StoreProduct(Dim(job), OperandA(job), OperandB(job), t.regs.cPtr));
      }
    }
  }

  // ---------------------------------------------------------------- at most one store each

  /** In a computation that has not yet written C. */
  predicate BeforeCommit(t: Thread)
  {
    t.ReadA? || t.ReadB? || t.RowDone?
  }

  /** Only a beginning brings the thread there, and the write of C takes it away. */
  lemma CommitStep(f: FloatUnit, t: State, e: Event)
    ensures BeforeCommit(Step(f, t, e).compute) ==> BeforeCommit(t.compute) || BeginsAt(t, e)
    ensures Commits(t, e) ==> BeforeCommit(t.compute) && !BeforeCommit(Step(f, t, e).compute) && !BeginsAt(t, e)
  {
  }

  lemma {:induction false} CommitHasBeginning(f: FloatUnit, s: State, es: seq<Event>, i: nat, m: nat)
    requires i <= m <= |es|
    requires !BeforeCommit(At(f, s, es, i).compute) && BeforeCommit(At(f, s, es, m).compute)
    ensures exists k :: i <= k < m && BeginsAt(At(f, s, es, k), es[k])
    decreases m
  {
    AtStep(f, s, es, m - 1);
    CommitStep(f, At(f, s, es, m - 1), es[m - 1]);
    if !BeginsAt(At(f, s, es, m - 1), es[m - 1]) {
      CommitHasBeginning(f, s, es, i, m - 1);
    }
  }

  /** Between any two stores of a product a computation began. */
  lemma StoresAreSeparate(f: FloatUnit, s: State, es: seq<Event>, i: nat, j: nat)
    requires i < j < |es| && Commits(At(f, s, es, i), es[i]) && Commits(At(f, s, es, j), es[j])
    ensures exists k :: i < k < j && BeginsAt(At(f, s, es, k), es[k])
  {
    AtStep(f, s, es, i);
    CommitStep(f, At(f, s, es, i), es[i]);
    CommitStep(f, At(f, s, es, j), es[j]);
    CommitHasBeginning(f, s, es, i + 1, j);
  }

  function Products(xs: seq<Effect>): nat
    decreases |xs|
  {
    if xs == [] then 0 else Products(xs[..|xs| - 1]) + if xs[|xs| - 1].StoreProduct? then 1 else 0
  }

  lemma ProductsSnoc(xs: seq<Effect>, x: Effect)
    ensures Products(xs + [x]) == Products(xs) + if x.StoreProduct? then 1 else 0
  {
    assert (xs + [x])[..|xs|] == xs;
  }

  /** In every run the products stored, plus one still to come, are at most the computations begun. */
  lemma {:induction false} AtMostOneStoreEach(f: FloatUnit, mem: seq<Byte>, es: seq<Event>)
    requires Run(f, mem, es)
    ensures Products(Effects(f, Init(mem), es)) + (if BeforeCommit(Exec(f, Init(mem), es).compute) then 1 else 0)
         <= Begun(f, Init(mem), es)
    decreases |es|
  {
    if es != [] {
      var k, s := |es| - 1, Init(mem);
      var t, job, before := Exec(f, s, es[..k]), Observe(f, s, es[..k]), Effects(f, s, es[..k]);
      AtMostOneStoreEach(f, mem, es[..k]);
      CommitStep(f, t, es[k]);
      if es[k].Store? {
        ProductsSnoc(before, HostStore(es[k].addr, es[k].data));
      } else if Commits(t, es[k]) && job.Job? {
        ProductsSnoc(before, StoreProduct(Dim(job), OperandA(job), OperandB(job), t.regs.cPtr));
      }
    }
  }

  // ---------------------------------------------------------------- four samples

  ghost predicate NoStores(es: seq<Event>)
  {
    forall e :: e in es ==> !e.Store?
  }

  lemma NoStoresSplit(es: seq<Event>)
    requires NoStores(es) && es != []
    ensures NoStores(es[..|es| - 1]) && !es[|es| - 1].Store?
  {
    forall e | e in es[..|es| - 1] ensures !e.Store? { assert e in es; }
    assert es[|es| - 1] in es;
  }

  /** Until C is written, memory is as the computation's samples saw it. */
  ghost predicate SameMemory(t: State, j: Job)
  {
    t.compute.Computing() && !t.compute.WroteC? ==>
      j.Job? && j.wake.mem == t.mem && (j.steps >= 2 ==> j.atB.mem == t.mem)
  }

  lemma SameMemoryStep(f: FloatUnit, t: State, j: Job, e: Event)
    requires Tracks(f, t.compute, j) && SameMemory(t, j) && !e.Store?
    ensures SameMemory(Step(f, t, e), NextJob(j, t, e))
  {
    MemoryStep(f, t, j, e);
  }

  lemma {:induction false} SamplesSeeSameMemory(f: FloatUnit, s: State, es: seq<Event>)
    requires !s.compute.Computing() && NoStores(es)
    ensures SameMemory(Exec(f, s, es), Observe(f, s, es))
    decreases |es|
  {
    if es != [] {
      var k := |es| - 1;
      NoStoresSplit(es);
      SamplesSeeSameMemory(f, s, es[..k]);
      Tracking(f, s, es[..k]);
      SameMemoryStep(f, Exec(f, s, es[..k]), Observe(f, s, es[..k]), es[k]);
    }
  }

  datatype Samples = Samples(n: nat, aPtr: nat, bPtr: nat, cPtr: nat)

  /** The register values each computation that reaches its write has sampled: two at wake-up, one after A, one after the last row. */
  ghost function Sampled(f: FloatUnit, s: State, es: seq<Event>): seq<Samples>
    decreases |es|
  {
    if es == [] then []
    else
      var k := |es| - 1;
      var t, job, before := Exec(f, s, es[..k]), Observe(f, s, es[..k]), Sampled(f, s, es[..k]);
      if Commits(t, es[k]) && job.Job?
      then before + [Samples(Dim(job), job.wake.regs.aPtr, job.atB.regs.bPtr, t.regs.cPtr)]
      else before
  }

  ghost function MultiplyAll(f: FloatUnit, mem: seq<Byte>, xs: seq<Samples>): seq<Byte>
    decreases |xs|
  {
    if xs == [] then mem
    else
      var x := xs[|xs| - 1];
      AtomicMultiply(f, MultiplyAll(f, mem, xs[..|xs| - 1]), x.n, x.aPtr, x.bPtr, x.cPtr).mem
  }

  lemma MultiplyAllSnoc(f: FloatUnit, mem: seq<Byte>, xs: seq<Samples>, x: Samples)
    ensures MultiplyAll(f, mem, xs + [x])
         == AtomicMultiply(f, MultiplyAll(f, mem, xs), x.n, x.aPtr, x.bPtr, x.cPtr).mem
  {
    assert (xs + [x])[..|xs|] == xs;
  }

  /** The stretch that writes C, when memory has not changed since the samples were taken. */
  lemma CommitIsAtomic(f: FloatUnit, t: State, j: Job)
    requires Commits(t, RunCompute) && Tracks(f, t.compute, j) && j.wake.mem == t.mem == j.atB.mem
    ensures ComputeStep(f, t).mem
         == AtomicMultiply(f, t.mem, Dim(j), j.wake.regs.aPtr, j.atB.regs.bPtr, t.regs.cPtr).mem
  {
    MemoryStep(f, t, j, RunCompute);
    assert |BytesOf(Product(f, OperandA(j), OperandB(j), Dim(j)))| == MatrixBytes(Dim(j));
  }

  /** When only computations write memory, their whole effect is one atomic multiply each, fixed by four sampled registers. */
  lemma {:induction false} RunIsAtomicMultiplies(f: FloatUnit, mem: seq<Byte>, es: seq<Event>)
    requires Run(f, mem, es) && NoStores(es)
    ensures Exec(f, Init(mem), es).mem == MultiplyAll(f, mem, Sampled(f, Init(mem), es))
    decreases |es|
  {
    if es != [] {
      var k := |es| - 1;
      var s := Init(mem);
      var t, job := Exec(f, s, es[..k]), Observe(f, s, es[..k]);
      NoStoresSplit(es);
      RunIsAtomicMultiplies(f, mem, es[..k]);
      if Commits(t, es[k]) {
        Tracking(f, s, es[..k]);
        SamplesSeeSameMemory(f, s, es[..k]);
        CommitIsAtomic(f, t, job);
        MultiplyAllSnoc(f, mem, Sampled(f, s, es[..k]),
                        Samples(Dim(job), job.wake.regs.aPtr, job.atB.regs.bPtr, t.regs.cPtr));
      }
    }
  }

  // ---------------------------------------------------------------- undisturbed computations

  function StepsOf(t: Thread): nat
  {
    match t
    case ReadA(_, _, _) => 1
    case ReadB(_, _, _, _) => 2
    case RowDone(_, _, _, _, i) => i + 3
    case WroteC(n, _) => n + 3
    case _ => 0
  }

  ghost function Reference(f: FloatUnit, s: State): Outcome
  {
    AtomicMultiply(f, s.mem, s.regs.dimN, s.regs.aPtr, s.regs.bPtr, s.regs.cPtr)
  }

  /** The computation begun in s, good or bad, with the B and C pointers and memory left alone by the host. */
  ghost predicate OnCourse(f: FloatUnit, s: State, t: State)
  {
    && t.compute.Computing() && Tracks(f, t.compute, Job(s, s, StepsOf(t.compute)))
    && t.regs.bPtr == s.regs.bPtr && t.regs.cPtr == s.regs.cPtr
    && (if t.compute.WroteC?
        then t.mem == Reference(f, s).mem && t.compute.ok == Reference(f, s).ok
        else t.mem == s.mem)
  }

  lemma CourseBegins(f: FloatUnit, s: State)
    requires Begins(s) && ValidDim(s.regs.dimN)
    ensures OnCourse(f, s, Begin(s))
  {
  }

  lemma CourseCommits(f: FloatUnit, s: State, t: State)
    requires OnCourse(f, s, t) && Commits(t, RunCompute)
    ensures OnCourse(f, s, ComputeStep(f, t)) && ComputeStep(f, t).regs == t.regs
  {
    var j := Job(s, s, StepsOf(t.compute));
    TracksStep(f, t, j, RunCompute);
    CommitIsAtomic(f, t, j);
  }

  lemma CourseReadsB(f: FloatUnit, s: State, t: State)
    requires OnCourse(f, s, t) && t.compute.ReadA? && t.compute.ok
    ensures OnCourse(f, s, ComputeStep(f, t)) && ComputeStep(f, t).regs == t.regs
  {
  }

  lemma CourseComputes(f: FloatUnit, s: State, t: State)
    requires OnCourse(f, s, t) && !Commits(t, RunCompute) && ((t.compute.ReadB? && t.compute.ok) || t.compute.RowDone?)
    ensures OnCourse(f, s, ComputeStep(f, t)) && ComputeStep(f, t).regs == t.regs
  {
    var j := Job(s, s, StepsOf(t.compute));
    TracksStep(f, t, j, RunCompute);
    assert NextJob(j, t, RunCompute) == Job(s, s, StepsOf(ComputeStep(f, t).compute));
  }

  /** Each further stretch stays on course, or ends the computation as the reference does. */
  lemma CourseStep(f: FloatUnit, s: State, t: State)
    requires OnCourse(f, s, t)
    ensures !Fails(t) && !Succeeds(t) ==>
              OnCourse(f, s, ComputeStep(f, t)) && ComputeStep(f, t).regs == t.regs
    ensures Fails(t) ==> !Reference(f, s).ok && ComputeStep(f, t) == Fail(t)
    ensures Succeeds(t) ==> Reference(f, s).ok && ComputeStep(f, t) == Succeed(t)
    ensures Fails(t) || Succeeds(t) ==> t.mem == Reference(f, s).mem
  {
    if Commits(t, RunCompute) {
      CourseCommits(f, s, t);
    } else if !Fails(t) && !Succeeds(t) {
      if t.compute.ReadA? { CourseReadsB(f, s, t); } else { CourseComputes(f, s, t); }
    }
  }

  // ---------------------------------------------------------------- end to end

  function ComputeSteps(es: seq<Event>): nat
    decreases |es|
  {
    if es == [] then 0
    else ComputeSteps(es[..|es| - 1]) + if es[|es| - 1].RunCompute? then 1 else 0
  }

  /** Allowed to the host during a computation: anything but a reset, a write to the B or C pointer, or a store to memory. */
  predicate Harmless(e: Event)
  {
    && !IsReset(e) && !e.Store?
    && (IsWrite(e) ==> !(0x18 <= e.addr < 0x28))
  }

  ghost predicate Quiet(es: seq<Event>)
  {
    forall e :: e in es ==> Harmless(e)
  }

  lemma QuietSplit(es: seq<Event>)
    requires Quiet(es) && es != []
    ensures Quiet(es[..|es| - 1]) && Harmless(es[|es| - 1])
  {
    forall e | e in es[..|es| - 1] ensures Harmless(e) { assert e in es; }
    assert es[|es| - 1] in es;
  }

  /** A computation that will succeed is about to begin: good dimension, all three windows in memory. */
  ghost predicate WellPosed(s: State)
  {
    var r := s.regs;
    && Begins(s) && ValidDim(r.dimN) && |s.mem| < ADDRESS_SPACE
    && Fits(s.mem, r.aPtr, r.dimN) && Fits(s.mem, r.bPtr, r.dimN) && Fits(s.mem, r.cPtr, r.dimN)
  }

  lemma WellPosedExactly(s: State)
    ensures var r, bytes := s.regs, 4 * (s.regs.dimN * s.regs.dimN);
            WellPosed(s) <==>
              && s.compute.Woken? && r.requested && 1 <= r.dimN <= 256 && |s.mem| < 0x1_0000_0000_0000_0000
              && r.aPtr + bytes <= |s.mem| && r.bPtr + bytes <= |s.mem| && r.cPtr + bytes <= |s.mem|
  {
  }

  ghost function Result(f: FloatUnit, s: State): seq<Word>
  {
    Product(f, LoadMatrix(s.mem, s.regs.aPtr, s.regs.dimN), LoadMatrix(s.mem, s.regs.bPtr, s.regs.dimN), s.regs.dimN)
  }

  ghost function ResultMemory(f: FloatUnit, s: State): seq<Byte>
  {
    AtomicMultiply(f, s.mem, s.regs.dimN, s.regs.aPtr, s.regs.bPtr, s.regs.cPtr).mem
  }

  /** Where the thread of a succeeding computation is after k stretches. */
  ghost function Location(f: FloatUnit, n: nat, a: seq<Word>, b: seq<Word>, k: nat): Thread
  {
    if k <= 1 then ReadA(n, a, true)
    else if k == 2 then ReadB(n, a, b, true)
    else if k < n + 3 then RowDone(n, a, b, Partial(f, a, b, n, k - 2), k - 3)
    else WroteC(n, true)
  }

  /** Where the computation begun in s stands after k stretches. */
  ghost predicate Stands(f: FloatUnit, s: State, t: State, k: nat)
  {
    var r := s.regs;
    && t.regs.bPtr == r.bPtr && t.regs.cPtr == r.cPtr && t.regs.status == BUSY
    && t.mem == (if k < r.dimN + 3 then s.mem else ResultMemory(f, s))
    && t.compute == Location(f, r.dimN, LoadMatrix(s.mem, r.aPtr, r.dimN), LoadMatrix(s.mem, r.bPtr, r.dimN), k)
  }

  /** What a harmless host access, or a stretch of the interrupt thread, leaves alone during a computation. */
  lemma HarmlessFrame(f: FloatUnit, t: State, e: Event)
    requires Harmless(e) && !e.RunCompute? && t.compute.Computing()
    ensures var u := Step(f, t, e);
            && u.compute == t.compute && u.mem == t.mem && u.regs.status == t.regs.status
            && u.regs.bPtr == t.regs.bPtr && u.regs.cPtr == t.regs.cPtr
  {
  }

  /** So it keeps the standing. */
  lemma StandsHost(f: FloatUnit, s: State, t: State, k: nat, e: Event)
    requires 1 <= k <= s.regs.dimN + 3 && Stands(f, s, t, k) && Harmless(e) && !e.RunCompute?
    ensures Stands(f, s, Step(f, t, e), k)
  {
    HarmlessFrame(f, t, e);
  }

  /** A stretch that computes a row moves the thread one location on and changes nothing else. */
  lemma RowAdvances(f: FloatUnit, n: nat, a: seq<Word>, b: seq<Word>, t: State, k: nat)
    requires ValidDim(n) && 2 <= k < n + 2 && t.compute == Location(f, n, a, b, k)
    ensures ComputeStep(f, t) == t.(compute := Location(f, n, a, b, k + 1))
  {
    if k == 2 {
      FirstRow(f, a, b, n);
    } else {
      PutNextRow(f, a, b, n, k - 2);
    }
  }

  /** The stretch after the last row stores the product. */
  lemma LastRowStores(f: FloatUnit, n: nat, a: seq<Word>, b: seq<Word>, t: State)
    requires ValidDim(n) && t.compute == Location(f, n, a, b, n + 2) && Fits(t.mem, t.regs.cPtr, n)
    ensures ComputeStep(f, t)
         == t.(compute := WroteC(n, true), mem := Splice(t.mem, t.regs.cPtr, BytesOf(Product(f, a, b, n))))
  {
    AllRows(f, a, b, n);
    assert |BytesOf(t.compute.c)| == MatrixBytes(n);
  }

  /** A stretch of the compute thread advances it. */
  lemma StandsCompute(f: FloatUnit, s: State, t: State, k: nat)
    requires WellPosed(s) && 1 <= k < s.regs.dimN + 3 && Stands(f, s, t, k)
    ensures Stands(f, s, ComputeStep(f, t), k + 1)
  {
    var n := s.regs.dimN;
    var a, b := LoadMatrix(s.mem, s.regs.aPtr, n), LoadMatrix(s.mem, s.regs.bPtr, n);
    if k == 1 {
    } else if k < n + 2 {
      RowAdvances(f, n, a, b, t, k);
    } else {
      LastRowStores(f, n, a, b, t);
    }
  }

  lemma StandsFirst(f: FloatUnit, s: State)
    requires WellPosed(s)
    ensures Stands(f, s, ComputeStep(f, s), 1)
  {
  }

  lemma StandsStep(f: FloatUnit, s: State, t: State, k: nat, e: Event)
    requires WellPosed(s) && Harmless(e) && 1 <= k <= s.regs.dimN + 3 && Stands(f, s, t, k)
    requires e.RunCompute? ==> k < s.regs.dimN + 3
    ensures Stands(f, s, Step(f, t, e), if e.RunCompute? then k + 1 else k)
  {
    if e.RunCompute? {
      StandsCompute(f, s, t, k);
    } else {
      StandsHost(f, s, t, k, e);
    }
  }

  lemma StandsNext(f: FloatUnit, s: State, es: seq<Event>)
    requires WellPosed(s) && es != [] && Harmless(es[|es| - 1]) && ComputeSteps(es) <= s.regs.dimN + 3
    requires ComputeSteps(es[..|es| - 1]) >= 1
    requires Stands(f, s, Exec(f, s, es[..|es| - 1]), ComputeSteps(es[..|es| - 1]))
    ensures Stands(f, s, Exec(f, s, es), ComputeSteps(es))
  {
    var k := |es| - 1;
    StandsStep(f, s, Exec(f, s, es[..k]), ComputeSteps(es[..k]), es[k]);
  }

  lemma {:induction false} Standing(f: FloatUnit, s: State, es: seq<Event>)
    requires WellPosed(s) && Quiet(es) && es != [] && es[0].RunCompute?
    requires ComputeSteps(es) <= s.regs.dimN + 3
    ensures 1 <= ComputeSteps(es) && Stands(f, s, Exec(f, s, es), ComputeSteps(es))
    decreases |es|
  {
    var k := |es| - 1;
    QuietSplit(es);
    if k == 0 {
      assert es[..0] == [];
      StandsFirst(f, s);
    } else {
      Standing(f, s, es[..k]);
      StandsNext(f, s, es);
    }
  }

  /** Such a computation never gets stuck: its thread is runnable after each of its first n + 3 stretches. */
  lemma NeverStuck(f: FloatUnit, s: State, es: seq<Event>)
    requires WellPosed(s) && Quiet(es) && es != [] && es[0].RunCompute?
    requires ComputeSteps(es) <= s.regs.dimN + 3
    ensures Enabled(Exec(f, s, es), RunCompute)
  {
    Standing(f, s, es);
  }

  /**
   End to end: whatever else the host does short of a reset, a B or C pointer write or a store, the
   computation ends after n + 4 stretches with IDLE|DONE and INT_DONE, the C window holds the
   product of the old A and B even where the windows overlap, and every other byte is unchanged.
   */
  lemma EndToEnd(f: FloatUnit, s: State, es: seq<Event>)
    requires WellPosed(s) && Quiet(es) && es != [] && es[0].RunCompute? && es[|es| - 1].RunCompute?
    requires ComputeSteps(es) == s.regs.dimN + 4
    ensures var t, n, p := Exec(f, s, es), s.regs.dimN, s.regs.cPtr;
            && t.regs.status == 5 && Bit0(t.regs.intStatus) && t.compute.Waiting?
            && t.mem == ResultMemory(f, s) && |t.mem| == |s.mem|
            && LoadMatrix(t.mem, p, n) == Result(f, s)
            && forall x :: 0 <= x < |s.mem| && !(p <= x < p + 4 * (n * n)) ==> t.mem[x] == s.mem[x]
  {
    var k := |es| - 1;
    QuietSplit(es);
    Standing(f, s, es[..k]);
    Completes(f, s, Exec(f, s, es[..k]));
    ResultInPlace(f, s);
  }

  lemma Completes(f: FloatUnit, s: State, t: State)
    requires Stands(f, s, t, s.regs.dimN + 3)
    ensures var u := ComputeStep(f, t);
            && u.regs.status == 5 && Bit0(u.regs.intStatus) && u.compute.Waiting?
            && u.mem == ResultMemory(f, s)
  {
  }

  lemma ResultInPlace(f: FloatUnit, s: State)
    requires WellPosed(s)
    ensures var m, n, p := ResultMemory(f, s), s.regs.dimN, s.regs.cPtr;
            && |m| == |s.mem| && LoadMatrix(m, p, n) == Result(f, s)
            && forall x :: 0 <= x < |s.mem| && !(p <= x < p + 4 * (n * n)) ==> m[x] == s.mem[x]
  {
    LoadStored(s.mem, s.regs.cPtr, s.regs.dimN, Result(f, s));
  }

  lemma WellPosedSucceeds(f: FloatUnit, s: State)
    requires WellPosed(s)
    ensures Reference(f, s).ok
  {
  }

  lemma EndMemory(f: FloatUnit, s: State, es: seq<Event>)
    requires WellPosed(s) && Quiet(es) && es != [] && es[0].RunCompute? && es[|es| - 1].RunCompute?
    requires ComputeSteps(es) == s.regs.dimN + 4
    ensures Exec(f, s, es).mem == Reference(f, s).mem
  {
    EndToEnd(f, s, es);
  }

  /** End to end, word by word: each word of the C window is the ordered sum of the old words of its row times those of its column. */
  lemma EndToEndCell(f: FloatUnit, s: State, es: seq<Event>, i: nat, j: nat, terms: seq<Word>)
    requires WellPosed(s) && Quiet(es) && es != [] && es[0].RunCompute? && es[|es| - 1].RunCompute?
    requires ComputeSteps(es) == s.regs.dimN + 4 && i < s.regs.dimN && j < s.regs.dimN
    requires TermsOf(f, s.mem, s.regs.dimN, s.regs.aPtr, s.regs.bPtr, i, j, terms)
    ensures WordAt(Exec(f, s, es).mem, s.regs.cPtr + 4 * (i * s.regs.dimN + j)) == Sum(f, terms)
  {
    EndMemory(f, s, es);
    WellPosedSucceeds(f, s);
    ReferenceCell(f, s.mem, s.regs.dimN, s.regs.aPtr, s.regs.bPtr, s.regs.cPtr, i, j, terms);
  }

  /** Each element of the result is the ordered sum of the old row times the old column. */
  lemma ResultCell(f: FloatUnit, s: State, i: nat, j: nat)
    requires i < s.regs.dimN && j < s.regs.dimN
    ensures var n := s.regs.dimN;
            && i * n + j < n * n
            && Cell(Result(f, s), i * n + j)
               == Dot(f, LoadMatrix(s.mem, s.regs.aPtr, n), LoadMatrix(s.mem, s.regs.bPtr, n), n, i, j, n)
  {
    var n := s.regs.dimN;
    ProductCell(f, LoadMatrix(s.mem, s.regs.aPtr, n), LoadMatrix(s.mem, s.regs.bPtr, n), n, i, j);
  }

  lemma SpliceWindow(mem: seq<Byte>, p: nat, d: seq<Byte>)
    requires p + |d| <= |mem|
    ensures Splice(mem, p, d)[p..p + |d|] == d
  {
  }

  /** If the product is the B operand itself, the C window becomes a copy of the B window. */
  lemma CopiesWindow(f: FloatUnit, mem: seq<Byte>, n: nat, aPtr: nat, bPtr: nat, cPtr: nat)
    requires AtomicMultiply(f, mem, n, aPtr, bPtr, cPtr).ok
    requires Product(f, LoadMatrix(mem, aPtr, n), LoadMatrix(mem, bPtr, n), n) == LoadMatrix(mem, bPtr, n)
    ensures var m, len := AtomicMultiply(f, mem, n, aPtr, bPtr, cPtr).mem, MatrixBytes(n);
            |m| == |mem| && m[cPtr..cPtr + len] == mem[bPtr..bPtr + len]
  {
    LoadedBytes(mem, bPtr, n);
    SpliceWindow(mem, cPtr, BytesOf(LoadMatrix(mem, bPtr, n)));
  }

  /** With an identity matrix in the A window, a run over integers copies the B window to the C window. */
  lemma IdentityRun(s: State, es: seq<Event>)
    requires WellPosed(s) && Quiet(es) && es != [] && es[0].RunCompute? && es[|es| - 1].RunCompute?
    requires ComputeSteps(es) == s.regs.dimN + 4
    requires LoadMatrix(s.mem, s.regs.aPtr, s.regs.dimN) == IdentityRows(s.regs.dimN, 1, s.regs.dimN)
    ensures var t, len := Exec(IntegerUnit(), s, es), MatrixBytes(s.regs.dimN);
            && |t.mem| == |s.mem|
            && t.mem[s.regs.cPtr..s.regs.cPtr + len] == s.mem[s.regs.bPtr..s.regs.bPtr + len]
  {
    var b := LoadMatrix(s.mem, s.regs.bPtr, s.regs.dimN);
    IntegersNeutral(b);
    IdentityProduct(IntegerUnit(), 1, b, s.regs.dimN);
    EndMemory(IntegerUnit(), s, es);
    WellPosedSucceeds(IntegerUnit(), s);
    CopiesWindow(IntegerUnit(), s.mem, s.regs.dimN, s.regs.aPtr, s.regs.bPtr, s.regs.cPtr);
  }

  // ---------------------------------------------------------------- failures

  /** Only a write of C that is accepted changes memory, and only a success changes INT_STATUS. */
  lemma ComputeFrame(f: FloatUnit, t: State, j: Job)
    requires Tracks(f, t.compute, j)
    ensures Step(f, t, RunCompute).mem == t.mem
         || (j.Job? && Step(f, t, RunCompute).compute == WroteC(Dim(j), true))
    ensures Step(f, t, RunCompute).regs.intStatus == t.regs.intStatus || Succeeds(t)
  {
    MemoryStep(f, t, j, RunCompute);
    if Commits(t, RunCompute) {
      assert |BytesOf(Product(f, OperandA(j), OperandB(j), Dim(j)))| == MatrixBytes(Dim(j));
    }
  }

  /** The computation begun at position 0 is still under way at every position from 1 to m. */
  ghost predicate UnderWay(f: FloatUnit, s: State, es: seq<Event>, m: nat)
    requires m <= |es|
  {
    forall k :: 1 <= k <= m ==> At(f, s, es, k).compute.Computing()
  }

  lemma {:induction false} AcceptedWriteLasts(f: FloatUnit, s: State, es: seq<Event>, n: nat, k: nat, m: nat)
    requires 1 <= k <= m <= |es| && UnderWay(f, s, es, m)
    requires At(f, s, es, k).compute == WroteC(n, true)
    ensures At(f, s, es, m).compute == WroteC(n, true)
    decreases m
  {
    if k < m {
      AcceptedWriteLasts(f, s, es, n, k, m - 1);
      AtStep(f, s, es, m - 1);
    }
  }

  // ---------------------------------------------------------------- good or bad, as the reference says

  lemma CourseHost(f: FloatUnit, s: State, t: State, e: Event)
    requires OnCourse(f, s, t) && Harmless(e) && !e.RunCompute?
    ensures OnCourse(f, s, Step(f, t, e))
  {
    HarmlessFrame(f, t, e);
  }

  /** A computation has ended in u with this outcome. */
  ghost predicate Shows(u: State, r: Outcome)
  {
    && u.mem == r.mem && u.regs.status == (if r.ok then 5 else 9)
    && (r.ok ==> Bit0(u.regs.intStatus))
  }

  /** The computation begun in s has ended in u, as the reference says. */
  ghost predicate EndsAs(f: FloatUnit, s: State, u: State)
  {
    Shows(u, Reference(f, s))
  }

  ghost predicate OnCourseOrEnded(f: FloatUnit, s: State, u: State)
  {
    if u.compute.Computing() then OnCourse(f, s, u) else EndsAs(f, s, u)
  }

  lemma CourseEnters(f: FloatUnit, s: State)
    requires Begins(s)
    ensures OnCourseOrEnded(f, s, ComputeStep(f, s))
  {
    if ValidDim(s.regs.dimN) {
      CourseBegins(f, s);
    }
  }

  lemma CourseEnds(f: FloatUnit, s: State, t: State)
    requires OnCourse(f, s, t) && (Fails(t) || Succeeds(t))
    ensures EndsAs(f, s, ComputeStep(f, t)) && !ComputeStep(f, t).compute.Computing()
  {
    CourseStep(f, s, t);
    EndState(t, Reference(f, s));
  }

  lemma EndState(t: State, r: Outcome)
    requires t.mem == r.mem
    ensures Shows(if r.ok then Succeed(t) else Fail(t), r)
  {
  }

  lemma CourseAdvances(f: FloatUnit, s: State, t: State, e: Event)
    requires OnCourse(f, s, t) && Harmless(e)
    ensures OnCourseOrEnded(f, s, Step(f, t, e))
  {
    if !e.RunCompute? {
      CourseHost(f, s, t, e);
    } else if Fails(t) || Succeeds(t) {
      CourseEnds(f, s, t);
    } else {
      CourseStep(f, s, t);
    }
  }

  /** After k events the computation is on course, if it is still under way then, or has just ended. */
  lemma {:induction false} Course(f: FloatUnit, s: State, es: seq<Event>, k: nat)
    requires Begins(s) && Quiet(es) && 1 <= k <= |es| && es[0].RunCompute? && UnderWay(f, s, es, k - 1)
    ensures OnCourseOrEnded(f, s, At(f, s, es, k))
    decreases k
  {
    AtStep(f, s, es, k - 1);
    if k == 1 {
      assert At(f, s, es, 0) == s;
      CourseEnters(f, s);
    } else {
      Course(f, s, es, k - 1);
      assert es[k - 1] in es;
      CourseNext(f, s, At(f, s, es, k - 1), es[k - 1]);
    }
  }

  lemma CourseNext(f: FloatUnit, s: State, t: State, e: Event)
    requires OnCourseOrEnded(f, s, t) && t.compute.Computing() && Harmless(e)
    ensures OnCourseOrEnded(f, s, Step(f, t, e))
  {
    CourseAdvances(f, s, t, e);
  }

  /**
   Whatever the dimension and the pointers, an undisturbed computation ends as the atomic multiply
   on the registers it began with: IDLE|DONE exactly if that succeeds, IDLE|ERROR otherwise, and
   with the same memory.
   */
  lemma UndisturbedOutcome(f: FloatUnit, s: State, es: seq<Event>)
    requires Begins(s) && Quiet(es) && es != [] && es[0].RunCompute?
    requires UnderWay(f, s, es, |es| - 1) && !Exec(f, s, es).compute.Computing()
    ensures EndsAs(f, s, Exec(f, s, es))
  {
    Course(f, s, es, |es|);
    assert es[..|es|] == es;
  }

  /** A computation that fails has had no write of C accepted. */
  lemma NoAcceptedWrite(f: FloatUnit, s: State, es: seq<Event>, k: nat)
    requires es != [] && 1 <= k <= |es| - 1
    requires UnderWay(f, s, es, |es| - 1) && Fails(At(f, s, es, |es| - 1))
    ensures !(At(f, s, es, k).compute.WroteC? && At(f, s, es, k).compute.ok)
  {
    var t := At(f, s, es, k).compute;
    if t.WroteC? && t.ok {
      AcceptedWriteLasts(f, s, es, t.n, k, |es| - 1);
    }
  }

  /**
   Failure atomicity: for every cause and every interleaving, the stretches of a computation that
   fails leave memory and INT_STATUS as each of them found them, and the last sets IDLE|ERROR.
   */
  lemma FailureIsAtomic(f: FloatUnit, s: State, es: seq<Event>)
    requires Begins(s) && Feasible(f, s, es) && es != [] && es[0].RunCompute? && es[|es| - 1].RunCompute?
    requires UnderWay(f, s, es, |es| - 1) && Fails(At(f, s, es, |es| - 1))
    ensures forall k :: 0 <= k < |es| && es[k].RunCompute? ==>
              && At(f, s, es, k + 1).mem == At(f, s, es, k).mem
              && At(f, s, es, k + 1).regs.intStatus == At(f, s, es, k).regs.intStatus
    ensures Exec(f, s, es).regs.status == 9 && Exec(f, s, es).compute.Waiting?
  {
    var m := |es| - 1;
    assert At(f, s, es, m) == Exec(f, s, es[..m]);
    FailureEnds(f, At(f, s, es, m));
    forall k | 0 <= k < |es| && es[k].RunCompute?
      ensures At(f, s, es, k + 1).mem == At(f, s, es, k).mem
      ensures At(f, s, es, k + 1).regs.intStatus == At(f, s, es, k).regs.intStatus
    {
      FailingStretch(f, s, es, k);
    }
  }

  lemma FailureEnds(f: FloatUnit, t: State)
    requires Fails(t)
    ensures var u := Step(f, t, RunCompute);
            && u.regs.status == 9 && u.compute.Waiting?
            && u.mem == t.mem && u.regs.intStatus == t.regs.intStatus
  {
  }

  lemma FailingStretch(f: FloatUnit, s: State, es: seq<Event>, k: nat)
    requires Begins(s) && k < |es| && es[k].RunCompute?
    requires UnderWay(f, s, es, |es| - 1) && Fails(At(f, s, es, |es| - 1))
    ensures At(f, s, es, k + 1).mem == At(f, s, es, k).mem
    ensures At(f, s, es, k + 1).regs.intStatus == At(f, s, es, k).regs.intStatus
  {
    AtStep(f, s, es, k);
    if k == |es| - 1 {
      FailureEnds(f, At(f, s, es, k));
    } else {
      Tracking(f, s, es[..k]);
      NoAcceptedWrite(f, s, es, k + 1);
      StretchKeeps(f, At(f, s, es, k), Observe(f, s, es[..k]));
    }
  }

  /** A stretch that leaves the computation under way, without an accepted write, changes neither. */
  lemma StretchKeeps(f: FloatUnit, t: State, j: Job)
    requires Tracks(f, t.compute, j)
    requires var u := Step(f, t, RunCompute).compute; u.Computing() && !(u.WroteC? && u.ok)
    ensures Step(f, t, RunCompute).mem == t.mem && Step(f, t, RunCompute).regs.intStatus == t.regs.intStatus
  {
    ComputeFrame(f, t, j);
  }
}
