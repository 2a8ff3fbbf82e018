/**
 The endpoint as an interleaved step machine. One step is one uninterrupted stretch of a
 process between two of its waits: a host access (which never waits), a stretch of the
 compute thread, or a stretch of the interrupt thread. Any runnable process may run next.
 */
module Endpoint {
  import opened Bytes
  import opened Matrix
  import opened Registers
  import opened HostMemory

  /** Where the compute thread is suspended, with the locals it holds there. */
  datatype Thread =
    | Unstarted                                                                // before its first wait
    | Waiting                                                                  // in wait(start_event)
    | Woken                                                                    // notified, not yet run
    | ReadA(n: nat, a: seq<Word>, ok: bool)                                    // in the DMA read of A
    | ReadB(n: nat, a: seq<Word>, b: seq<Word>, ok: bool)                      // in the DMA read of B
    | RowDone(n: nat, a: seq<Word>, b: seq<Word>, c: seq<Word>, i: nat)        // in the wait after row i
    | WroteC(n: nat, ok: bool)                                                 // in the DMA write of C
  {
    predicate Computing() { ReadA? || ReadB? || RowDone? || WroteC? }
  }

  /** The interrupt thread is not initialized: its first notification only brings it to its wait. */
  datatype Irq = NotStarted | Starting | Idle | Notified {
    predicate Runnable() { Starting? || Notified? }
  }

  /** `line` is the value last written to the interrupt signal. */
  datatype State = State(regs: Registers, compute: Thread, irq: Irq, line: bool, mem: seq<Byte>)

  datatype Event =
    | Transport(cmd: Command, addr: Long, data: seq<Byte>)   // a host access through BAR0
    | Store(addr: Long, data: seq<Byte>)                     // the host writes its own memory
    | RunCompute
    | RunInterrupt

  function Init(mem: seq<Byte>): State
  {
    State(ResetRegisters(), Unstarted, NotStarted, false, mem)
  }

  // ---------------------------------------------------------------- immediate notification

  /** A notification reaches only a process that is waiting. */
  function NotifyStart(t: Thread): Thread
  {
    if t.Waiting? then Woken else t
  }

  function NotifyIrq(i: Irq): Irq
  {
    match i
    case NotStarted => Starting
    case Idle => Notified
    case _ => i
  }

  // ---------------------------------------------------------------- host accesses

  function HostWrite(s: State, addr: Long, data: seq<Byte>): State
    requires |data| == 4 || |data| == 8
  {
    s.(regs := Write(s.regs, addr, data),
       compute := if AcceptsStart(s.regs, addr, data) then NotifyStart(s.compute) else s.compute,
       irq := if UpdatesInterrupt(addr) then NotifyIrq(s.irq) else s.irq)
  }

  predicate IsWrite(e: Event)
  {
    e.Transport? && e.cmd.WriteCommand? && (|e.data| == 4 || |e.data| == 8)
  }

  predicate IsReset(e: Event)
  {
    IsWrite(e) && Resets(e.addr, e.data)
  }

  // ---------------------------------------------------------------- compute thread

  predicate ValidDim(n: nat)
  {
    1 <= n <= MAX_DIM
  }

  function Fail(s: State): State
  {
    s.(regs := s.regs.(status := IDLE + ERROR), compute := Waiting, irq := NotifyIrq(s.irq))
  }

  function Succeed(s: State): State
  {
    var bits := if Bit0(s.regs.intStatus) then s.regs.intStatus else s.regs.intStatus + 1;
    s.(regs := s.regs.(status := IDLE + DONE, intStatus := bits), compute := Waiting, irq := NotifyIrq(s.irq))
  }

  /** The thread is about to take up a request. */
  predicate Begins(s: State)
  {
    s.compute.Woken? && s.regs.requested
  }

  function Begin(s: State): State
  {
    var n := s.regs.dimN;
    var busy := s.(regs := s.regs.(status := BUSY, requested := false));
    if !ValidDim(n) then Fail(busy)
    else busy.(compute := ReadA(n, LoadMatrix(s.mem, s.regs.aPtr, n), Fits(s.mem, s.regs.aPtr, n)))
  }

  function PutRow(c: seq<Word>, at: nat, row: seq<Word>): seq<Word>
  {
    if at + |row| <= |c| then Splice(c, at, row) else c
  }

  function ComputeStep(f: FloatUnit, s: State): State
  {
    match s.compute
    case Unstarted => s.(compute := Waiting)
    case Waiting => s
    case Woken => if s.regs.requested then Begin(s) else s.(compute := Waiting)
    case ReadA(n, a, ok) =>
      if !ok then Fail(s)
      else s.(compute := ReadB(n, a, LoadMatrix(s.mem, s.regs.bPtr, n), Fits(s.mem, s.regs.bPtr, n)))
    case ReadB(n, a, b, ok) =>
      if !ok then Fail(s)
      else s.(compute := RowDone(n, a, b, PutRow(Zeros(n * n), 0, Row(f, a, b, n, 0)), 0))
    case RowDone(n, a, b, c, i) =>
      if i + 1 < n then s.(compute := RowDone(n, a, b, PutRow(c, (i + 1) * n, Row(f, a, b, n, i + 1)), i + 1))
      else s.(compute := WroteC(n, Fits(s.mem, s.regs.cPtr, n)), mem := Stored(s.mem, s.regs.cPtr, BytesOf(c)))
    case WroteC(n, ok) => if ok then Succeed(s) else Fail(s)
  }

  /** The next stretch ends a computation: does it, and with which result? */
  predicate Fails(s: State)
  {
    match s.compute
    case Woken => s.regs.requested && !ValidDim(s.regs.dimN)
    case ReadA(_, _, ok) => !ok
    case ReadB(_, _, _, ok) => !ok
    case WroteC(_, ok) => !ok
    case _ => false
  }

  predicate Succeeds(s: State)
  {
    s.compute.WroteC? && s.compute.ok
  }

  /** DMA addresses for which the target's bounds check would wrap around are outside the model. */
  predicate NoWrap(p: Long, n: nat)
  {
    p + MatrixBytes(n) < ADDRESS_SPACE
  }

  predicate DmaDefined(s: State)
  {
    match s.compute
    case Woken => s.regs.requested && ValidDim(s.regs.dimN) ==> NoWrap(s.regs.aPtr, s.regs.dimN)
    case ReadA(n, _, ok) => ok ==> NoWrap(s.regs.bPtr, n)
    case RowDone(n, _, _, _, i) => i + 1 >= n ==> NoWrap(s.regs.cPtr, n)
    case _ => true
  }

  // ---------------------------------------------------------------- interrupt thread

  predicate Level(r: Registers)
  {
    And(r.intStatus, r.intEnable) != 0
  }

  function InterruptStep(s: State): State
  {
    match s.irq
    case Starting => s.(irq := Idle)
    case Notified => s.(irq := Idle, line := Level(s.regs))
    case _ => s
  }

  // ---------------------------------------------------------------- runs

  predicate Enabled(s: State, e: Event)
  {
    match e
    case Transport(cmd, addr, data) => cmd.ReadCommand? && |data| == 8 ==> DefinedRead(addr, 8)
    case Store(addr, data) => addr + |data| < ADDRESS_SPACE
    case RunCompute => !s.compute.Waiting? && DmaDefined(s)
    case RunInterrupt => s.irq.Runnable()
  }

  function Step(f: FloatUnit, s: State, e: Event): State
  {
    match e
    case Transport(_, addr, data) => if IsWrite(e) then HostWrite(s, addr, data) else s
    case Store(addr, data) => s.(mem := Stored(s.mem, addr, data))
    case RunCompute => ComputeStep(f, s)
    case RunInterrupt => InterruptStep(s)
  }

  /** The state after a sequence of events. */
  function Exec(f: FloatUnit, s: State, es: seq<Event>): State
    decreases |es|
  {
    if es == [] then s else Step(f, Exec(f, s, es[..|es| - 1]), es[|es| - 1])
  }

  predicate Feasible(f: FloatUnit, s: State, es: seq<Event>)
    decreases |es|
  {
    es == [] || (Feasible(f, s, es[..|es| - 1]) && Enabled(Exec(f, s, es[..|es| - 1]), es[|es| - 1]))
  }

  /** The state before event k of a run. */
  function At(f: FloatUnit, s: State, es: seq<Event>, k: nat): State
    requires k <= |es|
  {
    Exec(f, s, es[..k])
  }

  /** One more event: the next state, and the earlier states are those of the shorter run. */
  lemma AtStep(f: FloatUnit, s: State, es: seq<Event>, k: nat)
    requires k < |es|
    ensures At(f, s, es, k + 1) == Step(f, At(f, s, es, k), es[k])
  {
    assert es[..k + 1][..k] == es[..k];
  }

  lemma AtPrefix(f: FloatUnit, s: State, es: seq<Event>, m: nat, k: nat)
    requires k <= m <= |es|
    ensures At(f, s, es[..m], k) == At(f, s, es, k)
  {
    assert es[..m][..k] == es[..k];
  }
}
