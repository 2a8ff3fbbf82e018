/**
 Simulated time. Within one instant processes run in any order, then the interrupt signal
 takes its written value, and only when nothing is left to run does time advance.
 */
module Timing {
  import opened Bytes
  import opened Matrix
  import opened Endpoint
  import opened Invariants

  const DMA_DELAY: nat := 50
  const MEMORY_DELAY: nat := 20

  /** `due` is when the compute thread's timed wait ends; `shown` is the value a reader of the signal sees. Times are in ns. */
  datatype Timed = Timed(s: State, now: nat, due: nat, shown: bool)

  datatype Tick = Host(e: Event) | Compute | Interrupt | Update | Advance(to: nat)

  function TimedInit(mem: seq<Byte>): Timed
  {
    Timed(Init(mem), 0, 0, false)
  }

  /** A transfer costs the initiator's delay, plus the target's if it is accepted. */
  function TransferTime(ok: bool): nat
  {
    DMA_DELAY + if ok then MEMORY_DELAY else 0
  }

  /** How long the wait lasts that the thread has just entered. */
  function WaitTime(t: Thread): nat
  {
    match t
    case ReadA(_, _, ok) => TransferTime(ok)
    case ReadB(_, _, _, ok) => TransferTime(ok)
    case RowDone(n, _, _, _, _) => 2 * n
    case WroteC(_, ok) => TransferTime(ok)
    case _ => 0
  }

  predicate ComputeReady(x: Timed)
  {
    x.s.compute.Unstarted? || x.s.compute.Woken? || (x.s.compute.Computing() && x.now == x.due)
  }

  predicate Settled(x: Timed)
  {
    !ComputeReady(x) && !x.s.irq.Runnable()
  }

  predicate CanTick(x: Timed, t: Tick)
  {
    match t
    case Host(e) => (e.Transport? || e.Store?) && Enabled(x.s, e)
    case Compute => ComputeReady(x) && Enabled(x.s, RunCompute)
    case Interrupt => x.s.irq.Runnable()
    case Update => Settled(x) && x.shown != x.s.line
    case Advance(to) => Settled(x) && x.shown == x.s.line && to > x.now && (x.s.compute.Computing() ==> to <= x.due)
  }

  function RunDevice(f: FloatUnit, x: Timed): Timed
  {
    var s := ComputeStep(f, x.s);
    x.(s := s, due := x.now + WaitTime(s.compute))
  }

  function TickStep(f: FloatUnit, x: Timed, t: Tick): Timed
  {
    match t
    case Host(e) => x.(s := Step(f, x.s, e))
    case Compute => RunDevice(f, x)
    case Interrupt => x.(s := InterruptStep(x.s))
    case Update => x.(shown := x.s.line)
    case Advance(to) => x.(now := to)
  }

  function TimedExec(f: FloatUnit, x: Timed, ts: seq<Tick>): Timed
    decreases |ts|
  {
    if ts == [] then x else TickStep(f, TimedExec(f, x, ts[..|ts| - 1]), ts[|ts| - 1])
  }

  predicate TimedFeasible(f: FloatUnit, x: Timed, ts: seq<Tick>)
    decreases |ts|
  {
    ts == [] || (TimedFeasible(f, x, ts[..|ts| - 1]) && CanTick(TimedExec(f, x, ts[..|ts| - 1]), ts[|ts| - 1]))
  }

  // ---------------------------------------------------------------- time forgets into interleaving

  function AsEvents(t: Tick): seq<Event>
  {
    match t
    case Host(e) => [e]
    case Compute => [RunCompute]
    case Interrupt => [RunInterrupt]
    case _ => []
  }

  function Untimed(ts: seq<Tick>): seq<Event>
    decreases |ts|
  {
    if ts == [] then [] else Untimed(ts[..|ts| - 1]) + AsEvents(ts[|ts| - 1])
  }

  lemma TickIsStep(f: FloatUnit, s: State, es: seq<Event>, x: Timed, t: Tick)
    requires Feasible(f, s, es) && Exec(f, s, es) == x.s && CanTick(x, t)
    ensures Feasible(f, s, es + AsEvents(t)) && Exec(f, s, es + AsEvents(t)) == TickStep(f, x, t).s
  {
    match t {
      case Host(e) => Snoc(f, s, es, e);
      case Compute => Snoc(f, s, es, RunCompute);
      case Interrupt => Snoc(f, s, es, RunInterrupt);
      case Update => assert es + AsEvents(t) == es;
      case Advance(_) => assert es + AsEvents(t) == es;
    }
  }

  /** Every timed run is a run of the untimed machine, so everything proved of all interleavings holds of it. */
  lemma {:induction false} TimedRunsAreRuns(f: FloatUnit, mem: seq<Byte>, ts: seq<Tick>)
    requires TimedFeasible(f, TimedInit(mem), ts)
    ensures Run(f, mem, Untimed(ts))
    ensures Exec(f, Init(mem), Untimed(ts)) == TimedExec(f, TimedInit(mem), ts).s
    decreases |ts|
  {
    if ts != [] {
      var front := ts[..|ts| - 1];
      TimedRunsAreRuns(f, mem, front);
      TickIsStep(f, Init(mem), Untimed(front), TimedExec(f, TimedInit(mem), front), ts[|ts| - 1]);
    }
  }

  // ---------------------------------------------------------------- latency

  /** When the latest computation began. */
  function BeganAt(f: FloatUnit, x: Timed, ts: seq<Tick>): nat
    decreases |ts|
  {
    if ts == [] then 0
    else
      var y := TimedExec(f, x, ts[..|ts| - 1]);
      if ts[|ts| - 1].Compute? && Begins(y.s) then y.now else BeganAt(f, x, ts[..|ts| - 1])
  }

  /** The waits after the first k rows. */
  function RowTime(n: nat, k: nat): nat
    decreases k
  {
    if k == 0 then 0 else RowTime(n, k - 1) + 2 * n
  }

  lemma {:induction false} RowTimeTotal(n: nat, k: nat)
    ensures RowTime(n, k) == 2 * (n * k)
    decreases k
  {
    if k > 0 {
      RowTimeTotal(n, k - 1);
      assert n * k == n * (k - 1) + n;
    }
  }

  /** Time from the beginning of a computation to the end of the wait it is in. */
  function Elapsed(t: Thread): nat
  {
    match t
    case ReadA(_, _, ok) => TransferTime(ok)
    case ReadB(_, _, _, ok) => TransferTime(true) + TransferTime(ok)
    case RowDone(n, _, _, _, i) => 2 * TransferTime(true) + RowTime(n, i + 1)
    case WroteC(n, ok) => 2 * TransferTime(true) + RowTime(n, n) + TransferTime(ok)
    case _ => 0
  }

  ghost predicate OnTime(x: Timed, began: nat)
  {
    x.s.compute.Computing() ==>
      && x.due == began + Elapsed(x.s.compute) && x.now <= x.due
      && (x.s.compute.RowDone? ==> x.s.compute.i < x.s.compute.n)
      && 1 <= x.s.compute.n <= MAX_DIM
  }

  /** One stretch at each location keeps the account of time. */
  lemma OnTimeBegin(f: FloatUnit, x: Timed)
    requires x.s.compute.Woken?
    ensures OnTime(RunDevice(f, x), x.now)
  {
  }

  lemma OnTimeReadA(f: FloatUnit, x: Timed, began: nat)
    requires OnTime(x, began) && x.s.compute.ReadA? && x.now == x.due
    ensures OnTime(RunDevice(f, x), began)
  {
  }

  lemma OnTimeReadB(f: FloatUnit, x: Timed, began: nat)
    requires OnTime(x, began) && x.s.compute.ReadB? && x.now == x.due
    ensures OnTime(RunDevice(f, x), began)
  {
    assert RowTime(x.s.compute.n, 1) == 2 * x.s.compute.n;
  }

  lemma OnTimeRow(f: FloatUnit, x: Timed, began: nat)
    requires OnTime(x, began) && x.s.compute.RowDone? && x.now == x.due
    ensures OnTime(RunDevice(f, x), began)
  {
  }

  lemma OnTimeCompute(f: FloatUnit, x: Timed, began: nat)
    requires OnTime(x, began) && ComputeReady(x)
    ensures OnTime(RunDevice(f, x), if Begins(x.s) then x.now else began)
  {
    match x.s.compute
    case Woken => OnTimeBegin(f, x);
    case ReadA(_, _, _) => OnTimeReadA(f, x, began);
    case ReadB(_, _, _, _) => OnTimeReadB(f, x, began);
    case RowDone(_, _, _, _, _) => OnTimeRow(f, x, began);
    case _ =>
  }

  lemma {:induction false} AlwaysOnTime(f: FloatUnit, mem: seq<Byte>, ts: seq<Tick>)
    requires TimedFeasible(f, TimedInit(mem), ts)
    ensures OnTime(TimedExec(f, TimedInit(mem), ts), BeganAt(f, TimedInit(mem), ts))
    decreases |ts|
  {
    if ts != [] {
      var front := ts[..|ts| - 1];
      AlwaysOnTime(f, mem, front);
      if ts[|ts| - 1].Compute? {
        OnTimeCompute(f, TimedExec(f, TimedInit(mem), front), BeganAt(f, TimedInit(mem), front));
      }
    }
  }

  /**
   Exact latency: in every timed run the stretch that ends a computation runs exactly 210 + 2n^2 ns
   after the one that began it if it succeeds, and 50, 120 or 190 + 2n^2 ns after it if A, B or C was
   bad; a bad n ends it in the stretch that begins it.
   */
  lemma ExactLatency(f: FloatUnit, mem: seq<Byte>, ts: seq<Tick>)
    requires TimedFeasible(f, TimedInit(mem), ts)
    requires var x := TimedExec(f, TimedInit(mem), ts); CanTick(x, Compute) && (Fails(x.s) || Succeeds(x.s))
    ensures var x, began := TimedExec(f, TimedInit(mem), ts), BeganAt(f, TimedInit(mem), ts);
            && (x.s.compute.Woken? ==> Begins(x.s))
            && (x.s.compute.ReadA? ==> x.now == began + 50)
            && (x.s.compute.ReadB? ==> x.now == began + 120)
            && (x.s.compute.WroteC? ==>
                  && 1 <= x.s.compute.n <= 256
                  && x.now == began + (if x.s.compute.ok then 210 else 190) + 2 * (x.s.compute.n * x.s.compute.n))
            && (Succeeds(x.s) ==> x.s.compute.WroteC? && x.now <= began + 131282)
  {
    AlwaysOnTime(f, mem, ts);
    var x := TimedExec(f, TimedInit(mem), ts);
    if x.s.compute.WroteC? {
      SizesInRange(x.s.compute.n, 0, 0);
      RowTimeTotal(x.s.compute.n, x.s.compute.n);
    }
  }
}
