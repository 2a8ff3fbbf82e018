/**
 The test driver, generalised to any dimension and any addresses, together with the device and
 the scheduler: it configures the device, starts it, polls the interrupt line every 10 ns, and
 acknowledges.
 */
module PollingDriver {
  import opened Bytes
  import opened Matrix
  import opened Registers
  import opened HostMemory
  import opened Endpoint
  import opened Invariants
  import opened Refinement
  import opened Timing

  datatype Config = Config(n: Word, aPtr: Long, bPtr: Long, cPtr: Long)

  /** What the driver does when it next runs. */
  datatype Phase =
    | Boot | ReadStatus | WriteN | WriteA | WriteB | WriteC | WriteEnable | WriteStart
    | Polling | ReadInt | Acknowledge | Linger | Stopping | Stopped

  /** `wake` is when the driver runs next, `polls` the number of 10 ns waits of its polling loop so far. */
  datatype Sim = Sim(x: Timed, phase: Phase, wake: nat, polls: nat, status: Word, intStatus: Word)

  datatype Move = RunDriver | RunThread | RunIrq | UpdateSignal | AdvanceTime

  function Start(mem: seq<Byte>): Sim
  {
    Sim(TimedInit(mem), Boot, 0, 0, 0, 0)
  }

  function Read32(addr: Long): Event
  {
    Transport(ReadCommand, addr, [0, 0, 0, 0])
  }

  function Write64(addr: Long, v: Long): Event
  {
    Transport(WriteCommand, addr, ToLE(v, 8))
  }

  /** The access the driver makes in this phase, if any. */
  function Access(cfg: Config, d: Sim): seq<Event>
  {
    match d.phase
    case ReadStatus => [Read32(0x0004)]
    case WriteN => [Write32(0x0008, cfg.n)]
    case WriteA => [Write64(0x0010, cfg.aPtr)]
    case WriteB => [Write64(0x0018, cfg.bPtr)]
    case WriteC => [Write64(0x0020, cfg.cPtr)]
    case WriteEnable => [Write32(0x002C, 0x1)]
    case WriteStart => [Write32(0x0000, 0x1)]
    case Polling => if d.x.shown then [Read32(0x0004)] else []
    case ReadInt => [Read32(0x0028)]
    case Acknowledge => [Write32(0x0028, d.intStatus)]
    case _ => []
  }

  function NextPhase(d: Sim): Phase
  {
    match d.phase
    case Boot => ReadStatus
    case ReadStatus => WriteN
    case WriteN => WriteA
    case WriteA => WriteB
    case WriteB => WriteC
    case WriteC => WriteEnable
    case WriteEnable => WriteStart
    case WriteStart => Polling
    case Polling => if d.x.shown then ReadInt else Polling
    case ReadInt => Acknowledge
    case Acknowledge => Linger
    case Linger => Stopping
    case _ => Stopped
  }

  function DriverStep(f: FloatUnit, cfg: Config, d: Sim): Sim
  {
    var access, regs := Access(cfg, d), d.x.s.regs;
    Sim(if access == [] then d.x else TickStep(f, d.x, Host(access[0])),
        NextPhase(d),
        d.x.now + (if d.phase.Boot? || d.phase.Linger? then 100 else 10),
        if d.phase.Polling? && !d.x.shown then d.polls + 1 else d.polls,
        if d.phase.ReadStatus? || (d.phase.Polling? && d.x.shown) then ReadValue(regs, 0x0004) else d.status,
        if d.phase.ReadInt? then ReadValue(regs, 0x0028) else d.intStatus)
  }

  predicate DriverReady(d: Sim)
  {
    !d.phase.Stopped? && d.x.now == d.wake
  }

  predicate CanMove(d: Sim, m: Move)
  {
    !d.phase.Stopped? &&
    match m
    case RunDriver => DriverReady(d)
    case RunThread => CanTick(d.x, Compute)
    case RunIrq => CanTick(d.x, Interrupt)
    case UpdateSignal => !DriverReady(d) && CanTick(d.x, Update)
    case AdvanceTime => !DriverReady(d) && Settled(d.x) && d.x.shown == d.x.s.line
  }

  /** The next instant at which something is due. */
  function NextTime(d: Sim): nat
  {
    if d.x.s.compute.Computing() && d.x.due < d.wake then d.x.due else d.wake
  }

  function MoveStep(f: FloatUnit, cfg: Config, d: Sim, m: Move): Sim
  {
    match m
    case RunDriver => DriverStep(f, cfg, d)
    case RunThread => d.(x := TickStep(f, d.x, Compute))
    case RunIrq => d.(x := TickStep(f, d.x, Interrupt))
    case UpdateSignal => d.(x := TickStep(f, d.x, Update))
    case AdvanceTime => d.(x := d.x.(now := NextTime(d)))
  }

  function SimExec(f: FloatUnit, cfg: Config, mem: seq<Byte>, ms: seq<Move>): Sim
    decreases |ms|
  {
    if ms == [] then Start(mem) else MoveStep(f, cfg, SimExec(f, cfg, mem, ms[..|ms| - 1]), ms[|ms| - 1])
  }

  /** A schedule: each move was possible when it was made. */
  predicate Schedule(f: FloatUnit, cfg: Config, mem: seq<Byte>, ms: seq<Move>)
    decreases |ms|
  {
    ms == [] ||
    (Schedule(f, cfg, mem, ms[..|ms| - 1]) && CanMove(SimExec(f, cfg, mem, ms[..|ms| - 1]), ms[|ms| - 1]))
  }

  // ---------------------------------------------------------------- the invariant

  /** No window wraps around the address space, where the target's bounds check is undefined. */
  ghost predicate Safe(cfg: Config)
  {
    var top, bytes := 0x1_0000_0000_0000_0000, 4 * (cfg.n * cfg.n);
    1 <= cfg.n <= 256 ==> cfg.aPtr + bytes < top && cfg.bPtr + bytes < top && cfg.cPtr + bytes < top
  }

  ghost predicate Good(cfg: Config, mem: seq<Byte>)
  {
    var bytes := 4 * (cfg.n * cfg.n);
    1 <= cfg.n <= 256 && cfg.aPtr + bytes <= |mem| && cfg.bPtr + bytes <= |mem| && cfg.cPtr + bytes <= |mem|
  }

  /** Registers after the first k configuration writes. */
  function Configured(cfg: Config, k: nat): Registers
  {
    ResetRegisters().(dimN := if k >= 1 then cfg.n else 0,
                      aPtr := if k >= 2 then cfg.aPtr else 0,
                      bPtr := if k >= 3 then cfg.bPtr else 0,
                      cPtr := if k >= 4 then cfg.cPtr else 0,
                      intEnable := if k >= 5 then 1 else 0)
  }

  /** The state in which the thread takes up the driver's request. */
  function Launched(cfg: Config, mem: seq<Byte>): State
  {
    State(Configured(cfg, 5).(control := 1, requested := true), Woken, Idle, false, mem)
  }

  const START_TIME: nat := 160

  /** When a successful computation ends. */
  function EndTime(cfg: Config): nat
  {
    START_TIME + 210 + 2 * (cfg.n * cfg.n)
  }

  function WritesBefore(p: Phase): nat
  {
    match p
    case WriteA => 1
    case WriteB => 2
    case WriteC => 3
    case WriteEnable => 4
    case WriteStart => 5
    case _ => 0
  }

  predicate SettingUp(p: Phase)
  {
    p.Boot? || p.ReadStatus? || p.WriteN? || p.WriteA? || p.WriteB? || p.WriteC? || p.WriteEnable? || p.WriteStart?
  }

  function SetupTime(p: Phase): nat
  {
    if p.Boot? then 0 else if p.ReadStatus? then 100 else 110 + 10 * WritesBefore(p)
  }

  ghost predicate SetupInv(cfg: Config, mem: seq<Byte>, d: Sim)
  {
    var s := d.x.s;
    && d.wake == SetupTime(d.phase) && d.x.now <= d.wake && d.polls == 0
    && s.regs == Configured(cfg, WritesBefore(d.phase)) && s.mem == mem
    && (s.compute.Waiting? || (s.compute.Unstarted? && d.x.now == 0))
    && !s.line && !d.x.shown
    && (if d.phase.WriteStart? then s.irq.Idle? || (s.irq.Starting? && d.x.now < d.wake) else s.irq.NotStarted?)
  }

  /** The device between the START and the acknowledge. */
  ghost predicate Working(f: FloatUnit, cfg: Config, mem: seq<Byte>, x: Timed)
  {
    var s, b := x.s, Launched(cfg, mem);
    && !s.line && !x.shown && s.irq.Idle?
    && if s.compute.Woken? then s == b && x.now == START_TIME
       else OnCourse(f, b, s) && s.regs == b.regs.(status := BUSY, requested := false) && OnTime(x, START_TIME)
  }

  ghost predicate Finished(f: FloatUnit, cfg: Config, mem: seq<Byte>, x: Timed)
  {
    var s, b, good := x.s, Launched(cfg, mem), Good(cfg, mem);
    && s.compute.Waiting? && s.mem == Reference(f, b).mem
    && s.regs == b.regs.(status := if good then 5 else 9, requested := false,
                         intStatus := if good then 1 else 0)
    && (s.irq.Idle? || s.irq.Notified?) && (x.shown ==> s.line)
    && s.line == (good && s.irq.Idle?)
    && (good ==> x.now >= EndTime(cfg) && (x.now > EndTime(cfg) ==> x.shown))
  }

  ghost predicate PollInv(f: FloatUnit, cfg: Config, mem: seq<Byte>, d: Sim)
  {
    && d.wake == 170 + 10 * d.polls && d.x.now <= d.wake
    && (Working(f, cfg, mem, d.x) || Finished(f, cfg, mem, d.x))
    && (Good(cfg, mem) && d.polls > 0 ==> 160 + 10 * d.polls <= EndTime(cfg))
    && (d.x.shown ==> d.wake > EndTime(cfg))
  }

  /** The number of 10 ns waits of the polling loop. */
  function Polls(cfg: Config): nat
  {
    21 + cfg.n * cfg.n / 5
  }

  function ExitTime(cfg: Config): nat
  {
    170 + 10 * Polls(cfg)
  }

  ghost predicate DoneInv(f: FloatUnit, cfg: Config, mem: seq<Byte>, d: Sim)
  {
    var s, b := d.x.s, Launched(cfg, mem);
    && Good(cfg, mem) && d.polls == Polls(cfg) && d.status == 5 && d.x.now <= d.wake
    && s.compute.Waiting? && s.mem == Reference(f, b).mem
    && d.wake == ExitTime(cfg) + (match d.phase
                                  case ReadInt => 10
                                  case Acknowledge => 20
                                  case Linger => 30
                                  case _ => if d.phase.Stopping? then 130 else 140)
    && (d.phase.ReadInt? || d.intStatus == 1) && (d.phase.Stopped? ==> d.x.now == ExitTime(cfg) + 130)
    && (if d.phase.ReadInt? || d.phase.Acknowledge?
        then s.regs == b.regs.(status := 5, requested := false, intStatus := 1)
             && s.irq.Idle? && s.line && d.x.shown
        else s.regs == b.regs.(status := 5, requested := false)
             && ((d.phase.Linger? && s.irq.Notified? && d.x.now < d.wake)
                 || (s.irq.Idle? && !s.line && (d.x.shown ==> d.phase.Linger? && d.x.now < d.wake))))
  }

  ghost predicate SimInv(f: FloatUnit, cfg: Config, mem: seq<Byte>, d: Sim)
  {
    if SettingUp(d.phase) then SetupInv(cfg, mem, d)
    else if d.phase.Polling? then PollInv(f, cfg, mem, d)
    else DoneInv(f, cfg, mem, d)
  }

  // ---------------------------------------------------------------- preservation

  lemma ReferenceIsGood(f: FloatUnit, cfg: Config, mem: seq<Byte>)
    ensures Reference(f, Launched(cfg, mem)).ok == Good(cfg, mem)
  {
  }

  /** The registers after an 8-byte write of a value. */
  lemma Write64Effects(f: FloatUnit, s: State, p: Long)
    ensures Step(f, s, Write64(REG_MATRIX_A_PTR, p)) == s.(regs := s.regs.(aPtr := p))
    ensures Step(f, s, Write64(REG_MATRIX_B_PTR, p)) == s.(regs := s.regs.(bPtr := p))
    ensures Step(f, s, Write64(REG_MATRIX_C_PTR, p)) == s.(regs := s.regs.(cPtr := p))
  {
    Pow256Values();
    FromToLE(p, 8);
  }

  /** Each configuration write moves the registers one stage on. */
  lemma SetupWrite(f: FloatUnit, cfg: Config, mem: seq<Byte>, d: Sim)
    requires SettingUp(d.phase) && SetupInv(cfg, mem, d) && DriverReady(d) && !d.phase.WriteStart?
    ensures SetupInv(cfg, mem, DriverStep(f, cfg, d)) && SettingUp(NextPhase(d))
  {
    var s := d.x.s;
    match d.phase
    case WriteN => Write32Effects(f, s, cfg.n);
    case WriteA => Write64Effects(f, s, cfg.aPtr);
    case WriteB => Write64Effects(f, s, cfg.bPtr);
    case WriteC => Write64Effects(f, s, cfg.cPtr);
    case WriteEnable => Write32Effects(f, s, 1);
    case _ =>
  }

  /** The START is accepted, because the device is idle and its thread is waiting. */
  lemma StartWrite(f: FloatUnit, cfg: Config, mem: seq<Byte>, d: Sim)
    requires d.phase.WriteStart? && SetupInv(cfg, mem, d) && DriverReady(d)
    ensures PollInv(f, cfg, mem, DriverStep(f, cfg, d)) && NextPhase(d).Polling?
  {
    WordRoundTrip(1, ToLE(1, 4));
    assert DriverStep(f, cfg, d).x.s == Launched(cfg, mem);
  }

  lemma SetupDriver(f: FloatUnit, cfg: Config, mem: seq<Byte>, d: Sim)
    requires SettingUp(d.phase) && SetupInv(cfg, mem, d) && DriverReady(d)
    ensures SimInv(f, cfg, mem, DriverStep(f, cfg, d))
  {
    if d.phase.WriteStart? {
      StartWrite(f, cfg, mem, d);
    } else {
      SetupWrite(f, cfg, mem, d);
    }
  }

  lemma {:induction false} RowTimeGrows(n: nat, i: nat, k: nat)
    requires i <= k
    ensures RowTime(n, i) <= RowTime(n, k)
    decreases k
  {
    if i < k {
      RowTimeGrows(n, i, k - 1);
    }
  }

  /** A working device is due no later than a successful end. */
  lemma DueInTime(f: FloatUnit, cfg: Config, mem: seq<Byte>, x: Timed)
    requires Good(cfg, mem) && Working(f, cfg, mem, x) && x.s.compute.Computing()
    ensures x.due <= EndTime(cfg)
    ensures Succeeds(x.s) ==> x.due == EndTime(cfg)
  {
    RowTimeTotal(cfg.n, cfg.n);
    if x.s.compute.RowDone? {
      RowTimeGrows(cfg.n, x.s.compute.i + 1, cfg.n);
    }
  }

  /** The poll that sees the line high is the first after the end time, which fixes its number. */
  lemma ExactPolls(cfg: Config, polls: nat)
    requires 170 + 10 * polls > EndTime(cfg)
    requires polls > 0 ==> 160 + 10 * polls <= EndTime(cfg)
    ensures polls == Polls(cfg)
  {
    var q: nat := cfg.n * cfg.n;
    assert EndTime(cfg) == 370 + 2 * q;
  }

  lemma PollExits(f: FloatUnit, cfg: Config, mem: seq<Byte>, d: Sim)
    requires d.phase.Polling? && PollInv(f, cfg, mem, d) && DriverReady(d) && d.x.shown
    ensures DoneInv(f, cfg, mem, DriverStep(f, cfg, d)) && NextPhase(d).ReadInt?
  {
    ExactPolls(cfg, d.polls);
  }

  /** Until the line is seen high, a good computation is not past its end. */
  lemma NotPastEnd(f: FloatUnit, cfg: Config, mem: seq<Byte>, x: Timed)
    requires Good(cfg, mem) && !x.shown && (Working(f, cfg, mem, x) || Finished(f, cfg, mem, x))
    ensures x.now <= EndTime(cfg)
  {
    if Working(f, cfg, mem, x) && x.s.compute.Computing() {
      DueInTime(f, cfg, mem, x);
    }
  }

  lemma PollWaits(f: FloatUnit, cfg: Config, d: Sim)
    requires d.phase.Polling? && !d.x.shown
    ensures DriverStep(f, cfg, d) == d.(wake := d.x.now + 10, polls := d.polls + 1)
  {
  }

  lemma PollRepeats(f: FloatUnit, cfg: Config, mem: seq<Byte>, d: Sim)
    requires d.phase.Polling? && PollInv(f, cfg, mem, d) && DriverReady(d) && !d.x.shown
    ensures PollInv(f, cfg, mem, DriverStep(f, cfg, d)) && NextPhase(d).Polling?
  {
    if Good(cfg, mem) {
      NotPastEnd(f, cfg, mem, d.x);
    }
    PollWaits(f, cfg, d);
  }

  lemma PollDriver(f: FloatUnit, cfg: Config, mem: seq<Byte>, d: Sim)
    requires d.phase.Polling? && PollInv(f, cfg, mem, d) && DriverReady(d)
    ensures SimInv(f, cfg, mem, DriverStep(f, cfg, d))
  {
    if d.x.shown {
      PollExits(f, cfg, mem, d);
    } else {
      PollRepeats(f, cfg, mem, d);
    }
  }

  lemma DoneDriver(f: FloatUnit, cfg: Config, mem: seq<Byte>, d: Sim)
    requires !SettingUp(d.phase) && !d.phase.Polling? && DoneInv(f, cfg, mem, d) && DriverReady(d)
    ensures SimInv(f, cfg, mem, DriverStep(f, cfg, d))
  {
    if d.phase.Acknowledge? {
      AcknowledgeClears(f, d.x.s);
    }
  }

  lemma AcknowledgeClears(f: FloatUnit, s: State)
    requires s.regs.intStatus == INT_DONE
    ensures Step(f, s, Write32(REG_INT_STATUS, INT_DONE)) == s.(regs := s.regs.(intStatus := 0), irq := NotifyIrq(s.irq))
  {
    WordRoundTrip(1, ToLE(1, 4));
    AndBits(1, 1);
  }

  lemma SetupDevice(f: FloatUnit, cfg: Config, mem: seq<Byte>, d: Sim, m: Move)
    requires SettingUp(d.phase) && SetupInv(cfg, mem, d) && CanMove(d, m) && !m.RunDriver?
    ensures SetupInv(cfg, mem, MoveStep(f, cfg, d, m))
  {
  }

  lemma DoneDevice(f: FloatUnit, cfg: Config, mem: seq<Byte>, d: Sim, m: Move)
    requires !SettingUp(d.phase) && !d.phase.Polling? && DoneInv(f, cfg, mem, d) && CanMove(d, m) && !m.RunDriver?
    ensures DoneInv(f, cfg, mem, MoveStep(f, cfg, d, m))
  {
    AndBits(0, 1);
  }

  /** The thread takes up the request. */
  lemma PollBegins(f: FloatUnit, cfg: Config, mem: seq<Byte>, x: Timed)
    requires Working(f, cfg, mem, x) && x.s.compute.Woken?
    ensures Working(f, cfg, mem, RunDevice(f, x)) || (!Good(cfg, mem) && Finished(f, cfg, mem, RunDevice(f, x)))
    ensures !RunDevice(f, x).shown
  {
    OnTimeCompute(f, x, START_TIME);
    if ValidDim(cfg.n) {
      CourseBegins(f, Launched(cfg, mem));
    }
  }

  /** The thread goes on with the computation, or ends it. */
  lemma PollContinues(f: FloatUnit, cfg: Config, mem: seq<Byte>, x: Timed)
    requires Working(f, cfg, mem, x) && x.s.compute.Computing() && ComputeReady(x)
    ensures Working(f, cfg, mem, RunDevice(f, x)) || Finished(f, cfg, mem, RunDevice(f, x))
    ensures !RunDevice(f, x).shown
  {
    OnTimeCompute(f, x, START_TIME);
    CourseStep(f, Launched(cfg, mem), x.s);
    ReferenceIsGood(f, cfg, mem);
    if Good(cfg, mem) {
      DueInTime(f, cfg, mem, x);
    }
  }

  /** A stretch of the compute thread, from the START on. */
  lemma PollThread(f: FloatUnit, cfg: Config, mem: seq<Byte>, d: Sim)
    requires d.phase.Polling? && PollInv(f, cfg, mem, d) && CanMove(d, RunThread)
    ensures PollInv(f, cfg, mem, MoveStep(f, cfg, d, RunThread))
  {
    assert Working(f, cfg, mem, d.x);
    if d.x.s.compute.Woken? {
      PollBegins(f, cfg, mem, d.x);
    } else {
      PollContinues(f, cfg, mem, d.x);
    }
  }

  lemma PollOther(f: FloatUnit, cfg: Config, mem: seq<Byte>, d: Sim, m: Move)
    requires d.phase.Polling? && PollInv(f, cfg, mem, d) && CanMove(d, m) && !m.RunDriver? && !m.RunThread?
    ensures PollInv(f, cfg, mem, MoveStep(f, cfg, d, m))
  {
    AndBits(1, 1);
    AndBits(0, 1);
  }

  lemma MoveKeeps(f: FloatUnit, cfg: Config, mem: seq<Byte>, d: Sim, m: Move)
    requires SimInv(f, cfg, mem, d) && CanMove(d, m)
    ensures SimInv(f, cfg, mem, MoveStep(f, cfg, d, m))
  {
    if SettingUp(d.phase) {
      if m.RunDriver? { SetupDriver(f, cfg, mem, d); } else { SetupDevice(f, cfg, mem, d, m); }
    } else if d.phase.Polling? {
      if m.RunDriver? { PollDriver(f, cfg, mem, d); }
      else if m.RunThread? { PollThread(f, cfg, mem, d); }
      else { PollOther(f, cfg, mem, d, m); }
    } else {
      if m.RunDriver? { DoneDriver(f, cfg, mem, d); } else { DoneDevice(f, cfg, mem, d, m); }
    }
  }

  lemma {:induction false} EverySchedule(f: FloatUnit, cfg: Config, mem: seq<Byte>, ms: seq<Move>)
    requires Schedule(f, cfg, mem, ms)
    ensures SimInv(f, cfg, mem, SimExec(f, cfg, mem, ms))
    decreases |ms|
  {
    if ms != [] {
      EverySchedule(f, cfg, mem, ms[..|ms| - 1]);
      MoveKeeps(f, cfg, mem, SimExec(f, cfg, mem, ms[..|ms| - 1]), ms[|ms| - 1]);
    }
  }

  // ---------------------------------------------------------------- what the driver sees

  /** Has the driver left its polling loop? */
  predicate LeftLoop(d: Sim)
  {
    !SettingUp(d.phase) && !d.phase.Polling?
  }

  lemma PollsBound(cfg: Config, polls: nat)
    requires polls > 0 ==> 160 + 10 * polls <= EndTime(cfg)
    ensures polls <= Polls(cfg)
  {
    var q: nat := cfg.n * cfg.n;
    assert EndTime(cfg) == 370 + 2 * q;
  }

  /**
   For every schedule: the driver leaves its loop only if the configuration is good, and then after
   exactly 21 + n*n/5 waits, having read IDLE|DONE; it then reads INT_DONE, and once its acknowledge
   has been served the line is low. In the loop it never waits more often than that.
   */
  lemma DriverOutcome(f: FloatUnit, cfg: Config, mem: seq<Byte>, ms: seq<Move>)
    requires Schedule(f, cfg, mem, ms) && Safe(cfg)
    ensures var d := SimExec(f, cfg, mem, ms);
            && (Good(cfg, mem) ==> d.polls <= 21 + cfg.n * cfg.n / 5)
            && (LeftLoop(d) ==> Good(cfg, mem) && d.polls == 21 + cfg.n * cfg.n / 5 && d.status == 5
                                && d.x.s.mem == Reference(f, Launched(cfg, mem)).mem)
            && (LeftLoop(d) && !d.phase.ReadInt? ==> d.intStatus == 1)
            && (d.phase.Stopping? || d.phase.Stopped? ==> !d.x.s.line && !d.x.shown)
  {
    EverySchedule(f, cfg, mem, ms);
    var d := SimExec(f, cfg, mem, ms);
    if d.phase.Polling? && Good(cfg, mem) {
      PollsBound(cfg, d.polls);
    }
  }

  /** With a bad configuration no schedule ever raises the line, so the loop is never left, though the simulation goes on. */
  lemma BadConfigNeverExits(f: FloatUnit, cfg: Config, mem: seq<Byte>, ms: seq<Move>)
    requires Schedule(f, cfg, mem, ms) && Safe(cfg) && !Good(cfg, mem)
    ensures var d := SimExec(f, cfg, mem, ms);
            !LeftLoop(d) && !d.x.s.line && !d.x.shown && exists m: Move :: CanMove(d, m)
  {
    EverySchedule(f, cfg, mem, ms);
    AlwaysMoves(f, cfg, mem, SimExec(f, cfg, mem, ms));
  }

  // ---------------------------------------------------------------- progress

  /** Some process, the signal update, or time can always move on: the simulation never jams. */
  lemma AlwaysMoves(f: FloatUnit, cfg: Config, mem: seq<Byte>, d: Sim)
    requires SimInv(f, cfg, mem, d) && Safe(cfg) && !d.phase.Stopped?
    ensures exists m: Move :: CanMove(d, m)
  {
    if DriverReady(d) {
      assert CanMove(d, RunDriver);
    } else if d.x.s.irq.Runnable() {
      assert CanMove(d, RunIrq);
    } else if ComputeReady(d.x) {
      assert CanMove(d, RunThread);
    } else if d.x.shown != d.x.s.line {
      assert CanMove(d, UpdateSignal);
    } else {
      assert CanMove(d, AdvanceTime);
    }
  }

  /** Work left in the current instant; each kind of process outweighs all it can wake. */
  function Rank(d: Sim): nat
  {
    (if DriverReady(d) then 8 else 0) + (if ComputeReady(d.x) then 4 else 0)
    + (if d.x.s.irq.Runnable() then 2 else 0) + (if d.x.shown != d.x.s.line then 1 else 0)
  }

  lemma DriverProgresses(f: FloatUnit, cfg: Config, d: Sim)
    requires DriverReady(d)
    ensures DriverStep(f, cfg, d).x.now == d.x.now && Rank(DriverStep(f, cfg, d)) < 8 <= Rank(d)
  {
    assert DriverStep(f, cfg, d).wake > d.x.now;
  }

  lemma ThreadProgresses(f: FloatUnit, x: Timed)
    requires ComputeReady(x) && (x.s.compute.Computing() ==> x.s.compute.n >= 1)
    ensures var y := RunDevice(f, x);
            !ComputeReady(y) && y.now == x.now && y.shown == x.shown && y.s.line == x.s.line
  {
  }

  lemma ComputingHasRows(f: FloatUnit, cfg: Config, mem: seq<Byte>, d: Sim)
    requires SimInv(f, cfg, mem, d) && d.x.s.compute.Computing()
    ensures d.x.s.compute.n >= 1
  {
  }

  lemma ThreadMove(f: FloatUnit, cfg: Config, d: Sim)
    requires ComputeReady(d.x) && (d.x.s.compute.Computing() ==> d.x.s.compute.n >= 1)
    ensures var e := MoveStep(f, cfg, d, RunThread); e.x.now == d.x.now && Rank(e) < Rank(d)
  {
    ThreadProgresses(f, d.x);
  }

  lemma IrqMove(f: FloatUnit, cfg: Config, d: Sim)
    requires d.x.s.irq.Runnable()
    ensures var e := MoveStep(f, cfg, d, RunIrq); e.x.now == d.x.now && Rank(e) < Rank(d)
  {
  }

  lemma UpdateMove(f: FloatUnit, cfg: Config, d: Sim)
    requires d.x.shown != d.x.s.line
    ensures var e := MoveStep(f, cfg, d, UpdateSignal); e.x.now == d.x.now && Rank(e) < Rank(d)
  {
  }

  /** Every move either advances time or uses up work of the current instant. */
  lemma MoveProgresses(f: FloatUnit, cfg: Config, mem: seq<Byte>, d: Sim, m: Move)
    requires SimInv(f, cfg, mem, d) && CanMove(d, m)
    ensures var e := MoveStep(f, cfg, d, m);
            e.x.now > d.x.now || (e.x.now == d.x.now && Rank(e) < Rank(d))
  {
    match m
    case RunDriver => DriverProgresses(f, cfg, d);
    case RunThread =>
      if d.x.s.compute.Computing() { ComputingHasRows(f, cfg, mem, d); }
      ThreadMove(f, cfg, d);
    case RunIrq => IrqMove(f, cfg, d);
    case UpdateSignal => UpdateMove(f, cfg, d);
    case AdvanceTime => TimeProgresses(f, cfg, mem, d);
  }

  lemma TimeProgresses(f: FloatUnit, cfg: Config, mem: seq<Byte>, d: Sim)
    requires SimInv(f, cfg, mem, d) && CanMove(d, AdvanceTime)
    ensures NextTime(d) > d.x.now
  {
  }

  /** The tick of the timed device that a move amounts to, if any. */
  function AsTicks(cfg: Config, d: Sim, m: Move): seq<Tick>
  {
    match m
    case RunDriver => if Access(cfg, d) == [] then [] else [Host(Access(cfg, d)[0])]
    case RunThread => [Compute]
    case RunIrq => [Interrupt]
    case UpdateSignal => [Update]
    case AdvanceTime => [Advance(NextTime(d))]
  }

  lemma DriverIsTick(f: FloatUnit, cfg: Config, d: Sim)
    requires CanMove(d, RunDriver)
    ensures var access := Access(cfg, d);
            if access == [] then DriverStep(f, cfg, d).x == d.x
            else |access| == 1 && CanTick(d.x, Host(access[0])) && DriverStep(f, cfg, d).x == TickStep(f, d.x, Host(access[0]))
  {
  }

  lemma AdvanceIsTick(f: FloatUnit, cfg: Config, mem: seq<Byte>, d: Sim)
    requires SimInv(f, cfg, mem, d) && CanMove(d, AdvanceTime)
    ensures CanTick(d.x, Advance(NextTime(d)))
  {
    TimeProgresses(f, cfg, mem, d);
  }

  lemma MoveIsTick(f: FloatUnit, cfg: Config, mem: seq<Byte>, d: Sim, m: Move)
    requires SimInv(f, cfg, mem, d) && CanMove(d, m)
    ensures var ts := AsTicks(cfg, d, m);
            if ts == [] then MoveStep(f, cfg, d, m).x == d.x
            else |ts| == 1 && CanTick(d.x, ts[0]) && MoveStep(f, cfg, d, m).x == TickStep(f, d.x, ts[0])
  {
    match m
    case RunDriver => DriverIsTick(f, cfg, d);
    case AdvanceTime => AdvanceIsTick(f, cfg, mem, d);
    case _ =>
  }

  /** Every schedule is a timed run of the device, hence also an interleaving of the untimed machine. */
  lemma {:induction false} ScheduleIsTimedRun(f: FloatUnit, cfg: Config, mem: seq<Byte>, ms: seq<Move>) returns (ts: seq<Tick>)
    requires Schedule(f, cfg, mem, ms)
    ensures TimedFeasible(f, TimedInit(mem), ts) && TimedExec(f, TimedInit(mem), ts) == SimExec(f, cfg, mem, ms).x
    decreases |ms|
  {
    ts := [];
    if ms != [] {
      var front, m := ms[..|ms| - 1], ms[|ms| - 1];
      var d := SimExec(f, cfg, mem, front);
      var before := ScheduleIsTimedRun(f, cfg, mem, front);
      EverySchedule(f, cfg, mem, front);
      MoveIsTick(f, cfg, mem, d, m);
      var next := AsTicks(cfg, d, m);
      ts := before + next;
      assert next != [] ==> ts[..|ts| - 1] == before;
      assert next == [] ==> ts == before;
    }
  }

  lemma TimeIsBounded(f: FloatUnit, cfg: Config, mem: seq<Byte>, d: Sim)
    requires SimInv(f, cfg, mem, d) && Good(cfg, mem)
    ensures d.x.now <= ExitTime(cfg) + 140
  {
    var q: nat := cfg.n * cfg.n;
    assert EndTime(cfg) == 370 + 2 * q;
  }

  /** The whole simulation, with the scheduler free to pick any possible move, ends and ends well. */
  method Simulate(f: FloatUnit, cfg: Config, mem: seq<Byte>) returns (d: Sim)
    requires Safe(cfg) && Good(cfg, mem)
    ensures d.phase.Stopped? && d.polls == 21 + cfg.n * cfg.n / 5 && d.x.now == 510 + 10 * (cfg.n * cfg.n / 5)
    ensures d.status == 5 && d.intStatus == 1 && !d.x.shown
    ensures d.x.s.mem == AtomicMultiply(f, mem, cfg.n, cfg.aPtr, cfg.bPtr, cfg.cPtr).mem
  {
    d := Start(mem);
    while !d.phase.Stopped?
      invariant SimInv(f, cfg, mem, d)
      decreases ExitTime(cfg) + 140 - d.x.now, Rank(d)
    {
      AlwaysMoves(f, cfg, mem, d);
      var m: Move :| CanMove(d, m);
      MoveKeeps(f, cfg, mem, d, m);
      MoveProgresses(f, cfg, mem, d, m);
      TimeIsBounded(f, cfg, mem, MoveStep(f, cfg, d, m));
      d := MoveStep(f, cfg, d, m);
    }
  }

  /** With an identity matrix for A, and arithmetic that is neutral on B's elements, C becomes a copy of B. */
  lemma IdentityCopies(f: FloatUnit, one: Word, cfg: Config, mem: seq<Byte>)
    requires Good(cfg, mem) && |mem| < 0x1_0000_0000_0000_0000
    requires LoadMatrix(mem, cfg.aPtr, cfg.n) == IdentityRows(cfg.n, one, cfg.n)
    requires NeutralOn(f, one, LoadMatrix(mem, cfg.bPtr, cfg.n))
    ensures var m, len := AtomicMultiply(f, mem, cfg.n, cfg.aPtr, cfg.bPtr, cfg.cPtr).mem, 4 * (cfg.n * cfg.n);
            |m| == |mem| && m[cfg.cPtr..cfg.cPtr + len] == mem[cfg.bPtr..cfg.bPtr + len]
  {
    IdentityProduct(f, one, LoadMatrix(mem, cfg.bPtr, cfg.n), cfg.n);
    ReferenceExactly(f, mem, cfg.n, cfg.aPtr, cfg.bPtr, cfg.cPtr);
    CopiesWindow(f, mem, cfg.n, cfg.aPtr, cfg.bPtr, cfg.cPtr);
  }

  /**
   The test bench: dimension 4, an identity matrix at 0x1000, any matrix at 0x2000 on whose elements
   the arithmetic is neutral, the result at 0x3000. However it is scheduled, it stops after 540 ns and
   24 polls, having read status 5 and interrupt status 1, and the result is the second matrix.
   */
  method TestBench(f: FloatUnit, one: Word, mem: seq<Byte>) returns (d: Sim)
    requires |mem| == 16777216 && LoadMatrix(mem, 0x1000, 4) == IdentityRows(4, one, 4)
    requires NeutralOn(f, one, LoadMatrix(mem, 0x2000, 4))
    ensures d.phase.Stopped? && d.polls == 24 && d.x.now == 540 && d.status == 5 && d.intStatus == 1 && !d.x.shown
    ensures |d.x.s.mem| == |mem| && d.x.s.mem[0x3000..0x3040] == mem[0x2000..0x2040]
  {
    var cfg := Config(4, 0x1000, 0x2000, 0x3000);
    IdentityCopies(f, one, cfg, mem);
    d := Simulate(f, cfg, mem);
  }
}
