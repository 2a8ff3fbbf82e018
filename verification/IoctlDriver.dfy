/** The kernel driver's ioctl calls against the 4x4 endpoint, one call at a time, with interrupts between any two register accesses. */
module IoctlDriver {
  import opened Bytes
  import opened Matrix
  import opened LazyMultiplier

  type Buffer = m: seq<Word> | |m| == CELLS witness Filled(0)

  /** The four commands and any other; `fault` says that the copy to or from user space fails. */
  datatype Call =
    | SetOp1(m: Buffer, fault: bool)
    | SetOp2(m: Buffer, fault: bool)
    | SetOpcode(v: Word, fault: bool)
    | GetResult(fault: bool)
    | Unknown

  datatype Reply = Success | Answer(m: seq<Word>) | BadAddress | Invalid

  /** The element of the second operand at the offset where interrupts are acknowledged, 0x64: row 1, column 1. */
  const STRUCK_CELL: nat := 5

  // ---------------------------------------------------------------- interrupts

  /** A second operand, with that element set to all ones if it was struck. */
  function Mark(m: seq<Word>, struck: bool): (m': seq<Word>)
    requires |m| == CELLS
    ensures |m'| == CELLS
  {
    if struck then m[STRUCK_CELL := ALL_ONES] else m
  }

  lemma MarkTwice(m: seq<Word>, a: bool, b: bool)
    requires |m| == CELLS
    ensures Mark(Mark(m, a), b) == Mark(m, a || b)
  {
  }

  lemma MarkIsSame(m: seq<Word>, struck: bool)
    requires |m| == CELLS
    ensures Mark(m, struck) == m <==> !struck || m[STRUCK_CELL] == ALL_ONES
  {
    assert Mark(m, true)[STRUCK_CELL] == ALL_ONES;
    assert m[STRUCK_CELL] == ALL_ONES ==> Mark(m, true) == m;
  }

  /** The handler's acknowledge lands in the second operand and strikes it. */
  function AfterInterrupt(r: Regs): (r': Regs)
    requires r.WellFormed()
    ensures r'.WellFormed()
  {
    r.(op2 := Mark(r.op2, true), valid := false)
  }

  function Interrupted(r: Regs, came: bool): (r': Regs)
    requires r.WellFormed()
    ensures r'.WellFormed()
  {
    if came then AfterInterrupt(r) else r
  }

  /** Several interrupts leave what one leaves. */
  lemma InterruptedTwice(r: Regs, a: bool, b: bool)
    requires r.WellFormed()
    ensures Interrupted(Interrupted(r, a), b) == Interrupted(r, a || b)
  {
    MarkTwice(r.op2, a, b);
  }

  /** The accesses of a call, numbered from 0, just before which one interrupt or several come. */
  type Hits = set<nat>

  /** An interrupt comes just before one of the accesses lo to hi - 1. */
  predicate Came(hits: Hits, lo: nat, hi: nat)
  {
    exists k :: lo <= k < hi && k in hits
  }

  lemma CameNext(hits: Hits, lo: nat, k: nat)
    ensures Came(hits, lo, k + 1) <==> Came(hits, lo, k) || (lo <= k && k in hits)
  {
  }

  /**
   The interrupt handler. The driver registers the address of its major number as the cookie, and the
   handler compares what the cookie points to with the major number: the test always holds, so any
   interrupt on the shared line is taken for the device's own.
   */
  method IrqHandler(dev: Multiplier) returns (handled: bool)
    requires dev.Valid()
    modifies dev, dev.op1, dev.op2, dev.result
    ensures handled && dev.Model() == AfterInterrupt(old(dev.Model()))
    ensures dev.op2[1, 1] == 0xFFFF_FFFF
  {
    var status := dev.HandleRead(0x24);
    dev.HandleWrite(0x64, status);
    FlatCell(dev.op2, 1, 1);
    return true;
  }

  // ---------------------------------------------------------------- what a call does

  /** The registers that the first read of GET_RESULT leaves. */
  function FirstRead(r: Regs, hits: Hits): (r': Regs)
    requires r.WellFormed()
    ensures r'.WellFormed()
  {
    AfterRead(Interrupted(r, 0 in hits), RESULT_BASE)
  }

  /** Registers after a call; of the interrupts during SET_OP2, those up to its write of the struck element leave no trace. */
  function AfterCall(r: Regs, c: Call, hits: Hits): (r': Regs)
    requires r.WellFormed()
    ensures r'.WellFormed()
  {
    match c
    case SetOp1(m, fault) =>
      if fault then r else Interrupted(r, Came(hits, 0, CELLS)).(op1 := m, valid := false)
    case SetOp2(m, fault) =>
      if fault then r else Interrupted(r.(op2 := m, valid := false), Came(hits, STRUCK_CELL + 1, CELLS))
    case SetOpcode(v, fault) =>
      if fault then r else Interrupted(r, Came(hits, 0, 1)).(opcode := v, valid := false)
    case GetResult(_) => Interrupted(FirstRead(r, hits), Came(hits, 1, CELLS))
    case Unknown => r
  }

  function ReplyTo(r: Regs, c: Call, hits: Hits): Reply
    requires r.WellFormed()
  {
    match c
    case SetOp1(_, fault) => if fault then BadAddress else Success
    case SetOp2(_, fault) => if fault then BadAddress else Success
    case SetOpcode(_, fault) => if fault then BadAddress else Success
    case GetResult(fault) => if fault then BadAddress else Answer(FirstRead(r, hits).result)
    case Unknown => Invalid
  }

  // ---------------------------------------------------------------- the register loops

  /** Element k of a matrix, row by row. */
  function Address(base: Long, k: nat): Long
    requires k < CELLS && base <= RESULT_BASE
  {
    base + k * 4
  }

  /** One access of a call, with the interrupts that come just before it. */
  method WriteCell(dev: Multiplier, addr: Long, v: Word, hit: bool)
    requires dev.Valid()
    modifies dev, dev.op1, dev.op2, dev.result
    ensures dev.Model() == WriteReg(Interrupted(old(dev.Model()), hit), addr, v)
  {
    if hit {
      var _ := IrqHandler(dev);
    }
    dev.HandleWrite(addr, v);
  }

  method ReadCell(dev: Multiplier, addr: Long, hit: bool) returns (v: Word)
    requires dev.Valid()
    modifies dev, dev.op1, dev.op2, dev.result
    ensures dev.Model() == AfterRead(Interrupted(old(dev.Model()), hit), addr)
    ensures v == ReadReg(Interrupted(old(dev.Model()), hit), addr)
  {
    if hit {
      var _ := IrqHandler(dev);
    }
    v := dev.HandleRead(addr);
  }

  /** Write k of a matrix at base, with the interrupts just before it, takes the registers from states[k] to states[k + 1]. */
  ghost predicate StepAt(states: seq<Regs>, base: Long, m: Buffer, hits: Hits, k: nat)
    requires k < CELLS && |states| == CELLS + 1 && base <= RESULT_BASE
  {
    states[k].WellFormed() && states[k + 1] == WriteReg(Interrupted(states[k], k in hits), Address(base, k), m[k])
  }

  ghost predicate Steps(states: seq<Regs>, base: Long, m: Buffer, hits: Hits)
  {
    |states| == CELLS + 1 && base <= RESULT_BASE && forall k :: 0 <= k < CELLS ==> StepAt(states, base, m, hits, k)
  }

  method WriteNext(dev: Multiplier, base: Long, m: Buffer, hits: Hits, k: nat, ghost states: seq<Regs>)
    requires dev.Valid() && k < CELLS && Steps(states, base, m, hits) && dev.Model() == states[k]
    modifies dev, dev.op1, dev.op2, dev.result
    ensures dev.Model() == states[k + 1]
  {
    assert StepAt(states, base, m, hits, k);
    WriteCell(dev, Address(base, k), m[k], k in hits);
  }

  /** The two nested loops of SET_OP1 and of SET_OP2. */
  method WriteMatrix(dev: Multiplier, base: Long, m: Buffer, hits: Hits, ghost states: seq<Regs>)
    requires dev.Valid() && Steps(states, base, m, hits) && dev.Model() == states[0]
    modifies dev, dev.op1, dev.op2, dev.result
    ensures dev.Model() == states[CELLS]
  {
    for i := 0 to 4
      invariant dev.Model() == states[i * 4]
    {
      for j := 0 to 4
        invariant dev.Model() == states[i * 4 + j]
      {
        WriteNext(dev, base, m, hits, i * 4 + j, states);
      }
    }
  }

  /** m[..k] written over the first k elements of old. */
  function Merge(m: Buffer, old': seq<Word>, k: nat): (s: seq<Word>)
    requires k <= CELLS == |old'|
    ensures |s| == CELLS
  {
    m[..k] + old'[k..]
  }

  lemma MergeEnds(m: Buffer, old': seq<Word>)
    requires |old'| == CELLS
    ensures Merge(m, old', 0) == old' && Merge(m, old', CELLS) == m
  {
  }

  lemma MergeNext(m: Buffer, old': seq<Word>, k: nat)
    requires k < CELLS == |old'|
    ensures Merge(m, old', k)[k := m[k]] == Merge(m, old', k + 1)
  {
  }

  /** The same over a struck element: writing that element repairs it, writing another leaves it struck. */
  lemma MergeStruck(s: seq<Word>, k: nat, v: Word)
    requires |s| == CELLS && k < CELLS
    ensures Mark(s, true)[k := v] == Mark(s[k := v], k != STRUCK_CELL)
  {
  }

  /** Registers after the first k writes of SET_OP1. */
  function Op1After(r: Regs, m: Buffer, hits: Hits, k: nat): (r': Regs)
    requires r.WellFormed() && k <= CELLS
    ensures r'.WellFormed()
  {
    if k == 0 then r else Interrupted(r, Came(hits, 0, k)).(op1 := Merge(m, r.op1, k), valid := false)
  }

  lemma Op1Next(r: Regs, m: Buffer, hits: Hits, k: nat)
    requires r.WellFormed() && k < CELLS
    ensures WriteReg(Interrupted(Op1After(r, m, hits, k), k in hits), Address(OP1_BASE, k), m[k])
         == Op1After(r, m, hits, k + 1)
  {
    CameNext(hits, 0, k);
    MergeEnds(m, r.op1);
    MergeNext(m, r.op1, k);
    InterruptedTwice(r, Came(hits, 0, k), k in hits);
    assert Index(Address(OP1_BASE, k), OP1_BASE) == k;
  }

  /** The registers throughout SET_OP1, and what it leaves. */
  function Op1States(r: Regs, m: Buffer, hits: Hits): (states: seq<Regs>)
    requires r.WellFormed()
    ensures |states| == CELLS + 1
  {
    seq(CELLS + 1, k requires 0 <= k <= CELLS => Op1After(r, m, hits, k))
  }

  lemma Op1Steps(r: Regs, m: Buffer, hits: Hits)
    requires r.WellFormed()
    ensures var states := Op1States(r, m, hits);
            && Steps(states, OP1_BASE, m, hits) && states[0] == r
            && states[CELLS] == AfterCall(r, SetOp1(m, false), hits)
  {
    forall k | 0 <= k < CELLS ensures StepAt(Op1States(r, m, hits), OP1_BASE, m, hits, k) {
      Op1Next(r, m, hits, k);
    }
    MergeEnds(m, r.op1);
  }

  /** Registers after the first k writes of SET_OP2. */
  function Op2After(r: Regs, m: Buffer, hits: Hits, k: nat): (r': Regs)
    requires r.WellFormed() && k <= CELLS
    ensures r'.WellFormed()
  {
    if k == 0 then r
    else Interrupted(r.(op2 := Merge(m, r.op2, k), valid := false),
                     Came(hits, if k <= STRUCK_CELL then 0 else STRUCK_CELL + 1, k))
  }

  lemma Op2Next(r: Regs, m: Buffer, hits: Hits, k: nat)
    requires r.WellFormed() && k < CELLS
    ensures WriteReg(Interrupted(Op2After(r, m, hits, k), k in hits), Address(OP2_BASE, k), m[k])
         == Op2After(r, m, hits, k + 1)
  {
    var s := Merge(m, r.op2, k);
    CameNext(hits, 0, k);
    CameNext(hits, STRUCK_CELL + 1, k);
    MergeEnds(m, r.op2);
    MergeNext(m, r.op2, k);
    MergeStruck(s, k, m[k]);
    InterruptedTwice(r.(op2 := s, valid := false), Came(hits, if k <= STRUCK_CELL then 0 else STRUCK_CELL + 1, k), k in hits);
    assert Index(Address(OP2_BASE, k), OP2_BASE) == k;
  }

  /** The registers throughout SET_OP2, and what it leaves. */
  function Op2States(r: Regs, m: Buffer, hits: Hits): (states: seq<Regs>)
    requires r.WellFormed()
    ensures |states| == CELLS + 1
  {
    seq(CELLS + 1, k requires 0 <= k <= CELLS => Op2After(r, m, hits, k))
  }

  lemma Op2Steps(r: Regs, m: Buffer, hits: Hits)
    requires r.WellFormed()
    ensures var states := Op2States(r, m, hits);
            && Steps(states, OP2_BASE, m, hits) && states[0] == r
            && states[CELLS] == AfterCall(r, SetOp2(m, false), hits)
  {
    forall k | 0 <= k < CELLS ensures StepAt(Op2States(r, m, hits), OP2_BASE, m, hits, k) {
      Op2Next(r, m, hits, k);
    }
    MergeEnds(m, r.op2);
  }

  lemma {:induction false} Op2Along(states: seq<Regs>, r: Regs, m: Buffer, hits: Hits, k: nat)
    requires Steps(states, OP2_BASE, m, hits) && r.WellFormed() && states[0] == r && k <= CELLS
    ensures states[k] == Op2After(r, m, hits, k)
    decreases k
  {
    if k > 0 {
      Op2Along(states, r, m, hits, k - 1);
      Op2Next(r, m, hits, k - 1);
      assert StepAt(states, OP2_BASE, m, hits, k - 1);
    }
  }

  lemma Op2Last(r: Regs, m: Buffer, hits: Hits)
    requires r.WellFormed()
    ensures Op2After(r, m, hits, CELLS).op2 == Mark(m, Came(hits, STRUCK_CELL + 1, CELLS))
  {
    MergeEnds(m, r.op2);
  }

  /**
   The sixteen writes of SET_OP2, with interrupts between them: in the end the device holds the user's
   operand exactly if no interrupt came after the sixth write, or element (1, 1) was all ones anyway.
   */
  lemma SetOp2Struck(states: seq<Regs>, r: Regs, m: Buffer, hits: Hits)
    requires Steps(states, OP2_BASE, m, hits) && r.WellFormed() && states[0] == r
    ensures states[CELLS].op2 == m <==> !Came(hits, STRUCK_CELL + 1, CELLS) || m[STRUCK_CELL] == ALL_ONES
  {
    Op2Along(states, r, m, hits, CELLS);
    Op2Last(r, m, hits);
    MarkIsSame(m, Came(hits, STRUCK_CELL + 1, CELLS));
  }

  /** Registers after the first k reads of GET_RESULT. */
  function ReadAfter(r: Regs, hits: Hits, k: nat): (r': Regs)
    requires r.WellFormed()
    ensures r'.WellFormed()
  {
    if k == 0 then r else Interrupted(FirstRead(r, hits), Came(hits, 1, k))
  }

  /** Read k returns element k of what the first read computed, whatever came in between. */
  lemma ReadNext(r: Regs, hits: Hits, k: nat)
    requires r.WellFormed() && k < CELLS
    ensures var s := Interrupted(ReadAfter(r, hits, k), k in hits);
            && AfterRead(s, Address(RESULT_BASE, k)) == ReadAfter(r, hits, k + 1)
            && ReadReg(s, Address(RESULT_BASE, k)) == FirstRead(r, hits).result[k]
  {
    CameNext(hits, 1, k);
    if k > 0 {
      InterruptedTwice(FirstRead(r, hits), Came(hits, 1, k), k in hits);
    }
    assert Index(Address(RESULT_BASE, k), RESULT_BASE) == k;
  }

  method ReadNextCell(dev: Multiplier, hits: Hits, k: nat, ghost r: Regs, ghost shown: Buffer) returns (v: Word)
    requires dev.Valid() && k < CELLS && r.WellFormed() && dev.Model() == ReadAfter(r, hits, k)
    requires shown == FirstRead(r, hits).result
    modifies dev, dev.op1, dev.op2, dev.result
    ensures dev.Model() == ReadAfter(r, hits, k + 1) && v == shown[k]
  {
    ReadNext(r, hits, k);
    v := ReadCell(dev, Address(0xA0, k), k in hits);
  }

  lemma TakeNext(kbuf: seq<Word>, shown: seq<Word>, k: nat)
    requires k < |shown| && kbuf == shown[..k]
    ensures kbuf + [shown[k]] == shown[..k + 1]
  {
  }

  /** All sixteen reads see one and the same result: the first refreshes it, and no interrupt changes it. */
  method ReadResult(dev: Multiplier, hits: Hits) returns (kbuf: seq<Word>)
    requires dev.Valid()
    modifies dev, dev.op1, dev.op2, dev.result
    ensures dev.Model() == AfterCall(old(dev.Model()), GetResult(false), hits)
    ensures kbuf == FirstRead(old(dev.Model()), hits).result
  {
    ghost var r := dev.Model();
    ghost var shown := FirstRead(r, hits).result;
    kbuf := [];
    for i := 0 to 4
      invariant dev.Model() == ReadAfter(r, hits, i * 4) && kbuf == shown[..i * 4]
    {
      for j := 0 to 4
        invariant dev.Model() == ReadAfter(r, hits, i * 4 + j) && kbuf == shown[..i * 4 + j]
      {
        var v := ReadNextCell(dev, hits, i * 4 + j, r, shown);
        TakeNext(kbuf, shown, i * 4 + j);
        kbuf := kbuf + [v];
      }
    }
  }

  method Ioctl(dev: Multiplier, c: Call, hits: Hits) returns (reply: Reply)
    requires dev.Valid()
    modifies dev, dev.op1, dev.op2, dev.result
    ensures dev.Model() == AfterCall(old(dev.Model()), c, hits)
    ensures reply == ReplyTo(old(dev.Model()), c, hits)
    ensures reply.Invalid? <==> c.Unknown?
    ensures reply.BadAddress? <==> !c.Unknown? && c.fault
    ensures reply.Answer? <==> c.GetResult? && !c.fault
    ensures reply.Success? <==> (c.SetOp1? || c.SetOp2? || c.SetOpcode?) && !c.fault
    ensures reply.Answer? ==> reply.m == Flat(dev.result)
    ensures Flat(dev.op1) == if c.SetOp1? && !c.fault then c.m else old(Flat(dev.op1))
    ensures dev.opcode == if c.SetOpcode? && !c.fault then c.v else old(dev.opcode)
    ensures hits == {} ==> Flat(dev.op2) == if c.SetOp2? && !c.fault then c.m else old(Flat(dev.op2))
  {
    match c
    case SetOp1(m, fault) =>
      if fault { return BadAddress; }
      Op1Steps(dev.Model(), m, hits);
      WriteMatrix(dev, 0x10, m, hits, Op1States(dev.Model(), m, hits));
      return Success;
    case SetOp2(m, fault) =>
      if fault { return BadAddress; }
      Op2Steps(dev.Model(), m, hits);
      WriteMatrix(dev, 0x50, m, hits, Op2States(dev.Model(), m, hits));
      return Success;
    case SetOpcode(v, fault) =>
      if fault { return BadAddress; }
      CameNext(hits, 0, 0);
      WriteCell(dev, 0x90, v, 0 in hits);
      return Success;
    case GetResult(fault) =>
      var kbuf := ReadResult(dev, hits);
      if fault { return BadAddress; }
      return Answer(kbuf);
    case Unknown => return Invalid;
  }

  // ---------------------------------------------------------------- histories

  /** A call with the interrupts during it, or an interrupt between calls. */
  datatype Event = Invoke(c: Call, hits: Hits) | Interrupt

  function Next(r: Regs, e: Event): (r': Regs)
    requires r.WellFormed()
    ensures r'.WellFormed()
  {
    match e
    case Invoke(c, hits) => AfterCall(r, c, hits)
    case Interrupt => AfterInterrupt(r)
  }

  /** Device registers after a history of calls and interrupts, from power-on. */
  function After(es: seq<Event>): (r: Regs)
    ensures r.WellFormed()
    decreases |es|
  {
    if es == [] then PowerOn() else Next(After(es[..|es| - 1]), es[|es| - 1])
  }

  /**
   What a history alone says: the operands and opcode of the latest successful set calls; whether an
   interrupt has struck the second operand since; what was due at the first read of the latest
   GET_RESULT, successful or not; and whether nothing was set and no interrupt came since that read.
   */
  datatype Account = Account(op1: Buffer, op2: Buffer, opcode: Word, struck: bool, shown: Buffer, valid: bool) {
    /** What the result registers should show, with the second operand struck or not. */
    function Due(hit: bool): Buffer { Meaning(op1, Mark(op2, hit), opcode) }
  }

  function Record(a: Account, e: Event): Account
  {
    match e
    case Interrupt => a.(struck := true, valid := false)
    case Invoke(SetOp1(m, false), hits) => a.(op1 := m, struck := a.struck || Came(hits, 0, CELLS), valid := false)
    case Invoke(SetOp2(m, false), hits) => a.(op2 := m, struck := Came(hits, STRUCK_CELL + 1, CELLS), valid := false)
    case Invoke(SetOpcode(v, false), hits) => a.(opcode := v, struck := a.struck || 0 in hits, valid := false)
    case Invoke(GetResult(_), hits) =>
      a.(struck := a.struck || Came(hits, 0, CELLS), shown := a.Due(a.struck || 0 in hits), valid := !Came(hits, 1, CELLS))
    case Invoke(_, _) => a
  }

  function Said(es: seq<Event>): Account
    decreases |es|
  {
    if es == [] then Account(Filled(0), Filled(0), 0, false, Filled(0), false)
    else Record(Said(es[..|es| - 1]), es[|es| - 1])
  }

  /** A device that goes through a history. */
  method Session(es: seq<Event>) returns (dev: Multiplier)
    ensures fresh(dev) && dev.Valid() && dev.Model() == After(es)
  {
    dev := new Multiplier();
    for k := 0 to |es|
      invariant fresh(dev) && fresh(dev.op1) && fresh(dev.op2) && fresh(dev.result)
      invariant dev.Valid() && dev.Model() == After(es[..k])
    {
      match es[k] {
        case Invoke(c, hits) => var _ := Ioctl(dev, c, hits);
        case Interrupt => var _ := IrqHandler(dev);
      }
      assert es[..k + 1][..k] == es[..k];
    }
    assert es[..|es|] == es;
  }

  // ---------------------------------------------------------------- coherence of the cached result

  /** The registers agree with an account: what is held, what is cached, and whether the cache counts as valid. */
  ghost predicate Agrees(r: Regs, a: Account)
  {
    && r.op1 == a.op1 && r.op2 == Mark(a.op2, a.struck) && r.opcode == a.opcode
    && r.result == a.shown && r.valid == a.valid
    && (r.valid ==> r.result == Recomputed(r))
  }

  /** The first read of GET_RESULT shows what is due then. */
  lemma FirstReadShows(r: Regs, a: Account, hits: Hits)
    requires r.WellFormed() && Agrees(r, a)
    ensures FirstRead(r, hits) == Regs(a.op1, Mark(a.op2, a.struck || 0 in hits), a.opcode, a.Due(a.struck || 0 in hits), true)
  {
    MarkTwice(a.op2, a.struck, 0 in hits);
  }

  lemma GetResultAgrees(r: Regs, a: Account, fault: bool, hits: Hits)
    requires r.WellFormed() && Agrees(r, a)
    ensures Agrees(AfterCall(r, GetResult(fault), hits), Record(a, Invoke(GetResult(fault), hits)))
  {
    FirstReadShows(r, a, hits);
    MarkTwice(a.op2, a.struck || 0 in hits, Came(hits, 1, CELLS));
    assert Came(hits, 0, CELLS) <==> 0 in hits || Came(hits, 1, CELLS);
  }

  lemma EventAgrees(r: Regs, a: Account, e: Event)
    requires r.WellFormed() && Agrees(r, a)
    ensures Agrees(Next(r, e), Record(a, e))
  {
    match e
    case Interrupt => MarkTwice(a.op2, a.struck, true);
    case Invoke(GetResult(fault), hits) => GetResultAgrees(r, a, fault, hits);
    case Invoke(SetOp1(_, _), hits) => MarkTwice(a.op2, a.struck, Came(hits, 0, CELLS));
    case Invoke(SetOpcode(_, _), hits) =>
      CameNext(hits, 0, 0);
      MarkTwice(a.op2, a.struck, 0 in hits);
    case Invoke(_, _) =>
  }

  /** After every history the registers are read off it alone. */
  lemma {:induction false} HistoryInvariant(es: seq<Event>)
    ensures Agrees(After(es), Said(es))
    decreases |es|
  {
    if es != [] {
      HistoryInvariant(es[..|es| - 1]);
      EventAgrees(After(es[..|es| - 1]), Said(es[..|es| - 1]), es[|es| - 1]);
    }
  }

  /**
   For every history, failed calls and interrupts included, and whatever interrupts come during the
   call, GET_RESULT answers for the operands and opcode the device holds at its first read.
   */
  lemma GetResultIsFresh(es: seq<Event>, hits: Hits)
    ensures ReplyTo(After(es), GetResult(false), hits) == Answer(Said(es).Due(Said(es).struck || 0 in hits))
  {
    HistoryInvariant(es);
    FirstReadShows(After(es), Said(es), hits);
  }

  // ---------------------------------------------------------------- the user's operands

  /** The device's register holds the operand the user set exactly if no interrupt struck it since, or the element was all ones anyway. */
  lemma HeldIsUsers(es: seq<Event>)
    ensures After(es).op2 == Said(es).op2 <==> !Said(es).struck || Said(es).op2[STRUCK_CELL] == ALL_ONES
  {
    HistoryInvariant(es);
    MarkIsSame(Said(es).op2, Said(es).struck);
  }

  lemma {:induction false} StruckDot(a: seq<Word>, b: seq<Word>, v: Word, i: nat, j: nat, k: nat)
    requires |a| == CELLS && |b| == CELLS && i < 4 && j < 4 && k <= 4
    ensures ExactDot(a, b[STRUCK_CELL := v], 4, i, j, k)
         == ExactDot(a, b, 4, i, j, k) + if j == 1 && k >= 2 then a[i * 4 + 1] as int * (v as int - b[STRUCK_CELL] as int) else 0
    decreases k
  {
    if k > 0 {
      StruckDot(a, b, v, i, j, k - 1);
      if j == 1 && k == 2 {
        assert Cell(b[STRUCK_CELL := v], (k - 1) * 4 + j) == v && Cell(b, (k - 1) * 4 + j) == b[STRUCK_CELL];
        assert Cell(a, i * 4 + (k - 1)) == a[i * 4 + 1];
      } else {
        assert Cell(b[STRUCK_CELL := v], (k - 1) * 4 + j) == Cell(b, (k - 1) * 4 + j);
      }
    }
  }

  lemma WrapShift(x: int, d: int)
    ensures Wrap(x + d) == Wrap(x) <==> Wrap(d) == 0
  {
    WrapSum(x, d);
  }

  /** Replacing y by all ones, which is -1 modulo 2^32, changes x * y by -(x * (y + 1)). */
  lemma AllOnesIsMinusOne(x: Word, y: Word)
    ensures Wrap(x as int * (ALL_ONES as int - y as int)) == 0 <==> Wrap(x as int * (y as int + 1)) == 0
  {
    var d, e := x as int * (ALL_ONES as int - y as int), x as int * (y as int + 1);
    assert d + e == x as int * 0x1_0000_0000;
    assert Wrap(d + e) == 0;
    WrapSum(d, e);
  }

  /** The acknowledge does not show in row i of the product: a condition on the user's own operands. */
  predicate Hidden(op1: seq<Word>, op2: seq<Word>, i: nat)
    requires |op1| == CELLS && |op2| == CELLS && i < 4
  {
    Wrap(op1[i * 4 + 1] as int * (op2[STRUCK_CELL] as int + 1)) == 0
  }

  lemma StruckCell(a: seq<Word>, b: seq<Word>, i: nat, j: nat)
    requires |a| == CELLS && |b| == CELLS && i < 4 && j < 4
    ensures Meaning(a, Mark(b, true), 1)[i * 4 + j] == Meaning(a, b, 1)[i * 4 + j] <==> j != 1 || Hidden(a, b, i)
  {
    MeaningCell(a, b, i, j);
    MeaningCell(a, Mark(b, true), i, j);
    StruckDot(a, b, ALL_ONES, i, j, 4);
    if j == 1 {
      WrapShift(ExactDot(a, b, 4, i, j, 4), a[i * 4 + 1] as int * (ALL_ONES as int - b[STRUCK_CELL] as int));
      AllOnesIsMinusOne(a[i * 4 + 1], b[STRUCK_CELL]);
    }
  }

  /** Nothing of an interrupt shows: the opcode is not 1, or no row of the product feels the overwritten element. */
  predicate Unnoticed(op1: seq<Word>, op2: seq<Word>, opcode: Word)
    requires |op1| == CELLS && |op2| == CELLS
  {
    opcode != 1 || forall i :: 0 <= i < 4 ==> Hidden(op1, op2, i)
  }

  lemma StruckElement(a: seq<Word>, b: seq<Word>, x: nat, i: nat, j: nat)
    requires |a| == CELLS && |b| == CELLS && x == i * 4 + j && i < 4 && j < 4 && Hidden(a, b, i)
    ensures Meaning(a, Mark(b, true), 1)[x] == Meaning(a, b, 1)[x]
  {
    StruckCell(a, b, i, j);
  }

  lemma StruckRow(a: seq<Word>, b: seq<Word>, i: nat)
    requires |a| == CELLS && |b| == CELLS && Meaning(a, Mark(b, true), 1) == Meaning(a, b, 1) && i < 4
    ensures Hidden(a, b, i)
  {
    StruckCell(a, b, i, 1);
  }

  lemma StruckProduct(a: seq<Word>, b: seq<Word>, opcode: Word)
    requires |a| == CELLS && |b| == CELLS
    ensures Meaning(a, Mark(b, true), opcode) == Meaning(a, b, opcode) <==> Unnoticed(a, b, opcode)
  {
    var p, q := Meaning(a, Mark(b, true), opcode), Meaning(a, b, opcode);
    if opcode == 1 && Unnoticed(a, b, 1) {
      forall x | 0 <= x < CELLS ensures p[x] == q[x] {
        StruckElement(a, b, x, x / 4, x % 4);
      }
      assert p == q;
    } else if opcode == 1 && p == q {
      forall i | 0 <= i < 4 ensures Hidden(a, b, i) {
        StruckRow(a, b, i);
      }
    }
  }

  /**
   For every history, GET_RESULT answers for the operands and opcode the user last set, the product
   modulo 2^32 for opcode 1 and all ones otherwise, exactly if no interrupt struck the second operand
   between SET_OP2 and the first read, or the element its acknowledge overwrites does not matter.
   */
  lemma GetResultIsUsers(es: seq<Event>, hits: Hits)
    ensures var a := Said(es);
            ReplyTo(After(es), GetResult(false), hits) == Answer(a.Due(false)) <==>
              !(a.struck || 0 in hits) || Unnoticed(a.op1, a.op2, a.opcode)
  {
    GetResultIsFresh(es, hits);
    StruckProduct(Said(es).op1, Said(es).op2, Said(es).opcode);
  }

  /** The second operand as GET_RESULT finds it: element (1, 1) is all ones if an interrupt has struck it. */
  function SecondOperand(a: Account, hits: Hits): Buffer
  {
    if a.struck || 0 in hits then a.op2[5 := 0xFFFF_FFFF] else a.op2
  }

  /**
   After every history, whatever interrupts come during the call, GET_RESULT answers with sixteen
   words: all ones if the opcode set last is not 1, and otherwise in row i and column j the sum of four
   products, modulo 2^32.
   */
  lemma GetResultCells(es: seq<Event>, hits: Hits, i: nat, j: nat)
    requires i < 4 && j < 4
    ensures var reply := ReplyTo(After(es), GetResult(false), hits);
            var a, op1, op2 := Said(es), Said(es).op1, SecondOperand(Said(es), hits);
            && reply.Answer? && |reply.m| == 16
            && (a.opcode != 1 ==> reply.m[4 * i + j] == 0xFFFF_FFFF)
            && (a.opcode == 1 ==>
                  reply.m[4 * i + j] == (op1[4 * i] as int * op2[j] as int + op1[4 * i + 1] as int * op2[4 + j] as int
                                         + op1[4 * i + 2] as int * op2[8 + j] as int
                                         + op1[4 * i + 3] as int * op2[12 + j] as int) % 0x1_0000_0000)
  {
    var a, op2 := Said(es), SecondOperand(Said(es), hits);
    GetResultIsFresh(es, hits);
    MeaningCell(a.op1, op2, i, j);
    FourProducts(a.op1, op2, i, j);
  }

  /** What reading result register k alone returns, given what the first would show. */
  lemma RegisterShows(r: Regs, first: Buffer, k: nat)
    requires r.WellFormed() && k < CELLS && first == AfterRead(r, RESULT_BASE).result
    ensures ReadReg(r, Address(RESULT_BASE, k)) == if k == 0 then first[0] else r.result[k]
  {
    assert Index(Address(RESULT_BASE, k), RESULT_BASE) == k;
  }

  /** The first element of the product does not feel the struck one. */
  lemma FirstIsNeverStruck(a: Account, hit: bool)
    ensures a.Due(hit)[0] == a.Due(false)[0]
  {
    StruckCell(a.op1, a.op2, 0, 0);
  }

  /** Reading v from register k is right for what is due exactly if it is the first register, or what was last shown there is still due. */
  ghost predicate RightExactly(v: Word, k: nat, shown: Buffer, due: Buffer)
    requires k < CELLS
  {
    v == due[k] <==> k == 0 || shown[k] == due[k]
  }

  lemma ReadsRight(r: Regs, held: Buffer, users: Buffer, k: nat)
    requires r.WellFormed() && k < CELLS && AfterRead(r, RESULT_BASE).result == held && held[0] == users[0]
    ensures RightExactly(ReadReg(r, Address(RESULT_BASE, k)), k, r.result, held)
    ensures RightExactly(ReadReg(r, Address(RESULT_BASE, k)), k, r.result, users)
  {
    RegisterShows(r, held, k);
  }

  /** A result register read on its own, for what the device holds and for what the user set. */
  lemma RegisterReadsRight(es: seq<Event>, k: nat)
    requires k < CELLS
    ensures var a, v := Said(es), ReadReg(After(es), Address(RESULT_BASE, k));
            RightExactly(v, k, a.shown, a.Due(a.struck)) && RightExactly(v, k, a.shown, a.Due(false))
  {
    var a := Said(es);
    HistoryInvariant(es);
    FirstReadShows(After(es), a, {});
    FirstIsNeverStruck(a, a.struck);
    ReadsRight(After(es), a.Due(a.struck), a.Due(false), k);
  }

  /** It can be wrong: after power-on, opcode 0 means all ones, but register 1 of the result reads zero. */
  lemma StaleReadExists()
    ensures ReadReg(After([]), Address(RESULT_BASE, 1)) != Said([]).Due(false)[1]
  {
  }

  /** After any history, a fresh set-up followed by an interrupt. */
  function Spoiled(before: seq<Event>, v: Word): seq<Event>
  {
    before + [Invoke(SetOp1(Filled(v), false), {})] + [Invoke(SetOp2(Filled(0), false), {})]
    + [Invoke(SetOpcode(1, false), {})] + [Interrupt]
  }

  lemma SaidSnoc(es: seq<Event>, e: Event)
    ensures Said(es + [e]) == Record(Said(es), e)
  {
    assert (es + [e])[..|es|] == es;
  }

  /** It can matter: with a zero second operand, the interrupt makes the answer differ from the user's product. */
  lemma InterruptSpoilsAnswer(before: seq<Event>, v: Word)
    requires v != 0
    ensures ReplyTo(After(Spoiled(before, v)), GetResult(false), {}) != Answer(Meaning(Filled(v), Filled(0), 1))
  {
    var one := before + [Invoke(SetOp1(Filled(v), false), {})];
    var two := one + [Invoke(SetOp2(Filled(0), false), {})];
    var three := two + [Invoke(SetOpcode(1, false), {})];
    SaidSnoc(before, Invoke(SetOp1(Filled(v), false), {}));
    SaidSnoc(one, Invoke(SetOp2(Filled(0), false), {}));
    SaidSnoc(two, Invoke(SetOpcode(1, false), {}));
    SaidSnoc(three, Interrupt);
    assert !Hidden(Filled(v), Filled(0), 0);
    GetResultIsUsers(three + [Interrupt], {});
  }
}
