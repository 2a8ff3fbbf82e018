/** What every run of the endpoint keeps, for every interleaving of host accesses, resets and threads. */
module Invariants {
  import opened Bytes
  import opened Matrix
  import opened Registers
  import opened HostMemory
  import opened Endpoint

  ghost predicate Run(f: FloatUnit, mem: seq<Byte>, es: seq<Event>)
  {
    Feasible(f, Init(mem), es)
  }

  lemma Snoc(f: FloatUnit, s: State, es: seq<Event>, e: Event)
    ensures Exec(f, s, es + [e]) == Step(f, Exec(f, s, es), e)
    ensures Feasible(f, s, es + [e]) <==> Feasible(f, s, es) && Enabled(Exec(f, s, es), e)
  {
    assert (es + [e])[..|es|] == es;
  }

  ghost predicate ResetFree(es: seq<Event>)
  {
    forall e :: e in es ==> !IsReset(e)
  }

  lemma ResetFreeSplit(es: seq<Event>)
    requires ResetFree(es) && es != []
    ensures ResetFree(es[..|es| - 1]) && !IsReset(es[|es| - 1])
  {
    forall e | e in es[..|es| - 1] ensures !IsReset(e) { assert e in es; }
    assert es[|es| - 1] in es;
  }

  // ---------------------------------------------------------------- status register

  ghost predicate StatusOk(s: State)
  {
    && s.regs.status in {1, 2, 5, 9}
    && s.regs.intStatus <= 1
    && (s.regs.status == 2 ==> s.compute.Computing())
  }

  lemma StatusStep(f: FloatUnit, s: State, e: Event)
    requires StatusOk(s)
    ensures StatusOk(Step(f, s, e))
  {
    if IsWrite(e) {
      WriteKeepsStatus(s, e.addr, e.data);
    }
  }

  lemma WriteKeepsStatus(s: State, addr: Long, data: seq<Byte>)
    requires StatusOk(s) && (|data| == 4 || |data| == 8)
    ensures StatusOk(HostWrite(s, addr, data))
  {
  }

  /** In every reachable state STATUS and INT_STATUS hold legal values, and BUSY means a computation is under way. */
  lemma {:induction false} StatusInvariant(f: FloatUnit, mem: seq<Byte>, es: seq<Event>)
    requires Run(f, mem, es)
    ensures StatusOk(Exec(f, Init(mem), es))
    decreases |es|
  {
    if es != [] {
      StatusInvariant(f, mem, es[..|es| - 1]);
      StatusStep(f, Exec(f, Init(mem), es[..|es| - 1]), es[|es| - 1]);
    }
  }

  lemma BusyStep(f: FloatUnit, s: State, e: Event)
    requires StatusOk(s) && !IsReset(e) && (s.compute.Computing() <==> s.regs.status == 2)
    ensures Step(f, s, e).compute.Computing() <==> Step(f, s, e).regs.status == 2
  {
    if IsWrite(e) {
      WriteKeepsBusy(s, e.addr, e.data);
    }
  }

  lemma WriteKeepsBusy(s: State, addr: Long, data: seq<Byte>)
    requires (|data| == 4 || |data| == 8) && !Resets(addr, data)
    ensures Write(s.regs, addr, data).status == s.regs.status
    ensures HostWrite(s, addr, data).compute.Computing() == s.compute.Computing()
  {
  }

  /** Without resets the converse holds too. */
  lemma {:induction false} BusyExactly(f: FloatUnit, mem: seq<Byte>, es: seq<Event>)
    requires Run(f, mem, es) && ResetFree(es)
    ensures var s := Exec(f, Init(mem), es); s.compute.Computing() <==> s.regs.status == 2
    decreases |es|
  {
    if es != [] {
      ResetFreeSplit(es);
      BusyExactly(f, mem, es[..|es| - 1]);
      StatusInvariant(f, mem, es[..|es| - 1]);
      BusyStep(f, Exec(f, Init(mem), es[..|es| - 1]), es[|es| - 1]);
    }
  }

  /**
   What STATUS should read, from the latest event that decides it: 1 after a reset, 2 since a computation
   began, 5 since one succeeded, 9 since one failed or its dimension was refused.
   */
  function StatusShown(f: FloatUnit, s: State, es: seq<Event>): Word
    decreases |es|
  {
    if es == [] then 1
    else
      var k := |es| - 1;
      var t := Exec(f, s, es[..k]);
      if IsReset(es[k]) then 1
      else if !es[k].RunCompute? then StatusShown(f, s, es[..k])
      else if Begins(t) then (if t.regs.dimN == 0 || t.regs.dimN > 256 then 9 else 2)
      else match t.compute
        case ReadA(_, _, ok) => if ok then StatusShown(f, s, es[..k]) else 9
        case ReadB(_, _, _, ok) => if ok then StatusShown(f, s, es[..k]) else 9
        case WroteC(_, ok) => if ok then 5 else 9
        case _ => StatusShown(f, s, es[..k])
  }

  lemma StatusStays(f: FloatUnit, s: State, e: Event)
    requires !IsReset(e) && !e.RunCompute?
    ensures ReadValue(Step(f, s, e).regs, 0x04) == ReadValue(s.regs, 0x04)
  {
    if IsWrite(e) {
      WriteKeepsBusy(s, e.addr, e.data);
    }
  }

  lemma ResetShowsIdle(s: State, e: Event)
    requires IsReset(e)
    ensures ReadValue(HostWrite(s, e.addr, e.data).regs, 0x04) == 1
  {
  }

  /** A woken thread that finds its request refuses it exactly if the dimension is 0 or above 256; STATUS then reads 9, and 2 otherwise. */
  lemma RefusesExactly(f: FloatUnit, s: State)
    requires s.compute.Woken? && s.regs.requested
    ensures var t := Step(f, s, RunCompute);
            && (t.compute.Waiting? <==> s.regs.dimN == 0 || s.regs.dimN > 256)
            && ReadValue(t.regs, 0x04) == if s.regs.dimN == 0 || s.regs.dimN > 256 then 9 else 2
  {
  }

  lemma StretchStatus(f: FloatUnit, s: State)
    requires !Begins(s)
    ensures ReadValue(ComputeStep(f, s).regs, 0x04)
         == match s.compute
            case ReadA(_, _, ok) => if ok then ReadValue(s.regs, 0x04) else 9
            case ReadB(_, _, _, ok) => if ok then ReadValue(s.regs, 0x04) else 9
            case WroteC(_, ok) => if ok then 5 else 9
            case _ => ReadValue(s.regs, 0x04)
  {
  }

  /** In every run, resets included, STATUS reads what the run's history says. */
  lemma {:induction false} StatusIsHistory(f: FloatUnit, mem: seq<Byte>, es: seq<Event>)
    requires Run(f, mem, es)
    ensures ReadValue(Exec(f, Init(mem), es).regs, 0x04) == StatusShown(f, Init(mem), es)
    decreases |es|
  {
    if es != [] {
      var t, e := Exec(f, Init(mem), es[..|es| - 1]), es[|es| - 1];
      StatusIsHistory(f, mem, es[..|es| - 1]);
      if IsReset(e) {
        ResetShowsIdle(t, e);
      } else if !e.RunCompute? {
        StatusStays(f, t, e);
      } else if Begins(t) {
        RefusesExactly(f, t);
      } else {
        StretchStatus(f, t);
      }
    }
  }

  /** So a CONTROL write that does not reset, START included, changes nothing but CONTROL during a computation. */
  lemma BusyIgnoresStart(f: FloatUnit, mem: seq<Byte>, es: seq<Event>, e: Event)
    requires Run(f, mem, es) && ResetFree(es) && Exec(f, Init(mem), es).compute.Computing()
    requires IsWrite(e) && e.addr == REG_CONTROL && !IsReset(e)
    ensures var s := Exec(f, Init(mem), es);
            Step(f, s, e) == s.(regs := s.regs.(control := Value32(e.data)))
  {
    BusyExactly(f, mem, es);
  }

  // ---------------------------------------------------------------- start requests

  predicate Accepts(s: State, e: Event)
  {
    IsWrite(e) && AcceptsStart(s.regs, e.addr, e.data)
  }

  predicate BeginsAt(s: State, e: Event)
  {
    e.RunCompute? && Begins(s)
  }

  /** Accepted STARTs, and computations begun, over a run. */
  function Accepted(f: FloatUnit, s: State, es: seq<Event>): nat
    decreases |es|
  {
    if es == [] then 0
    else var k := |es| - 1;
      Accepted(f, s, es[..k]) + if Accepts(Exec(f, s, es[..k]), es[k]) then 1 else 0
  }

  function Begun(f: FloatUnit, s: State, es: seq<Event>): nat
    decreases |es|
  {
    if es == [] then 0
    else var k := |es| - 1;
      Begun(f, s, es[..k]) + if BeginsAt(Exec(f, s, es[..k]), es[k]) then 1 else 0
  }

  /** What one step does to the request flag. */
  lemma RequestStep(f: FloatUnit, s: State, e: Event)
    ensures Accepts(s, e) ==> Step(f, s, e).regs.requested
    ensures !Accepts(s, e) ==> Step(f, s, e).regs.requested == (s.regs.requested && !BeginsAt(s, e) && !IsReset(e))
  {
  }

  /** STARTs accepted while a request was pending already, and requests withdrawn by a reset that accepts no START. */
  function Merged(f: FloatUnit, s: State, es: seq<Event>): nat
    decreases |es|
  {
    if es == [] then 0
    else var k := |es| - 1;
      var t := Exec(f, s, es[..k]);
      Merged(f, s, es[..k]) + if Accepts(t, es[k]) && t.regs.requested then 1 else 0
  }

  function Withdrawn(f: FloatUnit, s: State, es: seq<Event>): nat
    decreases |es|
  {
    if es == [] then 0
    else var k := |es| - 1;
      var t := Exec(f, s, es[..k]);
      Withdrawn(f, s, es[..k]) + if IsReset(es[k]) && !Accepts(t, es[k]) && t.regs.requested then 1 else 0
  }

  /** Where every START goes: in every run each one accepted began a computation, met a pending request, was withdrawn by a reset, or is pending. */
  lemma {:induction false} StartsAccounted(f: FloatUnit, mem: seq<Byte>, es: seq<Event>)
    requires Run(f, mem, es)
    ensures var s0, s := Init(mem), Exec(f, Init(mem), es);
            Accepted(f, s0, es) == Begun(f, s0, es) + Merged(f, s0, es) + Withdrawn(f, s0, es) + if s.regs.requested then 1 else 0
    decreases |es|
  {
    if es != [] {
      StartsAccounted(f, mem, es[..|es| - 1]);
      RequestStep(f, Exec(f, Init(mem), es[..|es| - 1]), es[|es| - 1]);
    }
  }

  /** So computations are never invented: those begun, plus one still requested, are at most the STARTs accepted. */
  lemma NoInventedStarts(f: FloatUnit, mem: seq<Byte>, es: seq<Event>)
    requires Run(f, mem, es)
    ensures var s := Exec(f, Init(mem), es);
            Begun(f, Init(mem), es) + (if s.regs.requested then 1 else 0) <= Accepted(f, Init(mem), es)
  {
    StartsAccounted(f, mem, es);
  }

  /** A request pending at m that was not pending at i was accepted in between. */
  lemma {:induction false} RequestHasCause(f: FloatUnit, s: State, es: seq<Event>, i: nat, m: nat)
    requires i <= m <= |es|
    requires !At(f, s, es, i).regs.requested && At(f, s, es, m).regs.requested
    ensures exists k :: i <= k < m && Accepts(At(f, s, es, k), es[k])
    decreases m
  {
    AtStep(f, s, es, m - 1);
    RequestStep(f, At(f, s, es, m - 1), es[m - 1]);
    if !Accepts(At(f, s, es, m - 1), es[m - 1]) {
      RequestHasCause(f, s, es, i, m - 1);
    }
  }

  /** Each computation consumes a request made since the previous one began. */
  lemma BeginConsumesOwnRequest(f: FloatUnit, mem: seq<Byte>, es: seq<Event>, i: nat, j: nat)
    requires Run(f, mem, es) && i < j < |es|
    requires BeginsAt(At(f, Init(mem), es, i), es[i]) && BeginsAt(At(f, Init(mem), es, j), es[j])
    ensures exists k :: i < k < j && Accepts(At(f, Init(mem), es, k), es[k])
  {
    AtStep(f, Init(mem), es, i);
    RequestStep(f, At(f, Init(mem), es, i), es[i]);
    RequestHasCause(f, Init(mem), es, i + 1, j);
  }

  /** A START accepted before the compute thread reached its first wait, and none accepted since. */
  ghost predicate EarlyStart(f: FloatUnit, s: State, es: seq<Event>)
    decreases |es|
  {
    es != [] &&
    var k := |es| - 1;
    var t := Exec(f, s, es[..k]);
    if Accepts(t, es[k]) then t.compute.Unstarted? else EarlyStart(f, s, es[..k])
  }

  /**
   In every run without resets, once the thread has reached its first wait, the request flag is set
   exactly when the thread is woken and not yet run, or a START came too early and is stuck.
   */
  lemma {:induction false} RequestExactly(f: FloatUnit, mem: seq<Byte>, es: seq<Event>)
    requires Run(f, mem, es) && ResetFree(es)
    ensures var s := Exec(f, Init(mem), es);
            && (s.compute.Unstarted? ==> s.regs.requested == EarlyStart(f, Init(mem), es))
            && (s.compute.Woken? ==> s.regs.requested && !EarlyStart(f, Init(mem), es))
            && (s.compute.Waiting? ==> s.regs.requested == EarlyStart(f, Init(mem), es))
            && (s.compute.Computing() ==> !s.regs.requested && !EarlyStart(f, Init(mem), es))
    decreases |es|
  {
    if es != [] {
      var front, e := es[..|es| - 1], es[|es| - 1];
      ResetFreeSplit(es);
      RequestExactly(f, mem, front);
      BusyExactly(f, mem, front);
      StatusInvariant(f, mem, front);
      RequestStep(f, Exec(f, Init(mem), front), e);
    }
  }

  /**
   The latest event that set the flag or the thread apart did so: a START was accepted while the
   thread was neither waiting nor woken, or a reset withdrew the request of a woken thread.
   */
  ghost predicate Parted(f: FloatUnit, s: State, es: seq<Event>)
    decreases |es|
  {
    es != [] &&
    var k := |es| - 1;
    var t := Exec(f, s, es[..k]);
    if Accepts(t, es[k]) then !t.compute.Waiting? && !t.compute.Woken?
    else if IsReset(es[k]) then t.compute.Woken?
    else if es[k].RunCompute? && t.compute.Woken? then false
    else Parted(f, s, es[..k])
  }

  lemma PartedStep(f: FloatUnit, s: State, e: Event)
    ensures Accepts(s, e) ==>
              Step(f, s, e).regs.requested && (Step(f, s, e).compute.Woken? <==> s.compute.Waiting? || s.compute.Woken?)
    ensures !Accepts(s, e) && IsReset(e) ==> !Step(f, s, e).regs.requested && Step(f, s, e).compute == s.compute
    ensures e.RunCompute? && s.compute.Woken? ==> !Step(f, s, e).regs.requested && !Step(f, s, e).compute.Woken?
    ensures !Accepts(s, e) && !IsReset(e) && !(e.RunCompute? && s.compute.Woken?) ==>
              && Step(f, s, e).regs.requested == s.regs.requested
              && Step(f, s, e).compute.Woken? == s.compute.Woken?
  {
  }

  /** In every run, resets included, the request flag is set if and only if the thread is woken and not yet run, exactly if they have not been parted. */
  lemma {:induction false} RequestIffWoken(f: FloatUnit, mem: seq<Byte>, es: seq<Event>)
    requires Run(f, mem, es)
    ensures var s := Exec(f, Init(mem), es);
            (s.regs.requested <==> s.compute.Woken?) <==> !Parted(f, Init(mem), es)
    decreases |es|
  {
    if es != [] {
      RequestIffWoken(f, mem, es[..|es| - 1]);
      PartedStep(f, Exec(f, Init(mem), es[..|es| - 1]), es[|es| - 1]);
    }
  }

  /** An early START is lost: the thread then waits with the request flag set and is not runnable. */
  lemma EarlyStartIsLost(f: FloatUnit, mem: seq<Byte>)
    ensures var start := Transport(WriteCommand, REG_CONTROL, ToLE(1, 4));
            var es := [start, RunCompute];
            && Run(f, mem, es)
            && Exec(f, Init(mem), es).regs.requested && Exec(f, Init(mem), es).compute.Waiting?
            && !Enabled(Exec(f, Init(mem), es), RunCompute)
  {
    var start := Transport(WriteCommand, REG_CONTROL, ToLE(1, 4));
    WordRoundTrip(1, ToLE(1, 4));
    Snoc(f, Init(mem), [], start);
    Snoc(f, Init(mem), [start], RunCompute);
    assert [] + [start] == [start] && [start] + [RunCompute] == [start, RunCompute];
  }

  /** A CONTROL write of v: the registers, and the wake-up if a START is accepted. */
  lemma ControlEffect(f: FloatUnit, s: State, v: Word)
    ensures Step(f, s, Write32(REG_CONTROL, v))
         == s.(regs := WriteControl(s.regs, v),
               compute := if Bit0(v) && (Bit1(v) || Bit0(s.regs.status)) then NotifyStart(s.compute) else s.compute)
  {
    WordRoundTrip(v, ToLE(v, 4));
  }

  /** A reset withdraws the request of a woken thread, which still runs once more. */
  lemma ResetWithdrawsRequest(f: FloatUnit, mem: seq<Byte>, start: Word, reset: Word)
    requires Bit0(start) && !Bit1(start) && Bit1(reset) && !Bit0(reset)
    ensures var es := [RunCompute, Write32(REG_CONTROL, start), Write32(REG_CONTROL, reset)];
            && Run(f, mem, es)
            && !Exec(f, Init(mem), es).regs.requested && Exec(f, Init(mem), es).compute.Woken?
  {
    var a, b := Write32(REG_CONTROL, start), Write32(REG_CONTROL, reset);
    Snoc(f, Init(mem), [], RunCompute);
    Snoc(f, Init(mem), [RunCompute], a);
    Snoc(f, Init(mem), [RunCompute, a], b);
    assert [] + [RunCompute] == [RunCompute] && [RunCompute] + [a] == [RunCompute, a];
    assert [RunCompute, a] + [b] == [RunCompute, a, b];
    ControlEffect(f, Exec(f, Init(mem), [RunCompute]), start);
    ControlEffect(f, Exec(f, Init(mem), [RunCompute, a]), reset);
  }

  // ---------------------------------------------------------------- INT_DONE as history

  /** Events that clear INT_DONE: a reset, or a 4-byte write of a one to bit 0 of INT_STATUS. */
  predicate Clears(e: Event)
  {
    IsReset(e) || (IsWrite(e) && e.addr == 0x28 && |e.data| == 4 && Bit0(WordOf(e.data)))
  }

  predicate CompletesAt(s: State, e: Event)
  {
    e.RunCompute? && Succeeds(s)
  }

  lemma DoneByWrite(s: State, e: Event)
    requires StatusOk(s) && IsWrite(e)
    ensures Bit0(Write(s.regs, e.addr, e.data).intStatus) <==> Bit0(s.regs.intStatus) && !Clears(e)
  {
    if e.addr == REG_INT_STATUS {
      AndBits(s.regs.intStatus, Value32(e.data));
    }
  }

  lemma DoneByCompute(f: FloatUnit, s: State)
    ensures Bit0(ComputeStep(f, s).regs.intStatus) <==> Succeeds(s) || Bit0(s.regs.intStatus)
  {
  }

  lemma DoneStep(f: FloatUnit, s: State, e: Event)
    requires StatusOk(s)
    ensures Bit0(Step(f, s, e).regs.intStatus) <==> (CompletesAt(s, e) || (Bit0(s.regs.intStatus) && !Clears(e)))
  {
    if IsWrite(e) {
      DoneByWrite(s, e);
    } else if e.RunCompute? {
      DoneByCompute(f, s);
    }
  }

  /** Some successful completion at k has not been cleared since. */
  ghost predicate Uncleared(f: FloatUnit, s: State, es: seq<Event>, k: nat)
  {
    && k < |es| && CompletesAt(At(f, s, es, k), es[k])
    && forall j :: k < j < |es| ==> !Clears(es[j])
  }

  /** How one more event changes whether a completion stands uncleared. */
  lemma UnclearedBefore(f: FloatUnit, s: State, es: seq<Event>, k: nat)
    requires es != [] && Uncleared(f, s, es, k)
    ensures var m := |es| - 1;
            if k == m then CompletesAt(At(f, s, es, m), es[m]) else !Clears(es[m]) && Uncleared(f, s, es[..m], k)
  {
    if k < |es| - 1 {
      AtPrefix(f, s, es, |es| - 1, k);
    }
  }

  lemma UnclearedAfter(f: FloatUnit, s: State, es: seq<Event>, k: nat)
    requires es != [] && !Clears(es[|es| - 1]) && Uncleared(f, s, es[..|es| - 1], k)
    ensures Uncleared(f, s, es, k)
  {
    AtPrefix(f, s, es, |es| - 1, k);
  }

  lemma UnclearedStep(f: FloatUnit, s: State, es: seq<Event>)
    requires es != []
    ensures var m := |es| - 1;
            (exists k: nat :: Uncleared(f, s, es, k)) <==>
              || CompletesAt(At(f, s, es, m), es[m])
              || (!Clears(es[m]) && exists k: nat :: Uncleared(f, s, es[..m], k))
  {
    var m := |es| - 1;
    if k: nat :| Uncleared(f, s, es, k) {
      UnclearedBefore(f, s, es, k);
    }
    if CompletesAt(At(f, s, es, m), es[m]) {
      assert Uncleared(f, s, es, m);
    }
    if k: nat :| Uncleared(f, s, es[..m], k) && !Clears(es[m]) {
      UnclearedAfter(f, s, es, k);
    }
  }

  /** INT_DONE is set exactly when some successful completion has no later clear, over every run. */
  lemma {:induction false} IntDoneIsHistory(f: FloatUnit, mem: seq<Byte>, es: seq<Event>)
    requires Run(f, mem, es)
    ensures Bit0(Exec(f, Init(mem), es).regs.intStatus) <==> exists k: nat :: Uncleared(f, Init(mem), es, k)
    decreases |es|
  {
    if es != [] {
      var front := es[..|es| - 1];
      IntDoneIsHistory(f, mem, front);
      StatusInvariant(f, mem, front);
      DoneStep(f, Exec(f, Init(mem), front), es[|es| - 1]);
      UnclearedStep(f, Init(mem), es);
    }
  }

  // ---------------------------------------------------------------- the interrupt line

  predicate Notifies(s: State, e: Event)
  {
    || (IsWrite(e) && UpdatesInterrupt(e.addr))
    || (e.RunCompute? && (Fails(s) || Succeeds(s)))
  }

  /**
   The most recent reset or interrupt stretch left the line out of step: a reset found the thread
   idle and the line high, or the thread's first stretch found the level already high.
   */
  ghost predicate OutOfStep(f: FloatUnit, s: State, es: seq<Event>)
    decreases |es|
  {
    es != [] &&
    var k := |es| - 1;
    var t := Exec(f, s, es[..k]);
    if IsReset(es[k]) then t.irq.Idle? && t.line
    else if es[k].RunInterrupt? then t.irq.Starting? && Level(t.regs)
    else OutOfStep(f, s, es[..k])
  }

  /** The line should be high exactly if some interrupt is both pending and enabled. */
  lemma LevelByBit(r: Registers)
    ensures Level(r) <==> exists k: nat :: Bit(r.intStatus, k) && Bit(r.intEnable, k)
  {
    if Level(r) {
      var k := NonzeroHasBit(And(r.intStatus, r.intEnable));
      AndByBit(r.intStatus, r.intEnable, k);
    } else {
      forall k: nat ensures !(Bit(r.intStatus, k) && Bit(r.intEnable, k)) {
        AndByBit(r.intStatus, r.intEnable, k);
        ZeroHasNoBit(k);
      }
    }
  }

  /** Only a reset, or an event that notifies the interrupt thread, can change the level. */
  lemma LevelStep(f: FloatUnit, s: State, e: Event)
    ensures !IsReset(e) && !Notifies(s, e) ==> Level(Step(f, s, e).regs) == Level(s.regs)
    ensures IsReset(e) ==> !Level(Step(f, s, e).regs)
    ensures Notifies(s, e) ==> Step(f, s, e).irq == NotifyIrq(s.irq)
    ensures !Notifies(s, e) && !e.RunInterrupt? ==> Step(f, s, e).irq == s.irq
    ensures !e.RunInterrupt? ==> Step(f, s, e).line == s.line
  {
  }

  /**
   Over every run, whenever the interrupt thread is idle the line shows (INT_STATUS & INT_ENABLE) != 0
   exactly when the run is not out of step. Before its first stretch the line is low.
   */
  lemma {:induction false} LineAgreement(f: FloatUnit, mem: seq<Byte>, es: seq<Event>)
    requires Run(f, mem, es)
    ensures var s := Exec(f, Init(mem), es);
            && (s.irq.NotStarted? ==> !s.line && !Level(s.regs))
            && (s.irq.Starting? ==> !s.line)
            && (s.irq.Idle? ==> (s.line == Level(s.regs) <==> !OutOfStep(f, Init(mem), es)))
    decreases |es|
  {
    if es != [] {
      var front := es[..|es| - 1];
      LineAgreement(f, mem, front);
      LevelStep(f, Exec(f, Init(mem), front), es[|es| - 1]);
    }
  }

  /** CTRL_RESET is the only step that can put an idle, agreeing line out of step; it does so exactly when the line is high. */
  lemma OnlyResetBreaks(f: FloatUnit, s: State, e: Event)
    requires s.irq.Idle? && s.line == Level(s.regs) && Enabled(s, e)
    ensures var t := Step(f, s, e);
            (t.irq.Idle? && t.line != Level(t.regs)) <==> (IsReset(e) && s.line)
  {
    LevelStep(f, s, e);
  }

  /** A notification is served at k, and no later reset finds the line high. */
  ghost predicate ServedAndKept(f: FloatUnit, s: State, es: seq<Event>, k: nat)
  {
    && k < |es| && es[k].RunInterrupt? && At(f, s, es, k).irq.Notified?
    && forall j :: k < j < |es| && IsReset(es[j]) ==> !At(f, s, es, j).line
  }

  lemma ServedPrefix(f: FloatUnit, s: State, es: seq<Event>, k: nat)
    requires ServedAndKept(f, s, es, k) && k < |es| - 1
    ensures ServedAndKept(f, s, es[..|es| - 1], k)
    ensures IsReset(es[|es| - 1]) ==> !Exec(f, s, es[..|es| - 1]).line
  {
    var m := |es| - 1;
    AtPrefix(f, s, es, m, k);
    assert At(f, s, es, m) == Exec(f, s, es[..m]);
    forall j | k < j < m && IsReset(es[..m][j]) ensures !At(f, s, es[..m], j).line {
      AtPrefix(f, s, es, m, j);
    }
  }

  lemma {:induction false} StaysInStep(f: FloatUnit, s: State, es: seq<Event>, k: nat)
    requires ServedAndKept(f, s, es, k)
    ensures !OutOfStep(f, s, es) && (Exec(f, s, es).irq.Idle? || Exec(f, s, es).irq.Notified?)
    decreases |es|
  {
    var m := |es| - 1;
    if k < m {
      ServedPrefix(f, s, es, k);
      StaysInStep(f, s, es[..m], k);
      LevelStep(f, Exec(f, s, es[..m]), es[m]);
    } else {
      assert At(f, s, es, k) == Exec(f, s, es[..m]);
    }
  }

  /** In every run, from a served notification on and until a reset finds the line high, an idle thread means the line agrees. */
  lemma ServiceRestores(f: FloatUnit, mem: seq<Byte>, es: seq<Event>, k: nat)
    requires Run(f, mem, es) && ServedAndKept(f, Init(mem), es, k)
    ensures var s := Exec(f, Init(mem), es); s.irq.Idle? ==> s.line == Level(s.regs)
  {
    StaysInStep(f, Init(mem), es, k);
    LineAgreement(f, mem, es);
  }

  /** The thread's first notification is served before a second one arrives. */
  ghost predicate FirstServed(f: FloatUnit, s: State, es: seq<Event>)
  {
    forall k :: 0 <= k < |es| && At(f, s, es, k).irq.Starting? ==> !Notifies(At(f, s, es, k), es[k])
  }

  lemma FirstServedPrefix(f: FloatUnit, s: State, es: seq<Event>)
    requires FirstServed(f, s, es) && es != []
    ensures FirstServed(f, s, es[..|es| - 1])
    ensures Exec(f, s, es[..|es| - 1]).irq.Starting? ==> !Notifies(Exec(f, s, es[..|es| - 1]), es[|es| - 1])
  {
    var m := |es| - 1;
    assert At(f, s, es, m) == Exec(f, s, es[..m]);
    forall k | 0 <= k < m && At(f, s, es[..m], k).irq.Starting?
      ensures !Notifies(At(f, s, es[..m], k), es[..m][k])
    {
      AtPrefix(f, s, es, m, k);
    }
  }

  /** What is true of the interrupt registers before the thread's first stretch. */
  ghost predicate Quiescent(s: State)
  {
    && (s.irq.NotStarted? ==> s.regs.intStatus == 0 && s.regs.intEnable == 0)
    && (s.irq.Starting? ==> s.regs.intStatus == 0 || s.regs.intEnable == 0)
  }

  lemma NotYetHigh(s: State)
    requires Quiescent(s) && (s.irq.NotStarted? || s.irq.Starting?)
    ensures !Level(s.regs)
  {
    if s.regs.intEnable == 0 {
      AndZero(s.regs.intStatus);
    }
  }

  lemma {:induction false} AndZero(x: nat)
    ensures And(x, 0) == 0
  {
    if x != 0 {
      AndZero(x / 2);
    }
  }

  /** Before the thread has run, no event but a notification touches either register, and each touches only one. */
  lemma QuiescentStep(f: FloatUnit, s: State, e: Event)
    requires Quiescent(s) && (s.irq.Starting? ==> !Notifies(s, e))
    ensures Quiescent(Step(f, s, e))
  {
    if e.RunCompute? && !Notifies(s, e) {
      assert Step(f, s, e).regs.intStatus == s.regs.intStatus && Step(f, s, e).regs.intEnable == s.regs.intEnable;
    }
  }

  lemma {:induction false} StaysQuiescent(f: FloatUnit, mem: seq<Byte>, es: seq<Event>)
    requires Run(f, mem, es) && FirstServed(f, Init(mem), es)
    ensures Quiescent(Exec(f, Init(mem), es))
    decreases |es|
  {
    if es != [] {
      FirstServedPrefix(f, Init(mem), es);
      StaysQuiescent(f, mem, es[..|es| - 1]);
      QuiescentStep(f, Exec(f, Init(mem), es[..|es| - 1]), es[|es| - 1]);
    }
  }

  /** A reset at r found the thread idle and the line high, and the thread has not run since. */
  ghost predicate DroppedAt(f: FloatUnit, s: State, es: seq<Event>, r: nat)
  {
    && r < |es| && IsReset(es[r]) && At(f, s, es, r).irq.Idle? && At(f, s, es, r).line
    && forall j :: r < j < |es| ==> !es[j].RunInterrupt?
  }

  /** Under that condition a reset is the only cause of disagreement, and it lasts only until the next interrupt stretch. */
  lemma {:induction false} OnlyResetsPutOutOfStep(f: FloatUnit, mem: seq<Byte>, es: seq<Event>)
    requires Run(f, mem, es) && FirstServed(f, Init(mem), es) && OutOfStep(f, Init(mem), es)
    ensures exists r: nat :: DroppedAt(f, Init(mem), es, r)
    decreases |es|
  {
    var s0, m := Init(mem), |es| - 1;
    var front := es[..m];
    FirstServedPrefix(f, s0, es);
    if IsReset(es[m]) {
      assert DroppedAt(f, s0, es, m);
    } else if es[m].RunInterrupt? {
      FirstStretchIsQuiet(f, mem, front);
    } else {
      OnlyResetsPutOutOfStep(f, mem, front);
      var r: nat :| DroppedAt(f, s0, front, r);
      DroppedStays(f, s0, es, r);
    }
  }

  lemma DroppedStays(f: FloatUnit, s: State, es: seq<Event>, r: nat)
    requires es != [] && !es[|es| - 1].RunInterrupt? && DroppedAt(f, s, es[..|es| - 1], r)
    ensures DroppedAt(f, s, es, r)
  {
    var m := |es| - 1;
    AtPrefix(f, s, es, m, r);
    forall j | r < j < |es| ensures !es[j].RunInterrupt? {
      assert j < m ==> es[..m][j] == es[j];
    }
  }

  /** A first stretch finds the level low. */
  lemma FirstStretchIsQuiet(f: FloatUnit, mem: seq<Byte>, es: seq<Event>)
    requires Run(f, mem, es) && FirstServed(f, Init(mem), es) && Exec(f, Init(mem), es).irq.Starting?
    ensures !Level(Exec(f, Init(mem), es).regs)
  {
    StaysQuiescent(f, mem, es);
    NotYetHigh(Exec(f, Init(mem), es));
  }

  /** So whenever the interrupt thread is idle, the line is right unless a reset has dropped the level since its last stretch. */
  lemma LineAgreesOnceServed(f: FloatUnit, mem: seq<Byte>, es: seq<Event>)
    requires Run(f, mem, es) && FirstServed(f, Init(mem), es)
    ensures var s := Exec(f, Init(mem), es);
            s.irq.Idle? ==> s.line == Level(s.regs) || exists r: nat :: DroppedAt(f, Init(mem), es, r)
    ensures var s := Exec(f, Init(mem), es); ResetFree(es) && s.irq.Idle? ==> s.line == Level(s.regs)
  {
    LineAgreement(f, mem, es);
    if OutOfStep(f, Init(mem), es) {
      OnlyResetsPutOutOfStep(f, mem, es);
      var r: nat :| DroppedAt(f, Init(mem), es, r);
      assert es[r] in es;
    }
  }

  function Write32(addr: Long, v: Word): Event
  {
    Transport(WriteCommand, addr, ToLE(v, 4))
  }

  /** Start-up, dimension one, START and the first stretch of the computation; and the rest of it. */
  function SetupRun(): seq<Event>
  {
    [RunCompute, Write32(REG_DIM_N, 1), Write32(REG_CONTROL, 1), RunCompute]
  }

  function FinishRun(): seq<Event>
  {
    [RunCompute, RunCompute, RunCompute, RunCompute]
  }

  /** The first success notifies the thread, and INT_ENABLE is written before the thread has run at all. */
  function CrowdedRun(v: Word): seq<Event>
  {
    SetupRun() + FinishRun() + [Write32(REG_INT_ENABLE, v)] + [RunInterrupt]
  }

  /** Four stretches take a computation of dimension one from its A transfer to its end: B and the row, then C and success. */
  lemma SmallestFirst(f: FloatUnit, s: State)
    requires s.compute.ReadA? && s.compute.n == 1 && s.compute.ok && |s.mem| >= 4 && s.regs.bPtr == 0
    ensures var t := ComputeStep(f, s); var u := ComputeStep(f, t);
            && Enabled(s, RunCompute) && Enabled(t, RunCompute) && u == s.(compute := u.compute)
            && u.compute.RowDone? && u.compute.n == 1 && u.compute.i == 0
  {
    assert Fits(s.mem, 0, 1);
  }

  lemma SmallestLast(f: FloatUnit, s: State)
    requires s.compute.RowDone? && s.compute.n == 1 && s.compute.i == 0 && |s.mem| >= 4 && s.regs.cPtr == 0
    ensures var t := ComputeStep(f, s);
            && Enabled(s, RunCompute) && Enabled(t, RunCompute) && ComputeStep(f, t) == Succeed(s.(mem := t.mem))
  {
    assert Fits(s.mem, 0, 1);
  }

  lemma SmallestComputation(f: FloatUnit, s: State)
    requires s.compute.ReadA? && s.compute.n == 1 && s.compute.ok && |s.mem| >= 4
    requires s.regs.bPtr == 0 && s.regs.cPtr == 0
    ensures var es := FinishRun();
            && Feasible(f, s, es)
            && Exec(f, s, es) == Succeed(s.(mem := Exec(f, s, es).mem))
  {
    var one := [RunCompute];
    var two := one + [RunCompute];
    var three := two + [RunCompute];
    Snoc(f, s, [], RunCompute);
    Snoc(f, s, one, RunCompute);
    Snoc(f, s, two, RunCompute);
    Snoc(f, s, three, RunCompute);
    assert [] + [RunCompute] == one;
    assert three + [RunCompute] == [RunCompute, RunCompute, RunCompute, RunCompute];
    SmallestFirst(f, s);
    SmallestLast(f, Exec(f, s, two));
  }

  lemma {:induction false} Concat(f: FloatUnit, s: State, es: seq<Event>, more: seq<Event>)
    ensures Exec(f, s, es + more) == Exec(f, Exec(f, s, es), more)
    ensures Feasible(f, s, es + more) <==> Feasible(f, s, es) && Feasible(f, Exec(f, s, es), more)
    decreases |more|
  {
    if more == [] {
      assert es + more == es;
    } else {
      var k := |more| - 1;
      Concat(f, s, es, more[..k]);
      assert (es + more)[..|es| + k] == es + more[..k];
    }
  }

  /** The registers after a 4-byte write of a value. */
  lemma Write32Effects(f: FloatUnit, s: State, v: Word)
    ensures Step(f, s, Write32(REG_DIM_N, v)) == s.(regs := s.regs.(dimN := v))
    ensures Step(f, s, Write32(REG_INT_ENABLE, v)) == s.(regs := s.regs.(intEnable := v), irq := NotifyIrq(s.irq))
  {
    WordRoundTrip(v, ToLE(v, 4));
  }

  /** From the first wait: write the dimension, START, and take up the request. */
  lemma SetupSteps(f: FloatUnit, s: State, n: Word, v: Word)
    requires s.regs == ResetRegisters() && s.compute.Waiting? && ValidDim(n) && Fits(s.mem, 0, n) && Bit0(v) && !Bit1(v)
    requires NoWrap(0, n)
    ensures var t := Step(f, s, Write32(REG_DIM_N, n)); var u := Step(f, t, Write32(REG_CONTROL, v));
            && Enabled(u, RunCompute)
            && Step(f, u, RunCompute) == s.(regs := ResetRegisters().(control := v, status := BUSY, dimN := n),
                                            compute := ReadA(n, LoadMatrix(s.mem, 0, n), true))
  {
    Write32Effects(f, s, n);
    ControlEffect(f, Step(f, s, Write32(REG_DIM_N, n)), v);
  }

  lemma SetupReaches(f: FloatUnit, mem: seq<Byte>)
    requires |mem| >= 4
    ensures var es := SetupRun();
            && Run(f, mem, es)
            && Exec(f, Init(mem), es) == State(ResetRegisters().(control := 1, status := BUSY, dimN := 1),
                                               ReadA(1, LoadMatrix(mem, 0, 1), true), NotStarted, false, mem)
  {
    var one := [RunCompute];
    var two := one + [Write32(REG_DIM_N, 1)];
    var three := two + [Write32(REG_CONTROL, 1)];
    Snoc(f, Init(mem), [], RunCompute);
    Snoc(f, Init(mem), one, Write32(REG_DIM_N, 1));
    Snoc(f, Init(mem), two, Write32(REG_CONTROL, 1));
    Snoc(f, Init(mem), three, RunCompute);
    assert [] + [RunCompute] == one;
    assert three + [RunCompute] == SetupRun();
    assert Exec(f, Init(mem), one) == Init(mem).(compute := Waiting);
    SetupSteps(f, Init(mem).(compute := Waiting), 1, 1);
  }

  /** Enabling the interrupt while the thread has not run yet: its first stretch misses the level. */
  lemma LateEnable(f: FloatUnit, s: State, v: Word)
    requires s.irq.Starting? && s.regs.intStatus == 1 && Bit0(v) && !s.line
    ensures var e := Write32(REG_INT_ENABLE, v);
            var t := Step(f, Step(f, s, e), RunInterrupt);
            && Enabled(Step(f, s, e), RunInterrupt)
            && t.irq.Idle? && !t.line && Level(t.regs)
  {
    WordRoundTrip(v, ToLE(v, 4));
    AndBits(1, v);
  }

  /** Without that condition the claim is false: two notifications before the first stretch leave the line low. */
  lemma CrowdedFirstUpdateIsLost(f: FloatUnit, mem: seq<Byte>, v: Word)
    requires |mem| >= 4 && Bit0(v)
    ensures Run(f, mem, CrowdedRun(v))
    ensures var s := Exec(f, Init(mem), CrowdedRun(v));
            s.irq.Idle? && !s.line && Level(s.regs)
  {
    var setup, finish := SetupRun(), FinishRun();
    var enable := Write32(REG_INT_ENABLE, v);
    SetupReaches(f, mem);
    SmallestComputation(f, Exec(f, Init(mem), setup));
    Concat(f, Init(mem), setup, finish);
    Snoc(f, Init(mem), setup + finish, enable);
    Snoc(f, Init(mem), setup + finish + [enable], RunInterrupt);
    LateEnable(f, Exec(f, Init(mem), setup + finish), v);
  }

  // ---------------------------------------------------------------- what a reset does to runs

  /** A reset together with START, during a computation: the START is accepted but reaches no waiting thread. */
  function ResetStartRun(v: Word): seq<Event>
  {
    SetupRun() + [Write32(REG_CONTROL, v)] + FinishRun()
  }

  /** When the computation has ended, the request is still pending and the thread is not runnable. */
  lemma ResetLosesStart(f: FloatUnit, mem: seq<Byte>, v: Word)
    requires |mem| >= 4 && Bit0(v) && Bit1(v)
    ensures Run(f, mem, ResetStartRun(v))
    ensures var s := Exec(f, Init(mem), ResetStartRun(v));
            s.regs.requested && s.compute.Waiting? && !Enabled(s, RunCompute)
  {
    var e, s0 := Write32(REG_CONTROL, v), Init(mem);
    SetupReaches(f, mem);
    WordRoundTrip(v, ToLE(v, 4));
    Snoc(f, s0, SetupRun(), e);
    var t := Exec(f, s0, SetupRun() + [e]);
    assert t.regs == ResetRegisters().(requested := true) && t.compute == ReadA(1, LoadMatrix(mem, 0, 1), true);
    SmallestComputation(f, t);
    Concat(f, s0, SetupRun() + [e], FinishRun());
  }

  /** The interrupt is enabled and served, a computation completes and is served, then the device is reset. */
  function ResetRun(v: Word): seq<Event>
  {
    SetupRun() + [Write32(REG_INT_ENABLE, v)] + [RunInterrupt] + FinishRun() + [RunInterrupt] + [Write32(REG_CONTROL, 2)]
  }

  /** A first notification while computing, served at once. */
  lemma EnableServed(f: FloatUnit, s: State, v: Word)
    requires s.irq.NotStarted?
    ensures var e := Write32(REG_INT_ENABLE, v);
            && Enabled(Step(f, s, e), RunInterrupt)
            && Step(f, Step(f, s, e), RunInterrupt) == s.(regs := s.regs.(intEnable := v), irq := Idle)
  {
    WordRoundTrip(v, ToLE(v, 4));
  }

  /** A completion served, and then a reset. */
  lemma ServedThenReset(f: FloatUnit, s: State)
    requires s.irq.Notified? && s.regs.intStatus == 1 && Bit0(s.regs.intEnable)
    ensures var t := Step(f, s, RunInterrupt);
            var u := Step(f, t, Write32(REG_CONTROL, 2));
            t.irq.Idle? && t.line && u.irq.Idle? && u.line && !Level(u.regs)
  {
    AndBits(1, s.regs.intEnable);
    WordRoundTrip(2, ToLE(2, 4));
  }

  /** The reset leaves the line high while (INT_STATUS & INT_ENABLE) == 0, and no update is pending. */
  lemma ResetLeavesLineHigh(f: FloatUnit, mem: seq<Byte>, v: Word)
    requires |mem| >= 4 && Bit0(v)
    ensures Run(f, mem, ResetRun(v))
    ensures var s := Exec(f, Init(mem), ResetRun(v));
            s.irq.Idle? && s.line && !Level(s.regs)
  {
    var s0, enable := Init(mem), Write32(REG_INT_ENABLE, v);
    var a := SetupRun() + [enable];
    var b := a + [RunInterrupt];
    var c := b + FinishRun();
    var d := c + [RunInterrupt];
    SetupReaches(f, mem);
    Snoc(f, s0, SetupRun(), enable);
    Snoc(f, s0, a, RunInterrupt);
    EnableServed(f, Exec(f, s0, SetupRun()), v);
    SmallestComputation(f, Exec(f, s0, b));
    Concat(f, s0, b, FinishRun());
    ServedThenReset(f, Exec(f, s0, c));
    Snoc(f, s0, c, RunInterrupt);
    Snoc(f, s0, d, Write32(REG_CONTROL, 2));
  }
}
