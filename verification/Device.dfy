/**
 The endpoint as an object: registers, the compute thread's frame and the interrupt signal are
 fields updated in place. Each operation is proved to be the corresponding step of the machine.
 */
module Device {
  import opened Bytes
  import opened Matrix
  import opened Registers
  import opened HostMemory
  import opened Endpoint
  import opened Timing

  datatype Location = AtStart | AtWait | AtWoken | AtReadA | AtReadB | AtRow | AtWroteC

  class MatrixMultiplier {
    var control: Word
    var status: Word
    var dimN: Word
    var aPtr: Long
    var bPtr: Long
    var cPtr: Long
    var intStatus: Word
    var intEnable: Word
    var requested: bool

    // the compute thread's frame
    var at: Location
    var n: nat
    var a: array<Word>
    var b: array<Word>
    var c: array<Word>
    var row: nat
    var ok: bool

    var irq: Irq
    var line: bool
    const memory: Memory

    ghost predicate Valid()
      reads this, c
    {
      && a != c && b != c
      && c as object != memory.bytes && a as object != memory.bytes && b as object != memory.bytes
      && (at.AtReadA? || at.AtReadB? || at.AtRow? || at.AtWroteC? ==>
            ValidDim(n) && a.Length == n * n && b.Length == n * n && c.Length == n * n && row < n)
      && (at.AtReadA? || at.AtReadB? ==> c[..] == Zeros(n * n))
    }

    function Regs(): Registers
      reads this
    {
      Registers(control, status, dimN, aPtr, bPtr, cPtr, intStatus, intEnable, requested)
    }

    ghost function Frame(): Thread
      reads this, a, b, c
    {
      match at
      case AtStart => Unstarted
      case AtWait => Waiting
      case AtWoken => Woken
      case AtReadA => ReadA(n, a[..], ok)
      case AtReadB => ReadB(n, a[..], b[..], ok)
      case AtRow => RowDone(n, a[..], b[..], c[..], row)
      case AtWroteC => WroteC(n, ok)
    }

    ghost function Model(): State
      reads this, a, b, c, memory.bytes
    {
      State(Regs(), Frame(), irq, line, memory.bytes[..])
    }

    constructor (memory: Memory)
      ensures Valid() && fresh(a) && fresh(b) && fresh(c)
      ensures this.memory == memory && Model() == Init(memory.bytes[..])
    {
      this.memory := memory;
      control, status, dimN := 0, IDLE, 0;
      aPtr, bPtr, cPtr := 0, 0, 0;
      intStatus, intEnable, requested := 0, 0, false;
      at, n, row, ok := AtStart, 0, 0, false;
      a, b, c := new Word[0], new Word[0], new Word[0];
      irq, line := NotStarted, false;
    }

    method ResetDevice()
      modifies this`control, this`status, this`dimN, this`aPtr, this`bPtr, this`cPtr,
               this`intStatus, this`intEnable, this`requested
      ensures Regs() == ResetRegisters()
    {
      control := 0;
      status := IDLE;
      dimN := 0;
      aPtr := 0;
      bPtr := 0;
      cPtr := 0;
      intStatus := 0;
      intEnable := 0;
      requested := false;
    }

    /** interrupt_update_event.notify() */
    method UpdateInterrupt()
      modifies this`irq
      ensures irq == NotifyIrq(old(irq))
    {
      if irq.NotStarted? {
        irq := Starting;
      } else if irq.Idle? {
        irq := Notified;
      }
    }

    method WriteControlRegister(value: Word)
      modifies this`control, this`status, this`dimN, this`aPtr, this`bPtr, this`cPtr,
               this`intStatus, this`intEnable, this`requested, this`at
      ensures Regs() == WriteControl(old(Regs()), value)
      ensures at == if Bit0(value) && (Bit1(value) || Bit0(old(status))) && old(at).AtWait? then AtWoken else old(at)
    {
      control := value;
      if Bit1(value) {
        ResetDevice();
      }
      if Bit0(value) {
        if Bit0(status) {
          requested := true;
          if at.AtWait? {
            at := AtWoken;
          }
        }
      }
    }

    method HandleMmioWrite(addr: Long, data: seq<Byte>)
      requires |data| == 4 || |data| == 8
      modifies this`control, this`status, this`dimN, this`aPtr, this`bPtr, this`cPtr,
               this`intStatus, this`intEnable, this`requested, this`at, this`irq
      ensures Regs() == Write(old(Regs()), addr, data)
      ensures at == if AcceptsStart(old(Regs()), addr, data) && old(at).AtWait? then AtWoken else old(at)
      ensures irq == if UpdatesInterrupt(addr) then NotifyIrq(old(irq)) else old(irq)
    {
      var value: Word, value64: Long := 0, 0;
      if |data| == 4 {
        value := WordOf(data);
      } else {
        value64 := LongOf(data);
      }
      if addr == REG_CONTROL {
        WriteControlRegister(value);
      } else if addr == REG_DIM_N {
        dimN := value;
      } else if addr == REG_MATRIX_A_PTR {
        aPtr := if |data| == 8 then value64 else SetLow(aPtr, value);
      } else if addr == REG_MATRIX_A_PTR + 4 {
        aPtr := SetHigh(aPtr, value);
      } else if addr == REG_MATRIX_B_PTR {
        bPtr := if |data| == 8 then value64 else SetLow(bPtr, value);
      } else if addr == REG_MATRIX_B_PTR + 4 {
        bPtr := SetHigh(bPtr, value);
      } else if addr == REG_MATRIX_C_PTR {
        cPtr := if |data| == 8 then value64 else SetLow(cPtr, value);
      } else if addr == REG_MATRIX_C_PTR + 4 {
        cPtr := SetHigh(cPtr, value);
      } else if addr == REG_INT_STATUS {
        intStatus := AndNot(intStatus, value);
        UpdateInterrupt();
      } else if addr == REG_INT_ENABLE {
        intEnable := value;
        UpdateInterrupt();
      }
    }

    method HandleMmioRead(addr: Long, len: nat) returns (data: seq<Byte>)
      requires DefinedRead(addr, len)
      ensures data == Read(Regs(), addr, len)
    {
      var value: Word := 0;
      if addr == REG_CONTROL {
        value := control;
      } else if addr == REG_STATUS {
        value := status;
      } else if addr == REG_DIM_N {
        value := dimN;
      } else if PointerBase(addr) {
        var p := if addr == REG_MATRIX_A_PTR then aPtr else if addr == REG_MATRIX_B_PTR then bPtr else cPtr;
        if len == 8 {
          return ToLE(p, 8);
        }
        value := p % 0x1_0000_0000;
      } else if addr == REG_MATRIX_A_PTR + 4 {
        value := aPtr / 0x1_0000_0000;
      } else if addr == REG_MATRIX_B_PTR + 4 {
        value := bPtr / 0x1_0000_0000;
      } else if addr == REG_MATRIX_C_PTR + 4 {
        value := cPtr / 0x1_0000_0000;
      } else if addr == REG_INT_STATUS {
        value := intStatus;
      } else if addr == REG_INT_ENABLE {
        value := intEnable;
      } else {
        value := UNDEFINED;
      }
      data := ToLE(value, 4);
    }

    /** The write path of bar0_b_transport, as a step of the machine. */
    method AcceptWrite(addr: Long, data: seq<Byte>)
      requires Valid() && (|data| == 4 || |data| == 8)
      modifies this`control, this`status, this`dimN, this`aPtr, this`bPtr, this`cPtr,
               this`intStatus, this`intEnable, this`requested, this`at, this`irq
      ensures Valid() && Model() == HostWrite(old(Model()), addr, data)
    {
      HandleMmioWrite(addr, data);
    }

    /** bar0_b_transport: any length but 4 or 8 is refused without effect and without delay. */
    method Bar0Transport(cmd: Command, addr: Long, data: seq<Byte>) returns (accepted: bool, reply: seq<Byte>, delay: nat)
      requires Valid() && Enabled(Model(), Transport(cmd, addr, data))
      modifies this
      ensures Valid() && a == old(a) && b == old(b) && c == old(c)
      ensures accepted == (|data| == 4 || |data| == 8)
      ensures delay == if accepted then 10 else 0
      ensures reply == if accepted && cmd.ReadCommand? then Read(old(Regs()), addr, |data|) else data
      ensures forall f :: Model() == Step(f, old(Model()), Transport(cmd, addr, data))
    {
      if |data| != 4 && |data| != 8 {
        return false, data, 0;
      }
      reply := data;
      if cmd.ReadCommand? {
        reply := HandleMmioRead(addr, |data|);
      } else if cmd.WriteCommand? {
        AcceptWrite(addr, data);
      }
      return true, reply, 10;
    }

    // -------------------------------------------------------------- DMA

    static method VectorOf(image: seq<Word>) returns (v: array<Word>)
      ensures fresh(v) && v[..] == image
    {
      v := new Word[|image|](i requires 0 <= i < |image| => image[i]);
    }

    static method NewVector(k: nat) returns (v: array<Word>)
      ensures fresh(v) && v[..] == Zeros(k)
    {
      v := new Word[k](_ => 0);
    }

    /** dma_read into fresh zeroed storage for an m by m matrix. */
    method DmaRead(p: Long, m: nat) returns (words: array<Word>, accepted: bool, delay: nat)
      requires NoWrap(p, m)
      modifies memory.bytes
      ensures fresh(words) && words[..] == LoadMatrix(memory.bytes[..], p, m)
      ensures accepted == Fits(memory.bytes[..], p, m) && delay == TransferTime(accepted)
      ensures memory.bytes[..] == old(memory.bytes[..])
    {
      var buffer := new Byte[MatrixBytes(m)](_ => 0);
      var extra;
      accepted, extra := memory.Transport(ReadCommand, p, buffer);
      delay := DMA_DELAY + extra;
      if accepted {
        words := VectorOf(WordsOf(buffer[..]));
      } else {
        words := NewVector(m * m);
      }
    }

    /** dma_write of the result storage. */
    method DmaWrite(p: Long, m: nat) returns (accepted: bool, delay: nat)
      requires Valid() && NoWrap(p, m) && c.Length == m * m
      modifies memory.bytes
      ensures accepted == Fits(old(memory.bytes[..]), p, m) && delay == TransferTime(accepted)
      ensures memory.bytes[..] == Stored(old(memory.bytes[..]), p, BytesOf(c[..]))
    {
      var image := BytesOf(c[..]);
      var buffer := new Byte[|image|](i requires 0 <= i < |image| => image[i]);
      assert buffer[..] == image;
      var extra;
      accepted, extra := memory.Transport(WriteCommand, p, buffer);
      delay := DMA_DELAY + extra;
    }

    // -------------------------------------------------------------- threads

    /** The end of compute_thread's loop body. */
    method Finish(success: bool)
      requires Valid()
      modifies this`status, this`intStatus, this`at, this`irq
      ensures Valid()
      ensures Model() == if success then Succeed(old(Model())) else Fail(old(Model()))
    {
      if success {
        status := IDLE + DONE;
        intStatus := if Bit0(intStatus) then intStatus else intStatus + 1;
      } else {
        status := IDLE + ERROR;
      }
      UpdateInterrupt();
      at := AtWait;
    }

    /** The thread has just been woken: take up the request, if it still stands, as far as the wait in the first transfer. */
    method TakeUp() returns (delay: nat)
      requires Valid() && at.AtWoken? && DmaDefined(Model())
      modifies this, memory.bytes
      ensures Valid() && fresh({a, b, c} - old({a, b, c}))
      ensures Model() == if old(requested) then Begin(old(Model())) else old(Model()).(compute := Waiting)
      ensures delay == WaitTime(Frame())
    {
      delay := 0;
      if !requested {
        at := AtWait;
      } else {
        ghost var busy := Model().(regs := Regs().(status := BUSY, requested := false));
        status := BUSY;
        requested := false;
        assert Model() == busy;
        delay := BeginMultiply();
      }
    }

    /** perform_matrix_multiply up to its first wait: check the dimension, then read A. */
    method BeginMultiply() returns (delay: nat)
      requires Valid() && at.AtWoken? && (ValidDim(dimN) ==> NoWrap(aPtr, dimN))
      modifies this, memory.bytes
      ensures Valid() && fresh({a, b, c} - old({a, b, c}))
      ensures Model() == if !ValidDim(old(dimN)) then Fail(old(Model()))
                         else old(Model()).(compute := ReadA(dimN, LoadMatrix(memory.bytes[..], aPtr, dimN),
                                                             Fits(memory.bytes[..], aPtr, dimN)))
      ensures delay == WaitTime(Frame())
    {
      delay := 0;
      if dimN == 0 || dimN > MAX_DIM {
        Finish(false);
      } else {
        delay := TransferA();
      }
    }

    /** Allocate the three vectors and read A. */
    method TransferA() returns (delay: nat)
      requires ValidDim(dimN) && NoWrap(aPtr, dimN)
      modifies this`at, this`n, this`a, this`b, this`c, this`row, this`ok, memory.bytes
      ensures Valid() && fresh(a) && fresh(b) && fresh(c) && at.AtReadA? && n == dimN
      ensures memory.bytes[..] == old(memory.bytes[..])
      ensures a[..] == LoadMatrix(memory.bytes[..], aPtr, n) && ok == Fits(memory.bytes[..], aPtr, n)
      ensures delay == TransferTime(ok)
    {
      n, row := dimN, 0;
      b := NewVector(n * n);
      c := NewVector(n * n);
      a, ok, delay := DmaRead(aPtr, n);
      at := AtReadA;
    }

    /** A has arrived: read B. */
    method TransferB() returns (delay: nat)
      requires Valid() && at.AtReadA? && ok && NoWrap(bPtr, n)
      modifies this`at, this`b, this`ok, memory.bytes
      ensures Valid() && fresh(b) && at.AtReadB?
      ensures memory.bytes[..] == old(memory.bytes[..])
      ensures b[..] == LoadMatrix(memory.bytes[..], bPtr, n) && ok == Fits(memory.bytes[..], bPtr, n)
      ensures delay == TransferTime(ok)
    {
      b, ok, delay := DmaRead(bPtr, n);
      at := AtReadB;
    }

    /** Compute row i of the result, then wait. */
    method ComputeRow(f: FloatUnit, i: nat) returns (delay: nat)
      requires Valid() && (at.AtReadB? || at.AtRow?) && i < n
      modifies this`at, this`row, c
      ensures Valid() && at.AtRow? && row == i
      ensures c[..] == PutRow(old(c[..]), i * n, Row(f, a[..], b[..], n, i))
      ensures delay == 2 * n
    {
      MultiplyRow(f, a, b, c, n, i);
      at, row, delay := AtRow, i, 2 * n;
    }

    /** The stretch that follows the transfer of A. */
    method AfterA() returns (delay: nat)
      requires Valid() && at.AtReadA? && DmaDefined(Model())
      modifies this`status, this`intStatus, this`at, this`irq, this`b, this`ok, memory.bytes
      ensures Valid() && fresh({b} - {old(b)})
      ensures forall f :: Model() == ComputeStep(f, old(Model()))
      ensures delay == WaitTime(Frame())
    {
      delay := 0;
      if !ok {
        Finish(false);
      } else {
        delay := TransferB();
      }
    }

    /** The stretch that follows the transfer of B. */
    method AfterB(f: FloatUnit) returns (delay: nat)
      requires Valid() && at.AtReadB?
      modifies this`status, this`intStatus, this`at, this`irq, this`row, c
      ensures Valid() && Model() == ComputeStep(f, old(Model()))
      ensures delay == WaitTime(Frame())
    {
      delay := 0;
      if !ok {
        Finish(false);
      } else {
        delay := ComputeRow(f, 0);
      }
    }

    /** The last row is done: write C. */
    method TransferC() returns (delay: nat)
      requires Valid() && at.AtRow? && NoWrap(cPtr, n)
      modifies this`at, this`ok, memory.bytes
      ensures Valid() && at.AtWroteC? && ok == Fits(old(memory.bytes[..]), cPtr, n) && delay == TransferTime(ok)
      ensures memory.bytes[..] == Stored(old(memory.bytes[..]), cPtr, BytesOf(c[..]))
    {
      ok, delay := DmaWrite(cPtr, n);
      at := AtWroteC;
    }

    /** The stretches that follow a row: the next row, or the transfer of C. */
    method AfterRow(f: FloatUnit) returns (delay: nat)
      requires Valid() && at.AtRow? && DmaDefined(Model())
      modifies this`at, this`row, this`ok, c, memory.bytes
      ensures Valid() && Model() == ComputeStep(f, old(Model()))
      ensures delay == WaitTime(Frame())
    {
      if row + 1 < n {
        delay := ComputeRow(f, row + 1);
      } else {
        delay := TransferC();
      }
    }

    /** One stretch of compute_thread, up to its next wait. */
    method RunComputeThread(f: FloatUnit) returns (delay: nat)
      requires Valid() && Enabled(Model(), RunCompute)
      modifies this, c, memory.bytes
      ensures Valid() && fresh({a, b, c} - old({a, b, c}))
      ensures Model() == ComputeStep(f, old(Model()))
      ensures delay == WaitTime(Frame())
    {
      delay := 0;
      if at.AtStart? {
        at := AtWait;
      } else if at.AtWoken? {
        delay := TakeUp();
      } else if at.AtRow? {
        delay := AfterRow(f);
      } else if at.AtWroteC? {
        Finish(ok);
      } else if at.AtReadA? {
        delay := AfterA();
      } else {
        delay := AfterB(f);
      }
    }

    /** One stretch of interrupt_controller. */
    method RunInterruptThread()
      requires Valid() && irq.Runnable()
      modifies this`irq, this`line
      ensures Valid() && Model() == InterruptStep(old(Model()))
    {
      if irq.Notified? {
        line := And(intStatus, intEnable) != 0;
      }
      irq := Idle;
    }
  }
}
