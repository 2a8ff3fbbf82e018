/** The BAR0 register file of the matrix-multiplier endpoint. */
module Registers {
  import opened Bytes

  const REG_CONTROL: Long := 0x00
  const REG_STATUS: Long := 0x04
  const REG_DIM_N: Long := 0x08
  const REG_MATRIX_A_PTR: Long := 0x10
  const REG_MATRIX_B_PTR: Long := 0x18
  const REG_MATRIX_C_PTR: Long := 0x20
  const REG_INT_STATUS: Long := 0x28
  const REG_INT_ENABLE: Long := 0x2C

  const IDLE: Word := 1
  const BUSY: Word := 2
  const DONE: Word := 4
  const ERROR: Word := 8
  const INT_DONE: Word := 1
  const UNDEFINED: Word := 0xDEADBEEF

  /** Every register, and the flag by which a START request reaches the compute thread. */
  datatype Registers = Registers(
    control: Word, status: Word, dimN: Word,
    aPtr: Long, bPtr: Long, cPtr: Long,
    intStatus: Word, intEnable: Word,
    requested: bool)

  function ResetRegisters(): Registers
  {
    Registers(0, IDLE, 0, 0, 0, 0, 0, 0, false)
  }

  /** The value a write stores into a 32-bit register: an 8-byte write fills only the 64-bit variable. */
  function Value32(data: seq<Byte>): Word
  {
    if |data| == 4 then WordOf(data) else 0
  }

  function SetLow(p: Long, v: Word): Long { p / 0x1_0000_0000 * 0x1_0000_0000 + v as int }
  function SetHigh(p: Long, v: Word): Long { p % 0x1_0000_0000 + v as int * 0x1_0000_0000 }

  function SetPointer(p: Long, data: seq<Byte>): Long
    requires |data| == 4 || |data| == 8
  {
    if |data| == 8 then LongOf(data) else SetLow(p, WordOf(data))
  }

  /** A write of v to CONTROL: store, then reset if asked, then accept START if idle. */
  function WriteControl(r: Registers, v: Word): Registers
  {
    var stored := if Bit1(v) then ResetRegisters() else r.(control := v);
    if Bit0(v) && Bit0(stored.status) then stored.(requested := true) else stored
  }

  function Write(r: Registers, addr: Long, data: seq<Byte>): Registers
    requires |data| == 4 || |data| == 8
  {
    var v := Value32(data);
    if addr == REG_CONTROL then WriteControl(r, v)
    else if addr == REG_DIM_N then r.(dimN := v)
    else if addr == REG_MATRIX_A_PTR then r.(aPtr := SetPointer(r.aPtr, data))
    else if addr == REG_MATRIX_A_PTR + 4 then r.(aPtr := SetHigh(r.aPtr, v))
    else if addr == REG_MATRIX_B_PTR then r.(bPtr := SetPointer(r.bPtr, data))
    else if addr == REG_MATRIX_B_PTR + 4 then r.(bPtr := SetHigh(r.bPtr, v))
    else if addr == REG_MATRIX_C_PTR then r.(cPtr := SetPointer(r.cPtr, data))
    else if addr == REG_MATRIX_C_PTR + 4 then r.(cPtr := SetHigh(r.cPtr, v))
    else if addr == REG_INT_STATUS then r.(intStatus := AndNot(r.intStatus, v))
    else if addr == REG_INT_ENABLE then r.(intEnable := v)
    else r
  }

  /** Does this write reset the device? Does it make the device accept a START? Does it update the interrupt? */
  predicate Resets(addr: Long, data: seq<Byte>)
  {
    addr == REG_CONTROL && Bit1(Value32(data))
  }

  predicate AcceptsStart(r: Registers, addr: Long, data: seq<Byte>)
  {
    addr == REG_CONTROL && Bit0(Value32(data)) && (Resets(addr, data) || Bit0(r.status))
  }

  predicate UpdatesInterrupt(addr: Long)
  {
    addr == REG_INT_STATUS || addr == REG_INT_ENABLE
  }

  predicate PointerBase(addr: Long)
  {
    addr == REG_MATRIX_A_PTR || addr == REG_MATRIX_B_PTR || addr == REG_MATRIX_C_PTR
  }

  /** The pointer register whose window starts at addr. */
  function Pointer(r: Registers, addr: Long): Long
    requires PointerBase(addr)
  {
    if addr == REG_MATRIX_A_PTR then r.aPtr else if addr == REG_MATRIX_B_PTR then r.bPtr else r.cPtr
  }

  function ReadValue(r: Registers, addr: Long): Word
  {
    if addr == REG_CONTROL then r.control
    else if addr == REG_STATUS then r.status
    else if addr == REG_DIM_N then r.dimN
    else if PointerBase(addr) then Pointer(r, addr) % 0x1_0000_0000
    else if addr >= 4 && PointerBase(addr - 4) then Pointer(r, addr - 4) / 0x1_0000_0000
    else if addr == REG_INT_STATUS then r.intStatus
    else if addr == REG_INT_ENABLE then r.intEnable
    else UNDEFINED
  }

  /** An 8-byte read is defined only at a pointer base: elsewhere it would copy past a 4-byte value. */
  predicate DefinedRead(addr: Long, len: nat)
  {
    len == 4 || (len == 8 && PointerBase(addr))
  }

  function Read(r: Registers, addr: Long, len: nat): (data: seq<Byte>)
    requires DefinedRead(addr, len)
    ensures |data| == len
  {
    if len == 8 then ToLE(Pointer(r, addr), 8) else ToLE(ReadValue(r, addr), 4)
  }

  // ------------------------------------------------------- plain registers

  /** The registers that hold what was last written to them. */
  predicate Plain(addr: Long)
  {
    addr == 0x08 || addr == 0x2C
  }

  /** A 4-byte write to a plain register reads back; an 8-byte write leaves zero in it; no other register changes. */
  lemma PlainReadsBack(r: Registers, addr: Long, data: seq<Byte>, other: Long)
    requires Plain(addr) && (|data| == 4 || |data| == 8)
    ensures Read(Write(r, addr, data), addr, 4) == if |data| == 4 then data else ToLE(0, 4)
    ensures other != addr ==> ReadValue(Write(r, addr, data), other) == ReadValue(r, other)
  {
    if |data| == 4 {
      WordRoundTrip(0, data);
    }
  }

  /** A write to INT_STATUS clears exactly the bits written as one. */
  lemma InterruptStatusIsWriteOneToClear(r: Registers, data: seq<Byte>, k: nat)
    requires |data| == 4 || |data| == 8
    ensures Bit(ReadValue(Write(r, 0x28, data), 0x28), k) <==>
              Bit(ReadValue(r, 0x28), k) && !(|data| == 4 && Bit(FromLE(data), k))
  {
    AndByBit(r.intStatus, Value32(data), k);
    if |data| == 8 {
      ZeroHasNoBit(k);
    }
  }

  /** A 4-byte write to CONTROL reads back and leaves every other offset alone, unless it asks for a reset. */
  lemma ControlReadsBack(r: Registers, data: seq<Byte>, other: Long)
    requires |data| == 4 && !Bit(FromLE(data), 1)
    ensures Read(Write(r, 0x00, data), 0x00, 4) == data
    ensures other != 0x00 ==> ReadValue(Write(r, 0x00, data), other) == ReadValue(r, other)
  {
    WordRoundTrip(0, data);
    assert Bit(FromLE(data), 1) == Bit(FromLE(data) / 2, 0);
  }

  /** A write to CONTROL that asks for a reset leaves STATUS at 1 and every other register at zero. */
  lemma ResetClears(r: Registers, data: seq<Byte>, addr: Long)
    requires |data| == 4 && Bit(FromLE(data), 1)
    requires addr in {0x00, 0x04, 0x08, 0x10, 0x14, 0x18, 0x1C, 0x20, 0x24, 0x28, 0x2C}
    ensures ReadValue(Write(r, 0x00, data), addr) == if addr == 0x04 then 1 else 0
  {
    assert Bit(FromLE(data), 1) == Bit(FromLE(data) / 2, 0);
  }

  /** STATUS is read-only; other offsets hold no register: writes do nothing and reads give 0xDEADBEEF. */
  lemma NoSuchRegister(r: Registers, data: seq<Byte>, addr: Long)
    requires |data| == 4 || |data| == 8
    requires addr !in {0x00, 0x08, 0x10, 0x14, 0x18, 0x1C, 0x20, 0x24, 0x28, 0x2C}
    ensures Write(r, addr, data) == r
    ensures addr != 0x04 ==> ReadValue(r, addr) == 0xDEAD_BEEF
  {
  }

  /** An 8-byte write to the upper half of a pointer clears that half: only the 64-bit variable is filled. */
  lemma WideUpperWriteClears(r: Registers, data: seq<Byte>, addr: Long)
    requires |data| == 8 && addr in {0x14, 0x1C, 0x24}
    ensures ReadValue(Write(r, addr, data), addr) == 0
    ensures forall other: Long :: other != addr ==> ReadValue(Write(r, addr, data), other) == ReadValue(r, other)
  {
  }

  // ------------------------------------------------------- pointer windows as flat memory

  /** The 24 bytes at offsets 0x10 to 0x27. */
  function PointerBytes(r: Registers): (s: seq<Byte>)
    ensures |s| == 24
  {
    ToLE(r.aPtr, 8) + ToLE(r.bPtr, 8) + ToLE(r.cPtr, 8)
  }

  predicate PointerAccess(addr: Long, len: nat)
  {
    (len == 8 && PointerBase(addr)) || (len == 4 && (PointerBase(addr) || (addr >= 4 && PointerBase(addr - 4))))
  }

  lemma Halves(p: Long)
    ensures ToLE(p, 8) == ToLE(p % 0x1_0000_0000, 4) + ToLE(p / 0x1_0000_0000, 4)
  {
    var hi := p / 0x1_0000_0000;
    Pow256Values();
    ToLESplit(p % 0x1_0000_0000, hi, 4, 4);
    assert Shift(hi, 1) == 0x100 * hi && Shift(hi, 2) == 0x1_0000 * hi && Shift(hi, 3) == 0x100_0000 * hi;
  }

  lemma SetLowHalves(p: Long, v: Word)
    ensures SetLow(p, v) % 0x1_0000_0000 == v && SetLow(p, v) / 0x1_0000_0000 == p / 0x1_0000_0000
    ensures SetHigh(p, v) % 0x1_0000_0000 == p % 0x1_0000_0000 && SetHigh(p, v) / 0x1_0000_0000 == v
  {
  }

  /** Writing half a pointer replaces exactly that half of its bytes; writing all of it replaces all eight. */
  lemma StoreLow(p: Long, data: seq<Byte>)
    requires |data| == 4
    ensures ToLE(SetLow(p, WordOf(data)), 8) == data + ToLE(p, 8)[4..]
  {
    var q := SetLow(p, WordOf(data));
    Halves(p);
    Halves(q);
    SetLowHalves(p, WordOf(data));
    WordRoundTrip(0, data);
  }

  lemma StoreHigh(p: Long, data: seq<Byte>)
    requires |data| == 4
    ensures ToLE(SetHigh(p, WordOf(data)), 8) == ToLE(p, 8)[..4] + data
  {
    var q := SetHigh(p, WordOf(data));
    Halves(p);
    Halves(q);
    SetLowHalves(p, WordOf(data));
    WordRoundTrip(0, data);
  }

  /** The pointer after a store at offset 0 or 4 of its window. */
  function StorePointer(p: Long, off: nat, data: seq<Byte>): Long
    requires |data| == 4 || |data| == 8
  {
    if off == 0 then SetPointer(p, data) else SetHigh(p, Value32(data))
  }

  lemma PointerStores(p: Long, off: nat, data: seq<Byte>)
    requires (off == 0 && |data| == 8) || ((off == 0 || off == 4) && |data| == 4)
    ensures ToLE(StorePointer(p, off, data), 8) == Splice(ToLE(p, 8), off, data)
  {
    if |data| == 8 {
      ToFromLE(data);
    } else if off == 0 {
      StoreLow(p, data);
    } else {
      StoreHigh(p, data);
    }
  }

  /** A store inside one of three consecutive windows. */
  lemma SpliceThird<T>(a: seq<T>, b: seq<T>, c: seq<T>, off: nat, d: seq<T>)
    ensures off + |d| <= |a| ==> Splice(a + b + c, off, d) == Splice(a, off, d) + b + c
    ensures off + |d| <= |b| ==> Splice(a + b + c, |a| + off, d) == a + Splice(b, off, d) + c
    ensures off + |d| <= |c| ==> Splice(a + b + c, |a| + |b| + off, d) == a + b + Splice(c, off, d)
  {
  }

  /** What a write into the pointer windows does to the registers. */
  lemma WritePointer(r: Registers, addr: Long, data: seq<Byte>)
    requires PointerAccess(addr, |data|)
    ensures addr < REG_MATRIX_B_PTR ==>
              Write(r, addr, data) == r.(aPtr := StorePointer(r.aPtr, addr - REG_MATRIX_A_PTR, data))
    ensures REG_MATRIX_B_PTR <= addr < REG_MATRIX_C_PTR ==>
              Write(r, addr, data) == r.(bPtr := StorePointer(r.bPtr, addr - REG_MATRIX_B_PTR, data))
    ensures REG_MATRIX_C_PTR <= addr ==>
              Write(r, addr, data) == r.(cPtr := StorePointer(r.cPtr, addr - REG_MATRIX_C_PTR, data))
  {
  }

  /** A write into the pointer windows is a byte store, and touches no other register. */
  lemma WriteIsFlat(r: Registers, addr: Long, data: seq<Byte>)
    requires PointerAccess(addr, |data|)
    ensures PointerBytes(Write(r, addr, data)) == Splice(PointerBytes(r), addr - 0x10, data)
    ensures Write(r, addr, data).(aPtr := r.aPtr, bPtr := r.bPtr, cPtr := r.cPtr) == r
  {
    WritePointer(r, addr, data);
    var base := if addr < REG_MATRIX_B_PTR then REG_MATRIX_A_PTR
                else if addr < REG_MATRIX_C_PTR then REG_MATRIX_B_PTR else REG_MATRIX_C_PTR;
    PointerStores(Pointer(r, base), addr - base, data);
    SpliceThird(ToLE(r.aPtr, 8), ToLE(r.bPtr, 8), ToLE(r.cPtr, 8), addr - base, data);
  }

  /** The bytes a load at offset 0 or 4 of a pointer's window returns. */
  function LoadPointer(p: Long, off: nat, len: nat): seq<Byte>
  {
    if len == 8 then ToLE(p, 8) else ToLE(if off == 0 then p % 0x1_0000_0000 else p / 0x1_0000_0000, 4)
  }

  lemma PointerLoads(p: Long, off: nat, len: nat)
    requires (off == 0 && len == 8) || ((off == 0 || off == 4) && len == 4)
    ensures LoadPointer(p, off, len) == ToLE(p, 8)[off..off + len]
  {
    Halves(p);
  }

  /** The pointer register whose window an access falls into. */
  function WindowOf(addr: Long): Long
  {
    if addr < REG_MATRIX_B_PTR then REG_MATRIX_A_PTR
    else if addr < REG_MATRIX_C_PTR then REG_MATRIX_B_PTR else REG_MATRIX_C_PTR
  }

  lemma ReadPointer(r: Registers, addr: Long, len: nat)
    requires PointerAccess(addr, len)
    ensures Read(r, addr, len) == LoadPointer(Pointer(r, WindowOf(addr)), addr - WindowOf(addr), len)
  {
  }

  lemma SliceLeft<T>(x: seq<T>, y: seq<T>, i: nat, len: nat)
    requires i + len <= |x|
    ensures (x + y)[i..i + len] == x[i..i + len]
  {
  }

  lemma SliceRight<T>(x: seq<T>, y: seq<T>, i: nat, len: nat)
    requires i + len <= |y|
    ensures (x + y)[|x| + i..|x| + i + len] == y[i..i + len]
  {
  }

  /** A load inside one of three consecutive windows. */
  lemma LoadFlat<T>(a: seq<T>, b: seq<T>, c: seq<T>, addr: Long, len: nat)
    requires |a| == |b| == |c| == 8 && PointerAccess(addr, len)
    ensures var off, base := addr - 0x10, WindowOf(addr);
            (a + b + c)[off..off + len]
            == (if base == REG_MATRIX_A_PTR then a else if base == REG_MATRIX_B_PTR then b else c)[addr - base..addr - base + len]
  {
    if addr < REG_MATRIX_B_PTR {
      SliceLeft(a + b, c, addr - 0x10, len);
      SliceLeft(a, b, addr - 0x10, len);
    } else if addr < REG_MATRIX_C_PTR {
      SliceLeft(a + b, c, addr - 0x10, len);
      SliceRight(a, b, addr - 0x18, len);
    } else {
      SliceRight(a + b, c, addr - 0x20, len);
    }
  }

  /** A read from the pointer windows is a byte load. */
  lemma ReadIsFlat(r: Registers, addr: Long, len: nat)
    requires PointerAccess(addr, len)
    ensures Read(r, addr, len) == PointerBytes(r)[addr - 0x10..addr - 0x10 + len]
  {
    ReadPointer(r, addr, len);
    PointerLoads(Pointer(r, WindowOf(addr)), addr - WindowOf(addr), len);
    LoadFlat(ToLE(r.aPtr, 8), ToLE(r.bPtr, 8), ToLE(r.cPtr, 8), addr, len);
  }

  datatype Access = Load(addr: Long, len: nat) | Save(addr: Long, data: seq<Byte>) {
    function Length(): nat { if Load? then len else |data| }
  }

  predicate PointerAccesses(xs: seq<Access>)
  {
    forall x :: x in xs ==> PointerAccess(x.addr, x.Length())
  }

  /** What the loads of a sequence of accesses return, from the registers and from plain memory. */
  function RegisterLoads(r: Registers, xs: seq<Access>): seq<seq<Byte>>
    requires PointerAccesses(xs)
    decreases |xs|
  {
    if xs == [] then []
    else match xs[0]
      case Load(addr, len) => [Read(r, addr, len)] + RegisterLoads(r, xs[1..])
      case Save(addr, data) => RegisterLoads(Write(r, addr, data), xs[1..])
  }

  function FlatLoads(m: seq<Byte>, xs: seq<Access>): seq<seq<Byte>>
    requires PointerAccesses(xs) && |m| == 24
    decreases |xs|
  {
    if xs == [] then []
    else match xs[0]
      case Load(addr, len) => [m[addr - 0x10..addr - 0x10 + len]] + FlatLoads(m, xs[1..])
      case Save(addr, data) => FlatLoads(Splice(m, addr - 0x10, data), xs[1..])
  }

  /** For every sequence of accesses to the pointer windows, loads return what 24 bytes of plain memory would. */
  lemma {:induction false} PointerWindowsAreFlat(r: Registers, xs: seq<Access>)
    requires PointerAccesses(xs)
    ensures RegisterLoads(r, xs) == FlatLoads(PointerBytes(r), xs)
    decreases xs
  {
    if xs != [] {
      assert xs[0] in xs;
      match xs[0]
      case Load(addr, len) =>
        ReadIsFlat(r, addr, len);
        PointerWindowsAreFlat(r, xs[1..]);
      case Save(addr, data) =>
        WriteIsFlat(r, addr, data);
        PointerWindowsAreFlat(Write(r, addr, data), xs[1..]);
    }
  }
}
