/**
 The 4x4 endpoint the kernel driver is written for: operands and opcode are plain registers, and
 the product is computed only when the first result register is read, then cached.
 */
module LazyMultiplier {
  import opened Bytes
  import opened Matrix

  const OP1_BASE: Long := 0x10
  const OP2_BASE: Long := 0x50
  const OPCODE: Long := 0x90
  const RESULT_BASE: Long := 0xA0
  const RESULT_END: Long := 0xE0
  const ALL_ONES: Word := 0xFFFF_FFFF
  const CELLS: nat := 16

  /** Matrices are row-major, 16 elements each. */
  datatype Regs = Regs(op1: seq<Word>, op2: seq<Word>, opcode: Word, result: seq<Word>, valid: bool) {
    predicate WellFormed() { |op1| == CELLS && |op2| == CELLS && |result| == CELLS }
  }

  function PowerOn(): Regs
  {
    Regs(Filled(0), Filled(0), 0, Filled(0), false)
  }

  function Filled(v: Word): (m: seq<Word>)
    ensures |m| == CELLS
  {
    seq(CELLS, _ => v)
  }

  /** What the result registers should show for given operands and opcode. */
  function Meaning(op1: seq<Word>, op2: seq<Word>, opcode: Word): (m: seq<Word>)
    ensures |m| == CELLS
  {
    if opcode == 1 then Product(IntegerUnit(), op1, op2, 4) else Filled(ALL_ONES)
  }

  function Recomputed(r: Regs): seq<Word>
  {
    Meaning(r.op1, r.op2, r.opcode)
  }

  function Perform(r: Regs): Regs
  {
    r.(result := Recomputed(r), valid := true)
  }

  function Index(addr: Long, base: Long): int { (addr - base) / 4 }

  function WriteReg(r: Regs, addr: Long, v: Word): (r': Regs)
    requires r.WellFormed()
    ensures r'.WellFormed()
  {
    if OP1_BASE <= addr < OP2_BASE then r.(op1 := r.op1[Index(addr, OP1_BASE) := v], valid := false)
    else if OP2_BASE <= addr < OPCODE then r.(op2 := r.op2[Index(addr, OP2_BASE) := v], valid := false)
    else if addr == OPCODE then r.(opcode := v, valid := false)
    else r
  }

  /** Reading the first result register computes the product if the cache is stale. */
  function AfterRead(r: Regs, addr: Long): Regs
  {
    if addr == RESULT_BASE && !r.valid then Perform(r) else r
  }

  function ReadReg(r: Regs, addr: Long): Word
    requires r.WellFormed()
  {
    if RESULT_BASE <= addr < RESULT_END then AfterRead(r, addr).result[Index(addr, RESULT_BASE)]
    else if addr == OPCODE then r.opcode
    else ALL_ONES
  }

  // ---------------------------------------------------------------- arithmetic meaning

  /** The sum of the first k products, in unbounded integers. */
  function ExactDot(a: seq<Word>, b: seq<Word>, n: nat, i: nat, j: nat, k: nat): int
  {
    if k == 0 then 0
    else ExactDot(a, b, n, i, j, k - 1) + Cell(a, i * n + (k - 1)) as int * Cell(b, (k - 1) * n + j) as int
  }

  lemma WrapSum(x: int, y: int)
    ensures Wrap(Wrap(x) as int + Wrap(y) as int) == Wrap(x + y)
  {
    var m := 0x1_0000_0000;
    assert x == m * (x / m) + x % m && y == m * (y / m) + y % m;
    var low := x % m + y % m;
    assert x + y == m * (x / m + y / m) + low;
    assert (x + y) % m == low % m;
  }

  lemma WrapTerm(exact: int, x: Word, y: Word)
    ensures IntegerUnit().add(Wrap(exact), IntegerUnit().mul(x, y)) == Wrap(exact + x as int * y as int)
  {
    WrapSum(exact, x as int * y as int);
  }

  /** Accumulating with wrap-around at every step gives the exact sum modulo 2^32. */
  lemma {:induction false} DotIsExactModulo(a: seq<Word>, b: seq<Word>, n: nat, i: nat, j: nat, k: nat)
    ensures Dot(IntegerUnit(), a, b, n, i, j, k) == Wrap(ExactDot(a, b, n, i, j, k))
    decreases k
  {
    if k > 0 {
      DotIsExactModulo(a, b, n, i, j, k - 1);
      WrapTerm(ExactDot(a, b, n, i, j, k - 1), Cell(a, i * n + (k - 1)), Cell(b, (k - 1) * n + j));
    }
  }

  /** Element (i, j) of the product is the exact inner product modulo 2^32. */
  lemma MeaningCell(op1: seq<Word>, op2: seq<Word>, i: nat, j: nat)
    requires i < 4 && j < 4
    ensures Meaning(op1, op2, 1)[i * 4 + j] == Wrap(ExactDot(op1, op2, 4, i, j, 4))
  {
    RowsCell(IntegerUnit(), op1, op2, 4, 4, i, j);
    DotIsExactModulo(op1, op2, 4, i, j, 4);
  }

  lemma FourProducts(a: seq<Word>, b: seq<Word>, i: nat, j: nat)
    requires |a| == CELLS && |b| == CELLS && i < 4 && j < 4
    ensures ExactDot(a, b, 4, i, j, 4) == a[4 * i] as int * b[j] as int + a[4 * i + 1] as int * b[4 + j] as int
                                          + a[4 * i + 2] as int * b[8 + j] as int + a[4 * i + 3] as int * b[12 + j] as int
  {
    assert ExactDot(a, b, 4, i, j, 1) == a[4 * i] as int * b[j] as int;
    assert ExactDot(a, b, 4, i, j, 2) == ExactDot(a, b, 4, i, j, 1) + a[4 * i + 1] as int * b[4 + j] as int;
    assert ExactDot(a, b, 4, i, j, 3) == ExactDot(a, b, 4, i, j, 2) + a[4 * i + 2] as int * b[8 + j] as int;
  }

  // ---------------------------------------------------------------- the device object

  function Flat(m: array2<Word>): (s: seq<Word>)
    requires m.Length0 == 4 && m.Length1 == 4
    reads m
    ensures |s| == CELLS
  {
    seq(CELLS, k requires 0 <= k < CELLS reads m => m[k / 4, k % 4])
  }

  lemma FlatCell(m: array2<Word>, i: nat, j: nat)
    requires m.Length0 == 4 && m.Length1 == 4 && i < 4 && j < 4
    ensures Cell(Flat(m), i * 4 + j) == m[i, j]
  {
    assert (i * 4 + j) / 4 == i && (i * 4 + j) % 4 == j;
  }

  /** A 4x4 array whose cells are those of the product is the product. */
  lemma FlatProduct(m: array2<Word>, a: seq<Word>, b: seq<Word>)
    requires m.Length0 == 4 && m.Length1 == 4
    requires forall i, j :: 0 <= i < 4 && 0 <= j < 4 ==> m[i, j] == Dot(IntegerUnit(), a, b, 4, i, j, 4)
    ensures Flat(m) == Product(IntegerUnit(), a, b, 4)
  {
    forall k | 0 <= k < CELLS ensures Flat(m)[k] == Product(IntegerUnit(), a, b, 4)[k] {
      RowsCell(IntegerUnit(), a, b, 4, 4, k / 4, k % 4);
      assert k / 4 * 4 + k % 4 == k;
    }
  }

  class Multiplier {
    const op1: array2<Word>
    const op2: array2<Word>
    const result: array2<Word>
    var opcode: Word
    var valid: bool

    ghost predicate Valid()
    {
      && op1.Length0 == 4 && op1.Length1 == 4 && op2.Length0 == 4 && op2.Length1 == 4
      && result.Length0 == 4 && result.Length1 == 4
      && op1 != op2 && op1 != result && op2 != result
    }

    ghost function Model(): (r: Regs)
      requires Valid()
      reads this, op1, op2, result
      ensures r.WellFormed()
    {
      Regs(Flat(op1), Flat(op2), opcode, Flat(result), valid)
    }

    constructor ()
      ensures Valid() && Model() == PowerOn()
      ensures opcode == 0 && !valid
      ensures forall i, j :: 0 <= i < 4 && 0 <= j < 4 ==> op1[i, j] == 0 && op2[i, j] == 0 && result[i, j] == 0
      ensures fresh(op1) && fresh(op2) && fresh(result)
    {
      op1 := new Word[4, 4]((_, _) => 0);
      op2 := new Word[4, 4]((_, _) => 0);
      result := new Word[4, 4]((_, _) => 0);
      opcode, valid := 0, false;
    }

    method HandleWrite(addr: Long, value: Word)
      requires Valid()
      modifies this, op1, op2
      ensures Model() == WriteReg(old(Model()), addr, value)
      ensures Flat(op1) == if 0x10 <= addr < 0x50 then old(Flat(op1))[(addr - 0x10) / 4 := value] else old(Flat(op1))
      ensures Flat(op2) == if 0x50 <= addr < 0x90 then old(Flat(op2))[(addr - 0x50) / 4 := value] else old(Flat(op2))
      ensures opcode == (if addr == 0x90 then value else old(opcode)) && valid == (old(valid) && !(0x10 <= addr <= 0x90))
    {
      if addr >= 0x10 && addr < 0x50 {
        var index := (addr - 0x10) / 4;
        op1[index / 4, index % 4] := value;
        valid := false;
      } else if addr >= 0x50 && addr < 0x90 {
        var index := (addr - 0x50) / 4;
        op2[index / 4, index % 4] := value;
        valid := false;
      } else if addr == 0x90 {
        opcode := value;
        valid := false;
      }
    }

    method HandleRead(addr: Long) returns (value: Word)
      requires Valid()
      modifies this, result
      ensures value == ReadReg(old(Model()), addr)
      ensures Model() == AfterRead(old(Model()), addr)
      ensures value == if 0xA0 <= addr < 0xE0 then Flat(result)[(addr - 0xA0) / 4] else if addr == 0x90 then opcode else 0xFFFF_FFFF
      ensures addr == 0xA0 ==> valid
    {
      if addr >= 0xA0 && addr < 0xE0 {
        if addr == 0xA0 && !valid {
          PerformMultiplication();
        }
        var index := (addr - 0xA0) / 4;
        return result[index / 4, index % 4];
      } else if addr == 0x90 {
        return opcode;
      }
      return 0xFFFFFFFF;
    }

    method PerformMultiplication()
      requires Valid()
      modifies this`valid, result
      ensures Model() == Perform(old(Model()))
    {
      if opcode != 1 {
        for i := 0 to 4
          invariant forall r, c :: 0 <= r < i && 0 <= c < 4 ==> result[r, c] == ALL_ONES
        {
          for j := 0 to 4
            invariant forall r, c :: 0 <= r < 4 && 0 <= c < 4 && (r < i || (r == i && c < j)) ==> result[r, c] == ALL_ONES
          {
            result[i, j] := 0xFFFFFFFF;
          }
        }
        assert Flat(result) == Filled(ALL_ONES);
      } else {
        MultiplyInto();
      }
      valid := true;
    }

    method MultiplyInto()
      requires Valid()
      modifies result
      ensures Flat(result) == Product(IntegerUnit(), Flat(op1), Flat(op2), 4)
    {
      ghost var a, b := Flat(op1), Flat(op2);
      for i := 0 to 4
        invariant Flat(op1) == a && Flat(op2) == b
        invariant forall r, c :: 0 <= r < i && 0 <= c < 4 ==> result[r, c] == Dot(IntegerUnit(), a, b, 4, r, c, 4)
      {
        for j := 0 to 4
          invariant Flat(op1) == a && Flat(op2) == b
          invariant forall r, c :: 0 <= r < 4 && 0 <= c < 4 && (r < i || (r == i && c < j)) ==>
                      result[r, c] == Dot(IntegerUnit(), a, b, 4, r, c, 4)
        {
          AccumulateCell(i, j);
        }
      }
      FlatProduct(result, a, b);
    }

    /** One term of the innermost loop; the operands' arrays are not touched. */
    method AddTerm(i: nat, j: nat, k: nat, ghost a: seq<Word>, ghost b: seq<Word>)
      requires Valid() && i < 4 && j < 4 && k < 4 && Flat(op1) == a && Flat(op2) == b
      requires result[i, j] == Dot(IntegerUnit(), a, b, 4, i, j, k)
      modifies result
      ensures Flat(op1) == a && Flat(op2) == b
      ensures result[i, j] == Dot(IntegerUnit(), a, b, 4, i, j, k + 1)
      ensures forall r, c :: 0 <= r < 4 && 0 <= c < 4 && !(r == i && c == j) ==> result[r, c] == old(result[r, c])
    {
      FlatCell(op1, i, k);
      FlatCell(op2, k, j);
      result[i, j] := IntegerUnit().add(result[i, j], IntegerUnit().mul(op1[i, k], op2[k, j]));
    }

    method AccumulateCell(i: nat, j: nat)
      requires Valid() && i < 4 && j < 4
      modifies result
      ensures result[i, j] == Dot(IntegerUnit(), Flat(op1), Flat(op2), 4, i, j, 4)
      ensures forall r, c :: 0 <= r < 4 && 0 <= c < 4 && !(r == i && c == j) ==> result[r, c] == old(result[r, c])
    {
      ghost var a, b := Flat(op1), Flat(op2);
      result[i, j] := 0;
      for k := 0 to 4
        invariant Flat(op1) == a && Flat(op2) == b
        invariant result[i, j] == Dot(IntegerUnit(), a, b, 4, i, j, k)
        invariant forall r, c :: 0 <= r < 4 && 0 <= c < 4 && !(r == i && c == j) ==> result[r, c] == old(result[r, c])
      {
        AddTerm(i, j, k, a, b);
      }
    }
  }
}
