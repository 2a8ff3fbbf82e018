/**
 Square matrices as the endpoint keeps them: row-major vectors of 32-bit elements.
 Floating-point addition and multiplication are arbitrary functions on bit patterns, so
 nothing below relies on associativity; the order of every sum is the order of the code.
 */
module Matrix {
  import opened Bytes

  datatype FloatUnit = FloatUnit(add: (Word, Word) -> Word, mul: (Word, Word) -> Word)

  const MAX_DIM: nat := 256

  function Cell(m: seq<Word>, k: int): Word
  {
    if 0 <= k < |m| then m[k] else 0
  }

  /** The first k terms of the sum for row i and column j, added left to right from zero. */
  function Dot(f: FloatUnit, a: seq<Word>, b: seq<Word>, n: nat, i: nat, j: nat, k: nat): Word
  {
    if k == 0 then 0
    else f.add(Dot(f, a, b, n, i, j, k - 1), f.mul(Cell(a, i * n + (k - 1)), Cell(b, (k - 1) * n + j)))
  }

  /** A sum from zero, added left to right. */
  function Sum(f: FloatUnit, terms: seq<Word>): Word
  {
    if terms == [] then 0 else f.add(Sum(f, terms[..|terms| - 1]), terms[|terms| - 1])
  }

  /** It is the sum of the products of row i of a and column j of b, in the order of k. */
  lemma {:induction false} DotIsSum(f: FloatUnit, a: seq<Word>, b: seq<Word>, n: nat, i: nat, j: nat, terms: seq<Word>)
    requires forall k :: 0 <= k < |terms| ==> terms[k] == f.mul(Cell(a, i * n + k), Cell(b, k * n + j))
    ensures Dot(f, a, b, n, i, j, |terms|) == Sum(f, terms)
    decreases |terms|
  {
    if terms != [] {
      var k := |terms| - 1;
      DotIsSum(f, a, b, n, i, j, terms[..k]);
      assert terms[k] == f.mul(Cell(a, i * n + k), Cell(b, k * n + j));
    }
  }

  /** Row i of the product. */
  function Row(f: FloatUnit, a: seq<Word>, b: seq<Word>, n: nat, i: nat): (r: seq<Word>)
    ensures |r| == n
  {
    seq(n, j requires 0 <= j < n => Dot(f, a, b, n, i, j, n))
  }

  /** The first r rows of the product, laid out one after the other. */
  function Rows(f: FloatUnit, a: seq<Word>, b: seq<Word>, n: nat, r: nat): (c: seq<Word>)
    ensures |c| == r * n
  {
    if r == 0 then [] else Rows(f, a, b, n, r - 1) + Row(f, a, b, n, r - 1)
  }

  function Product(f: FloatUnit, a: seq<Word>, b: seq<Word>, n: nat): (c: seq<Word>)
    ensures |c| == n * n
  {
    Rows(f, a, b, n, n)
  }

  function Zeros(k: nat): (z: seq<Word>)
    ensures |z| == k && forall i :: 0 <= i < k ==> z[i] == 0
  {
    if k == 0 then [] else [0] + Zeros(k - 1)
  }

  /** Result storage with r rows computed and the rest still zero. */
  function Partial(f: FloatUnit, a: seq<Word>, b: seq<Word>, n: nat, r: nat): (c: seq<Word>)
    requires r <= n
    ensures |c| == n * n
  {
    RowFits(n, r);
    Rows(f, a, b, n, r) + Zeros(n * n - r * n)
  }

  // ---------------------------------------------------------------- indices

  lemma RowFits(n: nat, r: nat)
    requires r <= n
    ensures 0 <= r * n <= n * n
  {
    assert n * n - r * n == (n - r) * n;
  }

  lemma CellFits(n: nat, i: nat, j: nat, m: nat)
    requires i < m && j < n
    ensures 0 <= i * n <= i * n + j < i * n + n <= m * n
  {
    var d := m - i - 1;
    assert m * n == (i + 1 + d) * n;
    assert (i + 1 + d) * n == i * n + n + d * n;
    assert d * n >= 0 && i * n >= 0;
  }

  /** Two cells of an n by n matrix share a row-major index only if they are the same cell. */
  lemma IndexInjective(n: nat, i: nat, j: nat, i': nat, j': nat)
    requires j < n && j' < n && i * n + j == i' * n + j'
    ensures i == i' && j == j'
  {
    if i < i' {
      CellFits(n, i, j, i');
    } else if i' < i {
      CellFits(n, i', j', i);
    }
  }

  /** Every index and byte count the multiplication forms stays in range, far below 2^32. */
  lemma SizesInRange(n: nat, i: nat, j: nat)
    requires 1 <= n <= 256 && i < n && j < n
    ensures i * n + j < n * n <= 0x1_0000
    ensures 4 <= n * n * 4 <= 0x4_0000
  {
    CellFits(n, i, j, n);
    ScaleLe(n, 256, n);
    ScaleLe(1, n, n);
  }

  lemma ScaleLe(x: nat, y: nat, z: nat)
    requires x <= y
    ensures x * z <= y * z
  {
  }

  /** Cell (i, j) of the product is the full left-to-right sum over k. */
  lemma {:induction false} RowsCell(f: FloatUnit, a: seq<Word>, b: seq<Word>, n: nat, r: nat, i: nat, j: nat)
    requires i < r && j < n
    ensures i * n + j < r * n
    ensures Rows(f, a, b, n, r)[i * n + j] == Dot(f, a, b, n, i, j, n)
    decreases r
  {
    CellFits(n, i, j, r);
    if i < r - 1 {
      RowsCell(f, a, b, n, r - 1, i, j);
    }
  }

  lemma ProductCell(f: FloatUnit, a: seq<Word>, b: seq<Word>, n: nat, i: nat, j: nat)
    requires i < n && j < n
    ensures 0 <= i * n + j < n * n && Cell(Product(f, a, b, n), i * n + j) == Dot(f, a, b, n, i, j, n)
  {
    CellFits(n, i, j, n);
    RowsCell(f, a, b, n, n, i, j);
  }

  // ---------------------------------------------------------------- rows

  lemma NoRows(f: FloatUnit, a: seq<Word>, b: seq<Word>, n: nat)
    ensures Partial(f, a, b, n, 0) == Zeros(n * n)
  {
  }

  /** Overwriting the first zero row by the next row of the product extends the computed part by that row. */
  lemma NextRow(f: FloatUnit, a: seq<Word>, b: seq<Word>, n: nat, i: nat)
    requires i < n
    ensures i * n + n <= n * n
    ensures Splice(Partial(f, a, b, n, i), i * n, Row(f, a, b, n, i)) == Partial(f, a, b, n, i + 1)
  {
    CellFits(n, i, 0, n);
    assert (i + 1) * n == i * n + n;
    var before, row := Partial(f, a, b, n, i), Row(f, a, b, n, i);
    assert before[..i * n] == Rows(f, a, b, n, i);
    assert Rows(f, a, b, n, i + 1) == Rows(f, a, b, n, i) + row;
    assert before[i * n + n..] == Zeros(n * n - (i * n + n));
  }

  lemma AllRows(f: FloatUnit, a: seq<Word>, b: seq<Word>, n: nat)
    ensures Partial(f, a, b, n, n) == Product(f, a, b, n)
  {
  }

  // ---------------------------------------------------------------- the loops

  /** Innermost loop: one sum, accumulated from zero in the order of k. */
  method Accumulate(f: FloatUnit, a: array<Word>, b: array<Word>, n: nat, i: nat, j: nat) returns (sum: Word)
    requires i < n && j < n && a.Length == n * n && b.Length == n * n
    ensures sum == Dot(f, a[..], b[..], n, i, j, n)
  {
    sum := 0;
    for k := 0 to n
      invariant sum == Dot(f, a[..], b[..], n, i, j, k)
    {
      CellFits(n, i, k, n);
      CellFits(n, k, j, n);
      sum := f.add(sum, f.mul(a[i * n + k], b[k * n + j]));
    }
  }

  /** `before` with the first j elements of a row written over it from base on. */
  function RowPart(before: seq<Word>, base: nat, row: seq<Word>, j: nat): (s: seq<Word>)
    requires base + |row| <= |before| && j <= |row|
    ensures |s| == |before|
  {
    before[..base] + row[..j] + before[base + j..]
  }

  lemma RowPartNext(before: seq<Word>, base: nat, row: seq<Word>, j: nat)
    requires base + |row| <= |before| && j < |row|
    ensures RowPart(before, base, row, j)[base + j := row[j]] == RowPart(before, base, row, j + 1)
  {
  }

  method MultiplyCell(f: FloatUnit, a: array<Word>, b: array<Word>, c: array<Word>, n: nat, i: nat, j: nat, base: nat,
                      ghost before: seq<Word>, ghost row: seq<Word>)
    requires i < n && j < n && a.Length == n * n && b.Length == n * n && a != c && b != c
    requires row == Row(f, a[..], b[..], n, i) && base + n <= |before| == c.Length && c[..] == RowPart(before, base, row, j)
    modifies c
    ensures c[..] == RowPart(before, base, row, j + 1)
  {
    var sum := Accumulate(f, a, b, n, i, j);
    c[base + j] := sum;
    RowPartNext(before, base, row, j);
  }

  /** One iteration of the outer loop: all columns of row i. */
  method MultiplyRow(f: FloatUnit, a: array<Word>, b: array<Word>, c: array<Word>, n: nat, i: nat)
    requires i < n && a.Length == n * n && b.Length == n * n && c.Length == n * n
    requires a != c && b != c
    modifies c
    ensures i * n + n <= n * n
    ensures c[..] == Splice(old(c[..]), i * n, Row(f, a[..], b[..], n, i))
  {
    var base := i * n;
    CellFits(n, i, 0, n);
    ghost var before, row := c[..], Row(f, a[..], b[..], n, i);
    for j := 0 to n
      invariant row == Row(f, a[..], b[..], n, i) && c[..] == RowPart(before, base, row, j)
    {
      MultiplyCell(f, a, b, c, n, i, j, base, before, row);
    }
  }

  /** The triple loop over freshly zeroed storage computes the product. */
  method Multiply(f: FloatUnit, a: array<Word>, b: array<Word>, n: nat) returns (c: array<Word>)
    requires a.Length == n * n && b.Length == n * n
    ensures fresh(c) && c[..] == Product(f, a[..], b[..], n)
  {
    c := new Word[n * n](_ => 0);
    NoRows(f, a[..], b[..], n);
    assert c[..] == Partial(f, a[..], b[..], n, 0);
    for i := 0 to n
      invariant fresh(c) && c.Length == n * n
      invariant c[..] == Partial(f, a[..], b[..], n, i)
    {
      NextRow(f, a[..], b[..], n, i);
      MultiplyRow(f, a, b, c, n, i);
    }
    AllRows(f, a[..], b[..], n);
  }

  // ---------------------------------------------------------------- identity law

  function IdentityRow(n: nat, one: Word, i: nat): (r: seq<Word>)
    ensures |r| == n
  {
    seq(n, j => if i == j then one else 0)
  }

  /** The first r rows of an identity matrix. */
  function IdentityRows(n: nat, one: Word, r: nat): (m: seq<Word>)
    ensures |m| == r * n
  {
    if r == 0 then [] else IdentityRows(n, one, r - 1) + IdentityRow(n, one, r - 1)
  }

  lemma {:induction false} IdentityCell(n: nat, one: Word, r: nat, i: nat, j: nat)
    requires i < r && j < n
    ensures i * n + j < r * n
    ensures IdentityRows(n, one, r)[i * n + j] == if i == j then one else 0
    decreases r
  {
    CellFits(n, i, j, r);
    if i < r - 1 {
      IdentityCell(n, one, r - 1, i, j);
    }
  }

  /** The arithmetic facts about a set of elements that make an identity matrix neutral. */
  ghost predicate NeutralOn(f: FloatUnit, one: Word, xs: seq<Word>)
  {
    && (forall x :: x in xs ==> f.add(0, f.mul(one, x)) == x && f.add(0, f.mul(0, x)) == 0)
    && (forall x, s :: x in xs && s in xs ==> f.add(s, f.mul(0, x)) == s)
  }

  lemma {:induction false} IdentityDot(f: FloatUnit, one: Word, b: seq<Word>, n: nat, i: nat, j: nat, k: nat)
    requires i < n && j < n && k <= n && |b| == n * n && NeutralOn(f, one, b)
    ensures Dot(f, IdentityRows(n, one, n), b, n, i, j, k) == if k <= i then 0 else Cell(b, i * n + j)
    decreases k
  {
    if k > 0 {
      IdentityDot(f, one, b, n, i, j, k - 1);
      IdentityCell(n, one, n, i, k - 1);
      CellFits(n, i, j, n);
      CellFits(n, k - 1, j, n);
      assert b[i * n + j] in b && b[(k - 1) * n + j] in b;
    }
  }

  lemma {:induction false} IdentityRowsProduct(f: FloatUnit, one: Word, b: seq<Word>, n: nat, r: nat)
    requires r <= n && |b| == n * n && NeutralOn(f, one, b)
    ensures 0 <= r * n <= n * n
    ensures Rows(f, IdentityRows(n, one, n), b, n, r) == b[..r * n]
    decreases r
  {
    RowFits(n, r);
    if r > 0 {
      var i := r - 1;
      IdentityRowsProduct(f, one, b, n, i);
      CellFits(n, i, 0, n);
      assert r * n == i * n + n;
      var row := Row(f, IdentityRows(n, one, n), b, n, i);
      forall j | 0 <= j < n ensures row[j] == b[i * n + j] {
        IdentityDot(f, one, b, n, i, j, n);
      }
      assert row == b[i * n..r * n];
      assert b[..r * n] == b[..i * n] + b[i * n..r * n];
    }
  }

  /** Multiplying by an identity matrix on the left returns the other operand. */
  lemma IdentityProduct(f: FloatUnit, one: Word, b: seq<Word>, n: nat)
    requires |b| == n * n && NeutralOn(f, one, b)
    ensures Product(f, IdentityRows(n, one, n), b, n) == b
  {
    IdentityRowsProduct(f, one, b, n, n);
    assert b[..n * n] == b;
  }

  function Wrap(x: int): Word { x % 0x1_0000_0000 }

  function AddWrap(x: Word, y: Word): Word { Wrap(x as int + y as int) }
  function MulWrap(x: Word, y: Word): Word { Wrap(x as int * y as int) }

  lemma WrapUnits(x: Word)
    ensures MulWrap(1, x) == x && MulWrap(0, x) == 0
    ensures AddWrap(0, x) == x && AddWrap(x, 0) == x
  {
  }

  /** Unsigned 32-bit integer arithmetic, which wraps around. */
  function IntegerUnit(): FloatUnit
  {
    FloatUnit((x: Word, y: Word) => AddWrap(x, y), (x: Word, y: Word) => MulWrap(x, y))
  }

  lemma IntegersNeutral(xs: seq<Word>)
    ensures NeutralOn(IntegerUnit(), 1, xs)
  {
    forall x: Word ensures MulWrap(1, x) == x && MulWrap(0, x) == 0 && AddWrap(0, x) == x && AddWrap(x, 0) == x {
      WrapUnits(x);
    }
  }
}
