/** Bytes, machine words and the little-endian byte order shared by the endpoint, host memory and the dump tool. */
module Bytes {

  type Byte = x: int | 0 <= x < 0x100
  type Word = x: int | 0 <= x < 0x1_0000_0000
  type Long = x: int | 0 <= x < 0x1_0000_0000_0000_0000

  /** The n low bytes of x, least significant first. */
  function ToLE(x: nat, n: nat): (s: seq<Byte>)
    ensures |s| == n
    decreases n
  {
    if n == 0 then [] else [x % 0x100] + ToLE(x / 0x100, n - 1)
  }

  /** The number a byte string denotes, least significant byte first. */
  function FromLE(s: seq<Byte>): nat
  {
    if s == [] then 0 else s[0] + 0x100 * FromLE(s[1..])
  }

  function Pow256(n: nat): nat
  {
    if n == 0 then 1 else 0x100 * Pow256(n - 1)
  }

  lemma {:induction false} FromLEBound(s: seq<Byte>)
    ensures FromLE(s) < Pow256(|s|)
  {
    if s != [] {
      FromLEBound(s[1..]);
    }
  }

  /** Decoding undoes encoding for every number that fits. */
  lemma {:induction false} FromToLE(x: nat, n: nat)
    requires x < Pow256(n)
    ensures FromLE(ToLE(x, n)) == x
    decreases n
  {
    if n > 0 {
      FromToLE(x / 0x100, n - 1);
      assert ToLE(x, n)[1..] == ToLE(x / 0x100, n - 1);
    }
  }

  /** Encoding undoes decoding for every byte string. */
  lemma {:induction false} ToFromLE(s: seq<Byte>)
    ensures ToLE(FromLE(s), |s|) == s
  {
    if s != [] {
      ToFromLE(s[1..]);
      var rest := FromLE(s[1..]);
      assert (s[0] + 0x100 * rest) % 0x100 == s[0];
      assert (s[0] + 0x100 * rest) / 0x100 == rest;
    }
  }

  lemma Pow256Values()
    ensures Pow256(2) == 0x1_0000
    ensures Pow256(4) == 0x1_0000_0000
    ensures Pow256(8) == 0x1_0000_0000_0000_0000
  {
    assert Pow256(1) == 0x100;
    assert Pow256(3) == 0x100_0000;
    assert Pow256(5) == 0x100_0000_0000;
    assert Pow256(6) == 0x1_0000_0000_0000;
    assert Pow256(7) == 0x100_0000_0000_0000;
  }

  function WordOf(s: seq<Byte>): (w: Word)
    requires |s| == 4
  {
    FromLEBound(s);
    Pow256Values();
    FromLE(s)
  }

  function LongOf(s: seq<Byte>): (x: Long)
    requires |s| == 8
  {
    FromLEBound(s);
    Pow256Values();
    FromLE(s)
  }

  /** The value of four bytes, written out. */
  lemma FourBytes(s: seq<Byte>)
    requires |s| == 4
    ensures FromLE(s) == s[0] as int + 0x100 * s[1] as int + 0x1_0000 * s[2] as int + 0x100_0000 * s[3] as int
  {
    assert s[1..][1..] == s[2..] && s[2..][1..] == s[3..] && s[3..][1..] == [];
    assert FromLE(s[3..]) == s[3];
    assert FromLE(s[2..]) == s[2] as int + 0x100 * s[3] as int;
  }

  /** Four bytes and a 32-bit word determine each other. */
  lemma WordRoundTrip(w: Word, s: seq<Byte>)
    requires |s| == 4
    ensures WordOf(ToLE(w, 4)) == w
    ensures ToLE(WordOf(s), 4) == s
  {
    Pow256Values();
    FromToLE(w, 4);
    ToFromLE(s);
  }

  /** x moved up by k bytes. */
  function Shift(x: nat, k: nat): nat
    decreases k
  {
    if k == 0 then x else 0x100 * Shift(x, k - 1)
  }

  lemma LowByte(lo: nat, h: nat)
    ensures (lo + 0x100 * h) % 0x100 == lo % 0x100 && (lo + 0x100 * h) / 0x100 == lo / 0x100 + h
  {
  }

  /** The bytes of a number are those of its low part followed by those of its high part. */
  lemma {:induction false} ToLESplit(lo: nat, hi: nat, k: nat, m: nat)
    requires lo < Pow256(k)
    ensures ToLE(lo + Shift(hi, k), k + m) == ToLE(lo, k) + ToLE(hi, m)
    decreases k
  {
    if k > 0 {
      ToLESplit(lo / 0x100, hi, k - 1, m);
      LowByte(lo, Shift(hi, k - 1));
    }
  }

  /** A byte string read as consecutive 32-bit words. */
  function WordsOf(s: seq<Byte>): (ws: seq<Word>)
    ensures |ws| == |s| / 4
  {
    if |s| < 4 then [] else [WordOf(s[..4])] + WordsOf(s[4..])
  }

  /** Consecutive 32-bit words as a byte string. */
  function BytesOf(ws: seq<Word>): (s: seq<Byte>)
    ensures |s| == 4 * |ws|
  {
    if ws == [] then [] else ToLE(ws[0], 4) + BytesOf(ws[1..])
  }

  lemma {:induction false} WordsOfBytesOf(ws: seq<Word>)
    ensures WordsOf(BytesOf(ws)) == ws
  {
    if ws != [] {
      WordsOfBytesOf(ws[1..]);
      var s := BytesOf(ws);
      assert s[..4] == ToLE(ws[0], 4) && s[4..] == BytesOf(ws[1..]);
      WordRoundTrip(ws[0], s[..4]);
    }
  }

  lemma {:induction false} BytesOfWordsOf(s: seq<Byte>)
    requires |s| % 4 == 0
    ensures BytesOf(WordsOf(s)) == s
  {
    if s != [] {
      BytesOfWordsOf(s[4..]);
      WordRoundTrip(0, s[..4]);
      assert WordsOf(s)[1..] == WordsOf(s[4..]);
    }
  }

  /** Bitwise "and", and "and" with the complement of the second operand. */
  function And(x: nat, y: nat): (r: nat)
    ensures r <= x
  {
    if x == 0 then 0 else (if Bit0(x) && Bit0(y) then 1 else 0) + 2 * And(x / 2, y / 2)
  }

  function AndNot(x: nat, y: nat): (r: nat)
    ensures r <= x
  {
    if x == 0 then 0 else (if Bit0(x) && !Bit0(y) then 1 else 0) + 2 * AndNot(x / 2, y / 2)
  }

  /** Bit k of a number. */
  predicate Bit(x: nat, k: nat)
    decreases k
  {
    if k == 0 then x % 2 == 1 else Bit(x / 2, k - 1)
  }

  predicate Bit0(x: nat) { x % 2 == 1 }
  predicate Bit1(x: nat) { x / 2 % 2 == 1 }

  lemma AndHalves(x: nat, y: nat)
    ensures And(x, y) / 2 == And(x / 2, y / 2) && (Bit0(And(x, y)) <==> Bit0(x) && Bit0(y))
    ensures AndNot(x, y) / 2 == AndNot(x / 2, y / 2) && (Bit0(AndNot(x, y)) <==> Bit0(x) && !Bit0(y))
  {
  }

  /** Both operations work bit by bit. */
  lemma {:induction false} AndByBit(x: nat, y: nat, k: nat)
    ensures Bit(And(x, y), k) <==> Bit(x, k) && Bit(y, k)
    ensures Bit(AndNot(x, y), k) <==> Bit(x, k) && !Bit(y, k)
    decreases k
  {
    AndHalves(x, y);
    if k > 0 {
      AndByBit(x / 2, y / 2, k - 1);
    }
  }

  /** A number is zero exactly if it has no bit. */
  lemma {:induction false} ZeroHasNoBit(k: nat)
    ensures !Bit(0, k)
    decreases k
  {
    if k > 0 {
      ZeroHasNoBit(k - 1);
    }
  }

  lemma {:induction false} NonzeroHasBit(x: nat) returns (k: nat)
    requires x != 0
    ensures Bit(x, k)
  {
    if x % 2 == 1 {
      k := 0;
    } else {
      k := NonzeroHasBit(x / 2);
      k := k + 1;
    }
  }

  lemma AndBits(x: nat, y: nat)
    requires x <= 1
    ensures And(x, y) == if x == 1 && Bit0(y) then 1 else 0
    ensures AndNot(x, y) == if x == 1 && !Bit0(y) then 1 else 0
  {
    assert And(0, y / 2) == 0 && AndNot(0, y / 2) == 0;
    if x == 1 {
      assert x / 2 == 0;
    }
  }

  /** m with the bytes from position `at` on replaced by d. */
  function Splice<T>(m: seq<T>, at: nat, d: seq<T>): (r: seq<T>)
    requires at + |d| <= |m|
    ensures |r| == |m|
  {
    m[..at] + d + m[at + |d|..]
  }
}
