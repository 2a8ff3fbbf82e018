/** The DMA target of the endpoint: a byte-addressed memory with a bounds check. */
module HostMemory {
  import opened Bytes
  import opened Matrix

  const MEMORY_SIZE: nat := 16 * 1024 * 1024
  const ADDRESS_SPACE: nat := 0x1_0000_0000_0000_0000

  datatype Command = ReadCommand | WriteCommand | IgnoreCommand

  predicate InBounds(mem: seq<Byte>, addr: nat, len: nat)
  {
    addr + len <= |mem|
  }

  /** Memory after a write of data at addr; an access outside memory is refused as a whole. */
  function Stored(mem: seq<Byte>, addr: nat, data: seq<Byte>): (r: seq<Byte>)
    ensures |r| == |mem|
  {
    if InBounds(mem, addr, |data|) then Splice(mem, addr, data) else mem
  }

  /** Bytes occupied by an n by n matrix. */
  function MatrixBytes(n: nat): nat { n * n * 4 }

  predicate Fits(mem: seq<Byte>, p: nat, n: nat)
  {
    InBounds(mem, p, MatrixBytes(n))
  }

  /** The matrix a DMA read at p leaves in zeroed storage; a refused read leaves the zeros. */
  function LoadMatrix(mem: seq<Byte>, p: nat, n: nat): (m: seq<Word>)
    ensures |m| == n * n
  {
    if Fits(mem, p, n) then WordsOf(mem[p..p + MatrixBytes(n)]) else Zeros(n * n)
  }

  /** A stored matrix reads back, whatever the memory held before. */
  lemma LoadStored(mem: seq<Byte>, p: nat, n: nat, m: seq<Word>)
    requires |m| == n * n && Fits(mem, p, n)
    ensures LoadMatrix(Stored(mem, p, BytesOf(m)), p, n) == m
  {
    var after := Stored(mem, p, BytesOf(m));
    assert after[p..p + MatrixBytes(n)] == BytesOf(m);
    WordsOfBytesOf(m);
  }

  /** Loading loses nothing: the matrix has the bytes of its window. */
  lemma LoadedBytes(mem: seq<Byte>, p: nat, n: nat)
    requires Fits(mem, p, n)
    ensures BytesOf(LoadMatrix(mem, p, n)) == mem[p..p + MatrixBytes(n)]
  {
    BytesOfWordsOf(mem[p..p + MatrixBytes(n)]);
  }

  /** The 32-bit word whose bytes start at p, least significant first; zero outside memory. */
  function WordAt(mem: seq<Byte>, p: int): Word
  {
    if 0 <= p && p + 4 <= |mem|
    then mem[p] as int + 0x100 * mem[p + 1] as int + 0x1_0000 * mem[p + 2] as int + 0x100_0000 * mem[p + 3] as int
    else 0
  }

  lemma FirstWord(s: seq<Byte>)
    requires |s| >= 4
    ensures WordsOf(s)[0] == WordAt(s, 0)
  {
    FourBytes(s[..4]);
  }

  lemma LaterWord(s: seq<Byte>, k: nat)
    requires 1 <= k && 4 * k + 4 <= |s|
    ensures WordAt(s[4..], 4 * (k - 1)) == WordAt(s, 4 * k)
  {
    var t, p := s[4..], 4 * (k - 1);
    assert t[p] == s[p + 4] && t[p + 1] == s[p + 5] && t[p + 2] == s[p + 6] && t[p + 3] == s[p + 7];
  }

  lemma WordsTail(s: seq<Byte>, k: nat)
    requires 1 <= k && 4 * k + 4 <= |s|
    ensures k < |WordsOf(s)| && k - 1 < |WordsOf(s[4..])| && WordsOf(s)[k] == WordsOf(s[4..])[k - 1]
  {
  }

  lemma {:induction false} WordsOfAt(s: seq<Byte>, k: nat)
    requires 4 * k + 4 <= |s|
    ensures k < |WordsOf(s)| && WordsOf(s)[k] == WordAt(s, 4 * k)
    decreases k
  {
    if k == 0 {
      FirstWord(s);
    } else {
      WordsOfAt(s[4..], k - 1);
      WordsTail(s, k);
      LaterWord(s, k);
    }
  }

  /** Element k of a matrix in memory is the word at 4 * k. */
  lemma LoadedElement(mem: seq<Byte>, p: nat, n: nat, k: nat)
    requires Fits(mem, p, n) && k < n * n
    ensures LoadMatrix(mem, p, n)[k] == WordAt(mem, p + 4 * k)
  {
    var window := mem[p..p + MatrixBytes(n)];
    WordsOfAt(window, k);
  }

  class Memory {
    const bytes: array<Byte>

    constructor ()
      ensures fresh(bytes) && bytes.Length == 16777216
      ensures forall k :: 0 <= k < 16777216 ==> bytes[k] == 0
    {
      bytes := new Byte[MEMORY_SIZE](_ => 0);
    }

    /** One transaction. The address must not wrap around when the length is added to it. */
    method Transport(cmd: Command, addr: Long, buffer: array<Byte>) returns (ok: bool, delay: nat)
      requires addr + buffer.Length < ADDRESS_SPACE
      requires buffer != bytes
      modifies bytes, buffer
      ensures ok == (addr + buffer.Length <= bytes.Length)
      ensures delay == if ok then 20 else 0
      ensures !ok || !cmd.WriteCommand? ==> bytes[..] == old(bytes[..])
      ensures bytes[..] == if cmd.WriteCommand? then Stored(old(bytes[..]), addr, old(buffer[..])) else old(bytes[..])
      ensures buffer[..] == if ok && cmd.ReadCommand? then old(bytes[..])[addr..addr + buffer.Length] else old(buffer[..])
    {
      var len := buffer.Length;
      if addr + len > bytes.Length {
        return false, 0;
      }
      if cmd.ReadCommand? {
        CopyOut(addr, buffer);
      } else if cmd.WriteCommand? {
        CopyIn(addr, buffer);
      }
      return true, 20;
    }

    /** The memcpy of a read. */
    method CopyOut(addr: nat, data: array<Byte>)
      requires data != bytes && addr + data.Length <= bytes.Length
      modifies data
      ensures data[..] == bytes[addr..addr + data.Length]
    {
      for k := 0 to data.Length
        invariant bytes[..] == old(bytes[..])
        invariant data[..k] == bytes[addr..addr + k]
      {
        data[k] := bytes[addr + k];
        assert bytes[addr..addr + (k + 1)] == bytes[addr..addr + k] + [bytes[addr + k]];
      }
    }

    /** The memcpy of a write. */
    method CopyIn(addr: nat, data: array<Byte>)
      requires data != bytes && addr + data.Length <= bytes.Length
      modifies bytes
      ensures bytes[..] == Splice(old(bytes[..]), addr, data[..])
    {
      var len := data.Length;
      for k := 0 to len
        invariant bytes[..addr] == old(bytes[..])[..addr] && bytes[addr + k..] == old(bytes[..])[addr + k..]
        invariant bytes[addr..addr + k] == data[..k]
      {
        bytes[addr + k] := data[k];
        assert bytes[addr..addr + (k + 1)] == bytes[addr..addr + k] + [data[k]];
      }
      assert bytes[..] == bytes[..addr] + bytes[addr..addr + len] + bytes[addr + len..];
    }

    /** The test bench's direct accesses, which do nothing outside memory. */
    method WriteData(addr: Long, data: array<Byte>)
      requires data != bytes && addr + data.Length < ADDRESS_SPACE
      modifies bytes
      ensures bytes[..] == Stored(old(bytes[..]), addr, data[..])
      ensures if addr + data.Length <= bytes.Length then bytes[addr..addr + data.Length] == data[..]
              else bytes[..] == old(bytes[..])
      ensures forall k :: 0 <= k < bytes.Length && !(addr <= k < addr + data.Length) ==> bytes[k] == old(bytes[..])[k]
    {
      if addr + data.Length <= bytes.Length {
        CopyIn(addr, data);
      }
    }

    method ReadData(addr: Long, data: array<Byte>)
      requires data != bytes && addr + data.Length < ADDRESS_SPACE
      modifies data
      ensures data[..] == if addr + data.Length <= bytes.Length
                          then bytes[addr..addr + data.Length] else old(data[..])
    {
      if addr + data.Length <= bytes.Length {
        CopyOut(addr, data);
      }
    }
  }
}
