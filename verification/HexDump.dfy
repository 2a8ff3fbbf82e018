/** The hex dump of the dump tool: sixteen bytes a line, an offset, two fixed-width hex columns and a text column. */
module HexDump {
  import opened Bytes

  const LINE: nat := 16
  const COLUMN: nat := 23

  function Digit(d: int): char
    requires 0 <= d < 16
  {
    if d < 10 then ('0' as int + d) as char else ('a' as int + d - 10) as char
  }

  function Value(c: char): (v: nat)
    ensures v < 16
  {
    if '0' <= c <= '9' then c as int - '0' as int
    else if 'a' <= c <= 'f' then c as int - 'a' as int + 10
    else 0
  }

  lemma DigitValue(d: int)
    requires 0 <= d < 16
    ensures Value(Digit(d)) == d && Digit(d) != ' '
  {
  }

  function Spaces(k: nat): (s: string)
    ensures |s| == k && forall i :: 0 <= i < k ==> s[i] == ' '
  {
    seq(k, _ => ' ')
  }

  /** Two digits that read as x. */
  predicate IsPair(s: string, x: Byte)
  {
    |s| == 2 && s[0] != ' ' && s[1] != ' ' && 16 * Value(s[0]) + Value(s[1]) == x
  }

  /** %02x */
  function Hex2(x: Byte): (s: string)
    ensures IsPair(s, x)
  {
    DigitValue(x / 16);
    DigitValue(x % 16);
    [Digit(x / 16), Digit(x % 16)]
  }

  /** Bytes as two digits each, joined by single spaces. */
  function Joined(bs: seq<Byte>): (s: string)
    ensures |s| == if bs == [] then 0 else 3 * |bs| - 1
  {
    if bs == [] then "" else if |bs| == 1 then Hex2(bs[0]) else Hex2(bs[0]) + " " + Joined(bs[1..])
  }

  /** Left-justified in a column of 23. */
  function Column(bs: seq<Byte>): (s: string)
    requires |bs| <= 8
    ensures |s| == COLUMN
  {
    Joined(bs) + Spaces(COLUMN - |Joined(bs)|)
  }

  /** Hexadecimal without leading zeros. */
  function Hex(n: nat): (s: string)
    ensures s != []
  {
    if n < 16 then [Digit(n)] else Hex(n / 16) + [Digit(n % 16)]
  }

  function Zeros(k: nat): string { seq(k, _ => '0') }

  /** %04x */
  function Offset(n: nat): string
  {
    if |Hex(n)| < 4 then Zeros(4 - |Hex(n)|) + Hex(n) else Hex(n)
  }

  function Ascii(x: Byte): char
  {
    if x < 32 || x > 126 then '.' else x as char
  }

  function Text(bs: seq<Byte>): string
  {
    seq(|bs|, i requires 0 <= i < |bs| => Ascii(bs[i]))
  }

  function Take(bs: seq<Byte>, k: nat): (r: seq<Byte>)
    ensures |r| <= k
  {
    if |bs| <= k then bs else bs[..k]
  }

  function Drop(bs: seq<Byte>, k: nat): seq<Byte>
  {
    if |bs| <= k then [] else bs[k..]
  }

  lemma TakeDrop(bs: seq<Byte>, k: nat)
    ensures Take(bs, k) + Drop(bs, k) == bs
  {
  }

  function Line(at: nat, bs: seq<Byte>): string
    requires |bs| <= LINE
  {
    Offset(at) + "  " + Column(Take(bs, 8)) + "  " + Column(Drop(bs, 8)) + "  " + Text(bs)
  }

  function Lines(at: nat, data: seq<Byte>): seq<string>
    decreases |data|
  {
    if data == [] then [] else [Line(at, Take(data, LINE))] + Lines(at + LINE, Drop(data, LINE))
  }

  method FormatLine(at: nat, chunk: seq<Byte>) returns (line: string)
    requires |chunk| <= LINE
    ensures line == Line(at, chunk)
  {
    line := Offset(at) + "  ";
    line := line + Column(Take(chunk, 8)) + "  ";
    line := line + Column(Drop(chunk, 8)) + "  ";
    line := line + Text(chunk);
  }

  /** The line at i is the first of those still to come. */
  lemma LinesNext(lines: seq<string>, i: nat, data: seq<Byte>)
    requires i < |data|
    ensures lines + Lines(i, Drop(data, i)) == lines + [Line(i, Take(Drop(data, i), LINE))] + Lines(i + LINE, Drop(data, i + LINE))
  {
    assert Drop(Drop(data, i), LINE) == Drop(data, i + LINE);
  }

  /** The printing loop. */
  method HexPrint(data: seq<Byte>) returns (lines: seq<string>)
    ensures lines == Lines(0, data)
  {
    lines := [];
    var i := 0;
    assert Drop(data, 0) == data;
    while i < |data|
      invariant 0 <= i
      invariant lines + Lines(i, Drop(data, i)) == Lines(0, data)
      decreases |data| - i
    {
      LinesNext(lines, i, data);
      var line := FormatLine(i, Take(Drop(data, i), LINE));
      lines := lines + [line];
      i := i + LINE;
    }
  }

  // ---------------------------------------------------------------- reading a dump back

  function ReadColumn(s: string): seq<Byte>
    decreases |s|
  {
    if |s| < 2 || s[0] == ' ' || s[1] == ' ' then []
    else [16 * Value(s[0]) + Value(s[1])] + ReadColumn(if |s| < 3 then "" else s[3..])
  }

  /** Position of the first space: the end of the offset. */
  function FirstSpace(s: string): (p: nat)
    ensures p <= |s|
  {
    if s == [] || s[0] == ' ' then 0 else 1 + FirstSpace(s[1..])
  }

  function ReadNumber(s: string): nat
  {
    if s == [] then 0 else ReadNumber(s[..|s| - 1]) * 16 + Value(s[|s| - 1])
  }

  /** The two columns stand at fixed distances from the end of the offset. */
  function ReadBytes(line: string): seq<Byte>
  {
    var p := FirstSpace(line);
    if |line| < p + 50 then []
    else ReadColumn(line[p + 2..p + 2 + COLUMN]) + ReadColumn(line[p + 27..p + 27 + COLUMN])
  }

  function ReadDump(lines: seq<string>): seq<Byte>
  {
    if lines == [] then [] else ReadBytes(lines[0]) + ReadDump(lines[1..])
  }

  // ---------------------------------------------------------------- round trip

  /** Reading one pair of digits and its separator. */
  lemma ReadPair(h: string, x: Byte, tail: string)
    requires IsPair(h, x)
    ensures ReadColumn(h + tail) == [x] + ReadColumn(if tail == [] then "" else tail[1..])
  {
    var s := h + tail;
    assert s[0] == h[0] && s[1] == h[1];
    assert (if |s| < 3 then "" else s[3..]) == (if tail == [] then "" else tail[1..]);
  }

  lemma ReadFirst(x: Byte, rest: string)
    ensures ReadColumn(Hex2(x) + (" " + rest)) == [x] + ReadColumn(rest)
  {
    ReadPair(Hex2(x), x, " " + rest);
    assert (" " + rest)[1..] == rest;
  }

  lemma Regroup(a: string, b: string, c: string, d: string)
    ensures a + b + c + d == a + (b + (c + d))
  {
  }

  lemma ReadLast(x: Byte, k: nat)
    ensures ReadColumn(Hex2(x) + Spaces(k)) == [x]
  {
    ReadPair(Hex2(x), x, Spaces(k));
    assert k > 0 ==> Spaces(k)[1..] == Spaces(k - 1);
  }

  lemma {:induction false} ReadJoined(bs: seq<Byte>, k: nat)
    ensures ReadColumn(Joined(bs) + Spaces(k)) == bs
    decreases |bs|
  {
    if bs == [] {
      assert Joined(bs) + Spaces(k) == Spaces(k);
    } else if |bs| == 1 {
      ReadLast(bs[0], k);
    } else {
      ReadJoined(bs[1..], k);
      ReadFirst(bs[0], Joined(bs[1..]) + Spaces(k));
      Regroup(Hex2(bs[0]), " ", Joined(bs[1..]), Spaces(k));
    }
  }

  lemma ColumnReads(bs: seq<Byte>)
    requires |bs| <= 8
    ensures ReadColumn(Column(bs)) == bs
  {
    ReadJoined(bs, COLUMN - |Joined(bs)|);
  }

  lemma {:induction false} HexHasNoSpace(n: nat)
    ensures ' ' !in Hex(n)
  {
    DigitValue(n % 16);
    if n >= 16 {
      HexHasNoSpace(n / 16);
    }
  }

  lemma OffsetHasNoSpace(n: nat)
    ensures ' ' !in Offset(n)
  {
    HexHasNoSpace(n);
  }

  lemma {:induction false} FirstSpaceAfter(h: string, rest: string)
    requires ' ' !in h && rest != [] && rest[0] == ' '
    ensures FirstSpace(h + rest) == |h|
    decreases |h|
  {
    if h == [] {
      assert h + rest == rest;
    } else {
      assert h[0] in h;
      FirstSpaceAfter(h[1..], rest);
      assert (h + rest)[1..] == h[1..] + rest;
    }
  }

  lemma Middle(a: string, b: string, c: string)
    ensures (a + b + c)[|a|..|a| + |b|] == b
  {
  }

  lemma LineLayout(at: nat, bs: seq<Byte>)
    requires |bs| <= LINE
    ensures var line, p := Line(at, bs), |Offset(at)|;
            && FirstSpace(line) == p && |line| >= p + 50 && line[..p] == Offset(at)
            && line[p + 2..p + 2 + COLUMN] == Column(Take(bs, 8))
            && line[p + 27..p + 27 + COLUMN] == Column(Drop(bs, 8))
  {
    var h, x, y, t := Offset(at), Column(Take(bs, 8)), Column(Drop(bs, 8)), Text(bs);
    OffsetHasNoSpace(at);
    OffsetFirst(h, "  ", x, y, t);
    ColumnsNext(h, "  ", x, y, t);
  }

  lemma OffsetFirst(h: string, gap: string, x: string, y: string, t: string)
    requires ' ' !in h && |gap| == 2 && gap[0] == ' '
    ensures FirstSpace(h + gap + x + gap + y + gap + t) == |h|
  {
    var rest := gap + x + gap + y + gap + t;
    FirstSpaceAfter(h, rest);
    assert h + rest == h + gap + x + gap + y + gap + t;
  }

  lemma ColumnsNext(h: string, gap: string, x: string, y: string, t: string)
    requires |x| == COLUMN && |y| == COLUMN && |gap| == 2
    ensures var line := h + gap + x + gap + y + gap + t;
            && |line| >= |h| + 50 && line[..|h|] == h
            && line[|h| + 2..|h| + 2 + COLUMN] == x && line[|h| + 27..|h| + 27 + COLUMN] == y
  {
    var line := h + gap + x + gap + y + gap + t;
    var tail := gap + y + gap + t;
    assert line == (h + gap) + x + tail;
    Middle(h + gap, x, tail);
    assert line == (h + gap + x + gap) + y + (gap + t);
    Middle(h + gap + x + gap, y, gap + t);
  }

  lemma ReadLine(at: nat, bs: seq<Byte>)
    requires |bs| <= LINE
    ensures ReadBytes(Line(at, bs)) == bs
  {
    LineLayout(at, bs);
    ColumnReads(Take(bs, 8));
    ColumnReads(Drop(bs, 8));
    TakeDrop(bs, 8);
  }

  /** Round trip: the hex columns of a dump, partial last line included, read back to exactly the bytes dumped. */
  lemma {:induction false} DumpRoundTrip(at: nat, data: seq<Byte>)
    ensures ReadDump(Lines(at, data)) == data
    decreases |data|
  {
    if data != [] {
      ReadLine(at, Take(data, LINE));
      DumpRoundTrip(at + LINE, Drop(data, LINE));
      TakeDrop(data, LINE);
    }
  }

  // ---------------------------------------------------------------- the dump, character by character

  /** What stands at place k of a hex column. */
  function ColumnChar(bs: seq<Byte>, k: nat): char
  {
    if k / 3 >= |bs| || k % 3 == 2 then ' '
    else if k % 3 == 0 then "0123456789abcdef"[bs[k / 3] / 16]
    else "0123456789abcdef"[bs[k / 3] % 16]
  }

  lemma DigitChar(d: int)
    requires 0 <= d < 16
    ensures Digit(d) == "0123456789abcdef"[d]
  {
  }

  lemma ThreeBack(k: nat)
    requires k >= 3
    ensures (k - 3) / 3 == k / 3 - 1 && (k - 3) % 3 == k % 3
  {
  }

  lemma PairChars(x: Byte)
    ensures Hex2(x)[0] == "0123456789abcdef"[x / 16] && Hex2(x)[1] == "0123456789abcdef"[x % 16]
  {
    DigitChar(x / 16);
    DigitChar(x % 16);
  }

  lemma JoinedTail(bs: seq<Byte>, k: nat)
    requires 3 <= k < |Joined(bs)|
    ensures |bs| >= 2 && k - 3 < |Joined(bs[1..])| && Joined(bs)[k] == Joined(bs[1..])[k - 3]
  {
  }

  lemma JoinedHead(bs: seq<Byte>, k: nat)
    requires k < |Joined(bs)| && k < 3
    ensures Joined(bs)[k] == if k == 2 then ' ' else Hex2(bs[0])[k]
  {
  }

  lemma {:induction false} JoinedChar(bs: seq<Byte>, k: nat)
    requires k < |Joined(bs)|
    ensures Joined(bs)[k] == ColumnChar(bs, k)
    decreases |bs|
  {
    if k < 3 {
      PairChars(bs[0]);
      JoinedHead(bs, k);
    } else {
      JoinedTail(bs, k);
      JoinedChar(bs[1..], k - 3);
      ThreeBack(k);
    }
  }

  lemma ColumnChars(bs: seq<Byte>, k: nat)
    requires |bs| <= 8 && k < COLUMN
    ensures Column(bs)[k] == ColumnChar(bs, k)
  {
    if k < |Joined(bs)| {
      JoinedChar(bs, k);
    }
  }

  /** Everything in a line after its offset: gaps of two spaces, the two columns, and the bytes as text. */
  lemma LineChars(at: nat, bs: seq<Byte>, k: nat)
    requires |bs| <= 16
    ensures var line, p := Line(at, bs), |Offset(at)|;
            && |line| == p + 52 + |bs|
            && line[..p] == Offset(at) && line[p..p + 2] == "  " && line[p + 25..p + 27] == "  " && line[p + 50..p + 52] == "  "
            && (k < 23 ==> line[p + 2 + k] == (if k / 3 >= |bs| || k % 3 == 2 then ' '
                                               else "0123456789abcdef"[if k % 3 == 0 then bs[k / 3] / 16 else bs[k / 3] % 16]))
            && (k < 23 ==> line[p + 27 + k] == (if 8 + k / 3 >= |bs| || k % 3 == 2 then ' '
                                                else "0123456789abcdef"[if k % 3 == 0 then bs[8 + k / 3] / 16 else bs[8 + k / 3] % 16]))
            && (k < |bs| ==> line[p + 52 + k] == if 32 <= bs[k] <= 126 then bs[k] as char else '.')
  {
    var h, x, y, t := Offset(at), Column(Take(bs, 8)), Column(Drop(bs, 8)), Text(bs);
    Pieces(h, "  ", x, y, t);
    if k < 23 {
      FirstColumn(bs, k);
      SecondColumn(bs, k);
    }
  }

  lemma FirstColumn(bs: seq<Byte>, k: nat)
    requires |bs| <= 16 && k < 23
    ensures Column(Take(bs, 8))[k] == (if k / 3 >= |bs| || k % 3 == 2 then ' '
                                       else "0123456789abcdef"[if k % 3 == 0 then bs[k / 3] / 16 else bs[k / 3] % 16])
  {
    ColumnChars(Take(bs, 8), k);
  }

  lemma SecondColumn(bs: seq<Byte>, k: nat)
    requires |bs| <= 16 && k < 23
    ensures Column(Drop(bs, 8))[k] == (if 8 + k / 3 >= |bs| || k % 3 == 2 then ' '
                                       else "0123456789abcdef"[if k % 3 == 0 then bs[8 + k / 3] / 16 else bs[8 + k / 3] % 16])
  {
    ColumnChars(Drop(bs, 8), k);
  }

  lemma Pieces(h: string, gap: string, x: string, y: string, t: string)
    requires |x| == COLUMN && |y| == COLUMN && |gap| == 2
    ensures var line, p := h + gap + x + gap + y + gap + t, |h|;
            && |line| == p + 52 + |t| && line[..p] == h
            && line[p..p + 2] == gap && line[p + 25..p + 27] == gap && line[p + 50..p + 52] == gap
            && (forall k :: 0 <= k < 23 ==> line[p + 2 + k] == x[k])
            && (forall k :: 0 <= k < 23 ==> line[p + 27 + k] == y[k])
            && (forall k :: 0 <= k < |t| ==> line[p + 52 + k] == t[k])
  {
  }

  lemma DropAgain(data: seq<Byte>, i: nat)
    ensures Drop(Drop(data, LINE), i) == Drop(data, LINE + i)
  {
  }

  lemma {:induction false} LineIsChunk(at: nat, data: seq<Byte>, k: nat, here: nat, bs: seq<Byte>)
    requires 16 * k < |data| && here == at + 16 * k && bs == Take(Drop(data, 16 * k), LINE)
    ensures k < |Lines(at, data)| && Lines(at, data)[k] == Line(here, bs)
    decreases k
  {
    LineCount(at, data);
    if k == 0 {
      assert Drop(data, 0) == data;
    } else {
      DropAgain(data, 16 * (k - 1));
      LineIsChunk(at + LINE, Drop(data, LINE), k - 1, here, bs);
      LinesTail(at, data, k);
    }
  }

  /** Line k of a dump holds the sixteen bytes from 16 * k on, or what is left of them. */
  lemma LineIs(at: nat, data: seq<Byte>, k: nat, bs: seq<Byte>)
    requires 16 * k < |data| && bs == data[16 * k..if 16 * k + 16 <= |data| then 16 * k + 16 else |data|]
    ensures k < |Lines(at, data)| && Lines(at, data)[k] == Line(at + 16 * k, bs)
  {
    assert Take(Drop(data, 16 * k), LINE) == bs;
    LineIsChunk(at, data, k, at + 16 * k, bs);
  }

  // ---------------------------------------------------------------- offsets

  /** An offset is made of hexadecimal digits only. */
  lemma {:induction false} HexDigits(n: nat)
    ensures forall i :: 0 <= i < |Hex(n)| ==> Hex(n)[i] in "0123456789abcdef"
  {
    DigitChar(n % 16);
    if n >= 16 {
      HexDigits(n / 16);
    } else {
      DigitChar(n);
    }
  }

  lemma OffsetDigits(n: nat)
    ensures forall i :: 0 <= i < |Offset(n)| ==> Offset(n)[i] in "0123456789abcdef"
    ensures ReadNumber(Offset(n)) == n && |Offset(n)| >= 4
  {
    HexDigits(n);
    OffsetReads(n);
  }

  lemma {:induction false} ReadHex(n: nat)
    ensures ReadNumber(Hex(n)) == n
  {
    DigitValue(n % 16);
    if n >= 16 {
      ReadHex(n / 16);
      assert Hex(n)[..|Hex(n)| - 1] == Hex(n / 16);
    }
  }

  lemma {:induction false} LeadingZeros(k: nat, s: string)
    ensures ReadNumber(Zeros(k) + s) == ReadNumber(s)
    decreases k + |s|
  {
    var z := Zeros(k) + s;
    if s == [] {
      if k > 0 {
        LeadingZeros(k - 1, []);
        assert z[..k - 1] == Zeros(k - 1) + [];
      }
    } else {
      LeadingZeros(k, s[..|s| - 1]);
      assert z[..|z| - 1] == Zeros(k) + s[..|s| - 1];
    }
  }

  lemma OffsetReads(n: nat)
    ensures ReadNumber(Offset(n)) == n
  {
    ReadHex(n);
    if |Hex(n)| < 4 {
      LeadingZeros(4 - |Hex(n)|, Hex(n));
    }
  }

  lemma LineOffset(at: nat, bs: seq<Byte>)
    requires |bs| <= LINE
    ensures var line := Line(at, bs); ReadNumber(line[..FirstSpace(line)]) == at
  {
    LineLayout(at, bs);
    OffsetReads(at);
  }

  /** There are ceil(len / 16) lines. */
  lemma {:induction false} LineCount(at: nat, data: seq<Byte>)
    ensures |Lines(at, data)| == (|data| + 15) / 16
    decreases |data|
  {
    if data != [] {
      LineCount(at + LINE, Drop(data, LINE));
    }
  }

  lemma LinesTail(at: nat, data: seq<Byte>, k: nat)
    requires 1 <= k < |Lines(at, data)|
    ensures var rest := Lines(at + LINE, Drop(data, LINE));
            |rest| == |Lines(at, data)| - 1 && Lines(at, data)[k] == rest[k - 1]
  {
  }

  /** Line k of a dump carries the offset of its first byte. */
  lemma {:induction false} LineOffsets(at: nat, data: seq<Byte>, k: nat)
    requires k < |Lines(at, data)|
    ensures var line := Lines(at, data)[k];
            ReadNumber(line[..FirstSpace(line)]) == at + 16 * k
    decreases k
  {
    if k == 0 {
      LineOffset(at, Take(data, LINE));
    } else {
      LinesTail(at, data, k);
      LineOffsets(at + LINE, Drop(data, LINE), k - 1);
    }
  }

  /** The offset is four characters wide, and so the columns stand at fixed positions, exactly below 65536. */
  lemma OffsetWidth(n: nat)
    ensures |Offset(n)| == 4 <==> n < 0x1_0000
  {
    HexWidth(n, 4);
  }

  function Pow16(k: nat): nat { if k == 0 then 1 else 16 * Pow16(k - 1) }

  lemma {:induction false} HexWidth(n: nat, k: nat)
    requires k >= 1
    ensures |Hex(n)| <= k <==> n < Pow16(k)
    decreases k
  {
    if k == 1 {
      assert Pow16(1) == 16;
    } else if n >= 16 {
      HexWidth(n / 16, k - 1);
      assert n / 16 < Pow16(k - 1) <==> n < 16 * Pow16(k - 1);
    } else {
      Pow16Grows(k - 1);
    }
  }

  lemma {:induction false} Pow16Grows(k: nat)
    ensures Pow16(k) >= 1
  {
    if k > 0 {
      Pow16Grows(k - 1);
    }
  }
}
