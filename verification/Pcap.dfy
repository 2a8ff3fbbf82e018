/** The pcap output of the dump tool: a file header and one record per captured event, with the two process ids in front. */
module Pcap {
  import opened Bytes

  const MAGIC: Word := 0xa1b2_c3d4
  const PACKET_SIZE: nat := 140
  const RECORD_HEADER: nat := 16
  const FILE_HEADER: nat := 24
  const MAX32: nat := 0x1_0000_0000

  datatype Option<T> = None | Some(value: T)

  // ---------------------------------------------------------------- big-endian numbers

  function ToBE(x: nat, n: nat): (s: seq<Byte>)
    ensures |s| == n
    decreases n
  {
    if n == 0 then [] else ToBE(x / 0x100, n - 1) + [x % 0x100]
  }

  function FromBE(s: seq<Byte>): nat
  {
    if s == [] then 0 else FromBE(s[..|s| - 1]) * 0x100 + s[|s| - 1] as int
  }

  lemma {:induction false} FromToBE(x: nat, n: nat)
    requires x < Pow256(n)
    ensures FromBE(ToBE(x, n)) == x
    decreases n
  {
    if n > 0 {
      FromToBE(x / 0x100, n - 1);
      assert ToBE(x, n)[..n - 1] == ToBE(x / 0x100, n - 1);
    }
  }

  function Reversed(s: seq<Byte>): (r: seq<Byte>)
    ensures |r| == |s|
  {
    if s == [] then [] else Reversed(s[1..]) + [s[0]]
  }

  lemma {:induction false} BigIsReversedLittle(x: nat, n: nat)
    ensures ToBE(x, n) == Reversed(ToLE(x, n))
    decreases n
  {
    if n > 0 {
      BigIsReversedLittle(x / 0x100, n - 1);
      assert ToLE(x, n)[1..] == ToLE(x / 0x100, n - 1);
    }
  }

  lemma ReversedEight(s: seq<Byte>)
    requires |s| == 8
    ensures Reversed(s) == [s[7], s[6], s[5], s[4], s[3], s[2], s[1], s[0]]
  {
    ReversedFour(s[4..]);
    assert s[1..][1..] == s[2..] && s[2..][1..] == s[3..] && s[3..][1..] == s[4..];
    assert Reversed(s[3..]) == Reversed(s[4..]) + [s[3]];
    assert Reversed(s[2..]) == Reversed(s[3..]) + [s[2]];
    assert Reversed(s[1..]) == Reversed(s[2..]) + [s[1]];
  }

  lemma ReversedFour(s: seq<Byte>)
    requires |s| == 4
    ensures Reversed(s) == [s[3], s[2], s[1], s[0]]
  {
    assert s[1..][1..] == s[2..] && s[2..][1..] == s[3..] && s[3..][1..] == [];
    assert Reversed(s[3..]) == [s[3]];
    assert Reversed(s[2..]) == Reversed(s[3..]) + [s[2]];
    assert Reversed(s[1..]) == Reversed(s[2..]) + [s[1]];
  }

  lemma {:induction false} ZeroBytesLE(n: nat)
    ensures ToLE(0, n) == seq(n, _ => 0)
    decreases n
  {
    if n > 0 {
      ZeroBytesLE(n - 1);
    }
  }

  lemma {:induction false} ShiftZero(k: nat)
    ensures Shift(0, k) == 0
    decreases k
  {
    if k > 0 {
      ShiftZero(k - 1);
    }
  }

  /** A little-endian number written big-endian with m more bytes: its bytes padded with zeros, reversed. */
  lemma WidenedReversed(s: seq<Byte>, m: nat)
    ensures ToBE(FromLE(s), |s| + m) == Reversed(s + seq(m, _ => 0))
  {
    FromLEBound(s);
    ShiftZero(|s|);
    ToLESplit(FromLE(s), 0, |s|, m);
    ToFromLE(s);
    ZeroBytesLE(m);
    BigIsReversedLittle(FromLE(s), |s| + m);
  }

  /** A 32-bit little-endian number, written with eight bytes, most significant first. */
  lemma WidenedBigEndian(s: seq<Byte>)
    requires |s| == 4
    ensures ToBE(FromLE(s), 8) == [0, 0, 0, 0, s[3], s[2], s[1], s[0]]
  {
    WidenedReversed(s, 4);
    var w := s + seq(4, _ => 0);
    ReversedEight(w);
  }

  // ---------------------------------------------------------------- captured events

  /** The fixed part of an event that the output uses, and the payload that was captured. */
  datatype Packet = Packet(pid: Word, peerPid: Word, len: Word, flags: Word)

  function ParsePacket(event: seq<Byte>): Packet
    requires |event| >= PACKET_SIZE
  {
    Packet(WordOf(event[0..4]), WordOf(event[4..8]), WordOf(event[8..12]), WordOf(event[12..16]))
  }

  /** At most `len` bytes, and no more than the event holds. */
  function ParseData(event: seq<Byte>): (data: seq<Byte>)
    requires |event| >= PACKET_SIZE
    ensures |data| <= ParsePacket(event).len && |data| <= |event| - PACKET_SIZE
  {
    var room := |event| - PACKET_SIZE;
    var len := ParsePacket(event).len;
    event[PACKET_SIZE..PACKET_SIZE + (if len > room then room else len)]
  }

  // ---------------------------------------------------------------- format

  datatype Record = Record(sec: Word, usec: Word, origLen: Word, data: seq<Byte>)

  predicate Encodable(r: Record) { |r.data| < MAX32 }

  predicate AllEncodable(rs: seq<Record>) { forall k :: 0 <= k < |rs| ==> Encodable(rs[k]) }

  /** A record header is four 32-bit words. */
  function Header(r: Record): (ws: seq<Word>)
    requires Encodable(r)
    ensures |ws| == 4
  {
    [r.sec, r.usec, |r.data|, r.origLen]
  }

  function EncodeRecord(r: Record): (s: seq<Byte>)
    requires Encodable(r)
    ensures |s| == RECORD_HEADER + |r.data|
  {
    BytesOf(Header(r)) + r.data
  }

  function EncodeRecords(rs: seq<Record>): seq<Byte>
    requires AllEncodable(rs)
  {
    if rs == [] then [] else EncodeRecord(rs[0]) + EncodeRecords(rs[1..])
  }

  /** Magic number and version 2.4, then time zone, accuracy, snapshot length and link type. */
  function FileHeader(snaplen: Word, network: Word): (s: seq<Byte>)
    ensures |s| == FILE_HEADER
  {
    ToLE(MAGIC, 4) + ToLE(2, 2) + ToLE(4, 2) + BytesOf([0, 0, snaplen, network])
  }

  /** Where the record at the front of a stream ends, and that record. */
  function FrontEnd(s: seq<Byte>): nat
    requires |s| >= RECORD_HEADER
  {
    RECORD_HEADER + WordsOf(s[..RECORD_HEADER])[2]
  }

  function FrontRecord(s: seq<Byte>): (r: Record)
    requires |s| >= RECORD_HEADER && FrontEnd(s) <= |s|
    ensures Encodable(r)
  {
    var h := WordsOf(s[..RECORD_HEADER]);
    Record(h[0], h[1], h[3], s[RECORD_HEADER..FrontEnd(s)])
  }

  /** A reader of the format, independent of the writer. */
  function DecodeRecords(s: seq<Byte>): Option<seq<Record>>
    decreases |s|
  {
    if s == [] then Some([])
    else if |s| < RECORD_HEADER || |s| < FrontEnd(s) then None
    else
      match DecodeRecords(s[FrontEnd(s)..])
      case None => None
      case Some(rest) => Some([FrontRecord(s)] + rest)
  }

  // ---------------------------------------------------------------- round trips

  lemma Number32(x: nat)
    requires x < MAX32
    ensures FromLE(ToLE(x, 4)) == x
  {
    Pow256Values();
    FromToLE(x, 4);
  }

  lemma RecordFields(r: Record, rest: seq<Byte>)
    requires Encodable(r)
    ensures var s := EncodeRecord(r) + rest;
            && FrontEnd(s) == RECORD_HEADER + |r.data| <= |s| && FrontRecord(s) == r && s[FrontEnd(s)..] == rest
  {
    var s := EncodeRecord(r) + rest;
    assert s[..RECORD_HEADER] == BytesOf(Header(r));
    WordsOfBytesOf(Header(r));
  }

  /** Where the fields of a record stand: seconds, microseconds, captured length, original length, data. */
  lemma RecordLayout(r: Record)
    requires Encodable(r)
    ensures var s := EncodeRecord(r);
            && |s| == 16 + |r.data| && FromLE(s[0..4]) == r.sec && FromLE(s[4..8]) == r.usec
            && FromLE(s[8..12]) == |r.data| && FromLE(s[12..16]) == r.origLen && s[16..] == r.data
  {
    HeaderBytes(r.sec, r.usec, |r.data|, r.origLen);
    var s, h := EncodeRecord(r), BytesOf(Header(r));
    assert s[0..4] == h[0..4] && s[4..8] == h[4..8] && s[8..12] == h[8..12] && s[12..16] == h[12..16];
    Number32(r.sec);
    Number32(r.usec);
    Number32(|r.data|);
    Number32(r.origLen);
  }

  lemma HeaderBytes(a: Word, b: Word, c: Word, d: Word)
    ensures var h := BytesOf([a, b, c, d]);
            |h| == 16 && h[0..4] == ToLE(a, 4) && h[4..8] == ToLE(b, 4) && h[8..12] == ToLE(c, 4) && h[12..16] == ToLE(d, 4)
  {
    var x, y, z, w := ToLE(a, 4), ToLE(b, 4), ToLE(c, 4), ToLE(d, 4);
    assert [a, b, c, d][1..] == [b, c, d] && [b, c, d][1..] == [c, d] && [c, d][1..] == [d] && [d][1..] == [];
    assert BytesOf([d]) == w + [];
    assert BytesOf([c, d]) == z + BytesOf([d]);
    assert BytesOf([b, c, d]) == y + BytesOf([c, d]);
    assert BytesOf([a, b, c, d]) == x + (y + (z + (w + [])));
    Quarters(x, y, z, w);
  }

  lemma Quarters(x: seq<Byte>, y: seq<Byte>, z: seq<Byte>, w: seq<Byte>)
    requires |x| == |y| == |z| == |w| == 4
    ensures var h := x + (y + (z + (w + [])));
            |h| == 16 && h[0..4] == x && h[4..8] == y && h[8..12] == z && h[12..16] == w
  {
  }

  /** The reader recovers exactly the records written, for every sequence of them. */
  lemma {:induction false} DecodeEncode(rs: seq<Record>)
    requires AllEncodable(rs)
    ensures DecodeRecords(EncodeRecords(rs)) == Some(rs)
    decreases |rs|
  {
    if rs != [] {
      RecordFields(rs[0], EncodeRecords(rs[1..]));
      DecodeEncode(rs[1..]);
      assert [rs[0]] + rs[1..] == rs;
    }
  }

  /** The record at the front of a stream encodes to the front of the stream. */
  lemma FrontEncodes(s: seq<Byte>)
    requires |s| >= RECORD_HEADER && FrontEnd(s) <= |s|
    ensures EncodeRecord(FrontRecord(s)) == s[..FrontEnd(s)]
  {
    BytesOfWordsOf(s[..RECORD_HEADER]);
    assert Header(FrontRecord(s)) == WordsOf(s[..RECORD_HEADER]);
    assert s[..FrontEnd(s)] == s[..RECORD_HEADER] + s[RECORD_HEADER..FrontEnd(s)];
  }

  lemma EncodeCons(r: Record, rest: seq<Record>)
    requires Encodable(r) && AllEncodable(rest)
    ensures AllEncodable([r] + rest) && EncodeRecords([r] + rest) == EncodeRecord(r) + EncodeRecords(rest)
  {
    assert ([r] + rest)[1..] == rest;
  }

  /** Whatever the reader accepts is the encoding of what it returns: no stream decodes in two ways, and none is misread. */
  lemma {:induction false} EncodeDecode(s: seq<Byte>)
    requires DecodeRecords(s).Some?
    ensures AllEncodable(DecodeRecords(s).value) && EncodeRecords(DecodeRecords(s).value) == s
    decreases |s|
  {
    if s != [] {
      var end := FrontEnd(s);
      EncodeDecode(s[end..]);
      FrontEncodes(s);
      EncodeCons(FrontRecord(s), DecodeRecords(s[end..]).value);
      Rejoin(s, end);
    }
  }

  lemma Rejoin(s: seq<Byte>, k: nat)
    requires k <= |s|
    ensures s[..k] + s[k..] == s
  {
  }

  lemma {:induction false} EncodeAppend(rs: seq<Record>, r: Record)
    requires AllEncodable(rs) && Encodable(r)
    ensures EncodeRecords(rs + [r]) == EncodeRecords(rs) + EncodeRecord(r)
    decreases |rs|
  {
    if rs == [] {
      assert rs + [r] == [r] + [];
      EncodeCons(r, []);
    } else {
      var x, tail := rs[0], rs[1..];
      EncodeAppend(tail, r);
      EncodeCons(x, tail + [r]);
      assert [x] + (tail + [r]) == rs + [r];
      Associate(EncodeRecord(x), EncodeRecords(tail), EncodeRecord(r));
    }
  }

  // ---------------------------------------------------------------- from events to records

  datatype Captured = Captured(event: seq<Byte>, sec: Word, usec: Word)

  /** Small enough for 32-bit lengths: the one thing the writer cannot encode. */
  predicate Writable(c: Captured)
  {
    |c.event| >= PACKET_SIZE && ParsePacket(c.event).len as int + 16 < MAX32
  }

  predicate AllWritable(cs: seq<Captured>) { forall k :: 0 <= k < |cs| ==> Writable(cs[k]) }

  /** The two process ids, big-endian. */
  function Ids(p: Packet): (s: seq<Byte>)
    ensures |s| == 16
  {
    ToBE(p.peerPid, 8) + ToBE(p.pid, 8)
  }

  function ToRecord(c: Captured): (r: Record)
    requires Writable(c)
    ensures Encodable(r)
  {
    var p := ParsePacket(c.event);
    Record(c.sec, c.usec, p.len as int + 16, Ids(p) + ParseData(c.event))
  }

  function ToRecords(cs: seq<Captured>): (rs: seq<Record>)
    requires AllWritable(cs)
    ensures |rs| == |cs| && AllEncodable(rs) && forall k :: 0 <= k < |cs| ==> rs[k] == ToRecord(cs[k])
  {
    seq(|cs|, k requires 0 <= k < |cs| => ToRecord(cs[k]))
  }

  /** The dissector's fields: destination, source, payload. */
  datatype Dissected = Dissected(dst: nat, src: nat, payload: seq<Byte>)

  function Dissect(data: seq<Byte>): Dissected
    requires |data| >= 16
  {
    Dissected(FromBE(data[0..8]), FromBE(data[8..16]), data[16..])
  }

  /** The captured length: what the event announces, but no more than it holds. */
  function Captured32(event: seq<Byte>): nat
    requires |event| >= 140
  {
    if FromLE(event[8..12]) > |event| - 140 then |event| - 140 else FromLE(event[8..12])
  }

  /** A record in terms of the event's bytes: the peer's pid and the pid, widened and most significant byte first, then the payload. */
  lemma RecordBytes(c: Captured)
    requires Writable(c)
    ensures var r, e := ToRecord(c), c.event;
            && r.sec == c.sec && r.usec == c.usec && r.origLen == FromLE(e[8..12]) + 16
            && r.data == [0, 0, 0, 0, e[7], e[6], e[5], e[4]] + [0, 0, 0, 0, e[3], e[2], e[1], e[0]] + e[140..140 + Captured32(e)]
  {
    WidenedBigEndian(c.event[4..8]);
    WidenedBigEndian(c.event[0..4]);
  }

  lemma DissectIds(x: Word, y: Word, payload: seq<Byte>)
    ensures Dissect(ToBE(x, 8) + ToBE(y, 8) + payload) == Dissected(x, y, payload)
  {
    var data := ToBE(x, 8) + ToBE(y, 8) + payload;
    assert data[0..8] == ToBE(x, 8) && data[8..16] == ToBE(y, 8) && data[16..] == payload;
    Pow256Values();
    FromToBE(x, 8);
    FromToBE(y, 8);
  }

  /** What a record should say about its event: destination and source are the peer pid and the pid. */
  ghost predicate Tells(r: Record, c: Captured)
  {
    var e := c.event;
    && |e| >= 140 && 16 <= |r.data| <= r.origLen
    && r.sec == c.sec && r.usec == c.usec && r.origLen == FromLE(e[8..12]) + 16
    && Dissect(r.data) == Dissected(FromLE(e[4..8]), FromLE(e[0..4]), e[140..140 + Captured32(e)])
  }

  /** A record's numbers, and what the dissector makes of it: destination and source are the event's peer pid and pid. */
  lemma RecordMeaning(c: Captured)
    requires Writable(c)
    ensures var r, e := ToRecord(c), c.event;
            && Encodable(r) && 16 <= |r.data| <= r.origLen
            && r.sec == c.sec && r.usec == c.usec && r.origLen == FromLE(e[8..12]) + 16
            && Dissect(r.data) == Dissected(FromLE(e[4..8]), FromLE(e[0..4]), e[140..140 + Captured32(e)])
  {
    var p := ParsePacket(c.event);
    DissectIds(p.peerPid, p.pid, ParseData(c.event));
  }

  /** The writer: an append-only output and the count of events seen. */
  class Writer {
    var out: seq<Byte>
    var packets: nat

    constructor ()
      ensures out == [] && packets == 0
    {
      out, packets := [], 0;
    }

    method WriteHeader(snaplen: Word, network: Word)
      modifies this`out
      ensures out == old(out) + FileHeader(snaplen, network)
    {
      out := out + FileHeader(snaplen, network);
    }

    method WriteRecord(sec: Word, usec: Word, origLen: Word, data: seq<Byte>)
      requires |data| < MAX32
      modifies this`out
      ensures out == old(out) + EncodeRecord(Record(sec, usec, origLen, data))
    {
      out := out + BytesOf([sec, usec, |data|, origLen]);
      out := out + data;
    }

    /** pcap_output: the event is counted even if its length does not fit and nothing is written. */
    method Output(c: Captured) returns (written: bool)
      requires |c.event| >= PACKET_SIZE
      modifies this
      ensures packets == old(packets) + 1 && written == Writable(c)
      ensures written <==> FromLE(c.event[8..12]) + 16 < 0x1_0000_0000
      ensures out == if written then old(out) + EncodeRecord(ToRecord(c)) else old(out)
    {
      packets := packets + 1;
      var p, data := ParsePacket(c.event), ParseData(c.event);
      var header := Ids(p);
      var size := |header| + p.len as int;
      if size >= MAX32 {
        return false;
      }
      var payload := header + data;
      assert Record(c.sec, c.usec, size, payload) == ToRecord(c);
      WriteRecord(c.sec, c.usec, size, payload);
      return true;
    }
  }

  /** Every event of a session, in order. */
  method OutputAll(w: Writer, cs: seq<Captured>)
    requires AllWritable(cs)
    modifies w
    ensures w.out == old(w.out) + EncodeRecords(ToRecords(cs))
    ensures w.packets == old(w.packets) + |cs|
  {
    ghost var head, rs, done := w.out, ToRecords(cs), [];
    for k := 0 to |cs|
      invariant done == rs[..k] && AllEncodable(done) && w.out == head + EncodeRecords(done)
      invariant w.packets == old(w.packets) + k
    {
      OutputNext(w, cs[k], head, done, rs[k]);
      TakeNext(done, rs, k);
      done := done + [rs[k]];
    }
    assert done == rs;
  }

  method OutputNext(w: Writer, c: Captured, ghost head: seq<Byte>, ghost done: seq<Record>, ghost r: Record)
    requires Writable(c) && r == ToRecord(c) && AllEncodable(done) && w.out == head + EncodeRecords(done)
    modifies w
    ensures AllEncodable(done + [r]) && w.out == head + EncodeRecords(done + [r])
    ensures w.packets == old(w.packets) + 1
  {
    var written := w.Output(c);
    EncodeNext(head, done, r);
  }

  lemma TakeNext(done: seq<Record>, rs: seq<Record>, k: nat)
    requires k < |rs| && done == rs[..k]
    ensures done + [rs[k]] == rs[..k + 1]
  {
  }

  lemma EncodeNext(head: seq<Byte>, rs: seq<Record>, r: Record)
    requires AllEncodable(rs) && Encodable(r)
    ensures head + EncodeRecords(rs + [r]) == head + EncodeRecords(rs) + EncodeRecord(r)
  {
    EncodeAppend(rs, r);
    Associate(head, EncodeRecords(rs), EncodeRecord(r));
  }

  lemma Associate(x: seq<Byte>, y: seq<Byte>, z: seq<Byte>)
    ensures x + (y + z) == x + y + z
  {
  }

  /** A whole capture session; 147 is the first user link type. */
  method Capture(snaplen: Word, cs: seq<Captured>) returns (w: Writer)
    requires AllWritable(cs)
    ensures fresh(w) && w.packets == |cs|
    ensures w.out == FileHeader(snaplen, 147) + EncodeRecords(ToRecords(cs))
  {
    w := new Writer();
    w.WriteHeader(snaplen, 147);
    ghost var head := w.out;
    assert head == FileHeader(snaplen, 147);
    OutputAll(w, cs);
  }

  /**
   Round trip of a whole capture: the header's fields read back; past it the stream decodes to one
   record per event, in order, and each dissects into what the event's bytes say.
   */
  lemma CaptureRoundTrip(snaplen: Word, network: Word, cs: seq<Captured>)
    requires AllWritable(cs)
    ensures var stream := FileHeader(snaplen, network) + EncodeRecords(ToRecords(cs));
            && FromLE(stream[0..4]) == 0xa1b2_c3d4 && FromLE(stream[4..6]) == 2 && FromLE(stream[6..8]) == 4
            && WordsOf(stream[8..24]) == [0, 0, snaplen, network]
            && DecodeRecords(stream[24..]) == Some(ToRecords(cs))
    ensures forall k :: 0 <= k < |cs| ==> Tells(ToRecords(cs)[k], cs[k])
  {
    RecordsTell(cs);
    DecodeEncode(ToRecords(cs));
    HeaderFields(snaplen, network, EncodeRecords(ToRecords(cs)));
  }

  lemma RecordsTell(cs: seq<Captured>)
    requires AllWritable(cs)
    ensures forall k :: 0 <= k < |cs| ==> Tells(ToRecords(cs)[k], cs[k])
  {
    forall k | 0 <= k < |cs| ensures Tells(ToRecords(cs)[k], cs[k]) {
      RecordTells(cs[k]);
    }
  }

  lemma RecordTells(c: Captured)
    requires Writable(c)
    ensures Tells(ToRecord(c), c)
  {
    RecordMeaning(c);
  }

  lemma HeaderFields(snaplen: Word, network: Word, rest: seq<Byte>)
    ensures var s := FileHeader(snaplen, network) + rest;
            && FromLE(s[0..4]) == 0xa1b2_c3d4 && FromLE(s[4..6]) == 2 && FromLE(s[6..8]) == 4
            && WordsOf(s[8..24]) == [0, 0, snaplen, network]
            && s[24..] == rest
  {
    Layout(ToLE(MAGIC, 4), ToLE(2, 2), ToLE(4, 2), BytesOf([0, 0, snaplen, network]), rest);
    Number32(MAGIC);
    Pow256Values();
    FromToLE(2, 2);
    FromToLE(4, 2);
    WordsOfBytesOf([0, 0, snaplen, network]);
  }

  lemma Layout(a: seq<Byte>, b: seq<Byte>, c: seq<Byte>, d: seq<Byte>, rest: seq<Byte>)
    requires |a| == 4 && |b| == 2 && |c| == 2 && |d| == 16
    ensures var s := a + b + c + d + rest;
            s[0..4] == a && s[4..6] == b && s[6..8] == c && s[8..24] == d && s[24..] == rest
  {
  }

  // ---------------------------------------------------------------- the stream, byte by byte

  /** Byte strings one after the other, and how many bytes those before number k take. */
  function Joined(parts: seq<seq<Byte>>): seq<Byte>
  {
    if parts == [] then [] else parts[0] + Joined(parts[1..])
  }

  function PartStart(parts: seq<seq<Byte>>, k: nat): nat
    requires k <= |parts|
    decreases k
  {
    if k == 0 then 0 else |parts[0]| + PartStart(parts[1..], k - 1)
  }

  lemma SliceRight(a: seq<Byte>, b: seq<Byte>, p: nat, n: nat)
    requires p + n <= |b|
    ensures (a + b)[|a| + p..|a| + p + n] == b[p..p + n]
  {
  }

  lemma SliceLeft(a: seq<Byte>, b: seq<Byte>)
    ensures (a + b)[0..|a|] == a
  {
  }

  /** Each is found where those before it end. */
  lemma {:induction false} PartInPlace(parts: seq<seq<Byte>>, k: nat)
    requires k < |parts|
    ensures var p, n := PartStart(parts, k), |parts[k]|; p + n <= |Joined(parts)| && Joined(parts)[p..p + n] == parts[k]
    decreases k
  {
    var first, rest := parts[0], Joined(parts[1..]);
    if k == 0 {
      SliceLeft(first, rest);
    } else {
      PartInPlace(parts[1..], k - 1);
      SliceRight(first, rest, PartStart(parts[1..], k - 1), |parts[k]|);
    }
  }

  function Encodings(rs: seq<Record>): (parts: seq<seq<Byte>>)
    requires AllEncodable(rs)
    ensures |parts| == |rs|
  {
    seq(|rs|, k requires 0 <= k < |rs| => EncodeRecord(rs[k]))
  }

  lemma {:induction false} EncodingsJoined(rs: seq<Record>)
    requires AllEncodable(rs)
    ensures EncodeRecords(rs) == Joined(Encodings(rs))
    decreases |rs|
  {
    if rs != [] {
      EncodingsJoined(rs[1..]);
      assert Encodings(rs)[1..] == Encodings(rs[1..]);
    }
  }

  /** How many bytes the records before record k take. */
  function RecordStart(rs: seq<Record>, k: nat): nat
    requires k <= |rs|
    decreases k
  {
    if k == 0 then 0 else 16 + |rs[0].data| + RecordStart(rs[1..], k - 1)
  }

  lemma {:induction false} StartsAgree(rs: seq<Record>, k: nat)
    requires AllEncodable(rs) && k <= |rs|
    ensures PartStart(Encodings(rs), k) == RecordStart(rs, k)
    decreases k
  {
    if k > 0 {
      StartsAgree(rs[1..], k - 1);
      assert Encodings(rs)[1..] == Encodings(rs[1..]);
    }
  }

  /** The fields of a record found at p of a stream. */
  lemma FieldsInPlace(stream: seq<Byte>, p: nat, r: Record)
    requires Encodable(r) && p + 16 + |r.data| <= |stream| && stream[p..p + 16 + |r.data|] == EncodeRecord(r)
    ensures FromLE(stream[p..p + 4]) == r.sec && FromLE(stream[p + 4..p + 8]) == r.usec
    ensures FromLE(stream[p + 8..p + 12]) == |r.data| && FromLE(stream[p + 12..p + 16]) == r.origLen
    ensures stream[p + 16..p + 16 + |r.data|] == r.data
  {
    RecordLayout(r);
    SliceOfSlice(stream, p, 16 + |r.data|, 0, 4);
    SliceOfSlice(stream, p, 16 + |r.data|, 4, 8);
    SliceOfSlice(stream, p, 16 + |r.data|, 8, 12);
    SliceOfSlice(stream, p, 16 + |r.data|, 12, 16);
    SliceOfSlice(stream, p, 16 + |r.data|, 16, 16 + |r.data|);
  }

  lemma SliceOfSlice(s: seq<Byte>, p: nat, n: nat, i: nat, j: nat)
    requires p + n <= |s| && i <= j <= n
    ensures s[p..p + n][i..j] == s[p + i..p + j]
  {
    var a, b := s[p..p + n][i..j], s[p + i..p + j];
    forall x | 0 <= x < |a| ensures a[x] == b[x] {
      assert a[x] == s[p..p + n][i + x];
    }
  }

  lemma PartAfter(header: seq<Byte>, parts: seq<seq<Byte>>, k: nat, p: nat)
    requires k < |parts| && p == |header| + PartStart(parts, k)
    ensures p + |parts[k]| <= |header + Joined(parts)| && (header + Joined(parts))[p..p + |parts[k]|] == parts[k]
  {
    PartInPlace(parts, k);
    SliceRight(header, Joined(parts), PartStart(parts, k), |parts[k]|);
  }

  /** In a stream, record k stands where the header and the records before it end. */
  lemma RecordInPlace(header: seq<Byte>, rs: seq<Record>, k: nat, p: nat)
    requires AllEncodable(rs) && k < |rs| && p == |header| + RecordStart(rs, k)
    ensures p + 16 + |rs[k].data| <= |header + EncodeRecords(rs)|
    ensures (header + EncodeRecords(rs))[p..p + 16 + |rs[k].data|] == EncodeRecord(rs[k])
  {
    EncodingsJoined(rs);
    StartsAgree(rs, k);
    PartAfter(header, Encodings(rs), k, p);
  }

  /**
   The record of an event, found at p of a stream, in terms of the event's bytes: times, captured and
   original length, peer pid and pid widened and most significant byte first, and the captured bytes.
   */
  lemma RecordShows(stream: seq<Byte>, p: nat, c: Captured, r: Record)
    requires Writable(c) && r == ToRecord(c) && p + 16 + |r.data| <= |stream|
    requires stream[p..p + 16 + |r.data|] == EncodeRecord(r)
    ensures var e, n := c.event, Captured32(c.event);
            && p + 32 + n <= |stream|
            && FromLE(stream[p..p + 4]) == c.sec && FromLE(stream[p + 4..p + 8]) == c.usec
            && FromLE(stream[p + 8..p + 12]) == 16 + n && FromLE(stream[p + 12..p + 16]) == 16 + FromLE(e[8..12])
            && stream[p + 16..p + 32 + n]
               == [0, 0, 0, 0, e[7], e[6], e[5], e[4]] + [0, 0, 0, 0, e[3], e[2], e[1], e[0]] + e[140..140 + n]
  {
    FieldsInPlace(stream, p, r);
    RecordBytes(c);
    assert |r.data| == 16 + Captured32(c.event);
  }
}
