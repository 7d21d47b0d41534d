/** The capture log: the records udplog.py appends, and the reader of udp2nexus for them. */
module UdpLog {

  type Byte = b: int | 0 <= b < 256

  /** Datagrams are received into, and read back through, buffers of this size. */
  const DGRAM_MAX: nat := 2048

  const HEADER_BYTES: nat := 16

  datatype Record = Record(
    day: Byte, hour: Byte, minute: Byte, second: Byte, micro: nat, ip: seq<Byte>, data: seq<Byte>)

  predicate Loggable(r: Record) {
    r.micro < 0x1_0000_0000 && |r.ip| == 4 && |r.data| <= DGRAM_MAX
  }

  function ByteAt(n: nat, place: nat): Byte
    requires place > 0
  {
    var b: int := n / place % 0x100;
    b
  }

  /** A 32-bit value, least significant byte first. */
  function Le32(n: nat): (bs: seq<Byte>)
    requires n < 0x1_0000_0000
    ensures |bs| == 4
  {
    [ByteAt(n, 1), ByteAt(n, 0x100), ByteAt(n, 0x1_0000), ByteAt(n, 0x100_0000)]
  }

  function ReadLe32(bs: seq<Byte>): (n: nat)
    requires |bs| == 4
    ensures n < 0x1_0000_0000
  {
    var b0: int, b1: int, b2: int, b3: int := bs[0], bs[1], bs[2], bs[3];
    b0 + 0x100 * b1 + 0x1_0000 * b2 + 0x100_0000 * b3
  }

  lemma Le32RoundTrip(n: nat)
    requires n < 0x1_0000_0000
    ensures ReadLe32(Le32(n)) == n
  {
    assert n / 0x100 / 0x100 == n / 0x1_0000 && n / 0x1_0000 / 0x100 == n / 0x100_0000;
  }

  /** log_data: time stamp, microseconds in the byte order of the host, address, length, data. */
  function RecordBytes(r: Record): (bs: seq<Byte>)
    requires Loggable(r)
    ensures |bs| == HEADER_BYTES + |r.data|
  {
    [r.day, r.hour, r.minute, r.second] + Le32(r.micro) + r.ip + Le32(|r.data|) + r.data
  }

  /** The record byte by byte: sixteen bytes of header, both numbers with the least significant byte first. */
  lemma RecordLayout(r: Record)
    requires Loggable(r)
    ensures var bs := RecordBytes(r);
            && |bs| == 16 + |r.data| && |r.data| <= 2048 && |r.ip| == 4
            && bs[0] == r.day && bs[1] == r.hour && bs[2] == r.minute && bs[3] == r.second
            && bs[4] == r.micro % 0x100 && bs[5] == r.micro / 0x100 % 0x100
            && bs[6] == r.micro / 0x1_0000 % 0x100 && bs[7] == r.micro / 0x100_0000
            && bs[8..12] == r.ip
            && bs[12] == |r.data| % 0x100 && bs[13] == |r.data| / 0x100 && bs[14] == 0 && bs[15] == 0
            && bs[16..] == r.data
  {
  }

  predicate AllLoggable(rs: seq<Record>) { forall i :: 0 <= i < |rs| ==> Loggable(rs[i]) }

  function LogBytes(rs: seq<Record>): seq<Byte>
    requires AllLoggable(rs)
  {
    if rs == [] then [] else RecordBytes(rs[0]) + LogBytes(rs[1..])
  }

  /** The logger: a file that grows by whole records. */
  class Logger {
    var file: seq<Byte>

    constructor ()
      ensures file == []
    {
      file := [];
    }

    method LogData(r: Record)
      requires Loggable(r)
      modifies this
      ensures file == old(file) + RecordBytes(r)
    {
      file := file + [r.day, r.hour, r.minute, r.second] + Le32(r.micro);
      file := file + r.ip;
      file := file + Le32(|r.data|);
      file := file + r.data;
    }

    /** The receive loop: each datagram is cut to the receive buffer and logged. */
    method Receive(arriving: seq<Record>)
      requires forall i :: 0 <= i < |arriving| ==> arriving[i].micro < 0x1_0000_0000 && |arriving[i].ip| == 4
      modifies this
      ensures AllLoggable(Received(arriving)) && file == old(file) + LogBytes(Received(arriving))
      ensures forall i :: 0 <= i < |arriving| ==>
                var d := arriving[i].data;
                Received(arriving)[i].data == d[..if |d| < 2048 then |d| else 2048]
    {
      hide LogBytes, RecordBytes;
      ghost var rs: seq<Record> := [];
      LogNothing();
      for i := 0 to |arriving|
        invariant rs == Received(arriving)[..i]
        invariant AllLoggable(rs) && file == old(file) + LogBytes(rs)
      {
        var r := Cut(arriving[i]);
        LogData(r);
        LogAppend(rs, r);
        rs := rs + [r];
      }
      assert rs == Received(arriving);
    }
  }

  function Cut(r: Record): Record {
    if |r.data| > DGRAM_MAX then r.(data := r.data[..DGRAM_MAX]) else r
  }

  function Received(arriving: seq<Record>): seq<Record> {
    seq(|arriving|, i requires 0 <= i < |arriving| => Cut(arriving[i]))
  }

  lemma LogNothing()
    ensures LogBytes([]) == []
  {
  }

  lemma {:induction false} LogAppend(rs: seq<Record>, r: Record)
    requires AllLoggable(rs) && Loggable(r)
    ensures AllLoggable(rs + [r]) && LogBytes(rs + [r]) == LogBytes(rs) + RecordBytes(r)
  {
    hide RecordBytes, Loggable;
    if rs == [] {
      assert [] + [r] == [r];
      assert LogBytes([r]) == RecordBytes(r) + LogBytes([]);
    } else {
      assert (rs + [r])[1..] == rs[1..] + [r];
      LogAppend(rs[1..], r);
    }
  }

  // ---------------------------------------------------------------------------------------------
  // Reading
  // ---------------------------------------------------------------------------------------------

  /** How an attempt to read the next record ends. */
  datatype Outcome = Read(record: Record) | EndOfFile | PartialHeader | Oversize | PartialData

  function Header(bs: seq<Byte>, data: seq<Byte>): Record
    requires |bs| >= HEADER_BYTES
  {
    Record(bs[0], bs[1], bs[2], bs[3], ReadLe32(bs[4..8]), bs[8..12], data)
  }

  /** One call of the reader on what is left of the file. A rest of fewer than four bytes passes for the end. */
  function NextRecord(bs: seq<Byte>): (o: Outcome)
    ensures o.Read? ==> HEADER_BYTES + |o.record.data| <= |bs| && |o.record.data| <= DGRAM_MAX
  {
    if |bs| < 4 then EndOfFile
    else if |bs| < HEADER_BYTES then PartialHeader
    else
      var n := ReadLe32(bs[12..16]);
      if n > DGRAM_MAX then Oversize
      else if |bs| - HEADER_BYTES < n then PartialData
      else Read(Header(bs, bs[HEADER_BYTES..HEADER_BYTES + n]))
  }

  /** When the reader gets a record and why it stops, by the bytes that are left. */
  lemma ReaderCases(bs: seq<Byte>)
    ensures NextRecord(bs).EndOfFile? <==> |bs| < 4
    ensures NextRecord(bs).PartialHeader? <==> 4 <= |bs| < 16
    ensures |bs| >= 16 ==>
              var b0: int, b1: int, b2: int, b3: int := bs[12], bs[13], bs[14], bs[15];
              var n := b0 + 0x100 * b1 + 0x1_0000 * b2 + 0x100_0000 * b3;
              && (NextRecord(bs).Oversize? <==> n > 2048)
              && (NextRecord(bs).PartialData? <==> n <= 2048 && |bs| - 16 < n)
              && (NextRecord(bs).Read? <==> n <= 2048 && 16 + n <= |bs|)
              && (NextRecord(bs).Read? ==> NextRecord(bs).record.data == bs[16..16 + n])
  {
  }

  /** All records read before the reader stops, and why it stops. */
  function Parse(bs: seq<Byte>): (seq<Record>, Outcome)
    decreases |bs|
  {
    var o := NextRecord(bs);
    if o.Read? then
      var (rs, end) := Parse(bs[HEADER_BYTES + |o.record.data|..]);
      ([o.record] + rs, end)
    else ([], o)
  }

  lemma ReadsRecord(r: Record, rest: seq<Byte>)
    requires Loggable(r)
    ensures NextRecord(RecordBytes(r) + rest) == Read(r)
    ensures (RecordBytes(r) + rest)[HEADER_BYTES + |r.data|..] == rest
  {
    var bs := RecordBytes(r) + rest;
    Le32RoundTrip(r.micro);
    Le32RoundTrip(|r.data|);
    assert bs[4..8] == Le32(r.micro);
    assert bs[8..12] == r.ip;
    assert bs[12..16] == Le32(|r.data|);
    assert bs[HEADER_BYTES..HEADER_BYTES + |r.data|] == r.data;
  }

  /** The records of rs that lie wholly within the first k bytes of their log. */
  function WholeRecords(rs: seq<Record>, k: nat): (ws: seq<Record>)
    requires AllLoggable(rs)
    ensures AllLoggable(ws)
  {
    if rs == [] || k < HEADER_BYTES + |rs[0].data| then []
    else [rs[0]] + WholeRecords(rs[1..], k - HEADER_BYTES - |rs[0].data|)
  }

  /** They are the longest prefix of rs whose log fits. */
  lemma {:induction false} WholeRecordsFit(rs: seq<Record>, k: nat) returns (m: nat)
    requires AllLoggable(rs)
    ensures m <= |rs| && WholeRecords(rs, k) == rs[..m]
    ensures |LogBytes(rs[..m])| <= k
    ensures m < |rs| ==> k < |LogBytes(rs[..m + 1])|
  {
    hide RecordBytes, Loggable;
    if rs == [] || k < HEADER_BYTES + |rs[0].data| {
      m := 0;
      if rs != [] {
        assert rs[..1] == [rs[0]];
        assert LogBytes([rs[0]]) == RecordBytes(rs[0]) + LogBytes([]);
      }
    } else {
      var n := WholeRecordsFit(rs[1..], k - HEADER_BYTES - |rs[0].data|);
      m := n + 1;
      assert rs[..m][1..] == rs[1..][..n];
      if m < |rs| {
        assert rs[..m + 1][1..] == rs[1..][..n + 1];
      }
    }
  }

  /** What is left of a cut record decides how the reader stops. */
  function CutOutcome(left: nat): Outcome {
    if left < 4 then EndOfFile else if left < HEADER_BYTES then PartialHeader else PartialData
  }

  lemma ReadsCutRecord(r: Record, bs: seq<Byte>, k: nat)
    requires Loggable(r) && k < HEADER_BYTES + |r.data| && RecordBytes(r) <= bs
    ensures NextRecord(bs[..k]) == CutOutcome(k)
  {
    if k >= HEADER_BYTES {
      Le32RoundTrip(|r.data|);
      assert bs[..k][12..16] == RecordBytes(r)[12..16] == Le32(|r.data|);
    }
  }

  /** Reading any byte prefix of a log returns exactly the records that lie wholly in it. The reader then stops as if at
      the end of the file when fewer than four bytes are left over, and otherwise reports the cut record. */
  lemma {:induction false} ParseTruncated(rs: seq<Record>, k: nat)
    requires AllLoggable(rs) && k <= |LogBytes(rs)|
    ensures Parse(LogBytes(rs)[..k]).0 == WholeRecords(rs, k)
    ensures |LogBytes(WholeRecords(rs, k))| <= k
    ensures Parse(LogBytes(rs)[..k]).1 == CutOutcome(k - |LogBytes(WholeRecords(rs, k))|)
  {
    var bs := LogBytes(rs);
    if rs != [] {
      var r, rest := rs[0], LogBytes(rs[1..]);
      var n := HEADER_BYTES + |r.data|;
      if k < n {
        ReadsCutRecord(r, bs, k);
      } else {
        ParseTruncated(rs[1..], k - n);
        assert bs[..k] == RecordBytes(r) + rest[..k - n];
        ReadsRecord(r, rest[..k - n]);
        var whole := WholeRecords(rs[1..], k - n);
        assert ([r] + whole)[1..] == whole;
      }
    }
  }

  lemma {:induction false} AllWhole(rs: seq<Record>)
    requires AllLoggable(rs)
    ensures WholeRecords(rs, |LogBytes(rs)|) == rs
  {
    if rs != [] {
      AllWhole(rs[1..]);
    }
  }

  /** Round trip: reading what the logger wrote returns the records in order. */
  lemma ParseLog(rs: seq<Record>)
    requires AllLoggable(rs)
    ensures Parse(LogBytes(rs)) == (rs, EndOfFile)
  {
    AllWhole(rs);
    ParseTruncated(rs, |LogBytes(rs)|);
    assert LogBytes(rs)[..|LogBytes(rs)|] == LogBytes(rs);
  }
}
