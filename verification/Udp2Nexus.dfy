/** udp2nexus: cutting the datagrams of a log into binary files wherever the 16-bit sequence number jumps. */
module Udp2Nexus {
  import opened UdpLog

  const SEQ_MODULUS: nat := 0x1_0000
  const PREFIX_BYTES: nat := 6

  type Bytes = seq<Byte>

  /** A datagram that reaches its payload: two prefix words, the sequence number in bytes 4 and 5. */
  predicate Framed(d: Bytes) { |d| >= PREFIX_BYTES }

  predicate AllFramed(ds: seq<Bytes>) { forall i :: 0 <= i < |ds| ==> Framed(ds[i]) }

  function SeqNo(d: Bytes): (n: nat)
    requires Framed(d)
    ensures n < SEQ_MODULUS
  {
    var lo: int, hi: int := d[4], d[5];
    0x100 * hi + lo
  }

  function Payload(d: Bytes): Bytes
    requires Framed(d)
  {
    d[PREFIX_BYTES..]
  }

  /** Where number and payload lie: the low byte of the number comes first. */
  lemma DatagramLayout(d: Bytes, n: nat)
    requires |d| >= 6 && n < 0x1_0000 && d[4] == n % 0x100 && d[5] == n / 0x100
    ensures Framed(d) && SeqNo(d) == n && Payload(d) == d[6..]
  {
  }

  function NextSeqNo(n: nat): nat { (n + 1) % SEQ_MODULUS }

  /** The globals of the converter: expected sequence number, whether a file is open, and the files by number. */
  datatype Sink = Sink(expected: nat, open: bool, files: seq<Bytes>)

  const START: Sink := Sink(0xFFFF, false, [])

  predicate SinkOk(g: Sink) { g.expected < SEQ_MODULUS && (g.open ==> g.files != []) }

  function Extend(files: seq<Bytes>, p: Bytes): seq<Bytes>
    requires files != []
  {
    files[..|files| - 1] + [files[|files| - 1] + p]
  }

  /** What one datagram does: a jump closes the file and opens the next; the payload goes to the open file, if any. */
  function Feed(g: Sink, d: Bytes): (h: Sink)
    requires SinkOk(g) && Framed(d)
    ensures SinkOk(h)
  {
    var next := NextSeqNo(SeqNo(d));
    if SeqNo(d) != g.expected then Sink(next, true, g.files + [Payload(d)])
    else if g.open then Sink(next, true, Extend(g.files, Payload(d)))
    else Sink(next, false, g.files)
  }

  function FeedAll(g: Sink, ds: seq<Bytes>): (h: Sink)
    requires SinkOk(g) && AllFramed(ds)
    ensures SinkOk(h)
    decreases |ds|
  {
    if ds == [] then g else FeedAll(Feed(g, ds[0]), ds[1..])
  }

  // ---------------------------------------------------------------------------------------------
  // Reference: maximal runs
  // ---------------------------------------------------------------------------------------------

  /** How many leading datagrams carry the sequence numbers n, n + 1, ... */
  function RunLength(n: nat, ds: seq<Bytes>): (k: nat)
    requires AllFramed(ds)
    ensures k <= |ds|
    decreases |ds|
  {
    if ds == [] || SeqNo(ds[0]) != n then 0 else 1 + RunLength(NextSeqNo(n), ds[1..])
  }

  function FirstRun(ds: seq<Bytes>): (k: nat)
    requires AllFramed(ds) && ds != []
    ensures 0 < k <= |ds|
  {
    1 + RunLength(NextSeqNo(SeqNo(ds[0])), ds[1..])
  }

  /** The datagrams, cut at every jump of the sequence number. */
  function Runs(ds: seq<Bytes>): seq<seq<Bytes>>
    requires AllFramed(ds)
    decreases |ds|
  {
    if ds == [] then [] else [ds[..FirstRun(ds)]] + Runs(ds[FirstRun(ds)..])
  }

  function Payloads(ds: seq<Bytes>): Bytes
    requires AllFramed(ds)
  {
    if ds == [] then [] else Payload(ds[0]) + Payloads(ds[1..])
  }

  predicate AllRunsFramed(rs: seq<seq<Bytes>>) { forall i :: 0 <= i < |rs| ==> AllFramed(rs[i]) }

  function Contents(rs: seq<seq<Bytes>>): (fs: seq<Bytes>)
    requires AllRunsFramed(rs)
    ensures |fs| == |rs|
  {
    if rs == [] then [] else [Payloads(rs[0])] + Contents(rs[1..])
  }

  lemma {:induction false} RunsFramed(ds: seq<Bytes>)
    requires AllFramed(ds)
    ensures AllRunsFramed(Runs(ds))
    decreases |ds|
  {
    if ds != [] {
      RunsFramed(ds[FirstRun(ds)..]);
    }
  }

  lemma ExtendLaws(files: seq<Bytes>, p: Bytes, q: Bytes)
    ensures Extend(files + [p], q) == files + [p + q]
    ensures files != [] ==> Extend(files, []) == files
    ensures files != [] ==> Extend(Extend(files, p), q) == Extend(files, p + q)
  {
    if files != [] {
      var n := |files| - 1;
      assert files[n] + p + q == files[n] + (p + q);
      assert files[n] + [] == files[n];
      assert Extend(files, p)[..n] == files[..n];
    }
  }

  lemma PayloadsCons(d: Bytes, ds: seq<Bytes>)
    requires Framed(d) && AllFramed(ds)
    ensures AllFramed([d] + ds) && Payloads([d] + ds) == Payload(d) + Payloads(ds)
  {
    assert ([d] + ds)[1..] == ds;
  }

  /** The first file holds the payloads of the first run. */
  lemma ContentsCons(ds: seq<Bytes>)
    requires AllFramed(ds) && ds != []
    ensures var j := RunLength(NextSeqNo(SeqNo(ds[0])), ds[1..]);
            && AllRunsFramed(Runs(ds)) && AllRunsFramed(Runs(ds[1..][j..]))
            && Contents(Runs(ds)) == [Payload(ds[0]) + Payloads(ds[1..][..j])] + Contents(Runs(ds[1..][j..]))
  {
    hide Payload, SeqNo, Framed, RunLength, Contents, Payloads, NextSeqNo;
    var j := RunLength(NextSeqNo(SeqNo(ds[0])), ds[1..]);
    var first, rest := ds[..j + 1], ds[1..][j..];
    RunsFramed(ds);
    RunsFramed(rest);
    SliceCons(ds, j);
    PayloadsCons(ds[0], ds[1..][..j]);
    ContentsOfCons(first, Runs(rest));
  }

  lemma SliceCons<T>(ds: seq<T>, j: nat)
    requires j < |ds|
    ensures ds[..j + 1] == [ds[0]] + ds[1..][..j]
    ensures ds[j + 1..] == ds[1..][j..]
  {
  }

  lemma ContentsOfCons(r: seq<Bytes>, rs: seq<seq<Bytes>>)
    requires AllFramed(r) && AllRunsFramed(rs)
    ensures AllRunsFramed([r] + rs) && Contents([r] + rs) == [Payloads(r)] + Contents(rs)
  {
    assert ([r] + rs)[1..] == rs;
  }

  /** With a file open, the leading run extends it and every further run becomes a file of its own. */
  lemma {:induction false} FeedOpen(g: Sink, ds: seq<Bytes>)
    requires SinkOk(g) && g.open && AllFramed(ds)
    ensures AllRunsFramed(Runs(ds[RunLength(g.expected, ds)..]))
    ensures var k := RunLength(g.expected, ds);
            FeedAll(g, ds).files == Extend(g.files, Payloads(ds[..k])) + Contents(Runs(ds[k..]))
    decreases |ds|
  {
    hide Payload, SeqNo, Framed, Runs, Contents, Extend, NextSeqNo, AllRunsFramed;
    var k := RunLength(g.expected, ds);
    RunsFramed(ds[k..]);
    if ds == [] {
      NoRuns();
      ExtendLaws(g.files, [], []);
      assert ds[..k] == ds && ds[k..] == ds;
    } else {
      var d, rest := ds[0], ds[1..];
      var h := Feed(g, d);
      FeedOpen(h, rest);
      var j := RunLength(h.expected, rest);
      if SeqNo(d) == g.expected {
        FeedRun(g, ds);
      } else {
        ContentsCons(ds);
        ExtendLaws(g.files, Payload(d), Payloads(rest[..j]));
        assert ds[k..] == ds && ds[..k] == [];
        JoinFiles(g.files, [Payload(d) + Payloads(rest[..j])], Contents(Runs(rest[j..])));
      }
    }
  }

  lemma JoinFiles(a: seq<Bytes>, b: seq<Bytes>, c: seq<Bytes>)
    ensures a + b + c == a + (b + c)
  {
  }

  lemma NoRuns()
    ensures Runs([]) == [] && Contents([]) == []
  {
  }

  lemma FeedRun(g: Sink, ds: seq<Bytes>)
    requires SinkOk(g) && g.open && AllFramed(ds) && ds != [] && SeqNo(ds[0]) == g.expected
    ensures var h := Feed(g, ds[0]);
            var j, k := RunLength(h.expected, ds[1..]), RunLength(g.expected, ds);
            && ds[k..] == ds[1..][j..]
            && Extend(h.files, Payloads(ds[1..][..j])) == Extend(g.files, Payloads(ds[..k]))
  {
    hide Payload, SeqNo, Framed;
    var h := Feed(g, ds[0]);
    var j := RunLength(h.expected, ds[1..]);
    ExtendLaws(g.files, Payload(ds[0]), Payloads(ds[1..][..j]));
    PayloadsCons(ds[0], ds[1..][..j]);
    assert ds[..j + 1] == [ds[0]] + ds[1..][..j];
  }

  /** Before the first jump no file is open: a leading run that starts with the expected number is dropped. */
  lemma {:induction false} FeedClosed(g: Sink, ds: seq<Bytes>)
    requires SinkOk(g) && !g.open && g.files == [] && AllFramed(ds)
    ensures AllRunsFramed(Runs(ds[RunLength(g.expected, ds)..]))
    ensures FeedAll(g, ds).files == Contents(Runs(ds[RunLength(g.expected, ds)..]))
    decreases |ds|
  {
    hide Payload, SeqNo, Framed, Runs, Contents, Extend, NextSeqNo, AllRunsFramed;
    var k := RunLength(g.expected, ds);
    RunsFramed(ds[k..]);
    if ds == [] {
      NoRuns();
      assert ds[k..] == [];
    } else {
      var d, rest := ds[0], ds[1..];
      var h := Feed(g, d);
      if SeqNo(d) == g.expected {
        FeedClosed(h, rest);
        SliceCons(ds, k - 1);
      } else {
        FeedOpen(h, rest);
        var j := RunLength(h.expected, rest);
        ContentsCons(ds);
        ExtendLaws([], Payload(d), Payloads(rest[..j]));
        assert ds[k..] == ds && [] + [Payload(d)] == [Payload(d)];
      }
    }
  }

  // ---------------------------------------------------------------------------------------------
  // Segmentation is maximal, unique and lossless
  // ---------------------------------------------------------------------------------------------

  function Join<T>(rs: seq<seq<T>>): seq<T> {
    if rs == [] then [] else rs[0] + Join(rs[1..])
  }

  predicate Consecutive(run: seq<Bytes>)
    requires AllFramed(run)
  {
    forall i :: 0 < i < |run| ==> SeqNo(run[i]) == NextSeqNo(SeqNo(run[i - 1]))
  }

  /** ds cut into non-empty pieces, consecutive inside and with a jump at every cut. */
  ghost predicate IsSegmentation(rs: seq<seq<Bytes>>, ds: seq<Bytes>)
    requires AllFramed(ds)
  {
    && AllRunsFramed(rs)
    && Join(rs) == ds
    && (forall i :: 0 <= i < |rs| ==> rs[i] != [] && Consecutive(rs[i]))
    && (forall i :: 0 < i < |rs| ==> SeqNo(rs[i][0]) != NextSeqNo(SeqNo(rs[i - 1][|rs[i - 1]| - 1])))
  }

  /** k is the length of the leading run that continues after number n - 1. */
  predicate LeadingRun(n: nat, ds: seq<Bytes>, k: nat)
    requires AllFramed(ds) && k <= |ds|
  {
    && Consecutive(ds[..k])
    && (k > 0 ==> SeqNo(ds[0]) == n)
    && (k < |ds| ==> SeqNo(ds[k]) != if k == 0 then n else NextSeqNo(SeqNo(ds[k - 1])))
  }

  lemma {:induction false} RunLengthLeads(n: nat, ds: seq<Bytes>)
    requires AllFramed(ds)
    ensures LeadingRun(n, ds, RunLength(n, ds))
    decreases |ds|
  {
    hide SeqNo, Framed, NextSeqNo;
    if ds != [] && SeqNo(ds[0]) == n {
      RunLengthLeads(NextSeqNo(n), ds[1..]);
      var j := RunLength(NextSeqNo(n), ds[1..]);
      var run, rest := ds[..j + 1], ds[1..][..j];
      forall i | 0 < i < |run|
        ensures SeqNo(run[i]) == NextSeqNo(SeqNo(run[i - 1]))
      {
        if i > 1 {
          assert run[i] == rest[i - 1] && run[i - 1] == rest[i - 2];
        }
      }
    }
  }

  lemma {:induction false} LeadingRunUnique(n: nat, ds: seq<Bytes>, k: nat)
    requires AllFramed(ds) && k <= |ds| && LeadingRun(n, ds, k)
    ensures RunLength(n, ds) == k
    decreases |ds|
  {
    hide SeqNo, Framed, NextSeqNo;
    if k > 0 {
      var run, rest := ds[..k], ds[1..][..k - 1];
      forall i | 0 < i < |rest|
        ensures SeqNo(rest[i]) == NextSeqNo(SeqNo(rest[i - 1]))
      {
        assert rest[i] == run[i + 1] && rest[i - 1] == run[i];
      }
      assert k > 1 ==> SeqNo(run[1]) == NextSeqNo(SeqNo(run[0]));
      LeadingRunUnique(NextSeqNo(n), ds[1..], k - 1);
    }
  }

  lemma FirstRunLeads(ds: seq<Bytes>)
    requires AllFramed(ds) && ds != []
    ensures LeadingRun(SeqNo(ds[0]), ds, FirstRun(ds))
  {
    RunLengthLeads(SeqNo(ds[0]), ds);
    hide SeqNo, Framed, NextSeqNo, LeadingRun;
  }

  /** The files are cut exactly at the jumps. */
  lemma {:induction false} RunsSegment(ds: seq<Bytes>)
    requires AllFramed(ds)
    ensures IsSegmentation(Runs(ds), ds)
    decreases |ds|
  {
    hide SeqNo, Framed, NextSeqNo, RunLength;
    RunsFramed(ds);
    if ds != [] {
      var n := FirstRun(ds);
      FirstRunLeads(ds);
      RunsSegment(ds[n..]);
      var tail := Runs(ds[n..]);
      assert Runs(ds)[1..] == tail;
      assert ds[..n] + ds[n..] == ds;
      if tail != [] {
        assert ds[n..] != [];
        assert tail[0][0] == ds[n];
      }
    }
  }

  /** Any way of cutting at the jumps only, and at all of them, is this one. */
  lemma {:induction false} SegmentationUnique(rs: seq<seq<Bytes>>, ds: seq<Bytes>)
    requires AllFramed(ds) && IsSegmentation(rs, ds)
    ensures rs == Runs(ds)
    decreases |rs|
  {
    hide SeqNo, Framed, NextSeqNo, RunLength;
    if rs != [] {
      var n, rest := |rs[0]|, Join(rs[1..]);
      assert ds == rs[0] + rest && ds[..n] == rs[0] && ds[n..] == rest;
      if |rs| > 1 {
        assert Join(rs[1..]) == rs[1] + Join(rs[1..][1..]);
        assert ds[n] == rs[1][0];
      }
      assert LeadingRun(SeqNo(ds[0]), ds, n);
      LeadingRunUnique(SeqNo(ds[0]), ds, n);
      RunIsFirst(ds);
      SegmentationUnique(rs[1..], rest);
      assert rs == [rs[0]] + rs[1..];
    }
  }

  lemma RunIsFirst(ds: seq<Bytes>)
    requires AllFramed(ds) && ds != []
    ensures RunLength(SeqNo(ds[0]), ds) == FirstRun(ds)
  {
  }

  /** One file more than there are jumps. */
  function Jumps(ds: seq<Bytes>): nat
    requires AllFramed(ds)
  {
    if |ds| < 2 then 0
    else (if SeqNo(ds[1]) == NextSeqNo(SeqNo(ds[0])) then 0 else 1) + Jumps(ds[1..])
  }

  lemma {:induction false} RunCount(ds: seq<Bytes>)
    requires AllFramed(ds) && ds != []
    ensures |Runs(ds)| == 1 + Jumps(ds)
    decreases |ds|
  {
    hide SeqNo, Framed, NextSeqNo, Payload;
    var j := RunLength(NextSeqNo(SeqNo(ds[0])), ds[1..]);
    SliceCons(ds, j);
    if |ds| > 1 {
      RunCount(ds[1..]);
      if j > 0 {
        SliceCons(ds[1..], j - 1);
        assert ds[1..][j..] == ds[1..][1..][j - 1..];
      }
    } else {
      assert Runs(ds)[1..] == Runs([]);
    }
  }

  lemma {:induction false} ContentsJoin(rs: seq<seq<Bytes>>)
    requires AllRunsFramed(rs)
    ensures AllFramed(Join(rs)) && Join(Contents(rs)) == Payloads(Join(rs))
  {
    hide Framed, Payload;
    if rs != [] {
      ContentsJoin(rs[1..]);
      PayloadsAppend(rs[0], Join(rs[1..]));
      assert Contents(rs)[1..] == Contents(rs[1..]);
    }
  }

  lemma {:induction false} PayloadsAppend(a: seq<Bytes>, b: seq<Bytes>)
    requires AllFramed(a) && AllFramed(b)
    ensures AllFramed(a + b) && Payloads(a + b) == Payloads(a) + Payloads(b)
  {
    hide Framed, Payload;
    if a == [] {
      assert a + b == b;
    } else {
      assert (a + b)[1..] == a[1..] + b;
      PayloadsAppend(a[1..], b);
    }
  }

  /** The converter writes the contents of the maximal runs, one file each, in order; the payloads are lost exactly of a
      leading run that begins at sequence number 0xFFFF. */
  lemma FilesAreRuns(ds: seq<Bytes>)
    requires AllFramed(ds)
    ensures var k := RunLength(0xFFFF, ds);
            && AllRunsFramed(Runs(ds[k..]))
            && FeedAll(START, ds).files == Contents(Runs(ds[k..]))
            && Join(FeedAll(START, ds).files) == Payloads(ds[k..])
            && (Join(FeedAll(START, ds).files) == Payloads(ds) <==> Payloads(ds[..k]) == [])
  {
    hide Payloads, Contents, Runs, FeedAll;
    var k := RunLength(0xFFFF, ds);
    FeedClosed(START, ds);
    RunsSegment(ds[k..]);
    ContentsJoin(Runs(ds[k..]));
    PayloadsAppend(ds[..k], ds[k..]);
    assert ds[..k] + ds[k..] == ds;
    if Payloads(ds[k..]) == Payloads(ds) {
      assert |Payloads(ds[..k])| == 0;
    } else {
      assert Payloads(ds[..k]) != [] by {
        assert [] + Payloads(ds[k..]) == Payloads(ds[k..]);
      }
    }
  }

  /** The log begins with the number that the converter expects before it has opened a file. */
  predicate Drops(ds: seq<Bytes>)
    requires AllFramed(ds)
  {
    ds != [] && SeqNo(ds[0]) == 0xFFFF
  }

  /** The runs that reach a file. */
  function Written(ds: seq<Bytes>): seq<seq<Bytes>>
    requires AllFramed(ds)
  {
    if Drops(ds) then Runs(ds[FirstRun(ds)..]) else Runs(ds)
  }

  /** The leading run that continues from the initial expectation is the first run, or none. */
  lemma DroppedLength(ds: seq<Bytes>)
    requires AllFramed(ds)
    ensures RunLength(0xFFFF, ds) == if Drops(ds) then FirstRun(ds) else 0
  {
    if Drops(ds) {
      RunIsFirst(ds);
    }
  }

  /** Segmentation is maximal for every log, and lossless exactly if no payload comes in a leading run that begins at
      0xFFFF. There is one file more than there are jumps, unless such a run is dropped. */
  lemma Segmentation(ds: seq<Bytes>)
    requires AllFramed(ds)
    ensures IsSegmentation(Runs(ds), ds)
    ensures AllRunsFramed(Written(ds)) && FeedAll(START, ds).files == Contents(Written(ds))
    ensures ds != [] ==> |FeedAll(START, ds).files| == Jumps(ds) + if Drops(ds) then 0 else 1
    ensures Join(FeedAll(START, ds).files) == Payloads(ds) <==> (Drops(ds) ==> Payloads(ds[..FirstRun(ds)]) == [])
  {
    hide Payloads, Contents, FeedAll, FirstRun, RunLength, SeqNo, Framed;
    FilesAreRuns(ds);
    DroppedLength(ds);
    RunsSegment(ds);
    if ds != [] {
      RunCount(ds);
    }
    assert ds[0..] == ds;
    assert Payloads(ds[..0]) == [] by { PayloadsOfNone(); }
  }

  lemma PayloadsOfNone()
    ensures Payloads([]) == []
  {
  }

  /** Payloads are joined in log order, from byte 6 on. */
  lemma PayloadsSnoc(ds: seq<Bytes>, d: Bytes)
    requires AllFramed(ds) && |d| >= 6
    ensures AllFramed(ds + [d]) && Payloads(ds + [d]) == Payloads(ds) + d[6..]
  {
    PayloadsAppend(ds, [d]);
    assert Payloads([d]) == Payload(d) + Payloads([]);
  }

  /** File g holds the payloads of piece g. */
  lemma {:induction false} ContentsAt(rs: seq<seq<Bytes>>, g: nat)
    requires AllRunsFramed(rs) && g < |rs|
    ensures Contents(rs)[g] == Payloads(rs[g])
  {
    if g > 0 {
      ContentsAt(rs[1..], g - 1);
    }
  }

  /** Numbers 0x01FF and 0x0200 are consecutive, 0x0200 and 0x0300 are not. */
  lemma HighByteLast(x: Byte, y: Byte, z: Byte)
    ensures var d, e, f := [0, 0, 0, 0, 0xFF, 0x01, x], [0, 0, 0, 0, 0x00, 0x02, y], [0, 0, 0, 0, 0x00, 0x03, z];
            && Fits([d, e, f])
            && TakeAll(Machine(START, seq(DGRAM_MAX, _ => 0), false), [d, e, f]).sink.files == [[x, y], [z]]
  {
    var d: Bytes, e: Bytes := [0, 0, 0, 0, 0xFF, 0x01, x], [0, 0, 0, 0, 0x00, 0x02, y];
    var f: Bytes := [0, 0, 0, 0, 0x00, 0x03, z];
    assert Payload(d) == [x] && Payload(e) == [y] && Payload(f) == [z];
    assert SeqNo(d) == 0x1FF && SeqNo(e) == 0x200 && SeqNo(f) == 0x300;
    FramedTakes(Machine(START, seq(DGRAM_MAX, _ => 0), false), [d, e, f]);
    var g1 := Feed(START, d);
    assert g1 == Sink(0x200, true, [[x]]);
    var g2 := Feed(g1, e);
    assert g2.files == [[x] + [y]] && [x] + [y] == [x, y];
    var g3 := Feed(g2, f);
    assert FeedAll(START, [d, e, f]) == FeedAll(g1, [e, f]) by { assert [d, e, f][1..] == [e, f]; }
    assert FeedAll(g1, [e, f]) == FeedAll(g2, [f]) by { assert [e, f][1..] == [f]; }
    assert FeedAll(g2, [f]) == g3 by { assert [f][1..] == []; }
  }

  /** A capture whose only datagram is number 0xFFFF is lost altogether. */
  lemma FirstRunDropped(b: Byte)
    ensures var d := [0, 0, 0, 0, 0xFF, 0xFF, b];
            Framed(d) && Payloads([d]) == [b] && FeedAll(START, [d]).files == []
  {
    var d: Bytes := [0, 0, 0, 0, 0xFF, 0xFF, b];
    assert Payload(d) == [b];
    assert Payloads([d]) == Payload(d) + Payloads([]);
    assert FeedAll(START, [d]) == FeedAll(Feed(START, d), []);
  }

  // ---------------------------------------------------------------------------------------------
  // Datagrams too short for a payload
  // ---------------------------------------------------------------------------------------------

  predicate Fits(ds: seq<Bytes>) { forall i :: 0 <= i < |ds| ==> |ds[i]| <= DGRAM_MAX }

  /** The shared buffer with a datagram read into it: behind a shorter one shows what it held before. */
  function Fill(buffer: Bytes, d: Bytes): (b: Bytes)
    requires |d| <= |buffer|
    ensures |b| == |buffer|
  {
    d + buffer[|d|..]
  }

  /** The converter with its buffer. An overrun is a write of a length below zero; after it the source means nothing. */
  datatype Machine = Machine(sink: Sink, buffer: Bytes, overrun: bool)

  predicate MachineOk(m: Machine) { SinkOk(m.sink) && |m.buffer| == DGRAM_MAX }

  /** What one datagram of any length does. */
  function Take(m: Machine, d: Bytes): (n: Machine)
    requires MachineOk(m) && |d| <= DGRAM_MAX
    ensures MachineOk(n)
  {
    var buffer := Fill(m.buffer, d);
    var n := SeqNo(buffer);
    if Framed(d) then Machine(Feed(m.sink, d), buffer, false)
    else if n != m.sink.expected || m.sink.open then Machine(m.sink, buffer, true)
    else Machine(Sink(NextSeqNo(n), false, m.sink.files), buffer, false)
  }

  function TakeAll(m: Machine, ds: seq<Bytes>): (n: Machine)
    requires MachineOk(m) && Fits(ds)
    ensures MachineOk(n)
    decreases |ds|
  {
    if ds == [] || m.overrun then m else TakeAll(Take(m, ds[0]), ds[1..])
  }

  lemma FillKeepsNumber(buffer: Bytes, d: Bytes)
    requires |d| <= |buffer| == DGRAM_MAX && Framed(d)
    ensures SeqNo(Fill(buffer, d)) == SeqNo(d)
  {
  }

  /** On datagrams with a payload the buffer does not matter. */
  lemma {:induction false} FramedTakes(m: Machine, ds: seq<Bytes>)
    requires MachineOk(m) && Fits(ds) && AllFramed(ds) && !m.overrun
    ensures !TakeAll(m, ds).overrun && TakeAll(m, ds).sink == FeedAll(m.sink, ds)
    decreases |ds|
  {
    hide Feed, Fill, Framed;
    if ds != [] {
      FramedTakes(Take(m, ds[0]), ds[1..]);
    }
  }

  /** With a file open every datagram without a payload overruns. */
  lemma {:induction false} OpenOverruns(m: Machine, ds: seq<Bytes>)
    requires MachineOk(m) && Fits(ds) && !m.overrun && m.sink.open
    ensures TakeAll(m, ds).overrun <==> !AllFramed(ds)
    decreases |ds|
  {
    if ds != [] {
      assert AllFramed(ds) <==> Framed(ds[0]) && AllFramed(ds[1..]) by { AllFramedCons(ds); }
      if Framed(ds[0]) {
        OpenOverruns(Take(m, ds[0]), ds[1..]);
      }
    }
  }

  lemma AllFramedCons(ds: seq<Bytes>)
    requires ds != []
    ensures AllFramed(ds) <==> Framed(ds[0]) && AllFramed(ds[1..])
  {
    var tail := ds[1..];
    assert forall i :: 0 < i < |ds| ==> ds[i] == tail[i - 1];
    assert forall i :: 0 <= i < |tail| ==> tail[i] == ds[i + 1];
  }

  /** How many leading datagrams leave the numbers n, n + 1, ... in the buffer. */
  function LeadLength(n: nat, buffer: Bytes, ds: seq<Bytes>): (k: nat)
    requires |buffer| == DGRAM_MAX && Fits(ds)
    ensures k <= |ds|
    decreases |ds|
  {
    if ds == [] || SeqNo(Fill(buffer, ds[0])) != n then 0
    else 1 + LeadLength(NextSeqNo(n), Fill(buffer, ds[0]), ds[1..])
  }

  /** Before the first file is open the leading run is dropped, and only behind it can a datagram overrun. */
  lemma {:induction false} ClosedOverruns(m: Machine, ds: seq<Bytes>)
    requires MachineOk(m) && Fits(ds) && !m.overrun && !m.sink.open && m.sink.files == []
    ensures var rest := ds[LeadLength(m.sink.expected, m.buffer, ds)..];
            && (TakeAll(m, ds).overrun <==> !AllFramed(rest))
            && (AllFramed(rest) ==> AllRunsFramed(Runs(rest)) && TakeAll(m, ds).sink.files == Contents(Runs(rest)))
    decreases |ds|
  {
    hide SeqNo, Framed, Fill, Runs, Contents, NextSeqNo, Payload;
    var k := LeadLength(m.sink.expected, m.buffer, ds);
    if ds == [] {
      NoRuns();
      assert ds[k..] == [];
    } else if k > 0 {
      LeadTake(m, ds[0]);
      ClosedOverruns(Take(m, ds[0]), ds[1..]);
      assert ds[k..] == ds[1..][k - 1..];
    } else {
      assert ds[k..] == ds;
      AllFramedCons(ds);
      if Framed(ds[0]) {
        JumpTake(m, ds[0]);
        OpenOverruns(Take(m, ds[0]), ds[1..]);
        if AllFramed(ds) {
          FramedTakes(m, ds);
          FeedClosed(m.sink, ds);
          assert ds[RunLength(m.sink.expected, ds)..] == ds;
        }
      }
    }
  }

  lemma LeadTake(m: Machine, d: Bytes)
    requires MachineOk(m) && |d| <= DGRAM_MAX && !m.sink.open && m.sink.files == []
    requires SeqNo(Fill(m.buffer, d)) == m.sink.expected
    ensures Take(m, d)
            == Machine(Sink(NextSeqNo(m.sink.expected), false, []), Fill(m.buffer, d), false)
  {
    if Framed(d) {
      FillKeepsNumber(m.buffer, d);
    }
  }

  lemma JumpTake(m: Machine, d: Bytes)
    requires MachineOk(m) && |d| <= DGRAM_MAX && Framed(d) && SeqNo(Fill(m.buffer, d)) != m.sink.expected
    ensures SeqNo(d) != m.sink.expected && Take(m, d).sink.open && !Take(m, d).overrun
  {
    FillKeepsNumber(m.buffer, d);
  }

  /** For every log, and whatever the buffer holds at first: the converter overruns exactly if a datagram shorter than
      six bytes comes behind the leading run that begins at 0xFFFF; otherwise its files are the runs behind that run. */
  lemma OverrunExactly(buffer: Bytes, ds: seq<Bytes>)
    requires |buffer| == DGRAM_MAX && Fits(ds)
    ensures var rest, end := ds[LeadLength(0xFFFF, buffer, ds)..], TakeAll(Machine(START, buffer, false), ds);
            && (end.overrun <==> !AllFramed(rest))
            && (!end.overrun ==> AllRunsFramed(Runs(rest)) && end.sink.files == Contents(Runs(rest)))
  {
    ClosedOverruns(Machine(START, buffer, false), ds);
  }

  // ---------------------------------------------------------------------------------------------
  // The program
  // ---------------------------------------------------------------------------------------------

  function Datagrams(rs: seq<Record>): seq<Bytes> {
    if rs == [] then [] else [rs[0].data] + Datagrams(rs[1..])
  }

  class Converter {
    const buffer: array<Byte>
    var seqnoExp: nat
    var streamOpen: bool
    var fileCount: nat
    var files: seq<Bytes>

    // The log file and the read position in it.
    var input: Bytes
    var pos: nat

    ghost predicate Valid()
      reads this
    {
      && buffer.Length == DGRAM_MAX && pos <= |input|
      && fileCount == |files| && SinkOk(State())
    }

    ghost function State(): Sink
      reads this
    {
      Sink(seqnoExp, streamOpen, files)
    }

    constructor (buffer: array<Byte>)
      requires buffer.Length == DGRAM_MAX
      ensures Valid() && this.buffer == buffer && files == []
    {
      this.buffer := buffer;
      seqnoExp := 0xFFFF;
      streamOpen := false;
      fileCount := 0;
      files := [];
      input := [];
      pos := 0;
    }

    /** fread of one 32-bit item: a shorter rest is consumed without yielding an item. */
    method ReadItem() returns (cnt: nat, item: seq<Byte>)
      requires Valid()
      modifies this`pos
      ensures Valid() && |item| == 4
      ensures cnt == if |input| - old(pos) >= 4 then 1 else 0
      ensures cnt == 1 ==> pos == old(pos) + 4 && item == input[old(pos)..pos]
      ensures cnt == 0 ==> pos == |input|
    {
      if |input| - pos >= 4 {
        item := input[pos..pos + 4];
        pos := pos + 4;
        cnt := 1;
      } else {
        item := [0, 0, 0, 0];
        pos := |input|;
        cnt := 0;
      }
    }

    /** fread of n bytes into the buffer. */
    method ReadData(n: nat) returns (cnt: nat)
      requires Valid() && n <= DGRAM_MAX
      modifies this`pos, buffer
      ensures Valid()
      ensures cnt == if |input| - old(pos) >= n then n else |input| - old(pos)
      ensures pos == old(pos) + cnt && buffer[..cnt] == input[old(pos)..pos]
      ensures buffer[cnt..] == old(buffer[cnt..])
    {
      cnt := if |input| - pos >= n then n else |input| - pos;
      for i := 0 to cnt
        invariant pos == old(pos)
        invariant forall k :: 0 <= k < i ==> buffer[k] == input[pos + k]
        invariant forall k :: i <= k < DGRAM_MAX ==> buffer[k] == old(buffer[k])
      {
        buffer[i] := input[pos + i];
      }
      pos := pos + cnt;
    }

    ghost function Snapshot(): Machine
      reads this, buffer
    {
      Machine(State(), buffer[..], false)
    }

    /** next_entry from the sequence number on. */
    method Dump(n: nat) returns (overrun: bool)
      requires Valid() && n <= DGRAM_MAX
      modifies this`seqnoExp, this`streamOpen, this`fileCount, this`files
      ensures Valid()
      ensures overrun <==> n < PREFIX_BYTES && (old(streamOpen) || SeqNo(buffer[..]) != old(seqnoExp))
      ensures n >= PREFIX_BYTES ==> State() == Feed(old(State()), buffer[..n])
      ensures n < PREFIX_BYTES && !overrun ==> State() == Sink(NextSeqNo(SeqNo(buffer[..])), false, old(files))
    {
      var lo: int, hi: int := buffer[4], buffer[5];
      var seqno := hi * 0x100 + lo;
      if seqno != seqnoExp {
        streamOpen := false;
        fileCount := fileCount + 1;
        files := files + [[]];
        streamOpen := true;
      }
      seqnoExp := (seqno + 1) % SEQ_MODULUS;
      if streamOpen {
        if n < PREFIX_BYTES {
          return true;
        }
        var last := fileCount - 1;
        files := files[last := files[last] + buffer[PREFIX_BYTES..n]];
      }
      overrun := false;
      if n >= PREFIX_BYTES {
        assert buffer[..n][PREFIX_BYTES..] == buffer[PREFIX_BYTES..n];
        if old(streamOpen) || seqno != old(seqnoExp) {
          assert [] + buffer[PREFIX_BYTES..n] == buffer[PREFIX_BYTES..n];
        }
      }
    }

    /** The header items of next_entry: how many could be read, and the length field if all four were. */
    method ReadHeader() returns (cnt: nat, dgramlen: nat)
      requires Valid()
      modifies this`pos
      ensures Valid()
      ensures var rest := old(input[pos..]);
              && (cnt == 0 <==> |rest| < 4) && (cnt == 4 <==> |rest| >= HEADER_BYTES) && cnt <= 4
              && (cnt == 4 ==> pos == old(pos) + HEADER_BYTES && dgramlen == ReadLe32(rest[12..16]))
    {
      hide ReadLe32;
      ghost var rest := input[pos..];
      var stamp;
      dgramlen := 0;
      cnt, stamp := ReadItem();
      if cnt == 0 {
        return;
      }
      var c1, micro := ReadItem();
      var c2, ip := ReadItem();
      var c3, len := ReadItem();
      cnt := cnt + c1 + c2 + c3;
      if cnt == 4 {
        assert len == rest[12..16];
        dgramlen := ReadLe32(len);
      }
    }

    /** next_entry: read one record and act on its datagram; 1 when there may be more, 0 at the end, -1 on an error. */
    method NextEntry() returns (rc: int, overrun: bool)
      requires Valid()
      modifies this`pos, this`seqnoExp, this`streamOpen, this`fileCount, this`files, buffer
      ensures Valid()
      ensures var o := NextRecord(old(input[pos..]));
              if o.Read? then
                var m := Take(old(Snapshot()), o.record.data);
                && rc == 1 && pos == old(pos) + HEADER_BYTES + |o.record.data|
                && overrun == m.overrun && (!overrun ==> Snapshot() == m)
              else
                && rc == (if o.EndOfFile? then 0 else -1)
                && !overrun && State() == old(State())
    {
      hide Feed, ReadLe32;
      ghost var rest, was := input[pos..], buffer[..];
      overrun := false;
      var cnt, dgramlen := ReadHeader();
      if cnt == 0 {
        return 0, overrun;
      }
      if cnt < 4 {
        return -1, overrun;
      }
      if dgramlen > DGRAM_MAX {
        return -1, overrun;
      }
      cnt := ReadData(dgramlen);
      if cnt < dgramlen {
        return -1, overrun;
      }
      ghost var d := rest[HEADER_BYTES..HEADER_BYTES + dgramlen];
      assert buffer[..dgramlen] == d;
      assert buffer[..] == Fill(was, d);
      overrun := Dump(dgramlen);
      rc := 1;
    }

    /** parse_file: for any log the files are those of its datagrams, taken one by one, unless one of them overruns. */
    method ParseFile(log: Bytes) returns (overrun: bool)
      requires Valid()
      modifies this, buffer
      ensures Valid() && Fits(Datagrams(Parse(log).0))
      ensures var m := TakeAll(Machine(START, old(buffer[..]), false), Datagrams(Parse(log).0));
              overrun == m.overrun && (!overrun ==> files == m.sink.files)
      ensures AllFramed(Datagrams(Parse(log).0)) ==>
                !overrun && files == FeedAll(START, Datagrams(Parse(log).0)).files
    {
      hide Take, NextRecord, Parse, Fits, FeedAll, AllFramed;
      seqnoExp := 0xFFFF;
      streamOpen := false;
      fileCount := 0;
      files := [];
      input := log;
      pos := 0;
      assert input[0..] == log;
      ParseFits(log);
      ghost var end := TakeAll(Snapshot(), Datagrams(Parse(log).0));
      if AllFramed(Datagrams(Parse(log).0)) {
        FramedTakes(Snapshot(), Datagrams(Parse(log).0));
      }
      var rc := 1;
      overrun := false;
      while rc > 0
        invariant Valid() && input == log && (overrun ==> rc <= 0)
        invariant rc > 0 ==>
                    && Fits(Datagrams(Parse(input[pos..]).0))
                    && end == TakeAll(Snapshot(), Datagrams(Parse(input[pos..]).0))
        invariant rc <= 0 ==> overrun == end.overrun && (!overrun ==> State() == end.sink)
        decreases if rc > 0 then 1 else 0, |input| - pos
      {
        ghost var rest, p, before := input[pos..], pos, Snapshot();
        ParseStep(rest);
        rc, overrun := NextEntry();
        if rc > 0 {
          assert input[pos..] == rest[pos - p..];
          ParseFits(input[pos..]);
          TakeStep(before, NextRecord(rest).record.data, Datagrams(Parse(input[pos..]).0));
          if overrun {
            rc := -1;
          }
        }
      }
    }
  }

  lemma TakeStep(m: Machine, d: Bytes, ds: seq<Bytes>)
    requires MachineOk(m) && !m.overrun && |d| <= DGRAM_MAX && Fits(ds)
    ensures Fits([d] + ds) && TakeAll(m, [d] + ds) == TakeAll(Take(m, d), ds)
    ensures Take(m, d).overrun ==> TakeAll(Take(m, d), ds) == Take(m, d)
  {
    hide Take;
    assert ([d] + ds)[1..] == ds;
  }

  lemma {:induction false} ParseFits(bs: Bytes)
    ensures Fits(Datagrams(Parse(bs).0))
    decreases |bs|
  {
    hide NextRecord;
    ParseStep(bs);
    var o := NextRecord(bs);
    if o.Read? {
      ParseFits(bs[HEADER_BYTES + |o.record.data|..]);
    }
  }

  lemma ParseStep(bs: Bytes)
    ensures var o := NextRecord(bs);
            if o.Read? then
              Datagrams(Parse(bs).0) == [o.record.data] + Datagrams(Parse(bs[HEADER_BYTES + |o.record.data|..]).0)
            else Datagrams(Parse(bs).0) == []
  {
    hide NextRecord;
    var o := NextRecord(bs);
    if o.Read? {
      var rs := Parse(bs[HEADER_BYTES + |o.record.data|..]).0;
      assert ([o.record] + rs)[1..] == rs;
    }
  }
}
