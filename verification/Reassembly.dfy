/** Capturing a stream over a channel that loses datagrams: what the files of udp2nexus are pieces of. */
module Reassembly {
  import opened UdpLog
  import opened Udp2Nexus

  /** The sender counts its datagrams in bytes 4 and 5, low byte first. */
  predicate Stamped(sent: seq<Bytes>, first: nat) {
    forall k :: 0 <= k < |sent| ==>
      |sent[k]| >= 6 && sent[k][4] == (first + k) % 0x100 && sent[k][5] == (first + k) / 0x100 % 0x100
  }

  /** The reader finds consecutive numbers modulo 2^16. */
  predicate Numbered(sent: seq<Bytes>, first: nat) {
    AllFramed(sent) && forall k :: 0 <= k < |sent| ==> SeqNo(sent[k]) == (first + k) % SEQ_MODULUS
  }

  lemma TwoBytes(n: nat)
    ensures n % 0x1_0000 % 0x100 == n % 0x100 && n % 0x1_0000 / 0x100 == n / 0x100 % 0x100
  {
  }

  lemma StampedNumbered(sent: seq<Bytes>, first: nat)
    requires Stamped(sent, first)
    ensures Numbered(sent, first)
  {
    hide SeqNo;
    forall k | 0 <= k < |sent|
      ensures Framed(sent[k]) && SeqNo(sent[k]) == (first + k) % SEQ_MODULUS
    {
      TwoBytes(first + k);
      DatagramLayout(sent[k], (first + k) % SEQ_MODULUS);
    }
  }

  /** The positions of the datagrams that arrive. */
  predicate Arriving(idx: seq<nat>, n: nat) {
    && (forall j :: 0 <= j < |idx| ==> idx[j] < n)
    && (forall i, j :: 0 <= i < j < |idx| ==> idx[i] < idx[j])
  }

  function Arrived(sent: seq<Bytes>, idx: seq<nat>): (ds: seq<Bytes>)
    requires Arriving(idx, |sent|)
    ensures |ds| == |idx|
    ensures forall j :: 0 <= j < |idx| ==> ds[j] == sent[idx[j]]
  {
    seq(|idx|, j requires 0 <= j < |idx| => sent[idx[j]])
  }

  /** A loss that the sequence number cannot show: a positive multiple of 2^16 datagrams in a row. */
  predicate Hidden(from: nat, next: nat)
    requires from < next
  {
    next != from + 1 && (next - from - 1) % SEQ_MODULUS == 0
  }

  predicate NothingHidden(idx: seq<nat>, n: nat)
    requires Arriving(idx, n)
  {
    forall j :: 0 < j < |idx| ==> !Hidden(idx[j - 1], idx[j])
  }

  /** A burst shorter than 2^16 is never hidden. */
  lemma ShortBurstsShow(from: nat, next: nat)
    requires from < next && next - from - 1 < SEQ_MODULUS
    ensures !Hidden(from, next)
  {
  }

  lemma SeqNoShowsLoss(sent: seq<Bytes>, first: nat, a: nat, b: nat)
    requires Numbered(sent, first) && a < b < |sent|
    ensures SeqNo(sent[b]) == NextSeqNo(SeqNo(sent[a])) <==> b == a + 1 || Hidden(a, b)
  {
    assert (first + b) % SEQ_MODULUS == ((first + a) % SEQ_MODULUS + 1) % SEQ_MODULUS
           <==> (b - a - 1) % SEQ_MODULUS == 0 by { SameResidue(first + a, b - a - 1); }
  }

  lemma SameResidue(x: nat, d: nat)
    ensures (x + 1 + d) % SEQ_MODULUS == (x % SEQ_MODULUS + 1) % SEQ_MODULUS <==> d % SEQ_MODULUS == 0
  {
  }

  // ---------------------------------------------------------------------------------------------
  // Pieces of the sent stream
  // ---------------------------------------------------------------------------------------------

  /** How many leading positions are i, i + 1, ... */
  function ConsecutiveFrom(i: nat, idx: seq<nat>): (k: nat)
    ensures k <= |idx|
    ensures forall j :: 0 <= j < k ==> idx[j] == i + j
    decreases |idx|
  {
    if idx == [] || idx[0] != i then 0 else 1 + ConsecutiveFrom(i + 1, idx[1..])
  }

  datatype Piece = Piece(begin: nat, end: nat)

  function FirstLength(idx: seq<nat>): (k: nat)
    requires idx != []
    ensures 0 < k <= |idx|
  {
    1 + ConsecutiveFrom(idx[0] + 1, idx[1..])
  }

  /** The arrived positions as maximal intervals. */
  function Pieces(idx: seq<nat>): seq<Piece>
    decreases |idx|
  {
    if idx == [] then [] else [FirstPiece(idx)] + Pieces(idx[FirstLength(idx)..])
  }

  function FirstPiece(idx: seq<nat>): Piece
    requires idx != []
  {
    Piece(idx[0], idx[0] + FirstLength(idx))
  }

  predicate InStream(ps: seq<Piece>, n: nat) { forall g :: 0 <= g < |ps| ==> ps[g].begin < ps[g].end <= n }

  function PieceContents(sent: seq<Bytes>, ps: seq<Piece>): seq<Bytes>
    requires AllFramed(sent) && InStream(ps, |sent|)
    decreases |ps|
  {
    if ps == [] then []
    else [Payloads(sent[ps[0].begin..ps[0].end])] + PieceContents(sent, ps[1..])
  }

  lemma ArrivingTail(idx: seq<nat>, n: nat, k: nat)
    requires Arriving(idx, n) && k <= |idx|
    ensures Arriving(idx[k..], n)
    ensures NothingHidden(idx, n) ==> NothingHidden(idx[k..], n)
  {
    var tail := idx[k..];
    forall j | 0 < j < |tail|
      ensures NothingHidden(idx, n) ==> !Hidden(tail[j - 1], tail[j])
    {
      assert tail[j] == idx[k + j] && tail[j - 1] == idx[k + j - 1];
    }
  }

  lemma {:induction false} ConsecutiveStops(i: nat, idx: seq<nat>)
    ensures var k := ConsecutiveFrom(i, idx);
            k < |idx| ==> idx[k] != i + k
    decreases |idx|
  {
    if idx != [] && idx[0] == i {
      ConsecutiveStops(i + 1, idx[1..]);
    }
  }

  lemma FirstPieceShape(idx: seq<nat>, n: nat)
    requires Arriving(idx, n) && idx != []
    ensures forall j :: 0 <= j < FirstLength(idx) ==> idx[j] == idx[0] + j
    ensures FirstPiece(idx).begin < FirstPiece(idx).end <= n
    ensures FirstLength(idx) < |idx| ==> FirstPiece(idx).end < idx[FirstLength(idx)]
  {
    var k := FirstLength(idx);
    forall j | 0 <= j < k
      ensures idx[j] == idx[0] + j
    {
      if j > 0 {
        assert idx[j] == idx[1..][j - 1];
      }
    }
    ConsecutiveStops(idx[0] + 1, idx[1..]);
    if k < |idx| {
      assert idx[k - 1] < idx[k] && idx[1..][k - 1] == idx[k];
    }
  }

  predicate Apart(ps: seq<Piece>) { forall g :: 0 < g < |ps| ==> ps[g - 1].end < ps[g].begin }

  lemma PiecesCons(p: Piece, ps: seq<Piece>, n: nat)
    requires p.begin < p.end <= n && InStream(ps, n) && Apart(ps)
    requires ps != [] ==> p.end < ps[0].begin
    ensures InStream([p] + ps, n) && Apart([p] + ps)
  {
  }

  /** Pieces are non-empty intervals of the stream, at least one lost datagram apart. */
  lemma {:induction false} PiecesAreMaximal(idx: seq<nat>, n: nat)
    requires Arriving(idx, n)
    ensures InStream(Pieces(idx), n) && Apart(Pieces(idx))
    ensures idx != [] ==> Pieces(idx) != [] && Pieces(idx)[0].begin == idx[0]
    decreases |idx|
  {
    hide Arriving, InStream, Apart, FirstLength;
    if idx == [] {
      NoPieces(n);
    } else {
      var k := FirstLength(idx);
      ArrivingTail(idx, n, k);
      PiecesAreMaximal(idx[k..], n);
      FirstPieceShape(idx, n);
      PiecesCons(FirstPiece(idx), Pieces(idx[k..]), n);
    }
  }

  lemma NoPieces(n: nat)
    ensures InStream([], n) && Apart([])
  {
  }

  predicate Holds(p: Piece, x: nat) { p.begin <= x < p.end }

  ghost predicate Held(ps: seq<Piece>, x: nat) { exists p :: p in ps && Holds(p, x) }

  lemma HeldCons(p: Piece, ps: seq<Piece>, x: nat)
    ensures Held([p] + ps, x) <==> Holds(p, x) || Held(ps, x)
  {
    if Holds(p, x) {
      assert p in [p] + ps;
    }
    forall q | q in ps
      ensures q in [p] + ps
    {
    }
  }

  lemma InSplit(idx: seq<nat>, k: nat, x: nat)
    requires k <= |idx|
    ensures x in idx <==> x in idx[..k] || x in idx[k..]
  {
    assert idx == idx[..k] + idx[k..];
  }

  lemma FirstPieceHolds(idx: seq<nat>, n: nat, x: nat)
    requires Arriving(idx, n) && idx != []
    ensures x in idx[..FirstLength(idx)] <==> Holds(FirstPiece(idx), x)
  {
    FirstPieceShape(idx, n);
    hide FirstLength, Arriving;
    if idx[0] <= x < idx[0] + FirstLength(idx) {
      assert idx[..FirstLength(idx)][x - idx[0]] == x;
    }
  }

  /** Pieces hold exactly what arrived. */
  lemma {:induction false} PiecesHoldArrivals(idx: seq<nat>, n: nat, x: nat)
    requires Arriving(idx, n)
    ensures x in idx <==> Held(Pieces(idx), x)
    decreases |idx|
  {
    hide Arriving, Held, Holds, FirstLength, FirstPiece;
    if idx == [] {
      NothingHeld(x);
    } else {
      var k := FirstLength(idx);
      ArrivingTail(idx, n, k);
      PiecesHoldArrivals(idx[k..], n, x);
      FirstPieceHolds(idx, n, x);
      InSplit(idx, k, x);
      HeldCons(FirstPiece(idx), Pieces(idx[k..]), x);
    }
  }

  lemma NothingHeld(x: nat)
    ensures !Held([], x)
  {
  }

  /** With nothing hidden, the converter's runs and the arrived intervals have the same length. */
  lemma {:induction false} RunIsInterval(sent: seq<Bytes>, first: nat, a: nat, idx: seq<nat>)
    requires Numbered(sent, first) && a < |sent| && Arriving([a] + idx, |sent|) && NothingHidden([a] + idx, |sent|)
    ensures Arriving(idx, |sent|)
    ensures RunLength(NextSeqNo(SeqNo(sent[a])), Arrived(sent, idx)) == ConsecutiveFrom(a + 1, idx)
    decreases |idx|
  {
    hide SeqNo, Framed, NextSeqNo, Hidden;
    var all := [a] + idx;
    ArrivingTail(all, |sent|, 1);
    assert all[1..] == idx;
    if idx != [] {
      assert all[0] == a && all[1] == idx[0];
      SeqNoShowsLoss(sent, first, a, idx[0]);
      if idx[0] == a + 1 {
        assert [idx[0]] + idx[1..] == idx;
        RunIsInterval(sent, first, idx[0], idx[1..]);
        assert Arrived(sent, idx)[1..] == Arrived(sent, idx[1..]);
      }
    }
  }

  lemma ArrivedTail(sent: seq<Bytes>, idx: seq<nat>, k: nat)
    requires Arriving(idx, |sent|) && k <= |idx|
    ensures Arriving(idx[k..], |sent|) && Arrived(sent, idx)[k..] == Arrived(sent, idx[k..])
    ensures AllFramed(sent) ==>
              var ds := Arrived(sent, idx);
              AllFramed(ds) && AllFramed(ds[..k]) && AllFramed(ds[k..])
  {
  }

  lemma FirstRunLength(sent: seq<Bytes>, first: nat, idx: seq<nat>)
    requires Numbered(sent, first) && Arriving(idx, |sent|) && NothingHidden(idx, |sent|) && idx != []
    ensures AllFramed(Arrived(sent, idx))
    ensures FirstRun(Arrived(sent, idx)) == FirstLength(idx)
  {
    hide SeqNo, Framed, NextSeqNo, RunLength, Hidden, ConsecutiveFrom, NothingHidden, Arrived;
    ArrivedTail(sent, idx, 1);
    assert [idx[0]] + idx[1..] == idx;
    RunIsInterval(sent, first, idx[0], idx[1..]);
  }

  /** The leading run is the first piece of the sent stream. */
  lemma FirstRunIsPiece(sent: seq<Bytes>, idx: seq<nat>)
    requires Arriving(idx, |sent|) && idx != []
    ensures FirstPiece(idx).begin < FirstPiece(idx).end <= |sent|
    ensures Arrived(sent, idx)[..FirstLength(idx)] == sent[FirstPiece(idx).begin..FirstPiece(idx).end]
  {
    hide FirstLength, Arriving;
    FirstPieceShape(idx, |sent|);
    var run, piece := Arrived(sent, idx)[..FirstLength(idx)], sent[FirstPiece(idx).begin..FirstPiece(idx).end];
    forall j | 0 <= j < FirstLength(idx)
      ensures run[j] == piece[j]
    {
      assert idx[j] == idx[0] + j;
    }
  }

  lemma {:induction false} RunsArePieces(sent: seq<Bytes>, first: nat, idx: seq<nat>)
    requires Numbered(sent, first) && Arriving(idx, |sent|) && NothingHidden(idx, |sent|)
    ensures AllRunsFramed(Runs(Arrived(sent, idx))) && InStream(Pieces(idx), |sent|)
    ensures Contents(Runs(Arrived(sent, idx))) == PieceContents(sent, Pieces(idx))
    decreases |idx|
  {
    hide SeqNo, Framed, NextSeqNo, RunLength, Payloads, Hidden, FirstLength, FirstPiece, FirstRun, Arriving,
         NothingHidden, InStream, AllRunsFramed, AllFramed, Arrived;
    var ds := Arrived(sent, idx);
    ArrivedTail(sent, idx, 0);
    RunsFramed(ds);
    PiecesAreMaximal(idx, |sent|);
    if idx != [] {
      var k := FirstLength(idx);
      ArrivingTail(idx, |sent|, k);
      FirstRunLength(sent, first, idx);
      FirstRunIsPiece(sent, idx);
      ArrivedTail(sent, idx, k);
      RunsArePieces(sent, first, idx[k..]);
      ContentsOfCons(ds[..k], Runs(ds[k..]));
      PieceContentsCons(sent, FirstPiece(idx), Pieces(idx[k..]));
    }
  }

  lemma PieceContentsCons(sent: seq<Bytes>, p: Piece, ps: seq<Piece>)
    requires AllFramed(sent) && p.begin < p.end <= |sent| && InStream(ps, |sent|)
    ensures InStream([p] + ps, |sent|)
    ensures PieceContents(sent, [p] + ps) == [Payloads(sent[p.begin..p.end])] + PieceContents(sent, ps)
  {
    assert ([p] + ps)[1..] == ps;
  }

  /** The first arrival is the number the converter expects before it has opened a file. */
  predicate FirstDropped(sent: seq<Bytes>, idx: seq<nat>)
    requires AllFramed(sent) && Arriving(idx, |sent|)
  {
    idx != [] && SeqNo(sent[idx[0]]) == 0xFFFF
  }

  /** The intervals that reach a file. */
  function WrittenPieces(sent: seq<Bytes>, idx: seq<nat>): seq<Piece>
    requires AllFramed(sent) && Arriving(idx, |sent|)
  {
    if FirstDropped(sent, idx) then Pieces(idx[FirstLength(idx)..]) else Pieces(idx)
  }

  lemma WrittenInStream(sent: seq<Bytes>, idx: seq<nat>)
    requires AllFramed(sent) && Arriving(idx, |sent|)
    ensures InStream(WrittenPieces(sent, idx), |sent|)
  {
    PiecesAreMaximal(idx, |sent|);
    if FirstDropped(sent, idx) {
      ArrivingTail(idx, |sent|, FirstLength(idx));
      PiecesAreMaximal(idx[FirstLength(idx)..], |sent|);
    }
  }

  lemma SameFirst(sent: seq<Bytes>, idx: seq<nat>)
    requires AllFramed(sent) && Arriving(idx, |sent|)
    ensures AllFramed(Arrived(sent, idx))
    ensures Drops(Arrived(sent, idx)) <==> FirstDropped(sent, idx)
  {
  }

  /** Reassembly over a lossy channel, for any first sequence number: if no burst of losses is a positive multiple of
      2^16 long (a burst below 2^16 never is), the files are exactly the payloads of the maximal intervals that arrived,
      so file boundaries fall exactly at the losses, across wraps too. Only an interval that begins the capture at
      sequence number 0xFFFF has no file. */
  lemma ReassemblyOverLoss(sent: seq<Bytes>, first: nat, idx: seq<nat>)
    requires Stamped(sent, first) && Arriving(idx, |sent|) && NothingHidden(idx, |sent|)
    ensures InStream(WrittenPieces(sent, idx), |sent|) && AllFramed(Arrived(sent, idx))
    ensures FeedAll(START, Arrived(sent, idx)).files == PieceContents(sent, WrittenPieces(sent, idx))
  {
    StampedNumbered(sent, first);
    hide Runs, Contents, FeedAll, PieceContents, Pieces, FirstLength, FirstRun, SeqNo, Framed, Drops, FirstDropped,
         NothingHidden, Arrived, Payloads;
    var ds := Arrived(sent, idx);
    WrittenInStream(sent, idx);
    SameFirst(sent, idx);
    Segmentation(ds);
    if FirstDropped(sent, idx) {
      var k := FirstLength(idx);
      FirstIsThere(sent, idx);
      FirstRunLength(sent, first, idx);
      ArrivedTail(sent, idx, k);
      ArrivingTail(idx, |sent|, k);
      RunsArePieces(sent, first, idx[k..]);
    } else {
      RunsArePieces(sent, first, idx);
    }
  }

  lemma FirstIsThere(sent: seq<Bytes>, idx: seq<nat>)
    requires AllFramed(sent) && Arriving(idx, |sent|) && FirstDropped(sent, idx)
    ensures idx != []
  {
  }

  // ---------------------------------------------------------------------------------------------
  // Exactly when boundaries show the losses
  // ---------------------------------------------------------------------------------------------

  function Losses(idx: seq<nat>): nat {
    if |idx| < 2 then 0 else (if idx[1] == idx[0] + 1 then 0 else 1) + Losses(idx[1..])
  }

  function HiddenLosses(idx: seq<nat>, n: nat): nat
    requires Arriving(idx, n)
  {
    if |idx| < 2 then 0
    else
      ArrivingTail(idx, n, 1);
      (if Hidden(idx[0], idx[1]) then 1 else 0) + HiddenLosses(idx[1..], n)
  }

  /** The number of files counts every loss but the hidden ones. */
  lemma {:induction false} JumpsShowLosses(sent: seq<Bytes>, first: nat, idx: seq<nat>)
    requires Numbered(sent, first) && Arriving(idx, |sent|)
    ensures Jumps(Arrived(sent, idx)) + HiddenLosses(idx, |sent|) == Losses(idx)
    decreases |idx|
  {
    hide SeqNo, Framed, NextSeqNo, Hidden;
    if |idx| >= 2 {
      ArrivingTail(idx, |sent|, 1);
      JumpsShowLosses(sent, first, idx[1..]);
      assert Arrived(sent, idx)[1..] == Arrived(sent, idx[1..]);
      SeqNoShowsLoss(sent, first, idx[0], idx[1]);
      NotBoth(idx[0], idx[1]);
    }
  }

  lemma NotBoth(a: nat, b: nat)
    requires a < b
    ensures Hidden(a, b) ==> b != a + 1
  {
  }

  lemma {:induction false} HiddenIffCounted(idx: seq<nat>, n: nat)
    requires Arriving(idx, n)
    ensures NothingHidden(idx, n) <==> HiddenLosses(idx, n) == 0
  {
    hide Hidden;
    if |idx| >= 2 {
      ArrivingTail(idx, n, 1);
      HiddenIffCounted(idx[1..], n);
      forall j | 0 < j < |idx|
        ensures HiddenLosses(idx, n) == 0 ==> !Hidden(idx[j - 1], idx[j])
      {
        if j > 1 {
          assert idx[1..][j - 1] == idx[j] && idx[1..][j - 2] == idx[j - 1];
        }
      }
    }
  }

  /** There is one file for every loss, plus one unless the first interval is dropped, exactly when no burst is a
      positive multiple of 2^16 long. */
  lemma FilesCountLosses(sent: seq<Bytes>, first: nat, idx: seq<nat>)
    requires Stamped(sent, first) && Arriving(idx, |sent|) && idx != []
    ensures AllFramed(Arrived(sent, idx))
    ensures |FeedAll(START, Arrived(sent, idx)).files| == Losses(idx) + (if FirstDropped(sent, idx) then 0 else 1)
            <==> NothingHidden(idx, |sent|)
  {
    StampedNumbered(sent, first);
    hide NothingHidden, FeedAll, Runs, Contents, Drops, FirstDropped, Written, Payloads;
    JumpsShowLosses(sent, first, idx);
    HiddenIffCounted(idx, |sent|);
    SameFirst(sent, idx);
    Segmentation(Arrived(sent, idx));
  }

  lemma {:induction false} PiecesCount(idx: seq<nat>)
    requires idx != []
    ensures |Pieces(idx)| == 1 + Losses(idx)
    decreases |idx|
  {
    if |idx| > 1 {
      var tail := idx[1..];
      PiecesCount(tail);
      if idx[1] == idx[0] + 1 {
        assert FirstLength(idx) == 1 + FirstLength(tail);
        assert idx[FirstLength(idx)..] == tail[FirstLength(tail)..];
      } else {
        assert FirstLength(idx) == 1;
      }
    }
  }

  lemma {:induction false} ContentsPerPiece(sent: seq<Bytes>, ps: seq<Piece>)
    requires AllFramed(sent) && InStream(ps, |sent|)
    ensures |PieceContents(sent, ps)| == |ps|
    decreases |ps|
  {
    if ps != [] {
      ContentsPerPiece(sent, ps[1..]);
    }
  }

  /** File g holds the payloads of interval g of what was sent. */
  lemma {:induction false} PieceContentsAt(sent: seq<Bytes>, ps: seq<Piece>, g: nat)
    requires AllFramed(sent) && InStream(ps, |sent|) && g < |ps|
    ensures |PieceContents(sent, ps)| == |ps|
    ensures PieceContents(sent, ps)[g] == Payloads(sent[ps[g].begin..ps[g].end])
    decreases |ps|
  {
    ContentsPerPiece(sent, ps);
    if g > 0 {
      PieceContentsAt(sent, ps[1..], g - 1);
    }
  }

  lemma WrittenCount(sent: seq<Bytes>, idx: seq<nat>)
    requires AllFramed(sent) && Arriving(idx, |sent|) && idx != []
    ensures |WrittenPieces(sent, idx)| == Losses(idx) + if FirstDropped(sent, idx) then 0 else 1
  {
    PiecesCount(idx);
  }

  /** The files are the arrived intervals exactly when no burst of losses is a positive multiple of 2^16 long. */
  lemma ReassemblyExactly(sent: seq<Bytes>, first: nat, idx: seq<nat>)
    requires Stamped(sent, first) && Arriving(idx, |sent|)
    ensures InStream(WrittenPieces(sent, idx), |sent|) && AllFramed(Arrived(sent, idx))
    ensures FeedAll(START, Arrived(sent, idx)).files == PieceContents(sent, WrittenPieces(sent, idx))
            <==> NothingHidden(idx, |sent|)
  {
    StampedNumbered(sent, first);
    hide FeedAll, Pieces, FirstDropped, WrittenPieces, PieceContents, Losses;
    WrittenInStream(sent, idx);
    SameFirst(sent, idx);
    ContentsPerPiece(sent, WrittenPieces(sent, idx));
    if NothingHidden(idx, |sent|) {
      ReassemblyOverLoss(sent, first, idx);
    } else {
      WrittenCount(sent, idx);
      FilesCountLosses(sent, first, idx);
    }
  }

  // ---------------------------------------------------------------------------------------------
  // From the sender to the files
  // ---------------------------------------------------------------------------------------------

  lemma {:induction false} DatagramsOf(rs: seq<Record>)
    ensures |Datagrams(rs)| == |rs| && forall i :: 0 <= i < |rs| ==> Datagrams(rs)[i] == rs[i].data
  {
    if rs != [] {
      DatagramsOf(rs[1..]);
    }
  }

  /** The whole capture, for any first sequence number: logged as they arrive and read back from the log, the datagrams
      give the same files. */
  lemma CaptureOverLoss(sent: seq<Bytes>, first: nat, idx: seq<nat>, rs: seq<Record>)
    requires forall k :: 0 <= k < |sent| ==>
               |sent[k]| >= 6 && sent[k][4] == (first + k) % 0x100 && sent[k][5] == (first + k) / 0x100 % 0x100
    requires Arriving(idx, |sent|)
    requires AllLoggable(rs) && |rs| == |idx| && forall j :: 0 <= j < |idx| ==> rs[j].data == sent[idx[j]]
    ensures InStream(WrittenPieces(sent, idx), |sent|) && AllFramed(Datagrams(Parse(LogBytes(rs)).0))
    ensures FeedAll(START, Datagrams(Parse(LogBytes(rs)).0)).files == PieceContents(sent, WrittenPieces(sent, idx))
            <==> NothingHidden(idx, |sent|)
  {
    assert Stamped(sent, first);
    StampedNumbered(sent, first);
    ParseLog(rs);
    DatagramsOf(rs);
    assert Datagrams(rs) == Arrived(sent, idx);
    ReassemblyExactly(sent, first, idx);
    hide Parse, FeedAll, PieceContents, WrittenPieces, Datagrams;
  }
}
