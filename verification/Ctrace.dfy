/** The command register of the trace unit: field layout of ct_csr.h and the word builder of ctrace.h. */
module CtCsr {

  const CMD_NONE: bv32 := 0
  const CMD_DAQ_PC_CURR: bv32 := 1
  const CMD_DAQ_DIRECT_DATA: bv32 := 3
  const CMD_CF_SYNC: bv32 := 12

  const SINK_NEXUS: bv32 := 0

  const CMD_MSK: bv32 := 0x3f
  const SINK_MSK: bv32 := 0xc0
  const DIRECTDATA_MSK: bv32 := 0xffffff00

  // Field positions are 0, 6 and 8; they are written as literals so that the shifts stay bit-vector shifts.
  function BuildCommandWord(command: bv32, sink: bv32, data: bv32): (w: bv32) {
    ((data << 8) & DIRECTDATA_MSK) | ((sink << 6) & SINK_MSK) | (command & CMD_MSK)
  }

  function CommandOf(w: bv32): bv32 { w & 0x3f }

  function SinkOf(w: bv32): bv32 { (w >> 6) & 0x3 }

  function DirectDataOf(w: bv32): bv32 { w >> 8 }

  /** Where the fields lie: the command in bits 5..0, the sink in bits 7..6, the direct data in bits 31..8. */
  lemma FieldLayout(command: bv32, sink: bv32, data: bv32)
    ensures BuildCommandWord(command, sink, data) & 0x3f == command & 0x3f
    ensures (BuildCommandWord(command, sink, data) >> 6) & 0x3 == sink & 0x3
    ensures BuildCommandWord(command, sink, data) >> 8 == data & 0xffffff
  {
  }

  /** The three fields are independent: each reads back masked to its width, and every word is built from its fields. */
  lemma FieldsRoundTrip(command: bv32, sink: bv32, data: bv32, w: bv32)
    ensures CommandOf(BuildCommandWord(command, sink, data)) == command & 0x3f
    ensures SinkOf(BuildCommandWord(command, sink, data)) == sink & 0x3
    ensures DirectDataOf(BuildCommandWord(command, sink, data)) == data & 0xffffff
    ensures BuildCommandWord(CommandOf(w), SinkOf(w), DirectDataOf(w)) == w
  {
  }
}

/** The typed trace messages of ctrace.h and a decoder for them. */
module Ctrace {
  import opened CtCsr
  import opened Wrappers

  /** What the firmware can emit. Signed, floating-point and pointer values are carried by their bit patterns. */
  datatype Message =
    | Marker(tag: bv8)
    | Nop
    | Sync
    | U8(u8: bv8) | U16(u16: bv16) | U32(u32: bv32) | U64(u64: bv64)
    | S8(s8: bv8) | S16(s16: bv16) | S32(s32: bv32) | S64(s64: bv64)
    | F32(f32: bv32) | F64(f64: bv64)
    | P32(p32: bv32)
    | Owner(id: bv16)

  // Bits 23..16 of the direct data.
  const WIDTH_8: bv32 := 0x010000
  const WIDTH_16: bv32 := 0x020000
  const WIDTH_32: bv32 := 0x040000
  const WIDTH_64: bv32 := 0x080000
  const TYPE_PTR: bv32 := 0x000000
  const TYPE_INT: bv32 := 0x100000
  const TYPE_UINT: bv32 := 0x200000
  const TYPE_FLOAT: bv32 := 0x300000
  const SEQ_END: bv32 := 0x000000
  const SEQ_CONTINUE: bv32 := 0x400000
  const OWNERSHIP: bv32 := 0x800000

  function RawWord(data: bv32): bv32 {
    BuildCommandWord(CMD_DAQ_DIRECT_DATA, SINK_NEXUS, data)
  }

  function Frame1(kind: bv32, payload: bv32): seq<bv32> {
    [RawWord(SEQ_END | kind | payload)]
  }

  // The two halves of a 32-bit value.
  function Half0(d: bv32): bv32 { d & 0xffff }

  function Half1(d: bv32): bv32 { (d >> 16) & 0xffff }

  function Tagged(more: bv32, kind: bv32, word: bv32): bv32 { more | kind | word }

  function Frame32(kind: bv32, d: bv32): seq<bv32> {
    [RawWord(Tagged(SEQ_CONTINUE, kind, Half0(d))), RawWord(Tagged(SEQ_END, kind, Half1(d)))]
  }

  // The four 16-bit fragments of a 64-bit value, lowest first.
  function Fragment0(d: bv64): bv32 { (d & 0xffff) as bv32 }

  function Fragment1(d: bv64): bv32 { ((d >> 16) & 0xffff) as bv32 }

  function Fragment2(d: bv64): bv32 { ((d >> 32) & 0xffff) as bv32 }

  function Fragment3(d: bv64): bv32 { ((d >> 48) & 0xffff) as bv32 }

  function Frame64(kind: bv32, d: bv64): seq<bv32> {
    [RawWord(Tagged(SEQ_CONTINUE, kind, Fragment0(d))), RawWord(Tagged(SEQ_CONTINUE, kind, Fragment1(d))),
     RawWord(Tagged(SEQ_CONTINUE, kind, Fragment2(d))), RawWord(Tagged(SEQ_END, kind, Fragment3(d)))]
  }

  /** The command words of one message, in emission order. */
  function Words(m: Message): seq<bv32> {
    match m
    case Marker(t) => [BuildCommandWord(CMD_DAQ_PC_CURR, SINK_NEXUS, t as bv32)]
    case Nop => [BuildCommandWord(CMD_NONE, SINK_NEXUS, 0)]
    case Sync => [BuildCommandWord(CMD_CF_SYNC, SINK_NEXUS, 0)]
    case U8(d) => Frame1(TYPE_UINT | WIDTH_8, d as bv32)
    case U16(d) => Frame1(TYPE_UINT | WIDTH_16, d as bv32)
    case U32(d) => Frame32(TYPE_UINT | WIDTH_32, d)
    case U64(d) => Frame64(TYPE_UINT | WIDTH_64, d)
    case S8(d) => Frame1(TYPE_INT | WIDTH_8, d as bv32)
    case S16(d) => Frame1(TYPE_INT | WIDTH_16, d as bv32)
    case S32(d) => Frame32(TYPE_INT | WIDTH_32, d)
    case S64(d) => Frame64(TYPE_INT | WIDTH_64, d)
    case F32(d) => Frame32(TYPE_FLOAT | WIDTH_32, d)
    case F64(d) => Frame64(TYPE_FLOAT | WIDTH_64, d)
    case P32(d) => Frame32(TYPE_PTR | WIDTH_32, d)
    case Owner(id) => [RawWord(OWNERSHIP | id as bv32)]
  }

  function WordCount(m: Message): nat {
    match m
    case U64(_) => 4
    case S64(_) => 4
    case F64(_) => 4
    case U32(_) => 2
    case S32(_) => 2
    case F32(_) => 2
    case P32(_) => 2
    case _ => 1
  }

  lemma WordsCounted(m: Message)
    ensures |Words(m)| == WordCount(m)
  {
    hide RawWord, BuildCommandWord;
  }

  function Encode(ms: seq<Message>): seq<bv32> {
    if ms == [] then [] else Words(ms[0]) + Encode(ms[1..])
  }

  // ---------------------------------------------------------------------------------------------
  // The words in hexadecimal
  // ---------------------------------------------------------------------------------------------

  lemma LayoutPlain(t: bv8, id: bv16)
    ensures Words(Marker(t)) == [0x0000_0001 | (t as bv32 << 8)]
    ensures Words(Nop) == [0x0000_0000]
    ensures Words(Sync) == [0x0000_000c]
    ensures Words(Owner(id)) == [0x8000_0003 | (id as bv32 << 8)]
  {
  }

  lemma LayoutShort(b: bv8, h: bv16)
    ensures Words(U8(b)) == [0x2100_0003 | (b as bv32 << 8)]
    ensures Words(U16(h)) == [0x2200_0003 | (h as bv32 << 8)]
    ensures Words(S8(b)) == [0x1100_0003 | (b as bv32 << 8)]
    ensures Words(S16(h)) == [0x1200_0003 | (h as bv32 << 8)]
  {
  }

  lemma LayoutU32(d: bv32)
    ensures Words(U32(d)) == [0x6400_0003 | ((d & 0xffff) << 8), 0x2400_0003 | ((d >> 16) << 8)]
  {
  }

  lemma LayoutS32(d: bv32)
    ensures Words(S32(d)) == [0x5400_0003 | ((d & 0xffff) << 8), 0x1400_0003 | ((d >> 16) << 8)]
  {
  }

  lemma LayoutF32(d: bv32)
    ensures Words(F32(d)) == [0x7400_0003 | ((d & 0xffff) << 8), 0x3400_0003 | ((d >> 16) << 8)]
  {
  }

  lemma LayoutP32(d: bv32)
    ensures Words(P32(d)) == [0x4400_0003 | ((d & 0xffff) << 8), 0x0400_0003 | ((d >> 16) << 8)]
  {
  }

  lemma LayoutU64(d: bv64)
    ensures Words(U64(d))
            == [0x6800_0003 | ((d & 0xffff) as bv32 << 8), 0x6800_0003 | (((d >> 16) & 0xffff) as bv32 << 8),
                0x6800_0003 | (((d >> 32) & 0xffff) as bv32 << 8), 0x2800_0003 | ((d >> 48) as bv32 << 8)]
  {
  }

  lemma LayoutS64(d: bv64)
    ensures Words(S64(d))
            == [0x5800_0003 | ((d & 0xffff) as bv32 << 8), 0x5800_0003 | (((d >> 16) & 0xffff) as bv32 << 8),
                0x5800_0003 | (((d >> 32) & 0xffff) as bv32 << 8), 0x1800_0003 | ((d >> 48) as bv32 << 8)]
  {
  }

  lemma LayoutF64(d: bv64)
    ensures Words(F64(d))
            == [0x7800_0003 | ((d & 0xffff) as bv32 << 8), 0x7800_0003 | (((d >> 16) & 0xffff) as bv32 << 8),
                0x7800_0003 | (((d >> 32) & 0xffff) as bv32 << 8), 0x3800_0003 | ((d >> 48) as bv32 << 8)]
  {
  }

  /** The fields of a data word: the command in bits 7..0, sixteen bits of the value in 23..8, the width in bytes in
      27..24, the type in 29..28 (pointer, signed, unsigned, float), in 30 whether more words follow; no ownership. */
  predicate HasBits(w: bv32, width: bv32, kind: bv32, more: bool, fragment: bv32) {
    && w & 0xff == 3 && (w >> 8) & 0xffff == fragment
    && (w >> 24) & 0xf == width && (w >> 28) & 0x3 == kind
    && (w & 0x4000_0000 != 0 <==> more)
    && w & 0x8000_0000 == 0
  }

  lemma Bits8(b: bv8)
    ensures HasBits(Words(U8(b))[0], 1, 2, false, b as bv32)
    ensures HasBits(Words(S8(b))[0], 1, 1, false, b as bv32)
  {
    LayoutShort(b, 0);
  }

  lemma BitsU16(h: bv16)
    ensures HasBits(Words(U16(h))[0], 2, 2, false, h as bv32)
  {
    LayoutShort(0, h);
  }

  lemma BitsS16(h: bv16)
    ensures HasBits(Words(S16(h))[0], 2, 1, false, h as bv32)
  {
    LayoutShort(0, h);
  }

  lemma BitsU32(d: bv32)
    ensures HasBits(Words(U32(d))[0], 4, 2, true, d & 0xffff)
    ensures HasBits(Words(U32(d))[1], 4, 2, false, d >> 16)
  {
    LayoutU32(d);
  }

  lemma BitsS32(d: bv32)
    ensures HasBits(Words(S32(d))[0], 4, 1, true, d & 0xffff)
    ensures HasBits(Words(S32(d))[1], 4, 1, false, d >> 16)
  {
    LayoutS32(d);
  }

  lemma BitsF32(d: bv32)
    ensures HasBits(Words(F32(d))[0], 4, 3, true, d & 0xffff)
    ensures HasBits(Words(F32(d))[1], 4, 3, false, d >> 16)
  {
    LayoutF32(d);
  }

  lemma BitsP32(d: bv32)
    ensures HasBits(Words(P32(d))[0], 4, 0, true, d & 0xffff)
    ensures HasBits(Words(P32(d))[1], 4, 0, false, d >> 16)
  {
    LayoutP32(d);
  }

  lemma BitsU64(d: bv64)
    ensures HasBits(Words(U64(d))[0], 8, 2, true, (d & 0xffff) as bv32)
    ensures HasBits(Words(U64(d))[1], 8, 2, true, ((d >> 16) & 0xffff) as bv32)
    ensures HasBits(Words(U64(d))[2], 8, 2, true, ((d >> 32) & 0xffff) as bv32)
    ensures HasBits(Words(U64(d))[3], 8, 2, false, ((d >> 48) & 0xffff) as bv32)
  {
    LayoutU64(d);
  }

  lemma BitsS64(d: bv64)
    ensures HasBits(Words(S64(d))[0], 8, 1, true, (d & 0xffff) as bv32)
    ensures HasBits(Words(S64(d))[1], 8, 1, true, ((d >> 16) & 0xffff) as bv32)
    ensures HasBits(Words(S64(d))[2], 8, 1, true, ((d >> 32) & 0xffff) as bv32)
    ensures HasBits(Words(S64(d))[3], 8, 1, false, ((d >> 48) & 0xffff) as bv32)
  {
    LayoutS64(d);
  }

  lemma BitsF64(d: bv64)
    ensures HasBits(Words(F64(d))[0], 8, 3, true, (d & 0xffff) as bv32)
    ensures HasBits(Words(F64(d))[1], 8, 3, true, ((d >> 16) & 0xffff) as bv32)
    ensures HasBits(Words(F64(d))[2], 8, 3, true, ((d >> 32) & 0xffff) as bv32)
    ensures HasBits(Words(F64(d))[3], 8, 3, false, ((d >> 48) & 0xffff) as bv32)
  {
    LayoutF64(d);
  }

  // ---------------------------------------------------------------------------------------------
  // Decoder
  // ---------------------------------------------------------------------------------------------

  predicate Continues(w: bv32) {
    DirectDataOf(w) & SEQ_CONTINUE != 0
  }

  /** The words up to and including the first one whose continuation bit is clear. */
  function FirstFrame(ws: seq<bv32>): seq<bv32> {
    if ws == [] then []
    else if Continues(ws[0]) then [ws[0]] + FirstFrame(ws[1..])
    else [ws[0]]
  }

  /** What is left after skipping through the first word whose continuation bit is clear. */
  function Resync(ws: seq<bv32>): (rest: seq<bv32>)
    ensures |rest| <= |ws|
    ensures ws != [] ==> |rest| < |ws|
  {
    if ws == [] then []
    else if Continues(ws[0]) then Resync(ws[1..])
    else ws[1..]
  }

  lemma ContinuesIsBit30(w: bv32)
    ensures Continues(w) <==> w & 0x4000_0000 != 0
  {
  }

  /** Resynchronising skips all words up to and including the first whose bit 30 is clear. */
  lemma {:induction false} ResyncSkips(before: seq<bv32>, w: bv32, rest: seq<bv32>)
    requires forall k :: 0 <= k < |before| ==> before[k] & 0x4000_0000 != 0
    requires w & 0x4000_0000 == 0
    ensures Resync(before + [w] + rest) == rest
  {
    hide Continues;
    var ws := before + [w] + rest;
    ContinuesIsBit30(ws[0]);
    if before == [] {
      assert ws[1..] == rest;
    } else {
      ResyncSkips(before[1..], w, rest);
      assert ws[1..] == before[1..] + [w] + rest;
    }
  }

  function Kind(w: bv32): bv32 { DirectDataOf(w) & 0xff0000 }

  function Payload(w: bv32): bv32 { DirectDataOf(w) & 0xffff }

  function Join32(p0: bv32, p1: bv32): bv32 { p0 | (p1 << 16) }

  function Join64(p0: bv32, p1: bv32, p2: bv32, p3: bv32): bv64 {
    (p0 as bv64) | ((p1 as bv64) << 16) | ((p2 as bv64) << 32) | ((p3 as bv64) << 48)
  }

  /** The only message a one-word frame can carry, judged by its command and indicator byte. */
  function Read1(w: bv32): Message {
    if CommandOf(w) == CMD_NONE then Nop
    else if CommandOf(w) == CMD_CF_SYNC then Sync
    else if CommandOf(w) == CMD_DAQ_PC_CURR then Marker((Payload(w) & 0xff) as bv8)
    else if Kind(w) == TYPE_UINT | WIDTH_8 then U8((Payload(w) & 0xff) as bv8)
    else if Kind(w) == TYPE_UINT | WIDTH_16 then U16(Payload(w) as bv16)
    else if Kind(w) == TYPE_INT | WIDTH_8 then S8((Payload(w) & 0xff) as bv8)
    else if Kind(w) == TYPE_INT | WIDTH_16 then S16(Payload(w) as bv16)
    else Owner(Payload(w) as bv16)
  }

  function Read2(kind: bv32, d: bv32): Message {
    if kind == TYPE_UINT | WIDTH_32 then U32(d)
    else if kind == TYPE_INT | WIDTH_32 then S32(d)
    else if kind == TYPE_FLOAT | WIDTH_32 then F32(d)
    else P32(d)
  }

  function Read4(kind: bv32, d: bv64): Message {
    if kind == TYPE_UINT | WIDTH_64 then U64(d)
    else if kind == TYPE_INT | WIDTH_64 then S64(d)
    else F64(d)
  }

  function Read(frame: seq<bv32>): Message {
    if |frame| == 1 then Read1(frame[0])
    else if |frame| == 2 then Read2(Kind(frame[1]), Join32(Payload(frame[0]), Payload(frame[1])))
    else if |frame| == 4 then
      Read4(Kind(frame[3]), Join64(Payload(frame[0]), Payload(frame[1]), Payload(frame[2]), Payload(frame[3])))
    else Nop
  }

  /** A frame is accepted only when it is exactly what the firmware emits for the message read from it. */
  function Assemble(frame: seq<bv32>): Option<Message> {
    if Words(Read(frame)) == frame then Some(Read(frame)) else None
  }

  function Decode(ws: seq<bv32>): Option<seq<Message>>
    decreases |ws|
  {
    if ws == [] then Some([])
    else
      match (Assemble(FirstFrame(ws)), Decode(Resync(ws)))
      case (Some(m), Some(ms)) => Some([m] + ms)
      case _ => None
  }

  // ---------------------------------------------------------------------------------------------
  // One message
  // ---------------------------------------------------------------------------------------------

  /** The continuation bit is set on every word but the last. */
  ghost predicate Framed(ws: seq<bv32>) {
    && ws != []
    && !Continues(ws[|ws| - 1])
    && forall k :: 0 <= k < |ws| - 1 ==> Continues(ws[k])
  }

  lemma DelimitedPlain()
    ensures Framed(Words(Nop)) && Read(Words(Nop)) == Nop
    ensures Framed(Words(Sync)) && Read(Words(Sync)) == Sync
  {
  }

  lemma DelimitedMarker(d: bv8)
    ensures Framed(Words(Marker(d)))
    ensures Read(Words(Marker(d))) == Marker(d)
  {
  }

  lemma DelimitedU8(d: bv8)
    ensures Framed(Words(U8(d)))
    ensures Read(Words(U8(d))) == U8(d)
  {
  }

  lemma DelimitedU16(d: bv16)
    ensures Framed(Words(U16(d)))
    ensures Read(Words(U16(d))) == U16(d)
  {
  }

  lemma DelimitedU32(d: bv32)
    ensures Framed(Words(U32(d)))
    ensures Read(Words(U32(d))) == U32(d)
  {
    hide Words, Frame32, Half0, Half1, Tagged, RawWord;
    LayoutU32(d);
  }

  lemma DelimitedU64(d: bv64)
    ensures Framed(Words(U64(d)))
    ensures Read(Words(U64(d))) == U64(d)
  {
  }

  lemma DelimitedS8(d: bv8)
    ensures Framed(Words(S8(d)))
    ensures Read(Words(S8(d))) == S8(d)
  {
  }

  lemma DelimitedS16(d: bv16)
    ensures Framed(Words(S16(d)))
    ensures Read(Words(S16(d))) == S16(d)
  {
  }

  lemma DelimitedS32(d: bv32)
    ensures Framed(Words(S32(d)))
    ensures Read(Words(S32(d))) == S32(d)
  {
    hide Words, Frame32, Half0, Half1, Tagged, RawWord;
    LayoutS32(d);
  }

  lemma DelimitedS64(d: bv64)
    ensures Framed(Words(S64(d)))
    ensures Read(Words(S64(d))) == S64(d)
  {
  }

  lemma DelimitedF32(d: bv32)
    ensures Framed(Words(F32(d)))
    ensures Read(Words(F32(d))) == F32(d)
  {
    hide Words, Frame32, Half0, Half1, Tagged, RawWord;
    LayoutF32(d);
  }

  lemma DelimitedF64(d: bv64)
    ensures Framed(Words(F64(d)))
    ensures Read(Words(F64(d))) == F64(d)
  {
  }

  lemma DelimitedP32(d: bv32)
    ensures Framed(Words(P32(d)))
    ensures Read(Words(P32(d))) == P32(d)
  {
    hide Words, Frame32, Half0, Half1, Tagged, RawWord;
    LayoutP32(d);
  }

  lemma DelimitedOwner(d: bv16)
    ensures Framed(Words(Owner(d)))
    ensures Read(Words(Owner(d))) == Owner(d)
  {
  }

  /** The frame of m is closed by its last word and no earlier one, and m can be read back from it. */
  lemma WordsSelfDelimiting(m: Message)
    ensures Framed(Words(m))
    ensures Read(Words(m)) == m
  {
    hide *;
    match m
    case Marker(t) => DelimitedMarker(t);
    case Nop => DelimitedPlain();
    case Sync => DelimitedPlain();
    case U8(d) => DelimitedU8(d);
    case U16(d) => DelimitedU16(d);
    case U32(d) => DelimitedU32(d);
    case U64(d) => DelimitedU64(d);
    case S8(d) => DelimitedS8(d);
    case S16(d) => DelimitedS16(d);
    case S32(d) => DelimitedS32(d);
    case S64(d) => DelimitedS64(d);
    case F32(d) => DelimitedF32(d);
    case F64(d) => DelimitedF64(d);
    case P32(d) => DelimitedP32(d);
    case Owner(id) => DelimitedOwner(id);
  }

  // ---------------------------------------------------------------------------------------------
  // Streams
  // ---------------------------------------------------------------------------------------------

  /** A closed frame is found again at the front of any longer stream. */
  lemma {:induction false} FrameAtFront(frame: seq<bv32>, rest: seq<bv32>)
    requires Framed(frame)
    ensures FirstFrame(frame + rest) == frame
    ensures Resync(frame + rest) == rest
  {
    hide Continues;
    var ws := frame + rest;
    assert ws[0] == frame[0];
    if |frame| == 1 {
      assert ws[1..] == rest;
    } else {
      assert ws[1..] == frame[1..] + rest;
      FrameAtFront(frame[1..], rest);
    }
  }

  lemma {:induction false} FrameSplits(ws: seq<bv32>)
    ensures FirstFrame(ws) + Resync(ws) == ws
  {
    hide Continues;
    if ws != [] && Continues(ws[0]) {
      FrameSplits(ws[1..]);
    }
  }

  lemma {:induction false} EncodeAppend(ms: seq<Message>, ns: seq<Message>)
    ensures Encode(ms + ns) == Encode(ms) + Encode(ns)
  {
    hide Words;
    if ms == [] {
      assert ms + ns == ns;
    } else {
      assert (ms + ns)[1..] == ms[1..] + ns;
      EncodeAppend(ms[1..], ns);
    }
  }

  lemma FirstMessage(m: Message, rest: seq<bv32>)
    ensures Words(m) + rest != []
    ensures FirstFrame(Words(m) + rest) == Words(m)
    ensures Resync(Words(m) + rest) == rest
    ensures Assemble(Words(m)) == Some(m)
  {
    hide Words, Read;
    WordsSelfDelimiting(m);
    FrameAtFront(Words(m), rest);
  }

  /** Decoding inverts encoding, for every list of messages. */
  lemma {:induction false} DecodeEncode(ms: seq<Message>)
    ensures Decode(Encode(ms)) == Some(ms)
  {
    hide Words, Read, Assemble, FirstFrame, Resync;
    if ms != [] {
      FirstMessage(ms[0], Encode(ms[1..]));
      DecodeEncode(ms[1..]);
      assert [ms[0]] + ms[1..] == ms;
    }
  }

  /** Unique decodability: the words written determine the messages. */
  lemma UniqueDecodability(ms: seq<Message>, ns: seq<Message>)
    requires Encode(ms) == Encode(ns)
    ensures ms == ns
  {
    DecodeEncode(ms);
    DecodeEncode(ns);
  }

  /** The decoder accepts nothing but encodings. */
  lemma {:induction false} EncodeDecode(ws: seq<bv32>)
    ensures Decode(ws).Some? ==> Encode(Decode(ws).value) == ws
    decreases |ws|
  {
    hide Words, Read, FirstFrame, Resync;
    if ws != [] && Decode(ws).Some? {
      EncodeDecode(Resync(ws));
      FrameSplits(ws);
      assert Decode(ws).value[1..] == Decode(Resync(ws)).value;
    }
  }

  /** The messages that begin after the one that holds word c. */
  function MessagesAfter(ms: seq<Message>, c: nat): seq<Message> {
    if ms == [] then []
    else if c < |Words(ms[0])| then ms[1..]
    else MessagesAfter(ms[1..], c - |Words(ms[0])|)
  }

  lemma {:induction false} ResyncTail(frame: seq<bv32>, c: nat, rest: seq<bv32>)
    requires Framed(frame) && c < |frame|
    ensures Resync(frame[c..] + rest) == rest
  {
    hide Continues, Resync;
    FrameAtFront(frame[c..], rest);
  }

  lemma ResyncNothing()
    ensures Resync([]) == []
  {
  }

  /** Resynchronisation: cut the stream anywhere, skip through the first word whose continuation bit is clear, and what
      is left is exactly the encoding of the messages after the one that was cut. */
  lemma {:induction false} Resynchronises(ms: seq<Message>, c: nat)
    requires c <= |Encode(ms)|
    ensures Resync(Encode(ms)[c..]) == Encode(MessagesAfter(ms, c))
    ensures Decode(Resync(Encode(ms)[c..])) == Some(MessagesAfter(ms, c))
  {
    hide Words, Resync, Read, Assemble, Decode;
    if ms == [] {
      ResyncNothing();
    } else {
      var first, rest := Words(ms[0]), Encode(ms[1..]);
      if c < |first| {
        WordsSelfDelimiting(ms[0]);
        ResyncTail(first, c, rest);
        assert (first + rest)[c..] == first[c..] + rest;
      } else {
        Resynchronises(ms[1..], c - |first|);
        assert (first + rest)[c..] == rest[c - |first|..];
      }
    }
    DecodeEncode(MessagesAfter(ms, c));
  }

  /** The surviving messages are a suffix: at most the message around the cut and those wholly before it are lost. */
  lemma {:induction false} ResyncLosesOne(ms: seq<Message>, c: nat) returns (k: nat)
    requires c < |Encode(ms)|
    ensures k < |ms| && MessagesAfter(ms, c) == ms[k + 1..]
    ensures |Encode(ms[..k])| <= c < |Encode(ms[..k + 1])|
  {
    hide Words;
    var n := |Words(ms[0])|;
    if c < n {
      k := 0;
      assert ms[..1] == [ms[0]];
      assert Encode([ms[0]]) == Words(ms[0]) + Encode([]);
    } else {
      var j := ResyncLosesOne(ms[1..], c - n);
      k := j + 1;
      assert ms[..k][1..] == ms[1..][..j];
      assert ms[..k + 1][1..] == ms[1..][..k];
    }
  }

  // ---------------------------------------------------------------------------------------------
  // The emit functions
  // ---------------------------------------------------------------------------------------------

  // Right shifts of a signed operand copy the sign bit in.
  function SignFill32(d: bv32): bv32 { if d & 0x8000_0000 != 0 then 0xffff_ffff else 0 }

  function SignFill64(d: bv64): bv64 { if d & 0x8000_0000_0000_0000 != 0 then 0xffff_ffff_ffff_ffff else 0 }

  function ShiftSigned32(d: bv32): bv32 { (d >> 16) | (SignFill32(d) << 16) }

  function ShiftSigned64By16(d: bv64): bv64 { (d >> 16) | (SignFill64(d) << 48) }

  function ShiftSigned64By32(d: bv64): bv64 { (d >> 32) | (SignFill64(d) << 32) }

  function ShiftSigned64By48(d: bv64): bv64 { (d >> 48) | (SignFill64(d) << 16) }

  /** What a right shift of a negative operand leaves: the upper bits move down, and copies of the sign bit follow. */
  lemma ShiftKeepsSign32(d: bv32)
    ensures ShiftSigned32(d) << 16 == d & 0xffff_0000
    ensures ShiftSigned32(d) & 0xffff_8000 == if d & 0x8000_0000 != 0 then 0xffff_8000 else 0
  {
  }

  lemma ShiftKeepsSign64By16(d: bv64)
    ensures ShiftSigned64By16(d) << 16 == d & 0xffff_ffff_ffff_0000
    ensures ShiftSigned64By16(d) >> 47 == if d & 0x8000_0000_0000_0000 != 0 then 0x1_ffff else 0
  {
  }

  lemma ShiftKeepsSign64By32(d: bv64)
    ensures ShiftSigned64By32(d) << 32 == d & 0xffff_ffff_0000_0000
    ensures ShiftSigned64By32(d) >> 31 == if d & 0x8000_0000_0000_0000 != 0 then 0x1_ffff_ffff else 0
  {
  }

  lemma ShiftKeepsSign64By48(d: bv64)
    ensures ShiftSigned64By48(d) << 48 == d & 0xffff_0000_0000_0000
    ensures ShiftSigned64By48(d) >> 15 == if d & 0x8000_0000_0000_0000 != 0 then 0x1_ffff_ffff_ffff else 0
  {
  }

  /** The masks drop the copied sign bits, so the fragments are those of the bit pattern. */
  lemma SignedShift32(d: bv32)
    ensures ShiftSigned32(d) & 0xffff == Half1(d)
  {
  }

  lemma SignedShift64(d: bv64)
    ensures (ShiftSigned64By16(d) & 0xffff) as bv32 == Fragment1(d)
    ensures (ShiftSigned64By32(d) & 0xffff) as bv32 == Fragment2(d)
    ensures (ShiftSigned64By48(d) & 0xffff) as bv32 == Fragment3(d)
  {
  }

  /** The direct data of one fragment of a 64-bit value. */
  function Tagged64(more: bv32, kind: bv32, word: bv32): bv32 { more | kind | WIDTH_64 | word }

  lemma TagsMerge(kind: bv32, w: bv32)
    ensures Tagged64(SEQ_CONTINUE, kind, w) == Tagged(SEQ_CONTINUE, kind | WIDTH_64, w)
    ensures Tagged64(SEQ_END, kind, w) == Tagged(SEQ_END, kind | WIDTH_64, w)
  {
  }

  /** The four words of a 64-bit value, tagged as the emit functions tag them. */
  lemma TaggedFragments(kind: bv32, d: bv64)
    ensures Frame64(kind | WIDTH_64, d)
            == [RawWord(Tagged64(SEQ_CONTINUE, kind, Fragment0(d)))]
               + [RawWord(Tagged64(SEQ_CONTINUE, kind, Fragment1(d)))]
               + [RawWord(Tagged64(SEQ_CONTINUE, kind, Fragment2(d)))]
               + [RawWord(Tagged64(SEQ_END, kind, Fragment3(d)))]
  {
    hide RawWord, Tagged, Tagged64, Fragment0, Fragment1, Fragment2, Fragment3;
    TagsMerge(kind, Fragment0(d));
    TagsMerge(kind, Fragment1(d));
    TagsMerge(kind, Fragment2(d));
    TagsMerge(kind, Fragment3(d));
  }

  /** The direct data of one half of a 32-bit value. */
  function Tagged32(more: bv32, kind: bv32, word: bv32): bv32 { more | kind | WIDTH_32 | word }

  lemma TagsMerge32(kind: bv32, w: bv32)
    ensures Tagged32(SEQ_CONTINUE, kind, w) == Tagged(SEQ_CONTINUE, kind | WIDTH_32, w)
    ensures Tagged32(SEQ_END, kind, w) == Tagged(SEQ_END, kind | WIDTH_32, w)
  {
  }

  lemma TaggedHalves(kind: bv32, d: bv32)
    ensures Frame32(kind | WIDTH_32, d)
            == [RawWord(Tagged32(SEQ_CONTINUE, kind, Half0(d)))] + [RawWord(Tagged32(SEQ_END, kind, Half1(d)))]
  {
    hide RawWord, Tagged, Tagged32, Half0, Half1;
    TagsMerge32(kind, Half0(d));
    TagsMerge32(kind, Half1(d));
  }

  lemma Words32(d: bv32)
    ensures Words(U32(d)) == Frame32(TYPE_UINT | WIDTH_32, d)
    ensures Words(S32(d)) == Frame32(TYPE_INT | WIDTH_32, d)
    ensures Words(F32(d)) == Frame32(TYPE_FLOAT | WIDTH_32, d)
    ensures Words(P32(d)) == Frame32(TYPE_PTR | WIDTH_32, d)
  {
    hide Frame32;
  }

  lemma Words64(d: bv64)
    ensures Words(U64(d)) == Frame64(TYPE_UINT | WIDTH_64, d)
    ensures Words(S64(d)) == Frame64(TYPE_INT | WIDTH_64, d)
    ensures Words(F64(d)) == Frame64(TYPE_FLOAT | WIDTH_64, d)
  {
    hide Frame64;
  }

  /** The command register: csr lists the words written to it, oldest first. */
  class TraceUnit {
    var csr: seq<bv32>

    constructor ()
      ensures csr == []
    {
      csr := [];
    }

    method CsrWrite(w: bv32)
      modifies this
      ensures csr == old(csr) + [w]
    {
      csr := csr + [w];
    }

    method EmitDataRaw(data: bv32)
      modifies this
      ensures csr == old(csr) + [RawWord(data)]
    {
      CsrWrite(BuildCommandWord(CMD_DAQ_DIRECT_DATA, SINK_NEXUS, data));
    }

    method EmitMarker(tag: bv8)
      modifies this
      ensures csr == old(csr) + Words(Marker(tag))
    {
      CsrWrite(BuildCommandWord(CMD_DAQ_PC_CURR, SINK_NEXUS, tag as bv32));
    }

    method EmitPc()
      modifies this
      ensures csr == old(csr) + Words(Marker(0))
    {
      CsrWrite((CMD_DAQ_PC_CURR << 0) | (SINK_NEXUS << 6));
    }

    method EmitNop()
      modifies this
      ensures csr == old(csr) + Words(Nop)
    {
      CsrWrite((CMD_NONE << 0) | (SINK_NEXUS << 6));
    }

    method EmitSync()
      modifies this
      ensures csr == old(csr) + Words(Sync)
    {
      CsrWrite((CMD_CF_SYNC << 0) | (SINK_NEXUS << 6));
    }

    method EmitDataU8(data: bv8)
      modifies this
      ensures csr == old(csr) + Words(U8(data))
    {
      EmitDataRaw(SEQ_END | TYPE_UINT | WIDTH_8 | data as bv32);
    }

    method EmitDataU16(data: bv16)
      modifies this
      ensures csr == old(csr) + Words(U16(data))
    {
      EmitDataRaw(SEQ_END | TYPE_UINT | WIDTH_16 | data as bv32);
    }

    method EmitDataS8(data: bv8)
      modifies this
      ensures csr == old(csr) + Words(S8(data))
    {
      EmitDataRaw(SEQ_END | TYPE_INT | WIDTH_8 | data as bv32);
    }

    method EmitDataS16(data: bv16)
      modifies this
      ensures csr == old(csr) + Words(S16(data))
    {
      EmitDataRaw(SEQ_END | TYPE_INT | WIDTH_16 | data as bv32);
    }

    method EmitDataU32(data: bv32)
      modifies this
      ensures csr == old(csr) + Words(U32(data))
    {
      hide RawWord, Tagged32, Words, Frame32, Half0, Half1;
      Words32(data);
      TaggedHalves(TYPE_UINT, data);
      var word0, word1 := Split32(data);
      EmitDataRaw(Tagged32(SEQ_CONTINUE, TYPE_UINT, word0));
      EmitDataRaw(Tagged32(SEQ_END, TYPE_UINT, word1));
    }

    /** The fragment locals of the unsigned, floating-point and pointer 32-bit functions. */
    static method Split32(data: bv32) returns (word0: bv32, word1: bv32)
      ensures word0 == Half0(data)
      ensures word1 == Half1(data)
    {
      word0 := data & 0xffff;
      word1 := (data >> 16) & 0xffff;
    }

    /** The fragment locals of the signed 32-bit function, whose shift copies the sign bit in. */
    static method SplitSigned32(data: bv32) returns (word0: bv32, word1: bv32)
      ensures word0 == Half0(data)
      ensures word1 == Half1(data)
    {
      hide ShiftSigned32, Half1;
      SignedShift32(data);
      word0 := data & 0xffff;
      word1 := ShiftSigned32(data) & 0xffff;
    }

    /** The fragment locals of the unsigned and floating-point 64-bit functions. */
    static method Split64(data: bv64) returns (word0: bv32, word1: bv32, word2: bv32, word3: bv32)
      ensures word0 == Fragment0(data)
      ensures word1 == Fragment1(data)
      ensures word2 == Fragment2(data)
      ensures word3 == Fragment3(data)
    {
      word0 := (data & 0xffff) as bv32;
      word1 := ((data >> 16) & 0xffff) as bv32;
      word2 := ((data >> 32) & 0xffff) as bv32;
      word3 := ((data >> 48) & 0xffff) as bv32;
    }

    /** The fragment locals of the signed 64-bit function, whose shifts copy the sign bit in. */
    static method SplitSigned64(data: bv64) returns (word0: bv32, word1: bv32, word2: bv32, word3: bv32)
      ensures word0 == Fragment0(data)
      ensures word1 == Fragment1(data)
      ensures word2 == Fragment2(data)
      ensures word3 == Fragment3(data)
    {
      hide ShiftSigned64By16, ShiftSigned64By32, ShiftSigned64By48, Fragment1, Fragment2, Fragment3;
      SignedShift64(data);
      word0 := (data & 0xffff) as bv32;
      word1 := (ShiftSigned64By16(data) & 0xffff) as bv32;
      word2 := (ShiftSigned64By32(data) & 0xffff) as bv32;
      word3 := (ShiftSigned64By48(data) & 0xffff) as bv32;
    }

    method EmitDataU64(data: bv64)
      modifies this
      ensures csr == old(csr) + Words(U64(data))
    {
      hide RawWord, Tagged64, Words, Frame64, Fragment0, Fragment1, Fragment2, Fragment3;
      Words64(data);
      TaggedFragments(TYPE_UINT, data);
      var word0, word1, word2, word3 := Split64(data);
      EmitDataRaw(Tagged64(SEQ_CONTINUE, TYPE_UINT, word0));
      EmitDataRaw(Tagged64(SEQ_CONTINUE, TYPE_UINT, word1));
      EmitDataRaw(Tagged64(SEQ_CONTINUE, TYPE_UINT, word2));
      EmitDataRaw(Tagged64(SEQ_END, TYPE_UINT, word3));
    }

    method EmitDataS32(data: bv32)
      modifies this
      ensures csr == old(csr) + Words(S32(data))
    {
      hide RawWord, Tagged32, Words, Frame32, Half0, Half1;
      Words32(data);
      TaggedHalves(TYPE_INT, data);
      var word0, word1 := SplitSigned32(data);
      EmitDataRaw(Tagged32(SEQ_CONTINUE, TYPE_INT, word0));
      EmitDataRaw(Tagged32(SEQ_END, TYPE_INT, word1));
    }

    method EmitDataS64(data: bv64)
      modifies this
      ensures csr == old(csr) + Words(S64(data))
    {
      hide RawWord, Tagged64, Words, Frame64, Fragment0, Fragment1, Fragment2, Fragment3;
      Words64(data);
      TaggedFragments(TYPE_INT, data);
      var word0, word1, word2, word3 := SplitSigned64(data);
      EmitDataRaw(Tagged64(SEQ_CONTINUE, TYPE_INT, word0));
      EmitDataRaw(Tagged64(SEQ_CONTINUE, TYPE_INT, word1));
      EmitDataRaw(Tagged64(SEQ_CONTINUE, TYPE_INT, word2));
      EmitDataRaw(Tagged64(SEQ_END, TYPE_INT, word3));
    }

    method EmitDataF32(data: bv32)
      modifies this
      ensures csr == old(csr) + Words(F32(data))
    {
      hide RawWord, Tagged32, Words, Frame32, Half0, Half1;
      Words32(data);
      TaggedHalves(TYPE_FLOAT, data);
      var word0, word1 := Split32(data);
      EmitDataRaw(Tagged32(SEQ_CONTINUE, TYPE_FLOAT, word0));
      EmitDataRaw(Tagged32(SEQ_END, TYPE_FLOAT, word1));
    }

    method EmitDataF64(data: bv64)
      modifies this
      ensures csr == old(csr) + Words(F64(data))
    {
      hide RawWord, Tagged64, Words, Frame64, Fragment0, Fragment1, Fragment2, Fragment3;
      Words64(data);
      TaggedFragments(TYPE_FLOAT, data);
      var word0, word1, word2, word3 := Split64(data);
      EmitDataRaw(Tagged64(SEQ_CONTINUE, TYPE_FLOAT, word0));
      EmitDataRaw(Tagged64(SEQ_CONTINUE, TYPE_FLOAT, word1));
      EmitDataRaw(Tagged64(SEQ_CONTINUE, TYPE_FLOAT, word2));
      EmitDataRaw(Tagged64(SEQ_END, TYPE_FLOAT, word3));
    }

    method EmitDataP32(data: bv32)
      modifies this
      ensures csr == old(csr) + Words(P32(data))
    {
      hide RawWord, Tagged32, Words, Frame32, Half0, Half1;
      Words32(data);
      TaggedHalves(TYPE_PTR, data);
      var word0, word1 := Split32(data);
      EmitDataRaw(Tagged32(SEQ_CONTINUE, TYPE_PTR, word0));
      EmitDataRaw(Tagged32(SEQ_END, TYPE_PTR, word1));
    }

    method OwnershipTrace(id: bv16)
      modifies this
      ensures csr == old(csr) + Words(Owner(id))
    {
      EmitDataRaw(OWNERSHIP | id as bv32);
    }
  }
}
