/** ctrace_test.c: one of eight groups of test messages per call, chosen by a counter that wraps at 2^32. */
module CtraceTest {
  import opened Ctrace

  const WORD_MODULUS: nat := 0x1_0000_0000

  /** What the test reads from the processor and the linker: the misa register and its own address. */
  datatype Platform = Platform(misa: bv32, testMain: bv32)

  /** The messages of test phase k, where phase 1 writes the program counter (the word of marker 0) and a nop. */
  function TestMessages(p: Platform, k: nat): seq<Message>
    requires k < 8
  {
    if k == 0 then [Marker(0xde), Marker(0xad), Marker(0xbe), Marker(0xef)]
    else if k == 1 then [Marker(0), Nop]
    else if k == 2 then [U8(0), U16(0), U32(0), U64(0)]
    else if k == 3 then [U8(0xff), U16(0xffff), U32(0xffff_ffff), U64(0xffff_ffff_ffff_ffff)]
    else if k == 4 then [S8(0x80), S16(0x8000), S32(0x8000_0000), S64(0x8000_0000_0000_0000)]
    else if k == 5 then [S8(0x7f), S16(0x7fff), S32(0x7fff_ffff), S64(0x7fff_ffff_ffff_ffff)]
    else if k == 6 then
      [U32(0xdead_beef)]
      + (if p.misa & 0x20 != 0 then [F32(0x3f00_0000)] else [])
      + (if p.misa & 0x8 != 0 then [F64(0x4001_9999_9999_999a)] else [])
    else [P32(0), P32(p.testMain)]
  }

  function NextCounter(counter: nat): nat
    requires counter < WORD_MODULUS
  {
    if counter + 1 == WORD_MODULUS then 0 else counter + 1
  }

  /** The counter after n calls. */
  function CounterAfter(counter: nat, n: nat): (c: nat)
    requires counter < WORD_MODULUS
    ensures c < WORD_MODULUS
  {
    if n == 0 then counter else NextCounter(CounterAfter(counter, n - 1))
  }

  lemma NextPhase(counter: nat, x: nat)
    requires counter < WORD_MODULUS && counter % 8 == x % 8
    ensures NextCounter(counter) % 8 == (x + 1) % 8
  {
  }

  lemma {:induction false} CounterCounts(counter: nat, n: nat)
    requires counter < WORD_MODULUS
    ensures CounterAfter(counter, n) == (counter + n) % 0x1_0000_0000
  {
    if n > 0 {
      CounterCounts(counter, n - 1);
    }
  }

  /** The eight phases rotate in order from any initial counter; wrapping at 2^32 does not disturb them. */
  lemma {:induction false} PhasesRotate(counter: nat, n: nat)
    requires counter < WORD_MODULUS
    ensures CounterAfter(counter, n) % 8 == (counter + n) % 8
  {
    hide NextCounter;
    if n > 0 {
      PhasesRotate(counter, n - 1);
      NextPhase(CounterAfter(counter, n - 1), counter + n - 1);
    }
  }

  /** Phase 6 tests for single and double precision before it uses them. */
  lemma FloatPhase(p: Platform)
    ensures TestMessages(p, 6)
            == if p.misa & (1 << 5) != 0 && p.misa & (1 << 3) != 0
               then [U32(0xdead_beef), F32(0x3f00_0000), F64(0x4001_9999_9999_999a)]
               else if p.misa & (1 << 5) != 0 then [U32(0xdead_beef), F32(0x3f00_0000)]
               else if p.misa & (1 << 3) != 0 then [U32(0xdead_beef), F64(0x4001_9999_9999_999a)]
               else [U32(0xdead_beef)]
  {
  }

  // What the phases are for. Flipping the sign bit turns the signed order into the unsigned one.

  lemma PlainPhases(p: Platform)
    ensures TestMessages(p, 0) == [Marker(0xde), Marker(0xad), Marker(0xbe), Marker(0xef)]
    ensures TestMessages(p, 1) == [Marker(0), Nop]
    ensures TestMessages(p, 7) == [P32(0), P32(p.testMain)]
  {
  }

  /** Phases 2 and 3 write the smallest and the largest value of each unsigned width, narrowest first. */
  lemma UnsignedExtremes(p: Platform, a: bv8, b: bv16, c: bv32, d: bv64)
    ensures var ms := TestMessages(p, 2);
            && |ms| == 4 && ms[0].U8? && ms[1].U16? && ms[2].U32? && ms[3].U64?
            && ms[0].u8 <= a && ms[1].u16 <= b && ms[2].u32 <= c && ms[3].u64 <= d
    ensures var ms := TestMessages(p, 3);
            && |ms| == 4 && ms[0].U8? && ms[1].U16? && ms[2].U32? && ms[3].U64?
            && ms[0].u8 >= a && ms[1].u16 >= b && ms[2].u32 >= c && ms[3].u64 >= d
  {
  }

  /** Phases 4 and 5 write the smallest and the largest value of each signed width, narrowest first. */
  lemma SignedExtremes(p: Platform, a: bv8, b: bv16, c: bv32, d: bv64)
    ensures var ms := TestMessages(p, 4);
            && |ms| == 4 && ms[0].S8? && ms[1].S16? && ms[2].S32? && ms[3].S64?
            && ms[0].s8 ^ 0x80 <= a && ms[1].s16 ^ 0x8000 <= b && ms[2].s32 ^ 0x8000_0000 <= c
            && ms[3].s64 ^ 0x8000_0000_0000_0000 <= d
    ensures var ms := TestMessages(p, 5);
            && |ms| == 4 && ms[0].S8? && ms[1].S16? && ms[2].S32? && ms[3].S64?
            && ms[0].s8 ^ 0x80 >= a && ms[1].s16 ^ 0x8000 >= b && ms[2].s32 ^ 0x8000_0000 >= c
            && ms[3].s64 ^ 0x8000_0000_0000_0000 >= d
  {
  }

  /** Phase 6 writes 0.5 exactly: exponent 126 - 127 and no fraction. It writes the double nearest to 2.2: with 52 bits
      behind its point and exponent 1024 - 1023, ten times its significand is within half a step of 22 * 2^51. */
  lemma FloatValues(p: Platform)
    requires p.misa & 0x28 == 0x28
    ensures var ms := TestMessages(p, 6);
            && |ms| == 3 && ms[0] == U32(0xdead_beef) && ms[1].F32? && ms[2].F64?
            && ms[1].f32 >> 23 == 126 && ms[1].f32 & 0x7f_ffff == 0
            && ms[2].f64 >> 52 == 1024
            && var significand := 0x10_0000_0000_0000 | (ms[2].f64 & 0xf_ffff_ffff_ffff);
               10 * significand - 0xb0_0000_0000_0000 <= 5
  {
  }

  class TestProgram {
    const platform: Platform
    var counter: nat
    const unit: TraceUnit

    constructor (platform: Platform, counter: nat, unit: TraceUnit)
      requires counter < WORD_MODULUS
      ensures this.platform == platform && this.counter == counter && this.unit == unit
    {
      this.platform := platform;
      this.counter := counter;
      this.unit := unit;
    }

    /** ctrace_test_main: the whole group of the current phase is written, in order, and the counter moves on. */
    method TestMain()
      requires counter < WORD_MODULUS
      modifies this`counter, unit
      ensures unit.csr == old(unit.csr) + Encode(TestMessages(platform, old(counter) % 8))
      ensures counter == NextCounter(old(counter))
    {
      hide Words, Encode;
      var k := counter % 8;
      ghost var before := unit.csr;
      if k == 0 {
        unit.EmitMarker(0xde);
        unit.EmitMarker(0xad);
        unit.EmitMarker(0xbe);
        unit.EmitMarker(0xef);
        Append4(before, Marker(0xde), Marker(0xad), Marker(0xbe), Marker(0xef));
      } else if k == 1 {
        unit.EmitPc();
        unit.EmitNop();
        Append2(before, Marker(0), Nop);
      } else if k == 2 {
        unit.EmitDataU8(0);
        unit.EmitDataU16(0);
        unit.EmitDataU32(0);
        unit.EmitDataU64(0);
        Append4(before, U8(0), U16(0), U32(0), U64(0));
      } else if k == 3 {
        unit.EmitDataU8(0xff);
        unit.EmitDataU16(0xffff);
        unit.EmitDataU32(0xffff_ffff);
        unit.EmitDataU64(0xffff_ffff_ffff_ffff);
        Append4(before, U8(0xff), U16(0xffff), U32(0xffff_ffff), U64(0xffff_ffff_ffff_ffff));
      } else if k == 4 {
        unit.EmitDataS8(0x80);
        unit.EmitDataS16(0x8000);
        unit.EmitDataS32(0x8000_0000);
        unit.EmitDataS64(0x8000_0000_0000_0000);
        Append4(before, S8(0x80), S16(0x8000), S32(0x8000_0000), S64(0x8000_0000_0000_0000));
      } else if k == 5 {
        unit.EmitDataS8(0x7f);
        unit.EmitDataS16(0x7fff);
        unit.EmitDataS32(0x7fff_ffff);
        unit.EmitDataS64(0x7fff_ffff_ffff_ffff);
        Append4(before, S8(0x7f), S16(0x7fff), S32(0x7fff_ffff), S64(0x7fff_ffff_ffff_ffff));
      } else if k == 6 {
        unit.EmitDataU32(0xdead_beef);
        if platform.misa & (1 << 5) != 0 {
          unit.EmitDataF32(0x3f00_0000);
        }
        if platform.misa & (1 << 3) != 0 {
          unit.EmitDataF64(0x4001_9999_9999_999a);
        }
        FloatPhase(platform);
        Append1(before, U32(0xdead_beef));
        Append2(before, U32(0xdead_beef), F32(0x3f00_0000));
        Append2(before, U32(0xdead_beef), F64(0x4001_9999_9999_999a));
        Append3(before, U32(0xdead_beef), F32(0x3f00_0000), F64(0x4001_9999_9999_999a));
      } else {
        unit.EmitDataP32(0);
        unit.EmitDataP32(platform.testMain);
        Append2(before, P32(0), P32(platform.testMain));
      }
      counter := (counter + 1) % WORD_MODULUS;
    }
  }

  // Writing the words of a few messages one after another writes their encoding.

  lemma Append1(ws: seq<bv32>, a: Message)
    ensures ws + Words(a) == ws + Encode([a])
  {
    hide Words;
    assert Encode([a]) == Words(a) + Encode([]);
  }

  lemma Append2(ws: seq<bv32>, a: Message, b: Message)
    ensures ws + Words(a) + Words(b) == ws + Encode([a, b])
  {
    hide Words;
    Append1(ws, a);
    Append1(ws + Words(a), b);
    EncodeAppend([a], [b]);
    assert [a] + [b] == [a, b];
    assert ws + (Encode([a]) + Encode([b])) == ws + Encode([a]) + Encode([b]);
  }

  lemma Append3(ws: seq<bv32>, a: Message, b: Message, c: Message)
    ensures ws + Words(a) + Words(b) + Words(c) == ws + Encode([a, b, c])
  {
    hide Words;
    Append2(ws, a, b);
    Append1(ws + Words(a) + Words(b), c);
    EncodeAppend([a, b], [c]);
    assert [a, b] + [c] == [a, b, c];
    assert ws + (Encode([a, b]) + Encode([c])) == ws + Encode([a, b]) + Encode([c]);
  }

  lemma Append4(ws: seq<bv32>, a: Message, b: Message, c: Message, d: Message)
    ensures ws + Words(a) + Words(b) + Words(c) + Words(d) == ws + Encode([a, b, c, d])
  {
    hide Words;
    Append3(ws, a, b, c);
    Append1(ws + Words(a) + Words(b) + Words(c), d);
    EncodeAppend([a, b, c], [d]);
    assert [a, b, c] + [d] == [a, b, c, d];
    assert ws + (Encode([a, b, c]) + Encode([d])) == ws + Encode([a, b, c]) + Encode([d]);
  }
}
