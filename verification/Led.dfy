/** led.c: LEDs as bits of the GPIO output register, updated byte by byte with read, modify and write. */
module Led {

  datatype Name = LED_0 | LED_1 | LED_2 | LED_3 | BLOCK_0 | BLOCK_1 | UF_1 | UF_2

  const ON: bv8 := 0xff
  const OFF: bv8 := 0x00

  datatype LedCall = LedCall(led: Name, status: bv8)

  /** The bits of byte 3 of the register that belong to a LED. */
  function Mask0(led: Name): bv8 {
    match led
    case BLOCK_0 => 0xc0
    case UF_1 => 0x40
    case UF_2 => 0x80
    case _ => 0x00
  }

  /** The bits of byte 0 of the register that belong to a LED. */
  function Mask1(led: Name): bv8 {
    match led
    case LED_0 => 0x01
    case LED_1 => 0x02
    case LED_2 => 0x04
    case LED_3 => 0x08
    case BLOCK_1 => 0x0f
    case _ => 0x00
  }

  const REGISTER_BYTES: nat := 4

  /** The byte a call reads and writes; every LED lies in one byte only. */
  function ByteOf(led: Name): (k: nat)
    ensures k < REGISTER_BYTES
  {
    if Mask0(led) != 0 then 3 else 0
  }

  function MaskOf(led: Name): bv8 { if Mask0(led) != 0 then Mask0(led) else Mask1(led) }

  function Merge(byte: bv8, mask: bv8, status: bv8): bv8 { (byte & !mask) | (status & mask) }

  /** An uninterrupted call. */
  function Toggle(reg: seq<bv8>, c: LedCall): (r: seq<bv8>)
    requires |reg| == REGISTER_BYTES
    ensures |r| == REGISTER_BYTES
  {
    var k := ByteOf(c.led);
    reg[k := Merge(reg[k], MaskOf(c.led), c.status)]
  }

  /** Under the mask the new byte shows the status, elsewhere the old byte. */
  lemma MergeBits(byte: bv8, mask: bv8, status: bv8)
    ensures Merge(byte, mask, status) & mask == status & mask
    ensures Merge(byte, mask, status) & !mask == byte & !mask
  {
  }

  /** ON sets all bits of the mask, OFF clears them. */
  lemma OnAndOff(byte: bv8, mask: bv8)
    ensures Merge(byte, mask, ON) == byte | mask
    ensures Merge(byte, mask, OFF) == byte & !mask
  {
  }

  /** Which bits of which byte each LED drives. */
  lemma LedBits(reg: seq<bv8>, s: bv8)
    requires |reg| == 4
    ensures Toggle(reg, LedCall(LED_0, s)) == reg[0 := Merge(reg[0], 0x01, s)]
    ensures Toggle(reg, LedCall(LED_1, s)) == reg[0 := Merge(reg[0], 0x02, s)]
    ensures Toggle(reg, LedCall(LED_2, s)) == reg[0 := Merge(reg[0], 0x04, s)]
    ensures Toggle(reg, LedCall(LED_3, s)) == reg[0 := Merge(reg[0], 0x08, s)]
    ensures Toggle(reg, LedCall(BLOCK_1, s)) == reg[0 := Merge(reg[0], 0x0f, s)]
    ensures Toggle(reg, LedCall(BLOCK_0, s)) == reg[3 := Merge(reg[3], 0xc0, s)]
    ensures Toggle(reg, LedCall(UF_1, s)) == reg[3 := Merge(reg[3], 0x40, s)]
    ensures Toggle(reg, LedCall(UF_2, s)) == reg[3 := Merge(reg[3], 0x80, s)]
  {
    hide Merge;
  }

  function ToggleAll(reg: seq<bv8>, calls: seq<LedCall>): (r: seq<bv8>)
    requires |reg| == REGISTER_BYTES
    ensures |r| == REGISTER_BYTES
    decreases |calls|
  {
    if calls == [] then reg else ToggleAll(Toggle(reg, calls[0]), calls[1..])
  }

  lemma {:induction false} ToggleAppend(reg: seq<bv8>, a: seq<LedCall>, b: seq<LedCall>)
    requires |reg| == REGISTER_BYTES
    ensures ToggleAll(reg, a + b) == ToggleAll(ToggleAll(reg, a), b)
    decreases |a|
  {
    hide Toggle;
    if a == [] {
      assert a + b == b;
    } else {
      assert (a + b)[1..] == a[1..] + b;
      ToggleAppend(Toggle(reg, a[0]), a[1..], b);
    }
  }

  lemma ToggleNone(reg: seq<bv8>)
    requires |reg| == REGISTER_BYTES
    ensures ToggleAll(reg, []) == reg
  {
  }

  lemma ToggleOne(reg: seq<bv8>, c: LedCall)
    requires |reg| == REGISTER_BYTES
    ensures ToggleAll(reg, [c]) == Toggle(reg, c)
  {
    hide Toggle;
    assert [c][1..] == [];
  }

  /** A call by the main program, with the interrupt handler's calls isr falling between its load and its store. */
  function Interrupted(reg: seq<bv8>, c: LedCall, isr: seq<LedCall>): (r: seq<bv8>)
    requires |reg| == REGISTER_BYTES
    ensures |r| == REGISTER_BYTES
  {
    var k := ByteOf(c.led);
    var loaded := reg[k];
    ToggleAll(reg, isr)[k := Merge(loaded, MaskOf(c.led), c.status)]
  }

  // ---------------------------------------------------------------------------------------------
  // Lost updates
  // ---------------------------------------------------------------------------------------------

  /** The handler's call touches no bit of the byte that main's call merely writes back. */
  predicate Covered(main: Name, isr: Name) {
    ByteOf(main) != ByteOf(isr) || MaskOf(isr) & !MaskOf(main) == 0
  }

  lemma CoveredToggle(reg: seq<bv8>, main: Name, c: LedCall)
    requires |reg| == REGISTER_BYTES && Covered(main, c.led)
    ensures var k := ByteOf(main);
            Toggle(reg, c)[k] & !MaskOf(main) == reg[k] & !MaskOf(main)
  {
    var k := ByteOf(main);
    if ByteOf(c.led) == k {
      OutsideMask(reg[k], MaskOf(c.led), c.status, MaskOf(main));
    }
  }

  lemma OutsideMask(byte: bv8, mask: bv8, status: bv8, keep: bv8)
    requires mask & !keep == 0
    ensures Merge(byte, mask, status) & !keep == byte & !keep
  {
  }

  lemma {:induction false} CoveredToggles(reg: seq<bv8>, main: Name, isr: seq<LedCall>)
    requires |reg| == REGISTER_BYTES && forall i :: 0 <= i < |isr| ==> Covered(main, isr[i].led)
    ensures var k := ByteOf(main);
            ToggleAll(reg, isr)[k] & !MaskOf(main) == reg[k] & !MaskOf(main)
    decreases |isr|
  {
    hide Toggle, Covered, MaskOf, ByteOf;
    if isr != [] {
      assert forall i :: 0 <= i < |isr[1..]| ==> isr[1..][i] == isr[i + 1];
      CoveredToggle(reg, main, isr[0]);
      CoveredToggles(Toggle(reg, isr[0]), main, isr[1..]);
    }
  }

  /** An interrupted call acts as if the handler's calls had come first. */
  lemma InterruptedLinearises(reg: seq<bv8>, c: LedCall, isr: seq<LedCall>)
    requires |reg| == REGISTER_BYTES && forall i :: 0 <= i < |isr| ==> Covered(c.led, isr[i].led)
    ensures Interrupted(reg, c, isr) == ToggleAll(reg, isr + [c])
  {
    CoveredToggles(reg, c.led, isr);
    ToggleAppend(reg, isr, [c]);
    var mid := ToggleAll(reg, isr);
    ToggleOne(mid, c);
    SameMerge(reg[ByteOf(c.led)], mid[ByteOf(c.led)], MaskOf(c.led), c.status);
  }

  lemma SameMerge(a: bv8, b: bv8, mask: bv8, status: bv8)
    requires a & !mask == b & !mask
    ensures Merge(a, mask, status) == Merge(b, mask, status)
  {
  }

  /** The handler's call takes effect although it falls into main's call. */
  predicate Survives(reg: seq<bv8>, main: LedCall, isr: LedCall)
    requires |reg| == REGISTER_BYTES
  {
    Interrupted(reg, main, [isr]) == ToggleAll(reg, [isr, main])
  }

  ghost predicate NeverLost(main: Name, isr: Name) {
    forall reg: seq<bv8>, s: bv8, t: bv8 :: |reg| == REGISTER_BYTES ==> Survives(reg, LedCall(main, s), LedCall(isr, t))
  }

  /** Exactly the covered pairs are safe: for any other pair some register and statuses lose the handler's update. */
  lemma SafeExactlyIfCovered(main: Name, isr: Name)
    ensures NeverLost(main, isr) <==> Covered(main, isr)
  {
    hide Survives, Covered;
    if Covered(main, isr) {
      forall reg: seq<bv8>, s: bv8, t: bv8 | |reg| == REGISTER_BYTES
        ensures Survives(reg, LedCall(main, s), LedCall(isr, t))
      {
        CoveredSurvives(reg, LedCall(main, s), LedCall(isr, t));
      }
    } else {
      LostUpdate(main, isr);
    }
  }

  lemma CoveredSurvives(reg: seq<bv8>, main: LedCall, isr: LedCall)
    requires |reg| == REGISTER_BYTES && Covered(main.led, isr.led)
    ensures Survives(reg, main, isr)
  {
    hide Interrupted, ToggleAll, Covered;
    InterruptedLinearises(reg, main, [isr]);
    assert [isr] + [main] == [isr, main];
  }

  /** An uncovered LED, switched on by the handler while main updates another LED of the byte, stays off. */
  lemma LostUpdate(main: Name, isr: Name)
    requires !Covered(main, isr)
    ensures !Survives([0, 0, 0, 0], LedCall(main, OFF), LedCall(isr, ON))
  {
    var k := ByteOf(main);
    var reg: seq<bv8> := [0, 0, 0, 0];
    TwoToggles(reg, LedCall(isr, ON), LedCall(main, OFF), k);
    SwitchedOn(MaskOf(isr), MaskOf(main));
    hide MaskOf, ByteOf, Merge, ToggleAll;
  }

  /** The byte that two calls share, updated by both in turn and by an interrupted second call. */
  lemma TwoToggles(reg: seq<bv8>, first: LedCall, second: LedCall, k: nat)
    requires |reg| == REGISTER_BYTES && k == ByteOf(first.led) == ByteOf(second.led)
    ensures ToggleAll(reg, [first, second])[k]
            == Merge(Merge(reg[k], MaskOf(first.led), first.status), MaskOf(second.led), second.status)
    ensures Interrupted(reg, second, [first])[k] == Merge(reg[k], MaskOf(second.led), second.status)
  {
    hide MaskOf, Merge, ByteOf, ToggleAll;
    var one := Toggle(reg, first);
    ToggleOne(reg, first);
    ToggleOne(one, second);
    ToggleAppend(reg, [first], [second]);
    assert [first] + [second] == [first, second];
  }

  lemma SwitchedOn(on: bv8, off: bv8)
    requires on & !off != 0
    ensures Merge(Merge(0, on, ON), off, OFF) != Merge(0, off, OFF)
  {
  }

  // ---------------------------------------------------------------------------------------------
  // The firmware's call sites
  // ---------------------------------------------------------------------------------------------

  /** What the main program and the trap handler do to the register, in time order: a handler call outside any main
      call, or a main call with the handler calls that interrupt it. */
  datatype Item = Handler(call: LedCall) | Main(call: LedCall, isr: seq<LedCall>)

  function Perform(reg: seq<bv8>, items: seq<Item>): (r: seq<bv8>)
    requires |reg| == REGISTER_BYTES
    ensures |r| == REGISTER_BYTES
    decreases |items|
  {
    if items == [] then reg
    else
      Perform(match items[0]
              case Handler(c) => Toggle(reg, c)
              case Main(c, isr) => Interrupted(reg, c, isr), items[1..])
  }

  /** The sequential order of the calls: each main call takes effect at its store. */
  function Sequential(items: seq<Item>): seq<LedCall> {
    if items == [] then []
    else (match items[0] case Handler(c) => [c] case Main(c, isr) => isr + [c]) + Sequential(items[1..])
  }

  /** Main drives the block and UF LEDs, the trap handler the four single ones. */
  predicate MainSite(led: Name) { led == UF_1 || led == UF_2 || led == BLOCK_0 || led == BLOCK_1 }

  predicate HandlerSite(led: Name) { led == LED_0 || led == LED_1 || led == LED_2 || led == LED_3 }

  predicate FirmwareCalls(items: seq<Item>) {
    forall i :: 0 <= i < |items| ==>
      match items[i]
      case Handler(c) => HandlerSite(c.led)
      case Main(c, isr) => MainSite(c.led) && forall j :: 0 <= j < |isr| ==> HandlerSite(isr[j].led)
  }

  lemma Sites(led: Name)
    ensures MainSite(led) <==> led in {UF_1, UF_2, BLOCK_0, BLOCK_1}
    ensures HandlerSite(led) <==> led in {LED_0, LED_1, LED_2, LED_3}
  {
  }

  lemma FirmwareCovered(main: Name, isr: Name)
    requires MainSite(main) && HandlerSite(isr)
    ensures Covered(main, isr)
  {
  }

  /** LED updates linearise: whatever falls between main's loads and stores, the register ends as some sequential order
      of all calls leaves it. */
  lemma {:induction false} UpdatesLinearise(reg: seq<bv8>, items: seq<Item>)
    requires |reg| == REGISTER_BYTES && FirmwareCalls(items)
    ensures Perform(reg, items) == ToggleAll(reg, Sequential(items))
    decreases |items|
  {
    hide Toggle, Interrupted, Covered, MainSite, HandlerSite;
    if items != [] {
      var item, rest := items[0], items[1..];
      assert forall i :: 0 <= i < |rest| ==> rest[i] == items[i + 1];
      match item {
        case Handler(c) =>
          UpdatesLinearise(Toggle(reg, c), rest);
          ToggleAppend(reg, [c], Sequential(rest));
          assert [c][1..] == [];
        case Main(c, isr) =>
          forall j | 0 <= j < |isr|
            ensures Covered(c.led, isr[j].led)
          {
            FirmwareCovered(c.led, isr[j].led);
          }
          InterruptedLinearises(reg, c, isr);
          UpdatesLinearise(Interrupted(reg, c, isr), rest);
          ToggleAppend(reg, isr + [c], Sequential(rest));
      }
    }
  }

  // ---------------------------------------------------------------------------------------------
  // What each LED shows
  // ---------------------------------------------------------------------------------------------

  predicate SingleBit(m: bv8) {
    m == 1 || m == 2 || m == 4 || m == 8 || m == 16 || m == 32 || m == 64 || m == 128
  }

  predicate Covers(c: LedCall, k: nat, m: bv8) { ByteOf(c.led) == k && MaskOf(c.led) & m != 0 }

  /** Bit m of byte k as set by the last call that covers it. */
  function LastShown(reg: seq<bv8>, calls: seq<LedCall>, k: nat, m: bv8): bv8
    requires k < |reg|
  {
    if calls == [] then reg[k] & m
    else
      var last := calls[|calls| - 1];
      if Covers(last, k, m) then last.status & m else LastShown(reg, calls[..|calls| - 1], k, m)
  }

  lemma ToggledBit(reg: seq<bv8>, c: LedCall, k: nat, m: bv8)
    requires |reg| == REGISTER_BYTES && k < REGISTER_BYTES && SingleBit(m)
    ensures Toggle(reg, c)[k] & m == if Covers(c, k, m) then c.status & m else reg[k] & m
  {
  }

  lemma LastShownNone(reg: seq<bv8>, k: nat, m: bv8)
    requires k < |reg|
    ensures LastShown(reg, [], k, m) == reg[k] & m
  {
  }

  lemma LastShownMore(reg: seq<bv8>, calls: seq<LedCall>, c: LedCall, k: nat, m: bv8)
    requires k < |reg|
    ensures LastShown(reg, calls + [c], k, m) == if Covers(c, k, m) then c.status & m else LastShown(reg, calls, k, m)
  {
    hide Covers;
    assert (calls + [c])[..|calls|] == calls;
  }

  /** Every bit of the register shows the last call covering it, or what it held before. */
  lemma {:induction false} ShowsLastCall(reg: seq<bv8>, calls: seq<LedCall>, k: nat, m: bv8)
    requires |reg| == REGISTER_BYTES && k < REGISTER_BYTES && SingleBit(m)
    ensures ToggleAll(reg, calls)[k] & m == LastShown(reg, calls, k, m)
    decreases |calls|
  {
    hide ToggleAll, Toggle, Covers, SingleBit, LastShown;
    if calls == [] {
      LastShownNone(reg, k, m);
      ToggleNone(reg);
    } else {
      var front, last := calls[..|calls| - 1], calls[|calls| - 1];
      ShowsLastCall(reg, front, k, m);
      assert calls == front + [last];
      ToggleAppend(reg, front, [last]);
      ToggleOne(ToggleAll(reg, front), last);
      ToggledBit(ToggleAll(reg, front), last, k, m);
      LastShownMore(reg, front, last, k, m);
    }
  }

  // ---------------------------------------------------------------------------------------------
  // The register in memory
  // ---------------------------------------------------------------------------------------------

  class Gpio {
    const bytes: array<bv8>

    constructor (bytes: array<bv8>)
      ensures this.bytes == bytes
    {
      this.bytes := bytes;
    }

    /** led_toggle, uninterrupted. */
    method LedToggle(led: Name, status: bv8)
      requires bytes.Length == REGISTER_BYTES
      modifies bytes
      ensures bytes[..] == Toggle(old(bytes[..]), LedCall(led, status))
    {
      var mask0: bv8 := 0x00;
      var mask1: bv8 := 0x00;
      match led {
        case LED_0 => mask1 := 0x01;
        case LED_1 => mask1 := 0x02;
        case LED_2 => mask1 := 0x04;
        case LED_3 => mask1 := 0x08;
        case BLOCK_0 => mask0 := 0xc0;
        case BLOCK_1 => mask1 := 0x0f;
        case UF_1 => mask0 := 0x40;
        case UF_2 => mask0 := 0x80;
      }
      if mask0 != 0 {
        bytes[3] := (bytes[3] & !mask0) | (status & mask0);
      }
      if mask1 != 0 {
        bytes[0] := (bytes[0] & !mask1) | (status & mask1);
      }
    }

    /** led_toggle from main, with the trap handler's calls between the load and the store of the byte. */
    method LedToggleInterrupted(led: Name, status: bv8, isr: seq<LedCall>)
      requires bytes.Length == REGISTER_BYTES
      requires MainSite(led) && forall j :: 0 <= j < |isr| ==> HandlerSite(isr[j].led)
      modifies bytes
      ensures bytes[..] == ToggleAll(old(bytes[..]), isr + [LedCall(led, status)])
    {
      ghost var before := bytes[..];
      var k := ByteOf(led);
      var loaded := bytes[k];
      assert isr[..0] == [];
      for i := 0 to |isr|
        invariant bytes[..] == ToggleAll(before, isr[..i])
      {
        assert isr[..i + 1] == isr[..i] + [isr[i]];
        ToggleAppend(before, isr[..i], [isr[i]]);
        assert [isr[i]][1..] == [];
        LedToggle(isr[i].led, isr[i].status);
      }
      assert isr[..|isr|] == isr;
      bytes[k] := (loaded & !MaskOf(led)) | (status & MaskOf(led));
      forall j | 0 <= j < |isr|
        ensures Covered(led, isr[j].led)
      {
        FirmwareCovered(led, isr[j].led);
      }
      InterruptedLinearises(before, LedCall(led, status), isr);
      assert bytes[..] == Interrupted(before, LedCall(led, status), isr);
    }
  }
}
