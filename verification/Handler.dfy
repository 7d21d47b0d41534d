/** handler.c: the trap handler shows each interrupt source on its LED and lets the timer source tick the scheduler. */
module Handler {
  import opened Led
  import opened CtraceTest
  import opened Scheduler
  import opened SchedulerModel

  const SOURCES: nat := 4

  function SourceLed(k: nat): Name
    requires k < SOURCES
  {
    if k == 0 then LED_0 else if k == 1 then LED_1 else if k == 2 then LED_2 else LED_3
  }

  function SourceStatus(pending: seq<bool>, k: nat): bv8
    requires |pending| == SOURCES && k < SOURCES
  {
    if pending[k] then ON else OFF
  }

  /** The LED calls of one trap, in order. */
  function TrapCalls(pending: seq<bool>): seq<LedCall>
    requires |pending| == SOURCES
  {
    [LedCall(LED_0, SourceStatus(pending, 0)), LedCall(LED_1, SourceStatus(pending, 1)),
     LedCall(LED_2, SourceStatus(pending, 2)), LedCall(LED_3, SourceStatus(pending, 3))]
  }

  /** What a trap acknowledges. */
  datatype Ack = Timer0 | Timer1 | Input | Source(k: nat)

  function SourceAcks(k: nat, on: bool): seq<Ack>
    requires k < SOURCES
  {
    if !on then []
    else if k == 0 then [Timer0, Timer1, Source(0)]
    else if k == 2 then [Input, Source(2)]
    else [Source(k)]
  }

  /** The acknowledgements of one trap, in order. */
  function TrapAcks(pending: seq<bool>): seq<Ack>
    requires |pending| == SOURCES
  {
    SourceAcks(0, pending[0]) + SourceAcks(1, pending[1]) + SourceAcks(2, pending[2]) + SourceAcks(3, pending[3])
  }

  /** The timer source acknowledges both timers first, the input source the input register; every source itself. */
  lemma AcksOf(pending: seq<bool>)
    requires |pending| == 4
    ensures TrapAcks(pending)
            == (if pending[0] then [Timer0, Timer1, Source(0)] else [])
               + (if pending[1] then [Source(1)] else [])
               + (if pending[2] then [Input, Source(2)] else [])
               + (if pending[3] then [Source(3)] else [])
  {
  }

  lemma JoinAcks(was: seq<Ack>, a: seq<Ack>, b: seq<Ack>, c: seq<Ack>, d: seq<Ack>)
    ensures was + a + b + c + d == was + (a + b + c + d)
  {
  }

  lemma TrapToggles(reg: seq<bv8>, calls: seq<LedCall>)
    requires |reg| == REGISTER_BYTES && |calls| == 4
    ensures ToggleAll(reg, calls) == Toggle(Toggle(Toggle(Toggle(reg, calls[0]), calls[1]), calls[2]), calls[3])
  {
    hide Toggle, ToggleAll;
    assert calls == [calls[0]] + ([calls[1]] + ([calls[2]] + [calls[3]]));
    var r1 := Toggle(reg, calls[0]);
    var r2 := Toggle(r1, calls[1]);
    var r3 := Toggle(r2, calls[2]);
    ToggleOne(reg, calls[0]);
    ToggleOne(r1, calls[1]);
    ToggleOne(r2, calls[2]);
    ToggleOne(r3, calls[3]);
    ToggleAppend(reg, [calls[0]], [calls[1]] + ([calls[2]] + [calls[3]]));
    ToggleAppend(r1, [calls[1]], [calls[2]] + [calls[3]]);
    ToggleAppend(r2, [calls[2]], [calls[3]]);
  }

  lemma TrapByte(byte: bv8, s0: bv8, s1: bv8, s2: bv8, s3: bv8)
    ensures var b := Merge(Merge(Merge(Merge(byte, 1, s0), 2, s1), 4, s2), 8, s3);
            b == (byte & 0xf0) | (s0 & 1) | (s1 & 2) | (s2 & 4) | (s3 & 8)
  {
  }

  lemma StatusBits(s0: bv8, s1: bv8, s2: bv8, s3: bv8, byte: bv8)
    ensures ((byte & 0xf0) | (s0 & 1) | (s1 & 2) | (s2 & 4) | (s3 & 8)) & 1 == s0 & 1
    ensures ((byte & 0xf0) | (s0 & 1) | (s1 & 2) | (s2 & 4) | (s3 & 8)) & 2 == s1 & 2
    ensures ((byte & 0xf0) | (s0 & 1) | (s1 & 2) | (s2 & 4) | (s3 & 8)) & 4 == s2 & 4
    ensures ((byte & 0xf0) | (s0 & 1) | (s1 & 2) | (s2 & 4) | (s3 & 8)) & 8 == s3 & 8
    ensures ((byte & 0xf0) | (s0 & 1) | (s1 & 2) | (s2 & 4) | (s3 & 8)) & 0xf0 == byte & 0xf0
  {
  }

  /** After a trap LED k is lit exactly if source k was pending, and no other bit of the register has changed. */
  lemma TrapShows(reg: seq<bv8>, pending: seq<bool>)
    requires |reg| == REGISTER_BYTES && |pending| == SOURCES
    ensures var r := ToggleAll(reg, TrapCalls(pending));
            && (r[0] & 0x01 != 0 <==> pending[0]) && (r[0] & 0x02 != 0 <==> pending[1])
            && (r[0] & 0x04 != 0 <==> pending[2]) && (r[0] & 0x08 != 0 <==> pending[3])
            && r[0] & 0xf0 == reg[0] & 0xf0
            && r[1..] == reg[1..]
  {
    var s0, s1 := SourceStatus(pending, 0), SourceStatus(pending, 1);
    var s2, s3 := SourceStatus(pending, 2), SourceStatus(pending, 3);
    TrapToggles(reg, TrapCalls(pending));
    TrapByte(reg[0], s0, s1, s2, s3);
    StatusBits(s0, s1, s2, s3, reg[0]);
    hide Merge, ToggleAll;
  }

  class TrapHandler {
    const gpio: Gpio
    const scheduler: SchedulerProgram
    var heartbeat: nat
    var acks: seq<Ack>

    constructor (gpio: Gpio, scheduler: SchedulerProgram)
      ensures this.gpio == gpio && this.scheduler == scheduler && heartbeat == 0 && acks == []
    {
      this.gpio := gpio;
      this.scheduler := scheduler;
      heartbeat := 0;
      acks := [];
    }

    /** handle_trap: exceptions change nothing; an interrupt acknowledges and shows the pending sources, and source 0 is
        one heartbeat and one tick. */
    method HandleTrap(interrupt: bool, pending: seq<bool>)
      requires scheduler.Valid() && heartbeat < WORD_MODULUS
      requires gpio.bytes.Length == REGISTER_BYTES && |pending| == SOURCES
      requires gpio.bytes as object != scheduler.queue // the register and the queue are different memory
      modifies this, gpio.bytes, scheduler`ticks, scheduler`st, scheduler.queue
      ensures scheduler.Valid()
      ensures acks == old(acks) + if interrupt then TrapAcks(pending) else []
      ensures heartbeat == if interrupt && pending[0] then NextTicks(old(heartbeat)) else old(heartbeat)
      ensures gpio.bytes[..]
              == if interrupt then ToggleAll(old(gpio.bytes[..]), TrapCalls(pending)) else old(gpio.bytes[..])
      ensures scheduler.st == if interrupt && pending[0] then TickStep(old(scheduler.st)) else old(scheduler.st)
    {
      hide Toggle, ToggleAll, TickStep, SourceAcks;
      if interrupt {
        TrapToggles(gpio.bytes[..], TrapCalls(pending));
        JoinAcks(acks, SourceAcks(0, pending[0]), SourceAcks(1, pending[1]), SourceAcks(2, pending[2]),
                 SourceAcks(3, pending[3]));
        ShowTimer(pending[0]);
        ShowSource(1, pending[1]);
        ShowSource(2, pending[2]);
        ShowSource(3, pending[3]);
      }
    }

    method ShowTimer(on: bool)
      requires scheduler.Valid() && heartbeat < WORD_MODULUS && gpio.bytes.Length == REGISTER_BYTES
      requires gpio.bytes as object != scheduler.queue
      modifies this, gpio.bytes, scheduler`ticks, scheduler`st, scheduler.queue
      ensures scheduler.Valid()
      ensures acks == old(acks) + SourceAcks(0, on)
      ensures heartbeat == if on then NextTicks(old(heartbeat)) else old(heartbeat)
      ensures gpio.bytes[..] == Toggle(old(gpio.bytes[..]), LedCall(LED_0, if on then ON else OFF))
      ensures scheduler.st == if on then TickStep(old(scheduler.st)) else old(scheduler.st)
    {
      hide Toggle, TickStep, NextTicks;
      if on {
        acks := acks + [Timer0, Timer1, Source(0)];
        gpio.LedToggle(LED_0, ON);
        heartbeat := NextTicks(heartbeat);
        scheduler.Next();
      } else {
        gpio.LedToggle(LED_0, OFF);
      }
    }

    method ShowSource(k: nat, on: bool)
      requires 0 < k < SOURCES && gpio.bytes.Length == REGISTER_BYTES
      modifies this`acks, gpio.bytes
      ensures acks == old(acks) + SourceAcks(k, on)
      ensures gpio.bytes[..] == Toggle(old(gpio.bytes[..]), LedCall(SourceLed(k), if on then ON else OFF))
    {
      hide Toggle;
      if on {
        if k == 2 {
          acks := acks + [Input, Source(2)];
        } else {
          acks := acks + [Source(k)];
        }
        gpio.LedToggle(SourceLed(k), ON);
      } else {
        gpio.LedToggle(SourceLed(k), OFF);
      }
    }
  }
}
