/** The FT245R reader: a bus handshake that drops the read strobe, waits
    a setup time, latches the data pins into a byte stream register, holds
    for the slave skew, releases the strobe and waits the precharge time
    before the next read. Its timing comes from a counter started by the
    `rd_in` input. */
module BusReceiver {
  import opened Signals

  /** `ceil(a / b)`, the smallest number of `b`-long steps covering `a`. */
  function CeilDiv(a: nat, b: nat): (q: nat)
    requires b > 0
    ensures q * b >= a
    ensures q * b < a + b
  {
    var q := (a + b - 1) / b;
    assert q * b + (a + b - 1) % b == a + b - 1;
    q
  }

  /** The counter values at which the events of one read cycle fire. */
  datatype Timing = Timing(latch: nat, drop: nat, refill: nat)

  /** Events in the order of the cycle, each a step after the previous. */
  predicate WellFormed(t: Timing)
  {
    1 <= t.latch < t.drop < t.refill
  }

  /** The timing for a clock period of `clk` ns: the 50 ns data setup time
      after the strobe falls, 20 ns of slave skew, then 50 ns of precharge
      with the strobe high; each rounded up to whole clock cycles. */
  function TimingFor(clk: nat): (t: Timing)
    requires clk > 0
    ensures WellFormed(t)
    ensures 50 <= t.latch * clk < 50 + clk
    ensures 20 <= (t.drop - t.latch) * clk < 20 + clk
    ensures 50 <= (t.refill - t.drop) * clk < 50 + clk
  {
    var setup := CeilDiv(50, clk);
    var skew := CeilDiv(20, clk);
    var precharge := CeilDiv(50, clk);
    AtLeastOne(setup, clk, 50);
    AtLeastOne(skew, clk, 20);
    AtLeastOne(precharge, clk, 50);
    Timing(setup, setup + skew, setup + skew + precharge)
  }

  lemma AtLeastOne(q: nat, b: nat, a: nat)
    requires a >= 1 && q * b >= a
    ensures q >= 1
  {
  }

  /** At the default 10 ns clock the events are at 5, 7 and 12. */
  lemma DefaultTiming()
    ensures TimingFor(10) == Timing(5, 7, 12)
  {
    assert CeilDiv(50, 10) == 5;
    assert CeilDiv(20, 10) == 2;
  }

  /** The inputs of one cycle: the chip's receive-FIFO-empty flag (active
      low), the read request from the master, and the data pins. */
  datatype Pins = Pins(rxfl: bool, rdIn: bool, data: Byte)

  /** The registers: the read strobe towards the chip and the slaves, the
      byte stream's `stb` and `payload`, the `reading` flag and the timeline
      counter. */
  datatype RxRegs = RxRegs(rdOut: bool, stb: bool, payload: Byte, reading: bool, counter: nat)

  /** Register values after reset. */
  const Idle: RxRegs := RxRegs(false, false, 0, false, 0)

  /** The timeline counter, an assumption about the library primitive: 0 to
      1 when `rd_in` is high at 0, then one up per cycle, back to 0 after the
      last event. */
  function NextCounter(t: Timing, counter: nat, rdIn: bool): nat
  {
    if counter == t.refill then 0
    else if counter != 0 then counter + 1
    else if rdIn then 1
    else 0
  }

  /** The registers at the next clock edge. The statements are applied in
      order and the last assignment wins, so the strobe drop overrides the
      idle rule for `rd_out` and the capture overrides the `ack` clear. */
  function NextRx(t: Timing, r: RxRegs, p: Pins, ack: bool): RxRegs
  {
    RxRegs(
      rdOut := if r.counter == t.drop then false
               else if !r.reading && !p.rdIn then !p.rxfl
               else r.rdOut,
      stb := if r.counter == t.latch then true else r.stb && !ack,
      payload := if r.counter == t.latch then p.data else r.payload,
      reading := if r.counter == t.refill then false
                 else if p.rdIn && r.counter == 0 then true
                 else r.reading,
      counter := NextCounter(t, r.counter, p.rdIn))
  }

  /** The strobe pin to the chip, active low. */
  function Rdl(r: RxRegs): bool
  {
    !r.rdOut
  }

  /** The `busy` output: high when no byte is pending or the pending one is
      acknowledged in this cycle. */
  function Busy(r: RxRegs, ack: bool): bool
  {
    !r.stb || ack
  }

  /** `reading` is the counter being inside a read cycle. */
  predicate RxInv(t: Timing, r: RxRegs)
  {
    r.counter <= t.refill && (r.reading <==> r.counter != 0)
  }

  lemma KeepsInv(t: Timing, r: RxRegs, p: Pins, ack: bool)
    requires WellFormed(t) && RxInv(t, r)
    ensures RxInv(t, NextRx(t, r, p, ack))
  {
  }

  /** `busy` is low exactly when a byte is pending and not acknowledged:
      the opposite of "data available but not acknowledged". */
  lemma BusyIsNotPending(r: RxRegs, ack: bool)
    ensures Busy(r, ack) <==> !(r.stb && !ack)
  {
  }

  /** A pending byte stays pending until a cycle with `ack`, which clears
      it unless a new byte is captured in that same cycle. */
  lemma StbHeldUntilAck(t: Timing, r: RxRegs, p: Pins, ack: bool)
    ensures r.stb && !ack ==> NextRx(t, r, p, ack).stb
    ensures r.counter != t.latch ==> (NextRx(t, r, p, ack).stb <==> r.stb && !ack)
  {
  }

  /** The data pins are captured, and made pending, exactly at the latch
      event; otherwise the payload register holds. */
  lemma CaptureAtLatch(t: Timing, r: RxRegs, p: Pins, ack: bool)
    ensures r.counter == t.latch ==> NextRx(t, r, p, ack).stb && NextRx(t, r, p, ack).payload == p.data
    ensures r.counter != t.latch ==> NextRx(t, r, p, ack).payload == r.payload
  {
  }

  /** The strobe is forced low at the drop event; otherwise it follows the
      negated FIFO flag when idle with `rd_in` low, and holds. */
  lemma RdOutRules(t: Timing, r: RxRegs, p: Pins, ack: bool)
    ensures r.counter == t.drop ==> !NextRx(t, r, p, ack).rdOut
    ensures r.counter != t.drop && !r.reading && !p.rdIn ==> NextRx(t, r, p, ack).rdOut == !p.rxfl
    ensures r.counter != t.drop && (r.reading || p.rdIn) ==> NextRx(t, r, p, ack).rdOut == r.rdOut
  {
  }

  /** `reading` is raised by `rd_in` at counter 0, lowered at the refill
      event, and otherwise held; while it is raised the idle rule for
      `rd_out` cannot fire. */
  lemma ReadingRules(t: Timing, r: RxRegs, p: Pins, ack: bool)
    requires WellFormed(t) && RxInv(t, r)
    ensures r.counter == 0 && p.rdIn ==> NextRx(t, r, p, ack).reading && NextRx(t, r, p, ack).counter == 1
    ensures r.counter == 0 && !p.rdIn ==> !NextRx(t, r, p, ack).reading && NextRx(t, r, p, ack).counter == 0
    ensures r.counter == t.refill ==> !NextRx(t, r, p, ack).reading && NextRx(t, r, p, ack).counter == 0
    ensures 0 < r.counter < t.refill ==> NextRx(t, r, p, ack).reading && NextRx(t, r, p, ack).counter == r.counter + 1
    ensures r.reading && r.counter != t.drop ==> NextRx(t, r, p, ack).rdOut == r.rdOut
  {
  }

  /** The inputs of one cycle. */
  datatype Input = Input(pins: Pins, ack: bool)

  /** The registers after one step per element of `ins`. */
  function RunRx(t: Timing, r: RxRegs, ins: seq<Input>): RxRegs
    decreases |ins|
  {
    if ins == [] then r else RunRx(t, NextRx(t, r, ins[0].pins, ins[0].ack), ins[1..])
  }

  /** Some cycle of `ins` acknowledges. */
  predicate AnyAck(ins: seq<Input>)
    decreases |ins|
  {
    ins != [] && (ins[0].ack || AnyAck(ins[1..]))
  }

  /** The rest of a read cycle, from counter value `r.counter` through the
      refill event: the counter and `reading` return to idle, the payload is
      the data seen at the latch event, the byte is pending unless some later
      cycle acknowledges it, and the strobe ends low once the drop event has
      passed. */
  lemma {:induction false} CycleTail(t: Timing, r: RxRegs, ins: seq<Input>)
    requires WellFormed(t) && RxInv(t, r) && 1 <= r.counter
    requires |ins| == t.refill - r.counter + 1
    ensures var f := RunRx(t, r, ins);
      && f.counter == 0 && !f.reading
      && f.payload == (if r.counter <= t.latch then ins[t.latch - r.counter].pins.data else r.payload)
      && f.stb == (if r.counter <= t.latch then !AnyAck(ins[t.latch - r.counter + 1..]) else r.stb && !AnyAck(ins))
      && f.rdOut == (r.counter > t.drop && r.rdOut)
    decreases |ins|
  {
    var r1 := NextRx(t, r, ins[0].pins, ins[0].ack);
    assert RunRx(t, r, ins) == RunRx(t, r1, ins[1..]);
    assert AnyAck(ins) == (ins[0].ack || AnyAck(ins[1..]));
    if r.counter == t.refill {
      assert ins[1..] == [];
      assert !AnyAck(ins[1..]);
    } else {
      KeepsInv(t, r, ins[0].pins, ins[0].ack);
      CycleTail(t, r1, ins[1..]);
      if r.counter < t.latch {
        assert ins[1..][t.latch - r1.counter] == ins[t.latch - r.counter];
        assert ins[1..][t.latch - r1.counter + 1..] == ins[t.latch - r.counter + 1..];
      } else if r.counter == t.latch {
        assert ins[t.latch - r.counter + 1..] == ins[1..];
      }
    }
  }

  /** A whole read cycle from idle, started by `rd_in`, lasts `refill + 1`
      cycles. In it exactly the data pins of the latch cycle are captured,
      the byte stays pending unless acknowledged after that cycle, and the
      receiver ends idle with the strobe low. */
  lemma ReadCycle(t: Timing, r: RxRegs, ins: seq<Input>)
    requires WellFormed(t) && RxInv(t, r) && r.counter == 0
    requires |ins| == t.refill + 1 && ins[0].pins.rdIn
    ensures var f := RunRx(t, r, ins);
      && f.counter == 0 && !f.reading && !f.rdOut
      && f.payload == ins[t.latch].pins.data
      && f.stb == !AnyAck(ins[t.latch + 1..])
  {
    var r1 := NextRx(t, r, ins[0].pins, ins[0].ack);
    assert RunRx(t, r, ins) == RunRx(t, r1, ins[1..]);
    CycleTail(t, r1, ins[1..]);
    assert ins[1..][t.latch - 1] == ins[t.latch];
    assert ins[1..][t.latch..] == ins[t.latch + 1..];
  }

  /** The reader with its registers. */
  class Ft245rRx {
    const t: Timing
    var rdOut: bool
    var stb: bool
    var payload: Byte
    var reading: bool
    var counter: nat

    ghost predicate Valid()
      reads this
    {
      WellFormed(t) && RxInv(t, Registers())
    }

    function Registers(): RxRegs
      reads this
    {
      RxRegs(rdOut, stb, payload, reading, counter)
    }

    /** A reader for a clock period of `clk` ns. */
    constructor (clk: nat)
      requires clk > 0
      ensures Valid() && t == TimingFor(clk) && Registers() == Idle
    {
      t := TimingFor(clk);
      rdOut, stb, payload, reading, counter := false, false, 0, false, 0;
    }

    /** One clock cycle. Returns the combinational outputs of the cycle,
        the chip's strobe `rdl` and `busy`. */
    method Step(p: Pins, ack: bool) returns (rdl: bool, busy: bool)
      requires Valid()
      modifies this
      ensures Valid()
      ensures rdl == Rdl(old(Registers())) && busy == Busy(old(Registers()), ack)
      ensures Registers() == NextRx(t, old(Registers()), p, ack)
    {
      rdl := !rdOut;
      busy := !stb || ack;
      var rdOut', stb', payload', reading' := rdOut, stb && !ack, payload, reading;
      if !reading && !p.rdIn {
        rdOut' := !p.rxfl;
      }
      var counter': nat;
      if counter == t.refill {
        counter' := 0;
      } else if counter != 0 {
        counter' := counter + 1;
      } else if p.rdIn {
        counter' := 1;
      } else {
        counter' := 0;
      }
      if p.rdIn && counter == 0 {
        reading' := true;
      }
      if counter == t.latch {
        stb', payload' := true, p.data;
      }
      if counter == t.drop {
        rdOut' := false;
      }
      if counter == t.refill {
        reading' := false;
      }
      KeepsInv(t, Registers(), p, ack);
      rdOut, stb, payload, reading, counter := rdOut', stb', payload', reading', counter';
    }
  }
}
