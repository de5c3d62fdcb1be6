/** The control-register dispatcher: each accepted byte on the command
    channel sets or clears one persistent register, and the reset-trigger
    register drives the reset stretcher. */
module Control {
  import opened Signals
  import opened ResetGeneration

  /** The registers a command can address. */
  datatype Reg = RgTrigger | SoftTrigger | Arm | DcmSel | StartGate

  /** A decoded command byte: write `value` into `reg`. */
  datatype Command = Command(reg: Reg, value: bool)

  /** The register set of the dispatcher. */
  datatype CtrlRegs = CtrlRegs(rgTrigger: bool, softTrigger: bool, arm: bool, dcmSel: bool, start: bool)
  {
    function Get(g: Reg): bool
    {
      match g
      case RgTrigger => rgTrigger
      case SoftTrigger => softTrigger
      case Arm => arm
      case DcmSel => dcmSel
      case StartGate => start
    }

    /** Writing one register leaves every other one as it was. */
    function Set(g: Reg, v: bool): (r: CtrlRegs)
      ensures r.Get(g) == v
      ensures forall h :: h != g ==> r.Get(h) == Get(h)
    {
      match g
      case RgTrigger => this.(rgTrigger := v)
      case SoftTrigger => this.(softTrigger := v)
      case Arm => this.(arm := v)
      case DcmSel => this.(dcmSel := v)
      case StartGate => this.(start := v)
    }
  }

  /** Register values after reset. */
  const Cleared: CtrlRegs := CtrlRegs(false, false, false, false, false)

  /** The command table. 0x01 (clear the reset trigger) is disabled in the
      table, so it and every byte above 0x09 is no command. */
  function Decode(b: Byte): Option<Command>
  {
    match b
    case 0x00 => Some(Command(RgTrigger, true))
    case 0x02 => Some(Command(SoftTrigger, true))
    case 0x03 => Some(Command(SoftTrigger, false))
    case 0x04 => Some(Command(Arm, true))
    case 0x05 => Some(Command(Arm, false))
    case 0x06 => Some(Command(DcmSel, true))
    case 0x07 => Some(Command(DcmSel, false))
    case 0x08 => Some(Command(StartGate, true))
    case 0x09 => Some(Command(StartGate, false))
    case _ => None
  }

  /** A command the table can express: all but clearing the reset trigger. */
  predicate Expressible(cmd: Command)
  {
    cmd != Command(RgTrigger, false)
  }

  /** The byte that encodes a command: a set at `0x02 * k`, its clear one
      above. */
  function CommandByte(cmd: Command): (b: Byte)
    requires Expressible(cmd)
    ensures b <= 0x09 && b != 0x01
  {
    var base := match cmd.reg
      case RgTrigger => 0x00
      case SoftTrigger => 0x02
      case Arm => 0x04
      case DcmSel => 0x06
      case StartGate => 0x08;
    if cmd.value then base else base + 1
  }

  /** Exactly the bytes 0x00 and 0x02 to 0x09 are commands. */
  lemma DecodeDomain(b: Byte)
    ensures Decode(b).Some? <==> b == 0x00 || 0x02 <= b <= 0x09
  {
  }

  /** Every expressible command has its byte, and decoding it gives the
      command back. */
  lemma DecodeCommandByte(cmd: Command)
    requires Expressible(cmd)
    ensures Decode(CommandByte(cmd)) == Some(cmd)
  {
  }

  /** Each command byte is the encoding of what it decodes to, so no two
      bytes mean the same command; and no byte clears the reset trigger. */
  lemma CommandByteDecode(b: Byte)
    requires Decode(b).Some?
    ensures Expressible(Decode(b).value)
    ensures CommandByte(Decode(b).value) == b
  {
  }

  /** The registers at the next clock edge: an accepted byte that is a
      command writes its one register; anything else keeps them all. */
  function Dispatch(r: CtrlRegs, stb: bool, b: Byte): CtrlRegs
  {
    if stb && Decode(b).Some? then r.Set(Decode(b).value.reg, Decode(b).value.value) else r
  }

  /** One accepted command changes exactly its own register. */
  lemma DispatchWritesOne(r: CtrlRegs, stb: bool, b: Byte, g: Reg)
    ensures stb && Decode(b).Some? && Decode(b).value.reg == g ==> Dispatch(r, stb, b).Get(g) == Decode(b).value.value
    ensures !(stb && Decode(b).Some? && Decode(b).value.reg == g) ==> Dispatch(r, stb, b).Get(g) == r.Get(g)
  {
  }

  /** The registers after one accepted byte per element of `bs`. */
  function DispatchAll(r: CtrlRegs, bs: seq<Byte>): CtrlRegs
    decreases |bs|
  {
    if bs == [] then r else DispatchAll(Dispatch(r, true, bs[0]), bs[1..])
  }

  /** Independent reference: the value of register `g` is that of the last
      command on `g` in `bs`, or `init` when there is none. */
  function LastWrite(g: Reg, bs: seq<Byte>, init: bool): bool
    decreases |bs|
  {
    if bs == [] then init
    else
      var b := bs[|bs| - 1];
      if Decode(b).Some? && Decode(b).value.reg == g then Decode(b).value.value
      else LastWrite(g, bs[..|bs| - 1], init)
  }

  /** Dispatching `a + b` is dispatching `a` and then `b`. */
  lemma {:induction false} DispatchAppend(r: CtrlRegs, a: seq<Byte>, b: seq<Byte>)
    ensures DispatchAll(r, a + b) == DispatchAll(DispatchAll(r, a), b)
    decreases |a|
  {
    if a == [] {
      assert a + b == b;
    } else {
      assert (a + b)[0] == a[0];
      assert (a + b)[1..] == a[1..] + b;
      DispatchAppend(Dispatch(r, true, a[0]), a[1..], b);
    }
  }

  /** Registers are persistent: each one holds the value of the most recent
      command addressed to it, whatever other commands came in between. */
  lemma {:induction false} LastWriteWins(r: CtrlRegs, bs: seq<Byte>, g: Reg)
    ensures DispatchAll(r, bs).Get(g) == LastWrite(g, bs, r.Get(g))
    decreases |bs|
  {
    if bs != [] {
      var front := bs[..|bs| - 1];
      var b := bs[|bs| - 1];
      assert bs == front + [b];
      DispatchAppend(r, front, [b]);
      LastWriteWins(r, front, g);
      var r1 := DispatchAll(r, front);
      assert DispatchAll(r1, [b]) == Dispatch(r1, true, b);
      DispatchWritesOne(r1, true, b, g);
    }
  }

  /** Once set, the reset trigger stays set: no command byte clears it. */
  lemma {:induction false} TriggerSticks(r: CtrlRegs, bs: seq<Byte>)
    requires r.rgTrigger
    ensures DispatchAll(r, bs).rgTrigger
    decreases |bs|
  {
    if bs != [] {
      var r1 := Dispatch(r, true, bs[0]);
      DecodeDomain(bs[0]);
      assert r1.rgTrigger;
      TriggerSticks(r1, bs[1..]);
    }
  }

  /** Arm, start, disarm: the last write to each register decides it. */
  lemma ArmStartDisarm()
    ensures DispatchAll(Cleared, [0x04, 0x08, 0x05]) == CtrlRegs(false, false, false, false, true)
  {
    var bs: seq<Byte> := [0x04, 0x08, 0x05];
    assert bs[1..] == [0x08, 0x05] && bs[1..][1..] == [0x05];
  }

  /** The output trigger of every DAC: armed and either the external or the
      soft trigger. */
  function OutTrigger(arm: bool, trigger: bool, softTrigger: bool): bool
  {
    arm && (trigger || softTrigger)
  }

  /** After a sequence of commands the output trigger fires exactly when the
      last write to `Arm` armed and either the external trigger is high or the
      last write to `SoftTrigger` set it. */
  lemma ArmedTrigger(r: CtrlRegs, bs: seq<Byte>, t: bool)
    ensures var r' := DispatchAll(r, bs);
      OutTrigger(r'.arm, t, r'.softTrigger) <==> LastWrite(Arm, bs, r.arm) && (t || LastWrite(SoftTrigger, bs, r.softTrigger))
  {
    LastWriteWins(r, bs, Arm);
    LastWriteWins(r, bs, SoftTrigger);
  }

  /** A disarm command (0x05) keeps the output trigger low, whatever the
      triggers do, until the next arm command (0x04). */
  lemma Disarmed(r: CtrlRegs, pre: seq<Byte>, tail: seq<Byte>, t: bool)
    requires forall i :: 0 <= i < |tail| ==> tail[i] != 0x04
    ensures var r' := DispatchAll(r, pre + [0x05] + tail);
      !OutTrigger(r'.arm, t, r'.softTrigger)
  {
    ArmedTrigger(r, pre + [0x05] + tail, t);
    LastDisarm(pre, tail, r.arm);
  }

  lemma {:induction false} LastDisarm(pre: seq<Byte>, tail: seq<Byte>, init: bool)
    requires forall i :: 0 <= i < |tail| ==> tail[i] != 0x04
    ensures !LastWrite(Arm, pre + [0x05] + tail, init)
    decreases |tail|
  {
    var bs := pre + [0x05] + tail;
    if tail == [] {
      assert bs[|bs| - 1] == 0x05;
    } else {
      var front := tail[..|tail| - 1];
      assert bs[..|bs| - 1] == pre + [0x05] + front;
      assert bs[|bs| - 1] == tail[|tail| - 1];
      assert forall i :: 0 <= i < |front| ==> front[i] != 0x04 by {
        forall i | 0 <= i < |front| ensures front[i] != 0x04 {
          assert front[i] == tail[i];
        }
      }
      LastDisarm(pre, front, init);
    }
  }

  /** The dispatcher with its reset stretcher. `trigger` is the first stage
      of the external trigger input, `outTrigger` the registered trigger
      sent to every DAC. */
  class Ctrl {
    const rg: ResetGen
    var rgTrigger: bool
    var softTrigger: bool
    var arm: bool
    var dcmSel: bool
    var start: bool
    var trigger: bool
    var outTrigger: bool

    ghost predicate Valid()
      reads this, rg
    {
      rg.Valid() && rg.n == DefaultWindow
    }

    function Registers(): CtrlRegs
      reads this
    {
      CtrlRegs(rgTrigger, softTrigger, arm, dcmSel, start)
    }

    /** The reset output, taken from the stretcher. */
    function Reset(): bool
      reads this, rg
    {
      rg.Reset()
    }

    constructor ()
      ensures Valid() && fresh(rg)
      ensures Registers() == Cleared && !trigger && !outTrigger
      ensures rg.counter == 0
    {
      rg := new ResetGen(DefaultWindow);
      rgTrigger, softTrigger, arm, dcmSel, start := false, false, false, false, false;
      trigger, outTrigger := false, false;
    }

    /** One clock cycle with the command channel's `stb` and byte and the
        external trigger pad. Returns the channel's `ack`, always 1. The
        stretcher sees the reset-trigger register as it was before the
        edge. */
    method Step(stb: bool, b: Byte, padTrigger: bool) returns (ack: bool)
      requires Valid()
      modifies this, rg
      ensures Valid()
      ensures ack
      ensures Registers() == Dispatch(old(Registers()), stb, b)
      ensures trigger == padTrigger
      ensures outTrigger == OutTrigger(old(arm), old(trigger), old(softTrigger))
      ensures rg.counter == NextCounter(rg.n, old(rg.counter), old(rgTrigger))
    {
      ack := true;
      rg.Step(rgTrigger);
      outTrigger := arm && (trigger || softTrigger);
      trigger := padTrigger;
      if stb {
        match b {
          case 0x00 => Write(RgTrigger, true);
          case 0x02 => Write(SoftTrigger, true);
          case 0x03 => Write(SoftTrigger, false);
          case 0x04 => Write(Arm, true);
          case 0x05 => Write(Arm, false);
          case 0x06 => Write(DcmSel, true);
          case 0x07 => Write(DcmSel, false);
          case 0x08 => Write(StartGate, true);
          case 0x09 => Write(StartGate, false);
          case _ =>
        }
      }
    }

    /** One register assignment of the command table. */
    method Write(g: Reg, v: bool)
      modifies this
      ensures Registers() == old(Registers()).Set(g, v)
      ensures trigger == old(trigger) && outTrigger == old(outTrigger)
    {
      match g {
        case RgTrigger => rgTrigger := v;
        case SoftTrigger => softTrigger := v;
        case Arm => arm := v;
        case DcmSel => dcmSel := v;
        case StartGate => start := v;
      }
    }
  }
}
