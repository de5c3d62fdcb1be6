# pdq2 communication gateware in Dafny

A model of the communication core of the pdq2 gateware, written in migen.
Each migen module is a synchronous process: on every clock edge every
`sync` statement reads the register values from before the edge, all new
values take effect together, and when one block assigns a register twice the
later assignment wins. Four of the Dafny modules below (`MemWriting`,
`ResetGeneration`, `Control` and `BusReceiver`) each hold one migen module
as a Dafny `class` whose fields are its registers. The class's `Step`
method performs one clock edge and is proved equal to a pure next-state
function. The properties are lemmas about those functions. The other two
modules, `Signals` and `Escaping`, hold pure definitions only.

- `Signals` (`signals.dfy`): the bounded integers behind migen signals.
  Bytes and 16-bit words, the width of `Signal(max=v)`, a bitwise inverse,
  and the 16-bit increment and distance that wrap at 2^16.
- `Escaping` (`escaping.dfy`): the escape demultiplexer with escape byte
  0xA5. One byte stream comes in. Bulk data goes out on channel A and
  command bytes on channel B. It is written as a pure two-state function,
  and its proofs cover the test bench's vector, pass-through, doubling and
  prefixing. They also cover composition, a length identity, and a round
  trip with the producer's encoding.
- `MemWriting` (`mem_writer.dfy`): the memory writer. A DEV/START/END/DATA
  machine takes a destination header, then a start address, then an end
  address. It then writes the payload words into the selected memory, from
  the start address to the end address inclusive. The memories are a
  two-dimensional `array2<Word>`. Whole transactions are proved about the
  pure function `Run`.
- `ResetGeneration` (`reset_gen.dfy`): the retriggerable reset stretcher,
  with its counter.
- `Control` (`ctrl.dfy`): the command-byte dispatcher. It sets and clears
  the persistent control registers, feeds the reset stretcher and computes
  the DAC trigger.
- `BusReceiver` (`bus_receiver.dfy`): the FT245R reader. It computes its
  timing constants from the clock period and runs its handshake machine
  over the timeline counter.

### Assumptions

- **Timeline counter.** migen's `timeline` primitive is library code and is
  written out as an assumption in `BusReceiver.NextCounter`:
  - the counter goes from 0 to 1 when `rd_in` is high;
  - it then counts up one per cycle;
  - it returns to 0 after the last event (refill).
  - Event 0 fires when `rd_in` is high while the counter is 0. Event `t`
    fires when the counter equals `t`.
- **Memory size.** Every memory is addressed by the full 16-bit `adr`, so
  the model gives each memory 2^16 words. The real depth is set by the DAC
  module, which is not part of this model.

### Behaviour of the code worth knowing

- **`start > end`.** `adr` is a 16-bit signal (gateware/comm.py:25) that
  the DATA state increments on every accepted word (gateware/comm.py:78-81)
  and leaves only when `adr == end` (gateware/comm.py:61-62). A range with
  `start > end` therefore wraps at 2^16. The transaction ends after
  `((end - start) mod 2^16) + 1` payload words (`MemWriting.Transaction`,
  `MemWriting.SpanWraps`).
- **`busy`.** The docstring (gateware/ft245r.py:90) describes `busy` as
  "data available but not acknowledged". The code (gateware/ft245r.py:116)
  computes `~stb | ack`, which is the opposite sense
  (`BusReceiver.BusyIsNotPending`).
- **`stb`.** The byte stream's `stb` stays high until a cycle with `ack`
  (`BusReceiver.StbHeldUntilAck`).
- **Registers latched without `stb`.** In DEV, START and END, the registers
  `dac`/`listen`, `adr` and `end` load the bus word on every cycle, whether
  or not it is accepted. Only the state change and the DATA increment wait
  for `stb` (gateware/comm.py:67-77). The value that survives is therefore
  the word of the accepting cycle (`MemWriting.StallInvisible`).

## Model

| member | source | states |
|---|---|---|
| Signals.BitsFor | gateware/comm.py:24 | the width of `Signal(max=v)` is the least width of at least one bit that holds `v` |
| Signals.Invert | gateware/comm.py:174 | `~` on a `width`-bit signal: the result fits in `width` bits, and each of those bits is the complement of the same bit of the input |
| Signals.InvertSum | gateware/comm.py:174 | the inverse and the input truncated to `width` bits add up to all ones |
| Signals.Inc16 | gateware/comm.py:78-81 | `adr + 1` on a 16-bit signal is the successor below 0xFFFF and wraps to 0 at 0xFFFF |
| Signals.Offset | gateware/comm.py:78-81 | the number of wrapping increments from one address to another is below 2^16 and lands on the target |
| Signals.OffsetAfterInc | gateware/comm.py:78-81 | one increment of the pointer brings it one step closer to a different end address |
| MemWriting.Board | gateware/comm.py:174 | the board number has the pads' width, and each of its bits is the complement of the matching active-low address pad |
| MemWriting.DacWidth | gateware/comm.py:24 | `Signal(max=len(dacs))`: the least width, at least one bit, that holds the index of every memory |
| MemWriting.ListenOf | gateware/comm.py:70 | a header makes the writer listen exactly when header bit 4 + i is the complement of address pad i for every pad; a slice bit past bit 15 reads as 0 |
| MemWriting.ListenBits | gateware/comm.py:70 | the slice compare `pd[4:4+flen(board)] == board` is that bitwise condition, including pads beyond the 16-bit word |
| MemWriting.DacOf | gateware/comm.py:68-69 | the destination is below 16 and fits the `dac` register; bit i of it is bit i of the header for i below 4 and 0 above, so a nibble too wide for `dac` is truncated and header bits from 4 up are ignored |
| MemWriting.HeaderDecodes | gateware/comm.py:68-71 | a header built for memory `d` of board `b` selects `d`, and makes the writer listen exactly when `b` is the inverse of the address pads |
| MemWriting.NextRegs | gateware/comm.py:41-83 | the writer's registers at the next edge: the FSM transitions and the `sync` loads of `dac`, `listen`, `adr` and `end`, with no contract of its own; `AdvancesOnlyOnStb`, `FieldsLatchedInOwnState` and `StallInvisible` state its behaviour |
| MemWriting.WriteOf | gateware/comm.py:57-60 | the cycle's write: `we` is `listen` on an accepted DATA word, to memory `dac` at `adr` with the bus word, with no contract of its own; `ApplyWritesOneCell` and `MemWriter.Step` state its effect |
| MemWriting.Apply | gateware/comm.py:34-39 | a write through the shared port keeps the memories well-shaped |
| MemWriting.ApplyWritesOneCell | gateware/comm.py:34-39 | a write changes only its own cell of memory `dac`; every other memory and word is unchanged |
| MemWriting.StepKeepsInv | gateware/comm.py:57-60 | starting from an accepted in-range header, a listening writer always writes to an existing memory |
| MemWriting.AdvancesOnlyOnStb | gateware/comm.py:41-65 | the machine moves DEV→START→END→DATA, and DATA→DEV after `adr == end`, only on an accepted word; otherwise it stays put and writes nothing |
| MemWriting.FieldsLatchedInOwnState | gateware/comm.py:67-83 | `dac`/`listen` change only in DEV, `adr` only in START or on an accepted DATA word, `end` only in END, each to the value the source assigns |
| MemWriting.StallInvisible | gateware/comm.py:41-83 | a cycle without `stb` writes nothing, and has no effect on the next accepted word |
| MemWriting.Run | gateware/comm.py:15-83 | a stream of accepted words keeps the memories well-shaped and the writer's invariant |
| MemWriting.Span | gateware/comm.py:57-65 | a transaction carries between 1 and 2^16 payload words |
| MemWriting.SpanWraps | gateware/comm.py:78-81 | after `Span(start, end)` increments the address is one past `end`, modulo 2^16 |
| MemWriting.DataAddress | gateware/comm.py:57-81 | in DATA the address advances once per accepted word, listening or not, modulo 2^16; DEV is reached exactly after the word at `end`, with `adr` one past `end` |
| MemWriting.DataPhase | gateware/comm.py:57-81 | in DATA the payload goes to adr, adr + 1, ... (mod 2^16) of memory `dac` when listening, and no other cell of any memory changes |
| MemWriting.HeaderPhase | gateware/comm.py:42-77 | the header, start and end words only load `dac`, `listen`, `adr`, `end`, reach DATA and write nothing |
| MemWriting.Transaction | gateware/comm.py:15-83 | a header, a start, an end and `((end - start) mod 2^16) + 1` payload words leave the writer in DEV with the payload stored from `start` in the selected memory when listening, and every other cell unchanged |
| MemWriting.TransactionRegs | gateware/comm.py:41-83 | after a whole transaction the writer is in DEV with the header's `dac` and `listen`, `adr` one past `end`, and the transaction's `end` |
| MemWriting.TransactionMem | gateware/comm.py:57-81 | after a whole transaction the payload is stored from `start` in the selected memory when listening, and every other cell is unchanged |
| MemWriting.NotListeningWritesNothing | gateware/comm.py:57-60 | a whole transaction for another board changes no memory |
| MemWriting.MemWriter.constructor | gateware/comm.py:41 | the writer starts in DEV with cleared registers |
| MemWriting.MemWriter.Step | gateware/comm.py:15-83 | one clock edge: `ack` is always 1, `we` is an accepted listening DATA word, the registers follow `NextRegs`, and the memory array changes by exactly `Apply` of the cycle's write |
| ResetGeneration.ResetOf | gateware/comm.py:97 | the reset output, `counter != n - 1`, with no contract of its own; `ResetGeneration.ResetGen.Reset` reads it from the stretcher's counter, and `Control.Ctrl.Reset` passes it on as the control core's `reset` (gateware/comm.py:137); `Retrigger`, `PowerUpWindow` and `StaysReleased` state when it is asserted |
| ResetGeneration.NextCounter | gateware/comm.py:94-105 | the counter stays in [0, n-1] and holds at n-1 without a trigger |
| ResetGeneration.RunCounter | gateware/comm.py:99-105 | the counter after one cycle per trigger input stays in [0, n-1] |
| ResetGeneration.RunAppend | gateware/comm.py:99-105 | running over two input sequences is running over the first, then the second |
| ResetGeneration.QuietClimb | gateware/comm.py:97-105 | without triggers the counter climbs one per cycle and saturates at n-1 |
| ResetGeneration.Retrigger | gateware/comm.py:97-105 | after a trigger, whatever came before, followed by k quiet cycles, the counter is min(k, n-1), so reset is asserted exactly while k < n-1 |
| ResetGeneration.PowerUpWindow | gateware/comm.py:93-97 | from the reset-less power-up value 0, reset is held for the first n-1 cycles |
| ResetGeneration.StaysReleased | gateware/comm.py:97-105 | once deasserted, reset stays deasserted until the next trigger |
| ResetGeneration.ResetGen.constructor | gateware/comm.py:86-94 | the counter starts at 0 |
| ResetGeneration.ResetGen.Step | gateware/comm.py:99-105 | one clock edge: the counter becomes `NextCounter` and stays in range |
| Control.CtrlRegs.Set | gateware/comm.py:150-165 | writing one control register leaves every other one unchanged |
| Control.Decode | gateware/comm.py:152-163 | the command table, with no contract of its own; `DecodeDomain`, `DecodeCommandByte` and `CommandByteDecode` state its domain and its inverse |
| Control.Dispatch | gateware/comm.py:150-165 | the control registers at the next edge, with no contract of its own; `DispatchWritesOne` and `LastWriteWins` state its behaviour |
| Control.CommandByte | gateware/comm.py:152-163 | every command's byte is at most 0x09 and is never 0x01 |
| Control.DecodeDomain | gateware/comm.py:152-163 | exactly the bytes 0x00 and 0x02 to 0x09 are commands |
| Control.DecodeCommandByte | gateware/comm.py:152-163 | decoding the byte of any command other than "clear reset trigger" gives that command back |
| Control.CommandByteDecode | gateware/comm.py:152-163 | each command byte equals the encoding of its command, and no byte clears the reset trigger |
| Control.DispatchWritesOne | gateware/comm.py:150-165 | an accepted command byte writes exactly its one register; any other byte, or no `stb`, changes no register |
| Control.DispatchAppend | gateware/comm.py:150-165 | dispatching two byte sequences is dispatching the first, then the second |
| Control.LastWriteWins | gateware/comm.py:150-165 | each register holds the value of the last command addressed to it, or keeps its value if there was none |
| Control.TriggerSticks | gateware/comm.py:153-154 | once set, the reset trigger stays set whatever bytes follow |
| Control.ArmStartDisarm | gateware/comm.py:157-162 | 0x04, 0x08, 0x05 from cleared registers leave only `start` set |
| Control.OutTrigger | gateware/comm.py:144 | the registered DAC trigger, high when `arm` is set and `trigger` or `soft_trigger` is, with no contract of its own; `ArmedTrigger` and `Disarmed` state what it is after a command sequence |
| Control.ArmedTrigger | gateware/comm.py:144-162 | after any command sequence the DAC trigger fires exactly when the last write to `arm` armed it and either the external trigger is high or the last write to `soft_trigger` set it |
| Control.Disarmed | gateware/comm.py:144-158 | after a disarm command (0x05) followed by any bytes other than arm (0x04), the DAC trigger is low whatever the trigger inputs |
| Control.Ctrl.constructor | gateware/comm.py:108-125 | the dispatcher starts with every register cleared and a stretcher at counter 0 |
| Control.Ctrl.Step | gateware/comm.py:116-165 | one clock edge: `ack` is 1, the registers follow `Dispatch`, the synchroniser takes the pad, the output trigger is computed from the old registers, and the stretcher steps on the old reset trigger |
| BusReceiver.CeilDiv | gateware/ft245r.py:108-110 | `ceil(a / b)`: the least number of `b`-long steps that cover `a` |
| BusReceiver.TimingFor | gateware/ft245r.py:108-110 | for a positive clock period, 1 ≤ latch < drop < refill, and each phase covers its 50, 20 or 50 ns in less than one extra cycle |
| BusReceiver.DefaultTiming | gateware/ft245r.py:108-110 | at the default 10 ns clock the events fall at 5, 7 and 12 |
| BusReceiver.NextCounter | gateware/ft245r.py:123-128 | the `timeline` counter, written out as an assumption about the library primitive, with no contract of its own; `KeepsInv` and `ReadingRules` state its course |
| BusReceiver.NextRx | gateware/ft245r.py:118-128 | the reader's registers at the next edge in statement order, last assignment winning, with no contract of its own; `KeepsInv`, `StbHeldUntilAck`, `CaptureAtLatch`, `RdOutRules` and `ReadingRules` state its behaviour |
| BusReceiver.Rdl | gateware/ft245r.py:115 | the strobe pin `rdl = ~rd_out`, with no contract of its own; `Ft245rRx.Step` returns it |
| BusReceiver.Busy | gateware/ft245r.py:116 | the `busy` output, high when `stb` is low or `ack` is high, with no contract of its own; `BusyIsNotPending` states what it means |
| BusReceiver.KeepsInv | gateware/ft245r.py:119-128 | `reading` is set exactly while the timeline counter is between 1 and refill |
| BusReceiver.BusyIsNotPending | gateware/ft245r.py:116 | `busy` is low exactly when a byte is pending and not acknowledged |
| BusReceiver.StbHeldUntilAck | gateware/ft245r.py:122-125 | a pending byte stays pending until `ack`; away from the latch event `ack` clears it |
| BusReceiver.CaptureAtLatch | gateware/ft245r.py:122-125 | at the latch event `stb` is raised and the data pins are captured, overriding the `ack` clear; otherwise the payload holds |
| BusReceiver.RdOutRules | gateware/ft245r.py:119-126 | the strobe is forced low at the drop event; otherwise it follows the negated FIFO flag only when idle with `rd_in` low, and holds |
| BusReceiver.ReadingRules | gateware/ft245r.py:119-127 | `reading` rises with `rd_in` at counter 0, falls at refill and otherwise holds; while it is high the idle strobe rule cannot fire |
| BusReceiver.CycleTail | gateware/ft245r.py:118-128 | the rest of a read cycle returns to idle with the data of the latch cycle captured and pending unless acknowledged later, and with the strobe low once the drop event has passed |
| BusReceiver.ReadCycle | gateware/ft245r.py:118-128 | a read cycle started by `rd_in` lasts refill + 1 cycles, captures exactly the data of the latch cycle, and ends idle with the strobe low, the byte pending unless acknowledged after the latch |
| BusReceiver.Ft245rRx.constructor | gateware/ft245r.py:92-112 | the reader takes the timing of its clock period and starts idle |
| BusReceiver.Ft245rRx.Step | gateware/ft245r.py:114-129 | one clock edge: `rdl` is the negated strobe, `busy` is high when no byte is pending or `ack` is high, and the registers follow `NextRx` with its last-assignment-wins order |
| Escaping.Emit | testbench/escape.py:72-75 | what one byte emits given the escape state, with no contract of its own; `EmitOne` states it |
| Escaping.EmitOne | testbench/escape.py:72-75 | a byte that does not open an escape comes out once, unchanged, on exactly one channel, and on B exactly when it is a byte other than 0xA5 inside an escape; an opening 0xA5 emits nothing |
| Escaping.Opens | testbench/escape.py:72-75 | the escape state after one byte: only 0xA5 outside an escape opens one, with no contract of its own |
| Escaping.Demux | testbench/escape.py:72-75 | the two-state demultiplexer over a stream, with no contract of its own; `Split`, `Accounting` and `TestVector` state its behaviour |
| Escaping.Unescape | testbench/escape.py:72-79 | the demultiplexer from its initial state, with no contract of its own; `TestVector`, `PassThrough`, `Lengths` and `RoundTrip` state its behaviour |
| Escaping.TestVector | testbench/escape.py:72-79 | the test bench's 20-byte input gives A = [1,2,4,0xa5,5,6,0xa5,8,0xa5,0xa5,9,10] and B = [3,7] |
| Escaping.Split | testbench/escape.py:72-75 | demultiplexing a concatenation is demultiplexing its parts in order, each channel keeping arrival order |
| Escaping.PassThrough | testbench/escape.py:72-74 | a stream without 0xA5 comes out unchanged on A and empty on B |
| Escaping.DoubledEscape | testbench/escape.py:72-74 | 0xA5 0xA5, outside an escape, yields one 0xA5 on A and nothing on B |
| Escaping.EscapedCommand | testbench/escape.py:72-75 | 0xA5 x with x ≠ 0xA5, outside an escape, yields x on B and nothing on A |
| Escaping.PairsFromTheLeft | testbench/escape.py:72-75 | 0xA5 0xA5 0xA5 7 gives 0xA5 on A and then 7 on B |
| Escaping.Accounting | testbench/escape.py:72-75 | every input byte is accounted for once on A, or twice for an escaped literal or a B byte, or once as an open escape |
| Escaping.Lengths | testbench/escape.py:72-75 | for input that ends outside an escape, the input length is the length of A, plus twice the length of B, plus the number of 0xA5 on A |
| Escaping.ItemRoundTrip | testbench/escape.py:72-79 | one encoded data byte comes back on A, one encoded command byte on B, and no escape is left open |
| Escaping.RoundTrip | testbench/escape.py:72-79 | encoding data (0xA5 doubled) and commands (0xA5-prefixed) and demultiplexing them gives back the data on A and the commands on B |
| Escaping.EncodeParse | testbench/escape.py:72-79 | every stream that ends outside an escape is the encoding of the items read from it |

## Left out

- `Pack` and `Cast` (gateware/comm.py:172-173) are migen library actors. Their byte order within the 16-bit word is not visible, so the memory writer is modelled directly over 16-bit words.
- The `Unescaper` implementation (gateware/escape.py) is not part of this model. The demultiplexer is modelled from the test bench's vector and the stream convention, as a pure function over whole byte sequences. Its handshake and stall behaviour are not modelled.
- `SimFt245r_rx_w` and `SimFt245r_rx` (gateware/ft245r.py:29-75 and the subclass from line 132) are simulation stimulus driven by `random`. They are not design logic.
- host/cli.py, testbench/dac.py and ctrl.py are left out. They are a host-side front end (serial I/O, floating point, plotting), a simulation harness, and an older combinational variant of the dispatcher.
- Pin synchronisation of `frame`, the aux OR-reduction and the `go2` wiring (gateware/comm.py:127-135) are pin I/O. The clock-domain plumbing and `pads.reset` (gateware/comm.py:93, 96, 138-139) are wiring, as is the per-DAC fan-out of `frame`, `arm` and `start` (gateware/comm.py:141-148). Of these, only the trigger synchroniser stage and the shared `out.trigger` register are modelled.
- What clears `rg.trigger`: the top level presumably routes `Ctrl.reset` to the system reset, and that wiring is not part of this model. `rg.trigger` is therefore a persistent bit that no command clears.
- `MemWriting.MemWriter.Step`: does not model a listening header whose destination index is at or above the number of memories. Its precondition `HeaderOk` (and `Addressable` in `Run`) excludes that case, because what migen's `Array` does with such an index is library-defined.
- `MemWriting.ListenOf`: the address pads are an input that the writer samples on every DEV cycle (gateware/comm.py:70, 174). The model reads them from `Config.adrPads`, a constant, so it assumes the pads do not change while the writer runs, as for a board address set by jumpers.
- Memory depth: every memory has 2^16 words. The real depth comes from the DAC module, which is not part of this model.
- `BusReceiver.TimingFor`: the clock period is a positive whole number of nanoseconds, not a float, and the divisions round up as `ceil` does.
- The escape byte is fixed at 0xA5, the value the communication core passes (gateware/comm.py:170).
