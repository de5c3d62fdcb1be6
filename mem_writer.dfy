/** The memory writer of the communication core: a four-state machine over
    the 16-bit word stream that reads a destination header, a start address
    and an end address, then writes the payload words into the selected
    memory from start to end inclusive. The word stream always acknowledges,
    so every cycle with `stb` accepts one word. */
module MemWriting {
  import opened Signals

  datatype State = Dev | Start | End | Data

  /** A number of memories: `Signal(max=len(dacs))` needs at least one. */
  type Count = n: nat | n >= 1 witness 1

  /** Elaboration-time parameters: the value and width of the board address
      pads, and the number of memories (one per DAC). */
  datatype Config = Config(adrPads: nat, boardWidth: nat, count: Count)

  /** Every memory is addressed by the full 16-bit `adr`. */
  const Depth: nat := WordRange

  /** The board number: the address pads are active low, so the board is
      their bitwise inverse at the pads' width. */
  function Board(c: Config): (b: nat)
    ensures b < Pow2(c.boardWidth)
    ensures forall i :: 0 <= i < c.boardWidth ==> Bit(b, i) != Bit(c.adrPads, i)
  {
    Invert(c.adrPads, c.boardWidth)
  }

  /** Width of the `dac` register, `Signal(max=len(dacs))`: the least width
      that holds the index of every memory. */
  function DacWidth(c: Config): (n: nat)
    ensures 1 <= n && c.count - 1 < Pow2(n)
    ensures n > 1 ==> Pow2(n - 1) <= c.count - 1
  {
    BitsFor(c.count - 1)
  }

  /** The destination id of a header word: its low four bits, truncated to
      the width of the `dac` register. Bit `i` of the id is bit `i` of the
      header below bit 4 and 0 above it; header bits at 4 and up, and low
      bits beyond the width of `dac`, are dropped. */
  function DacOf(c: Config, w: Word): (d: nat)
    ensures d < 16 && d < Pow2(DacWidth(c))
    ensures forall i :: 0 <= i < DacWidth(c) ==> (Bit(d, i) <==> i < 4 && Bit(w, i))
  {
    ModAtMost(w % 16, Pow2(DacWidth(c)));
    DacBits(c, w);
    (w % 16) % Pow2(DacWidth(c))
  }

  lemma DacBits(c: Config, w: Word)
    ensures forall i :: 0 <= i < DacWidth(c) ==> (Bit((w % 16) % Pow2(DacWidth(c)), i) <==> i < 4 && Bit(w, i))
  {
    assert Pow2(4) == 16;
    forall i | 0 <= i < DacWidth(c)
      ensures Bit((w % 16) % Pow2(DacWidth(c)), i) <==> i < 4 && Bit(w, i)
    {
      BitLow(w % 16, DacWidth(c), i);
      if i < 4 {
        BitLow(w, 4, i);
      } else {
        BitHigh(w % 16, 4, i);
      }
    }
  }

  /** Header bit `4 + i` is the complement of pad `i`, for every pad. */
  predicate PadsMatch(c: Config, w: Word)
  {
    forall i :: 0 <= i < c.boardWidth ==> Bit(w, 4 + i) != Bit(c.adrPads, i)
  }

  /** Whether a header word addresses this board: bits [4, 4 + boardWidth)
      of the word (a slice that stops at bit 16) equal the board number,
      which is exactly when the header bits are the complement of the
      active-low pads. */
  function ListenOf(c: Config, w: Word): (l: bool)
    ensures l <==> PadsMatch(c, w)
  {
    ListenBits(c, w);
    (w / 16) % Pow2(Min(c.boardWidth, 12)) == Board(c)
  }

  /** The slice compare of `ListenOf`, bit by bit. A pad bit at 12 or above
      faces a header bit past bit 15, which is 0. */
  lemma ListenBits(c: Config, w: Word)
    ensures (w / 16) % Pow2(Min(c.boardWidth, 12)) == Board(c) <==> PadsMatch(c, w)
  {
    var k := Min(c.boardWidth, 12);
    var s := (w / 16) % Pow2(k);
    assert Pow2(4) == 16;
    assert Pow2(16) == WordRange;
    ModAtMost(w / 16, Pow2(k));
    Pow2Monotone(k, c.boardWidth);
    BitsEqual(s, Board(c), c.boardWidth);
    forall i | 0 <= i < c.boardWidth
      ensures Bit(s, i) == Bit(w, 4 + i)
    {
      if i < k {
        BitLow(w / 16, k, i);
        BitShift(w, 4, w / 16, i);
      } else {
        BitHigh(s, k, i);
        BitHigh(w, 16, 4 + i);
      }
    }
    if s == Board(c) {
      forall i | 0 <= i < c.boardWidth
        ensures Bit(w, 4 + i) != Bit(c.adrPads, i)
      {
        assert Bit(s, i) == Bit(Board(c), i);
      }
    }
    if PadsMatch(c, w) {
      forall i | 0 <= i < c.boardWidth
        ensures Bit(s, i) == Bit(Board(c), i)
      {
        assert Bit(w, 4 + i) != Bit(c.adrPads, i);
      }
    }
  }

  /** A header that makes this board listen must name one of its memories;
      what an out-of-range index into the memory array does is not modelled. */
  predicate HeaderOk(c: Config, w: Word)
  {
    ListenOf(c, w) ==> DacOf(c, w) < c.count
  }

  /** The registers of the writer. */
  datatype Regs = Regs(state: State, dac: nat, listen: bool, adr: Word, end: Word)

  /** Register values after reset. */
  const PowerUp: Regs := Regs(Dev, 0, false, 0, 0)

  /** The registers at the next clock edge. In DEV, START and END the
      registers `dac`/`listen`, `adr` and `end` follow the word on the bus on
      every cycle, accepted or not; only the state change and the DATA
      increment wait for `stb`. DATA returns to DEV after the word written
      at `adr == end`. */
  function NextRegs(c: Config, r: Regs, stb: bool, w: Word): Regs
  {
    match r.state
    case Dev => r.(state := if stb then Start else Dev, dac := DacOf(c, w), listen := ListenOf(c, w))
    case Start => r.(state := if stb then End else Start, adr := w)
    case End => r.(state := if stb then Data else End, end := w)
    case Data =>
      if !stb then r
      else r.(state := if r.adr == r.end then Dev else Data, adr := Inc16(r.adr))
  }

  /** A write through the shared port: write enable of memory `dest` with
      the shared address and data lines. */
  datatype Write = Write(dest: nat, addr: Word, data: Word)

  /** The write of this cycle: in DATA, on an accepted word, if listening,
      to memory `dac` at `adr`. */
  function WriteOf(r: Regs, stb: bool, w: Word): Option<Write>
  {
    if r.state == Data && stb && r.listen then Some(Write(r.dac, r.adr, w)) else None
  }

  /** The memories, `m[d][a]` being word `a` of memory `d`. */
  type Mem = seq<seq<Word>>

  predicate ValidMem(c: Config, m: Mem)
  {
    |m| == c.count && forall d :: 0 <= d < |m| ==> |m[d]| == Depth
  }

  /** Outside DEV a listening writer has latched an existing memory. */
  predicate Inv(c: Config, r: Regs)
  {
    r.state != Dev && r.listen ==> r.dac < c.count
  }

  function Apply(c: Config, m: Mem, wr: Option<Write>): (m': Mem)
    requires ValidMem(c, m) && (wr.Some? ==> wr.value.dest < c.count)
    ensures ValidMem(c, m')
  {
    match wr
    case None => m
    case Some(Write(d, a, x)) =>
      var row: seq<Word> := m[d][a := x];
      m[d := row]
  }

  /** A write changes exactly its one cell of its one memory: the write
      enable goes only to memory `dest`, and every other memory and every
      other word keeps its value. */
  lemma ApplyWritesOneCell(c: Config, m: Mem, wr: Option<Write>, d: nat, a: nat)
    requires ValidMem(c, m) && (wr.Some? ==> wr.value.dest < c.count)
    requires d < c.count && a < Depth
    ensures Apply(c, m, wr)[d][a]
         == if wr.Some? && d == wr.value.dest && a == wr.value.addr then wr.value.data else m[d][a]
  {
  }

  /** Stepping from an invariant state keeps the invariant, and a write
      always goes to an existing memory. */
  lemma StepKeepsInv(c: Config, r: Regs, stb: bool, w: Word)
    requires Inv(c, r)
    requires r.state == Dev && stb ==> HeaderOk(c, w)
    ensures Inv(c, NextRegs(c, r, stb, w))
    ensures WriteOf(r, stb, w).Some? ==> WriteOf(r, stb, w).value.dest < c.count
  {
  }

  /** The FSM advances DEV, START, END, DATA only on an accepted word and
      otherwise stays in its state; a non-accepted cycle never writes. */
  lemma AdvancesOnlyOnStb(c: Config, r: Regs, stb: bool, w: Word)
    ensures !stb ==> NextRegs(c, r, stb, w).state == r.state && WriteOf(r, stb, w) == None
    ensures stb && r.state == Dev ==> NextRegs(c, r, stb, w).state == Start
    ensures stb && r.state == Start ==> NextRegs(c, r, stb, w).state == End
    ensures stb && r.state == End ==> NextRegs(c, r, stb, w).state == Data
    ensures stb && r.state == Data ==> NextRegs(c, r, stb, w).state == (if r.adr == r.end then Dev else Data)
  {
  }

  /** Each register is loaded only in its own state: `dac` and `listen` in
      DEV, `adr` in START (and stepped in DATA), `end` in END; the accepted
      word of that state is what remains. */
  lemma FieldsLatchedInOwnState(c: Config, r: Regs, stb: bool, w: Word)
    ensures var r' := NextRegs(c, r, stb, w);
      && (r'.dac != r.dac || r'.listen != r.listen ==> r.state == Dev)
      && (r'.adr != r.adr ==> r.state == Start || (r.state == Data && stb))
      && (r'.end != r.end ==> r.state == End)
      && (r.state == Dev ==> r'.dac == DacOf(c, w) && r'.listen == ListenOf(c, w))
      && (r.state == Start ==> r'.adr == w)
      && (r.state == End ==> r'.end == w)
      && (r.state == Data && stb ==> r'.adr == Inc16(r.adr))
  {
  }

  /** A cycle without an accepted word changes nothing that outlives the
      next accepted word: stalls on the word stream are invisible. */
  lemma StallInvisible(c: Config, r: Regs, x: Word, w: Word)
    ensures WriteOf(r, false, x) == None
    ensures NextRegs(c, NextRegs(c, r, false, x), true, w) == NextRegs(c, r, true, w)
    ensures WriteOf(NextRegs(c, r, false, x), true, w) == WriteOf(r, true, w)
  {
  }

  /** The header a host sends to reach memory `d` on board `b`. */
  function Header(d: nat, b: nat): nat
  {
    d + 16 * b
  }

  /** Header decoding: a header built for memory `d` of board `b` selects
      `d`, and makes this board listen exactly when `b` is this board. */
  lemma HeaderDecodes(c: Config, d: nat, b: nat)
    requires d < c.count && d < 16 && c.boardWidth <= 12 && b < Pow2(c.boardWidth)
    ensures Header(d, b) < WordRange
    ensures DacOf(c, Header(d, b)) == d
    ensures ListenOf(c, Header(d, b)) <==> b == Board(c)
    ensures HeaderOk(c, Header(d, b))
  {
    Pow2Monotone(c.boardWidth, 12);
    assert Pow2(12) == 4096;
    DivModHeader(d, b);
    ModSmall(d, Pow2(DacWidth(c)));
    ModSmall(b, Pow2(c.boardWidth));
    assert Min(c.boardWidth, 12) == c.boardWidth;
  }

  lemma DivModHeader(d: nat, b: nat)
    requires d < 16
    ensures Header(d, b) / 16 == b && Header(d, b) % 16 == d
  {
  }

  lemma {:induction false} Pow2Monotone(i: nat, j: nat)
    requires i <= j
    ensures Pow2(i) <= Pow2(j)
    decreases j
  {
    if i < j {
      Pow2Monotone(i, j - 1);
    }
  }

  /** Every accepted DEV word along `ws` is a header the memories can serve. */
  predicate Addressable(c: Config, r: Regs, ws: seq<Word>)
    decreases |ws|
  {
    ws == [] || ((r.state == Dev ==> HeaderOk(c, ws[0])) && Addressable(c, NextRegs(c, r, true, ws[0]), ws[1..]))
  }

  datatype Outcome = Outcome(regs: Regs, mem: Mem)

  /** The writer fed the accepted words `ws`, one per cycle. */
  function Run(c: Config, r: Regs, m: Mem, ws: seq<Word>): (o: Outcome)
    requires ValidMem(c, m) && Inv(c, r) && Addressable(c, r, ws)
    ensures ValidMem(c, o.mem) && Inv(c, o.regs)
    decreases |ws|
  {
    if ws == [] then Outcome(r, m)
    else
      StepKeepsInv(c, r, true, ws[0]);
      Run(c, NextRegs(c, r, true, ws[0]), Apply(c, m, WriteOf(r, true, ws[0])), ws[1..])
  }

  /** Number of payload words a transaction from `start` to `end` carries:
      the address wraps at 2^16, so a start above the end is a long range,
      not a hang. */
  function Span(start: Word, end: Word): (n: nat)
    ensures 1 <= n <= WordRange
  {
    Offset(start, end) + 1
  }

  /** `m'` is `m` with the words of `p` stored at `start`, `start + 1`, ...
      (modulo 2^16) of memory `dac` when `listen`, and equal to `m` on
      every other cell. */
  ghost predicate Wrote(c: Config, m: Mem, m': Mem, listen: bool, dac: nat, start: Word, p: seq<Word>)
    requires ValidMem(c, m) && ValidMem(c, m')
  {
    forall d, a {:trigger m'[d][a]} :: 0 <= d < c.count && 0 <= a < Depth ==>
      m'[d][a] == if listen && d == dac && Offset(start, a) < |p| then p[Offset(start, a)] else m[d][a]
  }

  /** The payload phase, registers: from DATA the address advances once per
      payload word, listening or not, and the writer returns to DEV exactly
      after the word written at `end`. */
  lemma {:induction false} DataAddress(c: Config, r: Regs, m: Mem, p: seq<Word>)
    requires ValidMem(c, m) && Inv(c, r) && r.state == Data
    requires |p| <= Span(r.adr, r.end)
    ensures Addressable(c, r, p)
    ensures Run(c, r, m, p).regs
         == r.(state := if |p| == Span(r.adr, r.end) then Dev else Data, adr := (r.adr + |p|) % WordRange)
    ensures |p| == Span(r.adr, r.end) ==> Run(c, r, m, p).regs.adr == Inc16(r.end)
    decreases |p|
  {
    if p != [] {
      var r1 := NextRegs(c, r, true, p[0]);
      var m1 := Apply(c, m, WriteOf(r, true, p[0]));
      OffsetSelf(r.adr);
      if r.adr == r.end {
        assert Run(c, r1, m1, p[1..]) == Outcome(r1, m1);
      } else {
        OffsetAfterInc(r.adr, r.end);
        DataAddress(c, r1, m1, p[1..]);
        assert Run(c, r, m, p) == Run(c, r1, m1, p[1..]);
        IncThenAdd(r.adr, |p| - 1);
      }
    }
  }

  /** The payload phase, memories: from DATA the payload words go to adr,
      adr + 1, ... (modulo 2^16) of the latched memory when listening, and
      every other cell of every memory keeps its value. */
  lemma {:induction false} DataPhase(c: Config, r: Regs, m: Mem, p: seq<Word>)
    requires ValidMem(c, m) && Inv(c, r) && r.state == Data
    requires |p| <= Span(r.adr, r.end)
    ensures Addressable(c, r, p)
    ensures Wrote(c, m, Run(c, r, m, p).mem, r.listen, r.dac, r.adr, p)
    decreases |p|
  {
    DataAddress(c, r, m, p);
    if p != [] {
      var w := p[0];
      var r1 := NextRegs(c, r, true, w);
      var m1 := Apply(c, m, WriteOf(r, true, w));
      OffsetSelf(r.adr);
      if r.adr == r.end {
        assert |p| == 1;
        assert Run(c, r1, m1, p[1..]) == Outcome(r1, m1);
        forall d, a | 0 <= d < c.count && 0 <= a < Depth
          ensures m1[d][a] == if r.listen && d == r.dac && Offset(r.adr, a) < |p| then p[Offset(r.adr, a)] else m[d][a]
        {
          if a != r.adr {
            assert Offset(r.adr, a) != 0;
          }
        }
      } else {
        OffsetAfterInc(r.adr, r.end);
        DataPhase(c, r1, m1, p[1..]);
        var o := Run(c, r1, m1, p[1..]);
        assert Run(c, r, m, p) == o;
        assert Wrote(c, m1, o.mem, r.listen, r.dac, r1.adr, p[1..]);
        forall d, a | 0 <= d < c.count && 0 <= a < Depth
          ensures o.mem[d][a] == if r.listen && d == r.dac && Offset(r.adr, a) < |p| then p[Offset(r.adr, a)] else m[d][a]
        {
          assert o.mem[d][a] == if r.listen && d == r.dac && Offset(r1.adr, a) < |p| - 1
                                then p[1..][Offset(r1.adr, a)] else m1[d][a];
          if a == r.adr {
            assert Offset(r1.adr, a) == WordRange - 1;
          } else {
            OffsetAfterInc(r.adr, a);
          }
        }
      }
    }
  }

  lemma IncThenAdd(a: Word, k: nat)
    ensures (Inc16(a) + k) % WordRange == (a + 1 + k) % WordRange
  {
  }

  /** The three header words only load registers: they reach DATA with
      the latched destination and range and write nothing. */
  lemma HeaderPhase(c: Config, r: Regs, m: Mem, hdr: Word, start: Word, end: Word, p: seq<Word>)
    requires ValidMem(c, m) && r.state == Dev && HeaderOk(c, hdr)
    requires |p| <= Span(start, end)
    ensures Inv(c, Regs(Data, DacOf(c, hdr), ListenOf(c, hdr), start, end))
    ensures Addressable(c, Regs(Data, DacOf(c, hdr), ListenOf(c, hdr), start, end), p)
    ensures Addressable(c, r, [hdr, start, end] + p)
    ensures Run(c, r, m, [hdr, start, end] + p) == Run(c, Regs(Data, DacOf(c, hdr), ListenOf(c, hdr), start, end), m, p)
  {
    var ws := [hdr, start, end] + p;
    var r1 := NextRegs(c, r, true, hdr);
    var r2 := NextRegs(c, r1, true, start);
    var r3 := NextRegs(c, r2, true, end);
    assert r3 == Regs(Data, DacOf(c, hdr), ListenOf(c, hdr), start, end);
    assert ws[0] == hdr && ws[1..] == [start, end] + p;
    assert ([start, end] + p)[1..] == [end] + p;
    assert ([end] + p)[1..] == p;
    DataAddress(c, r3, m, p);
    assert Addressable(c, r2, [end] + p);
    assert Addressable(c, r1, [start, end] + p);
    assert Run(c, r2, m, [end] + p) == Run(c, r3, m, p);
    assert Run(c, r1, m, [start, end] + p) == Run(c, r2, m, [end] + p);
  }

  /** A whole transaction: a header, a start address, an end address and
      exactly `Span(start, end)` payload words leave the writer back in DEV
      with the payload at start, start + 1, ... of the selected memory when
      the header names this board, and no memory changed when it does not. */
  lemma Transaction(c: Config, r: Regs, m: Mem, hdr: Word, start: Word, end: Word, p: seq<Word>)
    requires ValidMem(c, m) && r.state == Dev && HeaderOk(c, hdr)
    requires |p| == Span(start, end)
    ensures Addressable(c, r, [hdr, start, end] + p)
    ensures var o := Run(c, r, m, [hdr, start, end] + p);
      && o.regs == Regs(Dev, DacOf(c, hdr), ListenOf(c, hdr), Inc16(end), end)
      && Wrote(c, m, o.mem, ListenOf(c, hdr), DacOf(c, hdr), start, p)
  {
    TransactionRegs(c, r, m, hdr, start, end, p);
    TransactionMem(c, r, m, hdr, start, end, p);
  }

  /** The register half of `Transaction`. */
  lemma TransactionRegs(c: Config, r: Regs, m: Mem, hdr: Word, start: Word, end: Word, p: seq<Word>)
    requires ValidMem(c, m) && r.state == Dev && HeaderOk(c, hdr)
    requires |p| == Span(start, end)
    ensures Addressable(c, r, [hdr, start, end] + p)
    ensures Run(c, r, m, [hdr, start, end] + p).regs == Regs(Dev, DacOf(c, hdr), ListenOf(c, hdr), Inc16(end), end)
  {
    var r3 := Regs(Data, DacOf(c, hdr), ListenOf(c, hdr), start, end);
    HeaderPhase(c, r, m, hdr, start, end, p);
    DataAddress(c, r3, m, p);
  }

  /** The memory half of `Transaction`. */
  lemma TransactionMem(c: Config, r: Regs, m: Mem, hdr: Word, start: Word, end: Word, p: seq<Word>)
    requires ValidMem(c, m) && r.state == Dev && HeaderOk(c, hdr)
    requires |p| == Span(start, end)
    ensures Addressable(c, r, [hdr, start, end] + p)
    ensures Wrote(c, m, Run(c, r, m, [hdr, start, end] + p).mem, ListenOf(c, hdr), DacOf(c, hdr), start, p)
  {
    var r3 := Regs(Data, DacOf(c, hdr), ListenOf(c, hdr), start, end);
    HeaderPhase(c, r, m, hdr, start, end, p);
    DataPhase(c, r3, m, p);
  }

  /** Advancing `Span(start, end)` times from `start` lands one past `end`. */
  lemma SpanWraps(start: Word, end: Word)
    ensures (start + Span(start, end)) % WordRange == Inc16(end)
  {
    WrapAddOne(start + Offset(start, end));
  }

  /** A transaction for another board runs through its whole range but
      leaves every memory as it was. */
  lemma NotListeningWritesNothing(c: Config, r: Regs, m: Mem, hdr: Word, start: Word, end: Word, p: seq<Word>)
    requires ValidMem(c, m) && r.state == Dev && !ListenOf(c, hdr)
    requires |p| == Span(start, end)
    ensures Addressable(c, r, [hdr, start, end] + p)
    ensures Run(c, r, m, [hdr, start, end] + p).mem == m
  {
    var r3 := Regs(Data, DacOf(c, hdr), false, start, end);
    HeaderPhase(c, r, m, hdr, start, end, p);
    DataPhase(c, r3, m, p);
    assert Run(c, r, m, [hdr, start, end] + p) == Run(c, r3, m, p);
    WroteNothing(c, m, Run(c, r3, m, p).mem, r3.dac, start, p);
  }

  /** A range written while not listening changes no memory. */
  lemma WroteNothing(c: Config, m: Mem, m': Mem, dac: nat, start: Word, p: seq<Word>)
    requires ValidMem(c, m) && ValidMem(c, m')
    requires Wrote(c, m, m', false, dac, start, p)
    ensures m' == m
  {
    forall d, a | 0 <= d < c.count && 0 <= a < Depth
      ensures m'[d][a] == m[d][a]
    {
    }
    SameCells(c, m', m);
  }

  /** Two memories that agree on every cell are equal. */
  lemma SameCells(c: Config, m1: Mem, m2: Mem)
    requires ValidMem(c, m1) && ValidMem(c, m2)
    requires forall d, a :: 0 <= d < c.count && 0 <= a < Depth ==> m1[d][a] == m2[d][a]
    ensures m1 == m2
  {
    forall d | 0 <= d < c.count ensures m1[d] == m2[d] {
      assert |m1[d]| == |m2[d]| == Depth;
    }
  }

  /** The writer over the memory ports of the DACs. */
  class MemWriter {
    const cfg: Config
    /** `mem[d, a]`: word `a` of the memory of DAC `d`. */
    const mem: array2<Word>
    var state: State
    var dac: nat
    var listen: bool
    var adr: Word
    var end: Word

    ghost predicate Valid()
      reads this
    {
      mem.Length0 == cfg.count && mem.Length1 == Depth && Inv(cfg, Registers())
    }

    function Registers(): Regs
      reads this
    {
      Regs(state, dac, listen, adr, end)
    }

    ghost function Contents(): (m: Mem)
      reads this, mem
      requires Valid()
      ensures ValidMem(cfg, m)
    {
      seq(mem.Length0, d requires 0 <= d < mem.Length0 reads mem =>
        seq(mem.Length1, a requires 0 <= a < mem.Length1 reads mem => mem[d, a]))
    }

    constructor (cfg: Config, mem: array2<Word>)
      requires mem.Length0 == cfg.count && mem.Length1 == Depth
      ensures Valid() && Registers() == PowerUp
      ensures this.cfg == cfg && this.mem == mem
    {
      this.cfg := cfg;
      this.mem := mem;
      state, dac, listen, adr, end := Dev, 0, false, 0, 0;
    }

    /** One clock cycle with the word stream's `stb` and `data`. Returns the
        stream's `ack` (always 1) and whether memory `dac` is written. */
    method Step(stb: bool, word: Word) returns (ack: bool, we: bool)
      requires Valid()
      requires state == Dev && stb ==> HeaderOk(cfg, word)
      modifies this, mem
      ensures Valid()
      ensures ack
      ensures we == WriteOf(old(Registers()), stb, word).Some?
      ensures Registers() == NextRegs(cfg, old(Registers()), stb, word)
      ensures Contents() == Apply(cfg, old(Contents()), WriteOf(old(Registers()), stb, word))
    {
      ghost var before := Contents();
      ack := true;
      we := state == Data && stb && listen;
      if we {
        mem[dac, adr] := word;
      }
      var next := state;
      if stb {
        match state {
          case Dev => next := Start;
          case Start => next := End;
          case End => next := Data;
          case Data => if adr == end { next := Dev; }
        }
      }
      match state {
        case Dev => dac, listen := DacOf(cfg, word), ListenOf(cfg, word);
        case Start => adr := word;
        case End => end := word;
        case Data => if stb { adr := Inc16(adr); }
      }
      state := next;
      ghost var after := Apply(cfg, before, WriteOf(old(Registers()), stb, word));
      forall d | 0 <= d < cfg.count ensures Contents()[d] == after[d] {
        assert forall a :: 0 <= a < Depth ==> Contents()[d][a] == after[d][a];
      }
    }
  }
}
