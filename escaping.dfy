/** The escape demultiplexer (the `Unescaper` with escape byte 0xA5), as the
    test bench pins it down: one byte stream in, two byte streams out.
    Channel A carries bulk memory data, channel B carries command bytes. */
module Escaping {
  import opened Signals

  /** The escape byte: `Unescaper(bus_layout, 0xa5)`. */
  const Esc: Byte := 0xA5

  /** What the demultiplexer has emitted on its two sources. */
  datatype Channels = Channels(a: seq<Byte>, b: seq<Byte>)

  /** Concatenation per channel: what one input emits, then what the next emits. */
  function Join(x: Channels, y: Channels): (r: Channels)
    ensures |r.a| == |x.a| + |y.a| && |r.b| == |x.b| + |y.b|
  {
    Channels(x.a + y.a, x.b + y.b)
  }

  /** What one input byte emits, given whether an escape is open. Outside an
      escape, a byte other than 0xA5 goes to A and 0xA5 emits nothing (it
      opens an escape); inside one, 0xA5 goes to A as a literal and any other
      byte goes to B. */
  function Emit(escaped: bool, x: Byte): Channels
  {
    if !escaped && x == Esc then Channels([], [])
    else if !escaped || x == Esc then Channels([x], [])
    else Channels([], [x])
  }

  /** Whether an escape is open after one input byte: only an escape byte
      outside an escape opens one, and every byte inside one closes it. */
  function Opens(escaped: bool, x: Byte): bool
  {
    !escaped && x == Esc
  }

  /** Nothing is lost or invented: a byte that does not open an escape comes
      out once, on exactly one channel, and it is B exactly for a byte
      inside an escape other than 0xA5. */
  lemma EmitOne(escaped: bool, x: Byte)
    ensures Emit(escaped, x).a + Emit(escaped, x).b == if Opens(escaped, x) then [] else [x]
    ensures Emit(escaped, x).b != [] <==> escaped && x != Esc
  {
  }

  /** The two-state demultiplexer run over `s`, starting in state `escaped`. */
  function Demux(escaped: bool, s: seq<Byte>): Channels
    decreases |s|
  {
    if s == [] then Channels([], [])
    else Join(Emit(escaped, s[0]), Demux(Opens(escaped, s[0]), s[1..]))
  }

  /** Whether an escape is still open after running over `s`. */
  function Pending(escaped: bool, s: seq<Byte>): bool
    decreases |s|
  {
    if s == [] then escaped
    else Pending(Opens(escaped, s[0]), s[1..])
  }

  /** The demultiplexer from its initial (not escaped) state. */
  function Unescape(s: seq<Byte>): Channels
  {
    Demux(false, s)
  }

  /** The test bench's input, cut where no escape is open. The five frames,
      the frame lemmas below and `Concat5` exist only to split the proof of
      `TestVector` into steps small enough for the verifier's resource limit:
      unfolding `Demux` over all twenty bytes at once is too expensive. */
  const Frame1: seq<Byte> := [1, 2]
  const Frame2: seq<Byte> := [0xa5, 3, 4]
  const Frame3: seq<Byte> := [0xa5, 0xa5, 5, 6]
  const Frame4: seq<Byte> := [0xa5, 0xa5, 0xa5, 7, 8]
  const Frame5: seq<Byte> := [0xa5, 0xa5, 0xa5, 0xa5, 9, 10]

  lemma ShortFrames()
    ensures Unescape(Frame1) == Channels([1, 2], []) && !Pending(false, Frame1)
    ensures Unescape(Frame2) == Channels([4], [3]) && !Pending(false, Frame2)
    ensures Unescape(Frame3) == Channels([0xa5, 5, 6], []) && !Pending(false, Frame3)
  {
  }

  lemma LongFrames()
    ensures Unescape(Frame4) == Channels([0xa5, 8], [7]) && !Pending(false, Frame4)
    ensures Unescape(Frame5) == Channels([0xa5, 0xa5, 9, 10], [])
  {
  }

  /** Five pieces, each but the last closing its escapes, come out piece by piece. */
  lemma Concat5(c1: seq<Byte>, c2: seq<Byte>, c3: seq<Byte>, c4: seq<Byte>, c5: seq<Byte>)
    requires !Pending(false, c1) && !Pending(false, c2) && !Pending(false, c3) && !Pending(false, c4)
    ensures Unescape(c1 + (c2 + (c3 + (c4 + c5))))
         == Join(Unescape(c1), Join(Unescape(c2), Join(Unescape(c3), Join(Unescape(c4), Unescape(c5)))))
  {
    Split(false, c4, c5);
    Split(false, c3, c4 + c5);
    Split(false, c2, c3 + (c4 + c5));
    Split(false, c1, c2 + (c3 + (c4 + c5)));
  }

  lemma FrameOutputsJoined()
    ensures Join(Channels([1, 2], []), Join(Channels([4], [3]), Join(Channels([0xa5, 5, 6], []),
              Join(Channels([0xa5, 8], [7]), Channels([0xa5, 0xa5, 9, 10], [])))))
         == Channels([1, 2, 4, 0xa5, 5, 6, 0xa5, 8, 0xa5, 0xa5, 9, 10], [3, 7])
  {
  }

  lemma FramesDemuxed()
    ensures Unescape(Frame1 + (Frame2 + (Frame3 + (Frame4 + Frame5))))
         == Channels([1, 2, 4, 0xa5, 5, 6, 0xa5, 8, 0xa5, 0xa5, 9, 10], [3, 7])
  {
    ShortFrames();
    LongFrames();
    Concat5(Frame1, Frame2, Frame3, Frame4, Frame5);
    FrameOutputsJoined();
  }

  lemma FramesFlattened()
    ensures Frame1 + (Frame2 + (Frame3 + (Frame4 + Frame5)))
         == [1, 2, 0xa5, 3, 4, 0xa5, 0xa5, 5, 6, 0xa5, 0xa5, 0xa5, 7, 8, 0xa5, 0xa5, 0xa5, 0xa5, 9, 10]
  {
  }

  /** The test vector of the test bench: channel A and channel B as expected.
      It is proved frame by frame (`FramesDemuxed`), which keeps each step
      within the resource limit. */
  lemma TestVector()
    ensures Unescape([1, 2, 0xa5, 3, 4, 0xa5, 0xa5, 5, 6, 0xa5, 0xa5, 0xa5, 7, 8,
                      0xa5, 0xa5, 0xa5, 0xa5, 9, 10])
         == Channels([1, 2, 4, 0xa5, 5, 6, 0xa5, 8, 0xa5, 0xa5, 9, 10], [3, 7])
  {
    FramesDemuxed();
    FramesFlattened();
  }

  /** Running over `p + q` is running over `p` and then over `q` from the
      state `p` leaves: both channels keep arrival order. */
  lemma {:induction false} Split(escaped: bool, p: seq<Byte>, q: seq<Byte>)
    ensures Demux(escaped, p + q) == Join(Demux(escaped, p), Demux(Pending(escaped, p), q))
    ensures Pending(escaped, p + q) == Pending(Pending(escaped, p), q)
    decreases |p|
  {
    if p == [] {
      assert p + q == q;
    } else {
      assert (p + q)[0] == p[0];
      assert (p + q)[1..] == p[1..] + q;
      var e := Emit(escaped, p[0]);
      var n := Opens(escaped, p[0]);
      Split(n, p[1..], q);
      var x, y := Demux(n, p[1..]), Demux(Pending(n, p[1..]), q);
      assert e.a + (x.a + y.a) == (e.a + x.a) + y.a;
      assert e.b + (x.b + y.b) == (e.b + x.b) + y.b;
    }
  }

  /** A stream without the escape byte comes out unchanged on A and nothing on B. */
  lemma {:induction false} PassThrough(s: seq<Byte>)
    requires forall i :: 0 <= i < |s| ==> s[i] != Esc
    ensures Unescape(s) == Channels(s, [])
    ensures !Pending(false, s)
  {
    if s != [] {
      PassThrough(s[1..]);
      assert [s[0]] + s[1..] == s;
    }
  }

  /** 0xA5 0xA5, outside an escape, stands for one literal 0xA5 on A. */
  lemma DoubledEscape(p: seq<Byte>, q: seq<Byte>)
    requires !Pending(false, p)
    ensures Unescape(p + [Esc, Esc] + q)
         == Join(Unescape(p), Join(Channels([Esc], []), Unescape(q)))
    ensures Pending(false, p + [Esc, Esc] + q) == Pending(false, q)
  {
    Split(false, p, [Esc, Esc] + q);
    assert p + [Esc, Esc] + q == p + ([Esc, Esc] + q);
    assert ([Esc, Esc] + q)[1..] == [Esc] + q;
    assert ([Esc] + q)[1..] == q;
  }

  /** 0xA5 x with x other than 0xA5, outside an escape, sends x to B alone. */
  lemma EscapedCommand(p: seq<Byte>, x: Byte, q: seq<Byte>)
    requires !Pending(false, p) && x != Esc
    ensures Unescape(p + [Esc, x] + q)
         == Join(Unescape(p), Join(Channels([], [x]), Unescape(q)))
    ensures Pending(false, p + [Esc, x] + q) == Pending(false, q)
  {
    Split(false, p, [Esc, x] + q);
    assert p + [Esc, x] + q == p + ([Esc, x] + q);
    assert ([Esc, x] + q)[1..] == [x] + q;
    assert ([x] + q)[1..] == q;
  }

  /** Escapes pair from the left: three escape bytes and 7 give 0xA5 on A,
      then 7 on B. */
  lemma PairsFromTheLeft()
    ensures Unescape([0xa5, 0xa5, 0xa5, 7]) == Channels([0xa5], [7])
  {
  }

  /** Number of occurrences of `x` in `s`. */
  function Count(s: seq<Byte>, x: Byte): (r: nat)
    ensures r <= |s|
  {
    if s == [] then 0 else (if s[0] == x then 1 else 0) + Count(s[1..], x)
  }

  lemma {:induction false} CountAppend(s: seq<Byte>, t: seq<Byte>, x: Byte)
    ensures Count(s + t, x) == Count(s, x) + Count(t, x)
  {
    if s == [] {
      assert s + t == t;
    } else {
      assert (s + t)[1..] == s[1..] + t;
      CountAppend(s[1..], t, x);
    }
  }

  /** Every input byte is accounted for: a plain byte once on A, a literal
      0xA5 on A twice (its escape and itself), a B byte twice (its escape
      and itself) and an open escape once. */
  lemma {:induction false} Accounting(escaped: bool, s: seq<Byte>)
    ensures var r := Demux(escaped, s);
      |s| + (if escaped then 1 else 0)
      == |r.a| + 2 * |r.b| + Count(r.a, Esc) + (if Pending(escaped, s) then 1 else 0)
    decreases |s|
  {
    if s != [] {
      Accounting(Opens(escaped, s[0]), s[1..]);
      CountAppend(Emit(escaped, s[0]).a, Demux(Opens(escaped, s[0]), s[1..]).a, Esc);
    }
  }

  /** The length identity for an input that does not end inside an escape. */
  lemma Lengths(s: seq<Byte>)
    requires !Pending(false, s)
    ensures var r := Unescape(s); |s| == |r.a| + 2 * |r.b| + Count(r.a, Esc)
  {
    Accounting(false, s);
  }

  /** What a producer of the stream sends: bulk data bytes and command bytes. */
  datatype Item = Data(byte: Byte) | Cmd(byte: Byte)

  /** The producer's side of the convention: a literal 0xA5 in the bulk data
      is doubled, and every command byte is prefixed with one 0xA5. */
  function EncodeItem(it: Item): (s: seq<Byte>)
  {
    match it
    case Data(x) => if x == Esc then [Esc, Esc] else [x]
    case Cmd(x) => [Esc, x]
  }

  function Encode(items: seq<Item>): (s: seq<Byte>)
  {
    if items == [] then [] else EncodeItem(items[0]) + Encode(items[1..])
  }

  function DataBytes(items: seq<Item>): seq<Byte>
  {
    if items == [] then []
    else (if items[0].Data? then [items[0].byte] else []) + DataBytes(items[1..])
  }

  function CmdBytes(items: seq<Item>): seq<Byte>
  {
    if items == [] then []
    else (if items[0].Cmd? then [items[0].byte] else []) + CmdBytes(items[1..])
  }

  /** One item: a data byte comes out on A, a command byte on B, and no
      escape is left open. */
  lemma ItemRoundTrip(it: Item)
    requires it.Cmd? ==> it.byte != Esc
    ensures Demux(false, EncodeItem(it))
         == Channels(if it.Data? then [it.byte] else [], if it.Cmd? then [it.byte] else [])
    ensures !Pending(false, EncodeItem(it))
  {
    match it
    case Data(x) =>
      if x == Esc {
        var e: seq<Byte> := [Esc, Esc];
        assert e[1..] == [Esc] && e[1..][1..] == [];
        assert Pending(false, e) == Pending(true, [Esc]) == Pending(false, []);
      } else {
        var e: seq<Byte> := [x];
        assert e[1..] == [];
      }
    case Cmd(x) =>
      var e: seq<Byte> := [Esc, x];
      assert e[1..] == [x] && e[1..][1..] == [];
      assert Pending(false, e) == Pending(true, [x]) == Pending(false, []);
      assert Demux(true, [x]) == Join(Channels([], [x]), Demux(false, []));
      assert Demux(false, e) == Join(Channels([], []), Demux(true, [x]));
  }

  /** Round trip: the demultiplexer recovers the bulk data on A and the
      commands on B, in order, as long as no command is 0xA5 itself. */
  lemma {:induction false} RoundTrip(items: seq<Item>)
    requires forall i :: 0 <= i < |items| && items[i].Cmd? ==> items[i].byte != Esc
    ensures Unescape(Encode(items)) == Channels(DataBytes(items), CmdBytes(items))
    ensures !Pending(false, Encode(items))
  {
    if items != [] {
      var rest := items[1..];
      assert forall i :: 0 <= i < |rest| && rest[i].Cmd? ==> rest[i].byte != Esc by {
        forall i | 0 <= i < |rest| && rest[i].Cmd? ensures rest[i].byte != Esc {
          assert rest[i] == items[i + 1];
        }
      }
      RoundTrip(rest);
      ItemRoundTrip(items[0]);
      Split(false, EncodeItem(items[0]), Encode(rest));
    }
  }

  /** Reading a stream back as items (the left inverse of Encode). */
  function Parse(s: seq<Byte>): (items: seq<Item>)
    decreases |s|
  {
    if s == [] then []
    else if s[0] != Esc then [Data(s[0])] + Parse(s[1..])
    else if |s| == 1 then []
    else if s[1] == Esc then [Data(Esc)] + Parse(s[2..])
    else [Cmd(s[1])] + Parse(s[2..])
  }

  /** Every stream that closes its last escape is the encoding of some items
      (those Parse reads from it): the convention loses nothing. */
  lemma {:induction false} EncodeParse(s: seq<Byte>)
    requires !Pending(false, s)
    ensures Encode(Parse(s)) == s
    ensures forall i :: 0 <= i < |Parse(s)| && Parse(s)[i].Cmd? ==> Parse(s)[i].byte != Esc
    decreases |s|
  {
    if s != [] {
      if s[0] != Esc {
        EncodeParse(s[1..]);
        assert ([Data(s[0])] + Parse(s[1..]))[1..] == Parse(s[1..]);
        assert [s[0]] + s[1..] == s;
      } else {
        assert |s| > 1;
        assert Pending(false, s) == Pending(false, s[2..]) by {
          assert s[1..][1..] == s[2..];
        }
        EncodeParse(s[2..]);
        var it := if s[1] == Esc then Data(Esc) else Cmd(s[1]);
        assert ([it] + Parse(s[2..]))[1..] == Parse(s[2..]);
        assert [s[0], s[1]] + s[2..] == s;
      }
    }
  }
}
