/** The host's SPI frames: `AsyncHost` of demo/live_die_stimulus.py puts them on the pins, and
    `spi_frames` of demo/live_die.py reads them back from the levels, one for each clock cycle. */
module SpiFrames {
  import opened Wrappers

  type Bit = b: int | 0 <= b < 2
  type Byte = b: int | 0 <= b < 256
  type Word = w: int | 0 <= w < 0x10000

  // Register addresses have seven bits: the eighth tells a write.
  type Register = r: int | 0 <= r < 0x80

  datatype Level = Level(sck: Bit, mosi: Bit, csN: Bit)

  const HALF: nat := 2

  function Repeat(l: Level, n: nat): (s: seq<Level>)
    ensures |s| == n && forall i :: 0 <= i < n ==> s[i] == l
  {
    seq(n, _ => l)
  }

  // bits and bytes, most significant first

  function Power(n: nat): (p: nat)
    ensures p > 0
  {
    if n == 0 then 1 else 2 * Power(n - 1)
  }

  /** v >> n. */
  function Shifted(v: nat, n: nat): nat {
    if n == 0 then v else Shifted(v / 2, n - 1)
  }

  /** The n low bits of a number. */
  function LowBits(v: nat, n: nat): (bits: seq<Bit>)
    ensures |bits| == n
  {
    if n == 0 then [] else LowBits(v / 2, n - 1) + [v % 2]
  }

  function ByteBits(byte: Byte): (bits: seq<Bit>)
    ensures |bits| == 8
  {
    LowBits(byte, 8)
  }

  function Value(bits: seq<Bit>): (v: nat) {
    if bits == [] then 0 else 2 * Value(bits[..|bits| - 1]) + bits[|bits| - 1]
  }

  function AllBits(data: seq<Byte>): (bits: seq<Bit>)
    ensures |bits| == 8 * |data|
  {
    if data == [] then [] else AllBits(data[..|data| - 1]) + ByteBits(data[|data| - 1])
  }

  /** Whole bytes from the front; what is left over is dropped. */
  function Bytes(bits: seq<Bit>): seq<nat> {
    if |bits| < 8 then [] else [Value(bits[..8])] + Bytes(bits[8..])
  }

  lemma {:induction false} ValueOfLow(v: nat, n: nat)
    requires v < Power(n)
    ensures Value(LowBits(v, n)) == v
  {
    if n > 0 { ValueOfLow(v / 2, n - 1); }
  }

  lemma {:induction false} BytesThen(bits: seq<Bit>, more: seq<Bit>)
    requires |bits| % 8 == 0 && |more| == 8
    ensures Bytes(bits + more) == Bytes(bits) + [Value(more)]
  {
    if bits == [] {
      assert bits + more == more && more[..8] == more;
      assert Bytes(more[8..]) == [];
    } else {
      BytesThen(bits[8..], more);
      assert (bits + more)[..8] == bits[..8] && (bits + more)[8..] == bits[8..] + more;
    }
  }

  /** The bytes come back from their bits. */
  lemma {:induction false} BytesOfBits(data: seq<Byte>)
    ensures Bytes(AllBits(data)) == data
  {
    if data != [] {
      var last := data[|data| - 1];
      BytesOfBits(data[..|data| - 1]);
      BytesThen(AllBits(data[..|data| - 1]), ByteBits(last));
      assert Power(8) == 256 by { assert Power(4) == 16; }
      ValueOfLow(last, 8);
      assert data == data[..|data| - 1] + [last];
    }
  }

  // frames

  datatype What = Written(register: Register, words: seq<Word>) | Asked(register: Register)

  datatype Frame = Frame(first: nat, last: nat, what: What)

  /** Pairs of bytes; one left over is dropped. */
  function Words(data: seq<Byte>): seq<Word> {
    if |data| < 2 then [] else [Joined(data[0], data[1])] + Words(data[2..])
  }

  function Joined(high: int, low: int): (w: int) {
    high * 256 + low
  }

  /** The two bytes of each word, as the host cuts it to 16 bits. */
  function WordBytes(words: seq<int>): seq<Byte> {
    if words == [] then [] else TwoBytes(words[0]) + WordBytes(words[1..])
  }

  function TwoBytes(word: int): (two: seq<Byte>)
    ensures |two| == 2
  {
    var high: Byte, low: Byte := (word / 256) % 256, word % 256;
    [high, low]
  }

  function Cut(words: seq<int>): (cut: seq<Word>)
    ensures |cut| == |words|
  {
    if words == [] then [] else [words[0] % 0x10000] + Cut(words[1..])
  }

  lemma {:induction false} WordsOfBytes(words: seq<int>)
    ensures Words(WordBytes(words)) == Cut(words)
  {
    if words != [] {
      WordsOfBytes(words[1..]);
      var d := WordBytes(words);
      assert d[2..] == WordBytes(words[1..]);
      assert Joined((words[0] / 256) % 256, words[0] % 256) == words[0] % 0x10000;
    }
  }

  function WhatOf(data: seq<Byte>): What
    requires data != []
  {
    if data[0] >= 0x80 then Written(data[0] - 0x80, Words(data[1..])) else Asked(data[0])
  }

  // reading the levels back

  /** A frame not yet ended: its first cycle and the bits so far. */
  datatype Begun = Begun(first: nat, bits: seq<Bit>)

  /** Failed is the frame with not even a byte, which the source cannot index. */
  datatype Reader = Reader(frames: seq<Frame>, begun: Option<Begun>) | Failed

  /** One cycle, given the clock before it. */
  function Next(r: Reader, before: Bit, level: Level, cycle: nat): Reader {
    if r.Failed? then Failed
    else if r.begun == None && level.csN == 1 then r
    else
      var begun := if r.begun.Some? then r.begun.value else Begun(cycle, []);
      var bits := if level.sck == 1 && before == 0 then begun.bits + [level.mosi] else begun.bits;
      if level.csN == 0 then Reader(r.frames, Some(Begun(begun.first, bits)))
      else if |bits| < 8 then Failed
      else Reader(r.frames + [FrameOf(begun.first, cycle, bits)], None)
  }

  function FrameOf(first: nat, last: nat, bits: seq<Bit>): Frame
    requires |bits| >= 8
  {
    Frame(first, last, WhatOf(BytesBelow(bits)))
  }

  /** Eight bits are a byte, so what is read is one. */
  function BytesBelow(bits: seq<Bit>): (data: seq<Byte>)
    ensures data == Bytes(bits)
  {
    BytesAreSmall(bits);
    Bytes(bits)
  }

  lemma {:induction false} BytesAreSmall(bits: seq<Bit>)
    ensures forall i :: 0 <= i < |Bytes(bits)| ==> Bytes(bits)[i] < 256
  {
    if |bits| >= 8 {
      BytesAreSmall(bits[8..]);
      ValueSmall(bits[..8]);
      assert Power(8) == 256 by { assert Power(4) == 16; }
    }
  }

  lemma {:induction false} ValueSmall(bits: seq<Bit>)
    ensures Value(bits) < Power(|bits|)
  {
    if bits != [] { ValueSmall(bits[..|bits| - 1]); }
  }

  /** A reader on its way: the clock a cycle before, and the cycle it is at. */
  datatype Scan = Scan(reader: Reader, clock: Bit, cycle: nat)

  function ScanOne(s: Scan, level: Level): Scan {
    Scan(Next(s.reader, s.clock, level, s.cycle), level.sck, s.cycle + 1)
  }

  function ScanAll(s: Scan, levels: seq<Level>): Scan {
    if levels == [] then s else ScanOne(ScanAll(s, levels[..|levels| - 1]), levels[|levels| - 1])
  }

  lemma {:induction false} ScanThen(s: Scan, a: seq<Level>, b: seq<Level>)
    ensures ScanAll(s, a + b) == ScanAll(ScanAll(s, a), b)
  {
    if b == [] {
      assert a + b == a;
    } else {
      ScanThen(s, a, b[..|b| - 1]);
      assert (a + b)[..|a + b| - 1] == a + b[..|b| - 1];
    }
  }

  /** The clock before the first cycle is the last level's, as a list's item -1 is its last. */
  function Start(levels: seq<Level>): Scan {
    Scan(Reader([], None), if levels == [] then 0 else levels[|levels| - 1].sck, 0)
  }

  datatype IndexError = IndexError

  method Read(levels: seq<Level>) returns (r: Result<seq<Frame>, IndexError>)
    ensures var reader := ScanAll(Start(levels), levels).reader;
      r == if reader.Failed? then Failure(IndexError) else Success(reader.frames)
  {
    var frames: seq<Frame>, begun: bool, first: nat, bits: seq<Bit> := [], false, 0, [];
    var cycle := 0;
    while cycle < |levels|
      invariant 0 <= cycle <= |levels|
      invariant ScannedTo(levels, cycle, Reader(frames, if begun then Some(Begun(first, bits)) else None))
    {
      var level := levels[cycle];
      ScannedMore(levels, cycle, Reader(frames, if begun then Some(Begun(first, bits)) else None));
      if level.csN == 0 && !begun {
        begun, first, bits := true, cycle, [];
      }
      if begun {
        if level.sck == 1 && ClockBefore(levels, cycle) == 0 {
          bits := bits + [level.mosi];
        }
        if level.csN == 1 {
          if |bits| < 8 {
            FailedOn(Start(levels), levels, cycle + 1);
            return Failure(IndexError);
          }
          frames, begun := frames + [FrameOf(first, cycle, bits)], false;
        }
      }
      cycle := cycle + 1;
    }
    assert levels[..cycle] == levels;
    return Success(frames);
  }

  function ClockBefore(levels: seq<Level>, cycle: nat): Bit
    requires cycle <= |levels|
  {
    if cycle == 0 then Start(levels).clock else levels[cycle - 1].sck
  }

  /** The reader after the first cycles. */
  ghost predicate ScannedTo(levels: seq<Level>, cycle: nat, reader: Reader)
    requires cycle <= |levels|
  {
    ScanAll(Start(levels), levels[..cycle]) == Scan(reader, ClockBefore(levels, cycle), cycle)
  }

  lemma ScannedMore(levels: seq<Level>, cycle: nat, reader: Reader)
    requires cycle < |levels| && ScannedTo(levels, cycle, reader)
    ensures ScannedTo(levels, cycle + 1, Next(reader, ClockBefore(levels, cycle), levels[cycle], cycle))
  {
    ScanOneMore(Start(levels), levels, cycle);
  }

  lemma ScanOneMore(s: Scan, levels: seq<Level>, n: nat)
    requires n < |levels|
    ensures ScanAll(s, levels[..n + 1]) == ScanOne(ScanAll(s, levels[..n]), levels[n])
  {
    assert levels[..n + 1][..n] == levels[..n];
  }

  lemma FailedOn(s: Scan, levels: seq<Level>, n: nat)
    requires n <= |levels| && ScanAll(s, levels[..n]).reader.Failed?
    ensures ScanAll(s, levels).reader.Failed?
  {
    FailedStays(ScanAll(s, levels[..n]), levels[n..]);
    ScanThen(s, levels[..n], levels[n..]);
    assert levels[..n] + levels[n..] == levels;
  }

  lemma {:induction false} FailedStays(s: Scan, levels: seq<Level>)
    requires s.reader.Failed?
    ensures ScanAll(s, levels).reader.Failed?
  {
    if levels != [] { FailedStays(s, levels[..|levels| - 1]); }
  }

  // what the host puts on the pins

  function BitLevels(b: Bit): (s: seq<Level>)
    ensures |s| == 4
  {
    Repeat(Level(0, b, 0), HALF) + Repeat(Level(1, b, 0), HALF)
  }

  /** Each bit while the clock is low, and again while it is high. */
  function Clocked(bits: seq<Bit>): (s: seq<Level>)
    ensures |s| == 4 * |bits|
  {
    if bits == [] then [] else Clocked(bits[..|bits| - 1]) + BitLevels(bits[|bits| - 1])
  }

  /** A transfer: selected, the bytes, and back. */
  function Transferred(data: seq<Byte>): (s: seq<Level>)
    ensures |s| == 32 * |data| + 7
  {
    Repeat(Level(0, 0, 0), HALF) + Clocked(AllBits(data)) + Repeat(Level(0, 0, 0), HALF) + Repeat(Level(0, 0, 1), 3)
  }

  lemma ClockedOn(bits: seq<Bit>, bit: Bit)
    ensures Clocked(bits + [bit]) == Clocked(bits) + BitLevels(bit)
  {
    assert (bits + [bit])[..|bits|] == bits;
  }

  lemma {:induction false} ClockedThen(bits: seq<Bit>, more: seq<Bit>)
    ensures Clocked(bits + more) == Clocked(bits) + Clocked(more)
  {
    if more == [] {
      assert bits + more == bits;
    } else {
      var front, last := more[..|more| - 1], more[|more| - 1];
      ClockedThen(bits, front);
      assert bits + more == (bits + front) + [last];
      ClockedOn(bits + front, last);
      ClockedOn(front, last);
      assert front + [last] == more;
    }
  }

  /** The pins, one level for each cycle, and the replies read from the chip's. */
  class AsyncHost {
    var levels: seq<Level>

    constructor ()
      ensures levels == []
    {
      levels := [];
    }

    method Drive(sck: Bit, mosi: Bit, csN: Bit, cycles: nat)
      modifies this
      ensures levels == old(levels) + Repeat(Level(sck, mosi, csN), cycles)
    {
      levels := levels + Repeat(Level(sck, mosi, csN), cycles);
    }

    /** One bit out and one in: miso is the chip's pin at each cycle, read as the clock rises. */
    method Exchange(bit: Bit, miso: nat -> Bit) returns (reply: Bit)
      modifies this
      ensures levels == old(levels) + BitLevels(bit) && reply == miso(|old(levels)| + HALF)
    {
      Drive(0, bit, 0, HALF);
      reply := miso(|levels|);
      Drive(1, bit, 0, HALF);
    }

    /** The low bits of a number, most significant first. */
    method ExchangeBits(v: nat, count: nat, miso: nat -> Bit) returns (reply: nat)
      modifies this
      ensures levels == old(levels) + Clocked(LowBits(v, count))
      ensures reply == Value(Sampled(miso, |old(levels)|, count))
    {
      reply := 0;
      var b: nat := count;
      ghost var start, bits, n: nat := levels, LowBits(v, count), 0;
      while b > 0
        invariant b + n == count
        invariant levels == start + Clocked(bits[..n])
        invariant reply == Value(Sampled(miso, |start|, n))
      {
        b := b - 1;
        LowBitAt(v, count, n);
        ClockedOneMore(bits, n);
        SampledOneMore(miso, |start|, n);
        var got := Exchange(Shifted(v, b) % 2, miso);
        reply := 2 * reply + got;
        n := n + 1;
      }
      assert bits[..n] == bits;
    }

    method ExchangeByte(byte: Byte, miso: nat -> Bit) returns (reply: nat)
      modifies this
      ensures levels == old(levels) + Clocked(ByteBits(byte))
      ensures reply == ByteSampled(miso, |old(levels)|)
    {
      reply := ExchangeBits(byte, 8, miso);
    }

    method ExchangeBytes(data: seq<Byte>, miso: nat -> Bit) returns (replies: seq<nat>)
      modifies this
      ensures levels == old(levels) + Clocked(AllBits(data))
      ensures RepliesAre(replies, miso, |old(levels)|, |data|)
    {
      replies := [];
      ghost var start := levels;
      var n := 0;
      while n < |data|
        invariant 0 <= n <= |data|
        invariant ClockedTo(start, levels, data, n) && RepliesAre(replies, miso, |start|, n)
      {
        ghost var before := levels;
        var reply := ExchangeByte(data[n], miso);
        ClockedToNext(start, before, levels, data, n);
        replies := replies + [reply];
        n := n + 1;
      }
      assert data[..n] == data;
    }

    method Transfer(data: seq<Byte>, miso: nat -> Bit) returns (replies: seq<nat>)
      modifies this
      ensures levels == old(levels) + Transferred(data)
      ensures RepliesAre(replies, miso, |old(levels)| + HALF, |data|)
    {
      Drive(0, 0, 0, HALF);
      replies := ExchangeBytes(data, miso);
      Drive(0, 0, 0, HALF);
      Drive(0, 0, 1, 3);
    }

    method Write(register: Register, words: seq<int>, miso: nat -> Bit)
      modifies this
      ensures levels == old(levels) + Transferred(WriteBytes(register, words))
    {
      var data := [Marked(register)];
      var n := 0;
      while n < |words|
        invariant 0 <= n <= |words| && data == [Marked(register)] + WordBytes(words[..n]) && levels == old(levels)
      {
        WordBytesThen(words[..n], words[n]);
        assert words[..n + 1] == words[..n] + [words[n]];
        data := data + TwoBytes(words[n]);
        n := n + 1;
      }
      assert words[..n] == words;
      var _ := Transfer(data, miso);
    }

    method Read(register: Register, count: nat, miso: nat -> Bit) returns (words: seq<nat>)
      modifies this
      ensures levels == old(levels) + Transferred(ReadBytes(register, count))
      ensures |words| == count
      ensures forall i :: 0 <= i < count ==>
              words[i] == Joined(ByteSampled(miso, |old(levels)| + HALF + 32 * (2 * i + 1)),
                                                                ByteSampled(miso, |old(levels)| + HALF
                                                                  + 32 * (2 * i + 2)))
    {
      var reply := Transfer(ReadBytes(register, count), miso);
      reply := reply[1..];
      words := [];
      var i := 0;
      while i < count
        invariant 0 <= i <= count && |words| == i
        invariant forall k :: 0 <= k < i ==> words[k] == Joined(reply[2 * k], reply[2 * k + 1])
      {
        words := words + [Joined(reply[2 * i], reply[2 * i + 1])];
        i := i + 1;
      }
    }
  }

  lemma {:induction false} LowBitAt(v: nat, n: nat, i: nat)
    requires i < n
    ensures LowBits(v, n)[i] == Shifted(v, n - 1 - i) % 2
  {
    if i < n - 1 { LowBitAt(v / 2, n - 1, i); }
  }

  lemma {:induction false} WordBytesThen(words: seq<int>, word: int)
    ensures WordBytes(words + [word]) == WordBytes(words) + TwoBytes(word)
  {
    if words == [] {
      assert [word][1..] == [];
    } else {
      WordBytesThen(words[1..], word);
      assert (words + [word])[1..] == words[1..] + [word];
    }
  }

  /** The chip's pin at each rising edge of n bits that begin at a cycle. */
  function Sampled(miso: nat -> Bit, start: nat, n: nat): (bits: seq<Bit>)
    ensures |bits| == n
  {
    if n == 0 then [] else Sampled(miso, start, n - 1) + [miso(start + 4 * (n - 1) + HALF)]
  }

  function ByteSampled(miso: nat -> Bit, start: nat): nat {
    Value(Sampled(miso, start, 8))
  }

  ghost predicate RepliesAre(replies: seq<nat>, miso: nat -> Bit, start: nat, n: nat) {
    |replies| == n && forall i :: 0 <= i < n ==> replies[i] == ByteSampled(miso, start + 32 * i)
  }

  lemma SampledOneMore(miso: nat -> Bit, start: nat, n: nat)
    ensures Value(Sampled(miso, start, n + 1)) == 2 * Value(Sampled(miso, start, n)) + miso(start + 4 * n + HALF)
  {
    assert Sampled(miso, start, n + 1)[..n] == Sampled(miso, start, n);
  }

  lemma ClockedOneMore(bits: seq<Bit>, n: nat)
    requires n < |bits|
    ensures Clocked(bits[..n + 1]) == Clocked(bits[..n]) + BitLevels(bits[n])
  {
    assert bits[..n + 1] == bits[..n] + [bits[n]];
    ClockedOn(bits[..n], bits[n]);
  }

  /** The first n bytes have been clocked out. */
  ghost predicate ClockedTo(start: seq<Level>, levels: seq<Level>, data: seq<Byte>, n: nat)
    requires n <= |data|
  {
    levels == start + Clocked(AllBits(data[..n]))
  }

  lemma ClockedToNext(start: seq<Level>, before: seq<Level>, levels: seq<Level>, data: seq<Byte>, n: nat)
    requires n < |data| && ClockedTo(start, before, data, n) && levels == before + Clocked(ByteBits(data[n]))
    ensures ClockedTo(start, levels, data, n + 1) && |before| == |start| + 32 * n
  {
    AllBitsOneMore(data, n);
  }

  lemma AllBitsOneMore(data: seq<Byte>, n: nat)
    requires n < |data|
    ensures Clocked(AllBits(data[..n + 1])) == Clocked(AllBits(data[..n])) + Clocked(ByteBits(data[n]))
  {
    assert data[..n + 1][..n] == data[..n];
    ClockedThen(AllBits(data[..n]), ByteBits(data[n]));
  }

  function Marked(register: Register): Byte {
    0x80 + register
  }

  function WriteBytes(register: Register, words: seq<int>): (data: seq<Byte>)
    ensures data != []
  {
    [Marked(register)] + WordBytes(words)
  }

  function ReadBytes(register: Register, count: nat): (data: seq<Byte>)
    ensures |data| == 1 + 2 * count && data[0] == register && forall i :: 0 < i < |data| ==> data[i] == 0
  {
    [register] + seq(2 * count, _ => 0)
  }

  // what is put on the pins is what is read

  /** Between frames the pins may do anything with nothing selected. */
  datatype Step =
    | Gap(levels: seq<Level>) | Write(register: Register, words: seq<int>) | Ask(register: Register, count: nat)

  predicate Quiet(levels: seq<Level>) {
    forall i :: 0 <= i < |levels| ==> levels[i].csN == 1
  }

  /** What the frame is to be read as. */
  function Meant(step: Step): What
    requires !step.Gap?
  {
    match step
    case Write(register, words) => Written(register, Cut(words))
    case Ask(register, _) => Asked(register)
  }

  /** The bytes the host sends, the register's first: they mean what it called for. */
  function Sent(step: Step): (data: seq<Byte>)
    requires !step.Gap?
    ensures data != [] && WhatOf(data) == Meant(step)
    ensures |data| == 1 + 2 * if step.Write? then |step.words| else step.count
  {
    match step
    case Write(register, words) =>
      WhatIsWritten(register, words);
      WriteBytes(register, words)
    case Ask(register, count) => ReadBytes(register, count)
  }

  function StepLevels(step: Step): seq<Level> {
    if step.Gap? then step.levels else Transferred(Sent(step))
  }

  /** A frame lasts from its first selected cycle to the first with nothing selected. */
  function StepFrames(step: Step, at: nat): seq<Frame> {
    if step.Gap? then [] else [Frame(at, at + 32 * |Sent(step)| + 4, Meant(step))]
  }

  function RunLevels(run: seq<Step>): seq<Level> {
    if run == [] then [] else RunLevels(run[..|run| - 1]) + StepLevels(run[|run| - 1])
  }

  function RunFrames(run: seq<Step>): seq<Frame> {
    if run == [] then []
    else RunFrames(run[..|run| - 1]) + StepFrames(run[|run| - 1], |RunLevels(run[..|run| - 1])|)
  }

  /** A level held within a frame: a bit if the clock rose to it. */
  lemma {:induction false} Held(s: Scan, n: nat, level: Level)
    requires n > 0 && level.csN == 0 && s.reader.Reader? && s.reader.begun.Some?
    ensures var begun := s.reader.begun.value;
      var bits := if level.sck == 1 && s.clock == 0 then begun.bits + [level.mosi] else begun.bits;
      ScanAll(s, Repeat(level, n))
        == Scan(Reader(s.reader.frames, Some(Begun(begun.first, bits))), level.sck, s.cycle + n)
  {
    var front := Repeat(level, n)[..n - 1];
    assert front == Repeat(level, n - 1);
    if n > 1 {
      Held(s, n - 1, level);
    } else {
      assert ScanAll(s, front) == s;
    }
  }

  /** In the middle of a frame: these bits so far. */
  function Within(frames: seq<Frame>, first: nat, bits: seq<Bit>, clock: Bit, cycle: nat): Scan {
    Scan(Reader(frames, Some(Begun(first, bits))), clock, cycle)
  }

  function Between(frames: seq<Frame>, clock: Bit, cycle: nat): Scan {
    Scan(Reader(frames, None), clock, cycle)
  }

  lemma BitRead(frames: seq<Frame>, first: nat, bits: seq<Bit>, clock: Bit, cycle: nat, bit: Bit)
    ensures ScanAll(Within(frames, first, bits, clock, cycle), BitLevels(bit))
            == Within(frames, first, bits + [bit], 1, cycle + 4)
  {
    var s := Within(frames, first, bits, clock, cycle);
    Held(s, HALF, Level(0, bit, 0));
    Held(Within(frames, first, bits, 0, cycle + HALF), HALF, Level(1, bit, 0));
    ScanThen(s, Repeat(Level(0, bit, 0), HALF), Repeat(Level(1, bit, 0), HALF));
  }

  lemma {:induction false} ClockedRead(frames: seq<Frame>, first: nat, clock: Bit, cycle: nat, bits: seq<Bit>)
    ensures ScanAll(Within(frames, first, [], clock, cycle), Clocked(bits))
            == Within(frames, first, bits, if bits == [] then clock else 1, cycle + 4 * |bits|)
  {
    if bits != [] {
      var front, last := bits[..|bits| - 1], bits[|bits| - 1];
      ClockedRead(frames, first, clock, cycle, front);
      BitRead(frames, first, front, if front == [] then clock else 1, cycle + 4 * |front|, last);
      ScanThen(Within(frames, first, [], clock, cycle), Clocked(front), BitLevels(last));
      assert front + [last] == bits;
    }
  }

  lemma {:induction false} QuietRead(frames: seq<Frame>, clock: Bit, cycle: nat, gap: seq<Level>)
    requires Quiet(gap)
    ensures ScanAll(Between(frames, clock, cycle), gap)
            == Between(frames, if gap == [] then clock else gap[|gap| - 1].sck, cycle + |gap|)
  {
    if gap != [] {
      QuietRead(frames, clock, cycle, gap[..|gap| - 1]);
    }
  }

  lemma Selected(frames: seq<Frame>, clock: Bit, cycle: nat)
    ensures ScanAll(Between(frames, clock, cycle), Repeat(Level(0, 0, 0), HALF))
            == Within(frames, cycle, [], 0, cycle + HALF)
  {
    var s, low := Between(frames, clock, cycle), Level(0, 0, 0);
    assert ScanAll(s, [low]) == Within(frames, cycle, [], 0, cycle + 1) by {
      assert [low][..0] == [];
    }
    Held(Within(frames, cycle, [], 0, cycle + 1), 1, low);
    ScanThen(s, [low], Repeat(low, 1));
    assert [low] + Repeat(low, 1) == Repeat(low, HALF);
  }

  lemma Deselected(frames: seq<Frame>, first: nat, cycle: nat, data: seq<Byte>)
    requires data != []
    ensures ScanAll(Within(frames, first, AllBits(data), 0, cycle), Repeat(Level(0, 0, 1), 3))
            == Between(frames + [Frame(first, cycle, WhatOf(data))], 0, cycle + 3)
  {
    BytesOfBits(data);
    var s, high := Within(frames, first, AllBits(data), 0, cycle), Level(0, 0, 1);
    var done := frames + [Frame(first, cycle, WhatOf(data))];
    assert ScanAll(s, [high]) == Between(done, 0, cycle + 1) by {
      assert [high][..0] == [];
    }
    QuietRead(done, 0, cycle + 1, Repeat(high, 2));
    ScanThen(s, [high], Repeat(high, 2));
    assert [high] + Repeat(high, 2) == Repeat(high, 3);
  }

  lemma ScanTwo(s: Scan, a: seq<Level>, mid: Scan, b: seq<Level>, end: Scan)
    requires ScanAll(s, a) == mid && ScanAll(mid, b) == end
    ensures ScanAll(s, a + b) == end
  {
    ScanThen(s, a, b);
  }

  /** Selected, these bits and the clock low again. */
  function Body(bits: seq<Bit>): (s: seq<Level>)
    ensures |s| == 4 * |bits| + 4
  {
    Repeat(Level(0, 0, 0), HALF) + Clocked(bits) + Repeat(Level(0, 0, 0), HALF)
  }

  lemma HeldLow(frames: seq<Frame>, first: nat, bits: seq<Bit>, clock: Bit, cycle: nat)
    ensures ScanAll(Within(frames, first, bits, clock, cycle), Repeat(Level(0, 0, 0), HALF))
            == Within(frames, first, bits, 0, cycle + HALF)
  {
    Held(Within(frames, first, bits, clock, cycle), HALF, Level(0, 0, 0));
  }

  lemma BodyRead(frames: seq<Frame>, clock: Bit, cycle: nat, bits: seq<Bit>)
    requires bits != []
    ensures ScanAll(Between(frames, clock, cycle), Body(bits)) == Within(frames, cycle, bits, 0, cycle + 4 * |bits| + 4)
  {
    var low, start := Repeat(Level(0, 0, 0), HALF), Between(frames, clock, cycle);
    var open := Within(frames, cycle, [], 0, cycle + HALF);
    var full := Within(frames, cycle, bits, 1, cycle + HALF + 4 * |bits|);
    var end := Within(frames, cycle, bits, 0, cycle + HALF + 4 * |bits| + HALF);
    Selected(frames, clock, cycle);
    ClockedRead(frames, cycle, 0, cycle + HALF, bits);
    HeldLow(frames, cycle, bits, 1, cycle + HALF + 4 * |bits|);
    ScanTwo(start, low, open, Clocked(bits), full);
    ScanTwo(start, low + Clocked(bits), full, low, end);
  }

  lemma TransferRead(frames: seq<Frame>, clock: Bit, cycle: nat, data: seq<Byte>)
    requires data != []
    ensures ScanAll(Between(frames, clock, cycle), Transferred(data))
            == Between(frames + [Frame(cycle, cycle + 32 * |data| + 4, WhatOf(data))], 0, cycle + |Transferred(data)|)
  {
    var bits, high := AllBits(data), Repeat(Level(0, 0, 1), 3);
    BodyRead(frames, clock, cycle, bits);
    Deselected(frames, cycle, cycle + 4 * |bits| + 4, data);
    ScanTwo(Between(frames, clock, cycle), Body(bits), Within(frames, cycle, bits, 0, cycle + 4 * |bits| + 4), high,
            Between(frames + [Frame(cycle, cycle + 4 * |bits| + 4, WhatOf(data))], 0, cycle + 4 * |bits| + 4 + 3));
    assert Transferred(data) == Body(bits) + high;
  }

  /** A transfer whose bytes mean this. */
  lemma MeantRead(frames: seq<Frame>, clock: Bit, cycle: nat, data: seq<Byte>, what: What, levels: seq<Level>,
                  read: seq<Frame>)
    requires data != [] && WhatOf(data) == what && levels == Transferred(data)
    requires read == [Frame(cycle, cycle + 32 * |data| + 4, what)]
    ensures ScanAll(Between(frames, clock, cycle), levels) == Between(frames + read, 0, cycle + |levels|)
  {
    TransferRead(frames, clock, cycle, data);
  }

  lemma WhatIsWritten(register: Register, words: seq<int>)
    ensures WhatOf(WriteBytes(register, words)) == Written(register, Cut(words))
    ensures |WriteBytes(register, words)| == 1 + 2 * |words|
  {
    assert WriteBytes(register, words)[1..] == WordBytes(words);
    WordsOfBytes(words);
    WordBytesLength(words);
  }

  lemma {:induction false} WordBytesLength(words: seq<int>)
    ensures |WordBytes(words)| == 2 * |words|
  {
    if words != [] { WordBytesLength(words[1..]); }
  }

  lemma GapRead(frames: seq<Frame>, clock: Bit, cycle: nat, step: Step) returns (after: Bit)
    requires step.Gap? && Quiet(step.levels)
    ensures ScanAll(Between(frames, clock, cycle), StepLevels(step))
            == Between(frames + StepFrames(step, cycle), after, cycle + |StepLevels(step)|)
  {
    QuietRead(frames, clock, cycle, step.levels);
    assert frames + [] == frames;
    after := if step.levels == [] then clock else step.levels[|step.levels| - 1].sck;
  }

  lemma SentStep(step: Step, cycle: nat)
    requires !step.Gap?
    ensures StepLevels(step) == Transferred(Sent(step)) && WhatOf(Sent(step)) == Meant(step)
    ensures StepFrames(step, cycle) == [Frame(cycle, cycle + 32 * |Sent(step)| + 4, Meant(step))]
  {
  }

  /** One step of a run, whenever it comes. */
  lemma StepRead(frames: seq<Frame>, clock: Bit, cycle: nat, step: Step) returns (after: Bit)
    requires step.Gap? ==> Quiet(step.levels)
    ensures ScanAll(Between(frames, clock, cycle), StepLevels(step))
            == Between(frames + StepFrames(step, cycle), after, cycle + |StepLevels(step)|)
  {
    if step.Gap? {
      after := GapRead(frames, clock, cycle, step);
    } else {
      SentStep(step, cycle);
      MeantRead(frames, clock, cycle, Sent(step), Meant(step), StepLevels(step), StepFrames(step, cycle));
      after := 0;
    }
  }

  lemma {:induction false} RunRead(run: seq<Step>, clock: Bit) returns (after: Bit)
    requires forall i :: 0 <= i < |run| && run[i].Gap? ==> Quiet(run[i].levels)
    ensures ScanAll(Between([], clock, 0), RunLevels(run)) == Between(RunFrames(run), after, |RunLevels(run)|)
  {
    after := clock;
    if run != [] {
      var front, step := run[..|run| - 1], run[|run| - 1];
      var mid := RunRead(front, clock);
      after := StepRead(RunFrames(front), mid, |RunLevels(front)|, step);
      ScanThen(Between([], clock, 0), RunLevels(front), StepLevels(step));
    }
  }

  /** Every read and write comes back, in order, with its cycles, its register and its words cut
      to 16 bits, whatever the pins do in between; and nothing else does. */
  method ReadRun(run: seq<Step>) returns (frames: seq<Frame>)
    requires forall i :: 0 <= i < |run| && run[i].Gap? ==> Quiet(run[i].levels)
    ensures frames == RunFrames(run)
  {
    var levels := RunLevels(run);
    ghost var _ := RunRead(run, Start(levels).clock);
    var r := Read(levels);
    frames := r.value;
  }
}
