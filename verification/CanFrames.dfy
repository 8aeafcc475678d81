/** `frames` and `listen` of python/demo_can_node.py: CAN frames out of the receiver's words, a
    poll's worth at a time. */
module CanFrames {
  import opened Numbers

  type Byte = b: int | 0 <= b < 256
  type Word = w: int | 0 <= w < 0x10000

  datatype CanFrame = CanFrame(ident: Word, rtr: nat, dlc: nat, data: seq<Byte>)

  /** How many data bytes follow, and where the word after them is. */
  function DataCount(control: Word): (count: nat)
    ensures count <= 8
  {
    if (control / 64) % 2 == 1 then 0 else Min(control % 16, 8)
  }

  function EndOf(control: Word): nat {
    2 + (DataCount(control) + 1) / 2
  }

  function WordBytes(words: seq<Word>): (data: seq<Byte>)
    ensures |data| == 2 * |words|
  {
    if words == [] then [] else TwoBytes(words[0]) + WordBytes(words[1..])
  }

  function TwoBytes(word: Word): (two: seq<Byte>)
    ensures |two| == 2
  {
    var high: Byte, low: Byte := word / 256, word % 256;
    [high, low]
  }

  /** Whether a whole frame is at the front: enough words, and a 0 where an error would put its code. */
  predicate Whole(words: seq<Word>) {
    |words| >= 2 && |words| > EndOf(words[1]) && words[EndOf(words[1])] == 0
  }

  function Front(words: seq<Word>): CanFrame
    requires Whole(words)
  {
    var count, data := DataCount(words[1]), WordBytes(words[2..EndOf(words[1])]);
    CanFrame(words[0], (words[1] / 64) % 2, words[1] % 16, data[|data| - count..])
  }

  function Rest(words: seq<Word>): seq<Word>
    requires Whole(words)
  {
    words[EndOf(words[1]) + 1..]
  }

  /** The frames at the front, and the words after them. */
  function Found(words: seq<Word>): seq<CanFrame> {
    if Whole(words) then [Front(words)] + Found(Rest(words)) else []
  }

  function Left(words: seq<Word>): seq<Word> {
    if Whole(words) then Left(Rest(words)) else words
  }

  method Unpack(words: seq<Word>) returns (data: seq<Byte>)
    ensures data == WordBytes(words)
  {
    data := [];
    for k := 0 to |words|
      invariant data + WordBytes(words[k..]) == WordBytes(words)
    {
      assert words[k..][1..] == words[k + 1..];
      data := data + TwoBytes(words[k]);
    }
  }

  /** What is found so far and what the rest holds are what all of it holds. */
  predicate Parsed(all: seq<Word>, found: seq<CanFrame>, words: seq<Word>) {
    Found(all) == found + Found(words) && Left(all) == Left(words)
  }

  lemma ParsedNext(all: seq<Word>, found: seq<CanFrame>, words: seq<Word>, frame: CanFrame, rest: seq<Word>)
    requires Parsed(all, found, words) && Whole(words) && frame == Front(words) && rest == Rest(words)
    ensures Parsed(all, found + [frame], rest)
  {
  }

  method Frames(all: seq<Word>) returns (found: seq<CanFrame>, words: seq<Word>)
    ensures found == Found(all) && words == Left(all)
  {
    found, words := [], all;
    while |words| >= 2
      invariant Parsed(all, found, words)
      decreases |words|
    {
      var rtr, dlc := (words[1] / 64) % 2, words[1] % 16;
      var count := if rtr == 1 then 0 else Min(dlc, 8);
      var end := 2 + (count + 1) / 2;
      assert end == EndOf(words[1]);
      if |words| <= end || words[end] != 0 {
        break;
      }
      var data := Unpack(words[2..end]);
      ParsedNext(all, found, words, CanFrame(words[0], rtr, dlc, data[|data| - count..]), words[end + 1..]);
      found := found + [CanFrame(words[0], rtr, dlc, data[|data| - count..])];
      words := words[end + 1..];
    }
    NotWhole(words);
  }

  lemma NotWhole(words: seq<Word>)
    requires !Whole(words)
    ensures Found(words) == [] && Left(words) == words
  {
  }

  // chunks

  /** Parsing all the words is parsing the first of them, then what that left followed by the rest. */
  lemma {:induction false} ChunksJoin(a: seq<Word>, b: seq<Word>)
    ensures Found(a + b) == Found(a) + Found(Left(a) + b)
    ensures Left(a + b) == Left(Left(a) + b)
    decreases |a|
  {
    if Whole(a) {
      FrontStays(a, b);
      FoundWhole(a);
      FoundWhole(a + b);
      ChunksJoin(Rest(a), b);
    }
  }

  lemma FoundWhole(words: seq<Word>)
    requires Whole(words)
    ensures Found(words) == [Front(words)] + Found(Rest(words)) && Left(words) == Left(Rest(words))
  {
  }

  lemma FrontStays(a: seq<Word>, b: seq<Word>)
    requires Whole(a)
    ensures Whole(a + b) && Front(a + b) == Front(a) && Rest(a + b) == Rest(a) + b
  {
    var end := EndOf(a[1]);
    assert (a + b)[2..end] == a[2..end];
  }

  lemma {:induction false} LeftIsNotWhole(words: seq<Word>)
    ensures !Whole(Left(words)) && Found(Left(words)) == []
    decreases |words|
  {
    if Whole(words) { LeftIsNotWhole(Rest(words)); }
  }

  /** One more word ends at most one frame. */
  lemma OneWordOneFrame(a: seq<Word>, w: Word)
    ensures |Found(a)| <= |Found(a + [w])| <= |Found(a)| + 1
  {
    var b := Left(a) + [w];
    ChunksJoin(a, [w]);
    LeftIsNotWhole(a);
    if Whole(b) {
      assert |Left(a)| >= 2 ==> EndOf(b[1]) == EndOf(Left(a)[1]);
      assert Rest(b) == [];
    }
  }

  /** A frame that an error ended stays in front, whatever comes after it. */
  lemma ErrorStays(words: seq<Word>, more: seq<Word>)
    requires |words| >= 2 && |words| > EndOf(words[1]) && words[EndOf(words[1])] != 0
    ensures Found(words + more) == [] && Left(words + more) == words + more
  {
  }

  // the layout

  predicate Valid(frame: CanFrame) {
    frame.rtr < 2 && frame.dlc < 16 && |frame.data| == if frame.rtr == 1 then 0 else Min(frame.dlc, 8)
  }

  function Pair(high: int, low: int): (w: Word)
    requires 0 <= high < 256 && 0 <= low < 256
  {
    high * 256 + low
  }

  lemma PairBack(high: Byte, low: Byte)
    ensures TwoBytes(Pair(high, low)) == [high, low]
  {
    assert Pair(high, low) / 256 == high && Pair(high, low) % 256 == low;
  }

  lemma ControlBack(rtr: nat, dlc: nat, control: Word)
    requires rtr < 2 && dlc < 16 && control == 64 * rtr + dlc
    ensures (control / 64) % 2 == rtr && control % 16 == dlc
  {
  }

  /** Two bytes a word. */
  function Packed(data: seq<Byte>): (words: seq<Word>)
    requires |data| % 2 == 0
    ensures WordBytes(words) == data
    decreases |data|
  {
    if data == [] then []
    else
      PairBack(data[0], data[1]);
      assert data == [data[0], data[1]] + data[2..];
      [Pair(data[0], data[1])] + Packed(data[2..])
  }

  /** The data with its padding. */
  function Padded(data: seq<Byte>): (padded: seq<Byte>)
    ensures |padded| % 2 == 0 && |padded| == |data| + |data| % 2 && padded[|data| % 2..] == data
    ensures |data| % 2 == 1 ==> padded[0] == 0
  {
    if |data| % 2 == 1 then [0] + data else data
  }

  /** The ID, RTR at bit 6 with the DLC, the data behind a zero byte if odd, then 0: one whole
      frame, which reads back. */
  function Laid(frame: CanFrame): (words: seq<Word>)
    requires Valid(frame)
    ensures Whole(words) && Front(words) == frame && Rest(words) == []
  {
    var control: Word, packed := 64 * frame.rtr + frame.dlc, Packed(Padded(frame.data));
    ControlBack(frame.rtr, frame.dlc, control);
    FrontOf([frame.ident, control] + packed + [0], control, packed, frame);
    [frame.ident, control] + packed + [0]
  }

  lemma FrontOf(words: seq<Word>, control: Word, packed: seq<Word>, frame: CanFrame)
    requires words == [frame.ident, control] + packed + [0] && WordBytes(packed) == Padded(frame.data)
    requires (control / 64) % 2 == frame.rtr && control % 16 == frame.dlc && Valid(frame)
    ensures Whole(words) && Front(words) == frame && Rest(words) == []
  {
    assert DataCount(control) == |frame.data|;
    assert 2 * |packed| == |Padded(frame.data)|;
    assert words[2..2 + |packed|] == packed;
  }

  function LaidAll(frames: seq<CanFrame>): seq<Word>
    requires forall i :: 0 <= i < |frames| ==> Valid(frames[i])
  {
    if frames == [] then [] else Laid(frames[0]) + LaidAll(frames[1..])
  }

  /** A whole frame in front is found, then what follows. */
  lemma FoundThen(a: seq<Word>, b: seq<Word>, words: seq<Word>)
    requires Whole(a) && Rest(a) == [] && words == a + b
    ensures Found(words) == [Front(a)] + Found(b) && Left(words) == Left(b)
  {
    FrontStays(a, b);
    FoundWhole(words);
    assert Rest(words) == b;
  }

  lemma FirstLaid(frames: seq<CanFrame>, others: seq<Word>, more: seq<Word>)
    requires frames != [] && (forall i :: 0 <= i < |frames| ==> Valid(frames[i])) && others == LaidAll(frames[1..])
    ensures LaidAll(frames) + more == Laid(frames[0]) + (others + more)
  {
    var first := Laid(frames[0]);
    assert LaidAll(frames) == first + others;
    Regroup(first, others, more);
  }

  lemma Regroup(a: seq<Word>, b: seq<Word>, c: seq<Word>)
    ensures (a + b) + c == a + (b + c)
  {
  }

  lemma FirstThenRest(frames: seq<CanFrame>, more: seq<CanFrame>)
    requires frames != []
    ensures [frames[0]] + (frames[1..] + more) == frames + more
  {
  }

  lemma {:induction false} LaidFound(frames: seq<CanFrame>, more: seq<Word>, words: seq<Word>)
    requires (forall i :: 0 <= i < |frames| ==> Valid(frames[i])) && words == LaidAll(frames) + more
    ensures Found(words) == frames + Found(more) && Left(words) == Left(more)
  {
    if frames == [] {
      assert words == more;
    } else {
      var others := LaidAll(frames[1..]);
      var rest := others + more;
      LaidFound(frames[1..], more, rest);
      FirstLaid(frames, others, more);
      FoundThen(Laid(frames[0]), rest, words);
      FirstThenRest(frames, Found(more));
    }
  }

  /** Frames laid out as the receiver does come back exactly, whatever follows them. */
  lemma LaidComeBack(frames: seq<CanFrame>, more: seq<Word>)
    requires forall i :: 0 <= i < |frames| ==> Valid(frames[i])
    ensures Found(LaidAll(frames) + more) == frames + Found(more)
    ensures Left(LaidAll(frames) + more) == Left(more)
  {
    LaidFound(frames, more, LaidAll(frames) + more);
  }
}
