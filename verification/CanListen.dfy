/** `listen` of python/demo_can_node.py: frames out of what each poll takes from the receiver's
    fifo, until enough have come. */
module CanListen {
  import opened CanFrames

  /** What one poll finds: whether there was an error, and the words in the fifo. */
  datatype Poll = Poll(irq: bool, words: seq<Word>)

  datatype Ear = Ear(words: seq<Word>, heard: seq<CanFrame>)

  const WANTED: nat := 4

  /** Parsing by any rule: what it finds, and what it leaves. */
  datatype Parser = Parser(found: seq<Word> -> seq<CanFrame>, left: seq<Word> -> seq<Word>)

  const CAN: Parser := Parser(Found, Left)

  ghost predicate JoinsAt(p: Parser, a: seq<Word>, b: seq<Word>) {
    p.found(a + b) == p.found(a) + p.found(p.left(a) + b) && p.left(a + b) == p.left(p.left(a) + b)
  }

  ghost predicate SlowAt(p: Parser, a: seq<Word>, w: Word) {
    |p.found(a + [w])| <= |p.found(a)| + 1
  }

  /** Chunks may be parsed as they come, and one word ends at most one frame. */
  ghost predicate Steady(p: Parser) {
    && p.found([]) == [] && p.left([]) == []
    && (forall a, b :: JoinsAt(p, a, b))
    && forall a, w :: SlowAt(p, a, w)
  }

  lemma CanSteady()
    ensures Steady(CAN)
  {
    forall a, b ensures JoinsAt(CAN, a, b) { ChunksJoin(a, b); }
    forall a, w ensures SlowAt(CAN, a, w) { OneWordOneFrame(a, w); }
  }

  function Hear(p: Parser, ear: Ear, poll: Poll): Ear {
    var words := ear.words + poll.words;
    var kept := if poll.irq && words != [] then [] else words;
    Ear(p.left(kept), ear.heard + p.found(kept))
  }

  /** After the first n polls, ended as soon as enough has been heard. */
  function HeardBy(p: Parser, polls: seq<Poll>, n: nat): Ear
    requires n <= |polls|
  {
    if n == 0 then Ear([], [])
    else
      var before := HeardBy(p, polls, n - 1);
      if |before.heard| >= WANTED then before else Hear(p, before, polls[n - 1])
  }

  lemma {:induction false} HeardEnough(p: Parser, polls: seq<Poll>, m: nat, n: nat)
    requires m <= n <= |polls| && |HeardBy(p, polls, m).heard| >= WANTED
    ensures HeardBy(p, polls, n) == HeardBy(p, polls, m)
  {
    if m < n { HeardEnough(p, polls, m, n - 1); }
  }

  method HearPoll(words: seq<Word>, heard: seq<CanFrame>, poll: Poll) returns (left: seq<Word>, more: seq<CanFrame>)
    ensures Ear(left, more) == Hear(CAN, Ear(words, heard), poll)
  {
    var kept := words + poll.words;
    if poll.irq && kept != [] {
      kept := [];
    }
    var found;
    found, left := Frames(kept);
    more := heard + found;
  }

  ghost predicate HeardSo(p: Parser, polls: seq<Poll>, n: nat, words: seq<Word>, heard: seq<CanFrame>)
    requires n <= |polls|
  {
    HeardBy(p, polls, n) == Ear(words, heard)
  }

  lemma HeardMore(p: Parser, polls: seq<Poll>, n: nat, words: seq<Word>, heard: seq<CanFrame>, left: seq<Word>,
                  more: seq<CanFrame>)
    requires n < |polls| && HeardSo(p, polls, n, words, heard) && |heard| < WANTED
    requires Ear(left, more) == Hear(p, Ear(words, heard), polls[n])
    ensures HeardSo(p, polls, n + 1, left, more)
    ensures |more| >= WANTED ==> HeardSo(p, polls, |polls|, left, more)
  {
    if |more| >= WANTED { HeardEnough(p, polls, n + 1, |polls|); }
  }

  /** Frames until enough have come or the polls are over. */
  method Listen(polls: seq<Poll>) returns (heard: seq<CanFrame>)
    ensures heard == HeardBy(CAN, polls, |polls|).heard
  {
    var words: seq<Word> := [];
    heard := [];
    var n := 0;
    while n < |polls|
      invariant 0 <= n <= |polls| && HeardSo(CAN, polls, n, words, heard) && |heard| < WANTED
    {
      var left, more := HearPoll(words, heard, polls[n]);
      HeardMore(CAN, polls, n, words, heard, left, more);
      words, heard := left, more;
      n := n + 1;
      if |heard| >= WANTED { return; }
    }
  }

  ghost predicate Clean(polls: seq<Poll>) {
    forall i :: 0 <= i < |polls| ==> !polls[i].irq
  }

  /** The words of the first n polls. */
  function Stream(polls: seq<Poll>, n: nat): seq<Word>
    requires n <= |polls|
  {
    if n == 0 then [] else Stream(polls, n - 1) + polls[n - 1].words
  }

  /** The first k polls bring less than is wanted. */
  ghost predicate TooFew(p: Parser, polls: seq<Poll>, k: nat)
    requires k <= |polls|
  {
    |p.found(Stream(polls, k))| < WANTED
  }

  /** Without errors, what has been heard is what parsing the whole stream so far finds, up to the
      poll that brought enough. */
  lemma {:induction false} HeardIsFound(p: Parser, polls: seq<Poll>, n: nat) returns (m: nat)
    requires Steady(p) && Clean(polls) && n <= |polls|
    ensures m <= n && HeardBy(p, polls, n) == Ear(p.left(Stream(polls, m)), p.found(Stream(polls, m)))
    ensures forall k :: 0 <= k < m ==> TooFew(p, polls, k)
    ensures m < n ==> !TooFew(p, polls, m)
  {
    m := 0;
    if n > 0 {
      m := HeardIsFound(p, polls, n - 1);
      if TooFew(p, polls, m) {
        assert JoinsAt(p, Stream(polls, m), polls[m].words);
        m := n;
      }
    }
  }

  /** What a later poll finds only adds. */
  lemma {:induction false} FoundGrows(p: Parser, polls: seq<Poll>, m: nat, n: nat)
    requires Steady(p) && m <= n <= |polls|
    ensures p.found(Stream(polls, m)) <= p.found(Stream(polls, n))
  {
    if m < n {
      FoundGrows(p, polls, m, n - 1);
      assert JoinsAt(p, Stream(polls, n - 1), polls[n - 1].words);
    }
  }

  lemma HeardOf(p: Parser, polls: seq<Poll>)
    requires Steady(p) && Clean(polls)
    ensures InOrder(HeardBy(p, polls, |polls|).heard, p.found(Stream(polls, |polls|)))
  {
    var m := HeardIsFound(p, polls, |polls|);
    FoundGrows(p, polls, m, |polls|);
  }

  /** From the first on, and all or as many as wanted; all if there are no more than that. */
  predicate InOrder(heard: seq<CanFrame>, all: seq<CanFrame>) {
    heard <= all && (heard == all || |heard| >= WANTED) && (|all| <= WANTED ==> heard == all)
  }

  /** However the polls cut an error-free stream, its frames are heard in order from the first on,
      all of them or at least as many as wanted; and all of them if there are no more than that. */
  lemma HeardInOrder(polls: seq<Poll>)
    requires Clean(polls)
    ensures InOrder(HeardBy(CAN, polls, |polls|).heard, Found(Stream(polls, |polls|)))
  {
    CanSteady();
    HeardOf(CAN, polls);
  }

  /** The stream a word a poll. */
  function WordByWord(stream: seq<Word>): seq<Poll> {
    seq(|stream|, i requires 0 <= i < |stream| => Poll(false, [stream[i]]))
  }

  lemma {:induction false} WordByWordStream(stream: seq<Word>, n: nat)
    requires n <= |stream|
    ensures Stream(WordByWord(stream), n) == stream[..n]
  {
    if n > 0 {
      WordByWordStream(stream, n - 1);
      assert stream[..n] == stream[..n - 1] + [stream[n - 1]];
    }
  }

  /** A word at a time, no more are heard than wanted. */
  lemma WordByWordHears(p: Parser, stream: seq<Word>)
    requires Steady(p)
    ensures |HeardBy(p, WordByWord(stream), |stream|).heard| <= WANTED
  {
    var polls := WordByWord(stream);
    var m := HeardIsFound(p, polls, |stream|);
    WordByWordStream(stream, m);
    if m > 0 {
      assert TooFew(p, polls, m - 1);
      assert SlowAt(p, Stream(polls, m - 1), stream[m - 1]);
    }
  }

  /** How the polls cut an error-free stream makes no difference exactly when the stream has no
      more frames than wanted: the poll that brings enough may bring more. */
  lemma CutsMatter(stream: seq<Word>)
    ensures |Found(stream)| <= WANTED <==>
            forall polls: seq<Poll> :: Clean(polls) && Stream(polls, |polls|) == stream ==>
                                         HeardBy(CAN, polls, |polls|).heard == Found(stream)
  {
    if |Found(stream)| <= WANTED {
      forall polls: seq<Poll> | Clean(polls) && Stream(polls, |polls|) == stream
        ensures HeardBy(CAN, polls, |polls|).heard == Found(stream)
      {
        HeardInOrder(polls);
      }
    } else {
      var polls := WordByWord(stream);
      CanSteady();
      WordByWordStream(stream, |stream|);
      WordByWordHears(CAN, stream);
      assert stream[..|stream|] == stream;
      assert Clean(polls) && Stream(polls, |polls|) == stream && HeardBy(CAN, polls, |polls|).heard != Found(stream);
    }
  }

  /** An error drops all the words of its poll: no frame is lost exactly when they hold no whole one. */
  lemma ErrorDropsPoll(ear: Ear, words: seq<Word>)
    ensures var after := Hear(CAN, ear, Poll(true, words));
      && after == Ear([], ear.heard)
      && (after.heard == Hear(CAN, ear, Poll(false, words)).heard <==> Found(ear.words + words) == [])
  {
  }

  /** A poll with a whole frame and the beginning of another, which an error cut off. */
  function FrameThen(frame: CanFrame, cut: seq<Word>, irq: bool): Poll
    requires Valid(frame)
  {
    Poll(irq, Laid(frame) + cut)
  }

  /** With the error the frame that came whole is lost; without, it is heard. */
  lemma WholeFrameDropped(frame: CanFrame, cut: seq<Word>)
    requires Valid(frame) && !Whole(cut)
    ensures HeardBy(CAN, [FrameThen(frame, cut, true)], 1) == Ear([], [])
    ensures HeardBy(CAN, [FrameThen(frame, cut, false)], 1) == Ear(cut, [frame])
  {
    var words := Laid(frame) + cut;
    FoundThen(Laid(frame), cut, words);
    NotWhole(cut);
    HeardFirst(FrameThen(frame, cut, true), words);
    HeardFirst(FrameThen(frame, cut, false), words);
  }

  lemma HeardFirst(poll: Poll, words: seq<Word>)
    requires poll.words == words != []
    ensures HeardBy(CAN, [poll], 1) == if poll.irq then Ear([], []) else Ear(Left(words), Found(words))
  {
    assert HeardBy(CAN, [poll], 0) == Ear([], []);
    assert [] + words == words;
  }

  /** Such as three bytes from 0x0A1 and then the ID and control words of eight from 0x6B1. */
  lemma WholeFrameDroppedOnce()
    ensures var frame, cut := CanFrame(0x0A1, 0, 3, [1, 2, 3]), [0x6B1, 8];
      && HeardBy(CAN, [FrameThen(frame, cut, true)], 1).heard == []
      && HeardBy(CAN, [FrameThen(frame, cut, false)], 1).heard == [frame]
  {
    WholeFrameDropped(CanFrame(0x0A1, 0, 3, [1, 2, 3]), [0x6B1, 8]);
  }
}
