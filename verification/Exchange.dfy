/** `exchange` of python/bench.py: words to an engine that answers each with one, with no more
    than a fifo's depth ever under way. The engine runs whenever it likes: before every register
    access, and between the words of a burst. */
module Exchange {
  import opened Wrappers
  import opened Numbers

  type Word = w: int | 0 <= w < 0x10000

  const DEPTH: nat := 8

  /** What the firmware answers to its last word, given all it has had. */
  type Firmware = seq<Word> -> Word

  /** The replies to the first k words. */
  function Replies(f: Firmware, words: seq<Word>, k: nat): (replies: seq<Word>)
    requires k <= |words|
    ensures |replies| == k
  {
    if k == 0 then [] else Replies(f, words, k - 1) + [f(words[..k])]
  }

  lemma {:induction false} RepliesPrefix(f: Firmware, words: seq<Word>, more: seq<Word>, k: nat)
    requires k <= |words| && words <= more
    ensures Replies(f, more, k) == Replies(f, words, k)
  {
    if k > 0 {
      RepliesPrefix(f, words, more, k - 1);
      assert more[..k] == words[..k];
    }
  }

  lemma {:induction false} RepliesAt(f: Firmware, words: seq<Word>, j: nat, k: nat)
    requires j <= k <= |words|
    ensures Replies(f, words, k)[..j] == Replies(f, words, j)
  {
    if j < k {
      RepliesAt(f, words, j, k - 1);
      assert Replies(f, words, k)[..j] == Replies(f, words, k - 1)[..j];
    } else {
      assert Replies(f, words, k)[..j] == Replies(f, words, k);
    }
  }

  /** The engine, its fifos, the word it works on and all it has had from its fifo. `had` is
      every word pushed to it, `got` how many replies were popped. */
  class Chip {
    const firmware: Firmware
    var tx: seq<Word>
    var work: Option<Word>
    var seen: seq<Word>
    var rx: seq<Word>
    ghost var had: seq<Word>
    ghost var got: nat

    function Work(): nat
      reads this
    {
      if work.Some? then 1 else 0
    }

    /** Every word is in one place, in order, and every reply is the firmware's. */
    ghost predicate Valid()
      reads this
    {
      && seen + tx == had
      && (work.Some? ==> seen != [] && work.value == seen[|seen| - 1])
      && got <= |seen| - Work()
      && rx == Replies(firmware, had, |seen| - Work())[got..]
    }

    /** Words in tx, in work and in rx. */
    function UnderWay(): nat
      reads this
    {
      |tx| + Work() + |rx|
    }

    /** As many are under way as were sent and not received. */
    lemma Accounted()
      requires Valid()
      ensures UnderWay() == |had| - got
    {
    }

    constructor (firmware: Firmware)
      ensures Valid() && had == [] && got == 0 && this.firmware == firmware
    {
      this.firmware := firmware;
      tx, work, seen, rx, had, got := [], None, [], [], [], 0;
    }

    /** The engine takes its next word. */
    method Pull()
      requires Valid() && work == None && tx != []
      modifies this
      ensures Valid() && had == old(had) && got == old(got) && rx == old(rx)
      ensures work == Some(old(tx)[0]) && tx == old(tx)[1..]
    {
      work, seen, tx := Some(tx[0]), seen + [tx[0]], tx[1..];
    }

    /** The engine pushes its reply, into an rx fifo that has room. */
    method Answer()
      requires Valid() && work.Some? && |rx| < DEPTH
      modifies this
      ensures Valid() && had == old(had) && got == old(got)
      ensures rx == old(rx) + [firmware(seen)] && work == None && tx == old(tx)
    {
      ghost var k := |seen|;
      assert had[..k] == seen;
      rx, work := rx + [firmware(seen)], None;
    }

    /** The engine runs for any while: an rx fifo never finds itself full, as no more than its
        depth is under way. Left to run for long enough, it has answered everything. */
    method Run(steps: nat)
      requires Valid() && UnderWay() <= DEPTH
      modifies this
      ensures Valid() && had == old(had) && got == old(got) && old(rx) <= rx
      ensures steps >= 2 * DEPTH ==> |rx| == UnderWay()
    {
      var n := 0;
      Accounted();
      while n < steps
        invariant Valid() && had == old(had) && got == old(got) && old(rx) <= rx && UnderWay() == old(UnderWay())
        invariant 2 * |tx| + Work() == 0 || 2 * |tx| + Work() + n <= 2 * DEPTH
        invariant n <= steps
      {
        if work.Some? {
          Answer();
        } else if tx != [] {
          Pull();
        }
        Accounted();
        n := n + 1;
      }
    }

    /** One word of a burst lands in a tx fifo that has room. */
    method PushWord(w: Word)
      requires Valid() && |tx| < DEPTH
      modifies this
      ensures Valid() && had == old(had) + [w] && got == old(got)
    {
      RepliesPrefix(firmware, had, had + [w], |seen| - Work());
      tx, had := tx + [w], had + [w];
    }

    /** Pops the word that came first. */
    method PopWord() returns (w: Word)
      requires Valid() && rx != []
      modifies this
      ensures Valid() && had == old(had) && got == old(got) + 1
      ensures w == old(rx)[0] && rx == old(rx)[1..] && tx == old(tx)
    {
      ghost var all := Replies(firmware, had, |seen| - Work());
      assert all[got..][1..] == all[got + 1..];
      w := rx[0];
      rx, got := rx[1..], got + 1;
    }
  }

  /** A schedule for the engine: how far it runs at each point it can. */
  type Schedule = nat -> nat

  /** host.push: the words one after the other, the engine running in between. */
  method Push(chip: Chip, chunk: seq<Word>, schedule: Schedule)
    requires chip.Valid() && chip.UnderWay() + |chunk| <= DEPTH
    modifies chip
    ensures chip.Valid() && chip.had == old(chip.had) + chunk && chip.got == old(chip.got)
  {
    var n := 0;
    chip.Accounted();
    while n < |chunk|
      invariant 0 <= n <= |chunk|
      invariant chip.Valid() && chip.had == old(chip.had) + chunk[..n] && chip.got == old(chip.got)
    {
      chip.Accounted();
      chip.Run(schedule(n));
      chip.Accounted();
      chip.PushWord(chunk[n]);
      assert chunk[..n + 1] == chunk[..n] + [chunk[n]];
      n := n + 1;
    }
    assert chunk[..n] == chunk;
  }

  /** host.pop: the words one after the other, the engine running in between: those that were there. */
  method Pop(chip: Chip, level: nat, schedule: Schedule) returns (words: seq<Word>)
    requires chip.Valid() && chip.UnderWay() <= DEPTH && level <= |chip.rx|
    modifies chip
    ensures chip.Valid() && chip.had == old(chip.had) && chip.got == old(chip.got) + level
    ensures words == old(chip.rx)[..level]
  {
    ghost var first := chip.rx;
    words := [];
    chip.Accounted();
    while |words| < level
      invariant |words| <= level && chip.Valid() && chip.UnderWay() <= DEPTH
      invariant chip.had == old(chip.had) && chip.got == old(chip.got) + |words|
      invariant words == first[..|words|] && first[|words|..] <= chip.rx
      decreases level - |words|
    {
      chip.Run(schedule(|words|));
      chip.Accounted();
      ghost var n := |words|;
      assert first[n..][0] == first[n] && first[n..][1..] == first[n + 1..];
      var w := chip.PopWord();
      chip.Accounted();
      words := words + [w];
    }
  }

  datatype Timeout = Timeout(received: nat, wanted: nat)

  /** Between polls: the words sent are those the chip had, and the replies the ones to the first
      of them. */
  ghost predicate Between(chip: Chip, words: seq<Word>, sent: nat, replies: seq<Word>)
    reads chip
  {
    && chip.Valid() && sent <= |words| && chip.had == words[..sent] && chip.got == |replies|
    && |replies| <= sent <= |replies| + DEPTH
    && replies == Replies(chip.firmware, words[..sent], |replies|)
  }

  /** Between a push and the reading of the level, the engine gets through all it was sent. */
  ghost predicate KeepsUp(schedules: (nat, nat) -> nat) {
    forall poll: nat :: schedules(poll, DEPTH) >= 2 * DEPTH
  }

  /** The reply to each word, in order. No pop outruns the rx fifo and no push the tx fifo,
      however the engine is scheduled. Given up after so many polls, but not on an engine that
      keeps up. */
  method Exchange(chip: Chip, words: seq<Word>, polls: nat, schedules: (nat, nat) -> nat)
    returns (r: Result<seq<Word>, Timeout>)
    requires chip.Valid() && chip.had == [] && chip.got == 0
    modifies chip
    ensures chip.Valid() && chip.UnderWay() <= DEPTH
    ensures r.Success? ==> r.value == Replies(chip.firmware, words, |words|) && chip.UnderWay() == 0
    ensures KeepsUp(schedules) && |words| <= polls * DEPTH && polls > 0 ==> r.Success?
    ensures r.Failure? ==> (polls == 0 || r.error.received < |words|) && r.error.wanted == |words|
  {
    var replies: seq<Word>, sent: nat := [], 0;
    var poll := 0;
    while poll < polls
      invariant Between(chip, words, sent, replies)
      invariant poll > 0 ==> |replies| < |words|
      invariant KeepsUp(schedules) ==> poll <= polls && |replies| >= Min(poll * DEPTH, |words|)
    {
      sent, replies := Poll(chip, words, sent, replies, n => schedules(poll, n));
      if |replies| == |words| {
        assert words[..sent] == words;
        chip.Accounted();
        return Success(replies);
      }
      poll := poll + 1;
    }
    chip.Accounted();
    return Failure(Timeout(|replies|, |words|));
  }

  /** One poll: send what there is room for, read the level, pop so many. The engine runs before
      each register access. */
  method Poll(chip: Chip, words: seq<Word>, sentBefore: nat, repliesBefore: seq<Word>, schedule: Schedule)
    returns (sent: nat, replies: seq<Word>)
    requires Between(chip, words, sentBefore, repliesBefore)
    modifies chip
    ensures Between(chip, words, sent, replies)
    ensures repliesBefore <= replies && sent == Min(|repliesBefore| + DEPTH, |words|)
    ensures schedule(DEPTH) >= 2 * DEPTH ==> |replies| == sent
  {
    sent, replies := sentBefore, repliesBefore;
    var room := DEPTH - (sent - |replies|);
    if sent < |words| && room > 0 {
      sent := SendChunk(chip, words, sent, replies, schedule);
    }
    chip.Accounted();
    chip.Run(schedule(DEPTH));
    var level := |chip.rx|;
    chip.Accounted();
    chip.Run(schedule(DEPTH + 1));
    assert Between(chip, words, sent, replies);
    if level > 0 {
      replies := TakeReplies(chip, words, sent, replies, level, n => schedule(DEPTH + 2 + n));
    }
  }

  /** The next words, as many as there is room for: what was answered stands. */
  method SendChunk(chip: Chip, words: seq<Word>, sent: nat, replies: seq<Word>, schedule: Schedule) returns (now: nat)
    requires Between(chip, words, sent, replies) && sent < |words| && sent < |replies| + DEPTH
    modifies chip
    ensures Between(chip, words, now, replies) && now == Min(|replies| + DEPTH, |words|)
  {
    chip.Accounted();
    now := Min(|replies| + DEPTH, |words|);
    Push(chip, words[sent..now], schedule);
    assert words[..sent] + words[sent..now] == words[..now];
    RepliesPrefix(chip.firmware, words[..sent], words[..now], |replies|);
  }

  /** What is popped are the next replies. */
  method TakeReplies(chip: Chip, words: seq<Word>, sent: nat, replies: seq<Word>, level: nat, schedule: Schedule)
    returns (now: seq<Word>)
    requires Between(chip, words, sent, replies) && level <= |chip.rx|
    modifies chip
    ensures Between(chip, words, sent, now) && |now| == |replies| + level && replies <= now
  {
    ghost var answered := |chip.seen| - chip.Work();
    NextReplies(chip.firmware, words[..sent], |replies|, level, answered);
    chip.Accounted();
    var more := Pop(chip, level, schedule);
    now := replies + more;
  }

  /** Of the replies to the words answered, those after the first n. */
  lemma NextReplies(f: Firmware, words: seq<Word>, n: nat, level: nat, answered: nat)
    requires n + level <= answered <= |words|
    ensures Replies(f, words, n) + Replies(f, words, answered)[n..][..level] == Replies(f, words, n + level)
  {
    var all := Replies(f, words, answered);
    RepliesAt(f, words, n, answered);
    RepliesAt(f, words, n + level, answered);
    assert all[..n] + all[n..][..level] == all[..n + level];
  }
}
