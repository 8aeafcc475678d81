/** Loads into the chip's memories, of class `Host` in python/protocol_emulator.py: where their words go,
    and what a log of them leaves. */
module Loads {

  type Word = w: int | 0 <= w < 0x10000

  const WORDS: nat := 512

  /** A program memory, or the data memory. */
  type Memory = m: seq<Word> | |m| == 512 witness seq(512, _ => 0)

  /** Words from an address on. */
  datatype Load = Load(words: seq<Word>, address: int)

  /** Where word k of a load goes: the address has nine bits and wraps. */
  function Place(at: int, k: nat): (i: nat)
    ensures i < WORDS
  {
    (at + k) % WORDS
  }

  /** Words written one after the other. */
  function Put(m: Memory, at: int, words: seq<Word>): Memory {
    if words == [] then m
    else
      var before: seq<Word> := Put(m, at, words[..|words| - 1]);
      before[Place(at, |words| - 1) := words[|words| - 1]]
  }

  /** A program load writes zeros after its words, as far as the memory goes. */
  function Filled(l: Load): (words: seq<Word>)
    ensures l.words <= words && (l.address + |l.words| <= WORDS ==> l.address + |words| == WORDS)
  {
    l.words + seq(if l.address + |l.words| < WORDS then WORDS - l.address - |l.words| else 0, _ => 0)
  }

  function Loaded(m: Memory, l: Load): Memory {
    Put(m, l.address, Filled(l))
  }

  /** A data load leaves the memory after it. */
  function Stored(m: Memory, l: Load): Memory {
    Put(m, l.address, l.words)
  }

  ghost predicate Hits(at: int, words: seq<Word>, i: nat) {
    exists k: nat :: k < |words| && Place(at, k) == i
  }

  /** A word that is written is the same whatever the memory held before, any other stays. */
  lemma {:induction false} PutTold(m: Memory, n: Memory, at: int, words: seq<Word>, i: nat)
    requires i < WORDS && (Hits(at, words, i) || m[i] == n[i])
    ensures Put(m, at, words)[i] == Put(n, at, words)[i]
  {
    if words != [] {
      var front := words[..|words| - 1];
      if Place(at, |words| - 1) != i {
        if Hits(at, words, i) {
          var k: nat :| k < |words| && Place(at, k) == i;
          assert k < |front|;
          assert Hits(at, front, i);
        }
        PutTold(m, n, at, front, i);
      }
    }
  }

  /** A program load reaches every word from its address on. */
  lemma FilledHits(l: Load, i: nat)
    requires l.address <= i < WORDS
    ensures Hits(l.address, Filled(l), i)
  {
    var k := i - l.address;
    assert Place(l.address, k) == i;
    assert k < |Filled(l)|;
  }

  lemma LoadAtZero(m: Memory, n: Memory, l: Load)
    requires l.address == 0
    ensures Loaded(m, l) == Loaded(n, l)
  {
    forall i: nat | i < WORDS ensures Loaded(m, l)[i] == Loaded(n, l)[i] {
      FilledHits(l, i);
      PutTold(m, n, l.address, Filled(l), i);
    }
  }

  type Log = seq<Load>

  function Programmed(m: Memory, log: Log): Memory {
    if log == [] then m else Loaded(Programmed(m, log[..|log| - 1]), log[|log| - 1])
  }

  function Written(m: Memory, log: Log): Memory {
    if log == [] then m else Stored(Written(m, log[..|log| - 1]), log[|log| - 1])
  }

  /** The log once a load is noted: one at 0 replaces every earlier one. */
  function Noted(log: Log, l: Load): Log
  {
    if l.address == 0 then [l] else log + [l]
  }

  /** The compacted log of a history of loads. */
  function Compacted(history: Log): Log {
    if history == [] then [] else Noted(Compacted(history[..|history| - 1]), history[|history| - 1])
  }

  /** Replaying the compacted log gives the memory that the whole history does, whatever the
      memory held before. */
  lemma {:induction false} CompactedReplays(m: Memory, history: Log)
    ensures Programmed(m, Compacted(history)) == Programmed(m, history)
  {
    if history != [] {
      var k := |history| - 1;
      var before, l := history[..k], history[k];
      CompactedReplays(m, before);
      if l.address == 0 {
        assert [l][..0] == [];
        LoadAtZero(m, Programmed(m, before), l);
      } else {
        var log := Compacted(before) + [l];
        assert log[..|log| - 1] == Compacted(before);
      }
    }
  }

  // which word is where

  /** How many words a load writes: a program load zeros up to the end of the memory, a data load none. */
  function Length(l: Load, filled: bool): nat {
    if filled && l.address + |l.words| < 512 then 512 - l.address else |l.words|
  }

  /** The k-th word written. */
  function WordOf(l: Load, k: nat): Word {
    if k < |l.words| then l.words[k] else 0
  }

  predicate WritesAt(l: Load, filled: bool, k: nat, at: nat) {
    k < Length(l, filled) && (l.address + k) % 512 == at
  }

  /** The k-th word of the load is its last at this place. */
  ghost predicate WritesLastAt(l: Load, filled: bool, k: nat, at: nat) {
    WritesAt(l, filled, k, at) && forall j: nat :: j > k ==> !WritesAt(l, filled, j, at)
  }

  ghost predicate WritesNowhere(l: Load, filled: bool, at: nat) {
    forall j: nat :: !WritesAt(l, filled, j, at)
  }

  /** The words a load puts into the memory. */
  function WordsOf(l: Load, filled: bool): (words: seq<Word>)
    ensures |words| == Length(l, filled) && forall k :: 0 <= k < |words| ==> words[k] == WordOf(l, k)
  {
    if filled then Filled(l) else l.words
  }

  function Landed(m: Memory, l: Load, filled: bool): Memory {
    Put(m, l.address, WordsOf(l, filled))
  }

  lemma {:induction false} PutLast(m: Memory, at: int, words: seq<Word>, k: nat)
    requires k < |words| && forall j: nat :: k < j < |words| ==> Place(at, j) != Place(at, k)
    ensures Put(m, at, words)[Place(at, k)] == words[k]
  {
    if k < |words| - 1 {
      var front := words[..|words| - 1];
      PutLast(m, at, front, k);
      assert Place(at, |words| - 1) != Place(at, k);
    }
  }

  lemma {:induction false} PutOther(m: Memory, at: int, words: seq<Word>, i: nat)
    requires i < WORDS && forall k: nat :: k < |words| ==> Place(at, k) != i
    ensures Put(m, at, words)[i] == m[i]
  {
    if words != [] {
      PutOther(m, at, words[..|words| - 1], i);
      assert Place(at, |words| - 1) != i;
    }
  }

  /** What a load changes: every place it writes holds the last word it writes there, the others what
      they held. */
  ghost predicate LoadLands(before: Memory, after: Memory, l: Load, filled: bool) {
    && (forall at: nat, k: nat :: WritesLastAt(l, filled, k, at) ==> after[at] == WordOf(l, k))
    && forall at: nat :: at < 512 && WritesNowhere(l, filled, at) ==> after[at] == before[at]
  }

  lemma LandedLands(m: Memory, l: Load, filled: bool)
    ensures LoadLands(m, Landed(m, l, filled), l, filled)
  {
    forall at: nat, k: nat | WritesLastAt(l, filled, k, at) ensures Landed(m, l, filled)[at] == WordOf(l, k) {
      LandedIs(m, l, filled, at);
    }
    forall at: nat | at < 512 && WritesNowhere(l, filled, at) ensures Landed(m, l, filled)[at] == m[at] {
      LandedIs(m, l, filled, at);
    }
  }

  /** After a load every place it writes holds the last word it writes there, and any other what it held. */
  lemma LandedIs(m: Memory, l: Load, filled: bool, at: nat)
    requires at < WORDS
    ensures forall k: nat :: WritesLastAt(l, filled, k, at) ==> Landed(m, l, filled)[at] == WordOf(l, k)
    ensures WritesNowhere(l, filled, at) ==> Landed(m, l, filled)[at] == m[at]
  {
    var words := WordsOf(l, filled);
    forall k: nat | WritesLastAt(l, filled, k, at) ensures Landed(m, l, filled)[at] == WordOf(l, k) {
      forall j: nat | k < j < |words| ensures Place(l.address, j) != Place(l.address, k) {
        assert !WritesAt(l, filled, j, at);
      }
      PutLast(m, l.address, words, k);
    }
    if WritesNowhere(l, filled, at) {
      forall k: nat | k < |words| ensures Place(l.address, k) != at {
        assert !WritesAt(l, filled, k, at);
      }
      PutOther(m, l.address, words, at);
    }
  }

  /** The memory after a log of loads. */
  function After(m: Memory, log: Log, filled: bool): Memory {
    if filled then Programmed(m, log) else Written(m, log)
  }

  lemma AfterMore(m: Memory, log: Log, l: Load, filled: bool)
    ensures After(m, log + [l], filled) == Landed(After(m, log, filled), l, filled)
  {
    assert (log + [l])[..|log|] == log;
  }

  /** Word k of load n is the last that the log writes at this place. */
  ghost predicate WroteLast(log: Log, filled: bool, at: nat, n: nat, k: nat) {
    && n < |log| && WritesLastAt(log[n], filled, k, at)
    && forall m: nat :: n < m < |log| ==> WritesNowhere(log[m], filled, at)
  }

  /** Whatever the memory held, it now holds that word there. */
  lemma {:induction false} AfterIs(m: Memory, log: Log, filled: bool, at: nat, n: nat, k: nat)
    requires WroteLast(log, filled, at, n, k)
    ensures at < WORDS && After(m, log, filled)[at] == WordOf(log[n], k)
  {
    var last := |log| - 1;
    var front := log[..last];
    assert log == front + [log[last]];
    AfterMore(m, front, log[last], filled);
    LandedIs(After(m, front, filled), log[last], filled, at);
    if n < last {
      assert front[n] == log[n];
      AfterIs(m, front, filled, at, n, k);
    }
  }

  /** Every place that a load writes has a last word written there. */
  lemma {:induction false} LastWritten(l: Load, filled: bool, at: nat, k: nat, count: nat) returns (last: nat)
    requires WritesAt(l, filled, k, at) && k < count
    requires forall j: nat :: j >= count ==> !WritesAt(l, filled, j, at)
    ensures WritesLastAt(l, filled, last, at)
  {
    if WritesAt(l, filled, count - 1, at) {
      last := count - 1;
    } else {
      last := LastWritten(l, filled, at, k, count - 1);
    }
  }

  lemma {:induction false} LastWriter(log: Log, filled: bool, at: nat, n: nat, k: nat) returns (i: nat, last: nat)
    requires n < |log| && WritesAt(log[n], filled, k, at)
    ensures WroteLast(log, filled, at, i, last)
  {
    var m := |log| - 1;
    if j: nat :| WritesAt(log[m], filled, j, at) {
      i := m;
      last := LastWritten(log[m], filled, at, j, Length(log[m], filled));
    } else {
      assert log[..m][n] == log[n];
      i, last := LastWriter(log[..m], filled, at, n, k);
    }
  }

  /** A word that some load has written is the same whatever the memory held before. */
  lemma AfterTold(m: Memory, other: Memory, log: Log, filled: bool, at: nat, n: nat, k: nat)
    requires n < |log| && WritesAt(log[n], filled, k, at)
    ensures at < WORDS && After(m, log, filled)[at] == After(other, log, filled)[at]
  {
    var i, last := LastWriter(log, filled, at, n, k);
    AfterIs(m, log, filled, at, i, last);
    AfterIs(other, log, filled, at, i, last);
  }
}
