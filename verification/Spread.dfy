/** `spread` of demo/die.py: labels spread from the seeds in rounds, each newly reached cell
    taking the label that most of the cells that reach it carry. */
module Spread {

  type Cell = string

  // The blocks' names by their alphabetical order.
  type Block = int

  /** What spread is given: edges may repeat, and a repeated edge votes as often. */
  datatype Net = Net(seeds: map<Cell, Block>, edges: Cell -> seq<Cell>, allowed: set<Cell>, barred: Cell -> set<Block>)

  /** Edge number index of a cell. */
  type Edge = (Cell, nat)

  predicate IsEdge(net: Net, e: Edge) {
    e.1 < |net.edges(e.0)|
  }

  /** A cell that is not labelled yet may take a label. */
  predicate Eligible(net: Net, labels: map<Cell, Block>, cell: Cell, block: Block) {
    cell !in labels && cell in net.allowed && block !in net.barred(cell)
  }

  /** The edges among these that lead to a cell from cells with a label. */
  ghost function Ballots(net: Net, labels: map<Cell, Block>, edges: set<Edge>, cell: Cell, block: Block): set<Edge> {
    set e | e in edges && IsEdge(net, e) && net.edges(e.0)[e.1] == cell && e.0 in labels && labels[e.0] == block
  }

  ghost function EdgesOf(net: Net, cells: set<Cell>): (edges: set<Edge>)
    ensures forall e :: e in edges <==> e.0 in cells && IsEdge(net, e)
  {
    set cell, i | cell in cells && 0 <= i < |net.edges(cell)| :: (cell, i)
  }

  /** The most votes, and of the labels with the most votes the first. */
  ghost predicate Elected(net: Net, labels: map<Cell, Block>, voters: set<Cell>, cell: Cell, block: Block) {
    && block !in net.barred(cell)
    && Ballots(net, labels, EdgesOf(net, voters), cell, block) != {}
    && forall other: Block :: other !in net.barred(cell) ==>
                                Beats(|Ballots(net, labels, EdgesOf(net, voters), cell, block)|, block,
                                      |Ballots(net, labels, EdgesOf(net, voters), cell, other)|, other)
  }

  predicate Beats(votes: nat, block: Block, others: nat, other: Block) {
    others < votes || (others == votes && block <= other)
  }

  ghost function Level(round: map<Cell, nat>, k: nat): set<Cell> {
    set cell | cell in round && round[cell] == k
  }

  /** A cell reached in this round was reached by no earlier one, and takes the label elected by
      the cells of the round before. */
  ghost predicate Reached(net: Net, labels: map<Cell, Block>, round: map<Cell, nat>, cell: Cell)
    requires labels.Keys == round.Keys && cell in labels && round[cell] > 0
  {
    && cell in net.allowed
    && Elected(net, labels, Level(round, round[cell] - 1), cell, labels[cell])
    && forall e: Edge ::
         IsEdge(net, e) && e.0 in labels && round[e.0] < round[cell] - 1 && net.edges(e.0)[e.1] == cell ==>
           labels[e.0] in net.barred(cell)
  }

  ghost predicate Grown(net: Net, labels: map<Cell, Block>, round: map<Cell, nat>) {
    && labels.Keys == round.Keys && net.seeds.Keys <= labels.Keys
    && (forall cell :: cell in labels ==> (round[cell] == 0 <==> cell in net.seeds))
    && (forall cell :: cell in net.seeds ==> labels[cell] == net.seeds[cell])
    && (forall cell {:trigger Reached(net, labels, round, cell)} ::
          cell in labels && round[cell] > 0 ==> Reached(net, labels, round, cell))
  }

  /** Whatever a cell of an earlier round could label has been labelled. */
  ghost predicate ClosedBefore(net: Net, labels: map<Cell, Block>, round: map<Cell, nat>, k: nat)
    requires labels.Keys == round.Keys
  {
    forall e: Edge :: IsEdge(net, e) && e.0 in labels && round[e.0] < k ==>
                        !Eligible(net, labels, net.edges(e.0)[e.1], labels[e.0])
  }

  /** What spread promises of its labels and of the rounds they came in. */
  ghost predicate IsSpread(net: Net, labels: map<Cell, Block>, round: map<Cell, nat>) {
    && Grown(net, labels, round)
    && forall e: Edge :: IsEdge(net, e) && e.0 in labels ==> !Eligible(net, labels, net.edges(e.0)[e.1], labels[e.0])
  }

  // the votes of one round

  function Cast(votes: map<Cell, multiset<Block>>, cell: Cell, block: Block): nat {
    if cell in votes then votes[cell][block] else 0
  }

  /** The counters hold the ballots of the edges looked at. */
  ghost predicate Counted(net: Net, labels: map<Cell, Block>, votes: map<Cell, multiset<Block>>, seen: set<Edge>) {
    && (forall cell :: cell in votes ==> votes[cell] != multiset{})
    && (forall cell: Cell, block: Block ::
          Cast(votes, cell, block)
          == if Eligible(net, labels, cell, block) then |Ballots(net, labels, seen, cell, block)| else 0)
  }

  lemma CountOne(net: Net, labels: map<Cell, Block>, seen: set<Edge>, e: Edge, cell: Cell, block: Block)
    requires e !in seen && IsEdge(net, e) && e.0 in labels
    ensures |Ballots(net, labels, seen + {e}, cell, block)|
            == |Ballots(net, labels, seen, cell, block)|
               + if net.edges(e.0)[e.1] == cell && labels[e.0] == block then 1 else 0
  {
    var before := Ballots(net, labels, seen, cell, block);
    if net.edges(e.0)[e.1] == cell && labels[e.0] == block {
      assert Ballots(net, labels, seen + {e}, cell, block) == before + {e};
    } else {
      assert Ballots(net, labels, seen + {e}, cell, block) == before;
    }
  }

  method CountVotes(net: Net, labels: map<Cell, Block>, frontier: seq<Cell>) returns (votes: map<Cell, multiset<Block>>)
    requires Distinct(frontier) && Cells(frontier) <= labels.Keys
    ensures Counted(net, labels, votes, EdgesOf(net, Cells(frontier)))
  {
    votes := map[];
    ghost var seen: set<Edge> := {};
    var n := 0;
    while n < |frontier|
      invariant 0 <= n <= |frontier|
      invariant seen == EdgesOf(net, Cells(frontier[..n]))
      invariant Counted(net, labels, votes, seen)
    {
      var cell := frontier[n];
      ghost var before := seen;
      var k := 0;
      while k < |net.edges(cell)|
        invariant 0 <= k <= |net.edges(cell)|
        invariant seen == before + set i | 0 <= i < k :: (cell, i)
        invariant Counted(net, labels, votes, seen)
      {
        votes, seen := CountEdge(net, labels, votes, seen, cell, k);
        k := k + 1;
      }
      CellsThen(frontier[..n], cell);
      assert frontier[..n + 1] == frontier[..n] + [cell];
      n := n + 1;
    }
    assert frontier[..n] == frontier;
  }

  /** One edge's vote, where it has one. */
  method CountEdge(net: Net, labels: map<Cell, Block>, before: map<Cell, multiset<Block>>, ghost seen: set<Edge>,
                   cell: Cell, k: nat)
    returns (votes: map<Cell, multiset<Block>>, ghost now: set<Edge>)
    requires IsEdge(net, (cell, k)) && (cell, k) !in seen && cell in labels && Counted(net, labels, before, seen)
    ensures now == seen + {(cell, k)} && Counted(net, labels, votes, now)
  {
    votes, now := before, seen + {(cell, k)};
    var other := net.edges(cell)[k];
    if other !in labels && other in net.allowed && labels[cell] !in net.barred(other) {
      var count := if other in votes then votes[other] else multiset{};
      votes := votes[other := count + multiset{labels[cell]}];
    }
    forall c: Cell, l: Block
      ensures Cast(votes, c, l) == if Eligible(net, labels, c, l) then |Ballots(net, labels, now, c, l)| else 0
    {
      CountOne(net, labels, seen, (cell, k), c, l);
      assert Cast(before, c, l) == if Eligible(net, labels, c, l) then |Ballots(net, labels, seen, c, l)| else 0;
    }
  }

  lemma NoneIsEmpty(count: multiset<Block>)
    requires count != multiset{}
    ensures exists block: Block :: block in count
  {
    assert !(forall block: Block :: block !in count) || count == multiset{};
  }

  lemma OneLeft(rest: set<Block>)
    requires rest != {}
    ensures exists block: Block :: block in rest
  {
    assert !(forall block: Block :: block !in rest) || rest == {};
  }

  /** The first, in order, of the labels counted most often. */
  method Winner(count: multiset<Block>) returns (block: Block)
    requires count != multiset{}
    ensures Wins(count, block)
  {
    NoneIsEmpty(count);
    block :| block in count;
    var rest: set<Block> := set l | l in count;
    while rest != {}
      invariant block in count && forall l :: l in rest ==> l in count
      invariant forall other: Block :: other !in rest ==> Beats(count[block], block, count[other], other)
    {
      OneLeft(rest);
      var other :| other in rest;
      if Beats(count[other], other, count[block], block) {
        block := other;
      }
      rest := rest - {other};
    }
  }

  ghost predicate Wins(count: multiset<Block>, block: Block) {
    block in count && forall other: Block :: Beats(count[block], block, count[other], other)
  }

  ghost predicate Votable(labels: map<Cell, Block>, votes: map<Cell, multiset<Block>>) {
    forall cell :: cell in votes ==> votes[cell] != multiset{} && cell !in labels
  }

  /** Every cell voted on takes its winner: these are the next frontier, in any order. */
  method TakeLabels(labels: map<Cell, Block>, votes: map<Cell, multiset<Block>>)
    returns (now: map<Cell, Block>, frontier: seq<Cell>)
    requires Votable(labels, votes)
    ensures Taken(labels, votes, frontier, {}, now)
  {
    now, frontier := labels, [];
    var rest := votes.Keys;
    while rest != {}
      invariant Taken(labels, votes, frontier, rest, now)
      decreases |rest|
    {
      var cell :| cell in rest;
      var block := Winner(votes[cell]);
      TakeOne(labels, votes, frontier, rest, now, cell, block);
      now, frontier, rest := now[cell := block], frontier + [cell], rest - {cell};
    }
  }

  ghost predicate Distinct(frontier: seq<Cell>) {
    forall i, j :: 0 <= i < j < |frontier| ==> frontier[i] != frontier[j]
  }

  /** All but the rest have taken their labels. */
  ghost predicate Taken(labels: map<Cell, Block>, votes: map<Cell, multiset<Block>>, frontier: seq<Cell>,
                        rest: set<Cell>, now: map<Cell, Block>) {
    && rest <= votes.Keys && Cells(frontier) == votes.Keys - rest && Distinct(frontier)
    && Labelled(labels, votes, Cells(frontier), now)
  }

  lemma TakeOne(labels: map<Cell, Block>, votes: map<Cell, multiset<Block>>, frontier: seq<Cell>, rest: set<Cell>,
                now: map<Cell, Block>, cell: Cell, block: Block)
    requires Taken(labels, votes, frontier, rest, now) && cell in rest && cell !in labels && Wins(votes[cell], block)
    ensures Taken(labels, votes, frontier + [cell], rest - {cell}, now[cell := block])
  {
    CellsThen(frontier, cell);
    DistinctThen(frontier, cell);
  }

  lemma DistinctThen(frontier: seq<Cell>, cell: Cell)
    requires Distinct(frontier) && cell !in Cells(frontier)
    ensures Distinct(frontier + [cell])
  {
    forall i | 0 <= i < |frontier| ensures frontier[i] != cell {
      assert frontier[i] in Cells(frontier);
    }
  }

  ghost function Cells(frontier: seq<Cell>): set<Cell> {
    set i | 0 <= i < |frontier| :: frontier[i]
  }

  lemma CellsThen(frontier: seq<Cell>, cell: Cell)
    ensures Cells(frontier + [cell]) == Cells(frontier) + {cell}
  {
    var now := frontier + [cell];
    forall c | c in Cells(frontier) + {cell} ensures c in Cells(now) {
      if c == cell {
        assert now[|frontier|] == c;
      } else {
        var i :| 0 <= i < |frontier| && frontier[i] == c;
        assert now[i] == c;
      }
    }
  }

  /** The labels once these cells have taken theirs: those there were, and the winners. */
  ghost predicate Labelled(labels: map<Cell, Block>, votes: map<Cell, multiset<Block>>, cells: set<Cell>,
                           now: map<Cell, Block>) {
    && cells <= votes.Keys && now.Keys == labels.Keys + cells
    && (forall cell :: cell in labels ==> now[cell] == labels[cell])
    && (forall cell :: cell in cells ==> Wins(votes[cell], now[cell]))
  }

  /** What every round starts with: round k's cells are the frontier. */
  ghost predicate AtRound(net: Net, labels: map<Cell, Block>, round: map<Cell, nat>, k: nat) {
    && Grown(net, labels, round)
    && ClosedBefore(net, labels, round, k)
    && forall cell :: cell in round ==> round[cell] <= k
  }

  ghost function NextRound(round: map<Cell, nat>, cells: set<Cell>, k: nat): map<Cell, nat> {
    map cell | cell in round.Keys + cells :: if cell in round then round[cell] else k + 1
  }

  /** A ballot of an earlier round stands. */
  lemma SameBallots(net: Net, labels: map<Cell, Block>, now: map<Cell, Block>, voters: set<Cell>, cell: Cell)
    requires voters <= labels.Keys <= now.Keys && forall c :: c in labels ==> now[c] == labels[c]
    ensures forall block ::
            Ballots(net, now, EdgesOf(net, voters), cell, block)
              == Ballots(net, labels, EdgesOf(net, voters), cell, block)
    ensures forall block :: Elected(net, labels, voters, cell, block) ==> Elected(net, now, voters, cell, block)
  {
  }

  lemma WinnerIsElected(net: Net, labels: map<Cell, Block>, votes: map<Cell, multiset<Block>>, voters: set<Cell>,
                        cell: Cell, block: Block)
    requires Counted(net, labels, votes, EdgesOf(net, voters)) && cell in votes && Wins(votes[cell], block)
    ensures cell !in labels && cell in net.allowed && Elected(net, labels, voters, cell, block)
  {
    var edges := EdgesOf(net, voters);
    assert Cast(votes, cell, block) > 0;
    forall other: Block | other !in net.barred(cell)
      ensures Beats(|Ballots(net, labels, edges, cell, block)|, block, |Ballots(net, labels, edges, cell, other)|,
                    other)
    {
      assert Eligible(net, labels, cell, other);
      assert Cast(votes, cell, other) == |Ballots(net, labels, edges, cell, other)|;
    }
  }

  /** The labels and rounds there were stand, and these cells join them in round k + 1. */
  ghost predicate Joined(labels: map<Cell, Block>, round: map<Cell, nat>, k: nat, now: map<Cell, Block>,
                         later: map<Cell, nat>) {
    && labels.Keys == round.Keys <= now.Keys == later.Keys
    && (forall cell :: cell in labels ==> now[cell] == labels[cell] && later[cell] == round[cell] <= k)
    && (forall cell :: cell in now && cell !in labels ==> later[cell] == k + 1)
  }

  lemma LevelStands(labels: map<Cell, Block>, round: map<Cell, nat>, k: nat, now: map<Cell, Block>,
                    later: map<Cell, nat>, j: nat)
    requires Joined(labels, round, k, now, later) && j <= k
    ensures Level(later, j) == Level(round, j) <= labels.Keys
  {
  }

  lemma ReachedStands(net: Net, labels: map<Cell, Block>, round: map<Cell, nat>, k: nat, now: map<Cell, Block>,
                      later: map<Cell, nat>, cell: Cell)
    requires Joined(labels, round, k, now, later)
    requires cell in labels && round[cell] > 0 && Reached(net, labels, round, cell)
    ensures Reached(net, now, later, cell)
  {
    LevelStands(labels, round, k, now, later, round[cell] - 1);
    SameBallots(net, labels, now, Level(round, round[cell] - 1), cell);
  }

  lemma NewlyReached(net: Net, labels: map<Cell, Block>, round: map<Cell, nat>, k: nat, now: map<Cell, Block>,
                     later: map<Cell, nat>, cell: Cell)
    requires Joined(labels, round, k, now, later) && ClosedBefore(net, labels, round, k)
    requires cell in now && cell !in labels && cell in net.allowed
             && Elected(net, labels, Level(round, k), cell, now[cell])
    ensures Reached(net, now, later, cell)
  {
    LevelStands(labels, round, k, now, later, k);
    SameBallots(net, labels, now, Level(round, k), cell);
    forall e: Edge | IsEdge(net, e) && e.0 in now && later[e.0] < later[cell] - 1 && net.edges(e.0)[e.1] == cell
      ensures now[e.0] in net.barred(cell)
    {
      assert !Eligible(net, labels, net.edges(e.0)[e.1], labels[e.0]);
    }
  }

  lemma ClosedAfter(net: Net, labels: map<Cell, Block>, round: map<Cell, nat>, k: nat,
                    votes: map<Cell, multiset<Block>>, now: map<Cell, Block>, later: map<Cell, nat>)
    requires Joined(labels, round, k, now, later) && ClosedBefore(net, labels, round, k)
    requires Counted(net, labels, votes, EdgesOf(net, Level(round, k))) && votes.Keys <= now.Keys
    ensures ClosedBefore(net, now, later, k + 1)
  {
    forall e: Edge | IsEdge(net, e) && e.0 in now && later[e.0] < k + 1
      ensures !Eligible(net, now, net.edges(e.0)[e.1], now[e.0])
    {
      var cell, block := net.edges(e.0)[e.1], labels[e.0];
      if round[e.0] == k && Eligible(net, labels, cell, block) {
        assert e in Ballots(net, labels, EdgesOf(net, Level(round, k)), cell, block);
        assert Cast(votes, cell, block) > 0;
      }
    }
  }

  lemma Start(net: Net, round: map<Cell, nat>)
    requires round == map cell | cell in net.seeds :: 0
    ensures AtRound(net, net.seeds, round, 0) && Level(round, 0) == net.seeds.Keys
  {
  }

  lemma Ends(net: Net, labels: map<Cell, Block>, round: map<Cell, nat>, k: nat)
    requires AtRound(net, labels, round, k) && Level(round, k) == {}
    ensures IsSpread(net, labels, round)
  {
    forall e: Edge | IsEdge(net, e) && e.0 in labels ensures !Eligible(net, labels, net.edges(e.0)[e.1], labels[e.0]) {
      assert e.0 !in Level(round, k);
    }
  }

  predicate Shrinks(now: nat, before: nat, next: seq<Cell>) {
    now < before || (now == before && next == [])
  }

  lemma FewerLeft(allowed: set<Cell>, before: set<Cell>, next: seq<Cell>)
    requires Cells(next) <= allowed - before
    ensures Shrinks(|allowed - (before + Cells(next))|, |allowed - before|, next)
  {
    assert allowed - (before + Cells(next)) == allowed - before - Cells(next);
    if next != [] {
      assert next[0] in Cells(next);
    }
  }

  lemma GrownStands(net: Net, labels: map<Cell, Block>, round: map<Cell, nat>, k: nat, now: map<Cell, Block>,
                    later: map<Cell, nat>)
    requires Joined(labels, round, k, now, later) && Grown(net, labels, round) && ClosedBefore(net, labels, round, k)
    requires forall cell :: cell in now && cell !in labels ==>
             cell in net.allowed && Elected(net, labels, Level(round, k), cell, now[cell])
    ensures Grown(net, now, later)
  {
    forall cell | cell in now && later[cell] > 0 ensures Reached(net, now, later, cell) {
      if cell in labels {
        ReachedStands(net, labels, round, k, now, later, cell);
      } else {
        NewlyReached(net, labels, round, k, now, later, cell);
      }
    }
  }

  /** A round keeps it all. */
  lemma RoundGrows(net: Net, labels: map<Cell, Block>, round: map<Cell, nat>, k: nat,
                   votes: map<Cell, multiset<Block>>, now: map<Cell, Block>, later: map<Cell, nat>)
    requires AtRound(net, labels, round, k)
    requires Counted(net, labels, votes, EdgesOf(net, Level(round, k))) && Labelled(labels, votes, votes.Keys, now)
    requires Joined(labels, round, k, now, later)
    ensures AtRound(net, now, later, k + 1)
  {
    forall cell | cell in votes ensures cell in net.allowed && Elected(net, labels, Level(round, k), cell, now[cell]) {
      WinnerIsElected(net, labels, votes, Level(round, k), cell, now[cell]);
    }
    GrownStands(net, labels, round, k, now, later);
    ClosedAfter(net, labels, round, k, votes, now, later);
  }

  lemma VotedAreAllowed(net: Net, labels: map<Cell, Block>, votes: map<Cell, multiset<Block>>, seen: set<Edge>)
    requires Counted(net, labels, votes, seen)
    ensures votes.Keys <= net.allowed - labels.Keys && Votable(labels, votes)
  {
    forall cell | cell in votes ensures cell !in labels && cell in net.allowed {
      NoneIsEmpty(votes[cell]);
      var block: Block :| block in votes[cell];
      assert Cast(votes, cell, block) > 0;
    }
  }

  lemma RoundJoins(labels: map<Cell, Block>, round: map<Cell, nat>, k: nat, cells: set<Cell>, now: map<Cell, Block>)
    requires labels.Keys == round.Keys && forall cell :: cell in round ==> round[cell] <= k
    requires cells !! labels.Keys && now.Keys == labels.Keys + cells
             && forall cell :: cell in labels ==> now[cell] == labels[cell]
    ensures Joined(labels, round, k, now, NextRound(round, cells, k))
    ensures Level(NextRound(round, cells, k), k + 1) == cells
  {
  }

  /** What the loop keeps. */
  ghost predicate State(net: Net, labels: map<Cell, Block>, round: map<Cell, nat>, frontier: seq<Cell>, k: nat) {
    AtRound(net, labels, round, k) && Cells(frontier) == Level(round, k) && Distinct(frontier)
  }

  lemma StateGrows(net: Net, labels: map<Cell, Block>, round: map<Cell, nat>, frontier: seq<Cell>, k: nat,
                   votes: map<Cell, multiset<Block>>, now: map<Cell, Block>, next: seq<Cell>)
    requires State(net, labels, round, frontier, k)
    requires Counted(net, labels, votes, EdgesOf(net, Cells(frontier))) && Taken(labels, votes, next, {}, now)
    ensures State(net, now, NextRound(round, Cells(next), k), next, k + 1)
  {
    var cells := Cells(next);
    VotedAreAllowed(net, labels, votes, EdgesOf(net, Cells(frontier)));
    assert cells == votes.Keys;
    RoundJoins(labels, round, k, cells, now);
    RoundGrows(net, labels, round, k, votes, now, NextRound(round, cells, k));
  }

  lemma StateShrinks(net: Net, labels: map<Cell, Block>, frontier: seq<Cell>,
                     votes: map<Cell, multiset<Block>>, now: map<Cell, Block>, next: seq<Cell>)
    requires Counted(net, labels, votes, EdgesOf(net, Cells(frontier))) && Taken(labels, votes, next, {}, now)
    ensures Shrinks(|net.allowed - now.Keys|, |net.allowed - labels.Keys|, next)
  {
    VotedAreAllowed(net, labels, votes, EdgesOf(net, Cells(frontier)));
    FewerLeft(net.allowed, labels.Keys, next);
  }

  /** The labels, and with them the rounds they came in. */
  method Spread(net: Net, seeds: seq<Cell>) returns (labels: map<Cell, Block>, ghost round: map<Cell, nat>)
    requires Cells(seeds) == net.seeds.Keys && Distinct(seeds)
    ensures IsSpread(net, labels, round)
    ensures exists r :: IsSpread(net, labels, r)
  {
    labels := net.seeds;
    round := map cell | cell in net.seeds :: 0;
    var frontier := seeds;
    ghost var k: nat := 0;
    Start(net, round);
    while frontier != []
      invariant State(net, labels, round, frontier, k)
      decreases |net.allowed - labels.Keys|, |frontier|
    {
      var votes := CountVotes(net, labels, frontier);
      VotedAreAllowed(net, labels, votes, EdgesOf(net, Cells(frontier)));
      var now, next := TakeLabels(labels, votes);
      StateGrows(net, labels, round, frontier, k, votes, now, next);
      StateShrinks(net, labels, frontier, votes, now, next);
      labels, round, frontier, k := now, NextRound(round, Cells(next), k), next, k + 1;
    }
    Ends(net, labels, round, k);
  }
}
