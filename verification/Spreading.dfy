/** What the labels `spread` leaves mean: they are the only ones that keep its rule, each came
    along a path that carries it, and with nothing barred the rounds are the distances. */
module Spreading {
  import opened Spread

  ghost predicate Hop(net: Net, a: Cell, b: Cell) {
    exists i: nat :: IsEdge(net, (a, i)) && net.edges(a)[i] == b
  }

  /** From a seed on, through allowed cells. */
  ghost predicate IsPath(net: Net, path: seq<Cell>) {
    && path != [] && path[0] in net.seeds
    && forall i :: 0 < i < |path| ==> Leg(net, path, i)
  }

  ghost predicate Leg(net: Net, path: seq<Cell>, i: nat)
    requires 0 < i < |path|
  {
    Hop(net, path[i - 1], path[i]) && path[i] in net.allowed
  }

  /** Every cell on the path carries the label, and none but the seed bars it. */
  ghost predicate Carries(net: Net, labels: map<Cell, Block>, path: seq<Cell>, block: Block) {
    && (forall i :: 0 <= i < |path| ==> path[i] in labels && labels[path[i]] == block)
    && (forall i :: 0 < i < |path| ==> path[i] !in net.seeds && block !in net.barred(path[i]))
  }

  /** Who elected a cell: a cell of the round before with its label. */
  lemma Voter(net: Net, labels: map<Cell, Block>, round: map<Cell, nat>, cell: Cell) returns (voter: Cell)
    requires IsSpread(net, labels, round) && cell in labels && round[cell] > 0
    ensures voter in labels && labels[voter] == labels[cell] && round[voter] == round[cell] - 1 && Hop(net, voter, cell)
    ensures cell in net.allowed && cell !in net.seeds && labels[cell] !in net.barred(cell)
  {
    assert Reached(net, labels, round, cell);
    var ballots := Ballots(net, labels, EdgesOf(net, Level(round, round[cell] - 1)), cell, labels[cell]);
    var e: Edge :| e in ballots;
    voter := e.0;
    assert IsEdge(net, (voter, e.1)) && net.edges(voter)[e.1] == cell;
  }

  lemma LegsStand(net: Net, path: seq<Cell>, cell: Cell)
    requires IsPath(net, path) && Hop(net, path[|path| - 1], cell) && cell in net.allowed
    ensures IsPath(net, path + [cell])
  {
    var longer := path + [cell];
    forall i | 0 < i < |longer| ensures Leg(net, longer, i) {
      if i < |path| {
        assert Leg(net, path, i);
      }
    }
  }

  lemma PathBefore(net: Net, path: seq<Cell>)
    requires IsPath(net, path) && |path| > 1
    ensures IsPath(net, path[..|path| - 1]) && Leg(net, path, |path| - 1)
  {
    var shorter := path[..|path| - 1];
    forall i | 0 < i < |shorter| ensures Leg(net, shorter, i) {
      assert Leg(net, path, i);
    }
  }

  /** A label reaches its cell from a seed, in as many hops as rounds, through cells that all
      carry it. */
  lemma {:induction false} LabelCameAlong(net: Net, labels: map<Cell, Block>, round: map<Cell, nat>, cell: Cell)
    returns (path: seq<Cell>)
    requires IsSpread(net, labels, round) && cell in labels
    ensures IsPath(net, path) && path[|path| - 1] == cell && |path| == round[cell] + 1
    ensures Carries(net, labels, path, labels[cell]) && net.seeds[path[0]] == labels[cell]
    decreases round[cell]
  {
    if round[cell] == 0 {
      path := [cell];
    } else {
      var voter := Voter(net, labels, round, cell);
      var before := LabelCameAlong(net, labels, round, voter);
      path := before + [cell];
      LegsStand(net, before, cell);
    }
  }

  /** An allowed cell that is no seed is left without a label exactly when it bars the labels of
      all the labelled cells that lead to it. */
  lemma LabelledUnlessBarred(net: Net, labels: map<Cell, Block>, round: map<Cell, nat>, cell: Cell)
    requires IsSpread(net, labels, round) && cell in net.allowed && cell !in net.seeds
    ensures cell in labels
            <==> exists other :: other in labels && Hop(net, other, cell) && labels[other] !in net.barred(cell)
  {
    if cell in labels {
      var voter := Voter(net, labels, round, cell);
    }
    forall other | other in labels && Hop(net, other, cell) && labels[other] !in net.barred(cell)
      ensures cell in labels
    {
      var i: nat :| IsEdge(net, (other, i)) && net.edges(other)[i] == cell;
      assert !Eligible(net, labels, net.edges((other, i).0)[(other, i).1], labels[(other, i).0]);
    }
  }

  // the rule has one answer

  /** What is reached by round k is the same, with the same label in the same round. */
  ghost predicate AgreeTo(labels: map<Cell, Block>, round: map<Cell, nat>, others: map<Cell, Block>,
                          rounds: map<Cell, nat>, k: nat)
    requires labels.Keys == round.Keys && others.Keys == rounds.Keys
  {
    forall cell :: cell in labels && round[cell] <= k
      ==> cell in others && others[cell] == labels[cell] && rounds[cell] == round[cell]
  }

  /** A cell reached by its neighbour's label is reached no later than in the next round. */
  lemma NextAtLatest(net: Net, labels: map<Cell, Block>, round: map<Cell, nat>, cell: Cell, next: Cell)
    requires IsSpread(net, labels, round) && cell in labels && Hop(net, cell, next)
    requires next in net.allowed && labels[cell] !in net.barred(next)
    ensures next in labels && round[next] <= round[cell] + 1
  {
    var i: nat :| IsEdge(net, (cell, i)) && net.edges(cell)[i] == next;
    var e: Edge := (cell, i);
    assert !Eligible(net, labels, net.edges(e.0)[e.1], labels[e.0]);
    assert round[next] > 0 ==> Reached(net, labels, round, next);
  }

  lemma OneElected(net: Net, labels: map<Cell, Block>, voters: set<Cell>, cell: Cell, a: Block, b: Block)
    requires Elected(net, labels, voters, cell, a) && Elected(net, labels, voters, cell, b)
    ensures a == b
  {
  }

  lemma SameElection(net: Net, labels: map<Cell, Block>, others: map<Cell, Block>, voters: set<Cell>, cell: Cell,
                     block: Block)
    requires voters <= labels.Keys && voters <= others.Keys && forall c :: c in voters ==> labels[c] == others[c]
    requires Elected(net, labels, voters, cell, block)
    ensures Elected(net, others, voters, cell, block)
  {
    forall b: Block ensures Ballots(net, others, EdgesOf(net, voters), cell, b)
      == Ballots(net, labels, EdgesOf(net, voters), cell, b) {}
  }

  lemma {:induction false} AgreeAtEvery(net: Net, labels: map<Cell, Block>, round: map<Cell, nat>,
                                        others: map<Cell, Block>, rounds: map<Cell, nat>, k: nat)
    requires IsSpread(net, labels, round) && IsSpread(net, others, rounds)
    ensures AgreeTo(labels, round, others, rounds, k) && AgreeTo(others, rounds, labels, round, k)
  {
    if k > 0 {
      AgreeAtEvery(net, labels, round, others, rounds, k - 1);
      AgreeAtNext(net, labels, round, others, rounds, k);
      AgreeAtNext(net, others, rounds, labels, round, k);
    }
  }

  lemma SameLevel(labels: map<Cell, Block>, round: map<Cell, nat>, others: map<Cell, Block>, rounds: map<Cell, nat>,
                  k: nat)
    requires labels.Keys == round.Keys && others.Keys == rounds.Keys
    requires AgreeTo(labels, round, others, rounds, k) && AgreeTo(others, rounds, labels, round, k)
    ensures Level(round, k) == Level(rounds, k) && Level(round, k) <= labels.Keys && Level(round, k) <= others.Keys
    ensures forall c :: c in Level(round, k) ==> labels[c] == others[c]
  {
  }

  lemma ElectedIn(net: Net, labels: map<Cell, Block>, round: map<Cell, nat>, cell: Cell, voters: set<Cell>)
    requires Grown(net, labels, round) && cell in labels && round[cell] > 0 && voters == Level(round, round[cell] - 1)
    ensures Elected(net, labels, voters, cell, labels[cell])
  {
    assert Reached(net, labels, round, cell);
  }

  lemma OneWinner(net: Net, labels: map<Cell, Block>, others: map<Cell, Block>, voters: set<Cell>, cell: Cell,
                  a: Block, b: Block)
    requires voters <= labels.Keys && voters <= others.Keys && forall c :: c in voters ==> labels[c] == others[c]
    requires Elected(net, labels, voters, cell, a) && Elected(net, others, voters, cell, b)
    ensures a == b
  {
    SameElection(net, labels, others, voters, cell, a);
    OneElected(net, others, voters, cell, a, b);
  }

  lemma SameWinner(net: Net, labels: map<Cell, Block>, round: map<Cell, nat>, others: map<Cell, Block>,
                   rounds: map<Cell, nat>, k: nat, cell: Cell)
    requires Grown(net, labels, round) && Grown(net, others, rounds)
    requires cell in labels && cell in others && round[cell] == rounds[cell] == k + 1
    requires Level(round, k) == Level(rounds, k) && Level(round, k) <= labels.Keys && Level(round, k) <= others.Keys
    requires forall c :: c in Level(round, k) ==> labels[c] == others[c]
    ensures labels[cell] == others[cell]
  {
    ElectedIn(net, labels, round, cell, Level(round, k));
    ElectedIn(net, others, rounds, cell, Level(round, k));
    OneWinner(net, labels, others, Level(round, k), cell, labels[cell], others[cell]);
  }

  lemma AgreeAtNext(net: Net, labels: map<Cell, Block>, round: map<Cell, nat>, others: map<Cell, Block>,
                    rounds: map<Cell, nat>, k: nat)
    requires IsSpread(net, labels, round) && IsSpread(net, others, rounds) && k > 0
    requires AgreeTo(labels, round, others, rounds, k - 1) && AgreeTo(others, rounds, labels, round, k - 1)
    ensures AgreeTo(labels, round, others, rounds, k)
  {
    forall cell | cell in labels && round[cell] == k
      ensures cell in others && others[cell] == labels[cell] && rounds[cell] == k
    {
      var voter := Voter(net, labels, round, cell);
      NextAtLatest(net, others, rounds, voter, cell);
      SameLevel(labels, round, others, rounds, k - 1);
      SameWinner(net, labels, round, others, rounds, k - 1, cell);
    }
  }

  /** Whatever order the cells and their edges are taken in, the labels are the same. */
  lemma SpreadIsUnique(net: Net, labels: map<Cell, Block>, round: map<Cell, nat>, others: map<Cell, Block>,
                       rounds: map<Cell, nat>)
    requires IsSpread(net, labels, round) && IsSpread(net, others, rounds)
    ensures labels == others && round == rounds
  {
    forall cell | cell in labels ensures cell in others && others[cell] == labels[cell] && rounds[cell] == round[cell] {
      AgreeAtEvery(net, labels, round, others, rounds, round[cell]);
    }
    forall cell | cell in others ensures cell in labels {
      AgreeAtEvery(net, labels, round, others, rounds, rounds[cell]);
    }
  }

  // what is reached

  ghost predicate Reachable(net: Net, cell: Cell) {
    exists path :: IsPath(net, path) && path[|path| - 1] == cell
  }

  /** No cell along the way bars a label that a seed carries. */
  ghost predicate NothingBarred(net: Net) {
    forall cell, block :: Reachable(net, cell) && cell !in net.seeds && block in net.seeds.Values
      ==> block !in net.barred(cell)
  }

  /** Then every path's end is labelled, in no more rounds than it has hops. */
  lemma {:induction false} PathsEndLabelled(net: Net, labels: map<Cell, Block>, round: map<Cell, nat>, path: seq<Cell>)
    requires IsSpread(net, labels, round) && NothingBarred(net) && IsPath(net, path)
    ensures path[|path| - 1] in labels && round[path[|path| - 1]] < |path|
    decreases |path|
  {
    var n := |path| - 1;
    if n > 0 && path[n] !in net.seeds {
      var before := path[..n];
      PathBefore(net, path);
      PathsEndLabelled(net, labels, round, before);
      assert before[|before| - 1] == path[n - 1];
      var seeded := LabelCameAlong(net, labels, round, path[n - 1]);
      assert labels[path[n - 1]] in net.seeds.Values;
      assert Reachable(net, path[n]);
      NextAtLatest(net, labels, round, path[n - 1], path[n]);
    }
  }

  /** With nothing barred every reachable cell is labelled and no other, each in the round that is
      its distance from the seeds. */
  lemma RoundIsDistance(net: Net, labels: map<Cell, Block>, round: map<Cell, nat>, cell: Cell)
    requires IsSpread(net, labels, round) && NothingBarred(net)
    ensures cell in labels <==> Reachable(net, cell)
    ensures cell in labels ==> exists path :: IsPath(net, path) && path[|path| - 1] == cell && |path| == round[cell] + 1
    ensures forall path :: IsPath(net, path) && path[|path| - 1] == cell ==> cell in labels && round[cell] < |path|
  {
    if cell in labels {
      var path := LabelCameAlong(net, labels, round, cell);
    }
    forall path | IsPath(net, path) && path[|path| - 1] == cell ensures cell in labels && round[cell] < |path| {
      PathsEndLabelled(net, labels, round, path);
    }
  }

  /** Seeds that all carry one label are spread to every reachable cell exactly when no such cell
      bars it: one that does is left out, and cuts off what lies behind it. */
  lemma AllReachedUnlessBarred(net: Net, labels: map<Cell, Block>, round: map<Cell, nat>, block: Block)
    requires IsSpread(net, labels, round) && forall cell :: cell in net.seeds ==> net.seeds[cell] == block
    ensures AllReached(net, labels)
            <==> (forall cell :: Reachable(net, cell) && cell !in net.seeds ==> block !in net.barred(cell))
  {
    if forall cell :: Reachable(net, cell) && cell !in net.seeds ==> block !in net.barred(cell) {
      forall cell | Reachable(net, cell) ensures cell in labels {
        RoundIsDistance(net, labels, round, cell);
      }
    }
    if AllReached(net, labels) {
      forall cell | Reachable(net, cell) && cell !in net.seeds ensures block !in net.barred(cell) {
        var path := LabelCameAlong(net, labels, round, cell);
        assert path[|path| - 1] == cell;
      }
    }
  }

  ghost predicate AllReached(net: Net, labels: map<Cell, Block>) {
    forall cell :: Reachable(net, cell) ==> cell in labels
  }

  // every labelling of the seeds

  /** The same seeds with other labels. */
  function Relabelled(net: Net, seeds: map<Cell, Block>): Net {
    net.(seeds := seeds)
  }

  lemma ReachableStays(net: Net, seeds: map<Cell, Block>, cell: Cell)
    requires seeds.Keys == net.seeds.Keys
    ensures Reachable(Relabelled(net, seeds), cell) <==> Reachable(net, cell)
  {
    var other := Relabelled(net, seeds);
    forall path ensures IsPath(other, path) <==> IsPath(net, path) {
      if IsPath(net, path) {
        forall i | 0 < i < |path| ensures Leg(other, path, i) {
          assert Leg(net, path, i);
          HopStays(net, seeds, path[i - 1], path[i]);
        }
      }
      if IsPath(other, path) {
        forall i | 0 < i < |path| ensures Leg(net, path, i) {
          assert Leg(other, path, i);
          HopStays(net, seeds, path[i - 1], path[i]);
        }
      }
    }
  }

  lemma HopStays(net: Net, seeds: map<Cell, Block>, a: Cell, b: Cell)
    ensures Hop(Relabelled(net, seeds), a, b) <==> Hop(net, a, b)
  {
    var other := Relabelled(net, seeds);
    assert forall i: nat :: IsEdge(other, (a, i)) <==> IsEdge(net, (a, i));
    if i: nat :| IsEdge(other, (a, i)) && other.edges(a)[i] == b {
      assert IsEdge(net, (a, i)) && net.edges(a)[i] == b;
    }
    if i: nat :| IsEdge(net, (a, i)) && net.edges(a)[i] == b {
      assert IsEdge(other, (a, i)) && other.edges(a)[i] == b;
    }
  }

  ghost predicate ReachesAll(net: Net, seeds: map<Cell, Block>) {
    forall labels, round :: IsSpread(Relabelled(net, seeds), labels, round) ==> AllReached(net, labels)
  }

  /** Whatever the seeds carry, every reachable cell is labelled: exactly if no reachable cell but
      a seed bars anything. */
  lemma AllReachedWhateverSeeds(net: Net)
    ensures (forall seeds: map<Cell, Block> :: seeds.Keys == net.seeds.Keys ==> ReachesAll(net, seeds))
            <==> (forall cell, block: Block :: Reachable(net, cell) && cell !in net.seeds ==>
                  block !in net.barred(cell))
  {
    if forall cell, block: Block :: Reachable(net, cell) && cell !in net.seeds ==> block !in net.barred(cell) {
      forall seeds: map<Cell, Block> | seeds.Keys == net.seeds.Keys ensures ReachesAll(net, seeds) {
        NoneBarredReachesAll(net, seeds);
      }
    }
    if forall seeds: map<Cell, Block> :: seeds.Keys == net.seeds.Keys ==> ReachesAll(net, seeds) {
      forall cell, block: Block | Reachable(net, cell) && cell !in net.seeds ensures block !in net.barred(cell) {
        BarsNoneOfItsOwn(net, cell, block);
      }
    }
  }

  lemma NoneBarredReachesAll(net: Net, seeds: map<Cell, Block>)
    requires seeds.Keys == net.seeds.Keys
    requires forall cell, block: Block :: Reachable(net, cell) && cell !in net.seeds ==> block !in net.barred(cell)
    ensures ReachesAll(net, seeds)
  {
    var other := Relabelled(net, seeds);
    forall cell ensures Reachable(other, cell) <==> Reachable(net, cell) { ReachableStays(net, seeds, cell); }
    assert NothingBarred(other);
    forall labels, round | IsSpread(other, labels, round) ensures AllReached(net, labels) {
      forall cell | Reachable(net, cell) ensures cell in labels {
        RoundIsDistance(other, labels, round, cell);
      }
    }
  }

  lemma BarsNoneOfItsOwn(net: Net, cell: Cell, block: Block)
    requires net.seeds != map[] && Reachable(net, cell) && cell !in net.seeds
    requires forall seeds: map<Cell, Block> :: seeds.Keys == net.seeds.Keys ==> ReachesAll(net, seeds)
    ensures block !in net.barred(cell)
  {
    var seeds := map c | c in net.seeds :: block;
    var other := Relabelled(net, seeds);
    var labels, round := SpreadExists(other);
    assert ReachesAll(net, seeds);
    forall c ensures Reachable(other, c) <==> Reachable(net, c) { ReachableStays(net, seeds, c); }
    AllReachedUnlessBarred(other, labels, round, block);
  }

  // every net has its labels

  /** The cells that some vote of the last round reaches. */
  ghost function VotedOn(net: Net, labels: map<Cell, Block>, voters: set<Cell>): set<Cell> {
    set cell | cell in net.allowed && cell !in labels && HasVote(net, labels, voters, cell)
  }

  ghost predicate HasVote(net: Net, labels: map<Cell, Block>, voters: set<Cell>, cell: Cell) {
    exists block :: Votes(net, labels, voters, cell, block)
  }

  ghost predicate Votes(net: Net, labels: map<Cell, Block>, voters: set<Cell>, cell: Cell, block: Block) {
    block !in net.barred(cell) && Ballots(net, labels, EdgesOf(net, voters), cell, block) != {}
  }

  /** Of finitely many labels one has the most votes. */
  lemma {:induction false} MostVotes(count: Block -> nat, blocks: set<Block>) returns (most: Block)
    requires blocks != {}
    ensures most in blocks && forall b :: b in blocks ==> Beats(count(most), most, count(b), b)
  {
    OneLeft(blocks);
    var one: Block :| one in blocks;
    most := one;
    if blocks != {one} {
      var rest := MostVotes(count, blocks - {one});
      if Beats(count(rest), rest, count(one), one) { most := rest; }
    }
  }

  lemma SomeoneElected(net: Net, labels: map<Cell, Block>, voters: set<Cell>, cell: Cell)
    requires HasVote(net, labels, voters, cell)
    ensures exists block :: Elected(net, labels, voters, cell, block)
  {
    var edges := EdgesOf(net, voters);
    var blocks: set<Block> :=
      set e | e in edges && net.edges(e.0)[e.1] == cell && e.0 in labels && labels[e.0] !in net.barred(cell) ::
        labels[e.0];
    forall b: Block ensures b in blocks <==> Votes(net, labels, voters, cell, b) {
      if b in blocks {
        var e :| e in edges && net.edges(e.0)[e.1] == cell && e.0 in labels && labels[e.0] == b
          && b !in net.barred(cell);
        assert e in Ballots(net, labels, edges, cell, b);
      }
      if Votes(net, labels, voters, cell, b) {
        var e :| e in Ballots(net, labels, edges, cell, b);
      }
    }
    var some: Block :| Votes(net, labels, voters, cell, some);
    var count := (b: Block) => |Ballots(net, labels, edges, cell, b)|;
    var block := MostVotes(count, blocks);
    forall b: Block | b !in net.barred(cell) ensures Beats(count(block), block, count(b), b) {
      if b !in blocks {
        assert !Votes(net, labels, voters, cell, b);
      }
    }
    assert Elected(net, labels, voters, cell, block);
  }

  ghost function WinnerOf(net: Net, labels: map<Cell, Block>, voters: set<Cell>, cell: Cell): (block: Block)
    requires HasVote(net, labels, voters, cell)
    ensures Elected(net, labels, voters, cell, block)
  {
    SomeoneElected(net, labels, voters, cell);
    var block: Block :| Elected(net, labels, voters, cell, block);
    block
  }

  /** The labels after a round. */
  ghost function Grow(net: Net, labels: map<Cell, Block>, voters: set<Cell>): (now: map<Cell, Block>)
    ensures now.Keys == labels.Keys + VotedOn(net, labels, voters)
    ensures forall cell :: cell in labels ==> now[cell] == labels[cell]
  {
    map cell | cell in labels.Keys + VotedOn(net, labels, voters) ::
      if cell in labels then labels[cell] else WinnerOf(net, labels, voters, cell)
  }

  lemma GrowCloses(net: Net, labels: map<Cell, Block>, round: map<Cell, nat>, k: nat, later: map<Cell, nat>)
    requires AtRound(net, labels, round, k)
    requires Joined(labels, round, k, Grow(net, labels, Level(round, k)), later)
    ensures ClosedBefore(net, Grow(net, labels, Level(round, k)), later, k + 1)
  {
    var voters := Level(round, k);
    var now := Grow(net, labels, voters);
    forall e: Edge | IsEdge(net, e) && e.0 in now && later[e.0] < k + 1
      ensures !Eligible(net, now, net.edges(e.0)[e.1], now[e.0])
    {
      var cell, block := net.edges(e.0)[e.1], labels[e.0];
      if round[e.0] == k && Eligible(net, labels, cell, block) {
        assert e in Ballots(net, labels, EdgesOf(net, voters), cell, block);
        assert Votes(net, labels, voters, cell, block);
      }
    }
  }

  lemma GrowKeeps(net: Net, labels: map<Cell, Block>, round: map<Cell, nat>, k: nat)
    requires AtRound(net, labels, round, k)
    ensures var voted := VotedOn(net, labels, Level(round, k));
      AtRound(net, Grow(net, labels, Level(round, k)), NextRound(round, voted, k), k + 1)
      && Level(NextRound(round, voted, k), k + 1) == voted
  {
    var voted := VotedOn(net, labels, Level(round, k));
    var now, later := Grow(net, labels, Level(round, k)), NextRound(round, voted, k);
    RoundJoins(labels, round, k, voted, now);
    GrownStands(net, labels, round, k, now, later);
    GrowCloses(net, labels, round, k, later);
  }

  lemma {:induction false} SpreadsOn(net: Net, labels: map<Cell, Block>, round: map<Cell, nat>, k: nat)
    returns (all: map<Cell, Block>, rounds: map<Cell, nat>)
    requires AtRound(net, labels, round, k)
    ensures IsSpread(net, all, rounds)
    decreases |net.allowed - labels.Keys|, |Level(round, k)|
  {
    var voted := VotedOn(net, labels, Level(round, k));
    if Level(round, k) == {} {
      Ends(net, labels, round, k);
      all, rounds := labels, round;
    } else {
      GrowKeeps(net, labels, round, k);
      LeftAfter(net.allowed, labels.Keys, voted);
      all, rounds := SpreadsOn(net, Grow(net, labels, Level(round, k)), NextRound(round, voted, k), k + 1);
    }
  }

  lemma LeftAfter(allowed: set<Cell>, before: set<Cell>, added: set<Cell>)
    requires added <= allowed - before
    ensures |allowed - (before + added)| == |allowed - before| - |added|
  {
    assert allowed - (before + added) == allowed - before - added;
  }

  /** Every net has labels and rounds that keep the rule. */
  lemma SpreadExists(net: Net) returns (labels: map<Cell, Block>, round: map<Cell, nat>)
    ensures IsSpread(net, labels, round)
  {
    var start := map cell | cell in net.seeds :: 0;
    Start(net, start);
    labels, round := SpreadsOn(net, net.seeds, start, 0);
  }

  // a cell cut off

  /** A seed, a cell that bars its label, and behind that one a cell that bars nothing. */
  const CHAIN: Net :=
    Net(map["a" := 1], cell => if cell == "a" then ["b"] else if cell == "b" then ["c"] else [], {"b", "c"},
        cell => if cell == "b" then {1} else {})

  /** It bars nothing and is reachable, but stays without a label. */
  lemma BehindIsCutOff()
    ensures Reachable(CHAIN, "c") && CHAIN.barred("c") == {}
    ensures forall labels, round :: IsSpread(CHAIN, labels, round) ==> "c" !in labels
  {
    var path := ["a", "b", "c"];
    assert IsEdge(CHAIN, ("a", 0)) && CHAIN.edges("a")[0] == "b";
    assert IsEdge(CHAIN, ("b", 0)) && CHAIN.edges("b")[0] == "c";
    assert Hop(CHAIN, "a", "b") && Hop(CHAIN, "b", "c");
    assert Leg(CHAIN, path, 1) && Leg(CHAIN, path, 2);
    assert IsPath(CHAIN, path);
    forall labels, round | IsSpread(CHAIN, labels, round) ensures "c" !in labels {
      if "c" in labels {
        var voter := Voter(CHAIN, labels, round, "c");
        var first := Voter(CHAIN, labels, round, voter);
      }
    }
  }

  /** Barring one label that comes to it does not leave a cell out if it may take another. */
  lemma AnotherLabelWillDo()
    ensures var net := Net(map["a" := 1, "b" := 2], cell => if cell == "c" then [] else ["c"], {"c"}, cell => {1});
      forall labels, round :: IsSpread(net, labels, round) ==> "c" in labels && labels["c"] == 2
  {
    var net := Net(map["a" := 1, "b" := 2], cell => if cell == "c" then [] else ["c"], {"c"}, cell => {1});
    forall labels, round | IsSpread(net, labels, round) ensures "c" in labels && labels["c"] == 2 {
      assert labels["b"] == 2;
      assert IsEdge(net, ("b", 0)) && net.edges("b")[0] == "c";
      NextAtLatest(net, labels, round, "b", "c");
      var voter := Voter(net, labels, round, "c");
    }
  }
}
