/** The flip-flop prefix tree: a symbol is emitted either in its "flip" state (columns
    0..size-1 of the score matrix) or its "flop" state (columns size..2*size-1), and
    every node keeps a sparse table per state and one for their log-sum. */
module FlipFlopTree {
  import opened Scores
  import opened PrefixTrees

  /** The payload of a `FlipFlopNode`. */
  datatype FlipFlopData = FlipFlopData(
    probability: map<int, Score>,
    probabilityFlip: map<int, Score>,
    probabilityFlop: map<int, Score>,
    maxT: int)
  {
    /** `probability_at(t)`: the combined score at t, -infinity when absent. */
    function ProbabilityAt(t: int): (r: Score)
      ensures t in probability ==> r == probability[t]
      ensures t !in probability ==> r == DEFAULT_VALUE
    {
      Lookup(probability, t)
    }

    /** `probability_flip_at(t)`: the flip-state score at t, -infinity when absent. */
    function ProbabilityFlipAt(t: int): (r: Score)
      ensures t in probabilityFlip ==> r == probabilityFlip[t]
      ensures t !in probabilityFlip ==> r == DEFAULT_VALUE
    {
      Lookup(probabilityFlip, t)
    }

    /** `probability_flop_at(t)`: the flop-state score at t, -infinity when absent. */
    function ProbabilityFlopAt(t: int): (r: Score)
      ensures t in probabilityFlop ==> r == probabilityFlop[t]
      ensures t !in probabilityFlop ==> r == DEFAULT_VALUE
    {
      Lookup(probabilityFlop, t)
    }

    /** `last_probability()`: the combined entry at `max_t`; None where `at` throws. */
    function LastProbability(): (r: Option<Score>)
      ensures r.Some? <==> maxT in probability
      ensures r.Some? ==> r.value == probability[maxT]
    {
      if maxT in probability then Some(probability[maxT]) else None
    }

    /** `set_probability(t, flip, flop)`: writes key t of all three tables, the combined
        one with the log-sum of the two states, and moves the cursor to t. */
    function WithProbability(t: int, flipVal: Score, flopVal: Score, logAddExp: LogAddExp): (d: FlipFlopData)
      ensures d.ProbabilityFlipAt(t) == flipVal && d.ProbabilityFlopAt(t) == flopVal
      ensures d.ProbabilityAt(t) == logAddExp(flipVal, flopVal)
      ensures forall u :: u != t ==>
        && d.ProbabilityAt(u) == ProbabilityAt(u)
        && d.ProbabilityFlipAt(u) == ProbabilityFlipAt(u)
        && d.ProbabilityFlopAt(u) == ProbabilityFlopAt(u)
      ensures d.maxT == t && d.LastProbability() == Some(logAddExp(flipVal, flopVal))
    {
      FlipFlopData(
        probability[t := logAddExp(flipVal, flopVal)],
        probabilityFlip[t := flipVal],
        probabilityFlop[t := flopVal],
        t)
    }
  }

  /** The payload of a node `add_child` creates. */
  const EMPTY_FLIPFLOP: FlipFlopData := FlipFlopData(map[], map[], map[], 0)

  /** Every row of the score matrix has a flip and a flop column per symbol. */
  ghost predicate HasStates(y: seq<seq<Score>>, size: nat) {
    forall t :: 0 <= t < |y| ==> 2 * size <= |y[t]|
  }

  /** `FlipFlopPrefixTree`: a prefix tree over one read's flip-flop score matrix. */
  class FlipFlopPrefixTree {
    const tree: PrefixTree<FlipFlopData>
    const flipflopSize: nat
    const tMax: int
    const y: seq<seq<Score>>
    const logAddExp: LogAddExp

    ghost predicate Valid()
      reads this, tree
    {
      && tree.Valid() && tree.SymbolsInAlphabet()
      && tree.blank == EMPTY_FLIPFLOP
      && flipflopSize == |tree.alphabet|
      && HasStates(y, flipflopSize)
    }

    /** Builds the root (symbol index `flipflop_size`) with score 0 at time -1, split
        evenly (log 0.5 each) between the flip and flop states. No other entry is seeded. */
    constructor (d: seq<seq<Score>>, v: int, a: string, logAddExp: LogAddExp)
      requires HasStates(d, |a|)
      ensures Valid() && fresh(tree)
      ensures y == d && tMax == v && tree.alphabet == a && this.logAddExp == logAddExp
      ensures |tree.nodes| == 1 && tree.nodes[ROOT].last == flipflopSize == |a|
      ensures tree.nodes[ROOT].children == []
      ensures tree.nodes[ROOT].data == FlipFlopData(map[-1 := Fin(0.0)], map[-1 := Fin(LOG_HALF)], map[-1 := Fin(LOG_HALF)], 0)
      ensures tree.nodes[ROOT].data.LastProbability().None?
    {
      y, tMax, this.logAddExp := d, v, logAddExp;
      flipflopSize := |a|;
      var rootData := FlipFlopData(map[-1 := Fin(0.0)], map[-1 := Fin(LOG_HALF)], map[-1 := Fin(LOG_HALF)], 0);
      tree := new PrefixTree(a, |a|, rootData, EMPTY_FLIPFLOP);
    }

    /** `set_probability(t, flip, flop)` on node n, in place. */
    method SetProbability(n: nat, t: int, flipVal: Score, flopVal: Score)
      requires Valid() && n < |tree.nodes|
      modifies tree
      ensures Valid()
      ensures tree.nodes == old(tree.nodes)[n := old(tree.nodes[n]).(data :=
        old(tree.nodes[n].data).WithProbability(t, flipVal, flopVal, logAddExp))]
    {
      tree.SetData(n, tree.nodes[n].data.WithProbability(t, flipVal, flopVal, logAddExp));
    }

    /** `update_prob(n, t)`: one flip-flop forward step for node n at time t. Staying
        keeps n's state; entering n from its parent goes flop -> flip or flip -> flop when
        the parent holds the same symbol, and lands in flip (never flop) otherwise. */
    method UpdateProb(n: nat, t: int)
      requires Valid() && 0 < n < |tree.nodes| && 0 <= t < |y|
      modifies tree
      ensures Valid()
      ensures |tree.nodes| == old(|tree.nodes|)
      ensures forall m :: 0 <= m < |tree.nodes| && m != n ==> tree.nodes[m] == old(tree.nodes[m])
      ensures
        var node := old(tree.nodes[n]);
        var parent := old(tree.nodes[ParentIndex(tree.nodes, n)]);
        var flipCol := y[t][node.last];
        var flopCol := y[t][node.last + flipflopSize];
        var stayFlip := node.data.ProbabilityFlipAt(t - 1).Add(flipCol);
        var stayFlop := node.data.ProbabilityFlopAt(t - 1).Add(flopCol);
        var emitFlip :=
          if parent.last == node.last then parent.data.ProbabilityFlopAt(t - 1).Add(flipCol)
          else logAddExp(parent.data.ProbabilityFlipAt(t - 1), parent.data.ProbabilityFlopAt(t - 1)).Add(flipCol);
        var emitFlop :=
          if parent.last == node.last then parent.data.ProbabilityFlipAt(t - 1).Add(flopCol)
          else DEFAULT_VALUE;
        tree.nodes[n] == node.(data := node.data.WithProbability(t,
          logAddExp(emitFlip, stayFlip), logAddExp(emitFlop, stayFlop), logAddExp))
      ensures var node := old(tree.nodes[n]);
        old(tree.nodes[ParentIndex(tree.nodes, n)].last) != node.last ==>
          tree.nodes[n].data.ProbabilityFlopAt(t) ==
            logAddExp(DEFAULT_VALUE, node.data.ProbabilityFlopAt(t - 1).Add(y[t][node.last + flipflopSize]))
    {
      var node := tree.nodes[n];
      var parent := tree.nodes[ParentIndex(tree.nodes, n)];
      var stayFlip := node.data.ProbabilityFlipAt(t - 1).Add(y[t][node.last]);
      var stayFlop := node.data.ProbabilityFlopAt(t - 1).Add(y[t][node.last + flipflopSize]);
      var emitFlip, emitFlop;
      if parent.last == node.last {
        emitFlip := parent.data.ProbabilityFlopAt(t - 1).Add(y[t][node.last]);
        emitFlop := parent.data.ProbabilityFlipAt(t - 1).Add(y[t][node.last + flipflopSize]);
      } else {
        emitFlip := logAddExp(parent.data.ProbabilityFlipAt(t - 1), parent.data.ProbabilityFlopAt(t - 1)).Add(y[t][node.last]);
        emitFlop := DEFAULT_VALUE;
      }
      SetProbability(n, t, logAddExp(emitFlip, stayFlip), logAddExp(emitFlop, stayFlop));
    }
  }
}
