/** The single-read prefix tree: every node keeps, per time step, the log-probability
    that the read's first t + 1 columns collapse to exactly the node's prefix. */
module PoreOverTree {
  import opened Scores
  import opened PrefixTrees

  /** Every row of the score matrix has a column `col`. */
  ghost predicate HasColumn(y: seq<seq<Score>>, col: nat) {
    forall t :: 0 <= t < |y| ==> col < |y[t]|
  }

  /** The blank column summed over rows 0..t, starting from 0 (so every t < 0 gives 0). */
  function BlankSum(y: seq<seq<Score>>, gap: nat, t: int): Score
    requires t < |y| && HasColumn(y, gap)
    decreases t
  {
    if t < 0 then Fin(0.0) else BlankSum(y, gap, t - 1).Add(y[t][gap])
  }

  /** The root's table after construction: 0 at time -1 and the running blank sum at
      every time step before tMax, and no other entry. */
  ghost predicate BlankSeeded(table: map<int, Score>, y: seq<seq<Score>>, gap: nat, tMax: int)
    requires tMax <= |y| && HasColumn(y, gap)
  {
    table == map t | -1 <= t < (if tMax > 0 then tMax else 0) :: BlankSum(y, gap, t)
  }

  /** The constructor's seeding loop: accumulates `blank_sum` row by row into the root's table. */
  method CumulativeBlank(y: seq<seq<Score>>, gap: nat, tMax: int) returns (table: map<int, Score>)
    requires tMax <= |y| && HasColumn(y, gap)
    ensures BlankSeeded(table, y, gap, tMax)
    ensures table[-1] == Fin(0.0)
  {
    table := map[-1 := Fin(0.0)];
    var blankSum := Fin(0.0);
    var i := 0;
    while i < tMax
      invariant 0 <= i && (i <= tMax || i == 0)
      invariant blankSum == BlankSum(y, gap, i - 1)
      invariant table == map t | -1 <= t < i :: BlankSum(y, gap, t)
    {
      blankSum := blankSum.Add(y[i][gap]);
      table := table[i := blankSum];
      i := i + 1;
    }
  }

  /** a is no more likely than b. */
  predicate AtMost(a: Score, b: Score) {
    a.NegInf? || (b.Fin? && a.v <= b.v)
  }

  /** A log-probability: -infinity or at most 0. */
  predicate IsLogProbability(s: Score) {
    s.NegInf? || s.v <= 0.0
  }

  /** When the blank column holds log-probabilities, the root's seeded score (the empty
      prefix) never grows with time. */
  lemma {:induction false} BlankSumNonIncreasing(y: seq<seq<Score>>, gap: nat, s: int, t: int)
    requires s <= t < |y| && HasColumn(y, gap)
    requires forall r :: 0 <= r < |y| ==> IsLogProbability(y[r][gap])
    ensures AtMost(BlankSum(y, gap, t), BlankSum(y, gap, s))
    decreases t - s
  {
    if s < t {
      BlankSumNonIncreasing(y, gap, s, t - 1);
      if t >= 0 {
        assert IsLogProbability(y[t][gap]);
      }
    }
  }

  /** The payload of a `PoreOverNode`: a sparse time -> score table and the time of the
      last write (`max_t`, which despite its name is not a maximum). */
  datatype PoreOverData = PoreOverData(probability: map<int, Score>, maxT: int) {

    /** `probability_at(t)`: the stored score, or -infinity for a time with no entry. */
    function ProbabilityAt(t: int): (r: Score)
      ensures t in probability ==> r == probability[t]
      ensures t !in probability ==> r == DEFAULT_VALUE
    {
      Lookup(probability, t)
    }

    /** `last_probability()`: the entry at `max_t`; None where `unordered_map::at` throws. */
    function LastProbability(): (r: Option<Score>)
      ensures r.Some? <==> maxT in probability
      ensures r.Some? ==> r.value == probability[maxT]
    {
      if maxT in probability then Some(probability[maxT]) else None
    }

    /** `set_probability(t, v)`: writes key t only and moves the cursor to t. */
    function WithProbability(t: int, v: Score): (d: PoreOverData)
      ensures d.ProbabilityAt(t) == v
      ensures forall u :: u != t ==> d.ProbabilityAt(u) == ProbabilityAt(u)
      ensures d.probability.Keys == probability.Keys + {t}
      ensures d.maxT == t && d.LastProbability() == Some(v)
    {
      PoreOverData(probability[t := v], t)
    }
  }

  /** The payload of a node `add_child` creates. */
  const EMPTY: PoreOverData := PoreOverData(map[], 0)

  /** `PoreOverPrefixTree`: a prefix tree over one read's score matrix y (T rows of
      log-probabilities, one column per symbol and a last column for the gap). */
  class PoreOverPrefixTree {
    const tree: PrefixTree<PoreOverData>
    const gapChar: nat
    const tMax: int
    const y: seq<seq<Score>>
    const logAddExp: LogAddExp

    ghost predicate Valid()
      reads this, tree
    {
      && tree.Valid() && tree.SymbolsInAlphabet()
      && tree.blank == EMPTY
      && gapChar == |tree.alphabet|
      && tMax <= |y| && HasColumn(y, gapChar)
    }

    /** Builds the root (symbol index `gap_char`) and seeds its table with the blank sums. */
    constructor (d: seq<seq<Score>>, v: int, a: string, logAddExp: LogAddExp)
      requires v <= |d| && HasColumn(d, |a|)
      ensures Valid() && fresh(tree)
      ensures y == d && tMax == v && tree.alphabet == a && this.logAddExp == logAddExp
      ensures |tree.nodes| == 1 && tree.nodes[ROOT].last == gapChar == |a|
      ensures tree.nodes[ROOT].children == [] && tree.nodes[ROOT].data.maxT == 0
      ensures BlankSeeded(tree.nodes[ROOT].data.probability, y, gapChar, tMax)
      ensures tree.nodes[ROOT].data.ProbabilityAt(-1) == Fin(0.0)
    {
      y, tMax, this.logAddExp := d, v, logAddExp;
      gapChar := |a|;
      var table := CumulativeBlank(d, |a|, v);
      tree := new PrefixTree(a, |a|, PoreOverData(table, 0), EMPTY);
    }

    /** `set_probability` on node n, in place. */
    method SetProbability(n: nat, t: int, v: Score)
      requires Valid() && n < |tree.nodes|
      modifies tree
      ensures Valid()
      ensures tree.nodes == old(tree.nodes)[n := old(tree.nodes[n]).(data := old(tree.nodes[n].data).WithProbability(t, v))]
    {
      tree.SetData(n, tree.nodes[n].data.WithProbability(t, v));
    }

    /** `update_prob(n, t)`: one forward step for node n at time t, from the parent's
        score at t - 1 followed by n's symbol, and n's own score at t - 1 followed by a gap. */
    method UpdateProb(n: nat, t: int)
      requires Valid() && 0 < n < |tree.nodes| && 0 <= t < |y|
      modifies tree
      ensures Valid()
      ensures |tree.nodes| == old(|tree.nodes|)
      ensures forall m :: 0 <= m < |tree.nodes| && m != n ==> tree.nodes[m] == old(tree.nodes[m])
      ensures
        var node := old(tree.nodes[n]);
        var parent := old(tree.nodes[ParentIndex(tree.nodes, n)]);
        var emitState := parent.data.ProbabilityAt(t - 1).Add(y[t][node.last]);
        var stayState := node.data.ProbabilityAt(t - 1).Add(y[t][gapChar]);
        tree.nodes[n] == node.(data := node.data.WithProbability(t, logAddExp(emitState, stayState)))
      ensures forall u :: u != t ==> tree.nodes[n].data.ProbabilityAt(u) == old(tree.nodes[n].data.ProbabilityAt(u))
    {
      var node := tree.nodes[n];
      var a := tree.nodes[ParentIndex(tree.nodes, n)].data.ProbabilityAt(t - 1);
      var b := y[t][node.last];
      var emitState := a.Add(b);
      var c := node.data.ProbabilityAt(t - 1);
      var d := y[t][gapChar];
      var stayState := c.Add(d);
      SetProbability(n, t, logAddExp(emitState, stayState));
    }
  }
}
