/** The two-read prefix tree: every node keeps one sparse score table per read, so that
    the same prefix can be scored against both reads independently. */
module PoreOverTree2D {
  import opened Scores
  import opened PrefixTrees
  import opened PoreOverTree

  /** The number of reads (`dim`). */
  const DIM: nat := 2

  type Dim = i: int | 0 <= i < DIM

  /** One sparse time -> score table per read. */
  type Tables = s: seq<map<int, Score>> | |s| == DIM witness [map[], map[]]

  /** One last-written time per read. */
  type Cursors = s: seq<int> | |s| == DIM witness [0, 0]

  /** The payload of a `PoreOverNode2D`. */
  datatype PoreOverData2D = PoreOverData2D(probability: Tables, lastT: Cursors) {

    /** `probability_at(i, t)`: read i's score at t, -infinity when absent. */
    function ProbabilityAt(i: Dim, t: int): (r: Score)
      ensures t in probability[i] ==> r == probability[i][t]
      ensures t !in probability[i] ==> r == DEFAULT_VALUE
    {
      Lookup(probability[i], t)
    }

    /** `joint_probability(u, v)`: read 0 at time u and read 1 at time v, added in log
        space; -infinity exactly when either read's score is. */
    function JointProbability(u: int, v: int): (r: Score)
      ensures r.NegInf? <==> ProbabilityAt(0, u).NegInf? || ProbabilityAt(1, v).NegInf?
      ensures r.Fin? ==> r.v == ProbabilityAt(0, u).v + ProbabilityAt(1, v).v
    {
      ProbabilityAt(0, u).Add(ProbabilityAt(1, v))
    }

    /** `probability_at(t)`: both reads at the same time t, i.e. the joint score on the diagonal. */
    function SummedProbabilityAt(t: int): (r: Score)
      ensures r == JointProbability(t, t)
    {
      ProbabilityAt(0, t).Add(ProbabilityAt(1, t))
    }

    /** The entries at the last-written times of reads 0..k-1, summed from 0. */
    ghost function LastSum(k: nat): Score
      requires k <= DIM && forall i: Dim :: i < k ==> lastT[i] in probability[i]
    {
      if k == 0 then Fin(0.0) else LastSum(k - 1).Add(probability[k - 1][lastT[k - 1]])
    }

    /** `last_probability()`: sums each read's entry at its last-written time, starting
        from 0; None where `unordered_map::at` throws on a missing entry. */
    method LastProbability() returns (r: Option<Score>)
      ensures r.Some? <==> forall i: Dim :: lastT[i] in probability[i]
      ensures r.Some? ==> r.value == Fin(0.0).Add(probability[0][lastT[0]]).Add(probability[1][lastT[1]])
    {
      var probSum := Fin(0.0);
      for n := 0 to DIM
        invariant forall i: Dim :: i < n ==> lastT[i] in probability[i]
        invariant probSum == LastSum(n)
      {
        if lastT[n] !in probability[n] {
          return None;
        }
        probSum := probSum.Add(probability[n][lastT[n]]);
      }
      r := Some(probSum);
    }

    /** `set_probability(i, t, v)`: writes read i's entry at t and read i's cursor only;
        the other read's table and cursor are untouched. */
    function WithProbability(i: Dim, t: int, v: Score): (d: PoreOverData2D)
      ensures d.ProbabilityAt(i, t) == v
      ensures forall u :: u != t ==> d.ProbabilityAt(i, u) == ProbabilityAt(i, u)
      ensures d.probability[i].Keys == probability[i].Keys + {t}
      ensures d.lastT[i] == t
      ensures forall j: Dim :: j != i ==> d.probability[j] == probability[j] && d.lastT[j] == lastT[j]
    {
      PoreOverData2D(probability[i := probability[i][t := v]], lastT[i := t])
    }
  }

  /** The payload of a node `add_child` creates. */
  const EMPTY_2D: PoreOverData2D := PoreOverData2D([map[], map[]], [0, 0])

  /** `PoreOverPrefixTree2D`: a prefix tree over two reads' score matrices y[0] and y[1],
      each with its own number of time steps tMax[i]. */
  class PoreOverPrefixTree2D {
    const tree: PrefixTree<PoreOverData2D>
    const gapChar: nat
    const tMax: seq<int>
    const y: seq<seq<seq<Score>>>
    const logAddExp: LogAddExp

    ghost predicate Valid()
      reads this, tree
    {
      && tree.Valid() && tree.SymbolsInAlphabet()
      && tree.blank == EMPTY_2D
      && gapChar == |tree.alphabet|
      && |tMax| == DIM && |y| == DIM
      && forall i: Dim :: tMax[i] <= |y[i]| && HasColumn(y[i], gapChar)
    }

    /** Builds the root (symbol index `gap_char`) and seeds each read's table with that
        read's blank sums. */
    constructor (d1: seq<seq<Score>>, u: int, d2: seq<seq<Score>>, v: int, a: string, logAddExp: LogAddExp)
      requires u <= |d1| && HasColumn(d1, |a|)
      requires v <= |d2| && HasColumn(d2, |a|)
      ensures Valid() && fresh(tree)
      ensures y == [d1, d2] && tMax == [u, v] && tree.alphabet == a && this.logAddExp == logAddExp
      ensures |tree.nodes| == 1 && tree.nodes[ROOT].last == gapChar == |a|
      ensures tree.nodes[ROOT].children == [] && tree.nodes[ROOT].data.lastT == [0, 0]
      ensures forall i: Dim :: BlankSeeded(tree.nodes[ROOT].data.probability[i], y[i], gapChar, tMax[i])
      ensures forall i: Dim :: tree.nodes[ROOT].data.ProbabilityAt(i, -1) == Fin(0.0)
    {
      var ys := [d1, d2];
      var ts := [u, v];
      y, tMax, this.logAddExp := ys, ts, logAddExp;
      gapChar := |a|;
      var tables: Tables := [map[], map[]];
      for i := 0 to DIM
        invariant forall j: Dim :: j < i ==> BlankSeeded(tables[j], ys[j], |a|, ts[j]) && tables[j][-1] == Fin(0.0)
      {
        var table := CumulativeBlank(ys[i], |a|, ts[i]);
        tables := tables[i := table];
      }
      tree := new PrefixTree(a, |a|, PoreOverData2D(tables, [0, 0]), EMPTY_2D);
    }

    /** `set_probability(i, t, v)` on node n, in place. */
    method SetProbability(n: nat, i: Dim, t: int, v: Score)
      requires Valid() && n < |tree.nodes|
      modifies tree
      ensures Valid()
      ensures tree.nodes == old(tree.nodes)[n := old(tree.nodes[n]).(data := old(tree.nodes[n].data).WithProbability(i, t, v))]
    {
      tree.SetData(n, tree.nodes[n].data.WithProbability(i, t, v));
    }

    /** `update_prob(n, i, t)`: if read i already has a score for n at t, nothing happens;
        otherwise one forward step in read i alone. */
    method UpdateProb(n: nat, i: Dim, t: int)
      requires Valid() && 0 < n < |tree.nodes| && 0 <= t < |y[i]|
      modifies tree
      ensures Valid()
      ensures t in old(tree.nodes[n].data.probability[i]) ==> tree.nodes == old(tree.nodes)
      ensures |tree.nodes| == old(|tree.nodes|)
      ensures forall m :: 0 <= m < |tree.nodes| && m != n ==> tree.nodes[m] == old(tree.nodes[m])
      ensures t !in old(tree.nodes[n].data.probability[i]) ==>
        var node := old(tree.nodes[n]);
        var parent := old(tree.nodes[ParentIndex(tree.nodes, n)]);
        var emitState := parent.data.ProbabilityAt(i, t - 1).Add(y[i][t][node.last]);
        var stayState := node.data.ProbabilityAt(i, t - 1).Add(y[i][t][gapChar]);
        tree.nodes[n] == node.(data := node.data.WithProbability(i, t, logAddExp(emitState, stayState)))
      ensures forall j: Dim :: j != i ==>
        tree.nodes[n].data.probability[j] == old(tree.nodes[n].data.probability[j]) &&
        tree.nodes[n].data.lastT[j] == old(tree.nodes[n].data.lastT[j])
      ensures t in tree.nodes[n].data.probability[i]
    {
      if t !in tree.nodes[n].data.probability[i] {
        var node := tree.nodes[n];
        var a := tree.nodes[ParentIndex(tree.nodes, n)].data.ProbabilityAt(i, t - 1);
        var b := y[i][t][node.last];
        var emitState := a.Add(b);
        var c := node.data.ProbabilityAt(i, t - 1);
        var d := y[i][t][gapChar];
        var stayState := c.Add(d);
        SetProbability(n, i, t, logAddExp(emitState, stayState));
      }
    }
  }
}
