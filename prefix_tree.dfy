/** The prefix tree shared by every prefix-search decoder.

    A tree node has the symbol index it appends (`last`), a parent link, an
    ordered list of children and a depth. The nodes live in an arena: a
    sequence indexed by node number, where index 0 is the root and a parent
    link is the index of the parent. Each node also carries a payload `D`
    (the forward scores of one of the three node kinds). */
module PrefixTrees {
  import opened Scores

  /** Arena index of the tree's root. */
  const ROOT: nat := 0

  /** The character a C++11 std::string yields when indexed at its own length. */
  const NUL: char := '\0'

  datatype Node<D> = Node(last: int, parent: Option<nat>, children: seq<nat>, depth: nat, data: D)

  /** Node i (not the root) has a parent before it, one level higher, that lists i as a child. */
  ghost predicate ParentLinked<D>(nodes: seq<Node<D>>, i: nat)
    requires i < |nodes|
  {
    match nodes[i].parent
    case None => false
    case Some(p) => p < i && nodes[i].depth == nodes[p].depth + 1 && i in nodes[p].children
  }

  /** c, listed as a child of i, lies after i in the arena and points back to i. */
  ghost predicate ChildLinked<D>(nodes: seq<Node<D>>, i: nat, c: nat) {
    i < c < |nodes| && nodes[c].parent == Some(i)
  }

  /** The arena is one tree rooted at index 0, with parent and children links that agree. */
  ghost predicate WellFormed<D>(nodes: seq<Node<D>>) {
    && |nodes| > 0
    && nodes[ROOT].parent.None? && nodes[ROOT].depth == 0
    && (forall i :: 0 < i < |nodes| ==> ParentLinked(nodes, i))
    && (forall i, k :: 0 <= i < |nodes| && 0 <= k < |nodes[i].children| ==> ChildLinked(nodes, i, nodes[i].children[k]))
  }

  /** The arena after `add_child(c)` on node n: one new node at the end, listed last among n's children. */
  function WithChild<D>(nodes: seq<Node<D>>, n: nat, c: int, blank: D): seq<Node<D>>
    requires n < |nodes|
  {
    nodes[n := nodes[n].(children := nodes[n].children + [|nodes|])]
      + [Node(c, Some(n), [], nodes[n].depth + 1, blank)]
  }

  /** The arena after `add_child(0)`, ..., `add_child(k - 1)` on node n. */
  function WithChildren<D>(nodes: seq<Node<D>>, n: nat, k: nat, blank: D): (r: seq<Node<D>>)
    requires n < |nodes|
    ensures |r| == |nodes| + k
  {
    if k == 0 then nodes else WithChild(WithChildren(nodes, n, k - 1, blank), n, k - 1, blank)
  }

  /** The arena after `expand(n)` over an alphabet of k symbols. */
  function Expanded<D>(nodes: seq<Node<D>>, n: nat, k: nat, blank: D): seq<Node<D>>
    requires n < |nodes|
  {
    if |nodes[n].children| == 0 then WithChildren(nodes, n, k, blank) else nodes
  }

  lemma WithChildWellFormed<D>(nodes: seq<Node<D>>, n: nat, c: int, blank: D)
    requires WellFormed(nodes) && n < |nodes|
    ensures WellFormed(WithChild(nodes, n, c, blank))
  {
    var r := WithChild(nodes, n, c, blank);
    forall i | 0 < i < |r| ensures ParentLinked(r, i) {
      if i < |nodes| {
        assert ParentLinked(nodes, i);
      } else {
        assert r[n].children[|r[n].children| - 1] == i;
      }
    }
    forall i, k | 0 <= i < |r| && 0 <= k < |r[i].children| ensures ChildLinked(r, i, r[i].children[k]) {
      if i != n || k < |nodes[n].children| {
        assert ChildLinked(nodes, i, nodes[i].children[k]);
      }
    }
  }

  /** What `k` calls of `add_child` on n do: n gains the k new nodes as its last children,
      the new nodes hold the symbols 0..k-1 in order one level below n, nothing else changes. */
  lemma {:induction false} WithChildrenShape<D>(nodes: seq<Node<D>>, n: nat, k: nat, blank: D)
    requires n < |nodes|
    ensures var r := WithChildren(nodes, n, k, blank);
      && r[n] == nodes[n].(children := nodes[n].children + seq(k, j => |nodes| + j))
      && (forall m :: 0 <= m < |nodes| && m != n ==> r[m] == nodes[m])
      && (forall m :: |nodes| <= m < |r| ==> r[m] == Node(m - |nodes|, Some(n), [], nodes[n].depth + 1, blank))
      && (WellFormed(nodes) ==> WellFormed(r))
  {
    if k > 0 {
      WithChildrenShape(nodes, n, k - 1, blank);
      var prev := WithChildren(nodes, n, k - 1, blank);
      assert nodes[n].children + seq(k, j => |nodes| + j)
          == nodes[n].children + seq(k - 1, j => |nodes| + j) + [|nodes| + k - 1];
      if WellFormed(nodes) {
        WithChildWellFormed(prev, n, k - 1, blank);
      }
    }
  }

  /** `expand` is idempotent: expanding an expanded node changes nothing. */
  lemma ExpandIdempotent<D>(nodes: seq<Node<D>>, n: nat, k: nat, blank: D)
    requires n < |nodes|
    ensures n < |Expanded(nodes, n, k, blank)|
    ensures Expanded(Expanded(nodes, n, k, blank), n, k, blank) == Expanded(nodes, n, k, blank)
  {
  }

  /** The ancestor of n at depth d (n itself when d is n's depth). */
  ghost function Ancestor<D>(nodes: seq<Node<D>>, n: nat, d: nat): (a: nat)
    requires WellFormed(nodes) && n < |nodes| && d <= nodes[n].depth
    ensures a <= n && nodes[a].depth == d
    ensures d == 0 ==> a == ROOT
    decreases n
  {
    if nodes[n].depth == d then
      assert n > 0 ==> ParentLinked(nodes, n);
      n
    else
      assert ParentLinked(nodes, n);
      Ancestor(nodes, nodes[n].parent.value, d)
  }

  /** The parent of a node other than the root (the `parent` pointer, never null there). */
  function ParentIndex<D>(nodes: seq<Node<D>>, n: nat): (p: nat)
    requires WellFormed(nodes) && 0 < n < |nodes|
    ensures p < n && nodes[n].parent == Some(p)
  {
    assert ParentLinked(nodes, n);
    nodes[n].parent.value
  }

  /** The character `get_label` emits for symbol index i: alphabet[i], and the string
      terminator NUL at i == |alphabet|, the root's sentinel index. */
  function LabelChar(alphabet: string, i: int): char {
    if 0 <= i < |alphabet| then alphabet[i] else NUL
  }

  /** Every node from n up to the root has a symbol index that `alphabet[...]` may read. */
  ghost predicate Indexable<D>(nodes: seq<Node<D>>, alphabetLength: nat, n: nat)
    requires n < |nodes|
    decreases n
  {
    && 0 <= nodes[n].last <= alphabetLength
    && match nodes[n].parent
       case None => true
       case Some(p) => p < n && Indexable(nodes, alphabetLength, p)
  }

  /** The label of the path from the root down to n, one character per node. */
  ghost function PathLabel<D>(nodes: seq<Node<D>>, alphabet: string, n: nat): string
    requires WellFormed(nodes) && n < |nodes|
    decreases n
  {
    match nodes[n].parent
    case None => [LabelChar(alphabet, nodes[n].last)]
    case Some(p) =>
      assert ParentLinked(nodes, n);
      PathLabel(nodes, alphabet, p) + [LabelChar(alphabet, nodes[n].last)]
  }

  /** The label of n has one character per node on its root path, the character of the
      ancestor at depth d in position d; so the root's character comes first. */
  lemma {:induction false} PathLabelAt<D>(nodes: seq<Node<D>>, alphabet: string, n: nat)
    requires WellFormed(nodes) && n < |nodes|
    ensures |PathLabel(nodes, alphabet, n)| == nodes[n].depth + 1
    ensures forall d :: 0 <= d <= nodes[n].depth ==>
      PathLabel(nodes, alphabet, n)[d] == LabelChar(alphabet, nodes[Ancestor(nodes, n, d)].last)
    decreases n
  {
    assert n > 0 ==> ParentLinked(nodes, n);
    match nodes[n].parent
    case None =>
    case Some(p) =>
      PathLabelAt(nodes, alphabet, p);
      forall d | 0 <= d <= nodes[n].depth
        ensures PathLabel(nodes, alphabet, n)[d] == LabelChar(alphabet, nodes[Ancestor(nodes, n, d)].last)
      {
        if d < nodes[n].depth {
          assert Ancestor(nodes, n, d) == Ancestor(nodes, p, d);
        }
      }
  }

  /** Labels depend only on the symbol indices and parent links: an arena that keeps
      those for its first nodes keeps those nodes' labels. */
  lemma {:induction false} PathLabelStable<D>(nodes: seq<Node<D>>, r: seq<Node<D>>, alphabet: string, m: nat)
    requires WellFormed(nodes) && WellFormed(r) && m < |nodes| <= |r|
    requires forall i :: 0 <= i < |nodes| ==> r[i].last == nodes[i].last && r[i].parent == nodes[i].parent
    ensures PathLabel(r, alphabet, m) == PathLabel(nodes, alphabet, m)
    decreases m
  {
    assert m > 0 ==> ParentLinked(nodes, m);
    match nodes[m].parent
    case None =>
    case Some(p) =>
      PathLabelStable(nodes, r, alphabet, p);
  }

  /** `expand` followed by `get_label`: the label of the j-th new child of n is n's label
      followed by the character of symbol j. */
  lemma ExpandedLabel<D>(nodes: seq<Node<D>>, alphabet: string, n: nat, k: nat, blank: D)
    requires WellFormed(nodes) && n < |nodes| && |nodes[n].children| == 0
    ensures var r := Expanded(nodes, n, k, blank);
      && WellFormed(r) && |r| == |nodes| + k
      && forall m :: |nodes| <= m < |r| ==>
           PathLabel(r, alphabet, m) == PathLabel(nodes, alphabet, n) + [LabelChar(alphabet, m - |nodes|)]
  {
    var r := Expanded(nodes, n, k, blank);
    WithChildrenShape(nodes, n, k, blank);
    forall m | |nodes| <= m < |r|
      ensures PathLabel(r, alphabet, m) == PathLabel(nodes, alphabet, n) + [LabelChar(alphabet, m - |nodes|)]
    {
      PathLabelStable(nodes, r, alphabet, n);
    }
  }

  /** The tree part of a decoder's prefix tree: the alphabet, the arena and the payload
      a freshly added node starts with. */
  class PrefixTree<D> {
    const alphabet: string
    const blank: D
    var nodes: seq<Node<D>>

    ghost predicate Valid()
      reads this
    {
      WellFormed(nodes)
    }

    /** The root holds the symbol index `alphabet.length()` (the gap/flip-flop sentinel)
        and every other node one of the alphabet's own indices. */
    ghost predicate SymbolsInAlphabet()
      reads this
    {
      && |nodes| > 0
      && nodes[ROOT].last == |alphabet|
      && forall i :: 0 < i < |nodes| ==> 0 <= nodes[i].last < |alphabet|
    }

    constructor (a: string, rootLast: int, rootData: D, blank: D)
      ensures Valid()
      ensures alphabet == a && this.blank == blank
      ensures nodes == [Node(rootLast, None, [], 0, rootData)]
    {
      alphabet := a;
      this.blank := blank;
      nodes := [Node(rootLast, None, [], 0, rootData)];
    }

    /** `Node::add_child(c)` on node n. */
    method AddChild(n: nat, c: int) returns (child: nat)
      requires Valid() && n < |nodes|
      modifies this
      ensures Valid()
      ensures nodes == WithChild(old(nodes), n, c, blank)
      ensures child == old(|nodes|) && |nodes| == child + 1
      ensures nodes[child] == Node(c, Some(n), [], old(nodes[n].depth) + 1, blank)
      ensures nodes[n].children == old(nodes[n].children) + [child]
      ensures forall m :: 0 <= m < child && m != n ==> nodes[m] == old(nodes[m])
      ensures old(SymbolsInAlphabet()) && 0 <= c < |alphabet| ==> SymbolsInAlphabet()
    {
      WithChildWellFormed(nodes, n, c, blank);
      child := |nodes|;
      var node := Node(c, Some(n), [], nodes[n].depth + 1, blank);
      nodes := nodes[n := nodes[n].(children := nodes[n].children + [child])];
      nodes := nodes + [node];
    }

    /** `PrefixTree::expand(n)`: a childless node gets one child per alphabet symbol,
        in alphabet order; a node that has children keeps them. Returns n's children. */
    method Expand(n: nat) returns (kids: seq<nat>)
      requires Valid() && n < |nodes|
      modifies this
      ensures Valid()
      ensures nodes == Expanded(old(nodes), n, |alphabet|, blank)
      ensures kids == nodes[n].children
      ensures old(nodes[n].children) != [] ==> nodes == old(nodes)
      ensures old(nodes[n].children) == [] ==>
        && |nodes| == old(|nodes|) + |alphabet|
        && kids == seq(|alphabet|, j => old(|nodes|) + j)
        && (forall m :: old(|nodes|) <= m < |nodes| ==>
              nodes[m] == Node(m - old(|nodes|), Some(n), [], old(nodes[n].depth) + 1, blank))
        && (forall m :: 0 <= m < old(|nodes|) && m != n ==> nodes[m] == old(nodes[m]))
      ensures old(SymbolsInAlphabet()) ==> SymbolsInAlphabet()
    {
      if |nodes[n].children| == 0 {
        for i := 0 to |alphabet|
          invariant Valid()
          invariant nodes == WithChildren(old(nodes), n, i, blank)
          invariant old(SymbolsInAlphabet()) ==> SymbolsInAlphabet()
        {
          var _ := AddChild(n, i);
        }
        WithChildrenShape(old(nodes), n, |alphabet|, blank);
      }
      kids := nodes[n].children;
    }

    /** `PrefixTree::get_label(n)`: walks from n up to the root, prepending each node's
        character, so the result starts with the root's character (NUL, since the root's
        index is `alphabet.length()`) and ends with n's. */
    method GetLabel(n: nat) returns (text: string)
      requires Valid() && n < |nodes| && Indexable(nodes, |alphabet|, n)
      ensures text == PathLabel(nodes, alphabet, n)
      ensures |text| == nodes[n].depth + 1
      ensures forall d :: 0 <= d <= nodes[n].depth ==>
        text[d] == LabelChar(alphabet, nodes[Ancestor(nodes, n, d)].last)
      ensures text[0] == LabelChar(alphabet, nodes[ROOT].last)
      ensures nodes[ROOT].last == |alphabet| ==> text[0] == NUL
      ensures text[|text| - 1] == LabelChar(alphabet, nodes[n].last)
    {
      text := "";
      var prefix: Option<nat> := Some(n);
      while prefix.Some?
        invariant prefix.Some? ==> prefix.value < |nodes| && Indexable(nodes, |alphabet|, prefix.value)
        invariant prefix.Some? ==> PathLabel(nodes, alphabet, n) == PathLabel(nodes, alphabet, prefix.value) + text
        invariant prefix.None? ==> text == PathLabel(nodes, alphabet, n)
        decreases if prefix.Some? then prefix.value + 1 else 0
      {
        var p := prefix.value;
        assert p > 0 ==> ParentLinked(nodes, p);
        text := [LabelChar(alphabet, nodes[p].last)] + text;
        prefix := nodes[p].parent;
      }
      PathLabelAt(nodes, alphabet, n);
    }

    /** Overwrites node n's payload in place; the tree's shape is untouched. */
    method SetData(n: nat, d: D)
      requires Valid() && n < |nodes|
      modifies this
      ensures Valid()
      ensures nodes == old(nodes)[n := old(nodes[n]).(data := d)]
      ensures old(SymbolsInAlphabet()) ==> SymbolsInAlphabet()
    {
      ghost var before := nodes;
      nodes := nodes[n := nodes[n].(data := d)];
      assert forall i :: 0 < i < |nodes| ==> ParentLinked(before, i) ==> ParentLinked(nodes, i);
      assert forall i, c :: ChildLinked(before, i, c) ==> ChildLinked(nodes, i, c);
    }
  }
}
