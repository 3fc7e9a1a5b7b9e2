# Prefix trees for CTC prefix search, and the minibatch helper

This project is a Dafny model of two stateful parts of PoreOver, a basecaller that decodes
per-time-step symbol probabilities from a neural network.

**The prefix tree (`decoding/PrefixTree.h`).** Best-first prefix search explores label
prefixes as nodes of a tree. Each node appends one symbol index (`last`) to its parent's
prefix. It also keeps sparse per-time-step forward scores in log space, where a missing
time step reads as -infinity. There are three node kinds:

- `PoreOverNode`: one table and a last-written cursor `max_t`.
- `PoreOverNode2D`: one table and one cursor per read of a read pair.
- `FlipFlopNode`: flip, flop and combined tables.

Each kind has a tree class. Its constructor seeds the root, and its `update_prob` performs one
forward recursion step for a (node, time) pair.

In the model:

- Nodes live in an arena (`seq<Node<D>>`). Index 0 is the root, and a parent pointer is an
  index (`Option<nat>`, None for the root's null parent).
- The generic class `PrefixTrees.PrefixTree<D>` holds the alphabet and the arena. It also holds
  `add_child`, `expand` and `get_label`.
- Each tree kind is a class that owns one such tree. This composition stands in for C++
  inheritance.
- Scores are `Score = NegInf | Fin(real)`. `logaddexp` is a function-valued constructor
  parameter, so the model assumes nothing about it. What is proved is which entries are
  written, read and left alone.

**The root's sentinel symbol.** The root's `last` is `alphabet.length()`, so `get_label`
reads `alphabet[alphabet.length()]` for the root. A C++11 `std::string` yields `'\0'` there.
`LabelChar` returns `NUL` at that index, so every label starts with a NUL character. The label
has `depth + 1` characters.

`GetLabel` requires every `last` on the path to lie in `[0, |alphabet|]` (`Indexable`). Any
other index is undefined behaviour in the source.

**The minibatch helper (`batch.py`).** `pad` right-pads sequences with zeros. `data_helper`
is a cursor (`batch_i`, `epoch`) over data and labels, and `next_batch` returns consecutive
slices. When the data runs out, the epoch wraps in one of two ways:

- With `small_batch`, it returns the short tail.
- Without it, it returns the first `batch_size` items and skips the tail.

Python's slicing is modelled exactly in `PySlice`: negative indices count from the end and
bounds are clamped. So `next_batch` needs no precondition. The cursor invariant holds for
every non-negative batch size.

## Model

| member | source | states |
|---|---|---|
| `Scores.Lookup` | decoding/PrefixTree.h:15 | A sparse table read returns the stored score, or -infinity (`DEFAULT_VALUE`) for a missing key. A finite result implies the key is present. |
| `PrefixTrees.PrefixTree.constructor` | decoding/PrefixTree.h:25-27 | A new tree has one node, the root: no parent, no children, depth 0, and the given symbol index and payload. |
| `PrefixTrees.PrefixTree.AddChild` | decoding/PrefixTree.h:32-38 | Appends exactly one node at the end of the arena with `last == c`, `parent == n` and `depth == depth(n) + 1`. That node goes at the end of n's children. Earlier children and all other nodes are unchanged, and the tree stays well formed. |
| `PrefixTrees.WithChildWellFormed` | decoding/PrefixTree.h:32-38 | Adding a child keeps the arena one tree: parents precede children, depths go up by one per level, and parent and children links agree. |
| `PrefixTrees.WithChildrenShape` | decoding/PrefixTree.h:174-181 | k calls of `add_child(0..k-1)` give n k new last children, the nodes `|nodes|..|nodes|+k-1`. Those nodes hold symbols 0..k-1 in order, one level below n, with no children. Every other node is unchanged and well-formedness is kept. |
| `PrefixTrees.PrefixTree.Expand` | decoding/PrefixTree.h:174-181 | On a childless node, creates `alphabet.length()` children with `last` 0..len-1 in order and returns them. On a node with children, changes nothing and returns its children. |
| `PrefixTrees.ExpandIdempotent` | decoding/PrefixTree.h:174-181 | Expanding an already expanded node leaves the arena as the first expansion left it. |
| `PrefixTrees.Ancestor` | decoding/PrefixTree.h:186-190 | Following parent links from n reaches exactly one node at each depth d <= depth(n). The node at depth 0 is the root. |
| `PrefixTrees.PathLabelAt` | decoding/PrefixTree.h:184-192 | The label of n has one character per node on the root path, `depth(n) + 1` in all. Position d holds the character of the ancestor at depth d, so the root's character comes first. |
| `PrefixTrees.PrefixTree.GetLabel` | decoding/PrefixTree.h:184-192 | The while loop returns that label. Its first character is the root's, which is NUL because the root's index is `alphabet.length()`. Its last character is n's. |
| `PrefixTrees.PathLabelStable` | decoding/PrefixTree.h:184-192 | A label depends only on the symbol indices and parent links on the root path. Appending nodes that leave existing nodes' `last` and `parent` alone does not change any existing node's label. |
| `PrefixTrees.ExpandedLabel` | decoding/PrefixTree.h:174-192 | After `expand` on a childless node n, the tree stays well formed. The j-th new child's `get_label` is n's label followed by the character of symbol j. |
| `PoreOverTree.PoreOverData.ProbabilityAt` | decoding/PrefixTree.h:50-56 | Returns the stored score for a present time and -infinity for a missing one. Reading never inserts. |
| `PoreOverTree.PoreOverData.LastProbability` | decoding/PrefixTree.h:58-60 | Returns the entry at `max_t`. It fails (None) exactly when `at` would throw. |
| `PoreOverTree.PoreOverData.WithProbability` | decoding/PrefixTree.h:62-65 | `set_probability(t, v)` writes key t only and sets `max_t` to t. Afterwards `probability_at(t) == v`, every other time reads as before, and `last_probability() == v`. |
| `PoreOverTree.PoreOverPrefixTree.SetProbability` | decoding/PrefixTree.h:62-65 | Does that write in place on node n. No other node changes. |
| `PoreOverTree.CumulativeBlank` | decoding/PrefixTree.h:206-210 | The seeding loop produces a table with 0 at -1 and the running blank-column sum over y[0..t] at each 0 <= t < t_max. It has no other key. |
| `PoreOverTree.BlankSumNonIncreasing` | decoding/PrefixTree.h:206-210 | When the blank column holds log-probabilities, the seeded root score never increases with t. |
| `PoreOverTree.PoreOverPrefixTree.constructor` | decoding/PrefixTree.h:202-211 | The root has symbol index `gap_char == alphabet.length()` and `max_t == 0`. Its table is exactly the blank-seeded table. |
| `PoreOverTree.PoreOverPrefixTree.UpdateProb` | decoding/PrefixTree.h:213-223 | Writes only key t of node n. The value is `logaddexp(parent@(t-1) + y[t][last], n@(t-1) + y[t][gap])`, with missing entries read as -infinity. All other nodes and n's other times are unchanged. |
| `PoreOverTree2D.PoreOverData2D.ProbabilityAt` | decoding/PrefixTree.h:79-85 | Read i's stored score at t, or -infinity when absent. |
| `PoreOverTree2D.PoreOverData2D.SummedProbabilityAt` | decoding/PrefixTree.h:87-89 | The one-argument `probability_at(t)` equals `joint_probability(t, t)`. |
| `PoreOverTree2D.PoreOverData2D.JointProbability` | decoding/PrefixTree.h:91-93 | Read 0 at u plus read 1 at v in log space. The result is -infinity exactly when either read's score is, and otherwise the sum of the two. |
| `PoreOverTree2D.PoreOverData2D.LastProbability` | decoding/PrefixTree.h:95-102 | The loop sums, starting from 0, each read's entry at its own `last_t`. It fails exactly when one of those entries is missing. |
| `PoreOverTree2D.PoreOverData2D.WithProbability` | decoding/PrefixTree.h:104-107 | Writes only `probability[i][t]` and `last_t[i]`. The other read's table and cursor are untouched. |
| `PoreOverTree2D.PoreOverPrefixTree2D.SetProbability` | decoding/PrefixTree.h:104-107 | Does that write in place on node n. No other node changes. |
| `PoreOverTree2D.PoreOverPrefixTree2D.constructor` | decoding/PrefixTree.h:234-251 | Each read's root table is 0 at -1 plus that read's own running blank sums up to its own `t_max`. Both cursors are 0. |
| `PoreOverTree2D.PoreOverPrefixTree2D.UpdateProb` | decoding/PrefixTree.h:253-266 | Does nothing if (i, t) is present. Otherwise writes only (i, t), from the parent's and n's values at t-1 in read i. The other read is untouched, and (i, t) is present afterwards, so a repeated call is a no-op. |
| `FlipFlopTree.FlipFlopData.ProbabilityAt` | decoding/PrefixTree.h:123-129 | The combined score at t, or -infinity when absent. |
| `FlipFlopTree.FlipFlopData.ProbabilityFlipAt` | decoding/PrefixTree.h:131-137 | The flip-state score at t, or -infinity when absent. |
| `FlipFlopTree.FlipFlopData.ProbabilityFlopAt` | decoding/PrefixTree.h:139-145 | The flop-state score at t, or -infinity when absent. |
| `FlipFlopTree.FlipFlopData.LastProbability` | decoding/PrefixTree.h:147-149 | The combined entry at `max_t`. It fails exactly when `at` would throw. |
| `FlipFlopTree.FlipFlopData.WithProbability` | decoding/PrefixTree.h:151-156 | Stores flip, flop and `logaddexp(flip, flop)` together at t and sets `max_t` to t. Every other time is unchanged in all three tables. |
| `FlipFlopTree.FlipFlopPrefixTree.SetProbability` | decoding/PrefixTree.h:151-156 | Does that write in place on node n. No other node changes. |
| `FlipFlopTree.FlipFlopPrefixTree.constructor` | decoding/PrefixTree.h:276-281 | The root has index `flipflop_size == alphabet.length()` and holds 0 at -1 and log 0.5 in both states at -1, nothing else. Its `last_probability()` therefore fails, since nothing is stored at `max_t == 0`. |
| `FlipFlopTree.FlipFlopPrefixTree.UpdateProb` | decoding/PrefixTree.h:283-298 | Writes only time t of node n. When parent and n hold the same symbol, entering n switches state. Otherwise entering comes from both parent states into flip, and the flop-emission term is -infinity. |
| `Batch.Max` | batch.py:7 | `max(sizes)`: at least every element and equal to one of them. |
| `Batch.Pad` | batch.py:4-11 | Fails exactly on empty data, where `max()` raises. Otherwise `sizes[i] == len(data[i])`, and the matrix has `len(data)` rows and `max(sizes)` columns. Row i equals `data[i]` on columns `[0, sizes[i])` and is zero elsewhere. |
| `Batch.PySlice` | batch.py:40-41 | Python slicing: within bounds it is the plain subsequence, past the end it is the tail, and with an empty range it is empty. |
| `Batch.DataHelper.constructor` | batch.py:18-29 | Stores X, y and the flag, sets `LENGTH = len(X)` and starts with `batch_i == 0` and `epoch == 0`. |
| `Batch.DataHelper.Reset` | batch.py:32-33 | Sets only `batch_i` to 0. `epoch`, X and y are unchanged. |
| `Batch.DataHelper.NextBatch` | batch.py:36-53 | Case `batch_i + batch_size < LENGTH`: returns `X[batch_i:batch_i+batch_size]` and the matching y slice, advances `batch_i` by `batch_size` and keeps `epoch`. Otherwise, with `SMALL_BATCH`: returns the tail, sets `batch_i` to 0 and increments `epoch`. Otherwise, without it: returns the first `batch_size` items, sets `batch_i` to 0 and increments `epoch`. For a non-negative batch size, `0 <= batch_i < LENGTH` (or 0) is kept. |
| `Batch.OneEpoch` | batch.py:37-47 | With `SMALL_BATCH`, the batches from a rewound cursor until the epoch wraps concatenate to exactly X: every item once, in order. |

## Left out

- `poreover/decoding/Log.h` (`log_`, `logaddexp`): floating-point `exp`/`log`. `logaddexp` is a parameter of each tree, and `log(0.5)` is the double literal `LOG_HALF`. Scores are exact reals: rounding, NaN and +infinity are not modelled.
- `node_greater`: a floating-point comparator for the search frontier, not part of the tree's state.
- Memory management and raw pointers: nodes are arena entries, never freed, and a pointer is an index. Node identity is the index, so aliasing between trees is not modelled.
- The `Node(int s, N* p)` constructor: it is not used by the trees, which build nodes only through `add_child`.
- The `get_last`/`get_parent` accessors: they are plain reads of the `last` and `parent` fields.
- `decoding/PairPrefixSearch.h`: it only declares `pair_prefix_search_log`. Its body, `SparseMatrix.h` and `Gamma.h` are not part of this model. The same goes for the forward algorithm, the prefix searches, `remove_gaps` and greedy decoding, whose implementations are not among these files.
- The search loop that drives `expand` and `update_prob` is not part of this model. The trees' operations are modelled one call at a time.
- `__main__.py`, `run_model.py`, `setup.py` and the demo block of `batch.py` (lines 55-91): command-line wiring, TensorFlow I/O, build configuration and printing.
- `Batch.Pad`: elements are reals. numpy's dtype conversion and the always-true length assertion of line 9 (an `assert` in the model) are not modelled further.
- `Batch.DataHelper`: `np.array(X)` copies are modelled as immutable sequences. The multi-dimensional shape of X beyond its first axis is not modelled.
