# Huffman decode tree — a Dafny model

This project models the decode-tree core of a JPEG decoder: `HuffmanTree::Impl` in
`huffman.cpp`. The model has two halves:

- **Construction.** `Build` takes a table of code lengths and a list of symbols. Entry
  `code_lengths[j]` says how many codes of length `j + 1` there are. `Build` grows a
  binary tree by walking a cursor depth-first, left before right. It gives the
  symbols to leaves in order, and it stamps exhausted nodes with a per-pass `order`
  counter.
- **Decoding.** `Move` feeds the tree one bit. The bit moves the cursor to an inner
  node, or yields the symbol of a leaf and resets the cursor to the root. A missing
  edge is an error.

Layout:

- `wrappers.dfy`: `Option`, `Result` and `Outcome` (a success, or an error).
- `arena.dfy`: the `Node` record and the node arena. Index 0 is the root; the links
  are indices.
  - `Linked` is the link-consistency invariant. A parent always has a smaller index
    than its child, so every upward walk ends.
  - `Depth`, `LeafIndices` and `UsedAtDepth` are the counts the proofs use.
- `construction.dfy`: one iteration of the construction loop as the function `Step`.
  It has the same branches, in the same order, as the C++ loop body. The file also
  has the loop invariants:
  - `Shape`: structure, and the facts termination needs.
  - `Tally`: how many leaves sit at each depth, which symbols they hold, and that
    leaves never get shallower in arena order.
  - `Stamps`: a node stamped in the current pass has both children closed to it.
- `step_proofs.dfy`: every iteration keeps `Shape`, `Tally` and `Stamps` and decreases
  the loop measure.
- `histogram.dfy`: from per-depth counts and the depth order of the leaves to the
  exact code length of each symbol.
- `kraft.dfy`: code space. A node `d` deep covers `2^(n-d)` of the `2^n` codes of
  length `n`. The leaves of a tree cover at most all of it, and all of it when every
  inner node has two children. `KraftSum(c)` is the space a table `c` asks for.
- `building.dfy`: `Walk` iterates `Step` until the loop stops. `BuildSpec` is the whole
  of `Build`. The outcome lemmas cover success, each error, and rebuilding.
- `decoding.dfy`: one `Move` as the function `Advance`, and a run of bits as `Feed`.
  `PathTo` is a node's code. The lemmas read a leaf's code back and characterise
  every bit string that decodes to one symbol.
- `codes.dfy`: what a successful build means to the decoder.
  - The `t`-th symbol gets a code of a length the table asked for, and that code
    decodes to the symbol.
  - No code is a prefix of another.
  - Nothing else decodes to a single symbol.
- `huffman_tree.dfy`: the decoder object as a class, `HuffmanTree`. Its fields are the
  node arena and the cursor. It has the constructor and the imperative `Build`
  (the same `while` loop), `Iterate` (the loop body) and `Move`. Their `ensures`
  tie the new state to `BuildSpec` and `Advance`.
- `scenario.dfy`: a worked table, two codes of length two for the symbols 10 and 20.
  The table is built and then decoded, through the specification and through the
  class.

Error cases are explicit results:

| C++ exception message | Model error |
|---|---|
| "Huffman too big" | `TooBig` |
| "Huffman short" | `Short` |
| "Can't build" | `CantBuild` |
| "Can't move" | `CantMove` |

What a failed call leaves behind, as the code does it:

- **After `Short` or `CantBuild`.** The build stops where the error was found. The
  partially built tree and the cursor stay in place (huffman.cpp:38-40, 72-74). The
  `TooBig` failure comes after the old tree was dropped, so it leaves the bare root
  with the cursor on it (huffman.cpp:21-29).
- **After `CantMove`.** The cursor does not move (huffman.cpp:93-95, 105-107).

## Model

| member | source | states |
|---|---|---|
| Huffman.HuffmanTree.constructor | huffman.cpp:9-12 | A new decoder has a single root node, with no links, unused and unstamped, and the cursor is on it. |
| Huffman.HuffmanTree.Build | huffman.cpp:20-81 | Build drops the old tree but keeps the root, then runs the construction loop. The final arena, cursor and outcome are exactly those of `BuildSpec`, and the decoder invariant still holds. |
| Huffman.HuffmanTree.Iterate | huffman.cpp:36-79 | One pass of the loop body does exactly what `Step` does: the same error (with the tree untouched), or the same next arena, cursor, bucket, depth, symbol index and pass counter. |
| Huffman.HuffmanTree.Move | huffman.cpp:83-110 | A bit either moves the cursor to an inner child (returns false and leaves `value` alone), or reaches a childless child (writes its symbol to `value`, resets the cursor to the root and returns true), or finds no edge (`CantMove`, cursor unchanged). The tree is never changed. |
| Decoding.Advance | huffman.cpp:84-109 | A step into a child lands on a node that exists, whose parent is the old cursor and that has a child itself. |
| Arena.DepthZeroIsRoot | huffman.cpp:68-74 | In a linked arena, only the root has no parent, and only the root is at depth 0. That is why the loop can fail with "Can't build" only at the root. |
| Arena.LeafIndices | huffman.cpp:41-42 | Lists the nodes that hold a symbol, in increasing arena order, with none left out. |
| Building.BuildSpec | huffman.cpp:20-81 | Whatever the outcome, the result is a linked tree whose root keeps the old root's symbol, stamp and `used` flag. Symbols sit only on leaves. The cursor is in the tree, and when it is on the root every non-root leaf holds a symbol. |
| Building.InitialInvariants | huffman.cpp:24-34 | The state before the loop satisfies the three loop invariants `Shape`, `Tally` and `Stamps`. |
| Building.WalkFacts | huffman.cpp:35-80 | What the loop leaves behind. On normal exit the cursor is on the root and every bucket is empty. On `Short` every symbol is used up while codes remain. On `CantBuild` the cursor is stuck at the root, every shorter bucket is empty, the current one is not, every inner node is shallower than the current length, and every node stamped in the pass has both children closed. The loop never reports `TooBig`. |
| Building.BuildEndState | huffman.cpp:20-81 | The state a build that was not refused as too big ends in is sound (linked, root kept, symbols only on leaves, cursor in the tree, and every non-root leaf holding a symbol when the cursor is on the root) and satisfies `Tally`; on success the cursor is on the root with every bucket empty, and on `CantBuild` the walk is blocked as `WalkFacts` describes. |
| Building.BlockedNodeClosed | huffman.cpp:55-74 | When the walk is blocked at the root, every non-root node is closed: it holds a symbol, or it was stamped in the current pass. |
| Building.BlockedIsComplete | huffman.cpp:55-74 | When the walk is blocked at the root, every node holds a symbol or has two children and is shallower than the table is long: the tree has no room left. |
| Building.TallyKraft | huffman.cpp:35-80 | At every point of the loop, the code space the table asks for is the space of the placed leaves plus the space of the codes still owed. The placed leaves never cover more than the whole space, and cover all of it when the tree is full. |
| Building.BuildOrdersCodes | huffman.cpp:35-80 | After a successful build, the leaf holding `values[t]` is `d` deep exactly when `t` lies between the number of codes shorter than `d` and the number of codes of length at most `d`. So each symbol gets the code length the table assigns to its position. |
| Building.BuildFitsCodeSpace | huffman.cpp:35-80 | A table that builds successfully meets the Kraft inequality: the sum over lengths `d` of `code_lengths[d - 1] * 2^(n-d)` is at most `2^n`, where `n` is the table's length. |
| Building.BuildPassesExactlyWhenRealisable | huffman.cpp:20-81 | A table of at most 16 lengths builds successfully exactly when it asks for no more codes than there are values and it meets the Kraft inequality. |
| Building.BuildRejectsLongTables | huffman.cpp:24-29 | Build fails with `TooBig` exactly when the table has more than 16 lengths. The tree is then the bare root, with the cursor on it. |
| Building.BuildPlacesEveryCode | huffman.cpp:35-80 | After a successful build, for every length `d` the tree has exactly `code_lengths[d - 1]` leaves holding symbols at depth `d`, and none at other depths. Leaf `t` in arena order holds `values[t]`, and leaves never get shallower in arena order. At most as many symbols as values are placed. Every childless node other than the root holds a symbol. |
| Building.BuildRunsShortOfSymbols | huffman.cpp:38-40 | On `Short`, the table asks for more codes than there are values, and every value has been placed, in order. Conversely, such a table never builds successfully. |
| Building.BuildFailsAtRoot | huffman.cpp:67-74 | On `CantBuild`, the cursor is on the root and neither child may be entered in the current pass. Every shorter length has all its codes, the current length has fewer than the table asks for, and no length has more. The table breaks the Kraft inequality: its codes need more than the whole code space. |
| Building.RebuildIsIdempotent | huffman.cpp:20-26 | Building again from the root of a built tree, with the same table, gives the same result, because only the root survives the reset. |
| StepProofs.StepKeepsShape | huffman.cpp:35-80 | Every iteration that does not fail keeps the structural invariant. It also strictly decreases the lexicographic measure (codes left, buckets left, room left for new nodes in this pass, i.e. 16 minus the nodes made this pass, nodes not yet stamped, depth left), so the loop terminates. |
| StepProofs.ExploreKeepsShape | huffman.cpp:48-76 | The descend, create-child and climb branches keep the structural invariant within the current pass and make progress. |
| StepProofs.GrowKeepsShape | huffman.cpp:49-63 | Creating a missing child and moving into it keeps the structural invariant. |
| StepProofs.GrowKeepsLinked | huffman.cpp:50-53 | Linking a fresh node below the cursor keeps the arena's parent and child links consistent. |
| StepProofs.DescendKeepsShape | huffman.cpp:55-66 | Entering an open child keeps the structural invariant. |
| StepProofs.AscendKeepsShape | huffman.cpp:67-71 | Stamping the cursor and climbing to its parent keeps the structural invariant. The cursor was not the root. |
| StepProofs.AssignKeepsShape | huffman.cpp:37-47 | Giving the cursor a symbol, returning to the root and starting a new pass keeps the structural invariant. |
| StepProofs.AssignTarget | huffman.cpp:41-42 | The node that receives a symbol is a non-root leaf, created last in the current pass. |
| StepProofs.StepKeepsTally | huffman.cpp:36-79 | Every iteration that does not fail keeps the tally: leaves per depth plus codes left equals the table, the symbols placed so far are the first values, in arena order, and their depths never decrease along that order. |
| StepProofs.StepKeepsStamps | huffman.cpp:36-79 | Every iteration that does not fail keeps the stamps bounded by the pass counter, and keeps both children of every node stamped in the current pass closed (used, or stamped in this pass). A new pass stamps nothing yet. |
| StepProofs.GrowKeepsStamps | huffman.cpp:49-63 | Creating a child and entering it keeps the `Stamps` invariant. |
| StepProofs.AscendKeepsStamps | huffman.cpp:67-71 | The climb stamps the cursor only when both its children are closed, which is why the loop reached that branch. |
| StepProofs.AssignKeepsOrder | huffman.cpp:37-47 | A symbol placed at depth `i + 1` on the last node made keeps every leaf at most `i + 1` deep and keeps leaf depths non-decreasing in arena order. |
| StepProofs.GrowKeepsTally | huffman.cpp:49-63 | Creating a child adds no leaf holding a symbol and changes no symbol. |
| StepProofs.AscendKeepsTally | huffman.cpp:67-71 | Stamping a node changes no leaf and no symbol. |
| StepProofs.AssignKeepsTally | huffman.cpp:41-47 | Placing a symbol adds one leaf at depth `i + 1`, appended after the others, holding `values[index]`. |
| StepProofs.AssignLeaves | huffman.cpp:41-42 | Marking the last node used appends it to the list of symbol-holding leaves. |
| StepProofs.AssignDepthCount | huffman.cpp:41-42 | Marking the last node used adds one to the count at its depth and changes no other count. |
| StepProofs.SumDecrement | huffman.cpp:47 | Decrementing one bucket lowers the total of the code counts by one. |
| Decoding.PathLength | huffman.cpp:83-110 | A node's code is as long as the node is deep. |
| Decoding.ChildBit | huffman.cpp:84-107 | A child's code is its parent's code followed by the bit that selects it: true for the right child. |
| Decoding.FollowPath | huffman.cpp:83-110 | Feeding the code of an inner node from the root brings the cursor to that node and yields nothing, so decoding then continues from there. |
| Decoding.PrefixYieldsNothing | huffman.cpp:83-110 | Every prefix of an inner node's code is accepted without yielding a symbol. |
| Decoding.DecodeLeaf | huffman.cpp:83-110 | Feeding a leaf's code from the root yields exactly that leaf's symbol, on the last bit, and returns the cursor to the root. Every shorter prefix yields nothing. |
| Decoding.PathInjective | huffman.cpp:83-110 | Different nodes have different codes. |
| Decoding.SilentFeedDescends | huffman.cpp:83-110 | Bits that yield no symbol only move the cursor to a later node of the arena. |
| Decoding.FeedToLeaf | huffman.cpp:83-110 | Bits that yield exactly one symbol and end at the root went down to a leaf holding that symbol. |
| Decoding.DecodedIsLeafCode | huffman.cpp:83-110 | If a bit string fed from the root yields exactly one symbol and returns to the root, it is the code of a non-root leaf, and the symbol is that leaf's. |
| Codes.EveryCodeDecodes | huffman.cpp:20-110 | After a successful build, the code of the `t`-th placed symbol is between 1 and the number of table lengths long, and it is `d` bits long exactly when `t` falls among the `code_lengths[d - 1]` positions after the codes shorter than `d`. It decodes from the root to exactly `values[t]`, and no shorter prefix yields anything. |
| Codes.CodesArePrefixFree | huffman.cpp:20-110 | After a successful build, no symbol's code equals or is a prefix of another symbol's code. |
| Codes.OnlyCodesDecode | huffman.cpp:20-110 | After a successful build, a bit string that decodes to a single symbol and returns the cursor to the root is the code of some `values[t]`, and that symbol is `values[t]`. |
| Codes.LeafOfBuiltTree | huffman.cpp:35-80 | In a successfully built tree, a node holds a symbol exactly when it is a childless node other than the root. |
| Arena.UsedIsCounted | huffman.cpp:41-42 | A node that holds a symbol is counted at its own depth. |
| Histogram.PositionsFollowTable | huffman.cpp:35-80 | In a sorted list of depths, none below 1, with `c[d - 1]` entries equal to `d`, position `t` holds `d` exactly when the entries below `d` number at most `t` and those up to `d` exceed it. |
| Histogram.LeafDepthsFollowTable | huffman.cpp:35-80 | Leaves whose depths never decrease in arena order, counted per depth by a table, lie at the depth the table assigns to their position. |
| Kraft.ChildrenCoverNonRoot | huffman.cpp:35-80 | In a linked arena, the code space of the non-root nodes among the first `m` is the sum, over every node, of the space of its children among those `m`: each is counted once, under its parent. |
| Kraft.UsedCapsFit | huffman.cpp:35-80 | In a linked tree, the symbol-holding leaves no deeper than `n` cover at most the `2^n` codes of length `n`, and all of them when every node is a leaf holding a symbol or has two children shallower than `n`. |
| Kraft.PlacedCodesFit | huffman.cpp:35-80 | The same bound, summed by depth: the sum over `d` of the leaves at depth `d` times `2^(n-d)` is at most `2^n`, with equality for a full tree. |
| Kraft.KraftSplit | huffman.cpp:35-80 | While the table is being spent, the space it asks for is the space of the placed leaves plus the space of the codes still owed. |
| Scenario.TwoCodesOfLengthTwo | huffman.cpp:20-81 | The table `[0, 2]` with symbols `[10, 20]` builds successfully. The root gets one left child, whose left and right children hold 10 and 20, and the cursor ends on the root. |
| Scenario.TraceSteps | huffman.cpp:35-80 | The eight iterations the loop runs on that table, state by state. |
| Scenario.TwoCodesDecode | huffman.cpp:83-110 | In that tree `00` decodes to 10 and `01` to 20. A lone `0` stops at the inner node, and `1` at the root has no edge. |
| Scenario.DecodeTwoCodes | huffman.cpp:83-110 | A fresh decoder built from that table reads 10 and then 20 through `Move`, and rejects a `1` at the root with `CantMove`. |

## Left out

- **`InOrder` and `~Impl` (huffman.cpp:14-18, 130-138).** The C++ code severs every old node's parent link so that `shared_ptr` cycles can be freed. Nodes here are indices into a sequence, with no ownership or reference counts, so this teardown has nothing to do. `Build` simply replaces the arena by the reset root.
- **The pimpl wrapper and the move operations (huffman.cpp:141-158).** They only forward to `Impl` or are defaulted.
- **`fft.cpp`.** It is not part of this model.
- **Exception messages.** They become the error constructors above. After an error, a C++ caller sees no return value; the model returns the error, and `Move`'s `value` is then unchanged.
- **Symbol of a freshly created node.** In C++ it is never initialised; the model uses 0. `Move` can reach such a node only after a failed build, because after a successful build every childless node other than the root holds a symbol (`Building.BuildPlacesEveryCode`).
- **Pointers and aliasing.** `shared_ptr` links become indices, and `current_` becomes an index into the arena. `HuffmanTree.Build` works on the `nodes` sequence field by whole-value updates rather than through aliased node objects.
- **Integer widths.** `size_t` and `int` wrap-around is not modelled. `depth` is at most 16 and `order` at most one more than the number of symbols placed, so neither can wrap.
- Building.BuildOrdersCodes, Codes.EveryCodeDecodes: give each symbol's code length exactly, but not its bit pattern. That the codes come out canonical (each one the previous plus one, shifted left at a new length) would need an invariant relating the left-to-right order of the leaves to the stamps of the whole depth-first walk, which the model does not carry.
- **Thread safety and concurrency.** Out of scope: the code has no synchronisation to model.
