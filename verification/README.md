# Yggdrasil path tree in Dafny

Yggdrasil is an autovivifying path tree. It is a dictionary whose values are
either nested trees or leaf values. Reading a missing key creates an empty
subtree under that key. Assigning a list `[a, b, ..., z]` at a key walks down
through `a, b, ...`, creating every missing level, and stores `z` as a leaf.
`add_fiber([k, a, ..., z])` does the same assignment at `k`. `print_tree`
draws the tree like a directory listing.

The repository ships the tree twice:

- a pure-Python `dict` subclass (`yggdrasil.py`);
- a C extension type (`yggdrasil_c.c`) that keeps its entries in an internal
  dictionary.

This project models both versions side by side. It proves what each one does
on its own, and then where the two agree and where they differ.

Modelling choices:

- **Trees are values.** Every operation returns the new root instead of
  mutating in place.
- **Errors.** An `Err` result stands for a raised exception. No model error
  path loses a mutation: the source can only fail below keys that already
  exist, and it only creates levels that nothing can make fail.
- **Entries.** A node's entries are a sequence of `(key, slot)` pairs in
  insertion order. `Put` replaces the slot in place or appends a new pair,
  following `dict` assignment. `print_tree` depends on this order.
- **Slots.** A slot is a `Branch` (a nested tree) or a `Leaf`. A leaf holds
  `None`, an atom or the empty list `[]`.
- **Keys and atoms** are one abstract type with equality. `str()` on them is a
  function parameter.
- **Output.** `print_tree` returns its lines instead of printing them.

Files:

- `path_node.dfy` (module `PathNode`) holds:
  - the data model and the dictionary operations;
  - `InsertPath`, the reference insertion walk: descend along a path, reuse
    branches, create missing levels, fail on a leaf;
  - its properties: where the slot ends up, exactly when the walk fails, what
    it leaves alone, and that the last write wins.
- `tree_render.dfy` (module `TreeRender`) holds the directory-style renderer
  shared by both versions, parameterised by its connector strings.
- `yggdrasil_py.dfy` (module `PyYggdrasil`) models the Python class.
- `yggdrasil_c.dfy` (module `CYggdrasil`) models the C extension.
- `agreement.dfy` (module `Agreement`) relates the two versions.
- `scenarios.dfy` (module `Scenarios`) restates the repository's unit tests
  over concrete integer and string keys. Each one is derived from the general
  lemmas.

Behaviour worth knowing:

- **Fibers shorter than two elements are not rejected.** The model follows the
  code:
  - Python `add_fiber([k])` stores `[]` at `k`;
  - Python `add_fiber([])` raises, from `pop(0)` on an empty list;
  - C `add_fiber([k])` stores `None` at `k`;
  - C `add_fiber([])` does nothing.
- **`del tree[k]` in the C extension.** Deleting reaches `Yggdrasil_setitem`
  with a NULL value, and the C code treats NULL like `None`. So the key stays
  (or is added) with a `None` leaf instead of being removed. This is modelled
  as `CYggdrasil.DelItem`.

## Model

| member | source | states |
|---|---|---|
| PathNode.Lookup | yggdrasil.py:8 | a key is found exactly when it is one of the node's keys, and the slot returned is that key's entry |
| PathNode.Put | yggdrasil.py:12 | dictionary assignment: an existing key keeps its position, a new key is appended at the end, the key then maps to the new slot, every other key maps to what it did before, and distinct keys are preserved at every level |
| PathNode.PutPut | yggdrasil.py:15-22 | storing a placeholder subtree and then overwriting it is the same as storing the final slot directly, so the key keeps the position the placeholder gave it |
| PathNode.InsertPath | yggdrasil.py:15-22 | the insertion walk changes only the first segment's entry at the root, appends it when it is new, keeps every level a proper dictionary, and fails only on a path of two or more segments whose first segment already exists |
| PathNode.InsertPathReaches | yggdrasil.py:15-22 | after a successful walk, following the path leads to the stored slot, and every proper prefix of the path leads to a subtree |
| PathNode.InsertPathFailsIffBlocked | yggdrasil.py:18-20 | the walk fails if and only if some proper prefix of the path already ends at a leaf |
| PathNode.InsertPathFrame | yggdrasil.py:15-20 | every path that is not a prefix of the walked path, and does not have it as a prefix, leads where it led before the walk |
| PathNode.InsertPathTwice | yggdrasil.py:18-22 | walking the same path twice gives the tree that the second walk alone would give, so the last write wins |
| PathNode.InsertPathLevelKeys | yggdrasil.py:15-20 | at every level below the root that the walk passes through, the keys keep their order and the next path segment is appended when it is new; a level the walk creates holds just that segment |
| TreeRender.RenderFromLength | yggdrasil.py:44-62 | the renderer prints one line per key at every level, plus one line per leaf that is not None |
| TreeRender.RenderFromPrefix | yggdrasil.py:49-62 | every line printed below a node starts with that node's prefix |
| TreeRender.RenderKeyLines | yggdrasil.py:44-49 | each key's line opens that entry's block of lines, at the entry's offset, with the prefix, the tee or (for the last key only) the elbow, and the key; the blocks fill the output exactly |
| TreeRender.RenderBodyPrefixes | yggdrasil.py:55-62 | every line of an entry's block after its key line starts with the prefix extended by the pipe, or by the blank for the last key |
| TreeRender.RenderLeafAndBranchLines | yggdrasil.py:55-62 | a shown leaf's value line comes right after its key line, under the extended prefix with the leaf connector; a subtree's block after its key line is that subtree's own rendering under the extended prefix |
| TreeRender.RenderFromAsciified | yggdrasil_c.c:313-370 | rendering with the ASCII connectors under an ASCII prefix gives the box-drawing output with each box character replaced, provided keys and values print no box characters |
| PyYggdrasil.SetItem | yggdrasil.py:10-22 | `tree[k] = v`: a non-list stores its own slot, `[]` stores `[]`, other keys are untouched, `k` is kept or appended, well-formedness is preserved, and the only failure is a list of two or more items whose key already exists |
| PyYggdrasil.GetItem | yggdrasil.py:5-8 | `tree[k]`: a present key returns its slot and leaves the tree unchanged; a missing key is appended with a fresh empty subtree, which is returned; other keys are untouched |
| PyYggdrasil.GetItemIdempotent | yggdrasil.py:5-8 | reading the same key a second time returns the same slot and changes nothing more |
| PyYggdrasil.AddFiber | yggdrasil.py:24-26 | `add_fiber` fails with `EmptyFiber` exactly on the empty fiber; any other failure is a leaf in the way, as in assignment; the tree stays well-formed |
| PyYggdrasil.SetItemIsInsertPath | yggdrasil.py:10-22 | assigning a non-empty list at `k` is the insertion walk along `k` and every list item but the last, which becomes the leaf |
| PyYggdrasil.AddFiberCases | yggdrasil.py:24-26 | the empty fiber raises, a one-element fiber stores `[]` at its key, and a longer fiber is the insertion walk along all its elements but the last |
| PyYggdrasil.AddFiberPlacesLeaf | yggdrasil.py:24-26 | a fiber of two or more elements succeeds exactly when no leaf blocks its path; the last element is then the leaf at the end of the path, and every level above it is a subtree |
| PyYggdrasil.AddFiberFrame | yggdrasil.py:24-26 | adding a fiber leaves every diverging path unchanged, so leaves from earlier fibers under a shared prefix survive |
| PyYggdrasil.AddFiberLastWriteWins | yggdrasil.py:18-22 | a second fiber along the same path as an earlier one gives the tree that the second fiber alone would give |
| PyYggdrasil.PrintTree | yggdrasil.py:28-62 | an empty root prints only `Empty tree`; otherwise there is one line per key and per non-None leaf, every line carries the prefix, and the first line uses `└── ` or `├── ` depending on whether the first key is also the last |
| PyYggdrasil.PrintTreeKeyLine | yggdrasil.py:44-49 | key `i`'s line is `prefix + "└── " + str(key)` for the last key and `prefix + "├── " + str(key)` otherwise; it opens the key's block, and later keys' blocks start after it, so key lines appear in key order |
| PyYggdrasil.PrintTreeEntryBody | yggdrasil.py:55-62 | every further line of key `i`'s block starts with `prefix + "    "` for the last key and `prefix + "│   "` otherwise; a non-None leaf adds the line `next_prefix + "└── " + str(value)`; a subtree adds its own `print_tree(next_prefix, is_root=False)` output |
| CYggdrasil.Stored | yggdrasil_c.c:71-94 | a stored value is a subtree exactly when a tree was assigned, and it is `None` exactly for `None` and the empty list |
| CYggdrasil.SetItem | yggdrasil_c.c:68-143 | `None` and `[]` store `None`, `[x]` stores `x`, a non-list stores itself, other keys are untouched, `k` is kept or appended, well-formedness is preserved, and the only failure is a list of two or more items whose key already exists |
| CYggdrasil.DelItem | yggdrasil_c.c:71-74 | `del tree[k]` leaves `k` in the tree with a `None` leaf, appending it if it was missing, and changes no other key |
| CYggdrasil.GetItem | yggdrasil_c.c:38-66 | `tree[k]`: a present key returns its slot and leaves the tree unchanged; a missing key is appended with a fresh empty subtree, which is returned; other keys are untouched |
| CYggdrasil.AddFiber | yggdrasil_c.c:145-188 | a non-list fiber is a type error, the empty list leaves the tree unchanged, the first element is kept or appended as a root key, and the tree stays well-formed |
| CYggdrasil.SetItemIsInsertPath | yggdrasil_c.c:96-138 | assigning a list of one or more items at `k` is the insertion walk along `k` and every item but the last, which becomes the leaf |
| CYggdrasil.AddFiberCases | yggdrasil_c.c:159-178 | the empty list changes nothing, a one-element list stores `None` at its key, and a longer list is the insertion walk along all its elements but the last |
| CYggdrasil.LenCountsRootKeys | yggdrasil_c.c:388-392 | `len(tree)` is the number of root keys, not counting the keys of subtrees, and equals the number of distinct root keys |
| CYggdrasil.PrintTree | yggdrasil_c.c:286-374 | an empty root prints only `Empty tree`; otherwise there is one line per key and per non-None leaf, every line carries the prefix, and the first line uses the ASCII elbow `+-- ` or the ASCII tee depending on whether the first key is also the last |
| CYggdrasil.PrintTreeKeyLine | yggdrasil_c.c:313-327 | key `i`'s line is `prefix + "+-- " + str(key)` for the last key and `prefix + "|-- " + str(key)` otherwise; it opens the key's block, and later keys' blocks start after it, so key lines appear in key order |
| CYggdrasil.PrintTreeEntryBody | yggdrasil_c.c:337-367 | every further line of key `i`'s block starts with `prefix + "    "` for the last key and `prefix + "|   "` otherwise; a non-None leaf adds the line `next_prefix + "+-- " + str(value)`; a subtree adds its own `print_tree(next_prefix, is_root=False)` output |
| Agreement.SetItemsAgree | yggdrasil_c.c:80-83 | both versions give the same result for every value except the empty list, which Python stores as `[]` and C stores as `None` |
| Agreement.GetItemsAgree | yggdrasil_c.c:50-65 | reading a key gives the same tree and slot in both versions |
| Agreement.AddFiberAgreement | yggdrasil_c.c:159-163 | for each fiber length: equal trees from two elements on; `[]` in Python against `None` in C for one element; an exception in Python against no change in C for none |
| Agreement.AddFibersAgree | test_yggdrasil_c.py:64-89 | loading the same fibers of two or more elements, in the same order, gives the same tree (or the same failure) in both versions |
| Agreement.AddFiberKeepsLeavesDeep | yggdrasil.py:15-26 | a fiber of `m + 1` elements, added to a tree with no leaf above depth `m`, succeeds, stores its last element at the end of its path, and leaves no leaf above depth `m` |
| Agreement.FibersOfOneLengthLoad | yggdrasil.py:24-26 | fibers that all have the same length load in order without error into such a tree, and the result again has no leaf above their depth |
| Agreement.LoadKeepsOtherPaths | yggdrasil.py:15-26 | loading such fibers leaves every path of their depth that none of them writes as it was |
| Agreement.FirstWriteSurvives | yggdrasil.py:18-22 | the first fiber's value can still be read at its path after later fibers that write other paths |
| Agreement.LoadLastWriteAt | yggdrasil.py:18-22 | after loading such fibers, the path of fiber `k` holds fiber `k`'s last element when no later fiber writes the same path |
| Agreement.LoadLastWriteAtStep | yggdrasil.py:24-26 | the read-back claim for fiber `k` reduces to the claim for fiber `k - 1` of the rest, loaded into the tree the first fiber leaves |
| Agreement.StylesCorrespond | yggdrasil_c.c:318 | the C connectors are the Python connectors with each box-drawing character replaced by its ASCII counterpart |
| Agreement.PrintTreesAgree | yggdrasil_c.c:313-370 | the C output is the Python output with every box-drawing character made ASCII, whenever keys and values print none of their own |
| Scenarios.InsertPathIntoEmpty | test_yggdrasil_c.py:45-51 | a walk into an empty tree never fails and builds exactly the chain of single-key levels along the path |
| Scenarios.GetItemCreatesSubtree | test_yggdrasil_c.py:23-27 | `tree[2024]` on an empty tree returns an empty subtree stored under 2024, the same way in both versions |
| Scenarios.SetItemSimpleValue | test_yggdrasil_c.py:29-33 | after `tree["key"] = "value"`, the key holds `"value"` |
| Scenarios.SetItemListValue | test_yggdrasil_c.py:35-43 | `tree["root"] = [1, 2, 3]` builds `root` and then `1` as subtrees, with `3` stored under `2` |
| Scenarios.AddOneFiber | test_yggdrasil_c.py:45-51 | `add_fiber([2024, 2, 8, 10])` builds the chain 2024, 2, 8 holding 10, in both versions |
| Scenarios.ThreeFibers | test_yggdrasil_c.py:53-62 | for any keys: two fibers that part at the third element both succeed, a third fiber along the second one's path overwrites its leaf, the first fiber's leaf survives, and each C `add_fiber` gives the same tree as the Python one |
| Scenarios.MultipleFibers | test_yggdrasil_c.py:53-62 | after the three fibers of the test, `[2024, 2, 8]` holds 10 and `[2024, 2, 9]` holds 15, and each C `add_fiber` gives the same tree as the Python one |
| Scenarios.ComparisonWithPython | test_yggdrasil_c.py:64-89 | the eight fibers of the comparison test load without error, give equal trees in both versions, and the four paths the test reads hold 10, 15, 1000000 and 500 |
| Scenarios.ComparisonShapeLoads | test_yggdrasil_c.py:70-89 | any eight fibers with the comparison test's pattern of shared and differing keys load without error, and the four paths the test reads hold the values of their last writers |
| Scenarios.LastWritesRead | test_yggdrasil_c.py:81-89 | eight four-key fibers load into the empty tree without error, and fibers 0, 2, 3 and 5 can be read back at their paths when no later fiber writes the same path |
| Scenarios.PrintSimpleTree | test_print_tree_c.py:16-28 | the single-fiber tree prints four lines, one per level, in the Python box style and in the C ASCII style |
| Scenarios.PrintEmptyTree | test_print_tree.py:3-7 | an empty tree prints `Empty tree` in both versions |

## Left out

- `add_fibers_parallel` (yggdrasil_c.c:190-284): OpenMP threads and GIL release are concurrency, which this sequential model does not cover.
- Reference counting, `PyArg_ParseTuple` failures and allocation failures in the C code: these are CPython mechanics with no counterpart in a value model.
- The 1024-byte `next_prefix` buffer in the C `print_tree`: prefixes are unbounded here, so the truncation `snprintf` would do past about 250 levels is not modelled.
- The Python `pop(0)` on the caller's list: the caller's list is left unmodelled, so is the aliasing through which `add_fiber` and `__setitem__` empty it. The C version copies the list and leaves the caller's list intact.
- Leaves that accept item assignment: an atom stands for a value without a usable `__setitem__` (a number, a string), and the stored `[]` rejects every index, so descending into any modelled leaf is one error, `LeafInTheWay`, where the source raises AttributeError, TypeError or IndexError. A stored object that does accept item assignment, such as a plain `dict`, would take the rest of the list as its value in both versions; such leaves are not modelled.
- Hashing and key types: keys are an abstract type with equality, and unhashable keys are not modelled.
- `None` and nested lists as fiber elements: atoms are non-None, non-list values, so a fiber element is never itself a list.
- Python `add_fiber` on a non-list argument: the model takes the fiber as a sequence. The C type check is modelled (`FiberNotAList`).
- `repr` and `str` of trees (yggdrasil_c.c:376-386) and the module's example run (yggdrasil.py:65-70): output formatting outside the core.
- `str()` of keys and values is a parameter `show`. The concrete `Scenarios.Show` writes integers in decimal.
- PyYggdrasil.PrintTree: its own contract states the empty tree, the line count, the prefix on every line and the first line; the rest of the line layout is stated entry by entry in PyYggdrasil.PrintTreeKeyLine and PyYggdrasil.PrintTreeEntryBody.
- CYggdrasil.PrintTree: its own contract states the empty tree, the line count, the prefix on every line and the first line; the rest of the line layout is stated entry by entry in CYggdrasil.PrintTreeKeyLine and CYggdrasil.PrintTreeEntryBody.
- PyYggdrasil.GetItemIdempotent: stated only for the model's reads of a slot. Identity (`is`) of the returned Python object is not modelled.
- PathNode.InsertPathFrame, PyYggdrasil.AddFiberFrame: these hold for trees as values, that is, trees in which no subtree object is shared between two places, which covers every tree built by assignment, `add_fiber` and reads. In the source, one tree object assigned under two keys is changed at both places by a write below either, and a write through a returned subtree (`tree[a][b] = v`) changes the tree that holds it; in the model a returned subtree is a copy, and neither kind of sharing is modelled.
- CYggdrasil.LenCountsRootKeys: relates the count to distinct keys only for trees whose root keys are distinct, which every tree built by these operations is.
