/** The pure-Python `Yggdrasil(dict)` class: autovivifying reads, list
    decomposition on assignment, `add_fiber` and `print_tree`.

    A tree is a value here: every operation returns the new root instead of
    mutating it, and an `Err` result means the exception was raised.  When the
    source raises, it has not mutated anything yet (a failure is only reached
    through keys that were already present), so the caller's tree is the tree
    after the failed call. */
module PyYggdrasil {
  import opened PathNode
  import opened TreeRender

  /** `tree[k] = v`.  A non-list or an empty list is stored as it is.  For a
      non-empty list, a missing key first gets an empty subtree; then a
      one-element list is re-assigned as its single element at `k`, and a
      longer one assigns its tail at its head inside the subtree at `k`. */
  function SetItem<K(==,!new)>(n: Node<K>, k: K, v: Arg<K>): (r: Result<Node<K>>)
    ensures r.Ok? ==> Keys(r.value) == if k in Keys(n) then Keys(n) else Keys(n) + [k]
    ensures r.Ok? ==> forall j :: j != k ==> Lookup(r.value, j) == Lookup(n, j)
    ensures !v.ListArg? ==> r.Ok? && Lookup(r.value, k) == Some(Direct(v))
    ensures v == ListArg([]) ==> r.Ok? && Lookup(r.value, k) == Some(Leaf(EmptyList))
    ensures r.Err? ==> r.error == LeafInTheWay && v.ListArg? && |v.items| >= 2 && k in Keys(n)
    ensures r.Ok? && WellFormed(n) && (v.NodeArg? ==> WellFormed(v.node)) ==> WellFormed(r.value)
    decreases ListLength(v)
  {
    if !v.ListArg? then Ok(Put(n, k, Direct(v)))
    else if |v.items| == 0 then Ok(Put(n, k, Leaf(EmptyList)))
    else
      var n1 := if Contains(n, k) then n else Put(n, k, Branch(Empty()));
      if |v.items| == 1 then SetItem(n1, k, AtomArg(v.items[0]))
      else
        match Lookup(n1, k)
        case Some(Branch(c)) =>
          LookupWellFormed(n1, k);
          Attach(n1, k, SetItem(c, v.items[0], ListArg(v.items[1..])))
        case _ => Err(LeafInTheWay)
  }

  /** `tree[k]`: a missing key is assigned a fresh empty tree (through
      `SetItem`, as the source does) and that tree is returned; a present key
      returns its slot and leaves the tree as it was. */
  function GetItem<K(==,!new)>(n: Node<K>, k: K): (r: (Node<K>, Slot<K>))
    ensures k in Keys(n) ==> r.0 == n && Lookup(n, k) == Some(r.1)
    ensures k !in Keys(n) ==> r.1 == Branch(Empty()) && Keys(r.0) == Keys(n) + [k]
    ensures Lookup(r.0, k) == Some(r.1)
    ensures forall j :: j != k ==> Lookup(r.0, j) == Lookup(n, j)
    ensures WellFormed(n) ==> WellFormed(r.0)
  {
    if Contains(n, k) then (n, Lookup(n, k).value)
    else
      var n1 := SetItem(n, k, NodeArg(Empty())).value;
      (n1, Lookup(n1, k).value)
  }

  /** `tree[k] is tree[k]`: the second read returns the same slot and changes
      nothing. */
  lemma GetItemIdempotent<K(!new)>(n: Node<K>, k: K)
    ensures GetItem(GetItem(n, k).0, k) == GetItem(n, k)
  {
  }

  /** `add_fiber(fiber)`: pop the first element and assign the rest at it. */
  function AddFiber<K(==,!new)>(n: Node<K>, fiber: seq<K>): (r: Result<Node<K>>)
    ensures |fiber| == 0 <==> r == Err(EmptyFiber)
    ensures r.Err? && |fiber| > 0 ==> r.error == LeafInTheWay
    ensures r.Ok? && WellFormed(n) ==> WellFormed(r.value)
  {
    if |fiber| == 0 then Err(EmptyFiber)
    else SetItem(n, fiber[0], ListArg(fiber[1..]))
  }

  /** One level of assigning a list of two or more elements: through a key
      that does not hold a leaf, the subtree at `k` is rebuilt from the
      assignment of the tail at the head. */
  lemma SetItemStep<K(!new)>(n: Node<K>, k: K, items: seq<K>)
    requires |items| >= 2 && !(Lookup(n, k).Some? && Lookup(n, k).value.Leaf?)
    ensures SetItem(n, k, ListArg(items)) == Attach(n, k, SetItem(ChildOrEmpty(n, k), items[0], ListArg(items[1..])))
  {
    if !Contains(n, k) {
      AttachAfterPut(n, k, Branch(Empty()), SetItem(Empty(), items[0], ListArg(items[1..])));
    }
  }

  /** Assigning a non-empty list is the insertion walk along the key and all
      but the last list element, storing the last element as a leaf. */
  lemma {:induction false} SetItemIsInsertPath<K(!new)>(n: Node<K>, k: K, items: seq<K>)
    requires |items| >= 1
    ensures SetItem(n, k, ListArg(items)) == InsertPath(n, [k] + items[..|items| - 1], Leaf(Atom(items[|items| - 1])))
    decreases |items|
  {
    var path := [k] + items[..|items| - 1];
    if |items| == 1 {
      if !Contains(n, k) {
        PutPut(n, k, Branch(Empty()), Leaf(Atom(items[0])));
      }
    } else {
      ListPathTail(k, items);
      var found := Lookup(n, k);
      if !(found.Some? && found.value.Leaf?) {
        var c := ChildOrEmpty(n, k);
        SetItemStep(n, k, items);
        SetItemIsInsertPath(c, items[0], items[1..]);
        InsertPathStep(n, path, Leaf(Atom(items[|items| - 1])));
      }
    }
  }

  /** The outcome of `add_fiber` for every fiber length: the empty fiber
      raises, a one-element fiber stores the empty remainder list as a leaf at
      its key, and a longer fiber is the insertion walk along all elements but
      the last. */
  lemma AddFiberCases<K(!new)>(n: Node<K>, fiber: seq<K>)
    ensures |fiber| == 0 ==> AddFiber(n, fiber) == Err(EmptyFiber)
    ensures |fiber| == 1 ==> AddFiber(n, fiber) == Ok(Put(n, fiber[0], Leaf(EmptyList)))
    ensures |fiber| >= 2 ==> AddFiber(n, fiber) == InsertPath(n, fiber[..|fiber| - 1], Leaf(Atom(fiber[|fiber| - 1])))
  {
    if |fiber| == 1 {
      assert fiber[1..] == [];
    }
    if |fiber| >= 2 {
      SetItemIsInsertPath(n, fiber[0], fiber[1..]);
      assert [fiber[0]] + fiber[1..][..|fiber[1..]| - 1] == fiber[..|fiber| - 1];
    }
  }

  /** A fiber of two or more elements succeeds exactly when no leaf sits on a
      proper prefix of its path; then the path ends at the last element as a
      leaf and every proper prefix of the path is a branch. */
  lemma AddFiberPlacesLeaf<K(!new)>(n: Node<K>, fiber: seq<K>)
    requires |fiber| >= 2
    ensures AddFiber(n, fiber).Ok? <==> !LeafOnPrefix(n, fiber[..|fiber| - 1])
    ensures AddFiber(n, fiber).Ok? ==>
              && Follow(AddFiber(n, fiber).value, fiber[..|fiber| - 1]) == Some(Leaf(Atom(fiber[|fiber| - 1])))
              && forall i :: 1 <= i < |fiber| - 1 ==> BranchAt(AddFiber(n, fiber).value, fiber[..i])
  {
    var path := fiber[..|fiber| - 1];
    var s: Slot<K> := Leaf(Atom(fiber[|fiber| - 1]));
    AddFiberCases(n, fiber);
    InsertPathFailsIffBlocked(n, path, s);
    if AddFiber(n, fiber).Ok? {
      InsertPathReaches(n, path, s);
      forall i | 1 <= i < |fiber| - 1
        ensures BranchAt(AddFiber(n, fiber).value, fiber[..i])
      {
        assert path[..i] == fiber[..i];
      }
    }
  }

  /** A path that diverges from the fiber's path is not affected: leaves
      inserted earlier under a shared prefix survive. */
  lemma AddFiberFrame<K(!new)>(n: Node<K>, fiber: seq<K>, p: seq<K>)
    requires |fiber| >= 2 && AddFiber(n, fiber).Ok?
    requires Diverge(p, fiber[..|fiber| - 1])
    ensures Follow(AddFiber(n, fiber).value, p) == Follow(n, p)
  {
    AddFiberCases(n, fiber);
    InsertPathFrame(n, fiber[..|fiber| - 1], Leaf(Atom(fiber[|fiber| - 1])), p);
  }

  /** Last write wins: a second fiber along the same path gives the tree the
      second fiber alone would have given. */
  lemma AddFiberLastWriteWins<K(!new)>(n: Node<K>, first: seq<K>, second: seq<K>)
    requires |first| >= 2 && |second| == |first|
    requires first[..|first| - 1] == second[..|second| - 1]
    requires AddFiber(n, first).Ok?
    ensures AddFiber(AddFiber(n, first).value, second) == AddFiber(n, second)
  {
    var path := first[..|first| - 1];
    AddFiberCases(n, first);
    AddFiberCases(n, second);
    AddFiberCases(AddFiber(n, first).value, second);
    InsertPathTwice(n, path, Leaf(Atom(first[|first| - 1])), Leaf(Atom(second[|second| - 1])));
  }

  /** The Python renderer's connectors. */
  const PyStyle: Style := Style("├── ", "└── ", "│   ", "    ", "└── ")

  /** `print_tree(prefix, is_root)`, returning the printed lines; `show` is
      `str()` on keys and atoms. */
  function PrintTree<K>(n: Node<K>, show: K -> string, prefix: string, isRoot: bool): (lines: seq<string>)
    ensures isRoot && |n.entries| == 0 ==> lines == ["Empty tree"]
    ensures !(isRoot && |n.entries| == 0) ==> |lines| == KeysBelow(n, 0) + ShownLeavesBelow(n, 0)
    ensures !(isRoot && |n.entries| == 0) ==> forall j :: 0 <= j < |lines| ==> prefix <= lines[j]
    ensures |n.entries| > 0 ==>
              lines[0] == prefix + (if |n.entries| == 1 then "└── " else "├── ") + show(n.entries[0].0)
  {
    RenderFromLength(PyStyle, show, n, 0, prefix);
    RenderFromPrefix(PyStyle, show, n, 0, prefix);
    Render(PyStyle, show, n, prefix, isRoot)
  }

  /** Entry `i`'s key line: it opens the entry's block at the entry's offset,
      uses the elbow only for the last key, and every later entry's block
      starts after this one ends, so key lines appear in key order. */
  lemma PrintTreeKeyLine<K>(n: Node<K>, show: K -> string, prefix: string, isRoot: bool, i: nat)
    requires i < |n.entries|
    ensures Offset(n, i) + EntryLineCount(n, i) <= |PrintTree(n, show, prefix, isRoot)|
    ensures PrintTree(n, show, prefix, isRoot)[Offset(n, i)]
            == prefix + (if i == |n.entries| - 1 then "└── " else "├── ") + show(n.entries[i].0)
    ensures forall k :: i < k < |n.entries| ==> Offset(n, i) + EntryLineCount(n, i) <= Offset(n, k)
  {
    EntryLayout(PyStyle, show, n, i, prefix);
    forall k | i < k < |n.entries|
      ensures Offset(n, i) + EntryLineCount(n, i) <= Offset(n, k)
    {
      OffsetGrows(n, i, k);
    }
  }

  /** The lines of entry `i`'s block after its key line: all of them carry
      the prefix extended by a blank or a vertical bar (a bar unless the key
      is the last); a shown leaf contributes one line with the elbow and the
      value; a subtree contributes its own rendering under the extended
      prefix. */
  lemma PrintTreeEntryBody<K>(n: Node<K>, show: K -> string, prefix: string, isRoot: bool, i: nat)
    requires i < |n.entries|
    ensures forall j :: Offset(n, i) < j < Offset(n, i) + EntryLineCount(n, i) <= |PrintTree(n, show, prefix, isRoot)| ==>
              prefix + (if i == |n.entries| - 1 then "    " else "│   ") <= PrintTree(n, show, prefix, isRoot)[j]
    ensures n.entries[i].1.Leaf? && !n.entries[i].1.leaf.NoneValue? ==>
              && Offset(n, i) + 2 <= |PrintTree(n, show, prefix, isRoot)|
              && PrintTree(n, show, prefix, isRoot)[Offset(n, i) + 1]
                 == prefix + (if i == |n.entries| - 1 then "    " else "│   ") + "└── " + ShowValue(show, n.entries[i].1.leaf)
    ensures n.entries[i].1.Branch? ==>
              && Offset(n, i) + EntryLineCount(n, i) <= |PrintTree(n, show, prefix, isRoot)|
              && PrintTree(n, show, prefix, isRoot)[Offset(n, i) + 1 .. Offset(n, i) + EntryLineCount(n, i)]
                 == PrintTree(n.entries[i].1.child, show, prefix + (if i == |n.entries| - 1 then "    " else "│   "), false)
  {
    EntryLayout(PyStyle, show, n, i, prefix);
    forall j | Offset(n, i) < j < Offset(n, i) + EntryLineCount(n, i) <= |PrintTree(n, show, prefix, isRoot)|
      ensures prefix + (if i == |n.entries| - 1 then "    " else "│   ") <= PrintTree(n, show, prefix, isRoot)[j]
    {
      EntryBodyLine(PyStyle, show, n, i, prefix, j);
    }
  }
}
