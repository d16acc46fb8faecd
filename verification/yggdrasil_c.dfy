/** The C extension type `yggdrasil_c.Yggdrasil`, which keeps its entries in
    an internal dictionary: `getitem`, `setitem` (also reached by `del`),
    `add_fiber`, `len` and `print_tree`.

    As for the Python class, trees are values and `Err` stands for the
    exception set when the C function returns NULL or -1. */
module CYggdrasil {
  import opened PathNode
  import opened TreeRender

  /** What `Yggdrasil_setitem` stores directly for an argument that is not a
      list of two or more elements: None and the empty list store None, a
      one-element list stores its element, anything else is stored as it is. */
  function Stored<K>(v: Arg<K>): (s: Slot<K>)
    requires !(v.ListArg? && |v.items| >= 2)
    ensures s.Branch? <==> v.NodeArg?
    ensures s == Leaf(NoneValue) <==> v.NoneArg? || v == ListArg([])
  {
    if v.NoneArg? then Leaf(NoneValue)
    else if v.ListArg? then
      if |v.items| == 0 then Leaf(NoneValue) else Leaf(Atom(v.items[0]))
    else Direct(v)
  }

  /** `Yggdrasil_setitem`: a list of two or more elements reuses or creates
      the subtree at `k` and assigns its tail at its head inside it; every
      other argument is stored directly as `Stored` says. */
  function SetItem<K(==,!new)>(n: Node<K>, k: K, v: Arg<K>): (r: Result<Node<K>>)
    ensures r.Ok? ==> Keys(r.value) == if k in Keys(n) then Keys(n) else Keys(n) + [k]
    ensures r.Ok? ==> forall j :: j != k ==> Lookup(r.value, j) == Lookup(n, j)
    ensures (v.NoneArg? || v == ListArg([])) ==> r.Ok? && Lookup(r.value, k) == Some(Leaf(NoneValue))
    ensures v.ListArg? && |v.items| == 1 ==> r.Ok? && Lookup(r.value, k) == Some(Leaf(Atom(v.items[0])))
    ensures v.AtomArg? || v.NodeArg? ==> r.Ok? && Lookup(r.value, k) == Some(Direct(v))
    ensures r.Err? ==> r.error == LeafInTheWay && v.ListArg? && |v.items| >= 2 && k in Keys(n)
    ensures r.Ok? && WellFormed(n) && (v.NodeArg? ==> WellFormed(v.node)) ==> WellFormed(r.value)
    decreases ListLength(v)
  {
    if !(v.ListArg? && |v.items| >= 2) then Ok(Put(n, k, Stored(v)))
    else
      var n1 := if Contains(n, k) then n else Put(n, k, Branch(Empty()));
      match Lookup(n1, k)
      case Some(Branch(c)) =>
        LookupWellFormed(n1, k);
        Attach(n1, k, SetItem(c, v.items[0], ListArg(v.items[1..])))
      case _ => Err(LeafInTheWay)
  }

  /** `del tree[k]`: the mapping slot is called with no value, which the
      assignment treats like None, so the key stays (or is added) with a None
      leaf instead of being removed. */
  function DelItem<K(==,!new)>(n: Node<K>, k: K): (r: Node<K>)
    ensures k in Keys(r)
    ensures Keys(r) == if k in Keys(n) then Keys(n) else Keys(n) + [k]
    ensures Lookup(r, k) == Some(Leaf(NoneValue))
    ensures forall j :: j != k ==> Lookup(r, j) == Lookup(n, j)
  {
    Put(n, k, Leaf(NoneValue))
  }

  /** `Yggdrasil_getitem`: a present key returns its slot unchanged; a missing
      key gets a new empty tree stored directly in the dictionary, and that
      tree is returned. */
  function GetItem<K(==,!new)>(n: Node<K>, k: K): (r: (Node<K>, Slot<K>))
    ensures k in Keys(n) ==> r.0 == n && Lookup(n, k) == Some(r.1)
    ensures k !in Keys(n) ==> r.1 == Branch(Empty()) && Keys(r.0) == Keys(n) + [k]
    ensures Lookup(r.0, k) == Some(r.1)
    ensures forall j :: j != k ==> Lookup(r.0, j) == Lookup(n, j)
    ensures WellFormed(n) ==> WellFormed(r.0)
  {
    if Contains(n, k) then (n, Lookup(n, k).value)
    else (Put(n, k, Branch(Empty())), Branch(Empty()))
  }

  /** `Yggdrasil_add_fiber`: a non-list is a TypeError, the empty list does
      nothing, anything else assigns a copy of the tail at the first element. */
  function AddFiber<K(==,!new)>(n: Node<K>, fiber: Arg<K>): (r: Result<Node<K>>)
    ensures !fiber.ListArg? ==> r == Err(FiberNotAList)
    ensures fiber == ListArg([]) ==> r == Ok(n)
    ensures fiber.ListArg? && |fiber.items| > 0 && r.Ok? ==>
              Keys(r.value) == if fiber.items[0] in Keys(n) then Keys(n) else Keys(n) + [fiber.items[0]]
    ensures r.Ok? && WellFormed(n) ==> WellFormed(r.value)
  {
    if !fiber.ListArg? then Err(FiberNotAList)
    else if |fiber.items| == 0 then Ok(n)
    else SetItem(n, fiber.items[0], ListArg(fiber.items[1..]))
  }

  /** One level of assigning a list of two or more elements: through a key
      that does not hold a leaf, the subtree at `k` is rebuilt from the
      assignment of the tail at the head. */
  lemma SetItemStep<K(!new)>(n: Node<K>, k: K, items: seq<K>)
    requires |items| >= 2 && !(Lookup(n, k).Some? && Lookup(n, k).value.Leaf?)
    ensures SetItem(n, k, ListArg(items)) == Attach(n, k, SetItem(ChildOrEmpty(n, k), items[0], ListArg(items[1..])))
  {
    if !Contains(n, k) {
      AttachAfterPut(n, k, Branch(Empty()), SetItem(Empty(), items[0], ListArg(items[1..])));
    }
  }

  /** Assigning a non-empty list is the insertion walk along the key and all
      but the last list element, storing the last element as a leaf. */
  lemma {:induction false} SetItemIsInsertPath<K(!new)>(n: Node<K>, k: K, items: seq<K>)
    requires |items| >= 1
    ensures SetItem(n, k, ListArg(items)) == InsertPath(n, [k] + items[..|items| - 1], Leaf(Atom(items[|items| - 1])))
    decreases |items|
  {
    var path := [k] + items[..|items| - 1];
    if |items| == 1 {
      assert path == [k];
    } else {
      ListPathTail(k, items);
      var found := Lookup(n, k);
      if !(found.Some? && found.value.Leaf?) {
        var c := ChildOrEmpty(n, k);
        SetItemStep(n, k, items);
        SetItemIsInsertPath(c, items[0], items[1..]);
        InsertPathStep(n, path, Leaf(Atom(items[|items| - 1])));
      }
    }
  }

  /** A list of two or more elements is assigned at its first element, which
      is the insertion walk along all elements but the last. */
  lemma AddFiberIsInsertPath<K(!new)>(n: Node<K>, fiber: seq<K>)
    requires |fiber| >= 2
    ensures AddFiber(n, ListArg(fiber)) == InsertPath(n, fiber[..|fiber| - 1], Leaf(Atom(fiber[|fiber| - 1])))
  {
    var k, rest := fiber[0], fiber[1..];
    assert AddFiber(n, ListArg(fiber)) == SetItem(n, k, ListArg(rest));
    assert SetItem(n, k, ListArg(rest)) == InsertPath(n, [k] + rest[..|rest| - 1], Leaf(Atom(rest[|rest| - 1]))) by {
      SetItemIsInsertPath(n, k, rest);
    }
    assert [k] + rest[..|rest| - 1] == fiber[..|fiber| - 1];
    assert rest[|rest| - 1] == fiber[|fiber| - 1];
  }

  /** The outcome of `add_fiber` on a list of every length: the empty list
      leaves the tree as it is, a one-element list stores None at its key,
      and a longer list is the insertion walk along all elements but the last. */
  lemma AddFiberCases<K(!new)>(n: Node<K>, fiber: seq<K>)
    ensures |fiber| == 0 ==> AddFiber(n, ListArg(fiber)) == Ok(n)
    ensures |fiber| == 1 ==> AddFiber(n, ListArg(fiber)) == Ok(Put(n, fiber[0], Leaf(NoneValue)))
    ensures |fiber| >= 2 ==>
              AddFiber(n, ListArg(fiber)) == InsertPath(n, fiber[..|fiber| - 1], Leaf(Atom(fiber[|fiber| - 1])))
  {
    if |fiber| == 1 {
      assert fiber[1..] == [];
    } else if |fiber| >= 2 {
      AddFiberIsInsertPath(n, fiber);
    }
  }

  /** A sequence without repetitions has as many distinct elements as entries. */
  lemma {:induction false} DistinctCount<K>(ks: seq<K>)
    requires forall i, j :: 0 <= i < j < |ks| ==> ks[i] != ks[j]
    ensures |set k | k in ks| == |ks|
  {
    if ks != [] {
      DistinctCount(ks[1..]);
      assert (set k | k in ks) == {ks[0]} + (set k | k in ks[1..]);
    }
  }

  /** `Yggdrasil_len`: the size of the internal dictionary. */
  function Len<K>(n: Node<K>): nat
  {
    |n.entries|
  }

  /** `len(tree)` counts the keys at the root level only, not those of the
      subtrees; in a tree with distinct keys it is the number of different
      root keys. */
  lemma LenCountsRootKeys<K(!new)>(n: Node<K>)
    ensures Len(n) == |Keys(n)|
    ensures DistinctKeys(n) ==> Len(n) == |set k | k in Keys(n)|
  {
    if DistinctKeys(n) {
      DistinctCount(Keys(n));
    }
  }

  /** The C renderer's ASCII connectors. */
  const CStyle: Style := Style("|-- ", "+-- ", "|   ", "    ", "+-- ")

  /** `Yggdrasil_print_tree(prefix, is_root)`, returning the printed lines;
      `show` is `str()` on keys and atoms. */
  function PrintTree<K>(n: Node<K>, show: K -> string, prefix: string, isRoot: bool): (lines: seq<string>)
    ensures isRoot && |n.entries| == 0 ==> lines == ["Empty tree"]
    ensures !(isRoot && |n.entries| == 0) ==> |lines| == KeysBelow(n, 0) + ShownLeavesBelow(n, 0)
    ensures !(isRoot && |n.entries| == 0) ==> forall j :: 0 <= j < |lines| ==> prefix <= lines[j]
    ensures |n.entries| > 0 ==>
              lines[0] == prefix + (if |n.entries| == 1 then "+-- " else "|-- ") + show(n.entries[0].0)
  {
    RenderFromLength(CStyle, show, n, 0, prefix);
    RenderFromPrefix(CStyle, show, n, 0, prefix);
    Render(CStyle, show, n, prefix, isRoot)
  }

  /** Entry `i`'s key line: it opens the entry's block at the entry's offset,
      uses the `+-- ` connector only for the last key, and every later
      entry's block starts after this one ends, so key lines appear in key
      order. */
  lemma PrintTreeKeyLine<K>(n: Node<K>, show: K -> string, prefix: string, isRoot: bool, i: nat)
    requires i < |n.entries|
    ensures Offset(n, i) + EntryLineCount(n, i) <= |PrintTree(n, show, prefix, isRoot)|
    ensures PrintTree(n, show, prefix, isRoot)[Offset(n, i)]
            == prefix + (if i == |n.entries| - 1 then "+-- " else "|-- ") + show(n.entries[i].0)
    ensures forall k :: i < k < |n.entries| ==> Offset(n, i) + EntryLineCount(n, i) <= Offset(n, k)
  {
    EntryLayout(CStyle, show, n, i, prefix);
    forall k | i < k < |n.entries|
      ensures Offset(n, i) + EntryLineCount(n, i) <= Offset(n, k)
    {
      OffsetGrows(n, i, k);
    }
  }

  /** The lines of entry `i`'s block after its key line: all of them carry
      the prefix extended by four blanks or by `|   ` (the latter unless the
      key is the last); a shown leaf contributes one `+-- ` line with the
      value; a subtree contributes its own rendering under the extended
      prefix. */
  lemma PrintTreeEntryBody<K>(n: Node<K>, show: K -> string, prefix: string, isRoot: bool, i: nat)
    requires i < |n.entries|
    ensures forall j :: Offset(n, i) < j < Offset(n, i) + EntryLineCount(n, i) <= |PrintTree(n, show, prefix, isRoot)| ==>
              prefix + (if i == |n.entries| - 1 then "    " else "|   ") <= PrintTree(n, show, prefix, isRoot)[j]
    ensures n.entries[i].1.Leaf? && !n.entries[i].1.leaf.NoneValue? ==>
              && Offset(n, i) + 2 <= |PrintTree(n, show, prefix, isRoot)|
              && PrintTree(n, show, prefix, isRoot)[Offset(n, i) + 1]
                 == prefix + (if i == |n.entries| - 1 then "    " else "|   ") + "+-- " + ShowValue(show, n.entries[i].1.leaf)
    ensures n.entries[i].1.Branch? ==>
              && Offset(n, i) + EntryLineCount(n, i) <= |PrintTree(n, show, prefix, isRoot)|
              && PrintTree(n, show, prefix, isRoot)[Offset(n, i) + 1 .. Offset(n, i) + EntryLineCount(n, i)]
                 == PrintTree(n.entries[i].1.child, show, prefix + (if i == |n.entries| - 1 then "    " else "|   "), false)
  {
    EntryLayout(CStyle, show, n, i, prefix);
    forall j | Offset(n, i) < j < Offset(n, i) + EntryLineCount(n, i) <= |PrintTree(n, show, prefix, isRoot)|
      ensures prefix + (if i == |n.entries| - 1 then "    " else "|   ") <= PrintTree(n, show, prefix, isRoot)[j]
    {
      EntryBodyLine(CStyle, show, n, i, prefix, j);
    }
  }
}
