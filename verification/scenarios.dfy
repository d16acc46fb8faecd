/** The scenarios of the repository's unit tests, stated over concrete keys
    and derived from the general lemmas of the model. */
module Scenarios {
  import opened PathNode
  import opened TreeRender
  import Py = PyYggdrasil
  import C = CYggdrasil
  import Agreement

  /** The tests use integers and strings as keys and values. */
  datatype Key = Int(i: int) | Str(s: string)

  function DigitChar(d: nat): char
    requires d < 10
  {
    "0123456789"[d]
  }

  /** Decimal `str()` of a natural number. */
  function NatToString(x: nat): (s: string)
    ensures |s| >= 1
    decreases x
  {
    if x < 10 then [DigitChar(x)] else NatToString(x / 10) + [DigitChar(x % 10)]
  }

  /** `str()` of a key. */
  function Show(k: Key): string
  {
    match k
    case Int(i) => if i < 0 then "-" + NatToString(-i) else NatToString(i)
    case Str(s) => s
  }

  /** The tree holding a single path: one key per level, `s` at the end. */
  function Chain<K>(path: seq<K>, s: Slot<K>): Node<K>
    requires |path| >= 1
    decreases |path|
  {
    if |path| == 1 then Node([(path[0], s)])
    else Node([(path[0], Branch(Chain(path[1..], s)))])
  }

  lemma PutIntoEmpty<K(!new)>(k: K, s: Slot<K>)
    ensures Put(Empty(), k, s) == Node([(k, s)])
  {
    assert Keys(Empty<K>()) == [];
  }

  /** Inserting into an empty tree never fails and builds exactly the chain. */
  lemma {:induction false} InsertPathIntoEmpty<K(!new)>(path: seq<K>, s: Slot<K>)
    requires |path| >= 1
    ensures InsertPath(Empty(), path, s) == Ok(Chain(path, s))
    decreases |path|
  {
    if |path| == 1 {
      PutIntoEmpty(path[0], s);
    } else {
      InsertPathStep(Empty(), path, s);
      InsertPathIntoEmpty(path[1..], s);
      PutIntoEmpty(path[0], Branch(Chain(path[1..], s)));
    }
  }

  /** `tree[2024]` on an empty tree yields a new empty subtree stored under
      2024, in both implementations. */
  lemma GetItemCreatesSubtree()
    ensures C.GetItem(Empty<Key>(), Int(2024)).1 == Branch(Empty())
    ensures Keys(C.GetItem(Empty<Key>(), Int(2024)).0) == [Int(2024)]
    ensures Py.GetItem(Empty<Key>(), Int(2024)) == C.GetItem(Empty<Key>(), Int(2024))
  {
    Agreement.GetItemsAgree(Empty<Key>(), Int(2024));
  }

  /** `tree["key"] = "value"` then `tree["key"] == "value"`. */
  lemma SetItemSimpleValue()
    ensures C.SetItem(Empty(), Str("key"), AtomArg(Str("value"))).Ok?
    ensures Lookup(C.SetItem(Empty(), Str("key"), AtomArg(Str("value"))).value, Str("key"))
            == Some(Leaf(Atom(Str("value"))))
  {
  }

  /** Assigning a list of one or more items into an empty tree builds the
      chain along the key and all items but the last. */
  lemma ListIntoEmpty<K(!new)>(k: K, items: seq<K>)
    requires |items| >= 1
    ensures C.SetItem(Empty(), k, ListArg(items)) == Ok(Chain([k] + items[..|items| - 1], Leaf(Atom(items[|items| - 1]))))
  {
    C.SetItemIsInsertPath(Empty(), k, items);
    InsertPathIntoEmpty([k] + items[..|items| - 1], Leaf(Atom(items[|items| - 1])));
  }

  /** `tree["root"] = [1, 2, 3]` makes `tree["root"]` and `tree["root"][1]`
      subtrees and `tree["root"][1][2] == 3`. */
  lemma SetItemListValue()
    ensures C.SetItem(Empty(), Str("root"), ListArg([Int(1), Int(2), Int(3)]))
            == Ok(Chain([Str("root"), Int(1), Int(2)], Leaf(Atom(Int(3)))))
  {
    var items := [Int(1), Int(2), Int(3)];
    ListIntoEmpty(Str("root"), items);
    assert [Str("root")] + items[..2] == [Str("root"), Int(1), Int(2)];
  }

  /** A fiber of two or more elements added to an empty tree builds the
      chain along all elements but the last, in both implementations. */
  lemma FiberIntoEmpty<K(!new)>(f: seq<K>)
    requires |f| >= 2
    ensures C.AddFiber(Empty(), ListArg(f)) == Ok(Chain(f[..|f| - 1], Leaf(Atom(f[|f| - 1]))))
    ensures Py.AddFiber(Empty(), f) == Ok(Chain(f[..|f| - 1], Leaf(Atom(f[|f| - 1]))))
  {
    C.AddFiberIsInsertPath(Empty(), f);
    Agreement.AddFiberAgreement(Empty(), f);
    InsertPathIntoEmpty(f[..|f| - 1], Leaf(Atom(f[|f| - 1])));
  }

  /** `add_fiber([2024, 2, 8, 10])` on an empty tree builds the chain
      2024 / 2 / 8 holding 10, in both implementations. */
  lemma AddOneFiber()
    ensures C.AddFiber(Empty(), ListArg([Int(2024), Int(2), Int(8), Int(10)]))
            == Ok(Chain([Int(2024), Int(2), Int(8)], Leaf(Atom(Int(10)))))
    ensures Py.AddFiber(Empty(), [Int(2024), Int(2), Int(8), Int(10)])
            == Ok(Chain([Int(2024), Int(2), Int(8)], Leaf(Atom(Int(10)))))
  {
    var f := [Int(2024), Int(2), Int(8), Int(10)];
    FiberIntoEmpty(f);
    assert f[..3] == [Int(2024), Int(2), Int(8)];
  }

  /** The shape of the multiple-fibers test over any keys: two fibers that
      share their first two keys and part at the third, then a third fiber
      along the second one's path; the C extension builds the same trees. */
  lemma {:induction false} ThreeFibers<K(!new)>(a: K, b: K, c: K, d: K, x: K, y: K, z: K)
    requires c != d
    ensures Py.AddFiber(Empty(), [a, b, c, x]).Ok?
    ensures C.AddFiber(Empty(), ListArg([a, b, c, x])) == Py.AddFiber(Empty(), [a, b, c, x])
    ensures var t1 := Py.AddFiber(Empty(), [a, b, c, x]).value;
            && Py.AddFiber(t1, [a, b, d, y]).Ok?
            && C.AddFiber(t1, ListArg([a, b, d, y])) == Py.AddFiber(t1, [a, b, d, y])
            && var t2 := Py.AddFiber(t1, [a, b, d, y]).value;
               && Py.AddFiber(t2, [a, b, d, z]).Ok?
               && C.AddFiber(t2, ListArg([a, b, d, z])) == Py.AddFiber(t2, [a, b, d, z])
               && var t3 := Py.AddFiber(t2, [a, b, d, z]).value;
                  && Follow(t3, [a, b, c]) == Some(Leaf(Atom(x)))
                  && Follow(t3, [a, b, d]) == Some(Leaf(Atom(z)))
  {
    var f1, f2, f3 := [a, b, c, x], [a, b, d, y], [a, b, d, z];
    var p1, p2 := [a, b, c], [a, b, d];
    assert f1[..3] == p1 && f2[..3] == p2 && f3[..3] == p2;
    LeafOnPrefixMissing(Empty<K>(), p1);
    Py.AddFiberPlacesLeaf(Empty(), f1);
    var t1 := Py.AddFiber(Empty(), f1).value;
    forall i | 1 <= i < 3
      ensures !LeafAt(t1, p2[..i])
    {
      assert p2[..i] == p1[..i] == f1[..i];
      assert BranchAt(t1, f1[..i]);
    }
    Py.AddFiberPlacesLeaf(t1, f2);
    Py.AddFiberPlacesLeaf(t1, f3);
    assert p1[2] != p2[2];
    Py.AddFiberLastWriteWins(t1, f2, f3);
    Py.AddFiberFrame(t1, f3, p1);
    Agreement.AddFiberAgreement(Empty(), f1);
    Agreement.AddFiberAgreement(t1, f2);
    Agreement.AddFiberAgreement(Py.AddFiber(t1, f2).value, f3);
  }

  /** The multiple-fibers test: `[2024, 2, 8]` keeps 10 and the last write to
      `[2024, 2, 9]`, 15, wins over 20; each `add_fiber` of the C extension
      gives the same tree as the Python class. */
  lemma MultipleFibers()
    ensures Py.AddFiber(Empty(), [Int(2024), Int(2), Int(8), Int(10)]).Ok?
    ensures C.AddFiber(Empty(), ListArg([Int(2024), Int(2), Int(8), Int(10)]))
            == Py.AddFiber(Empty(), [Int(2024), Int(2), Int(8), Int(10)])
    ensures var t1 := Py.AddFiber(Empty(), [Int(2024), Int(2), Int(8), Int(10)]).value;
            && Py.AddFiber(t1, [Int(2024), Int(2), Int(9), Int(20)]).Ok?
            && C.AddFiber(t1, ListArg([Int(2024), Int(2), Int(9), Int(20)]))
               == Py.AddFiber(t1, [Int(2024), Int(2), Int(9), Int(20)])
            && var t2 := Py.AddFiber(t1, [Int(2024), Int(2), Int(9), Int(20)]).value;
               && Py.AddFiber(t2, [Int(2024), Int(2), Int(9), Int(15)]).Ok?
               && C.AddFiber(t2, ListArg([Int(2024), Int(2), Int(9), Int(15)]))
                  == Py.AddFiber(t2, [Int(2024), Int(2), Int(9), Int(15)])
               && var t3 := Py.AddFiber(t2, [Int(2024), Int(2), Int(9), Int(15)]).value;
                  && Follow(t3, [Int(2024), Int(2), Int(8)]) == Some(Leaf(Atom(Int(10))))
                  && Follow(t3, [Int(2024), Int(2), Int(9)]) == Some(Leaf(Atom(Int(15))))
  {
    ThreeFibers(Int(2024), Int(2), Int(8), Int(9), Int(10), Int(20), Int(15));
  }

  /** The eight fibers of the comparison test, in the order it loads them. */
  const ComparisonFibers: seq<seq<Key>> := [
    [Int(2024), Int(2), Int(8), Int(10)],
    [Int(2024), Int(2), Int(9), Int(20)],
    [Int(2024), Int(2), Int(9), Int(15)],
    [Str("finance"), Str("Q1"), Str("revenue"), Int(1000000)],
    [Str("finance"), Str("Q2"), Str("revenue"), Int(1200000)],
    [Str("sales"), Str("region1"), Str("product1"), Int(500)],
    [Str("sales"), Str("region1"), Str("product2"), Int(300)],
    [Str("sales"), Str("region2"), Str("product1"), Int(400)]]

  /** The comparison test: the eight fibers, loaded in order, load without
      error, give equal trees in both implementations, and each path the test
      reads holds the value of the last fiber that wrote it. */
  lemma ComparisonWithPython()
    ensures Agreement.PyAddFibers(Empty(), ComparisonFibers).Ok?
    ensures Agreement.PyAddFibers(Empty(), ComparisonFibers) == Agreement.CAddFibers(Empty(), ComparisonFibers)
    ensures var t := Agreement.PyAddFibers(Empty(), ComparisonFibers).value;
            && Follow(t, [Int(2024), Int(2), Int(8)]) == Some(Leaf(Atom(Int(10))))
            && Follow(t, [Int(2024), Int(2), Int(9)]) == Some(Leaf(Atom(Int(15))))
            && Follow(t, [Str("finance"), Str("Q1"), Str("revenue")]) == Some(Leaf(Atom(Int(1000000))))
            && Follow(t, [Str("sales"), Str("region1"), Str("product1")]) == Some(Leaf(Atom(Int(500))))
  {
    var fibers := ComparisonFibers;
    assert |fibers| == 8;
    assert forall i :: 0 <= i < |fibers| ==> |fibers[i]| == 4;
    Agreement.AddFibersAgree(Empty(), fibers);
    ComparisonShapeLoads(fibers, Int(2024), Int(2), Int(8), Int(9), Str("finance"), Str("Q1"), Str("Q2"),
                         Str("revenue"), Str("sales"), Str("region1"), Str("region2"), Str("product1"),
                         Str("product2"), Int(10), Int(20), Int(15), Int(1000000), Int(1200000), Int(500),
                         Int(300), Int(400));
  }

  /** Any eight fibers shaped like the comparison test's (two date fibers
      that share a path, one before it, then two three-key families that
      differ at the second or third key) load without error, and the four
      paths the test reads hold the values of their last writers. */
  lemma ComparisonShapeLoads(fibers: seq<seq<Key>>, y: Key, mo: Key, d8: Key, d9: Key,
                             fin: Key, q1: Key, q2: Key, rev: Key, sales: Key, r1: Key, r2: Key,
                             p1: Key, p2: Key, a: Key, b: Key, c: Key, d: Key, e: Key,
                             f: Key, g: Key, h: Key)
    requires fibers == [[y, mo, d8, a], [y, mo, d9, b], [y, mo, d9, c], [fin, q1, rev, d], [fin, q2, rev, e],
                        [sales, r1, p1, f], [sales, r1, p2, g], [sales, r2, p1, h]]
    requires d8 != d9 && y != fin && y != sales && fin != sales && q1 != q2 && r1 != r2 && p1 != p2
    ensures Agreement.PyAddFibers(Empty(), fibers).Ok?
    ensures var t := Agreement.PyAddFibers(Empty(), fibers).value;
            && Follow(t, [y, mo, d8]) == Some(Leaf(Atom(a)))
            && Follow(t, [y, mo, d9]) == Some(Leaf(Atom(c)))
            && Follow(t, [fin, q1, rev]) == Some(Leaf(Atom(d)))
            && Follow(t, [sales, r1, p1]) == Some(Leaf(Atom(f)))
  {
    assert |fibers| == 8 && forall i :: 0 <= i < 8 ==> |fibers[i]| == 4;
    ComparisonPathsDiffer(fibers, y, mo, d8, d9, fin, q1, q2, rev, sales, r1, r2, p1, p2, a, b, c, d, e, f, g, h);
    assert fibers[0][..3] == [y, mo, d8] && fibers[2][..3] == [y, mo, d9];
    assert fibers[3][..3] == [fin, q1, rev] && fibers[5][..3] == [sales, r1, p1];
    LastWritesRead(fibers);
  }

  /** Eight fibers of four keys each, loaded into the empty tree, leave
      fibers 0, 2, 3 and 5 readable at their paths when no later fiber
      writes the same path. */
  lemma LastWritesRead(fibers: seq<seq<Key>>)
    requires |fibers| == 8 && forall i :: 0 <= i < 8 ==> |fibers[i]| == 4
    requires forall k, j :: (k == 0 || k == 2 || k == 3 || k == 5) && k < j < |fibers|
               ==> fibers[j][..3] != fibers[k][..3]
    ensures Agreement.PyAddFibers(Empty(), fibers).Ok?
    ensures var t := Agreement.PyAddFibers(Empty(), fibers).value;
            && Follow(t, fibers[0][..3]) == Some(Leaf(Atom(fibers[0][3])))
            && Follow(t, fibers[2][..3]) == Some(Leaf(Atom(fibers[2][3])))
            && Follow(t, fibers[3][..3]) == Some(Leaf(Atom(fibers[3][3])))
            && Follow(t, fibers[5][..3]) == Some(Leaf(Atom(fibers[5][3])))
  {
    Agreement.NoLeafAboveEmpty<Key>(3);
    Agreement.LoadLastWriteAt(Empty(), fibers, 3, 0);
    Agreement.LoadLastWriteAt(Empty(), fibers, 3, 2);
    Agreement.LoadLastWriteAt(Empty(), fibers, 3, 3);
    Agreement.LoadLastWriteAt(Empty(), fibers, 3, 5);
  }

  /** In the comparison test's shape, no fiber after one of the four that
      are read back writes that fiber's path. */
  lemma ComparisonPathsDiffer(fibers: seq<seq<Key>>, y: Key, mo: Key, d8: Key, d9: Key,
                              fin: Key, q1: Key, q2: Key, rev: Key, sales: Key, r1: Key, r2: Key,
                              p1: Key, p2: Key, a: Key, b: Key, c: Key, d: Key, e: Key,
                              f: Key, g: Key, h: Key)
    requires fibers == [[y, mo, d8, a], [y, mo, d9, b], [y, mo, d9, c], [fin, q1, rev, d], [fin, q2, rev, e],
                        [sales, r1, p1, f], [sales, r1, p2, g], [sales, r2, p1, h]]
    requires d8 != d9 && y != fin && y != sales && fin != sales && q1 != q2 && r1 != r2 && p1 != p2
    ensures forall k, j :: (k == 0 || k == 2 || k == 3 || k == 5) && k < j < |fibers|
              ==> fibers[j][..3] != fibers[k][..3]
  {
    forall k, j | (k == 0 || k == 2 || k == 3 || k == 5) && k < j < |fibers|
      ensures fibers[j][..3] != fibers[k][..3]
    {
      var i := if k == 0 && j < 3 then 2 else if k == 3 && j == 4 then 1
               else if k == 5 then (if j == 6 then 2 else 1) else 0;
      assert fibers[j][..3][i] == fibers[j][i] && fibers[k][..3][i] == fibers[k][i];
    }
  }

  /** The tree of the single-fiber print test renders one line per level,
      each key the last (and only) child of its parent. */
  lemma PrintSimpleTree()
    ensures Py.PrintTree(Chain([Int(2024), Int(2), Int(8)], Leaf(Atom(Int(10)))), Show, "", true)
            == ["└── 2024", "    └── 2", "        └── 8", "            └── 10"]
    ensures C.PrintTree(Chain([Int(2024), Int(2), Int(8)], Leaf(Atom(Int(10)))), Show, "", true)
            == ["+-- 2024", "    +-- 2", "        +-- 8", "            +-- 10"]
  {
    var t := Chain([Int(2024), Int(2), Int(8)], Leaf(Atom(Int(10))));
    var c8: Node<Key> := Node([(Int(8), Leaf(Atom(Int(10))))]);
    var c2: Node<Key> := Node([(Int(2), Branch(c8))]);
    assert [Int(2024), Int(2), Int(8)][1..] == [Int(2), Int(8)];
    assert [Int(2), Int(8)][1..] == [Int(8)];
    assert t == Node([(Int(2024), Branch(c2))]);
    assert NatToString(20) == "20";
    assert NatToString(202) == "202";
    assert Show(Int(2024)) == "2024";
    assert Show(Int(8)) == "8";
    assert Show(Int(2)) == "2";
    assert ShowValue(Show, Atom(Int(10))) == "10";
    var py, c := Py.PyStyle, C.CStyle;
    assert py.elbow + "2024" == "└── 2024" && "    " + py.elbow + "2" == "    └── 2";
    assert "        " + py.elbow + "8" == "        └── 8";
    assert "            " + py.leafConnector + "10" == "            └── 10";
    SimpleTreeLines(py, t, c2, c8, ["└── 2024", "    └── 2", "        └── 8", "            └── 10"]);
    assert c.elbow + "2024" == "+-- 2024" && "    " + c.elbow + "2" == "    +-- 2";
    assert "        " + c.elbow + "8" == "        +-- 8";
    assert "            " + c.leafConnector + "10" == "            +-- 10";
    SimpleTreeLines(c, t, c2, c8, ["+-- 2024", "    +-- 2", "        +-- 8", "            +-- 10"]);
  }

  /** The rendering of the single-fiber tree in a style whose `blank` is four
      spaces, level by level. */
  lemma SimpleTreeLines(st: Style, t: Node<Key>, c2: Node<Key>, c8: Node<Key>, lines: seq<string>)
    requires st.blank == "    "
    requires c8 == Node([(Int(8), Leaf(Atom(Int(10))))])
    requires c2 == Node([(Int(2), Branch(c8))])
    requires t == Node([(Int(2024), Branch(c2))])
    requires lines == [st.elbow + "2024", "    " + st.elbow + "2", "        " + st.elbow + "8",
                       "            " + st.leafConnector + "10"]
    ensures RenderFrom(st, Show, t, 0, "") == lines
  {
    assert NatToString(20) == "20";
    assert NatToString(202) == "202";
    assert Show(Int(2024)) == "2024";
    assert Show(Int(8)) == "8";
    assert Show(Int(2)) == "2";
    assert ShowValue(Show, Atom(Int(10))) == "10";
    assert "        " + st.blank == "            ";
    assert EntryLines(st, Show, c8, 0, "        ") == lines[2..];
    assert RenderFrom(st, Show, c8, 0, "        ") == lines[2..];
    assert "    " + st.blank == "        ";
    assert EntryLines(st, Show, c2, 0, "    ") == lines[1..];
    assert RenderFrom(st, Show, c2, 0, "    ") == lines[1..];
    assert "" + st.elbow + Show(Int(2024)) == lines[0];
    assert "" + st.blank == "    ";
    assert EntryLines(st, Show, t, 0, "") == lines;
  }

  /** An empty tree prints the sentinel line in both implementations. */
  lemma PrintEmptyTree()
    ensures Py.PrintTree(Empty<Key>(), Show, "", true) == ["Empty tree"]
    ensures C.PrintTree(Empty<Key>(), Show, "", true) == ["Empty tree"]
  {
  }
}
