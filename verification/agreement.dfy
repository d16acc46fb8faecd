/** How the Python class and the C extension relate: they build the same tree
    from every fiber of two or more elements, differ on shorter fibers, and
    print the same tree with different connector characters. */
module Agreement {
  import opened PathNode
  import opened TreeRender
  import Py = PyYggdrasil
  import C = CYggdrasil

  /** Assignment agrees on every argument except the empty list, which the
      Python class stores as it is and the C extension replaces by None. */
  lemma SetItemsAgree<K(!new)>(n: Node<K>, k: K, v: Arg<K>)
    ensures v != ListArg([]) ==> Py.SetItem(n, k, v) == C.SetItem(n, k, v)
    ensures v == ListArg([]) ==>
              && Py.SetItem(n, k, v) == Ok(Put(n, k, Leaf(EmptyList)))
              && C.SetItem(n, k, v) == Ok(Put(n, k, Leaf(NoneValue)))
  {
    if v.ListArg? && v.items != [] {
      Py.SetItemIsInsertPath(n, k, v.items);
      C.SetItemIsInsertPath(n, k, v.items);
    }
  }

  /** Reading a key: the Python class autovivifies through its own assignment,
      the C extension writes the dictionary directly; the outcome is the same. */
  lemma GetItemsAgree<K(!new)>(n: Node<K>, k: K)
    ensures Py.GetItem(n, k) == C.GetItem(n, k)
  {
  }

  /** `add_fiber` on both implementations, by fiber length: equal trees for
      two or more elements; for one element both store a leaf at the key, the
      empty list in Python and None in C; for none, Python raises and C does
      nothing. */
  lemma AddFiberAgreement<K(!new)>(n: Node<K>, fiber: seq<K>)
    ensures |fiber| >= 2 ==> Py.AddFiber(n, fiber) == C.AddFiber(n, ListArg(fiber))
    ensures |fiber| == 1 ==>
              && Py.AddFiber(n, fiber) == Ok(Put(n, fiber[0], Leaf(EmptyList)))
              && C.AddFiber(n, ListArg(fiber)) == Ok(Put(n, fiber[0], Leaf(NoneValue)))
    ensures |fiber| == 0 ==> Py.AddFiber(n, fiber) == Err(EmptyFiber) && C.AddFiber(n, ListArg(fiber)) == Ok(n)
  {
    Py.AddFiberCases(n, fiber);
    C.AddFiberCases(n, fiber);
  }

  /** Calling the Python `add_fiber` on each fiber in order, stopping at the
      first exception. */
  function PyAddFibers<K(==,!new)>(n: Node<K>, fibers: seq<seq<K>>): Result<Node<K>>
    decreases |fibers|
  {
    if fibers == [] then Ok(n)
    else
      match Py.AddFiber(n, fibers[0])
      case Ok(n1) => PyAddFibers(n1, fibers[1..])
      case Err(e) => Err(e)
  }

  /** Calling the C `add_fiber` on each fiber in order, stopping at the first
      exception. */
  function CAddFibers<K(==,!new)>(n: Node<K>, fibers: seq<seq<K>>): Result<Node<K>>
    decreases |fibers|
  {
    if fibers == [] then Ok(n)
    else
      match C.AddFiber(n, ListArg(fibers[0]))
      case Ok(n1) => CAddFibers(n1, fibers[1..])
      case Err(e) => Err(e)
  }

  /** Loading the same fibers, all of two or more elements, in the same order
      into both implementations gives equal trees (or the same failure). */
  lemma {:induction false} AddFibersAgree<K(!new)>(n: Node<K>, fibers: seq<seq<K>>)
    requires forall i :: 0 <= i < |fibers| ==> |fibers[i]| >= 2
    ensures PyAddFibers(n, fibers) == CAddFibers(n, fibers)
    decreases |fibers|
  {
    if fibers != [] {
      AddFiberAgreement(n, fibers[0]);
      var first := Py.AddFiber(n, fibers[0]);
      if first.Ok? {
        AddFibersAgree(first.value, fibers[1..]);
      }
    }
  }

  /** No leaf sits on a path of fewer than `depth` segments, so no fiber
      whose path has `depth` segments is blocked. */
  ghost predicate NoLeafAbove<K(!new)>(t: Node<K>, depth: nat)
  {
    forall p :: 1 <= |p| < depth ==> !LeafAt(t, p)
  }

  /** A path that is not a prefix of a longer one parts from it somewhere. */
  /** The empty tree has no leaf at any depth. */
  lemma NoLeafAboveEmpty<K(!new)>(depth: nat)
    ensures NoLeafAbove(Empty<K>(), depth)
  {
    forall p: seq<K> | 1 <= |p| < depth
      ensures !LeafAt(Empty<K>(), p)
    {
      FollowEmpty(p);
    }
  }

  lemma DivergeWhenNotPrefix<K(!new)>(p: seq<K>, q: seq<K>)
    requires |p| <= |q| && p != q[..|p|]
    ensures Diverge(p, q)
  {
    assert exists i :: 0 <= i < |p| && p[i] != q[..|p|][i];
  }

  /** A fiber whose path is no shorter than every leaf's path succeeds,
      stores its last element at the end of its path, and keeps every leaf
      at least that deep. */
  lemma AddFiberKeepsLeavesDeep<K(!new)>(t: Node<K>, f: seq<K>)
    requires |f| >= 2 && NoLeafAbove(t, |f| - 1)
    ensures Py.AddFiber(t, f).Ok?
    ensures Follow(Py.AddFiber(t, f).value, f[..|f| - 1]) == Some(Leaf(Atom(f[|f| - 1])))
    ensures NoLeafAbove(Py.AddFiber(t, f).value, |f| - 1)
  {
    var path := f[..|f| - 1];
    Py.AddFiberPlacesLeaf(t, f);
    assert !LeafOnPrefix(t, path) by {
      forall i | 1 <= i < |path|
        ensures !LeafAt(t, path[..i])
      {
        assert |path[..i]| == i;
      }
    }
    var t' := Py.AddFiber(t, f).value;
    forall p | 1 <= |p| < |path|
      ensures !LeafAt(t', p)
    {
      if p == path[..|p|] {
        assert p == f[..|p|];
      } else {
        DivergeWhenNotPrefix(p, path);
        Py.AddFiberFrame(t, f, p);
      }
    }
  }

  /** Fibers of one common length, loaded in order into a tree with no leaf
      above their paths' depth, never raise: no earlier fiber can leave a
      leaf on a proper prefix of a later fiber's path. */
  lemma {:induction false} FibersOfOneLengthLoad<K(!new)>(t: Node<K>, fibers: seq<seq<K>>, m: nat)
    requires m >= 1 && NoLeafAbove(t, m)
    requires forall i :: 0 <= i < |fibers| ==> |fibers[i]| == m + 1
    ensures PyAddFibers(t, fibers).Ok?
    ensures NoLeafAbove(PyAddFibers(t, fibers).value, m)
    decreases |fibers|
  {
    if fibers != [] {
      AddFiberKeepsLeavesDeep(t, fibers[0]);
      FibersOfOneLengthLoad(Py.AddFiber(t, fibers[0]).value, fibers[1..], m);
    }
  }

  /** Loading fibers of one common length leaves every path of that length
      that none of them writes where it was. */
  lemma {:induction false} LoadKeepsOtherPaths<K(!new)>(t: Node<K>, fibers: seq<seq<K>>, m: nat, p: seq<K>)
    requires m >= 1 && NoLeafAbove(t, m) && |p| == m
    requires forall i :: 0 <= i < |fibers| ==> |fibers[i]| == m + 1
    requires forall i :: 0 <= i < |fibers| ==> fibers[i][..m] != p
    ensures PyAddFibers(t, fibers).Ok?
    ensures Follow(PyAddFibers(t, fibers).value, p) == Follow(t, p)
    decreases |fibers|
  {
    if fibers != [] {
      var f := fibers[0];
      AddFiberKeepsLeavesDeep(t, f);
      assert f[..m][..|p|] == f[..m];
      DivergeWhenNotPrefix(p, f[..m]);
      Py.AddFiberFrame(t, f, p);
      LoadKeepsOtherPaths(Py.AddFiber(t, f).value, fibers[1..], m, p);
    }
  }

  /** The first fiber's value survives every later fiber of the same length
      that writes a different path. */
  lemma FirstWriteSurvives<K(!new)>(t: Node<K>, fibers: seq<seq<K>>, m: nat)
    requires m >= 1 && NoLeafAbove(t, m) && |fibers| >= 1
    requires forall i :: 0 <= i < |fibers| ==> |fibers[i]| == m + 1
    requires forall j :: 0 < j < |fibers| ==> fibers[j][..m] != fibers[0][..m]
    ensures PyAddFibers(t, fibers).Ok?
    ensures Follow(PyAddFibers(t, fibers).value, fibers[0][..m]) == Some(Leaf(Atom(fibers[0][m])))
  {
    var f, rest := fibers[0], fibers[1..];
    assert Py.AddFiber(t, f).Ok? && NoLeafAbove(Py.AddFiber(t, f).value, m)
           && Follow(Py.AddFiber(t, f).value, f[..m]) == Some(Leaf(Atom(f[m]))) by {
      AddFiberKeepsLeavesDeep(t, f);
    }
    var t1 := Py.AddFiber(t, f).value;
    assert PyAddFibers(t, fibers) == PyAddFibers(t1, rest);
    assert forall i :: 0 <= i < |rest| ==> rest[i] == fibers[i + 1];
    LoadKeepsOtherPaths(t1, rest, m, f[..m]);
  }

  /** After loading fibers of one common length, the path of fiber `k`
      holds that fiber's value when no later fiber writes the same path:
      the last write to a path is the one read back. */
  lemma {:induction false} LoadLastWriteAt<K(!new)>(t: Node<K>, fibers: seq<seq<K>>, m: nat, k: nat)
    requires m >= 1 && NoLeafAbove(t, m)
    requires forall i :: 0 <= i < |fibers| ==> |fibers[i]| == m + 1
    requires k < |fibers|
    requires forall j :: k < j < |fibers| ==> fibers[j][..m] != fibers[k][..m]
    ensures PyAddFibers(t, fibers).Ok?
    ensures Follow(PyAddFibers(t, fibers).value, fibers[k][..m]) == Some(Leaf(Atom(fibers[k][m])))
    decreases |fibers|, 1
  {
    if k == 0 {
      FirstWriteSurvives(t, fibers, m);
    } else {
      LoadLastWriteAtStep(t, fibers, m, k);
    }
  }

  /** The step of `LoadLastWriteAt` past fiber 0: the claim about fiber `k`
      of `fibers` is the claim about fiber `k - 1` of the rest, loaded into
      the tree the first fiber leaves. */
  lemma {:induction false} LoadLastWriteAtStep<K(!new)>(t: Node<K>, fibers: seq<seq<K>>, m: nat, k: nat)
    requires m >= 1 && NoLeafAbove(t, m)
    requires forall i :: 0 <= i < |fibers| ==> |fibers[i]| == m + 1
    requires 0 < k < |fibers|
    requires forall j :: k < j < |fibers| ==> fibers[j][..m] != fibers[k][..m]
    ensures PyAddFibers(t, fibers).Ok?
    ensures Follow(PyAddFibers(t, fibers).value, fibers[k][..m]) == Some(Leaf(Atom(fibers[k][m])))
    decreases |fibers|, 0
  {
    var f, rest := fibers[0], fibers[1..];
    assert Py.AddFiber(t, f).Ok? && NoLeafAbove(Py.AddFiber(t, f).value, m) by {
      AddFiberKeepsLeavesDeep(t, f);
    }
    var t1 := Py.AddFiber(t, f).value;
    assert PyAddFibers(t, fibers) == PyAddFibers(t1, rest);
    assert rest[k - 1] == fibers[k];
    LoadLastWriteAt(t1, rest, m, k - 1);
  }

  lemma StylesCorrespond()
    ensures AsciiStyle(Py.PyStyle) == C.CStyle
  {
    assert Asciify("├── ") == "|-- ";
    assert Asciify("└── ") == "+-- ";
    assert Asciify("│   ") == "|   ";
    assert Asciify("    ") == "    ";
  }

  /** The C output is the Python output with each box-drawing character
      replaced by its ASCII counterpart, whenever no key or value prints a
      box-drawing character of its own. */
  lemma PrintTreesAgree<K>(n: Node<K>, show: K -> string, prefix: string, isRoot: bool)
    requires forall k :: Plain(show(k))
    ensures C.PrintTree(n, show, Asciify(prefix), isRoot) == AsciifyLines(Py.PrintTree(n, show, prefix, isRoot))
  {
    StylesCorrespond();
    if isRoot && |n.entries| == 0 {
      assert Asciify(EmptyTreeLine) == EmptyTreeLine;
    } else {
      RenderFromAsciified(Py.PyStyle, show, n, 0, prefix);
    }
  }
}
