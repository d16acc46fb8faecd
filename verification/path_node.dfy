/** The data model shared by both Yggdrasil implementations: a node is an
    insertion-ordered mapping from key to slot, and a slot is either a child
    node (a branch) or a leaf value.

    The Python class is a `dict` subclass and the C type wraps a `PyDict`;
    both rely on the dictionary's behaviour that re-assigning an existing key
    keeps its position and a new key is appended.  `Put` and `Lookup` model
    exactly that; `InsertPath` is the insertion walk both `add_fiber`s perform. */
module PathNode {

  /** What a leaf slot can hold.  `EmptyList` is the list the Python version
      stores for a one-element fiber; the C version never stores it. */
  datatype Value<K> = NoneValue | Atom(atom: K) | EmptyList

  datatype Slot<K> = Branch(child: Node<K>) | Leaf(leaf: Value<K>)

  /** One level of the tree; `entries` is in first-insertion order. */
  datatype Node<K> = Node(entries: seq<(K, Slot<K>)>)

  datatype Option<T> = None | Some(value: T)

  /** The failures of the core operations.
      - LeafInTheWay: an insertion has to descend through a slot that holds a
        leaf; the leaf object has no usable `__setitem__`.
      - EmptyFiber: Python's `add_fiber([])` pops from an empty list.
      - FiberNotAList: C's `add_fiber` is given something that is not a list. */
  datatype Error = LeafInTheWay | EmptyFiber | FiberNotAList

  datatype Result<T> = Ok(value: T) | Err(error: Error)

  /** The right-hand side of `tree[key] = value`: None, an atom, a list of
      atoms, or a whole tree object. */
  datatype Arg<K> = NoneArg | AtomArg(atom: K) | ListArg(items: seq<K>) | NodeArg(node: Node<K>)

  /** The length of a list argument, zero for any other argument; assignment
      recurses on shorter lists and ends at a single value. */
  function ListLength<K>(v: Arg<K>): nat
  {
    if v.ListArg? then |v.items| else 0
  }

  /** The slot a non-list argument becomes when it is stored as it is: a tree
      object becomes a branch, anything else a leaf. */
  function Direct<K>(v: Arg<K>): (s: Slot<K>)
    requires !v.ListArg?
    ensures s.Branch? <==> v.NodeArg?
  {
    match v
    case NoneArg => Leaf(NoneValue)
    case AtomArg(a) => Leaf(Atom(a))
    case NodeArg(m) => Branch(m)
  }

  function Empty<K>(): Node<K>
  {
    Node([])
  }

  /** The keys of a node, in order. */
  function Keys<K>(n: Node<K>): (ks: seq<K>)
    ensures |ks| == |n.entries|
    ensures forall i :: 0 <= i < |ks| ==> ks[i] == n.entries[i].0
  {
    seq(|n.entries|, i requires 0 <= i < |n.entries| => n.entries[i].0)
  }

  /** Position of the first occurrence of `k`, or `|ks|` when it is absent. */
  function IndexOf<K(==,!new)>(ks: seq<K>, k: K): (p: nat)
    ensures p <= |ks|
    ensures p < |ks| ==> ks[p] == k
    ensures forall i :: 0 <= i < p ==> ks[i] != k
  {
    if ks == [] then 0
    else if ks[0] == k then 0
    else 1 + IndexOf(ks[1..], k)
  }

  /** The first two contracts of IndexOf determine its result. */
  lemma IndexOfUnique<K(!new)>(ks: seq<K>, k: K, p: nat)
    requires p <= |ks|
    requires p < |ks| ==> ks[p] == k
    requires forall i :: 0 <= i < p ==> ks[i] != k
    ensures IndexOf(ks, k) == p
  {
  }

  /** Non-mutating probe: the slot stored at `k`, if any. */
  function Lookup<K(==,!new)>(n: Node<K>, k: K): (r: Option<Slot<K>>)
    ensures r.Some? <==> k in Keys(n)
    ensures r.Some? ==> (k, r.value) in n.entries
  {
    var p := IndexOf(Keys(n), k);
    if p < |n.entries| then Some(n.entries[p].1) else None
  }

  predicate Contains<K(==,!new)>(n: Node<K>, k: K)
  {
    k in Keys(n)
  }

  /** No key occurs twice in a node. */
  predicate DistinctKeys<K(==,!new)>(n: Node<K>)
  {
    forall i, j :: 0 <= i < j < |n.entries| ==> n.entries[i].0 != n.entries[j].0
  }

  /** Every node of the tree has distinct keys, as a dictionary does. */
  predicate WellFormed<K(==,!new)>(n: Node<K>)
    decreases n
  {
    && DistinctKeys(n)
    && forall i :: 0 <= i < |n.entries| && n.entries[i].1.Branch? ==> WellFormed(n.entries[i].1.child)
  }

  predicate SlotWellFormed<K(==,!new)>(s: Slot<K>)
  {
    s.Branch? ==> WellFormed(s.child)
  }

  /** The subtree a well-formed node holds under a key is well-formed. */
  lemma LookupWellFormed<K(!new)>(n: Node<K>, k: K)
    ensures WellFormed(n) && Lookup(n, k).Some? ==> SlotWellFormed(Lookup(n, k).value)
  {
    if WellFormed(n) && Lookup(n, k).Some? {
      var s := Lookup(n, k).value;
      var i :| 0 <= i < |n.entries| && n.entries[i] == (k, s);
    }
  }

  /** Dictionary assignment `d[k] = s`: an existing key keeps its position and
      gets the new slot; a new key is appended; nothing else changes. */
  function Put<K(==,!new)>(n: Node<K>, k: K, s: Slot<K>): (r: Node<K>)
    ensures Keys(r) == if k in Keys(n) then Keys(n) else Keys(n) + [k]
    ensures Lookup(r, k) == Some(s)
    ensures forall j :: j != k ==> Lookup(r, j) == Lookup(n, j)
    ensures WellFormed(n) && SlotWellFormed(s) ==> WellFormed(r)
  {
    var p := IndexOf(Keys(n), k);
    if p < |n.entries| then
      var r := Node(n.entries[p := (k, s)]);
      assert Keys(r) == Keys(n);
      PutFrame(n, r, k, s, p);
      r
    else
      var r := Node(n.entries + [(k, s)]);
      IndexOfUnique(Keys(r), k, p);
      PutAppendFrame(n, r, k, s);
      r
  }

  lemma PutFrame<K(!new)>(n: Node<K>, r: Node<K>, k: K, s: Slot<K>, p: nat)
    requires p < |n.entries| && p == IndexOf(Keys(n), k)
    requires r == Node(n.entries[p := (k, s)])
    ensures Keys(r) == Keys(n)
    ensures Lookup(r, k) == Some(s)
    ensures forall j :: j != k ==> Lookup(r, j) == Lookup(n, j)
    ensures WellFormed(n) && SlotWellFormed(s) ==> WellFormed(r)
  {
    assert Keys(r) == Keys(n);
    if WellFormed(n) && SlotWellFormed(s) {
      forall i | 0 <= i < |r.entries| && r.entries[i].1.Branch?
        ensures WellFormed(r.entries[i].1.child)
      {
        if i != p {
          assert r.entries[i] == n.entries[i];
        }
      }
    }
  }

  lemma PutAppendFrame<K(!new)>(n: Node<K>, r: Node<K>, k: K, s: Slot<K>)
    requires k !in Keys(n)
    requires r == Node(n.entries + [(k, s)])
    ensures Keys(r) == Keys(n) + [k]
    ensures Lookup(r, k) == Some(s)
    ensures forall j :: j != k ==> Lookup(r, j) == Lookup(n, j)
    ensures WellFormed(n) && SlotWellFormed(s) ==> WellFormed(r)
  {
    assert Keys(r) == Keys(n) + [k];
    IndexOfUnique(Keys(r), k, |n.entries|);
    forall j | j != k
      ensures Lookup(r, j) == Lookup(n, j)
    {
      var q := IndexOf(Keys(n), j);
      if q < |n.entries| {
        IndexOfUnique(Keys(r), j, q);
      } else {
        IndexOfUnique(Keys(r), j, |r.entries|);
      }
    }
    if WellFormed(n) && SlotWellFormed(s) {
      forall i | 0 <= i < |r.entries| && r.entries[i].1.Branch?
        ensures WellFormed(r.entries[i].1.child)
      {
        if i < |n.entries| {
          assert r.entries[i] == n.entries[i];
        }
      }
    }
  }

  lemma PutPutPresent<K(!new)>(n: Node<K>, k: K, a: Slot<K>, b: Slot<K>)
    requires IndexOf(Keys(n), k) < |n.entries|
    ensures Put(Put(n, k, a), k, b) == Put(n, k, b)
  {
    var p := IndexOf(Keys(n), k);
    var m := Put(n, k, a);
    assert m == Node(n.entries[p := (k, a)]);
    assert IndexOf(Keys(m), k) == p by {
      assert Keys(m) == Keys(n);
    }
    assert m.entries[p := (k, b)] == n.entries[p := (k, b)];
  }

  lemma PutPutMissing<K(!new)>(n: Node<K>, k: K, a: Slot<K>, b: Slot<K>)
    requires IndexOf(Keys(n), k) == |n.entries|
    ensures Put(Put(n, k, a), k, b) == Put(n, k, b)
  {
    var p := |n.entries|;
    var m := Put(n, k, a);
    assert m == Node(n.entries + [(k, a)]);
    assert IndexOf(Keys(m), k) == p by {
      IndexOfUnique(Keys(m), k, p);
    }
    assert m.entries[p := (k, b)] == n.entries + [(k, b)];
  }

  /** Assigning the same key twice leaves the second slot, at the position the
      first assignment gave the key. */
  lemma PutPut<K(!new)>(n: Node<K>, k: K, a: Slot<K>, b: Slot<K>)
    ensures Put(Put(n, k, a), k, b) == Put(n, k, b)
  {
    if IndexOf(Keys(n), k) < |n.entries| {
      PutPutPresent(n, k, a, b);
    } else {
      PutPutMissing(n, k, a, b);
    }
  }

  /** The subtree a descent through `k` continues in: the branch at `k`, or
      the empty tree a missing key is given. */
  function ChildOrEmpty<K(==,!new)>(n: Node<K>, k: K): (c: Node<K>)
    requires !(Lookup(n, k).Some? && Lookup(n, k).value.Leaf?)
    ensures k !in Keys(n) ==> c == Empty()
    ensures k in Keys(n) ==> Lookup(n, k) == Some(Branch(c))
  {
    if Contains(n, k) then Lookup(n, k).value.child else Empty()
  }

  /** Hang a rebuilt subtree back under `k`, or pass the failure on. */
  function Attach<K(==,!new)>(n: Node<K>, k: K, sub: Result<Node<K>>): (r: Result<Node<K>>)
  {
    match sub
    case Ok(c) => Ok(Put(n, k, Branch(c)))
    case Err(e) => Err(e)
  }

  /** Attaching under a key overrides whatever an earlier assignment put there. */
  lemma AttachAfterPut<K(!new)>(n: Node<K>, k: K, s: Slot<K>, sub: Result<Node<K>>)
    ensures Attach(Put(n, k, s), k, sub) == Attach(n, k, sub)
  {
    if sub.Ok? {
      PutPut(n, k, s, Branch(sub.value));
    }
  }

  /** Following `path` from `n` without creating anything: the slot found at
      the end, or None when a key is missing or a leaf is met before the end.
      The empty path names the node itself. */
  function Follow<K(==,!new)>(n: Node<K>, path: seq<K>): Option<Slot<K>>
    decreases |path|
  {
    if path == [] then Some(Branch(n))
    else
      match Lookup(n, path[0])
      case None => None
      case Some(Branch(c)) => Follow(c, path[1..])
      case Some(Leaf(v)) => if |path| == 1 then Some(Leaf(v)) else None
  }

  predicate BranchAt<K(==,!new)>(n: Node<K>, path: seq<K>)
  {
    Follow(n, path).Some? && Follow(n, path).value.Branch?
  }

  predicate LeafAt<K(==,!new)>(n: Node<K>, path: seq<K>)
  {
    Follow(n, path).Some? && Follow(n, path).value.Leaf?
  }

  /** Some proper, non-empty prefix of `path` already ends at a leaf. */
  predicate LeafOnPrefix<K(==,!new)>(n: Node<K>, path: seq<K>)
  {
    exists i :: 1 <= i < |path| && LeafAt(n, path[..i])
  }

  /** Neither path is a prefix of the other. */
  predicate Diverge<K(==,!new)>(p: seq<K>, q: seq<K>)
  {
    exists i :: 0 <= i < |p| && i < |q| && p[i] != q[i]
  }

  /** The insertion walk: descend along every segment of `path` but the last,
      reusing an existing branch and creating an empty one for a missing key;
      fail on a leaf; store `s` at the last segment, replacing whatever was
      there.  A one-segment path writes directly into `n`. */
  function InsertPath<K(==,!new)>(n: Node<K>, path: seq<K>, s: Slot<K>): (r: Result<Node<K>>)
    requires |path| >= 1
    ensures r.Ok? ==> Keys(r.value) == if path[0] in Keys(n) then Keys(n) else Keys(n) + [path[0]]
    ensures r.Ok? ==> forall j :: j != path[0] ==> Lookup(r.value, j) == Lookup(n, j)
    ensures r.Ok? && WellFormed(n) && SlotWellFormed(s) ==> WellFormed(r.value)
    ensures r.Err? ==> r.error == LeafInTheWay && |path| >= 2 && path[0] in Keys(n)
    decreases |path|
  {
    if |path| == 1 then Ok(Put(n, path[0], s))
    else
      var found := Lookup(n, path[0]);
      if found.Some? && found.value.Leaf? then Err(LeafInTheWay)
      else
        Attach(n, path[0], InsertPath(ChildOrEmpty(n, path[0]), path[1..], s))
  }

  /** One level of the insertion walk, through a key that does not hold a leaf. */
  lemma InsertPathStep<K(!new)>(n: Node<K>, path: seq<K>, s: Slot<K>)
    requires |path| >= 2 && !(Lookup(n, path[0]).Some? && Lookup(n, path[0]).value.Leaf?)
    ensures InsertPath(n, path, s) == Attach(n, path[0], InsertPath(ChildOrEmpty(n, path[0]), path[1..], s))
  {
  }

  /** The path a list assignment `[k] + items` walks, one level down. */
  lemma ListPathTail<K>(k: K, items: seq<K>)
    requires |items| >= 2
    ensures ([k] + items[..|items| - 1])[1..] == [items[0]] + items[1..][..|items[1..]| - 1]
    ensures items[1..][|items[1..]| - 1] == items[|items| - 1]
  {
    assert ([k] + items[..|items| - 1])[1..] == items[..|items| - 1];
  }

  /** Following a path whose first key is looked up in `n`. */
  lemma FollowStep<K(!new)>(n: Node<K>, path: seq<K>, i: nat)
    requires 2 <= i <= |path|
    requires Lookup(n, path[0]).Some? && Lookup(n, path[0]).value.Branch?
    ensures Follow(n, path[..i]) == Follow(Lookup(n, path[0]).value.child, path[1..][..i - 1])
  {
    assert path[..i][0] == path[0];
    assert path[..i][1..] == path[1..][..i - 1];
  }

  /** After a successful insertion the path ends at `s` and every proper prefix
      of it ends at a branch. */
  lemma {:induction false} InsertPathReaches<K(!new)>(n: Node<K>, path: seq<K>, s: Slot<K>)
    requires |path| >= 1 && InsertPath(n, path, s).Ok?
    ensures Follow(InsertPath(n, path, s).value, path) == Some(s)
    ensures forall i :: 1 <= i < |path| ==> BranchAt(InsertPath(n, path, s).value, path[..i])
    decreases |path|
  {
    var r := InsertPath(n, path, s).value;
    if |path| >= 2 {
      var found := Lookup(n, path[0]);
      var c := if found.Some? then found.value.child else Empty();
      var c' := InsertPath(c, path[1..], s).value;
      InsertPathReaches(c, path[1..], s);
      assert Lookup(r, path[0]) == Some(Branch(c'));
      forall i | 1 <= i < |path|
        ensures BranchAt(r, path[..i])
      {
        if i == 1 {
          assert path[..1] == [path[0]];
        } else {
          FollowStep(r, path, i);
        }
      }
    }
  }

  /** Below a branch, a path is blocked exactly when its tail is blocked in the child. */
  lemma LeafOnPrefixStep<K(!new)>(n: Node<K>, path: seq<K>, c: Node<K>)
    requires |path| >= 2 && Lookup(n, path[0]) == Some(Branch(c))
    ensures LeafOnPrefix(n, path) <==> LeafOnPrefix(c, path[1..])
  {
    if LeafOnPrefix(c, path[1..]) {
      var i :| 1 <= i < |path| - 1 && LeafAt(c, path[1..][..i]);
      FollowStep(n, path, i + 1);
      assert LeafAt(n, path[..i + 1]);
    }
    assert !LeafAt(n, path[..1]) by {
      assert path[..1][0] == path[0];
      assert path[..1][1..] == [];
      assert Follow(n, path[..1]) == Follow(c, path[..1][1..]) == Some(Branch(c));
    }
    if LeafOnPrefix(n, path) {
      var i :| 1 <= i < |path| && LeafAt(n, path[..i]);
      FollowStep(n, path, i);
      assert LeafAt(c, path[1..][..i - 1]);
    }
  }

  /** A path through a missing key is not blocked. */
  lemma LeafOnPrefixMissing<K(!new)>(n: Node<K>, path: seq<K>)
    requires |path| >= 1 && Lookup(n, path[0]).None?
    ensures !LeafOnPrefix(n, path)
  {
    forall i | 1 <= i < |path|
      ensures !LeafAt(n, path[..i])
    {
      assert path[..i][0] == path[0];
    }
  }

  /** An insertion fails exactly when a leaf sits on a proper prefix of the path. */
  lemma {:induction false} InsertPathFailsIffBlocked<K(!new)>(n: Node<K>, path: seq<K>, s: Slot<K>)
    requires |path| >= 1
    ensures InsertPath(n, path, s).Err? <==> LeafOnPrefix(n, path)
    decreases |path|
  {
    if |path| >= 2 {
      var found := Lookup(n, path[0]);
      if found.Some? && found.value.Leaf? {
        assert path[..1] == [path[0]];
        assert LeafAt(n, path[..1]);
      } else if found.None? {
        LeafOnPrefixMissing(n, path);
        InsertPathFailsIffBlocked(Empty(), path[1..], s);
        LeafOnPrefixMissing(Empty<K>(), path[1..]);
      } else {
        InsertPathFailsIffBlocked(found.value.child, path[1..], s);
        LeafOnPrefixStep(n, path, found.value.child);
      }
    }
  }

  /** Nothing off the inserted path changes: a path that diverges from it
      follows to the same slot before and after. */
  lemma {:induction false} InsertPathFrame<K(!new)>(n: Node<K>, path: seq<K>, s: Slot<K>, p: seq<K>)
    requires |path| >= 1 && InsertPath(n, path, s).Ok?
    requires Diverge(p, path)
    ensures Follow(InsertPath(n, path, s).value, p) == Follow(n, p)
    decreases |path|
  {
    var r := InsertPath(n, path, s).value;
    var d :| 0 <= d < |p| && d < |path| && p[d] != path[d];
    if p[0] != path[0] {
      assert Lookup(r, p[0]) == Lookup(n, p[0]);
    } else {
      assert 1 <= d;
      var found := Lookup(n, path[0]);
      var c := if found.Some? then found.value.child else Empty();
      var c' := InsertPath(c, path[1..], s).value;
      assert p[1..][d - 1] != path[1..][d - 1];
      InsertPathFrame(c, path[1..], s, p[1..]);
      assert Follow(r, p) == Follow(c', p[1..]);
      if found.None? {
        assert Follow(Empty<K>(), p[1..]) == None;
      }
    }
  }

  /** Last write wins: inserting at the same path again gives the tree that
      the second insertion alone would have given. */
  lemma {:induction false} InsertPathTwice<K(!new)>(n: Node<K>, path: seq<K>, a: Slot<K>, b: Slot<K>)
    requires |path| >= 1 && InsertPath(n, path, a).Ok?
    ensures InsertPath(InsertPath(n, path, a).value, path, b) == InsertPath(n, path, b)
    decreases |path|
  {
    var r := InsertPath(n, path, a).value;
    if |path| == 1 {
      PutPut(n, path[0], a, b);
    } else {
      var found := Lookup(n, path[0]);
      var c := if found.Some? then found.value.child else Empty();
      var c1 := InsertPath(c, path[1..], a).value;
      InsertPathTwice(c, path[1..], a, b);
      assert Lookup(r, path[0]) == Some(Branch(c1));
      var second := InsertPath(c1, path[1..], b);
      if second.Ok? {
        PutPut(n, path[0], Branch(c1), Branch(second.value));
      }
    }
  }
  /** The keys a level has after a walk passes through it towards `next`: an
      existing subtree keeps its keys in order and gets `next` appended when
      it is new; a level the walk creates holds `next` alone. */
  function KeysAfterWalk<K(==,!new)>(n: Node<K>, level: seq<K>, next: K): seq<K>
  {
    if BranchAt(n, level) then
      var ks := Keys(Follow(n, level).value.child);
      if next in ks then ks else ks + [next]
    else [next]
  }

  lemma FollowEmpty<K(!new)>(p: seq<K>)
    requires |p| >= 1
    ensures Follow(Empty<K>(), p) == None
  {
    assert Keys(Empty<K>()) == [];
  }

  /** A successful walk of two or more segments rebuilds the first
      segment's subtree (a new empty one when the key was missing) from the
      walk of the rest of the path. */
  lemma InsertPathDescends<K(!new)>(n: Node<K>, path: seq<K>, s: Slot<K>)
    requires |path| >= 2 && InsertPath(n, path, s).Ok?
    ensures !(Lookup(n, path[0]).Some? && Lookup(n, path[0]).value.Leaf?)
    ensures InsertPath(ChildOrEmpty(n, path[0]), path[1..], s).Ok?
    ensures Lookup(InsertPath(n, path, s).value, path[0])
            == Some(Branch(InsertPath(ChildOrEmpty(n, path[0]), path[1..], s).value))
  {
  }

  /** The first level below the root. */
  lemma InsertPathFirstLevelKeys<K(!new)>(n: Node<K>, path: seq<K>, s: Slot<K>)
    requires 2 <= |path| && InsertPath(n, path, s).Ok?
    ensures BranchAt(InsertPath(n, path, s).value, path[..1])
    ensures Keys(Follow(InsertPath(n, path, s).value, path[..1]).value.child) == KeysAfterWalk(n, path[..1], path[1])
  {
    InsertPathDescends(n, path, s);
    var r := InsertPath(n, path, s).value;
    var c := ChildOrEmpty(n, path[0]);
    var c' := InsertPath(c, path[1..], s).value;
    assert path[..1][0] == path[0] && path[..1][1..] == [];
    assert Follow(r, path[..1]) == Some(Branch(c'));
    if Lookup(n, path[0]).Some? {
      assert Follow(n, path[..1]) == Some(Branch(c));
    } else {
      assert Keys(c) == [];
      assert Follow(n, path[..1]) == None;
    }
  }

  /** Following a path through a key that holds no leaf is following the
      rest of it in that key's subtree, or in an empty tree for a missing key. */
  lemma FollowThroughChild<K(!new)>(n: Node<K>, path: seq<K>, i: nat)
    requires 2 <= i <= |path|
    requires !(Lookup(n, path[0]).Some? && Lookup(n, path[0]).value.Leaf?)
    ensures Follow(n, path[..i]) == Follow(ChildOrEmpty(n, path[0]), path[1..][..i - 1])
  {
    if Lookup(n, path[0]).Some? {
      FollowStep(n, path, i);
    } else {
      assert path[..i][0] == path[0];
      FollowEmpty(path[1..][..i - 1]);
    }
  }

  lemma KeysAfterWalkSame<K(!new)>(n: Node<K>, p: seq<K>, c: Node<K>, q: seq<K>, next: K)
    requires Follow(n, p) == Follow(c, q)
    ensures KeysAfterWalk(n, p, next) == KeysAfterWalk(c, q, next)
  {
  }

  /** One level deeper: what the walk finds below the child at `path[0]`
      after the insertion carries over to the whole tree. */
  lemma InsertPathLevelKeysLift<K(!new)>(n: Node<K>, path: seq<K>, s: Slot<K>, i: nat, c': Node<K>)
    requires 2 <= i < |path| && InsertPath(n, path, s).Ok?
    requires InsertPath(ChildOrEmpty(n, path[0]), path[1..], s) == Ok(c')
    requires BranchAt(c', path[1..][..i - 1])
    requires Keys(Follow(c', path[1..][..i - 1]).value.child) == KeysAfterWalk(ChildOrEmpty(n, path[0]), path[1..][..i - 1], path[i])
    ensures BranchAt(InsertPath(n, path, s).value, path[..i])
    ensures Keys(Follow(InsertPath(n, path, s).value, path[..i]).value.child) == KeysAfterWalk(n, path[..i], path[i])
  {
    var r := InsertPath(n, path, s).value;
    var c := ChildOrEmpty(n, path[0]);
    var q := path[1..][..i - 1];
    assert Lookup(r, path[0]) == Some(Branch(c')) by {
      InsertPathDescends(n, path, s);
    }
    assert Follow(r, path[..i]) == Follow(c', q) by {
      FollowStep(r, path, i);
    }
    assert KeysAfterWalk(n, path[..i], path[i]) == KeysAfterWalk(c, q, path[i]) by {
      FollowThroughChild(n, path, i);
      KeysAfterWalkSame(n, path[..i], c, q, path[i]);
    }
  }

  /** The induction step of `InsertPathLevelKeys`, for levels below the
      first. */
  lemma {:induction false} InsertPathLevelKeysStep<K(!new)>(n: Node<K>, path: seq<K>, s: Slot<K>, i: nat)
    requires 2 <= i < |path| && InsertPath(n, path, s).Ok?
    ensures BranchAt(InsertPath(n, path, s).value, path[..i])
    ensures Keys(Follow(InsertPath(n, path, s).value, path[..i]).value.child) == KeysAfterWalk(n, path[..i], path[i])
    decreases |path|, 0
  {
    var c, rest := ChildOrEmpty(n, path[0]), path[1..];
    assert InsertPath(c, rest, s).Ok? by {
      InsertPathDescends(n, path, s);
    }
    var c' := InsertPath(c, rest, s).value;
    assert rest[i - 1] == path[i];
    InsertPathLevelKeys(c, rest, s, i - 1);
    InsertPathLevelKeysLift(n, path, s, i, c');
  }

  /** Key order below the root: at every level the walk passes through, the
      keys are kept in order and the next segment is appended when it is new,
      or the level is created holding just that segment. */
  lemma {:induction false} InsertPathLevelKeys<K(!new)>(n: Node<K>, path: seq<K>, s: Slot<K>, i: nat)
    requires 1 <= i < |path| && InsertPath(n, path, s).Ok?
    ensures BranchAt(InsertPath(n, path, s).value, path[..i])
    ensures Keys(Follow(InsertPath(n, path, s).value, path[..i]).value.child) == KeysAfterWalk(n, path[..i], path[i])
    decreases |path|, 1
  {
    if i == 1 {
      InsertPathFirstLevelKeys(n, path, s);
    } else {
      InsertPathLevelKeysStep(n, path, s, i);
    }
  }
}
