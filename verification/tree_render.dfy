/** The directory-style renderer shared by both implementations' `print_tree`.
    The two differ only in their connector strings, so the renderer takes them
    as a `Style`; output is returned as a sequence of lines instead of being
    printed. */
module TreeRender {
  import opened PathNode

  /** Connector strings: `tee` before a key that has later siblings, `elbow`
      before the last key, `pipe`/`blank` extend the prefix below a non-last /
      last key, and `leafConnector` precedes a leaf value. */
  datatype Style = Style(tee: string, elbow: string, pipe: string, blank: string, leafConnector: string)

  const EmptyTreeLine: string := "Empty tree"

  /** `str()` of a stored leaf value, given `str()` of the atoms. */
  function ShowValue<K>(show: K -> string, v: Value<K>): string
  {
    match v
    case Atom(a) => show(a)
    case EmptyList => "[]"
    case NoneValue => "None"
  }

  /** The lines for entries `i..` of `n`, in key order. */
  function RenderFrom<K>(st: Style, show: K -> string, n: Node<K>, i: nat, prefix: string): seq<string>
    requires i <= |n.entries|
    decreases n, |n.entries| - i, 1
  {
    if i == |n.entries| then []
    else EntryLines(st, show, n, i, prefix) + RenderFrom(st, show, n, i + 1, prefix)
  }

  /** The line naming key `i`: the elbow on the last key, the tee before it. */
  function KeyLine<K>(st: Style, show: K -> string, n: Node<K>, i: nat, prefix: string): string
    requires i < |n.entries|
  {
    prefix + (if i == |n.entries| - 1 then st.elbow else st.tee) + show(n.entries[i].0)
  }

  /** The prefix handed to everything printed below key `i`. */
  function ChildPrefix<K>(st: Style, n: Node<K>, i: nat, prefix: string): string
    requires i < |n.entries|
  {
    prefix + (if i == |n.entries| - 1 then st.blank else st.pipe)
  }

  /** The lines for entry `i` of `n`: the key line, then the subtree below a
      branch or the value line of a leaf that is not None. */
  function EntryLines<K>(st: Style, show: K -> string, n: Node<K>, i: nat, prefix: string): seq<string>
    requires i < |n.entries|
    decreases n, |n.entries| - i, 0
  {
    var line := KeyLine(st, show, n, i, prefix);
    var next := ChildPrefix(st, n, i, prefix);
    match n.entries[i].1
    case Branch(c) => [line] + RenderFrom(st, show, c, 0, next)
    case Leaf(NoneValue) => [line]
    case Leaf(v) => [line, next + st.leafConnector + ShowValue(show, v)]
  }

  /** `print_tree(prefix, is_root)`: a root without keys prints the sentinel
      line; otherwise every entry is rendered in key order. */
  function Render<K>(st: Style, show: K -> string, n: Node<K>, prefix: string, isRoot: bool): seq<string>
  {
    if isRoot && |n.entries| == 0 then [EmptyTreeLine]
    else RenderFrom(st, show, n, 0, prefix)
  }

  /** Number of keys in entries `i..` of `n` and in every subtree below them. */
  function KeysBelow<K>(n: Node<K>, i: nat): nat
    requires i <= |n.entries|
    decreases n, |n.entries| - i
  {
    if i == |n.entries| then 0
    else
      var inner := match n.entries[i].1
        case Branch(c) => KeysBelow(c, 0)
        case Leaf(_) => 0;
      1 + inner + KeysBelow(n, i + 1)
  }

  /** Number of leaves holding something other than None in entries `i..` of
      `n` and in every subtree below them. */
  function ShownLeavesBelow<K>(n: Node<K>, i: nat): nat
    requires i <= |n.entries|
    decreases n, |n.entries| - i
  {
    if i == |n.entries| then 0
    else
      var inner := match n.entries[i].1
        case Branch(c) => ShownLeavesBelow(c, 0)
        case Leaf(v) => if v.NoneValue? then 0 else 1;
      inner + ShownLeavesBelow(n, i + 1)
  }

  /** Every key renders exactly one line and every non-None leaf one more. */
  lemma {:induction false} RenderFromLength<K>(st: Style, show: K -> string, n: Node<K>, i: nat, prefix: string)
    requires i <= |n.entries|
    ensures |RenderFrom(st, show, n, i, prefix)| == KeysBelow(n, i) + ShownLeavesBelow(n, i)
    decreases n, |n.entries| - i
  {
    if i < |n.entries| {
      RenderFromLength(st, show, n, i + 1, prefix);
      var isLast := i == |n.entries| - 1;
      var next := prefix + (if isLast then st.blank else st.pipe);
      match n.entries[i].1
      case Branch(c) => RenderFromLength(st, show, c, 0, next);
      case Leaf(_) =>
    }
  }

  /** Every line rendered below a node carries that node's prefix. */
  lemma {:induction false} RenderFromPrefix<K>(st: Style, show: K -> string, n: Node<K>, i: nat, prefix: string)
    requires i <= |n.entries|
    ensures forall j :: 0 <= j < |RenderFrom(st, show, n, i, prefix)| ==>
              prefix <= RenderFrom(st, show, n, i, prefix)[j]
    decreases n, |n.entries| - i, 1
  {
    if i < |n.entries| {
      EntryLinesPrefix(st, show, n, i, prefix);
      RenderFromPrefix(st, show, n, i + 1, prefix);
    }
  }

  lemma {:induction false} EntryLinesPrefix<K>(st: Style, show: K -> string, n: Node<K>, i: nat, prefix: string)
    requires i < |n.entries|
    ensures forall j :: 0 <= j < |EntryLines(st, show, n, i, prefix)| ==>
              prefix <= EntryLines(st, show, n, i, prefix)[j]
    decreases n, |n.entries| - i, 0
  {
    var isLast := i == |n.entries| - 1;
    var next := prefix + (if isLast then st.blank else st.pipe);
    match n.entries[i].1
    case Branch(c) =>
      RenderFromPrefix(st, show, c, 0, next);
      var below := RenderFrom(st, show, c, 0, next);
      forall j | 0 <= j < |below|
        ensures prefix <= below[j]
      {
        assert below[j][..|prefix|] == next[..|prefix|] == prefix;
      }
    case Leaf(_) =>
  }

  /** The box-drawing characters of the Python renderer mapped to the ASCII
      characters the C renderer uses in their place. */
  function AsciiChar(c: char): char
  {
    if c == '├' then '|'
    else if c == '└' then '+'
    else if c == '─' then '-'
    else if c == '│' then '|'
    else c
  }

  function Asciify(s: string): (t: string)
    ensures |t| == |s|
    ensures forall i :: 0 <= i < |s| ==> t[i] == AsciiChar(s[i])
  {
    seq(|s|, i requires 0 <= i < |s| => AsciiChar(s[i]))
  }

  function AsciifyLines(ls: seq<string>): (ts: seq<string>)
    ensures |ts| == |ls|
    ensures forall i :: 0 <= i < |ls| ==> ts[i] == Asciify(ls[i])
  {
    seq(|ls|, i requires 0 <= i < |ls| => Asciify(ls[i]))
  }

  /** A string with no box-drawing character in it. */
  predicate Plain(s: string)
  {
    forall i :: 0 <= i < |s| ==> AsciiChar(s[i]) == s[i]
  }

  function AsciiStyle(st: Style): Style
  {
    Style(Asciify(st.tee), Asciify(st.elbow), Asciify(st.pipe), Asciify(st.blank), Asciify(st.leafConnector))
  }

  lemma AsciifyConcat(a: string, b: string)
    ensures Asciify(a + b) == Asciify(a) + Asciify(b)
  {
  }

  lemma AsciifyPlain(s: string)
    requires Plain(s)
    ensures Asciify(s) == s
  {
  }

  /** The key line and the prefix handed to the level below, asciified. */
  lemma AsciifyEntryParts(st: Style, prefix: string, isLast: bool, key: string)
    requires Plain(key)
    ensures Asciify(prefix + (if isLast then st.elbow else st.tee) + key)
            == Asciify(prefix) + (if isLast then AsciiStyle(st).elbow else AsciiStyle(st).tee) + key
    ensures Asciify(prefix + (if isLast then st.blank else st.pipe))
            == Asciify(prefix) + (if isLast then AsciiStyle(st).blank else AsciiStyle(st).pipe)
  {
    var conn := if isLast then st.elbow else st.tee;
    AsciifyConcat(prefix, conn);
    AsciifyConcat(prefix + conn, key);
    AsciifyPlain(key);
    AsciifyConcat(prefix, if isLast then st.blank else st.pipe);
  }

  /** The value line of a leaf, asciified. */
  lemma AsciifyLeafLine(st: Style, next: string, shown: string)
    requires Plain(shown)
    ensures Asciify(next + st.leafConnector + shown) == Asciify(next) + AsciiStyle(st).leafConnector + shown
  {
    AsciifyConcat(next, st.leafConnector);
    AsciifyConcat(next + st.leafConnector, shown);
    AsciifyPlain(shown);
  }

  lemma AsciifyLinesConcat(a: seq<string>, b: seq<string>)
    ensures AsciifyLines(a + b) == AsciifyLines(a) + AsciifyLines(b)
  {
  }

  /** Rendering with the asciified style and prefix gives the asciified lines,
      as long as no key or value prints a box-drawing character itself. */
  lemma {:induction false} RenderFromAsciified<K>(st: Style, show: K -> string, n: Node<K>, i: nat, prefix: string)
    requires i <= |n.entries|
    requires forall k :: Plain(show(k))
    ensures RenderFrom(AsciiStyle(st), show, n, i, Asciify(prefix)) == AsciifyLines(RenderFrom(st, show, n, i, prefix))
    decreases n, |n.entries| - i, 1
  {
    if i < |n.entries| {
      EntryLinesAsciified(st, show, n, i, prefix);
      RenderFromAsciified(st, show, n, i + 1, prefix);
      AsciifyLinesConcat(EntryLines(st, show, n, i, prefix), RenderFrom(st, show, n, i + 1, prefix));
    }
  }

  lemma {:induction false} EntryLinesAsciified<K>(st: Style, show: K -> string, n: Node<K>, i: nat, prefix: string)
    requires i < |n.entries|
    requires forall k :: Plain(show(k))
    ensures EntryLines(AsciiStyle(st), show, n, i, Asciify(prefix)) == AsciifyLines(EntryLines(st, show, n, i, prefix))
    decreases n, |n.entries| - i, 0
  {
    var isLast := i == |n.entries| - 1;
    var key := show(n.entries[i].0);
    var line := prefix + (if isLast then st.elbow else st.tee) + key;
    var next := prefix + (if isLast then st.blank else st.pipe);
    AsciifyEntryParts(st, prefix, isLast, key);
    match n.entries[i].1 {
      case Branch(c) =>
        RenderFromAsciified(st, show, c, 0, next);
        AsciifyLinesConcat([line], RenderFrom(st, show, c, 0, next));
      case Leaf(v) =>
        if !v.NoneValue? {
          assert Plain(ShowValue(show, v));
          AsciifyLeafLine(st, next, ShowValue(show, v));
        }
    }
  }
  /** How many lines entry `i` prints, counted from the tree's shape alone:
      its key line, then its subtree's lines or its value line. */
  function EntryLineCount<K>(n: Node<K>, i: nat): nat
    requires i < |n.entries|
  {
    match n.entries[i].1
    case Branch(c) => 1 + KeysBelow(c, 0) + ShownLeavesBelow(c, 0)
    case Leaf(v) => if v.NoneValue? then 1 else 2
  }

  /** Where entry `i`'s key line falls in the node's output: after all lines
      of the entries before it. */
  function Offset<K>(n: Node<K>, i: nat): nat
    requires i <= |n.entries|
    decreases i
  {
    if i == 0 then 0 else Offset(n, i - 1) + EntryLineCount(n, i - 1)
  }

  /** Key lines come in key order: each entry starts strictly after the
      previous one's block. */
  lemma {:induction false} OffsetGrows<K>(n: Node<K>, i: nat, j: nat)
    requires i <= j <= |n.entries|
    ensures Offset(n, i) + (j - i) <= Offset(n, j)
    ensures i < j ==> Offset(n, i) + EntryLineCount(n, i) <= Offset(n, j)
    decreases j - i
  {
    if i < j {
      OffsetGrows(n, i, j - 1);
    }
  }

  lemma EntryLinesLength<K>(st: Style, show: K -> string, n: Node<K>, i: nat, prefix: string)
    requires i < |n.entries|
    ensures |EntryLines(st, show, n, i, prefix)| == EntryLineCount(n, i)
  {
    match n.entries[i].1
    case Branch(c) => RenderFromLength(st, show, c, 0, ChildPrefix(st, n, i, prefix));
    case Leaf(_) =>
  }

  /** The output from entry `i` on is the node's output from `Offset(n, i)` on. */
  lemma {:induction false} RenderFromSuffix<K>(st: Style, show: K -> string, n: Node<K>, i: nat, prefix: string)
    requires i <= |n.entries|
    ensures Offset(n, i) <= |RenderFrom(st, show, n, 0, prefix)|
    ensures RenderFrom(st, show, n, 0, prefix)[Offset(n, i)..] == RenderFrom(st, show, n, i, prefix)
    decreases i
  {
    var lines := RenderFrom(st, show, n, 0, prefix);
    if i > 0 {
      RenderFromSuffix(st, show, n, i - 1, prefix);
      var e := EntryLines(st, show, n, i - 1, prefix);
      var rest := RenderFrom(st, show, n, i, prefix);
      EntryLinesLength(st, show, n, i - 1, prefix);
      assert lines[Offset(n, i - 1)..] == e + rest;
      assert lines[Offset(n, i)..] == (e + rest)[|e|..];
    }
  }

  /** Entry `i`'s lines sit in the node's output at `Offset(n, i)`. */
  lemma EntryBlock<K>(st: Style, show: K -> string, n: Node<K>, i: nat, prefix: string)
    requires i < |n.entries|
    ensures Offset(n, i) + EntryLineCount(n, i) <= |RenderFrom(st, show, n, 0, prefix)|
    ensures RenderFrom(st, show, n, 0, prefix)[Offset(n, i) .. Offset(n, i) + EntryLineCount(n, i)]
            == EntryLines(st, show, n, i, prefix)
  {
    var lines := RenderFrom(st, show, n, 0, prefix);
    RenderFromSuffix(st, show, n, i, prefix);
    EntryLinesLength(st, show, n, i, prefix);
    var e := EntryLines(st, show, n, i, prefix);
    assert lines[Offset(n, i)..] == e + RenderFrom(st, show, n, i + 1, prefix);
    assert lines[Offset(n, i) .. Offset(n, i) + |e|] == (e + RenderFrom(st, show, n, i + 1, prefix))[..|e|];
  }

  /** Every line of entry `i` after its key line carries the extended prefix. */
  lemma EntryBodyPrefix<K>(st: Style, show: K -> string, n: Node<K>, i: nat, prefix: string, j: nat)
    requires i < |n.entries| && 0 < j < |EntryLines(st, show, n, i, prefix)|
    ensures ChildPrefix(st, n, i, prefix) <= EntryLines(st, show, n, i, prefix)[j]
  {
    var next := ChildPrefix(st, n, i, prefix);
    match n.entries[i].1 {
      case Branch(c) =>
        RenderFromPrefix(st, show, c, 0, next);
        assert EntryLines(st, show, n, i, prefix)[j] == RenderFrom(st, show, c, 0, next)[j - 1];
      case Leaf(_) =>
    }
  }

  /** What entry `i` contributes to the node's output, at its offset. */
  lemma EntryLayout<K>(st: Style, show: K -> string, n: Node<K>, i: nat, prefix: string)
    requires i < |n.entries|
    ensures Offset(n, i) + EntryLineCount(n, i) <= |RenderFrom(st, show, n, 0, prefix)|
    ensures RenderFrom(st, show, n, 0, prefix)[Offset(n, i)] == KeyLine(st, show, n, i, prefix)
    ensures n.entries[i].1.Leaf? && !n.entries[i].1.leaf.NoneValue? ==>
              && Offset(n, i) + 2 <= |RenderFrom(st, show, n, 0, prefix)|
              && RenderFrom(st, show, n, 0, prefix)[Offset(n, i) + 1]
                 == ChildPrefix(st, n, i, prefix) + st.leafConnector + ShowValue(show, n.entries[i].1.leaf)
    ensures n.entries[i].1.Branch? ==>
              RenderFrom(st, show, n, 0, prefix)[Offset(n, i) + 1 .. Offset(n, i) + EntryLineCount(n, i)]
              == RenderFrom(st, show, n.entries[i].1.child, 0, ChildPrefix(st, n, i, prefix))
  {
    var lines := RenderFrom(st, show, n, 0, prefix);
    var o, cnt := Offset(n, i), EntryLineCount(n, i);
    EntryBlock(st, show, n, i, prefix);
    var block := EntryLines(st, show, n, i, prefix);
    assert lines[o .. o + cnt] == block;
    assert lines[o] == block[0];
    if n.entries[i].1.Leaf? && !n.entries[i].1.leaf.NoneValue? {
      assert lines[o + 1] == block[1];
    }
    if n.entries[i].1.Branch? {
      assert lines[o + 1 .. o + cnt] == block[1..];
    }
  }

  /** Every entry's key line sits at the entry's offset, in key order, with
      the elbow connector only on the last key; the offset past the last
      entry is the length of the output. */
  lemma RenderKeyLines<K>(st: Style, show: K -> string, n: Node<K>, prefix: string)
    ensures |RenderFrom(st, show, n, 0, prefix)| == Offset(n, |n.entries|)
    ensures forall i :: 0 <= i < |n.entries| ==>
              && Offset(n, i) + EntryLineCount(n, i) <= |RenderFrom(st, show, n, 0, prefix)|
              && RenderFrom(st, show, n, 0, prefix)[Offset(n, i)] == KeyLine(st, show, n, i, prefix)
  {
    RenderFromSuffix(st, show, n, |n.entries|, prefix);
    forall i | 0 <= i < |n.entries|
      ensures Offset(n, i) + EntryLineCount(n, i) <= |RenderFrom(st, show, n, 0, prefix)|
      ensures RenderFrom(st, show, n, 0, prefix)[Offset(n, i)] == KeyLine(st, show, n, i, prefix)
    {
      EntryLayout(st, show, n, i, prefix);
    }
  }

  /** Every line of an entry's block after its key line carries the
      extended prefix. */
  lemma RenderBodyPrefixes<K>(st: Style, show: K -> string, n: Node<K>, prefix: string)
    ensures forall i, j :: 0 <= i < |n.entries| && Offset(n, i) < j < Offset(n, i) + EntryLineCount(n, i) <= |RenderFrom(st, show, n, 0, prefix)| ==>
              ChildPrefix(st, n, i, prefix) <= RenderFrom(st, show, n, 0, prefix)[j]
  {
    forall i, j | 0 <= i < |n.entries| && Offset(n, i) < j < Offset(n, i) + EntryLineCount(n, i) <= |RenderFrom(st, show, n, 0, prefix)|
      ensures ChildPrefix(st, n, i, prefix) <= RenderFrom(st, show, n, 0, prefix)[j]
    {
      EntryBodyLine(st, show, n, i, prefix, j);
    }
  }

  /** A shown leaf's value line follows its key line; a subtree's lines
      follow its key line, rendered in full under the extended prefix. */
  lemma RenderLeafAndBranchLines<K>(st: Style, show: K -> string, n: Node<K>, prefix: string)
    ensures forall i :: 0 <= i < |n.entries| && n.entries[i].1.Leaf? && !n.entries[i].1.leaf.NoneValue? ==>
              && Offset(n, i) + 2 <= |RenderFrom(st, show, n, 0, prefix)|
              && RenderFrom(st, show, n, 0, prefix)[Offset(n, i) + 1]
                 == ChildPrefix(st, n, i, prefix) + st.leafConnector + ShowValue(show, n.entries[i].1.leaf)
    ensures forall i :: 0 <= i < |n.entries| && n.entries[i].1.Branch? ==>
              && Offset(n, i) + EntryLineCount(n, i) <= |RenderFrom(st, show, n, 0, prefix)|
              && RenderFrom(st, show, n, 0, prefix)[Offset(n, i) + 1 .. Offset(n, i) + EntryLineCount(n, i)]
                 == RenderFrom(st, show, n.entries[i].1.child, 0, ChildPrefix(st, n, i, prefix))
  {
    forall i | 0 <= i < |n.entries|
      ensures n.entries[i].1.Leaf? && !n.entries[i].1.leaf.NoneValue? ==>
                && Offset(n, i) + 2 <= |RenderFrom(st, show, n, 0, prefix)|
                && RenderFrom(st, show, n, 0, prefix)[Offset(n, i) + 1]
                   == ChildPrefix(st, n, i, prefix) + st.leafConnector + ShowValue(show, n.entries[i].1.leaf)
      ensures n.entries[i].1.Branch? ==>
                && Offset(n, i) + EntryLineCount(n, i) <= |RenderFrom(st, show, n, 0, prefix)|
                && RenderFrom(st, show, n, 0, prefix)[Offset(n, i) + 1 .. Offset(n, i) + EntryLineCount(n, i)]
                   == RenderFrom(st, show, n.entries[i].1.child, 0, ChildPrefix(st, n, i, prefix))
    {
      EntryLayout(st, show, n, i, prefix);
    }
  }

  /** A line inside entry `i`'s block, after its key line, carries the
      extended prefix. */
  lemma EntryBodyLine<K>(st: Style, show: K -> string, n: Node<K>, i: nat, prefix: string, j: nat)
    requires i < |n.entries|
    requires Offset(n, i) < j < Offset(n, i) + EntryLineCount(n, i) <= |RenderFrom(st, show, n, 0, prefix)|
    ensures ChildPrefix(st, n, i, prefix) <= RenderFrom(st, show, n, 0, prefix)[j]
  {
    var lines := RenderFrom(st, show, n, 0, prefix);
    var o := Offset(n, i);
    EntryBlock(st, show, n, i, prefix);
    EntryLinesLength(st, show, n, i, prefix);
    EntryBodyPrefix(st, show, n, i, prefix, j - o);
    assert lines[j] == lines[o .. o + EntryLineCount(n, i)][j - o];
  }
}
