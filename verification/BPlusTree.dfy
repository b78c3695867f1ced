/** The mutable B+ tree of src/index/bptree.c.

  Nodes live on the heap with the source's fixed buffers.  A ghost `Shape` names the nodes below
  a node, and `Rep(s, t, after)` says that the heap below s.node stores the value tree t, with
  the leaves chained through `next` in left-to-right order and the last one pointing to `after`.
  Every method is proved to carry a representation of t to one of the tree computed by
  BPlusTreeModel, on disjoint footprints.
 */
module BPlusTree {
  import opened Common
  import opened BPlusTreeModel

  class Node {
    const keys: array<int>
    const rows: array<int>
    const children: array<Node?>
    var isLeaf: bool
    var keyCount: nat
    var next: Node?

    constructor (leaf: bool)
      ensures isLeaf == leaf && keyCount == 0 && next == null
      ensures Buffers(this)
      ensures fresh(Own(this))
    {
      keys := new int[MAX_KEYS](_ => 0);
      rows := new int[MAX_KEYS](_ => 0);
      children := new Node?[ORDER + 1](_ => null);
      isLeaf, keyCount, next := leaf, 0, null;
    }
  }

  ghost function Own(n: Node): set<object> {
    {n, n.keys, n.rows, n.children}
  }

  ghost predicate Buffers(n: Node) {
    && n.keys.Length == MAX_KEYS && n.rows.Length == MAX_KEYS && n.children.Length == ORDER + 1
    && n.keys != n.rows
  }

  // ---------------------------------------------------------------- shapes and footprints

  datatype Shape = Shape(node: Node, kids: seq<Shape>)

  ghost function Footprint(s: Shape): set<object>
    decreases s, 1
  {
    Own(s.node) + FootprintAll(s.kids)
  }

  ghost function FootprintAll(ss: seq<Shape>): set<object>
    decreases ss, 0
  {
    set i, o | 0 <= i < |ss| && o in Footprint(ss[i]) :: o
  }

  /** No node or buffer is shared below s. */
  ghost predicate Separate(s: Shape)
    decreases s, 1
  {
    Own(s.node) !! FootprintAll(s.kids) && SeparateAll(s.kids)
  }

  ghost predicate SeparateAll(ss: seq<Shape>)
    decreases ss, 0
  {
    && (forall i :: 0 <= i < |ss| ==> Separate(ss[i]))
    && (forall i, j :: 0 <= i < j < |ss| ==> Footprint(ss[i]) !! Footprint(ss[j]))
  }

  ghost function Roots(ss: seq<Shape>): (ns: seq<Node>)
    ensures |ns| == |ss|
  {
    seq(|ss|, i requires 0 <= i < |ss| => ss[i].node)
  }

  /** The leftmost leaf. */
  ghost function First(s: Shape): Node {
    if s.kids == [] then s.node else First(s.kids[0])
  }

  ghost function FirstOr(ss: seq<Shape>, after: Node?): Node? {
    if ss == [] then after else First(ss[0])
  }

  /** What the last leaf of ss[i] points to. */
  ghost function After(ss: seq<Shape>, i: nat, after: Node?): Node?
    requires i < |ss|
  {
    FirstOr(ss[i + 1..], after)
  }

  /** Every object a value mentions is allocated; stating it lets frames apply to a footprint. */
  lemma IsAllocated(objects: set<object>)
    ensures forall o :: o in objects ==> allocated(o)
  {
  }

  lemma FootprintAllConcat(a: seq<Shape>, b: seq<Shape>)
    ensures FootprintAll(a + b) == FootprintAll(a) + FootprintAll(b)
  {
    forall o | o in FootprintAll(a) + FootprintAll(b)
      ensures o in FootprintAll(a + b)
    {
      if o in FootprintAll(a) {
        var i :| 0 <= i < |a| && o in Footprint(a[i]);
        assert (a + b)[i] == a[i];
      } else {
        var i :| 0 <= i < |b| && o in Footprint(b[i]);
        assert (a + b)[|a| + i] == b[i];
      }
    }
  }

  lemma SeparateAllConcat(a: seq<Shape>, b: seq<Shape>)
    ensures SeparateAll(a + b) <==> SeparateAll(a) && SeparateAll(b) && FootprintAll(a) !! FootprintAll(b)
  {
    var ab := a + b;
    if SeparateAll(a) && SeparateAll(b) && FootprintAll(a) !! FootprintAll(b) {
      forall i, j | 0 <= i < j < |ab|
        ensures Footprint(ab[i]) !! Footprint(ab[j])
      {
        if i < |a| <= j {
          assert Footprint(a[i]) <= FootprintAll(a);
          assert Footprint(b[j - |a|]) <= FootprintAll(b);
        }
      }
    }
    if SeparateAll(ab) {
      forall i | 0 <= i < |a|
        ensures Separate(a[i])
      {
        assert a[i] == ab[i];
      }
      forall i | 0 <= i < |b|
        ensures Separate(b[i])
      {
        assert b[i] == ab[|a| + i];
      }
      forall i, j | 0 <= i < j < |a|
        ensures Footprint(a[i]) !! Footprint(a[j])
      {
        assert a[i] == ab[i] && a[j] == ab[j];
      }
      forall i, j | 0 <= i < j < |b|
        ensures Footprint(b[i]) !! Footprint(b[j])
      {
        assert b[i] == ab[|a| + i] && b[j] == ab[|a| + j];
      }
      forall i, j | 0 <= i < |a| && 0 <= j < |b|
        ensures Footprint(a[i]) !! Footprint(b[j])
      {
        assert ab[i] == a[i] && ab[|a| + j] == b[j];
      }
    }
  }

  // ---------------------------------------------------------------- representation

  ghost predicate LeafRep(n: Node, es: seq<Entry>, after: Node?)
    reads Own(n)
  {
    && Buffers(n)
    && n.isLeaf && n.keyCount == |es| <= MAX_KEYS && n.next == after
    && (forall i :: 0 <= i < |es| ==> n.keys[i] == es[i].key && n.rows[i] == es[i].row)
  }

  ghost predicate InnerRep(n: Node, keys: seq<int>, nodes: seq<Node>)
    reads Own(n)
  {
    && Buffers(n)
    && !n.isLeaf && n.keyCount == |keys| <= MAX_KEYS && |nodes| == |keys| + 1
    && n.keys[..|keys|] == keys
    && n.children[..|nodes|] == nodes
  }

  ghost predicate Rep(s: Shape, t: Tree, after: Node?)
    reads Footprint(s)
    decreases t, 1
  {
    match t
    case Leaf(es) => s.kids == [] && LeafRep(s.node, es, after)
    case Inner(keys, kids) => InnerRep(s.node, keys, Roots(s.kids)) && KidsRep(s.kids, kids, after)
  }

  /** Adjacent subtrees, chained into each other and the last one into `after`. */
  ghost predicate KidsRep(ss: seq<Shape>, ts: seq<Tree>, after: Node?)
    reads FootprintAll(ss)
    decreases ts, 0
  {
    && |ss| == |ts|
    && forall i :: 0 <= i < |ss| ==> Rep(ss[i], ts[i], After(ss, i, after))
  }

  lemma AfterConcat(a: seq<Shape>, b: seq<Shape>, after: Node?)
    ensures forall i :: 0 <= i < |a| ==> After(a + b, i, after) == After(a, i, FirstOr(b, after))
    ensures forall i :: 0 <= i < |b| ==> After(a + b, |a| + i, after) == After(b, i, after)
  {
    forall i | 0 <= i < |a|
      ensures After(a + b, i, after) == After(a, i, FirstOr(b, after))
    {
      assert (a + b)[i + 1..] == a[i + 1..] + b;
    }
    forall i | 0 <= i < |b|
      ensures After(a + b, |a| + i, after) == After(b, i, after)
    {
      assert (a + b)[|a| + i + 1..] == b[i + 1..];
    }
  }

  lemma KidsRepJoin(a: seq<Shape>, b: seq<Shape>, ta: seq<Tree>, tb: seq<Tree>, after: Node?)
    requires KidsRep(a, ta, FirstOr(b, after)) && KidsRep(b, tb, after)
    ensures KidsRep(a + b, ta + tb, after)
  {
    hide Rep, After;
    AfterConcat(a, b, after);
    forall i | 0 <= i < |a + b|
      ensures Rep((a + b)[i], (ta + tb)[i], After(a + b, i, after))
    {
      if i >= |a| {
        assert After(a + b, |a| + (i - |a|), after) == After(b, i - |a|, after);
      }
    }
  }

  lemma KidsRepSplit(a: seq<Shape>, b: seq<Shape>, ta: seq<Tree>, tb: seq<Tree>, after: Node?)
    requires |a| == |ta| && KidsRep(a + b, ta + tb, after)
    ensures KidsRep(a, ta, FirstOr(b, after)) && KidsRep(b, tb, after)
  {
    hide Rep, After;
    AfterConcat(a, b, after);
    forall i | 0 <= i < |a|
      ensures Rep(a[i], ta[i], After(a, i, FirstOr(b, after)))
    {
      assert Rep((a + b)[i], (ta + tb)[i], After(a + b, i, after));
    }
    forall i | 0 <= i < |b|
      ensures Rep(b[i], tb[i], After(b, i, after))
    {
      assert Rep((a + b)[|a| + i], (ta + tb)[|a| + i], After(a + b, |a| + i, after));
    }
  }

  // ---------------------------------------------------------------- buffer loops

  /** Shift a[slot..n] one place to the right and store x at slot. */
  method ShiftIn<T>(a: array<T>, n: nat, slot: nat, x: T)
    requires slot <= n < a.Length
    modifies a
    ensures a[..n + 1] == InsertAt(old(a[..n]), slot, x)
  {
    var index := n;
    while index > slot
      invariant slot <= index <= n
      invariant forall j :: 0 <= j < index ==> a[j] == old(a[j])
      invariant forall j :: index < j <= n ==> a[j] == old(a[j - 1])
    {
      a[index] := a[index - 1];
      index := index - 1;
    }
    a[slot] := x;
  }

  /** The temporary buffer of a split: the first n cells of a with x put in at slot. */
  method CopyWith<T(0)>(a: array<T>, n: nat, slot: nat, x: T) returns (temp: array<T>)
    requires slot <= n <= a.Length
    ensures fresh(temp) && temp.Length == n + 1
    ensures temp[..] == InsertAt(a[..n], slot, x)
  {
    temp := new T[n + 1];
    for index := 0 to slot
      invariant forall j :: 0 <= j < index ==> temp[j] == a[j]
    {
      temp[index] := a[index];
    }
    temp[slot] := x;
    for index := slot to n
      invariant forall j :: 0 <= j < slot ==> temp[j] == a[j]
      invariant temp[slot] == x
      invariant forall j :: slot < j <= index ==> temp[j] == a[j - 1]
    {
      temp[index + 1] := a[index];
    }
  }

  method CopySlice<T>(dst: array<T>, src: array<T>, from: nat, n: nat)
    requires dst != src && from + n <= src.Length && n <= dst.Length
    modifies dst
    ensures dst[..n] == src[from..from + n]
  {
    for index := 0 to n
      invariant forall j :: 0 <= j < index ==> dst[j] == src[from + j]
    {
      dst[index] := src[from + index];
    }
  }

  // ---------------------------------------------------------------- leaves

  /** bptree_leaf_search: binary search, ending at the insertion point. */
  method LeafSearch(leaf: Node, key: int, ghost es: seq<Entry>) returns (found: bool, slot: nat)
    requires LeafRep(leaf, es, leaf.next) && Ascending(es)
    ensures slot == Slot(es, key)
    ensures found <==> slot < |es| && es[slot].key == key
  {
    var low, high := 0, leaf.keyCount;
    while low < high
      invariant 0 <= low <= high <= |es|
      invariant forall i :: 0 <= i < low ==> es[i].key < key
      invariant forall i :: high <= i < |es| ==> key < es[i].key
    {
      var mid := low + (high - low) / 2;
      if leaf.keys[mid] == key {
        SlotUnique(es, key, mid);
        return true, mid;
      }
      if leaf.keys[mid] < key {
        low := mid + 1;
      } else {
        high := mid;
      }
    }
    SlotUnique(es, key, low);
    return false, low;
  }

  lemma RepKeys(n: Node, es: seq<Entry>, after: Node?)
    requires LeafRep(n, es, after)
    ensures n.keys[..|es|] == Keys(es) && n.rows[..|es|] == Rows(es)
  {
  }

  lemma RepFromKeys(n: Node, es: seq<Entry>)
    requires Buffers(n) && n.isLeaf && n.keyCount == |es| <= MAX_KEYS
    requires n.keys[..|es|] == Keys(es) && n.rows[..|es|] == Rows(es)
    ensures LeafRep(n, es, n.next)
  {
    forall i | 0 <= i < |es|
      ensures n.keys[i] == es[i].key && n.rows[i] == es[i].row
    {
      assert n.keys[i] == n.keys[..|es|][i] && n.rows[i] == n.rows[..|es|][i];
    }
  }

  ghost function Keys(es: seq<Entry>): (ks: seq<int>)
    ensures |ks| == |es|
  {
    seq(|es|, i requires 0 <= i < |es| => es[i].key)
  }

  ghost function Rows(es: seq<Entry>): (rs: seq<int>)
    ensures |rs| == |es|
  {
    seq(|es|, i requires 0 <= i < |es| => es[i].row)
  }

  lemma KeysInsertAt(es: seq<Entry>, p: nat, e: Entry)
    requires p <= |es|
    ensures Keys(InsertAt(es, p, e)) == InsertAt(Keys(es), p, e.key)
    ensures Rows(InsertAt(es, p, e)) == InsertAt(Rows(es), p, e.row)
  {
  }

  lemma KeysSlice(es: seq<Entry>, a: nat, b: nat)
    requires a <= b <= |es|
    ensures Keys(es[a..b]) == Keys(es)[a..b] && Rows(es[a..b]) == Rows(es)[a..b]
  {
  }

  /** bptree_insert_into_leaf without a split. */
  method LeafInsertInPlace(leaf: Node, key: int, row: int, slot: nat, ghost es: seq<Entry>, ghost after: Node?)
    requires LeafRep(leaf, es, after) && slot <= |es| < MAX_KEYS
    modifies Own(leaf)
    ensures LeafRep(leaf, InsertAt(es, slot, Entry(key, row)), after)
  {
    RepKeys(leaf, es, after);
    KeysInsertAt(es, slot, Entry(key, row));
    ShiftIn(leaf.keys, leaf.keyCount, slot, key);
    ShiftIn(leaf.rows, leaf.keyCount, slot, row);
    leaf.keyCount := leaf.keyCount + 1;
    RepFromKeys(leaf, InsertAt(es, slot, Entry(key, row)));
  }

  /** Load a leaf with a slice of the temporary buffers. */
  method FillLeaf(n: Node, tempKeys: array<int>, tempRows: array<int>, from: nat, count: nat, ghost all: seq<Entry>)
    requires Buffers(n) && n.isLeaf && from + count <= |all| && count <= MAX_KEYS
    requires tempKeys[..] == Keys(all) && tempRows[..] == Rows(all)
    requires tempKeys !in Own(n) && tempRows !in Own(n)
    modifies n`keyCount, n.keys, n.rows
    ensures LeafRep(n, all[from..from + count], n.next)
  {
    n.keyCount := count;
    CopySlice(n.keys, tempKeys, from, count);
    CopySlice(n.rows, tempRows, from, count);
    KeysSlice(all, from, from + count);
    assert tempKeys[from..from + count] == Keys(all)[from..from + count];
    assert tempRows[from..from + count] == Rows(all)[from..from + count];
    RepFromKeys(n, all[from..from + count]);
  }

  method TempLeaf(leaf: Node, key: int, row: int, slot: nat, ghost es: seq<Entry>)
    returns (tempKeys: array<int>, tempRows: array<int>)
    requires LeafRep(leaf, es, leaf.next) && slot <= |es|
    ensures fresh(tempKeys) && tempKeys[..] == Keys(InsertAt(es, slot, Entry(key, row)))
    ensures fresh(tempRows) && tempRows[..] == Rows(InsertAt(es, slot, Entry(key, row)))
  {
    RepKeys(leaf, es, leaf.next);
    KeysInsertAt(es, slot, Entry(key, row));
    hide InsertAt, Keys, Rows;
    tempKeys := CopyWith(leaf.keys, leaf.keyCount, slot, key);
    tempRows := CopyWith(leaf.rows, leaf.keyCount, slot, row);
  }

  /** bptree_insert_into_leaf with a split: the right half moves to a new leaf, which takes over
      the old chain pointer. */
  lemma Slices<T>(s: seq<T>, n: nat, m: nat)
    requires n <= |s| && m <= |s|
    ensures s[0..n] == s[..n] && s[m..|s|] == s[m..]
  {
  }

  method LeafSplit(leaf: Node, key: int, row: int, slot: nat, ghost es: seq<Entry>, ghost all: seq<Entry>, ghost after: Node?)
    returns (promoted: int, right: Node)
    requires LeafRep(leaf, es, after) && slot <= |es| == MAX_KEYS
    requires all == InsertAt(es, slot, Entry(key, row))
    modifies Own(leaf)
    ensures fresh(Own(right))
    ensures LeafRep(leaf, all[..HALF], right) && LeafRep(right, all[HALF..], after)
    ensures promoted == all[HALF].key
  {
    hide InsertAt, Keys, Rows;
    var tempKeys, tempRows := TempLeaf(leaf, key, row, slot, es);
    right := new Node(true);
    var splitIndex := ORDER / 2;
    FillLeaf(leaf, tempKeys, tempRows, 0, splitIndex, all);
    FillLeaf(right, tempKeys, tempRows, splitIndex, ORDER - splitIndex, all);
    Slices(all, HALF, HALF);
    right.next := leaf.next;
    leaf.next := right;
    promoted := right.keys[0];
    assert all[HALF..][0] == all[HALF];
  }

  // ---------------------------------------------------------------- inner nodes

  method FindChild(node: Node, key: int, ghost keys: seq<int>, ghost nodes: seq<Node>) returns (index: nat)
    requires InnerRep(node, keys, nodes)
    ensures index == ChildIndex(keys, key)
  {
    index := 0;
    while index < node.keyCount && key >= node.keys[index]
      invariant index <= |keys|
      invariant forall j :: 0 <= j < index ==> keys[j] <= key
    {
      index := index + 1;
    }
    ChildIndexUnique(keys, key, index);
  }

  /** Room left: the promoted key and the new child are shifted in. */
  method InnerInsertInPlace(node: Node, i: nat, k: int, child: Node, ghost keys: seq<int>, ghost nodes: seq<Node>)
    requires InnerRep(node, keys, nodes) && i <= |keys| < MAX_KEYS
    modifies Own(node)
    ensures InnerRep(node, InsertAt(keys, i, k), InsertAt(nodes, i + 1, child))
  {
    ShiftIn(node.keys, node.keyCount, i, k);
    ShiftIn(node.children, node.keyCount + 1, i + 1, child);
    node.keyCount := node.keyCount + 1;
  }

  /** Load an inner node with a slice of the temporary buffers. */
  method FillInner(n: Node, tempKeys: array<int>, tempChildren: array<Node?>, from: nat, count: nat,
                   ghost ks: seq<int>, ghost ns: seq<Node>)
    requires Buffers(n) && !n.isLeaf && from + count <= |ks| && count <= MAX_KEYS && |ns| == |ks| + 1
    requires tempKeys[..] == ks && tempChildren[..] == ns
    requires tempKeys !in Own(n) && tempChildren !in Own(n)
    modifies n`keyCount, n.keys, n.children
    ensures InnerRep(n, ks[from..from + count], ns[from..from + count + 1])
  {
    n.keyCount := count;
    CopySlice(n.keys, tempKeys, from, count);
    CopySlice(n.children, tempChildren, from, count + 1);
    assert tempKeys[from..from + count] == ks[from..from + count];
    assert tempChildren[from..from + count + 1] == ns[from..from + count + 1];
  }

  method TempInner(node: Node, i: nat, k: int, child: Node, ghost keys: seq<int>, ghost nodes: seq<Node>)
    returns (tempKeys: array<int>, tempChildren: array<Node?>)
    requires InnerRep(node, keys, nodes) && i <= |keys|
    ensures fresh(tempKeys) && tempKeys[..] == InsertAt(keys, i, k)
    ensures fresh(tempChildren) && tempChildren[..] == InsertAt(nodes, i + 1, child)
  {
    hide InsertAt;
    tempKeys := CopyWith(node.keys, node.keyCount, i, k);
    tempChildren := CopyWith(node.children, node.keyCount + 1, i + 1, child);
    assert tempChildren[..] == InsertAt(nodes, i + 1, child);
  }

  /** No room: the middle key moves up and the right half moves to a new inner node. */
  method InnerSplit(node: Node, i: nat, k: int, child: Node, ghost keys: seq<int>, ghost nodes: seq<Node>,
                    ghost ks: seq<int>, ghost ns: seq<Node>)
    returns (promoted: int, right: Node)
    requires InnerRep(node, keys, nodes) && i <= |keys| == MAX_KEYS
    requires ks == InsertAt(keys, i, k) && ns == InsertAt(nodes, i + 1, child)
    modifies Own(node)
    ensures fresh(Own(right))
    ensures promoted == ks[HALF]
    ensures InnerRep(node, ks[..HALF], ns[..HALF + 1])
    ensures InnerRep(right, ks[HALF + 1..], ns[HALF + 1..])
  {
    hide InsertAt;
    var tempKeys, tempChildren := TempInner(node, i, k, child, keys, nodes);
    right := new Node(false);
    var splitIndex := ORDER / 2;
    promoted := tempKeys[splitIndex];
    FillInner(node, tempKeys, tempChildren, 0, splitIndex, ks, ns);
    FillInner(right, tempKeys, tempChildren, splitIndex + 1, ORDER - splitIndex - 1, ks, ns);
    Slices(ks, HALF, HALF + 1);
    Slices(ns, HALF + 1, HALF + 1);
  }

  // ---------------------------------------------------------------- recursive insertion

  /** The trees an insertion leaves in place of the one it was given. */
  ghost function Pieces(r: InsertResult): seq<Tree> {
    match r
    case Duplicate => []
    case Fits(t) => [t]
    case Splits(l, _, r) => [l, r]
  }

  /** What a recursive insertion at `node` promises about the heap: the pieces computed by the
      model are represented by `ss`, chained where the old subtree was chained, on the old
      footprint plus fresh objects. */
  ghost predicate Replaced(node: Node, s: Shape, ss: seq<Shape>, r: InsertResult, promoted: int, right: Node?, after: Node?)
    reads FootprintAll(ss)
  {
    && KidsRep(ss, Pieces(r), after)
    && SeparateAll(ss)
    && (r.Fits? ==> |ss| == 1 && right == null)
    && (r.Splits? ==> |ss| == 2 && right == ss[1].node && promoted == r.separator)
    && (!r.Duplicate? ==> ss != [] && ss[0].node == node && First(ss[0]) == First(s))
  }

  lemma KidsRepOne(s: Shape, t: Tree, after: Node?)
    ensures KidsRep([s], [t], after) <==> Rep(s, t, after)
    ensures FootprintAll([s]) == Footprint(s)
    ensures SeparateAll([s]) <==> Separate(s)
  {
    assert After([s], 0, after) == after;
    assert KidsRep([s], [t], after) <==> Rep([s][0], [t][0], After([s], 0, after));
  }

  lemma KidsRepTwo(l: Shape, r: Shape, tl: Tree, tr: Tree, after: Node?)
    requires Rep(l, tl, First(r)) && Rep(r, tr, after)
    requires Separate(l) && Separate(r) && Footprint(l) !! Footprint(r)
    ensures KidsRep([l, r], [tl, tr], after)
    ensures SeparateAll([l, r]) && FootprintAll([l, r]) == Footprint(l) + Footprint(r)
  {
    hide Rep, KidsRep, Separate, SeparateAll, Footprint, FootprintAll, First;
    KidsRepOne(l, tl, First(r));
    KidsRepOne(r, tr, after);
    KidsRepJoin([l], [r], [tl], [tr], after);
    SeparateAllConcat([l], [r]);
    FootprintAllConcat([l], [r]);
    assert [l] + [r] == [l, r] && [tl] + [tr] == [tl, tr];
  }

  lemma LeafShape(n: Node, es: seq<Entry>, after: Node?)
    requires LeafRep(n, es, after)
    ensures var s := Shape(n, []);
            Rep(s, Leaf(es), after) && Separate(s) && Footprint(s) == Own(n) && First(s) == n
  {
  }

  /** bptree_insert_into_leaf. */
  method InsertIntoLeaf(leaf: Node, key: int, row: int, ghost es: seq<Entry>, ghost after: Node?)
    returns (ok: bool, promoted: int, right: Node?, ghost ss: seq<Shape>)
    requires LeafRep(leaf, es, after) && Ascending(es)
    modifies Own(leaf)
    ensures ok <==> !InsertLeaf(es, Entry(key, row)).Duplicate?
    ensures !ok ==> unchanged(Own(leaf))
    ensures ok ==> Replaced(leaf, Shape(leaf, []), ss, InsertLeaf(es, Entry(key, row)), promoted, right, after)
    ensures ok ==> fresh(FootprintAll(ss) - Own(leaf))
  {
    hide KidsRep, SeparateAll, FootprintAll, InsertAt, Rep, Separate, Footprint, First;
    promoted, right, ss := 0, null, [];
    var found, slot := LeafSearch(leaf, key, es);
    if found {
      return false, promoted, right, ss;
    }
    ok := true;
    ghost var all := InsertAt(es, slot, Entry(key, row));
    ghost var sl := Shape(leaf, []);
    if leaf.keyCount < MAX_KEYS {
      LeafInsertInPlace(leaf, key, row, slot, es, after);
      ss := [sl];
      LeafShape(leaf, all, after);
      KidsRepOne(sl, Leaf(all), after);
      return;
    }
    promoted, right := LeafSplit(leaf, key, row, slot, es, all, after);
    ghost var sr := Shape(right, []);
    ss := [sl, sr];
    LeafShape(leaf, all[..HALF], right);
    LeafShape(right, all[HALF..], after);
    KidsRepTwo(sl, sr, Leaf(all[..HALF]), Leaf(all[HALF..]), after);
  }

  /** The children of an inner node, cut around child i. */
  lemma KidsCut(ss: seq<Shape>, ts: seq<Tree>, i: nat, after: Node?)
    requires KidsRep(ss, ts, after) && SeparateAll(ss) && i < |ss|
    ensures var a, c := ss[..i], ss[i + 1..];
            && KidsRep(a, ts[..i], First(ss[i])) && SeparateAll(a)
            && Rep(ss[i], ts[i], FirstOr(c, after)) && Separate(ss[i])
            && KidsRep(c, ts[i + 1..], after) && SeparateAll(c)
            && FootprintAll(a) !! Footprint(ss[i]) && FootprintAll(c) !! Footprint(ss[i])
            && FootprintAll(a) !! FootprintAll(c)
            && FootprintAll(ss) == FootprintAll(a) + Footprint(ss[i]) + FootprintAll(c)
  {
    assert |ss| == |ts|;
    hide Rep, KidsRep, Separate, SeparateAll, Footprint, FootprintAll, First;
    var a, b, c := ss[..i], [ss[i]], ss[i + 1..];
    var ta, tb, tc := ts[..i], [ts[i]], ts[i + 1..];
    assert ss == (a + b) + c && ts == (ta + tb) + tc;
    KidsRepSplit(a + b, c, ta + tb, tc, after);
    KidsRepSplit(a, b, ta, tb, FirstOr(c, after));
    SeparateAllConcat(a + b, c);
    SeparateAllConcat(a, b);
    FootprintAllConcat(a + b, c);
    FootprintAllConcat(a, b);
    KidsRepOne(ss[i], ts[i], FirstOr(c, after));
  }

  /** Put pieces `m` back between the untouched children. */
  lemma KidsPaste(a: seq<Shape>, m: seq<Shape>, c: seq<Shape>, ta: seq<Tree>, tm: seq<Tree>, tc: seq<Tree>, after: Node?)
    requires m != []
    requires KidsRep(a, ta, First(m[0])) && KidsRep(m, tm, FirstOr(c, after)) && KidsRep(c, tc, after)
    requires SeparateAll(a) && SeparateAll(m) && SeparateAll(c)
    requires FootprintAll(a) !! FootprintAll(m) && FootprintAll(a) !! FootprintAll(c) && FootprintAll(m) !! FootprintAll(c)
    ensures KidsRep(a + m + c, ta + tm + tc, after)
    ensures SeparateAll(a + m + c)
    ensures FootprintAll(a + m + c) == FootprintAll(a) + FootprintAll(m) + FootprintAll(c)
  {
    hide Rep, KidsRep, Separate, SeparateAll, Footprint, FootprintAll, First;
    KidsRepJoin(a, m, ta, tm, FirstOr(c, after));
    KidsRepJoin(a + m, c, ta + tm, tc, after);
    SeparateAllConcat(a, m);
    SeparateAllConcat(a + m, c);
    FootprintAllConcat(a, m);
    FootprintAllConcat(a + m, c);
  }

  lemma RootsSlice(ss: seq<Shape>, a: nat, b: nat)
    requires a <= b <= |ss|
    ensures Roots(ss[a..b]) == Roots(ss)[a..b]
  {
  }

  lemma FirstOfKids(n: Node, kids: seq<Shape>)
    requires kids != []
    ensures First(Shape(n, kids)) == First(kids[0])
  {
  }

  /** A node over children that are already in the heap. */
  ghost predicate NodeOver(n: Node, keys: seq<int>, all: seq<Shape>, tall: seq<Tree>, after: Node?)
    reads Own(n), FootprintAll(all)
  {
    && InnerRep(n, keys, Roots(all)) && KidsRep(all, tall, after) && SeparateAll(all)
    && Own(n) !! FootprintAll(all)
  }

  lemma InnerShape(n: Node, keys: seq<int>, all: seq<Shape>, tall: seq<Tree>, after: Node?)
    requires NodeOver(n, keys, all, tall, after)
    ensures Rep(Shape(n, all), Inner(keys, tall), after) && Separate(Shape(n, all))
    ensures Footprint(Shape(n, all)) == Own(n) + FootprintAll(all)
  {
  }

  lemma ReplacedByOne(n: Node, s: Shape, keys: seq<int>, all: seq<Shape>, tall: seq<Tree>, promoted: int, after: Node?)
    requires NodeOver(n, keys, all, tall, after) && all != [] && First(all[0]) == First(s)
    ensures var ss := [Shape(n, all)];
            && Replaced(n, s, ss, Fits(Inner(keys, tall)), promoted, null, after)
            && FootprintAll(ss) == Own(n) + FootprintAll(all)
  {
    hide InnerRep, KidsRep, SeparateAll, FootprintAll, First, Roots, Rep, Separate, Footprint, NodeOver;
    InnerShape(n, keys, all, tall, after);
    KidsRepOne(Shape(n, all), Inner(keys, tall), after);
    FirstOfKids(n, all);
  }

  lemma ReplacedByTwo(n: Node, right: Node, s: Shape, ks: seq<int>, all: seq<Shape>, tall: seq<Tree>, after: Node?)
    requires |ks| == ORDER && |all| == |tall| == ORDER + 1 && First(all[0]) == First(s)
    requires InnerRep(n, ks[..HALF], Roots(all)[..HALF + 1])
    requires InnerRep(right, ks[HALF + 1..], Roots(all)[HALF + 1..])
    requires KidsRep(all, tall, after) && SeparateAll(all)
    requires Own(n) !! FootprintAll(all) && Own(right) !! FootprintAll(all) && Own(n) !! Own(right)
    ensures var ss := [Shape(n, all[..HALF + 1]), Shape(right, all[HALF + 1..])];
            var r := Splits(Inner(ks[..HALF], tall[..HALF + 1]), ks[HALF], Inner(ks[HALF + 1..], tall[HALF + 1..]));
            && Replaced(n, s, ss, r, ks[HALF], right, after)
            && FootprintAll(ss) == Own(n) + Own(right) + FootprintAll(all)
  {
    hide InnerRep, KidsRep, SeparateAll, FootprintAll, First, Roots, Rep, Separate, Footprint, Own;
    var la, ra, lt, rt := all[..HALF + 1], all[HALF + 1..], tall[..HALF + 1], tall[HALF + 1..];
    RootsSlice(all, 0, HALF + 1);
    RootsSlice(all, HALF + 1, ORDER + 1);
    assert all[0..HALF + 1] == la && all[HALF + 1..ORDER + 1] == ra;
    assert Roots(all)[0..HALF + 1] == Roots(all)[..HALF + 1] && Roots(all)[HALF + 1..ORDER + 1] == Roots(all)[HALF + 1..];
    assert all == la + ra && tall == lt + rt;
    FirstOfKids(n, la);
    FirstOfKids(right, ra);
    KidsRepSplit(la, ra, lt, rt, after);
    SeparateAllConcat(la, ra);
    FootprintAllConcat(la, ra);
    InnerShape(n, ks[..HALF], la, lt, First(ra[0]));
    InnerShape(right, ks[HALF + 1..], ra, rt, after);
    KidsRepTwo(Shape(n, la), Shape(right, ra), Inner(ks[..HALF], lt), Inner(ks[HALF + 1..], rt), after);
  }

  /** The children of a node with the right half of a split child in place, ready to be linked. */
  ghost predicate Linkable(node: Node, i: nat, childRight: Node, s: Shape, all: seq<Shape>, tall: seq<Tree>, after: Node?)
    reads FootprintAll(all)
  {
    && i < |s.kids|
    && Roots(all) == InsertAt(Roots(s.kids), i + 1, childRight)
    && |all| == |tall| && KidsRep(all, tall, after) && SeparateAll(all) && Own(node) !! FootprintAll(all)
    && all != [] && First(all[0]) == First(s)
  }

  /** bptree_insert_recursive with room for the child that split off. */
  method LinkChild(node: Node, i: nat, childKey: int, childRight: Node, ghost s: Shape, ghost keys: seq<int>,
                   ghost all: seq<Shape>, ghost tall: seq<Tree>, ghost after: Node?)
    returns (ghost ss: seq<Shape>)
    requires InnerRep(node, keys, Roots(s.kids)) && i <= |keys| < MAX_KEYS
    requires Linkable(node, i, childRight, s, all, tall, after)
    modifies Own(node)
    ensures Replaced(node, s, ss, Fits(Inner(InsertAt(keys, i, childKey), tall)), 0, null, after)
    ensures FootprintAll(ss) == Own(node) + FootprintAll(all)
  {
    hide InsertAt, KidsRep, SeparateAll, FootprintAll, First, Rep, Separate, Footprint, Roots;
    IsAllocated(FootprintAll(all));
    InnerInsertInPlace(node, i, childKey, childRight, keys, Roots(s.kids));
    ss := [Shape(node, all)];
    ReplacedByOne(node, s, InsertAt(keys, i, childKey), all, tall, 0, after);
  }

  /** bptree_insert_recursive with a full node: it splits in turn. */
  method SplitAndLinkChild(node: Node, i: nat, childKey: int, childRight: Node, ghost s: Shape, ghost keys: seq<int>,
                           ghost all: seq<Shape>, ghost tall: seq<Tree>, ghost ks: seq<int>, ghost after: Node?)
    returns (promoted: int, right: Node, ghost ss: seq<Shape>)
    requires InnerRep(node, keys, Roots(s.kids)) && i <= |keys| == MAX_KEYS
    requires Linkable(node, i, childRight, s, all, tall, after)
    requires ks == InsertAt(keys, i, childKey) && |tall| == ORDER + 1
    modifies Own(node)
    ensures var r := Splits(Inner(ks[..HALF], tall[..HALF + 1]), ks[HALF], Inner(ks[HALF + 1..], tall[HALF + 1..]));
            Replaced(node, s, ss, r, promoted, right, after)
    ensures FootprintAll(ss) == Own(node) + Own(right) + FootprintAll(all) && fresh(Own(right))
  {
    hide InsertAt, KidsRep, SeparateAll, FootprintAll, First, Rep, Separate, Footprint, Roots;
    IsAllocated(FootprintAll(all));
    promoted, right := InnerSplit(node, i, childKey, childRight, keys, Roots(s.kids), ks, Roots(all));
    ss := [Shape(node, all[..HALF + 1]), Shape(right, all[HALF + 1..])];
    ReplacedByTwo(node, right, s, ks, all, tall, after);
  }

  lemma RootsSpliced(ss: seq<Shape>, i: nat, m: seq<Shape>)
    requires i < |ss| && m != [] && m[0].node == ss[i].node && First(m[0]) == First(ss[i])
    ensures var all := ss[..i] + m + ss[i + 1..];
            && (|m| == 1 ==> Roots(all) == Roots(ss))
            && (|m| == 2 ==> Roots(all) == InsertAt(Roots(ss), i + 1, m[1].node))
            && First(all[0]) == First(ss[0])
  {
  }

  lemma TreesSpliced(ts: seq<Tree>, i: nat, r: InsertResult)
    requires i < |ts|
    ensures var all := ts[..i] + Pieces(r) + ts[i + 1..];
            && (r.Fits? ==> all == ts[i := r.tree])
            && (r.Splits? ==> all == InsertAt(ts[i := r.left], i + 1, r.right))
  {
  }

  /** The row `all` of children is the old row with the result of inserting into child i. */
  ghost predicate RightRow(s: Shape, ts: seq<Tree>, i: nat, r: InsertResult, all: seq<Shape>, tall: seq<Tree>, right: Node?) {
    && i < |s.kids| == |ts| && |all| == |tall|
    && (r.Fits? ==> right == null && Roots(all) == Roots(s.kids) && tall == ts[i := r.tree])
    && (r.Splits? ==>
          && right != null && Roots(all) == InsertAt(Roots(s.kids), i + 1, right)
          && tall == InsertAt(ts[i := r.left], i + 1, r.right))
  }

  /** After child i has been replaced by the pieces `m`, the children of the node again form one
      chained, unshared row, with the trees InsertInner puts there. */
  lemma ChildReplaced(s: Shape, ts: seq<Tree>, i: nat, m: seq<Shape>, r: InsertResult, k: int, right: Node?, after: Node?)
    requires i < |s.kids| == |ts| && !r.Duplicate?
    requires Replaced(s.kids[i].node, s.kids[i], m, r, k, right, FirstOr(s.kids[i + 1..], after))
    requires KidsRep(s.kids[..i], ts[..i], First(s.kids[i])) && KidsRep(s.kids[i + 1..], ts[i + 1..], after)
    requires SeparateAll(s.kids[..i]) && SeparateAll(s.kids[i + 1..])
    requires FootprintAll(s.kids[..i]) !! FootprintAll(s.kids[i + 1..])
    requires FootprintAll(m) !! FootprintAll(s.kids[..i]) && FootprintAll(m) !! FootprintAll(s.kids[i + 1..])
    ensures var all, tall := s.kids[..i] + m + s.kids[i + 1..], ts[..i] + Pieces(r) + ts[i + 1..];
            && KidsRep(all, tall, after) && SeparateAll(all) && all != [] && First(all[0]) == First(s)
            && FootprintAll(all) == FootprintAll(s.kids[..i]) + FootprintAll(m) + FootprintAll(s.kids[i + 1..])
            && RightRow(s, ts, i, r, all, tall, right)
  {
    FirstOfKids(s.node, s.kids);
    hide Rep, KidsRep, SeparateAll, FootprintAll, First, Separate, Footprint, Roots;
    KidsPaste(s.kids[..i], m, s.kids[i + 1..], ts[..i], Pieces(r), ts[i + 1..], after);
    RootsSpliced(s.kids, i, m);
    TreesSpliced(ts, i, r);
  }

  /** The part of bptree_insert_recursive after the call on the child. */
  method FinishInner(node: Node, i: nat, childKey: int, childRight: Node?, ghost s: Shape, ghost keys: seq<int>,
                     ghost kids: seq<Tree>, ghost r: InsertResult, ghost all: seq<Shape>, ghost tall: seq<Tree>,
                     ghost after: Node?)
    returns (promoted: int, right: Node?, ghost ss: seq<Shape>)
    requires InnerRep(node, keys, Roots(s.kids)) && !r.Duplicate? && (r.Splits? ==> childKey == r.separator)
    requires RightRow(s, kids, i, r, all, tall, childRight)
    requires KidsRep(all, tall, after) && SeparateAll(all) && Own(node) !! FootprintAll(all)
    requires all != [] && First(all[0]) == First(s)
    modifies Own(node)
    ensures Replaced(node, s, ss, InsertInner(keys, kids, i, r), promoted, right, after)
    ensures fresh(FootprintAll(ss) - Own(node) - FootprintAll(all))
  {
    hide KidsRep, SeparateAll, FootprintAll, First, Roots, InsertAt;
    promoted, right, ss := 0, null, [];
    if childRight == null {
      ss := [Shape(node, all)];
      ReplacedByOne(node, s, keys, all, tall, promoted, after);
    } else if node.keyCount < MAX_KEYS {
      ss := LinkChild(node, i, childKey, childRight, s, keys, all, tall, after);
    } else {
      promoted, right, ss := SplitAndLinkChild(node, i, childKey, childRight, s, keys, all, tall, InsertAt(keys, i, childKey), after);
    }
  }

  /** bptree_insert_recursive: performs Insert on the tree represented below node. */
  method InsertRecursive(node: Node, key: int, row: int, ghost s: Shape, ghost t: Tree, ghost after: Node?,
                         ghost fp: set<object>)
    returns (ok: bool, promoted: int, right: Node?, ghost ss: seq<Shape>)
    requires Rep(s, t, after) && Separate(s) && s.node == node && Searchable(t) && fp == Footprint(s)
    modifies fp
    ensures ok <==> !Insert(t, Entry(key, row)).Duplicate?
    ensures !ok ==> unchanged(fp)
    ensures ok ==> Replaced(node, s, ss, Insert(t, Entry(key, row)), promoted, right, after)
    ensures ok ==> fresh(FootprintAll(ss) - fp)
    decreases t, 1
  {
    if node.isLeaf {
      ok, promoted, right, ss := InsertIntoLeaf(node, key, row, t.entries, after);
    } else {
      ok, promoted, right, ss := InsertBelow(node, key, row, s, t, after, fp);
    }
  }

  method InsertBelow(node: Node, key: int, row: int, ghost s: Shape, ghost t: Tree, ghost after: Node?,
                     ghost fp: set<object>)
    returns (ok: bool, promoted: int, right: Node?, ghost ss: seq<Shape>)
    requires t.Inner?
    requires Rep(s, t, after) && Separate(s) && s.node == node && Searchable(t) && fp == Footprint(s)
    modifies fp
    ensures ok <==> !Insert(t, Entry(key, row)).Duplicate?
    ensures !ok ==> unchanged(fp)
    ensures ok ==> Replaced(node, s, ss, Insert(t, Entry(key, row)), promoted, right, after)
    ensures ok ==> fresh(FootprintAll(ss) - fp)
    decreases t, 0
  {
    hide *;
    ghost var keys, kids := t.keys, t.kids;
    InnerParts(s, t, after);
    IsAllocated(Own(node));
    var i, child := PickChild(node, key, keys, s.kids);
    ghost var a, m, c := s.kids[..i], s.kids[i], s.kids[i + 1..];
    KidsCut(s.kids, kids, i, after);
    ghost var r := Insert(kids[i], Entry(key, row));
    InsertAtChild(t, Entry(key, row));
    IsAllocated(FootprintAll(a));
    IsAllocated(FootprintAll(c));
    var childKey, childRight;
    ghost var ms;
    ok, childKey, childRight, ms := InsertRecursive(child, key, row, m, kids[i], FirstOr(c, after), Footprint(m));
    promoted, right, ss := 0, null, [];
    if !ok {
      return;
    }
    ghost var news := FootprintAll(ms) - Footprint(m);
    assert fresh(news);
    ChildReplaced(s, kids, i, ms, r, childKey, childRight, after);
    ghost var all, tall := a + ms + c, kids[..i] + Pieces(r) + kids[i + 1..];
    label linking:
    promoted, right, ss := FinishInner(node, i, childKey, childRight, s, keys, kids, r, all, tall, after);
    assert fresh(news);
    ghost var news' := FootprintAll(ss) - Own(node) - FootprintAll(all);
    assert fresh@linking(news');
    forall o | o in news'
      ensures fresh(o)
    {
      assert !old@linking(allocated(o));
    }
    assert forall o :: o in FootprintAll(ss) && o !in fp ==> o in news' || o in news;
    assert fresh(FootprintAll(ss) - fp);
  }

  lemma InnerParts(s: Shape, t: Tree, after: Node?)
    requires t.Inner? && Rep(s, t, after) && Separate(s) && Searchable(t)
    ensures InnerRep(s.node, t.keys, Roots(s.kids)) && KidsRep(s.kids, t.kids, after) && SeparateAll(s.kids)
    ensures Own(s.node) !! FootprintAll(s.kids) && Footprint(s) == Own(s.node) + FootprintAll(s.kids)
    ensures |s.kids| == |t.kids| == |t.keys| + 1 && forall i :: 0 <= i < |t.kids| ==> Searchable(t.kids[i])
  {
  }

  lemma InsertAtChild(t: Tree, e: Entry)
    requires t.Inner? && Searchable(t)
    ensures var i := ChildIndex(t.keys, e.key);
            && |t.keys| <= MAX_KEYS && |t.kids| == |t.keys| + 1
            && Insert(t, e) == InsertInner(t.keys, t.kids, i, Insert(t.kids[i], e))
            && (Insert(t, e).Duplicate? <==> Insert(t.kids[i], e).Duplicate?)
  {
  }

  method PickChild(node: Node, key: int, ghost keys: seq<int>, ghost kids: seq<Shape>) returns (index: nat, child: Node)
    requires InnerRep(node, keys, Roots(kids))
    ensures index == ChildIndex(keys, key) && index < |kids| && child == kids[index].node
  {
    index := FindChild(node, key, keys, Roots(kids));
    assert node.children[index] == node.children[..|kids|][index] == Roots(kids)[index];
    child := node.children[index];
  }

  // ---------------------------------------------------------------- the leaf chain

  datatype Cell = Cell(node: Node, entries: seq<Entry>)

  /** The leaves below s from left to right, with their contents. */
  ghost function Cells(s: Shape, t: Tree): seq<Cell>
    decreases t, 1
  {
    match t
    case Leaf(es) => [Cell(s.node, es)]
    case Inner(_, kids) => CellsOf(s.kids, kids)
  }

  ghost function CellsOf(ss: seq<Shape>, ts: seq<Tree>): seq<Cell>
    decreases ts, 0
  {
    if ss == [] || ts == [] then [] else Cells(ss[0], ts[0]) + CellsOf(ss[1..], ts[1..])
  }

  ghost function Joined(cells: seq<Cell>): seq<Entry> {
    if cells == [] then [] else cells[0].entries + Joined(cells[1..])
  }

  ghost function CellObjects(cells: seq<Cell>): set<object> {
    set i, o | 0 <= i < |cells| && o in Own(cells[i].node) :: o
  }

  ghost function HeadOr(cells: seq<Cell>, after: Node?): Node? {
    if cells == [] then after else cells[0].node
  }

  /** Following `next` from the first cell visits exactly these cells and then `after`. */
  ghost predicate Chain(cells: seq<Cell>, after: Node?)
    reads CellObjects(cells)
  {
    forall i :: 0 <= i < |cells| ==> LeafRep(cells[i].node, cells[i].entries, HeadOr(cells[i + 1..], after))
  }

  lemma ChainConcat(a: seq<Cell>, b: seq<Cell>, after: Node?)
    requires Chain(a, HeadOr(b, after)) && Chain(b, after)
    ensures Chain(a + b, after)
  {
    hide LeafRep;
    var ab := a + b;
    forall i | 0 <= i < |ab|
      ensures LeafRep(ab[i].node, ab[i].entries, HeadOr(ab[i + 1..], after))
    {
      if i < |a| {
        assert ab[i + 1..] == a[i + 1..] + b;
        assert LeafRep(a[i].node, a[i].entries, HeadOr(a[i + 1..], HeadOr(b, after)));
      } else {
        assert ab[i + 1..] == b[i - |a| + 1..];
        assert LeafRep(b[i - |a|].node, b[i - |a|].entries, HeadOr(b[i - |a| + 1..], after));
      }
    }
  }

  lemma {:induction false} JoinedConcat(a: seq<Cell>, b: seq<Cell>)
    ensures Joined(a + b) == Joined(a) + Joined(b)
    decreases |a|
  {
    if a == [] {
      assert a + b == b;
    } else {
      assert (a + b)[1..] == a[1..] + b;
      JoinedConcat(a[1..], b);
    }
  }

  /** The chain through the leaves is the in-order walk of the tree. */
  lemma {:induction false} RepIsChain(s: Shape, t: Tree, after: Node?)
    requires Rep(s, t, after) && Searchable(t)
    ensures var cells := Cells(s, t);
            && cells != [] && cells[0].node == First(s)
            && Chain(cells, after) && Joined(cells) == Entries(t) && CellObjects(cells) <= Footprint(s)
    decreases t, 1
  {
    match t
    case Leaf(es) =>
      var c := Cell(s.node, es);
      assert Joined([c]) == c.entries + Joined([c][1..]);
      assert HeadOr([c][0 + 1..], after) == after;
      assert Chain([c], after);
    case Inner(keys, kids) =>
      KidsRepIsChain(s.kids, kids, after);
  }

  lemma {:induction false} KidsRepIsChain(ss: seq<Shape>, ts: seq<Tree>, after: Node?)
    requires KidsRep(ss, ts, after) && forall i :: 0 <= i < |ts| ==> Searchable(ts[i])
    ensures var cells := CellsOf(ss, ts);
            && Chain(cells, after) && Joined(cells) == EntriesOf(ts) && HeadOr(cells, after) == FirstOr(ss, after)
            && (ss != [] ==> cells != []) && CellObjects(cells) <= FootprintAll(ss)
    decreases ts, 0
  {
    hide KidsRep, Rep, Chain, Joined, CellObjects, Footprint, FootprintAll, Entries, Searchable, Separate;
    hide SeparateAll, Cells;
    if ss == [] {
      NoCells(ss, ts, after);
    } else {
      KidsHead(ss, ts, after);
      var a, b := Cells(ss[0], ts[0]), CellsOf(ss[1..], ts[1..]);
      RepIsChain(ss[0], ts[0], FirstOr(ss[1..], after));
      KidsRepIsChain(ss[1..], ts[1..], after);
      ChainConcat(a, b, after);
      JoinedConcat(a, b);
      CellObjectsConcat(a, b);
    }
  }

  lemma NoCells(ss: seq<Shape>, ts: seq<Tree>, after: Node?)
    requires KidsRep(ss, ts, after) && ss == []
    ensures ts == [] && CellsOf(ss, ts) == [] && Chain([], after) && Joined([]) == [] && CellObjects([]) <= FootprintAll(ss)
  {
  }

  lemma KidsHead(ss: seq<Shape>, ts: seq<Tree>, after: Node?)
    requires KidsRep(ss, ts, after) && ss != []
    ensures |ss| == |ts|
    ensures Rep(ss[0], ts[0], FirstOr(ss[1..], after)) && KidsRep(ss[1..], ts[1..], after)
    ensures FootprintAll(ss) == Footprint(ss[0]) + FootprintAll(ss[1..])
  {
    assert |ss| == |ts|;
    hide KidsRep, Rep, FootprintAll, Footprint, SeparateAll, Separate, First;
    assert ss == [ss[0]] + ss[1..] && ts == [ts[0]] + ts[1..];
    KidsRepSplit([ss[0]], ss[1..], [ts[0]], ts[1..], after);
    KidsRepOne(ss[0], ts[0], FirstOr(ss[1..], after));
    FootprintAllConcat([ss[0]], ss[1..]);
  }

  lemma CellObjectsConcat(a: seq<Cell>, b: seq<Cell>)
    ensures CellObjects(a + b) == CellObjects(a) + CellObjects(b)
  {
    hide Own;
    forall o | o in CellObjects(a) + CellObjects(b)
      ensures o in CellObjects(a + b)
    {
      if o in CellObjects(a) {
        var i :| 0 <= i < |a| && o in Own(a[i].node);
        assert (a + b)[i] == a[i];
      } else {
        var i :| 0 <= i < |b| && o in Own(b[i].node);
        assert (a + b)[|a| + i] == b[i];
      }
    }
  }

  // ---------------------------------------------------------------- the tree

  /** A new root above the two halves of a split root. */
  method NewRoot(left: Node, promoted: int, right: Node, ghost ss: seq<Shape>, ghost ts: seq<Tree>)
    returns (top: Node, ghost s: Shape)
    requires |ss| == 2 && ss[0].node == left && ss[1].node == right
    requires KidsRep(ss, ts, null) && SeparateAll(ss)
    ensures fresh(Own(top)) && s.node == top
    ensures Rep(s, Inner([promoted], ts), null) && Separate(s) && Footprint(s) == Own(top) + FootprintAll(ss)
  {
    hide KidsRep, SeparateAll, FootprintAll, Rep, Separate, Footprint;
    IsAllocated(FootprintAll(ss));
    top := new Node(false);
    top.keys[0] := promoted;
    top.children[0], top.children[1] := left, right;
    top.keyCount := 1;
    s := Shape(top, ss);
    assert top.children[..2] == Roots(ss) && top.keys[..1] == [promoted];
    InnerShape(top, [promoted], ss, ts, null);
  }

  /** An index held by a possibly absent root. */
  ghost predicate Holds(root: Node?, shape: Option<Shape>, index: Index, fp: set<object>)
    reads fp
  {
    && (root == null <==> index.None?) && (index.None? <==> shape.None?)
    && (shape.None? ==> fp == {})
    && (shape.Some? ==> fp == Footprint(shape.value) && HeldBy(root, shape.value, index.value))
  }

  ghost predicate HeldBy(root: Node?, s: Shape, t: Tree)
    reads Footprint(s)
  {
    s.node == root && Separate(s) && Rep(s, t, null)
  }

  method FirstLeaf(key: int, row: int) returns (leaf: Node, ghost s: Shape)
    ensures HeldBy(leaf, s, Leaf([Entry(key, row)])) && fresh(Footprint(s))
  {
    leaf := new Node(true);
    leaf.keys[0], leaf.rows[0] := key, row;
    leaf.keyCount := 1;
    s := Shape(leaf, []);
  }

  /** bptree_insert below a tree that is not empty. */
  method InsertAtRoot(root: Node, key: int, row: int, ghost s: Shape, ghost t: Tree, ghost fp: set<object>)
    returns (ok: bool, root': Node, ghost s': Shape)
    requires HeldBy(root, s, t) && Searchable(t) && fp == Footprint(s)
    modifies fp
    ensures ok <==> InsertIndex(Some(t), Entry(key, row)).Some?
    ensures !ok ==> unchanged(fp) && root' == root && s' == s
    ensures ok ==> HeldBy(root', s', InsertIndex(Some(t), Entry(key, row)).value.value)
    ensures ok ==> fresh(Footprint(s') - fp)
  {
    hide KidsRep, SeparateAll, FootprintAll, Rep, Separate, Footprint, Searchable, First;
    root', s' := root, s;
    ghost var r := BPlusTreeModel.Insert(t, Entry(key, row));
    var promoted, right;
    ghost var ss;
    ok, promoted, right, ss := InsertRecursive(root, key, row, s, t, null, fp);
    if !ok {
      return;
    }
    if right == null {
      KidsRepOne(ss[0], r.tree, null);
      assert ss == [ss[0]];
      s' := ss[0];
    } else {
      IsAllocated(FootprintAll(ss));
      ghost var news := FootprintAll(ss) - fp;
      assert fresh(news);
      label growing:
      root', s' := NewRoot(root, promoted, right, ss, Pieces(r));
      forall o | o in Own(root')
        ensures fresh(o)
      {
        assert !old@growing(allocated(o));
      }
      assert forall o :: o in Footprint(s') - fp ==> o in news || o in Own(root');
      assert Inner([promoted], Pieces(r)) == InsertIndex(Some(t), Entry(key, row)).value.value;
    }
  }

  /** bptree_insert on a possibly empty tree. */
  method InsertRoot(root: Node?, key: int, row: int, ghost shape: Option<Shape>, ghost index: Index, ghost fp: set<object>)
    returns (ok: bool, root': Node?, ghost shape': Option<Shape>, ghost fp': set<object>)
    requires Holds(root, shape, index, fp) && (index.Some? ==> Searchable(index.value))
    modifies fp
    ensures ok <==> InsertIndex(index, Entry(key, row)).Some?
    ensures !ok ==> unchanged(fp) && root' == root && shape' == shape && fp' == fp
    ensures ok ==> Holds(root', shape', InsertIndex(index, Entry(key, row)).value, fp') && fresh(fp' - fp)
  {
    hide Footprint, HeldBy, Searchable;
    ghost var s;
    if root == null {
      root', s := FirstLeaf(key, row);
      ok := true;
    } else {
      ok, root', s := InsertAtRoot(root, key, row, shape.value, index.value, fp);
    }
    if ok {
      shape', fp' := Some(s), Footprint(s);
    } else {
      shape', fp' := shape, fp;
    }
  }

  lemma ChildRep(s: Shape, t: Tree, i: nat, after: Node?)
    requires t.Inner? && Rep(s, t, after) && i < |t.kids|
    ensures i < |s.kids| && Footprint(s.kids[i]) <= Footprint(s)
    ensures Rep(s.kids[i], t.kids[i], After(s.kids, i, after))
    ensures i <= s.node.keyCount && s.node.children[i] == s.kids[i].node
  {
    assert s.node.children[i] == s.node.children[..|s.kids|][i] == Roots(s.kids)[i];
  }

  /** bptree_search below a root. */
  method SearchFrom(top: Node, key: int, ghost s: Shape, ghost t: Tree) returns (found: bool, row: int)
    requires HeldBy(top, s, t) && Searchable(t)
    ensures found <==> Search(t, key).Some?
    ensures row == if found then Search(t, key).value else -1
  {
    var node := top;
    ghost var s', t', after: Node? := s, t, null;
    while !node.isLeaf
      invariant Rep(s', t', after) && s'.node == node && Searchable(t')
      invariant Search(t', key) == Search(t, key)
      decreases t'
    {
      IsAllocated(Footprint(s'));
      var i, child := PickChild(node, key, t'.keys, s'.kids);
      ChildRep(s', t', i, after);
      after := After(s'.kids, i, after);
      s', t' := s'.kids[i], t'.kids[i];
      node := child;
    }
    var slot;
    found, slot := LeafSearch(node, key, t'.entries);
    row := if found then node.rows[slot] else -1;
  }

  /** The descent of bptree_collect_keys to the leftmost leaf. */
  method LeftmostLeaf(top: Node, ghost s: Shape, ghost t: Tree) returns (node: Node)
    requires HeldBy(top, s, t) && Searchable(t)
    ensures node == First(s)
  {
    node := top;
    ghost var s', t', after: Node? := s, t, null;
    while !node.isLeaf
      invariant Rep(s', t', after) && s'.node == node && Searchable(t') && First(s') == First(s)
      decreases t'
    {
      ChildRep(s', t', 0, after);
      after := After(s'.kids, 0, after);
      s', t' := s'.kids[0], t'.kids[0];
      node := node.children[0];
    }
  }

  /** Copy the keys of one leaf behind the `written` keys already there; stops at capacity. */
  method CopyKeys(node: Node, out: array<int>, capacity: int, start: nat, ghost es: seq<Entry>) returns (ok: bool, written: nat)
    requires LeafRep(node, es, node.next) && out !in Own(node) && capacity <= out.Length
    requires start <= out.Length
    modifies out
    ensures start <= written <= start + |es| && written <= out.Length
    ensures out[..start] == old(out[..start])
    ensures out[start..written] == Keys(es)[..written - start]
    ensures ok <==> written == start + |es|
    ensures !ok ==> written >= capacity
    ensures written == start || written <= capacity
  {
    written := start;
    var index := 0;
    while index < node.keyCount
      invariant index <= |es| && written == start + index <= out.Length
      invariant out[..start] == old(out[..start])
      invariant forall j :: 0 <= j < index ==> out[start + j] == es[j].key
      invariant LeafRep(node, es, node.next)
      invariant written == start || written <= capacity
    {
      if written >= capacity {
        return false, written;
      }
      out[written] := node.keys[index];
      written := written + 1;
      index := index + 1;
    }
    return true, written;
  }

  /** The walk along the leaf chain. */
  method CollectFrom(first: Node?, out: array<int>, capacity: int, ghost cells: seq<Cell>) returns (ok: bool, written: nat)
    requires Chain(cells, null) && first == HeadOr(cells, null)
    requires out !in CellObjects(cells) && capacity <= out.Length
    modifies out
    ensures written <= |Joined(cells)| && written <= out.Length && out[..written] == Keys(Joined(cells))[..written]
    ensures ok <==> written == |Joined(cells)|
    ensures !ok ==> written >= capacity
    ensures written == 0 || written <= capacity
  {
    hide Chain, CellObjects, Joined, Keys;
    var node := first;
    written := 0;
    ghost var rest, done: seq<Entry> := cells, [];
    while node != null
      invariant Chain(rest, null) && node == HeadOr(rest, null) && out !in CellObjects(rest)
      invariant written == |done| <= out.Length && out[..written] == Keys(done)
      invariant Joined(cells) == done + Joined(rest)
      invariant written == 0 || written <= capacity
      decreases rest
    {
      ghost var es, tail := rest[0].entries, rest[1..];
      ChainTail(rest);
      IsAllocated(CellObjects(tail));
      ghost var before := written;
      ok, written := CopyKeys(node, out, capacity, written, es);
      assert out[..written] == out[..before] + out[before..written];
      KeysPrefix(done, es, Joined(tail), written - before);
      if !ok {
        return;
      }
      KeysOfBoth(done, es, Joined(tail));
      done, rest := done + es, tail;
      node := node.next;
    }
    JoinedEmpty();
    assert done + [] == done;
    ok := true;
  }

  lemma JoinedEmpty()
    ensures Joined([]) == []
  {
  }

  lemma ChainTail(cells: seq<Cell>)
    requires Chain(cells, null) && cells != []
    ensures LeafRep(cells[0].node, cells[0].entries, HeadOr(cells[1..], null)) && Chain(cells[1..], null)
    ensures Joined(cells) == cells[0].entries + Joined(cells[1..])
    ensures CellObjects(cells[1..]) <= CellObjects(cells) && Own(cells[0].node) <= CellObjects(cells)
  {
    var tail := cells[1..];
    forall i | 0 <= i < |tail|
      ensures LeafRep(tail[i].node, tail[i].entries, HeadOr(tail[i + 1..], null))
    {
      assert cells[i + 1 + 1..] == tail[i + 1..];
      assert LeafRep(cells[i + 1].node, cells[i + 1].entries, HeadOr(cells[i + 1 + 1..], null));
    }
  }

  lemma KeysPrefix(before: seq<Entry>, es: seq<Entry>, after: seq<Entry>, n: nat)
    requires n <= |es|
    ensures Keys(before + (es + after))[..|before| + n] == Keys(before) + Keys(es)[..n]
  {
  }

  lemma KeysOfBoth(before: seq<Entry>, es: seq<Entry>, after: seq<Entry>)
    ensures Keys(before + es) == Keys(before) + Keys(es)[..|es|]
    ensures before + (es + after) == before + es + after
  {
  }
}
