/** The B+ tree of src/index/bptree.c as a value.

  A tree is described without node identities: a leaf holds (key, row) entries, an inner node
  holds separators and children.  `Insert` follows the recursive insertion of the source, split
  points included.  The reference it is compared with is a plain sorted list of entries, and
  through `MapOf` a finite map.  The heap version in BPlusTree.dfy performs exactly `Insert`.
 */
module BPlusTreeModel {
  import opened Common

  const ORDER := 100
  const MAX_KEYS := ORDER - 1
  const HALF := ORDER / 2

  datatype Entry = Entry(key: int, row: int)

  datatype Tree =
    | Leaf(entries: seq<Entry>)
    | Inner(keys: seq<int>, kids: seq<Tree>)

  datatype InsertResult =
    | Duplicate
    | Fits(tree: Tree)
    | Splits(left: Tree, separator: int, right: Tree)

  /** The sequence with `x` put in at position i. */
  function InsertAt<T>(s: seq<T>, i: nat, x: T): (r: seq<T>)
    requires i <= |s|
    ensures |r| == |s| + 1 && r[i] == x
    ensures forall j :: 0 <= j < i ==> r[j] == s[j]
    ensures forall j :: i < j < |r| ==> r[j] == s[j - 1]
  {
    s[..i] + [x] + s[i..]
  }

  // ---------------------------------------------------------------- reference: sorted lists

  ghost predicate Ascending(es: seq<Entry>) {
    forall i, j :: 0 <= i < j < |es| ==> es[i].key < es[j].key
  }

  ghost predicate Within(es: seq<Entry>, lo: int, hi: int) {
    forall i :: 0 <= i < |es| ==> lo <= es[i].key < hi
  }

  ghost predicate HasKey(es: seq<Entry>, key: int) {
    exists i :: 0 <= i < |es| && es[i].key == key
  }

  /** The number of leading entries below `key`: the insertion point in a sorted list. */
  function Slot(es: seq<Entry>, key: int): (p: nat)
    ensures p <= |es|
    ensures forall i :: 0 <= i < p ==> es[i].key < key
    ensures p < |es| ==> key <= es[p].key
  {
    if es == [] || key <= es[0].key then 0 else 1 + Slot(es[1..], key)
  }

  function InsertSorted(es: seq<Entry>, e: Entry): seq<Entry> {
    InsertAt(es, Slot(es, e.key), e)
  }

  /** The finite map a sorted list stands for. */
  ghost function MapOf(es: seq<Entry>): map<int, int>
    requires Ascending(es)
  {
    map i | 0 <= i < |es| :: es[i].key := es[i].row
  }

  lemma SlotUnique(es: seq<Entry>, key: int, p: nat)
    requires p <= |es|
    requires forall i :: 0 <= i < p ==> es[i].key < key
    requires p < |es| ==> key <= es[p].key
    ensures Slot(es, key) == p
  {
  }

  lemma InsertSortedAscending(es: seq<Entry>, e: Entry)
    requires Ascending(es) && !HasKey(es, e.key)
    ensures Ascending(InsertSorted(es, e))
  {
    hide InsertAt;
    var p := Slot(es, e.key);
    assert p < |es| ==> es[p].key != e.key;
  }

  lemma MapOfUnique(es: seq<Entry>, m: map<int, int>)
    requires Ascending(es)
    requires forall i :: 0 <= i < |es| ==> es[i].key in m && m[es[i].key] == es[i].row
    requires forall k :: k in m ==> HasKey(es, k)
    ensures MapOf(es) == m
  {
    forall k | k in m
      ensures k in MapOf(es)
    {
      var i :| 0 <= i < |es| && es[i].key == k;
    }
  }

  lemma MapOfKeys(es: seq<Entry>)
    requires Ascending(es)
    ensures forall k :: k in MapOf(es) <==> HasKey(es, k)
    ensures forall i :: 0 <= i < |es| ==> es[i].key in MapOf(es) && MapOf(es)[es[i].key] == es[i].row
  {
  }

  lemma InsertSortedIsMapUpdate(es: seq<Entry>, e: Entry)
    requires Ascending(es) && !HasKey(es, e.key)
    ensures Ascending(InsertSorted(es, e))
    ensures MapOf(InsertSorted(es, e)) == MapOf(es)[e.key := e.row]
  {
    hide InsertSorted, MapOf;
    var m := MapOf(es)[e.key := e.row];
    InsertSortedAscending(es, e);
    MapOfKeys(es);
    InsertedElements(es, e);
    forall k | k in m
      ensures HasKey(InsertSorted(es, e), k)
    {
      InsertedKeys(es, e, k);
    }
    MapOfUnique(InsertSorted(es, e), m);
  }

  /** The elements of the longer list: the new one and the old ones. */
  lemma InsertedElements(es: seq<Entry>, e: Entry)
    ensures forall i :: 0 <= i < |InsertSorted(es, e)| ==> InsertSorted(es, e)[i] == e || InsertSorted(es, e)[i] in es
  {
    hide InsertAt;
  }

  lemma InsertedKeys(es: seq<Entry>, e: Entry, k: int)
    requires k == e.key || HasKey(es, k)
    ensures HasKey(InsertSorted(es, e), k)
  {
    hide InsertAt;
    var p, r := Slot(es, e.key), InsertSorted(es, e);
    if k == e.key {
      assert r[p].key == k;
    } else {
      var i :| 0 <= i < |es| && es[i].key == k;
      assert r[if i < p then i else i + 1] == es[i];
    }
  }

  lemma InsertAtMiddle<T>(a: seq<T>, b: seq<T>, c: seq<T>, p: nat, x: T)
    requires p <= |b|
    ensures InsertAt(a + b + c, |a| + p, x) == a + InsertAt(b, p, x) + c
  {
    assert (a + b + c)[..|a| + p] == a + b[..p];
    assert (a + b + c)[|a| + p..] == b[p..] + c;
  }

  /** Inserting in the middle part of a list leaves the parts below and above alone. */
  lemma InsertSortedLocal(a: seq<Entry>, b: seq<Entry>, c: seq<Entry>, e: Entry)
    requires forall i :: 0 <= i < |a| ==> a[i].key < e.key
    requires forall i :: 0 <= i < |c| ==> e.key < c[i].key
    ensures InsertSorted(a + b + c, e) == a + InsertSorted(b, e) + c
  {
    var p := Slot(b, e.key);
    SlotUnique(a + b + c, e.key, |a| + p);
    InsertAtMiddle(a, b, c, p, e);
  }

  lemma HasKeyMiddle(a: seq<Entry>, b: seq<Entry>, c: seq<Entry>, key: int)
    requires forall i :: 0 <= i < |a| ==> a[i].key < key
    requires forall i :: 0 <= i < |c| ==> key < c[i].key
    ensures HasKey(a + b + c, key) <==> HasKey(b, key)
  {
    var all := a + b + c;
    if HasKey(all, key) {
      var i :| 0 <= i < |all| && all[i].key == key;
      assert all[i] == b[i - |a|];
    }
    if HasKey(b, key) {
      var i :| 0 <= i < |b| && b[i].key == key;
      assert all[|a| + i] == b[i];
    }
  }

  // ---------------------------------------------------------------- contents of a tree

  function Entries(t: Tree): seq<Entry>
    decreases t, 1
  {
    match t
    case Leaf(es) => es
    case Inner(_, kids) => EntriesOf(kids)
  }

  function EntriesOf(kids: seq<Tree>): seq<Entry>
    decreases kids, 0
  {
    if kids == [] then [] else Entries(kids[0]) + EntriesOf(kids[1..])
  }

  lemma {:induction false} EntriesOfConcat(a: seq<Tree>, b: seq<Tree>)
    ensures EntriesOf(a + b) == EntriesOf(a) + EntriesOf(b)
    decreases |a|
  {
    if a == [] {
      assert a + b == b;
    } else {
      assert (a + b)[1..] == a[1..] + b;
      EntriesOfConcat(a[1..], b);
    }
  }

  lemma EntriesOfPair(l: Tree, r: Tree)
    ensures EntriesOf([l, r]) == Entries(l) + Entries(r)
  {
    EntriesOfOne(r);
    assert [l, r][1..] == [r];
  }

  lemma EntriesOfOne(t: Tree)
    ensures EntriesOf([t]) == Entries(t)
  {
    assert EntriesOf([t][1..]) == [];
  }

  /** The entries of an inner node, split around child i. */
  lemma EntriesAround(kids: seq<Tree>, i: nat, mid: seq<Tree>)
    requires i < |kids|
    ensures EntriesOf(kids[..i] + mid + kids[i + 1..]) == EntriesOf(kids[..i]) + EntriesOf(mid) + EntriesOf(kids[i + 1..])
    ensures EntriesOf(kids) == EntriesOf(kids[..i]) + Entries(kids[i]) + EntriesOf(kids[i + 1..])
  {
    EntriesOfConcat(kids[..i] + mid, kids[i + 1..]);
    EntriesOfConcat(kids[..i], mid);
    assert kids == kids[..i] + [kids[i]] + kids[i + 1..];
    EntriesOfConcat(kids[..i] + [kids[i]], kids[i + 1..]);
    EntriesOfConcat(kids[..i], [kids[i]]);
    EntriesOfOne(kids[i]);
  }

  // ---------------------------------------------------------------- the tree invariant

  ghost predicate StrictlySorted(keys: seq<int>) {
    forall i, j :: 0 <= i < j < |keys| ==> keys[i] < keys[j]
  }

  /** Lower and upper bound of child i of an inner node that covers [lo, hi). */
  function Low(keys: seq<int>, i: nat, lo: int): int
    requires i <= |keys|
  {
    if i == 0 then lo else keys[i - 1]
  }

  function High(keys: seq<int>, i: nat, hi: int): int
    requires i <= |keys|
  {
    if i == |keys| then hi else keys[i]
  }

  /** A tree of `h` levels over [lo, hi): order, balance and occupancy together.  Only the root
      may hold fewer than half of the slots. */
  ghost predicate Valid(t: Tree, lo: int, hi: int, h: nat, root: bool)
    decreases t, 1
  {
    match t
    case Leaf(es) =>
      && h == 1
      && (if root then 1 else HALF) <= |es| <= MAX_KEYS
      && Ascending(es) && Within(es, lo, hi)
    case Inner(keys, kids) =>
      && h > 1
      && (if root then 1 else HALF - 1) <= |keys| <= MAX_KEYS
      && ValidKids(keys, kids, lo, hi, h - 1)
  }

  /** Separators sorted inside (lo, hi), and child i exactly over its own interval. */
  ghost predicate ValidKids(keys: seq<int>, kids: seq<Tree>, lo: int, hi: int, h: nat)
    decreases kids, 0
  {
    && |kids| == |keys| + 1
    && StrictlySorted(keys)
    && (forall i :: 0 <= i < |keys| ==> lo < keys[i] < hi)
    && (forall i :: 0 <= i < |kids| ==> Valid(kids[i], Low(keys, i, lo), High(keys, i, hi), h, false))
  }

  // ---------------------------------------------------------------- insertion and search

  /** What following child pointers and searching a leaf rely on: one more child than separators,
      no node over its buffers, leaves sorted. */
  ghost predicate Searchable(t: Tree) {
    match t
    case Leaf(es) => |es| <= MAX_KEYS && Ascending(es)
    case Inner(keys, kids) =>
      |keys| <= MAX_KEYS && |kids| == |keys| + 1 && forall i :: 0 <= i < |kids| ==> Searchable(kids[i])
  }

  /** bptree_child_index: the number of leading separators not above `key`. */
  function ChildIndex(keys: seq<int>, key: int): (i: nat)
    ensures i <= |keys|
    ensures forall j :: 0 <= j < i ==> keys[j] <= key
    ensures i < |keys| ==> key < keys[i]
  {
    if keys == [] || key < keys[0] then 0 else 1 + ChildIndex(keys[1..], key)
  }

  lemma ChildIndexUnique(keys: seq<int>, key: int, i: nat)
    requires i <= |keys|
    requires forall j :: 0 <= j < i ==> keys[j] <= key
    requires i < |keys| ==> key < keys[i]
    ensures ChildIndex(keys, key) == i
  {
  }

  ghost function Insert(t: Tree, e: Entry): InsertResult
    requires Searchable(t)
  {
    match t
    case Leaf(es) => InsertLeaf(es, e)
    case Inner(keys, kids) =>
      var i := ChildIndex(keys, e.key);
      InsertInner(keys, kids, i, Insert(kids[i], e))
  }

  function InsertLeaf(es: seq<Entry>, e: Entry): InsertResult
    requires |es| <= MAX_KEYS
  {
    var p := Slot(es, e.key);
    if p < |es| && es[p].key == e.key then Duplicate else
    var all := InsertSorted(es, e);
    if |es| < MAX_KEYS then Fits(Leaf(all))
    else Splits(Leaf(all[..HALF]), all[HALF].key, Leaf(all[HALF..]))
  }

  /** What an inner node becomes once its child i has been inserted into. */
  function InsertInner(keys: seq<int>, kids: seq<Tree>, i: nat, child: InsertResult): InsertResult
    requires i <= |keys| <= MAX_KEYS && |kids| == |keys| + 1
  {
    match child
    case Duplicate => Duplicate
    case Fits(t) => Fits(Inner(keys, kids[i := t]))
    case Splits(l, k, r) =>
      NewInner(InsertAt(keys, i, k), InsertAt(kids[i := l], i + 1, r))
  }

  /** One node if the separators fit, else two halves with the middle separator moved up. */
  function NewInner(ks: seq<int>, cs: seq<Tree>): InsertResult
    requires |ks| <= ORDER && |cs| == |ks| + 1
  {
    if |ks| <= MAX_KEYS then Fits(Inner(ks, cs))
    else Splits(Inner(ks[..HALF], cs[..HALF + 1]), ks[HALF], Inner(ks[HALF + 1..], cs[HALF + 1..]))
  }

  // ---------------------------------------------------------------- what the invariant gives

  lemma {:induction false} ValidIsSearchable(t: Tree, lo: int, hi: int, h: nat, root: bool)
    requires Valid(t, lo, hi, h, root)
    ensures Searchable(t)
    decreases t
  {
    if t.Inner? {
      forall i | 0 <= i < |t.kids|
        ensures Searchable(t.kids[i])
      {
        ValidIsSearchable(t.kids[i], Low(t.keys, i, lo), High(t.keys, i, hi), h - 1, false);
      }
    }
  }

  /** A valid tree lists its entries in ascending key order inside its interval. */
  lemma {:induction false} ValidEntries(t: Tree, lo: int, hi: int, h: nat, root: bool)
    requires Valid(t, lo, hi, h, root)
    ensures Ascending(Entries(t)) && Within(Entries(t), lo, hi)
    decreases t, 1, 0
  {
    if t.Inner? {
      ValidKidsEntries(t.keys, t.kids, lo, hi, h - 1, |t.kids|);
      assert t.kids[..|t.kids|] == t.kids;
    }
  }

  /** The first n children together are ascending below the bound of the last of them. */
  lemma {:induction false} ValidKidsEntries(keys: seq<int>, kids: seq<Tree>, lo: int, hi: int, h: nat, n: nat)
    requires ValidKids(keys, kids, lo, hi, h) && n <= |kids|
    ensures Ascending(EntriesOf(kids[..n]))
    ensures Within(EntriesOf(kids[..n]), lo, if n == 0 then lo else High(keys, n - 1, hi))
    decreases kids, 0, n
  {
    if n > 0 {
      ValidKidsEntries(keys, kids, lo, hi, h, n - 1);
      ValidEntries(kids[n - 1], Low(keys, n - 1, lo), High(keys, n - 1, hi), h, false);
      assert kids[..n] == kids[..n - 1] + [kids[n - 1]];
      EntriesOfConcat(kids[..n - 1], [kids[n - 1]]);
      EntriesOfOne(kids[n - 1]);
    }
  }

  /** The children after the first n hold only keys from the bound of child n upward. */
  lemma {:induction false} ValidKidsAbove(keys: seq<int>, kids: seq<Tree>, lo: int, hi: int, h: nat, n: nat)
    requires ValidKids(keys, kids, lo, hi, h) && n <= |kids|
    ensures n < |kids| ==> Within(EntriesOf(kids[n..]), Low(keys, n, lo), hi)
    ensures n == |kids| ==> EntriesOf(kids[n..]) == []
    decreases |kids| - n
  {
    if n < |kids| {
      ValidKidsAbove(keys, kids, lo, hi, h, n + 1);
      ValidEntries(kids[n], Low(keys, n, lo), High(keys, n, hi), h, false);
      assert kids[n..][1..] == kids[n + 1..];
    }
  }

  // ---------------------------------------------------------------- insertion refines the sorted list

  /** What one recursive insertion owes its caller: sorted-list insertion on the contents, and
      the invariant over the same interval, or over the two halves of it after a split. */
  ghost predicate Inserted(r: InsertResult, before: seq<Entry>, e: Entry, lo: int, hi: int, h: nat, root: bool) {
    match r
    case Duplicate => HasKey(before, e.key)
    case Fits(t) =>
      && !HasKey(before, e.key)
      && Entries(t) == InsertSorted(before, e)
      && Valid(t, lo, hi, h, root)
    case Splits(l, k, r) =>
      && !HasKey(before, e.key)
      && Entries(l) + Entries(r) == InsertSorted(before, e)
      && lo < k < hi
      && Valid(l, lo, k, h, false) && Valid(r, k, hi, h, false)
  }

  lemma InsertLeafCorrect(es: seq<Entry>, e: Entry, lo: int, hi: int, root: bool)
    requires Valid(Leaf(es), lo, hi, 1, root) && lo <= e.key < hi
    ensures Inserted(InsertLeaf(es, e), es, e, lo, hi, 1, root)
  {
    var p := Slot(es, e.key);
    if p < |es| && es[p].key == e.key {
    } else {
      assert !HasKey(es, e.key);
      InsertSortedAscending(es, e);
      var all := InsertSorted(es, e);
      assert Within(all, lo, hi);
      if |es| == MAX_KEYS {
        SplitLeafValid(all, lo, hi);
      }
    }
  }

  lemma SplitLeafValid(all: seq<Entry>, lo: int, hi: int)
    requires |all| == ORDER && Ascending(all) && Within(all, lo, hi)
    ensures lo < all[HALF].key < hi
    ensures Valid(Leaf(all[..HALF]), lo, all[HALF].key, 1, false)
    ensures Valid(Leaf(all[HALF..]), all[HALF].key, hi, 1, false)
    ensures all[..HALF] + all[HALF..] == all
  {
    assert lo <= all[0].key < all[HALF].key;
  }

  lemma {:induction false} InsertCorrect(t: Tree, e: Entry, lo: int, hi: int, h: nat, root: bool)
    requires Valid(t, lo, hi, h, root) && lo <= e.key < hi
    ensures Searchable(t)
    ensures Inserted(Insert(t, e), Entries(t), e, lo, hi, h, root)
    decreases t
  {
    ValidIsSearchable(t, lo, hi, h, root);
    match t
    case Leaf(es) =>
      InsertLeafCorrect(es, e, lo, hi, root);
    case Inner(keys, kids) =>
      var i := ChildIndex(keys, e.key);
      var clo, chi := Low(keys, i, lo), High(keys, i, hi);
      InsertCorrect(kids[i], e, clo, chi, h - 1, false);
      InsertInnerCorrect(keys, kids, e, i, Insert(kids[i], e), lo, hi, h, root);
  }

  lemma InsertInnerCorrect(keys: seq<int>, kids: seq<Tree>, e: Entry, i: nat, child: InsertResult,
                           lo: int, hi: int, h: nat, root: bool)
    requires h > 1 && (if root then 1 else HALF - 1) <= |keys| <= MAX_KEYS
    requires |kids| == |keys| + 1 && ValidKids(keys, kids, lo, hi, h - 1) && lo <= e.key < hi
    requires i == ChildIndex(keys, e.key)
    requires Inserted(child, Entries(kids[i]), e, Low(keys, i, lo), High(keys, i, hi), h - 1, false)
    ensures Inserted(InsertInner(keys, kids, i, child), EntriesOf(kids), e, lo, hi, h, root)
  {
    hide ValidKids, Valid, InsertSorted, InsertAt, EntriesOf, HasKey, Low, High;
    InsertAroundChild(keys, kids, e, i, lo, hi, h - 1);
    match child
    case Duplicate =>
    case Fits(t) =>
      FitsChildValid(keys, kids, i, t, lo, hi, h - 1);
      InnerFromParts(keys, kids[i := t], lo, hi, h, root, false);
    case Splits(l, k, r) =>
      SplitChildValid(keys, kids, i, l, k, r, lo, hi, h - 1);
      SplitChildEntries(kids, i, l, r);
      InnerFromParts(InsertAt(keys, i, k), InsertAt(kids[i := l], i + 1, r), lo, hi, h, root, |keys| == MAX_KEYS);
  }

  /** One more separator and child either still fit one node or make two half-full nodes. */
  lemma InnerFromParts(ks: seq<int>, cs: seq<Tree>, lo: int, hi: int, h: nat, root: bool, over: bool)
    requires h > 1 && ValidKids(ks, cs, lo, hi, h - 1)
    requires if over then |ks| == ORDER else (if root then 1 else HALF - 1) <= |ks| <= MAX_KEYS
    ensures !over ==> Valid(Inner(ks, cs), lo, hi, h, root)
    ensures over ==>
      && lo < ks[HALF] < hi && |cs| == ORDER + 1
      && Valid(Inner(ks[..HALF], cs[..HALF + 1]), lo, ks[HALF], h, false)
      && Valid(Inner(ks[HALF + 1..], cs[HALF + 1..]), ks[HALF], hi, h, false)
      && EntriesOf(cs) == EntriesOf(cs[..HALF + 1]) + EntriesOf(cs[HALF + 1..])
  {
    if over {
      HalvesValid(ks, cs, lo, hi, h - 1);
    }
  }

  lemma FitsChildValid(keys: seq<int>, kids: seq<Tree>, i: nat, t: Tree, lo: int, hi: int, h: nat)
    requires ValidKids(keys, kids, lo, hi, h) && i < |kids|
    requires Valid(t, Low(keys, i, lo), High(keys, i, hi), h, false)
    ensures ValidKids(keys, kids[i := t], lo, hi, h)
    ensures EntriesOf(kids[i := t]) == EntriesOf(kids[..i]) + Entries(t) + EntriesOf(kids[i + 1..])
  {
    assert kids[i := t] == kids[..i] + [t] + kids[i + 1..];
    EntriesAround(kids, i, [t]);
    EntriesOfOne(t);
  }

  /** Inserting the key sent to child i changes only the part of the list held by child i. */
  lemma InsertAroundChild(keys: seq<int>, kids: seq<Tree>, e: Entry, i: nat, lo: int, hi: int, h: nat)
    requires ValidKids(keys, kids, lo, hi, h) && i == ChildIndex(keys, e.key)
    ensures HasKey(EntriesOf(kids), e.key) <==> HasKey(Entries(kids[i]), e.key)
    ensures InsertSorted(EntriesOf(kids), e)
         == EntriesOf(kids[..i]) + InsertSorted(Entries(kids[i]), e) + EntriesOf(kids[i + 1..])
  {
    ValidKidsEntries(keys, kids, lo, hi, h, i);
    ValidKidsAbove(keys, kids, lo, hi, h, i + 1);
    hide ValidKids, EntriesOf, Entries, InsertSorted, HasKey, Ascending;
    EntriesAround(kids, i, []);
    HasKeyMiddle(EntriesOf(kids[..i]), Entries(kids[i]), EntriesOf(kids[i + 1..]), e.key);
    InsertSortedLocal(EntriesOf(kids[..i]), Entries(kids[i]), EntriesOf(kids[i + 1..]), e);
  }

  /** Replacing child i by the two halves of a split keeps separators and intervals right. */
  lemma SplitChildValid(keys: seq<int>, kids: seq<Tree>, i: nat, l: Tree, k: int, r: Tree, lo: int, hi: int, h: nat)
    requires ValidKids(keys, kids, lo, hi, h) && i < |kids|
    requires Low(keys, i, lo) < k < High(keys, i, hi)
    requires Valid(l, Low(keys, i, lo), k, h, false) && Valid(r, k, High(keys, i, hi), h, false)
    ensures ValidKids(InsertAt(keys, i, k), InsertAt(kids[i := l], i + 1, r), lo, hi, h)
  {
    hide Valid, InsertAt;
    var ks, cs := InsertAt(keys, i, k), InsertAt(kids[i := l], i + 1, r);
    forall j | 0 <= j < |cs|
      ensures Valid(cs[j], Low(ks, j, lo), High(ks, j, hi), h, false)
    {
      var q := if j <= i then j else j - 1;
      assert Valid(kids[q], Low(keys, q, lo), High(keys, q, hi), h, false);
    }
  }

  lemma SplitChildEntries(kids: seq<Tree>, i: nat, l: Tree, r: Tree)
    requires i < |kids|
    ensures EntriesOf(InsertAt(kids[i := l], i + 1, r))
         == EntriesOf(kids[..i]) + (Entries(l) + Entries(r)) + EntriesOf(kids[i + 1..])
  {
    assert InsertAt(kids[i := l], i + 1, r) == kids[..i] + [l, r] + kids[i + 1..];
    EntriesAround(kids, i, [l, r]);
    EntriesOfPair(l, r);
  }

  /** A contiguous run of children with the separators between them is valid over its own interval. */
  lemma KidsSliceValid(ks: seq<int>, cs: seq<Tree>, lo: int, hi: int, h: nat, a: nat, b: nat)
    requires ValidKids(ks, cs, lo, hi, h) && a <= b <= |ks|
    ensures ValidKids(ks[a..b], cs[a..b + 1], Low(ks, a, lo), High(ks, b, hi), h)
  {
    hide Valid;
    var k, c, l, u := ks[a..b], cs[a..b + 1], Low(ks, a, lo), High(ks, b, hi);
    forall j | 0 <= j < |c|
      ensures Valid(c[j], Low(k, j, l), High(k, j, u), h, false)
    {
      assert Valid(cs[a + j], Low(ks, a + j, lo), High(ks, a + j, hi), h, false);
    }
  }

  /** Cutting an over-full list of ORDER separators at HALF gives two valid inner nodes. */
  lemma HalvesValid(ks: seq<int>, cs: seq<Tree>, lo: int, hi: int, h: nat)
    requires |ks| == ORDER && |cs| == ORDER + 1 && ValidKids(ks, cs, lo, hi, h)
    ensures ValidKids(ks[..HALF], cs[..HALF + 1], lo, ks[HALF], h)
    ensures ValidKids(ks[HALF + 1..], cs[HALF + 1..], ks[HALF], hi, h)
    ensures EntriesOf(cs) == EntriesOf(cs[..HALF + 1]) + EntriesOf(cs[HALF + 1..])
  {
    assert cs == cs[..HALF + 1] + cs[HALF + 1..];
    EntriesOfConcat(cs[..HALF + 1], cs[HALF + 1..]);
    hide ValidKids, EntriesOf;
    KidsSliceValid(ks, cs, lo, hi, h, 0, HALF);
    KidsSliceValid(ks, cs, lo, hi, h, HALF + 1, ORDER);
    assert ks[HALF + 1..ORDER] == ks[HALF + 1..] && cs[HALF + 1..ORDER + 1] == cs[HALF + 1..];
    assert ks[0..HALF] == ks[..HALF] && cs[0..HALF + 1] == cs[..HALF + 1];
  }

  // ---------------------------------------------------------------- search

  ghost function Lookup(m: map<int, int>, key: int): Option<int> {
    if key in m then Some(m[key]) else None
  }

  /** bptree_search below a node. */
  function Search(t: Tree, key: int): Option<int>
    requires Searchable(t)
  {
    match t
    case Leaf(es) =>
      var p := Slot(es, key);
      if p < |es| && es[p].key == key then Some(es[p].row) else None
    case Inner(keys, kids) => Search(kids[ChildIndex(keys, key)], key)
  }

  /** The number of nodes bptree_search looks at. */
  function Visits(t: Tree, key: int): nat
    requires Searchable(t)
  {
    match t
    case Leaf(_) => 1
    case Inner(keys, kids) => 1 + Visits(kids[ChildIndex(keys, key)], key)
  }

  lemma {:induction false} SearchFindsEntry(t: Tree, key: int, lo: int, hi: int, h: nat, root: bool)
    requires Valid(t, lo, hi, h, root) && lo <= key < hi
    ensures Searchable(t)
    ensures Search(t, key).None? <==> !HasKey(Entries(t), key)
    ensures Search(t, key).Some? ==> Entry(key, Search(t, key).value) in Entries(t)
    ensures Visits(t, key) == h
    decreases t
  {
    ValidIsSearchable(t, lo, hi, h, root);
    match t
    case Leaf(es) =>
    case Inner(keys, kids) =>
      var i := ChildIndex(keys, key);
      SearchFindsEntry(kids[i], key, Low(keys, i, lo), High(keys, i, hi), h - 1, false);
      InsertAroundChild(keys, kids, Entry(key, 0), i, lo, hi, h - 1);
      EntriesAround(kids, i, []);
  }

  lemma SearchIsLookup(t: Tree, key: int, lo: int, hi: int, h: nat, root: bool)
    requires Valid(t, lo, hi, h, root) && lo <= key < hi
    ensures Searchable(t) && Ascending(Entries(t))
    ensures Search(t, key) == Lookup(MapOf(Entries(t)), key)
  {
    ValidEntries(t, lo, hi, h, root);
    SearchFindsEntry(t, key, lo, hi, h, root);
    hide Valid, Entries;
    var es := Entries(t);
    if Search(t, key).Some? {
      var i :| 0 <= i < |es| && es[i] == Entry(key, Search(t, key).value);
      assert es[i].key in MapOf(es);
    }
  }

  // ---------------------------------------------------------------- the whole index

  // Keys are C ints.
  const INT_MIN := -0x8000_0000
  const INT_MAX := 0x7fff_ffff

  type Index = Option<Tree>

  predicate IsInt(k: int) { INT_MIN <= k <= INT_MAX }

  function Height(t: Tree): nat {
    match t
    case Leaf(_) => 1
    case Inner(_, kids) => if kids == [] then 1 else 1 + Height(kids[0])
  }

  lemma {:induction false} ValidHeight(t: Tree, lo: int, hi: int, h: nat, root: bool)
    requires Valid(t, lo, hi, h, root)
    ensures Height(t) == h
    decreases t
  {
    if t.Inner? {
      ValidHeight(t.kids[0], Low(t.keys, 0, lo), High(t.keys, 0, hi), h - 1, false);
    }
  }

  ghost predicate ValidIndex(ix: Index) {
    ix.Some? ==> Valid(ix.value, INT_MIN, INT_MAX + 1, Height(ix.value), true)
  }

  function IndexEntries(ix: Index): seq<Entry> {
    if ix.None? then [] else Entries(ix.value)
  }

  lemma ValidIndexEntries(ix: Index)
    requires ValidIndex(ix)
    ensures Ascending(IndexEntries(ix)) && Within(IndexEntries(ix), INT_MIN, INT_MAX + 1)
  {
    if ix.Some? {
      ValidEntries(ix.value, INT_MIN, INT_MAX + 1, Height(ix.value), true);
    }
  }

  ghost function Contents(ix: Index): map<int, int>
    requires ValidIndex(ix)
  {
    ValidIndexEntries(ix);
    MapOf(IndexEntries(ix))
  }

  /** bptree_insert: the new index, or None for a duplicate key. */
  ghost function InsertIndex(ix: Index, e: Entry): Option<Index>
    requires ix.Some? ==> Searchable(ix.value)
  {
    match ix
    case None => Some(Some(Leaf([e])))
    case Some(t) =>
      match Insert(t, e)
      case Duplicate => None
      case Fits(t') => Some(Some(t'))
      case Splits(l, k, r) => Some(Some(Inner([k], [l, r])))
  }

  /** One insertion is map update on a fresh key and refusal on a present one. */
  lemma InsertIndexCorrect(ix: Index, e: Entry)
    requires ValidIndex(ix) && IsInt(e.key)
    ensures ix.Some? ==> Searchable(ix.value)
    ensures InsertIndex(ix, e).None? <==> e.key in Contents(ix)
    ensures InsertIndex(ix, e).Some? ==>
      && ValidIndex(InsertIndex(ix, e).value)
      && IndexEntries(InsertIndex(ix, e).value) == InsertSorted(IndexEntries(ix), e)
      && Contents(InsertIndex(ix, e).value) == Contents(ix)[e.key := e.row]
  {
    ValidIndexEntries(ix);
    var es := IndexEntries(ix);
    assert HasKey(es, e.key) <==> e.key in Contents(ix);
    match ix
    case None =>
      assert InsertSorted([], e) == [e];
      InsertSortedIsMapUpdate([], e);
    case Some(t) =>
      var h := Height(t);
      InsertCorrect(t, e, INT_MIN, INT_MAX + 1, h, true);
      match Insert(t, e)
      case Duplicate =>
      case Fits(t') =>
        ValidHeight(t', INT_MIN, INT_MAX + 1, h, true);
        InsertSortedIsMapUpdate(es, e);
      case Splits(l, k, r) =>
        NewRootValid(l, k, r, h);
        InsertSortedIsMapUpdate(es, e);
  }

  lemma NewRootValid(l: Tree, k: int, r: Tree, h: nat)
    requires INT_MIN < k <= INT_MAX
    requires Valid(l, INT_MIN, k, h, false) && Valid(r, k, INT_MAX + 1, h, false)
    ensures ValidIndex(Some(Inner([k], [l, r])))
    ensures EntriesOf([l, r]) == Entries(l) + Entries(r)
  {
    EntriesOfPair(l, r);
    var t := Inner([k], [l, r]);
    assert ValidKids(t.keys, t.kids, INT_MIN, INT_MAX + 1, h);
    ValidHeight(t, INT_MIN, INT_MAX + 1, h + 1, true);
  }

  /** The index after one bptree_insert call; a refused one leaves it alone. */
  ghost function NextIndex(ix: Index, e: Entry): (r: Index)
    requires ValidIndex(ix) && IsInt(e.key)
    ensures ValidIndex(r)
    ensures Contents(r) == if e.key in Contents(ix) then Contents(ix) else Contents(ix)[e.key := e.row]
  {
    InsertIndexCorrect(ix, e);
    var next := InsertIndex(ix, e);
    if next.Some? then next.value else ix
  }

  /** A sequence of bptree_insert calls. */
  ghost function InsertAll(ix: Index, es: seq<Entry>): (r: Index)
    requires ValidIndex(ix) && forall i :: 0 <= i < |es| ==> IsInt(es[i].key)
    ensures ValidIndex(r)
    decreases es
  {
    if es == [] then ix else InsertAll(NextIndex(ix, es[0]), es[1..])
  }

  /** The same sequence on a plain map: the first row given for a key stays. */
  function PutAll(m: map<int, int>, es: seq<Entry>): map<int, int>
    decreases es
  {
    if es == [] then m
    else PutAll(if es[0].key in m then m else m[es[0].key := es[0].row], es[1..])
  }

  /** After any insert sequence the tree is valid, is the map, and finds what the map finds. */
  lemma {:induction false} InsertAllIsPutAll(ix: Index, es: seq<Entry>)
    requires ValidIndex(ix) && forall i :: 0 <= i < |es| ==> IsInt(es[i].key)
    ensures Contents(InsertAll(ix, es)) == PutAll(Contents(ix), es)
    decreases es
  {
    if es != [] {
      InsertAllIsPutAll(NextIndex(ix, es[0]), es[1..]);
    }
  }

  // ---------------------------------------------------------------- height

  function Pow(b: nat, n: nat): nat {
    if n == 0 then 1 else b * Pow(b, n - 1)
  }

  /** A non-root subtree of h levels holds at least HALF^h entries. */
  lemma {:induction false} ManyEntries(t: Tree, lo: int, hi: int, h: nat)
    requires Valid(t, lo, hi, h, false)
    ensures |Entries(t)| >= Pow(HALF, h)
    decreases t, 1, 0
  {
    match t
    case Leaf(es) =>
      assert Pow(HALF, 1) == HALF * Pow(HALF, 0);
    case Inner(keys, kids) =>
      ManyKidsEntries(keys, kids, lo, hi, h - 1, |kids|);
      assert kids[..|kids|] == kids;
      TimesMonotone(HALF, |kids|, Pow(HALF, h - 1));
  }

  lemma {:induction false} ManyKidsEntries(keys: seq<int>, kids: seq<Tree>, lo: int, hi: int, h: nat, n: nat)
    requires ValidKids(keys, kids, lo, hi, h) && n <= |kids|
    ensures |EntriesOf(kids[..n])| >= n * Pow(HALF, h)
    decreases kids, 0, n
  {
    hide Pow;
    if n == 0 {
    } else {
      var p := Pow(HALF, h);
      assert n * p == (n - 1) * p + p;
      ManyKidsEntries(keys, kids, lo, hi, h, n - 1);
      ManyEntries(kids[n - 1], Low(keys, n - 1, lo), High(keys, n - 1, hi), h);
      assert kids[..n] == kids[..n - 1] + [kids[n - 1]];
      EntriesOfConcat(kids[..n - 1], [kids[n - 1]]);
      EntriesOfOne(kids[n - 1]);
    }
  }

  /** A root of h >= 2 levels holds at least 2 * HALF^(h-1) entries. */
  lemma RootManyEntries(t: Tree, h: nat)
    requires Valid(t, INT_MIN, INT_MAX + 1, h, true) && h >= 2
    ensures |Entries(t)| >= 2 * Pow(HALF, h - 1)
  {
    ManyKidsEntries(t.keys, t.kids, INT_MIN, INT_MAX + 1, h - 1, |t.kids|);
    assert t.kids[..|t.kids|] == t.kids;
    TimesMonotone(2, |t.kids|, Pow(HALF, h - 1));
  }

  lemma TimesMonotone(a: nat, b: nat, c: nat)
    requires a <= b
    ensures a * c <= b * c
  {
  }

  lemma {:induction false} AscendingFitsInterval(es: seq<Entry>, lo: int, hi: int)
    requires Ascending(es) && Within(es, lo, hi)
    ensures es != [] ==> |es| <= hi - lo
    decreases |es|
  {
    if |es| > 1 {
      var n := |es| - 1;
      AscendingFitsInterval(es[..n], lo, es[n].key);
      assert lo <= es[n].key < hi;
    } else if |es| == 1 {
      assert lo <= es[0].key < hi;
    }
  }

  lemma {:induction false} PowMonotone(b: nat, m: nat, n: nat)
    requires b > 0 && m <= n
    ensures Pow(b, m) <= Pow(b, n)
    decreases n
  {
    if m < n {
      PowMonotone(b, m, n - 1);
      assert Pow(b, n) == b * Pow(b, n - 1);
      hide Pow;
      TimesMonotone(1, b, Pow(b, n - 1));
    }
  }

  lemma PowHalfSix()
    ensures Pow(HALF, 6) == 15_625_000_000
  {
    assert Pow(HALF, 1) == 50;
    assert Pow(HALF, 2) == 2500;
    assert Pow(HALF, 3) == 125_000;
    assert Pow(HALF, 4) == 6_250_000;
    assert Pow(HALF, 5) == 312_500_000;
  }

  /** With 32-bit keys no search looks at more than six nodes. */
  lemma SearchVisitsAtMostSix(ix: Index, key: int)
    requires ValidIndex(ix) && ix.Some? && IsInt(key)
    ensures Searchable(ix.value) && Visits(ix.value, key) <= 6
  {
    var t, h := ix.value, Height(ix.value);
    SearchFindsEntry(t, key, INT_MIN, INT_MAX + 1, h, true);
    if h > 6 {
      ValidIndexEntries(ix);
      AscendingFitsInterval(Entries(t), INT_MIN, INT_MAX + 1);
      RootManyEntries(t, h);
      PowMonotone(HALF, 6, h - 1);
      PowHalfSix();
    }
  }
}
