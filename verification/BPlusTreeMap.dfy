/** The tree object of src/index/bptree.c, as a finite map from key to row.

  The object keeps the value its nodes represent in ghost fields.
 */
module BPlusTreeMap {
  import opened Common
  import opened BPlusTreeModel
  import opened BPlusTree

  class BPTree {
    var root: Node?
    ghost var shape: Option<Shape>
    ghost var index: Index
    ghost var nodes: set<object>
    ghost var contents: map<int, int>  // the finite map from key to row

    ghost predicate Valid()
      reads this, nodes
    {
      && ValidIndex(index) && contents == Contents(index)
      && this !in nodes && Holds(root, shape, index, nodes)
    }

    constructor ()
      ensures Valid() && fresh(nodes)
      ensures contents == map[]
    {
      root, shape, index, nodes := null, None, None, {};
      contents := map[];
    }

    /** bptree_insert. */
    method Insert(key: int, row: int) returns (ok: bool)
      requires Valid() && IsInt(key)
      modifies this, nodes
      ensures Valid() && fresh(nodes - old(nodes))
      ensures ok <==> key !in old(contents)
      ensures !ok ==> unchanged(this) && unchanged(old(nodes))
      ensures contents == if ok then old(contents)[key := row] else old(contents)
    {
      hide Footprint, HeldBy, Holds, Searchable, ValidIndex, Contents, InsertIndex, IndexEntries, InsertSorted;
      InsertIndexCorrect(index, Entry(key, row));
      ghost var shape', nodes';
      ok, root, shape', nodes' := InsertRoot(root, key, row, shape, index, nodes);
      if ok {
        shape, index, nodes := shape', InsertIndex(index, Entry(key, row)).value, nodes';
        contents := contents[key := row];
      }
    }

    /** bptree_search. */
    method Search(key: int) returns (found: bool, row: int)
      requires Valid() && IsInt(key)
      ensures found <==> key in contents
      ensures row == if found then contents[key] else -1
    {
      if root == null {
        return false, -1;
      }
      SearchIsLookup(index.value, key, INT_MIN, INT_MAX + 1, Height(index.value), true);
      hide Footprint, HeldBy, Searchable, BPlusTreeModel.Search;
      found, row := SearchFrom(root, key, shape.value, index.value);
    }

    /** bptree_collect_keys: all keys in ascending order, or failure when they do not fit. */
    method CollectKeys(out: array<int>, capacity: int) returns (ok: bool, count: nat)
      requires Valid() && out !in nodes && capacity <= out.Length
      modifies out
      ensures ok <==> |contents| == 0 || |contents| <= capacity
      ensures ok ==> count == |contents| <= out.Length && StrictlySorted(out[..count]) && Elements(out[..count]) == contents.Keys
      ensures !ok ==> count == 0
    {
      count := 0;
      if root == null {
        return true, count;
      }
      ghost var t, s := index.value, shape.value;
      ValidIsSearchable(t, INT_MIN, INT_MAX + 1, Height(t), true);
      RepIsChain(s, t, null);
      ContentsOfEntries(index);
      ghost var cells := Cells(s, t);
      hide *;
      IsAllocated(CellObjects(cells));
      var first := LeftmostLeaf(root, s, t);
      var written;
      ok, written := CollectFrom(first, out, capacity, cells);
      if ok {
        count := written;
        assert out[..count] == Keys(Entries(t));
      }
    }
  }

  ghost function Elements(ks: seq<int>): set<int> {
    set i | 0 <= i < |ks| :: ks[i]
  }

  lemma ContentsOfEntries(ix: Index)
    requires ValidIndex(ix) && ix.Some?
    ensures var ks := Keys(Entries(ix.value));
            StrictlySorted(ks) && Elements(ks) == Contents(ix).Keys && |Contents(ix)| == |ks|
  {
    ValidIndexEntries(ix);
    hide ValidIndex;
    AscendingMap(Entries(ix.value));
  }

  lemma {:induction false} ElementsCount(ks: seq<int>)
    requires StrictlySorted(ks)
    ensures |Elements(ks)| == |ks|
    decreases |ks|
  {
    if ks == [] {
      assert Elements(ks) == {};
    } else {
      var n := |ks| - 1;
      ElementsCount(ks[..n]);
      ElementsLast(ks);
    }
  }

  lemma ElementsLast(ks: seq<int>)
    requires StrictlySorted(ks) && ks != []
    ensures var n := |ks| - 1; ks[n] !in Elements(ks[..n]) && Elements(ks) == Elements(ks[..n]) + {ks[n]}
  {
    var n := |ks| - 1;
    forall x | x in Elements(ks)
      ensures x in Elements(ks[..n]) + {ks[n]}
    {
      var i :| 0 <= i < |ks| && ks[i] == x;
      assert i < n ==> ks[..n][i] == x;
    }
    forall x | x in Elements(ks[..n])
      ensures x in Elements(ks) && x != ks[n]
    {
      var i :| 0 <= i < n && ks[..n][i] == x;
      assert ks[i] == x;
    }
  }

  lemma AscendingMap(es: seq<Entry>)
    requires Ascending(es)
    ensures StrictlySorted(Keys(es)) && Elements(Keys(es)) == MapOf(es).Keys && |MapOf(es)| == |es|
  {
    var ks := Keys(es);
    assert forall i :: 0 <= i < |es| ==> ks[i] == es[i].key;
    ElementsCount(ks);
    MapOfKeys(es);
    forall k | HasKey(es, k)
      ensures k in Elements(ks)
    {
      var i :| 0 <= i < |es| && es[i].key == k;
      assert ks[i] == k;
    }
    hide MapOf;
    assert Elements(ks) == MapOf(es).Keys;
  }
}
