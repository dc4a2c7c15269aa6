/** An index from parents to the lists of their children, kept beside a pool of items that have one parent each. */
module ParentIndex {
  ghost predicate NoDuplicates<K>(s: seq<K>) {
    forall i, j :: 0 <= i < j < |s| ==> s[i] != s[j]
  }

  function Children<K>(index: map<K, seq<K>>, parent: K): seq<K> {
    if parent in index then index[parent] else []
  }

  function Elements<K(==)>(s: seq<K>): set<K> {
    set k | k in s
  }

  /**
   The index lists, once each and under their parent, exactly the items of the pool; those in `pending`
   have been taken out of the index and are about to leave the pool. No list is kept empty.
   */
  ghost predicate Indexed<K(!new)>(parents: map<K, K>, index: map<K, seq<K>>, pending: set<K>) {
    && (forall q :: q in index ==> index[q] != [])
    && (forall q :: q in index ==> NoDuplicates(index[q]))
    && (forall q, h :: q in index && h in index[q] ==> h in parents && h !in pending && parents[h] == q)
    && (forall h :: h in parents && h !in pending ==> parents[h] in index && h in index[parents[h]])
  }

  function Without<K(==,!new)>(items: seq<K>, target: K): (r: seq<K>)
    ensures forall h :: h in r <==> h in items && h != target
  {
    if items == [] then []
    else
      var last := items[|items| - 1];
      var front := Without(items[..|items| - 1], target);
      if last != target then front + [last] else front
  }

  lemma {:induction false} WithoutKeepsOrder<K(!new)>(items: seq<K>, target: K)
    requires NoDuplicates(items)
    ensures NoDuplicates(Without(items, target))
    decreases |items|
  {
    if items != [] {
      var front, last := items[..|items| - 1], items[|items| - 1];
      WithoutKeepsOrder(front, target);
      assert last !in front;
      assert last !in Without(front, target);
    }
  }

  /** `removeHash`: filters the list, keeping the order. */
  method RemoveHash<K(==,!new)>(items: seq<K>, target: K) returns (out: seq<K>)
    ensures out == Without(items, target)
  {
    out := [];
    assert items[..0] == [];
    for i := 0 to |items|
      invariant out == Without(items[..i], target)
    {
      assert items[..i + 1][..i] == items[..i];
      if items[i] != target {
        out := out + [items[i]];
      }
    }
    assert items[..|items|] == items;
  }

  function Delisted<K(==,!new)>(index: map<K, seq<K>>, parent: K, h: K): map<K, seq<K>> {
    var rest := Without(Children(index, parent), h);
    if rest == [] then index - {parent} else index[parent := rest]
  }

  function Listed<K>(index: map<K, seq<K>>, parent: K, h: K): map<K, seq<K>> {
    index[parent := Children(index, parent) + [h]]
  }

  lemma RemoveKeepsIndexed<K(!new)>(parents: map<K, K>, index: map<K, seq<K>>, pending: set<K>, h: K)
    requires Indexed(parents, index, pending) && h in parents && h !in pending
    ensures Indexed(parents - {h}, Delisted(index, parents[h], h), pending)
  {
    WithoutKeepsOrder(index[parents[h]], h);
    hide NoDuplicates;
  }

  lemma AddKeepsIndexed<K(!new)>(parents: map<K, K>, index: map<K, seq<K>>, pending: set<K>, h: K, parent: K)
    requires Indexed(parents, index, pending) && h !in parents && h !in pending
    ensures Indexed(parents[h := parent], Listed(index, parent, h), pending)
  {
    assert h !in Children(index, parent);
    assert NoDuplicates(Children(index, parent) + [h]);
    hide NoDuplicates;
  }

  lemma TakeKeepsIndexed<K(!new)>(parents: map<K, K>, index: map<K, seq<K>>, pending: set<K>, parent: K)
    requires Indexed(parents, index, pending)
    ensures Indexed(parents, index - {parent}, pending + Elements(Children(index, parent)))
  {
    hide NoDuplicates;
  }

  lemma DropKeepsIndexed<K(!new)>(parents: map<K, K>, index: map<K, seq<K>>, pending: set<K>, h: K)
    requires Indexed(parents, index, pending + {h})
    ensures Indexed(parents - {h}, index, pending)
  {
    hide NoDuplicates;
  }
}
