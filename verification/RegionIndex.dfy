/** The second index of VMRegionAllocator: lists of free regions by size, and the lookups both trees offer. */
module RegionIndex {
  import opened Basics
  import opened Regions

  type Index = map<nat, seq<nat>>

  predicate Listed(fi: Index, size: nat, a: nat) {
    size in fi && a in fi[size]
  }

  /** No list is empty and no region is listed twice. */
  ghost predicate WellListed(fi: Index) {
    forall s :: s in fi ==> fi[s] != [] && Distinct(fi[s])
  }

  /** The lists hold exactly the free regions, each under its size. */
  ghost predicate Agree(rs: Partition, fi: Index) {
    forall s, a :: Listed(fi, s, a) <==> a in rs && rs[a] == Region(s, true)
  }

  /** Takes a region off its list, as LinkedList::deleteNode does by value; an empty list leaves the tree. */
  function Unlist(fi: Index, size: nat, a: nat): Index {
    if size !in fi then fi
    else
      var l := Without(fi[size], a);
      if l == [] then fi - {size} else fi[size := l]
  }

  /** Appends a region to the list of its size. */
  function Enlist(fi: Index, size: nat, a: nat): Index {
    fi[size := (if size in fi then fi[size] else []) + [a]]
  }

  lemma UnlistMeaning(fi: Index, size: nat, a: nat)
    requires WellListed(fi)
    ensures WellListed(Unlist(fi, size, a))
    ensures forall s, x :: Listed(Unlist(fi, size, a), s, x) <==> Listed(fi, s, x) && !(s == size && x == a)
  {
    if size in fi {
      WithoutMeaning(fi[size], a);
    }
  }

  lemma EnlistMeaning(fi: Index, size: nat, a: nat)
    requires WellListed(fi) && !Listed(fi, size, a)
    ensures WellListed(Enlist(fi, size, a))
    ensures forall s, x :: Listed(Enlist(fi, size, a), s, x) <==> Listed(fi, s, x) || (s == size && x == a)
  {
    var l := if size in fi then fi[size] else [];
    forall i, j | 0 <= i < j < |l| + 1 ensures (l + [a])[i] != (l + [a])[j] {
      if j == |l| {
        assert l[i] in l;
      }
    }
  }

  // ---------- Lookups in a tree ----------

  lemma {:induction false} GreatestExists(keys: set<nat>, key: nat) returns (k: nat)
    requires exists j :: j in keys && j <= key
    ensures k in keys && k <= key && forall j :: j in keys && j <= key ==> j <= k
    decreases key
  {
    if key in keys {
      k := key;
    } else {
      var j :| j in keys && j <= key;
      assert j <= key - 1;
      k := GreatestExists(keys, key - 1);
    }
  }

  lemma {:induction false} LeastExists(keys: set<nat>, key: nat) returns (k: nat)
    requires exists j :: j in keys && key <= j
    ensures k in keys && key <= k && forall j :: j in keys && key <= j ==> k <= j
    decreases |keys|
  {
    var j :| j in keys && key <= j;
    assert forall x :: x in keys ==> x == j || x in keys - {j};
    if exists i :: i in keys - {j} && key <= i {
      var i := LeastExists(keys - {j}, key);
      k := if i < j then i else j;
    } else {
      k := j;
    }
  }

  /** wAVLTree::FindNodeOrLower. */
  method FindNodeOrLower(keys: set<nat>, key: nat) returns (r: Option<nat>)
    ensures r.None? <==> forall j :: j in keys ==> j > key
    ensures r.Some? ==> r.value in keys && r.value <= key && forall j :: j in keys && j <= key ==> j <= r.value
  {
    if j :| j in keys && j <= key {
      ghost var g := GreatestExists(keys, key);
      var k :| k in keys && k <= key && forall j :: j in keys && j <= key ==> j <= k;
      return Some(k);
    }
    return None;
  }

  /** wAVLTree::FindNodeOrHigher. */
  method FindNodeOrHigher(keys: set<nat>, key: nat) returns (r: Option<nat>)
    ensures r.None? <==> forall j :: j in keys ==> j < key
    ensures r.Some? ==> r.value in keys && r.value >= key && forall j :: j in keys && j >= key ==> j >= r.value
  {
    if j :| j in keys && key <= j {
      ghost var g := LeastExists(keys, key);
      var k :| k in keys && key <= k && forall j :: j in keys && key <= j ==> k <= j;
      return Some(k);
    }
    return None;
  }
}
