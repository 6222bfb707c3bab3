/** Lists whose items carry a key: replace the first item with the same key, or append. */
module KeyedLists {
  import opened Wrappers

  predicate HasKey<T, K(==)>(items: seq<T>, key: T -> K, k: K) {
    exists i :: 0 <= i < |items| && key(items[i]) == k
  }

  /** The position of the first item with the key, or the length of the list. */
  function IndexOf<T, K(==)>(items: seq<T>, key: T -> K, k: K): (index: nat)
    ensures index <= |items|
    ensures index < |items| ==> key(items[index]) == k
    ensures forall i :: 0 <= i < index ==> key(items[i]) != k
  {
    if items == [] || key(items[0]) == k then 0
    else IndexOf(items[1..], key, k) + 1
  }

  lemma IndexOfHasKey<T, K>(items: seq<T>, key: T -> K, k: K)
    ensures IndexOf(items, key, k) < |items| <==> HasKey(items, key, k)
  {
    var index := IndexOf(items, key, k);
    if index < |items| {
      assert key(items[index]) == k;
    }
  }

  lemma IndexIsFirst<T, K>(items: seq<T>, key: T -> K, k: K, i: nat)
    requires i < |items| && key(items[i]) == k
    requires forall j :: 0 <= j < i ==> key(items[j]) != k
    ensures IndexOf(items, key, k) == i
  {
    var index := IndexOf(items, key, k);
    assert !(index < i) && !(i < index);
  }

  ghost predicate Distinct<T, K>(items: seq<T>, key: T -> K) {
    forall i, j :: 0 <= i < j < |items| ==> key(items[i]) != key(items[j])
  }

  /** Replaces the first item with the item's key, or appends the item. */
  function Put<T, K(==)>(items: seq<T>, key: T -> K, item: T): (r: seq<T>)
    ensures |items| <= |r| <= |items| + 1
  {
    var index := IndexOf(items, key, key(item));
    if index < |items| then items[index := item] else items + [item]
  }

  function PutAll<T, K(==)>(items: seq<T>, key: T -> K, more: seq<T>): (r: seq<T>)
    ensures |items| <= |r|
  {
    if more == [] then items
    else Put(PutAll(items, key, more[..|more| - 1]), key, more[|more| - 1])
  }

  /** Appends the items whose key is not there yet. */
  function PushMissing<T, K(==)>(items: seq<T>, key: T -> K, more: seq<T>): (r: seq<T>)
    ensures |items| <= |r| && r[..|items|] == items
  {
    if more == [] then items
    else
      var before := PushMissing(items, key, more[..|more| - 1]);
      var item := more[|more| - 1];
      if HasKey(before, key, key(item)) then before else before + [item]
  }

  lemma LastStep<T, K>(more: seq<T>, key: T -> K, k: K)
    requires more != []
    ensures HasKey(more, key, k) <==> HasKey(more[..|more| - 1], key, k) || key(more[|more| - 1]) == k
  {
    var n := |more| - 1;
    assert forall i :: 0 <= i < n ==> more[..n][i] == more[i];
    if HasKey(more[..n], key, k) {
      var i :| 0 <= i < n && key(more[..n][i]) == k;
      assert key(more[i]) == k;
    }
  }

  // Put.

  /** A put touches one position: the keys before it stay where they are. */
  lemma PutPositions<T, K>(items: seq<T>, key: T -> K, item: T)
    ensures var r := Put(items, key, item);
            && (forall i :: 0 <= i < |items| ==> key(r[i]) == key(items[i]))
            && (forall i :: 0 <= i < |items| && key(items[i]) != key(item) ==> r[i] == items[i])
            && (|r| > |items| ==> !HasKey(items, key, key(item)) && r[|items|] == item)
            && (|r| == |items| ==> HasKey(items, key, key(item)))
  {
    IndexOfHasKey(items, key, key(item));
  }

  lemma PutKeys<T, K>(items: seq<T>, key: T -> K, item: T, k: K)
    ensures HasKey(Put(items, key, item), key, k) <==> HasKey(items, key, k) || k == key(item)
  {
    var r := Put(items, key, item);
    PutPositions(items, key, item);
    if HasKey(items, key, k) {
      var i :| 0 <= i < |items| && key(items[i]) == k;
      assert key(r[i]) == k;
    }
    if k == key(item) {
      var index := IndexOf(items, key, k);
      assert key(r[index]) == k;
    }
    if HasKey(r, key, k) {
      var i :| 0 <= i < |r| && key(r[i]) == k;
      assert i < |items| ==> key(items[i]) == k;
    }
  }

  lemma PutDistinct<T, K>(items: seq<T>, key: T -> K, item: T)
    requires Distinct(items, key)
    ensures Distinct(Put(items, key, item), key)
  {
    PutPositions(items, key, item);
  }

  // PutAll is a keyed union.

  lemma {:induction false} PutAllKeys<T, K>(items: seq<T>, key: T -> K, more: seq<T>, k: K)
    ensures HasKey(PutAll(items, key, more), key, k) <==> HasKey(items, key, k) || HasKey(more, key, k)
  {
    if more != [] {
      var n := |more| - 1;
      PutAllKeys(items, key, more[..n], k);
      PutKeys(PutAll(items, key, more[..n]), key, more[n], k);
      LastStep(more, key, k);
    }
  }

  lemma {:induction false} PutAllDistinct<T, K>(items: seq<T>, key: T -> K, more: seq<T>)
    requires Distinct(items, key)
    ensures Distinct(PutAll(items, key, more), key)
  {
    if more != [] {
      PutAllDistinct(items, key, more[..|more| - 1]);
      PutDistinct(PutAll(items, key, more[..|more| - 1]), key, more[|more| - 1]);
    }
  }

  /** The last item of a list with a key. */
  function LastOf<T, K(==)>(more: seq<T>, key: T -> K, k: K): (item: T)
    requires HasKey(more, key, k)
    ensures item in more && key(item) == k
  {
    LastStep(more, key, k);
    if key(more[|more| - 1]) == k then more[|more| - 1] else LastOf(more[..|more| - 1], key, k)
  }

  /** Looking a key up, by its first position. */
  function Lookup<T, K(==)>(items: seq<T>, key: T -> K, k: K): Option<T> {
    var index := IndexOf(items, key, k);
    if index < |items| then Some(items[index]) else None
  }

  lemma PutLookup<T, K>(items: seq<T>, key: T -> K, item: T, k: K)
    ensures Lookup(Put(items, key, item), key, k) == if k == key(item) then Some(item) else Lookup(items, key, k)
  {
    var r := Put(items, key, item);
    PutPositions(items, key, item);
    IndexOfHasKey(items, key, k);
    IndexOfHasKey(r, key, k);
    PutKeys(items, key, item, k);
    var index := IndexOf(items, key, k);
    if index < |r| && key(r[index]) == k {
      IndexIsFirst(r, key, k, index);
    }
  }

  /** The added list wins on clashes; everything else is kept. */
  lemma {:induction false} PutAllLookup<T, K>(items: seq<T>, key: T -> K, more: seq<T>, k: K)
    ensures Lookup(PutAll(items, key, more), key, k)
            == if HasKey(more, key, k) then Some(LastOf(more, key, k)) else Lookup(items, key, k)
  {
    if more != [] {
      var n := |more| - 1;
      PutAllLookup(items, key, more[..n], k);
      PutLookup(PutAll(items, key, more[..n]), key, more[n], k);
      LastStep(more, key, k);
    }
  }

  /** Positions and keys of the first list are kept. */
  lemma {:induction false} PutAllPositions<T, K>(items: seq<T>, key: T -> K, more: seq<T>)
    ensures var r := PutAll(items, key, more);
            && (forall i :: 0 <= i < |items| ==> key(r[i]) == key(items[i]))
            && ((forall i :: 0 <= i < |more| ==> HasKey(items, key, key(more[i]))) ==> |r| == |items|)
            && (forall i ::
                  0 <= i < |items| && (!HasKey(more, key, key(items[i])) || i != IndexOf(items, key, key(items[i])))
                  ==> r[i] == items[i])
  {
    if more != [] {
      var n := |more| - 1;
      var before := PutAll(items, key, more[..n]);
      PutAllPositions(items, key, more[..n]);
      PutPositions(before, key, more[n]);
      PutAllKeys(items, key, more[..n], key(more[n]));
      assert forall i :: 0 <= i < n ==> more[..n][i] == more[i];
      forall i | 0 <= i < |items| && (!HasKey(more, key, key(items[i])) || i != IndexOf(items, key, key(items[i])))
        ensures PutAll(items, key, more)[i] == items[i]
      {
        LastStep(more, key, key(items[i]));
        var k := key(items[i]);
        if i != IndexOf(items, key, k) {
          var first := IndexOf(items, key, k);
          assert first < i;
          assert key(before[first]) == k;
        }
      }
    }
  }

  /** Merging the same list again changes nothing. */
  lemma PutAllIsIdempotent<T, K>(items: seq<T>, key: T -> K, more: seq<T>)
    ensures PutAll(PutAll(items, key, more), key, more) == PutAll(items, key, more)
  {
    var once := PutAll(items, key, more);
    var twice := PutAll(once, key, more);
    PutAllPositions(once, key, more);
    forall i | 0 <= i < |more|
      ensures HasKey(once, key, key(more[i]))
    {
      PutAllKeys(items, key, more, key(more[i]));
    }
    assert |twice| == |once|;
    forall i | 0 <= i < |once|
      ensures twice[i] == once[i]
    {
      var k := key(once[i]);
      if HasKey(more, key, k) && i == IndexOf(once, key, k) {
        PutAllLookup(items, key, more, k);
        PutAllLookup(once, key, more, k);
        IndexIsFirst(twice, key, k, i);
      }
    }
  }

  // What is new.

  function Without<T, K(==)>(items: seq<T>, key: T -> K, known: seq<T>): seq<T> {
    if items == [] then []
    else
      var n := |items| - 1;
      Without(items[..n], key, known) + (if HasKey(known, key, key(items[n])) then [] else [items[n]])
  }

  lemma {:induction false} WithoutMembers<T, K>(items: seq<T>, key: T -> K, known: seq<T>, item: T)
    ensures item in Without(items, key, known) <==> item in items && !HasKey(known, key, key(item))
  {
    if items != [] {
      var n := |items| - 1;
      WithoutMembers(items[..n], key, known, item);
      assert items == items[..n] + [items[n]];
    }
  }

  lemma WithoutConcat<T, K>(items: seq<T>, key: T -> K, known: seq<T>, last: T)
    ensures Without(items + [last], key, known)
            == Without(items, key, known) + (if HasKey(known, key, key(last)) then [] else [last])
  {
    assert (items + [last])[..|items|] == items;
  }

  lemma {:induction false} WithoutSelf<T, K>(items: seq<T>, key: T -> K, known: seq<T>)
    requires forall i :: 0 <= i < |items| ==> HasKey(known, key, key(items[i]))
    ensures Without(items, key, known) == []
  {
    if items != [] {
      WithoutSelf(items[..|items| - 1], key, known);
    }
  }

  lemma {:induction false} WithoutUpdate<T, K>(items: seq<T>, key: T -> K, known: seq<T>, index: nat, item: T)
    requires index < |items| && key(item) == key(items[index]) && HasKey(known, key, key(item))
    ensures Without(items[index := item], key, known) == Without(items, key, known)
  {
    var n := |items| - 1;
    if index < n {
      WithoutUpdate(items[..n], key, known, index, item);
      assert items[index := item][..n] == items[..n][index := item];
    } else {
      assert items[index := item][..n] == items[..n];
    }
  }

  /** The additions seen in the merged list are the additions seen in the merged-in list. */
  lemma {:induction false} AdditionsSurviveMerging<T, K>(items: seq<T>, key: T -> K, more: seq<T>)
    requires Distinct(more, key)
    ensures Without(PutAll(items, key, more), key, items) == Without(more, key, items)
  {
    if more == [] {
      forall i | 0 <= i < |items|
        ensures HasKey(items, key, key(items[i]))
      {
      }
      WithoutSelf(items, key, items);
    } else {
      var n := |more| - 1;
      var before := PutAll(items, key, more[..n]);
      AdditionsSurviveMerging(items, key, more[..n]);
      PutAllKeys(items, key, more[..n], key(more[n]));
      assert forall i :: 0 <= i < n ==> more[..n][i] == more[i];
      assert !HasKey(more[..n], key, key(more[n]));
      IndexOfHasKey(before, key, key(more[n]));
      var index := IndexOf(before, key, key(more[n]));
      if index < |before| {
        WithoutUpdate(before, key, items, index, more[n]);
      } else {
        WithoutConcat(before, key, items, more[n]);
      }
    }
  }

  // PushMissing.

  lemma {:induction false} PushMissingKeys<T, K>(items: seq<T>, key: T -> K, more: seq<T>, k: K)
    ensures HasKey(PushMissing(items, key, more), key, k) <==> HasKey(items, key, k) || HasKey(more, key, k)
  {
    if more != [] {
      var n := |more| - 1;
      PushMissingKeys(items, key, more[..n], k);
      LastStep(more, key, k);
      var before := PushMissing(items, key, more[..n]);
      if !HasKey(before, key, key(more[n])) {
        var r := before + [more[n]];
        assert r[..|before|] == before;
        LastStep(r, key, k);
      }
    }
  }

  lemma {:induction false} PushMissingDistinct<T, K>(items: seq<T>, key: T -> K, more: seq<T>)
    requires Distinct(items, key)
    ensures Distinct(PushMissing(items, key, more), key)
  {
    if more != [] {
      PushMissingDistinct(items, key, more[..|more| - 1]);
    }
  }
}
