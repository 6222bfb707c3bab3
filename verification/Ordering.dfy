/** Text order and stable sorting. */
module Ordering {

  /** Lexicographic order by code point. */
  predicate Less(a: string, b: string) {
    b != "" && (a == "" || a[0] < b[0] || (a[0] == b[0] && Less(a[1..], b[1..])))
  }

  lemma {:induction false} LessIsStrict(a: string, b: string)
    ensures !(Less(a, b) && Less(b, a))
    ensures Less(a, b) || Less(b, a) || a == b
    ensures a == b ==> !Less(a, b)
  {
    if a != "" && b != "" {
      LessIsStrict(a[1..], b[1..]);
      assert a == [a[0]] + a[1..] && b == [b[0]] + b[1..];
    }
  }

  lemma {:induction false} LessIsTransitive(a: string, b: string, c: string)
    requires Less(a, b) && Less(b, c)
    ensures Less(a, c)
  {
    if a != "" && a[0] == b[0] == c[0] {
      LessIsTransitive(a[1..], b[1..], c[1..]);
    }
  }

  /** Texts that share a prefix compare by what follows it. */
  lemma {:induction false} LessAfterPrefix(prefix: string, a: string, b: string)
    ensures Less(prefix + a, prefix + b) <==> Less(a, b)
  {
    if prefix == "" {
      assert prefix + a == a && prefix + b == b;
    } else {
      assert (prefix + a)[1..] == prefix[1..] + a && (prefix + b)[1..] == prefix[1..] + b;
      LessAfterPrefix(prefix[1..], a, b);
    }
  }

  /** Texts whose prefixes of one length differ compare by those prefixes. */
  lemma {:induction false} LessByPrefix(p: string, q: string, a: string, b: string)
    requires |p| == |q| && p != q
    ensures Less(p + a, q + b) <==> Less(p, q)
  {
    assert (p + a)[1..] == p[1..] + a && (q + b)[1..] == q[1..] + b;
    if p[0] == q[0] {
      assert p == [p[0]] + p[1..] && q == [q[0]] + q[1..];
      LessByPrefix(p[1..], q[1..], a, b);
    }
  }

  ghost predicate StrictWeak<T(!new)>(before: (T, T) -> bool) {
    && (forall a, b :: !(before(a, b) && before(b, a)))
    && (forall a, b, c :: before(a, b) && before(b, c) ==> before(a, c))
    && (forall a, b, c :: !before(b, a) && !before(c, b) ==> !before(c, a))
  }

  ghost predicate SortedBy<T>(items: seq<T>, before: (T, T) -> bool) {
    forall i, j :: 0 <= i < j < |items| ==> !before(items[j], items[i])
  }

  function Insert<T>(items: seq<T>, before: (T, T) -> bool, item: T): (r: seq<T>)
    ensures multiset(r) == multiset(items) + multiset{item}
    ensures |r| == |items| + 1
  {
    if items == [] then [item]
    else
      var n := |items| - 1;
      assert items == items[..n] + [items[n]];
      if before(item, items[n]) then Insert(items[..n], before, item) + [items[n]] else items + [item]
  }

  /** A stable insertion sort. */
  function Sort<T>(items: seq<T>, before: (T, T) -> bool): (r: seq<T>)
    ensures multiset(r) == multiset(items)
    ensures |r| == |items|
  {
    if items == [] then []
    else
      assert items == items[..|items| - 1] + [items[|items| - 1]];
      Insert(Sort(items[..|items| - 1], before), before, items[|items| - 1])
  }

  lemma {:induction false} InsertSorted<T(!new)>(items: seq<T>, before: (T, T) -> bool, item: T)
    requires StrictWeak(before) && SortedBy(items, before)
    ensures SortedBy(Insert(items, before, item), before)
  {
    if items != [] {
      var n := |items| - 1;
      if before(item, items[n]) {
        var front := Insert(items[..n], before, item);
        InsertSorted(items[..n], before, item);
        forall i | 0 <= i < |front|
          ensures !before(items[n], front[i])
        {
          assert front[i] in multiset(front);
          assert front[i] == item || front[i] in items[..n];
        }
      }
    }
  }

  lemma {:induction false} SortSorted<T(!new)>(items: seq<T>, before: (T, T) -> bool)
    requires StrictWeak(before)
    ensures SortedBy(Sort(items, before), before)
  {
    if items != [] {
      SortSorted(items[..|items| - 1], before);
      InsertSorted(Sort(items[..|items| - 1], before), before, items[|items| - 1]);
    }
  }

  lemma SortMembers<T>(items: seq<T>, before: (T, T) -> bool, item: T)
    ensures item in Sort(items, before) <==> item in items
  {
    assert item in Sort(items, before) <==> item in multiset(Sort(items, before));
    assert item in items <==> item in multiset(items);
  }
}
