/**
  Sequence operations behind the query layer: ordering by a key (`order_by`,
  `sorted`), filtering (`filter`), removing duplicates (`distinct`) and removing
  a key from an ordered dictionary (`OrderedDict.pop`).
 */
module Ordering {

  /** `s` runs from the largest key to the smallest. */
  predicate NonIncreasing<T>(s: seq<T>, key: T -> int) {
    forall i, j :: 0 <= i < j < |s| ==> key(s[i]) >= key(s[j])
  }

  /** `s` runs from the smallest key to the largest. */
  predicate NonDecreasing<T>(s: seq<T>, key: T -> int) {
    forall i, j :: 0 <= i < j < |s| ==> key(s[i]) <= key(s[j])
  }

  predicate NoDuplicates<T(==)>(s: seq<T>) {
    forall i, j :: 0 <= i < j < |s| ==> s[i] != s[j]
  }

  /** Places `x` in front of the first element whose key is smaller, so equal keys keep their order. */
  function Insert<T>(x: T, s: seq<T>, key: T -> int): (r: seq<T>)
    requires NonIncreasing(s, key)
    ensures NonIncreasing(r, key)
    ensures multiset(r) == multiset(s) + multiset{x}
  {
    if s == [] || key(x) >= key(s[0]) then
      ConsBeforeHead(x, s, key);
      [x] + s
    else
      var rest := Insert(x, s[1..], key);
      KeepHead(x, s, rest, key);
      [s[0]] + rest
  }

  /** When `x` goes behind the head of `s`, the head stays in front of everything else. */
  lemma KeepHead<T>(x: T, s: seq<T>, rest: seq<T>, key: T -> int)
    requires NonIncreasing(s, key) && s != [] && key(x) < key(s[0])
    requires NonIncreasing(rest, key)
    requires multiset(rest) == multiset(s[1..]) + multiset{x}
    ensures NonIncreasing([s[0]] + rest, key)
    ensures multiset([s[0]] + rest) == multiset(s) + multiset{x}
  {
    assert s == [s[0]] + s[1..];
    forall k | 0 <= k < |rest| ensures key(rest[k]) <= key(s[0]) {
      assert rest[k] in multiset(rest);
      if rest[k] != x {
        assert rest[k] in multiset(s[1..]);
        var m :| 0 <= m < |s[1..]| && s[1..][m] == rest[k];
        assert s[m + 1] == rest[k];
      }
    }
    ConsSorted(s[0], rest, key);
  }

  lemma ConsSorted<T>(y: T, rest: seq<T>, key: T -> int)
    requires NonIncreasing(rest, key)
    requires forall k :: 0 <= k < |rest| ==> key(rest[k]) <= key(y)
    ensures NonIncreasing([y] + rest, key)
  {
  }

  lemma ConsBeforeHead<T>(y: T, rest: seq<T>, key: T -> int)
    requires NonIncreasing(rest, key)
    requires rest == [] || key(y) >= key(rest[0])
    ensures NonIncreasing([y] + rest, key)
  {
  }

  /** A stable sort, newest (largest key) first: the model of `order_by('-key')`. */
  function SortDesc<T>(s: seq<T>, key: T -> int): (r: seq<T>)
    ensures NonIncreasing(r, key)
    ensures multiset(r) == multiset(s)
  {
    if s == [] then []
    else
      assert s == [s[0]] + s[1..];
      Insert(s[0], SortDesc(s[1..], key), key)
  }

  /** The elements of `s` that satisfy `p`, each kept as often as it occurs in `s`. */
  function Filter<T(!new)>(s: seq<T>, p: T -> bool): (r: seq<T>)
    ensures |r| <= |s|
    ensures forall x :: multiset(r)[x] == if p(x) then multiset(s)[x] else 0
  {
    if s == [] then []
    else
      assert s == [s[0]] + s[1..];
      if p(s[0]) then [s[0]] + Filter(s[1..], p) else Filter(s[1..], p)
  }

  lemma {:induction false} FilterMembers<T(!new)>(s: seq<T>, p: T -> bool, x: T)
    ensures x in Filter(s, p) <==> x in s && p(x)
  {
    assert x in Filter(s, p) <==> multiset(Filter(s, p))[x] > 0;
    assert x in s <==> multiset(s)[x] > 0;
  }

  /** Filtering keeps the order of what it keeps. */
  lemma {:induction false} FilterKeepsOrder<T(!new)>(s: seq<T>, p: T -> bool, key: T -> int)
    requires NonIncreasing(s, key)
    ensures NonIncreasing(Filter(s, p), key)
  {
    if s != [] {
      var tail := s[1..];
      assert NonIncreasing(tail, key);
      FilterKeepsOrder(tail, p, key);
      var rest := Filter(tail, p);
      if p(s[0]) {
        forall k | 0 <= k < |rest| ensures key(rest[k]) <= key(s[0]) {
          FilterMembers(tail, p, rest[k]);
          var m :| 0 <= m < |tail| && tail[m] == rest[k];
          assert s[m + 1] == rest[k];
        }
        ConsSorted(s[0], rest, key);
      }
    }
  }

  /** The distinct elements of `s`, each at the place of its first occurrence: the model of `distinct()`. */
  function Distinct<T(==,!new)>(s: seq<T>): (r: seq<T>)
    ensures NoDuplicates(r)
    ensures forall x :: x in r <==> x in s
  {
    if s == [] then []
    else
      var init := s[..|s| - 1];
      var last := s[|s| - 1];
      var rest := Distinct(init);
      assert s == init + [last];
      if last in rest then rest else rest + [last]
  }

  /** The keys of an ordered dictionary, in order. */
  function Keys<K, V>(d: seq<(K, V)>): (ks: seq<K>)
    ensures |ks| == |d|
    ensures forall i :: 0 <= i < |d| ==> ks[i] == d[i].0
  {
    if d == [] then [] else [d[0].0] + Keys(d[1..])
  }

  /** A key present in `d` but not first is present in the rest. */
  lemma KeyInTail<K, V>(d: seq<(K, V)>, k: K)
    requires k in Keys(d) && d[0].0 != k
    ensures k in Keys(d[1..])
  {
    var m :| 0 <= m < |d| && Keys(d)[m] == k;
    assert Keys(d[1..])[m - 1] == k;
  }

  /** The index of the first entry whose key is `k`. */
  function FirstKey<K(==), V>(d: seq<(K, V)>, k: K): (i: nat)
    requires k in Keys(d)
    ensures i < |d| && d[i].0 == k
    ensures forall j :: 0 <= j < i ==> d[j].0 != k
  {
    if d[0].0 == k then 0
    else
      KeyInTail(d, k);
      1 + FirstKey(d[1..], k)
  }

  /** `OrderedDict.pop(k)` for a key that is present: the first entry with key `k` is cut out
      and every other entry keeps its place. */
  function Pop<K(==), V>(d: seq<(K, V)>, k: K): (r: seq<(K, V)>)
    requires k in Keys(d)
    ensures |r| == |d| - 1
    ensures forall j :: 0 <= j < FirstKey(d, k) ==> r[j] == d[j]
    ensures forall j :: FirstKey(d, k) <= j < |r| ==> r[j] == d[j + 1]
  {
    if d[0].0 == k then d[1..]
    else
      KeyInTail(d, k);
      var rest := Pop(d[1..], k);
      assert FirstKey(d, k) == FirstKey(d[1..], k) + 1;
      [d[0]] + rest
  }
}
