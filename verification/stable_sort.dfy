/** Python's `sorted(xs, key=...)` and `list.sort(key=...)`: a stable sort by a
    key under a total preorder on keys. Modelled as an insertion sort, which
    produces the one ordering a stable sort can produce. */
module StableSort {
  import opened Seqs

  /** `le` is total (hence reflexive) and transitive: the shape of `<=` on keys. */
  ghost predicate TotalPreorder<K(!new)>(le: (K, K) -> bool) {
    (forall a, b :: le(a, b) || le(b, a))
    && (forall a, b, c :: le(a, b) && le(b, c) ==> le(a, c))
  }

  /** Where `x` goes in `ys`: in front of the first element whose key is not below it. */
  function InsertPos<T, K>(x: T, ys: seq<T>, key: T -> K, le: (K, K) -> bool): (p: nat)
    ensures p <= |ys|
    ensures forall k :: 0 <= k < p ==> !le(key(x), key(ys[k]))
    ensures p < |ys| ==> le(key(x), key(ys[p]))
  {
    if ys == [] || le(key(x), key(ys[0])) then 0 else 1 + InsertPos(x, ys[1..], key, le)
  }

  function Insert<T, K>(x: T, ys: seq<T>, key: T -> K, le: (K, K) -> bool): seq<T> {
    var p := InsertPos(x, ys, key, le);
    ys[..p] + [x] + ys[p..]
  }

  /** `s` sorted by `key`; elements with equivalent keys keep their input order. */
  function SortBy<T, K>(s: seq<T>, key: T -> K, le: (K, K) -> bool): (r: seq<T>)
    ensures |r| == |s|
  {
    if s == [] then [] else Insert(s[0], SortBy(s[1..], key, le), key, le)
  }

  /** Sorting rearranges: every element is kept as often as it occurs. */
  lemma {:induction false} SortByPermutes<T, K>(s: seq<T>, key: T -> K, le: (K, K) -> bool)
    ensures multiset(SortBy(s, key, le)) == multiset(s)
  {
    if s != [] {
      SortByPermutes(s[1..], key, le);
      InsertPermutes(s[0], SortBy(s[1..], key, le), key, le);
      assert s == [s[0]] + s[1..];
    }
  }

  lemma InsertPermutes<T, K>(x: T, ys: seq<T>, key: T -> K, le: (K, K) -> bool)
    ensures multiset(Insert(x, ys, key, le)) == multiset(ys) + multiset{x}
  {
    var p := InsertPos(x, ys, key, le);
    assert ys == ys[..p] + ys[p..];
  }

  ghost predicate SortedBy<T, K>(r: seq<T>, key: T -> K, le: (K, K) -> bool) {
    forall i, j :: 0 <= i < j < |r| ==> le(key(r[i]), key(r[j]))
  }

  /** Elements of `r` whose keys are equivalent appear in the order they have in `s`. */
  ghost predicate StableWrt<T(!new), K>(r: seq<T>, s: seq<T>, key: T -> K, le: (K, K) -> bool) {
    forall i, j :: 0 <= i < j < |r| && r[i] in s && r[j] in s && le(key(r[j]), key(r[i])) ==>
      FirstIndex(s, r[i]) < FirstIndex(s, r[j])
  }

  /** The element at position `i` after inserting at position `p`. */
  function InsertedAt<T>(x: T, ys: seq<T>, p: nat, i: nat): T
    requires p <= |ys| && i <= |ys|
  {
    if i < p then ys[i] else if i == p then x else ys[i - 1]
  }

  lemma InsertIndex<T, K>(x: T, ys: seq<T>, key: T -> K, le: (K, K) -> bool, i: nat)
    requires i <= |ys|
    ensures |Insert(x, ys, key, le)| == |ys| + 1
    ensures Insert(x, ys, key, le)[i] == InsertedAt(x, ys, InsertPos(x, ys, key, le), i)
  {
  }

  /** Inserting into a sorted sequence keeps it sorted. */
  lemma InsertSorted<T, K(!new)>(x: T, ys: seq<T>, key: T -> K, le: (K, K) -> bool)
    requires TotalPreorder(le)
    requires SortedBy(ys, key, le)
    ensures SortedBy(Insert(x, ys, key, le), key, le)
  {
    var r := Insert(x, ys, key, le);
    var p := InsertPos(x, ys, key, le);
    forall i, j | 0 <= i < j < |r| ensures le(key(r[i]), key(r[j])) {
      InsertIndex(x, ys, key, le, i);
      InsertIndex(x, ys, key, le, j);
      InsertSortedPair(x, ys, key, le, p, i, j);
    }
  }

  lemma InsertSortedPair<T, K(!new)>(x: T, ys: seq<T>, key: T -> K, le: (K, K) -> bool, p: nat, i: nat, j: nat)
    requires TotalPreorder(le)
    requires SortedBy(ys, key, le)
    requires p == InsertPos(x, ys, key, le)
    requires i < j <= |ys|
    ensures le(key(InsertedAt(x, ys, p, i)), key(InsertedAt(x, ys, p, j)))
  {
    if j == p {
      assert !le(key(x), key(ys[i]));
    } else if i == p && j - 1 > p {
      assert le(key(x), key(ys[p]));
      assert le(key(ys[p]), key(ys[j - 1]));
    }
  }

  lemma {:induction false} SortByIsSorted<T, K(!new)>(s: seq<T>, key: T -> K, le: (K, K) -> bool)
    requires TotalPreorder(le)
    ensures SortedBy(SortBy(s, key, le), key, le)
  {
    if s != [] {
      SortByIsSorted(s[1..], key, le);
      InsertSorted(s[0], SortBy(s[1..], key, le), key, le);
    }
  }

  /** Inserting `x` in front of the elements of `ys` keeps `ys`'s relative order,
      and `x` lands behind every element whose key is strictly below its own. */
  lemma InsertStablePair<T(!new), K(!new)>(s: seq<T>, ys: seq<T>, key: T -> K, le: (K, K) -> bool, p: nat, i: nat, j: nat)
    requires TotalPreorder(le)
    requires |s| > 0 && Distinct(s)
    requires StableWrt(ys, s[1..], key, le)
    requires forall y :: y in ys ==> y in s[1..]
    requires p == InsertPos(s[0], ys, key, le)
    requires i < j <= |ys|
    requires InsertedAt(s[0], ys, p, i) in s && InsertedAt(s[0], ys, p, j) in s
    requires le(key(InsertedAt(s[0], ys, p, j)), key(InsertedAt(s[0], ys, p, i)))
    ensures FirstIndex(s, InsertedAt(s[0], ys, p, i)) < FirstIndex(s, InsertedAt(s[0], ys, p, j))
  {
    var a := InsertedAt(s[0], ys, p, i);
    var b := InsertedAt(s[0], ys, p, j);
    if j == p {
      assert false;
    } else if i == p {
      assert b in s[1..];
      FirstIndexTail(s, b);
    } else {
      var i' := if i < p then i else i - 1;
      var j' := if j < p then j else j - 1;
      assert a == ys[i'] && b == ys[j'] && i' < j';
      assert a in s[1..] && b in s[1..];
      FirstIndexTail(s, a);
      FirstIndexTail(s, b);
    }
  }

  lemma {:induction false} SortByIsStable<T(!new), K(!new)>(s: seq<T>, key: T -> K, le: (K, K) -> bool)
    requires TotalPreorder(le)
    requires Distinct(s)
    ensures StableWrt(SortBy(s, key, le), s, key, le)
  {
    if s != [] {
      var tl := s[1..];
      var ys := SortBy(tl, key, le);
      SortByIsStable(tl, key, le);
      SortByPermutes(tl, key, le);
      var p := InsertPos(s[0], ys, key, le);
      var r := SortBy(s, key, le);
      assert forall y :: y in ys ==> y in multiset(tl);
      forall i, j | 0 <= i < j < |r| && r[i] in s && r[j] in s && le(key(r[j]), key(r[i]))
        ensures FirstIndex(s, r[i]) < FirstIndex(s, r[j])
      {
        InsertIndex(s[0], ys, key, le, i);
        InsertIndex(s[0], ys, key, le, j);
        InsertStablePair(s, ys, key, le, p, i, j);
      }
    }
  }

  /** Sorting an already sorted sequence changes nothing. */
  lemma {:induction false} SortBySorted<T, K(!new)>(s: seq<T>, key: T -> K, le: (K, K) -> bool)
    requires SortedBy(s, key, le)
    ensures SortBy(s, key, le) == s
  {
    if s != [] {
      SortBySorted(s[1..], key, le);
      var ys := s[1..];
      if ys != [] {
        assert le(key(s[0]), key(ys[0]));
      }
      assert InsertPos(s[0], ys, key, le) == 0;
      assert [s[0]] + ys == s;
    }
  }
}
