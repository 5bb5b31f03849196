/** Sequence helpers shared by the scraper models: filtering, first-seen
    deduplication (what the scrapers do with a `seen` set and a list) and
    reversal. */
module Seqs {

  /** No value occurs twice. */
  ghost predicate Distinct<T>(s: seq<T>) {
    forall i, j :: 0 <= i < j < |s| ==> s[i] != s[j]
  }

  /** Position of the first occurrence of `x` in `s`. */
  function FirstIndex<T(==)>(s: seq<T>, x: T): (i: nat)
    requires x in s
    ensures i < |s| && s[i] == x
    ensures forall j :: 0 <= j < i ==> s[j] != x
  {
    if s[0] == x then 0 else 1 + FirstIndex(s[1..], x)
  }

  lemma FirstIndexTail<T>(s: seq<T>, x: T)
    requires |s| > 0 && x in s[1..] && s[0] != x
    ensures FirstIndex(s, x) == 1 + FirstIndex(s[1..], x)
  {
  }

  /** The elements of `s` that satisfy `p`, in order (a list comprehension with a filter). */
  function Filter<T>(s: seq<T>, p: T -> bool): (r: seq<T>)
    ensures |r| <= |s|
    ensures forall i :: 0 <= i < |r| ==> p(r[i])
  {
    if s == [] then [] else (if p(s[0]) then [s[0]] else []) + Filter(s[1..], p)
  }

  /** The elements of `s` that do not satisfy `p`, in order. */
  function Reject<T>(s: seq<T>, p: T -> bool): (r: seq<T>)
    ensures |r| <= |s|
  {
    if s == [] then [] else (if p(s[0]) then [] else [s[0]]) + Reject(s[1..], p)
  }

  lemma AppendAssoc<T>(a: seq<T>, b: seq<T>, c: seq<T>)
    ensures a + b + c == a + (b + c)
  {
  }

  /** Adding one element in front of either part of a split adds it to the whole. */
  lemma PartitionCons<T>(x: T, kept: seq<T>, dropped: seq<T>, rest: seq<T>)
    requires multiset(kept) + multiset(dropped) == multiset(rest)
    ensures multiset([x] + kept) + multiset(dropped) == multiset([x] + rest)
    ensures multiset(kept) + multiset([x] + dropped) == multiset([x] + rest)
  {
  }

  /** `Filter` and `Reject` split a sequence into two parts that together hold
      each element exactly once. */
  lemma {:induction false} FilterRejectPartition<T>(s: seq<T>, p: T -> bool)
    ensures multiset(Filter(s, p)) + multiset(Reject(s, p)) == multiset(s)
  {
    if s != [] {
      var kept, dropped := Filter(s[1..], p), Reject(s[1..], p);
      FilterRejectPartition(s[1..], p);
      PartitionCons(s[0], kept, dropped, s[1..]);
      assert s == [s[0]] + s[1..];
      if p(s[0]) {
        assert Filter(s, p) == [s[0]] + kept && Reject(s, p) == dropped;
      } else {
        assert Filter(s, p) == kept && Reject(s, p) == [s[0]] + dropped;
      }
    }
  }

  /** No element `Reject` keeps satisfies `p`. */
  lemma {:induction false} RejectNone<T>(s: seq<T>, p: T -> bool, i: nat)
    requires i < |Reject(s, p)|
    ensures !p(Reject(s, p)[i])
  {
    var head := if p(s[0]) then [] else [s[0]];
    if i >= |head| {
      RejectNone(s[1..], p, i - |head|);
    }
  }

  lemma {:induction false} FilterAppend<T>(a: seq<T>, b: seq<T>, p: T -> bool)
    ensures Filter(a + b, p) == Filter(a, p) + Filter(b, p)
  {
    if a != [] {
      assert (a + b)[1..] == a[1..] + b;
      FilterAppend(a[1..], b, p);
      calc {
        Filter(a + b, p);
        (if p(a[0]) then [a[0]] else []) + Filter(a[1..] + b, p);
        (if p(a[0]) then [a[0]] else []) + (Filter(a[1..], p) + Filter(b, p));
        ((if p(a[0]) then [a[0]] else []) + Filter(a[1..], p)) + Filter(b, p);
      }
    } else {
      assert a + b == b;
    }
  }

  lemma {:induction false} RejectAppend<T>(a: seq<T>, b: seq<T>, p: T -> bool)
    ensures Reject(a + b, p) == Reject(a, p) + Reject(b, p)
  {
    if a != [] {
      assert (a + b)[1..] == a[1..] + b;
      RejectAppend(a[1..], b, p);
      calc {
        Reject(a + b, p);
        (if p(a[0]) then [] else [a[0]]) + Reject(a[1..] + b, p);
        (if p(a[0]) then [] else [a[0]]) + (Reject(a[1..], p) + Reject(b, p));
        ((if p(a[0]) then [] else [a[0]]) + Reject(a[1..], p)) + Reject(b, p);
      }
    } else {
      assert a + b == b;
    }
  }

  /** One more element at the end goes to exactly one side of the split. */
  lemma SplitSnoc<T>(s: seq<T>, x: T, p: T -> bool)
    ensures Filter(s + [x], p) == Filter(s, p) + (if p(x) then [x] else [])
    ensures Reject(s + [x], p) == Reject(s, p) + (if p(x) then [] else [x])
  {
    FilterAppend(s, [x], p);
    RejectAppend(s, [x], p);
    assert [x][1..] == [];
  }

  /** Rejecting drops exactly the elements that satisfy `p`. */
  lemma {:induction false} RejectAll<T>(s: seq<T>, p: T -> bool)
    requires forall i :: 0 <= i < |s| ==> p(s[i])
    ensures Reject(s, p) == []
  {
    if s != [] {
      RejectAll(s[1..], p);
    }
  }
  /** Rejecting drops a prefix and a suffix made only of rejected elements. */
  lemma RejectPadded<T>(head: seq<T>, mid: seq<T>, tail: seq<T>, p: T -> bool)
    requires forall k :: 0 <= k < |head| ==> p(head[k])
    requires forall k :: 0 <= k < |tail| ==> p(tail[k])
    ensures Reject(head + mid + tail, p) == Reject(mid, p)
  {
    RejectAppend(head + mid, tail, p);
    RejectAppend(head, mid, p);
    RejectAll(head, p);
    RejectAll(tail, p);
  }

  /** Without repeats, the head is not in the tail, which has no repeats. */
  lemma DistinctTail<T>(a: seq<T>)
    requires Distinct(a) && a != []
    ensures Distinct(a[1..]) && a[0] !in a[1..]
  {
    forall i, j | 0 <= i < j < |a[1..]| ensures a[1..][i] != a[1..][j] {
      assert a[1..][i] == a[i + 1] && a[1..][j] == a[j + 1];
    }
    forall k | 0 <= k < |a[1..]| ensures a[1..][k] != a[0] {
      assert a[1..][k] == a[k + 1];
    }
  }

  /** A value occurs at most once in a sequence without repeats. */
  lemma {:induction false} DistinctCount<T>(a: seq<T>, x: T)
    requires Distinct(a)
    ensures multiset(a)[x] <= 1
  {
    if a != [] {
      DistinctTail(a);
      DistinctCount(a[1..], x);
      assert a == [a[0]] + a[1..];
    }
  }

  /** A rearrangement of a sequence without repeats has none. */
  lemma PermutationDistinct<T>(a: seq<T>, b: seq<T>)
    requires multiset(a) == multiset(b) && Distinct(a)
    ensures Distinct(b)
  {
    forall i, j | 0 <= i < j < |b| ensures b[i] != b[j] {
      var x := b[i];
      DistinctCount(a, x);
      assert b == b[..j] + [b[j]] + b[j + 1..];
      assert x in b[..j];
      assert multiset(b)[x] == multiset(b[..j])[x] + multiset([b[j]])[x] + multiset(b[j + 1..])[x];
    }
  }

  lemma TakeAll<T>(s: seq<T>)
    ensures s[..|s|] == s
  {
  }

  lemma TakeTake<T>(s: seq<T>, i: nat, j: nat)
    requires i <= j <= |s|
    ensures s[..j][..i] == s[..i]
  {
  }

  lemma TakeAppend<T>(a: seq<T>, b: seq<T>)
    ensures (a + b)[..|a|] == a
  {
  }

  lemma ConsAppendParts<T>(x: T, p: seq<T>, t: seq<T>)
    ensures ([x] + (p + t))[1..1 + |p|] == p && ([x] + (p + t))[1 + |p|..] == t
  {
    assert ([x] + (p + t))[1..] == p + t;
  }

  lemma HeadTail<T>(s: seq<T>)
    requires s != []
    ensures [s[0]] + s[1..] == s
  {
  }

  lemma AppendTail<T>(a: seq<T>, b: seq<T>)
    requires a != []
    ensures (a + b)[0] == a[0] && (a + b)[1..] == a[1..] + b
  {
  }

  lemma ConsAppendHead<T>(a: seq<T>, c: seq<T>)
    requires a != []
    ensures [a[0]] + (a[1..] + c) == a + c
  {
  }

  lemma ConsParts<T>(x: T, s: seq<T>)
    ensures ([x] + s)[0] == x && ([x] + s)[1..] == s
  {
  }

  lemma EmptyAppend<T>(s: seq<T>)
    ensures [] + s == s
  {
  }

  lemma ConsIndex<T>(x: T, s: seq<T>, k: nat)
    requires 0 < k <= |s|
    ensures ([x] + s)[k] == s[k - 1]
  {
  }

  lemma TailIndex<T>(s: seq<T>, i: nat)
    requires i + 1 < |s|
    ensures s[1..][i] == s[i + 1]
  {
  }

  lemma SliceAll<T>(s: seq<T>, a: nat, b: nat, p: T -> bool)
    requires a <= b <= |s| && forall i :: 0 <= i < |s| ==> p(s[i])
    ensures forall k :: 0 <= k < b - a ==> p(s[a..b][k])
  {
    forall k | 0 <= k < b - a ensures p(s[a..b][k]) {
      assert s[a..b][k] == s[a + k];
    }
  }

  lemma DropParts<T>(s: seq<T>, a: nat, n: nat)
    requires a + n <= |s|
    ensures s[a..][..n] == s[a..a + n] && s[a..][n..] == s[a + n..]
  {
  }

  lemma TakeSnoc<T>(s: seq<T>, k: nat)
    requires k < |s|
    ensures s[..k + 1] == s[..k] + [s[k]]
  {
  }

  /** Some element satisfies `p` (checked from the front). */
  predicate Any<T>(s: seq<T>, p: T -> bool) {
    s != [] && (p(s[0]) || Any(s[1..], p))
  }

  lemma {:induction false} AnyIff<T>(s: seq<T>, p: T -> bool)
    ensures Any(s, p) <==> exists i :: 0 <= i < |s| && p(s[i])
  {
    if s != [] {
      AnyIff(s[1..], p);
      assert forall i :: 0 <= i < |s[1..]| ==> s[1..][i] == s[i + 1];
      if p(s[0]) {
        assert 0 < |s|;
      }
    }
  }

  lemma {:induction false} FilterMembers<T(!new)>(s: seq<T>, p: T -> bool)
    ensures forall x :: x in Filter(s, p) <==> x in s && p(x)
  {
    if s != [] {
      FilterMembers(s[1..], p);
      assert s == [s[0]] + s[1..];
    }
  }

  /** Filtering a sequence without repeats gives one without repeats. */
  lemma {:induction false} FilterDistinct<T(!new)>(s: seq<T>, p: T -> bool)
    requires Distinct(s)
    ensures Distinct(Filter(s, p))
  {
    if s != [] {
      FilterDistinct(s[1..], p);
      FilterMembers(s[1..], p);
      assert s[0] !in s[1..];
      var head := if p(s[0]) then [s[0]] else [];
      assert Filter(s, p) == head + Filter(s[1..], p);
    }
  }

  lemma {:induction false} FilterKeepsAll<T>(s: seq<T>, p: T -> bool)
    requires forall i :: 0 <= i < |s| ==> p(s[i])
    ensures Filter(s, p) == s
  {
    if s != [] {
      FilterKeepsAll(s[1..], p);
    }
  }

  /** Filtering for elements `p` excludes ignores what was rejected by `q` first. */
  lemma {:induction false} FilterAfterReject<T>(s: seq<T>, q: T -> bool, p: T -> bool)
    requires forall x :: p(x) ==> !q(x)
    ensures Filter(Reject(s, q), p) == Filter(s, p)
  {
    if s != [] {
      FilterAfterReject(s[1..], q, p);
      RejectAppend([s[0]], s[1..], q);
      FilterAppend(Reject([s[0]], q), Reject(s[1..], q), p);
      assert s == [s[0]] + s[1..];
      FilterAppend([s[0]], s[1..], p);
    }
  }

  /** Filtering twice, with the second test the narrower, is filtering once. */
  lemma {:induction false} FilterFilter<T>(s: seq<T>, wide: T -> bool, narrow: T -> bool)
    requires forall x :: narrow(x) ==> wide(x)
    ensures Filter(Filter(s, wide), narrow) == Filter(s, narrow)
  {
    if s != [] {
      FilterFilter(s[1..], wide, narrow);
      FilterAppend(if wide(s[0]) then [s[0]] else [], Filter(s[1..], wide), narrow);
    }
  }

  /** First-seen-wins deduplication against an initial `seen` set: an element is
      kept the first time it appears and only if it was not seen before. */
  function DedupFrom<T(==)>(s: seq<T>, seen: set<T>): seq<T> {
    if s == [] then []
    else if s[0] in seen then DedupFrom(s[1..], seen)
    else [s[0]] + DedupFrom(s[1..], seen + {s[0]})
  }

  /** What is kept: no element twice, and exactly the elements not seen before. */
  lemma {:induction false} DedupFromMembers<T(!new)>(s: seq<T>, seen: set<T>)
    ensures Distinct(DedupFrom(s, seen))
    ensures forall x :: x in DedupFrom(s, seen) <==> x in s && x !in seen
  {
    if s != [] {
      if s[0] in seen {
        DedupFromMembers(s[1..], seen);
        assert s == [s[0]] + s[1..];
      } else {
        DedupFromMembers(s[1..], seen + {s[0]});
        assert s == [s[0]] + s[1..];
      }
    }
  }

  /** One step of a first-seen loop: the element at `i` is either skipped, or kept
      and added to what has been seen. */
  lemma DedupFromStep<T>(s: seq<T>, i: nat, seen: set<T>)
    requires i < |s|
    ensures DedupFrom(s[i..], seen) ==
      if s[i] in seen then DedupFrom(s[i + 1..], seen)
      else [s[i]] + DedupFrom(s[i + 1..], seen + {s[i]})
  {
    assert s[i..][1..] == s[i + 1..];
  }

  /** First-seen-wins deduplication. */
  function Dedup<T(==)>(s: seq<T>): seq<T> {
    DedupFrom(s, {})
  }

  /** Deduplication keeps elements in the order of their first occurrence. */
  lemma {:induction false} DedupFromOrder<T(!new)>(s: seq<T>, seen: set<T>)
    ensures forall i, j :: 0 <= i < j < |DedupFrom(s, seen)| ==>
      DedupFrom(s, seen)[i] in s && DedupFrom(s, seen)[j] in s &&
      FirstIndex(s, DedupFrom(s, seen)[i]) < FirstIndex(s, DedupFrom(s, seen)[j])
  {
    if s != [] {
      var r := DedupFrom(s, seen);
      DedupFromMembers(s, seen);
      if s[0] in seen {
        DedupFromOrder(s[1..], seen);
        DedupFromMembers(s[1..], seen);
        assert r == DedupFrom(s[1..], seen);
        forall i, j | 0 <= i < j < |r| ensures r[i] in s && r[j] in s && FirstIndex(s, r[i]) < FirstIndex(s, r[j]) {
          assert r[i] in s[1..] && r[j] in s[1..];
          FirstIndexTail(s, r[i]);
          FirstIndexTail(s, r[j]);
        }
      } else {
        var rest := DedupFrom(s[1..], seen + {s[0]});
        DedupFromOrder(s[1..], seen + {s[0]});
        DedupFromMembers(s[1..], seen + {s[0]});
        assert r == [s[0]] + rest;
        forall i, j | 0 <= i < j < |r| ensures r[i] in s && r[j] in s && FirstIndex(s, r[i]) < FirstIndex(s, r[j]) {
          assert r[j] == rest[j - 1];
          assert r[j] in s[1..];
          FirstIndexTail(s, r[j]);
          if i > 0 {
            assert r[i] == rest[i - 1];
            assert r[i] in s[1..];
            FirstIndexTail(s, r[i]);
          }
        }
      }
    } else {
      assert DedupFrom(s, seen) == [];
    }
  }

  /** What a first-seen dedup promises: no duplicates, nothing lost, nothing
      invented, and first-occurrence order. */
  lemma DedupSpec<T(!new)>(s: seq<T>)
    ensures Distinct(Dedup(s))
    ensures forall x :: x in Dedup(s) <==> x in s
    ensures forall i, j :: 0 <= i < j < |Dedup(s)| ==>
      Dedup(s)[i] in s && Dedup(s)[j] in s &&
      FirstIndex(s, Dedup(s)[i]) < FirstIndex(s, Dedup(s)[j])
  {
    DedupFromMembers(s, {});
    DedupFromOrder(s, {});
  }

  /** The first `n` elements of `s` whose flag in `keep` is set, in order. */
  function Kept<T>(s: seq<T>, keep: seq<bool>, n: nat): seq<T>
    requires n <= |s| && n <= |keep|
  {
    if n == 0 then [] else Kept(s, keep, n - 1) + (if keep[n - 1] then [s[n - 1]] else [])
  }

  /** Each kept element is an element of `s` below `n` whose flag is set. */
  lemma {:induction false} KeptAt<T>(s: seq<T>, keep: seq<bool>, n: nat, k: nat) returns (p: nat)
    requires n <= |s| && n <= |keep| && k < |Kept(s, keep, n)|
    ensures p < n && keep[p] && Kept(s, keep, n)[k] == s[p]
  {
    if k < |Kept(s, keep, n - 1)| {
      p := KeptAt(s, keep, n - 1, k);
    } else {
      p := n - 1;
    }
  }

  /** Every flagged element below `n` is kept. */
  lemma {:induction false} KeptComplete<T>(s: seq<T>, keep: seq<bool>, n: nat, p: nat)
    requires n <= |s| && n <= |keep| && p < n && keep[p]
    ensures s[p] in Kept(s, keep, n)
  {
    if p < n - 1 {
      KeptComplete(s, keep, n - 1, p);
    }
  }

  /** Keeping some elements of a sequence without duplicates leaves none. */
  lemma {:induction false} KeptDistinct<T>(s: seq<T>, keep: seq<bool>, n: nat)
    requires n <= |s| && n <= |keep| && Distinct(s)
    ensures |Kept(s, keep, n)| <= n
    ensures Distinct(Kept(s, keep, n))
  {
    if n > 0 {
      var head := Kept(s, keep, n - 1);
      KeptDistinct(s, keep, n - 1);
      if keep[n - 1] {
        forall k | 0 <= k < |head| ensures head[k] != s[n - 1] {
          var p := KeptAt(s, keep, n - 1, k);
        }
      }
    }
  }

  /** The sequence read back to front (Python's reversed / list.reverse). */
  function Reverse<T>(s: seq<T>): (r: seq<T>)
    ensures |r| == |s|
    ensures forall i :: 0 <= i < |s| ==> r[i] == s[|s| - 1 - i]
  {
    seq(|s|, i requires 0 <= i < |s| => s[|s| - 1 - i])
  }

  lemma ReverseInvolutive<T>(s: seq<T>)
    ensures Reverse(Reverse(s)) == s
  {
  }
}
