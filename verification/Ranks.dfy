/** Order statistics, told by counting and not by sorting. */
module Ranks {
  import opened Ordering
  import opened Tally

  /** How many elements come strictly before `v`, and how many strictly after it. */
  ghost function Before<T>(s: seq<T>, v: T, le: (T, T) -> bool): int { SumBy(s, x => if le(v, x) then 0 else 1) }
  ghost function Behind<T>(s: seq<T>, v: T, le: (T, T) -> bool): int { SumBy(s, x => if le(x, v) then 0 else 1) }

  /** `v` is an element that can stand at position `k` of the sorted sequence. */
  ghost predicate AtRank<T>(v: T, k: int, s: seq<T>, le: (T, T) -> bool) {
    v in s && Before(s, v, le) <= k && Behind(s, v, le) <= |s| - 1 - k
  }

  lemma {:induction false} AtMostOnes<T>(s: seq<T>, f: T -> int)
    requires forall i :: 0 <= i < |s| ==> f(s[i]) <= 1
    ensures SumBy(s, f) <= |s|
  {
    if s != [] {
      AtMostOnes(s[..|s| - 1], f);
    }
  }

  lemma OnesInFront<T>(s: seq<T>, f: T -> int, k: nat)
    requires k <= |s| && (forall i :: 0 <= i < k ==> f(s[i]) <= 1) && (forall i :: k <= i < |s| ==> f(s[i]) == 0)
    ensures SumBy(s, f) <= k
  {
    assert s == s[..k] + s[k..];
    SumByAppend(s[..k], s[k..], f);
    AtMostOnes(s[..k], f);
    SumByZero(s[k..], f);
  }

  lemma OnesAtEnd<T>(s: seq<T>, f: T -> int, k: nat)
    requires k <= |s| && (forall i :: 0 <= i < k ==> f(s[i]) == 0) && (forall i :: k <= i < |s| ==> f(s[i]) <= 1)
    ensures SumBy(s, f) <= |s| - k
  {
    assert s == s[..k] + s[k..];
    SumByAppend(s[..k], s[k..], f);
    SumByZero(s[..k], f);
    AtMostOnes(s[k..], f);
  }

  lemma RankInSorted<T>(t: seq<T>, le: (T, T) -> bool, k: nat)
    requires Sorted(t, le) && k < |t| && le(t[k], t[k])
    ensures Before(t, t[k], le) <= k && Behind(t, t[k], le) <= |t| - 1 - k
  {
    hide SumBy;
    var v := t[k];
    OnesInFront(t, x => if le(v, x) then 0 else 1, k);
    OnesAtEnd(t, x => if le(x, v) then 0 else 1, k + 1);
  }

  lemma RankPermutation<T>(s: seq<T>, t: seq<T>, v: T, le: (T, T) -> bool)
    requires multiset(s) == multiset(t)
    ensures Before(s, v, le) == Before(t, v, le) && Behind(s, v, le) == Behind(t, v, le)
  {
    SumByPermutation(s, t, x => if le(v, x) then 0 else 1);
    SumByPermutation(s, t, x => if le(x, v) then 0 else 1);
  }

  /** The element at position `k` of the sorted sequence has rank `k`. */
  lemma SortedAtRank<T(!new)>(s: seq<T>, le: (T, T) -> bool, k: nat)
    requires TotalPreorder(le) && k < |s|
    ensures AtRank(Sort(s, le)[k], k, s, le)
  {
    hide Sort, Before, Behind, Sorted;
    var t := Sort(s, le);
    SortSorted(s, le);
    SortMembers(s, le);
    assert le(t[k], t[k]);
    RankInSorted(t, le, k);
    RankPermutation(s, t, t[k], le);
  }

  lemma {:induction false} EachCounted<T(!new)>(s: seq<T>, v: T, w: T, le: (T, T) -> bool)
    requires TotalPreorder(le) && !le(w, v)
    ensures Before(s, w, le) + Behind(s, v, le) >= |s|
  {
    if s != [] {
      EachCounted(s[..|s| - 1], v, w, le);
    }
  }

  /** A rank determines its element. */
  lemma RankUnique<T(!new)>(v: T, w: T, k: int, s: seq<T>, le: (T, T) -> bool)
    requires TotalOrder(le) && AtRank(v, k, s, le) && AtRank(w, k, s, le)
    ensures v == w
  {
    hide Before, Behind;
    if v != w {
      if le(w, v) {
        EachCounted(s, w, v, le);
      } else {
        EachCounted(s, v, w, le);
      }
    }
  }
}
