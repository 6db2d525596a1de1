/** Sums and bags over sequences: what the tools keep in counters. */
module Tally {

  function SumBy<T>(s: seq<T>, f: T -> int): int {
    if s == [] then 0 else SumBy(s[..|s| - 1], f) + f(s[|s| - 1])
  }

  /** The bag of everything the elements of `s` contribute. */
  function BagOf<T, U(==)>(s: seq<T>, f: T -> multiset<U>): multiset<U> {
    if s == [] then multiset{} else BagOf(s[..|s| - 1], f) + f(s[|s| - 1])
  }

  lemma SumBySnoc<T>(s: seq<T>, x: T, f: T -> int)
    ensures SumBy(s + [x], f) == SumBy(s, f) + f(x)
  {
    assert (s + [x])[..|s|] == s;
  }

  lemma BagOfSnoc<T, U>(s: seq<T>, x: T, f: T -> multiset<U>)
    ensures BagOf(s + [x], f) == BagOf(s, f) + f(x)
  {
    assert (s + [x])[..|s|] == s;
  }

  lemma {:induction false} SumByAppend<T>(a: seq<T>, b: seq<T>, f: T -> int)
    ensures SumBy(a + b, f) == SumBy(a, f) + SumBy(b, f)
  {
    if b == [] {
      assert a + b == a;
    } else {
      assert (a + b)[..|a + b| - 1] == a + b[..|b| - 1];
      SumByAppend(a, b[..|b| - 1], f);
    }
  }

  lemma {:induction false} BagOfAppend<T, U>(a: seq<T>, b: seq<T>, f: T -> multiset<U>)
    ensures BagOf(a + b, f) == BagOf(a, f) + BagOf(b, f)
  {
    if b == [] {
      assert a + b == a;
    } else {
      assert (a + b)[..|a + b| - 1] == a + b[..|b| - 1];
      BagOfAppend(a, b[..|b| - 1], f);
    }
  }

  lemma {:induction false} SumByMatch<T, U>(s: seq<T>, f: T -> int, t: seq<U>, g: U -> int)
    requires |s| == |t| && forall i :: 0 <= i < |s| ==> f(s[i]) == g(t[i])
    ensures SumBy(s, f) == SumBy(t, g)
  {
    if s != [] {
      SumByMatch(s[..|s| - 1], f, t[..|t| - 1], g);
    }
  }

  lemma SumBySame<T>(s: seq<T>, f: T -> int, g: T -> int)
    requires forall i :: 0 <= i < |s| ==> f(s[i]) == g(s[i])
    ensures SumBy(s, f) == SumBy(s, g)
  {
    SumByMatch(s, f, s, g);
  }

  lemma {:induction false} SumByZero<T>(s: seq<T>, f: T -> int)
    requires forall i :: 0 <= i < |s| ==> f(s[i]) == 0
    ensures SumBy(s, f) == 0
  {
    if s != [] {
      SumByZero(s[..|s| - 1], f);
    }
  }

  lemma {:induction false} SumByOnes<T>(s: seq<T>, f: T -> int)
    requires forall i :: 0 <= i < |s| ==> f(s[i]) == 1
    ensures SumBy(s, f) == |s|
  {
    if s != [] {
      SumByOnes(s[..|s| - 1], f);
    }
  }

  lemma {:induction false} SumByPlus<T>(s: seq<T>, f: T -> int, g: T -> int, h: T -> int)
    requires forall i :: 0 <= i < |s| ==> h(s[i]) == f(s[i]) + g(s[i])
    ensures SumBy(s, h) == SumBy(s, f) + SumBy(s, g)
  {
    if s != [] {
      SumByPlus(s[..|s| - 1], f, g, h);
    }
  }

  lemma {:induction false} BagOfSame<T, U>(s: seq<T>, f: T -> multiset<U>, g: T -> multiset<U>)
    requires forall i :: 0 <= i < |s| ==> f(s[i]) == g(s[i])
    ensures BagOf(s, f) == BagOf(s, g)
  {
    if s != [] {
      BagOfSame(s[..|s| - 1], f, g);
    }
  }

  /** Removing the first occurrence of an element. */
  lemma SplitAt<T>(s: seq<T>, x: T) returns (a: seq<T>, b: seq<T>)
    requires x in multiset(s)
    ensures s == a + [x] + b && multiset(a + b) == multiset(s) - multiset{x}
  {
    var i :| 0 <= i < |s| && s[i] == x;
    a, b := s[..i], s[i + 1..];
    assert s == a + [x] + b;
  }

  lemma LastOut<T>(s: seq<T>)
    requires s != []
    ensures s == s[..|s| - 1] + [s[|s| - 1]]
    ensures multiset(s[..|s| - 1]) == multiset(s) - multiset{s[|s| - 1]}
  {
    assert s == s[..|s| - 1] + [s[|s| - 1]];
  }

  /** A sum does not depend on the order of the elements. */
  lemma {:induction false} SumByPermutation<T>(s: seq<T>, t: seq<T>, f: T -> int)
    requires multiset(s) == multiset(t)
    ensures SumBy(s, f) == SumBy(t, f)
    decreases |s|
  {
    assert |multiset(s)| == |s| && |multiset(t)| == |t|;
    if s != [] {
      var x := s[|s| - 1];
      LastOut(s);
      var a, b := SplitAt(t, x);
      SumByPermutation(s[..|s| - 1], a + b, f);
      SumByAppend(a, b, f);
      SumBySnoc(a, x, f);
      SumByAppend(a + [x], b, f);
    }
  }

  /** A bag does not depend on the order of the elements either. */
  lemma {:induction false} BagOfPermutation<T, U>(s: seq<T>, t: seq<T>, f: T -> multiset<U>)
    requires multiset(s) == multiset(t)
    ensures BagOf(s, f) == BagOf(t, f)
    decreases |s|
  {
    assert |multiset(s)| == |s| && |multiset(t)| == |t|;
    if s != [] {
      var x := s[|s| - 1];
      LastOut(s);
      var a, b := SplitAt(t, x);
      BagOfPermutation(s[..|s| - 1], a + b, f);
      BagOfAppend(a, b, f);
      BagOfSnoc(a, x, f);
      BagOfAppend(a + [x], b, f);
    }
  }

  ghost predicate Distinct<T>(s: seq<T>) {
    forall i, j :: 0 <= i < j < |s| ==> s[i] != s[j]
  }

  lemma {:induction false} AtMostOnce<T>(s: seq<T>, x: T)
    requires Distinct(s)
    ensures multiset(s)[x] <= 1
  {
    if s != [] {
      AtMostOnce(s[..|s| - 1], x);
      LastOut(s);
      assert s[|s| - 1] == x ==> forall i :: 0 <= i < |s| - 1 ==> s[i] != x;
    }
  }

  lemma DistinctPermutes<T>(a: seq<T>, b: seq<T>)
    requires Distinct(a) && multiset(a) == multiset(b)
    ensures Distinct(b)
  {
    forall i, j | 0 <= i < j < |b| ensures b[i] != b[j] {
      if b[i] == b[j] {
        assert b == b[..i] + [b[i]] + b[i + 1..j] + [b[j]] + b[j + 1..];
        assert multiset(b)[b[i]] >= 2;
        AtMostOnce(a, b[i]);
      }
    }
  }

  lemma {:induction false} SumByPick<K>(keys: seq<K>, k: K, v: int, f: K -> int)
    requires Distinct(keys) && k in keys
    requires forall i :: 0 <= i < |keys| ==> f(keys[i]) == if keys[i] == k then v else 0
    ensures SumBy(keys, f) == v
  {
    var n := |keys| - 1;
    if keys[n] == k {
      SumByZero(keys[..n], f);
    } else {
      assert k in keys[..n];
      SumByPick(keys[..n], k, v, f);
    }
  }

  /** What the elements with key `k` contribute. */
  function Part<T, K(==)>(s: seq<T>, key: T -> K, f: T -> int, k: K): int {
    SumBy(s, x => if key(x) == k then f(x) else 0)
  }

  lemma PartSnoc<T, K>(s: seq<T>, x: T, key: T -> K, f: T -> int, k: K)
    ensures Part(s + [x], key, f, k) == Part(s, key, f, k) + if key(x) == k then f(x) else 0
  {
    SumBySnoc(s, x, y => if key(y) == k then f(y) else 0);
  }

  lemma PartIs<T, K>(s: seq<T>, key: T -> K, f: T -> int, k: K, g: T -> int)
    requires forall i :: 0 <= i < |s| ==> g(s[i]) == if key(s[i]) == k then f(s[i]) else 0
    ensures Part(s, key, f, k) == SumBy(s, g)
  {
    SumBySame(s, x => if key(x) == k then f(x) else 0, g);
  }

  /** The parts over all keys add up to the whole. */
  lemma {:induction false} PartsAddUp<T, K>(s: seq<T>, key: T -> K, f: T -> int, keys: seq<K>)
    requires Distinct(keys) && forall i :: 0 <= i < |s| ==> key(s[i]) in keys
    ensures SumBy(keys, k => Part(s, key, f, k)) == SumBy(s, f)
  {
    if s == [] {
      SumByZero(keys, k => Part(s, key, f, k));
    } else {
      var init, x := s[..|s| - 1], s[|s| - 1];
      PartsAddUp(init, key, f, keys);
      LastOut(s);
      SumByPick(keys, key(x), f(x), k => if k == key(x) then f(x) else 0);
      forall k ensures Part(s, key, f, k) == Part(init, key, f, k) + if key(x) == k then f(x) else 0 {
        PartSnoc(init, x, key, f, k);
      }
      SumByPlus(keys, k => Part(init, key, f, k), k => if k == key(x) then f(x) else 0, k => Part(s, key, f, k));
    }
  }

  /** The elements with key `k`, in order. */
  function Where<T, K(==)>(s: seq<T>, key: T -> K, k: K): seq<T> {
    if s == [] then []
    else Where(s[..|s| - 1], key, k) + if key(s[|s| - 1]) == k then [s[|s| - 1]] else []
  }

  lemma WhereSnoc<T, K>(s: seq<T>, x: T, key: T -> K, k: K)
    ensures Where(s + [x], key, k) == if key(x) == k then Where(s, key, k) + [x] else Where(s, key, k)
  {
    assert (s + [x])[..|s|] == s;
    assert Where(s, key, k) + [] == Where(s, key, k);
  }

  lemma WhereStep<T, K>(s: seq<T>, i: nat, key: T -> K, k: K)
    requires i < |s|
    ensures Where(s[..i + 1], key, k) ==
            if key(s[i]) == k then Where(s[..i], key, k) + [s[i]] else Where(s[..i], key, k)
  {
    assert s[..i + 1] == s[..i] + [s[i]];
    WhereSnoc(s[..i], s[i], key, k);
  }

  /** Exactly the elements with the key. */
  lemma {:induction false} WhereMembers<T, K>(s: seq<T>, key: T -> K, k: K)
    ensures forall x :: x in Where(s, key, k) <==> x in s && key(x) == k
  {
    if s != [] {
      WhereMembers(s[..|s| - 1], key, k);
      LastOut(s);
    }
  }

  ghost predicate DistinctBy<T(!new), L(!new)>(s: seq<T>, id: T -> L) {
    forall i, j :: 0 <= i < j < |s| ==> id(s[i]) != id(s[j])
  }

  lemma {:induction false} WhereDistinct<T(!new), K, L(!new)>(s: seq<T>, key: T -> K, k: K, id: T -> L)
    requires DistinctBy(s, id)
    ensures DistinctBy(Where(s, key, k), id)
  {
    if s != [] {
      var init, x := s[..|s| - 1], s[|s| - 1];
      WhereDistinct(init, key, k, id);
      WhereMembers(init, key, k);
      LastOut(s);
      WhereSnoc(init, x, key, k);
      var w := Where(init, key, k);
      forall i | 0 <= i < |w| ensures id(w[i]) != id(x) {
        assert w[i] in init;
      }
    }
  }

  /** Choosing twice is choosing once by both keys. */
  lemma {:induction false} WhereWhere<T, K, L, M>(s: seq<T>, key: T -> K, k: K, key': T -> L, k': L, both: T -> M, m: M)
    requires forall x :: both(x) == m <==> key(x) == k && key'(x) == k'
    ensures Where(Where(s, key, k), key', k') == Where(s, both, m)
  {
    if s != [] {
      var init, x := s[..|s| - 1], s[|s| - 1];
      WhereWhere(init, key, k, key', k', both, m);
      LastOut(s);
      WhereSnoc(init, x, key, k);
      WhereSnoc(init, x, both, m);
      WhereSnoc(Where(init, key, k), x, key', k');
    }
  }

  lemma {:induction false} WhereSum<T, K>(s: seq<T>, key: T -> K, f: T -> int, k: K)
    ensures SumBy(Where(s, key, k), f) == Part(s, key, f, k)
  {
    if s != [] {
      var init, x := s[..|s| - 1], s[|s| - 1];
      WhereSum(init, key, f, k);
      LastOut(s);
      WhereSnoc(init, x, key, k);
      SumBySnoc(Where(init, key, k), x, f);
      PartSnoc(init, x, key, f, k);
    }
  }

  lemma {:induction false} WhereBag<T, K>(s: seq<T>, key: T -> K, k: K)
    ensures multiset(Where(s, key, k)) == BagOf(s, x => if key(x) == k then multiset{x} else multiset{})
  {
    if s != [] {
      WhereBag(s[..|s| - 1], key, k);
    }
  }

  lemma WherePermutation<T, K>(a: seq<T>, b: seq<T>, key: T -> K, k: K)
    requires multiset(a) == multiset(b)
    ensures multiset(Where(a, key, k)) == multiset(Where(b, key, k))
  {
    WhereBag(a, key, k);
    WhereBag(b, key, k);
    BagOfPermutation(a, b, x => if key(x) == k then multiset{x} else multiset{});
  }

  lemma {:induction false} BagOfNothing<T, U>(s: seq<T>, f: T -> multiset<U>)
    requires forall i :: 0 <= i < |s| ==> f(s[i]) == multiset{}
    ensures BagOf(s, f) == multiset{}
  {
    if s != [] {
      BagOfNothing(s[..|s| - 1], f);
    }
  }

  lemma {:induction false} BagOfPlus<T, U>(s: seq<T>, f: T -> multiset<U>, g: T -> multiset<U>, h: T -> multiset<U>)
    requires forall i :: 0 <= i < |s| ==> h(s[i]) == f(s[i]) + g(s[i])
    ensures BagOf(s, h) == BagOf(s, f) + BagOf(s, g)
  {
    if s != [] {
      BagOfPlus(s[..|s| - 1], f, g, h);
    }
  }

  lemma {:induction false} BagOfPick<K, U>(keys: seq<K>, k: K, v: multiset<U>, f: K -> multiset<U>)
    requires Distinct(keys) && k in keys
    requires forall i :: 0 <= i < |keys| ==> f(keys[i]) == if keys[i] == k then v else multiset{}
    ensures BagOf(keys, f) == v
  {
    var n := |keys| - 1;
    if keys[n] == k {
      BagOfNothing(keys[..n], f);
    } else {
      assert k in keys[..n];
      BagOfPick(keys[..n], k, v, f);
    }
  }

  /** The bag of the elements with key `k`. */
  function BagPart<T, K(==), U(==)>(s: seq<T>, key: T -> K, f: T -> multiset<U>, k: K): multiset<U> {
    BagOf(Where(s, key, k), f)
  }

  lemma BagPartSnoc<T, K, U>(s: seq<T>, x: T, key: T -> K, f: T -> multiset<U>, k: K)
    ensures BagPart(s + [x], key, f, k) == BagPart(s, key, f, k) + if key(x) == k then f(x) else multiset{}
  {
    WhereSnoc(s, x, key, k);
    BagOfSnoc(Where(s, key, k), x, f);
  }

  /** The bags of the parts over all keys add up to the bag of the whole. */
  lemma {:induction false} BagPartsAddUp<T, K, U>(s: seq<T>, key: T -> K, f: T -> multiset<U>, keys: seq<K>)
    requires Distinct(keys) && forall i :: 0 <= i < |s| ==> key(s[i]) in keys
    ensures BagOf(keys, k => BagPart(s, key, f, k)) == BagOf(s, f)
  {
    if s == [] {
      BagOfNothing(keys, k => BagPart(s, key, f, k));
    } else {
      var init, x := s[..|s| - 1], s[|s| - 1];
      BagPartsAddUp(init, key, f, keys);
      LastOut(s);
      BagOfPick(keys, key(x), f(x), k => if k == key(x) then f(x) else multiset{});
      forall k ensures BagPart(s, key, f, k) == BagPart(init, key, f, k) + if key(x) == k then f(x) else multiset{} {
        BagPartSnoc(init, x, key, f, k);
      }
      BagOfPlus(keys, k => BagPart(init, key, f, k), k => if k == key(x) then f(x) else multiset{},
                k => BagPart(s, key, f, k));
    }
  }

  lemma {:induction false} BagSize<T, U>(s: seq<T>, f: T -> multiset<U>)
    requires forall i :: 0 <= i < |s| ==> |f(s[i])| == 1
    ensures |BagOf(s, f)| == |s|
  {
    if s != [] {
      BagSize(s[..|s| - 1], f);
    }
  }

  /** The lists the elements contribute, one after the other. */
  function Flat<T, U>(s: seq<T>, f: T -> seq<U>): seq<U> {
    if s == [] then [] else Flat(s[..|s| - 1], f) + f(s[|s| - 1])
  }

  lemma FlatSnoc<T, U>(s: seq<T>, x: T, f: T -> seq<U>)
    ensures Flat(s + [x], f) == Flat(s, f) + f(x)
  {
    assert (s + [x])[..|s|] == s;
  }

  lemma {:induction false} FlatBag<T, U>(s: seq<T>, f: T -> seq<U>)
    ensures multiset(Flat(s, f)) == BagOf(s, x => multiset(f(x)))
  {
    if s != [] {
      FlatBag(s[..|s| - 1], f);
    }
  }

  lemma FlatPermutation<T, U>(a: seq<T>, b: seq<T>, f: T -> seq<U>)
    requires multiset(a) == multiset(b)
    ensures multiset(Flat(a, f)) == multiset(Flat(b, f))
  {
    FlatBag(a, f);
    FlatBag(b, f);
    BagOfPermutation(a, b, x => multiset(f(x)));
  }

  /** How often an element is in a bag or a list put together from parts. */
  lemma {:induction false} BagCount<T, U>(s: seq<T>, f: T -> multiset<U>, x: U, g: T -> int)
    requires forall i :: 0 <= i < |s| ==> g(s[i]) == f(s[i])[x]
    ensures BagOf(s, f)[x] == SumBy(s, g)
  {
    if s != [] {
      BagCount(s[..|s| - 1], f, x, g);
    }
  }

  lemma FlatCount<T, U>(s: seq<T>, f: T -> seq<U>, x: U, g: T -> int)
    requires forall i :: 0 <= i < |s| ==> g(s[i]) == multiset(f(s[i]))[x]
    ensures multiset(Flat(s, f))[x] == SumBy(s, g)
  {
    FlatBag(s, f);
    BagCount(s, y => multiset(f(y)), x, g);
  }

  lemma {:induction false} BagMember<T, U>(s: seq<T>, f: T -> multiset<U>, x: U)
    ensures x in BagOf(s, f) <==> exists i :: 0 <= i < |s| && x in f(s[i])
  {
    if s != [] {
      var n := |s| - 1;
      BagMember(s[..n], f, x);
      assert forall i :: 0 <= i < n ==> s[..n][i] == s[i];
    }
  }

  lemma {:induction false} FlatMember<T, U>(s: seq<T>, f: T -> seq<U>, x: U)
    ensures x in Flat(s, f) <==> exists i :: 0 <= i < |s| && x in f(s[i])
  {
    if s != [] {
      var n := |s| - 1;
      FlatMember(s[..n], f, x);
      assert forall i :: 0 <= i < n ==> s[..n][i] == s[i];
    }
  }
}
