/** From the log to the worker addresses: what the accumulator counts is what the matching is built from. */
module LogMapping {
  import opened Accumulator
  import opened Tally
  import W = WorkerIpMapping

  /** The counter of one worker, listed in some order. */
  ghost predicate Lists(w: W.Worker, counter: multiset<string>) {
    && W.DistinctIps(w)
    && (forall c :: c in w.ips ==> c.ip in counter && c.count == counter[c.ip])
    && (forall ip :: ip in counter ==> W.Observed(w, ip))
  }

  /** The dict of counters, listed in some order. */
  ghost predicate Items(items: seq<W.Worker>, ips: map<string, multiset<string>>) {
    && W.DictItems(items)
    && (forall w :: w in items ==> w.name in ips && Lists(w, ips[w.name]))
    && (forall name :: name in ips ==> W.IsWorkerName(items, name))
  }

  lemma ListedOnce(w: W.Worker)
    requires W.DistinctIps(w)
    ensures Distinct(w.ips)
  {
  }

  lemma InEvery(u: W.Worker, w: W.Worker, counter: multiset<string>, c: W.IpCount)
    requires Lists(u, counter) && Lists(w, counter) && c in u.ips
    ensures c in w.ips
  {
    var d :| d in w.ips && d.ip == c.ip;
  }

  lemma SameList(u: W.Worker, w: W.Worker, counter: multiset<string>)
    requires Lists(u, counter) && Lists(w, counter) && u.name == w.name
    ensures W.SameCounts(u, w)
  {
    ListedOnce(u);
    ListedOnce(w);
    forall c ensures multiset(u.ips)[c] == multiset(w.ips)[c] {
      if c in u.ips {
        InEvery(u, w, counter, c);
      }
      if c in w.ips {
        InEvery(w, u, counter, c);
      }
      AtMostOnce(u.ips, c);
      AtMostOnce(w.ips, c);
      assert c in multiset(u.ips) <==> c in u.ips;
      assert c in multiset(w.ips) <==> c in w.ips;
    }
  }

  lemma EveryCounterpart(a: seq<W.Worker>, b: seq<W.Worker>, x: map<string, multiset<string>>, w: W.Worker)
    requires Items(a, x) && Items(b, x) && w in a
    ensures W.Counterpart(w, b)
  {
    assert W.IsWorkerName(b, w.name);
    var u :| u in b && u.name == w.name;
    SameList(w, u, x[w.name]);
  }

  lemma SameItems(a: seq<W.Worker>, b: seq<W.Worker>, x: map<string, multiset<string>>)
    requires Items(a, x) && Items(b, x)
    ensures W.SameDict(a, b)
  {
    hide Items, W.Counterpart;
    forall w | w in a ensures W.Counterpart(w, b) {
      EveryCounterpart(a, b, x, w);
    }
    forall w | w in b ensures W.Counterpart(w, a) {
      EveryCounterpart(b, a, x, w);
    }
  }

  lemma SameCounters(a: seq<Line>, b: seq<Line>, x: map<string, multiset<string>>, y: map<string, multiset<string>>)
    requires multiset(a) == multiset(b) && IpsOf(x, a) && IpsOf(y, b)
    ensures x == y
  {
    forall worker ensures worker in x <==> worker in y
                  ensures worker in x ==> x[worker] == y[worker] {
      assert IpsMatch(x, a, worker) && IpsMatch(y, b, worker);
      BagOfPermutation(a, b, (l: Line) => IpBag(l, worker));
    }
  }

  /** Reordering the log does not change the matching, whatever the orders of the dicts. */
  lemma LogOrderKeepsMapping(a: seq<Line>, b: seq<Line>, x: map<string, multiset<string>>,
                             y: map<string, multiset<string>>, items: seq<W.Worker>, items': seq<W.Worker>)
    requires multiset(a) == multiset(b) && IpsOf(x, a) && IpsOf(y, b)
    requires Items(items, x) && Items(items', y)
    ensures W.Mapping(items) == W.Mapping(items')
  {
    SameCounters(a, b, x, y);
    SameItems(items, items', x);
    hide W.Mapping, W.SameDict;
    W.MappingIgnoresItemOrder(items, items');
  }

  /** The matching built from a log is Pareto optimal and at least half as large as any other. */
  lemma LogMappingIsGood(lines: seq<Line>, x: map<string, multiset<string>>, items: seq<W.Worker>, n: W.Assignment)
    requires IpsOf(x, lines) && Items(items, x)
    ensures W.ParetoOptimal(items, W.Mapping(items))
    ensures W.Matching(items, n) ==> |n| <= 2 * |W.Mapping(items)|
  {
    forall w, c | w in items && c in w.ips ensures c.ip != "" {
      assert IpsMatch(x, lines, w.name);
      NoEmptyIp(lines, w.name);
    }
    assert W.NoEmptyIps(items);
    assert W.DictItems(items);
    hide *;
    W.NoEmptyIpsSuffice(items);
    W.MappingIsParetoOptimal(items);
    if W.Matching(items, n) {
      W.MappingIsHalfOfAnyMatching(items, n);
    }
  }
}
