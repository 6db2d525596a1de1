/** Greedy worker-to-IP matching (`_build_worker_ip_mapping`).

    Workers choose one after the other, the one with most log lines first; each
    takes its most counted address that nobody before it has taken.  The dict
    arguments are sequences of items with distinct keys, in insertion order. */
module WorkerIpMapping {
  import opened Ordering
  import opened Tally

  datatype IpCount = IpCount(ip: string, count: nat)
  datatype Worker = Worker(name: string, ips: seq<IpCount>)
  datatype Row = Row(worker: string, podIp: string)
  datatype Pick = NoPick | Picked(ip: string)

  type Assignment = map<string, string>

  function Lines(c: IpCount): int { c.count }

  function LineTotal(ips: seq<IpCount>): int { SumBy(ips, Lines) }

  /** Sort key (-count, ip). */
  predicate IpLe(a: IpCount, b: IpCount) {
    a.count > b.count || (a.count == b.count && StrLe(a.ip, b.ip))
  }

  /** Sort key (-sum of counts, name). */
  predicate WorkerLe(a: Worker, b: Worker) {
    LineTotal(a.ips) > LineTotal(b.ips) || (LineTotal(a.ips) == LineTotal(b.ips) && StrLe(a.name, b.name))
  }

  predicate RowLe(a: Row, b: Row) { StrLe(a.worker, b.worker) }

  ghost predicate DistinctNames(items: seq<Worker>) {
    forall i, j :: 0 <= i < j < |items| ==> items[i].name != items[j].name
  }

  ghost predicate DistinctIps(w: Worker) {
    forall i, j :: 0 <= i < j < |w.ips| ==> w.ips[i].ip != w.ips[j].ip
  }

  /** Keys of a dict are distinct. */
  ghost predicate DictItems(items: seq<Worker>) {
    DistinctNames(items) && forall w :: w in items ==> DistinctIps(w)
  }

  /** `ingest` counts a host address only when it is non-empty. */
  ghost predicate NoEmptyIps(items: seq<Worker>) {
    forall w, c :: w in items && c in w.ips ==> c.ip != ""
  }

  // ---------------------------------------------------------------- declarative specification

  ghost predicate Before(u: Worker, w: Worker) { WorkerLe(u, w) && u.name != w.name }

  ghost predicate HeldEarlier(items: seq<Worker>, m: Assignment, w: Worker, ip: string) {
    exists u :: u in items && Before(u, w) && u.name in m && m[u.name] == ip
  }

  /** `c` is what `w` likes best among its addresses not held by a worker before it. */
  ghost predicate IsBestFree(items: seq<Worker>, m: Assignment, w: Worker, c: IpCount) {
    && c in w.ips && !HeldEarlier(items, m, w, c.ip)
    && forall d :: d in w.ips && !HeldEarlier(items, m, w, d.ip) ==> IpLe(c, d)
  }

  ghost predicate IsWorkerName(items: seq<Worker>, name: string) {
    exists w :: w in items && w.name == name
  }

  /** Every worker holds its best free address, and nothing if there is none (or it is empty). */
  ghost predicate SerialDictatorship(items: seq<Worker>, m: Assignment) {
    && (forall name :: name in m ==> IsWorkerName(items, name))
    && (forall w :: w in items && w.name in m ==>
          exists c :: IsBestFree(items, m, w, c) && c.ip == m[w.name] && c.ip != "")
    && (forall w :: w in items && w.name !in m ==>
          forall c :: IsBestFree(items, m, w, c) ==> c.ip == "")
  }

  ghost predicate Injective(m: Assignment) {
    forall a, b :: a in m && b in m && m[a] == m[b] ==> a == b
  }

  ghost predicate Observed(w: Worker, ip: string) { exists c :: c in w.ips && c.ip == ip }

  /** A matching of workers to addresses seen in their own log lines. */
  ghost predicate Matching(items: seq<Worker>, n: Assignment) {
    && (forall name :: name in n ==> IsWorkerName(items, name))
    && (forall w :: w in items && w.name in n ==> Observed(w, n[w.name]) && n[w.name] != "")
    && Injective(n)
  }

  ghost predicate Prefers(w: Worker, a: string, b: string) {
    exists x, y :: x in w.ips && y in w.ips && x.ip == a && y.ip == b && IpLe(x, y)
  }

  /** No worker is worse off under `n` than under `m` (having no address is worst). */
  ghost predicate NoWorse(items: seq<Worker>, n: Assignment, m: Assignment) {
    forall w :: w in items && w.name in m ==> w.name in n && Prefers(w, n[w.name], m[w.name])
  }

  ghost predicate SameFor(n: Assignment, m: Assignment, name: string) {
    (name in n <==> name in m) && (name in n ==> n[name] == m[name])
  }

  // ---------------------------------------------------------------- what the loop computes

  function Best(cands: seq<IpCount>, taken: set<string>): Pick {
    if cands == [] then NoPick
    else if cands[0].ip !in taken then Picked(cands[0].ip)
    else Best(cands[1..], taken)
  }

  function Choose(w: Worker, taken: set<string>): Pick { Best(Sort(w.ips, IpLe), taken) }

  function TakeTurn(m: Assignment, w: Worker): Assignment {
    var p := Choose(w, m.Values);
    if p.NoPick? || p.ip == "" then m else m[w.name := p.ip]
  }

  /** The assignment after the workers of `ws`, in this order, have chosen. */
  function Dictate(ws: seq<Worker>): Assignment {
    if ws == [] then map[] else TakeTurn(Dictate(ws[..|ws| - 1]), ws[|ws| - 1])
  }

  lemma DictateStep(ws: seq<Worker>, i: nat)
    requires i < |ws|
    ensures Dictate(ws[..i + 1]) == TakeTurn(Dictate(ws[..i]), ws[i])
  {
    assert ws[..i + 1][..i] == ws[..i];
  }

  /** The matching `_build_worker_ip_mapping` reports. */
  function Mapping(items: seq<Worker>): Assignment { Dictate(Sort(items, WorkerLe)) }

  method FirstFree(cands: seq<IpCount>, taken: set<string>) returns (p: Pick)
    ensures p == Best(cands, taken)
  {
    var i := 0;
    while i < |cands|
      invariant 0 <= i <= |cands|
      invariant Best(cands[i..], taken) == Best(cands, taken)
    {
      if cands[i].ip !in taken {
        return Picked(cands[i].ip);
      }
      i := i + 1;
    }
    return NoPick;
  }

  ghost predicate Represents(rows: seq<Row>, m: Assignment) {
    && |rows| == |m|
    && forall r :: r in rows <==> r.worker in m && m[r.worker] == r.podIp
  }

  lemma RepresentsExtend(rows: seq<Row>, m: Assignment, w: string, ip: string)
    requires Represents(rows, m) && w !in m
    ensures Represents(rows + [Row(w, ip)], m[w := ip])
  {
    var m' := m[w := ip];
    assert m'.Keys == m.Keys + {w};
  }

  ghost predicate HadTurn(ws: seq<Worker>, i: nat, name: string)
    requires i <= |ws|
  {
    exists k :: 0 <= k < i && ws[k].name == name
  }

  /** Only workers that have had their turn hold an address. */
  lemma {:induction false} DictateNames(ws: seq<Worker>, i: nat)
    requires DistinctNames(ws) && i <= |ws|
    ensures forall name :: name in Dictate(ws[..i]) ==> HadTurn(ws, i, name)
    ensures i < |ws| ==> ws[i].name !in Dictate(ws[..i])
  {
    if i > 0 {
      DictateNames(ws, i - 1);
      DictateStep(ws, i - 1);
    }
  }

  lemma ValuesAfterInsert(m: Assignment, k: string, v: string)
    requires k !in m
    ensures m[k := v].Values == m.Values + {v}
  {
    var m' := m[k := v];
    forall x | x in m.Values ensures x in m'.Values {
      var a :| a in m && m[a] == x;
      assert a in m' && m'[a] == x;
    }
    assert m'[k] == v;
  }

  lemma RowLeTotal()
    ensures TotalPreorder(RowLe)
  {
    StrLeIsTotalOrder();
  }

  lemma WorkerLeTotal()
    ensures TotalPreorder(WorkerLe)
  {
    StrLeIsTotalOrder();
  }

  lemma DistinctNamesPermute(a: seq<Worker>, b: seq<Worker>)
    requires multiset(a) == multiset(b) && DistinctNames(a)
    ensures DistinctNames(b)
  {
    DistinctPermutes(a, b);
    forall i, j | 0 <= i < j < |b| ensures b[i].name != b[j].name {
      assert b[i] in multiset(a) && b[j] in multiset(a);
    }
  }

  lemma SortedItems(items: seq<Worker>)
    requires DictItems(items)
    ensures DictItems(Sort(items, WorkerLe))
    ensures forall w :: w in items <==> w in Sort(items, WorkerLe)
    ensures Sorted(Sort(items, WorkerLe), WorkerLe)
  {
    var ws := Sort(items, WorkerLe);
    WorkerLeTotal();
    SortSorted(items, WorkerLe);
    SortMembers(items, WorkerLe);
    DistinctNamesPermute(items, ws);
  }

  lemma SortedNames(items: seq<Worker>)
    requires DictItems(items)
    ensures DistinctNames(Sort(items, WorkerLe))
  {
    SortedItems(items);
  }

  lemma NobodyChose(ws: seq<Worker>)
    ensures Dictate(ws[..0]) == map[] && Represents([], Dictate(ws[..0])) && Dictate(ws[..0]).Values == {}
  {
  }

  lemma SortKeepsRows(rows: seq<Row>, m: Assignment)
    requires Represents(rows, m)
    ensures Represents(Sort(rows, RowLe), m)
    ensures var s := Sort(rows, RowLe); forall i, j :: 0 <= i < j < |s| ==> StrLe(s[i].worker, s[j].worker)
  {
    RowLeTotal();
    SortSorted(rows, RowLe);
    SortMembers(rows, RowLe);
    hide Sort, StrLe;
  }

  /** One row per matched worker, ordered by worker name. */
  method BuildWorkerIpMapping(items: seq<Worker>) returns (rows: seq<Row>)
    requires DictItems(items)
    ensures forall i, j :: 0 <= i < j < |rows| ==> StrLe(rows[i].worker, rows[j].worker)
    ensures Represents(rows, Mapping(items))
  {
    hide Dictate, DictItems, Represents, Sort, Best, Sorted;
    var taken: set<string> := {};
    var chosen: seq<Row> := [];
    var ws := Sort(items, WorkerLe);
    SortedNames(items);
    NobodyChose(ws);
    var i := 0;
    while i < |ws|
      invariant 0 <= i <= |ws|
      invariant taken == Dictate(ws[..i]).Values
      invariant Represents(chosen, Dictate(ws[..i]))
    {
      ghost var m := Dictate(ws[..i]);
      DictateStep(ws, i);
      var cands := Sort(ws[i].ips, IpLe);
      var p := FirstFree(cands, taken);
      if p.Picked? && p.ip != "" {
        DictateNames(ws, i);
        ValuesAfterInsert(m, ws[i].name, p.ip);
        RepresentsExtend(chosen, m, ws[i].name, p.ip);
        taken := taken + {p.ip};
        chosen := chosen + [Row(ws[i].name, p.ip)];
      }
      i := i + 1;
    }
    assert ws[..i] == ws;
    rows := Sort(chosen, RowLe);
    SortKeepsRows(chosen, Mapping(items));
  }

  lemma IpLeTotal()
    ensures TotalOrder(IpLe)
  {
    StrLeIsTotalOrder();
  }

  // ---------------------------------------------------------------- turn by turn

  /** The pick is the least candidate that is still free. */
  lemma {:induction false} BestIsLeast(cands: seq<IpCount>, taken: set<string>)
    requires Sorted(cands, IpLe)
    ensures Best(cands, taken).NoPick? ==> forall c :: c in cands ==> c.ip in taken
    ensures Best(cands, taken).Picked? ==>
              exists c :: c in cands && c.ip == Best(cands, taken).ip && c.ip !in taken
                          && forall d :: d in cands && d.ip !in taken ==> d == c || IpLe(c, d)
  {
    if cands != [] {
      assert forall c :: c in cands <==> c == cands[0] || c in cands[1..];
      if cands[0].ip !in taken {
        assert forall d :: d in cands ==> d == cands[0] || IpLe(cands[0], d);
      } else {
        BestIsLeast(cands[1..], taken);
      }
    }
  }

  ghost predicate LeastFree(w: Worker, taken: set<string>, c: IpCount) {
    c in w.ips && c.ip !in taken && forall d :: d in w.ips && d.ip !in taken ==> IpLe(c, d)
  }

  lemma ChooseIsLeast(w: Worker, taken: set<string>)
    ensures Choose(w, taken).NoPick? ==> forall c :: c in w.ips ==> c.ip in taken
    ensures Choose(w, taken).Picked? ==> exists c :: LeastFree(w, taken, c) && c.ip == Choose(w, taken).ip
  {
    IpLeTotal();
    SortSorted(w.ips, IpLe);
    SortMembers(w.ips, IpLe);
    BestIsLeast(Sort(w.ips, IpLe), taken);
  }

  /** Later turns change nothing for the workers before them. */
  lemma {:induction false} DictateStable(ws: seq<Worker>, i: nat, j: nat, name: string)
    requires DistinctNames(ws) && i <= j <= |ws| && HadTurn(ws, i, name)
    ensures SameFor(Dictate(ws[..i]), Dictate(ws[..j]), name)
    decreases j
  {
    hide Dictate, Choose;
    if i < j {
      DictateStable(ws, i, j - 1, name);
      DictateStep(ws, j - 1);
      assert name != ws[j - 1].name;
    }
  }

  /** What the k-th worker ends up with, in terms of the addresses gone before its turn. */
  lemma Turn(ws: seq<Worker>, k: nat)
    requires DistinctNames(ws) && k < |ws|
    ensures ws[k].name in Dictate(ws) ==>
              exists c :: LeastFree(ws[k], Dictate(ws[..k]).Values, c) && c.ip == Dictate(ws)[ws[k].name] && c.ip != ""
    ensures ws[k].name !in Dictate(ws) ==>
              || (forall c :: c in ws[k].ips ==> c.ip in Dictate(ws[..k]).Values)
              || (exists c :: LeastFree(ws[k], Dictate(ws[..k]).Values, c) && c.ip == "")
  {
    var m := Dictate(ws[..k]);
    DictateNames(ws, k);
    assert HadTurn(ws, k + 1, ws[k].name);
    DictateStable(ws, k + 1, |ws|, ws[k].name);
    assert ws[..|ws|] == ws;
    hide Dictate;
    DictateStep(ws, k);
    ChooseIsLeast(ws[k], m.Values);
  }

  /** The addresses gone before the k-th turn are those of the first k workers. */
  lemma GoneBefore(ws: seq<Worker>, k: nat, ip: string)
    requires DistinctNames(ws) && k <= |ws|
    ensures ip in Dictate(ws[..k]).Values <==>
              exists j :: 0 <= j < k && ws[j].name in Dictate(ws) && Dictate(ws)[ws[j].name] == ip
  {
    assert ws[..|ws|] == ws;
    DictateNames(ws, k);
    forall j | 0 <= j < k ensures SameFor(Dictate(ws[..k]), Dictate(ws), ws[j].name) {
      assert HadTurn(ws, k, ws[j].name);
      DictateStable(ws, k, |ws|, ws[j].name);
    }
    if ip in Dictate(ws[..k]).Values {
      var name :| name in Dictate(ws[..k]) && Dictate(ws[..k])[name] == ip;
      var j :| 0 <= j < k && ws[j].name == name;
      assert SameFor(Dictate(ws[..k]), Dictate(ws), ws[j].name);
    }
  }

  lemma BeforeIsIndex(ws: seq<Worker>, j: nat, k: nat)
    requires DistinctNames(ws) && Sorted(ws, WorkerLe) && j < |ws| && k < |ws|
    ensures Before(ws[j], ws[k]) <==> j < k
  {
    if k < j {
      assert WorkerLe(ws[k], ws[j]);
      StrLeTotal(ws[j].name, ws[k].name);
    }
  }

  lemma HeldEarlierIsGone(ws: seq<Worker>, k: nat, ip: string)
    requires DistinctNames(ws) && Sorted(ws, WorkerLe) && k < |ws|
    ensures HeldEarlier(ws, Dictate(ws), ws[k], ip) <==> ip in Dictate(ws[..k]).Values
  {
    GoneBefore(ws, k, ip);
    forall j | 0 <= j < |ws| ensures Before(ws[j], ws[k]) <==> j < k {
      BeforeIsIndex(ws, j, k);
    }
    if ip in Dictate(ws[..k]).Values {
      var j :| 0 <= j < k && ws[j].name in Dictate(ws) && Dictate(ws)[ws[j].name] == ip;
      assert ws[j] in ws && Before(ws[j], ws[k]);
    }
  }

  /** The loop implements the declarative specification. */
  lemma MappingIsSerialDictatorship(items: seq<Worker>)
    requires DictItems(items)
    ensures SerialDictatorship(items, Mapping(items))
  {
    var ws := Sort(items, WorkerLe);
    var m := Mapping(items);
    SortedItems(items);
    forall name | name in m ensures IsWorkerName(items, name) {
      DictateNames(ws, |ws|);
      assert ws[..|ws|] == ws;
      var k :| 0 <= k < |ws| && ws[k].name == name;
      assert ws[k] in items;
    }
    forall w | w in items
      ensures w.name in m ==> exists c :: IsBestFree(items, m, w, c) && c.ip == m[w.name] && c.ip != ""
      ensures w.name !in m ==> forall c :: IsBestFree(items, m, w, c) ==> c.ip == ""
    {
      var k :| 0 <= k < |ws| && ws[k] == w;
      Turn(ws, k);
      forall ip ensures HeldEarlier(items, m, w, ip) <==> ip in Dictate(ws[..k]).Values {
        HeldEarlierIsGone(ws, k, ip);
        assert HeldEarlier(items, m, w, ip) <==> HeldEarlier(ws, m, w, ip);
      }
      assert forall c :: IsBestFree(items, m, w, c) <==> LeastFree(w, Dictate(ws[..k]).Values, c);
      IpLeTotal();
    }
  }

  lemma AgreedHoldings(ws: seq<Worker>, m: Assignment, k: nat, ip: string)
    requires DistinctNames(ws) && Sorted(ws, WorkerLe) && k < |ws|
    requires forall j :: 0 <= j < k ==> SameFor(m, Dictate(ws), ws[j].name)
    ensures HeldEarlier(ws, m, ws[k], ip) <==> ip in Dictate(ws[..k]).Values
  {
    GoneBefore(ws, k, ip);
    forall j | 0 <= j < |ws| ensures Before(ws[j], ws[k]) <==> j < k {
      BeforeIsIndex(ws, j, k);
    }
    if ip in Dictate(ws[..k]).Values {
      var j :| 0 <= j < k && ws[j].name in Dictate(ws) && Dictate(ws)[ws[j].name] == ip;
      assert ws[j] in ws && Before(ws[j], ws[k]) && SameFor(m, Dictate(ws), ws[j].name);
    }
  }

  lemma SameChoice(w: Worker, gone: set<string>, m: Assignment, n: Assignment)
    requires w.name in m ==> exists c :: LeastFree(w, gone, c) && c.ip == m[w.name] && c.ip != ""
    requires w.name !in m ==> forall c :: LeastFree(w, gone, c) ==> c.ip == ""
    requires w.name in n ==> exists c :: LeastFree(w, gone, c) && c.ip == n[w.name] && c.ip != ""
    requires w.name !in n ==>
               || (forall c :: c in w.ips ==> c.ip in gone)
               || (exists c :: LeastFree(w, gone, c) && c.ip == "")
    ensures SameFor(m, n, w.name)
  {
    IpLeTotal();
  }

  /** An assignment that agrees on the first k workers and meets the specification agrees on the next. */
  lemma SpecStep(ws: seq<Worker>, m: Assignment, k: nat)
    requires DistinctNames(ws) && Sorted(ws, WorkerLe) && k < |ws| && SerialDictatorship(ws, m)
    requires forall j :: 0 <= j < k ==> SameFor(m, Dictate(ws), ws[j].name)
    ensures SameFor(m, Dictate(ws), ws[k].name)
  {
    var w := ws[k];
    var gone := Dictate(ws[..k]).Values;
    forall c ensures IsBestFree(ws, m, w, c) <==> LeastFree(w, gone, c) {
      forall ip ensures HeldEarlier(ws, m, w, ip) <==> ip in gone {
        AgreedHoldings(ws, m, k, ip);
      }
    }
    assert w in ws;
    SameChoice(w, gone, m, Dictate(ws)) by { Turn(ws, k); }
  }

  lemma {:induction false} SpecUpTo(ws: seq<Worker>, m: Assignment, k: nat)
    requires DistinctNames(ws) && Sorted(ws, WorkerLe) && k <= |ws| && SerialDictatorship(ws, m)
    ensures forall j :: 0 <= j < k ==> SameFor(m, Dictate(ws), ws[j].name)
  {
    hide *;
    if k > 0 {
      SpecUpTo(ws, m, k - 1);
      SpecStep(ws, m, k - 1);
    }
  }

  /** The same counter, in whatever insertion order. */
  ghost predicate SameCounts(u: Worker, w: Worker) { u.name == w.name && multiset(u.ips) == multiset(w.ips) }

  ghost predicate Counterpart(w: Worker, b: seq<Worker>) { exists u :: u in b && SameCounts(w, u) }

  /** The same dict of counters, in whatever insertion orders. */
  ghost predicate SameDict(a: seq<Worker>, b: seq<Worker>) {
    && (forall w :: w in a ==> Counterpart(w, b))
    && (forall w :: w in b ==> Counterpart(w, a))
  }

  lemma SameMembersSameDict(a: seq<Worker>, b: seq<Worker>)
    requires forall w :: w in a <==> w in b
    ensures SameDict(a, b)
  {
    assert forall w :: SameCounts(w, w);
    hide SameCounts;
  }

  lemma SameWorker(u: Worker, w: Worker)
    requires SameCounts(u, w)
    ensures LineTotal(u.ips) == LineTotal(w.ips) && forall c :: c in u.ips <==> c in w.ips
  {
    SumByPermutation(u.ips, w.ips, Lines);
    forall c ensures c in u.ips <==> c in w.ips {
      assert c in multiset(u.ips) <==> c in multiset(w.ips);
    }
  }

  lemma SameHeld(a: seq<Worker>, b: seq<Worker>, m: Assignment, w: Worker, w': Worker, ip: string)
    requires SameDict(a, b) && SameCounts(w, w') && HeldEarlier(a, m, w, ip)
    ensures HeldEarlier(b, m, w', ip)
  {
    var u :| u in a && Before(u, w) && u.name in m && m[u.name] == ip;
    assert Counterpart(u, b);
    var u' :| u' in b && SameCounts(u, u');
    SameWorker(u, u');
    SameWorker(w, w');
    assert Before(u', w');
  }

  lemma SameBest(a: seq<Worker>, b: seq<Worker>, m: Assignment, w: Worker, w': Worker, c: IpCount)
    requires SameDict(a, b) && SameCounts(w, w') && IsBestFree(a, m, w, c)
    ensures IsBestFree(b, m, w', c)
  {
    SameWorker(w, w');
    forall ip ensures HeldEarlier(a, m, w, ip) <==> HeldEarlier(b, m, w', ip) {
      if HeldEarlier(a, m, w, ip) {
        SameHeld(a, b, m, w, w', ip);
      }
      if HeldEarlier(b, m, w', ip) {
        SameHeld(b, a, m, w', w, ip);
      }
    }
    hide HeldEarlier;
  }

  /** What the specification asks of one worker. */
  ghost predicate Served(items: seq<Worker>, m: Assignment, w: Worker) {
    if w.name in m then exists c :: IsBestFree(items, m, w, c) && c.ip == m[w.name] && c.ip != ""
    else forall c :: IsBestFree(items, m, w, c) ==> c.ip == ""
  }

  lemma SameDictBack(a: seq<Worker>, b: seq<Worker>, w: Worker, w': Worker)
    requires SameDict(a, b) && SameCounts(w, w')
    ensures SameDict(b, a) && SameCounts(w', w)
  {
  }

  lemma SameService(a: seq<Worker>, b: seq<Worker>, m: Assignment, w: Worker, w': Worker)
    requires SameDict(a, b) && SameCounts(w, w') && Served(a, m, w)
    ensures Served(b, m, w')
  {
    hide IsBestFree, SameDict;
    if w.name in m {
      var c :| IsBestFree(a, m, w, c) && c.ip == m[w.name] && c.ip != "";
      SameBest(a, b, m, w, w', c);
    } else {
      forall c | IsBestFree(b, m, w', c) ensures c.ip == "" {
        SameDictBack(a, b, w, w');
        SameBest(b, a, m, w', w, c);
      }
    }
  }

  lemma ServedAll(items: seq<Worker>, m: Assignment)
    ensures SerialDictatorship(items, m) <==>
            (forall name :: name in m ==> IsWorkerName(items, name)) && forall w :: w in items ==> Served(items, m, w)
  {
    hide IsBestFree;
  }

  /** The specification does not look at insertion orders. */
  lemma SpecOfSameDict(a: seq<Worker>, b: seq<Worker>, m: Assignment)
    requires SerialDictatorship(a, m) && SameDict(a, b)
    ensures SerialDictatorship(b, m)
  {
    ServedAll(a, m);
    ServedAll(b, m);
    hide SerialDictatorship, Served;
    forall name | name in m ensures IsWorkerName(b, name) {
      var w :| w in a && w.name == name;
      assert Counterpart(w, b);
    }
    forall w' | w' in b ensures Served(b, m, w') {
      assert Counterpart(w', a);
      var w :| w in a && SameCounts(w', w);
      SameService(a, b, m, w, w');
    }
  }

  lemma HolderIndex(items: seq<Worker>, name: string) returns (k: nat)
    requires DictItems(items) && IsWorkerName(items, name)
    ensures k < |Sort(items, WorkerLe)| && Sort(items, WorkerLe)[k].name == name
    ensures Sort(items, WorkerLe)[k] in items
  {
    SortedItems(items);
    var w :| w in items && w.name == name;
    k :| 0 <= k < |Sort(items, WorkerLe)| && Sort(items, WorkerLe)[k] == w;
  }

  lemma SpecByName(items: seq<Worker>, m: Assignment, name: string)
    requires DictItems(items) && SerialDictatorship(items, m) && IsWorkerName(items, name)
    ensures SameFor(m, Mapping(items), name)
  {
    var ws := Sort(items, WorkerLe);
    assert Mapping(items) == Dictate(ws);
    hide *;
    SortedItems(items);
    SameMembersSameDict(items, ws);
    SpecOfSameDict(items, ws, m);
    SpecUpTo(ws, m, |ws|);
    var k := HolderIndex(items, name);
  }

  lemma SameEverywhere(items: seq<Worker>, m: Assignment, n: Assignment)
    requires forall name :: name in m ==> IsWorkerName(items, name)
    requires forall name :: name in n ==> IsWorkerName(items, name)
    requires forall name :: IsWorkerName(items, name) ==> SameFor(m, n, name)
    ensures m == n
  {
    forall name | name in m ensures name in n && m[name] == n[name] {
      assert SameFor(m, n, name);
    }
    forall name | name in n ensures name in m {
      assert SameFor(m, n, name);
    }
  }

  /** The declarative specification has exactly one solution: the one the loop reports. */
  lemma SerialDictatorshipUnique(items: seq<Worker>, m: Assignment)
    requires DictItems(items) && SerialDictatorship(items, m)
    ensures m == Mapping(items)
  {
    var n := Mapping(items);
    MappingIsSerialDictatorship(items);
    assert forall name :: name in m ==> IsWorkerName(items, name);
    assert forall name :: name in n ==> IsWorkerName(items, name);
    hide *;
    forall name | IsWorkerName(items, name) ensures SameFor(m, n, name) {
      SpecByName(items, m, name);
    }
    SameEverywhere(items, m, n);
  }

  // ---------------------------------------------------------------- consequences

  lemma TurnsDiffer(ws: seq<Worker>, j: nat, k: nat)
    requires DistinctNames(ws) && j < k < |ws|
    requires ws[j].name in Dictate(ws) && ws[k].name in Dictate(ws)
    ensures Dictate(ws)[ws[j].name] != Dictate(ws)[ws[k].name]
  {
    Turn(ws, k);
    GoneBefore(ws, k, Dictate(ws)[ws[j].name]);
  }

  lemma HoldersDifferAt(ws: seq<Worker>, m: Assignment, j: nat, k: nat)
    requires DistinctNames(ws) && m == Dictate(ws) && j < |ws| && k < |ws|
    requires ws[j].name in m && ws[k].name in m && m[ws[j].name] == m[ws[k].name]
    ensures j == k
  {
    hide *;
    if j < k {
      TurnsDiffer(ws, j, k);
    } else if k < j {
      TurnsDiffer(ws, k, j);
    }
  }

  lemma HoldersDiffer(items: seq<Worker>, a: string, b: string)
    requires DictItems(items) && IsWorkerName(items, a) && IsWorkerName(items, b)
    requires a in Mapping(items) && b in Mapping(items) && Mapping(items)[a] == Mapping(items)[b]
    ensures a == b
  {
    SortedNames(items);
    var j := HolderIndex(items, a);
    var k := HolderIndex(items, b);
    HoldersDifferAt(Sort(items, WorkerLe), Mapping(items), j, k);
  }

  lemma HoldersAreWorkers(items: seq<Worker>, m: Assignment)
    requires SerialDictatorship(items, m)
    ensures forall name :: name in m ==> IsWorkerName(items, name)
    ensures forall w :: w in items && w.name in m ==> Observed(w, m[w.name]) && m[w.name] != ""
  {
    hide HeldEarlier, IpLe, IsWorkerName;
    forall w | w in items && w.name in m ensures Observed(w, m[w.name]) && m[w.name] != "" {
      var c :| IsBestFree(items, m, w, c) && c.ip == m[w.name] && c.ip != "";
    }
  }

  /** Distinct workers get distinct addresses, each seen in the worker's own lines. */
  lemma MappingIsMatching(items: seq<Worker>)
    requires DictItems(items)
    ensures Matching(items, Mapping(items))
    ensures "" !in Mapping(items).Values
  {
    hide Mapping, SerialDictatorship, DictItems;
    var m := Mapping(items);
    MappingIsSerialDictatorship(items);
    HoldersAreWorkers(items, m);
    forall a, b | a in m && b in m && m[a] == m[b] ensures a == b {
      HoldersDiffer(items, a, b);
    }
    forall name | name in m ensures m[name] != "" {
      var w :| w in items && w.name == name;
    }
  }

  /** A worker that is left out although one of its addresses is free in the end has counted the empty address at least
      as often as that one. */
  lemma GivenUpForEmpty(items: seq<Worker>, w: Worker, c: IpCount)
    requires DictItems(items) && w in items && w.name !in Mapping(items)
    requires c in w.ips && c.ip !in Mapping(items).Values
    ensures exists e :: e in w.ips && e.ip == "" && IpLe(e, c)
  {
    var ws := Sort(items, WorkerLe);
    assert Mapping(items) == Dictate(ws);
    SortedItems(items);
    hide Dictate, Mapping, Sort, WorkerLe, DictItems, IpLe;
    var k :| 0 <= k < |ws| && ws[k] == w;
    GoneBefore(ws, k, c.ip);
    Turn(ws, k);
  }

  /** Every address a left-out worker could have is held by another worker. */
  ghost predicate Saturated(items: seq<Worker>) {
    forall w, c :: w in items && w.name !in Mapping(items) && c in w.ips && c.ip != "" ==>
      c.ip in Mapping(items).Values
  }

  lemma NoEmptyIpsSuffice(items: seq<Worker>)
    requires DictItems(items) && NoEmptyIps(items)
    ensures Saturated(items)
  {
    hide Mapping, DictItems, IpLe;
    forall w, c | w in items && w.name !in Mapping(items) && c in w.ips && c.ip != ""
      ensures c.ip in Mapping(items).Values
    {
      if c.ip !in Mapping(items).Values {
        GivenUpForEmpty(items, w, c);
      }
    }
  }

  /** An empty best address makes a worker give up a free one.  The accumulator counts no empty address, so this input
      does not come from a log. */
  lemma EmptyBestAddressIsGivenUp()
    ensures var w := Worker("worker1", [IpCount("", 2), IpCount("10.0.0.1", 1)]);
            DictItems([w]) && Mapping([w]) == map[]
  {
    var w := Worker("worker1", [IpCount("", 2), IpCount("10.0.0.1", 1)]);
    var ws := Sort([w], WorkerLe);
    assert ws == [w];
    assert ws[..0] == [];
    var cands := Sort(w.ips, IpLe);
    assert w.ips[1..] == [IpCount("10.0.0.1", 1)];
    assert Sort(w.ips[1..], IpLe) == [IpCount("10.0.0.1", 1)];
    assert cands == w.ips;
    assert Choose(w, {}) == Picked("");
  }

  /** What `m` gives a worker, `n` gives it too. */
  ghost predicate Keeps(n: Assignment, m: Assignment, name: string) { name in m ==> name in n && n[name] == m[name] }

  /** When the first k workers keep what they have, what `n` gives the next one is still free at its turn. */
  lemma StillFree(ws: seq<Worker>, n: Assignment, k: nat)
    requires DistinctNames(ws) && k < |ws| && Injective(n) && ws[k].name in n
    requires forall j :: 0 <= j < k ==> Keeps(n, Dictate(ws), ws[j].name)
    ensures n[ws[k].name] !in Dictate(ws[..k]).Values
  {
    hide Dictate;
    GoneBefore(ws, k, n[ws[k].name]);
  }

  lemma IpLeAntisymmetric(a: IpCount, b: IpCount)
    requires IpLe(a, b) && IpLe(b, a)
    ensures a == b
  {
    StrLeTotal(a.ip, b.ip);
  }

  lemma OneCountPerIp(w: Worker, x: IpCount, y: IpCount)
    requires DistinctIps(w) && x in w.ips && y in w.ips && x.ip == y.ip
    ensures x == y
  {
    var i :| 0 <= i < |w.ips| && w.ips[i] == x;
    var j :| 0 <= j < |w.ips| && w.ips[j] == y;
  }

  lemma BestIsKept(w: Worker, gone: set<string>, a: string, b: string)
    requires DistinctIps(w) && Prefers(w, a, b) && a !in gone
    requires exists c :: LeastFree(w, gone, c) && c.ip == b
    ensures a == b
  {
    hide IpLe;
    var y, z :| y in w.ips && z in w.ips && y.ip == a && z.ip == b && IpLe(y, z);
    var c :| LeastFree(w, gone, c) && c.ip == b;
    OneCountPerIp(w, c, z);
    IpLeAntisymmetric(y, z);
  }

  /** Given that the first k workers keep what they have, so does the next one. */
  lemma ParetoStep(ws: seq<Worker>, n: Assignment, k: nat)
    requires DictItems(ws) && k < |ws|
    requires Matching(ws, n) && NoWorse(ws, n, Dictate(ws))
    requires forall j :: 0 <= j < k ==> Keeps(n, Dictate(ws), ws[j].name)
    ensures Keeps(n, Dictate(ws), ws[k].name)
  {
    hide Dictate, DistinctNames, IpLe;
    var w := ws[k];
    assert w in ws;
    if w.name in Dictate(ws) {
      StillFree(ws, n, k);
      Turn(ws, k);
      BestIsKept(w, Dictate(ws[..k]).Values, n[w.name], Dictate(ws)[w.name]);
    }
  }

  lemma {:induction false} ParetoUpTo(ws: seq<Worker>, n: Assignment, k: nat)
    requires DictItems(ws) && k <= |ws|
    requires Matching(ws, n) && NoWorse(ws, n, Dictate(ws))
    ensures forall j :: 0 <= j < k ==> Keeps(n, Dictate(ws), ws[j].name)
  {
    hide *;
    if k > 0 {
      ParetoUpTo(ws, n, k - 1);
      ParetoStep(ws, n, k - 1);
    }
  }

  lemma SettingOfPermutation(a: seq<Worker>, b: seq<Worker>, n: Assignment, m: Assignment)
    requires Matching(a, n) && NoWorse(a, n, m) && forall w :: w in a <==> w in b
    ensures Matching(b, n) && NoWorse(b, n, m)
  {
    assert forall name :: IsWorkerName(a, name) <==> IsWorkerName(b, name);
  }

  /** Whatever the counts: a matching that is no worse for any worker leaves every worker the address it holds. */
  lemma HoldersKeepTheirs(items: seq<Worker>, n: Assignment, name: string)
    requires DictItems(items) && Matching(items, n) && NoWorse(items, n, Mapping(items)) && name in Mapping(items)
    ensures name in n && n[name] == Mapping(items)[name]
  {
    var ws := Sort(items, WorkerLe);
    assert Mapping(items) == Dictate(ws);
    SortedItems(items);
    MappingIsMatching(items);
    assert IsWorkerName(items, name);
    hide Dictate, Mapping, Sort, WorkerLe, Matching, NoWorse, DictItems;
    SettingOfPermutation(items, ws, n, Mapping(items));
    ParetoUpTo(ws, n, |ws|);
    var k := HolderIndex(items, name);
    assert Keeps(n, Dictate(ws), ws[k].name);
  }

  lemma UnmatchedAddressesAreHeld(items: seq<Worker>, n: Assignment, name: string)
    requires Saturated(items) && Matching(items, n) && name in n && name !in Mapping(items)
    ensures n[name] in Mapping(items).Values
  {
    hide Mapping;
    var w :| w in items && w.name == name;
    assert Observed(w, n[name]);
  }

  lemma HeldTwice(n: Assignment, m: Assignment, name: string)
    requires Injective(n) && (forall x :: x in m ==> x in n && n[x] == m[x]) && name in n && n[name] in m.Values
    ensures name in m
  {
    var x :| x in m && m[x] == n[name];
  }

  lemma NoBetterMatching(items: seq<Worker>, n: Assignment)
    requires DictItems(items) && Saturated(items)
    requires Matching(items, n) && NoWorse(items, n, Mapping(items))
    ensures n == Mapping(items)
  {
    var m := Mapping(items);
    assert Injective(n);
    hide *;
    forall name | name in m ensures name in n && n[name] == m[name] {
      HoldersKeepTheirs(items, n, name);
    }
    forall name | name in n ensures name in m {
      if name !in m {
        UnmatchedAddressesAreHeld(items, n, name);
        HeldTwice(n, m, name);
      }
    }
  }

  /** A matching that is no worse for any worker is the same matching. */
  ghost predicate ParetoOptimal(items: seq<Worker>, m: Assignment) {
    forall n :: Matching(items, n) && NoWorse(items, n, m) ==> n == m
  }

  lemma PrefersItself(w: Worker, c: IpCount)
    requires c in w.ips
    ensures Prefers(w, c.ip, c.ip)
  {
    StrLeTotal(c.ip, c.ip);
  }

  lemma OneWorkerPerName(items: seq<Worker>, u: Worker, w: Worker)
    requires DictItems(items) && u in items && w in items && u.name == w.name
    ensures u == w
  {
    var i :| 0 <= i < |items| && items[i] == u;
    var j :| 0 <= j < |items| && items[j] == w;
  }

  lemma InjectiveExtended(m: Assignment, name: string, ip: string)
    requires Injective(m) && name !in m && ip !in m.Values
    ensures Injective(m[name := ip])
  {
    var n := m[name := ip];
    forall a, b | a in n && b in n && n[a] == n[b] ensures a == b {
      assert a != name ==> m[a] in m.Values;
      assert b != name ==> m[b] in m.Values;
    }
  }

  lemma ExtendedMatching(items: seq<Worker>, m: Assignment, w: Worker, ip: string)
    requires DictItems(items) && Matching(items, m) && w in items && w.name !in m
    requires Observed(w, ip) && ip != "" && ip !in m.Values
    ensures Matching(items, m[w.name := ip])
  {
    var n := m[w.name := ip];
    InjectiveExtended(m, w.name, ip);
    hide DictItems, Injective, Observed;
    forall u | u in items && u.name in n ensures Observed(u, n[u.name]) && n[u.name] != "" {
      if u.name == w.name {
        OneWorkerPerName(items, u, w);
      }
    }
  }

  lemma ExtendedNoWorse(items: seq<Worker>, m: Assignment, name: string, ip: string)
    requires Matching(items, m) && name !in m
    ensures NoWorse(items, m[name := ip], m)
  {
    hide Prefers, Injective;
    var n := m[name := ip];
    forall u | u in items && u.name in m ensures u.name in n && Prefers(u, n[u.name], m[u.name]) {
      assert Observed(u, m[u.name]);
      var d :| d in u.ips && d.ip == m[u.name];
      PrefersItself(u, d);
    }
  }

  /** Giving a left-out worker a free address of its own is better for it and worse for nobody. */
  lemma FreeAddressImproves(items: seq<Worker>, w: Worker, c: IpCount)
    requires DictItems(items) && w in items && w.name !in Mapping(items)
    requires c in w.ips && c.ip != "" && c.ip !in Mapping(items).Values
    ensures var n := Mapping(items)[w.name := c.ip];
            Matching(items, n) && NoWorse(items, n, Mapping(items)) && n != Mapping(items)
  {
    assert Observed(w, c.ip);
    hide *;
    MappingIsMatching(items);
    ExtendedMatching(items, Mapping(items), w, c.ip);
    ExtendedNoWorse(items, Mapping(items), w.name, c.ip);
    assert w.name in Mapping(items)[w.name := c.ip];
  }

  /** The matching is Pareto optimal exactly when every non-empty address of a left-out worker is held by another. */
  lemma MappingIsParetoOptimal(items: seq<Worker>)
    requires DictItems(items)
    ensures ParetoOptimal(items, Mapping(items)) <==> Saturated(items)
  {
    hide Mapping, Matching, NoWorse, DictItems;
    if Saturated(items) {
      forall n | Matching(items, n) && NoWorse(items, n, Mapping(items)) ensures n == Mapping(items) {
        NoBetterMatching(items, n);
      }
    } else {
      var w, c :| w in items && w.name !in Mapping(items) && c in w.ips && c.ip != "" && c.ip !in Mapping(items).Values;
      FreeAddressImproves(items, w, c);
    }
  }

  lemma {:induction false} ImageBound(keys: set<string>, n: Assignment, image: set<string>)
    requires keys <= n.Keys && Injective(n)
    requires forall k :: k in keys ==> n[k] in image
    ensures |keys| <= |image|
  {
    if keys != {} {
      var k :| k in keys;
      ImageBound(keys - {k}, n, image - {n[k]});
    }
  }

  lemma {:induction false} SubsetSize<T>(a: set<T>, b: set<T>)
    requires a <= b
    ensures |a| <= |b|
  {
    if a != {} {
      var x :| x in a;
      SubsetSize(a - {x}, b - {x});
    }
  }

  lemma {:induction false} ValuesBound(m: Assignment)
    ensures |m.Values| <= |m|
  {
    if m != map[] {
      var k :| k in m;
      var m' := map x | x in m && x != k :: m[x];
      assert m'.Keys == m.Keys - {k};
      ValuesBound(m');
      forall v | v in m.Values ensures v in m'.Values + {m[k]} {
        var x :| x in m && m[x] == v;
        assert x == k || m'[x] == v;
      }
      SubsetSize(m.Values, m'.Values + {m[k]});
    }
  }

  lemma HalfBound(n: Assignment, m: Assignment)
    requires Injective(n) && forall k :: k in n && k !in m ==> n[k] in m.Values
    ensures |n| <= 2 * |m|
  {
    var both := n.Keys * m.Keys;
    var rest := n.Keys - m.Keys;
    ImageBound(rest, n, m.Values);
    ValuesBound(m);
    SubsetSize(both, m.Keys);
    assert n.Keys == both + rest;
  }

  /** When all of them are held, no matching of workers to their observed addresses is more than twice as large. */
  lemma MappingIsHalfOfAnyMatching(items: seq<Worker>, n: Assignment)
    requires DictItems(items) && Saturated(items) && Matching(items, n)
    ensures |n| <= 2 * |Mapping(items)|
  {
    assert Injective(n);
    hide *;
    forall k | k in n && k !in Mapping(items) ensures n[k] in Mapping(items).Values {
      UnmatchedAddressesAreHeld(items, n, k);
    }
    HalfBound(n, Mapping(items));
  }

  /** How many lines were counted for a worker. */
  function AllLines(w: Worker): int { SumBy(w.ips, (c: IpCount) => c.count) }

  lemma LineTotalIs(w: Worker)
    ensures LineTotal(w.ips) == AllLines(w)
  {
    SumBySame(w.ips, Lines, (c: IpCount) => c.count);
  }

  /** Nothing is gone at an earlier turn that is free at a later one. */
  lemma FreeEarlier(ws: seq<Worker>, j: nat, k: nat, ip: string)
    requires DistinctNames(ws) && j <= k <= |ws| && ip !in Dictate(ws[..k]).Values
    ensures ip !in Dictate(ws[..j]).Values
  {
    hide Dictate;
    GoneBefore(ws, j, ip);
    GoneBefore(ws, k, ip);
  }

  /** `c` was counted more often than `d`, or as often with an address that sorts no later. */
  ghost predicate CountedBefore(c: IpCount, d: IpCount) {
    c.count > d.count || (c.count == d.count && StrLe(c.ip, d.ip))
  }

  /** At its turn, a worker that does not take `d` takes something it counted before it, or gives up for the empty
      address. */
  lemma TakesBetter(ws: seq<Worker>, j: nat, d: IpCount)
    requires DistinctNames(ws) && j < |ws| && d in ws[j].ips && d.ip !in Dictate(ws[..j]).Values
    ensures || (ws[j].name in Dictate(ws)
                && exists c :: c in ws[j].ips && c.ip == Dictate(ws)[ws[j].name] && CountedBefore(c, d))
            || (exists e :: e in ws[j].ips && e.ip == "" && e.count >= d.count)
  {
    hide Dictate;
    Turn(ws, j);
    if ws[j].name in Dictate(ws) {
      var c :| LeastFree(ws[j], Dictate(ws[..j]).Values, c) && c.ip == Dictate(ws)[ws[j].name] && c.ip != "";
      assert IpLe(c, d);
    } else {
      var e :| LeastFree(ws[j], Dictate(ws[..j]).Values, e) && e.ip == "";
      assert IpLe(e, d);
    }
  }

  lemma ChoosesFirst(ws: seq<Worker>, j: nat, k: nat)
    requires DistinctNames(ws) && Sorted(ws, WorkerLe) && j < |ws| && k < |ws| && j != k
    requires AllLines(ws[j]) > AllLines(ws[k]) || (AllLines(ws[j]) == AllLines(ws[k]) && StrLe(ws[j].name, ws[k].name))
    ensures j < k
  {
    LineTotalIs(ws[j]);
    LineTotalIs(ws[k]);
    StrLeTotal(ws[j].name, ws[k].name);
    assert !WorkerLe(ws[k], ws[j]);
  }

  lemma HeldIsFree(ws: seq<Worker>, k: nat)
    requires DistinctNames(ws) && k < |ws| && ws[k].name in Dictate(ws)
    ensures Dictate(ws)[ws[k].name] !in Dictate(ws[..k]).Values
  {
    hide Dictate;
    Turn(ws, k);
  }

  lemma ServedAtTurns(ws: seq<Worker>, j: nat, k: nat, d: IpCount)
    requires DistinctNames(ws) && Sorted(ws, WorkerLe) && j < |ws| && k < |ws| && j != k
    requires AllLines(ws[j]) > AllLines(ws[k]) || (AllLines(ws[j]) == AllLines(ws[k]) && StrLe(ws[j].name, ws[k].name))
    requires ws[k].name in Dictate(ws) && d in ws[j].ips && d.ip == Dictate(ws)[ws[k].name]
    ensures || (ws[j].name in Dictate(ws)
                && exists c :: c in ws[j].ips && c.ip == Dictate(ws)[ws[j].name] && CountedBefore(c, d))
            || (exists e :: e in ws[j].ips && e.ip == "" && e.count >= d.count)
  {
    hide Dictate, AllLines, CountedBefore;
    ChoosesFirst(ws, j, k);
    HeldIsFree(ws, k);
    FreeEarlier(ws, j, k, d.ip);
    TakesBetter(ws, j, d);
  }

  /** Who comes first: when a worker with fewer lines (or as many and a later name) holds an address that `u` counted,
      then `u` holds one that it counted more often (or as often, and it sorts no later), or gave up for the empty
      address. */
  lemma MoreLinesChooseFirst(items: seq<Worker>, u: Worker, w: Worker, d: IpCount)
    requires DictItems(items) && u in items && w in items && u.name != w.name
    requires AllLines(u) > AllLines(w) || (AllLines(u) == AllLines(w) && StrLe(u.name, w.name))
    requires w.name in Mapping(items) && d in u.ips && d.ip == Mapping(items)[w.name]
    ensures || (u.name in Mapping(items)
                && exists c :: c in u.ips && c.ip == Mapping(items)[u.name] && CountedBefore(c, d))
            || (exists e :: e in u.ips && e.ip == "" && e.count >= d.count)
  {
    var ws := Sort(items, WorkerLe);
    assert Mapping(items) == Dictate(ws);
    SortedItems(items);
    hide Dictate, Mapping, Sort, WorkerLe, AllLines, CountedBefore, Sorted;
    var j :| 0 <= j < |ws| && ws[j] == u;
    var k :| 0 <= k < |ws| && ws[k] == w;
    ServedAtTurns(ws, j, k, d);
  }

  /** The reported matching does not depend on the insertion orders of the dict and of its counters. */
  lemma MappingIgnoresItemOrder(a: seq<Worker>, b: seq<Worker>)
    requires DictItems(a) && DictItems(b) && SameDict(a, b)
    ensures Mapping(a) == Mapping(b)
  {
    hide *;
    MappingIsSerialDictatorship(a);
    SpecOfSameDict(a, b, Mapping(a));
    SerialDictatorshipUnique(b, Mapping(a));
  }
}
