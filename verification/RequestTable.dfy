/** The table of slowest URMA requests (`_build_ub_lifecycle_summary`): events are merged
    per request by taking maxima, scored, ranked, and the first 80 are kept.

    Times are integer microseconds, the three-decimal millisecond grid on which
    the rounding of the tool is the identity. */
module RequestTable {
  import opened Basics
  import opened Ordering
  import opened Tally

  datatype EventType = Total | PollJfc | Notify | ThreadSched | Other
  datatype SchedKind = PollLoopGap | NanosleepWake | Generic

  datatype Event = Event(
    traceId: string, requestId: string, worker: string, source: string, target: string, timestamp: string,
    eventType: EventType, kind: SchedKind, hasInflight: bool,
    cost: Option<int>, waitOsSched: Option<int>, wake: Option<int>, wakeIsActual: bool,
    completion: Option<int>, processing: Option<int>, processingValid: bool, pollGap: int)

  datatype Field =
    | TotalTime | WaitOsSched | ReportedWake | ActualWake | Completion | Processing
    | PollTime | NotifyTime | SchedTime | LoopGap | SleepWake

  /** The fields a request is scored by. */
  const SCORE_FIELDS: seq<Field> :=
    [TotalTime, WaitOsSched, Completion, Processing, LoopGap, SleepWake, PollTime, NotifyTime]

  const TABLE_SIZE: nat := 80

  type Update = (Field, int)
  type Fields = map<Field, int>

  /** A request is known by its id, and an event without one by where and when it was seen. */
  function Key(e: Event): string {
    if e.requestId != "" then e.traceId + "|" + e.requestId
    else e.traceId + "|" + e.worker + "|" + e.source + "|" + e.target + "|" + e.timestamp
  }

  /** Whether the event makes a row for its request. */
  predicate Touches(e: Event) { e.hasInflight || !e.eventType.Other? }

  function Given(field: Field, value: Option<int>): seq<Update> {
    if value.None? then [] else [(field, value.value)]
  }

  /** The maxima an event takes part in. */
  function Updates(e: Event): seq<Update> {
    match e.eventType
    case Total =>
      Given(TotalTime, e.cost) + Given(WaitOsSched, e.waitOsSched) + Given(ReportedWake, e.wake)
      + (if e.wakeIsActual then Given(ActualWake, e.wake) else [])
      + Given(Completion, e.completion)
      + (if e.processingValid then Given(Processing, e.processing) else [])
    case PollJfc => Given(PollTime, e.cost)
    case Notify => Given(NotifyTime, e.cost)
    case ThreadSched =>
      Given(SchedTime, e.cost)
      + (match e.kind
         case PollLoopGap => [(LoopGap, e.pollGap)]
         case NanosleepWake => Given(SleepWake, e.cost)
         case Generic => [])
    case Other => []
  }

  // ---------------------------------------------------------------- merging by maximum

  function UpdateMax(fields: Fields, u: Update): Fields {
    fields[u.0 := if u.0 in fields && fields[u.0] >= u.1 then fields[u.0] else u.1]
  }

  function Merge(us: seq<Update>): Fields {
    if us == [] then map[] else UpdateMax(Merge(us[..|us| - 1]), us[|us| - 1])
  }

  /** Exactly the fields that occur, each with the largest value given for it. */
  ghost predicate IsMaxima(us: seq<Update>, fields: Fields) {
    && (forall f :: f in fields ==> (f, fields[f]) in us)
    && (forall u :: u in us ==> u.0 in fields && u.1 <= fields[u.0])
  }

  lemma {:induction false} MergeIsMaxima(us: seq<Update>)
    ensures IsMaxima(us, Merge(us))
  {
    if us != [] {
      var init, u := us[..|us| - 1], us[|us| - 1];
      MergeIsMaxima(init);
      assert forall x :: x in us <==> x in init || x == u;
    }
  }

  lemma MaximaUnique(us: seq<Update>, vs: seq<Update>, a: Fields, b: Fields)
    requires IsMaxima(us, a) && IsMaxima(vs, b) && forall u :: u in us <==> u in vs
    ensures a == b
  {
    forall f | f in a ensures f in b && a[f] == b[f] {
      assert (f, a[f]) in vs;
      assert (f, b[f]) in us;
    }
    forall f | f in b ensures f in a {
      assert (f, b[f]) in us;
    }
  }

  lemma MergeSnoc(us: seq<Update>, u: Update)
    ensures Merge(us + [u]) == UpdateMax(Merge(us), u)
  {
    assert (us + [u])[..|us|] == us;
  }

  /** All updates for one request, in the order of the events. */
  function Contributions(events: seq<Event>, key: string): seq<Update> {
    if events == [] then []
    else
      var e := events[|events| - 1];
      Contributions(events[..|events| - 1], key) + if Touches(e) && Key(e) == key then Updates(e) else []
  }

  function Contributed(e: Event, key: string): multiset<Update> {
    if Touches(e) && Key(e) == key then multiset(Updates(e)) else multiset{}
  }

  lemma {:induction false} ContributionsBag(events: seq<Event>, key: string)
    ensures multiset(Contributions(events, key)) == BagOf(events, e => Contributed(e, key))
  {
    hide Touches, Key, Updates;
    if events != [] {
      ContributionsBag(events[..|events| - 1], key);
    }
  }

  /** Every latency field of a request is the largest value any of its events gave, whatever their order. */
  lemma MergedFieldsIgnoreOrder(a: seq<Event>, b: seq<Event>, key: string)
    requires multiset(a) == multiset(b)
    ensures Merge(Contributions(a, key)) == Merge(Contributions(b, key))
  {
    hide Contributions, Contributed;
    ContributionsBag(a, key);
    ContributionsBag(b, key);
    BagOfPermutation(a, b, e => Contributed(e, key));
    var us, vs := Contributions(a, key), Contributions(b, key);
    forall u ensures u in us <==> u in vs {
      assert u in us <==> u in multiset(us);
      assert u in vs <==> u in multiset(vs);
    }
    MergeIsMaxima(us);
    MergeIsMaxima(vs);
    MaximaUnique(us, vs, Merge(us), Merge(vs));
  }

  /** Field by field, which reading of an event counts for it. */
  ghost function Reading(e: Event, f: Field): Option<int> {
    match f
    case TotalTime => if e.eventType == Total then e.cost else None
    case WaitOsSched => if e.eventType == Total then e.waitOsSched else None
    case ReportedWake => if e.eventType == Total then e.wake else None
    case ActualWake => if e.eventType == Total && e.wakeIsActual then e.wake else None
    case Completion => if e.eventType == Total then e.completion else None
    case Processing => if e.eventType == Total && e.processingValid then e.processing else None
    case PollTime => if e.eventType == PollJfc then e.cost else None
    case NotifyTime => if e.eventType == Notify then e.cost else None
    case SchedTime => if e.eventType == ThreadSched then e.cost else None
    case LoopGap => if e.eventType == ThreadSched && e.kind == PollLoopGap then Some(e.pollGap) else None
    case SleepWake => if e.eventType == ThreadSched && e.kind == NanosleepWake then e.cost else None
  }

  lemma GivenRead(field: Field, value: Option<int>, f: Field, v: int)
    ensures (f, v) in Given(field, value) <==> f == field && value == Some(v)
  {
  }

  lemma TotalRead(e: Event, f: Field, v: int)
    requires e.eventType == Total
    ensures (f, v) in Updates(e) <==> Reading(e, f) == Some(v)
  {
    GivenRead(TotalTime, e.cost, f, v);
    GivenRead(WaitOsSched, e.waitOsSched, f, v);
    GivenRead(ReportedWake, e.wake, f, v);
    GivenRead(ActualWake, e.wake, f, v);
    GivenRead(Completion, e.completion, f, v);
    GivenRead(Processing, e.processing, f, v);
    hide Given;
  }

  lemma UpdatesRead(e: Event, f: Field, v: int)
    ensures (f, v) in Updates(e) <==> Reading(e, f) == Some(v)
  {
    if e.eventType == Total {
      TotalRead(e, f, v);
    }
  }

  /** An event of the request that gives the value `v` for the field. */
  ghost predicate Gives(events: seq<Event>, key: string, e: Event, f: Field, v: int) {
    e in events && Key(e) == key && Reading(e, f) == Some(v)
  }

  lemma ReadingTouches(e: Event, f: Field)
    ensures Reading(e, f).Some? ==> Touches(e)
  {
  }

  lemma {:induction false} Contributor(events: seq<Event>, key: string, f: Field, v: int) returns (e: Event)
    requires (f, v) in Contributions(events, key)
    ensures Gives(events, key, e, f, v)
  {
    hide Touches, Key, Updates, Reading;
    var n := |events| - 1;
    if (f, v) in Contributions(events[..n], key) {
      e := Contributor(events[..n], key, f, v);
    } else {
      e := events[n];
      UpdatesRead(e, f, v);
    }
  }

  lemma {:induction false} Contributes(events: seq<Event>, key: string, e: Event, f: Field, v: int)
    requires Gives(events, key, e, f, v)
    ensures (f, v) in Contributions(events, key)
  {
    hide Touches, Key, Updates, Reading;
    var n := |events| - 1;
    if e in events[..n] {
      Contributes(events[..n], key, e, f, v);
    } else {
      LastOut(events);
      assert e == events[n];
      UpdatesRead(e, f, v);
      ReadingTouches(e, f);
    }
  }

  /** A field of a merged row: it is there exactly when an event of the request has a reading for it, and it is the
      largest of those readings. */
  lemma FieldMeans(events: seq<Event>, key: string, f: Field)
    ensures var fields := Merge(Contributions(events, key));
      && (f in fields <==> exists e, v :: Gives(events, key, e, f, v))
      && (f in fields ==> exists e :: Gives(events, key, e, f, fields[f]))
      && (forall e, v :: Gives(events, key, e, f, v) ==> f in fields && v <= fields[f])
  {
    hide Contributions, Merge, Gives;
    var us := Contributions(events, key);
    var fields := Merge(us);
    MergeIsMaxima(us);
    if f in fields {
      assert (f, fields[f]) in us;
      var e := Contributor(events, key, f, fields[f]);
    }
    forall e, v | Gives(events, key, e, f, v) ensures f in fields && v <= fields[f] {
      Contributes(events, key, e, f, v);
    }
  }

  lemma BarNotBefore(a: string, b: string, c: string, d: string)
    requires '|' !in c && a + "|" + b == c + "|" + d
    ensures |c| <= |a|
  {
    assert (a + "|" + b)[|a|] == '|';
    assert forall i :: 0 <= i < |c| ==> (c + "|" + d)[i] == c[i] && c[i] in c;
  }

  lemma CutAtBar(a: string, b: string, c: string, d: string)
    requires '|' !in a && '|' !in c && a + "|" + b == c + "|" + d
    ensures a == c && b == d
  {
    BarNotBefore(a, b, c, d);
    BarNotBefore(c, d, a, b);
    assert (a + "|" + b)[..|a|] == a && (c + "|" + d)[..|c|] == c;
    assert (a + "|" + b)[|a| + 1..] == b && (c + "|" + d)[|c| + 1..] == d;
  }

  /** Events with request ids share a row exactly when they have the same trace and request id, as long as no trace id
      has a bar in it. */
  lemma KeySeparates(a: Event, b: Event)
    requires a.requestId != "" && b.requestId != "" && '|' !in a.traceId && '|' !in b.traceId
    ensures Key(a) == Key(b) <==> a.traceId == b.traceId && a.requestId == b.requestId
  {
    if Key(a) == Key(b) {
      CutAtBar(a.traceId, a.requestId, b.traceId, b.requestId);
    }
  }

  // ---------------------------------------------------------------- rows

  datatype Row = Row(key: string, traceId: string, requestId: string, fields: Fields)

  function ValueOf(fields: Fields, f: Field): int { if f in fields then fields[f] else 0 }

  function ScoreOver(fields: Fields, names: seq<Field>): int
    requires names != []
  {
    var v := ValueOf(fields, names[|names| - 1]);
    if |names| == 1 then v else Max(ScoreOver(fields, names[..|names| - 1]), v)
  }

  function Score(row: Row): int { ScoreOver(row.fields, SCORE_FIELDS) }

  /** The score is the largest of the scored fields, a missing one counting as 0. */
  lemma {:induction false} ScoreIsMax(fields: Fields, names: seq<Field>)
    requires names != []
    ensures forall i :: 0 <= i < |names| ==> ScoreOver(fields, names) >= ValueOf(fields, names[i])
    ensures exists i :: 0 <= i < |names| && ScoreOver(fields, names) == ValueOf(fields, names[i])
  {
    var init, n := names[..|names| - 1], |names| - 1;
    if init != [] {
      ScoreIsMax(fields, init);
      var i :| 0 <= i < |init| && ScoreOver(fields, init) == ValueOf(fields, init[i]);
      assert names[i] == init[i];
    }
    assert ValueOf(fields, names[n]) <= ScoreOver(fields, names);
  }

  /** The score against every field it is taken from. */
  lemma ScoreMeans(row: Row)
    ensures forall f :: f in {TotalTime, WaitOsSched, Completion, Processing, LoopGap, SleepWake, PollTime, NotifyTime}
              ==> ValueOf(row.fields, f) <= Score(row)
    ensures exists f :: f in {TotalTime, WaitOsSched, Completion, Processing, LoopGap, SleepWake, PollTime, NotifyTime}
              && ValueOf(row.fields, f) == Score(row)
  {
    hide ScoreOver;
    ScoreIsMax(row.fields, SCORE_FIELDS);
    var i :| 0 <= i < |SCORE_FIELDS| && ScoreOver(row.fields, SCORE_FIELDS) == ValueOf(row.fields, SCORE_FIELDS[i]);
    assert SCORE_FIELDS[0] == TotalTime && SCORE_FIELDS[1] == WaitOsSched && SCORE_FIELDS[2] == Completion;
    assert SCORE_FIELDS[3] == Processing && SCORE_FIELDS[4] == LoopGap && SCORE_FIELDS[5] == SleepWake;
    assert SCORE_FIELDS[6] == PollTime && SCORE_FIELDS[7] == NotifyTime;
  }

  /** Sort key (-score, trace id, request id). */
  predicate RankLe(a: Row, b: Row) {
    || Score(a) > Score(b)
    || (Score(a) == Score(b) && a.traceId != b.traceId && StrLe(a.traceId, b.traceId))
    || (Score(a) == Score(b) && a.traceId == b.traceId && StrLe(a.requestId, b.requestId))
  }

  lemma RankLeTotal()
    ensures TotalPreorder(RankLe)
  {
    hide Score;
    StrLeIsTotalOrder();
  }

  // ---------------------------------------------------------------- what the loop computes

  /** The first event that makes a row for the request; it names the trace and the request. */
  function FirstTouch(events: seq<Event>, key: string): Option<Event> {
    if events == [] then None
    else
      var e := events[|events| - 1];
      var first := FirstTouch(events[..|events| - 1], key);
      if first.None? && Touches(e) && Key(e) == key then Some(e) else first
  }

  /** The row of a request, if any event makes one. */
  function RowFor(events: seq<Event>, key: string): Option<Row> {
    var first := FirstTouch(events, key);
    if first.None? then None
    else Some(Row(key, first.value.traceId, first.value.requestId, Merge(Contributions(events, key))))
  }

  /** Some event makes a row for the request. */
  ghost predicate Touched(events: seq<Event>, key: string) { exists e :: e in events && Touches(e) && Key(e) == key }

  lemma {:induction false} FirstTouchIs(events: seq<Event>, key: string)
    ensures FirstTouch(events, key).Some? <==> Touched(events, key)
    ensures FirstTouch(events, key).Some? ==> Key(FirstTouch(events, key).value) == key
  {
    hide Touches, Key;
    if events != [] {
      FirstTouchIs(events[..|events| - 1], key);
      assert forall e :: e in events <==> e in events[..|events| - 1] || e == events[|events| - 1];
    }
  }

  /** The row is named after the first event that makes it. */
  lemma {:induction false} NamedByFirst(events: seq<Event>, key: string) returns (i: nat)
    requires RowFor(events, key).Some?
    ensures i < |events| && Touches(events[i]) && Key(events[i]) == key
    ensures forall j :: 0 <= j < i ==> !(Touches(events[j]) && Key(events[j]) == key)
    ensures var row := RowFor(events, key).value;
            row.key == key && row.traceId == events[i].traceId && row.requestId == events[i].requestId
  {
    hide Touches, Key, Merge, Contributions;
    var n := |events| - 1;
    if FirstTouch(events[..n], key).Some? {
      i := NamedByFirst(events[..n], key);
    } else {
      i := n;
      FirstTouchIs(events[..n], key);
      assert forall j :: 0 <= j < n ==> events[j] == events[..n][j] && events[j] in events[..n];
    }
  }

  function MergeOnto(fields: Fields, us: seq<Update>): Fields {
    if us == [] then fields else UpdateMax(MergeOnto(fields, us[..|us| - 1]), us[|us| - 1])
  }

  lemma {:induction false} MergeAppend(us: seq<Update>, vs: seq<Update>)
    ensures Merge(us + vs) == MergeOnto(Merge(us), vs)
  {
    if vs == [] {
      assert us + vs == us;
    } else {
      MergeAppend(us, vs[..|vs| - 1]);
      assert us + vs == (us + vs[..|vs| - 1]) + [vs[|vs| - 1]];
      MergeSnoc(us + vs[..|vs| - 1], vs[|vs| - 1]);
    }
  }

  method ApplyUpdates(fields: Fields, us: seq<Update>) returns (r: Fields)
    ensures r == MergeOnto(fields, us)
  {
    r := fields;
    for i := 0 to |us|
      invariant r == MergeOnto(fields, us[..i])
    {
      assert us[..i + 1][..i] == us[..i];
      var (field, value) := us[i];
      if field !in r || r[field] < value {
        r := r[field := value];
      } else {
        assert UpdateMax(r, us[i]) == r;
      }
    }
    assert us[..|us|] == us;
  }

  function Lookup(requests: map<string, Row>, key: string): Option<Row> {
    if key in requests then Some(requests[key]) else None
  }

  ghost predicate TableOf(requests: map<string, Row>, keys: seq<string>, events: seq<Event>) {
    && Distinct(keys) && (forall k :: k in keys <==> k in requests)
    && forall key :: Lookup(requests, key) == RowFor(events, key)
  }

  /** The row an event meets: the one in the table, or a new one. */
  function RowBefore(requests: map<string, Row>, e: Event): Row {
    if Key(e) in requests then requests[Key(e)] else Row(Key(e), e.traceId, e.requestId, map[])
  }

  lemma {:induction false} NoContributions(events: seq<Event>, key: string)
    requires FirstTouch(events, key).None?
    ensures Contributions(events, key) == [] && Merge([]) == map[]
  {
    if events != [] {
      NoContributions(events[..|events| - 1], key);
    }
  }

  lemma RowForStep(events: seq<Event>, n: nat, key: string)
    requires n < |events|
    ensures var e, before, after := events[n], RowFor(events[..n], key), RowFor(events[..n + 1], key);
      if Touches(e) && Key(e) == key then
        var row := if before.Some? then before.value else Row(key, e.traceId, e.requestId, map[]);
        after == Some(row.(fields := MergeOnto(row.fields, Updates(e))))
      else after == before
  {
    var e := events[n];
    assert events[..n + 1][..n] == events[..n];
    var us := Contributions(events[..n], key);
    assert us + [] == us;
    MergeAppend(us, Updates(e));
    if FirstTouch(events[..n], key).None? {
      NoContributions(events[..n], key);
    }
    hide Touches, Key, Updates, Merge, MergeOnto;
  }

  lemma MergeStep(requests: map<string, Row>, keys: seq<string>, events: seq<Event>, n: nat)
    requires n < |events| && TableOf(requests, keys, events[..n])
    ensures var e := events[n];
      if Touches(e) then
        var row := RowBefore(requests, e);
        TableOf(requests[Key(e) := row.(fields := MergeOnto(row.fields, Updates(e)))],
                if Key(e) in requests then keys else keys + [Key(e)], events[..n + 1])
      else TableOf(requests, keys, events[..n + 1])
  {
    hide Touches, Key, Updates, RowFor, MergeOnto;
    var e, after := events[n], events[..n + 1];
    if Touches(e) {
      var row := RowBefore(requests, e);
      var requests' := requests[Key(e) := row.(fields := MergeOnto(row.fields, Updates(e)))];
      forall key ensures Lookup(requests', key) == RowFor(after, key) {
        assert Lookup(requests, key) == RowFor(events[..n], key);
        RowForStep(events, n, key);
      }
    } else {
      forall key ensures Lookup(requests, key) == RowFor(after, key) {
        assert Lookup(requests, key) == RowFor(events[..n], key);
        RowForStep(events, n, key);
      }
    }
  }

  lemma RowsOfTouched(requests: map<string, Row>, keys: seq<string>, events: seq<Event>)
    requires TableOf(requests, keys, events)
    ensures forall key :: key in requests <==> Touched(events, key)
  {
    hide Touched, FirstTouch;
    forall key ensures key in requests <==> Touched(events, key) {
      assert Lookup(requests, key) == RowFor(events, key);
      FirstTouchIs(events, key);
    }
  }

  method MergeEvents(events: seq<Event>) returns (requests: map<string, Row>, keys: seq<string>)
    ensures TableOf(requests, keys, events)
    // exactly the requests that an event touches have a row
    ensures forall key :: key in requests <==> Touched(events, key)
  {
    requests, keys := map[], [];
    assert TableOf(requests, keys, events[..0]);
    hide TableOf, Touches, Key, Updates;
    for n := 0 to |events|
      invariant TableOf(requests, keys, events[..n])
    {
      var e := events[n];
      MergeStep(requests, keys, events, n);
      if Touches(e) {
        var key := Key(e);
        var row := RowBefore(requests, e);
        if key !in requests {
          keys := keys + [key];
        }
        var fields := ApplyUpdates(row.fields, Updates(e));
        requests := requests[key := row.(fields := fields)];
      }
    }
    assert events[..|events|] == events;
    RowsOfTouched(requests, keys, events);
  }

  // ---------------------------------------------------------------- ranking

  /** One row per request, each the row of its events. */
  ghost predicate AllRows(rows: seq<Row>, events: seq<Event>) {
    && (forall i, j :: 0 <= i < j < |rows| ==> rows[i].key != rows[j].key)
    && (forall i :: 0 <= i < |rows| ==> RowFor(events, rows[i].key) == Some(rows[i]))
    && (forall key :: Touched(events, key) ==> exists i :: 0 <= i < |rows| && rows[i].key == key)
  }

  /** The first rows of the ranking: none that was dropped outranks one that was kept. */
  ghost predicate Top(out: seq<Row>, dropped: seq<Row>, rows: seq<Row>) {
    && |out| == (if |rows| <= TABLE_SIZE then |rows| else TABLE_SIZE)
    && Sorted(out, RankLe)
    && multiset(out) + multiset(dropped) == multiset(rows)
    && forall i, j :: 0 <= i < |out| && 0 <= j < |dropped| ==> RankLe(out[i], dropped[j])
  }

  lemma TopOfSorted(rows: seq<Row>, n: nat)
    requires n == if |rows| <= TABLE_SIZE then |rows| else TABLE_SIZE
    ensures var s := Sort(rows, RankLe); Top(s[..n], s[n..], rows)
  {
    hide RankLe, Sort;
    RankLeTotal();
    SortSorted(rows, RankLe);
    SortedCut(Sort(rows, RankLe), RankLe, n);
  }

  lemma TopOrdered(out: seq<Row>, dropped: seq<Row>, rows: seq<Row>)
    requires Top(out, dropped, rows)
    ensures forall i, j :: 0 <= i < j < |out| ==>
              && Score(out[i]) >= Score(out[j])
              && (Score(out[i]) == Score(out[j]) ==> StrLe(out[i].traceId, out[j].traceId))
              && (Score(out[i]) == Score(out[j]) && out[i].traceId == out[j].traceId ==>
                    StrLe(out[i].requestId, out[j].requestId))
    ensures forall i, j :: 0 <= i < |out| && 0 <= j < |dropped| ==> Score(out[i]) >= Score(dropped[j])
  {
    StrLeIsTotalOrder();
    hide Score, StrLe;
  }

  lemma TableLists(requests: map<string, Row>, keys: seq<string>, events: seq<Event>)
    requires TableOf(requests, keys, events)
    ensures forall k :: k in keys <==> k in requests
  {
  }

  lemma ListsAll(requests: map<string, Row>, keys: seq<string>, events: seq<Event>, all: seq<Row>)
    requires TableOf(requests, keys, events) && |all| == |keys|
    requires forall i :: 0 <= i < |all| ==> keys[i] in requests && all[i] == requests[keys[i]]
    requires forall key :: key in requests <==> Touched(events, key)
    ensures AllRows(all, events)
  {
    forall i | 0 <= i < |all| ensures all[i].key == keys[i] && RowFor(events, keys[i]) == Some(all[i]) {
      assert Lookup(requests, keys[i]) == RowFor(events, keys[i]);
    }
    hide RowFor, Touched;
    forall key | Touched(events, key) ensures exists i :: 0 <= i < |all| && all[i].key == key {
      assert key in keys;
      var i :| 0 <= i < |keys| && keys[i] == key;
      assert all[i].key == key;
    }
  }

  method BuildRequestTable(events: seq<Event>) returns (out: seq<Row>, ghost dropped: seq<Row>, ghost rows: seq<Row>)
    ensures AllRows(rows, events)
    ensures Top(out, dropped, rows)
    // by score, then by trace, then by request; nothing that was dropped has a larger score than what was kept
    ensures forall i, j :: 0 <= i < j < |out| ==>
              && Score(out[i]) >= Score(out[j])
              && (Score(out[i]) == Score(out[j]) ==> StrLe(out[i].traceId, out[j].traceId))
              && (Score(out[i]) == Score(out[j]) && out[i].traceId == out[j].traceId ==>
                    StrLe(out[i].requestId, out[j].requestId))
    ensures forall i, j :: 0 <= i < |out| && 0 <= j < |dropped| ==> Score(out[i]) >= Score(dropped[j])
  {
    hide Score, StrLe, Top, AllRows, TableOf, RankLe, Touched;
    var requests, keys := MergeEvents(events);
    TableLists(requests, keys, events);
    var all: seq<Row> := [];
    for k := 0 to |keys|
      invariant |all| == k && forall i :: 0 <= i < k ==> keys[i] in requests && all[i] == requests[keys[i]]
    {
      all := all + [requests[keys[k]]];
    }
    ListsAll(requests, keys, events, all);
    var ranked := Sort(all, RankLe);
    var n := if |all| <= TABLE_SIZE then |all| else TABLE_SIZE;
    TopOfSorted(all, n);
    out, dropped, rows := ranked[..n], ranked[n..], all;
    TopOrdered(out, dropped, rows);
  }
}
