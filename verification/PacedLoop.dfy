/** The paced benchmark loop of `example/kv_set_exist_get.py`.

    A run is driven by what the environment does in each cycle: how long every
    step takes, and which operation fails.  A run that is not ended by its
    duration ends when the user interrupts it: at a loop head, when `env` is
    exhausted, or in the last cycle of `env`, before or after its outcome is
    counted.  So a statement about `Run` is one about every prefix of every run. */
module PacedLoop {
  import opened Tally

  /** Time that passes; clocks do not go back and a sleep is never too short. */
  type Delay = d: real | d >= 0.0 witness 0.0

  datatype Ops = SetFails | ExistFails | GetFails | AllSucceed

  datatype Cycle = Cycle(
    head: Delay,      // until the loop head reads the clock
    begin: Delay,     // until the cycle reads its start time
    work: Delay,      // set, exist, get, and reporting
    ops: Ops,
    pace: Delay,      // until the pacing check reads the clock
    oversleep: Delay, // sleep beyond what was asked
    reset: Delay      // until the clock is read again to reset the tick
  )

  /** Where the user interrupts the run. */
  datatype Interrupt = AtHead | BeforeOutcome | AfterOutcome

  datatype Result =
    | BadArguments
    | Ran(total: nat, success: nat, setFail: nat, existFail: nat, getFail: nat,
          starts: seq<real>,  // start time of every cycle
          checks: seq<real>)  // time of the pacing check at the end of every cycle that gets there

  function Count(env: seq<Cycle>, ops: Ops): int { SumBy(env, (c: Cycle) => if c.ops == ops then 1 else 0) }

  /** The clock and the next tick at a loop head. */
  datatype Pacer = Pacer(clock: real, nextTick: real)

  /** When the cycle that begins at this loop head starts, and when its pacing check reads the clock. */
  function StartOf(p: Pacer, c: Cycle): real { p.clock + c.head + c.begin }
  function CheckOf(p: Pacer, c: Cycle): real { StartOf(p, c) + c.work + c.pace }

  /** The loop head after a cycle: on time it sleeps until the tick, ten intervals late it drops the backlog. */
  function After(p: Pacer, c: Cycle, interval: real): Pacer {
    var check, tick := CheckOf(p, c), p.nextTick + interval;
    if check < tick then Pacer(tick + c.oversleep, tick)
    else if check > tick + interval * 10.0 then Pacer(check + c.reset, check + c.reset)
    else Pacer(check, tick)
  }

  /** The loop head after the cycles of `env`. */
  function HeadAfter(start: real, interval: real, env: seq<Cycle>): Pacer {
    if env == [] then Pacer(start, start)
    else After(HeadAfter(start, interval, env[..|env| - 1]), env[|env| - 1], interval)
  }

  /** The loop head before cycle k reads a clock past the end of the run. */
  ghost predicate Over(start: real, interval: real, duration: real, env: seq<Cycle>, k: nat)
    requires k < |env|
  {
    duration > 0.0 && HeadAfter(start, interval, env[..k]).clock + env[k].head >= start + duration
  }

  /** Cycle k was started by a loop head that was not past the end, at the time of the schedule. */
  ghost predicate StartedAt(starts: seq<real>, start: real, interval: real, duration: real, env: seq<Cycle>, k: nat)
    requires k < |starts| && k < |env|
  {
    starts[k] == StartOf(HeadAfter(start, interval, env[..k]), env[k]) && !Over(start, interval, duration, env, k)
  }

  /** The pacing check of cycle k read the clock at the time of the schedule. */
  ghost predicate CheckedAt(checks: seq<real>, start: real, interval: real, env: seq<Cycle>, k: nat)
    requires k < |checks| && k < |env|
  {
    checks[k] == CheckOf(HeadAfter(start, interval, env[..k]), env[k])
  }

  ghost predicate Timed(starts: seq<real>, checks: seq<real>, start: real, interval: real, duration: real,
                        env: seq<Cycle>)
  {
    && |checks| <= |starts| <= |env|
    && (forall k :: 0 <= k < |starts| ==> StartedAt(starts, start, interval, duration, env, k))
    && (forall k :: 0 <= k < |checks| ==> CheckedAt(checks, start, interval, env, k))
  }

  lemma HeadAfterStep(start: real, interval: real, env: seq<Cycle>, n: nat)
    requires n < |env|
    ensures HeadAfter(start, interval, env[..n + 1]) == After(HeadAfter(start, interval, env[..n]), env[n], interval)
  {
    assert env[..n + 1][..n] == env[..n];
  }

  lemma TimeStart(starts: seq<real>, checks: seq<real>, start: real, interval: real, duration: real, env: seq<Cycle>,
                  head: Pacer)
    requires Timed(starts, checks, start, interval, duration, env) && |starts| < |env|
    requires head == HeadAfter(start, interval, env[..|starts|]) && !Over(start, interval, duration, env, |starts|)
    ensures Timed(starts + [StartOf(head, env[|starts|])], checks, start, interval, duration, env)
  {
    hide HeadAfter, Over, CheckedAt;
    var n := |starts|;
    var starts' := starts + [StartOf(head, env[n])];
    forall k | 0 <= k <= n ensures StartedAt(starts', start, interval, duration, env, k) {
      if k < n {
        assert StartedAt(starts, start, interval, duration, env, k);
      }
    }
  }

  lemma TimeCheck(starts: seq<real>, checks: seq<real>, start: real, interval: real, duration: real, env: seq<Cycle>,
                  head: Pacer)
    requires Timed(starts, checks, start, interval, duration, env) && |checks| < |starts|
    requires head == HeadAfter(start, interval, env[..|checks|])
    ensures Timed(starts, checks + [CheckOf(head, env[|checks|])], start, interval, duration, env)
  {
    hide HeadAfter, StartedAt;
    var n := |checks|;
    var checks' := checks + [CheckOf(head, env[n])];
    forall k | 0 <= k <= n ensures CheckedAt(checks', start, interval, env, k) {
      if k < n {
        assert CheckedAt(checks, start, interval, env, k);
      }
    }
  }

  /** n intervals. */
  function Ticks(n: int, interval: real): real { n as real * interval }

  lemma TicksStep(n: int, interval: real)
    ensures Ticks(n + 1, interval) == Ticks(n, interval) + interval
  {
  }

  /** `starts[k]` is at or after the k-th tick of the schedule that starts at `start`. */
  ghost predicate OnSchedule(starts: seq<real>, start: real, interval: real) {
    forall k :: 0 <= k < |starts| ==> starts[k] >= start + Ticks(k, interval)
  }

  /** After the check of cycle c, the k-th start is at or after check + (k - c - 11) intervals. */
  ghost predicate BoundedCatchUp(starts: seq<real>, checks: seq<real>, interval: real) {
    forall c, k :: 0 <= c < |checks| && c < k < |starts| ==>
      starts[k] >= checks[c] + Ticks(k - c - 11, interval)
  }

  /** One cycle moves the tick on by at least an interval, and never leaves it over ten intervals behind the check. */
  lemma AfterAdvances(p: Pacer, c: Cycle, interval: real)
    requires interval > 0.0
    ensures var q := After(p, c, interval);
            q.clock >= q.nextTick >= p.nextTick + interval && q.nextTick >= CheckOf(p, c) - interval * 10.0
  {
  }

  /** Every loop head is at or after its tick, and the n-th tick is n intervals or more after the start. */
  lemma {:induction false} HeadNotEarly(start: real, interval: real, env: seq<Cycle>, n: nat)
    requires interval > 0.0 && n <= |env|
    ensures var head := HeadAfter(start, interval, env[..n]); head.clock >= head.nextTick >= start + Ticks(n, interval)
  {
    if n > 0 {
      HeadNotEarly(start, interval, env, n - 1);
      HeadAfterStep(start, interval, env, n - 1);
      AfterAdvances(HeadAfter(start, interval, env[..n - 1]), env[n - 1], interval);
      TicksStep(n - 1, interval);
    }
  }

  /** However late cycle c was checked, the tick of a later cycle n makes up for at most eleven intervals of it. */
  lemma {:induction false} BacklogDropped(start: real, interval: real, env: seq<Cycle>, c: nat, n: nat)
    requires interval > 0.0 && c < n <= |env|
    ensures HeadAfter(start, interval, env[..n]).nextTick
         >= CheckOf(HeadAfter(start, interval, env[..c]), env[c]) + Ticks(n - c - 11, interval)
    decreases n
  {
    var before := HeadAfter(start, interval, env[..n - 1]);
    HeadAfterStep(start, interval, env, n - 1);
    AfterAdvances(before, env[n - 1], interval);
    if c == n - 1 {
      assert Ticks(-10, interval) == -interval * 10.0;
    } else {
      BacklogDropped(start, interval, env, c, n - 1);
      TicksStep(n - 1 - c - 11, interval);
    }
  }

  /** What the schedule of the loop promises about the times of every run. */
  lemma ScheduleIsPaced(starts: seq<real>, checks: seq<real>, start: real, interval: real, duration: real,
                        env: seq<Cycle>)
    requires interval > 0.0 && Timed(starts, checks, start, interval, duration, env)
    ensures OnSchedule(starts, start, interval)
    ensures BoundedCatchUp(starts, checks, interval)
    ensures duration > 0.0 && |starts| > 0 ==> Ticks(|starts| - 1, interval) < duration
  {
    hide Ticks, HeadAfter;
    forall k | 0 <= k < |starts| ensures starts[k] >= start + Ticks(k, interval) {
      assert StartedAt(starts, start, interval, duration, env, k);
      HeadNotEarly(start, interval, env, k);
    }
    forall c, k | 0 <= c < |checks| && c < k < |starts| ensures starts[k] >= checks[c] + Ticks(k - c - 11, interval) {
      assert StartedAt(starts, start, interval, duration, env, k);
      assert CheckedAt(checks, start, interval, env, c);
      HeadNotEarly(start, interval, env, k);
      BacklogDropped(start, interval, env, c, k);
    }
    if |starts| > 0 {
      assert StartedAt(starts, start, interval, duration, env, |starts| - 1);
      HeadNotEarly(start, interval, env, |starts| - 1);
    }
  }

  // ---------------------------------------------------------------- the exact schedule, from the recorded times

  /** Where the present schedule began: at `time`, before cycle `cycle`. */
  datatype Origin = Origin(cycle: nat, time: real)

  /** The schedule begins with the run, and anew after every check more than ten intervals past its tick: the tick is
      then the clock read at the reset. */
  ghost function OriginAt(checks: seq<real>, start: real, interval: real, env: seq<Cycle>, k: nat): (o: Origin)
    requires k <= |checks| <= |env|
    ensures o.cycle <= k
  {
    if k == 0 then Origin(0, start)
    else
      var o := OriginAt(checks, start, interval, env, k - 1);
      if checks[k - 1] > o.time + Ticks(k - o.cycle, interval) + 10.0 * interval
      then Origin(k, checks[k - 1] + env[k - 1].reset) else o
  }

  /** The tick before cycle k: whole intervals after the origin of its schedule. */
  ghost function TickAt(checks: seq<real>, start: real, interval: real, env: seq<Cycle>, k: nat): real
    requires k <= |checks| <= |env|
  {
    var o := OriginAt(checks, start, interval, env, k);
    o.time + Ticks(k - o.cycle, interval)
  }

  /** When the loop comes back to its head before cycle k: at the origin of a schedule, or after the sleep to the tick,
      or at once when the check was not before the tick. */
  ghost function Resumed(checks: seq<real>, start: real, interval: real, env: seq<Cycle>, k: nat): real
    requires k <= |checks| <= |env|
  {
    var o, tick := OriginAt(checks, start, interval, env, k), TickAt(checks, start, interval, env, k);
    if o.cycle == k then o.time
    else if checks[k - 1] < tick then tick + env[k - 1].oversleep else checks[k - 1]
  }

  /** Cycle k started right after the loop came back, and before the end of the run. */
  ghost predicate StartsExactly(starts: seq<real>, checks: seq<real>, start: real, interval: real, duration: real,
                                env: seq<Cycle>, k: nat)
    requires k < |starts| && k <= |checks| <= |env| && k < |env|
  {
    var head := Resumed(checks, start, interval, env, k) + env[k].head;
    starts[k] == head + env[k].begin && (duration > 0.0 ==> head < start + duration)
  }

  ghost predicate ExactTimes(starts: seq<real>, checks: seq<real>, start: real, interval: real, duration: real,
                             env: seq<Cycle>)
  {
    && |checks| <= |starts| <= |env|
    && (forall k :: 0 <= k < |starts| && k <= |checks| ==>
          StartsExactly(starts, checks, start, interval, duration, env, k))
    && (forall k :: 0 <= k < |checks| ==> checks[k] == starts[k] + env[k].work + env[k].pace)
  }

  /** No check before cycle k was more than ten intervals past its tick. */
  ghost predicate NeverLate(checks: seq<real>, start: real, interval: real, k: nat)
    requires k <= |checks|
  {
    forall c :: 0 <= c < k ==> checks[c] <= start + Ticks(c + 1, interval) + 10.0 * interval
  }

  /** While no check was that late the ticks are those of the start: cycle k starts at the later of its tick (reached
      by a sleep) and the check before it. */
  ghost predicate ExactWhileNeverLate(starts: seq<real>, checks: seq<real>, start: real, interval: real,
                                      env: seq<Cycle>)
  {
    && |checks| <= |starts| <= |env|
    && (forall k :: 0 < k < |starts| && k <= |checks| && NeverLate(checks, start, interval, k) ==>
          var tick := start + Ticks(k, interval);
          starts[k] == (if checks[k - 1] < tick then tick + env[k - 1].oversleep else checks[k - 1])
                       + env[k].head + env[k].begin)
  }

  lemma {:induction false} OriginWhileNeverLate(checks: seq<real>, start: real, interval: real, env: seq<Cycle>, k: nat)
    requires k <= |checks| <= |env| && NeverLate(checks, start, interval, k)
    ensures OriginAt(checks, start, interval, env, k) == Origin(0, start)
  {
    hide Ticks;
    if k > 0 {
      OriginWhileNeverLate(checks, start, interval, env, k - 1);
    }
  }

  /** From one cycle to the next, without the origin: the tick moves on by an interval, or to the reset. */
  lemma ResumedStep(checks: seq<real>, start: real, interval: real, env: seq<Cycle>, k: nat)
    requires interval > 0.0 && k < |checks| <= |env|
    ensures var check, tick := checks[k], TickAt(checks, start, interval, env, k) + interval;
            var late := check > tick + 10.0 * interval;
      && TickAt(checks, start, interval, env, k + 1) == (if late then check + env[k].reset else tick)
      && Resumed(checks, start, interval, env, k + 1) ==
         if late then check + env[k].reset else if check < tick then tick + env[k].oversleep else check
  {
    var o := OriginAt(checks, start, interval, env, k);
    TicksStep(k - o.cycle, interval);
    assert Ticks(0, interval) == 0.0;
    hide Ticks;
  }

  lemma ResumedFirst(checks: seq<real>, start: real, interval: real, env: seq<Cycle>)
    requires |checks| <= |env|
    ensures TickAt(checks, start, interval, env, 0) == Resumed(checks, start, interval, env, 0) == start
  {
  }

  /** The loop head of the recurrence is the one read off the recorded times. */
  lemma {:induction false} HeadIsResumed(checks: seq<real>, start: real, interval: real, env: seq<Cycle>, k: nat)
    requires interval > 0.0 && k <= |checks| <= |env|
    requires forall c :: 0 <= c < k ==> CheckedAt(checks, start, interval, env, c)
    ensures HeadAfter(start, interval, env[..k]) ==
            Pacer(Resumed(checks, start, interval, env, k), TickAt(checks, start, interval, env, k))
  {
    hide Resumed, TickAt;
    if k == 0 {
      ResumedFirst(checks, start, interval, env);
    } else {
      HeadIsResumed(checks, start, interval, env, k - 1);
      HeadAfterStep(start, interval, env, k - 1);
      assert CheckedAt(checks, start, interval, env, k - 1);
      ResumedStep(checks, start, interval, env, k - 1);
    }
  }

  lemma TimesAreExact(starts: seq<real>, checks: seq<real>, start: real, interval: real, duration: real,
                      env: seq<Cycle>)
    requires interval > 0.0 && Timed(starts, checks, start, interval, duration, env)
    ensures ExactTimes(starts, checks, start, interval, duration, env)
  {
    hide Ticks, HeadAfter, Resumed, TickAt;
    forall k | 0 <= k < |starts| && k <= |checks|
      ensures StartsExactly(starts, checks, start, interval, duration, env, k)
    {
      assert StartedAt(starts, start, interval, duration, env, k);
      HeadIsResumed(checks, start, interval, env, k);
    }
    forall k | 0 <= k < |checks| ensures checks[k] == starts[k] + env[k].work + env[k].pace {
      assert StartedAt(starts, start, interval, duration, env, k) && CheckedAt(checks, start, interval, env, k);
    }
  }

  lemma ExactAtFirst(starts: seq<real>, checks: seq<real>, start: real, interval: real, duration: real,
                     env: seq<Cycle>)
    requires ExactTimes(starts, checks, start, interval, duration, env)
    ensures ExactWhileNeverLate(starts, checks, start, interval, env)
  {
    hide Ticks, OriginAt, NeverLate;
    forall k | 0 < k < |starts| && k <= |checks| && NeverLate(checks, start, interval, k)
      ensures var tick := start + Ticks(k, interval);
              starts[k] == (if checks[k - 1] < tick then tick + env[k - 1].oversleep else checks[k - 1])
                           + env[k].head + env[k].begin
    {
      assert StartsExactly(starts, checks, start, interval, duration, env, k);
      OriginWhileNeverLate(checks, start, interval, env, k);
    }
  }

  /** The end of the run, read off the recorded times. */
  lemma OverIsLate(starts: seq<real>, checks: seq<real>, start: real, interval: real, duration: real, env: seq<Cycle>,
                   n: nat)
    requires interval > 0.0 && Timed(starts, checks, start, interval, duration, env)
    requires n == |checks| < |env| && Over(start, interval, duration, env, n)
    ensures duration > 0.0 && Resumed(checks, start, interval, env, n) + env[n].head >= start + duration
  {
    HeadIsResumed(checks, start, interval, env, n);
  }

  /** The counters agree with the outcomes of the first `counted` cycles. */
  ghost predicate Counted(env: seq<Cycle>, counted: nat, success: nat, setFail: nat, existFail: nat, getFail: nat) {
    && counted <= |env| && counted == success + setFail + existFail + getFail
    && success == Count(env[..counted], AllSucceed) && setFail == Count(env[..counted], SetFails)
    && existFail == Count(env[..counted], ExistFails) && getFail == Count(env[..counted], GetFails)
  }

  lemma CountStep(env: seq<Cycle>, n: nat, ops: Ops)
    requires n < |env|
    ensures Count(env[..n + 1], ops) == Count(env[..n], ops) + if env[n].ops == ops then 1 else 0
  {
    assert env[..n + 1] == env[..n] + [env[n]];
    SumBySnoc(env[..n], env[n], (c: Cycle) => if c.ops == ops then 1 else 0);
  }

  lemma CountCycle(env: seq<Cycle>, total: nat, success: nat, setFail: nat, existFail: nat, getFail: nat)
    requires Counted(env, total, success, setFail, existFail, getFail) && total < |env|
    ensures match env[total].ops
            case SetFails => Counted(env, total + 1, success, setFail + 1, existFail, getFail)
            case ExistFails => Counted(env, total + 1, success, setFail, existFail + 1, getFail)
            case GetFails => Counted(env, total + 1, success, setFail, existFail, getFail + 1)
            case AllSucceed => Counted(env, total + 1, success + 1, setFail, existFail, getFail)
  {
    CountStep(env, total, SetFails);
    CountStep(env, total, ExistFails);
    CountStep(env, total, GetFails);
    CountStep(env, total, AllSucceed);
  }

  lemma NothingYet(start: real, interval: real, duration: real, env: seq<Cycle>)
    ensures HeadAfter(start, interval, env[..0]) == Pacer(start, start)
    ensures Counted(env, 0, 0, 0, 0, 0) && Timed([], [], start, interval, duration, env)
  {
  }

  /** The user interrupts the last cycle of `env`, if the run gets to it. */
  predicate CutShort(r: Result, env: seq<Cycle>, interrupt: Interrupt) {
    r.Ran? && interrupt != AtHead && env != [] && r.total == |env|
  }

  /** Every started cycle has a start and, unless it was interrupted, a pacing check; every one is counted once under
      its outcome, except one that was interrupted before. */
  ghost predicate Accounted(r: Result, env: seq<Cycle>, interrupt: Interrupt) {
    r.Ran? ==>
      var cut := CutShort(r, env, interrupt);
      && |r.starts| == r.total <= |env| && |r.checks| == r.total - (if cut then 1 else 0)
      && var counted := r.total - if cut && interrupt == BeforeOutcome then 1 else 0;
         Counted(env, counted, r.success, r.setFail, r.existFail, r.getFail)
  }

  lemma Account(r: Result, env: seq<Cycle>, interrupt: Interrupt, counted: nat)
    requires r.Ran? && |r.starts| == r.total <= |env|
    requires Counted(env, counted, r.success, r.setFail, r.existFail, r.getFail)
    requires var cut := CutShort(r, env, interrupt);
             |r.checks| == r.total - (if cut then 1 else 0)
             && counted == r.total - (if cut && interrupt == BeforeOutcome then 1 else 0)
    ensures Accounted(r, env, interrupt)
  {
    hide Counted;
  }

  /** Sleep until the tick; when the tick is ten intervals past, start over from now. */
  method Pace(now: real, tick: real, interval: real, cycle: Cycle, ghost head: Pacer)
    returns (clock: real, nextTick: real)
    requires now == CheckOf(head, cycle) && tick == head.nextTick + interval
    ensures Pacer(clock, nextTick) == After(head, cycle, interval)
  {
    clock, nextTick := now, tick;
    var sleep := nextTick - clock;
    if sleep > 0.0 {
      clock := clock + sleep + cycle.oversleep;
    } else if sleep < -interval * 10.0 {
      clock := clock + cycle.reset;
      nextTick := clock;
    }
  }

  /** The loop; `duration` is no limit when it is not positive. */
  method Loop(start: real, interval: real, duration: real, env: seq<Cycle>, interrupt: Interrupt) returns (r: Result)
    requires interval > 0.0
    ensures r.Ran? && Accounted(r, env, interrupt)
    ensures Timed(r.starts, r.checks, start, interval, duration, env)
    // the same without the recurrence, from the recorded times alone
    ensures ExactTimes(r.starts, r.checks, start, interval, duration, env)
    ensures r.total < |env| ==> Over(start, interval, duration, env, r.total)
  {
    hide Counted, Count, HeadAfter, Timed, After, Accounted, ExactTimes;
    NothingYet(start, interval, duration, env);
    var clock := start;
    var nextTick := start;
    var total, success, setFail, existFail, getFail := 0, 0, 0, 0, 0;
    var starts: seq<real>, checks: seq<real> := [], [];
    while total < |env|
      invariant 0 <= total <= |env| && |starts| == total && |checks| == total
      invariant total == |env| ==> interrupt == AtHead || env == []
      invariant Counted(env, total, success, setFail, existFail, getFail)
      invariant HeadAfter(start, interval, env[..total]) == Pacer(clock, nextTick)
      invariant Timed(starts, checks, start, interval, duration, env)
    {
      var cycle := env[total];
      ghost var head := Pacer(clock, nextTick);
      HeadAfterStep(start, interval, env, total);
      clock := clock + cycle.head;
      if duration > 0.0 && clock >= start + duration {
        break;
      }
      TimeStart(starts, checks, start, interval, duration, env, head);
      CountCycle(env, total, success, setFail, existFail, getFail);
      total := total + 1;
      clock := clock + cycle.begin;
      starts := starts + [clock];
      if total == |env| && interrupt == BeforeOutcome {
        r := Ran(total, success, setFail, existFail, getFail, starts, checks);
        Account(r, env, interrupt, total - 1);
        TimesAreExact(starts, checks, start, interval, duration, env);
        return;
      }
      clock := clock + cycle.work;
      match cycle.ops {
        case SetFails => setFail := setFail + 1;
        case ExistFails => existFail := existFail + 1;
        case GetFails => getFail := getFail + 1;
        case AllSucceed => success := success + 1;
      }
      if total == |env| && interrupt == AfterOutcome {
        r := Ran(total, success, setFail, existFail, getFail, starts, checks);
        Account(r, env, interrupt, total);
        TimesAreExact(starts, checks, start, interval, duration, env);
        return;
      }
      nextTick := nextTick + interval;
      clock := clock + cycle.pace;
      TimeCheck(starts, checks, start, interval, duration, env, head);
      checks := checks + [clock];
      clock, nextTick := Pace(clock, nextTick, interval, cycle, head);
    }
    r := Ran(total, success, setFail, existFail, getFail, starts, checks);
    Account(r, env, interrupt, total);
    TimesAreExact(starts, checks, start, interval, duration, env);
  }

  /** Parameters: start of the run, operations per second, payload size, report interval, run time. */
  method Run(start: real, qps: real, payloadBytes: int, reportInterval: real, duration: real, env: seq<Cycle>,
             interrupt: Interrupt)
    returns (r: Result)
    ensures r.BadArguments? <==> qps <= 0.0 || payloadBytes <= 0 || reportInterval <= 0.0
    // every started cycle is counted once, under the outcome it had, except one interrupted before it had one
    ensures Accounted(r, env, interrupt)
    // cycle k starts no earlier than start + k / qps, and catching up is bounded
    ensures r.Ran? ==> OnSchedule(r.starts, start, 1.0 / qps)
    ensures r.Ran? ==> BoundedCatchUp(r.starts, r.checks, 1.0 / qps)
    // a limited run starts fewer than duration * qps + 1 cycles; otherwise only the interrupt ends it
    ensures r.Ran? && duration > 0.0 && r.total > 0 ==> Ticks(r.total - 1, 1.0 / qps) < duration
    ensures r.Ran? && duration <= 0.0 ==> r.total == |env|
    // the recorded times are exactly those of the schedule, which starts anew after a check over ten intervals late
    ensures r.Ran? ==> ExactTimes(r.starts, r.checks, start, 1.0 / qps, duration, env)
    ensures r.Ran? ==> ExactWhileNeverLate(r.starts, r.checks, start, 1.0 / qps, env)
    // the run stops at the first loop head past its end
    ensures r.Ran? && r.total < |env| ==>
              && |r.checks| == r.total && duration > 0.0
              && Resumed(r.checks, start, 1.0 / qps, env, r.total) + env[r.total].head >= start + duration
  {
    if qps <= 0.0 || payloadBytes <= 0 || reportInterval <= 0.0 {
      return BadArguments;
    }
    hide Ticks, OnSchedule, BoundedCatchUp, Counted, Timed, ExactTimes, ExactWhileNeverLate, Over, Resumed;
    r := Loop(start, 1.0 / qps, duration, env, interrupt);
    ScheduleIsPaced(r.starts, r.checks, start, 1.0 / qps, duration, env);
    ExactAtFirst(r.starts, r.checks, start, 1.0 / qps, duration, env);
    if r.total < |env| {
      OverIsLate(r.starts, r.checks, start, 1.0 / qps, duration, env, r.total);
    }
  }

  lemma TicksAtMost(n: int, interval: real, d: real)
    requires interval > 0.0 && Ticks(n, interval) <= d
    ensures n <= (d / interval).Floor
  {
    var q := d / interval;
    assert q * interval == d;
    assert (n as real - q) * interval == Ticks(n, interval) - d <= 0.0;
    assert n as real <= q;
  }

  lemma {:induction false} WithinRange(s: set<int>, lo: int, hi: int)
    requires lo <= hi && forall k :: k in s ==> lo <= k < hi
    ensures |s| <= hi - lo
    decreases hi - lo
  {
    if lo == hi {
      assert s == {};
    } else {
      WithinRange(s - {hi - 1}, lo, hi - 1);
    }
  }

  /** In any window of length d after a pacing check at most floor(d / interval) + 11 cycles start. */
  lemma WindowBound(starts: seq<real>, checks: seq<real>, interval: real, c: nat, d: real)
    requires interval > 0.0 && d >= 0.0 && c < |checks|
    requires BoundedCatchUp(starts, checks, interval)
    ensures var window := set k | c < k < |starts| && starts[k] <= checks[c] + d;
            |window| <= (d / interval).Floor + 11
  {
    var window := set k | c < k < |starts| && starts[k] <= checks[c] + d;
    var n := (d / interval).Floor + 11;
    forall k | k in window ensures c < k <= c + n {
      assert starts[k] >= checks[c] + Ticks(k - c - 11, interval);
      TicksAtMost(k - c - 11, interval, d);
    }
    WithinRange(window, c + 1, c + 1 + n);
  }
}
