/** Time bins of the access-log report and their string labels. */
module AccessLogBins {
  import opened Arithmetic
  import opened Ordering

  const DAY_MS: int := 86_400_000

  /** A timestamp in the range of Python's `datetime`; validity of the day within its month is not needed. */
  datatype Stamp = Stamp(year: int, month: int, day: int, hour: int, minute: int, second: int, micro: int)
  {
    predicate Valid() {
      && 1 <= year <= 9999 && 1 <= month <= 12 && 1 <= day <= 31
      && 0 <= hour < 24 && 0 <= minute < 60 && 0 <= second < 60 && 0 <= micro < 1_000_000
    }

    /** Milliseconds since midnight. */
    function DayMs(): int { hour * 3_600_000 + minute * 60_000 + second * 1000 + micro / 1000 }

    /** Microseconds since midnight. */
    function DayUs(): int { (hour * 3600 + minute * 60 + second) * 1_000_000 + micro }

    predicate SameDay(other: Stamp) { year == other.year && month == other.month && day == other.day }

    /** Chronological order. */
    predicate NoLater(other: Stamp) {
      || year < other.year
      || (year == other.year && month < other.month)
      || (year == other.year && month == other.month && day < other.day)
      || (SameDay(other) && DayUs() <= other.DayUs())
    }
  }

  /** `ts.replace(...)` with the time of day given in milliseconds. */
  function AtMs(t: Stamp, ms: int): Stamp {
    t.(hour := ms / 3_600_000, minute := (ms % 3_600_000) / 60_000, second := (ms % 60_000) / 1000,
       micro := (ms % 1000) * 1000)
  }

  function BinMs(t: Stamp, interval: int): int
    requires interval > 0
  {
    t.DayMs() / interval * interval
  }

  function TimeBin(t: Stamp, interval: int): Stamp
    requires interval > 0
  {
    AtMs(t, BinMs(t, interval))
  }

  // ---------------------------------------------------------------- bins

  /** Mixed-radix digits of a time of day. */
  lemma Radix(ms: int)
    requires 0 <= ms < DAY_MS
    ensures var h, m, s, r := ms / 3_600_000, (ms % 3_600_000) / 60_000, (ms % 60_000) / 1000, ms % 1000;
      && 0 <= h < 24 && 0 <= m < 60 && 0 <= s < 60 && 0 <= r < 1000
      && h * 3_600_000 + m * 60_000 + s * 1000 + r == ms
  {
    var h, rest := ms / 3_600_000, ms % 3_600_000;
    var m, rest' := rest / 60_000, rest % 60_000;
    DivUnique(ms, 60_000, h * 60 + m, rest');
    var s, r := rest' / 1000, rest' % 1000;
    DivUnique(ms, 1000, h * 3600 + m * 60 + s, r);
  }

  /** Splitting the time of day into hours, minutes, seconds and milliseconds loses nothing. */
  lemma AtMsValid(t: Stamp, ms: int)
    requires t.Valid() && 0 <= ms < DAY_MS
    ensures AtMs(t, ms).Valid() && AtMs(t, ms).DayMs() == ms && AtMs(t, ms).DayUs() == ms * 1000
    ensures AtMs(t, ms).SameDay(t)
  {
    Radix(ms);
    assert (ms % 1000) * 1000 / 1000 == ms % 1000;
  }

  lemma DayRange(t: Stamp)
    requires t.Valid()
    ensures 0 <= t.DayMs() < DAY_MS
    ensures t.DayMs() * 1000 <= t.DayUs() < t.DayMs() * 1000 + 1000
  {
  }

  /** The bin is on the same day, at or before the timestamp, and less than one interval before it. */
  lemma BinContains(t: Stamp, interval: int)
    requires t.Valid() && interval > 0
    ensures var b := TimeBin(t, interval);
      && b.Valid() && b.SameDay(t) && b.DayMs() == BinMs(t, interval)
      && b.DayUs() <= t.DayUs() < b.DayUs() + interval * 1000
      && b.NoLater(t)
  {
    DayRange(t);
    FloorMultiple(t.DayMs(), interval);
    AtMsValid(t, BinMs(t, interval));
    hide Stamp.DayMs, Stamp.DayUs, AtMs;
  }

  /** Binning a bin changes nothing. */
  lemma BinIdempotent(t: Stamp, interval: int)
    requires t.Valid() && interval > 0
    ensures TimeBin(TimeBin(t, interval), interval) == TimeBin(t, interval)
  {
    BinContains(t, interval);
    DayRange(t);
    FloorMultiple(t.DayMs(), interval);
  }

  lemma BinMicros(t: Stamp, interval: int)
    requires t.Valid() && interval > 0
    ensures TimeBin(t, interval).DayUs() == 1000 * TimeBin(t, interval).DayMs()
  {
    DayRange(t);
    FloorMultiple(t.DayMs(), interval);
    AtMsValid(t, BinMs(t, interval));
  }

  lemma DayOrder(a: Stamp, b: Stamp)
    requires a.Valid() && b.Valid() && a.DayUs() <= b.DayUs()
    ensures 0 <= a.DayMs() <= b.DayMs()
  {
    DayRange(a);
    DayRange(b);
  }

  /** Binning keeps the chronological order. */
  lemma BinMonotone(a: Stamp, b: Stamp, interval: int)
    requires a.Valid() && b.Valid() && interval > 0 && a.NoLater(b)
    ensures TimeBin(a, interval).NoLater(TimeBin(b, interval))
  {
    BinContains(a, interval);
    BinContains(b, interval);
    if a.SameDay(b) {
      DayOrder(a, b);
      MultiplesMonotone(a.DayMs(), b.DayMs(), interval);
      assert BinMs(a, interval) <= BinMs(b, interval);
      BinMicros(a, interval);
      BinMicros(b, interval);
      hide TimeBin, BinMs, Stamp.DayMs, Stamp.DayUs;
    }
  }

  // ---------------------------------------------------------------- fixed-width digits

  function Digit(d: int): char
    requires 0 <= d < 10
  {
    '0' + d as char
  }

  function Pow10(w: nat): int { if w == 0 then 1 else 10 * Pow10(w - 1) }

  /** The last `w` decimal digits of `n`. */
  function Digits(n: int, w: nat): (s: string)
    requires n >= 0
    ensures |s| == w
  {
    if w == 0 then "" else Digits(n / 10, w - 1) + [Digit(n % 10)]
  }

  /** Comparing strings of which the first parts have the same length. */
  lemma {:induction false} StrLeConcat(a: string, b: string, c: string, d: string)
    requires |a| == |b|
    ensures StrLe(a + c, b + d) <==> if a == b then StrLe(c, d) else StrLe(a, b)
  {
    if a == [] {
      assert a + c == c && b + d == d;
    } else {
      assert (a + c)[0] == a[0] && (b + d)[0] == b[0];
      assert (a + c)[1..] == a[1..] + c && (b + d)[1..] == b[1..] + d;
      StrLeConcat(a[1..], b[1..], c, d);
      assert a == [a[0]] + a[1..] && b == [b[0]] + b[1..];
    }
  }

  lemma StrLeDigit(x: int, y: int)
    requires 0 <= x < 10 && 0 <= y < 10
    ensures StrLe([Digit(x)], [Digit(y)]) <==> x <= y
    ensures Digit(x) == Digit(y) <==> x == y
  {
  }

  /** Zero-padded numbers compare as strings the way they compare as numbers. */
  lemma {:induction false} DigitsOrdered(x: int, y: int, w: nat)
    requires 0 <= x < Pow10(w) && 0 <= y < Pow10(w)
    ensures StrLe(Digits(x, w), Digits(y, w)) <==> x <= y
    ensures Digits(x, w) == Digits(y, w) <==> x == y
  {
    if w > 0 {
      DigitsOrdered(x / 10, y / 10, w - 1);
      StrLeDigit(x % 10, y % 10);
      var a, b := Digits(x / 10, w - 1), Digits(y / 10, w - 1);
      StrLeConcat(a, b, [Digit(x % 10)], [Digit(y % 10)]);
      assert Digits(x, w)[..w - 1] == a && Digits(y, w)[..w - 1] == b;
      assert Digits(x, w)[w - 1] == Digit(x % 10) && Digits(y, w)[w - 1] == Digit(y % 10);
    }
  }

  /** The leading digits of a number and the rest. */
  lemma {:induction false} DigitsSplit(n: int, w: nat, d: nat)
    requires n >= 0
    ensures Pow10(d) > 0 && n / Pow10(d) >= 0
    ensures Digits(n, w + d) == Digits(n / Pow10(d), w) + Digits(n, d)
  {
    if d == 0 {
      assert Digits(n, 0) == "" && n / 1 == n;
      assert Digits(n, w) + "" == Digits(n, w);
    } else {
      DigitsSplit(n / 10, w, d - 1);
      DivTen(n, Pow10(d - 1));
      var last := [Digit(n % 10)];
      assert Digits(n, w + d) == Digits(n / 10, w + d - 1) + last;
      assert Digits(n, d) == Digits(n / 10, d - 1) + last;
      var lead := Digits(n / Pow10(d), w);
      assert (lead + Digits(n / 10, d - 1)) + last == lead + (Digits(n / 10, d - 1) + last);
    }
  }

  // ---------------------------------------------------------------- labels

  /** A zero-padded number and the text after it. */
  datatype Field = Field(value: int, width: nat, text: string)

  ghost predicate Fits(f: Field) { 0 <= f.value < Pow10(f.width) }

  function Render(fields: seq<Field>): string
    requires forall i :: 0 <= i < |fields| ==> fields[i].value >= 0
  {
    if fields == [] then ""
    else Digits(fields[0].value, fields[0].width) + (fields[0].text + Render(fields[1..]))
  }

  /** Lexicographic order on the values. */
  predicate LexLe(a: seq<Field>, b: seq<Field>)
    requires |a| == |b|
  {
    a == [] || a[0].value < b[0].value || (a[0].value == b[0].value && LexLe(a[1..], b[1..]))
  }

  /** Same layout: widths and separating texts agree, and all values fit. */
  ghost predicate SameLayout(a: seq<Field>, b: seq<Field>) {
    && |a| == |b|
    && forall i :: 0 <= i < |a| ==> Fits(a[i]) && Fits(b[i]) && a[i].width == b[i].width && a[i].text == b[i].text
  }

  lemma LexCons(x: Field, a: seq<Field>, y: Field, b: seq<Field>)
    requires |a| == |b|
    ensures LexLe([x] + a, [y] + b) <==> x.value < y.value || (x.value == y.value && LexLe(a, b))
  {
    assert ([x] + a)[1..] == a && ([y] + b)[1..] == b;
  }

  /** Labels of the same layout compare as strings the way their fields compare as numbers. */
  lemma {:induction false} RenderOrdered(a: seq<Field>, b: seq<Field>)
    requires SameLayout(a, b)
    ensures StrLe(Render(a), Render(b)) <==> LexLe(a, b)
  {
    if a != [] {
      var x, y, a', b' := a[0], b[0], a[1..], b[1..];
      assert Fits(x) && Fits(y) && x.width == y.width && x.text == y.text;
      assert SameLayout(a', b');
      assert a == [x] + a' && b == [y] + b';
      LexCons(x, a', y, b');
      hide LexLe, StrLe, Digits, Fits, SameLayout;
      RenderOrdered(a', b');
      DigitsOrdered(x.value, y.value, x.width);
      var dx, dy, ra, rb := Digits(x.value, x.width), Digits(y.value, y.width), Render(a'), Render(b');
      assert Render(a) == dx + (x.text + ra) && Render(b) == dy + (y.text + rb);
      hide Render;
      StrLeConcat(dx, dy, x.text + ra, y.text + rb);
      StrLeConcat(x.text, y.text, ra, rb);
    }
  }

  /** `%Y` prints a year without leading zeros. */
  function YearWidth(year: int): nat { if year < 10 then 1 else if year < 100 then 2 else if year < 1000 then 3 else 4 }

  function DateFields(t: Stamp): seq<Field> {
    [Field(t.year, YearWidth(t.year), "-"), Field(t.month, 2, "-"), Field(t.day, 2, "T"), Field(t.hour, 2, ":")]
  }

  function TimeFields(t: Stamp, interval: int): seq<Field> {
    if interval < 1000 then [Field(t.minute, 2, ":"), Field(t.second, 2, "."), Field(t.micro / 1000, 3, "")]
    else if interval < 60_000 then [Field(t.minute, 2, ":"), Field(t.second, 2, "")]
    else [Field(t.minute, 2, "")]
  }

  function Fields(t: Stamp, interval: int): seq<Field> { DateFields(t) + TimeFields(t, interval) }

  /** `_bin_label`. */
  function BinLabel(t: Stamp, interval: int): string
    requires t.Valid()
  {
    Render(Fields(t, interval))
  }

  lemma FieldsFit(a: Stamp, b: Stamp, interval: int)
    requires a.Valid() && b.Valid() && YearWidth(a.year) == YearWidth(b.year)
    ensures SameLayout(Fields(a, interval), Fields(b, interval))
  {
    assert Pow10(1) == 10 && Pow10(2) == 100 && Pow10(3) == 1000 && Pow10(4) == 10_000;
  }

  /** Milliseconds a label does not show. */
  function Unit(interval: int): int { if interval < 1000 then 1 else if interval < 60_000 then 1000 else 60_000 }

  function TimeOfDay(t: Stamp, interval: int): seq<Field> { [Field(t.hour, 2, ":")] + TimeFields(t, interval) }

  lemma WholeUnits(t: Stamp)
    requires t.Valid()
    ensures t.DayMs() / 1000 == t.hour * 3600 + t.minute * 60 + t.second
    ensures t.DayMs() / 60_000 == t.hour * 60 + t.minute
  {
    DivUnique(t.DayMs(), 1000, t.hour * 3600 + t.minute * 60 + t.second, t.micro / 1000);
    DivUnique(t.DayMs(), 60_000, t.hour * 60 + t.minute, t.second * 1000 + t.micro / 1000);
  }

  lemma TimeCompare(a: Stamp, b: Stamp, interval: int)
    requires a.Valid() && b.Valid()
    ensures |TimeOfDay(a, interval)| == |TimeOfDay(b, interval)|
    ensures LexLe(TimeOfDay(a, interval), TimeOfDay(b, interval)) <==>
            a.DayMs() / Unit(interval) <= b.DayMs() / Unit(interval)
  {
    WholeUnits(a);
    WholeUnits(b);
    var ha, hb := Field(a.hour, 2, ":"), Field(b.hour, 2, ":");
    LexCons(ha, TimeFields(a, interval), hb, TimeFields(b, interval));
    if interval < 1000 {
      var ma, sa, ra := Field(a.minute, 2, ":"), Field(a.second, 2, "."), Field(a.micro / 1000, 3, "");
      var mb, sb, rb := Field(b.minute, 2, ":"), Field(b.second, 2, "."), Field(b.micro / 1000, 3, "");
      assert TimeFields(a, interval) == [ma] + ([sa] + ([ra] + []));
      assert TimeFields(b, interval) == [mb] + ([sb] + ([rb] + []));
      LexCons(ra, [], rb, []);
      LexCons(sa, [ra] + [], sb, [rb] + []);
      LexCons(ma, [sa] + ([ra] + []), mb, [sb] + ([rb] + []));
    } else if interval < 60_000 {
      var ma, sa := Field(a.minute, 2, ":"), Field(a.second, 2, "");
      var mb, sb := Field(b.minute, 2, ":"), Field(b.second, 2, "");
      assert TimeFields(a, interval) == [ma] + ([sa] + []) && TimeFields(b, interval) == [mb] + ([sb] + []);
      LexCons(sa, [], sb, []);
      LexCons(ma, [sa] + [], mb, [sb] + []);
    } else {
      LexCons(Field(a.minute, 2, ""), [], Field(b.minute, 2, ""), []);
      assert TimeFields(a, interval) == [Field(a.minute, 2, "")] + [];
      assert TimeFields(b, interval) == [Field(b.minute, 2, "")] + [];
    }
  }

  /** The fields compare like the date and then the time of day in whole units. */
  lemma FieldsCompare(a: Stamp, b: Stamp, interval: int)
    requires a.Valid() && b.Valid()
    ensures LexLe(Fields(a, interval), Fields(b, interval)) <==>
            if a.SameDay(b) then a.DayMs() / Unit(interval) <= b.DayMs() / Unit(interval) else a.NoLater(b)
  {
    var ta, tb := TimeOfDay(a, interval), TimeOfDay(b, interval);
    var ya, ma, da := Field(a.year, YearWidth(a.year), "-"), Field(a.month, 2, "-"), Field(a.day, 2, "T");
    var yb, mb, db := Field(b.year, YearWidth(b.year), "-"), Field(b.month, 2, "-"), Field(b.day, 2, "T");
    assert Fields(a, interval) == [ya] + ([ma] + ([da] + ta));
    assert Fields(b, interval) == [yb] + ([mb] + ([db] + tb));
    LexCons(da, ta, db, tb);
    LexCons(ma, [da] + ta, mb, [db] + tb);
    LexCons(ya, [ma] + ([da] + ta), yb, [mb] + ([db] + tb));
    TimeCompare(a, b, interval);
    hide LexLe, Fields, TimeOfDay;
  }

  /** Multiples of the interval differ by at least a unit, so whole units tell them apart. */
  lemma UnitsSeparateBins(x: int, y: int, interval: int, unit: int)
    requires 0 < unit <= interval && x % interval == 0 && y % interval == 0
    ensures x / unit <= y / unit <==> x <= y
  {
    if x <= y {
      DivMonotone(x, y, unit);
    } else {
      MultiplesApart(x, y, interval);
      DivAbove(x, y, unit);
    }
  }

  lemma BinIsMultiple(t: Stamp, interval: int)
    requires t.Valid() && interval > 0
    ensures TimeBin(t, interval).DayMs() % interval == 0
  {
    BinContains(t, interval);
    DayRange(t);
    FloorMultiple(t.DayMs(), interval);
  }

  /** For years of the same length, labels compare as strings the way their bins compare in time. */
  lemma SameWidthLabels(s: Stamp, t: Stamp, interval: int)
    requires s.Valid() && t.Valid() && interval > 0 && YearWidth(s.year) == YearWidth(t.year)
    ensures TimeBin(s, interval).Valid() && TimeBin(t, interval).Valid()
    ensures StrLe(BinLabel(TimeBin(s, interval), interval), BinLabel(TimeBin(t, interval), interval)) <==>
            TimeBin(s, interval).NoLater(TimeBin(t, interval))
  {
    BinContains(s, interval);
    BinContains(t, interval);
    var a, b := TimeBin(s, interval), TimeBin(t, interval);
    FieldsFit(a, b, interval);
    RenderOrdered(Fields(a, interval), Fields(b, interval));
    FieldsCompare(a, b, interval);
    BinIsMultiple(s, interval);
    BinIsMultiple(t, interval);
    hide TimeBin, Render, LexLe, Fields, StrLe, BinMs;
    if a.SameDay(b) {
      UnitsSeparateBins(a.DayMs(), b.DayMs(), interval, Unit(interval));
      BinMicros(s, interval);
      BinMicros(t, interval);
    }
  }

  /** The leading digits of `year`, as many as a shorter year has in all. */
  function Leading(year: int, width: nat): int
    requires year >= 0 && width <= YearWidth(year)
  {
    DigitsSplit(year, width, YearWidth(year) - width);
    year / Pow10(YearWidth(year) - width)
  }

  /** A label is its year, a '-' and the rest. */
  lemma LabelParts(t: Stamp, interval: int) returns (rest: string)
    requires t.Valid()
    ensures BinLabel(t, interval) == Digits(t.year, YearWidth(t.year)) + ("-" + rest)
  {
    var fields := Fields(t, interval);
    rest := Render(fields[1..]);
    assert fields[0] == Field(t.year, YearWidth(t.year), "-");
    hide Fields, Digits;
  }

  lemma DashBeforeDigits(rest: string, n: int, d: nat, rest': string)
    requires n >= 0 && d > 0
    ensures StrLe("-" + rest, Digits(n, d) + rest') && !StrLe(Digits(n, d) + rest', "-" + rest)
  {
    DigitsSplit(n, 1, d - 1);
    var q := n / Pow10(d - 1);
    assert Digits(q, 1) == Digits(q / 10, 0) + [Digit(q % 10)] == [Digit(q % 10)];
    assert ("-" + rest)[0] == '-' && (Digits(n, d) + rest')[0] == Digit(q % 10);
    assert '-' < Digit(q % 10);
  }

  lemma YearDigits(x: int, y: int)
    requires 1 <= x <= 9999 && 1 <= y <= 9999 && YearWidth(x) < YearWidth(y)
    ensures 0 <= x < Pow10(YearWidth(x)) && 0 <= Leading(y, YearWidth(x)) < Pow10(YearWidth(x))
  {
    assert Pow10(1) == 10 && Pow10(2) == 100 && Pow10(3) == 1000;
  }

  /** A shorter year comes first as a string exactly when it is no larger than the leading digits of the longer one. */
  lemma ShorterYearFirst(a: Stamp, b: Stamp, interval: int)
    requires a.Valid() && b.Valid() && YearWidth(a.year) < YearWidth(b.year)
    ensures StrLe(BinLabel(a, interval), BinLabel(b, interval)) <==> a.year <= Leading(b.year, YearWidth(a.year))
    ensures StrLe(BinLabel(b, interval), BinLabel(a, interval)) <==> a.year > Leading(b.year, YearWidth(a.year))
  {
    YearDigits(a.year, b.year);
    hide *;
    var ra := LabelParts(a, interval);
    var rb := LabelParts(b, interval);
    var w, d := YearWidth(a.year), YearWidth(b.year) - YearWidth(a.year);
    var lead := Leading(b.year, w);
    DigitsSplit(b.year, w, d);
    DigitsOrdered(a.year, lead, w);
    DigitsOrdered(lead, a.year, w);
    var x, y, low := Digits(a.year, w), Digits(lead, w), Digits(b.year, d);
    assert (y + low) + ("-" + rb) == y + (low + ("-" + rb));
    StrLeConcat(x, y, "-" + ra, low + ("-" + rb));
    StrLeConcat(y, x, low + ("-" + rb), "-" + ra);
    DashBeforeDigits(ra, b.year, d, "-" + rb);
  }

  /** Unpadded years compare as strings the way they compare as numbers. */
  predicate YearsAgree(x: int, y: int)
    requires x >= 0 && y >= 0
  {
    var v, w := YearWidth(x), YearWidth(y);
    if v == w then true else if v < w then x <= Leading(y, v) else y <= Leading(x, w)
  }

  /** Sorting labels as strings is sorting bins by time exactly where the years compare alike. */
  lemma LabelsChronological(s: Stamp, t: Stamp, interval: int)
    requires s.Valid() && t.Valid() && interval > 0
    ensures TimeBin(s, interval).Valid() && TimeBin(t, interval).Valid()
    ensures (StrLe(BinLabel(TimeBin(s, interval), interval), BinLabel(TimeBin(t, interval), interval)) <==>
             TimeBin(s, interval).NoLater(TimeBin(t, interval))) <==> YearsAgree(s.year, t.year)
  {
    BinContains(s, interval);
    BinContains(t, interval);
    var a, b := TimeBin(s, interval), TimeBin(t, interval);
    hide TimeBin, BinLabel, StrLe, Leading;
    if YearWidth(s.year) == YearWidth(t.year) {
      SameWidthLabels(s, t, interval);
    } else if YearWidth(s.year) < YearWidth(t.year) {
      ShorterYearFirst(a, b, interval);
    } else {
      ShorterYearFirst(b, a, interval);
    }
  }

  /** Years of four digits always compare alike. */
  lemma FourDigitYearsAgree(x: int, y: int)
    requires x >= 1000 && y >= 1000
    ensures YearsAgree(x, y)
  {
  }

  lemma ShortYearDisagrees()
    ensures !YearsAgree(999, 1000)
  {
    assert Pow10(1) == 10;
  }

  /** Every bin of the year 999 sorts after every bin of the year 1000. */
  lemma ShortYearMisplaced(s: Stamp, t: Stamp, interval: int)
    requires interval > 0 && s.Valid() && t.Valid() && s.year == 999 && t.year == 1000
    ensures s.NoLater(t) && TimeBin(s, interval).Valid() && TimeBin(t, interval).Valid()
    ensures !StrLe(BinLabel(TimeBin(s, interval), interval), BinLabel(TimeBin(t, interval), interval))
  {
    ShortYearDisagrees();
    BinContains(s, interval);
    BinContains(t, interval);
    hide TimeBin, BinLabel, StrLe, YearsAgree;
    LabelsChronological(s, t, interval);
  }

  lemma StampDetermined(a: Stamp, b: Stamp)
    requires a.Valid() && b.Valid() && a.NoLater(b) && b.NoLater(a)
    ensures a == b
  {
    assert a.SameDay(b) && a.DayUs() == b.DayUs();
    var x, y := a.hour * 3600 + a.minute * 60 + a.second, b.hour * 3600 + b.minute * 60 + b.second;
    DivUnique(a.DayUs(), 1_000_000, x, a.micro);
    DivUnique(b.DayUs(), 1_000_000, y, b.micro);
    DivUnique(x, 3600, a.hour, a.minute * 60 + a.second);
    DivUnique(y, 3600, b.hour, b.minute * 60 + b.second);
  }

  /** Two timestamps share a label exactly when they share a bin. */
  lemma LabelsIdentifyBins(s: Stamp, t: Stamp, interval: int)
    requires s.Valid() && t.Valid() && interval > 0
    ensures TimeBin(s, interval).Valid() && TimeBin(t, interval).Valid()
    ensures BinLabel(TimeBin(s, interval), interval) == BinLabel(TimeBin(t, interval), interval) <==>
            TimeBin(s, interval) == TimeBin(t, interval)
  {
    BinContains(s, interval);
    BinContains(t, interval);
    var a, b := TimeBin(s, interval), TimeBin(t, interval);
    StrLeTotal(BinLabel(a, interval), BinLabel(b, interval));
    hide TimeBin, BinLabel, StrLe, Leading;
    if BinLabel(a, interval) == BinLabel(b, interval) {
      if YearWidth(a.year) == YearWidth(b.year) {
        SameWidthLabels(s, t, interval);
        SameWidthLabels(t, s, interval);
        StampDetermined(a, b);
      } else if YearWidth(a.year) < YearWidth(b.year) {
        ShorterYearFirst(a, b, interval);
      } else {
        ShorterYearFirst(b, a, interval);
      }
    }
  }
}
