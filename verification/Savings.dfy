/** Savings queries: metric rows grouped by local hour, day, week or month, and the money derived from them.
    The totals do not depend on the grouping. Sums are over exact reals. */
module Savings {
  import opened Prelude
  import opened Calendar
  import opened PeriodRange

  const HOUR := 60 * MINUTE

  datatype Sample = Sample(at: Time, loadKw: real, solarKw: real)

  datatype Granularity = ByHour | ByDay | ByWeek | ByMonth

  /** The local hour, day, week or month of an instant, named by its first instant. */
  function Bucket(g: Granularity, t: Time, tz: int): Time {
    match g
    case ByHour => t - (t + tz) % HOUR
    case ByDay => DayRange(t, tz).start
    case ByWeek => WeekRange(t, tz).start
    case ByMonth => MonthRange(t, tz).start
  }

  function Load(rows: seq<Sample>): real { if rows == [] then 0.0 else Load(rows[1..]) + rows[0].loadKw }

  function Solar(rows: seq<Sample>): real { if rows == [] then 0.0 else Solar(rows[1..]) + rows[0].solarKw }

  /** The distinct local hours with a row. */
  function Hours(rows: seq<Sample>, tz: int): set<Time> { set r | r in rows :: Bucket(ByHour, r.at, tz) }

  function Keys(rows: seq<Sample>, g: Granularity, tz: int): set<Time> { set r | r in rows :: Bucket(g, r.at, tz) }

  /** The rows in the bucket k, or, with `within` false, those outside it. */
  function Split(rows: seq<Sample>, g: Granularity, tz: int, k: Time, within: bool): (s: seq<Sample>)
    ensures forall r :: r in s <==> r in rows && (Bucket(g, r.at, tz) == k) == within
  {
    if rows == [] then []
    else (if (Bucket(g, rows[0].at, tz) == k) == within then [rows[0]] else []) + Split(rows[1..], g, tz, k, within)
  }

  datatype BucketRow = BucketRow(bucket: Time, energyKwh: real, solarKwh: real, activeHours: nat)

  /** Energy of a sum of power samples, each standing for `scale` hours. */
  function Kwh(power: real, scale: real): real { power * scale }

  /** One result row; `scale` is the hours one sample stands for. */
  function Aggregate(rows: seq<Sample>, k: Time, scale: real, tz: int): BucketRow {
    BucketRow(k, Kwh(Load(rows), scale), Kwh(Solar(rows), scale), |Hours(rows, tz)|)
  }

  /** What SELECT SUM(load), SUM(solar), COUNT(DISTINCT hour) GROUP BY bucket ORDER BY bucket answers. */
  predicate IsGroupBy(result: seq<BucketRow>, rows: seq<Sample>, g: Granularity, scale: real, tz: int) {
    Ascending(result) && Names(result, Keys(rows, g, tz)) && Aggregates(result, rows, g, scale, tz)
  }

  predicate Ascending(result: seq<BucketRow>) {
    forall i, j :: 0 <= i < j < |result| ==> result[i].bucket < result[j].bucket
  }

  predicate Names(result: seq<BucketRow>, keys: set<Time>) {
    && (forall i :: 0 <= i < |result| ==> result[i].bucket in keys)
    && (forall k :: k in keys ==> Named(result, k))
  }

  predicate Aggregates(result: seq<BucketRow>, rows: seq<Sample>, g: Granularity, scale: real, tz: int) {
    forall i :: 0 <= i < |result| ==>
      result[i] == Aggregate(Split(rows, g, tz, result[i].bucket, true), result[i].bucket, scale, tz)
  }

  predicate Named(result: seq<BucketRow>, k: Time) { exists i :: 0 <= i < |result| && result[i].bucket == k }

  function EnergySum(result: seq<BucketRow>): real {
    if result == [] then 0.0 else EnergySum(result[..|result| - 1]) + result[|result| - 1].energyKwh
  }

  function SolarSum(result: seq<BucketRow>): real {
    if result == [] then 0.0 else SolarSum(result[..|result| - 1]) + result[|result| - 1].solarKwh
  }

  function HoursSum(result: seq<BucketRow>): nat {
    if result == [] then 0 else HoursSum(result[..|result| - 1]) + result[|result| - 1].activeHours
  }

  lemma {:induction false} SplitSums(rows: seq<Sample>, g: Granularity, tz: int, k: Time)
    ensures Load(rows) == Load(Split(rows, g, tz, k, true)) + Load(Split(rows, g, tz, k, false))
    ensures Solar(rows) == Solar(Split(rows, g, tz, k, true)) + Solar(Split(rows, g, tz, k, false))
  {
    if rows != [] {
      SplitSums(rows[1..], g, tz, k);
      var within := Bucket(g, rows[0].at, tz) == k;
      hide Bucket;
      assert Split(rows, g, tz, k, within)[1..] == Split(rows[1..], g, tz, k, within);
      assert Split(rows, g, tz, k, !within) == Split(rows[1..], g, tz, k, !within);
    }
  }

  lemma {:induction false} SplitTwice(rows: seq<Sample>, g: Granularity, tz: int, k: Time, j: Time)
    requires j != k
    ensures Split(Split(rows, g, tz, k, false), g, tz, j, true) == Split(rows, g, tz, j, true)
  {
    if rows != [] {
      SplitTwice(rows[1..], g, tz, k, j);
      hide Bucket;
      var rest := Split(rows[1..], g, tz, k, false);
      if Bucket(g, rows[0].at, tz) != k {
        assert Split(rows, g, tz, k, false) == [rows[0]] + rest;
        assert ([rows[0]] + rest)[1..] == rest;
      } else {
        assert Split(rows, g, tz, k, false) == rest;
      }
    }
  }

  /** Two instants of one local hour share every larger bucket. */
  lemma {:induction false} HourDecides(g: Granularity, t: Time, u: Time, tz: int)
    requires Bucket(ByHour, t, tz) == Bucket(ByHour, u, tz)
    ensures Bucket(g, t, tz) == Bucket(g, u, tz)
  {
    SameDay(t + tz, u + tz);
    hide WeekRange, MonthRange, DayRange;
    DecidedByDay(t, u, tz);
  }

  /** Two instants share a bucket exactly when they share the local hour, date, Monday, or year and month. */
  lemma {:induction false} BucketMembers(g: Granularity, t: Time, u: Time, tz: int)
    ensures var (a, b) := (LocalDay(t, tz), LocalDay(u, tz));
            Bucket(g, t, tz) == Bucket(g, u, tz) <==>
              match g
              case ByHour => (t + tz) / (60 * 60 * 1000) == (u + tz) / (60 * 60 * 1000)
              case ByDay => Year(a) == Year(b) && Month(a) == Month(b) && Date(a) == Date(b)
              case ByWeek => MondayOf(a) == MondayOf(b)
              case ByMonth => Year(a) == Year(b) && Month(a) == Month(b)
  {
    match g
    case ByHour =>
      assert t + tz == (t + tz) / HOUR * HOUR + (t + tz) % HOUR;
      assert u + tz == (u + tz) / HOUR * HOUR + (u + tz) % HOUR;
    case ByDay => DayMembers(t, u, tz); DayStarts(t, u, tz);
    case ByWeek => hide MondayOf, LocalDay;
    case ByMonth => MonthMembers(t, u, tz); MonthStarts(t, u, tz);
  }

  lemma DayStarts(t: Time, u: Time, tz: int)
    ensures DayRange(t, tz).start == DayRange(u, tz).start <==> DayRange(t, tz).Has(u)
  {
    CompareDays(LocalDay(t, tz), u + tz);
    CompareDays(LocalDay(t, tz) + 1, u + tz);
  }

  lemma MonthStarts(t: Time, u: Time, tz: int)
    ensures MonthRange(t, tz).start == MonthRange(u, tz).start <==> MonthRange(t, tz).Has(u)
  {
    assert ReportRange(Monthly, t, tz) == MonthRange(t, tz) && ReportRange(Monthly, u, tz) == MonthRange(u, tz);
    RangesPartition(Monthly, t, u, tz);
    RangesPartition(Monthly, u, t, tz);
    hide MonthRange, ReportRange;
    if MonthRange(t, tz).start == MonthRange(u, tz).start {
      assert MonthRange(t, tz).Has(MonthRange(u, tz).start) && MonthRange(u, tz).Has(MonthRange(u, tz).start);
    }
  }

  lemma SameDay(a: int, b: int)
    requires a - a % HOUR == b - b % HOUR
    ensures a / DAY == b / DAY
  {
    assert a / HOUR == b / HOUR;
    HoursPerDay(a);
    HoursPerDay(b);
  }

  lemma HoursPerDay(a: int)
    ensures a / DAY == a / HOUR / 24
  {
  }

  lemma DecidedByDay(t: Time, u: Time, tz: int)
    requires LocalDay(t, tz) == LocalDay(u, tz)
    ensures DayRange(t, tz) == DayRange(u, tz) && WeekRange(t, tz) == WeekRange(u, tz)
            && MonthRange(t, tz) == MonthRange(u, tz)
  {
  }

  /** The hours of a bucket and the hours outside it are disjoint, so their counts add up. */
  lemma {:induction false} SplitHours(rows: seq<Sample>, g: Granularity, tz: int, k: Time)
    ensures |Hours(rows, tz)| == |Hours(Split(rows, g, tz, k, true), tz)| + |Hours(Split(rows, g, tz, k, false), tz)|
  {
    var a, b := Hours(Split(rows, g, tz, k, true), tz), Hours(Split(rows, g, tz, k, false), tz);
    forall h | h in a && h in b ensures false {
      var r, s :| r in Split(rows, g, tz, k, true) && s in Split(rows, g, tz, k, false)
                  && Bucket(ByHour, r.at, tz) == h && Bucket(ByHour, s.at, tz) == h;
      HourDecides(g, r.at, s.at, tz);
    }
    assert Hours(rows, tz) == a + b by {
      hide Bucket;
      forall r | r in rows ensures r in Split(rows, g, tz, k, true) || r in Split(rows, g, tz, k, false) {}
    }
    assert a !! b;
  }

  lemma {:induction false} KeysOutside(rows: seq<Sample>, g: Granularity, tz: int, k: Time)
    ensures Keys(Split(rows, g, tz, k, false), g, tz) == Keys(rows, g, tz) - {k}
  {
    hide Bucket;
    var rest := Split(rows, g, tz, k, false);
    forall j | j in Keys(rows, g, tz) && j != k ensures j in Keys(rest, g, tz) {
      var r :| r in rows && Bucket(g, r.at, tz) == j;
      assert r in rest;
    }
  }

  lemma {:induction false} NamesWithoutLast(result: seq<BucketRow>, keys: set<Time>)
    requires result != [] && Ascending(result) && Names(result, keys)
    ensures Names(result[..|result| - 1], keys - {result[|result| - 1].bucket})
  {
    var n := |result| - 1;
    var fewer := result[..n];
    forall j | j in keys && j != result[n].bucket ensures Named(fewer, j) {
      assert Named(result, j);
      var i :| 0 <= i < |result| && result[i].bucket == j;
      assert fewer[i].bucket == j;
    }
  }

  lemma {:induction false} AggregatesWithoutLast(result: seq<BucketRow>, rows: seq<Sample>, g: Granularity, scale: real,
                                                 tz: int)
    requires result != [] && Ascending(result) && Aggregates(result, rows, g, scale, tz)
    ensures Aggregates(result[..|result| - 1], Split(rows, g, tz, result[|result| - 1].bucket, false), g, scale, tz)
  {
    hide Bucket, Aggregate, Split;
    var n := |result| - 1;
    forall i | 0 <= i < n
      ensures result[i] == Aggregate(Split(Split(rows, g, tz, result[n].bucket, false), g, tz, result[i].bucket, true),
                                     result[i].bucket, scale, tz)
    {
      SplitTwice(rows, g, tz, result[n].bucket, result[i].bucket);
    }
  }

  lemma {:induction false} WithoutLast(result: seq<BucketRow>, rows: seq<Sample>, g: Granularity, scale: real, tz: int)
    requires IsGroupBy(result, rows, g, scale, tz) && result != []
    ensures IsGroupBy(result[..|result| - 1], Split(rows, g, tz, result[|result| - 1].bucket, false), g, scale, tz)
  {
    NamesWithoutLast(result, Keys(rows, g, tz));
    KeysOutside(rows, g, tz, result[|result| - 1].bucket);
    AggregatesWithoutLast(result, rows, g, scale, tz);
    hide Keys, Names, Aggregates, Split;
  }

  lemma AddScaled(whole: real, a: real, b: real, scale: real)
    requires whole == a + b
    ensures Kwh(whole, scale) == Kwh(a, scale) + Kwh(b, scale)
  {
  }

  /** Summing the buckets gives the ungrouped energy and the ungrouped count of distinct hours. */
  lemma {:induction false} GroupingConserves(result: seq<BucketRow>, rows: seq<Sample>, g: Granularity, scale: real,
                                             tz: int)
    requires IsGroupBy(result, rows, g, scale, tz)
    ensures EnergySum(result) == Kwh(Load(rows), scale) && SolarSum(result) == Kwh(Solar(rows), scale)
    ensures HoursSum(result) == |Hours(rows, tz)|
    decreases |result|
  {
    hide *;
    if result == [] {
      NothingGrouped(rows, g, scale, tz);
    } else {
      var before, last := result[..|result| - 1], result[|result| - 1];
      var inside, outside := Split(rows, g, tz, last.bucket, true), Split(rows, g, tz, last.bucket, false);
      LastAggregate(result, rows, g, scale, tz);
      LastSums(result);
      WithoutLast(result, rows, g, scale, tz);
      GroupingConserves(before, outside, g, scale, tz);
      SplitSums(rows, g, tz, last.bucket);
      SplitHours(rows, g, tz, last.bucket);
      AddScaled(Load(rows), Load(inside), Load(outside), scale);
      AddScaled(Solar(rows), Solar(inside), Solar(outside), scale);
    }
  }

  /** Each sample stands for its power over `scale` hours. */
  lemma {:induction false} GroupedEnergy(result: seq<BucketRow>, rows: seq<Sample>, g: Granularity, scale: real,
                                         tz: int)
    requires IsGroupBy(result, rows, g, scale, tz)
    ensures EnergySum(result) == Load(rows) * scale && SolarSum(result) == Solar(rows) * scale
  {
    GroupingConserves(result, rows, g, scale, tz);
    hide IsGroupBy, EnergySum, SolarSum, Load, Solar;
  }

  lemma {:induction false} LastSums(result: seq<BucketRow>)
    requires result != []
    ensures var (before, last) := (result[..|result| - 1], result[|result| - 1]);
            && EnergySum(result) == EnergySum(before) + last.energyKwh
            && SolarSum(result) == SolarSum(before) + last.solarKwh
            && HoursSum(result) == HoursSum(before) + last.activeHours
  {
  }

  lemma {:induction false} NothingGrouped(rows: seq<Sample>, g: Granularity, scale: real, tz: int)
    requires IsGroupBy([], rows, g, scale, tz)
    ensures EnergySum([]) == Kwh(Load(rows), scale) && SolarSum([]) == Kwh(Solar(rows), scale)
            && HoursSum([]) == |Hours(rows, tz)|
  {
    NoRows(rows, g, tz);
    hide Bucket, Split, Aggregate, Keys;
  }

  lemma {:induction false} LastAggregate(result: seq<BucketRow>, rows: seq<Sample>, g: Granularity, scale: real,
                                         tz: int)
    requires IsGroupBy(result, rows, g, scale, tz) && result != []
    ensures var last := result[|result| - 1];
            var inside := Split(rows, g, tz, last.bucket, true);
            last.energyKwh == Kwh(Load(inside), scale) && last.solarKwh == Kwh(Solar(inside), scale)
            && last.activeHours == |Hours(inside, tz)|
  {
    hide Bucket, Split, Load, Solar, Hours, Kwh;
  }

  lemma {:induction false} NoRows(rows: seq<Sample>, g: Granularity, tz: int)
    ensures Names([], Keys(rows, g, tz)) ==> rows == []
  {
    hide Bucket;
    if rows != [] {
      assert Bucket(g, rows[0].at, tz) in Keys(rows, g, tz);
      assert !Named([], Bucket(g, rows[0].at, tz));
    }
  }

  lemma {:induction false} LargestKey(rows: seq<Sample>, g: Granularity, tz: int) returns (k: Time)
    requires rows != []
    ensures k in Keys(rows, g, tz) && forall j :: j in Keys(rows, g, tz) ==> j <= k
  {
    hide Bucket;
    k := Bucket(g, rows[0].at, tz);
    if |rows| > 1 {
      var n := LargestKey(rows[1..], g, tz);
      assert Keys(rows, g, tz) == Keys(rows[1..], g, tz) + {k};
      if k < n { k := n; }
    }
  }

  lemma {:induction false} SplitShrinks(rows: seq<Sample>, g: Granularity, tz: int, k: Time)
    requires k in Keys(rows, g, tz)
    ensures |Split(rows, g, tz, k, false)| < |rows|
  {
    hide Bucket;
    SplitNoLonger(rows, g, tz, k);
    if Bucket(g, rows[0].at, tz) == k {
      SplitNoLonger(rows[1..], g, tz, k);
    } else {
      assert k in Keys(rows[1..], g, tz) by {
        var r :| r in rows && Bucket(g, r.at, tz) == k;
        assert r in rows[1..];
      }
      SplitShrinks(rows[1..], g, tz, k);
    }
  }

  lemma {:induction false} SplitNoLonger(rows: seq<Sample>, g: Granularity, tz: int, k: Time)
    ensures |Split(rows, g, tz, k, false)| <= |rows|
  {
    hide Bucket;
    if rows != [] { SplitNoLonger(rows[1..], g, tz, k); }
  }

  /** The query has an answer for any rows. */
  lemma {:induction false} GroupingExists(rows: seq<Sample>, g: Granularity, scale: real, tz: int)
    returns (result: seq<BucketRow>)
    ensures IsGroupBy(result, rows, g, scale, tz)
    decreases |rows|
  {
    result := [];
    if rows != [] {
      hide Bucket, Aggregate;
      var k := LargestKey(rows, g, tz);
      SplitShrinks(rows, g, tz, k);
      KeysOutside(rows, g, tz, k);
      var fewer := GroupingExists(Split(rows, g, tz, k, false), g, scale, tz);
      hide Keys, Split;
      result := WithLast(fewer, rows, g, scale, tz, k);
    }
  }

  lemma {:induction false} WithLast(fewer: seq<BucketRow>, rows: seq<Sample>, g: Granularity, scale: real, tz: int,
                                    k: Time) returns (result: seq<BucketRow>)
    requires IsGroupBy(fewer, Split(rows, g, tz, k, false), g, scale, tz)
    requires Keys(Split(rows, g, tz, k, false), g, tz) == Keys(rows, g, tz) - {k}
    requires k in Keys(rows, g, tz) && forall j :: j in Keys(rows, g, tz) ==> j <= k
    ensures IsGroupBy(result, rows, g, scale, tz)
  {
    hide Bucket, Keys, Split;
    var last := Aggregate(Split(rows, g, tz, k, true), k, scale, tz);
    assert last.bucket == k;
    hide Aggregate;
    result := fewer + [last];
    forall j | j in Keys(rows, g, tz) ensures Named(result, j) {
      if j == k {
        assert result[|fewer|].bucket == k;
      } else {
        assert Named(fewer, j);
        var i :| 0 <= i < |fewer| && fewer[i].bucket == j;
        assert result[i].bucket == j;
      }
    }
    forall i | 0 <= i < |fewer| ensures result[i].bucket < k
        && result[i] == Aggregate(Split(rows, g, tz, result[i].bucket, true), result[i].bucket, scale, tz) {
      assert fewer[i].bucket in Keys(rows, g, tz) - {k};
      SplitTwice(rows, g, tz, k, fewer[i].bucket);
    }
  }

  // ---- Money ----

  /** A generator's rated power and consumption, and the price of its fuel. */
  datatype Tariff = Tariff(ratedKw: real, litresPerHour: real, nairaPerLitre: real)

  function FuelSaved(energyKwh: real, t: Tariff): real {
    if t.ratedKw > 0.0 then energyKwh / t.ratedKw * t.litresPerHour else 0.0
  }

  function Cost(energyKwh: real, t: Tariff): real { FuelSaved(energyKwh, t) * t.nairaPerLitre }

  /** The litres saved would have fed the generator, at its rated power, for just that energy. */
  lemma {:induction false} FuelForEnergy(energyKwh: real, t: Tariff)
    ensures t.ratedKw > 0.0 ==> FuelSaved(energyKwh, t) * t.ratedKw == energyKwh * t.litresPerHour
    ensures t.ratedKw <= 0.0 ==> FuelSaved(energyKwh, t) == 0.0
    ensures Cost(energyKwh, t) == FuelSaved(energyKwh, t) * t.nairaPerLitre
  {
    if t.ratedKw > 0.0 {
      var h := energyKwh / t.ratedKw;
      assert h * t.ratedKw == energyKwh;
      assert h * t.litresPerHour * t.ratedKw == h * t.ratedKw * t.litresPerHour;
    }
  }

  function DaysWithData(result: seq<BucketRow>): nat {
    if result == [] then 0
    else DaysWithData(result[..|result| - 1]) + if result[|result| - 1].energyKwh > 0.0 then 1 else 0
  }

  lemma {:induction false} DaysCounted(result: seq<BucketRow>)
    ensures DaysWithData(result) == |set i | 0 <= i < |result| && result[i].energyKwh > 0.0|
  {
    var all := set i | 0 <= i < |result| && result[i].energyKwh > 0.0;
    if result != [] {
      var n := |result| - 1;
      var before := set i | 0 <= i < n && result[..n][i].energyKwh > 0.0;
      DaysCounted(result[..n]);
      assert all == if result[n].energyKwh > 0.0 then before + {n} else before;
    }
  }

  datatype Summary = Summary(energyKwh: real, solarKwh: real, activeHours: nat, fuelLitres: real, costNaira: real,
                             averageNaira: real)

  /** The totals of getPeriodSavings and getCustomRangeSavings, before they are rounded for the reply. */
  method Summarise(breakdown: seq<BucketRow>, t: Tariff) returns (s: Summary)
    ensures s.energyKwh == EnergySum(breakdown) && s.solarKwh == SolarSum(breakdown)
            && s.activeHours == HoursSum(breakdown)
    ensures s.fuelLitres == FuelSaved(s.energyKwh, t) && s.costNaira == Cost(s.energyKwh, t)
    ensures s.averageNaira
            == s.costNaira / (if DaysWithData(breakdown) == 0 then 1 else DaysWithData(breakdown)) as real
  {
    var energy, solar, hours, days := 0.0, 0.0, 0, 0;
    for i := 0 to |breakdown|
      invariant energy == EnergySum(breakdown[..i]) && solar == SolarSum(breakdown[..i])
      invariant hours == HoursSum(breakdown[..i]) && days == DaysWithData(breakdown[..i])
    {
      assert breakdown[..i + 1][..i] == breakdown[..i];
      energy := energy + breakdown[i].energyKwh;
      solar := solar + breakdown[i].solarKwh;
      hours := hours + breakdown[i].activeHours;
      if breakdown[i].energyKwh > 0.0 { days := days + 1; }
    }
    assert breakdown[..|breakdown|] == breakdown;
    var fuel := if t.ratedKw > 0.0 then energy / t.ratedKw * t.litresPerHour else 0.0;
    var cost := fuel * t.nairaPerLitre;
    s := Summary(energy, solar, hours, fuel, cost, cost / (if days == 0 then 1 else days) as real);
  }

  /** Each month's naira are rounded before they are added up. */
  function RoundedSum(months: seq<BucketRow>, t: Tariff): real {
    if months == [] then 0.0
    else RoundedSum(months[..|months| - 1], t) + Round2(Cost(months[|months| - 1].energyKwh, t))
  }

  /** The lifetime total of getCumulativeSavings, rounded once more for the reply. */
  method LifetimeSavings(months: seq<BucketRow>, t: Tariff) returns (naira: real)
    ensures naira == Round2(RoundedSum(months, t))
  {
    hide Cost, Round2;
    var sum := 0.0;
    for i := 0 to |months|
      invariant sum == RoundedSum(months[..i], t)
    {
      assert months[..i + 1][..i] == months[..i];
      sum := sum + Round2(Cost(months[i].energyKwh, t));
    }
    assert months[..|months|] == months;
    naira := Round2(sum);
  }

  lemma {:induction false} CostAdds(a: real, b: real, t: Tariff)
    ensures Cost(a + b, t) == Cost(a, t) + Cost(b, t)
  {
    if t.ratedKw > 0.0 {
      QuotientAdds(a, b, t.ratedKw);
      var x, y := a / t.ratedKw, b / t.ratedKw;
      TimesAdds(x, y, t.litresPerHour);
      TimesAdds(x * t.litresPerHour, y * t.litresPerHour, t.nairaPerLitre);
    }
  }

  lemma QuotientAdds(a: real, b: real, k: real)
    requires k > 0.0
    ensures (a + b) / k == a / k + b / k
  {
    var x, y := a / k, b / k;
    assert (x + y) * k == a + b;
  }

  lemma TimesAdds(x: real, y: real, k: real)
    ensures (x + y) * k == x * k + y * k
  {
  }

  function Hundredth(n: nat): real { n as real * 0.005 }

  lemma {:induction false} RoundedWithin(months: seq<BucketRow>, t: Tariff)
    ensures Cost(EnergySum(months), t) - Hundredth(|months|) <= RoundedSum(months, t)
            <= Cost(EnergySum(months), t) + Hundredth(|months|)
  {
    if months == [] {
      NoCost(t);
    } else {
      var before, last := months[..|months| - 1], months[|months| - 1];
      RoundedWithin(before, t);
      CostAdds(EnergySum(before), last.energyKwh, t);
      hide Cost, Round2;
    }
  }

  lemma {:induction false} NoCost(t: Tariff)
    ensures Cost(0.0, t) == 0.0
  {
    assert t.ratedKw > 0.0 ==> 0.0 / t.ratedKw == 0.0;
  }

  /** A sum of amounts in hundredths is one, so rounding it again changes nothing. */
  lemma {:induction false} WholeKobo(months: seq<BucketRow>, t: Tariff) returns (kobo: int)
    ensures RoundedSum(months, t) == kobo as real / 100.0 && Round2(RoundedSum(months, t)) == RoundedSum(months, t)
  {
    if months == [] {
      kobo := 0;
    } else {
      hide Cost, Round;
      kobo := WholeKobo(months[..|months| - 1], t);
      kobo := kobo + Round(Cost(months[|months| - 1].energyKwh, t) * 100.0);
    }
    RoundWhole(kobo);
  }

  lemma RoundWhole(kobo: int)
    ensures Round2(kobo as real / 100.0) == kobo as real / 100.0
  {
    var x := kobo as real;
    assert x / 100.0 * 100.0 == x;
    hide Round;
    assert Round(x) == kobo;
  }

  /** The lifetime total over n months is within 0.005 n naira of the exact saving on all the energy. */
  lemma {:induction false} LifetimeWithin(months: seq<BucketRow>, rows: seq<Sample>, scale: real, tz: int, t: Tariff)
    requires IsGroupBy(months, rows, ByMonth, scale, tz)
    ensures var exact := Cost(Kwh(Load(rows), scale), t);
            exact - 0.005 * |months| as real <= Round2(RoundedSum(months, t)) <= exact + 0.005 * |months| as real
  {
    GroupingConserves(months, rows, ByMonth, scale, tz);
    RoundedWithin(months, t);
    var _ := WholeKobo(months, t);
    hide IsGroupBy, Cost, Round2, RoundedSum, Load, Kwh;
  }

  // ---- Ranges ----

  /** The rows with start <= at < end. */
  function Between(rows: seq<Sample>, start: Time, end: Time): (s: seq<Sample>)
    ensures forall r :: r in s <==> r in rows && start <= r.at < end
  {
    if rows == [] then []
    else (if start <= rows[0].at < end then [rows[0]] else []) + Between(rows[1..], start, end)
  }

  /** The granularity a custom range gets from its length in days, rounded up; None for a refused range. */
  function CustomGranularity(start: Time, end: Time): Option<Granularity> {
    var spanDays := (end - start + DAY - 1) / DAY;
    if start >= end then None
    else if spanDays <= 2 then Some(ByHour)
    else if spanDays < 21 then Some(ByDay)
    else if spanDays <= 90 then Some(ByWeek)
    else Some(ByMonth)
  }

  /** Up to two days go by the hour, up to twenty by the day, up to ninety by the week, the rest by the month; an
      empty or reversed range is refused. */
  lemma GranularityByLength(start: Time, end: Time)
    ensures var g := CustomGranularity(start, end);
            && (g.None? <==> end <= start)
            && (g == Some(ByHour) <==> 0 < end - start <= 2 * 24 * 60 * 60 * 1000)
            && (g == Some(ByDay) <==> 2 * 24 * 60 * 60 * 1000 < end - start <= 20 * 24 * 60 * 60 * 1000)
            && (g == Some(ByWeek) <==> 20 * 24 * 60 * 60 * 1000 < end - start <= 90 * 24 * 60 * 60 * 1000)
            && (g == Some(ByMonth) <==> 90 * 24 * 60 * 60 * 1000 < end - start)
  {
  }

  predicate IsCustomRange(result: seq<BucketRow>, rows: seq<Sample>, start: Time, end: Time, scale: real, tz: int) {
    var g := CustomGranularity(start, end);
    g.Some? && IsGroupBy(result, Between(rows, start, end), g.value, scale, tz)
  }

  lemma {:induction false} BetweenAdds(rows: seq<Sample>, a: Time, b: Time, c: Time)
    requires a <= b <= c
    ensures Load(Between(rows, a, c)) == Load(Between(rows, a, b)) + Load(Between(rows, b, c))
    ensures Solar(Between(rows, a, c)) == Solar(Between(rows, a, b)) + Solar(Between(rows, b, c))
  {
    if rows != [] {
      BetweenAdds(rows[1..], a, b, c);
      forall s, e | s <= e
        ensures Load(Between(rows, s, e)) == Load(Between(rows[1..], s, e))
                + (if s <= rows[0].at < e then rows[0].loadKw else 0.0)
                && Solar(Between(rows, s, e)) == Solar(Between(rows[1..], s, e))
                   + (if s <= rows[0].at < e then rows[0].solarKw else 0.0)
      {
        BetweenStep(rows, s, e);
      }
      hide Between, Load, Solar;
    }
  }

  lemma {:induction false} BetweenStep(rows: seq<Sample>, s: Time, e: Time)
    requires rows != []
    ensures Load(Between(rows, s, e)) == Load(Between(rows[1..], s, e))
            + (if s <= rows[0].at < e then rows[0].loadKw else 0.0)
    ensures Solar(Between(rows, s, e)) == Solar(Between(rows[1..], s, e))
            + (if s <= rows[0].at < e then rows[0].solarKw else 0.0)
  {
    if s <= rows[0].at < e {
      assert Between(rows, s, e)[1..] == Between(rows[1..], s, e);
    } else {
      assert Between(rows, s, e) == Between(rows[1..], s, e);
    }
  }

  /** Some local hour has rows on both sides of the instant. */
  predicate HourStraddles(rows: seq<Sample>, a: Time, b: Time, c: Time, tz: int) {
    exists r, s :: r in Between(rows, a, b) && s in Between(rows, b, c)
      && Bucket(ByHour, r.at, tz) == Bucket(ByHour, s.at, tz)
  }

  lemma {:induction false} HoursOfAdjacent(rows: seq<Sample>, a: Time, b: Time, c: Time, tz: int)
    requires a <= b <= c
    ensures |Hours(Between(rows, a, c), tz)| == |Hours(Between(rows, a, b), tz)| + |Hours(Between(rows, b, c), tz)|
            <==> !HourStraddles(rows, a, b, c, tz)
  {
    hide Bucket, Between;
    var x, y := Hours(Between(rows, a, b), tz), Hours(Between(rows, b, c), tz);
    assert Hours(Between(rows, a, c), tz) == x + y by {
      forall r | r in Between(rows, a, c) ensures r in Between(rows, a, b) || r in Between(rows, b, c) {}
    }
    assert x * y == {} <==> !HourStraddles(rows, a, b, c, tz) by {
      forall h | h in x * y ensures HourStraddles(rows, a, b, c, tz) {
        var r :| r in Between(rows, a, b) && Bucket(ByHour, r.at, tz) == h;
        var s :| s in Between(rows, b, c) && Bucket(ByHour, s.at, tz) == h;
      }
      if HourStraddles(rows, a, b, c, tz) {
        var r, s :| r in Between(rows, a, b) && s in Between(rows, b, c)
                    && Bucket(ByHour, r.at, tz) == Bucket(ByHour, s.at, tz);
        assert Bucket(ByHour, r.at, tz) in x * y;
      }
    }
  }

  /** Custom ranges that meet add up, whatever granularity each is given: energy and unrounded savings
      always, and active hours exactly when no local hour has rows on both sides of the meeting point. */
  lemma {:induction false} AdjacentRangesAdd(rows: seq<Sample>, a: Time, b: Time, c: Time, scale: real, tz: int,
                                             t: Tariff, first: seq<BucketRow>, second: seq<BucketRow>,
                                             whole: seq<BucketRow>)
    requires IsCustomRange(first, rows, a, b, scale, tz) && IsCustomRange(second, rows, b, c, scale, tz)
             && IsCustomRange(whole, rows, a, c, scale, tz)
    ensures EnergySum(whole) == EnergySum(first) + EnergySum(second)
            && SolarSum(whole) == SolarSum(first) + SolarSum(second)
    ensures Cost(EnergySum(whole), t) == Cost(EnergySum(first), t) + Cost(EnergySum(second), t)
    ensures HoursSum(whole) == HoursSum(first) + HoursSum(second) <==> !HourStraddles(rows, a, b, c, tz)
  {
    hide HourStraddles, IsCustomRange, Cost, Between, Load, Solar, Hours, Kwh, EnergySum, SolarSum, HoursSum;
    CustomConserves(first, rows, a, b, scale, tz);
    CustomConserves(second, rows, b, c, scale, tz);
    CustomConserves(whole, rows, a, c, scale, tz);
    BetweenAdds(rows, a, b, c);
    HoursOfAdjacent(rows, a, b, c, tz);
    CostAdds(EnergySum(first), EnergySum(second), t);
    AddScaled(Load(Between(rows, a, c)), Load(Between(rows, a, b)), Load(Between(rows, b, c)), scale);
    AddScaled(Solar(Between(rows, a, c)), Solar(Between(rows, a, b)), Solar(Between(rows, b, c)), scale);
  }

  lemma {:induction false} CustomConserves(result: seq<BucketRow>, rows: seq<Sample>, a: Time, b: Time, scale: real,
                                           tz: int)
    requires IsCustomRange(result, rows, a, b, scale, tz)
    ensures a < b && EnergySum(result) == Kwh(Load(Between(rows, a, b)), scale)
            && SolarSum(result) == Kwh(Solar(Between(rows, a, b)), scale)
    ensures HoursSum(result) == |Hours(Between(rows, a, b), tz)|
  {
    hide IsGroupBy, Between, Load, Solar, Hours, Kwh;
    GroupingConserves(result, Between(rows, a, b), CustomGranularity(a, b).value, scale, tz);
  }

  /** A meeting point on a local hour is never straddled. */
  lemma {:induction false} WholeHourNotStraddled(rows: seq<Sample>, a: Time, b: Time, c: Time, tz: int)
    requires (b + tz) % HOUR == 0
    ensures !HourStraddles(rows, a, b, c, tz)
  {
    forall r, s | r in Between(rows, a, b) && s in Between(rows, b, c)
      ensures Bucket(ByHour, r.at, tz) != Bucket(ByHour, s.at, tz)
    {
      HourStartsAt(s.at, b, tz);
    }
  }

  lemma HourStartsAt(s: Time, b: Time, tz: int)
    requires (b + tz) % HOUR == 0 && b <= s
    ensures s - (s + tz) % HOUR >= b
  {
    var q := (b + tz) / HOUR;
    assert (s + tz) / HOUR >= q;
  }
}
