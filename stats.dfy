/** The in-memory accounting of `src/types.rs`: a capacity-bounded series
    of per-interval totals (`TimeSeriesData`), the three series kept per
    event (`TimeSeries`), and `Stats`, whose counters are folded into those
    series once per minute. Time is a parameter, in whole seconds since the
    epoch. */
module Stats {
  import opened Common

  datatype TimeSeriesUnit = Minutely | Hourly | Daily

  /** `TimeSeriesUnit::len`: how many buckets a report for the unit has. */
  function UnitLen(u: TimeSeriesUnit): (n: nat)
    ensures n > 0
  {
    match u
    case Minutely => 60
    case Hourly => 24
    case Daily => 30
  }

  /** One series: newest bucket first, at most `capacity` buckets, and the
      start of the newest bucket's interval once something was recorded. */
  datatype SeriesData = SeriesData(
    data: seq<nat>,
    lastIntervalStart: Option<int>,
    capacity: nat,
    intervalSecs: int)

  /** What every series the engine builds satisfies: a positive capacity and
      interval, no more buckets than the capacity, and a newest bucket as
      soon as an interval start is recorded. */
  predicate ValidData(d: SeriesData)
  {
    d.capacity > 0 && d.intervalSecs > 0 && |d.data| <= d.capacity &&
    (d.lastIntervalStart.Some? ==> |d.data| > 0)
  }

  /** The first `n` elements of `xs`, or all of them when there are fewer. */
  function Take(xs: seq<nat>, n: nat): (r: seq<nat>)
    ensures |r| <= n && |r| <= |xs|
    ensures r == xs[..|r|]
    ensures |xs| <= n ==> r == xs
  {
    if |xs| <= n then xs else xs[..n]
  }

  /** `n` empty buckets. */
  function Zeros(n: nat): (r: seq<nat>)
    ensures |r| == n
  {
    seq(n, _ => 0)
  }

  lemma TakeTake(v: nat, ys: seq<nat>, c: nat)
    requires c > 0
    ensures Take([v] + Take(ys, c), c) == Take([v] + ys, c)
  {
    if |ys| > c {
      assert ([v] + ys[..c])[..c] == ([v] + ys)[..c];
    }
  }

  /** `push_raw`: the value becomes the newest bucket and the oldest buckets
      beyond the capacity are dropped. */
  method PushRaw(d: SeriesData, val: nat) returns (d': SeriesData)
    ensures d' == d.(data := Take([val] + d.data, d.capacity))
    ensures |d'.data| <= d.capacity
    ensures d.capacity > 0 ==> d'.data[0] == val
  {
    ghost var full := [val] + d.data;
    var data := [val] + d.data;
    while |data| > d.capacity
      invariant |data| <= |full| && data == full[..|data|]
      invariant |full| <= d.capacity ==> data == full
      invariant |full| > d.capacity ==> |data| >= d.capacity
      decreases |data|
    {
      data := data[..|data| - 1];
    }
    d' := d.(data := data);
  }

  /** Where the gap-filling loop of `add_data` stops, starting from the
      interval start `t`: every interval lying more than two intervals
      before `now` is skipped. The result is the interval start reached and
      the number of intervals skipped (each gets an empty bucket). */
  function SkipGaps(t: int, now: int, i: int): (r: (int, nat))
    requires i > 0
    ensures now - r.0 <= 2 * i
    ensures r.1 > 0 ==> now - r.0 > i
    decreases now - t
  {
    if now - t > 2 * i then
      var r := SkipGaps(t + i, now, i);
      (r.0, r.1 + 1)
    else (t, 0)
  }

  /** The skipped intervals in closed form: the loop stops at the first
      interval start from which `now` is at most two intervals away. */
  lemma {:induction false} SkipGapsClosedForm(t: int, now: int, i: int)
    requires i > 0
    ensures SkipGaps(t, now, i).0 == t + SkipGaps(t, now, i).1 * i
    ensures now - t > i ==> SkipGaps(t, now, i).1 == (now - t - i - 1) / i
    decreases now - t
  {
    var r := SkipGaps(t, now, i);
    if now - t > 2 * i {
      SkipGapsClosedForm(t + i, now, i);
      assert r.1 * i == (r.1 - 1) * i + i;
    }
    if now - t > i {
      DivUnique(now - t - i - 1, i, r.1);
    }
  }

  /** `add_data` at time `now`, on the series as a value. On first use the
      value is pushed and `now` starts the interval. Later, while `now` is
      still within one interval of the recorded start the value is added to
      the newest bucket; otherwise every skipped interval gets an empty
      bucket, the value gets a new bucket, and the interval start moves to
      the interval after the last one skipped. */
  function AddDataSpec(d: SeriesData, val: nat, now: int): (r: SeriesData)
    requires ValidData(d)
    ensures ValidData(r)
    ensures r.capacity == d.capacity && r.intervalSecs == d.intervalSecs
  {
    var i := d.intervalSecs;
    match d.lastIntervalStart
    case None =>
      d.(data := Take([val] + d.data, d.capacity), lastIntervalStart := Some(now))
    case Some(t0) =>
      var (t, gaps) := SkipGaps(t0, now, i);
      if now - t > i then
        d.(data := Take([val] + Zeros(gaps) + d.data, d.capacity), lastIntervalStart := Some(t + i))
      else
        d.(data := d.data[0 := d.data[0] + val])
  }

  lemma DivBounds(x: int, i: int)
    requires x >= 0 && i > 0
    ensures (x / i) * i <= x < (x / i + 1) * i
  {
  }

  lemma DivUnique(x: int, i: int, k: int)
    requires i > 0 && k >= 0 && k * i <= x < (k + 1) * i
    ensures x / i == k
  {
    assert k * i >= 0;
    DivBounds(x, i);
    var q := x / i;
    assert q < k ==> (q + 1) * i <= k * i;
    assert q > k ==> (k + 1) * i <= q * i;
  }

  /** One more empty bucket in front of the kept ones. */
  lemma ZerosStep(k: nat, xs: seq<nat>, c: nat)
    requires c > 0
    ensures Take([0] + Take(Zeros(k) + xs, c), c) == Take(Zeros(k + 1) + xs, c)
  {
    TakeTake(0, Zeros(k) + xs, c);
    assert [0] + (Zeros(k) + xs) == Zeros(k + 1) + xs;
  }

  /** One more empty bucket pushed onto a series holding `k` of them. */
  lemma FillOne(d: SeriesData, cur: SeriesData, k: nat)
    requires d.capacity > 0 && cur == d.(data := Take(Zeros(k) + d.data, d.capacity))
    ensures cur.(data := Take([0] + cur.data, cur.capacity)) == d.(data := Take(Zeros(k + 1) + d.data, d.capacity))
  {
    ZerosStep(k, d.data, d.capacity);
  }

  /** Skipping one interval: the stop is the same and one gap fewer remains. */
  lemma SkipStep(t: int, now: int, i: int)
    requires i > 0 && now - t > 2 * i
    ensures SkipGaps(t + i, now, i).0 == SkipGaps(t, now, i).0
    ensures SkipGaps(t + i, now, i).1 + 1 == SkipGaps(t, now, i).1
  {
  }

  /** The gap-filling loop of `add_data`: one empty bucket per interval
      while `now` lies more than two intervals past `t`. */
  method FillGaps(d: SeriesData, now: int) returns (cur: SeriesData, t: int)
    requires ValidData(d) && d.lastIntervalStart.Some?
    ensures var (t', gaps) := SkipGaps(d.lastIntervalStart.value, now, d.intervalSecs);
            t == t' && cur == d.(data := Take(Zeros(gaps) + d.data, d.capacity))
  {
    var i := d.intervalSecs;
    var t0 := d.lastIntervalStart.value;
    t := t0;
    cur := d;
    ghost var k: nat := 0;
    ghost var goal := SkipGaps(t0, now, i);
    while now - t > 2 * i
      invariant SkipGaps(t, now, i).0 == goal.0 && SkipGaps(t, now, i).1 + k == goal.1
      invariant cur == d.(data := Take(Zeros(k) + d.data, d.capacity))
      decreases now - t
    {
      FillOne(d, cur, k);
      SkipStep(t, now, i);
      cur := PushRaw(cur, 0);
      t := t + i;
      k := k + 1;
    }
    assert SkipGaps(t, now, i) == (t, 0);
    assert goal == (t, k);
  }

  /** `add_data`: the gap-filling loop and the final push or merge. */
  method AddData(d: SeriesData, val: nat, now: int) returns (d': SeriesData)
    requires ValidData(d)
    ensures d' == AddDataSpec(d, val, now)
  {
    if d.lastIntervalStart.None? {
      d' := PushRaw(d, val);
      d' := d'.(lastIntervalStart := Some(now));
      return;
    }
    var i := d.intervalSecs;
    var cur, t := FillGaps(d, now);
    ghost var gaps := SkipGaps(d.lastIntervalStart.value, now, i).1;
    if now - t > i {
      TakeTake(val, Zeros(gaps) + d.data, d.capacity);
      assert [val] + (Zeros(gaps) + d.data) == [val] + Zeros(gaps) + d.data;
      cur := PushRaw(cur, val);
      t := t + i;
      d' := cur.(lastIntervalStart := Some(t));
    } else {
      assert Zeros(0) + d.data == d.data;
      d' := cur.(data := cur.data[0 := cur.data[0] + val]);
    }
  }

  /** On first use the value becomes the newest bucket and `now` starts
      the interval. */
  lemma AddDataFirstUse(d: SeriesData, val: nat, now: int)
    requires ValidData(d) && d.lastIntervalStart.None?
    ensures AddDataSpec(d, val, now).lastIntervalStart == Some(now)
    ensures AddDataSpec(d, val, now).data[0] == val
  {
  }

  /** Within the current interval the value is added to the newest bucket;
      no bucket is pushed and the interval start stays. */
  lemma AddDataWithinInterval(d: SeriesData, val: nat, now: int)
    requires ValidData(d) && d.lastIntervalStart.Some?
    requires now - d.lastIntervalStart.value <= d.intervalSecs
    ensures AddDataSpec(d, val, now).lastIntervalStart == d.lastIntervalStart
    ensures AddDataSpec(d, val, now).data == d.data[0 := d.data[0] + val]
  {
  }

  /** After any call, `now` lies at most one interval after the recorded
      interval start, so the newest bucket is the one for `now`. */
  lemma AddDataCoversNow(d: SeriesData, val: nat, now: int)
    requires ValidData(d)
    ensures AddDataSpec(d, val, now).lastIntervalStart.Some?
    ensures now - AddDataSpec(d, val, now).lastIntervalStart.value <= d.intervalSecs
  {
  }

  /** Two values recorded at the same instant end up in the same bucket. */
  lemma SameInstantMerges(d: SeriesData, a: nat, b: nat, now: int)
    requires ValidData(d)
    ensures var once := AddDataSpec(d, a, now);
            AddDataSpec(once, b, now).data == once.data[0 := once.data[0] + b]
  {
    AddDataCoversNow(d, a, now);
    AddDataWithinInterval(AddDataSpec(d, a, now), b, now);
  }

  // ---------------------------------------------------------------- TimeSeries

  datatype TimeSeries = TimeSeries(minutely: SeriesData, hourly: SeriesData, daily: SeriesData)

  /** The shape `TimeSeries::new` gives: 60 one-minute buckets, 24 one-hour
      buckets and 30 one-day buckets. */
  predicate Shaped(ts: TimeSeries)
  {
    ValidData(ts.minutely) && ValidData(ts.hourly) && ValidData(ts.daily) &&
    ts.minutely.capacity == UnitLen(Minutely) && ts.minutely.intervalSecs == 60 &&
    ts.hourly.capacity == UnitLen(Hourly) && ts.hourly.intervalSecs == 3600 &&
    ts.daily.capacity == UnitLen(Daily) && ts.daily.intervalSecs == 86400
  }

  /** `TimeSeries::new`. */
  function NewTimeSeries(): (ts: TimeSeries)
    ensures Shaped(ts)
    ensures ts.minutely.data == [] && ts.hourly.data == [] && ts.daily.data == []
    ensures ts.minutely.lastIntervalStart.None? && ts.hourly.lastIntervalStart.None? &&
            ts.daily.lastIntervalStart.None?
  {
    TimeSeries(
      SeriesData([], None, 60, 60),
      SeriesData([], None, 24, 3600),
      SeriesData([], None, 30, 86400))
  }

  function SeriesAddSpec(ts: TimeSeries, n: nat, now: int): (r: TimeSeries)
    requires Shaped(ts)
    ensures Shaped(r)
  {
    TimeSeries(AddDataSpec(ts.minutely, n, now), AddDataSpec(ts.hourly, n, now), AddDataSpec(ts.daily, n, now))
  }

  /** `TimeSeries::add_data`: the same value goes into all three series. */
  method SeriesAdd(ts: TimeSeries, n: nat, now: int) returns (r: TimeSeries)
    requires Shaped(ts)
    ensures r == SeriesAddSpec(ts, n, now)
  {
    var m := AddData(ts.minutely, n, now);
    var h := AddData(ts.hourly, n, now);
    var d := AddData(ts.daily, n, now);
    r := TimeSeries(m, h, d);
  }

  /** `TimeSeries::get_by_unit`: the buckets of one series, newest first. */
  function GetByUnit(ts: TimeSeries, unit: TimeSeriesUnit): (s: seq<nat>)
    ensures unit == Minutely ==> s == ts.minutely.data
    ensures unit == Hourly ==> s == ts.hourly.data
    ensures unit == Daily ==> s == ts.daily.data
    ensures Shaped(ts) ==> |s| <= UnitLen(unit)
  {
    match unit
    case Minutely => ts.minutely.data
    case Hourly => ts.hourly.data
    case Daily => ts.daily.data
  }

  // ---------------------------------------------------------------- sums

  /** The sum of `f` over a finite set of keys. */
  ghost function SumOver(keys: set<string>, f: string -> nat): nat
    decreases keys
  {
    if keys == {} then 0
    else
      var k :| k in keys;
      f(k) + SumOver(keys - {k}, f)
  }

  /** Any key can be taken out of the sum first. */
  lemma {:induction false} SumOverRemove(keys: set<string>, f: string -> nat, k: string)
    requires k in keys
    ensures SumOver(keys, f) == f(k) + SumOver(keys - {k}, f)
    decreases keys
  {
    var j :| j in keys && SumOver(keys, f) == f(j) + SumOver(keys - {j}, f);
    if j != k {
      SumOverRemove(keys - {j}, f, k);
      SumOverRemove(keys - {k}, f, j);
      assert keys - {j} - {k} == keys - {k} - {j};
    }
  }

  /** Adding a key to the set adds its term to the sum. */
  lemma SumOverAdd(keys: set<string>, f: string -> nat, k: string)
    requires k !in keys
    ensures SumOver(keys + {k}, f) == f(k) + SumOver(keys, f)
  {
    SumOverRemove(keys + {k}, f, k);
    assert keys + {k} - {k} == keys;
  }

  /** A counter map read as a total function. */
  function Lookup(m: map<string, nat>): string -> nat
  {
    k => if k in m then m[k] else 0
  }

  /** Bucket `i` of a series, or 0 beyond its end. */
  function At(s: seq<nat>, i: int): nat
  {
    if 0 <= i < |s| then s[i] else 0
  }

  /** Bucket `i` of each event's series for a unit. */
  function Column(series: map<string, TimeSeries>, unit: TimeSeriesUnit, i: int): string -> nat
  {
    k => if k in series then At(GetByUnit(series[k], unit), i) else 0
  }

  function Prefixed(keys: set<string>, pref: string): (r: set<string>)
    ensures r <= keys
    ensures forall k | k in keys :: k in r <==> StartsWith(k, pref)
  {
    set k | k in keys && StartsWith(k, pref)
  }

  /** The counters whose event name starts with `pref`. */
  function PrefixFilter(counters: map<string, nat>, pref: string): (r: map<string, nat>)
    ensures r.Keys == Prefixed(counters.Keys, pref)
    ensures forall k | k in r :: r[k] == counters[k]
  {
    map k | k in counters && StartsWith(k, pref) :: counters[k]
  }

  /** `values().sum()` over a counter map. */
  method SumValues(m: map<string, nat>) returns (total: nat)
    ensures total == SumOver(m.Keys, Lookup(m))
  {
    total := 0;
    var todo := m.Keys;
    while todo != {}
      invariant todo <= m.Keys
      invariant total == SumOver(m.Keys - todo, Lookup(m))
      decreases todo
    {
      var k :| k in todo;
      ghost var done := m.Keys - todo;
      SumOverAdd(done, Lookup(m), k);
      assert Lookup(m)(k) == m[k];
      assert m.Keys - (todo - {k}) == done + {k};
      total := total + m[k];
      todo := todo - {k};
 }
    assert m.Keys - todo == m.Keys;
  }

  // ---------------------------------------------------------------- Stats

  /** Minute of the hour of a time given in seconds since the epoch. */
  function Minute(t: int): (m: int)
    ensures 0 <= m < 60
  {
    (t % 3600) / 60
  }

  /** The counters after one more occurrence of `evt`. */
  function Accounted(counters: map<string, nat>, evt: string): (r: map<string, nat>)
    ensures r.Keys == counters.Keys + {evt}
    ensures r[evt] == (if evt in counters then counters[evt] else 0) + 1
    ensures forall k | k in counters && k != evt :: r[k] == counters[k]
  {
    counters[evt := if evt in counters then counters[evt] + 1 else 1]
  }

  /** The counters after a tick: same events, all back to zero. */
  function Zeroed(counters: map<string, nat>): (r: map<string, nat>)
    ensures r.Keys == counters.Keys
    ensures forall k | k in r :: r[k] == 0
  {
    map k | k in counters :: 0
  }

  /** An event's series, or a fresh one when it has none yet. */
  function SeriesOrNew(series: map<string, TimeSeries>, k: string): TimeSeries
  {
    if k in series then series[k] else NewTimeSeries()
  }

  predicate AllShaped(series: map<string, TimeSeries>)
  {
    forall k | k in series :: Shaped(series[k])
  }

  /** The series after a tick: every counted event's value is added to its
      series (created on demand); series of other events are untouched. */
  function Ticked(series: map<string, TimeSeries>, counters: map<string, nat>, now: int): (r: map<string, TimeSeries>)
    requires AllShaped(series)
    ensures r.Keys == series.Keys + counters.Keys
    ensures forall k | k in series && k !in counters :: r[k] == series[k]
  {
    map k | k in series.Keys + counters.Keys ::
      if k in counters then SeriesAddSpec(SeriesOrNew(series, k), counters[k], now) else series[k]
  }

  /** Every series keeps the shape `TimeSeries::new` gave it. */
  lemma TickedShaped(series: map<string, TimeSeries>, counters: map<string, nat>, now: int)
    requires AllShaped(series)
    ensures AllShaped(Ticked(series, counters, now))
  {
  }

  /** After a tick, an event seen for the first time has one bucket holding
      its count in each of its three series. */
  lemma TickStartsSeries(series: map<string, TimeSeries>, counters: map<string, nat>, now: int, k: string)
    requires AllShaped(series)
    requires k in counters && k !in series
    ensures var ts := Ticked(series, counters, now)[k];
            ts.minutely.data == [counters[k]] && ts.hourly.data == [counters[k]] && ts.daily.data == [counters[k]]
  {
  }

  /** After a tick within the current interval of a series, the count is
      added to that series' newest bucket. */
  lemma TickMergesIntoNewest(series: map<string, TimeSeries>, counters: map<string, nat>, now: int, k: string)
    requires AllShaped(series)
    requires k in counters && k in series
    requires series[k].minutely.lastIntervalStart.Some?
    requires now - series[k].minutely.lastIntervalStart.value <= 60
    ensures var old_ := series[k].minutely.data;
            Ticked(series, counters, now)[k].minutely.data == old_[0 := old_[0] + counters[k]]
  {
  }

  /** The counters with the events in `done` already reset. */
  function ResetDone(counters: map<string, nat>, done: set<string>): map<string, nat>
  {
    map k | k in counters :: if k in done then 0 else counters[k]
  }

  lemma ResetStep(counters: map<string, nat>, done: set<string>, k: string)
    requires k in counters
    ensures ResetDone(counters, done)[k := 0] == ResetDone(counters, done + {k})
  {
    var l := ResetDone(counters, done)[k := 0];
    var r := ResetDone(counters, done + {k});
    assert l.Keys == r.Keys;
    forall j | j in l
      ensures l[j] == r[j]
    {
    }
  }

  /** Each counted event's series after a tick. */
  lemma TickedAt(series: map<string, TimeSeries>, counters: map<string, nat>, now: int, k: string)
    requires AllShaped(series) && k in counters
    ensures Ticked(series, counters, now)[k] == SeriesAddSpec(SeriesOrNew(series, k), counters[k], now)
  {
  }

  /** One round of the loop of `Stats::tick`: the event's series is created
      if it has none, and the count is added to it. */
  method FoldOne(series: map<string, TimeSeries>, k: string, v: nat, now: int) returns (series': map<string, TimeSeries>)
    requires Shaped(SeriesOrNew(series, k))
    ensures series' == series[k := SeriesAddSpec(SeriesOrNew(series, k), v, now)]
  {
    series' := series;
    if k !in series' {
      series' := series'[k := NewTimeSeries()];
    }
    var ts := SeriesAdd(series'[k], v, now);
    series' := series'[k := ts];
  }

  /** A map that agrees with `Ticked` key by key is `Ticked`. */
  lemma TickedPointwise(r: map<string, TimeSeries>, series: map<string, TimeSeries>, counters: map<string, nat>, now: int)
    requires AllShaped(series)
    requires r.Keys == series.Keys + counters.Keys
    requires forall j | j in counters :: r[j] == SeriesAddSpec(SeriesOrNew(series, j), counters[j], now)
    requires forall j | j in series && j !in counters :: r[j] == series[j]
    ensures r == Ticked(series, counters, now)
  {
    var t := Ticked(series, counters, now);
    forall j | j in r
      ensures r[j] == t[j]
    {
      if j in counters {
        TickedAt(series, counters, now, j);
      }
    }
  }

  /** What the loop of `Stats::tick` has achieved once the events in `done`
      are folded in: their counts are reset and added to their series; all
      other counts and series are as they were. */
  predicate Folded(counters: map<string, nat>, series: map<string, TimeSeries>, now: int,
                   done: set<string>, counters': map<string, nat>, series': map<string, TimeSeries>)
  {
    && AllShaped(series)
    && done <= counters.Keys
    && counters' == ResetDone(counters, done)
    && series'.Keys == series.Keys + done
    && AddedFor(counters, series, now, done, series')
    && KeptOutside(series, done, series')
  }

  /** The series of the events in `done` have their counts added. */
  predicate AddedFor(counters: map<string, nat>, series: map<string, TimeSeries>, now: int,
                     done: set<string>, series': map<string, TimeSeries>)
    requires AllShaped(series) && done <= counters.Keys && done <= series'.Keys
  {
    forall j | j in done :: series'[j] == SeriesAddSpec(SeriesOrNew(series, j), counters[j], now)
  }

  /** The series of all other events are as they were. */
  predicate KeptOutside(series: map<string, TimeSeries>, done: set<string>, series': map<string, TimeSeries>)
    requires series'.Keys <= series.Keys + done
  {
    forall j | j in series'.Keys && j !in done :: series'[j] == series[j]
  }

  /** One round of the loop of `Stats::tick`: the event's count is added to
      its series (created on demand) and then reset. */
  method FoldStep(counters: map<string, nat>, series: map<string, TimeSeries>, now: int, ghost done: set<string>,
                  counters': map<string, nat>, series': map<string, TimeSeries>, k: string)
    returns (counters'': map<string, nat>, series'': map<string, TimeSeries>)
    requires AllShaped(series)
    requires Folded(counters, series, now, done, counters', series')
    requires k in counters && k !in done
    ensures Folded(counters, series, now, done + {k}, counters'', series'')
  {
    assert counters'[k] == counters[k];
    assert SeriesOrNew(series', k) == SeriesOrNew(series, k);
    series'' := FoldOne(series', k, counters'[k], now);
    FoldedStep(counters, series, now, done, counters', series', k, series''[k]);
    counters'' := counters'[k := 0];
  }

  /** The invariant of the loop of `Stats::tick` after one more event. */
  lemma FoldedStep(counters: map<string, nat>, series: map<string, TimeSeries>, now: int, done: set<string>,
                   counters': map<string, nat>, series': map<string, TimeSeries>, k: string, ts: TimeSeries)
    requires Folded(counters, series, now, done, counters', series')
    requires k in counters && k !in done
    requires ts == SeriesAddSpec(SeriesOrNew(series, k), counters[k], now)
    ensures Folded(counters, series, now, done + {k}, counters'[k := 0], series'[k := ts])
  {
    ResetStep(counters, done, k);
    assert series'[k := ts].Keys == series.Keys + (done + {k});
    AddedStep(counters, series, now, done, series', k, ts);
    KeptStep(series, done, series', k, ts);
  }

  /** The added series after one more event. */
  lemma AddedStep(counters: map<string, nat>, series: map<string, TimeSeries>, now: int, done: set<string>,
                  series': map<string, TimeSeries>, k: string, ts: TimeSeries)
    requires AllShaped(series) && done <= counters.Keys && done <= series'.Keys && k in counters
    requires AddedFor(counters, series, now, done, series')
    requires ts == SeriesAddSpec(SeriesOrNew(series, k), counters[k], now)
    ensures AddedFor(counters, series, now, done + {k}, series'[k := ts])
  {
  }

  /** The untouched series after one more event. */
  lemma KeptStep(series: map<string, TimeSeries>, done: set<string>, series': map<string, TimeSeries>,
                 k: string, ts: TimeSeries)
    requires series'.Keys <= series.Keys + done
    requires KeptOutside(series, done, series')
    ensures KeptOutside(series, done + {k}, series'[k := ts])
  {
  }

  /** Nothing is folded in yet. */
  lemma FoldedNone(counters: map<string, nat>, series: map<string, TimeSeries>, now: int)
    requires AllShaped(series)
    ensures Folded(counters, series, now, {}, counters, series)
  {
    assert counters == ResetDone(counters, {});
  }

  /** The loop of `Stats::tick` over the counters: each event's count is
      added to its series (created on demand) and the count is reset. */
  method FoldCounters(counters: map<string, nat>, series: map<string, TimeSeries>, now: int)
    returns (counters': map<string, nat>, series': map<string, TimeSeries>)
    requires AllShaped(series)
    ensures counters' == Zeroed(counters)
    ensures series' == Ticked(series, counters, now)
  {
    counters' := counters;
    series' := series;
    var todo := counters.Keys;
    ghost var done: set<string> := {};
    FoldedNone(counters, series, now);
    while todo != {}
      invariant done !! todo && done + todo == counters.Keys
      invariant Folded(counters, series, now, done, counters', series')
      decreases todo
    {
      var k :| k in todo;
      counters', series' := FoldStep(counters, series, now, done, counters', series', k);
      done := done + {k};
      todo := todo - {k};
    }
    FoldedAll(counters, series, now, counters', series');
  }

  /** Once every counter is folded, the counters are all zero and the
      series are the ticked ones. */
  lemma FoldedAll(counters: map<string, nat>, series: map<string, TimeSeries>, now: int,
                  counters': map<string, nat>, series': map<string, TimeSeries>)
    requires Folded(counters, series, now, counters.Keys, counters', series')
    ensures counters' == Zeroed(counters)
    ensures series' == Ticked(series, counters, now)
  {
    assert ResetDone(counters, counters.Keys) == Zeroed(counters);
    TickedPointwise(series', series, counters, now);
  }

  /** The outer loop of `time_series_by_prefix`: the buckets of every
      series whose event name starts with `pref` are added to `base`. */
  method SeriesTotals(series: map<string, TimeSeries>, pref: string, unit: TimeSeriesUnit, base: seq<nat>)
    returns (ret: seq<nat>)
    ensures |ret| == |base|
    ensures forall i | 0 <= i < |ret| :: ret[i] == base[i] + SumOver(Prefixed(series.Keys, pref), Column(series, unit, i))
  {
    ret := base;
    var todo := series.Keys;
    while todo != {}
      invariant todo <= series.Keys
      invariant |ret| == |base|
      invariant forall i | 0 <= i < |base| ::
                  ret[i] == base[i] + SumOver(Prefixed(series.Keys - todo, pref), Column(series, unit, i))
      decreases todo
    {
      var k :| k in todo;
      ghost var done := series.Keys - todo;
      assert series.Keys - (todo - {k}) == done + {k};
      if StartsWith(k, pref) {
        ghost var before := ret;
        ret := AddBuckets(ret, GetByUnit(series[k], unit));
        SeriesSumStep(series, unit, pref, done, k, base, before, ret);
      } else {
        assert Prefixed(done + {k}, pref) == Prefixed(done, pref);
      }
      todo := todo - {k};
    }
    assert series.Keys - todo == series.Keys;
  }

  /** The inner loop of `time_series_by_prefix`: one series' buckets are
      added position by position to the totals, as far as the totals reach. */
  method AddBuckets(acc: seq<nat>, ts: seq<nat>) returns (r: seq<nat>)
    ensures |r| == |acc|
    ensures forall i | 0 <= i < |acc| :: r[i] == acc[i] + At(ts, i)
  {
    r := acc;
    var j := 0;
    while j < |ts|
      invariant 0 <= j <= |ts|
      invariant |r| == |acc|
      invariant forall i | 0 <= i < |acc| :: r[i] == acc[i] + (if i < j then At(ts, i) else 0)
    {
      if j >= |r| {
        break;
      }
      r := r[j := r[j] + ts[j]];
      j := j + 1;
    }
  }

  /** Adding the buckets of one more matching event's series keeps every
      total equal to the base plus the column sums over the events done. */
  lemma SeriesSumStep(series: map<string, TimeSeries>, unit: TimeSeriesUnit, pref: string, done: set<string>,
                      k: string, base: seq<nat>, before: seq<nat>, after: seq<nat>)
    requires k in series && k !in done && StartsWith(k, pref)
    requires |base| == |before| == |after|
    requires forall i | 0 <= i < |before| ::
               before[i] == base[i] + SumOver(Prefixed(done, pref), Column(series, unit, i))
    requires forall i | 0 <= i < |before| :: after[i] == before[i] + At(GetByUnit(series[k], unit), i)
    ensures forall i | 0 <= i < |after| ::
              after[i] == base[i] + SumOver(Prefixed(done + {k}, pref), Column(series, unit, i))
  {
    assert Prefixed(done + {k}, pref) == Prefixed(done, pref) + {k};
    forall i | 0 <= i < |after|
      ensures after[i] == base[i] + SumOver(Prefixed(done + {k}, pref), Column(series, unit, i))
    {
      SumOverAdd(Prefixed(done, pref), Column(series, unit, i), k);
    }
  }

  class Stats {
    var counters: map<string, nat>
    var seriesMap: map<string, TimeSeries>
    var lastTick: int

    ghost predicate Valid()
      reads this
    {
      AllShaped(seriesMap)
    }

    /** `Stats::new`, with the clock reading as a parameter. */
    constructor(now: int)
      ensures Valid()
      ensures counters == map[] && seriesMap == map[] && lastTick == now
    {
      counters := map[];
      seriesMap := map[];
      lastTick := now;
    }

    /** `Stats::account`: one more occurrence of `evt`. */
    method Account(evt: string)
      modifies this
      ensures counters == Accounted(old(counters), evt)
      ensures seriesMap == old(seriesMap) && lastTick == old(lastTick)
    {
      if evt in counters {
        counters := counters[evt := counters[evt] + 1];
      } else {
        counters := counters[evt := 1];
      }
    }

    /** `Stats::get_by_prefix`: the counters whose name starts with `pref`. */
    method GetByPrefix(pref: string) returns (ret: map<string, nat>)
      ensures ret == PrefixFilter(counters, pref)
    {
      ret := map[];
      var todo := counters.Keys;
      while todo != {}
        invariant todo <= counters.Keys
        invariant ret == PrefixFilter(counters, pref) - todo
        decreases todo
      {
        var k :| k in todo;
        if StartsWith(k, pref) {
          ret := ret[k := counters[k]];
        }
        todo := todo - {k};
      }
    }

    /** `Stats::tick`: nothing happens while the minute of the hour is the
      one of the previous tick; otherwise every counter is added to its
      series and reset to zero, and the tick time is recorded. */
    method Tick(now: int)
      requires Valid()
      modifies this
      ensures Valid()
      ensures Minute(old(lastTick)) == Minute(now) ==>
                counters == old(counters) && seriesMap == old(seriesMap) && lastTick == old(lastTick)
      ensures Minute(old(lastTick)) != Minute(now) ==>
                counters == Zeroed(old(counters)) &&
                seriesMap == Ticked(old(seriesMap), old(counters), now) &&
                lastTick == now
    {
      if Minute(lastTick) == Minute(now) {
        return;
      }
      TickedShaped(seriesMap, counters, now);
      counters, seriesMap := FoldCounters(counters, seriesMap, now);
      lastTick := now;
    }

    /** `Stats::time_series_by_prefix`: one total per bucket of the unit,
      newest first, summed over the events whose name starts with `pref`;
      the newest total also counts what has not been ticked in yet. */
    method TimeSeriesByPrefix(pref: string, unit: TimeSeriesUnit) returns (ret: seq<nat>)
      ensures |ret| == UnitLen(unit)
      ensures forall i | 0 <= i < |ret| ::
                ret[i] == (if i == 0 then SumOver(Prefixed(counters.Keys, pref), Lookup(PrefixFilter(counters, pref))) else 0)
                          + SumOver(Prefixed(seriesMap.Keys, pref), Column(seriesMap, unit, i))
    {
      var n := UnitLen(unit);
      var live := GetByPrefix(pref);
      var total := SumValues(live);
      ret := SeriesTotals(seriesMap, pref, unit, seq(n, _ => 0)[0 := total]);
    }
  }
}
