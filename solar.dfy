/** Solar power estimates (src/data/solar/solar.py): half-hour forecasts of a rooftop are
    windowed, paired into hourly estimates, and the rooftops are summed. */
module Solars {
  import opened Wrappers
  import opened Numeric
  import opened Hours

  const HalfHour: int := 30 * SecondsPerMinute

  /** One forecast of the dataset: its period_end and its pv_estimate. */
  datatype Forecast = Forecast(periodEnd: int, pvEstimate: real)

  datatype Solar = Solar(time: int, power: real)

  /** The dataclass orders and compares solars by their power alone. */
  predicate Weaker(a: Solar, b: Solar)
  {
    a.power < b.power
  }

  predicate SamePower(a: Solar, b: Solar)
  {
    a.power == b.power
  }

  lemma SolarOrder(a: Solar, b: Solar, c: Solar, t: int)
    ensures !Weaker(a, a)
    ensures Weaker(a, b) && Weaker(b, c) ==> Weaker(a, c)
    ensures SamePower(a, b) <==> !Weaker(a, b) && !Weaker(b, a)
    ensures SamePower(a, a.(time := t))
    ensures Weaker(a, b) <==> Weaker(a.(time := t), b)
  {
  }

  /** _create_hourly_solar: the hour ends at the first forecast's period_end and its power is
      the mean of the first two estimates, rounded to four decimals; fewer than two
      forecasts raise. */
  function HourlySolar(forecasts: seq<Forecast>): (r: Result<Solar, DataError>)
    ensures r.Ok? <==> |forecasts| >= 2
    ensures r.Ok? ==> r.value.time == forecasts[0].periodEnd
    ensures r.Ok? ==>
      -0.00005 < r.value.power - (forecasts[0].pvEstimate + forecasts[1].pvEstimate) / 2.0 <= 0.00005
  {
    if |forecasts| < 2 then Err(IndexOutOfRange)
    else Ok(Solar(forecasts[0].periodEnd, Round4((forecasts[0].pvEstimate + forecasts[1].pvEstimate) / 2.0)))
  }

  // ---------------------------------------------------------------------------------
  // get_empty_solars

  method GetEmptySolars(w: Window) returns (r: Result<seq<Solar>, DataError>)
    ensures r.Ok? <==> CountsFit(w)
    ensures r.Ok? ==> |r.value| == HoursBetween(w)
    ensures r.Ok? ==> forall k :: 0 <= k < |r.value| ==>
      HourlyTime(w, FirstIndex(w) + k) == Ok(r.value[k].time) && r.value[k].power == 0.0
  {
    var solars: seq<Solar> := [];
    var hourDiff := HoursBetween(w);
    var startIndex := FirstIndex(w);
    var index := startIndex;
    while index < startIndex + hourDiff
      invariant startIndex <= index <= startIndex + hourDiff
      invariant index <= 48
      invariant |solars| == index - startIndex
      invariant forall k :: 0 <= k < |solars| ==>
        HourlyTime(w, startIndex + k) == Ok(solars[k].time) && solars[k].power == 0.0
    {
      var hour := index;
      var nextDay := false;
      if hour >= 24 {
        hour := hour - 24;
        nextDay := true;
      }
      var time: Result<int, DataError>;
      if nextDay {
        time := ReplaceHour(w.end, hour);
      } else {
        time := ReplaceHour(w.start, hour);
      }
      if time.Err? {
        return Err(time.error);
      }
      solars := solars + [Solar(time.value, 0.0)];
      index := index + 1;
    }
    r := Ok(solars);
  }

  // ---------------------------------------------------------------------------------
  // _get_active_forecasts and _get_active_and_past_forecasts

  /** The forecasts, in list order, whose period_end lies from lo on and before hi, or up
      to hi included when `closed`. */
  function Between(fs: seq<Forecast>, lo: int, hi: int, closed: bool): seq<Forecast>
  {
    if |fs| == 0 then []
    else
      var f := fs[|fs| - 1];
      Between(fs[..|fs| - 1], lo, hi, closed) +
        (if lo <= f.periodEnd && (if closed then f.periodEnd <= hi else f.periodEnd < hi) then [f] else [])
  }

  predicate InRange(f: Forecast, lo: int, hi: int, closed: bool)
  {
    lo <= f.periodEnd && (if closed then f.periodEnd <= hi else f.periodEnd < hi)
  }

  /** The filter keeps exactly the forecasts in range. */
  lemma {:induction false} BetweenMeaning(fs: seq<Forecast>, lo: int, hi: int, closed: bool)
    ensures forall f :: f in Between(fs, lo, hi, closed) <==> f in fs && InRange(f, lo, hi, closed)
    ensures |Between(fs, lo, hi, closed)| <= |fs|
    decreases |fs|
  {
    if |fs| > 0 {
      var pre := fs[..|fs| - 1];
      BetweenMeaning(pre, lo, hi, closed);
      assert fs == pre + [fs[|fs| - 1]];
    }
  }

  /** The filter keeps the input order: filtering a concatenation is concatenating the
      filtered parts. */
  lemma {:induction false} BetweenSplit(a: seq<Forecast>, b: seq<Forecast>, lo: int, hi: int, closed: bool)
    ensures Between(a + b, lo, hi, closed) == Between(a, lo, hi, closed) + Between(b, lo, hi, closed)
    decreases |b|
  {
    if |b| == 0 {
      assert a + b == a;
    } else {
      var b' := b[..|b| - 1];
      assert (a + b)[..|a + b| - 1] == a + b';
      assert (a + b)[|a + b| - 1] == b[|b| - 1];
      BetweenSplit(a, b', lo, hi, closed);
    }
  }

  /** A forecast is active when its period_end lies in the window extended by half an hour. */
  function ActiveForecastsOf(fs: seq<Forecast>, w: Window): seq<Forecast>
  {
    Between(fs, w.start, w.end + HalfHour, true)
  }

  method GetActiveForecasts(fs: seq<Forecast>, w: Window) returns (active: seq<Forecast>)
    ensures active == ActiveForecastsOf(fs, w)
    ensures forall f :: f in active <==> f in fs && w.start <= f.periodEnd <= w.end + HalfHour
  {
    active := [];
    var k := 0;
    while k < |fs|
      invariant k <= |fs|
      invariant active == Between(fs[..k], w.start, w.end + HalfHour, true)
    {
      var f := fs[k];
      if f.periodEnd >= w.start && f.periodEnd <= w.end + HalfHour {
        active := active + [f];
      }
      assert fs[..k + 1][..k] == fs[..k];
      k := k + 1;
    }
    assert fs[..k] == fs;
    BetweenMeaning(fs, w.start, w.end + HalfHour, true);
  }

  function Reversed(s: seq<Forecast>): (r: seq<Forecast>)
    ensures |r| == |s| && forall i :: 0 <= i < |s| ==> r[i] == s[|s| - 1 - i]
  {
    if |s| == 0 then [] else [s[|s| - 1]] + Reversed(s[..|s| - 1])
  }

  /** The time where the live estimates end and the forecasts take over: the second
      forecast's period_end when the first ends at half past, else the first's. */
  function CutIndex(active: seq<Forecast>): nat
    requires |active| > 0
  {
    if MinuteOf(active[0].periodEnd) == 30 then 1 else 0
  }

  /** _get_active_and_past_forecasts: the past estimates in the window before the cut, turned
      to forward order, then the forecasts from the cut to the extended window end. */
  function ActiveAndPastOf(active: seq<Forecast>, past: seq<Forecast>, w: Window): Result<seq<Forecast>, DataError>
  {
    if |active| == 0 then Err(IndexOutOfRange)
    else
      var index := CutIndex(active);
      if index >= |active| then Err(IndexOutOfRange)
      else
        var cut := active[index].periodEnd;
        Ok(Reversed(Between(past, w.start, cut, false)) + Between(active[index..], cut, w.end + HalfHour, true))
  }

  method GetActiveAndPastForecasts(active: seq<Forecast>, past: seq<Forecast>, w: Window)
    returns (r: Result<seq<Forecast>, DataError>)
    ensures r == ActiveAndPastOf(active, past, w)
  {
    if |active| == 0 {
      return Err(IndexOutOfRange);
    }
    var cut: int;
    var index: nat;
    if MinuteOf(active[0].periodEnd) == 30 {
      if |active| < 2 {
        return Err(IndexOutOfRange);
      }
      cut := active[1].periodEnd;
      index := 1;
    } else {
      cut := active[0].periodEnd;
      index := 0;
    }
    var forecasts: seq<Forecast> := [];
    var k := 0;
    while k < |past|
      invariant k <= |past|
      invariant forecasts == Between(past[..k], w.start, cut, false)
    {
      if past[k].periodEnd >= w.start && past[k].periodEnd < cut {
        forecasts := forecasts + [past[k]];
      }
      assert past[..k + 1][..k] == past[..k];
      k := k + 1;
    }
    assert past[..k] == past;
    forecasts := Reversed(forecasts);
    ghost var head := forecasts;
    var rest := active[index..];
    var j := 0;
    while j < |rest|
      invariant j <= |rest|
      invariant forecasts == head + Between(rest[..j], cut, w.end + HalfHour, true)
    {
      if rest[j].periodEnd >= cut && rest[j].periodEnd <= w.end + HalfHour {
        forecasts := forecasts + [rest[j]];
      }
      assert rest[..j + 1][..j] == rest[..j];
      j := j + 1;
    }
    assert rest[..j] == rest;
    r := Ok(forecasts);
  }

  predicate Chronological(s: seq<Forecast>)
  {
    forall i, j :: 0 <= i < j < |s| ==> s[i].periodEnd <= s[j].periodEnd
  }

  predicate ReverseChronological(s: seq<Forecast>)
  {
    forall i, j :: 0 <= i < j < |s| ==> s[i].periodEnd >= s[j].periodEnd
  }

  lemma {:induction false} BetweenKeepsOrder(fs: seq<Forecast>, lo: int, hi: int, closed: bool, descending: bool)
    requires if descending then ReverseChronological(fs) else Chronological(fs)
    ensures var b := Between(fs, lo, hi, closed);
      if descending then ReverseChronological(b) else Chronological(b)
    decreases |fs|
  {
    if |fs| > 0 {
      var pre := fs[..|fs| - 1];
      var f := fs[|fs| - 1];
      BetweenKeepsOrder(pre, lo, hi, closed, descending);
      BetweenMeaning(pre, lo, hi, closed);
      forall g | g in Between(pre, lo, hi, closed)
        ensures if descending then g.periodEnd >= f.periodEnd else g.periodEnd <= f.periodEnd
      {
        var i :| 0 <= i < |pre| && pre[i] == g;
        assert fs[i] == g;
      }
    }
  }

  lemma ReversedChronological(p: seq<Forecast>)
    requires ReverseChronological(p)
    ensures Chronological(Reversed(p))
    ensures forall f :: f in Reversed(p) <==> f in p
  {
    var rp := Reversed(p);
    forall f | f in rp ensures f in p {
      var i :| 0 <= i < |rp| && rp[i] == f;
      assert p[|p| - 1 - i] == f;
    }
    forall f | f in p ensures f in rp {
      var i :| 0 <= i < |p| && p[i] == f;
      assert rp[|p| - 1 - i] == f;
    }
  }

  lemma SuffixChronological(s: seq<Forecast>, index: nat)
    requires Chronological(s) && index <= |s|
    ensures Chronological(s[index..])
    ensures forall f :: f in s[index..] ==> f in s
  {
    var rest := s[index..];
    forall i, j | 0 <= i < j < |rest| ensures rest[i].periodEnd <= rest[j].periodEnd {
      assert rest[i] == s[index + i] && rest[j] == s[index + j];
    }
  }

  lemma ConcatChronological(x: seq<Forecast>, y: seq<Forecast>, cut: int)
    requires Chronological(x) && Chronological(y)
    requires forall f :: f in x ==> f.periodEnd < cut
    requires forall f :: f in y ==> cut <= f.periodEnd
    ensures Chronological(x + y)
  {
    var r := x + y;
    forall i, j | 0 <= i < j < |r| ensures r[i].periodEnd <= r[j].periodEnd {
      if j < |x| {
        assert r[i] == x[i] && r[j] == x[j];
      } else if i < |x| {
        assert r[i] in x && r[j] in y;
      } else {
        assert r[i] == y[i - |x|] && r[j] == y[j - |x|];
      }
    }
  }

  /** The estimates come newest first and the forecasts oldest first: the combined list is
      then in time order, its live part estimates from the window start to before the cut
      and its forecast part forecasts from the cut to the extended window end. */
  lemma ActiveAndPastChronological(active: seq<Forecast>, past: seq<Forecast>, w: Window)
    requires Chronological(active) && ReverseChronological(past)
    requires ActiveAndPastOf(active, past, w).Ok?
    ensures Chronological(ActiveAndPastOf(active, past, w).value)
    ensures var cut := active[CutIndex(active)].periodEnd;
      forall f :: f in ActiveAndPastOf(active, past, w).value ==>
        (f in past && w.start <= f.periodEnd < cut) || (f in active && cut <= f.periodEnd <= w.end + HalfHour)
  {
    var index := CutIndex(active);
    var cut := active[index].periodEnd;
    var p := Between(past, w.start, cut, false);
    var rest := active[index..];
    var a := Between(rest, cut, w.end + HalfHour, true);
    BetweenKeepsOrder(past, w.start, cut, false, true);
    SuffixChronological(active, index);
    BetweenKeepsOrder(rest, cut, w.end + HalfHour, true, false);
    BetweenMeaning(past, w.start, cut, false);
    BetweenMeaning(rest, cut, w.end + HalfHour, true);
    ReversedChronological(p);
    ConcatChronological(Reversed(p), a, cut);
    assert Reversed(p) + a == ActiveAndPastOf(active, past, w).value;
  }

  // ---------------------------------------------------------------------------------
  // The pairing loop of _get_solar and the summation of get_solars

  /** Each consecutive pair of forecasts becomes one hourly solar; an odd count leaves a
      single forecast at the end, which raises. */
  method PairForecasts(relevant: seq<Forecast>) returns (r: Result<seq<Solar>, DataError>)
    ensures r.Ok? <==> |relevant| % 2 == 0
    ensures r.Ok? ==> |r.value| == |relevant| / 2
    ensures r.Ok? ==> forall k :: 0 <= k < |r.value| ==>
      HourlySolar(relevant[2 * k..2 * k + 2]) == Ok(r.value[k])
  {
    var solars: seq<Solar> := [];
    var index := 0;
    while index < |relevant|
      invariant index <= |relevant| + 1 && index % 2 == 0 && |solars| * 2 == index
      invariant index <= |relevant|
      invariant forall k :: 0 <= k < |solars| ==>
        2 * k + 2 <= |relevant| && HourlySolar(relevant[2 * k..2 * k + 2]) == Ok(solars[k])
      decreases |relevant| - index
    {
      var forecasts := relevant[index..if index + 2 <= |relevant| then index + 2 else |relevant|];
      var solar := HourlySolar(forecasts);
      if solar.Err? {
        return Err(solar.error);
      }
      solars := solars + [solar.value];
      index := index + 2;
    }
    r := Ok(solars);
  }

  /** The shortest of the rooftop lists: zip stops there. */
  function MinLength(rooftops: seq<seq<Solar>>): (n: nat)
    requires |rooftops| > 0
    ensures forall i :: 0 <= i < |rooftops| ==> n <= |rooftops[i]|
    ensures exists i :: 0 <= i < |rooftops| && n == |rooftops[i]|
  {
    if |rooftops| == 1 then |rooftops[0]|
    else
      var m := MinLength(rooftops[..|rooftops| - 1]);
      assert forall i :: 0 <= i < |rooftops| - 1 ==> rooftops[..|rooftops| - 1][i] == rooftops[i];
      if |rooftops[|rooftops| - 1]| < m then |rooftops[|rooftops| - 1]| else m
  }

  /** The power of hour k summed over the rooftops, in rooftop order. */
  function PowerSum(rooftops: seq<seq<Solar>>, k: nat): real
    requires forall i :: 0 <= i < |rooftops| ==> k < |rooftops[i]|
  {
    if |rooftops| == 0 then 0.0
    else PowerSum(rooftops[..|rooftops| - 1], k) + rooftops[|rooftops| - 1][k].power
  }

  /** get_solars after the rooftops are fetched: one rooftop is returned as it is; several
      are zipped, each hour taking the first rooftop's time and the summed power; no
      rooftop at all raises. */
  function SumRooftops(rooftops: seq<seq<Solar>>): (r: Result<seq<Solar>, DataError>)
    ensures r.Ok? <==> |rooftops| > 0
    ensures |rooftops| == 1 ==> r == Ok(rooftops[0])
    ensures |rooftops| > 1 ==> |r.value| == MinLength(rooftops)
    ensures |rooftops| > 1 ==> forall k :: 0 <= k < |r.value| ==>
      r.value[k].time == rooftops[0][k].time && r.value[k].power == PowerSum(rooftops, k)
  {
    if |rooftops| == 0 then Err(IndexOutOfRange)
    else if |rooftops| == 1 then Ok(rooftops[0])
    else
      var n := MinLength(rooftops);
      Ok(seq(n, k requires 0 <= k < n => Solar(rooftops[0][k].time, PowerSum(rooftops, k))))
  }
}
