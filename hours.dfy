/** Times of the data classes: a datetime is a whole number of seconds on one clock, and
    its calendar date, hour and minute are read off by division, as datetime does for
    times after its epoch. */
module Hours {
  import opened Wrappers

  const SecondsPerMinute: int := 60
  const SecondsPerHour: int := 3600
  const SecondsPerDay: int := 86400

  /** The exceptions the data preparation code can raise. */
  datatype DataError =
    | HourOutOfRange      // datetime.replace(hour=h) with h > 23 raises ValueError
    | IndexOutOfRange     // a list index past the end raises IndexError
    | MissingPrice        // adding a null price to a number raises TypeError

  /** time_window: the first and the last hour of the known spot prices. */
  datatype Window = Window(start: int, end: int)

  function DateOf(t: int): int
  {
    t / SecondsPerDay
  }

  function TimeOfDay(t: int): (r: nat)
    ensures r < SecondsPerDay
  {
    t % SecondsPerDay
  }

  function HourOf(t: int): (h: nat)
    ensures h < 24
  {
    TimeOfDay(t) / SecondsPerHour
  }

  function MinuteOf(t: int): (m: nat)
    ensures m < 60
  {
    (TimeOfDay(t) % SecondsPerHour) / SecondsPerMinute
  }

  /** Euclidean division is determined by a quotient and a remainder in range. */
  lemma DivModUnique(a: int, b: int, q: int, rem: int)
    requires b > 0 && 0 <= rem < b && a == q * b + rem
    ensures a / b == q && a % b == rem
  {
    var q0, r0 := a / b, a % b;
    assert (q - q0) * b == r0 - rem;
    if q > q0 {
      MulAtLeast(q - q0, b);
    } else if q < q0 {
      MulAtLeast(q0 - q, b);
    }
  }

  lemma {:induction false} MulAtLeast(d: int, b: int)
    requires d >= 1 && b > 0
    ensures d * b >= b
    decreases d
  {
    if d > 1 {
      MulAtLeast(d - 1, b);
      assert d * b == (d - 1) * b + b;
    }
  }

  /** datetime.replace(hour=h): the same date, minute and second at hour h; an hour past 23
      raises. */
  function ReplaceHour(t: int, h: nat): (r: Result<int, DataError>)
    ensures r.Ok? <==> h < 24
    ensures r.Ok? ==> DateOf(r.value) == DateOf(t) && HourOf(r.value) == h &&
                      r.value % SecondsPerHour == t % SecondsPerHour
  {
    if h < 24 then
      var rest := t % SecondsPerHour;
      var within := h * SecondsPerHour + rest;
      var r := DateOf(t) * SecondsPerDay + within;
      DivModUnique(r, SecondsPerDay, DateOf(t), within);
      DivModUnique(within, SecondsPerHour, h, rest);
      DivModUnique(r, SecondsPerHour, DateOf(t) * 24 + h, rest);
      Ok(r)
    else
      Err(HourOutOfRange)
  }

  /** hour_diff: the whole hours between the two ends of the window, plus one. */
  function HoursBetween(w: Window): (n: nat)
    ensures n >= 1
    ensures (n - 1) * SecondsPerHour <= if w.end >= w.start then w.end - w.start else w.start - w.end
    ensures (if w.end >= w.start then w.end - w.start else w.start - w.end) < n * SecondsPerHour
  {
    (if w.end >= w.start then w.end - w.start else w.start - w.end) / SecondsPerHour + 1
  }

  /** The time of hour count `index` of the window, shared by the tariff, provider and empty
      solar lists: a count of 24 or more is that hour minus 24 on the end date, a smaller
      one the hour on the start date. */
  function HourlyTime(w: Window, index: nat): (r: Result<int, DataError>)
    ensures r.Ok? <==> index < 48
    ensures r.Ok? && index < 24 ==> DateOf(r.value) == DateOf(w.start) && HourOf(r.value) == index
    ensures r.Ok? && index >= 24 ==> DateOf(r.value) == DateOf(w.end) && HourOf(r.value) == index - 24
  {
    if index >= 24 then ReplaceHour(w.end, index - 24) else ReplaceHour(w.start, index)
  }

  /** The hour counts the lists of hourly values run through: from the start hour, one per
      hour of the window. */
  function FirstIndex(w: Window): nat
  {
    HourOf(w.start)
  }

  /** Whether every hour count of the window has a time, that is the window ends before
      hour 24 of the day after its start hour's count. */
  predicate CountsFit(w: Window)
  {
    FirstIndex(w) + HoursBetween(w) <= 48
  }
}
