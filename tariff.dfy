/** Tariffs of the local grid company (src/data/electricity/tariff.py): which records of the
    published price list are active for a window, and the hourly tariff summed over them. */
module Tariffs {
  import opened Wrappers
  import opened Hours

  /** The columns Price2 .. Price24 of a price record; each may be null. */
  type LaterPrices = s: seq<Option<real>> | |s| == 23 witness seq(23, _ => None)

  /** One record of the price list: ChargeTypeCode, ValidFrom, ValidTo (null for an
      open-ended record), Price1 and the later hourly prices; Price1 may be null too. */
  datatype TariffRecord = TariffRecord(
    code: string,
    validFrom: int,
    validTo: Option<int>,
    price1: Option<real>,
    later: LaterPrices)

  datatype Tariff = Tariff(time: int, price: real)

  /** The dataclass orders and compares tariffs by their price alone. */
  predicate Cheaper(a: Tariff, b: Tariff)
  {
    a.price < b.price
  }

  predicate SamePrice(a: Tariff, b: Tariff)
  {
    a.price == b.price
  }

  /** The order is a strict weak order whose ties are exactly the equal prices, and the
      time of a tariff never takes part in it. */
  lemma TariffOrder(a: Tariff, b: Tariff, c: Tariff, t: int)
    ensures !Cheaper(a, a)
    ensures Cheaper(a, b) && Cheaper(b, c) ==> Cheaper(a, c)
    ensures SamePrice(a, b) <==> !Cheaper(a, b) && !Cheaper(b, a)
    ensures SamePrice(a, a.(time := t))
    ensures Cheaper(a, b) <==> Cheaper(a.(time := t), b)
  {
  }

  // ---------------------------------------------------------------------------------
  // _create_hourly_tariff and the hour loop of get_tariffs

  /** The price a record contributes at hour h (0..23): its Price{h+1}, or its Price1 when
      that column is null; None when the column read is null. */
  function RecordPrice(r: TariffRecord, h: nat): Option<real>
    requires h < 24
  {
    if h > 0 && r.later[h - 1].Some? then r.later[h - 1] else r.price1
  }

  /** The sum of the records' prices at hour h, in record order; None when a record has no
      price to add at that hour. */
  function PriceSum(records: seq<TariffRecord>, h: nat): (r: Option<real>)
    requires h < 24
    ensures r.Some? <==> forall k :: 0 <= k < |records| ==> RecordPrice(records[k], h).Some?
  {
    if |records| == 0 then Some(0.0)
    else
      match PriceSum(records[..|records| - 1], h)
      case None => None
      case Some(p) =>
        match RecordPrice(records[|records| - 1], h)
        case None => None
        case Some(x) => Some(p + x)
  }

  /** The hour of the day that hour count `index` of the window falls on. */
  function DayHour(index: nat): nat
  {
    if index >= 24 then index - 24 else index
  }

  /** _create_hourly_tariff: the tariff of hour count `index` of the window; a count past
      the next day raises ValueError, a record without a price for the hour TypeError. */
  function HourlyTariff(active: seq<TariffRecord>, w: Window, index: nat): (r: Result<Tariff, DataError>)
    ensures r.Ok? <==> index < 48 && PriceSum(active, DayHour(index)).Some?
    ensures r.Err? ==> r.error == (if index < 48 then MissingPrice else HourOutOfRange)
    ensures r.Ok? && index < 24 ==>
      DateOf(r.value.time) == DateOf(w.start) && HourOf(r.value.time) == index &&
      Some(r.value.price) == PriceSum(active, index)
    ensures r.Ok? && index >= 24 ==>
      DateOf(r.value.time) == DateOf(w.end) && HourOf(r.value.time) == index - 24 &&
      Some(r.value.price) == PriceSum(active, index - 24)
  {
    match HourlyTime(w, index)
    case Err(e) => Err(e)
    case Ok(t) =>
      match PriceSum(active, DayHour(index))
      case None => Err(MissingPrice)
      case Some(p) => Ok(Tariff(t, p))
  }

  method CreateHourlyTariff(active: seq<TariffRecord>, w: Window, index: nat) returns (r: Result<Tariff, DataError>)
    ensures r == HourlyTariff(active, w, index)
  {
    var hour := index;
    var nextDay := false;
    if hour >= 24 {
      hour := hour - 24;
      nextDay := true;
    }
    var time: Result<int, DataError>;
    if nextDay {
      time := ReplaceHour(w.end, hour);
    } else {
      time := ReplaceHour(w.start, hour);
    }
    if time.Err? {
      return Err(time.error);
    }
    var price := 0.0;
    var k := 0;
    while k < |active|
      invariant k <= |active|
      invariant PriceSum(active[..k], hour) == Some(price)
    {
      var record := active[k];
      assert active[..k + 1][..k] == active[..k];
      if hour > 0 && record.later[hour - 1].Some? {
        price := price + record.later[hour - 1].value;
      } else if record.price1.Some? {
        price := price + record.price1.value;
      } else {
        assert PriceSum(active[..k + 1], hour).None?;
        PriceSumPrefix(active, k + 1, hour);
        return Err(MissingPrice);
      }
      k := k + 1;
    }
    assert active[..k] == active;
    r := Ok(Tariff(time.value, price));
  }

  /** A record without a price in a prefix leaves the whole list without a sum. */
  lemma PriceSumPrefix(records: seq<TariffRecord>, n: nat, h: nat)
    requires n <= |records| && h < 24 && PriceSum(records[..n], h).None?
    ensures PriceSum(records, h).None?
  {
    var k :| 0 <= k < n && RecordPrice(records[..n][k], h).None?;
    assert records[..n][k] == records[k];
  }

  /** The tariffs of `count` consecutive hour counts from `index`, as the list comprehension
      of get_tariffs builds them; the first hour count that raises ends the list with its
      error. */
  function TariffsFrom(active: seq<TariffRecord>, w: Window, index: nat, count: nat): (r: Result<seq<Tariff>, DataError>)
    ensures r.Ok? <==> forall j :: index <= j < index + count ==> HourlyTariff(active, w, j).Ok?
    ensures r.Ok? ==> |r.value| == count
    ensures r.Ok? ==> forall k :: 0 <= k < count ==> HourlyTariff(active, w, index + k) == Ok(r.value[k])
    decreases count
  {
    if count == 0 then Ok([])
    else match HourlyTariff(active, w, index)
      case Err(e) => Err(e)
      case Ok(t) =>
        match TariffsFrom(active, w, index + 1, count - 1)
        case Err(e) => Err(e)
        case Ok(ts) => Ok([t] + ts)
  }

  /** Every record carries a Price1, so every hour has a price to add. */
  predicate HasPrice1(records: seq<TariffRecord>)
  {
    forall k :: 0 <= k < |records| ==> records[k].price1.Some?
  }

  /** With a Price1 in every record, every hour has a price sum. */
  lemma Price1Suffices(records: seq<TariffRecord>)
    ensures HasPrice1(records) ==> forall h :: h < 24 ==> PriceSum(records, h).Some?
  {
    if HasPrice1(records) {
      forall h | h < 24
        ensures PriceSum(records, h).Some?
      {
        assert forall k :: 0 <= k < |records| ==> RecordPrice(records[k], h).Some?;
      }
    }
  }

  /** The hour loop of get_tariffs: one tariff per hour of the window from its start hour.
      A window that reaches past hour 23 of the day after its start fails, and so does one
      with an hour that some record has no price for; with a Price1 in every record, only
      the first can happen. */
  function GetTariffs(active: seq<TariffRecord>, w: Window): (r: Result<seq<Tariff>, DataError>)
    ensures r.Ok? ==> CountsFit(w)
    ensures HasPrice1(active) ==> (r.Ok? <==> CountsFit(w))
    ensures r.Ok? ==> |r.value| == HoursBetween(w)
    ensures r.Ok? ==> forall k :: 0 <= k < |r.value| ==>
      HourlyTariff(active, w, FirstIndex(w) + k) == Ok(r.value[k])
  {
    var r := TariffsFrom(active, w, FirstIndex(w), HoursBetween(w));
    Price1Suffices(active);
    assert !HourlyTariff(active, w, 48).Ok?;
    r
  }

  /** Summing over a list of records is summing over its parts. */
  lemma {:induction false} PriceSumSplit(a: seq<TariffRecord>, b: seq<TariffRecord>, h: nat)
    requires h < 24 && PriceSum(a, h).Some? && PriceSum(b, h).Some?
    ensures PriceSum(a + b, h) == Some(PriceSum(a, h).value + PriceSum(b, h).value)
    decreases |b|
  {
    if |b| == 0 {
      assert a + b == a;
    } else {
      var b' := b[..|b| - 1];
      assert (a + b)[..|a + b| - 1] == a + b';
      assert (a + b)[|a + b| - 1] == b[|b| - 1];
      assert PriceSum(b', h).Some? by {
        assert forall k :: 0 <= k < |b'| ==> b'[k] == b[k];
      }
      PriceSumSplit(a, b', h);
    }
  }

  predicate FlatRecord(r: TariffRecord)
  {
    forall j :: 0 <= j < 23 ==> r.later[j].None?
  }

  /** Records that only carry Price1 give every hour the same tariff, the sum of their
      Price1 columns, or none at all. */
  lemma {:induction false} FlatRecordsFlatTariff(records: seq<TariffRecord>, h: nat)
    requires h < 24
    requires forall k :: 0 <= k < |records| ==> FlatRecord(records[k])
    ensures PriceSum(records, h) == PriceSum(records, 0)
    decreases |records|
  {
    if |records| > 0 {
      FlatRecordsFlatTariff(records[..|records| - 1], h);
    }
  }

  /** A record with neither the hour's price nor a Price1 makes that hour's tariff raise
      TypeError. */
  lemma MissingPriceRaises(active: seq<TariffRecord>, w: Window, index: nat, k: nat)
    requires index < 48 && k < |active|
    requires active[k].price1.None? && (DayHour(index) == 0 || active[k].later[DayHour(index) - 1].None?)
    ensures HourlyTariff(active, w, index) == Err(MissingPrice)
  {
    assert RecordPrice(active[k], DayHour(index)).None?;
  }

  /** Two open Price1-only records of 0.0114 and 0.2709 give 0.2823 at every hour count of
      the two days. */
  lemma FlatPairExample(w: Window, index: nat, code1: string, code2: string, from1: int, from2: int)
    requires index < 48
    ensures var active := [TariffRecord(code1, from1, Some(from1), Some(0.0114), seq(23, _ => None)),
                           TariffRecord(code2, from2, None, Some(0.2709), seq(23, _ => None))];
      HourlyTariff(active, w, index).Ok? && HourlyTariff(active, w, index).value.price == 0.2823
  {
    var active := [TariffRecord(code1, from1, Some(from1), Some(0.0114), seq(23, _ => None)),
                   TariffRecord(code2, from2, None, Some(0.2709), seq(23, _ => None))];
    var h := DayHour(index);
    FlatRecordsFlatTariff(active, h);
    assert active[..1][..0] == [];
    assert active[..|active| - 1] == active[..1];
    assert PriceSum(active[..1], 0) == Some(0.0114);
    assert PriceSum(active, 0) == Some(0.0114 + 0.2709);
  }

  // ---------------------------------------------------------------------------------
  // _get_active_records

  /** The state of the record scan: active_records, latest_active_record_with_no_expiration
      (None for the empty dict), current_diff_in_dates, first_record_with_no_expiration. */
  datatype Scan = Scan(active: seq<TariffRecord>, latest: Option<TariffRecord>, currentDiff: int, first: bool)

  /** A record that covers the whole window: valid from the start date or before, and to
      the end date or after. */
  predicate Covers(r: TariffRecord, w: Window)
  {
    r.validTo.Some? && DateOf(r.validFrom) <= DateOf(w.start) && DateOf(r.validTo.value) >= DateOf(w.end)
  }

  predicate StartsAtEnd(r: TariffRecord, w: Window)
  {
    DateOf(r.validFrom) == DateOf(w.end)
  }

  /** The distance in days between a record's ValidFrom date and the start date. */
  function DateDistance(r: TariffRecord, w: Window): nat
  {
    var d := DateOf(w.start) - DateOf(r.validFrom);
    if d < 0 then -d else d
  }

  /** An open-ended record that can take part in the choice. */
  predicate OpenQualifies(r: TariffRecord, w: Window)
  {
    r.validTo.None? && DateOf(r.validFrom) <= DateOf(w.end)
  }

  function ScanStep(s: Scan, r: TariffRecord, w: Window): Scan
  {
    if r.validTo.Some? then
      if StartsAtEnd(r, w) then s.(active := s.active + [r])
      else if Covers(r, w) then
        if |s.active| > 0 then
          var last := s.active[|s.active| - 1];
          if r.code != last.code then s.(active := s.active + [r])
          else if DateOf(r.validFrom) > DateOf(last.validFrom) then
            s.(active := s.active[..|s.active| - 1] + [r])
          else s
        else s.(active := s.active + [r])
      else s
    else if DateOf(r.validFrom) <= DateOf(w.end) then
      var diff := DateDistance(r, w);
      var s1 := if s.first then s.(currentDiff := diff, first := false, latest := Some(r)) else s;
      if diff < s1.currentDiff then s1.(latest := Some(r)) else s1
    else s
  }

  function ScanOf(records: seq<TariffRecord>, w: Window): Scan
  {
    if |records| == 0 then Scan([], None, 0, true)
    else ScanStep(ScanOf(records[..|records| - 1], w), records[|records| - 1], w)
  }

  /** The records _get_active_records returns: the kept closed records, then the chosen
      open-ended one if there is one. */
  function ActiveRecordsOf(records: seq<TariffRecord>, w: Window): seq<TariffRecord>
  {
    var s := ScanOf(records, w);
    s.active + (if s.latest.Some? then [s.latest.value] else [])
  }

  method GetActiveRecords(records: seq<TariffRecord>, w: Window) returns (activeRecords: seq<TariffRecord>)
    ensures activeRecords == ActiveRecordsOf(records, w)
  {
    activeRecords := [];
    var latest: Option<TariffRecord> := None;
    var currentDiff := 0;
    var first := true;
    var k := 0;
    while k < |records|
      invariant k <= |records|
      invariant Scan(activeRecords, latest, currentDiff, first) == ScanOf(records[..k], w)
    {
      var record := records[k];
      var fromDate := DateOf(record.validFrom);
      if record.validTo.Some? {
        var toDate := DateOf(record.validTo.value);
        if fromDate == DateOf(w.end) {
          activeRecords := activeRecords + [record];
        } else if fromDate <= DateOf(w.start) && toDate >= DateOf(w.end) {
          if |activeRecords| > 0 {
            if record.code != activeRecords[|activeRecords| - 1].code {
              activeRecords := activeRecords + [record];
            } else if fromDate > DateOf(activeRecords[|activeRecords| - 1].validFrom) {
              activeRecords := activeRecords[..|activeRecords| - 1];
              activeRecords := activeRecords + [record];
            }
          } else {
            activeRecords := activeRecords + [record];
          }
        }
      } else if fromDate <= DateOf(w.end) {
        var diff := DateDistance(record, w);
        if first {
          currentDiff := diff;
          first := false;
          latest := Some(record);
        }
        if diff < currentDiff {
          latest := Some(record);
        }
      }
      assert records[..k + 1][..k] == records[..k];
      k := k + 1;
    }
    assert records[..k] == records;
    if latest.Some? {
      activeRecords := activeRecords + [latest.value];
    }
  }

  /** The open-ended records that qualify, in list order. */
  function OpenCandidates(records: seq<TariffRecord>, w: Window): seq<TariffRecord>
  {
    if |records| == 0 then []
    else OpenCandidates(records[..|records| - 1], w) +
         (if OpenQualifies(records[|records| - 1], w) then [records[|records| - 1]] else [])
  }

  /** The candidates strictly closer to the start date than distance d. */
  function CloserThan(cands: seq<TariffRecord>, d: nat, w: Window): seq<TariffRecord>
  {
    if |cands| == 0 then []
    else CloserThan(cands[..|cands| - 1], d, w) +
         (if DateDistance(cands[|cands| - 1], w) < d then [cands[|cands| - 1]] else [])
  }

  /** The open-ended record the scan settles on, defined directly: the last qualifying one
      strictly closer to the start date than the first qualifying one, else that first one. */
  function OpenChoice(records: seq<TariffRecord>, w: Window): Option<TariffRecord>
  {
    var q := OpenCandidates(records, w);
    if |q| == 0 then None
    else
      var closer := CloserThan(q, DateDistance(q[0], w), w);
      if |closer| == 0 then Some(q[0]) else Some(closer[|closer| - 1])
  }

  /** How one step moves the open-ended choice. */
  lemma ScanStepOpen(s: Scan, r: TariffRecord, w: Window)
    ensures var t := ScanStep(s, r, w);
      if !OpenQualifies(r, w) then
        t.latest == s.latest && t.first == s.first && t.currentDiff == s.currentDiff
      else if s.first then
        t.latest == Some(r) && !t.first && t.currentDiff == DateDistance(r, w)
      else
        !t.first && t.currentDiff == s.currentDiff &&
        t.latest == (if DateDistance(r, w) < s.currentDiff then Some(r) else s.latest)
  {
  }

  lemma {:induction false} ScanChoosesOpen(records: seq<TariffRecord>, w: Window)
    ensures var s := ScanOf(records, w);
      var q := OpenCandidates(records, w);
      s.latest == OpenChoice(records, w) &&
      (s.first <==> |q| == 0) &&
      (|q| > 0 ==> s.currentDiff == DateDistance(q[0], w))
    decreases |records|
  {
    if |records| > 0 {
      var pre := records[..|records| - 1];
      var r := records[|records| - 1];
      ScanChoosesOpen(pre, w);
      var sp := ScanOf(pre, w);
      assert ScanOf(records, w) == ScanStep(sp, r, w);
      ScanStepOpen(sp, r, w);
      var qp := OpenCandidates(pre, w);
      var q := OpenCandidates(records, w);
      if OpenQualifies(r, w) {
        assert q == qp + [r];
        assert q[..|q| - 1] == qp;
        if |qp| > 0 {
          assert q[0] == qp[0];
          var d := DateDistance(qp[0], w);
          assert CloserThan(q, d, w) ==
            CloserThan(qp, d, w) + (if DateDistance(r, w) < d then [r] else []);
        } else {
          assert q == [r];
          assert CloserThan(q, DateDistance(r, w), w) == CloserThan([], DateDistance(r, w), w);
        }
      } else {
        assert q == qp;
      }
    }
  }

  /** At most one open-ended record is returned, last, and it is the direct choice. */
  lemma ActiveRecordsShape(records: seq<TariffRecord>, w: Window)
    ensures var s := ScanOf(records, w);
      ActiveRecordsOf(records, w) ==
        s.active + (match OpenChoice(records, w) case None => [] case Some(r) => [r])
    ensures forall r :: r in ScanOf(records, w).active ==> r.validTo.Some?
  {
    ScanChoosesOpen(records, w);
    ScanKeepsClosed(records, w);
  }

  /** Every closed record kept starts on the end date or covers the window. */
  lemma {:induction false} ScanKeepsClosed(records: seq<TariffRecord>, w: Window)
    ensures forall r :: r in ScanOf(records, w).active ==>
      r.validTo.Some? && (StartsAtEnd(r, w) || Covers(r, w))
    decreases |records|
  {
    if |records| > 0 {
      var pre := records[..|records| - 1];
      ScanKeepsClosed(pre, w);
      var a := ScanOf(pre, w).active;
      if |a| > 0 {
        assert forall r :: r in a[..|a| - 1] ==> r in a;
      }
    }
  }

  /** With the window's start date not after its end date, a closed record that starts on
      the end date is never dropped: a replacement only removes a record that starts
      before the start date. */
  lemma {:induction false} ScanKeepsEndDateRecords(records: seq<TariffRecord>, w: Window)
    requires DateOf(w.start) <= DateOf(w.end)
    ensures forall r :: r in records && r.validTo.Some? && StartsAtEnd(r, w) ==>
      r in ScanOf(records, w).active
    decreases |records|
  {
    if |records| > 0 {
      var pre := records[..|records| - 1];
      var x := records[|records| - 1];
      ScanKeepsEndDateRecords(pre, w);
      ScanKeepsClosed(pre, w);
      var a := ScanOf(pre, w).active;
      forall r | r in records && r.validTo.Some? && StartsAtEnd(r, w)
        ensures r in ScanOf(records, w).active
      {
        if r != x {
          assert r in pre;
          assert r in a;
          if |a| > 0 && ScanOf(records, w).active == a[..|a| - 1] + [x] {
            var last := a[|a| - 1];
            assert last != r;
            var i :| 0 <= i < |a| && a[i] == r;
            assert i < |a| - 1;
            assert r in a[..|a| - 1];
          }
        }
      }
    }
  }

  /** A step drops the last kept record only for a covering record of the same
      ChargeTypeCode with a strictly later ValidFrom date, which takes its place; a closed
      record is passed over only when it neither starts on the end date nor covers the
      window, or when the last kept record has its code and is not older. */
  lemma ScanStepReplacesOnlyOlder(s: Scan, r: TariffRecord, w: Window)
    requires r.validTo.Some?
    ensures var t := ScanStep(s, r, w);
      t.latest == s.latest && t.first == s.first && t.currentDiff == s.currentDiff &&
      (!(s.active <= t.active) ==>
        |s.active| > 0 && t.active == s.active[..|s.active| - 1] + [r] && Covers(r, w) &&
        s.active[|s.active| - 1].code == r.code &&
        DateOf(s.active[|s.active| - 1].validFrom) < DateOf(r.validFrom)) &&
      (s.active <= t.active ==> t.active == s.active || t.active == s.active + [r]) &&
      (t.active == s.active ==>
        !StartsAtEnd(r, w) &&
        (Covers(r, w) ==> |s.active| > 0 && s.active[|s.active| - 1].code == r.code &&
                          DateOf(s.active[|s.active| - 1].validFrom) >= DateOf(r.validFrom)))
  {
    var t := ScanStep(s, r, w);
    if |s.active| > 0 && t.active == s.active[..|s.active| - 1] + [r] && s.active <= t.active {
      assert s.active[|s.active| - 1] == r;
    }
  }

  /** A closed or open-ended record with no hourly prices past Price1, dated in whole days. */
  function DayRecord(code: string, fromDay: int, toDay: Option<int>): TariffRecord
  {
    TariffRecord(code, fromDay * SecondsPerDay,
                 match toDay case None => None case Some(d) => Some(d * SecondsPerDay),
                 Some(0.0), seq(23, _ => None))
  }

  /** The window of the record test: 00:00 of day 19645 to 23:00 of the day after. */
  const ExampleWindow: Window := Window(19645 * SecondsPerDay, 19646 * SecondsPerDay + 23 * SecondsPerHour)

  /** The nine records of the record test, Tariff1 to Tariff9 in order, with today as day
      19645. */
  const ExampleRecords: seq<TariffRecord> := [
    DayRecord("Tariff1", 19539, Some(19647)), DayRecord("Tariff2", 19643, Some(19643)),
    DayRecord("Tariff3", 19601, None), DayRecord("Tariff4", 19643, Some(19647)),
    DayRecord("Tariff5", 19266, None), DayRecord("Tariff6", 19644, Some(19645)),
    DayRecord("Tariff7", 19643, None), DayRecord("Tariff8", 19601, Some(19610)),
    TariffRecord("Tariff9", 19646 * SecondsPerDay + 23 * SecondsPerHour,
                 Some(19647 * SecondsPerDay + 23 * SecondsPerHour), Some(0.0), seq(23, _ => None))]

  /** The scan after the first four records: Tariff1 and Tariff4 kept, Tariff3 the open-ended
      candidate so far. */
  lemma ExampleScanFirstHalf()
    ensures ScanOf(ExampleRecords[..4], ExampleWindow)
         == Scan([ExampleRecords[0], ExampleRecords[3]], Some(ExampleRecords[2]), 44, false)
  {
    var w, rs := ExampleWindow, ExampleRecords;
    assert DateOf(w.start) == 19645 && DateOf(w.end) == 19646;
    assert "Tariff4" != "Tariff1";
    var s0 := Scan([], None, 0, true);
    assert rs[..1][..0] == [];
    var s1 := ScanStep(s0, rs[0], w);
    assert s1 == Scan([rs[0]], None, 0, true);
    assert ScanOf(rs[..1], w) == s1;
    assert rs[..2][..1] == rs[..1];
    var s2 := ScanStep(s1, rs[1], w);
    assert s2 == s1;
    assert ScanOf(rs[..2], w) == s2;
    assert rs[..3][..2] == rs[..2];
    var s3 := ScanStep(s2, rs[2], w);
    assert s3 == Scan([rs[0]], Some(rs[2]), 44, false);
    assert ScanOf(rs[..3], w) == s3;
    assert rs[..4][..3] == rs[..3];
  }

  /** Of the nine records, the two covering ones of different codes, the one starting on the
      end date and the open-ended one closest to today are returned: Tariff1, Tariff4,
      Tariff9, Tariff7, in that order. */
  lemma ActiveRecordsExample()
    ensures var rs := ExampleRecords;
      ActiveRecordsOf(rs, ExampleWindow) == [rs[0], rs[3], rs[8], rs[6]]
  {
    var w, rs := ExampleWindow, ExampleRecords;
    assert DateOf(w.start) == 19645 && DateOf(w.end) == 19646;
    assert DateOf(rs[8].validFrom) == 19646;
    ExampleScanFirstHalf();
    var s4 := Scan([rs[0], rs[3]], Some(rs[2]), 44, false);
    assert rs[..5][..4] == rs[..4];
    var s5 := ScanStep(s4, rs[4], w);
    assert s5 == s4;
    assert ScanOf(rs[..5], w) == s5;
    assert rs[..6][..5] == rs[..5];
    var s6 := ScanStep(s5, rs[5], w);
    assert s6 == s5;
    assert ScanOf(rs[..6], w) == s6;
    assert rs[..7][..6] == rs[..6];
    var s7 := ScanStep(s6, rs[6], w);
    assert s7 == Scan([rs[0], rs[3]], Some(rs[6]), 44, false);
    assert ScanOf(rs[..7], w) == s7;
    assert rs[..8][..7] == rs[..7];
    var s8 := ScanStep(s7, rs[7], w);
    assert s8 == s7;
    assert ScanOf(rs[..8], w) == s8;
    assert rs[..9][..8] == rs[..8];
    var s9 := ScanStep(s8, rs[8], w);
    assert s9 == Scan([rs[0], rs[3], rs[8]], Some(rs[6]), 44, false);
    assert rs[..9] == rs;
    assert ScanOf(rs, w) == s9;
  }
}
