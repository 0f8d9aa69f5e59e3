/** Prices of the electricity provider (src/data/electricity/provider.py): the price of an
    hour is looked up in a table of time-of-day brackets. */
module Providers {
  import opened Wrappers
  import opened Hours

  datatype Provider = Provider(time: int, price: real)

  /** The dataclass orders and compares providers by their price alone. */
  predicate Cheaper(a: Provider, b: Provider)
  {
    a.price < b.price
  }

  predicate SamePrice(a: Provider, b: Provider)
  {
    a.price == b.price
  }

  lemma ProviderOrder(a: Provider, b: Provider, c: Provider, t: int)
    ensures !Cheaper(a, a)
    ensures Cheaper(a, b) && Cheaper(b, c) ==> Cheaper(a, c)
    ensures SamePrice(a, b) <==> !Cheaper(a, b) && !Cheaper(b, a)
    ensures SamePrice(a, a.(time := t))
    ensures Cheaper(a, b) <==> Cheaper(a.(time := t), b)
  {
  }

  /** A price table: (time of day in seconds, price) pairs in the order of the dict. */
  type PriceTable = seq<(nat, real)>

  /** The price of the first bracket, in table order, whose time of day is strictly later
      than tod; 0.0 when there is none. */
  function BracketPrice(prices: PriceTable, tod: nat): real
  {
    if |prices| == 0 then 0.0
    else if tod < prices[0].0 then prices[0].1
    else BracketPrice(prices[1..], tod)
  }

  /** The bracket lookup finds the first bracket whose time of day is later than tod. */
  lemma {:induction false} BracketPriceFound(prices: PriceTable, tod: nat, i: nat)
    requires i < |prices| && tod < prices[i].0
    requires forall j :: 0 <= j < i ==> prices[j].0 <= tod
    ensures BracketPrice(prices, tod) == prices[i].1
    decreases i
  {
    if i > 0 {
      assert prices[0].0 <= tod;
      var rest := prices[1..];
      assert rest[i - 1] == prices[i];
      forall j | 0 <= j < i - 1
        ensures rest[j].0 <= tod
      {
        assert rest[j] == prices[j + 1];
      }
      BracketPriceFound(rest, tod, i - 1);
    }
  }

  /** With no later bracket the lookup gives 0.0. */
  lemma {:induction false} BracketPriceNone(prices: PriceTable, tod: nat)
    requires forall j :: 0 <= j < |prices| ==> prices[j].0 <= tod
    ensures BracketPrice(prices, tod) == 0.0
    decreases |prices|
  {
    if |prices| > 0 {
      var rest := prices[1..];
      forall j | 0 <= j < |rest|
        ensures rest[j].0 <= tod
      {
        assert rest[j] == prices[j + 1];
      }
      BracketPriceNone(rest, tod);
    }
  }

  /** _create_hourly_provider: the time of hour count `index` of the window and the price of
      its bracket. */
  function HourlyProvider(prices: PriceTable, w: Window, index: nat): (r: Result<Provider, DataError>)
    ensures r.Ok? <==> index < 48
    ensures r.Ok? && index < 24 ==> DateOf(r.value.time) == DateOf(w.start) && HourOf(r.value.time) == index
    ensures r.Ok? && index >= 24 ==> DateOf(r.value.time) == DateOf(w.end) && HourOf(r.value.time) == index - 24
    ensures r.Ok? ==> r.value.price == BracketPrice(prices, TimeOfDay(r.value.time))
  {
    match HourlyTime(w, index)
    case Err(e) => Err(e)
    case Ok(t) => Ok(Provider(t, BracketPrice(prices, TimeOfDay(t))))
  }

  method CreateHourlyProvider(prices: PriceTable, w: Window, index: nat) returns (r: Result<Provider, DataError>)
    ensures r == HourlyProvider(prices, w, index)
  {
    var hour := index;
    var nextDay := false;
    if hour >= 24 {
      hour := hour - 24;
      nextDay := true;
    }
    var time: Result<int, DataError>;
    if nextDay {
      time := ReplaceHour(w.end, hour);
    } else {
      time := ReplaceHour(w.start, hour);
    }
    if time.Err? {
      return Err(time.error);
    }
    var tod := TimeOfDay(time.value);
    var providerPrice := 0.0;
    var k := 0;
    while k < |prices|
      invariant k <= |prices|
      invariant BracketPrice(prices[k..], tod) == BracketPrice(prices, tod)
    {
      if tod < prices[k].0 {
        providerPrice := prices[k].1;
        break;
      }
      assert prices[k..][1..] == prices[k + 1..];
      k := k + 1;
    }
    r := Ok(Provider(time.value, providerPrice));
  }

  /** get_providers: one provider per hour of the window from its start hour. */
  function ProvidersFrom(prices: PriceTable, w: Window, index: nat, count: nat): (r: Result<seq<Provider>, DataError>)
    ensures r.Ok? <==> count == 0 || index + count <= 48
    ensures r.Ok? ==> |r.value| == count
    ensures r.Ok? ==> forall k :: 0 <= k < count ==> HourlyProvider(prices, w, index + k) == Ok(r.value[k])
    decreases count
  {
    if count == 0 then Ok([])
    else match HourlyProvider(prices, w, index)
      case Err(e) => Err(e)
      case Ok(p) =>
        match ProvidersFrom(prices, w, index + 1, count - 1)
        case Err(e) => Err(e)
        case Ok(ps) => Ok([p] + ps)
  }

  function GetProviders(prices: PriceTable, w: Window): (r: Result<seq<Provider>, DataError>)
    ensures r.Ok? <==> CountsFit(w)
    ensures r.Ok? ==> |r.value| == HoursBetween(w)
    ensures r.Ok? ==> forall k :: 0 <= k < |r.value| ==>
      HourlyProvider(prices, w, FirstIndex(w) + k) == Ok(r.value[k])
  {
    ProvidersFrom(prices, w, FirstIndex(w), HoursBetween(w))
  }

  /** The price table of the provider Vindstød. */
  const Vindstod: PriceTable :=
    [(5 * 3600, 0.0), (9 * 3600, 0.36), (13 * 3600, 0.2), (22 * 3600, 0.36), (23 * 3600 + 59 * 60 + 59, 0.2)]

  /** Hour 5:00 is not before the 5:00 bracket, so it falls in the 9:00 one; 22:00 falls in
      the last bracket. */
  lemma VindstodExamples()
    ensures BracketPrice(Vindstod, 5 * 3600) == 0.36
    ensures BracketPrice(Vindstod, 22 * 3600) == 0.2
    ensures BracketPrice(Vindstod, 3600) == 0.0
  {
    assert Vindstod[1..][1..] == Vindstod[2..];
    assert Vindstod[2..][1..] == Vindstod[3..];
    assert Vindstod[3..][1..] == Vindstod[4..];
  }

  /** A flat price, a single bracket at 23:59:59: every whole hour of the window gets it. */
  lemma FlatPrice(p: real, w: Window, index: nat)
    requires index < 48
    requires w.start % SecondsPerHour == 0 && w.end % SecondsPerHour == 0
    ensures HourlyProvider([(23 * 3600 + 59 * 60 + 59, p)], w, index).Ok?
    ensures HourlyProvider([(23 * 3600 + 59 * 60 + 59, p)], w, index).value.price == p
  {
    var r := HourlyProvider([(23 * 3600 + 59 * 60 + 59, p)], w, index);
    var t := r.value.time;
    var t0 := if index >= 24 then w.end else w.start;
    assert HourlyTime(w, index) == ReplaceHour(t0, if index >= 24 then index - 24 else index);
    assert t % SecondsPerHour == 0;
    assert TimeOfDay(t) == HourOf(t) * SecondsPerHour;
  }
}
