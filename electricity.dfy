/** The price of one hour of electricity (src/data/electricity/electricity.py): a spot
    price, a grid tariff, a provider price and the flat charges, summed and taxed. */
module Electricities {
  import opened Numeric
  import opened Wrappers
  import opened Hours
  import Tariffs
  import Providers

  /** One spot price of the exchange: HourDK, PriceArea and the price; the dataclass
      compares spot prices by their price alone. */
  datatype SpotPrice = SpotPrice(time: int, priceArea: string, price: real)

  /** The government charge, the system tariff and the transmission tariff. */
  datatype FlatCharges = FlatCharges(govCharge: real, sysTariff: real, transTariff: real)

  /** The dataclass defaults of src/data/electricity/flat_charges.py. */
  const DefaultFlatCharges := FlatCharges(0.697, 0.054, 0.058)

  function Total(f: FlatCharges): real
  {
    f.govCharge + f.sysTariff + f.transTariff
  }

  /** One hour of electricity: the time and price set after construction, and the four
      parts it is made of. */
  datatype Electricity = Electricity(
    time: int,
    price: real,
    spot: SpotPrice,
    tariff: Tariffs.Tariff,
    provider: Providers.Provider,
    flat: FlatCharges)

  /** The value-added tax factor applied to the sum of the parts. */
  const VatFactor: real := 1.25

  /** _total_pricing: the sum of the parts with tax, to four decimals. */
  function TotalPricing(spot: SpotPrice, tariff: Tariffs.Tariff, provider: Providers.Provider,
                        flat: FlatCharges): (r: real)
    ensures -0.00005 < r - (spot.price + tariff.price + provider.price + Total(flat)) * VatFactor <= 0.00005
  {
    Round4((spot.price + tariff.price + provider.price + Total(flat)) * VatFactor)
  }

  /** Construction followed by __post_init__: the time is the tariff's and the price is the
      total pricing of the parts, which are kept as given. */
  function NewElectricity(spot: SpotPrice, tariff: Tariffs.Tariff, provider: Providers.Provider,
                          flat: FlatCharges): (e: Electricity)
    ensures e.time == tariff.time
    ensures e.spot == spot && e.tariff == tariff && e.provider == provider && e.flat == flat
    ensures -0.00005 < e.price - (spot.price + tariff.price + provider.price + Total(flat)) * VatFactor <= 0.00005
  {
    Electricity(tariff.time, TotalPricing(spot, tariff, provider, flat), spot, tariff, provider, flat)
  }

  /** The dataclass orders and compares by the computed price alone. */
  predicate Cheaper(a: Electricity, b: Electricity)
  {
    a.price < b.price
  }

  predicate SamePrice(a: Electricity, b: Electricity)
  {
    a.price == b.price
  }

  /** Rounding to four decimals never reverses an order. */
  lemma Round4Monotone(x: real, y: real)
    requires x <= y
    ensures Round4(x) <= Round4(y)
  {
    var a, b := x * 10000.0 + 0.5, y * 10000.0 + 0.5;
    assert a <= b;
    assert a.Floor as real <= a < b.Floor as real + 1.0;
    assert a.Floor <= b.Floor;
  }

  /** A dearer part never makes a cheaper hour: with the other parts fixed, the order of the
      spot prices, of the tariffs and of the provider prices carries over to the hours. */
  lemma DearerPartNeverCheaper(s1: SpotPrice, s2: SpotPrice, t1: Tariffs.Tariff, t2: Tariffs.Tariff,
                               p1: Providers.Provider, p2: Providers.Provider, f: FlatCharges)
    requires s1.price <= s2.price && t1.price <= t2.price && p1.price <= p2.price
    ensures !Cheaper(NewElectricity(s2, t2, p2, f), NewElectricity(s1, t1, p1, f))
  {
    Round4Monotone((s1.price + t1.price + p1.price + Total(f)) * VatFactor,
                   (s2.price + t2.price + p2.price + Total(f)) * VatFactor);
  }

  /** The test's three parts give an hour of 3.9238, and hours with the same part prices
      compare equal whatever their times. */
  lemma PricingExample(t1: int, t2: int, t3: int, t4: int)
    ensures NewElectricity(SpotPrice(t1, "DK1", 1.14), Tariffs.Tariff(t2, 0.69),
                           Providers.Provider(t3, 0.5), DefaultFlatCharges).price == 3.9238
    ensures SamePrice(NewElectricity(SpotPrice(t1, "DK1", 1.14), Tariffs.Tariff(t2, 0.69),
                                     Providers.Provider(t3, 0.5), DefaultFlatCharges),
                      NewElectricity(SpotPrice(t4, "DK2", 1.14), Tariffs.Tariff(t4, 0.69),
                                     Providers.Provider(t4, 0.5), DefaultFlatCharges))
  {
    assert Total(DefaultFlatCharges) == 0.809;
    assert (1.14 + 0.69 + 0.5 + 0.809) * VatFactor == 3.92375;
    assert 3.92375 * 10000.0 + 0.5 == 39238.0;
  }

  /** The comparison test: cheaper parts give a cheaper hour, dearer parts a dearer one. */
  lemma ComparisonExample(t: int)
    ensures var e := NewElectricity(SpotPrice(t, "DK1", 1.14), Tariffs.Tariff(t, 0.69),
                                    Providers.Provider(t, 0.5), DefaultFlatCharges);
      Cheaper(NewElectricity(SpotPrice(t, "DK1", 0.98), Tariffs.Tariff(t, 0.5),
                             Providers.Provider(t, 0.0), DefaultFlatCharges), e) &&
      Cheaper(e, NewElectricity(SpotPrice(t, "DK2", 1.20), Tariffs.Tariff(t, 1.0),
                                Providers.Provider(t, 0.85), DefaultFlatCharges))
  {
    assert Total(DefaultFlatCharges) == 0.809;
  }

  function Min3(a: nat, b: nat, c: nat): nat
  {
    if a <= b && a <= c then a else if b <= c then b else c
  }

  /** The list built in get_electricity: the three lists zipped, so as long as the shortest,
      each hour built from the parts at its position with the default flat charges. */
  function GetElectricity(spots: seq<SpotPrice>, tariffs: seq<Tariffs.Tariff>,
                          providers: seq<Providers.Provider>): (r: seq<Electricity>)
    ensures |r| == Min3(|spots|, |tariffs|, |providers|)
    ensures forall i :: 0 <= i < |r| ==>
      r[i] == NewElectricity(spots[i], tariffs[i], providers[i], DefaultFlatCharges)
  {
    if |spots| == 0 || |tariffs| == 0 || |providers| == 0 then []
    else [NewElectricity(spots[0], tariffs[0], providers[0], DefaultFlatCharges)]
         + GetElectricity(spots[1..], tariffs[1..], providers[1..])
  }

  /** With the tariffs of a window, the i-th hour of electricity falls on hour count
      FirstIndex + i of the window, wrapped onto the next day past 23. */
  lemma ElectricityFollowsTariffHours(spots: seq<SpotPrice>, active: seq<Tariffs.TariffRecord>,
                                       w: Window, providers: seq<Providers.Provider>)
    requires Tariffs.GetTariffs(active, w).Ok?
    ensures var e := GetElectricity(spots, Tariffs.GetTariffs(active, w).value, providers);
      forall i :: 0 <= i < |e| ==>
        HourOf(e[i].time) == (FirstIndex(w) + i) % 24 &&
        DateOf(e[i].time) == (if FirstIndex(w) + i < 24 then DateOf(w.start) else DateOf(w.end))
  {
    var ts := Tariffs.GetTariffs(active, w).value;
    var e := GetElectricity(spots, ts, providers);
    forall i | 0 <= i < |e|
      ensures HourOf(e[i].time) == (FirstIndex(w) + i) % 24
      ensures DateOf(e[i].time) == (if FirstIndex(w) + i < 24 then DateOf(w.start) else DateOf(w.end))
    {
      var n := FirstIndex(w) + i;
      assert i < |ts| == HoursBetween(w) && CountsFit(w);
      assert n % 24 == if n < 24 then n else n - 24;
      assert Tariffs.HourlyTariff(active, w, n) == Ok(ts[i]);
      assert e[i].time == ts[i].time;
    }
  }
}
