/** The computing examples of lib/pricing-examples.tsx: the price of a
    multi-hour reservation (example 5) and the surcharge-hour detector
    (example 8). */
module PricingExamples {
  import opened Wrappers
  import opened Text
  import opened Pricing

  datatype BreakdownItem = BreakdownItem(hour: int, price: int)

  /** The result of example 5, without its formatted total. */
  datatype BookingQuote = BookingQuote(hourlyPrice: int, totalPrice: int, breakdown: seq<BreakdownItem>)

  /** Sum of the prices of a breakdown. */
  function SumPrices(items: seq<BreakdownItem>): int {
    if items == [] then 0 else SumPrices(items[..|items| - 1]) + items[|items| - 1].price
  }

  /** The final prices of `count` consecutive hours from `hour`, added up. */
  function HoursTotal(fieldType: string, hour: int, count: nat): int {
    if count == 0 then 0 else HoursTotal(fieldType, hour, count - 1) + GetFinalPrice(fieldType, hour + count - 1)
  }

  /** `ejemplo5_calculateBookingPrice`. Reading `breakdown[0]` of an empty
      breakdown throws, so a duration below one yields no quote. */
  method CalculateBookingPrice(fieldType: string, hour: int, duration: int) returns (q: Option<BookingQuote>)
    ensures q.None? <==> duration < 1
    ensures q.Some? ==>
      && |q.value.breakdown| == duration
      && (forall i :: 0 <= i < duration ==>
            q.value.breakdown[i] == BreakdownItem(hour + i, GetFinalPrice(fieldType, hour + i)))
      && q.value.totalPrice == SumPrices(q.value.breakdown)
      && q.value.totalPrice == HoursTotal(fieldType, hour, duration)
      && q.value.hourlyPrice == q.value.breakdown[0].price
  {
    var breakdown: seq<BreakdownItem> := [];
    var totalPrice := 0;
    var i := 0;
    while i < duration
      invariant 0 <= i <= (if duration < 0 then 0 else duration)
      invariant |breakdown| == i
      invariant forall k :: 0 <= k < i ==> breakdown[k] == BreakdownItem(hour + k, GetFinalPrice(fieldType, hour + k))
      invariant totalPrice == SumPrices(breakdown) == HoursTotal(fieldType, hour, i)
    {
      var h := hour + i;
      var hourlyPrice := GetFinalPrice(fieldType, h);
      assert (breakdown + [BreakdownItem(h, hourlyPrice)])[..|breakdown|] == breakdown;
      breakdown := breakdown + [BreakdownItem(h, hourlyPrice)];
      totalPrice := totalPrice + hourlyPrice;
      i := i + 1;
    }
    if |breakdown| == 0 {
      q := None;
    } else {
      q := Some(BookingQuote(breakdown[0].price, totalPrice, breakdown));
    }
  }

  /** Hours all before 17:00 cost the base price each; hours all from 17:00
      on cost the surcharged price each. */
  lemma {:induction false} HoursTotalUniform(fieldType: string, hour: int, count: nat)
    ensures hour + count <= SurchargeStartHour ==> HoursTotal(fieldType, hour, count) == count * GetBasePrice(fieldType)
    ensures hour >= SurchargeStartHour ==>
      HoursTotal(fieldType, hour, count) == count * GetFinalPrice(fieldType, SurchargeStartHour)
  {
    if count > 0 {
      HoursTotalUniform(fieldType, hour, count - 1);
    }
  }

  /** The worked example: futbol-6 from 17:00 for two hours totals 204000. */
  lemma {:induction false} Example5Total()
    ensures HoursTotal("futbol-6", 17, 2) == 204000
  {
    HoursTotalUniform("futbol-6", 17, 2);
  }

  /** Example 3: the padel table from 08:00 to 21:00, one row per hour,
      at the base price until the 17:00 row and surcharged from it on. */
  method PadelPriceRange() returns (prices: seq<PriceEntry>)
    ensures |prices| == 13
    ensures forall i :: 0 <= i < 13 ==> prices[i].hour == 8 + i
    ensures forall i :: 0 <= i < 13 ==> (prices[i].hasSurcharge <==> i >= 9)
    ensures forall i :: 0 <= i < 9 ==> prices[i].finalPrice == 120000
    ensures forall i :: 9 <= i < 13 ==> prices[i].finalPrice == 122400
  {
    prices := GetPriceRange("padel", 8, 21);
    assert GetBasePrice("padel") == 120000;
  }

  datatype SurchargeInfo = SurchargeInfo(hasSurcharge: bool, labelText: string, percentage: int)

  /** `ejemplo8_detectSurchargeHour`. */
  function DetectSurchargeHour(hour: int): (info: SurchargeInfo)
    ensures info.hasSurcharge <==> hour >= SurchargeStartHour
    ensures info.percentage == if info.hasSurcharge then SurchargePercentage else 0
    ensures info.labelText == if info.hasSurcharge then "Horario con Recargo" else "Horario Normal"
  {
    var hasSurcharge := hour >= 17;
    SurchargeInfo(hasSurcharge, if hasSurcharge then "Horario con Recargo" else "Horario Normal",
                  if hasSurcharge then 2 else 0)
  }

  /** The results written next to example 8. */
  lemma DetectSurchargeExamples()
    ensures DetectSurchargeHour(14) == SurchargeInfo(false, "Horario Normal", 0)
    ensures DetectSurchargeHour(18) == SurchargeInfo(true, "Horario con Recargo", 2)
  {
  }

  /** The detector agrees with the pricing rule: for every real base price
      (at least 25, so the 2% survives rounding) the price is raised exactly
      in the hours the detector flags. */
  lemma DetectorAgreesWithPricing(basePrice: int, hour: int)
    requires basePrice >= 25
    ensures DetectSurchargeHour(hour).hasSurcharge <==> CalculatePrice(basePrice, hour) > basePrice
  {
    SurchargeRaisesPrice(basePrice, hour);
  }
}
