/** Hour-based pricing of fields (lib/pricing.ts): a base price per field
    type and a flat 2% surcharge from 17:00, rounded to the nearest unit. */
module Pricing {
  import opened Text

  /** `FIELD_BASE_PRICES`, in Colombian pesos. */
  const FieldBasePrices: map<string, int> := map["futbol-6" := 100000, "padel" := 120000]
  const SurchargeStartHour: int := 17
  const SurchargePercentage: int := 2

  /** `Math.round(n / d)` for `d > 0`: the nearest integer, halves rounded up. */
  function RoundDiv(n: int, d: int): (r: int)
    requires d > 0
    ensures 2 * d * r - d <= 2 * n < 2 * d * r + d
  {
    (2 * n + d) / (2 * d)
  }

  /** `calculatePrice`: the base price, or the base price with the surcharge
      from 17:00 on, rounded. */
  function CalculatePrice(basePrice: int, hour: int): (p: int)
    ensures hour < SurchargeStartHour ==> p == basePrice
    ensures hour >= SurchargeStartHour ==> 100 * p - 50 <= 102 * basePrice < 100 * p + 50
  {
    if hour >= SurchargeStartHour then RoundDiv(basePrice * (100 + SurchargePercentage), 100)
    else basePrice
  }

  /** The surcharge never lowers a non-negative price. */
  lemma SurchargeNeverLowers(basePrice: int, hour: int)
    requires basePrice >= 0
    ensures CalculatePrice(basePrice, hour) >= basePrice
  {
  }

  /** A non-negative price strictly grows exactly from 17:00 on and only when it
      is at least 25: for smaller prices 2% rounds away to nothing. */
  lemma SurchargeRaisesPrice(basePrice: int, hour: int)
    requires basePrice >= 0
    ensures CalculatePrice(basePrice, hour) > basePrice <==> hour >= SurchargeStartHour && basePrice >= 25
  {
    var p := CalculatePrice(basePrice, hour);
    if hour >= SurchargeStartHour {
      if basePrice >= 25 {
        assert 100 * p + 50 > 102 * basePrice >= 100 * basePrice + 50;
      } else {
        assert 100 * p - 50 <= 102 * basePrice < 100 * basePrice + 50;
      }
    }
  }

  /** `getBasePrice`: the table entry, falling back to the futbol-6 price. */
  function GetBasePrice(fieldType: string): (p: int)
    ensures fieldType == "padel" ==> p == 120000
    ensures fieldType != "padel" ==> p == 100000
  {
    var price := if fieldType in FieldBasePrices then FieldBasePrices[fieldType] else 0;
    if price != 0 then price else FieldBasePrices["futbol-6"]
  }

  /** `getFinalPrice`: the base price of the type, surcharged by the hour. */
  function GetFinalPrice(fieldType: string, hour: int): (p: int)
    ensures hour < SurchargeStartHour ==> p == GetBasePrice(fieldType)
    ensures hour >= SurchargeStartHour ==> p == if fieldType == "padel" then 122400 else 102000
  {
    CalculatePrice(GetBasePrice(fieldType), hour)
  }

  /** The values written next to the first pricing example. */
  lemma FinalPriceExamples()
    ensures GetFinalPrice("futbol-6", 10) == 100000
    ensures GetFinalPrice("padel", 18) == 122400
    ensures GetFinalPrice("futbol-6", 17) == 102000
    ensures CalculatePrice(100000, 17) == 102000 && CalculatePrice(120000, 17) == 122400
  {
  }

  /** One row of `getPriceRange`. */
  datatype PriceEntry = PriceEntry(
    hour: int,
    displayHour: string,
    basePrice: int,
    finalPrice: int,
    hasSurcharge: bool,
    surchargeAmount: int)

  /** `${hour.toString().padStart(2, "0")}:00` */
  function DisplayHour(hour: int): string {
    PadStart(IntToString(hour), 2, '0') + ":00"
  }

  /** An hour of the day is shown as two digits, a colon and "00". */
  lemma DisplayHourFormat(hour: int)
    requires 0 <= hour < 100
    ensures DisplayHour(hour) == [DigitChar(hour / 10), DigitChar(hour % 10), ':', '0', '0']
  {
    TwoDigits(hour);
  }

  /** The row of `hour` for a field of base price `basePrice`. */
  predicate IsEntryFor(e: PriceEntry, basePrice: int, hour: int) {
    && e.hour == hour
    && e.displayHour == DisplayHour(hour)
    && e.basePrice == basePrice
    && e.finalPrice == CalculatePrice(basePrice, hour)
    && (e.hasSurcharge <==> hour >= SurchargeStartHour)
    && e.surchargeAmount == (if e.hasSurcharge then e.finalPrice - e.basePrice else 0)
  }

  /** The row the loop of `getPriceRange` builds for `hour`. */
  function EntryAt(basePrice: int, hour: int): (e: PriceEntry)
    ensures IsEntryFor(e, basePrice, hour)
    ensures e.finalPrice == e.basePrice + e.surchargeAmount
    ensures basePrice >= 0 ==> e.surchargeAmount >= 0
    ensures basePrice >= 25 ==> (e.surchargeAmount > 0 <==> e.hasSurcharge)
  {
    var finalPrice := CalculatePrice(basePrice, hour);
    var hasSurcharge := hour >= SurchargeStartHour;
    PriceEntry(hour, DisplayHour(hour), basePrice, finalPrice, hasSurcharge,
      if hasSurcharge then finalPrice - basePrice else 0)
  }

  /** `getPriceRange`: one entry per hour in [startHour, endHour), in order. */
  method GetPriceRange(fieldType: string, startHour: int, endHour: int) returns (prices: seq<PriceEntry>)
    ensures |prices| == if endHour <= startHour then 0 else endHour - startHour
    ensures forall i :: 0 <= i < |prices| ==> IsEntryFor(prices[i], GetBasePrice(fieldType), startHour + i)
  {
    var basePrice := GetBasePrice(fieldType);
    prices := [];
    var hour := startHour;
    while hour < endHour
      invariant startHour <= endHour ==> startHour <= hour <= endHour
      invariant endHour < startHour ==> hour == startHour
      invariant |prices| == hour - startHour
      invariant forall i :: 0 <= i < |prices| ==> IsEntryFor(prices[i], basePrice, startHour + i)
    {
      prices := prices + [EntryAt(basePrice, hour)];
      hour := hour + 1;
    }
  }
}
