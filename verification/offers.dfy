/** The flight offers both scripts read, the CSV row they build from one, and
    Python's `min(offers, key=grandTotal)`. An offer is held here as the
    parts of the search response's JSON that the scripts touch. */
module Offers {
  import opened Wrappers

  /** One flight of an itinerary: `carrierCode`, `number`, and the `at`
      timestamps of its `departure` and `arrival`. */
  datatype Segment = Segment(carrierCode: string, number: string, departureAt: string, arrivalAt: string)

  /** An itinerary: its segments in flight order and its optional `duration`. */
  datatype Itinerary = Itinerary(segments: seq<Segment>, duration: Option<string>)

  /** An offer: `price.grandTotal` (as the number `float` makes of it),
      `price.currency` and the itineraries. */
  datatype Offer = Offer(grandTotal: real, currency: string, itineraries: seq<Itinerary>)

  /** One CSV row, its fields in the order of the file's header. */
  datatype Row = Row(
    collectedAtUtc: string, travelDate: string, origin: string, dest: string,
    airline: string, flightNo: string, depTime: string, arrTime: string,
    stops: int, duration: string, price: real, currency: string)

  /** The parameters of one offer search: route, departure date, adult
      count, currency, result cap and the optional comma-separated airline
      allow-list (`includedAirlineCodes`). */
  datatype OfferRequest = OfferRequest(
    originLocationCode: string, destinationLocationCode: string, departureDate: string,
    adults: int, currencyCode: string, max: int, includedAirlineCodes: Option<string>)

  /** An offer the scripts can read without `KeyError` or `IndexError`:
      `itineraries[0]["segments"][0]` exists. */
  predicate WellFormed(o: Offer)
  {
    |o.itineraries| > 0 && |o.itineraries[0].segments| > 0
  }

  function Segments(o: Offer): seq<Segment>
    requires WellFormed(o)
  {
    o.itineraries[0].segments
  }

  /** `segs[0]["carrierCode"]`: the carrier of the first segment. */
  function LeadingCarrier(o: Offer): string
    requires WellFormed(o)
  {
    Segments(o)[0].carrierCode
  }

  /** The row dictionary both scripts build from the first itinerary of an
      offer, for the given collection time, travel date, route and airline. */
  function MakeRow(collectedAt: string, travelDate: string, origin: string, dest: string,
                   airline: string, o: Offer): (r: Row)
    requires WellFormed(o)
    ensures r.stops >= 0 && r.stops + 1 == |Segments(o)|
    ensures o.itineraries[0].duration.None? ==> r.duration == ""
    ensures |r.flightNo| == |LeadingCarrier(o)| + |Segments(o)[0].number|
  {
    var it := o.itineraries[0];
    var segs := it.segments;
    Row(collectedAt, travelDate, origin, dest, airline,
        segs[0].carrierCode + segs[0].number,
        segs[0].departureAt, segs[|segs| - 1].arrivalAt,
        |segs| - 1,
        if it.duration.Some? then it.duration.value else "",
        o.grandTotal, o.currency)
  }

  /** What every built row satisfies: the stop count is one less than the
      number of segments (so never negative), the flight number is the first
      segment's carrier code followed by its number, departure and arrival
      come from the first and last segments, and price and currency are the
      offer's. */
  lemma RowOfOffer(collectedAt: string, travelDate: string, origin: string, dest: string,
                   airline: string, o: Offer)
    requires WellFormed(o)
    ensures var r := MakeRow(collectedAt, travelDate, origin, dest, airline, o);
      && r.stops >= 0 && r.stops + 1 == |Segments(o)|
      && r.flightNo[..|LeadingCarrier(o)|] == LeadingCarrier(o)
      && r.flightNo[|LeadingCarrier(o)|..] == Segments(o)[0].number
      && r.depTime == Segments(o)[0].departureAt
      && r.arrTime == Segments(o)[|Segments(o)| - 1].arrivalAt
      && r.price == o.grandTotal && r.currency == o.currency
      && r.collectedAtUtc == collectedAt && r.travelDate == travelDate
      && r.origin == origin && r.dest == dest && r.airline == airline
  {
  }

  /** `min(offers, key=grandTotal)`: the position of the offer `min` returns.
      `min` keeps the first of equal keys, replacing only on a strictly
      smaller one, so the result is the earliest cheapest offer. */
  function CheapestIndex(offers: seq<Offer>): (k: nat)
    requires |offers| > 0
    ensures k < |offers|
    ensures forall j :: 0 <= j < |offers| ==> offers[k].grandTotal <= offers[j].grandTotal
    ensures forall j :: 0 <= j < k ==> offers[k].grandTotal < offers[j].grandTotal
  {
    if |offers| == 1 then 0
    else
      var k := CheapestIndex(offers[..|offers| - 1]);
      if offers[|offers| - 1].grandTotal < offers[k].grandTotal then |offers| - 1 else k
  }
}
