/** `cheapest_day_in_month` (month_cheapest.py): the coarse date-price query
    over one month and the choice of its cheapest date. The flight_dates
    call becomes its response, given as input; Python's `float` becomes the
    partial `parse` given by the caller. */
module DateScan {
  import opened Wrappers
  import opened Text
  import opened Calendar

  /** One entry of the flight_dates response: the price texts `price.total`,
      `price.grandTotal` and `price.base`, and `departureDate`, each absent
      when the key is missing (a missing `price` object leaves all three
      absent). */
  datatype DateItem = DateItem(
    total: Option<string>, grandTotal: Option<string>, base: Option<string>,
    departureDate: Option<string>)

  /** The flight_dates call: its `data` (possibly absent), or a `ResponseError`. */
  datatype DatesResponse = DatesData(data: Option<seq<DateItem>>) | DatesFailed

  /** The query sent: origin, destination and the `departureDate` range. */
  datatype DatesRequest = DatesRequest(origin: string, destination: string, departureDate: string)

  /** A chosen date and its indicative price. */
  datatype Pick = Pick(date: string, price: real)

  /** The month range `"<start>,<end>"` in ISO form. */
  function DateRange(start: Date, end: Date): string
    requires ValidDate(start) && ValidDate(end)
  {
    IsoFormat(start) + "," + IsoFormat(end)
  }

  lemma IsoHasNoComma(d: Date)
    requires ValidDate(d)
    ensures ',' !in IsoFormat(d)
  {
    var s := IsoFormat(d);
    assert s == Decimal(d.year, 4) + "-" + Decimal(d.month, 2) + "-" + Decimal(d.day, 2);
    forall i | 0 <= i < |s| ensures s[i] != ',' {
      if i < 4 { assert s[i] == Decimal(d.year, 4)[i]; }
      else if 5 <= i < 7 { assert s[i] == Decimal(d.month, 2)[i - 5]; }
      else if 8 <= i { assert s[i] == Decimal(d.day, 2)[i - 8]; }
    }
  }

  /** The range text names exactly the two dates: split at its comma, each
      half reads back as the date it was written from. */
  lemma DateRangeReadsBack(start: Date, end: Date)
    requires ValidDate(start) && ValidDate(end)
    ensures Split(DateRange(start, end), ',') == [IsoFormat(start), IsoFormat(end)]
    ensures ParseIsoDate(Split(DateRange(start, end), ',')[0]) == Some(start)
    ensures ParseIsoDate(Split(DateRange(start, end), ',')[1]) == Some(end)
  {
    IsoHasNoComma(start);
    IsoHasNoComma(end);
    SplitAround(IsoFormat(start), IsoFormat(end), ',');
    SplitWithout(IsoFormat(start), ',');
    SplitWithout(IsoFormat(end), ',');
    assert DateRange(start, end) == IsoFormat(start) + [','] + IsoFormat(end);
    IsoRoundTrip(start);
    IsoRoundTrip(end);
  }

  /** A present, non-empty text: what Python's truth test accepts. */
  predicate Truthy(s: Option<string>)
  {
    s.Some? && s.value != []
  }

  /** `total or grandTotal or base`: the first of them that is truthy. */
  function PriceText(item: DateItem): (t: Option<string>)
    ensures t.Some? ==> Truthy(t)
  {
    if Truthy(item.total) then item.total
    else if Truthy(item.grandTotal) then item.grandTotal
    else if Truthy(item.base) then item.base
    else None
  }

  /** An item the loop considers: it has a price text and a departure date,
      and the price text parses; otherwise the loop `continue`s past it. */
  function Candidate(item: DateItem, parse: string -> Option<real>): Option<Pick>
  {
    var text := PriceText(item);
    if text.None? || !Truthy(item.departureDate) then None
    else
      match parse(text.value)
      case None => None
      case Some(p) => Some(Pick(item.departureDate.value, p))
  }

  /** One step of the loop: a candidate replaces the best so far when there
      is none yet or when its price is strictly lower. */
  function Improve(best: Option<Pick>, candidate: Option<Pick>): Option<Pick>
  {
    if candidate.Some? && (best.None? || candidate.value.price < best.value.price) then candidate
    else best
  }

  /** The choice the loop has made after the given items. */
  function Cheapest(items: seq<DateItem>, parse: string -> Option<real>): (r: Option<Pick>)
    ensures r.Some? ==> r.value.date != []
    ensures r.Some? ==> exists k :: 0 <= k < |items| && Candidate(items[k], parse) == r
  {
    if items == [] then None
    else Improve(Cheapest(items[..|items| - 1], parse), Candidate(items[|items| - 1], parse))
  }

  /** The result of `cheapest_day_in_month` for a response: `None` on a
      `ResponseError`, otherwise the choice over `r.data or []`. */
  function PickOf(response: DatesResponse, parse: string -> Option<real>): (r: Option<Pick>)
    ensures r.Some? ==> response.DatesData? && r.value.date != []
  {
    match response
    case DatesFailed => None
    case DatesData(data) => Cheapest(if data.Some? then data.value else [], parse)
  }

  /** `cheapest_day_in_month(origin, dest, month_start, month_end)`. */
  method CheapestDayInMonth(origin: string, dest: string, monthStart: Date, monthEnd: Date,
                            response: DatesResponse, parse: string -> Option<real>)
    returns (request: DatesRequest, pick: Option<Pick>)
    requires ValidDate(monthStart) && ValidDate(monthEnd)
    ensures request == DatesRequest(origin, dest, DateRange(monthStart, monthEnd))
    ensures pick == PickOf(response, parse)
  {
    request := DatesRequest(origin, dest, DateRange(monthStart, monthEnd));
    match response
    case DatesFailed =>
      pick := None;
    case DatesData(d) =>
      var data := if d.Some? then d.value else [];
      var bestDate: Option<string> := None;
      var bestPrice: Option<real> := None;
      var i := 0;
      while i < |data|
        invariant 0 <= i <= |data|
        invariant bestDate.Some? <==> bestPrice.Some?
        invariant bestDate.Some? ==> bestDate.value != []
        invariant Cheapest(data[..i], parse) ==
                    if bestDate.Some? then Some(Pick(bestDate.value, bestPrice.value)) else None
      {
        var item := data[i];
        assert data[..i + 1][..i] == data[..i];
        var priceText := PriceText(item);
        var date := item.departureDate;
        if priceText.None? || !Truthy(date) {
          i := i + 1;
          continue;
        }
        var p := parse(priceText.value);
        if p.None? {
          i := i + 1;
          continue;
        }
        if bestPrice.None? || p.value < bestPrice.value {
          bestPrice, bestDate := p, date;
        }
        i := i + 1;
      }
      assert data[..i] == data;
      pick := if bestDate.Some? then Some(Pick(bestDate.value, bestPrice.value)) else None;
  }

  /** No date is picked exactly when no item is a candidate. */
  lemma {:induction false} CheapestNone(items: seq<DateItem>, parse: string -> Option<real>)
    ensures Cheapest(items, parse).None? <==> forall k :: 0 <= k < |items| ==> Candidate(items[k], parse).None?
  {
    if items != [] {
      var init := items[..|items| - 1];
      CheapestNone(init, parse);
      assert forall k :: 0 <= k < |init| ==> init[k] == items[k];
    }
  }

  /** The picked date is the earliest cheapest candidate: it comes from
      candidate `j`, its price is at most every candidate's price, and every
      candidate before `j` is strictly dearer. */
  lemma {:induction false} CheapestIsEarliestMinimum(items: seq<DateItem>, parse: string -> Option<real>)
    returns (j: nat)
    requires Cheapest(items, parse).Some?
    ensures j < |items| && Candidate(items[j], parse) == Cheapest(items, parse)
    ensures forall k :: 0 <= k < |items| && Candidate(items[k], parse).Some? ==>
              Cheapest(items, parse).value.price <= Candidate(items[k], parse).value.price
    ensures forall k :: 0 <= k < j && Candidate(items[k], parse).Some? ==>
              Cheapest(items, parse).value.price < Candidate(items[k], parse).value.price
  {
    var n := |items|;
    var init := items[..n - 1];
    assert forall k :: 0 <= k < n - 1 ==> init[k] == items[k];
    var last := Candidate(items[n - 1], parse);
    var before := Cheapest(init, parse);
    if before.None? {
      CheapestNone(init, parse);
      j := n - 1;
    } else {
      var i := CheapestIsEarliestMinimum(init, parse);
      if last.Some? && last.value.price < before.value.price {
        j := n - 1;
      } else {
        j := i;
      }
    }
  }
}
