/** `main` of flight_search.py: one offer search for a fixed route and date,
    the cheapest offer kept per leading carrier on the allow-list, and one
    row appended per carrier, in ascending code order, to that carrier's own
    file. The search call becomes its response, given as input, and
    `datetime.now` the given timestamp text. */
module FlightSearch {
  import opened Wrappers
  import opened Text
  import opened AirlineCodes
  import opened Offers
  import opened Retry
  import opened RecordStore
  import opened StringOrder

  const Origin: string := "ICN"
  const Dest: string := "NRT"
  const TravelDate: string := "2025-08-25"
  const LccCodes: seq<string> := ["KE", "OZ", "7C", "TW", "LJ", "ZE", "RS", "BX", "YP"]

  /** The search `main` sends. */
  function SearchRequest(): OfferRequest
  {
    OfferRequest(Origin, Dest, TravelDate, 1, "KRW", 250, Some(Join(LccCodes, ',')))
  }

  /** The allow-list sent with the search is read back as the same codes. */
  lemma SearchRequestAllowList()
    ensures ParseCodes(SearchRequest().includedAirlineCodes) == LccCodes
  {
    LccCodesAreCodes();
    ParseCodesJoin(LccCodes);
  }

  /** Every allow-list entry is a code as `parse_codes` emits one. */
  lemma LccCodesAreCodes()
    ensures forall i :: 0 <= i < |LccCodes| ==> IsCode(LccCodes[i])
  {
    forall i | 0 <= i < |LccCodes| ensures IsCode(LccCodes[i]) {
      PlainCode(LccCodes[i]);
    }
  }

  /** Two upper-case letters or digits make a code. */
  lemma PlainCode(c: string)
    requires |c| == 2 && forall k :: 0 <= k < 2 ==> IsUpperAscii(c[k]) || '0' <= c[k] <= '9'
    ensures IsCode(c)
  {
    assert !IsSpace(c[0]) && !IsSpace(c[1]);
    assert c == [c[0], c[1]];
  }

  /** No allow-list code has a lower-case letter. */
  lemma LccCodesUpper()
    ensures forall c :: c in LccCodes ==> NoLower(c)
  {
    forall i | 0 <= i < |LccCodes| ensures NoLower(LccCodes[i]) {
      var c := LccCodes[i];
      assert |c| == 2;
      assert !IsLowerAscii(c[0]) && !IsLowerAscii(c[1]);
    }
  }

  predicate AllWellFormed(offers: seq<Offer>)
  {
    forall i :: 0 <= i < |offers| ==> WellFormed(offers[i])
  }

  /** The `best` dictionary once the grouping loop has seen `offers`: an
      offer whose leading carrier is on the allow-list replaces the kept one
      for that carrier when there is none yet or when it is strictly
      cheaper. */
  function BestByCarrier(offers: seq<Offer>, lcc: seq<string>): (best: map<string, Offer>)
    requires AllWellFormed(offers)
    ensures |best| <= |offers|
  {
    if offers == [] then map[]
    else
      var best := BestByCarrier(offers[..|offers| - 1], lcc);
      var o := offers[|offers| - 1];
      var a := LeadingCarrier(o);
      if a !in lcc then best
      else if a !in best || o.grandTotal < best[a].grandTotal then best[a := o]
      else best
  }

  /** The grouping loop of `main`; `None` when an offer lacks its first
      itinerary or segment, where the loop raises. */
  method GroupCheapest(offers: seq<Offer>, lcc: seq<string>) returns (best: Option<map<string, Offer>>)
    ensures best.Some? <==> AllWellFormed(offers)
    ensures best.Some? ==> best.value == BestByCarrier(offers, lcc)
  {
    var kept: map<string, Offer> := map[];
    var i := 0;
    while i < |offers|
      invariant 0 <= i <= |offers|
      invariant AllWellFormed(offers[..i])
      invariant kept == BestByCarrier(offers[..i], lcc)
    {
      var o := offers[i];
      if !WellFormed(o) {
        assert !AllWellFormed(offers);
        return None;
      }
      assert offers[..i + 1][..i] == offers[..i];
      var airline := LeadingCarrier(o);
      if airline !in lcc {
        i := i + 1;
        continue;
      }
      var price := o.grandTotal;
      if airline !in kept || price < kept[airline].grandTotal {
        kept := kept[airline := o];
      }
      i := i + 1;
    }
    assert offers[..i] == offers;
    best := Some(kept);
  }

  /** The keys of `best` are exactly the leading carriers of the offers that
      are on the allow-list, and each kept offer is well formed. */
  lemma {:induction false} BestKeys(offers: seq<Offer>, lcc: seq<string>)
    requires AllWellFormed(offers)
    ensures forall a :: a in BestByCarrier(offers, lcc) ==>
              a in lcc && WellFormed(BestByCarrier(offers, lcc)[a])
              && LeadingCarrier(BestByCarrier(offers, lcc)[a]) == a
    ensures forall i :: 0 <= i < |offers| && LeadingCarrier(offers[i]) in lcc ==>
              LeadingCarrier(offers[i]) in BestByCarrier(offers, lcc)
  {
    if offers != [] {
      var init := offers[..|offers| - 1];
      assert AllWellFormed(init);
      BestKeys(init, lcc);
      assert forall i :: 0 <= i < |init| ==> init[i] == offers[i];
    }
  }

  /** The offer kept for carrier `a` is offer `j` of the list: its leading
      carrier is `a`, its price is at most the price of every offer led by
      `a`, and every offer led by `a` before it is strictly dearer, so ties
      keep the earlier offer. */
  lemma {:induction false} BestIsEarliestCheapest(offers: seq<Offer>, lcc: seq<string>, a: string)
    returns (j: nat)
    requires AllWellFormed(offers)
    requires a in BestByCarrier(offers, lcc)
    ensures j < |offers| && offers[j] == BestByCarrier(offers, lcc)[a] && LeadingCarrier(offers[j]) == a
    ensures forall k :: 0 <= k < |offers| && LeadingCarrier(offers[k]) == a ==>
              offers[j].grandTotal <= offers[k].grandTotal
    ensures forall k :: 0 <= k < j && LeadingCarrier(offers[k]) == a ==>
              offers[j].grandTotal < offers[k].grandTotal
  {
    var n := |offers|;
    var init := offers[..n - 1];
    assert AllWellFormed(init);
    assert forall k :: 0 <= k < n - 1 ==> init[k] == offers[k];
    BestKeys(init, lcc);
    var before := BestByCarrier(init, lcc);
    var best := BestByCarrier(offers, lcc);
    var o := offers[n - 1];
    var c := LeadingCarrier(o);
    var replaced := c in lcc && (c !in before || o.grandTotal < before[c].grandTotal);
    assert best == if replaced then before[c := o] else before;
    if replaced && c == a {
      j := n - 1;
      if a in before {
        var i := BestIsEarliestCheapest(init, lcc, a);
        assert o.grandTotal < offers[i].grandTotal;
      } else {
        BestKeys(init, lcc);
      }
    } else {
      assert a in before && best[a] == before[a];
      j := BestIsEarliestCheapest(init, lcc, a);
      assert c == a ==> offers[j].grandTotal <= o.grandTotal;
    }
  }

  /** The offers whose leading carrier is on the allow-list, in order. */
  function Allowed(offers: seq<Offer>, lcc: seq<string>): (r: seq<Offer>)
    requires AllWellFormed(offers)
    ensures AllWellFormed(r)
  {
    if offers == [] then []
    else
      var o := offers[|offers| - 1];
      Allowed(offers[..|offers| - 1], lcc) + (if LeadingCarrier(o) in lcc then [o] else [])
  }

  /** Offers led by a carrier outside the allow-list never influence `best`:
      grouping only the allowed offers gives the same dictionary. */
  lemma {:induction false} OnlyAllowedMatter(offers: seq<Offer>, lcc: seq<string>)
    requires AllWellFormed(offers)
    ensures BestByCarrier(Allowed(offers, lcc), lcc) == BestByCarrier(offers, lcc)
  {
    if offers != [] {
      var n := |offers|;
      var init := offers[..n - 1];
      var o := offers[n - 1];
      OnlyAllowedMatter(init, lcc);
      var r := Allowed(offers, lcc);
      if LeadingCarrier(o) in lcc {
        assert r == Allowed(init, lcc) + [o];
        assert r != [] && r[|r| - 1] == o;
        assert r[..|r| - 1] == Allowed(init, lcc);
        assert BestByCarrier(r, lcc) == BestByCarrier(offers, lcc);
      } else {
        assert r == Allowed(init, lcc);
      }
    }
  }

  /** The appends of the emission loop for the given keys: one row per key,
      to that key's file. */
  function Emissions(now: string, best: map<string, Offer>, keys: seq<string>): (w: seq<Write>)
    requires forall i :: 0 <= i < |keys| ==> keys[i] in best && WellFormed(best[keys[i]])
    ensures |w| == |keys|
    ensures forall i :: 0 <= i < |keys| ==>
      w[i].path == AirlinePath(Origin, Dest, keys[i]) && w[i].row.airline == keys[i]
      && w[i].row.collectedAtUtc == now && w[i].row.price == best[keys[i]].grandTotal
  {
    seq(|keys|, i requires 0 <= i < |keys| =>
      Write(AirlinePath(Origin, Dest, keys[i]),
            MakeRow(now, TravelDate, Origin, Dest, keys[i], best[keys[i]])))
  }

  /** One more key appends one more row after the earlier ones. */
  lemma EmissionsStep(files: map<Path, seq<Line>>, now: string, best: map<string, Offer>,
                      keys: seq<string>, i: int)
    requires forall k :: 0 <= k < |keys| ==> keys[k] in best && WellFormed(best[keys[k]])
    requires 0 <= i < |keys|
    ensures var w := Write(AirlinePath(Origin, Dest, keys[i]),
                           MakeRow(now, TravelDate, Origin, Dest, keys[i], best[keys[i]]));
            var before := AppendAll(files, Emissions(now, best, keys[..i]));
            AppendAll(files, Emissions(now, best, keys[..i + 1])) == Appended(before, w.path, w.row)
  {
    var done := Emissions(now, best, keys[..i]);
    var w := Write(AirlinePath(Origin, Dest, keys[i]),
                   MakeRow(now, TravelDate, Origin, Dest, keys[i], best[keys[i]]));
    assert Emissions(now, best, keys[..i + 1]) == done + [w];
    AppendAllConcat(files, done, [w]);
    assert [w][1..] == [];
  }

  /** The emission loop of `main`: for each key in the given order (the
      caller passes `sorted` keys), build the row from the kept offer and
      append it to the key's file. */
  method EmitRows(now: string, best: map<string, Offer>, keys: seq<string>, store: DataDir)
    requires forall k :: 0 <= k < |keys| ==> keys[k] in best && WellFormed(best[keys[k]])
    modifies store
    ensures store.files == AppendAll(old(store.files), Emissions(now, best, keys))
    ensures old(store.Valid()) ==> store.Valid()
  {
    for i := 0 to |keys|
      invariant store.files == AppendAll(old(store.files), Emissions(now, best, keys[..i]))
      invariant old(store.Valid()) ==> store.Valid()
    {
      var al := keys[i];
      var o := best[al];
      var row := MakeRow(now, TravelDate, Origin, Dest, al, o);
      EmissionsStep(old(store.files), now, best, keys, i);
      store.AppendRow(AirlinePath(Origin, Dest, al), row);
    }
    assert keys[..|keys|] == keys;
  }

  /** How a run of `main` ends. */
  datatype SearchOutcome =
    | SearchFailed      // `ResponseError`, caught and printed
    | NoResults         // empty result list
    | Crashed           // an offer without itinerary or segment
    | Emitted(airlines: seq<string>)

  /** What `main` does for a search response: its outcome and its appends. */
  function Planned(response: Response<Offer>, now: string): (p: (SearchOutcome, seq<Write>))
    ensures !p.0.Emitted? ==> p.1 == []
    ensures p.0.Emitted? ==> response.Ok? && DataOrEmpty(response.data) != []
  {
    match response
    case Failed(_) => (SearchFailed, [])
    case Ok(data) =>
      var offers := DataOrEmpty(data);
      if offers == [] then (NoResults, [])
      else if !AllWellFormed(offers) then (Crashed, [])
      else
        var best := BestByCarrier(offers, LccCodes);
        BestKeys(offers, LccCodes);
        var keys := SortedKeys(best.Keys);
        (Emitted(keys), Emissions(now, best, keys))
  }

  /** `main()` for the given search response and timestamp. */
  method RunFlightSearch(response: Response<Offer>, now: string, store: DataDir)
    returns (outcome: SearchOutcome)
    modifies store
    ensures outcome == Planned(response, now).0
    ensures store.files == AppendAll(old(store.files), Planned(response, now).1)
    ensures old(store.Valid()) ==> store.Valid()
  {
    match response
    case Failed(_) =>
      outcome := SearchFailed;
    case Ok(data) =>
      var offers := DataOrEmpty(data);
      if offers == [] {
        outcome := NoResults;
        return;
      }
      var best := GroupCheapest(offers, LccCodes);
      if best.None? {
        outcome := Crashed;
        return;
      }
      BestKeys(offers, LccCodes);
      var keys := SortedKeys(best.value.Keys);
      EmitRows(now, best.value, keys, store);
      outcome := Emitted(keys);
  }

  /** The rows `main` writes: one per allowed leading carrier of the
      offers, in ascending code order, each to its carrier's file, carrying
      that carrier, the run's timestamp, the route and date, and the kept
      offer's price, flight number and stop count. */
  lemma EmittedRows(offers: seq<Offer>, now: string, i: int)
    requires offers != [] && AllWellFormed(offers)
    requires 0 <= i < |Planned(Ok(Some(offers)), now).1|
    ensures var best := BestByCarrier(offers, LccCodes);
      var keys := Planned(Ok(Some(offers)), now).0.airlines;
      var w := Planned(Ok(Some(offers)), now).1[i];
      && Ascending(keys) && (forall a :: a in keys <==> a in best)
      && w.path == AirlinePath(Origin, Dest, keys[i])
      && w.row.airline == keys[i] && keys[i] in LccCodes
      && WellFormed(best[keys[i]]) && LeadingCarrier(best[keys[i]]) == keys[i]
      && w.row.collectedAtUtc == now && w.row.travelDate == TravelDate
      && w.row.origin == Origin && w.row.dest == Dest
      && w.row.price == best[keys[i]].grandTotal
      && w.row.stops == |Segments(best[keys[i]])| - 1
      && w.row.flightNo == Segments(best[keys[i]])[0].carrierCode + Segments(best[keys[i]])[0].number
  {
    BestKeys(offers, LccCodes);
  }

  /** Each allowed carrier's file receives exactly one row, its own: the
      allow-list codes have no lower-case letters, so no two carriers share
      a file. */
  lemma OneRowPerCarrierFile(offers: seq<Offer>, now: string, i: int)
    requires offers != [] && AllWellFormed(offers)
    requires 0 <= i < |Planned(Ok(Some(offers)), now).1|
    ensures var writes := Planned(Ok(Some(offers)), now).1;
      RowsTo(writes, writes[i].path) == [writes[i].row]
  {
    BestKeys(offers, LccCodes);
    var best := BestByCarrier(offers, LccCodes);
    var keys := SortedKeys(best.Keys);
    LccCodesUpper();
    EmissionPathsDistinct(now, best, keys);
    RowsToSingle(Emissions(now, best, keys), i);
  }

  /** Ascending codes without lower-case letters name distinct files. */
  lemma EmissionPathsDistinct(now: string, best: map<string, Offer>, keys: seq<string>)
    requires forall i :: 0 <= i < |keys| ==> keys[i] in best && WellFormed(best[keys[i]])
    requires Ascending(keys)
    requires forall k :: k in keys ==> NoLower(k)
    ensures var w := Emissions(now, best, keys);
      forall i, j :: 0 <= i < |w| && 0 <= j < |w| && i != j ==> w[i].path != w[j].path
  {
    var w := Emissions(now, best, keys);
    forall i, j | 0 <= i < |w| && 0 <= j < |w| && i != j ensures w[i].path != w[j].path {
      assert keys[i] != keys[j] by {
        if i < j { BelowIrreflexive(keys[i]); } else { BelowIrreflexive(keys[j]); }
      }
      AirlinePathSameFile(Origin, Dest, keys[i], keys[j]);
      if Lower(keys[i]) == Lower(keys[j]) {
        LowerInjective(keys[i], keys[j]);
      }
    }
  }

  lemma {:induction false} RowsToSingle(writes: seq<Write>, i: int)
    requires 0 <= i < |writes|
    requires forall j :: 0 <= j < |writes| && j != i ==> writes[j].path != writes[i].path
    ensures RowsTo(writes, writes[i].path) == [writes[i].row]
  {
    var p := writes[i].path;
    if i == 0 {
      RowsToNone(writes[1..], p);
    } else {
      RowsToSingle(writes[1..], i - 1);
      assert writes[0].path != p;
    }
  }

  lemma {:induction false} RowsToNone(writes: seq<Write>, p: Path)
    requires forall j :: 0 <= j < |writes| ==> writes[j].path != p
    ensures RowsTo(writes, p) == []
  {
    if writes != [] {
      RowsToNone(writes[1..], p);
    }
  }

  /** An empty result list, an absent one or a failed search writes nothing. */
  lemma NothingWritten(response: Response<Offer>, now: string, files: map<Path, seq<Line>>)
    requires response.Failed? || DataOrEmpty(response.data) == []
    ensures Planned(response, now).0 == if response.Failed? then SearchFailed else NoResults
    ensures Planned(response, now).1 == []
    ensures AppendAll(files, Planned(response, now).1) == files
  {
  }
}
