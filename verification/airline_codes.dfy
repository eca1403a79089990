/** `parse_codes` (month_cheapest.py): the airline allow-list read from a
    comma-separated setting. */
module AirlineCodes {
  import opened Wrappers
  import opened Text

  /** A code as `parse_codes` emits it: not empty, no whitespace at either
      end, no lower-case letter and no comma. */
  predicate IsCode(c: string)
  {
    c != [] && Trimmed(c) && NoLower(c) && ',' !in c
  }

  /** No piece holds a comma, as every piece of `Split(_, ',')`. */
  predicate CommaFree(pieces: seq<string>)
  {
    forall i :: 0 <= i < |pieces| ==> ',' !in pieces[i]
  }

  /** One piece's contribution: nothing when it is blank once stripped,
      otherwise the stripped piece upper-cased, a code when the piece held
      no comma. */
  function CodeOf(piece: string): (r: seq<string>)
    ensures |r| <= 1
    ensures r == [] <==> Strip(piece) == []
    ensures ',' !in piece ==> forall i :: 0 <= i < |r| ==> IsCode(r[i])
  {
    var t := Strip(piece);
    StripSlice(piece);
    UpperKeeps(t);
    if t != [] then [Upper(t)] else []
  }

  /** The list comprehension of `parse_codes`: the pieces that are not blank
      once stripped, each stripped and upper-cased, in their order. */
  function KeepCodes(pieces: seq<string>): seq<string>
  {
    FlatMap(CodeOf, pieces)
  }

  /** Each element's contributions, in order. */
  function FlatMap<T, U>(f: T -> seq<U>, xs: seq<T>): seq<U>
  {
    if xs == [] then [] else f(xs[0]) + FlatMap(f, xs[1..])
  }

  /** Every entry the comprehension keeps from comma-free pieces is a code. */
  lemma {:induction false} KeepCodesAreCodes(pieces: seq<string>)
    requires CommaFree(pieces)
    ensures forall i :: 0 <= i < |KeepCodes(pieces)| ==> IsCode(KeepCodes(pieces)[i])
  {
    if pieces != [] {
      KeepCodesAreCodes(pieces[1..]);
      var head, tail := CodeOf(pieces[0]), KeepCodes(pieces[1..]);
      forall i | 0 <= i < |head + tail| ensures IsCode((head + tail)[i]) {
        if i < |head| { assert (head + tail)[i] == head[i]; }
        else { assert (head + tail)[i] == tail[i - |head|]; }
      }
    }
  }

  /** `parse_codes(s)`: no codes for an absent or empty setting, otherwise
      the codes of the comma-separated pieces. */
  function ParseCodes(s: Option<string>): (r: seq<string>)
    ensures (s == None || s == Some([])) ==> r == []
    ensures forall i :: 0 <= i < |r| ==> IsCode(r[i])
  {
    if s.None? || s.value == [] then []
    else
      KeepCodesAreCodes(Split(s.value, ','));
      KeepCodes(Split(s.value, ','))
  }

  /** The comprehension over two runs of pieces is the concatenation of the
      two results. */
  lemma KeepCodesAppend(a: seq<string>, b: seq<string>)
    ensures KeepCodes(a + b) == KeepCodes(a) + KeepCodes(b)
  {
    FlatMapAppend(CodeOf, a, b);
  }

  lemma {:induction false} FlatMapAppend<T, U>(f: T -> seq<U>, a: seq<T>, b: seq<T>)
    ensures FlatMap(f, a + b) == FlatMap(f, a) + FlatMap(f, b)
  {
    if a != [] {
      FlatMapAppend(f, a[1..], b);
      var ab := a + b;
      assert ab[0] == a[0];
      assert ab[1..] == a[1..] + b;
      var x, y, z := f(a[0]), FlatMap(f, a[1..]), FlatMap(f, b);
      assert x + (y + z) == (x + y) + z;
    } else {
      assert a + b == b;
    }
  }

  /** The empty setting and the general case agree: `ParseCodes` is the
      comprehension over the split pieces for every present text. */
  lemma ParseCodesPresent(s: string)
    ensures ParseCodes(Some(s)) == KeepCodes(Split(s, ','))
  {
    if s == [] {
      var pieces := Split(s, ',');
      assert pieces == [[]];
      assert pieces[1..] == [];
      assert KeepCodes(pieces) == CodeOf(pieces[0]) + KeepCodes(pieces[1..]);
    }
  }

  /** Order is kept: the codes of `a,b` are the codes of `a` followed by the
      codes of `b`. */
  lemma ParseCodesConcat(a: string, b: string)
    ensures ParseCodes(Some(a + [','] + b)) == ParseCodes(Some(a)) + ParseCodes(Some(b))
  {
    SplitAround(a, b, ',');
    KeepCodesAppend(Split(a, ','), Split(b, ','));
    ParseCodesPresent(a + [','] + b);
    ParseCodesPresent(a);
    ParseCodesPresent(b);
  }

  /** A list of codes joined with commas (as the offer request's
      `includedAirlineCodes` is built) parses back to the same list. */
  lemma {:induction false} ParseCodesJoin(codes: seq<string>)
    requires forall i :: 0 <= i < |codes| ==> IsCode(codes[i])
    ensures ParseCodes(Some(Join(codes, ','))) == codes
  {
    if codes != [] {
      SplitJoin(codes, ',');
      ParseCodesPresent(Join(codes, ','));
      KeepCodesFixed(codes);
    }
  }

  lemma {:induction false} KeepCodesFixed(codes: seq<string>)
    requires forall i :: 0 <= i < |codes| ==> IsCode(codes[i])
    ensures KeepCodes(codes) == codes
  {
    if codes != [] {
      StripTrimmed(codes[0]);
      UpperIdentity(codes[0]);
      KeepCodesFixed(codes[1..]);
      assert [codes[0]] + codes[1..] == codes;
    }
  }

  /** Parsing is idempotent: joining the parsed codes and parsing again
      gives the same list. */
  lemma ParseCodesIdempotent(s: Option<string>)
    ensures ParseCodes(Some(Join(ParseCodes(s), ','))) == ParseCodes(s)
  {
    ParseCodesJoin(ParseCodes(s));
  }
}
