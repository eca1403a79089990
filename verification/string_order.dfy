/** Python's ordering of strings and `sorted` over a set of them, as
    `sorted(best.items())` in flight_search.py uses them: the keys of a
    dictionary are distinct, so the items are ordered by key alone. */
module StringOrder {

  /** Python's `a < b` on strings: by code point at the first difference,
      and a proper prefix before the longer string. */
  predicate Below(a: string, b: string)
    decreases |a|
  {
    if a == [] then b != []
    else if b == [] then false
    else if a[0] != b[0] then a[0] < b[0]
    else Below(a[1..], b[1..])
  }

  lemma {:induction false} BelowIrreflexive(a: string)
    ensures !Below(a, a)
    decreases |a|
  {
    if a != [] {
      BelowIrreflexive(a[1..]);
    }
  }

  lemma {:induction false} BelowTransitive(a: string, b: string, c: string)
    requires Below(a, b) && Below(b, c)
    ensures Below(a, c)
    decreases |a|
  {
    if a != [] && b != [] && c != [] && a[0] == b[0] && b[0] == c[0] {
      BelowTransitive(a[1..], b[1..], c[1..]);
    }
  }

  lemma {:induction false} BelowTotal(a: string, b: string)
    requires a != b
    ensures Below(a, b) || Below(b, a)
    decreases |a|
  {
    if a != [] && b != [] && a[0] == b[0] {
      assert a == [a[0]] + a[1..] && b == [b[0]] + b[1..];
      BelowTotal(a[1..], b[1..]);
    }
  }

  /** Every element strictly before every later one: sorted, no repeats. */
  predicate Ascending(s: seq<string>)
  {
    forall i, j :: 0 <= i < j < |s| ==> Below(s[i], s[j])
  }

  /** A non-empty set of strings has a least element. */
  lemma {:induction false} LeastExists(keys: set<string>) returns (m: string)
    requires keys != {}
    ensures m in keys && forall x :: x in keys ==> !Below(x, m)
    decreases |keys|
  {
    var y :| y in keys;
    if keys == {y} {
      BelowIrreflexive(y);
      m := y;
    } else {
      var n := LeastExists(keys - {y});
      if Below(y, n) {
        m := y;
        forall x | x in keys ensures !Below(x, m) {
          if x == y {
            BelowIrreflexive(y);
          } else if Below(x, y) {
            BelowTransitive(x, y, n);
          }
        }
      } else {
        m := n;
      }
    }
  }

  lemma HasLeast(keys: set<string>)
    requires keys != {}
    ensures exists m :: m in keys && forall x :: x in keys ==> !Below(x, m)
  {
    var m := LeastExists(keys);
  }

  /** `sorted(keys)`: the keys in ascending order, each once. */
  function SortedKeys(keys: set<string>): (r: seq<string>)
    ensures Ascending(r)
    ensures forall x :: x in r <==> x in keys
    ensures |r| == |keys|
    decreases |keys|
  {
    if keys == {} then []
    else
      HasLeast(keys);
      assert forall a, b :: a in keys && b in keys && a != b ==> Below(a, b) || Below(b, a) by {
        forall a, b | a in keys && b in keys && a != b ensures Below(a, b) || Below(b, a) {
          BelowTotal(a, b);
        }
      }
      var m :| m in keys && forall x :: x in keys ==> !Below(x, m);
      var rest := SortedKeys(keys - {m});
      assert forall x :: x in rest ==> Below(m, x) by {
        forall x | x in rest ensures Below(m, x) {
          BelowTotal(m, x);
        }
      }
      [m] + rest
  }
}
