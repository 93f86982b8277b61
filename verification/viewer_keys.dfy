/** The viewer's sort keys. Ids in the viewer's data are strings that are
    compared as numbers when they spell an integer exactly; JavaScript's
    `<` on a number and a string is modelled as false both ways, which is
    what it gives for a string that does not read as a number. */
module ViewerKeys {
  import opened Text
  import opened Decimal

  /** The largest integer a JavaScript number holds exactly (2^53). */
  const MAX_SAFE_INTEGER := 0x20_0000_0000_0000

  /** What `mqmMaybeParseInt` returns: a number, or the string itself. */
  datatype Key = Num(n: int) | Str(s: string)

  /** `mqmMaybeParseInt(s)`: a number when `parseInt(s)` printed back is
      exactly `s`. Integers are modelled as exact up to 2^53 in magnitude. */
  function MaybeParseInt(s: string): (k: Key)
    ensures k.Num? ==> IntToString(k.n) == s && -MAX_SAFE_INTEGER <= k.n <= MAX_SAFE_INTEGER
    ensures k.Str? ==> k.s == s
  {
    if IsCanonical(s) && -MAX_SAFE_INTEGER <= CanonicalValue(s) <= MAX_SAFE_INTEGER then
      CanonicalRoundTrip(s);
      Num(CanonicalValue(s))
    else Str(s)
  }

  /** Every integer the exporter prints within 2^53 reads back as that
      number. */
  lemma MaybeParseIntOfRendered(n: int)
    requires -MAX_SAFE_INTEGER <= n <= MAX_SAFE_INTEGER
    ensures MaybeParseInt(IntToString(n)) == Num(n)
  {
    IntToStringCanonical(n);
  }

  /** Different strings never read as the same key. */
  lemma MaybeParseIntInjective(a: string, b: string)
    requires MaybeParseInt(a) == MaybeParseInt(b)
    ensures a == b
  {
  }

  /** JavaScript's `a < b` on two keys of the same kind. A number against
      a string is taken to compare false both ways, which is what JavaScript
      gives when the string is not numeric. */
  predicate KeyLess(a: Key, b: Key)
  {
    match (a, b)
    case (Num(x), Num(y)) => x < y
    case (Str(x), Str(y)) => LexLess(x, y)
    case _ => false
  }

  lemma KeyLessAsymmetric(a: Key, b: Key)
    ensures KeyLess(a, b) ==> !KeyLess(b, a)
  {
    if a.Str? && b.Str? {
      LexLessAsymmetric(a.s, b.s);
    }
  }

  lemma KeyLessTransitive(a: Key, b: Key, c: Key)
    ensures KeyLess(a, b) && KeyLess(b, c) ==> KeyLess(a, c)
  {
    if a.Str? && b.Str? && c.Str? {
      LexLessTransitive(a.s, b.s, c.s);
    }
  }

  /** Two keys of the same kind are equal or ordered one way. */
  lemma KeyLessTotal(a: Key, b: Key)
    requires a.Num? == b.Num?
    ensures a == b || KeyLess(a, b) || KeyLess(b, a)
  {
    if a.Str? {
      LexLessTotal(a.s, b.s);
    }
  }

  /** The comparison chain of the viewer's sorters: the first position
      where one key is below the other decides; positions where neither is
      below the other are passed over. */
  function CompareKeys(x: seq<Key>, y: seq<Key>): (r: int)
    ensures r == -1 || r == 0 || r == 1
  {
    if |x| == 0 || |y| == 0 then 0
    else if KeyLess(x[0], y[0]) then -1
    else if KeyLess(y[0], x[0]) then 1
    else CompareKeys(x[1..], y[1..])
  }

  /** Swapping the arguments negates the comparison, on any keys. */
  lemma {:induction false} CompareAntisymmetric(x: seq<Key>, y: seq<Key>)
    ensures CompareKeys(y, x) == -CompareKeys(x, y)
  {
    if |x| > 0 && |y| > 0 {
      KeyLessAsymmetric(x[0], y[0]);
      CompareAntisymmetric(x[1..], y[1..]);
    }
  }

  /** Two key lists whose positions hold keys of the same kinds. */
  predicate SameKinds(x: seq<Key>, y: seq<Key>)
  {
    |x| == |y| && forall i :: 0 <= i < |x| ==> x[i].Num? == y[i].Num?
  }

  /** On key lists of the same kinds the chain is 0 only for equal lists. */
  lemma {:induction false} CompareZero(x: seq<Key>, y: seq<Key>)
    requires SameKinds(x, y)
    ensures CompareKeys(x, y) == 0 <==> x == y
  {
    if |x| > 0 {
      KeyLessTotal(x[0], y[0]);
      KeyLessAsymmetric(x[0], y[0]);
      if !KeyLess(x[0], y[0]) && !KeyLess(y[0], x[0]) {
        assert SameKinds(x[1..], y[1..]) by {
          forall i | 0 <= i < |x| - 1 ensures x[1..][i].Num? == y[1..][i].Num? {
            assert x[1..][i] == x[i + 1] && y[1..][i] == y[i + 1];
          }
        }
        CompareZero(x[1..], y[1..]);
        assert x == [x[0]] + x[1..] && y == [y[0]] + y[1..];
      } else {
        KeyLessTotal(x[0], x[0]);
        assert x[0] != y[0] by {
          if x[0].Str? {
            LexLessIrreflexive(x[0].s);
          }
        }
      }
    }
  }

  /** On key lists of the same kinds, "at most" is transitive, and so is
      "below". */
  lemma {:induction false} CompareTransitive(x: seq<Key>, y: seq<Key>, z: seq<Key>)
    requires SameKinds(x, y) && SameKinds(y, z)
    ensures CompareKeys(x, y) <= 0 && CompareKeys(y, z) <= 0 ==> CompareKeys(x, z) <= 0
    ensures CompareKeys(x, y) < 0 && CompareKeys(y, z) < 0 ==> CompareKeys(x, z) < 0
  {
    if |x| > 0 {
      KeyLessTotal(x[0], y[0]);
      KeyLessTotal(y[0], z[0]);
      KeyLessTransitive(x[0], y[0], z[0]);
      KeyLessAsymmetric(x[0], y[0]);
      KeyLessAsymmetric(y[0], z[0]);
      KeyLessAsymmetric(x[0], z[0]);
      assert SameKinds(x[1..], y[1..]) && SameKinds(y[1..], z[1..]) by {
        forall i | 0 <= i < |x| - 1
          ensures x[1..][i].Num? == y[1..][i].Num? && y[1..][i].Num? == z[1..][i].Num?
        {
          assert x[1..][i] == x[i + 1] && y[1..][i] == y[i + 1] && z[1..][i] == z[i + 1];
        }
      }
      CompareTransitive(x[1..], y[1..], z[1..]);
    }
  }
}
