/** `mqmSortData`: the viewer's in-place sort of its rows by global segment
    id, document, segment id, system, rater, severity and category. */
module ViewerSort {
  import opened ViewerKeys
  import opened ViewerRows

  /** The seven keys the comparator looks at, in its order; the two ids
      pass through `mqmMaybeParseInt`. */
  function RowKey(r: Row): (k: seq<Key>)
    ensures |k| == 7
    ensures k[0] == MaybeParseInt(r.globalSegId) && k[2] == MaybeParseInt(r.docSegId)
    ensures k[1] == Str(r.doc) && k[3] == Str(r.system) && k[4] == Str(r.rater)
    ensures k[5] == Str(r.severity) && k[6] == Str(r.category)
  {
    [MaybeParseInt(r.globalSegId), Str(r.doc), MaybeParseInt(r.docSegId),
     Str(r.system), Str(r.rater), Str(r.severity), Str(r.category)]
  }

  /** The comparator handed to `Array.prototype.sort`: -1, 0 or 1. */
  function CompareRows(a: Row, b: Row): int
  {
    CompareKeys(RowKey(a), RowKey(b))
  }

  /** `a` may stay before `b`. */
  predicate Le(a: Row, b: Row)
  {
    CompareRows(a, b) <= 0
  }

  /** Whether each of the two ids reads as a number. */
  function IdKinds(r: Row): (bool, bool)
  {
    (MaybeParseInt(r.globalSegId).Num?, MaybeParseInt(r.docSegId).Num?)
  }

  /** Every row's ids are of the same kinds: both numeric, or both not. */
  predicate UniformIds(s: seq<Row>)
  {
    forall i, j :: 0 <= i < |s| && 0 <= j < |s| ==> IdKinds(s[i]) == IdKinds(s[j])
  }

  predicate Sorted(s: seq<Row>)
  {
    forall i, j :: 0 <= i < j < |s| ==> Le(s[i], s[j])
  }

  lemma RowKeysSameKinds(a: Row, b: Row)
    requires IdKinds(a) == IdKinds(b)
    ensures SameKinds(RowKey(a), RowKey(b))
  {
    var ka, kb := RowKey(a), RowKey(b);
    forall i | 0 <= i < 7
      ensures ka[i].Num? == kb[i].Num?
    {
      if i != 0 && i != 2 {
        assert ka[i].Str? && kb[i].Str?;
      }
    }
  }

  /** Rows with ids of the same kinds are ordered transitively. */
  lemma LeTransitive(a: Row, b: Row, c: Row)
    requires IdKinds(a) == IdKinds(b) == IdKinds(c)
    requires Le(a, b) && Le(b, c)
    ensures Le(a, c)
  {
    RowKeysSameKinds(a, b);
    RowKeysSameKinds(b, c);
    CompareTransitive(RowKey(a), RowKey(b), RowKey(c));
  }

  /** Any two rows are ordered one way or the other. */
  lemma LeFlip(a: Row, b: Row)
    requires !Le(a, b)
    ensures Le(b, a)
  {
    CompareAntisymmetric(RowKey(a), RowKey(b));
  }

  /** Rows with ids of the same kinds that compare equal are equal in all
      seven keys. */
  lemma CompareRowsZero(a: Row, b: Row)
    requires IdKinds(a) == IdKinds(b)
    ensures CompareRows(a, b) == 0 <==> RowKey(a) == RowKey(b)
  {
    RowKeysSameKinds(a, b);
    CompareZero(RowKey(a), RowKey(b));
  }

  /** `s` is in order for `le`. */
  predicate SortedBy<T>(s: seq<T>, le: (T, T) -> bool)
  {
    forall p, q :: 0 <= p < q < |s| ==> le(s[p], s[q])
  }

  /** Any two values are ordered one way or the other. */
  ghost predicate Total<T(!new)>(le: (T, T) -> bool)
  {
    forall x, y :: le(x, y) || le(y, x)
  }

  /** `le` is transitive among the values of `m`. */
  ghost predicate TransitiveOn<T>(m: multiset<T>, le: (T, T) -> bool)
  {
    forall x, y, z :: x in m && y in m && z in m && le(x, y) && le(y, z) ==> le(x, z)
  }

  /** The first `n` values are in order. */
  predicate SortedPrefix<T>(s: seq<T>, n: int, le: (T, T) -> bool)
  {
    forall p, q :: 0 <= p < q < n && q < |s| ==> le(s[p], s[q])
  }

  /** Values 0..n are in order, leaving out the one at `j`. */
  predicate SortedExcept<T>(s: seq<T>, n: int, j: int, le: (T, T) -> bool)
  {
    forall p, q :: 0 <= p < q <= n && q < |s| && p != j && q != j ==> le(s[p], s[q])
  }

  /** The value at `j` may stay before each of values j+1..n. */
  predicate BelowRest<T>(s: seq<T>, n: int, j: int, le: (T, T) -> bool)
  {
    forall q :: j < q <= n && 0 <= j && q < |s| ==> le(s[j], s[q])
  }

  /** Swapping the values at `j - 1` and `j`. */
  function Swapped<T>(s: seq<T>, j: int): (t: seq<T>)
    requires 0 < j < |s|
    ensures multiset(t) == multiset(s) && |t| == |s|
  {
    s[j - 1 := s[j]][j := s[j - 1]]
  }

  /** One swap moves the value being inserted down one place, still below
      the values after it. */
  lemma SwapKeepsBelowRest<T(!new)>(s: seq<T>, n: int, j: int, le: (T, T) -> bool)
    requires Total(le)
    requires 0 < j <= n < |s| && !le(s[j - 1], s[j]) && BelowRest(s, n, j, le)
    ensures BelowRest(Swapped(s, j), n, j - 1, le)
  {
  }

  /** One swap keeps the other values in order. */
  lemma SwapKeepsSortedExcept<T>(s: seq<T>, n: int, j: int, le: (T, T) -> bool)
    requires 0 < j <= n < |s| && SortedExcept(s, n, j, le)
    ensures SortedExcept(Swapped(s, j), n, j - 1, le)
  {
  }

  /** Once the value being inserted is at its place, values 0..n are in
      order. */
  lemma InsertDone<T>(s: seq<T>, n: int, j: int, le: (T, T) -> bool)
    requires 0 <= j <= n < |s| && (j == 0 || le(s[j - 1], s[j]))
    requires TransitiveOn(multiset(s), le)
    requires SortedExcept(s, n, j, le) && BelowRest(s, n, j, le)
    ensures SortedPrefix(s, n + 1, le)
  {
    forall p, q | 0 <= p < q < n + 1 ensures le(s[p], s[q]) {
      if q == j && p < j - 1 {
        assert s[p] in multiset(s) && s[j - 1] in multiset(s) && s[j] in multiset(s);
      }
    }
  }

  /** The sort the comparator is handed to, as an insertion sort by swaps.
      The values are only rearranged, and they end in order whenever `le`
      is transitive among them. */
  method InsertionSort<T(!new)>(a: array<T>, le: (T, T) -> bool)
    requires Total(le)
    modifies a
    ensures multiset(a[..]) == multiset(old(a[..]))
    ensures TransitiveOn(multiset(old(a[..])), le) ==> SortedBy(a[..], le)
  {
    ghost var ok := TransitiveOn(multiset(a[..]), le);
    var i := 0;
    while i < a.Length
      invariant 0 <= i <= a.Length
      invariant multiset(a[..]) == multiset(old(a[..]))
      invariant ok ==> SortedPrefix(a[..], i, le)
    {
      var j := i;
      while j > 0 && !le(a[j - 1], a[j])
        invariant 0 <= j <= i
        invariant multiset(a[..]) == multiset(old(a[..]))
        invariant ok ==> SortedExcept(a[..], i, j, le)
        invariant BelowRest(a[..], i, j, le)
      {
        label step:
        SwapKeepsBelowRest(a[..], i, j, le);
        if ok {
          SwapKeepsSortedExcept(a[..], i, j, le);
        }
        a[j - 1], a[j] := a[j], a[j - 1];
        assert a[..] == Swapped(old@step(a[..]), j);
        j := j - 1;
      }
      if ok {
        InsertDone(a[..], i, j, le);
      }
      i := i + 1;
    }
  }

  lemma UniformKinds(s: seq<Row>)
    requires UniformIds(s)
    ensures TransitiveOn(multiset(s), Le)
  {
    forall x, y, z | x in multiset(s) && y in multiset(s) && z in multiset(s) && Le(x, y) && Le(y, z)
      ensures Le(x, z)
    {
      var p :| 0 <= p < |s| && s[p] == x;
      var q :| 0 <= q < |s| && s[q] == y;
      var r :| 0 <= r < |s| && s[r] == z;
      LeTransitive(x, y, z);
    }
  }

  lemma LeTotal()
    ensures Total(Le)
  {
    forall x, y ensures Le(x, y) || Le(y, x) {
      if !Le(x, y) {
        LeFlip(x, y);
      }
    }
  }

  /** `mqmSortData(data)`: the rows are rearranged, never changed, and end
      in comparator order whenever their ids are of uniform kinds. */
  method SortData(a: array<Row>)
    modifies a
    ensures multiset(a[..]) == multiset(old(a[..]))
    ensures UniformIds(old(a[..])) ==> Sorted(a[..])
  {
    LeTotal();
    if UniformIds(a[..]) {
      UniformKinds(a[..]);
    }
    InsertionSort(a, Le);
  }
}
