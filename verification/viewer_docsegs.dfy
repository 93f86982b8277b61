/** The system-versus-system comparison's segment lists: every
    [doc, docSegId] pair a system has scores for, sorted, and the pairs two
    systems have in common. */
module ViewerDocSegs {
  import opened ViewerKeys
  import opened ViewerSort
  import opened Decimal
  import opened Text

  /** A [doc, seg] pair; the segment id is an object key, so a string. */
  datatype DocSeg = DocSeg(doc: string, seg: string)

  /** The keys `mqmDocSegsSorter` compares, in its order. */
  function DocSegKey(d: DocSeg): seq<Key>
  {
    [Str(d.doc), MaybeParseInt(d.seg)]
  }

  /** `mqmDocSegsSorter(a, b)`: -1, 0 or 1. */
  function CompareDocSegs(a: DocSeg, b: DocSeg): int
  {
    CompareKeys(DocSegKey(a), DocSegKey(b))
  }

  predicate DocSegLe(a: DocSeg, b: DocSeg)
  {
    CompareDocSegs(a, b) <= 0
  }

  /** Whether the segment id reads as a number. */
  predicate SegIsNum(d: DocSeg)
  {
    MaybeParseInt(d.seg).Num?
  }

  /** Strictly increasing for the sorter. */
  predicate StrictlySorted(s: seq<DocSeg>)
  {
    forall i, j :: 0 <= i < j < |s| ==> CompareDocSegs(s[i], s[j]) < 0
  }

  /** Every pair in `s` has a segment id of the given kind. */
  predicate SegKindsAre(s: seq<DocSeg>, num: bool)
  {
    forall i :: 0 <= i < |s| ==> SegIsNum(s[i]) == num
  }

  lemma DocSegKeysSameKinds(a: DocSeg, b: DocSeg)
    requires SegIsNum(a) == SegIsNum(b)
    ensures SameKinds(DocSegKey(a), DocSegKey(b))
  {
  }

  /** With segment ids of the same kind, the sorter says 0 only for equal
      pairs. */
  lemma CompareDocSegsZero(a: DocSeg, b: DocSeg)
    requires SegIsNum(a) == SegIsNum(b)
    ensures CompareDocSegs(a, b) == 0 <==> a == b
  {
    DocSegKeysSameKinds(a, b);
    CompareZero(DocSegKey(a), DocSegKey(b));
    if CompareDocSegs(a, b) == 0 {
      assert DocSegKey(a)[1] == DocSegKey(b)[1];
      MaybeParseIntInjective(a.seg, b.seg);
    }
  }

  lemma CompareDocSegsTransitive(a: DocSeg, b: DocSeg, c: DocSeg)
    requires SegIsNum(a) == SegIsNum(b) == SegIsNum(c)
    ensures CompareDocSegs(a, b) <= 0 && CompareDocSegs(b, c) <= 0 ==> CompareDocSegs(a, c) <= 0
    ensures CompareDocSegs(a, b) < 0 && CompareDocSegs(b, c) < 0 ==> CompareDocSegs(a, c) < 0
  {
    DocSegKeysSameKinds(a, b);
    DocSegKeysSameKinds(b, c);
    CompareTransitive(DocSegKey(a), DocSegKey(b), DocSegKey(c));
  }

  lemma CompareDocSegsFlip(a: DocSeg, b: DocSeg)
    ensures CompareDocSegs(b, a) == -CompareDocSegs(a, b)
  {
    CompareAntisymmetric(DocSegKey(a), DocSegKey(b));
  }

  /** The pairs a stats object keyed on doc and then on segment holds. */
  predicate HasPair(stats: map<string, set<string>>, d: DocSeg)
  {
    d.doc in stats && d.seg in stats[d.doc]
  }

  /** Every segment id of `stats` is of the given kind. */
  ghost predicate StatsSegKindsAre(stats: map<string, set<string>>, num: bool)
  {
    forall d :: HasPair(stats, d) ==> SegIsNum(d) == num
  }

  /** `mqmGetDocSegs(stats)`: each pair of the stats object once, in sorter
      order, and strictly increasing when the segment ids are all of one
      kind. Object keys come out in no order the model relies on. */
  method GetDocSegs(stats: map<string, set<string>>) returns (segs: seq<DocSeg>)
    ensures forall d :: multiset(segs)[d] == if HasPair(stats, d) then 1 else 0
    ensures forall num :: StatsSegKindsAre(stats, num) ==> StrictlySorted(segs)
  {
    var pairs: seq<DocSeg> := [];
    var docs := stats.Keys;
    while docs != {}
      invariant docs <= stats.Keys
      invariant forall d :: multiset(pairs)[d] == if HasPair(stats, d) && d.doc !in docs then 1 else 0
      decreases docs
    {
      var doc :| doc in docs;
      var rest := stats[doc];
      while rest != {}
        invariant rest <= stats[doc]
        invariant forall d :: (multiset(pairs)[d] ==
          if HasPair(stats, d) && (d.doc !in docs || (d.doc == doc && d.seg !in rest)) then 1 else 0)
        decreases rest
      {
        var seg :| seg in rest;
        pairs := pairs + [DocSeg(doc, seg)];
        rest := rest - {seg};
      }
      docs := docs - {doc};
    }
    var a := new DocSeg[|pairs|](i requires 0 <= i < |pairs| => pairs[i]);
    assert a[..] == pairs;
    DocSegLeTotal();
    forall num | StatsSegKindsAre(stats, num) ensures TransitiveOn(multiset(a[..]), DocSegLe) {
      DocSegLeTransitive(a[..], num);
    }
    InsertionSort(a, DocSegLe);
    segs := a[..];
    forall num | StatsSegKindsAre(stats, num) ensures StrictlySorted(segs) {
      SortedDistinctStrict(segs, num);
    }
  }

  lemma DocSegLeTotal()
    ensures Total(DocSegLe)
  {
    forall a, b ensures DocSegLe(a, b) || DocSegLe(b, a) {
      CompareDocSegsFlip(a, b);
    }
  }

  lemma DocSegLeTransitive(s: seq<DocSeg>, num: bool)
    requires forall d :: d in multiset(s) ==> SegIsNum(d) == num
    ensures TransitiveOn(multiset(s), DocSegLe)
  {
    forall x, y, z | x in multiset(s) && y in multiset(s) && z in multiset(s) && DocSegLe(x, y) && DocSegLe(y, z)
      ensures DocSegLe(x, z)
    {
      CompareDocSegsTransitive(x, y, z);
    }
  }

  /** A sorted list without repeats, its segment ids of one kind, is
      strictly sorted. */
  lemma SortedDistinctStrict(s: seq<DocSeg>, num: bool)
    requires SortedBy(s, DocSegLe)
    requires forall d :: multiset(s)[d] <= 1
    requires forall d :: d in multiset(s) ==> SegIsNum(d) == num
    ensures StrictlySorted(s)
  {
    forall i, j | 0 <= i < j < |s| ensures CompareDocSegs(s[i], s[j]) < 0 {
      assert s[i] in multiset(s) && s[j] in multiset(s);
      CompareDocSegsZero(s[i], s[j]);
      if s[i] == s[j] {
        RepeatCounted(s, i, j);
      }
    }
  }

  lemma RepeatCounted<T>(s: seq<T>, i: int, j: int)
    requires 0 <= i < j < |s| && s[i] == s[j]
    ensures multiset(s)[s[i]] >= 2
  {
    assert s == s[..j] + s[j..];
    assert s[..j][i] == s[i] && s[j..][0] == s[j];
    assert multiset(s) == multiset(s[..j]) + multiset(s[j..]);
  }

  /** The loop in `mqmShowSysVSys` that walks both sorted lists at once,
      as a function: the pairs it pushes. */
  function Common(s1: seq<DocSeg>, s2: seq<DocSeg>): seq<DocSeg>
    decreases |s1| + |s2|
  {
    if |s1| == 0 || |s2| == 0 then []
    else
      var c := CompareDocSegs(s1[0], s2[0]);
      if c < 0 then Common(s1[1..], s2)
      else if c > 0 then Common(s1, s2[1..])
      else [s1[0]] + Common(s1[1..], s2[1..])
  }

  /** The two-pointer loop itself. */
  method IntersectDocSegs(docsegs1: seq<DocSeg>, docsegs2: seq<DocSeg>) returns (docsegs12: seq<DocSeg>)
    ensures docsegs12 == Common(docsegs1, docsegs2)
  {
    var i1, i2 := 0, 0;
    docsegs12 := [];
    while i1 < |docsegs1| && i2 < |docsegs2|
      invariant 0 <= i1 <= |docsegs1| && 0 <= i2 <= |docsegs2|
      invariant docsegs12 + Common(docsegs1[i1..], docsegs2[i2..]) == Common(docsegs1, docsegs2)
      decreases |docsegs1| - i1 + |docsegs2| - i2
    {
      var ds1 := docsegs1[i1];
      var ds2 := docsegs2[i2];
      var sort := CompareDocSegs(ds1, ds2);
      assert docsegs1[i1..][1..] == docsegs1[i1 + 1..];
      assert docsegs2[i2..][1..] == docsegs2[i2 + 1..];
      if sort < 0 {
        i1 := i1 + 1;
      } else if sort > 0 {
        i2 := i2 + 1;
      } else {
        docsegs12 := docsegs12 + [ds1];
        i1 := i1 + 1;
        i2 := i2 + 1;
      }
    }
  }

  /** Every pair the loop keeps comes from the first list. */
  lemma {:induction false} CommonFromFirst(s1: seq<DocSeg>, s2: seq<DocSeg>)
    decreases |s1| + |s2|
    ensures forall x :: x in Common(s1, s2) ==> x in s1
  {
    if |s1| > 0 && |s2| > 0 {
      var c := CompareDocSegs(s1[0], s2[0]);
      if c < 0 {
        CommonFromFirst(s1[1..], s2);
      } else if c > 0 {
        CommonFromFirst(s1, s2[1..]);
      } else {
        CommonFromFirst(s1[1..], s2[1..]);
      }
    }
  }

  lemma TailSorted(s: seq<DocSeg>, num: bool)
    requires |s| > 0 && StrictlySorted(s) && SegKindsAre(s, num)
    ensures StrictlySorted(s[1..]) && SegKindsAre(s[1..], num)
  {
  }

  /** A pair below the head of a strictly sorted list of its kind is not in
      the list. */
  lemma BelowHeadAbsent(x: DocSeg, s: seq<DocSeg>, num: bool)
    requires |s| > 0 && StrictlySorted(s) && SegKindsAre(s, num) && SegIsNum(x) == num
    requires CompareDocSegs(x, s[0]) < 0
    ensures x !in s
  {
    forall k | 0 <= k < |s| ensures s[k] != x {
      if k > 0 {
        CompareDocSegsTransitive(x, s[0], s[k]);
      }
      CompareDocSegsZero(x, s[k]);
    }
  }

  /** On strictly sorted lists whose segment ids are all of one kind, the
      loop keeps exactly the pairs in both lists. */
  lemma {:induction false} CommonIsIntersection(s1: seq<DocSeg>, s2: seq<DocSeg>, num: bool)
    requires StrictlySorted(s1) && StrictlySorted(s2)
    requires SegKindsAre(s1, num) && SegKindsAre(s2, num)
    decreases |s1| + |s2|
    ensures forall x :: x in Common(s1, s2) <==> x in s1 && x in s2
  {
    if |s1| > 0 && |s2| > 0 {
      var c := CompareDocSegs(s1[0], s2[0]);
      assert s1 == [s1[0]] + s1[1..];
      assert s2 == [s2[0]] + s2[1..];
      if c < 0 {
        TailSorted(s1, num);
        CommonIsIntersection(s1[1..], s2, num);
        BelowHeadAbsent(s1[0], s2, num);
      } else if c > 0 {
        TailSorted(s2, num);
        CommonIsIntersection(s1, s2[1..], num);
        CompareDocSegsFlip(s1[0], s2[0]);
        BelowHeadAbsent(s2[0], s1, num);
      } else {
        CompareDocSegsZero(s1[0], s2[0]);
        TailSorted(s1, num);
        TailSorted(s2, num);
        CommonIsIntersection(s1[1..], s2[1..], num);
        assert s1[0] !in s1[1..] by {
          forall k | 1 <= k < |s1| ensures s1[k] != s1[0] {
            CompareDocSegsZero(s1[0], s1[k]);
          }
        }
        assert s2[0] !in s2[1..] by {
          forall k | 1 <= k < |s2| ensures s2[k] != s2[0] {
            CompareDocSegsZero(s2[0], s2[k]);
          }
        }
      }
    }
  }

  /** The loop keeps pairs in the order of the first list: strictly sorted
      when that list is. */
  lemma {:induction false} CommonSorted(s1: seq<DocSeg>, s2: seq<DocSeg>)
    requires StrictlySorted(s1)
    decreases |s1| + |s2|
    ensures StrictlySorted(Common(s1, s2))
  {
    if |s1| > 0 && |s2| > 0 {
      var c := CompareDocSegs(s1[0], s2[0]);
      if c < 0 {
        CommonSorted(s1[1..], s2);
      } else if c > 0 {
        CommonSorted(s1, s2[1..]);
      } else {
        CommonSorted(s1[1..], s2[1..]);
        CommonFromFirst(s1[1..], s2[1..]);
        var rest := Common(s1[1..], s2[1..]);
        forall j | 0 <= j < |rest| ensures CompareDocSegs(s1[0], rest[j]) < 0 {
          assert rest[j] in s1[1..];
          var k :| 0 <= k < |s1| - 1 && s1[1..][k] == rest[j];
          assert s1[k + 1] == rest[j];
        }
      }
    }
  }

  /** With segment ids of both kinds the sorter cannot tell "x" from "1",
      and the loop keeps a pair the second list does not have. */
  lemma MixedKindsCommon()
    ensures Common([DocSeg("d", "x")], [DocSeg("d", "1")]) == [DocSeg("d", "x")]
  {
    assert !IsCanonical("x");
    assert IsCanonical("1") && CanonicalValue("1") == 1;
    assert CompareDocSegs(DocSeg("d", "x"), DocSeg("d", "1")) == 0 by {
      LexLessIrreflexive("d");
    }
  }
}
