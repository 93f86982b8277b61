/** The viewer's nested counters: error counts by severity, category and
    system, UI event timings, and the system-versus-system histogram
    builder. */
module ViewerStats {
  import opened ViewerRows

  /** The key under which every system's count is also added up. */
  const TOTAL := "_MQM_TOTAL_"

  /** The sum of the counts in `m`. */
  ghost function Sum(m: map<string, nat>): nat
    decreases |m.Keys|
  {
    if m == map[] then 0
    else
      var k :| k in m;
      assert (m - {k}).Keys < m.Keys;
      m[k] + Sum(m - {k})
  }

  /** Any key's count can be taken out of the sum first. */
  lemma {:induction false} SumRemove(m: map<string, nat>, k: string)
    requires k in m
    decreases |m.Keys|
    ensures Sum(m) == m[k] + Sum(m - {k})
  {
    var j :| j in m && Sum(m) == m[j] + Sum(m - {j});
    if j != k {
      assert (m - {j}).Keys < m.Keys;
      SumRemove(m - {j}, k);
      assert (m - {k}).Keys < m.Keys;
      SumRemove(m - {k}, j);
      assert (m - {j}) - {k} == (m - {k}) - {j};
    }
  }

  /** The count of `k` in `m`, 0 when there is none. */
  function Get(m: map<string, nat>, k: string): nat
  {
    if k in m then m[k] else 0
  }

  /** `m` with the count of `k` one higher, created at 0 first if need be. */
  function Inc(m: map<string, nat>, k: string): (r: map<string, nat>)
    ensures r.Keys == m.Keys + {k}
    ensures Get(r, k) == Get(m, k) + 1
    ensures forall j :: j != k ==> Get(r, j) == Get(m, j)
  {
    m[k := Get(m, k) + 1]
  }

  /** Raising one count raises the sum by one. */
  lemma IncSum(m: map<string, nat>, k: string)
    ensures Sum(Inc(m, k)) == Sum(m) + 1
  {
    var r := Inc(m, k);
    SumRemove(r, k);
    if k in m {
      SumRemove(m, k);
      assert r - {k} == m - {k};
    } else {
      assert r - {k} == m;
    }
  }

  type Counts = map<string, map<string, map<string, nat>>>

  /** `statsArray[severity][category][key]`, 0 when absent. */
  function Count(c: Counts, severity: string, category: string, key: string): nat
  {
    if severity in c && category in c[severity] then Get(c[severity][category], key) else 0
  }

  /** The counters after `mqmAddSevCatStats(statsArray, system, category,
      severity)`. */
  function Added(c: Counts, system: string, category: string, severity: string): (r: Counts)
    ensures severity in r && category in r[severity] && TOTAL in r[severity][category]
    ensures system in r[severity][category]
  {
    var bySev := if severity in c then c[severity] else map[];
    var byCat := if category in bySev then bySev[category] else map[TOTAL := 0];
    c[severity := bySev[category := Inc(Inc(byCat, TOTAL), system)]]
  }

  /** One call raises the total and the system's count by one each (the
      total by two when the system is the total key itself) and changes
      no other count. */
  lemma AddedCounts(c: Counts, system: string, category: string, severity: string,
                    sev: string, cat: string, key: string)
    ensures var after := Count(Added(c, system, category, severity), sev, cat, key);
      var before := Count(c, sev, cat, key);
      after == before
        + (if sev == severity && cat == category && key == TOTAL then 1 else 0)
        + (if sev == severity && cat == category && key == system then 1 else 0)
  {
  }

  /** Every total counter holds the sum of its systems' counters. */
  ghost predicate TotalsAdd(c: Counts)
  {
    forall sev, cat :: sev in c && cat in c[sev] ==>
      TOTAL in c[sev][cat] && c[sev][cat][TOTAL] == Sum(c[sev][cat] - {TOTAL})
  }

  /** A total that sums its systems still does after one more count for
      a system other than the total key and one more for the total. */
  lemma IncKeepsTotal(byCat: map<string, nat>, system: string)
    requires TOTAL in byCat && byCat[TOTAL] == Sum(byCat - {TOTAL}) && system != TOTAL
    ensures var m := Inc(Inc(byCat, TOTAL), system);
      TOTAL in m && m[TOTAL] == Sum(m - {TOTAL})
  {
    var m := Inc(Inc(byCat, TOTAL), system);
    assert m - {TOTAL} == Inc(byCat - {TOTAL}, system);
    IncSum(byCat - {TOTAL}, system);
  }

  /** A call for a system other than the total key keeps the totals right. */
  lemma AddedKeepsTotals(c: Counts, system: string, category: string, severity: string)
    requires TotalsAdd(c) && system != TOTAL
    ensures TotalsAdd(Added(c, system, category, severity))
  {
    var bySev := if severity in c then c[severity] else map[];
    var byCat := if category in bySev then bySev[category] else map[TOTAL := 0];
    assert TOTAL in byCat && byCat[TOTAL] == Sum(byCat - {TOTAL}) by {
      if category !in bySev {
        assert byCat - {TOTAL} == map[];
      }
    }
    IncKeepsTotal(byCat, system);
  }

  /** The counters after a run of calls, one per (system, category,
      severity) triple, in order. */
  function AddedAll(c: Counts, calls: seq<(string, string, string)>): Counts
    decreases |calls|
  {
    if |calls| == 0 then c
    else AddedAll(Added(c, calls[0].0, calls[0].1, calls[0].2), calls[1..])
  }

  /** After any run of calls for systems other than the total key, starting
      from empty counters, every total is the sum of its systems. */
  lemma {:induction false} AddedAllKeepsTotals(c: Counts, calls: seq<(string, string, string)>)
    requires TotalsAdd(c)
    requires forall i :: 0 <= i < |calls| ==> calls[i].0 != TOTAL
    decreases |calls|
    ensures TotalsAdd(AddedAll(c, calls))
  {
    if |calls| > 0 {
      AddedKeepsTotals(c, calls[0].0, calls[0].1, calls[0].2);
      AddedAllKeepsTotals(Added(c, calls[0].0, calls[0].1, calls[0].2), calls[1..]);
    }
  }

  /** The three updates of one category's counters: the system's entry
      created at 0 if need be, then the total and the system raised. */
  method CountIn(byCat: map<string, nat>, system: string) returns (r: map<string, nat>)
    ensures r == Inc(Inc(byCat, TOTAL), system)
  {
    r := byCat;
    if system !in r {
      r := r[system := 0];
    }
    // A total missing from an existing category counts as 0 here.
    r := r[TOTAL := Get(r, TOTAL) + 1];
    r := r[system := r[system] + 1];
    assert r.Keys == byCat.Keys + {TOTAL, system};
  }

  /** `mqmStatsBySevCat` and the like: a severity, category and system
      keyed counter object. */
  class SevCatStats {
    var counts: Counts

    constructor()
      ensures counts == map[]
    {
      counts := map[];
    }

    /** `mqmAddSevCatStats(this, system, category, severity)`. */
    method Add(system: string, category: string, severity: string)
      modifies this
      ensures counts == Added(old(counts), system, category, severity)
    {
      var bySev := if severity in counts then counts[severity] else map[];
      var byCat := if category in bySev then bySev[category] else map[TOTAL := 0];
      byCat := CountIn(byCat, system);
      counts := counts[severity := bySev[category := byCat]];
    }
  }

  /** The event timings after `mqmAddEvents(events, metadata)` for
      timings `t`: each event's count and time added in. */
  function Merged(events: map<string, Timing>, t: map<string, Timing>): (r: map<string, Timing>)
    ensures r.Keys == events.Keys + t.Keys
  {
    map e | e in events.Keys + t.Keys ::
      var old0 := if e in events then events[e] else Timing(0, 0);
      if e in t then Timing(old0.count + t[e].count, old0.timeMS + t[e].timeMS) else old0
  }

  /** Merging is order independent: rows can be visited in any order. */
  lemma MergedCommutes(events: map<string, Timing>, t1: map<string, Timing>, t2: map<string, Timing>)
    ensures Merged(Merged(events, t1), t2) == Merged(Merged(events, t2), t1)
  {
  }

  /** Merging no timings changes nothing. */
  lemma MergedEmpty(events: map<string, Timing>)
    ensures Merged(events, map[]) == events
  {
  }

  /** The timings of the events in `done`. */
  function Restrict(t: map<string, Timing>, done: set<string>): (r: map<string, Timing>)
    requires done <= t.Keys
    ensures r.Keys == done
  {
    map e | e in done :: t[e]
  }

  /** Merging one more event's timing changes that event's entry alone. */
  lemma MergedStep(events: map<string, Timing>, t: map<string, Timing>, done: set<string>, e: string)
    requires done <= t.Keys && e in t && e !in done
    ensures var before := Merged(events, Restrict(t, done));
      var base := if e in before then before[e] else Timing(0, 0);
      Merged(events, Restrict(t, done + {e}))
        == before[e := Timing(base.count + t[e].count, base.timeMS + t[e].timeMS)]
  {
  }

  /** `mqmStatsEvents`: event timings keyed by event name. */
  class EventCounters {
    var events: map<string, Timing>

    constructor()
      ensures events == map[]
    {
      events := map[];
    }

    /** `mqmAddEvents(this, metadata)`: nothing without timings, otherwise
        each timing added to its event. */
    method AddEvents(metadata: Metadata)
      modifies this
      ensures metadata.timing.None? ==> events == old(events)
      ensures metadata.timing.Some? ==> events == Merged(old(events), metadata.timing.value)
    {
      if metadata.timing.None? {
        return;
      }
      var timing := metadata.timing.value;
      var keys := timing.Keys;
      ghost var done: set<string> := {};
      while keys != {}
        invariant keys == timing.Keys - done && done <= timing.Keys
        invariant events == Merged(old(events), Restrict(timing, done))
        decreases keys
      {
        var e :| e in keys;
        MergedStep(old(events), timing, done, e);
        if e !in events {
          events := events[e := Timing(0, 0)];
        }
        events := events[e := Timing(events[e].count + timing[e].count, events[e].timeMS + timing[e].timeMS)];
        keys := keys - {e};
        done := done + {e};
      }
      assert Restrict(timing, done) == timing;
    }
  }

  /** Rows read from TSV carry no timings, so they add no events. */
  lemma ParsedRowsAddNoEvents(line: string)
    requires ParseLine(line).Parsed?
    ensures ParseLine(line).row.metadata.timing.None?
  {
  }

  /** `mqmDocSegKey(doc, seg)`. */
  function DocSegText(doc: string, seg: string): string
  {
    doc + ":" + seg
  }

  /** How the two systems' segment scores compare: equal, the first lower
      (the first system better) or the first higher. */
  datatype ScoreOrder = Same | FirstLower | FirstHigher

  function Max(a: int, b: int): int
  {
    if a >= b then a else b
  }

  /** The keys in bin `b`, none when the bin is absent. */
  function Bin(m: map<int, seq<string>>, b: int): seq<string>
  {
    if b in m then m[b] else []
  }

  /** `which[bin]` created empty if need be, then `key` pushed onto it. */
  method AppendToBin(which: map<int, seq<string>>, bin: int, key: string) returns (r: map<int, seq<string>>)
    ensures r == which[bin := Bin(which, bin) + [key]]
  {
    r := which;
    if bin !in r {
      r := r[bin := []];
    }
    r := r[bin := r[bin] + [key]];
  }

  /** `MQMSysVSysHistBuilder`: the segments with equal scores, the two
      families of difference bins, and the axis bounds. */
  class HistBuilder {
    var equals: seq<string>
    var firstBetter: map<int, seq<string>>
    var secondBetter: map<int, seq<string>>
    var maxBin: int
    var maxCount: int

    /** The axes cover every bin and every bin's height. */
    ghost predicate Valid()
      reads this
    {
      1 <= maxBin && 8 <= maxCount && |equals| <= maxCount
      && (forall b :: b in firstBetter ==> 0 <= b <= maxBin && |firstBetter[b]| <= maxCount)
      && (forall b :: b in secondBetter ==> 0 <= b <= maxBin && |secondBetter[b]| <= maxCount)
    }

    constructor()
      ensures Valid()
      ensures equals == [] && firstBetter == map[] && secondBetter == map[]
      ensures maxBin == 1 && maxCount == 8
    {
      equals, firstBetter, secondBetter := [], map[], map[];
      maxBin, maxCount := 1, 8;
    }

    /** `addSegment(doc, docSegId, score1, score2)`, given how the scores
        compare and, when they differ, the bin of their difference. The
        key goes to exactly one list, and the axes grow to cover it. */
    method AddSegment(doc: string, docSegId: string, order: ScoreOrder, diffBin: nat)
      modifies this
      ensures old(Valid()) ==> Valid()
      ensures var key := DocSegText(doc, docSegId);
        match order
        case Same =>
          equals == old(equals) + [key] && firstBetter == old(firstBetter) && secondBetter == old(secondBetter)
          && maxBin == old(maxBin) && maxCount == Max(old(maxCount), |equals|)
        case FirstLower =>
          firstBetter == old(firstBetter)[diffBin := Bin(old(firstBetter), diffBin) + [key]]
          && equals == old(equals) && secondBetter == old(secondBetter)
          && maxBin == Max(old(maxBin), diffBin) && maxCount == Max(old(maxCount), |firstBetter[diffBin]|)
        case FirstHigher =>
          secondBetter == old(secondBetter)[diffBin := Bin(old(secondBetter), diffBin) + [key]]
          && equals == old(equals) && firstBetter == old(firstBetter)
          && maxBin == Max(old(maxBin), diffBin) && maxCount == Max(old(maxCount), |secondBetter[diffBin]|)
    {
      var key := DocSegText(doc, docSegId);
      if order == Same {
        equals := equals + [key];
        if |equals| > maxCount {
          maxCount := |equals|;
        }
        return;
      }
      var which := if order == FirstLower then firstBetter else secondBetter;
      which := AppendToBin(which, diffBin, key);
      if diffBin > maxBin {
        maxBin := diffBin;
      }
      if |which[diffBin]| > maxCount {
        maxCount := |which[diffBin]|;
      }
      if order == FirstLower {
        firstBetter := which;
      } else {
        secondBetter := which;
      }
    }
  }
}
