/** `mqmAddSegmentAggregations`: the rows of one segment translation, a
    maximal run of consecutive rows with equal (doc, docSegId, globalSegId),
    share one object collecting their categories and severities by system
    and by rater. */
module ViewerSegments {
  import opened ViewerRows
  import opened Runs

  /** The list under `k`, empty when there is none. */
  function Lookup(m: map<string, seq<string>>, k: string): seq<string>
  {
    if k in m then m[k] else []
  }

  /** `mqmAddToArray(obj, key, val)`. */
  function AddToArray(m: map<string, seq<string>>, key: string, val: string): (r: map<string, seq<string>>)
    ensures r.Keys == m.Keys + {key}
  {
    m[key := Lookup(m, key) + [val]]
  }

  /** The values `val` of the rows whose `key` is `k`, in row order: what a
      list of the segment object holds, stated without the object. */
  function Collect(rows: seq<Row>, key: Row -> string, val: Row -> string, k: string): seq<string>
    decreases |rows|
  {
    if |rows| == 0 then []
    else
      var last := rows[|rows| - 1];
      Collect(rows[..|rows| - 1], key, val, k) + (if key(last) == k then [val(last)] else [])
  }

  /** The rows whose `key` is `k`. */
  function Matching(rows: seq<Row>, key: Row -> string, k: string): nat
    decreases |rows|
  {
    if |rows| == 0 then 0
    else Matching(rows[..|rows| - 1], key, k) + (if key(rows[|rows| - 1]) == k then 1 else 0)
  }

  /** One entry per matching row. */
  lemma {:induction false} CollectLength(rows: seq<Row>, key: Row -> string, val: Row -> string, k: string)
    decreases |rows|
    ensures |Collect(rows, key, val, k)| == Matching(rows, key, k)
  {
    if |rows| > 0 {
      CollectLength(rows[..|rows| - 1], key, val, k);
    }
  }

  /** The object built by `mqmAddToArray` calls over `rows`, in order. */
  function Grouped(rows: seq<Row>, key: Row -> string, val: Row -> string): map<string, seq<string>>
    decreases |rows|
  {
    if |rows| == 0 then map[]
    else
      var last := rows[|rows| - 1];
      AddToArray(Grouped(rows[..|rows| - 1], key, val), key(last), val(last))
  }

  /** The object holds a list for each key some row has, and that list is
      the collected values. */
  lemma {:induction false} GroupedCollects(rows: seq<Row>, key: Row -> string, val: Row -> string, k: string)
    decreases |rows|
    ensures Lookup(Grouped(rows, key, val), k) == Collect(rows, key, val, k)
    ensures k in Grouped(rows, key, val) <==> exists i :: 0 <= i < |rows| && key(rows[i]) == k
  {
    if |rows| > 0 {
      var init := rows[..|rows| - 1];
      GroupedCollects(init, key, val, k);
      if exists i :: 0 <= i < |init| && key(init[i]) == k {
        var i :| 0 <= i < |init| && key(init[i]) == k;
        assert rows[i] == init[i];
      }
      if exists i :: 0 <= i < |rows| && key(rows[i]) == k {
        var i :| 0 <= i < |rows| && key(rows[i]) == k;
        if i < |init| {
          assert init[i] == rows[i];
        }
      }
    }
  }

  /** `severity + (category ? "/" + category : "")`. */
  function SevCat(r: Row): string
  {
    r.severity + (if r.category != "" then "/" + r.category else "")
  }

  /** The segment object: lists of categories, severities and
      severity/category strings, each keyed by system and by rater. */
  datatype Segment = Segment(
    catsBySystem: map<string, seq<string>>, catsByRater: map<string, seq<string>>,
    sevsBySystem: map<string, seq<string>>, sevsByRater: map<string, seq<string>>,
    sevcatsBySystem: map<string, seq<string>>, sevcatsByRater: map<string, seq<string>>)

  const EMPTY_SEGMENT := Segment(map[], map[], map[], map[], map[], map[])

  /** The six `mqmAddToArray` calls for one row. */
  function AddRow(s: Segment, r: Row): Segment
  {
    Segment(AddToArray(s.catsBySystem, r.system, r.category),
            AddToArray(s.catsByRater, r.rater, r.category),
            AddToArray(s.sevsBySystem, r.system, r.severity),
            AddToArray(s.sevsByRater, r.rater, r.severity),
            AddToArray(s.sevcatsBySystem, r.system, SevCat(r)),
            AddToArray(s.sevcatsByRater, r.rater, SevCat(r)))
  }

  /** The segment object of a run of rows: one `AddRow` per row, in
      order. */
  function Aggregate(rows: seq<Row>): Segment
  {
    Fold(rows, AddRow, EMPTY_SEGMENT)
  }

  /** Each list of the segment object is the object `mqmAddToArray` builds
      for its key and value over the run. */
  lemma {:induction false} AggregateGrouped(rows: seq<Row>)
    decreases |rows|
    ensures var s := Aggregate(rows);
      s.catsBySystem == Grouped(rows, (r: Row) => r.system, (r: Row) => r.category)
      && s.catsByRater == Grouped(rows, (r: Row) => r.rater, (r: Row) => r.category)
      && s.sevsBySystem == Grouped(rows, (r: Row) => r.system, (r: Row) => r.severity)
      && s.sevsByRater == Grouped(rows, (r: Row) => r.rater, (r: Row) => r.severity)
      && s.sevcatsBySystem == Grouped(rows, (r: Row) => r.system, SevCat)
      && s.sevcatsByRater == Grouped(rows, (r: Row) => r.rater, SevCat)
  {
    if |rows| > 0 {
      AggregateGrouped(rows[..|rows| - 1]);
    }
  }

  /** Each per-system list of a segment holds one entry per row of that
      system, in row order: its category, severity or severity/category. */
  lemma AggregateBySystem(rows: seq<Row>, system: string)
    ensures var s := Aggregate(rows);
      Lookup(s.catsBySystem, system) == Collect(rows, (r: Row) => r.system, (r: Row) => r.category, system)
      && Lookup(s.sevsBySystem, system) == Collect(rows, (r: Row) => r.system, (r: Row) => r.severity, system)
      && Lookup(s.sevcatsBySystem, system) == Collect(rows, (r: Row) => r.system, SevCat, system)
      && |Lookup(s.catsBySystem, system)| == Matching(rows, (r: Row) => r.system, system)
  {
    AggregateGrouped(rows);
    GroupedCollects(rows, (r: Row) => r.system, (r: Row) => r.category, system);
    GroupedCollects(rows, (r: Row) => r.system, (r: Row) => r.severity, system);
    GroupedCollects(rows, (r: Row) => r.system, SevCat, system);
    CollectLength(rows, (r: Row) => r.system, (r: Row) => r.category, system);
  }

  /** The same, per rater. */
  lemma AggregateByRater(rows: seq<Row>, rater: string)
    ensures var s := Aggregate(rows);
      Lookup(s.catsByRater, rater) == Collect(rows, (r: Row) => r.rater, (r: Row) => r.category, rater)
      && Lookup(s.sevsByRater, rater) == Collect(rows, (r: Row) => r.rater, (r: Row) => r.severity, rater)
      && Lookup(s.sevcatsByRater, rater) == Collect(rows, (r: Row) => r.rater, SevCat, rater)
      && |Lookup(s.catsByRater, rater)| == Matching(rows, (r: Row) => r.rater, rater)
  {
    AggregateGrouped(rows);
    GroupedCollects(rows, (r: Row) => r.rater, (r: Row) => r.category, rater);
    GroupedCollects(rows, (r: Row) => r.rater, (r: Row) => r.severity, rater);
    GroupedCollects(rows, (r: Row) => r.rater, SevCat, rater);
    CollectLength(rows, (r: Row) => r.rater, (r: Row) => r.category, rater);
  }

  /** The segment translation a row belongs to. */
  function SegKey(r: Row): (string, string, string)
  {
    (r.doc, r.docSegId, r.globalSegId)
  }

  /** `mqmAddSegmentAggregations()` over `mqmData`: the object row `i` gets
      is `segments[segOf[i]]`. Rows are numbered by run of equal segment
      translation, so rows share an object exactly when they are in one run,
      and each object aggregates its whole run. */
  method AddSegmentAggregations(rows: seq<Row>) returns (segments: seq<Segment>, segOf: seq<nat>)
    ensures |segOf| == |rows| && Numbered(rows, SegKey, segOf)
    ensures forall i :: 0 <= i < |rows| ==> segOf[i] < |segments|
    ensures |rows| == 0 ==> segments == []
    ensures |rows| > 0 ==> segOf[|rows| - 1] == |segments| - 1
    ensures forall i :: 0 <= i < |rows| ==>
      segments[segOf[i]] == Aggregate(rows[RunStart(rows, SegKey, i)..RunEnd(rows, SegKey, i)])
  {
    segments, segOf := FoldRuns(rows, SegKey, AddRow, EMPTY_SEGMENT);
  }
}
