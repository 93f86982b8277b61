/** Loading data into the MQM viewer and writing it back out: joining the
    TSV texts handed to `mqmSetData`, parsing their lines into rows,
    sorting and aggregating them, and `mqmGetFilteredTSVData`. */
module ViewerData {
  import opened Wrappers
  import opened Text
  import opened ViewerRows
  import opened ViewerSort
  import opened ViewerSegments
  import opened Runs

  /** The texts handed to `mqmSetData` as one text: empty items are
      skipped, and a newline is put between two items unless the text so
      far already ends with one. */
  function Concatenated(items: seq<string>): string
    decreases |items|
  {
    if |items| == 0 then ""
    else
      var prev := Concatenated(items[..|items| - 1]);
      var item := items[|items| - 1];
      if item == "" then prev
      else if prev != "" && prev[|prev| - 1] != '\n' then prev + "\n" + item
      else prev + item
  }

  /** The joining loop of `mqmSetData`. */
  method ConcatItems(items: seq<string>) returns (all: string)
    ensures all == Concatenated(items)
  {
    all := "";
    for i := 0 to |items|
      invariant all == Concatenated(items[..i])
    {
      assert items[..i + 1][..i] == items[..i];
      if items[i] == "" {
        continue;
      }
      if all != "" && all[|all| - 1] != '\n' {
        all := all + "\n";
      }
      all := all + items[i];
    }
    assert items[..|items|] == items;
  }

  /** The joined text is empty, and `mqmSetData` refuses it, exactly when
      every item is empty. */
  lemma {:induction false} ConcatenatedEmpty(items: seq<string>)
    ensures Concatenated(items) == "" <==> forall i :: 0 <= i < |items| ==> items[i] == ""
  {
    if |items| > 0 {
      var init := items[..|items| - 1];
      ConcatenatedEmpty(init);
      if Concatenated(items) == "" {
        forall i | 0 <= i < |items| ensures items[i] == "" {
          if i < |items| - 1 {
            assert items[i] == init[i];
          }
        }
      }
    }
  }

  /** The values `f` finds in `xs`, in order, skipping the elements it
      finds nothing in. */
  function KeepFound<X, Y>(xs: seq<X>, f: X -> Option<Y>): seq<Y>
  {
    if |xs| == 0 then [] else Found(xs[0], f) + KeepFound(xs[1..], f)
  }

  /** What `f` finds in one element, as a list of zero or one values. */
  function Found<X, Y>(x: X, f: X -> Option<Y>): seq<Y>
  {
    if f(x).Some? then [f(x).value] else []
  }

  lemma {:induction false} KeepFoundConcat<X, Y>(a: seq<X>, b: seq<X>, f: X -> Option<Y>)
    ensures KeepFound(a + b, f) == KeepFound(a, f) + KeepFound(b, f)
  {
    if |a| == 0 {
      assert a + b == b;
    } else {
      var ab := a + b;
      assert ab[0] == a[0];
      assert ab[1..] == a[1..] + b;
      KeepFoundConcat(a[1..], b, f);
      calc {
        KeepFound(ab, f);
        Found(a[0], f) + KeepFound(a[1..] + b, f);
        Found(a[0], f) + (KeepFound(a[1..], f) + KeepFound(b, f));
        (Found(a[0], f) + KeepFound(a[1..], f)) + KeepFound(b, f);
      }
    }
  }

  /** An element adds what `f` finds in it after what was found before. */
  lemma KeepFoundSnoc<X, Y>(xs: seq<X>, i: nat, f: X -> Option<Y>)
    requires i < |xs|
    ensures KeepFound(xs[..i + 1], f) == KeepFound(xs[..i], f) + Found(xs[i], f)
  {
    KeepFoundConcat(xs[..i], [xs[i]], f);
    assert xs[..i + 1] == xs[..i] + [xs[i]];
  }

  /** The row a line parses to, if it parses. */
  function RowOfLine(line: string): Option<Row>
  {
    match ParseLine(line)
    case Parsed(r) => Some(r)
    case _ => None
  }

  /** The rows `mqmSetData` builds from a list of lines, in order: one per
      line that parses, none for blank, header and unparsable lines. */
  function ParsedRows(lines: seq<string>): seq<Row>
  {
    KeepFound(lines, RowOfLine)
  }

  /** The parsing loop of `mqmSetData` over the lines of `text`. */
  method ParseLines(text: string) returns (rows: seq<Row>)
    ensures rows == ParsedRows(Split(text, '\n'))
  {
    var lines := Split(text, '\n');
    rows := [];
    for i := 0 to |lines|
      invariant rows == ParsedRows(lines[..i])
    {
      KeepFoundSnoc(lines, i, RowOfLine);
      var outcome := ParseLine(lines[i]);
      if outcome.Parsed? {
        rows := rows + [outcome.row];
      }
    }
    assert lines[..|lines|] == lines;
  }

  /** Each item's rows, item after item. */
  function RowsOfItems(items: seq<string>): seq<Row>
    decreases |items|
  {
    if |items| == 0 then []
    else RowsOfItems(items[..|items| - 1]) + ParsedRows(Split(items[|items| - 1], '\n'))
  }

  /** A text ending in a newline parses as the text before it. */
  lemma TrailingNewlineIgnored(a: string)
    ensures ParsedRows(Split(a + "\n", '\n')) == ParsedRows(Split(a, '\n'))
  {
    SplitConcat(a, '\n', "");
    assert a + "\n" == a + ['\n'] + "";
    KeepFoundConcat(Split(a, '\n'), [""], RowOfLine);
    assert RowOfLine("") == None;
  }

  /** Loading several texts at once gives the rows of each, in order:
      joining never merges the last line of one text with the first line of
      the next. */
  lemma {:induction false} ConcatenatedParses(items: seq<string>)
    ensures ParsedRows(Split(Concatenated(items), '\n')) == RowsOfItems(items)
  {
    if |items| > 0 {
      var init := items[..|items| - 1];
      var item := items[|items| - 1];
      ConcatenatedParses(init);
      JoinedParses(Concatenated(init), item);
      assert Concatenated(items) ==
        if item == "" then Concatenated(init)
        else if Concatenated(init) != "" && Concatenated(init)[|Concatenated(init)| - 1] != '\n'
        then Concatenated(init) + "\n" + item
        else Concatenated(init) + item;
      assert RowsOfItems(items) == RowsOfItems(init) + ParsedRows(Split(item, '\n'));
    } else {
      EmptyParsesNone();
    }
  }

  /** The empty text holds no rows. */
  lemma EmptyParsesNone()
    ensures ParsedRows(Split("", '\n')) == []
  {
    assert Split("", '\n') == [""] && RowOfLine("") == None;
    assert ParsedRows([""]) == Found("", RowOfLine) + KeepFound([], RowOfLine);
  }

  /** One step of the join: the text so far, then one more item, parse as
      the rows of each. */
  lemma JoinedParses(prev: string, item: string)
    ensures ParsedRows(Split(
      if item == "" then prev
      else if prev != "" && prev[|prev| - 1] != '\n' then prev + "\n" + item
      else prev + item, '\n'))
      == ParsedRows(Split(prev, '\n')) + ParsedRows(Split(item, '\n'))
  {
    if item == "" {
      EmptyParsesNone();
    } else if prev != "" && prev[|prev| - 1] != '\n' {
      SplitConcat(prev, '\n', item);
      assert prev + "\n" + item == prev + ['\n'] + item;
      KeepFoundConcat(Split(prev, '\n'), Split(item, '\n'), RowOfLine);
    } else if prev == "" {
      assert prev + item == item;
      EmptyParsesNone();
    } else {
      var head := prev[..|prev| - 1];
      assert prev == head + "\n";
      assert prev + item == head + ['\n'] + item;
      SplitConcat(head, '\n', item);
      KeepFoundConcat(Split(head, '\n'), Split(item, '\n'), RowOfLine);
      TrailingNewlineIgnored(head);
    }
  }

  /** `mqmGetFilteredTSVData` as a value: one line per row, its ten TSV
      fields joined by tabs, each line ended by a newline. */
  function FilteredTsvText(rows: seq<Row>): string
  {
    if |rows| == 0 then "" else Join(TsvFields(rows[0]), "\t") + "\n" + FilteredTsvText(rows[1..])
  }

  /** The loop of `mqmGetFilteredTSVData`. */
  method FilteredTsv(rows: seq<Row>) returns (tsv: string)
    ensures tsv == FilteredTsvText(rows)
  {
    tsv := "";
    for i := 0 to |rows|
      invariant tsv + FilteredTsvText(rows[i..]) == FilteredTsvText(rows)
    {
      assert rows[i..][1..] == rows[i + 1..];
      tsv := tsv + Join(TsvFields(rows[i]), "\t") + "\n";
    }
  }

  /** No field of the row holds `c`. */
  predicate FieldsWithout(row: Row, c: char)
  {
    forall k :: 0 <= k < 10 ==> c !in TsvFields(row)[k]
  }

  /** The line a row is written as. */
  function TsvLine(row: Row): string
  {
    Join(TsvFields(row), "\t")
  }

  /** With no newline or tab inside a field, the written text splits back
      into one line per row (and the empty text after the last newline),
      and each line splits back into the row's ten fields. */
  lemma {:induction false} FilteredTsvLines(rows: seq<Row>)
    requires forall i :: 0 <= i < |rows| ==> FieldsWithout(rows[i], '\n') && FieldsWithout(rows[i], '\t')
    ensures var lines := Split(FilteredTsvText(rows), '\n');
      |lines| == |rows| + 1 && lines[|rows|] == ""
      && forall i :: 0 <= i < |rows| ==>
        lines[i] == TsvLine(rows[i]) && Split(lines[i], '\t') == TsvFields(rows[i])
  {
    if |rows| > 0 {
      var line := TsvLine(rows[0]);
      var rest := FilteredTsvText(rows[1..]);
      FilteredTsvLines(rows[1..]);
      JoinWithout(TsvFields(rows[0]), '\n', '\t');
      SplitAfter(line, '\n', rest);
      assert FilteredTsvText(rows) == line + ['\n'] + rest;
      SplitJoin(TsvFields(rows[0]), '\t');
      forall i | 1 <= i < |rows| ensures rows[1..][i - 1] == rows[i] { }
    }
  }

  /** `mqmData.sort(...)` on a fresh array holding `rows`. */
  method SortedRows(rows: seq<Row>) returns (sorted: seq<Row>)
    ensures multiset(sorted) == multiset(rows)
    ensures UniformIds(rows) ==> Sorted(sorted)
  {
    var a := new Row[|rows|](i requires 0 <= i < |rows| => rows[i]);
    assert a[..] == rows;
    SortData(a);
    sorted := a[..];
  }

  /** What `mqmSetData` builds from `items`: the rows of each item, as
      one multiset, sorted when the ids are of uniform kinds, numbered by
      segment, and each pointing at the aggregation of its segment's run. */
  predicate LoadedFrom(items: seq<string>, data: seq<Row>, segments: seq<Segment>, segOf: seq<nat>)
  {
    && multiset(data) == multiset(RowsOfItems(items))
    && (UniformIds(RowsOfItems(items)) ==> Sorted(data))
    && |segOf| == |data| && Numbered(data, SegKey, segOf)
    && forall i :: 0 <= i < |data| ==>
      segOf[i] < |segments|
      && segments[segOf[i]] == Aggregate(data[RunStart(data, SegKey, i)..RunEnd(data, SegKey, i)])
  }

  /** The work of `mqmSetData` on values: join, parse, sort, aggregate. */
  method Load(items: seq<string>) returns (all: string, data: seq<Row>, segments: seq<Segment>, segOf: seq<nat>)
    ensures all == Concatenated(items)
    ensures all != "" ==> LoadedFrom(items, data, segments, segOf)
  {
    all := ConcatItems(items);
    if all == "" {
      return all, [], [], [];
    }
    var rows := ParseLines(all);
    ConcatenatedParses(items);
    data := SortedRows(rows);
    segments, segOf := AddSegmentAggregations(data);
  }

  /** The viewer's loaded data: the joined TSV text, the rows of
      `mqmData`, and the segment objects the rows point at. */
  class Viewer {
    var tsvData: string
    var data: seq<Row>
    var segments: seq<Segment>
    var segOf: seq<nat>

    constructor()
      ensures tsvData == "" && data == [] && segments == [] && segOf == []
    {
      tsvData, data, segments, segOf := "", [], [], [];
    }

    /** `mqmSetData(items)`: an all-empty input is refused and changes
        nothing; otherwise `mqmData` is rebuilt from the parsed lines,
        sorted, and given its segment aggregations. */
    method SetData(items: seq<string>)
      modifies this
      ensures Concatenated(items) == "" ==>
        tsvData == old(tsvData) && data == old(data) && segments == old(segments) && segOf == old(segOf)
      ensures Concatenated(items) != "" ==>
        tsvData == Concatenated(items) && LoadedFrom(items, data, segments, segOf)
    {
      var all, rows, segs, idx := Load(items);
      if all == "" {
        return;
      }
      tsvData, data, segments, segOf := all, rows, segs, idx;
    }
  }
}
