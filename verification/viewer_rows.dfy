/** The MQM viewer's rows: parsing a line of the ten-column TSV the exporter
    writes, the span markup in the source and target columns, writing rows
    back out as TSV, and the small string helpers beside them. */
module ViewerRows {
  import opened Wrappers
  import opened Text

  const WEIGHTED_PREFIX := "weighted-"
  const SLICE_PREFIX := "slice-"

  /** `mqmScoreKey(name, isSlice)`. */
  function ScoreKey(name: string, isSlice: bool): string
  {
    (if isSlice then SLICE_PREFIX else WEIGHTED_PREFIX) + name
  }

  /** `mqmScoreKeyToName(key)`: the key with its prefix stripped. */
  function ScoreKeyToName(key: string): (r: string)
    ensures |r| <= |key| && r == key[|key| - |r|..]
  {
    if StartsWith(key, WEIGHTED_PREFIX) then key[|WEIGHTED_PREFIX|..]
    else if StartsWith(key, SLICE_PREFIX) then key[|SLICE_PREFIX|..]
    else key
  }

  /** Stripping undoes prefixing, for every name and both kinds of key. */
  lemma ScoreKeyRoundTrip(name: string, isSlice: bool)
    ensures ScoreKeyToName(ScoreKey(name, isSlice)) == name
  {
    var key := ScoreKey(name, isSlice);
    if isSlice {
      assert key[0] != WEIGHTED_PREFIX[0];
      assert key[..|SLICE_PREFIX|] == SLICE_PREFIX && key[|SLICE_PREFIX|..] == name;
    } else {
      assert key[..|WEIGHTED_PREFIX|] == WEIGHTED_PREFIX && key[|WEIGHTED_PREFIX|..] == name;
    }
  }

  /** `mqmIsNonTrans(lsev, lcat)` on lower-cased severity and category. */
  predicate IsNonTrans(lsev: string, lcat: string)
  {
    StartsWith(lsev, "non-translation") || StartsWith(lsev, "non_translation")
    || StartsWith(lcat, "non-translation") || StartsWith(lcat, "non_translation")
  }

  /** `mqmIsAccuracy(lcat)`. */
  predicate IsAccuracy(lcat: string)
  {
    StartsWith(lcat, "accuracy") || StartsWith(lcat, "terminology")
  }

  const OPEN_V := "<v>"
  const CLOSE_V := "</v>"
  const CLOSE_SPAN := "</span>"

  function SpanOpen(cls: string): string
  {
    "<span class=\"" + cls + "\">"
  }

  /** `s.replace(/pat/, rep)`: only the first match is replaced. */
  function ReplaceFirst(s: string, pat: string, rep: string): string
    requires |pat| > 0
  {
    var k := IndexOf(s, pat, 0);
    if k == -1 then s else s[..k] + rep + s[k + |pat|..]
  }

  /** Replacing the first match leaves everything after it alone, later
      matches included. */
  lemma ReplaceFirstAt(a: string, pat: string, b: string, rep: string)
    requires |pat| > 0
    requires forall k :: 0 <= k < |a| ==> !MatchAt(a + pat + b, pat, k)
    ensures ReplaceFirst(a + pat + b, pat, rep) == a + rep + b
  {
    var s := a + pat + b;
    assert MatchAt(s, pat, |a|) by {
      assert s[|a|..|a| + |pat|] == pat;
    }
    IndexOfFirst(s, pat, 0, |a|);
    var k := IndexOf(s, pat, 0);
    assert s[..k] == a && s[k + |pat|..] == b;
  }

  /** `mqmMarkSpan(text, cls)`: the first `<v>` becomes an opening span tag
      of class `cls` and then the first `</v>` a closing one. */
  function MarkSpan(text: string, cls: string): string
  {
    ReplaceFirst(ReplaceFirst(text, OPEN_V, SpanOpen(cls)), CLOSE_V, CLOSE_SPAN)
  }

  /** Text without markers passes through unchanged. */
  lemma MarkSpanPlain(text: string, cls: string)
    requires IndexOf(text, OPEN_V, 0) == -1 && IndexOf(text, CLOSE_V, 0) == -1
    ensures MarkSpan(text, cls) == text
  {
  }

  /** A string that starts with '<' followed by anything but '/', and has
      no other '<', holds no `</v>`. */
  predicate OpensWithoutClose(open: string)
  {
    |open| >= 2 && open[0] == '<' && open[1] != '/' && forall c :: 1 <= c < |open| ==> open[c] != '<'
  }

  lemma SpanOpenShape(cls: string)
    requires '<' !in cls
    ensures OpensWithoutClose(SpanOpen(cls))
  {
    var open := SpanOpen(cls);
    forall c | 1 <= c < |open| ensures open[c] != '<' {
      if 13 <= c < 13 + |cls| {
        assert open[c] == cls[c - 13];
      }
    }
  }

  /** Putting such a string in place of the first `<v>` creates no `</v>`
      ahead of the first one already there. */
  lemma {:induction false} NoCloseAhead(text: string, open: string, i: int, j: int, t1: string)
    requires 0 <= i && i + 3 <= j && j + 4 <= |text|
    requires t1 == text[..i] + open + text[i + 3..]
    requires forall k :: 0 <= k < j ==> !MatchAt(text, CLOSE_V, k)
    requires OpensWithoutClose(open)
    ensures forall k :: 0 <= k < j - 3 + |open| ==> !MatchAt(t1, CLOSE_V, k)
  {
    forall k | 0 <= k < j - 3 + |open| ensures !MatchAt(t1, CLOSE_V, k) {
      if k + 4 <= i {
        assert !MatchAt(text, CLOSE_V, k);
        var c :| 0 <= c < 4 && text[k + c] != CLOSE_V[c];
        assert t1[k + c] == text[k + c];
      } else if k < i {
        var d := i - k;
        assert t1[k + d] == '<' && CLOSE_V[d] != '<';
      } else if k == i {
        assert t1[k + 1] == open[1] && CLOSE_V[1] == '/';
      } else if k < i + |open| {
        assert t1[k + 0] == open[k - i] && CLOSE_V[0] == '<';
      } else if k + 4 <= |t1| {
        var d := |open| - 3;
        assert !MatchAt(text, CLOSE_V, k - d);
        var c :| 0 <= c < 4 && text[k - d + c] != CLOSE_V[c];
        assert t1[k + c] == text[k - d + c];
      }
    }
  }

  /** A match at `j` splits the text from `from` on around it. */
  lemma SplitAtMatch(text: string, from: nat, j: int, pat: string)
    requires from <= j && MatchAt(text, pat, j)
    ensures text[from..] == text[from..j] + pat + text[j + |pat|..]
  {
    MatchAtSlice(text, pat, j);
    assert text[from..] == text[from..j] + text[j..j + |pat|] + text[j + |pat|..];
  }

  lemma Regroup(x: string, y: string, z: string, w: string, v: string)
    ensures x + y + (z + w + v) == (x + y + z) + w + v
  {
  }

  /** When the first `<v>` comes before the first `</v>`, exactly those two
      are turned into tags; any later markers stay as they are. */
  lemma MarkSpanFirst(text: string, cls: string)
    requires '<' !in cls
    requires var i := IndexOf(text, OPEN_V, 0); var j := IndexOf(text, CLOSE_V, 0);
      i != -1 && j != -1 && i + |OPEN_V| <= j
    ensures var i := IndexOf(text, OPEN_V, 0); var j := IndexOf(text, CLOSE_V, 0);
      MarkSpan(text, cls) == text[..i] + SpanOpen(cls) + text[i + |OPEN_V|..j] + CLOSE_SPAN + text[j + |CLOSE_V|..]
  {
    var i := IndexOf(text, OPEN_V, 0);
    var j := IndexOf(text, CLOSE_V, 0);
    IndexOfIsFirst(text, OPEN_V, 0);
    IndexOfIsFirst(text, CLOSE_V, 0);
    var open := SpanOpen(cls);
    var t1 := ReplaceFirst(text, OPEN_V, open);
    assert t1 == text[..i] + open + text[i + 3..];
    var a := text[..i] + open + text[i + 3..j];
    var b := text[j + 4..];
    assert t1 == a + CLOSE_V + b by {
      SplitAtMatch(text, i + 3, j, CLOSE_V);
      Regroup(text[..i], open, text[i + 3..j], CLOSE_V, b);
    }
    SpanOpenShape(cls);
    NoCloseAhead(text, open, i, j, t1);
    ReplaceFirstAt(a, CLOSE_V, b, CLOSE_SPAN);
  }

  /** `s.replace(/<\/?v>/g, "")`: every `<v>` and `</v>` found scanning left
      to right is removed. */
  function RemoveMarks(s: string): (r: string)
    ensures |r| <= |s|
    decreases |s|
  {
    if StartsWith(s, OPEN_V) then RemoveMarks(s[|OPEN_V|..])
    else if StartsWith(s, CLOSE_V) then RemoveMarks(s[|CLOSE_V|..])
    else if |s| == 0 then ""
    else [s[0]] + RemoveMarks(s[1..])
  }

  /** A string holding no marker keeps every character. */
  lemma {:induction false} RemoveMarksPlain(s: string)
    requires forall k :: !MatchAt(s, OPEN_V, k) && !MatchAt(s, CLOSE_V, k)
    ensures RemoveMarks(s) == s
    decreases |s|
  {
    if |s| > 0 {
      assert !MatchAt(s, OPEN_V, 0) && !MatchAt(s, CLOSE_V, 0);
      forall k ensures !MatchAt(s[1..], OPEN_V, k) && !MatchAt(s[1..], CLOSE_V, k) {
        if 0 <= k && k + 3 <= |s| - 1 {
          assert s[1..][k..k + 3] == s[k + 1..k + 4];
          assert !MatchAt(s, OPEN_V, k + 1);
        }
        if 0 <= k && k + 4 <= |s| - 1 {
          assert s[1..][k..k + 4] == s[k + 1..k + 5];
          assert !MatchAt(s, CLOSE_V, k + 1);
        }
      }
      RemoveMarksPlain(s[1..]);
      assert s == [s[0]] + s[1..];
    }
  }

  /** No marker spans a space, so removal works word by word. */
  lemma {:induction false} RemoveMarksSpaceJoin(a: string, b: string)
    ensures RemoveMarks(a + " " + b) == RemoveMarks(a) + " " + RemoveMarks(b)
    decreases |a|
  {
    var s := a + " " + b;
    if |a| == 0 {
      assert s == " " + b;
      RemoveMarksLeadingSpace(b);
    } else if StartsWith(a, OPEN_V) || StartsWith(a, CLOSE_V) {
      var n := RemoveMarksSkip(a, b);
      RemoveMarksSpaceJoin(a[n..], b);
    } else {
      RemoveMarksSpaceJoin(a[1..], b);
      RemoveMarksKeepsChar(a, b);
    }
  }

  /** A first character of `a` that starts no marker is kept in front of
      what the rest gives. */
  lemma RemoveMarksKeepsChar(a: string, b: string)
    requires |a| > 0 && !StartsWith(a, OPEN_V) && !StartsWith(a, CLOSE_V)
    requires RemoveMarks(a[1..] + " " + b) == RemoveMarks(a[1..]) + " " + RemoveMarks(b)
    ensures RemoveMarks(a + " " + b) == RemoveMarks(a) + " " + RemoveMarks(b)
  {
    RemoveMarksStep(a, b);
    var x, y := RemoveMarks(a[1..]), RemoveMarks(b);
    assert RemoveMarks(a) == [a[0]] + x;
    assert [a[0]] + (x + " " + y) == ([a[0]] + x) + " " + y;
  }

  /** A marker at the start of `a` is dropped from `a + " " + b` as from
      `a`; `n` is its length. */
  lemma RemoveMarksSkip(a: string, b: string) returns (n: nat)
    requires StartsWith(a, OPEN_V) || StartsWith(a, CLOSE_V)
    ensures 0 < n <= |a|
    ensures RemoveMarks(a) == RemoveMarks(a[n..])
    ensures RemoveMarks(a + " " + b) == RemoveMarks(a[n..] + " " + b)
  {
    var s := a + " " + b;
    if StartsWith(a, OPEN_V) {
      n := 3;
      assert s[..3] == a[..3];
    } else {
      n := 4;
      assert s[..3] == a[..3] && s[..4] == a[..4];
    }
    assert s[n..] == a[n..] + " " + b;
  }

  lemma RemoveMarksLeadingSpace(b: string)
    ensures RemoveMarks(" " + b) == " " + RemoveMarks(b)
  {
    var s := " " + b;
    assert !StartsWith(s, OPEN_V) by {
      if |s| >= 3 {
        assert s[..3][0] == ' ';
      }
    }
    assert !StartsWith(s, CLOSE_V) by {
      if |s| >= 4 {
        assert s[..4][0] == ' ';
      }
    }
    assert s[0] == ' ' && s[1..] == b;
  }

  /** A first character that starts no marker of `a` starts none of
      `a + " " + b` either. */
  lemma RemoveMarksStep(a: string, b: string)
    requires |a| > 0 && !StartsWith(a, OPEN_V) && !StartsWith(a, CLOSE_V)
    ensures RemoveMarks(a + " " + b) == [a[0]] + RemoveMarks(a[1..] + " " + b)
  {
    var s := a + " " + b;
    assert !StartsWith(s, OPEN_V) by {
      if |a| >= 3 {
        assert s[..3] == a[..3];
      } else {
        assert s[|a|] == ' ';
      }
    }
    assert !StartsWith(s, CLOSE_V) by {
      if |a| >= 4 {
        assert s[..4] == a[..4];
      } else {
        assert s[|a|] == ' ';
      }
    }
    assert s[0] == a[0] && s[1..] == a[1..] + " " + b;
  }

  /** The class `mqmSetData` gives a row's spans, from its severity. */
  function SpanClass(severity: string): (cls: string)
    ensures '<' !in cls
  {
    var sev := ToLower(severity);
    if sev == "major" || StartsWith(sev, "non-translation") || StartsWith(sev, "non_translation") then "mqm-major"
    else if sev == "minor" then "mqm-minor"
    else if sev == "trivial" then "mqm-trivial"
    else if sev == "critical" then "mqm-critical"
    else "mqm-neutral"
  }

  /** A severity the scorer treats as a non-translation is drawn as major. */
  lemma NonTransSeverityIsMajor(severity: string)
    requires IsNonTrans(ToLower(severity), "")
    ensures SpanClass(severity) == "mqm-major"
  {
  }

  datatype Timing = Timing(count: int, timeMS: int)

  /** The metadata column: the note of a TSV line, and the UI event
      timings some sources carry. */
  datatype Metadata = Metadata(note: Option<string>, timing: Option<map<string, Timing>>)

  const NO_METADATA := Metadata(None, None)

  /** One entry of `mqmData`: columns 0-9 in the viewer's order (source and
      target before rater), any columns past the tenth as read, and the
      `srcLen`/`tgtLen` properties. */
  datatype Row = Row(system: string, doc: string, docSegId: string, globalSegId: string,
                     source: string, target: string, rater: string,
                     category: string, severity: string, metadata: Metadata,
                     extra: seq<string>, srcLen: nat, tgtLen: nat)

  /** How `mqmSetData` treats one line of TSV. */
  datatype LineOutcome = Blank | Header | Unparsable | Parsed(row: Row)

  const HEADER_MARK := "system\tdoc\t"

  /** The row built from the tab-separated fields of a line: rater moves
      from column 4 to column 6, source and target move up one. */
  function RowOf(parts: seq<string>): Row
    requires |parts| >= 9
  {
    var cls := SpanClass(parts[8]);
    var metadata :=
      if |parts| == 9 then NO_METADATA
      else if Trim(parts[9]) == "" then NO_METADATA
      else Metadata(Some(Trim(parts[9])), None);
    Row(parts[0], parts[1], parts[2], parts[3],
        MarkSpan(parts[5], cls), MarkSpan(parts[6], cls), parts[4],
        parts[7], parts[8], metadata,
        if |parts| > 10 then parts[10..] else [],
        |RemoveMarks(parts[5])|, |RemoveMarks(parts[6])|)
  }

  /** One line of `mqmSetData`'s parsing loop. */
  function ParseLine(line: string): (r: LineOutcome)
    ensures r.Blank? <==> forall i :: 0 <= i < |line| ==> IsJsSpace(line[i])
    ensures !r.Blank? ==> (r.Header? <==> IndexOf(ToLower(line), HEADER_MARK, 0) >= 0)
    ensures r.Unparsable? ==> Count(line, '\t') < 8
    ensures (!r.Blank? && !r.Header?) ==> (r.Unparsable? <==> Count(line, '\t') < 8)
    ensures r.Parsed? ==> r.row.metadata.timing.None?
    ensures r.Parsed? && Count(line, '\t') == 8 ==> r.row.metadata == NO_METADATA && r.row.extra == []
    ensures r.Parsed? ==>
      (r.row.metadata.note.Some? <==> Count(line, '\t') >= 9 && Trim(Split(line, '\t')[9]) != "")
    ensures r.Parsed? ==> |Split(line, '\t')| >= 9 && r.row == RowOf(Split(line, '\t'))
    ensures r.Parsed? && r.row.metadata.note.Some? ==>
      |Split(line, '\t')| >= 10 && r.row.metadata.note.value == Trim(Split(line, '\t')[9])
  {
    TrimEmpty(line);
    if Trim(line) == "" then Blank
    else if IndexOf(ToLower(line), HEADER_MARK, 0) >= 0 then Header
    else
      var parts := Split(line, '\t');
      if |parts| < 9 then Unparsable else Parsed(RowOf(parts))
  }

  /** Any value of the metadata column is an object, which `join` writes
      as this text. */
  const OBJECT_TEXT := "[object Object]"

  /** `mqmGetFilteredTSVData` for one row: columns 0-9 in TSV order. */
  function TsvFields(row: Row): (f: seq<string>)
    ensures |f| == 10
  {
    [row.system, row.doc, row.docSegId, row.globalSegId, row.rater,
     row.source, row.target, row.category, row.severity, OBJECT_TEXT]
  }

  /** Writing a parsed row back out undoes the column rotation: columns 0-4
      and 7-8 are the line's own, 5 and 6 only have their first markers
      turned into tags, and the metadata column becomes `[object Object]`. */
  lemma RotationUndone(parts: seq<string>)
    requires |parts| >= 9
    ensures var cls := SpanClass(parts[8]);
      TsvFields(RowOf(parts))
      == [parts[0], parts[1], parts[2], parts[3], parts[4],
          MarkSpan(parts[5], cls), MarkSpan(parts[6], cls), parts[7], parts[8], OBJECT_TEXT]
  {
  }

  /** Without markers in source and target, the first nine columns come back
      exactly as read. */
  lemma RotationUndonePlain(parts: seq<string>)
    requires |parts| >= 9
    requires IndexOf(parts[5], OPEN_V, 0) == -1 && IndexOf(parts[5], CLOSE_V, 0) == -1
    requires IndexOf(parts[6], OPEN_V, 0) == -1 && IndexOf(parts[6], CLOSE_V, 0) == -1
    ensures TsvFields(RowOf(parts))[..9] == parts[..9]
  {
    var cls := SpanClass(parts[8]);
    RotationUndone(parts);
    MarkSpanPlain(parts[5], cls);
    MarkSpanPlain(parts[6], cls);
    FirstNine(parts, MarkSpan(parts[5], cls), MarkSpan(parts[6], cls));
  }

  /** The first nine of the ten columns, when 5 and 6 are the line's own. */
  lemma FirstNine(parts: seq<string>, x5: string, x6: string)
    requires |parts| >= 9 && x5 == parts[5] && x6 == parts[6]
    ensures [parts[0], parts[1], parts[2], parts[3], parts[4], x5, x6, parts[7], parts[8], OBJECT_TEXT][..9]
         == parts[..9]
  {
  }
}
