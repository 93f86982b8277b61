/** The pure half of the results exporter: the word-span highlighter and
    the formatting of one tab-separated result row. */
module Results {
  import opened Wrappers
  import opened Text
  import opened Decimal
  import opened Codes
  import opened Db

  const NEWLINE_TOKEN := "<NEWLINE>"
  const OPEN_MARK := "<v>"
  const CLOSE_MARK := "</v>"

  /** `text.replace("\n", "<NEWLINE>")`: the exported text holds no newline
      and exactly as many spaces as before. */
  function EscapeNewlines(text: string): (r: string)
    ensures '\n' !in r
    ensures Count(r, ' ') == Count(text, ' ')
  {
    ReplaceCharCounts(text, '\n', NEWLINE_TOKEN, ' ');
    ReplaceChar(text, '\n', NEWLINE_TOKEN)
  }

  /** The words the exporter highlights: the escaped text split on single
      spaces. */
  function Words(text: string): seq<string>
  {
    Split(EscapeNewlines(text), ' ')
  }

  /** Replacing newlines before splitting never changes the word count, so
      the indices the marking UI computes on the raw text name the same words. */
  lemma WordCountUnchanged(text: string)
    ensures |Words(text)| == |Split(text, ' ')| == Count(text, ' ') + 1
  {
  }

  /** Where Python's `list.insert(i, x)` puts `x` in a list of length `n`:
      a negative index counts from the end, and indices out of range are
      clamped to the nearest end. */
  function InsertIndex(n: nat, i: int): (k: nat)
    ensures k <= n
    ensures 0 <= i <= n ==> k == i
    ensures i > n ==> k == n
    ensures i < 0 ==> k == (if i + n < 0 then 0 else i + n)
  {
    if i < 0 then (if i + n < 0 then 0 else i + n)
    else if i > n then n
    else i
  }

  /** `s.insert(i, x)` on a copy: removing the inserted element gives `s` back. */
  function InsertAt(s: seq<string>, i: int, x: string): (r: seq<string>)
    ensures |r| == |s| + 1
    ensures var k := InsertIndex(|s|, i); r[k] == x && r[..k] + r[k + 1..] == s
    ensures multiset(r) == multiset(s) + multiset{x}
  {
    var k := InsertIndex(|s|, i);
    assert (s[..k] + [x] + s[k..])[k + 1..] == s[k..];
    assert s == s[..k] + s[k..];
    s[..k] + [x] + s[k..]
  }

  /** The two inserts of the exporter: `"<v>"` at `errorStart`, then
      `"</v>"` at `errorEnd + 2` in the lengthened list. */
  function MarkWords(words: seq<string>, start: int, end: int): (r: seq<string>)
    ensures |r| == |words| + 2
  {
    InsertAt(InsertAt(words, start, OPEN_MARK), end + 2, CLOSE_MARK)
  }

  /** For an in-range span with an inclusive end, the markers enclose
      exactly the marked words. */
  lemma MarkWordsShape(words: seq<string>, start: int, end: int)
    requires 0 <= start <= end < |words|
    ensures MarkWords(words, start, end)
         == words[..start] + [OPEN_MARK] + words[start..end + 1] + [CLOSE_MARK] + words[end + 1..]
  {
    var once := InsertAt(words, start, OPEN_MARK);
    assert once == words[..start] + [OPEN_MARK] + words[start..];
    var twice := InsertAt(once, end + 2, CLOSE_MARK);
    assert twice == once[..end + 2] + [CLOSE_MARK] + once[end + 2..];
    assert once[..end + 2] == words[..start] + [OPEN_MARK] + words[start..end + 1];
    assert once[end + 2..] == words[end + 1..];
  }

  /** The tokens with every marker removed. */
  function Unmarked(tokens: seq<string>): (r: seq<string>)
    ensures OPEN_MARK !in r && CLOSE_MARK !in r
    ensures |r| <= |tokens|
  {
    if |tokens| == 0 then []
    else (if tokens[0] in {OPEN_MARK, CLOSE_MARK} then [] else [tokens[0]]) + Unmarked(tokens[1..])
  }

  lemma {:induction false} UnmarkedConcat(a: seq<string>, b: seq<string>)
    ensures Unmarked(a + b) == Unmarked(a) + Unmarked(b)
  {
    if |a| == 0 {
      assert a + b == b;
    } else {
      assert (a + b)[0] == a[0] && (a + b)[1..] == a[1..] + b;
      UnmarkedConcat(a[1..], b);
    }
  }

  lemma {:induction false} UnmarkedPlain(words: seq<string>)
    requires OPEN_MARK !in words && CLOSE_MARK !in words
    ensures Unmarked(words) == words
  {
    if |words| > 0 {
      UnmarkedPlain(words[1..]);
      assert words == [words[0]] + words[1..];
    }
  }

  lemma UnmarkedInsert(s: seq<string>, i: int, m: string)
    requires m in {OPEN_MARK, CLOSE_MARK}
    ensures Unmarked(InsertAt(s, i, m)) == Unmarked(s)
  {
    var k := InsertIndex(|s|, i);
    var a, b := s[..k], s[k..];
    assert InsertAt(s, i, m) == a + [m] + b;
    calc {
      Unmarked(a + [m] + b);
      == { UnmarkedConcat(a + [m], b); }
      Unmarked(a + [m]) + Unmarked(b);
      == { UnmarkedConcat(a, [m]); UnmarkedMarker(m); assert Unmarked(a) + [] == Unmarked(a); }
      Unmarked(a) + Unmarked(b);
      == { UnmarkedConcat(a, b); }
      Unmarked(a + b);
      == { assert a + b == s; }
      Unmarked(s);
    }
  }

  /** A marker alone is removed. */
  lemma UnmarkedMarker(m: string)
    requires m in {OPEN_MARK, CLOSE_MARK}
    ensures Unmarked([m]) == []
  {
    assert [m][1..] == [];
  }

  /** Whatever the span, even out of range or reversed, removing the
      markers gives the words back: highlighting only adds the two markers. */
  lemma MarkWordsUnmarked(words: seq<string>, start: int, end: int)
    requires OPEN_MARK !in words && CLOSE_MARK !in words
    ensures Unmarked(MarkWords(words, start, end)) == words
  {
    UnmarkedInsert(InsertAt(words, start, OPEN_MARK), end + 2, CLOSE_MARK);
    UnmarkedInsert(words, start, OPEN_MARK);
    UnmarkedPlain(words);
  }

  /** `" ".join(words)` after the two inserts. */
  function Highlight(text: string, start: int, end: int): string
  {
    Join(MarkWords(Words(text), start, end), " ")
  }

  /** Splitting the highlighted text on spaces and dropping the markers gives
      the escaped text back, provided no word of it is a marker already. */
  lemma HighlightRoundTrip(text: string, start: int, end: int)
    requires OPEN_MARK !in Words(text) && CLOSE_MARK !in Words(text)
    ensures Split(Highlight(text, start, end), ' ') == MarkWords(Words(text), start, end)
    ensures Join(Unmarked(Split(Highlight(text, start, end), ' ')), " ") == EscapeNewlines(text)
  {
    HighlightSplit(text, start, end);
    MarkWordsUnmarked(Words(text), start, end);
    JoinSplit(EscapeNewlines(text), ' ');
  }

  /** No word and no marker holds a space, so splitting the highlighted
      text on spaces gives the marked words back. */
  lemma HighlightSplit(text: string, start: int, end: int)
    ensures Split(Highlight(text, start, end), ' ') == MarkWords(Words(text), start, end)
  {
    var words := Words(text);
    var once := InsertAt(words, start, OPEN_MARK);
    InsertKeepsAbsent(words, start, OPEN_MARK, ' ');
    InsertKeepsAbsent(once, end + 2, CLOSE_MARK, ' ');
    SplitJoin(MarkWords(words, start, end), ' ');
  }

  /** Inserting a word without `c` into words without `c` leaves no word
      with `c`. */
  lemma InsertKeepsAbsent(s: seq<string>, i: int, x: string, c: char)
    requires c !in x && forall j :: 0 <= j < |s| ==> c !in s[j]
    ensures forall j :: 0 <= j < |s| + 1 ==> c !in InsertAt(s, i, x)[j]
  {
    var k := InsertIndex(|s|, i);
    var r := InsertAt(s, i, x);
    forall j | 0 <= j < |s| + 1 ensures c !in r[j] {
      if j < k {
        assert r[j] == (r[..k] + r[k + 1..])[j] == s[j];
      } else if j > k {
        assert r[j] == (r[..k] + r[k + 1..])[j - 1] == s[j - 1];
      }
    }
  }

  /** `email.split("@")[0]`: the text before the first "@", or all of it. */
  function EmailName(email: string): (r: string)
    ensures '@' !in r && StartsWith(email, r)
    ensures |r| < |email| ==> email[|r|] == '@'
  {
    SplitFirst(email, '@');
    Split(email, '@')[0]
  }

  /** Escaping brings in no character other than those of the newline
      token. */
  lemma EscapeKeepsAbsent(text: string, c: char)
    requires c != '\n' && c !in NEWLINE_TOKEN
    ensures c !in text ==> c !in EscapeNewlines(text)
  {
    ReplaceCharCounts(text, '\n', NEWLINE_TOKEN, c);
    CountAbsent(text, c);
    CountAbsent(EscapeNewlines(text), c);
  }

  /** Highlighting brings in no character other than the spaces and the
      characters of the two markers. */
  lemma HighlightKeepsAbsent(text: string, start: int, end: int, c: char)
    requires c != ' ' && c !in OPEN_MARK && c !in CLOSE_MARK
    ensures c !in EscapeNewlines(text) ==> c !in Highlight(text, start, end)
  {
    if c !in EscapeNewlines(text) {
      var words := Words(text);
      SplitKeepsAbsent(EscapeNewlines(text), ' ', c);
      var once := InsertAt(words, start, OPEN_MARK);
      InsertKeepsAbsent(words, start, OPEN_MARK, c);
      InsertKeepsAbsent(once, end + 2, CLOSE_MARK, c);
      JoinWithout(MarkWords(words, start, end), c, ' ');
    }
  }

  /** The highlighted side splits into the marked words, holds no newline,
      and holds a tab only when the text does. */
  lemma HighlightColumn(text: string, start: int, end: int)
    ensures Split(Highlight(text, start, end), ' ') == MarkWords(Words(text), start, end)
    ensures '\n' !in Highlight(text, start, end)
    ensures '\t' !in text ==> '\t' !in Highlight(text, start, end)
  {
    HighlightSplit(text, start, end);
    HighlightKeepsAbsent(text, start, end, '\n');
    EscapeKeepsAbsent(text, '\t');
    HighlightKeepsAbsent(text, start, end, '\t');
  }

  /** The plain side holds no newline, and a tab only when the text does. */
  lemma EscapedColumn(text: string)
    ensures '\n' !in EscapeNewlines(text)
    ensures '\t' !in text ==> '\t' !in EscapeNewlines(text)
  {
    EscapeKeepsAbsent(text, '\t');
  }

  /** The user's name holds a tab or newline only when the email does. */
  lemma EmailNameFitsColumn(email: string)
    ensures '\t' !in email ==> '\t' !in EmailName(email)
    ensures '\n' !in email ==> '\n' !in EmailName(email)
  {
    var name := EmailName(email);
    assert name == email[..|name|];
  }

  /** The source and translation columns: only the side named by
      `isSource` is highlighted, so that it splits into the marked words;
      the other side only has its newlines escaped. Neither holds a
      newline, and neither gains a tab. */
  function Sides(source: string, translation: string, m: Marking): (r: (string, string))
    ensures m.isSource ==>
      Split(r.0, ' ') == MarkWords(Words(source), m.errorStart, m.errorEnd) && r.1 == EscapeNewlines(translation)
    ensures !m.isSource ==>
      r.0 == EscapeNewlines(source) && Split(r.1, ' ') == MarkWords(Words(translation), m.errorStart, m.errorEnd)
    ensures '\n' !in r.0 && '\n' !in r.1
    ensures '\t' !in source ==> '\t' !in r.0
    ensures '\t' !in translation ==> '\t' !in r.1
  {
    if m.isSource then
      HighlightColumn(source, m.errorStart, m.errorEnd);
      EscapedColumn(translation);
      (Highlight(source, m.errorStart, m.errorEnd), EscapeNewlines(translation))
    else
      EscapedColumn(source);
      HighlightColumn(translation, m.errorStart, m.errorEnd);
      (EscapeNewlines(source), Highlight(translation, m.errorStart, m.errorEnd))
  }

  /** The ten fields of one result row, or None where the exporter raises:
      an unknown category or severity code (KeyError) or a null comment
      (TypeError in the join). */
  function RowFields(systemName: string, documentName: string, bitextId: int, email: string,
                     source: string, translation: string, m: Marking, comment: Option<string>)
    : (r: Option<seq<string>>)
    ensures r.Some? <==> m.errorCategory in CATEGORY_NAME && m.errorSeverity in SEVERITY_NAME && comment.Some?
    ensures r.Some? ==> |r.value| == 10
  {
    if m.errorCategory !in CATEGORY_NAME || m.errorSeverity !in SEVERITY_NAME || comment.None? then None
    else
      var (src, tgt) := Sides(source, translation, m);
      Some([systemName, documentName, IntToString(bitextId), IntToString(bitextId), EmailName(email),
            src, tgt, CATEGORY_NAME[m.errorCategory], SEVERITY_NAME[m.errorSeverity], comment.value])
  }

  /** `"\t".join(row) + "\n"`. */
  function FormatRow(fields: seq<string>): string
  {
    Join(fields, "\t") + "\n"
  }

  /** A row ends in one newline, and splitting what precedes it on tabs
      gives the fields back when none of them holds a tab. */
  lemma FormatRowRoundTrip(fields: seq<string>)
    requires |fields| >= 1
    requires forall i :: 0 <= i < |fields| ==> '\t' !in fields[i]
    ensures var line := FormatRow(fields);
      |line| >= 1 && line[|line| - 1] == '\n' && Split(line[..|line| - 1], '\t') == fields
  {
    var line := FormatRow(fields);
    assert line[..|line| - 1] == Join(fields, "\t");
    SplitJoin(fields, '\t');
  }

  /** A canonical decimal holds neither a tab nor a newline. */
  lemma CanonicalFitsColumn(s: string)
    requires IsCanonical(s)
    ensures '\t' !in s && '\n' !in s
  {
    if !AllDigits(s) {
      forall i | 1 <= i < |s| ensures IsDigit(s[i]) {
        assert s[i] == s[1..][i - 1];
      }
    }
  }

  /** The line the exporter writes for one marking, read back. Split on
      tabs after its one newline, it gives the system name, the document
      name, the bitext id twice (as a decimal that reads back as the id),
      the user's name before "@", the source and the translation with
      only the `isSource` side highlighted, the category and severity
      names and the comment; no column but the last line end holds a
      newline. */
  lemma ExportedLine(systemName: string, documentName: string, bitextId: int, email: string,
                     source: string, translation: string, m: Marking, comment: Option<string>)
    requires RowFields(systemName, documentName, bitextId, email, source, translation, m, comment).Some?
    requires '\t' !in systemName && '\t' !in documentName && '\t' !in email
    requires '\t' !in source && '\t' !in translation && '\t' !in comment.value
    requires '\t' !in CATEGORY_NAME[m.errorCategory] && '\n' !in CATEGORY_NAME[m.errorCategory]
    ensures var line := FormatRow(RowFields(systemName, documentName, bitextId, email, source, translation, m, comment).value);
      var f := Split(line[..|line| - 1], '\t');
      |line| >= 1 && line[|line| - 1] == '\n' && |f| == 10
      && f[0] == systemName && f[1] == documentName
      && f[2] == f[3] && IsCanonical(f[2]) && CanonicalValue(f[2]) == bitextId
      && f[4] == EmailName(email)
      && (m.isSource ==> Split(f[5], ' ') == MarkWords(Words(source), m.errorStart, m.errorEnd)
                         && f[6] == EscapeNewlines(translation))
      && (!m.isSource ==> f[5] == EscapeNewlines(source)
                          && Split(f[6], ' ') == MarkWords(Words(translation), m.errorStart, m.errorEnd))
      && f[7] == CATEGORY_NAME[m.errorCategory] && f[8] == SEVERITY_NAME[m.errorSeverity]
      && f[9] == comment.value
    ensures var line := FormatRow(RowFields(systemName, documentName, bitextId, email, source, translation, m, comment).value);
      '\n' !in systemName && '\n' !in documentName && '\n' !in email && '\n' !in comment.value
      ==> '\n' !in line[..|line| - 1]
  {
    var fields := RowFields(systemName, documentName, bitextId, email, source, translation, m, comment).value;
    RowFieldsAre(systemName, documentName, bitextId, email, source, translation, m, comment);
    RowFieldsFit(systemName, documentName, bitextId, email, source, translation, m, comment);
    IntToStringCanonical(bitextId);
    FormatRowRoundTrip(fields);
    if '\n' !in systemName && '\n' !in documentName && '\n' !in email && '\n' !in comment.value {
      RowFieldsOneLine(systemName, documentName, bitextId, email, source, translation, m, comment);
      JoinWithout(fields, '\n', '\t');
      var line := FormatRow(fields);
      assert line[..|line| - 1] == Join(fields, "\t");
    }
  }

  /** The ten fields of a row, position by position. */
  lemma RowFieldsAre(systemName: string, documentName: string, bitextId: int, email: string,
                     source: string, translation: string, m: Marking, comment: Option<string>)
    requires RowFields(systemName, documentName, bitextId, email, source, translation, m, comment).Some?
    ensures RowFields(systemName, documentName, bitextId, email, source, translation, m, comment).value
      == [systemName, documentName, IntToString(bitextId), IntToString(bitextId), EmailName(email),
          Sides(source, translation, m).0, Sides(source, translation, m).1,
          CATEGORY_NAME[m.errorCategory], SEVERITY_NAME[m.errorSeverity], comment.value]
  { }

  /** Ten fields none of which holds `c`, each checked by position. */
  lemma TenFieldsWithout(f: seq<string>, c: char)
    requires |f| == 10
    requires c !in f[0] && c !in f[1] && c !in f[2] && c !in f[3] && c !in f[4]
    requires c !in f[5] && c !in f[6] && c !in f[7] && c !in f[8] && c !in f[9]
    ensures forall k :: 0 <= k < |f| ==> c !in f[k]
  {
    forall k | 0 <= k < |f| ensures c !in f[k] {
      assert k in {0, 1, 2, 3, 4, 5, 6, 7, 8, 9};
    }
  }

  /** The fields of a row hold no tab when the free text holds none. */
  lemma RowFieldsFit(systemName: string, documentName: string, bitextId: int, email: string,
                     source: string, translation: string, m: Marking, comment: Option<string>)
    requires RowFields(systemName, documentName, bitextId, email, source, translation, m, comment).Some?
    requires '\t' !in systemName && '\t' !in documentName && '\t' !in email
    requires '\t' !in source && '\t' !in translation && '\t' !in comment.value
    requires '\t' !in CATEGORY_NAME[m.errorCategory]
    ensures var f := RowFields(systemName, documentName, bitextId, email, source, translation, m, comment).value;
      forall k :: 0 <= k < |f| ==> '\t' !in f[k]
  {
    var fields := RowFields(systemName, documentName, bitextId, email, source, translation, m, comment).value;
    RowFieldsAre(systemName, documentName, bitextId, email, source, translation, m, comment);
    CanonicalFitsColumn(IntToString(bitextId)) by { IntToStringCanonical(bitextId); }
    SeverityNamesFitColumns(m.errorSeverity);
    EmailNameFitsColumn(email);
    assert '\t' !in fields[0] && '\t' !in fields[1] && '\t' !in fields[2] && '\t' !in fields[3]
      && '\t' !in fields[4] && '\t' !in fields[5] && '\t' !in fields[6] && '\t' !in fields[7]
      && '\t' !in fields[8] && '\t' !in fields[9];
    TenFieldsWithout(fields, '\t');
  }

  /** The fields of a row hold no newline when the four texts the exporter
      does not escape hold none. */
  lemma RowFieldsOneLine(systemName: string, documentName: string, bitextId: int, email: string,
                         source: string, translation: string, m: Marking, comment: Option<string>)
    requires RowFields(systemName, documentName, bitextId, email, source, translation, m, comment).Some?
    requires '\n' !in systemName && '\n' !in documentName && '\n' !in email && '\n' !in comment.value
    requires '\n' !in CATEGORY_NAME[m.errorCategory]
    ensures var f := RowFields(systemName, documentName, bitextId, email, source, translation, m, comment).value;
      forall k :: 0 <= k < |f| ==> '\n' !in f[k]
  {
    var fields := RowFields(systemName, documentName, bitextId, email, source, translation, m, comment).value;
    RowFieldsAre(systemName, documentName, bitextId, email, source, translation, m, comment);
    CanonicalFitsColumn(IntToString(bitextId)) by { IntToStringCanonical(bitextId); }
    SeverityNamesFitColumns(m.errorSeverity);
    EmailNameFitsColumn(email);
    assert '\n' !in fields[0] && '\n' !in fields[1] && '\n' !in fields[2] && '\n' !in fields[3]
      && '\n' !in fields[4] && '\n' !in fields[5] && '\n' !in fields[6] && '\n' !in fields[7]
      && '\n' !in fields[8] && '\n' !in fields[9];
    TenFieldsWithout(fields, '\n');
  }

  /** What the exporter does with a row it cannot build: the code as written
      raises; the policy its tests expect skips the row. */
  datatype MissingRowPolicy = Raise | Skip

  /** The rows for one marking of annotation `a` on bitext `b`: one row, none
      (skipped), or None where the exporter raises. A missing system or user,
      an unknown code and a null comment raise under both policies; a missing
      document or translation raises only as written. */
  function MarkingRow(st: DbState, aId: int, a: Annotation, bitextId: int, b: Bitext, m: Marking,
                      policy: MissingRowPolicy): Option<seq<string>>
  {
    var translation := TranslationFor(st.annotationSystems, aId, m.systemId);
    if b.documentId !in st.documents.rows || translation.None? then
      (if policy == Skip then Some([]) else None)
    else if m.systemId !in st.systems.rows || a.userId !in st.users.rows then None
    else
      var fields := RowFields(st.systems.rows[m.systemId].name, st.documents.rows[b.documentId].name,
                              bitextId, st.users.rows[a.userId].email, b.source,
                              translation.value.1.translation, m, a.comment);
      if fields.None? then None else Some([FormatRow(fields.value)])
  }

  /** The rows of a list of markings, in order, or None if one raises. */
  function MarkingRows(st: DbState, aId: int, a: Annotation, bitextId: int, b: Bitext,
                       ms: seq<(int, Marking)>, policy: MissingRowPolicy): Option<seq<string>>
  {
    if |ms| == 0 then Some([])
    else
      var init := MarkingRows(st, aId, a, bitextId, b, ms[..|ms| - 1], policy);
      var last := MarkingRow(st, aId, a, bitextId, b, ms[|ms| - 1].1, policy);
      if init.None? || last.None? then None else Some(init.value + last.value)
  }

  /** The rows of one annotation: its bitext is looked up first, and a
      missing one raises even when the annotation has no marking. */
  function AnnotationRows(st: DbState, aId: int, a: Annotation, policy: MissingRowPolicy): Option<seq<string>>
  {
    if a.bitextId !in st.bitexts.rows then (if policy == Skip then Some([]) else None)
    else MarkingRows(st, aId, a, a.bitextId, st.bitexts.rows[a.bitextId], MarkingsOf(st.markings, aId), policy)
  }

  function AnnotationsRows(st: DbState, anns: seq<(int, Annotation)>, policy: MissingRowPolicy): Option<seq<string>>
  {
    if |anns| == 0 then Some([])
    else
      var init := AnnotationsRows(st, anns[..|anns| - 1], policy);
      var last := AnnotationRows(st, anns[|anns| - 1].0, anns[|anns| - 1].1, policy);
      if init.None? || last.None? then None else Some(init.value + last.value)
  }

  /** The result lines of evaluation `evalId`: every annotation of the
      evaluation whoever made it, then each of its markings, in store order. */
  function ExportRows(st: DbState, evalId: int): Option<seq<string>>
  {
    AnnotationsRows(st, AnnotationsOfEvaluation(st.annotations, evalId), Raise)
  }

  /** The variant the exporter's tests expect: rows whose bitext, document
      or translation is missing are skipped instead of raising. */
  function ExportRowsSkippingMissing(st: DbState, evalId: int): Option<seq<string>>
  {
    AnnotationsRows(st, AnnotationsOfEvaluation(st.annotations, evalId), Skip)
  }

  /** A marking the exporter turns into a row without raising. */
  predicate MarkingExportable(st: DbState, aId: int, a: Annotation, b: Bitext, m: Marking)
  {
    b.documentId in st.documents.rows && TranslationFor(st.annotationSystems, aId, m.systemId).Some?
    && m.systemId in st.systems.rows && a.userId in st.users.rows
    && m.errorCategory in CATEGORY_NAME && m.errorSeverity in SEVERITY_NAME && a.comment.Some?
  }

  /** An annotation the exporter goes through without raising. */
  predicate AnnotationExportable(st: DbState, aId: int, a: Annotation)
  {
    a.bitextId in st.bitexts.rows
    && forall m :: m in MarkingsOf(st.markings, aId) ==> MarkingExportable(st, aId, a, st.bitexts.rows[a.bitextId], m.1)
  }

  /** The row of marking `m` of annotation `a`, looked up through the
      annotation's bitext as the exporter does; None where it raises. */
  function RowOf(st: DbState, aId: int, a: Annotation, m: Marking): Option<seq<string>>
  {
    if a.bitextId !in st.bitexts.rows then None
    else MarkingRow(st, aId, a, a.bitextId, st.bitexts.rows[a.bitextId], m, Raise)
  }

  /** The markings of one annotation, each paired with its annotation. */
  function AnnotationPairs(st: DbState, aId: int, a: Annotation): (r: seq<(int, Annotation, Marking)>)
    ensures |r| == |MarkingsOf(st.markings, aId)|
    ensures forall i :: 0 <= i < |r| ==> r[i] == (aId, a, MarkingsOf(st.markings, aId)[i].1)
  {
    var ms := MarkingsOf(st.markings, aId);
    seq(|ms|, i requires 0 <= i < |ms| => (aId, a, ms[i].1))
  }

  /** The (annotation, marking) pairs the exporter visits: each annotation
      in turn, then each of its markings, in store order. */
  function ExportPairs(st: DbState, anns: seq<(int, Annotation)>): seq<(int, Annotation, Marking)>
  {
    if |anns| == 0 then []
    else ExportPairs(st, anns[..|anns| - 1]) + AnnotationPairs(st, anns[|anns| - 1].0, anns[|anns| - 1].1)
  }

  lemma MarkingRowExactly(st: DbState, aId: int, a: Annotation, bitextId: int, b: Bitext, m: Marking)
    ensures var r := MarkingRow(st, aId, a, bitextId, b, m, Raise);
      (r.Some? <==> MarkingExportable(st, aId, a, b, m)) && (r.Some? ==> |r.value| == 1)
  {
  }

  lemma {:induction false} MarkingRowsExactly(st: DbState, aId: int, a: Annotation, bitextId: int, b: Bitext,
                                              ms: seq<(int, Marking)>)
    ensures var r := MarkingRows(st, aId, a, bitextId, b, ms, Raise);
      (r.Some? <==> forall i :: 0 <= i < |ms| ==> MarkingExportable(st, aId, a, b, ms[i].1))
      && (r.Some? ==> |r.value| == |ms|)
  {
    if |ms| > 0 {
      var n := |ms| - 1;
      var init := ms[..n];
      var r0 := MarkingRows(st, aId, a, bitextId, b, init, Raise);
      var last := MarkingRow(st, aId, a, bitextId, b, ms[n].1, Raise);
      assert MarkingRows(st, aId, a, bitextId, b, ms, Raise)
          == if r0.None? || last.None? then None else Some(r0.value + last.value);
      MarkingRowsExactly(st, aId, a, bitextId, b, init);
      MarkingRowExactly(st, aId, a, bitextId, b, ms[n].1);
      if r0.Some? && last.Some? {
        forall i | 0 <= i < |ms| ensures MarkingExportable(st, aId, a, b, ms[i].1) {
          if i < n {
            assert init[i] == ms[i];
            assert MarkingExportable(st, aId, a, b, init[i].1);
          } else {
            assert i == n;
          }
        }
      }
      if forall i :: 0 <= i < |ms| ==> MarkingExportable(st, aId, a, b, ms[i].1) {
        forall i | 0 <= i < n ensures MarkingExportable(st, aId, a, b, init[i].1) {
          assert init[i] == ms[i];
        }
      }
    }
  }

  /** The marking loop emits the rows of its markings in their order: row
      `i` is the row of marking `i`. */
  lemma {:induction false} MarkingRowsInOrder(st: DbState, aId: int, a: Annotation, bitextId: int, b: Bitext,
                                              ms: seq<(int, Marking)>)
    ensures var r := MarkingRows(st, aId, a, bitextId, b, ms, Raise);
      r.Some? ==> (|r.value| == |ms|
        && forall i :: 0 <= i < |ms| ==> MarkingRow(st, aId, a, bitextId, b, ms[i].1, Raise) == Some([r.value[i]]))
  {
    if |ms| > 0 {
      var n := |ms| - 1;
      var init := ms[..n];
      var r0 := MarkingRows(st, aId, a, bitextId, b, init, Raise);
      var last := MarkingRow(st, aId, a, bitextId, b, ms[n].1, Raise);
      assert MarkingRows(st, aId, a, bitextId, b, ms, Raise)
          == if r0.None? || last.None? then None else Some(r0.value + last.value);
      MarkingRowsInOrder(st, aId, a, bitextId, b, init);
      MarkingRowExactly(st, aId, a, bitextId, b, ms[n].1);
      if r0.Some? && last.Some? {
        var r := r0.value + last.value;
        forall i | 0 <= i < |ms| ensures MarkingRow(st, aId, a, bitextId, b, ms[i].1, Raise) == Some([r[i]]) {
          if i < n {
            assert init[i] == ms[i] && r[i] == r0.value[i];
            assert MarkingRow(st, aId, a, bitextId, b, init[i].1, Raise) == Some([r0.value[i]]);
          } else {
            assert i == n && |last.value| == 1 && r[n] == last.value[0];
            assert last == Some([last.value[0]]);
          }
        }
      }
    }
  }

  /** The export raises exactly when one of the evaluation's annotations is
      not exportable; otherwise it holds one row per marking. */
  lemma {:induction false} AnnotationsRowsExactly(st: DbState, anns: seq<(int, Annotation)>)
    ensures var r := AnnotationsRows(st, anns, Raise);
      (r.Some? <==> forall i :: 0 <= i < |anns| ==> AnnotationExportable(st, anns[i].0, anns[i].1))
      && (r.Some? ==> |r.value| == |ExportPairs(st, anns)|)
    ensures var r := AnnotationsRows(st, anns, Raise);
      var p := ExportPairs(st, anns);
      r.Some? ==> forall k :: 0 <= k < |p| ==> RowOf(st, p[k].0, p[k].1, p[k].2) == Some([r.value[k]])
  {
    if |anns| > 0 {
      var n := |anns| - 1;
      var init := anns[..n];
      var r0 := AnnotationsRows(st, init, Raise);
      var last := AnnotationRows(st, anns[n].0, anns[n].1, Raise);
      assert AnnotationsRows(st, anns, Raise)
          == if r0.None? || last.None? then None else Some(r0.value + last.value);
      AnnotationsRowsExactly(st, init);
      AnnotationRowsExactly(st, anns[n].0, anns[n].1);
      if r0.Some? && last.Some? {
        forall i | 0 <= i < |anns| ensures AnnotationExportable(st, anns[i].0, anns[i].1) {
          if i < n {
            assert init[i] == anns[i];
          }
        }
        var p0 := ExportPairs(st, init);
        var q := AnnotationPairs(st, anns[n].0, anns[n].1);
        var p := p0 + q;
        var r := r0.value + last.value;
        assert ExportPairs(st, anns) == p;
        forall k | 0 <= k < |p| ensures RowOf(st, p[k].0, p[k].1, p[k].2) == Some([r[k]]) {
          if k < |p0| {
            assert p[k] == p0[k] && r[k] == r0.value[k];
          } else {
            assert p[k] == q[k - |p0|] && r[k] == last.value[k - |p0|];
          }
        }
      }
      if forall i :: 0 <= i < |anns| ==> AnnotationExportable(st, anns[i].0, anns[i].1) {
        forall i | 0 <= i < n ensures AnnotationExportable(st, init[i].0, init[i].1) {
          assert init[i] == anns[i];
        }
      }
    }
  }

  lemma AnnotationRowsExactly(st: DbState, aId: int, a: Annotation)
    ensures var r := AnnotationRows(st, aId, a, Raise);
      (r.Some? <==> AnnotationExportable(st, aId, a))
      && (r.Some? ==> |r.value| == |MarkingsOf(st.markings, aId)|)
    ensures var r := AnnotationRows(st, aId, a, Raise);
      var ms := MarkingsOf(st.markings, aId);
      r.Some? ==> forall i :: 0 <= i < |ms| ==> RowOf(st, aId, a, ms[i].1) == Some([r.value[i]])
  {
    if a.bitextId in st.bitexts.rows {
      var ms := MarkingsOf(st.markings, aId);
      var b := st.bitexts.rows[a.bitextId];
      MarkingRowsExactly(st, aId, a, a.bitextId, b, ms);
      MarkingRowsInOrder(st, aId, a, a.bitextId, b, ms);
      assert (forall i :: 0 <= i < |ms| ==> MarkingExportable(st, aId, a, b, ms[i].1))
        <==> (forall m :: m in ms ==> MarkingExportable(st, aId, a, b, m.1));
    }
  }

  /** The variant that skips agrees with the code as written whenever the
      code as written does not raise. */
  lemma {:induction false} SkippingAgrees(st: DbState, anns: seq<(int, Annotation)>)
    requires AnnotationsRows(st, anns, Raise).Some?
    ensures AnnotationsRows(st, anns, Skip) == AnnotationsRows(st, anns, Raise)
  {
    if |anns| > 0 {
      SkippingAgrees(st, anns[..|anns| - 1]);
      var (aId, a) := anns[|anns| - 1];
      var ms := MarkingsOf(st.markings, aId);
      MarkingRowsSkippingAgrees(st, aId, a, a.bitextId, st.bitexts.rows[a.bitextId], ms);
    }
  }

  lemma {:induction false} MarkingRowsSkippingAgrees(st: DbState, aId: int, a: Annotation, bitextId: int, b: Bitext,
                                                     ms: seq<(int, Marking)>)
    requires MarkingRows(st, aId, a, bitextId, b, ms, Raise).Some?
    ensures MarkingRows(st, aId, a, bitextId, b, ms, Skip) == MarkingRows(st, aId, a, bitextId, b, ms, Raise)
  {
    if |ms| > 0 {
      MarkingRowsSkippingAgrees(st, aId, a, bitextId, b, ms[..|ms| - 1]);
    }
  }

  /** Once a prefix of the annotations raises, the whole export raises. */
  lemma {:induction false} AnnotationsRowsRaisePropagates(st: DbState, anns: seq<(int, Annotation)>, k: nat,
                                                          policy: MissingRowPolicy)
    requires k <= |anns| && AnnotationsRows(st, anns[..k], policy).None?
    ensures AnnotationsRows(st, anns, policy).None?
    decreases |anns| - k
  {
    if k < |anns| {
      assert anns[..k + 1][..k] == anns[..k];
      AnnotationsRowsRaisePropagates(st, anns, k + 1, policy);
    } else {
      assert anns[..k] == anns;
    }
  }

  lemma {:induction false} MarkingRowsRaisePropagates(st: DbState, aId: int, a: Annotation, bitextId: int, b: Bitext,
                                                      ms: seq<(int, Marking)>, k: nat, policy: MissingRowPolicy)
    requires k <= |ms| && MarkingRows(st, aId, a, bitextId, b, ms[..k], policy).None?
    ensures MarkingRows(st, aId, a, bitextId, b, ms, policy).None?
    decreases |ms| - k
  {
    if k < |ms| {
      assert ms[..k + 1][..k] == ms[..k];
      MarkingRowsRaisePropagates(st, aId, a, bitextId, b, ms, k + 1, policy);
    } else {
      assert ms[..k] == ms;
    }
  }

  /** A marking that raises makes its annotation's rows raise. */
  lemma MarkingRowsRaiseAt(st: DbState, aId: int, a: Annotation, bitextId: int, b: Bitext,
                           ms: seq<(int, Marking)>, j: nat)
    requires j < |ms| && MarkingRow(st, aId, a, bitextId, b, ms[j].1, Raise).None?
    ensures MarkingRows(st, aId, a, bitextId, b, ms, Raise).None?
  {
    assert ms[..j + 1][..j] == ms[..j];
    MarkingRowsRaisePropagates(st, aId, a, bitextId, b, ms, j + 1, Raise);
  }

  /** A marking that raises makes the whole export raise. */
  lemma ExportRaisesAtMarking(st: DbState, anns: seq<(int, Annotation)>, i: nat, j: nat)
    requires i < |anns| && anns[i].1.bitextId in st.bitexts.rows
    requires j < |MarkingsOf(st.markings, anns[i].0)|
    requires MarkingRow(st, anns[i].0, anns[i].1, anns[i].1.bitextId, st.bitexts.rows[anns[i].1.bitextId],
                        MarkingsOf(st.markings, anns[i].0)[j].1, Raise).None?
    ensures AnnotationsRows(st, anns, Raise).None?
  {
    var (aId, a) := anns[i];
    MarkingRowsRaiseAt(st, aId, a, a.bitextId, st.bitexts.rows[a.bitextId], MarkingsOf(st.markings, aId), j);
    ExportRaisesAtAnnotation(st, anns, i);
  }

  /** An annotation that raises makes the whole export raise. */
  lemma ExportRaisesAtAnnotation(st: DbState, anns: seq<(int, Annotation)>, i: nat)
    requires i < |anns| && AnnotationRows(st, anns[i].0, anns[i].1, Raise).None?
    ensures AnnotationsRows(st, anns, Raise).None?
  {
    assert anns[..i + 1][..i] == anns[..i];
    AnnotationsRowsRaisePropagates(st, anns, i + 1, Raise);
  }

  lemma MarkingRowsStep(st: DbState, aId: int, a: Annotation, bitextId: int, b: Bitext,
                        ms: seq<(int, Marking)>, j: nat, done: seq<string>, row: seq<string>)
    requires j < |ms|
    requires MarkingRows(st, aId, a, bitextId, b, ms[..j], Raise) == Some(done)
    requires MarkingRow(st, aId, a, bitextId, b, ms[j].1, Raise) == Some(row)
    ensures MarkingRows(st, aId, a, bitextId, b, ms[..j + 1], Raise) == Some(done + row)
  {
    assert ms[..j + 1][..j] == ms[..j];
  }

  lemma AnnotationsRowsStep(st: DbState, anns: seq<(int, Annotation)>, i: nat, done: seq<string>, rows: seq<string>)
    requires i < |anns|
    requires AnnotationsRows(st, anns[..i], Raise) == Some(done)
    requires AnnotationRows(st, anns[i].0, anns[i].1, Raise) == Some(rows)
    ensures AnnotationsRows(st, anns[..i + 1], Raise) == Some(done + rows)
  {
    assert anns[..i + 1][..i] == anns[..i];
  }
}
