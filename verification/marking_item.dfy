/** The marking widget of one text: which word is styled by which marking,
    what a right click does, the guard on new selections, and the rewrites
    of the locally cached markings after the server answers. */
module MarkingItem {
  import opened Wrappers
  import opened Text
  import opened Codes
  import opened Results

  /** A marking as the widget holds it in its query cache. */
  datatype CachedMarking = CachedMarking(id: int, systemId: int, errorStart: int, errorEnd: int,
                                         errorCategory: string, errorSeverity: string, isSource: bool)

  /** `getClassBySeverity`: a class for each severity code, nothing
      (`undefined`) for any other value. */
  function ClassBySeverity(severity: string): (r: Option<string>)
    ensures r.Some? <==> severity in SEVERITY_NAME
  {
    match severity
    case "no-error" => Some("tw-bg-gray-600 tw-text-white")
    case "minor" => Some("tw-bg-green-600 tw-text-white")
    case "major" => Some("tw-bg-yellow-500 tw-text-white")
    case "critical" => Some("tw-bg-red-500 tw-text-white")
    case "not-judgeable" => Some("tw-bg-blue-600 tw-text-white")
    case _ => None
  }

  /** Different severities are styled differently, and every severity the
      picker offers is styled. */
  lemma SeverityClasses(s1: string, s2: string)
    requires s1 != s2 && ClassBySeverity(s1).Some? && ClassBySeverity(s2).Some?
    ensures ClassBySeverity(s1) != ClassBySeverity(s2)
    ensures forall s :: s in SEVERITY_OPTIONS ==> ClassBySeverity(s).Some?
  {
  }

  /** Word `index` lies in the marking's span, both ends included. */
  predicate Covers(m: CachedMarking, index: int)
  {
    m.errorStart <= index <= m.errorEnd
  }

  /** The position of the first marking from `from` on that covers word
      `index`, None when none does. */
  function FirstCovering(ms: seq<CachedMarking>, index: int, from: nat): (r: Option<nat>)
    decreases |ms| - from
    ensures r.Some? ==> from <= r.value < |ms| && Covers(ms[r.value], index)
    ensures r.Some? ==> forall j :: from <= j < r.value ==> !Covers(ms[j], index)
    ensures r.None? ==> forall j :: from <= j < |ms| ==> !Covers(ms[j], index)
  {
    if from >= |ms| then None
    else if Covers(ms[from], index) then Some(from)
    else FirstCovering(ms, index, from + 1)
  }

  /** `getClassByIndex(index)`: the class of the first marking covering the
      word, nothing when no marking covers it. */
  method ClassByIndex(ms: seq<CachedMarking>, index: int) returns (cls: Option<string>)
    ensures var k := FirstCovering(ms, index, 0);
      (k.None? ==> cls.None?) && (k.Some? ==> cls == ClassBySeverity(ms[k.value].errorSeverity))
  {
    for i := 0 to |ms|
      invariant forall j :: 0 <= j < i ==> !Covers(ms[j], index)
    {
      if index >= ms[i].errorStart && index <= ms[i].errorEnd {
        FirstCoveringIs(ms, index, 0, i);
        return ClassBySeverity(ms[i].errorSeverity);
      }
    }
    FirstCoveringNone(ms, index, 0);
    return None;
  }

  /** The first covering marking is the one the scan stops at. */
  lemma {:induction false} FirstCoveringIs(ms: seq<CachedMarking>, index: int, from: nat, i: nat)
    requires from <= i < |ms| && Covers(ms[i], index)
    requires forall j :: from <= j < i ==> !Covers(ms[j], index)
    decreases i - from
    ensures FirstCovering(ms, index, from) == Some(i)
  {
    if from < i {
      FirstCoveringIs(ms, index, from + 1, i);
    }
  }

  /** With no covering marking there is no first one. */
  lemma {:induction false} FirstCoveringNone(ms: seq<CachedMarking>, index: int, from: nat)
    requires forall j :: from <= j < |ms| ==> !Covers(ms[j], index)
    decreases |ms| - from
    ensures FirstCovering(ms, index, from).None?
  {
    if from < |ms| {
      FirstCoveringNone(ms, index, from + 1);
    }
  }

  /** What a right click on a word does: select the marking at that
      position for editing, or try to start a new selection. */
  datatype ContextMenu = SelectMarking(markingIndex: nat) | StartSelection

  /** `getContextMenuByIndex(index)`: a covered word opens the first
      marking covering it and never starts a new selection. */
  method ContextMenuByIndex(ms: seq<CachedMarking>, index: int) returns (menu: ContextMenu)
    ensures menu.SelectMarking? ==> Some(menu.markingIndex) == FirstCovering(ms, index, 0)
    ensures menu.StartSelection? <==> forall j :: 0 <= j < |ms| ==> !Covers(ms[j], index)
  {
    for i := 0 to |ms|
      invariant forall j :: 0 <= j < i ==> !Covers(ms[j], index)
    {
      if index >= ms[i].errorStart && index <= ms[i].errorEnd {
        FirstCoveringIs(ms, index, 0, i);
        return SelectMarking(i);
      }
    }
    return StartSelection;
  }

  /** The word ids at the two ends of the browser selection, parsed with
      `parseInt` (None for NaN), put in order. Either end NaN rejects the
      selection; otherwise the smaller id comes first. */
  function SelectionBounds(anchor: Option<int>, focus: Option<int>): (r: Option<(int, int)>)
    ensures r.None? <==> anchor.None? || focus.None?
    ensures r.Some? ==> r.value.0 <= r.value.1
    ensures r.Some? ==> multiset{r.value.0, r.value.1} == multiset{anchor.value, focus.value}
  {
    if anchor.None? || focus.None? then None
    else if anchor.value > focus.value then Some((focus.value, anchor.value))
    else Some((anchor.value, focus.value))
  }

  /** The start or the end of marking `m` lies in [start, end]. */
  predicate EndpointInside(m: CachedMarking, start: int, end: int)
  {
    (start <= m.errorStart <= end) || (start <= m.errorEnd <= end)
  }

  /** The overlap guard of a new selection: some existing marking has an
      end inside it. */
  method OverlapsExisting(ms: seq<CachedMarking>, start: int, end: int) returns (overlaps: bool)
    ensures overlaps <==> exists k :: 0 <= k < |ms| && EndpointInside(ms[k], start, end)
  {
    for i := 0 to |ms|
      invariant forall j :: 0 <= j < i ==> !EndpointInside(ms[j], start, end)
    {
      if (ms[i].errorStart >= start && ms[i].errorStart <= end)
         || (ms[i].errorEnd >= start && ms[i].errorEnd <= end) {
        return true;
      }
    }
    return false;
  }

  /** A selection the guard lets through shares a word with an existing,
      well-formed marking only when that marking reaches past both of its
      ends: the guard rejects every partial overlap and every marking
      inside the selection, but not a selection inside a marking. */
  lemma GuardAdmitsOnlyEnclosed(ms: seq<CachedMarking>, start: int, end: int, k: nat)
    requires forall j :: 0 <= j < |ms| ==> !EndpointInside(ms[j], start, end)
    requires k < |ms| && ms[k].errorStart <= ms[k].errorEnd
    requires exists w :: start <= w <= end && Covers(ms[k], w)
    ensures ms[k].errorStart < start && end < ms[k].errorEnd
  {
    var w :| start <= w <= end && Covers(ms[k], w);
    assert !EndpointInside(ms[k], start, end);
  }

  /** The guard does let a selection strictly inside a marking through, so
      one word can end up under two markings. */
  lemma NestedSelectionPasses(m: CachedMarking, start: int, end: int)
    requires m.errorStart < start <= end < m.errorEnd
    ensures !EndpointInside(m, start, end) && Covers(m, start)
  {
  }

  /** The handler a right click on an uncovered word runs: nothing on a
      collapsed selection; otherwise the ordered bounds, unless an end is
      NaN or the guard finds an overlap. */
  method SelectionHandler(ms: seq<CachedMarking>, collapsed: bool, anchor: Option<int>, focus: Option<int>)
    returns (accepted: Option<(int, int)>)
    ensures var b := SelectionBounds(anchor, focus);
      accepted.Some? <==> !collapsed && b.Some?
                          && !(exists k :: 0 <= k < |ms| && EndpointInside(ms[k], b.value.0, b.value.1))
    ensures accepted.Some? ==> accepted == SelectionBounds(anchor, focus)
  {
    if collapsed {
      return None;
    }
    var bounds := SelectionBounds(anchor, focus);
    if bounds.None? {
      return None;
    }
    var (start, end) := bounds.value;
    var overlaps := OverlapsExisting(ms, start, end);
    if overlaps {
      return None;
    }
    return bounds;
  }

  /** `markings.filter((m) => m.id !== id)`: the records with another id,
      in the same order. */
  function Without(ms: seq<CachedMarking>, id: int): (r: seq<CachedMarking>)
    ensures |r| <= |ms|
    ensures forall i :: 0 <= i < |r| ==> r[i].id != id
  {
    if |ms| == 0 then []
    else
      var rest := Without(ms[1..], id);
      if ms[0].id == id then rest else [ms[0]] + rest
  }

  /** Filtering keeps each record with another id as often as it was there,
      and no record with the id. */
  lemma {:induction false} WithoutCounts(ms: seq<CachedMarking>, id: int)
    ensures forall x :: multiset(Without(ms, id))[x] == if x.id == id then 0 else multiset(ms)[x]
  {
    if |ms| > 0 {
      WithoutCounts(ms[1..], id);
      assert ms == [ms[0]] + ms[1..];
    }
  }

  /** Filtering a cache that holds no record with the id changes
      nothing. */
  lemma {:induction false} WithoutAbsent(ms: seq<CachedMarking>, id: int)
    requires forall j :: 0 <= j < |ms| ==> ms[j].id != id
    ensures Without(ms, id) == ms
  {
    if |ms| > 0 {
      var rest := ms[1..];
      assert forall j :: 0 <= j < |rest| ==> rest[j] == ms[j + 1];
      WithoutAbsent(rest, id);
      assert ms == [ms[0]] + rest;
    }
  }

  /** Filtering a joined cache filters each part. */
  lemma {:induction false} WithoutConcat(a: seq<CachedMarking>, b: seq<CachedMarking>, id: int)
    ensures Without(a + b, id) == Without(a, id) + Without(b, id)
  {
    if |a| == 0 {
      assert a + b == b;
    } else {
      assert (a + b)[0] == a[0] && (a + b)[1..] == a[1..] + b;
      WithoutConcat(a[1..], b, id);
    }
  }

  /** Removing the record just appended under a fresh id gives the cache
      back. */
  lemma WithoutAppended(ms: seq<CachedMarking>, d: CachedMarking)
    requires forall j :: 0 <= j < |ms| ==> ms[j].id != d.id
    ensures Without(ms + [d], d.id) == ms
  {
    WithoutConcat(ms, [d], d.id);
    WithoutAbsent(ms, d.id);
    assert Without([d], d.id) == [];
  }

  /** The record with id `id` (all of them, should there be several) takes
      the new category and severity; every other field and every other
      record stay as they were. */
  function Recategorized(ms: seq<CachedMarking>, id: int, category: string, severity: string)
    : (r: seq<CachedMarking>)
    ensures |r| == |ms|
    ensures forall i :: 0 <= i < |ms| && ms[i].id != id ==> r[i] == ms[i]
    ensures forall i :: 0 <= i < |ms| && ms[i].id == id ==>
      r[i].errorCategory == category && r[i].errorSeverity == severity
      && r[i].(errorCategory := ms[i].errorCategory, errorSeverity := ms[i].errorSeverity) == ms[i]
  {
    seq(|ms|, i requires 0 <= i < |ms| =>
      if ms[i].id == id then ms[i].(errorCategory := category, errorSeverity := severity) else ms[i])
  }

  /** Changing category and severity moves no span, so every word is
      covered by the same first marking as before. */
  lemma {:induction false} RecategorizedKeepsCovering(ms: seq<CachedMarking>, id: int, category: string,
                                                      severity: string, index: int, from: nat)
    decreases |ms| - from
    ensures FirstCovering(Recategorized(ms, id, category, severity), index, from) == FirstCovering(ms, index, from)
  {
    var r := Recategorized(ms, id, category, severity);
    if from < |ms| {
      assert r[from].errorStart == ms[from].errorStart && r[from].errorEnd == ms[from].errorEnd;
      RecategorizedKeepsCovering(ms, id, category, severity, index, from + 1);
    }
  }

  /** Splitting on single spaces, as the widget numbers its words, gives
      the words the exporter numbers, each with its newlines escaped: the
      indices of a marking name the same words in both. */
  lemma WordsAgree(text: string)
    ensures |Words(text)| == |Split(text, ' ')|
    ensures forall i :: 0 <= i < |Split(text, ' ')| ==> Words(text)[i] == EscapeNewlines(Split(text, ' ')[i])
  {
    var parts := Split(text, ' ');
    var escaped := ReplaceEach(parts, '\n', NEWLINE_TOKEN);
    JoinSplit(text, ' ');
    ReplaceCharJoin(parts, ' ', '\n', NEWLINE_TOKEN);
    forall i | 0 <= i < |escaped| ensures ' ' !in escaped[i] {
      assert ' ' !in parts[i];
      ReplaceCharCounts(parts[i], '\n', NEWLINE_TOKEN, ' ');
      CountAbsent(parts[i], ' ');
      CountAbsent(escaped[i], ' ');
    }
    SplitJoin(escaped, ' ');
  }

  /** Marking `m` belongs to the text of system `systemId` on the side
      `isSource` names. */
  predicate OnText(m: CachedMarking, systemId: int, isSource: bool)
  {
    m.systemId == systemId && m.isSource == isSource
  }

  /** The markings one text shows: the annotation's cache filtered first by
      system, then by side, in cache order. */
  function Visible(ms: seq<CachedMarking>, systemId: int, isSource: bool): (r: seq<CachedMarking>)
    ensures |r| <= |ms|
    ensures forall i :: 0 <= i < |r| ==> OnText(r[i], systemId, isSource)
    ensures forall x :: x in r <==> x in ms && OnText(x, systemId, isSource)
  {
    if |ms| == 0 then []
    else
      var rest := Visible(ms[1..], systemId, isSource);
      assert forall x :: x in ms <==> x == ms[0] || x in ms[1..];
      if OnText(ms[0], systemId, isSource) then [ms[0]] + rest else rest
  }

  /** Filtering a joined cache filters each part. */
  lemma {:induction false} VisibleConcat(a: seq<CachedMarking>, b: seq<CachedMarking>, systemId: int, isSource: bool)
    ensures Visible(a + b, systemId, isSource) == Visible(a, systemId, isSource) + Visible(b, systemId, isSource)
  {
    if |a| == 0 {
      assert a + b == b;
    } else {
      assert (a + b)[0] == a[0] && (a + b)[1..] == a[1..] + b;
      VisibleConcat(a[1..], b, systemId, isSource);
    }
  }

  /** A marking of another system or of the other side, wherever it sits
      in the cache, changes nothing the text shows. */
  lemma VisibleIgnoresOthers(a: seq<CachedMarking>, b: seq<CachedMarking>, d: CachedMarking,
                             systemId: int, isSource: bool)
    requires !OnText(d, systemId, isSource)
    ensures Visible(a + [d] + b, systemId, isSource) == Visible(a + b, systemId, isSource)
  {
    VisibleAppend(a, d, systemId, isSource);
    VisibleConcat(a + [d], b, systemId, isSource);
    VisibleConcat(a, b, systemId, isSource);
  }

  /** A record appended to the cache shows at the end of the text it
      belongs to and nowhere else. */
  lemma VisibleAppend(ms: seq<CachedMarking>, d: CachedMarking, systemId: int, isSource: bool)
    ensures Visible(ms + [d], systemId, isSource)
      == Visible(ms, systemId, isSource) + (if OnText(d, systemId, isSource) then [d] else [])
  {
    VisibleConcat(ms, [d], systemId, isSource);
    assert [d][1..] == [];
    assert Visible([d], systemId, isSource)
      == (if OnText(d, systemId, isSource) then [d] else []) + Visible([], systemId, isSource);
  }

  /** The widget of one text (system `systemId`, source side or not): the
      query cache of the annotation's markings, shared by every text of the
      annotation, the marking open for editing (a position among the
      markings the text shows) and the pending selection. */
  class MarkingWidget {
    const systemId: int
    const isSource: bool
    var markings: seq<CachedMarking>
    var selectedMarking: Option<nat>
    var selection: Option<(int, int)>

    constructor(systemId: int, isSource: bool, initial: seq<CachedMarking>)
      ensures this.systemId == systemId && this.isSource == isSource
      ensures markings == initial && selectedMarking.None? && selection.None?
    {
      this.systemId := systemId;
      this.isSource := isSource;
      markings := initial;
      selectedMarking := None;
      selection := None;
    }

    /** The markings this text shows. */
    function Shown(): seq<CachedMarking>
      reads this
    {
      Visible(markings, systemId, isSource)
    }

    /** `shouldShowMarkingPopup()`. */
    predicate ShowsPopup()
      reads this
    {
      selectedMarking.Some? || selection.Some?
    }

    /** The class of word `index`: that of the first marking this text
        shows that covers it; markings of other texts never style it. */
    method ClassOf(index: int) returns (cls: Option<string>)
      ensures var k := FirstCovering(Shown(), index, 0);
        (k.None? ==> cls.None?) && (k.Some? ==> cls == ClassBySeverity(Shown()[k.value].errorSeverity))
    {
      cls := ClassByIndex(Visible(markings, systemId, isSource), index);
    }

    /** A right click on word `index`: a word covered by a marking this
        text shows opens the first such marking; on an uncovered one the
        selection is recorded exactly when the handler, which guards
        against the markings this text shows, accepts it, and is left
        alone otherwise. */
    method OnContextMenu(index: int, collapsed: bool, anchor: Option<int>, focus: Option<int>)
      modifies this
      ensures markings == old(markings)
      ensures FirstCovering(Shown(), index, 0).Some? ==>
        selectedMarking == FirstCovering(Shown(), index, 0) && selection == old(selection)
      ensures FirstCovering(Shown(), index, 0).None? ==> selectedMarking == old(selectedMarking)
      ensures FirstCovering(Shown(), index, 0).None? ==>
        var b := SelectionBounds(anchor, focus);
        var accepted := !collapsed && b.Some?
          && !(exists k :: 0 <= k < |Shown()| && EndpointInside(Shown()[k], b.value.0, b.value.1));
        (accepted ==> selection == b) && (!accepted ==> selection == old(selection))
    {
      var shown := Visible(markings, systemId, isSource);
      var menu := ContextMenuByIndex(shown, index);
      match menu {
        case SelectMarking(k) =>
          selectedMarking := Some(k);
        case StartSelection =>
          FirstCoveringNone(shown, index, 0);
          var accepted := SelectionHandler(shown, collapsed, anchor, focus);
          if accepted.Some? {
            selection := accepted;
          }
      }
    }

    /** `createMarking`: the popup closes; a NaN end creates nothing;
        otherwise the record the server returns, if it answers, is appended
        to the cache. */
    method CreateMarking(start: Option<int>, end: Option<int>, response: Option<CachedMarking>)
      modifies this
      ensures selectedMarking.None? && selection.None? && !ShowsPopup()
      ensures start.None? || end.None? || response.None? ==> markings == old(markings)
      ensures start.Some? && end.Some? && response.Some? ==> markings == old(markings) + [response.value]
    {
      selectedMarking := None;
      selection := None;
      if start.None? || end.None? {
        return;
      }
      if response.Some? {
        markings := markings + [response.value];
      }
    }

    /** `deleteMarking`: the popup closes; on success the records with that
        id leave the cache. */
    method DeleteMarking(id: int, succeeded: bool)
      modifies this
      ensures selectedMarking.None? && selection.None?
      ensures markings == if succeeded then Without(old(markings), id) else old(markings)
    {
      selectedMarking := None;
      selection := None;
      if succeeded {
        markings := Without(markings, id);
      }
    }

    /** `updateMarking`: on success the record with that id takes the new
        category and severity; the popup state is left alone. */
    method UpdateMarking(id: int, category: string, severity: string, succeeded: bool)
      modifies this
      ensures selectedMarking == old(selectedMarking) && selection == old(selection)
      ensures markings == if succeeded then Recategorized(old(markings), id, category, severity)
                          else old(markings)
    {
      if succeeded {
        markings := Recategorized(markings, id, category, severity);
      }
    }
  }
}
