/** The evaluation endpoints, including the results exporter. */
module EvaluationResource {
  import opened Wrappers
  import opened Http
  import opened Db
  import opened Views
  import opened Results

  /** The JSON body of a create or update request; a field is None when its
      key is absent. `kind` is the `type` key. */
  datatype EvaluationBody = EvaluationBody(name: Option<string>, kind: Option<string>, isFinished: Option<bool>)

  /** Some evaluation other than `except` has this name. */
  predicate NameHeldByOther(t: Table<Evaluation>, name: string, except: int)
  {
    exists id :: id in t.rows && id != except && t.rows[id].name == name
  }

  /** No two evaluations share a name. */
  predicate UniqueNames(t: Table<Evaluation>)
  {
    forall i, j :: i in t.rows && j in t.rows && i != j ==> t.rows[i].name != t.rows[j].name
  }

  method ReadEvaluations(db: Store) returns (status: int, evaluations: seq<(int, Evaluation)>)
    ensures status == OK && evaluations == AllRows(db.evaluations)
  {
    status, evaluations := OK, AllRows(db.evaluations);
  }

  /** Creating: 422 without a name or a type, 409 when the name is taken,
      500 when the commit fails, else 201 with the one new row. `isFinished`
      defaults to false. */
  method CreateEvaluation(db: Store, body: EvaluationBody, now: int, commitFails: bool)
    returns (status: int, created: Option<(int, Evaluation)>)
    requires db.Valid()
    modifies db
    ensures db.Valid()
    ensures body.name.None? || body.kind.None? ==> status == UNPROCESSABLE
    ensures body.name.Some? && body.kind.Some? && NameHeldByOther(old(db.evaluations), body.name.value, 0)
            ==> status == CONFLICT
    ensures body.name.Some? && body.kind.Some? && !NameHeldByOther(old(db.evaluations), body.name.value, 0)
            ==> status == (if commitFails then SERVER_ERROR else CREATED)
    ensures status != CREATED ==> created.None? && db.State() == old(db.State())
    ensures status == CREATED ==>
      var e := Evaluation(body.name.value, body.kind.value, body.isFinished.GetOr(false), now, now);
      created == Some((old(db.evaluations.nextId), e))
      && db.State() == old(db.State()).(evaluations := old(db.evaluations).Insert(e))
    ensures UniqueNames(old(db.evaluations)) ==> UniqueNames(db.evaluations)
  {
    if body.name.None? || body.kind.None? {
      return UNPROCESSABLE, None;
    }
    if NameHeldByOther(db.evaluations, body.name.value, 0) {
      return CONFLICT, None;
    }
    if commitFails {
      return SERVER_ERROR, None;
    }
    var e := Evaluation(body.name.value, body.kind.value, body.isFinished.GetOr(false), now, now);
    var id := db.evaluations.nextId;
    db.evaluations := db.evaluations.Insert(e);
    return CREATED, Some((id, e));
  }

  method ReadEvaluation(db: Store, id: int) returns (status: int, evaluation: Option<Evaluation>)
    ensures id !in db.evaluations.rows ==> status == NOT_FOUND && evaluation.None?
    ensures id in db.evaluations.rows ==> status == OK && evaluation == Some(db.evaluations.rows[id])
  {
    if id !in db.evaluations.rows {
      return NOT_FOUND, None;
    }
    return OK, Some(db.evaluations.rows[id]);
  }

  /** The caller's own annotations of an evaluation (404 for an unknown
      evaluation); 500 when one of them has lost its bitext. */
  method ReadEvaluationAnnotations(db: Store, caller: int, id: int)
    returns (status: int, annotations: seq<AnnotationView>)
    ensures id !in db.evaluations.rows ==> status == NOT_FOUND && annotations == []
    ensures id in db.evaluations.rows ==>
      var v := ViewAnnotations(db.State(), AnnotationsOfUserInEvaluation(db.annotations, caller, id));
      (v.None? ==> status == SERVER_ERROR && annotations == [])
      && (v.Some? ==> status == OK && annotations == v.value)
    ensures forall a :: a in annotations ==> a.userId == caller && a.evaluation.0 == id
  {
    if id !in db.evaluations.rows {
      return NOT_FOUND, [];
    }
    var own := AnnotationsOfUserInEvaluation(db.annotations, caller, id);
    var v := ViewAnnotations(db.State(), own);
    if v.None? {
      return SERVER_ERROR, [];
    }
    forall a | a in v.value ensures a.userId == caller && a.evaluation.0 == id {
      var i :| 0 <= i < |v.value| && v.value[i] == a;
      assert Some(a) == ViewAnnotation(db.State(), own[i].0, own[i].1);
    }
    return OK, v.value;
  }

  /** The results exporter. 404 for an unknown evaluation; otherwise the
      lines of `ExportRows`, or 500 where it raises. */
  method ReadEvaluationResults(db: Store, id: int) returns (status: int, results: seq<string>)
    requires db.Valid()
    ensures id !in db.evaluations.rows ==> status == NOT_FOUND && results == []
    ensures id in db.evaluations.rows && ExportRows(db.State(), id).Some?
            ==> status == OK && results == ExportRows(db.State(), id).value
    ensures id in db.evaluations.rows && ExportRows(db.State(), id).None?
            ==> status == SERVER_ERROR && results == []
  {
    if id !in db.evaluations.rows {
      return NOT_FOUND, [];
    }
    var st := db.State();
    var annotations := AnnotationsOfEvaluation(st.annotations, id);
    results := [];
    var i := 0;
    while i < |annotations|
      invariant 0 <= i <= |annotations|
      invariant AnnotationsRows(st, annotations[..i], Raise) == Some(results)
    {
      var rows := AnnotationResultRows(st, annotations[i].0, annotations[i].1);
      if rows.None? {
        ExportRaisesAtAnnotation(st, annotations, i);
        return SERVER_ERROR, [];
      }
      AnnotationsRowsStep(st, annotations, i, results, rows.value);
      results := results + rows.value;
      i := i + 1;
    }
    assert annotations[..i] == annotations;
    return OK, results;
  }

  /** The inner loop of the exporter: the rows of one annotation's
      markings, or None where building one of them raises. */
  method AnnotationResultRows(st: DbState, aId: int, a: Annotation) returns (r: Option<seq<string>>)
    ensures r == AnnotationRows(st, aId, a, Raise)
  {
    if a.bitextId !in st.bitexts.rows {
      return None;
    }
    var bitext := st.bitexts.rows[a.bitextId];
    var markings := MarkingsOf(st.markings, aId);
    var rows: seq<string> := [];
    var j := 0;
    while j < |markings|
      invariant 0 <= j <= |markings|
      invariant MarkingRows(st, aId, a, a.bitextId, bitext, markings[..j], Raise) == Some(rows)
    {
      var row := MarkingResultRow(st, aId, a, bitext, markings[j].1);
      if row.None? {
        MarkingRowsRaiseAt(st, aId, a, a.bitextId, bitext, markings, j);
        return None;
      }
      MarkingRowsStep(st, aId, a, a.bitextId, bitext, markings, j, rows, row.value);
      rows := rows + row.value;
      j := j + 1;
    }
    assert markings[..j] == markings;
    return Some(rows);
  }

  /** The body of the inner loop: the row of one marking, or None where
      a lookup, a code or the comment makes it raise. */
  method MarkingResultRow(st: DbState, aId: int, a: Annotation, bitext: Bitext, m: Marking)
    returns (r: Option<seq<string>>)
    requires a.bitextId in st.bitexts.rows && bitext == st.bitexts.rows[a.bitextId]
    ensures r == MarkingRow(st, aId, a, a.bitextId, bitext, m, Raise)
  {
    var translation := TranslationFor(st.annotationSystems, aId, m.systemId);
    if m.systemId !in st.systems.rows || bitext.documentId !in st.documents.rows
       || a.userId !in st.users.rows || translation.None? {
      return None;
    }
    var fields := RowFields(st.systems.rows[m.systemId].name, st.documents.rows[bitext.documentId].name,
                            a.bitextId, st.users.rows[a.userId].email, bitext.source,
                            translation.value.1.translation, m, a.comment);
    if fields.None? {
      return None;
    }
    return Some([FormatRow(fields.value)]);
  }

  /** Updating: 404, then 422 without a name or a type, then 409 when
      another evaluation has the name, then 500 on a failed commit; on
      success name, type and `updatedAt` change, and `isFinished` only when
      the body has it. */
  method UpdateEvaluation(db: Store, id: int, body: EvaluationBody, now: int, commitFails: bool)
    returns (status: int, updated: Option<Evaluation>)
    requires db.Valid()
    modifies db
    ensures db.Valid()
    ensures id !in old(db.evaluations.rows) ==> status == NOT_FOUND
    ensures id in old(db.evaluations.rows) && (body.name.None? || body.kind.None?) ==> status == UNPROCESSABLE
    ensures (id in old(db.evaluations.rows) && body.name.Some? && body.kind.Some?
             && NameHeldByOther(old(db.evaluations), body.name.value, id)) ==> status == CONFLICT
    ensures (id in old(db.evaluations.rows) && body.name.Some? && body.kind.Some?
             && !NameHeldByOther(old(db.evaluations), body.name.value, id))
            ==> status == (if commitFails then SERVER_ERROR else OK)
    ensures status != OK ==> updated.None? && db.State() == old(db.State())
    ensures status == OK ==>
      var e := old(db.evaluations.rows[id]).(name := body.name.value, kind := body.kind.value,
                                              isFinished := body.isFinished.GetOr(old(db.evaluations.rows[id]).isFinished),
                                              updatedAt := now);
      updated == Some(e) && db.State() == old(db.State()).(evaluations := old(db.evaluations).Put(id, e))
    ensures UniqueNames(old(db.evaluations)) ==> UniqueNames(db.evaluations)
  {
    if id !in db.evaluations.rows {
      return NOT_FOUND, None;
    }
    if body.name.None? || body.kind.None? {
      return UNPROCESSABLE, None;
    }
    if NameHeldByOther(db.evaluations, body.name.value, id) {
      return CONFLICT, None;
    }
    if commitFails {
      return SERVER_ERROR, None;
    }
    var old_ := db.evaluations.rows[id];
    var e := old_.(name := body.name.value, kind := body.kind.value,
                   isFinished := body.isFinished.GetOr(old_.isFinished), updatedAt := now);
    db.evaluations := db.evaluations.Put(id, e);
    return OK, Some(e);
  }

  /** Deleting: 404 for an unknown id, 500 on a failed commit, else 204 with
      just that row gone (annotations that name it are kept). */
  method DeleteEvaluation(db: Store, id: int, commitFails: bool) returns (status: int)
    requires db.Valid()
    modifies db
    ensures db.Valid()
    ensures id !in old(db.evaluations.rows) ==> status == NOT_FOUND
    ensures id in old(db.evaluations.rows) ==> status == (if commitFails then SERVER_ERROR else NO_CONTENT)
    ensures status != NO_CONTENT ==> db.State() == old(db.State())
    ensures status == NO_CONTENT ==> db.State() == old(db.State()).(evaluations := old(db.evaluations).Delete(id))
  {
    if id !in db.evaluations.rows {
      return NOT_FOUND;
    }
    if commitFails {
      return SERVER_ERROR;
    }
    db.evaluations := db.evaluations.Delete(id);
    return NO_CONTENT;
  }
}
