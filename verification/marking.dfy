/** The marking endpoints. Every handler first checks, in this order, that
    the annotation exists (404), that the caller made it (401) and that the
    system exists (404). */
module MarkingResource {
  import opened Wrappers
  import opened Http
  import opened Db

  /** The JSON body of a create or update request; a field is None when its
      key is absent. */
  datatype MarkingBody = MarkingBody(errorStart: Option<int>, errorEnd: Option<int>,
                                     errorCategory: Option<string>, errorSeverity: Option<string>,
                                     isSource: Option<bool>)
  {
    /** All five required keys are present. */
    predicate Complete()
    {
      errorStart.Some? && errorEnd.Some? && errorCategory.Some? && errorSeverity.Some? && isSource.Some?
    }
  }

  /** Annotation `aId` exists and was made by `caller`. */
  predicate Owns(annotations: Table<Annotation>, caller: int, aId: int)
  {
    aId in annotations.rows && annotations.rows[aId].userId == caller
  }

  /** Marking `mId` exists and belongs to annotation `aId` and system `sId`. */
  predicate MarkingAt(markings: Table<Marking>, mId: int, aId: int, sId: int)
  {
    mId in markings.rows && markings.rows[mId].annotationId == aId && markings.rows[mId].systemId == sId
  }

  method ReadMarkings(db: Store, caller: int, aId: int) returns (status: int, markings: seq<(int, Marking)>)
    requires db.Valid()
    ensures aId !in db.annotations.rows ==> status == NOT_FOUND && markings == []
    ensures aId in db.annotations.rows && !Owns(db.annotations, caller, aId) ==> status == UNAUTHORIZED && markings == []
    ensures Owns(db.annotations, caller, aId) ==> status == OK
    ensures Owns(db.annotations, caller, aId) ==>
      forall id :: id in db.markings.rows ==>
        (db.markings.rows[id].annotationId == aId <==> (id, db.markings.rows[id]) in markings)
    ensures forall p :: p in markings ==> p.0 in db.markings.rows && db.markings.rows[p.0] == p.1
    ensures forall i, j :: 0 <= i < j < |markings| ==> markings[i].0 < markings[j].0
  {
    if aId !in db.annotations.rows {
      return NOT_FOUND, [];
    }
    if db.annotations.rows[aId].userId != caller {
      return UNAUTHORIZED, [];
    }
    markings := MarkingsOf(db.markings, aId);
    status := OK;
  }

  /** Creating checks only that the five keys are present: neither the codes
      nor the order of the two ends are checked. */
  method CreateMarking(db: Store, caller: int, aId: int, sId: int, body: MarkingBody, now: int, commitFails: bool)
    returns (status: int, created: Option<(int, Marking)>)
    requires db.Valid()
    modifies db
    ensures db.Valid()
    ensures aId !in old(db.annotations.rows) ==> status == NOT_FOUND
    ensures aId in old(db.annotations.rows) && !Owns(old(db.annotations), caller, aId) ==> status == UNAUTHORIZED
    ensures Owns(old(db.annotations), caller, aId) && sId !in old(db.systems.rows) ==> status == NOT_FOUND
    ensures (Owns(old(db.annotations), caller, aId) && sId in old(db.systems.rows) && !body.Complete())
            ==> status == UNPROCESSABLE
    ensures (Owns(old(db.annotations), caller, aId) && sId in old(db.systems.rows) && body.Complete())
            ==> status == (if commitFails then SERVER_ERROR else CREATED)
    ensures status != CREATED ==> created.None? && db.State() == old(db.State())
    ensures status == CREATED ==>
      var m := Marking(aId, sId, body.errorStart.value, body.errorEnd.value, body.errorCategory.value,
                       body.errorSeverity.value, body.isSource.value, now, now);
      created == Some((old(db.markings.nextId), m))
      && db.State() == old(db.State()).(markings := old(db.markings).Insert(m))
  {
    if aId !in db.annotations.rows {
      return NOT_FOUND, None;
    }
    if db.annotations.rows[aId].userId != caller {
      return UNAUTHORIZED, None;
    }
    if sId !in db.systems.rows {
      return NOT_FOUND, None;
    }
    if !body.Complete() {
      return UNPROCESSABLE, None;
    }
    if commitFails {
      return SERVER_ERROR, None;
    }
    var m := Marking(aId, sId, body.errorStart.value, body.errorEnd.value, body.errorCategory.value,
                     body.errorSeverity.value, body.isSource.value, now, now);
    var id := db.markings.nextId;
    db.markings := db.markings.Insert(m);
    return CREATED, Some((id, m));
  }

  method ReadMarking(db: Store, caller: int, aId: int, sId: int, mId: int) returns (status: int, marking: Option<Marking>)
    ensures aId !in db.annotations.rows ==> status == NOT_FOUND
    ensures aId in db.annotations.rows && !Owns(db.annotations, caller, aId) ==> status == UNAUTHORIZED
    ensures Owns(db.annotations, caller, aId) && sId !in db.systems.rows ==> status == NOT_FOUND
    ensures (Owns(db.annotations, caller, aId) && sId in db.systems.rows && !MarkingAt(db.markings, mId, aId, sId))
            ==> status == NOT_FOUND
    ensures status == OK <==> Owns(db.annotations, caller, aId) && sId in db.systems.rows && MarkingAt(db.markings, mId, aId, sId)
    ensures status == OK ==> marking == Some(db.markings.rows[mId])
    ensures status != OK ==> marking.None?
  {
    if aId !in db.annotations.rows {
      return NOT_FOUND, None;
    }
    if db.annotations.rows[aId].userId != caller {
      return UNAUTHORIZED, None;
    }
    if sId !in db.systems.rows {
      return NOT_FOUND, None;
    }
    if !MarkingAt(db.markings, mId, aId, sId) {
      return NOT_FOUND, None;
    }
    return OK, Some(db.markings.rows[mId]);
  }

  /** Updating checks the marking (404) before the body (422) and then
      overwrites the five fields and `updatedAt`; the id, the annotation and
      the system stay. */
  method UpdateMarking(db: Store, caller: int, aId: int, sId: int, mId: int, body: MarkingBody, now: int,
                       commitFails: bool)
    returns (status: int, updated: Option<Marking>)
    requires db.Valid()
    modifies db
    ensures db.Valid()
    ensures aId !in old(db.annotations.rows) ==> status == NOT_FOUND
    ensures aId in old(db.annotations.rows) && !Owns(old(db.annotations), caller, aId) ==> status == UNAUTHORIZED
    ensures Owns(old(db.annotations), caller, aId) && sId !in old(db.systems.rows) ==> status == NOT_FOUND
    ensures (Owns(old(db.annotations), caller, aId) && sId in old(db.systems.rows)
             && !MarkingAt(old(db.markings), mId, aId, sId)) ==> status == NOT_FOUND
    ensures (Owns(old(db.annotations), caller, aId) && sId in old(db.systems.rows)
             && MarkingAt(old(db.markings), mId, aId, sId) && !body.Complete()) ==> status == UNPROCESSABLE
    ensures (Owns(old(db.annotations), caller, aId) && sId in old(db.systems.rows)
             && MarkingAt(old(db.markings), mId, aId, sId) && body.Complete())
            ==> status == (if commitFails then SERVER_ERROR else OK)
    ensures status != OK ==> updated.None? && db.State() == old(db.State())
    ensures status == OK ==>
      var m := old(db.markings.rows[mId]).(errorStart := body.errorStart.value, errorEnd := body.errorEnd.value,
                                           errorCategory := body.errorCategory.value,
                                           errorSeverity := body.errorSeverity.value,
                                           isSource := body.isSource.value, updatedAt := now);
      updated == Some(m) && m.annotationId == aId && m.systemId == sId
      && db.State() == old(db.State()).(markings := old(db.markings).Put(mId, m))
  {
    if aId !in db.annotations.rows {
      return NOT_FOUND, None;
    }
    if db.annotations.rows[aId].userId != caller {
      return UNAUTHORIZED, None;
    }
    if sId !in db.systems.rows {
      return NOT_FOUND, None;
    }
    if !MarkingAt(db.markings, mId, aId, sId) {
      return NOT_FOUND, None;
    }
    if !body.Complete() {
      return UNPROCESSABLE, None;
    }
    if commitFails {
      return SERVER_ERROR, None;
    }
    var m := db.markings.rows[mId].(errorStart := body.errorStart.value, errorEnd := body.errorEnd.value,
                                    errorCategory := body.errorCategory.value,
                                    errorSeverity := body.errorSeverity.value,
                                    isSource := body.isSource.value, updatedAt := now);
    db.markings := db.markings.Put(mId, m);
    return OK, Some(m);
  }

  /** Deleting removes exactly that marking; afterwards it is no longer found
      under the annotation and system, so reading it answers 404. */
  method DeleteMarking(db: Store, caller: int, aId: int, sId: int, mId: int, commitFails: bool) returns (status: int)
    requires db.Valid()
    modifies db
    ensures db.Valid()
    ensures aId !in old(db.annotations.rows) ==> status == NOT_FOUND
    ensures aId in old(db.annotations.rows) && !Owns(old(db.annotations), caller, aId) ==> status == UNAUTHORIZED
    ensures Owns(old(db.annotations), caller, aId) && sId !in old(db.systems.rows) ==> status == NOT_FOUND
    ensures (Owns(old(db.annotations), caller, aId) && sId in old(db.systems.rows)
             && !MarkingAt(old(db.markings), mId, aId, sId)) ==> status == NOT_FOUND
    ensures (Owns(old(db.annotations), caller, aId) && sId in old(db.systems.rows)
             && MarkingAt(old(db.markings), mId, aId, sId))
            ==> status == (if commitFails then SERVER_ERROR else NO_CONTENT)
    ensures status != NO_CONTENT ==> db.State() == old(db.State())
    ensures status == NO_CONTENT ==>
      db.State() == old(db.State()).(markings := old(db.markings).Delete(mId))
      && !MarkingAt(db.markings, mId, aId, sId)
  {
    if aId !in db.annotations.rows {
      return NOT_FOUND;
    }
    if db.annotations.rows[aId].userId != caller {
      return UNAUTHORIZED;
    }
    if sId !in db.systems.rows {
      return NOT_FOUND;
    }
    if !MarkingAt(db.markings, mId, aId, sId) {
      return NOT_FOUND;
    }
    if commitFails {
      return SERVER_ERROR;
    }
    db.markings := db.markings.Delete(mId);
    return NO_CONTENT;
  }
}
