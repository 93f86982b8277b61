/** The annotation endpoints. */
module AnnotationResource {
  import opened Wrappers
  import opened Http
  import opened Db
  import opened Views

  /** The JSON body of a create or update request; a field is None when its
      key is absent, and `comment` may be present with a null value. */
  datatype AnnotationBody = AnnotationBody(userId: Option<int>, evaluationId: Option<int>, bitextId: Option<int>,
                                           isAnnotated: Option<bool>, comment: Option<Option<string>>)
  {
    predicate HasIds()
    {
      userId.Some? && evaluationId.Some? && bitextId.Some?
    }
  }

  /** The three ids name existing rows. */
  predicate IdsExist(st: DbState, body: AnnotationBody)
    requires body.HasIds()
  {
    body.userId.value in st.users.rows && body.evaluationId.value in st.evaluations.rows
    && body.bitextId.value in st.bitexts.rows
  }

  /** The caller's annotations; 500 when one has lost its evaluation or bitext.
      The caller identity is not checked for presence. */
  method ReadAnnotations(db: Store, caller: int) returns (status: int, annotations: seq<AnnotationView>)
    ensures var v := ViewAnnotations(db.State(), AnnotationsOfUser(db.annotations, caller));
      (v.Some? ==> status == OK && annotations == v.value) && (v.None? ==> status == SERVER_ERROR && annotations == [])
    ensures forall a :: a in annotations ==> a.userId == caller
  {
    var own := AnnotationsOfUser(db.annotations, caller);
    var v := ViewAnnotations(db.State(), own);
    if v.None? {
      return SERVER_ERROR, [];
    }
    forall a | a in v.value ensures a.userId == caller {
      var i :| 0 <= i < |v.value| && v.value[i] == a;
      assert Some(a) == ViewAnnotation(db.State(), own[i].0, own[i].1);
    }
    return OK, v.value;
  }

  /** Creating: 422 for a missing id, then 422 unless the user, the
      evaluation and the bitext exist (checked in that order); `isAnnotated`
      defaults to false and `comment` to null. */
  method CreateAnnotation(db: Store, body: AnnotationBody, now: int, commitFails: bool)
    returns (status: int, created: Option<AnnotationView>)
    requires db.Valid()
    modifies db
    ensures db.Valid()
    ensures !body.HasIds() ==> status == UNPROCESSABLE
    ensures body.HasIds() && !IdsExist(old(db.State()), body) ==> status == UNPROCESSABLE
    ensures body.HasIds() && IdsExist(old(db.State()), body) ==> status == (if commitFails then SERVER_ERROR else CREATED)
    ensures status != CREATED ==> created.None? && db.State() == old(db.State())
    ensures status == CREATED ==>
      var a := Annotation(body.userId.value, body.evaluationId.value, body.bitextId.value,
                          body.isAnnotated.GetOr(false), body.comment.GetOr(None), now, now);
      db.State() == old(db.State()).(annotations := old(db.annotations).Insert(a))
      && created == ViewAnnotation(db.State(), old(db.annotations.nextId), a) && created.Some?
  {
    if !body.HasIds() {
      return UNPROCESSABLE, None;
    }
    if body.userId.value !in db.users.rows {
      return UNPROCESSABLE, None;
    }
    if body.evaluationId.value !in db.evaluations.rows {
      return UNPROCESSABLE, None;
    }
    if body.bitextId.value !in db.bitexts.rows {
      return UNPROCESSABLE, None;
    }
    if commitFails {
      return SERVER_ERROR, None;
    }
    var a := Annotation(body.userId.value, body.evaluationId.value, body.bitextId.value,
                        body.isAnnotated.GetOr(false), body.comment.GetOr(None), now, now);
    var id := db.annotations.nextId;
    db.annotations := db.annotations.Insert(a);
    return CREATED, ViewAnnotation(db.State(), id, a);
  }

  /** Reading: 404 for an unknown id, 500 when its evaluation or bitext is gone. */
  method ReadAnnotation(db: Store, id: int) returns (status: int, annotation: Option<AnnotationView>)
    ensures id !in db.annotations.rows ==> status == NOT_FOUND && annotation.None?
    ensures id in db.annotations.rows ==>
      var v := ViewAnnotation(db.State(), id, db.annotations.rows[id]);
      (v.Some? ==> status == OK && annotation == v) && (v.None? ==> status == SERVER_ERROR && annotation.None?)
  {
    if id !in db.annotations.rows {
      return NOT_FOUND, None;
    }
    var v := ViewAnnotation(db.State(), id, db.annotations.rows[id]);
    if v.None? {
      return SERVER_ERROR, None;
    }
    return OK, v;
  }

  /** Updating: 404 before any check of the body; then the checks of
      creation. The three ids are always overwritten, `isAnnotated` and
      `comment` only when the body has them. */
  method UpdateAnnotation(db: Store, id: int, body: AnnotationBody, now: int, commitFails: bool)
    returns (status: int, updated: Option<AnnotationView>)
    requires db.Valid()
    modifies db
    ensures db.Valid()
    ensures id !in old(db.annotations.rows) ==> status == NOT_FOUND
    ensures id in old(db.annotations.rows) && !body.HasIds() ==> status == UNPROCESSABLE
    ensures id in old(db.annotations.rows) && body.HasIds() && !IdsExist(old(db.State()), body) ==> status == UNPROCESSABLE
    ensures (id in old(db.annotations.rows) && body.HasIds() && IdsExist(old(db.State()), body))
            ==> status == (if commitFails then SERVER_ERROR else OK)
    ensures status != OK ==> updated.None? && db.State() == old(db.State())
    ensures status == OK ==>
      var before := old(db.annotations.rows[id]);
      var a := before.(userId := body.userId.value, evaluationId := body.evaluationId.value,
                       bitextId := body.bitextId.value, isAnnotated := body.isAnnotated.GetOr(before.isAnnotated),
                       comment := body.comment.GetOr(before.comment), updatedAt := now);
      db.State() == old(db.State()).(annotations := old(db.annotations).Put(id, a))
      && updated == ViewAnnotation(db.State(), id, a) && updated.Some?
  {
    if id !in db.annotations.rows {
      return NOT_FOUND, None;
    }
    if !body.HasIds() {
      return UNPROCESSABLE, None;
    }
    if body.userId.value !in db.users.rows {
      return UNPROCESSABLE, None;
    }
    if body.evaluationId.value !in db.evaluations.rows {
      return UNPROCESSABLE, None;
    }
    if body.bitextId.value !in db.bitexts.rows {
      return UNPROCESSABLE, None;
    }
    if commitFails {
      return SERVER_ERROR, None;
    }
    var before := db.annotations.rows[id];
    var a := before.(userId := body.userId.value, evaluationId := body.evaluationId.value,
                     bitextId := body.bitextId.value, isAnnotated := body.isAnnotated.GetOr(before.isAnnotated),
                     comment := body.comment.GetOr(before.comment), updatedAt := now);
    db.annotations := db.annotations.Put(id, a);
    return OK, ViewAnnotation(db.State(), id, a);
  }

  /** Deleting removes exactly that annotation; its markings and
      translations are not cascaded. */
  method DeleteAnnotation(db: Store, id: int, commitFails: bool) returns (status: int)
    requires db.Valid()
    modifies db
    ensures db.Valid()
    ensures id !in old(db.annotations.rows) ==> status == NOT_FOUND
    ensures id in old(db.annotations.rows) ==> status == (if commitFails then SERVER_ERROR else NO_CONTENT)
    ensures status != NO_CONTENT ==> db.State() == old(db.State())
    ensures status == NO_CONTENT ==> db.State() == old(db.State()).(annotations := old(db.annotations).Delete(id))
  {
    if id !in db.annotations.rows {
      return NOT_FOUND;
    }
    if commitFails {
      return SERVER_ERROR;
    }
    db.annotations := db.annotations.Delete(id);
    return NO_CONTENT;
  }
}
