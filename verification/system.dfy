/** The system endpoints and the per-annotation translations of each system
    (annotation systems), which are addressed by the pair (annotation,
    system) rather than by their own id. */
module SystemResource {
  import opened Wrappers
  import opened Http
  import opened Db
  import opened Views

  datatype SystemBody = SystemBody(name: Option<string>)

  datatype TranslationBody = TranslationBody(systemId: Option<int>, translation: Option<string>)

  /** Some system other than `except` has this name (0 is never an id). */
  predicate NameHeldByOther(t: Table<System>, name: string, except: int)
  {
    exists id :: id in t.rows && id != except && t.rows[id].name == name
  }

  predicate UniqueNames(t: Table<System>)
  {
    forall i, j :: i in t.rows && j in t.rows && i != j ==> t.rows[i].name != t.rows[j].name
  }

  /** At most one translation per (annotation, system) pair. */
  predicate UniquePairs(t: Table<AnnotationSystem>)
  {
    forall i, j :: i in t.rows && j in t.rows && i != j ==>
      (t.rows[i].annotationId, t.rows[i].systemId) != (t.rows[j].annotationId, t.rows[j].systemId)
  }

  method ReadSystems(db: Store) returns (status: int, systems: seq<(int, System)>)
    ensures status == OK && systems == AllRows(db.systems)
  {
    status, systems := OK, AllRows(db.systems);
  }

  method CreateSystem(db: Store, body: SystemBody, now: int, commitFails: bool)
    returns (status: int, created: Option<(int, System)>)
    requires db.Valid()
    modifies db
    ensures db.Valid()
    ensures body.name.None? ==> status == UNPROCESSABLE
    ensures body.name.Some? && NameHeldByOther(old(db.systems), body.name.value, 0) ==> status == CONFLICT
    ensures body.name.Some? && !NameHeldByOther(old(db.systems), body.name.value, 0)
            ==> status == (if commitFails then SERVER_ERROR else CREATED)
    ensures status != CREATED ==> created.None? && db.State() == old(db.State())
    ensures status == CREATED ==>
      var s := System(body.name.value, now, now);
      created == Some((old(db.systems.nextId), s))
      && db.State() == old(db.State()).(systems := old(db.systems).Insert(s))
    ensures UniqueNames(old(db.systems)) ==> UniqueNames(db.systems)
  {
    if body.name.None? {
      return UNPROCESSABLE, None;
    }
    if NameHeldByOther(db.systems, body.name.value, 0) {
      return CONFLICT, None;
    }
    if commitFails {
      return SERVER_ERROR, None;
    }
    var s := System(body.name.value, now, now);
    var id := db.systems.nextId;
    db.systems := db.systems.Insert(s);
    return CREATED, Some((id, s));
  }

  method ReadSystem(db: Store, id: int) returns (status: int, system: Option<System>)
    ensures id !in db.systems.rows ==> status == NOT_FOUND && system.None?
    ensures id in db.systems.rows ==> status == OK && system == Some(db.systems.rows[id])
  {
    if id !in db.systems.rows {
      return NOT_FOUND, None;
    }
    return OK, Some(db.systems.rows[id]);
  }

  /** Updating: 404, then 422, then 409 when another system has the name;
      only the name and `updatedAt` change. */
  method UpdateSystem(db: Store, id: int, body: SystemBody, now: int, commitFails: bool)
    returns (status: int, updated: Option<System>)
    requires db.Valid()
    modifies db
    ensures db.Valid()
    ensures id !in old(db.systems.rows) ==> status == NOT_FOUND
    ensures id in old(db.systems.rows) && body.name.None? ==> status == UNPROCESSABLE
    ensures (id in old(db.systems.rows) && body.name.Some? && NameHeldByOther(old(db.systems), body.name.value, id))
            ==> status == CONFLICT
    ensures (id in old(db.systems.rows) && body.name.Some? && !NameHeldByOther(old(db.systems), body.name.value, id))
            ==> status == (if commitFails then SERVER_ERROR else OK)
    ensures status != OK ==> updated.None? && db.State() == old(db.State())
    ensures status == OK ==>
      var s := old(db.systems.rows[id]).(name := body.name.value, updatedAt := now);
      updated == Some(s) && db.State() == old(db.State()).(systems := old(db.systems).Put(id, s))
    ensures UniqueNames(old(db.systems)) ==> UniqueNames(db.systems)
  {
    if id !in db.systems.rows {
      return NOT_FOUND, None;
    }
    if body.name.None? {
      return UNPROCESSABLE, None;
    }
    if NameHeldByOther(db.systems, body.name.value, id) {
      return CONFLICT, None;
    }
    if commitFails {
      return SERVER_ERROR, None;
    }
    var s := db.systems.rows[id].(name := body.name.value, updatedAt := now);
    db.systems := db.systems.Put(id, s);
    return OK, Some(s);
  }

  /** Deleting removes just that system; markings and translations that
      name it are kept. */
  method DeleteSystem(db: Store, id: int, commitFails: bool) returns (status: int)
    requires db.Valid()
    modifies db
    ensures db.Valid()
    ensures id !in old(db.systems.rows) ==> status == NOT_FOUND
    ensures id in old(db.systems.rows) ==> status == (if commitFails then SERVER_ERROR else NO_CONTENT)
    ensures status != NO_CONTENT ==> db.State() == old(db.State())
    ensures status == NO_CONTENT ==> db.State() == old(db.State()).(systems := old(db.systems).Delete(id))
  {
    if id !in db.systems.rows {
      return NOT_FOUND;
    }
    if commitFails {
      return SERVER_ERROR;
    }
    db.systems := db.systems.Delete(id);
    return NO_CONTENT;
  }

  method ReadAnnotationSystems(db: Store, aId: int) returns (status: int, translations: seq<AnnotationSystemView>)
    ensures aId !in db.annotations.rows ==> status == NOT_FOUND && translations == []
    ensures aId in db.annotations.rows ==> status == OK
    ensures aId in db.annotations.rows ==>
      var rows := TranslationsOf(db.annotationSystems, aId);
      |translations| == |rows|
      && forall i :: 0 <= i < |rows| ==> translations[i] == ViewAnnotationSystem(rows[i].0, rows[i].1)
  {
    if aId !in db.annotations.rows {
      return NOT_FOUND, [];
    }
    var rows := TranslationsOf(db.annotationSystems, aId);
    translations := [];
    var i := 0;
    while i < |rows|
      invariant 0 <= i <= |rows| && |translations| == i
      invariant forall k :: 0 <= k < i ==> translations[k] == ViewAnnotationSystem(rows[k].0, rows[k].1)
    {
      translations := translations + [ViewAnnotationSystem(rows[i].0, rows[i].1)];
      i := i + 1;
    }
    status := OK;
  }

  /** Adding a system's translation to an annotation: 404 for an unknown
      annotation, 422 for a missing key or an unknown system, 409 when the
      pair already has a translation. So a pair never has two. */
  method CreateAnnotationSystem(db: Store, aId: int, body: TranslationBody, now: int, commitFails: bool)
    returns (status: int, created: Option<AnnotationSystemView>)
    requires db.Valid()
    modifies db
    ensures db.Valid()
    ensures aId !in old(db.annotations.rows) ==> status == NOT_FOUND
    ensures aId in old(db.annotations.rows) && (body.systemId.None? || body.translation.None?) ==> status == UNPROCESSABLE
    ensures (aId in old(db.annotations.rows) && body.systemId.Some? && body.translation.Some?
             && body.systemId.value !in old(db.systems.rows)) ==> status == UNPROCESSABLE
    ensures (aId in old(db.annotations.rows) && body.systemId.Some? && body.translation.Some?
             && body.systemId.value in old(db.systems.rows)
             && TranslationFor(old(db.annotationSystems), aId, body.systemId.value).Some?) ==> status == CONFLICT
    ensures (aId in old(db.annotations.rows) && body.systemId.Some? && body.translation.Some?
             && body.systemId.value in old(db.systems.rows)
             && TranslationFor(old(db.annotationSystems), aId, body.systemId.value).None?)
            ==> status == (if commitFails then SERVER_ERROR else CREATED)
    ensures status != CREATED ==> created.None? && db.State() == old(db.State())
    ensures status == CREATED ==>
      var r := AnnotationSystem(aId, body.systemId.value, body.translation.value, now, now);
      created == Some(ViewAnnotationSystem(old(db.annotationSystems.nextId), r))
      && db.State() == old(db.State()).(annotationSystems := old(db.annotationSystems).Insert(r))
    ensures UniquePairs(old(db.annotationSystems)) ==> UniquePairs(db.annotationSystems)
  {
    if aId !in db.annotations.rows {
      return NOT_FOUND, None;
    }
    if body.systemId.None? || body.translation.None? {
      return UNPROCESSABLE, None;
    }
    var sId := body.systemId.value;
    if sId !in db.systems.rows {
      return UNPROCESSABLE, None;
    }
    if TranslationFor(db.annotationSystems, aId, sId).Some? {
      return CONFLICT, None;
    }
    if commitFails {
      return SERVER_ERROR, None;
    }
    db.annotationSystems.FirstIsLeast((r: AnnotationSystem) => r.annotationId == aId && r.systemId == sId);
    var r := AnnotationSystem(aId, sId, body.translation.value, now, now);
    var id := db.annotationSystems.nextId;
    db.annotationSystems := db.annotationSystems.Insert(r);
    return CREATED, Some(ViewAnnotationSystem(id, r));
  }

  method ReadAnnotationSystem(db: Store, aId: int, sId: int) returns (status: int, translation: Option<AnnotationSystemView>)
    ensures var hit := TranslationFor(db.annotationSystems, aId, sId);
      (hit.None? ==> status == NOT_FOUND && translation.None?)
      && (hit.Some? ==> status == OK && translation == Some(ViewAnnotationSystem(hit.value.0, hit.value.1)))
  {
    var hit := TranslationFor(db.annotationSystems, aId, sId);
    if hit.None? {
      return NOT_FOUND, None;
    }
    return OK, Some(ViewAnnotationSystem(hit.value.0, hit.value.1));
  }

  /** Updating a pair's translation: 404 for a missing pair, 422 without a
      translation; only the translation and `updatedAt` change. */
  method UpdateAnnotationSystem(db: Store, aId: int, sId: int, body: TranslationBody, now: int, commitFails: bool)
    returns (status: int, updated: Option<AnnotationSystemView>)
    requires db.Valid()
    modifies db
    ensures db.Valid()
    ensures TranslationFor(old(db.annotationSystems), aId, sId).None? ==> status == NOT_FOUND
    ensures TranslationFor(old(db.annotationSystems), aId, sId).Some? && body.translation.None? ==> status == UNPROCESSABLE
    ensures TranslationFor(old(db.annotationSystems), aId, sId).Some? && body.translation.Some?
            ==> status == (if commitFails then SERVER_ERROR else OK)
    ensures status != OK ==> updated.None? && db.State() == old(db.State())
    ensures status == OK ==>
      var (id, before) := TranslationFor(old(db.annotationSystems), aId, sId).value;
      var r := before.(translation := body.translation.value, updatedAt := now);
      r.annotationId == aId && r.systemId == sId
      && updated == Some(ViewAnnotationSystem(id, r))
      && db.State() == old(db.State()).(annotationSystems := old(db.annotationSystems).Put(id, r))
    ensures UniquePairs(old(db.annotationSystems)) ==> UniquePairs(db.annotationSystems)
  {
    var hit := TranslationFor(db.annotationSystems, aId, sId);
    if hit.None? {
      return NOT_FOUND, None;
    }
    if body.translation.None? {
      return UNPROCESSABLE, None;
    }
    if commitFails {
      return SERVER_ERROR, None;
    }
    db.annotationSystems.FirstIsLeast((r: AnnotationSystem) => r.annotationId == aId && r.systemId == sId);
    var (id, before) := hit.value;
    var r := before.(translation := body.translation.value, updatedAt := now);
    db.annotationSystems := db.annotationSystems.Put(id, r);
    return OK, Some(ViewAnnotationSystem(id, r));
  }

  method DeleteAnnotationSystem(db: Store, aId: int, sId: int, commitFails: bool) returns (status: int)
    requires db.Valid()
    modifies db
    ensures db.Valid()
    ensures TranslationFor(old(db.annotationSystems), aId, sId).None? ==> status == NOT_FOUND
    ensures TranslationFor(old(db.annotationSystems), aId, sId).Some?
            ==> status == (if commitFails then SERVER_ERROR else NO_CONTENT)
    ensures status != NO_CONTENT ==> db.State() == old(db.State())
    ensures status == NO_CONTENT ==>
      var id := TranslationFor(old(db.annotationSystems), aId, sId).value.0;
      db.State() == old(db.State()).(annotationSystems := old(db.annotationSystems).Delete(id))
    ensures UniquePairs(old(db.annotationSystems)) ==> UniquePairs(db.annotationSystems)
  {
    var hit := TranslationFor(db.annotationSystems, aId, sId);
    if hit.None? {
      return NOT_FOUND;
    }
    if commitFails {
      return SERVER_ERROR;
    }
    db.annotationSystems := db.annotationSystems.Delete(hit.value.0);
    return NO_CONTENT;
  }
}
