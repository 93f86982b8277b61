/** The document endpoints. Documents own their bitexts: deleting one
    deletes its bitexts and, through them, their annotations. */
module DocumentResource {
  import opened Wrappers
  import opened Http
  import opened Db

  /** `documentId` is read by the update handler although it does not
      identify the row being updated. */
  datatype DocumentBody = DocumentBody(name: Option<string>, documentId: Option<int>)

  method ReadDocuments(db: Store) returns (status: int, documents: seq<(int, Document)>)
    ensures status == OK && documents == AllRows(db.documents)
  {
    status, documents := OK, AllRows(db.documents);
  }

  /** Creating requires only a name; names need not be unique. */
  method CreateDocument(db: Store, body: DocumentBody, now: int, commitFails: bool)
    returns (status: int, created: Option<(int, Document)>)
    requires db.Valid()
    modifies db
    ensures db.Valid()
    ensures body.name.None? ==> status == UNPROCESSABLE
    ensures body.name.Some? ==> status == (if commitFails then SERVER_ERROR else CREATED)
    ensures status != CREATED ==> created.None? && db.State() == old(db.State())
    ensures status == CREATED ==>
      var d := Document(body.name.value, now, now);
      created == Some((old(db.documents.nextId), d))
      && db.State() == old(db.State()).(documents := old(db.documents).Insert(d))
  {
    if body.name.None? {
      return UNPROCESSABLE, None;
    }
    if commitFails {
      return SERVER_ERROR, None;
    }
    var d := Document(body.name.value, now, now);
    var id := db.documents.nextId;
    db.documents := db.documents.Insert(d);
    return CREATED, Some((id, d));
  }

  method ReadDocument(db: Store, id: int) returns (status: int, document: Option<Document>)
    ensures id !in db.documents.rows ==> status == NOT_FOUND && document.None?
    ensures id in db.documents.rows ==> status == OK && document == Some(db.documents.rows[id])
  {
    if id !in db.documents.rows {
      return NOT_FOUND, None;
    }
    return OK, Some(db.documents.rows[id]);
  }

  /** The bitexts of a document (404 for an unknown document). */
  method ReadDocumentBitexts(db: Store, id: int) returns (status: int, bitexts: seq<(int, Bitext)>)
    requires db.Valid()
    ensures id !in db.documents.rows ==> status == NOT_FOUND && bitexts == []
    ensures id in db.documents.rows ==> status == OK
    ensures id in db.documents.rows ==>
      forall b :: b in db.bitexts.rows ==> (db.bitexts.rows[b].documentId == id <==> (b, db.bitexts.rows[b]) in bitexts)
    ensures forall p :: p in bitexts ==> p.0 in db.bitexts.rows && db.bitexts.rows[p.0] == p.1
    ensures forall i, j :: 0 <= i < j < |bitexts| ==> bitexts[i].0 < bitexts[j].0
  {
    if id !in db.documents.rows {
      return NOT_FOUND, [];
    }
    return OK, BitextsOf(db.bitexts, id);
  }

  /** Updating: 404, then 422 without a name, then (a KeyError, 500) without
      a `documentId` key, then 422 unless that key names some existing
      document, not necessarily this one; only the name and `updatedAt`
      change. */
  method UpdateDocument(db: Store, id: int, body: DocumentBody, now: int, commitFails: bool)
    returns (status: int, updated: Option<Document>)
    requires db.Valid()
    modifies db
    ensures db.Valid()
    ensures id !in old(db.documents.rows) ==> status == NOT_FOUND
    ensures id in old(db.documents.rows) && body.name.None? ==> status == UNPROCESSABLE
    ensures id in old(db.documents.rows) && body.name.Some? && body.documentId.None? ==> status == SERVER_ERROR
    ensures (id in old(db.documents.rows) && body.name.Some? && body.documentId.Some?
             && body.documentId.value !in old(db.documents.rows)) ==> status == UNPROCESSABLE
    ensures (id in old(db.documents.rows) && body.name.Some? && body.documentId.Some?
             && body.documentId.value in old(db.documents.rows))
            ==> status == (if commitFails then SERVER_ERROR else OK)
    ensures status != OK ==> updated.None? && db.State() == old(db.State())
    ensures status == OK ==>
      var d := old(db.documents.rows[id]).(name := body.name.value, updatedAt := now);
      updated == Some(d) && db.State() == old(db.State()).(documents := old(db.documents).Put(id, d))
  {
    if id !in db.documents.rows {
      return NOT_FOUND, None;
    }
    if body.name.None? {
      return UNPROCESSABLE, None;
    }
    if body.documentId.None? {
      return SERVER_ERROR, None;
    }
    if body.documentId.value !in db.documents.rows {
      return UNPROCESSABLE, None;
    }
    if commitFails {
      return SERVER_ERROR, None;
    }
    var d := db.documents.rows[id].(name := body.name.value, updatedAt := now);
    db.documents := db.documents.Put(id, d);
    return OK, Some(d);
  }

  /** The ids of a document's bitexts. */
  function BitextIdsOf(t: Table<Bitext>, docId: int): set<int>
  {
    set b | b in t.rows && t.rows[b].documentId == docId
  }

  /** Deleting a document deletes its bitexts and their annotations. */
  method DeleteDocument(db: Store, id: int, commitFails: bool) returns (status: int)
    requires db.Valid()
    modifies db
    ensures db.Valid()
    ensures id !in old(db.documents.rows) ==> status == NOT_FOUND
    ensures id in old(db.documents.rows) ==> status == (if commitFails then SERVER_ERROR else NO_CONTENT)
    ensures status != NO_CONTENT ==> db.State() == old(db.State())
    ensures status == NO_CONTENT ==>
      var gone := BitextIdsOf(old(db.bitexts), id);
      db.State() == old(db.State()).(documents := old(db.documents).Delete(id),
                                     bitexts := old(db.bitexts).DeleteWhere((b: Bitext) => b.documentId == id),
                                     annotations := old(db.annotations).DeleteWhere((a: Annotation) => a.bitextId in gone))
    ensures status == NO_CONTENT ==> forall b :: b in db.bitexts.rows ==> db.bitexts.rows[b].documentId != id
  {
    if id !in db.documents.rows {
      return NOT_FOUND;
    }
    if commitFails {
      return SERVER_ERROR;
    }
    var gone := BitextIdsOf(db.bitexts, id);
    db.documents := db.documents.Delete(id);
    db.bitexts := db.bitexts.DeleteWhere((b: Bitext) => b.documentId == id);
    db.annotations := db.annotations.DeleteWhere((a: Annotation) => a.bitextId in gone);
    return NO_CONTENT;
  }
}
