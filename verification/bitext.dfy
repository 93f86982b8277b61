/** The bitext endpoints. A bitext owns its annotations: deleting it deletes
    them. */
module BitextResource {
  import opened Wrappers
  import opened Http
  import opened Db

  datatype BitextBody = BitextBody(documentId: Option<int>, source: Option<string>, target: Option<string>)
  {
    predicate Complete()
    {
      documentId.Some? && source.Some? && target.Some?
    }
  }

  method ReadBitexts(db: Store) returns (status: int, bitexts: seq<(int, Bitext)>)
    ensures status == OK && bitexts == AllRows(db.bitexts)
  {
    status, bitexts := OK, AllRows(db.bitexts);
  }

  /** Creating: 422 for a missing key, 422 when `documentId` names no
      document. */
  method CreateBitext(db: Store, body: BitextBody, now: int, commitFails: bool)
    returns (status: int, created: Option<(int, Bitext)>)
    requires db.Valid()
    modifies db
    ensures db.Valid()
    ensures !body.Complete() ==> status == UNPROCESSABLE
    ensures body.Complete() && body.documentId.value !in old(db.documents.rows) ==> status == UNPROCESSABLE
    ensures body.Complete() && body.documentId.value in old(db.documents.rows)
            ==> status == (if commitFails then SERVER_ERROR else CREATED)
    ensures status != CREATED ==> created.None? && db.State() == old(db.State())
    ensures status == CREATED ==>
      var b := Bitext(body.documentId.value, body.source.value, body.target.value, now, now);
      created == Some((old(db.bitexts.nextId), b))
      && db.State() == old(db.State()).(bitexts := old(db.bitexts).Insert(b))
  {
    if !body.Complete() {
      return UNPROCESSABLE, None;
    }
    if body.documentId.value !in db.documents.rows {
      return UNPROCESSABLE, None;
    }
    if commitFails {
      return SERVER_ERROR, None;
    }
    var b := Bitext(body.documentId.value, body.source.value, body.target.value, now, now);
    var id := db.bitexts.nextId;
    db.bitexts := db.bitexts.Insert(b);
    return CREATED, Some((id, b));
  }

  method ReadBitext(db: Store, id: int) returns (status: int, bitext: Option<Bitext>)
    ensures id !in db.bitexts.rows ==> status == NOT_FOUND && bitext.None?
    ensures id in db.bitexts.rows ==> status == OK && bitext == Some(db.bitexts.rows[id])
  {
    if id !in db.bitexts.rows {
      return NOT_FOUND, None;
    }
    return OK, Some(db.bitexts.rows[id]);
  }

  /** Updating: 404, then 422 for a missing key; `documentId` is not checked
      against the documents. The three fields and `updatedAt` are
      overwritten. */
  method UpdateBitext(db: Store, id: int, body: BitextBody, now: int, commitFails: bool)
    returns (status: int, updated: Option<Bitext>)
    requires db.Valid()
    modifies db
    ensures db.Valid()
    ensures id !in old(db.bitexts.rows) ==> status == NOT_FOUND
    ensures id in old(db.bitexts.rows) && !body.Complete() ==> status == UNPROCESSABLE
    ensures id in old(db.bitexts.rows) && body.Complete() ==> status == (if commitFails then SERVER_ERROR else OK)
    ensures status != OK ==> updated.None? && db.State() == old(db.State())
    ensures status == OK ==>
      var b := old(db.bitexts.rows[id]).(documentId := body.documentId.value, source := body.source.value,
                                         target := body.target.value, updatedAt := now);
      updated == Some(b) && db.State() == old(db.State()).(bitexts := old(db.bitexts).Put(id, b))
  {
    if id !in db.bitexts.rows {
      return NOT_FOUND, None;
    }
    if !body.Complete() {
      return UNPROCESSABLE, None;
    }
    if commitFails {
      return SERVER_ERROR, None;
    }
    var b := db.bitexts.rows[id].(documentId := body.documentId.value, source := body.source.value,
                                  target := body.target.value, updatedAt := now);
    db.bitexts := db.bitexts.Put(id, b);
    return OK, Some(b);
  }

  /** Deleting a bitext deletes its annotations; every other bitext stays
      as it was. */
  method DeleteBitext(db: Store, id: int, commitFails: bool) returns (status: int)
    requires db.Valid()
    modifies db
    ensures db.Valid()
    ensures id !in old(db.bitexts.rows) ==> status == NOT_FOUND
    ensures id in old(db.bitexts.rows) ==> status == (if commitFails then SERVER_ERROR else NO_CONTENT)
    ensures status != NO_CONTENT ==> db.State() == old(db.State())
    ensures status == NO_CONTENT ==>
      db.State() == old(db.State()).(bitexts := old(db.bitexts).Delete(id),
                                     annotations := old(db.annotations).DeleteWhere((a: Annotation) => a.bitextId == id))
    ensures status == NO_CONTENT ==>
      forall b :: b in old(db.bitexts.rows) && b != id ==> b in db.bitexts.rows && db.bitexts.rows[b] == old(db.bitexts.rows[b])
  {
    if id !in db.bitexts.rows {
      return NOT_FOUND;
    }
    if commitFails {
      return SERVER_ERROR;
    }
    db.bitexts := db.bitexts.Delete(id);
    db.annotations := db.annotations.DeleteWhere((a: Annotation) => a.bitextId == id);
    return NO_CONTENT;
  }
}
