/** The user endpoints. Passwords are stored only as hashes and never sent
    back. */
module UserResource {
  import opened Wrappers
  import opened Http
  import opened Db
  import opened Views

  datatype UserBody = UserBody(email: Option<string>, password: Option<string>, nativeLanguage: Option<string>)
  {
    predicate Complete()
    {
      email.Some? && password.Some? && nativeLanguage.Some?
    }
  }

  /** Create and update answer `{"user": ...}`; read answers the bare record. */
  datatype UserEnvelope = UserEnvelope(user: UserView)

  /** Some user other than `except` has this email (0 is never an id). */
  predicate EmailHeldByOther(t: Table<User>, email: string, except: int)
  {
    exists id :: id in t.rows && id != except && t.rows[id].email == email
  }

  predicate UniqueEmails(t: Table<User>)
  {
    forall i, j :: i in t.rows && j in t.rows && i != j ==> t.rows[i].email != t.rows[j].email
  }

  method ReadUsers(db: Store) returns (status: int, users: seq<UserView>)
    ensures status == OK && |users| == |AllRows(db.users)|
    ensures forall i :: 0 <= i < |users| ==> users[i] == ViewUser(AllRows(db.users)[i].0, AllRows(db.users)[i].1)
  {
    var rows := AllRows(db.users);
    users := [];
    var i := 0;
    while i < |rows|
      invariant 0 <= i <= |rows| && |users| == i
      invariant forall k :: 0 <= k < i ==> users[k] == ViewUser(rows[k].0, rows[k].1)
    {
      users := users + [ViewUser(rows[i].0, rows[i].1)];
      i := i + 1;
    }
    status := OK;
  }

  /** Creating: 422 for a missing key, 409 when any user has the email;
      the password is stored as a hash (the salt is the library's choice). */
  method CreateUser(db: Store, body: UserBody, salt: int, now: int, commitFails: bool)
    returns (status: int, created: Option<UserEnvelope>)
    requires db.Valid()
    modifies db
    ensures db.Valid()
    ensures !body.Complete() ==> status == UNPROCESSABLE
    ensures body.Complete() && EmailHeldByOther(old(db.users), body.email.value, 0) ==> status == CONFLICT
    ensures body.Complete() && !EmailHeldByOther(old(db.users), body.email.value, 0)
            ==> status == (if commitFails then SERVER_ERROR else CREATED)
    ensures status != CREATED ==> created.None? && db.State() == old(db.State())
    ensures status == CREATED ==>
      var u := User(body.email.value, HashPassword(body.password.value, salt), body.nativeLanguage.value, now, now);
      created == Some(UserEnvelope(ViewUser(old(db.users.nextId), u)))
      && db.State() == old(db.State()).(users := old(db.users).Insert(u))
      && Verifies(db.users.rows[old(db.users.nextId)].password, body.password.value)
    ensures UniqueEmails(old(db.users)) ==> UniqueEmails(db.users)
  {
    if !body.Complete() {
      return UNPROCESSABLE, None;
    }
    if EmailHeldByOther(db.users, body.email.value, 0) {
      return CONFLICT, None;
    }
    if commitFails {
      return SERVER_ERROR, None;
    }
    var u := User(body.email.value, HashPassword(body.password.value, salt), body.nativeLanguage.value, now, now);
    var id := db.users.nextId;
    db.users := db.users.Insert(u);
    return CREATED, Some(UserEnvelope(ViewUser(id, u)));
  }

  method ReadUser(db: Store, id: int) returns (status: int, user: Option<UserView>)
    ensures id !in db.users.rows ==> status == NOT_FOUND && user.None?
    ensures id in db.users.rows ==> status == OK && user == Some(ViewUser(id, db.users.rows[id]))
  {
    if id !in db.users.rows {
      return NOT_FOUND, None;
    }
    return OK, Some(ViewUser(id, db.users.rows[id]));
  }

  /** Updating: 404 before 422, 409 only when another user has the email;
      email, password hash and native language are all overwritten. */
  method UpdateUser(db: Store, id: int, body: UserBody, salt: int, now: int, commitFails: bool)
    returns (status: int, updated: Option<UserEnvelope>)
    requires db.Valid()
    modifies db
    ensures db.Valid()
    ensures id !in old(db.users.rows) ==> status == NOT_FOUND
    ensures id in old(db.users.rows) && !body.Complete() ==> status == UNPROCESSABLE
    ensures (id in old(db.users.rows) && body.Complete() && EmailHeldByOther(old(db.users), body.email.value, id))
            ==> status == CONFLICT
    ensures (id in old(db.users.rows) && body.Complete() && !EmailHeldByOther(old(db.users), body.email.value, id))
            ==> status == (if commitFails then SERVER_ERROR else OK)
    ensures status != OK ==> updated.None? && db.State() == old(db.State())
    ensures status == OK ==>
      var u := old(db.users.rows[id]).(email := body.email.value, password := HashPassword(body.password.value, salt),
                                       nativeLanguage := body.nativeLanguage.value, updatedAt := now);
      updated == Some(UserEnvelope(ViewUser(id, u)))
      && db.State() == old(db.State()).(users := old(db.users).Put(id, u))
    ensures UniqueEmails(old(db.users)) ==> UniqueEmails(db.users)
  {
    if id !in db.users.rows {
      return NOT_FOUND, None;
    }
    if !body.Complete() {
      return UNPROCESSABLE, None;
    }
    if EmailHeldByOther(db.users, body.email.value, id) {
      return CONFLICT, None;
    }
    if commitFails {
      return SERVER_ERROR, None;
    }
    var u := db.users.rows[id].(email := body.email.value, password := HashPassword(body.password.value, salt),
                                nativeLanguage := body.nativeLanguage.value, updatedAt := now);
    db.users := db.users.Put(id, u);
    return OK, Some(UserEnvelope(ViewUser(id, u)));
  }

  /** Deleting a user also deletes the annotations the user made. */
  method DeleteUser(db: Store, id: int, commitFails: bool) returns (status: int)
    requires db.Valid()
    modifies db
    ensures db.Valid()
    ensures id !in old(db.users.rows) ==> status == NOT_FOUND
    ensures id in old(db.users.rows) ==> status == (if commitFails then SERVER_ERROR else NO_CONTENT)
    ensures status != NO_CONTENT ==> db.State() == old(db.State())
    ensures status == NO_CONTENT ==>
      db.State() == old(db.State()).(users := old(db.users).Delete(id),
                                     annotations := old(db.annotations).DeleteWhere((a: Annotation) => a.userId == id))
    ensures status == NO_CONTENT ==> forall aId :: aId in db.annotations.rows ==> db.annotations.rows[aId].userId != id
  {
    if id !in db.users.rows {
      return NOT_FOUND;
    }
    if commitFails {
      return SERVER_ERROR;
    }
    db.users := db.users.Delete(id);
    db.annotations := db.annotations.DeleteWhere((a: Annotation) => a.userId == id);
    return NO_CONTENT;
  }
}
