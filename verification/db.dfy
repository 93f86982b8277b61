/** The records of the eight tables and the in-memory store the handlers
    work on. A table maps row ids to records and remembers the next id the
    database would hand out; "store order" is ascending id, the order in
    which the database returns rows of an unordered query. Timestamps are
    integers supplied by the caller. */
module Db {
  import opened Wrappers

  /** A bcrypt hash. Hashing is a foreign library: the model keeps the salt
      it was made with and the secret it seals, and the only question one
      may ask of it is whether a password verifies against it. */
  datatype PasswordHash = Bcrypt(salt: int, sealed: string)

  /** `bcrypt.generate_password_hash(password)`, the salt chosen by the library. */
  function HashPassword(password: string, salt: int): (h: PasswordHash)
    ensures Verifies(h, password)
  {
    Bcrypt(salt, password)
  }

  /** `bcrypt.check_password_hash(hash, password)`. */
  predicate Verifies(h: PasswordHash, password: string)
  {
    h.sealed == password
  }

  /** A hash verifies exactly the password it was made from. */
  lemma VerifiesOnlyHashedPassword(password: string, other: string, salt: int)
    ensures Verifies(HashPassword(password, salt), other) <==> other == password
  {
  }

  datatype User = User(email: string, password: PasswordHash, nativeLanguage: string,
                       createdAt: int, updatedAt: int)
  datatype Document = Document(name: string, createdAt: int, updatedAt: int)
  datatype Bitext = Bitext(documentId: int, source: string, target: string,
                           createdAt: int, updatedAt: int)
  datatype System = System(name: string, createdAt: int, updatedAt: int)
  /** `kind` is the evaluation's `type` column. */
  datatype Evaluation = Evaluation(name: string, kind: string, isFinished: bool,
                                   createdAt: int, updatedAt: int)
  datatype Annotation = Annotation(userId: int, evaluationId: int, bitextId: int,
                                   isAnnotated: bool, comment: Option<string>,
                                   createdAt: int, updatedAt: int)
  /** The translation one system produced for one annotated bitext. */
  datatype AnnotationSystem = AnnotationSystem(annotationId: int, systemId: int, translation: string,
                                               createdAt: int, updatedAt: int)
  /** An error span over the words of the source (`isSource`) or of the
      translation; both ends are word indices and the end is inclusive. */
  datatype Marking = Marking(annotationId: int, systemId: int, errorStart: int, errorEnd: int,
                             errorCategory: string, errorSeverity: string, isSource: bool,
                             createdAt: int, updatedAt: int)

  datatype Table<R> = Table(rows: map<int, R>, nextId: int)
  {
    /** Ids are positive and below the next id to be handed out. */
    predicate Valid()
    {
      1 <= nextId && forall id :: id in rows ==> 1 <= id < nextId
    }

    /** `session.add(r)` followed by a commit: the row gets the next id. */
    function Insert(r: R): Table<R>
    {
      Table(rows[nextId := r], nextId + 1)
    }

    /** Field assignments on a loaded row followed by a commit. */
    function Put(id: int, r: R): Table<R>
    {
      Table(rows[id := r], nextId)
    }

    /** `session.delete(row)` followed by a commit. */
    function Delete(id: int): Table<R>
    {
      Table(rows - {id}, nextId)
    }

    /** Deleting every row `p` holds of (an ORM cascade). */
    function DeleteWhere(p: R -> bool): Table<R>
    {
      Table(map id | id in rows && !p(rows[id]) :: rows[id], nextId)
    }

    /** The rows with an id below `n` that satisfy `p`, in store order. */
    function SelectBelow(p: R -> bool, n: int): (s: seq<(int, R)>)
      decreases n
      ensures forall i, j :: 0 <= i < j < |s| ==> s[i].0 < s[j].0
      ensures forall i :: 0 <= i < |s| ==> 1 <= s[i].0 < n && s[i].0 in rows && rows[s[i].0] == s[i].1 && p(s[i].1)
      ensures forall id :: 1 <= id < n && id in rows && p(rows[id]) ==> (id, rows[id]) in s
    {
      if n <= 1 then []
      else
        var s := SelectBelow(p, n - 1);
        if n - 1 in rows && p(rows[n - 1]) then s + [(n - 1, rows[n - 1])] else s
    }

    /** `query.filter_by(...).all()`: every row satisfying `p`, in store order. */
    function Select(p: R -> bool): seq<(int, R)>
    {
      SelectBelow(p, nextId)
    }

    /** `query.filter_by(...).first()`: the first such row in store order. */
    function First(p: R -> bool): Option<(int, R)>
    {
      var s := Select(p);
      if |s| == 0 then None else Some(s[0])
    }

    /** `query.filter_by(...).first()` is something exactly when a row
        satisfies `p`, and it is the matching row with the least id. */
    lemma FirstIsLeast(p: R -> bool)
      requires Valid()
      ensures First(p).Some? <==> exists id :: id in rows && p(rows[id])
      ensures First(p).Some? ==> var (id, r) := First(p).value;
        id in rows && rows[id] == r && p(r)
        && forall j :: j in rows && p(rows[j]) ==> id <= j
    {
      var s := Select(p);
      if |s| > 0 {
        forall j | j in rows && p(rows[j]) ensures s[0].0 <= j {
          assert (j, rows[j]) in s;
        }
      }
    }
  }

  function EmptyTable<R>(): (t: Table<R>)
    ensures t.Valid() && t.rows == map[]
  {
    Table(map[], 1)
  }

  /** `Marking.query.filter_by(annotationId=aId).all()`. */
  function MarkingsOf(t: Table<Marking>, aId: int): seq<(int, Marking)>
  {
    t.Select((m: Marking) => m.annotationId == aId)
  }

  /** `Annotation.query.filter_by(evaluationId=evalId).all()`. */
  function AnnotationsOfEvaluation(t: Table<Annotation>, evalId: int): seq<(int, Annotation)>
  {
    t.Select((a: Annotation) => a.evaluationId == evalId)
  }

  /** `Annotation.query.filter_by(userId=userId).all()`. */
  function AnnotationsOfUser(t: Table<Annotation>, userId: int): seq<(int, Annotation)>
  {
    t.Select((a: Annotation) => a.userId == userId)
  }

  /** `Annotation.query.filter_by(userId=userId, evaluationId=evalId).all()`. */
  function AnnotationsOfUserInEvaluation(t: Table<Annotation>, userId: int, evalId: int): seq<(int, Annotation)>
  {
    t.Select((a: Annotation) => a.userId == userId && a.evaluationId == evalId)
  }

  /** `Bitext.query.filter_by(documentId=docId).all()`. */
  function BitextsOf(t: Table<Bitext>, docId: int): seq<(int, Bitext)>
  {
    t.Select((b: Bitext) => b.documentId == docId)
  }

  /** `AnnotationSystem.query.filter_by(annotationId=aId).all()`. */
  function TranslationsOf(t: Table<AnnotationSystem>, aId: int): seq<(int, AnnotationSystem)>
  {
    t.Select((r: AnnotationSystem) => r.annotationId == aId)
  }

  /** `AnnotationSystem.query.filter_by(annotationId=aId, systemId=sId).first()`. */
  function TranslationFor(t: Table<AnnotationSystem>, aId: int, sId: int): Option<(int, AnnotationSystem)>
  {
    t.First((r: AnnotationSystem) => r.annotationId == aId && r.systemId == sId)
  }

  /** Every row, in store order. */
  function AllRows<R>(t: Table<R>): (s: seq<(int, R)>)
    ensures t.Valid() ==> forall id :: id in t.rows ==> (id, t.rows[id]) in s
    ensures forall p :: p in s ==> p.0 in t.rows && t.rows[p.0] == p.1
  {
    t.Select((r: R) => true)
  }

  /** The contents of the whole store, for stating what a handler changes. */
  datatype DbState = DbState(users: Table<User>, documents: Table<Document>,
                             bitexts: Table<Bitext>, systems: Table<System>,
                             evaluations: Table<Evaluation>, annotations: Table<Annotation>,
                             annotationSystems: Table<AnnotationSystem>, markings: Table<Marking>)
  {
    predicate Valid()
    {
      users.Valid() && documents.Valid() && bitexts.Valid() && systems.Valid()
      && evaluations.Valid() && annotations.Valid() && annotationSystems.Valid() && markings.Valid()
    }
  }

  /** The database session: one table per model. */
  class Store {
    var users: Table<User>
    var documents: Table<Document>
    var bitexts: Table<Bitext>
    var systems: Table<System>
    var evaluations: Table<Evaluation>
    var annotations: Table<Annotation>
    var annotationSystems: Table<AnnotationSystem>
    var markings: Table<Marking>

    function State(): DbState
      reads this
    {
      DbState(users, documents, bitexts, systems, evaluations, annotations, annotationSystems, markings)
    }

    predicate Valid()
      reads this
    {
      State().Valid()
    }

    /** A fresh, empty database. */
    constructor ()
      ensures Valid()
      ensures users.rows == map[] && documents.rows == map[] && bitexts.rows == map[]
      ensures systems.rows == map[] && evaluations.rows == map[] && annotations.rows == map[]
      ensures annotationSystems.rows == map[] && markings.rows == map[]
    {
      users := EmptyTable();
      documents := EmptyTable();
      bitexts := EmptyTable();
      systems := EmptyTable();
      evaluations := EmptyTable();
      annotations := EmptyTable();
      annotationSystems := EmptyTable();
      markings := EmptyTable();
    }
  }
}
