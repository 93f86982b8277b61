/** What the handlers send back for a row (the models' `to_dict`). */
module Views {
  import opened Wrappers
  import opened Text
  import opened Db

  /** A user as the API shows it: there is no password field. */
  datatype UserView = UserView(id: int, email: string, nativeLanguage: string,
                               createdAt: int, updatedAt: int)

  function ViewUser(id: int, u: User): (v: UserView)
    ensures v.id == id && v.email == u.email && v.nativeLanguage == u.nativeLanguage
  {
    UserView(id, u.email, u.nativeLanguage, u.createdAt, u.updatedAt)
  }

  /** The view of a user does not depend on the stored hash. */
  lemma ViewUserIgnoresPassword(id: int, u: User, h: PasswordHash)
    ensures ViewUser(id, u) == ViewUser(id, u.(password := h))
  {
  }

  /** An annotation embeds the rows of its evaluation and of its bitext. */
  datatype AnnotationView = AnnotationView(id: int, userId: int,
                                           evaluation: (int, Evaluation), bitext: (int, Bitext),
                                           isAnnotated: bool, comment: Option<string>,
                                           createdAt: int, updatedAt: int)

  /** `annotation.to_dict()`: it looks up the evaluation and the bitext and
      raises (None) when either row is gone. */
  function ViewAnnotation(st: DbState, id: int, a: Annotation): (v: Option<AnnotationView>)
    ensures v.Some? <==> a.evaluationId in st.evaluations.rows && a.bitextId in st.bitexts.rows
    ensures v.Some? ==> (v.value.id == id && v.value.userId == a.userId
                         && v.value.evaluation == (a.evaluationId, st.evaluations.rows[a.evaluationId])
                         && v.value.bitext == (a.bitextId, st.bitexts.rows[a.bitextId])
                         && v.value.comment == a.comment && v.value.isAnnotated == a.isAnnotated)
  {
    if a.evaluationId !in st.evaluations.rows || a.bitextId !in st.bitexts.rows then None
    else Some(AnnotationView(id, a.userId, (a.evaluationId, st.evaluations.rows[a.evaluationId]),
                             (a.bitextId, st.bitexts.rows[a.bitextId]),
                             a.isAnnotated, a.comment, a.createdAt, a.updatedAt))
  }

  /** The views of a list of annotations, or None if any one raises. */
  function ViewAnnotations(st: DbState, s: seq<(int, Annotation)>): (v: Option<seq<AnnotationView>>)
    ensures v.Some? <==> forall i :: 0 <= i < |s| ==> ViewAnnotation(st, s[i].0, s[i].1).Some?
    ensures v.Some? ==> (|v.value| == |s|
                         && forall i :: 0 <= i < |s| ==> Some(v.value[i]) == ViewAnnotation(st, s[i].0, s[i].1))
  {
    if |s| == 0 then Some([])
    else
      var head := ViewAnnotation(st, s[0].0, s[0].1);
      var rest := ViewAnnotations(st, s[1..]);
      if head.None? || rest.None? then None else Some([head.value] + rest.value)
  }

  datatype AnnotationSystemView = AnnotationSystemView(id: int, annotationId: int, systemId: int,
                                                       translation: string,
                                                       createdAt: int, updatedAt: int)

  /** The translation is sent with every two-character sequence backslash, n
      turned into a newline. */
  function ViewAnnotationSystem(id: int, r: AnnotationSystem): (v: AnnotationSystemView)
    ensures v.id == id && v.annotationId == r.annotationId && v.systemId == r.systemId
    ensures v.createdAt == r.createdAt && v.updatedAt == r.updatedAt
    ensures '\\' !in r.translation ==> v.translation == r.translation
    ensures forall k :: !MatchAt(v.translation, "\\n", k)
  {
    ReplaceAllAbsentWhenNoBackslash(r.translation);
    UnescapeLeavesNoEscape(r.translation);
    AnnotationSystemView(id, r.annotationId, r.systemId, ReplaceAll(r.translation, "\\n", "\n"),
                         r.createdAt, r.updatedAt)
  }

  /** The view turns the first escaped newline into a newline and carries
      on after it: text before it is sent as it is, text after it is
      unescaped in turn. */
  lemma ViewUnescapesFirst(id: int, r: AnnotationSystem, a: string, b: string)
    requires r.translation == a + "\\n" + b
    requires forall k :: 0 <= k < |a| ==> !MatchAt(a + "\\n" + b, "\\n", k)
    ensures ViewAnnotationSystem(id, r).translation
         == a + "\n" + ViewAnnotationSystem(id, r.(translation := b)).translation
  {
    ReplaceAllFirstMatch(a, "\\n", "\n", b);
  }

  lemma ReplaceAllAbsentWhenNoBackslash(s: string)
    ensures '\\' !in s ==> ReplaceAll(s, "\\n", "\n") == s
  {
    if '\\' !in s {
      ReplaceAllAbsent(s, "\\n", "\n");
    }
  }
}
