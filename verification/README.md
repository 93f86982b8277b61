# Human evaluation tool: a model in Dafny

This project models the core of a human evaluation tool for machine translation with the MQM (Multidimensional Quality Metrics) scheme.

**Backend.** Flask endpoints over a relational store:
- users, documents, bitexts (source/target pairs), evaluations, annotations, systems, translations (annotation systems) and error markings;
- an exporter that turns an evaluation's markings into ten-column TSV lines with the marked words wrapped in `<v>` ... `</v>`;
- the category and severity code tables the exporter uses;
- the token refresh and login decisions.

**Front end.** The word-span logic of the marking widget.

**Viewer.** The data helpers of the bundled MQM viewer, which reads the exported lines back.

The modules follow the program's structure:
- `Db` is the database session. `Store` is a class with one id-keyed table per model, and store order is taken to be ascending id (see "## Left out").
- `AnnotationResource`, `BitextResource`, `DocumentResource`, `EvaluationResource`, `MarkingResource`, `SystemResource`, `UserResource` and `Auth` hold the endpoints.
  - Each endpoint is a method on the store that returns the HTTP status.
  - Its contract states the guard order, that a rejected request changes nothing, and exactly what a successful one changes.
- `Results` holds the exporter as functions: highlighting, row formatting, and the whole export. `Codes` holds the two code tables.
- `MarkingItem` is the marking widget. Its cache and popup state are a class, and its span logic is functions and methods.
- The `Viewer*` modules hold the viewer helpers:
  - key parsing and the comparators;
  - line parsing and span markup;
  - the in-place sort;
  - segment aggregation over runs (`Runs`);
  - counters;
  - the sorted-list intersection;
  - span lengths;
  - loading data and writing it back out.
- `Text` and `Decimal` model the string operations the code relies on: Python's and JavaScript's `split`, `join`, `replace`, `indexOf`, `trim` and integer rendering.

Time, the hashing salt and a failing commit are parameters. The clock, bcrypt and the database do not run in the model.

## Model

| member | source | states |
|---|---|---|
| Codes.CategoryCodes | backend/src/human_evaluation_tool/utils.py:27-58 | The category table has exactly thirty keys: "000", A01-A09, F01-F10, T01-T04, S01-S04, L01 and SE1. |
| Codes.CategoryGroups | backend/src/human_evaluation_tool/utils.py:27-58 | The thirty codes, listed group by group: no-error, accuracy, fluency, terminology, style, locale, source error. |
| Codes.CategoryCollision | backend/src/human_evaluation_tool/utils.py:52-54 | Two different codes have the same name exactly when they are S01 and S03, so the table has no inverse. |
| Codes.NameDeterminesCode | backend/src/human_evaluation_tool/utils.py:27-58 | Every name in the table determines its code, up to the S01/S03 pair. |
| Codes.SeverityCodes | backend/src/human_evaluation_tool/utils.py:60-66 | The severity table has exactly five keys: no-error, critical, minor, major and not-judgeable; "critical" maps to "Critical". |
| Codes.PickerCodesExport | frontend/src/components/ErrorCategorySelector.jsx:31-132 | A code is offered by the category picker exactly when it is a key of the category table, and likewise for severities, so markings made through the pickers always export. |
| Db.VerifiesOnlyHashedPassword | backend/src/human_evaluation_tool/resources/user.py:62 | The defining fact of the hash abstraction: a stored hash verifies exactly the password it was made from. |
| Db.Table.FirstIsLeast | backend/src/human_evaluation_tool/resources/marking.py:134-137 | `first()` finds a row exactly when some row matches, and it finds the matching row with the least id. |
| Db.Table.SelectBelow | backend/src/human_evaluation_tool/resources/annotation.py:37-40 | The rows returned by `filter_by(...).all()` are the matching rows, in ascending id order. |
| Views.ViewUser | backend/src/human_evaluation_tool/models/user.py:51-58 | The user view has no password field. |
| Views.ViewUserIgnoresPassword | backend/src/human_evaluation_tool/models/user.py:51-58 | The user view does not depend on the stored hash. |
| Views.ViewAnnotation | backend/src/human_evaluation_tool/models/annotation.py:38-48 | `to_dict` fails (None) exactly when the evaluation or the bitext of the annotation is gone. |
| Views.ViewAnnotations | backend/src/human_evaluation_tool/resources/annotation.py:40 | A list view exists exactly when every element has one; it holds one view per annotation, in order. |
| Views.ViewAnnotationSystem | backend/src/human_evaluation_tool/models/annotation_system.py:33-40 | The translation that is sent holds no backslash-n sequence at all, and is the stored one when that holds no backslash; the ids and timestamps are kept. |
| Views.ViewUnescapesFirst | backend/src/human_evaluation_tool/models/annotation_system.py:38 | The first backslash-n of the stored translation becomes a newline, everything before it is kept, and the rest is unescaped in the same way. |
| Text.ReplaceAllFirstMatch | backend/src/human_evaluation_tool/models/annotation_system.py:38 | `str.replace` keeps the text before the first match, puts the replacement in its place and goes on after the match. |
| Text.UnescapeLeavesNoEscape | backend/src/human_evaluation_tool/models/annotation_system.py:38 | Replacing every backslash-n by a newline leaves no backslash-n, even where a backslash precedes an escaped pair. |
| AnnotationResource.ReadAnnotations | backend/src/human_evaluation_tool/resources/annotation.py:33-40 | Returns exactly the annotations whose userId is the caller; the caller is not checked for presence. Returns 500 when one of them cannot be viewed. |
| AnnotationResource.CreateAnnotation | backend/src/human_evaluation_tool/resources/annotation.py:45-81 | Returns 422 for a missing id, then 422 for an unknown user, evaluation or bitext (in that order), then 500 when the commit fails. Otherwise one row is inserted, with isAnnotated defaulting to false and comment to null. A failure changes nothing. |
| AnnotationResource.ReadAnnotation | backend/src/human_evaluation_tool/resources/annotation.py:86-94 | Returns 404 for an unknown id; otherwise the view, or 500 when the view cannot be built. |
| AnnotationResource.UpdateAnnotation | backend/src/human_evaluation_tool/resources/annotation.py:99-137 | Returns 404 before any body check, then the checks of creation. On success the three ids are overwritten, and isAnnotated and comment only when present; nothing else changes. |
| AnnotationResource.DeleteAnnotation | backend/src/human_evaluation_tool/resources/annotation.py:142-158 | Returns 404 for an unknown id; otherwise exactly that row is removed, or nothing changes and 500 is returned when the commit fails. |
| BitextResource.ReadBitexts | backend/src/human_evaluation_tool/resources/bitext.py:33-38 | Returns every bitext, in store order. |
| BitextResource.CreateBitext | backend/src/human_evaluation_tool/resources/bitext.py:43-73 | Returns 422 for a missing key, then 422 when documentId names no document. Otherwise one row is inserted; a failure changes nothing. |
| BitextResource.ReadBitext | backend/src/human_evaluation_tool/resources/bitext.py:78-86 | Returns 404 for an unknown id, else the row. |
| BitextResource.UpdateBitext | backend/src/human_evaluation_tool/resources/bitext.py:91-117 | Returns 404, then 422 for a missing key; documentId is not checked. On success documentId, source, target and updatedAt are overwritten. |
| BitextResource.DeleteBitext | backend/src/human_evaluation_tool/resources/bitext.py:122-138 | Returns 404 for an unknown id. On success the bitext and its annotations (the declared cascade) are removed, and every other bitext stays. |
| DocumentResource.ReadDocuments | backend/src/human_evaluation_tool/resources/document.py:33-38 | Returns every document, in store order. |
| DocumentResource.CreateDocument | backend/src/human_evaluation_tool/resources/document.py:43-64 | Returns 422 without a name; duplicate names are accepted. Otherwise one row is inserted. |
| DocumentResource.ReadDocument | backend/src/human_evaluation_tool/resources/document.py:69-77 | Returns 404 for an unknown id, else the row. |
| DocumentResource.ReadDocumentBitexts | backend/src/human_evaluation_tool/resources/document.py:82-91 | Returns 404 for an unknown document, else exactly its bitexts, each once, with strictly increasing ids (store order). |
| DocumentResource.UpdateDocument | backend/src/human_evaluation_tool/resources/document.py:96-123 | Returns 404, then 422 without a name, then 500 without a documentId key, then 422 unless documentId names some existing document. On success only name and updatedAt change. |
| DocumentResource.DeleteDocument | backend/src/human_evaluation_tool/resources/document.py:128-144 | Returns 404 for an unknown id. On success the document, its bitexts and their annotations (the declared cascades) are removed, and nothing else. |
| EvaluationResource.ReadEvaluations | backend/src/human_evaluation_tool/resources/evaluation.py:35-40 | Returns every evaluation, in store order. |
| EvaluationResource.CreateEvaluation | backend/src/human_evaluation_tool/resources/evaluation.py:45-75 | Returns 422 without name or type, then 409 when the name is taken, then 500 on a failed commit. Otherwise one row is inserted with isFinished defaulting to false. Names stay unique. |
| EvaluationResource.ReadEvaluation | backend/src/human_evaluation_tool/resources/evaluation.py:80-88 | Returns 404 for an unknown id, else the row. |
| EvaluationResource.ReadEvaluationAnnotations | backend/src/human_evaluation_tool/resources/evaluation.py:93-105 | Returns 404 for an unknown evaluation; otherwise only the caller's own annotations of it. |
| EvaluationResource.ReadEvaluationResults | backend/src/human_evaluation_tool/resources/evaluation.py:110-169 | Returns 404 and no rows for an unknown evaluation. Otherwise the lines are `ExportRows` for the store, or 500 where the export raises. |
| EvaluationResource.AnnotationResultRows | backend/src/human_evaluation_tool/resources/evaluation.py:122-167 | The inner loop computes the rows of one annotation, or None where it raises. |
| EvaluationResource.MarkingResultRow | backend/src/human_evaluation_tool/resources/evaluation.py:130-167 | The loop body computes the row of one marking, or None where a lookup, a code or the comment raises. |
| EvaluationResource.UpdateEvaluation | backend/src/human_evaluation_tool/resources/evaluation.py:174-208 | Returns 404, then 422, then 409 when another evaluation has the name (its own id excluded), then 500. On success name, type and updatedAt change, and isFinished only when present. |
| EvaluationResource.DeleteEvaluation | backend/src/human_evaluation_tool/resources/evaluation.py:213-229 | Returns 404 for an unknown id; otherwise exactly that row is removed. |
| MarkingResource.ReadMarkings | backend/src/human_evaluation_tool/resources/marking.py:33-43 | Returns 404 for a missing annotation, then 401 for a non-owner; otherwise every marking of the annotation, across systems, each once, with strictly increasing ids (store order). |
| MarkingResource.CreateMarking | backend/src/human_evaluation_tool/resources/marking.py:48-97 | The guards are: annotation missing (404), non-owner (401), system missing (404), a missing key (422). Codes and span order are not checked. A failure changes nothing, and success inserts one row. |
| MarkingResource.ReadMarking | backend/src/human_evaluation_tool/resources/marking.py:99-123 | The same guard order, then 404 unless id, annotationId and systemId all match. |
| MarkingResource.UpdateMarking | backend/src/human_evaluation_tool/resources/marking.py:125-176 | The marking is checked (404) before the body (422). On success exactly the five fields and updatedAt change; the ids stay. |
| MarkingResource.DeleteMarking | backend/src/human_evaluation_tool/resources/marking.py:178-205 | Removes exactly the marking; afterwards it is no longer found under that annotation and system. |
| SystemResource.ReadSystems | backend/src/human_evaluation_tool/resources/system.py:33-38 | Returns every system, in store order. |
| SystemResource.CreateSystem | backend/src/human_evaluation_tool/resources/system.py:43-68 | Returns 422 without a name, then 409 for an existing name; otherwise one row is inserted, and names stay unique. |
| SystemResource.ReadSystem | backend/src/human_evaluation_tool/resources/system.py:73-81 | Returns 404 for an unknown id, else the row. |
| SystemResource.UpdateSystem | backend/src/human_evaluation_tool/resources/system.py:86-117 | Returns 404, then 422, then 409 when another system has the name. On success only name and updatedAt change. |
| SystemResource.DeleteSystem | backend/src/human_evaluation_tool/resources/system.py:122-138 | Returns 404 for an unknown id; otherwise just that system is removed. |
| SystemResource.ReadAnnotationSystems | backend/src/human_evaluation_tool/resources/system.py:143-151 | Returns 404 for an unknown annotation, else the translations of that annotation. |
| SystemResource.CreateAnnotationSystem | backend/src/human_evaluation_tool/resources/system.py:156-197 | Returns 404 for an unknown annotation, then 422 for a missing key or unknown system, then 409 for an existing pair. A pair never gets two translations. |
| SystemResource.ReadAnnotationSystem | backend/src/human_evaluation_tool/resources/system.py:202-214 | Looks up by the (annotationId, systemId) pair; returns 404 when the pair is missing. |
| SystemResource.UpdateAnnotationSystem | backend/src/human_evaluation_tool/resources/system.py:219-246 | Returns 404 for a missing pair, then 422 without translation. Only translation and updatedAt change. |
| SystemResource.DeleteAnnotationSystem | backend/src/human_evaluation_tool/resources/system.py:251-271 | Returns 404 for a missing pair; otherwise exactly that row is removed. |
| UserResource.ReadUsers | backend/src/human_evaluation_tool/resources/user.py:33-38 | Returns every user, as views without a password. |
| UserResource.CreateUser | backend/src/human_evaluation_tool/resources/user.py:43-73 | Returns 422 for a missing key, then 409 when any user has the email. The stored password is the hash of the submitted one, and the response is wrapped as `{"user": ...}`. |
| UserResource.ReadUser | backend/src/human_evaluation_tool/resources/user.py:78-86 | Returns 404 for an unknown id, else the bare view. |
| UserResource.UpdateUser | backend/src/human_evaluation_tool/resources/user.py:91-125 | Returns 404 before 422, and 409 only when another user has the email. On success all three fields are overwritten, with the password hashed. |
| UserResource.DeleteUser | backend/src/human_evaluation_tool/resources/user.py:130-146 | Returns 404 for an unknown id. On success the user and its annotations (the declared cascade) are removed. |
| Auth.Refreshed | backend/src/human_evaluation_tool/auth.py:43-48 | A replacement token is issued exactly when now + 15 minutes is later than the token's exp, and there is none without a valid token. |
| Auth.RefreshMonotone | backend/src/human_evaluation_tool/auth.py:46 | A token refreshed now is also refreshed at any later time. |
| Auth.FreshTokenStable | backend/src/human_evaluation_tool/auth.py:46 | A freshly issued token whose lifetime exceeds the window is not refreshed until it is within the window of its expiry. |
| Auth.RefreshExpiringJwts | backend/src/human_evaluation_tool/auth.py:38-52 | Sets a new cookie exactly when `Refreshed` gives a token; otherwise the response is unchanged. |
| Auth.Lifetime | backend/src/human_evaluation_tool/auth.py:70 | The token lifetime is 7 days with `remember` and 1 hour without. |
| Auth.LoginDecision | backend/src/human_evaluation_tool/auth.py:60-75 | Login succeeds exactly when the first user with the email exists and the password verifies; a missing key read on the way raises. |
| Auth.LoginNeedsRegisteredPassword | backend/src/human_evaluation_tool/auth.py:64-66 | When the first user with the email registered password p, a login succeeds exactly when it sends p and a remember flag, whatever other users with that email hold. |
| Auth.Login | backend/src/human_evaluation_tool/auth.py:56-75 | Answers 200 with success true and the cookie; 401 with success false; or 500 for a missing key. |
| Auth.Logout | backend/src/human_evaluation_tool/auth.py:79-85 | Always answers 200 with success true and clears the cookies. |
| Auth.Validate | backend/src/human_evaluation_tool/auth.py:88-94 | Answers 401 without a token. An authenticated caller gets 200 with success false, as the code is written. |
| Results.EscapeNewlines | backend/src/human_evaluation_tool/resources/evaluation.py:148 | The escaped text holds no newline and has exactly as many spaces as before. |
| Results.WordCountUnchanged | backend/src/human_evaluation_tool/resources/evaluation.py:148 | Escaping before splitting never changes the number of words. |
| Results.InsertIndex | backend/src/human_evaluation_tool/resources/evaluation.py:149-150 | Gives Python `list.insert` index semantics: negative indices count from the end, and out-of-range indices are clamped. |
| Results.InsertAt | backend/src/human_evaluation_tool/resources/evaluation.py:149-150 | Removing the inserted element gives the list back. |
| Results.MarkWordsShape | backend/src/human_evaluation_tool/resources/evaluation.py:149-150 | For 0 <= start <= end < n, the result is words[..start] + ["<v>"] + words[start..end+1] + ["</v>"] + words[end+1..], with n+2 tokens. |
| Results.MarkWordsUnmarked | backend/src/human_evaluation_tool/resources/evaluation.py:149-150 | For any span, even out of range or reversed, removing the markers gives the words back. |
| Results.HighlightRoundTrip | backend/src/human_evaluation_tool/resources/evaluation.py:148-152 | Splitting the highlighted text on spaces and dropping the markers gives the escaped words back. |
| Results.HighlightSplit | backend/src/human_evaluation_tool/resources/evaluation.py:148-152 | Splitting the highlighted text on spaces gives exactly the marked word list. |
| Results.EmailName | backend/src/human_evaluation_tool/resources/evaluation.py:145 | Returns the part of the email before the first "@", or all of it. |
| Results.RowFields | backend/src/human_evaluation_tool/resources/evaluation.py:141-164 | Gives ten fields: system, document, bitext id twice, email name, the two sides (only the `isSource` side highlighted), category and severity names, comment. None for an unknown code or a null comment. |
| Results.Sides | backend/src/human_evaluation_tool/resources/evaluation.py:147-159 | Only the `isSource` side is highlighted, so that it splits on spaces into the marked words; the other side is the text with its newlines escaped. Neither side holds a newline, and neither holds a tab the text did not. |
| Results.HighlightKeepsAbsent | backend/src/human_evaluation_tool/resources/evaluation.py:147-152 | Highlighting brings in no character but spaces and the marker characters. |
| Results.RowFieldsFit | backend/src/human_evaluation_tool/resources/evaluation.py:141-164 | No field of a row holds a tab when the names, email, texts and comment hold none. |
| Results.RowFieldsOneLine | backend/src/human_evaluation_tool/resources/evaluation.py:141-164 | No field of a row holds a newline when the names, email and comment hold none: both sides are escaped. |
| Results.ExportedLine | backend/src/human_evaluation_tool/resources/evaluation.py:141-167 | Read back (split on tabs before its final newline), a line gives system name, document name, the bitext id twice as a canonical decimal, the email name, the two sides as `Results.Sides` states, the category and severity names and the comment; only the final newline ends it. |
| Codes.SeverityNamesFitColumns | backend/src/human_evaluation_tool/utils.py:60-66 | No severity name holds a tab or a newline. |
| Results.FormatRowRoundTrip | backend/src/human_evaluation_tool/resources/evaluation.py:167 | A row ends in one newline, and splitting the text before it on tabs gives the fields back. |
| Results.AnnotationsRowsExactly | backend/src/human_evaluation_tool/resources/evaluation.py:117-167 | The export raises exactly when some annotation is not exportable; otherwise row k is the row of the k-th (annotation, marking) pair: annotations in store order, each one's markings in store order. |
| Results.AnnotationRowsExactly | backend/src/human_evaluation_tool/resources/evaluation.py:123-130 | One annotation fails exactly when its bitext is missing or one of its markings fails. A missing user, document or translation fails only a marking (the user's email is read per marking), so an annotation without markings never fails on them. Otherwise row i is the row of its marking i. |
| Results.MarkingRowsExactly | backend/src/human_evaluation_tool/resources/evaluation.py:130-167 | The marking loop fails exactly when one marking fails; otherwise it gives one row each. |
| Results.MarkingRowsInOrder | backend/src/human_evaluation_tool/resources/evaluation.py:130-167 | Row i of the marking loop is the row of marking i. |
| Results.AnnotationPairs | backend/src/human_evaluation_tool/resources/evaluation.py:126-130 | Pairs each marking of an annotation with the annotation, one per marking, in order. |
| Results.SkippingAgrees | backend/tests/test_evaluations.py:207-279 | The skipping variant that the tests expect agrees with the code whenever the code does not raise. |
| Results.ExportRaisesAtMarking | backend/src/human_evaluation_tool/resources/evaluation.py:162-164 | One marking with an unknown code or a null comment makes the whole export raise. |
| Results.ExportRaisesAtAnnotation | backend/src/human_evaluation_tool/resources/evaluation.py:123-125 | One annotation whose bitext is gone makes the whole export raise, even without markings. |
| MarkingItem.ClassBySeverity | frontend/src/components/MarkingItem.jsx:159-172 | A class exists exactly for the five severity codes of the table. |
| MarkingItem.SeverityClasses | frontend/src/components/MarkingItem.jsx:159-172 | The five classes are pairwise distinct, and every picker severity has one. |
| MarkingItem.FirstCovering | frontend/src/components/MarkingItem.jsx:174-180 | Finds the first marking with errorStart <= i <= errorEnd, or None when no marking covers i. |
| MarkingItem.ClassByIndex | frontend/src/components/MarkingItem.jsx:174-180 | Over a list of markings: gives the class of the first covering marking's severity, or none when no marking covers the word. |
| MarkingItem.FirstCoveringIs | frontend/src/components/MarkingItem.jsx:174-180 | A covering marking with none before it is the one found. |
| MarkingItem.ContextMenuByIndex | frontend/src/components/MarkingItem.jsx:182-194 | A covered word selects the first covering marking; a new selection starts exactly when no marking covers the word. |
| MarkingItem.SelectionBounds | frontend/src/components/MarkingItem.jsx:202-215 | None exactly when an endpoint is NaN; otherwise the two endpoints, in order. |
| MarkingItem.OverlapsExisting | frontend/src/components/MarkingItem.jsx:218-226 | Rejects the selection exactly when some marking's start or end lies in [start, end]. |
| MarkingItem.GuardAdmitsOnlyEnclosed | frontend/src/components/MarkingItem.jsx:218-226 | A passing selection that touches a marking lies strictly inside it. |
| MarkingItem.NestedSelectionPasses | frontend/src/components/MarkingItem.jsx:218-226 | A selection strictly inside a marking passes the guard. |
| MarkingItem.SelectionHandler | frontend/src/components/MarkingItem.jsx:194-231 | A collapsed selection, a NaN endpoint or an overlap is rejected; otherwise the ordered bounds are kept. |
| MarkingItem.WithoutCounts | frontend/src/components/MarkingItem.jsx:102-104 | Filtering removes every record with the id and keeps every other record as often as before. |
| MarkingItem.WithoutAppended | frontend/src/components/MarkingItem.jsx:75-78 | Deleting the record just appended under a fresh id gives the cache back. |
| MarkingItem.Recategorized | frontend/src/components/MarkingItem.jsx:130-144 | Only errorCategory and errorSeverity of the records with the id change; every other field and record stays. |
| MarkingItem.RecategorizedKeepsCovering | frontend/src/components/MarkingItem.jsx:130-144 | Recategorizing never changes which marking covers a word. |
| MarkingItem.WordsAgree | frontend/src/components/MarkingItem.jsx:240 | The viewer splits words exactly as the exporter does (backend/src/human_evaluation_tool/resources/evaluation.py:148): the same count, each word only escaped. |
| MarkingItem.Visible | frontend/src/features/annotations/AnnotateInstance.jsx:133-135 | The markings one text shows are exactly the cached ones of its system and side, in cache order. |
| MarkingItem.VisibleIgnoresOthers | frontend/src/components/Marking.jsx:41-51 | A marking of another system or side, wherever it is in the cache, changes nothing a text shows. |
| MarkingItem.VisibleAppend | frontend/src/components/MarkingItem.jsx:75-78 | A record appended to the cache shows at the end of its own text and in no other. |
| MarkingItem.MarkingWidget.ClassOf | frontend/src/components/MarkingItem.jsx:174-180 | A word takes the class of the first marking this text shows that covers it, or none. |
| MarkingItem.MarkingWidget.OnContextMenu | frontend/src/components/MarkingItem.jsx:182-231 | On a word covered by a marking this text shows, selects the first such marking (by its position among them) and keeps the selection. On an uncovered word the selection becomes the ordered bounds exactly when the selection is not collapsed, neither end is NaN and no shown marking has an end inside them; otherwise it is left as it was. The selected marking and the cache do not change. |
| MarkingItem.MarkingWidget.CreateMarking | frontend/src/components/MarkingItem.jsx:53-91 | Clears the popup state. A NaN endpoint or a failed request leaves the cache unchanged; otherwise the returned record is appended. |
| MarkingItem.MarkingWidget.DeleteMarking | frontend/src/components/MarkingItem.jsx:93-117 | Clears the popup state; on success the records with that id are filtered out. |
| MarkingItem.MarkingWidget.UpdateMarking | frontend/src/components/MarkingItem.jsx:119-157 | On success the record is recategorized; the popup state is kept. |
| ViewerKeys.MaybeParseInt | public/viewer.js:306-312 | Gives a number exactly when the string is the canonical rendering of an integer (within 2^53); otherwise the string itself. |
| ViewerKeys.MaybeParseIntOfRendered | public/viewer.js:306-312 | Every rendered integer reads back as that number. |
| ViewerKeys.MaybeParseIntInjective | public/viewer.js:306-312 | Different strings never read as the same key. |
| ViewerKeys.CompareAntisymmetric | public/viewer.js:320-357 | Swapping the arguments negates the comparison chain. |
| ViewerKeys.CompareZero | public/viewer.js:320-357 | On keys of the same kinds, the chain gives 0 only for equal keys. |
| ViewerKeys.CompareTransitive | public/viewer.js:320-357 | On keys of the same kinds, the chain is transitive. |
| Decimal.CanonicalRoundTrip | public/viewer.js:308 | Rendering the value of a canonical decimal gives the string back. |
| ViewerRows.ScoreKeyRoundTrip | public/viewer.js:819-836 | `mqmScoreKeyToName(mqmScoreKey(n, isSlice)) == n` for every name and both flag values. |
| ViewerRows.ScoreKeyToName | public/viewer.js:829-836 | The name is a suffix of the key. |
| ViewerRows.MarkSpanFirst | public/viewer.js:2322-2326 | When the first `<v>` comes before the first `</v>`, exactly those two become tags, and later markers stay. |
| ViewerRows.MarkSpanPlain | public/viewer.js:2322-2326 | Text without markers is unchanged. |
| ViewerRows.ReplaceFirstAt | public/viewer.js:2323-2324 | Replacing the first match leaves everything after it alone. |
| ViewerRows.RemoveMarks | public/viewer.js:2520-2521 | The result is no longer than the input, and text without markers keeps every character. |
| ViewerRows.RemoveMarksSpaceJoin | public/viewer.js:2520-2521 | Marker removal works word by word across single spaces. |
| ViewerRows.SpanClass | public/viewer.js:2500-2514 | Gives the span class from the lower-cased severity: major or non-translation, minor, trivial, critical, or neutral. |
| ViewerRows.NonTransSeverityIsMajor | public/viewer.js:1937-1944 | A severity that `mqmIsNonTrans` recognises is drawn as major. |
| ViewerRows.ParseLine | public/viewer.js:2465-2494 | Blank lines are skipped; a non-blank line is a skipped header exactly when its lower-cased text holds "system\tdoc\t"; any other line with fewer than 9 fields is rejected. A parsed line gives the row `RowOf` builds from its fields (whose write-back `RotationUndone` fixes). A 9-field line gets empty metadata; otherwise the note is the trimmed field 9 when that is non-empty. |
| ViewerRows.RotationUndone | public/viewer.js:2496-2499 | Writing a parsed row back out restores columns 0-8, except that 5 and 6 have their first markers turned into tags. |
| ViewerRows.RotationUndonePlain | public/viewer.js:2631-2633 | Without markers, the first nine columns come back exactly. |
| ViewerRows.TsvFields | public/viewer.js:2626-2633 | Gives ten fields in TSV order. |
| ViewerSort.RowKey | public/viewer.js:323-326 | Gives the seven keys in comparator order, with the two ids passed through `mqmMaybeParseInt`. |
| ViewerSort.LeTransitive | public/viewer.js:320-357 | Rows whose ids are of the same kinds are ordered transitively. |
| ViewerSort.CompareRowsZero | public/viewer.js:320-357 | Rows that compare equal agree on all seven keys. |
| ViewerSort.InsertionSort | public/viewer.js:320 | A sort in place: it permutes the values, which end in order whenever `le` is transitive among them. |
| ViewerSort.SortData | public/viewer.js:319-358 | The rows are permuted, never changed, and they end in comparator order when their ids are of uniform kinds. |
| ViewerSegments.AddToArray | public/viewer.js:367-370 | The value is appended to the list under the key (created empty first); no other key changes. |
| ViewerSegments.CollectLength | public/viewer.js:425-431 | Each per-key list has one entry per matching row. |
| ViewerSegments.GroupedCollects | public/viewer.js:425-431 | The object has a list for each key some row has, holding those rows' values in order. |
| ViewerSegments.AggregateGrouped | public/viewer.js:425-431 | Each of the six lists of a segment object is the grouping of its run by system or rater. |
| ViewerSegments.AggregateBySystem | public/viewer.js:425-431 | A system's lists hold one entry per row of that system, in row order. |
| ViewerSegments.AggregateByRater | public/viewer.js:425-431 | A rater's lists hold one entry per row of that rater, in row order. |
| ViewerSegments.AddSegmentAggregations | public/viewer.js:384-439 | Each row gets exactly one object. Rows share it exactly when they are in one maximal run of equal (doc, docSegId, globalSegId), and it aggregates that whole run. |
| Runs.FoldRuns | public/viewer.js:390-438 | The one-pass run loop numbers the runs, and each element gets the fold of its whole maximal run. |
| Runs.RunIsMaximal | public/viewer.js:399-424 | A run is maximal: the keys agree inside it and differ just after it. |
| ViewerDocSegs.CompareDocSegsZero | public/viewer.js:1290-1298 | With segment ids of the same kind, the sorter gives 0 only for equal pairs. |
| ViewerDocSegs.GetDocSegs | public/viewer.js:1306-1315 | Returns each (doc, seg) pair of the stats object exactly once, strictly increasing in sorter order when all segment ids are of one kind. |
| ViewerDocSegs.IntersectDocSegs | public/viewer.js:1743-1759 | The two-pointer loop returns `Common` of the two lists. |
| ViewerDocSegs.CommonIsIntersection | public/viewer.js:1743-1759 | On strictly sorted lists of one kind, the loop keeps exactly the pairs in both lists. |
| ViewerDocSegs.CommonSorted | public/viewer.js:1743-1759 | The result is strictly sorted when the first list is. |
| ViewerDocSegs.CommonFromFirst | public/viewer.js:1755 | Every pair kept comes from the first list. |
| ViewerDocSegs.MixedKindsCommon | public/viewer.js:1293-1297 | With segment ids of both kinds, the loop can keep a pair the second list lacks. |
| ViewerSpans.SpanLength | public/viewer.js:1960-1976 | Equals `SpanLengthFrom(s, prefix, 0)`, the total length between each `<span class="mqm-m` opening and the next `</span>`. |
| ViewerSpans.SpanLengthOfOneSpan | public/viewer.js:1960-1976 | For one marked span with nothing tag-like around it, the length is exactly that of the text between the tags. |
| ViewerSpans.CriticalSpanNotCounted | public/viewer.js:1964 | A span of class `mqm-critical` adds nothing to the length. |
| ViewerSpans.OnlyKeepSpans | public/viewer.js:471-491 | Without both tags the result is an ellipsis; otherwise the text from the first `<span` to the last `</span>`, with at most ten characters of context on each side. |
| ViewerSpans.OnlyKeepSpansKeepsSpans | public/viewer.js:471-491 | The result is the spanned text, with context kept on each side. |
| ViewerSpans.OnlyKeepSpansShort | public/viewer.js:477-486 | Text within ten characters of the spans is kept whole. |
| ViewerSpans.LeftContext | public/viewer.js:477-481 | Keeps at most ten characters, behind an ellipsis when more were cut. |
| ViewerSpans.RightContext | public/viewer.js:482-486 | Keeps at most ten characters, followed by an ellipsis when more were cut. |
| ViewerStats.AddedCounts | public/viewer.js:1892-1905 | One call raises the total and the system count by one each and changes no other counter. |
| ViewerStats.AddedKeepsTotals | public/viewer.js:1892-1905 | A call for a system other than the total key keeps every total equal to the sum of its systems. |
| ViewerStats.AddedAllKeepsTotals | public/viewer.js:1892-1905 | After any run of such calls from empty counters, every total equals the sum of its systems. |
| ViewerStats.CountIn | public/viewer.js:1900-1904 | Gives the category counters with the total and the system each one higher. |
| ViewerStats.SevCatStats.Add | public/viewer.js:1892-1905 | The counters become `Added(old counters, ...)`. |
| ViewerStats.MergedCommutes | public/viewer.js:1912-1926 | Merging timings is order-independent. |
| ViewerStats.Merged | public/viewer.js:1916-1925 | Each event's count and time are the old ones plus the row's; other events stay the same. |
| ViewerStats.EventCounters.AddEvents | public/viewer.js:1912-1926 | Without timings nothing changes; otherwise the events become `Merged(old events, timing)`. |
| ViewerStats.ParsedRowsAddNoEvents | public/viewer.js:2478-2494 | Rows read from TSV carry no timing. |
| ViewerStats.AppendToBin | public/viewer.js:1397-1400 | The key is appended to the bin, which is created empty first. |
| ViewerStats.HistBuilder.AddSegment | public/viewer.js:1381-1407 | The key goes to exactly one list (equals, or one system's bin), and the axes grow to cover it. |
| ViewerData.ConcatItems | public/viewer.js:2446-2456 | The joining loop computes `Concatenated(items)`. |
| ViewerData.ConcatenatedEmpty | public/viewer.js:2457-2460 | The joined text is empty, and refused, exactly when every item is empty. |
| ViewerData.ParseLines | public/viewer.js:2464-2525 | The parsing loop keeps the row of each line that parses, in order. |
| ViewerData.ConcatenatedParses | public/viewer.js:2446-2456 | Joining never merges lines of two items: the joined text parses to the rows of each item, item after item. |
| ViewerData.FilteredTsv | public/viewer.js:2623-2637 | The export loop computes `FilteredTsvText(rows)`. |
| ViewerData.FilteredTsvLines | public/viewer.js:2623-2637 | Without tabs or newlines in fields, the output splits back into one line per row, each into the row's ten fields. |
| ViewerData.SortedRows | public/viewer.js:2526 | The sorted rows are a permutation, in order when the ids are of uniform kinds. |
| ViewerData.Load | public/viewer.js:2446-2527 | Joins, parses, sorts and aggregates, giving `LoadedFrom(items, ...)` when the text is non-empty. |
| ViewerData.Viewer.SetData | public/viewer.js:2443-2530 | An all-empty input changes nothing. Otherwise tsvData is the joined text, the data are the rows of each item (sorted under uniform ids), and each row points at its run's aggregation. |

## Left out

- Network, HTTP parsing, JSON bodies, CORS and the Flask and React runtimes are not modelled. A request body is a map from keys to optional values, and a response is a status with a payload.
- The clock is an integer parameter `now`, and a failing database commit is a boolean parameter. The model takes the branch each one selects; it does not schedule anything.
- bcrypt is a datatype `PasswordHash(salt, secret)`, and verifying compares secrets. Its cryptographic strength and its cost are not modelled.
- JWT signing and decoding are not modelled. A token is its identity and `exp`, and a missing or invalid token is `None`.
- Unhandled Python exceptions (KeyError, AttributeError on `None`, TypeError in `join`) become status 500 with no change. Flask's own error page is not modelled.
- AnnotationResource.ReadAnnotations: the handler reads the caller's identity without checking it for absence. The model filters on whatever identity it gets, and does not model the 401 that the JWT decorator returns first.
- The store does not model SQL constraints beyond the checks the handlers make, or the ORM's lazy loading. Cascades are the ones the model files declare: document to bitexts, bitext to annotations, user to annotations.
- Bitext targets and translations are nullable columns, but they are modelled as strings, so a null target is not distinguished from an empty one.
- Strings are sequences of code points. JavaScript's UTF-16 code units (string lengths, `substr` and `<` on strings) agree with this only on text inside the Basic Multilingual Plane.
- ViewerKeys.MaybeParseInt: reads a string as a number only when it is the canonical decimal rendering of an integer of magnitude at most 2^53. The code also gives a number for a canonical integer beyond 2^53 that a double holds exactly and that is below 1e21 (such as "9007199254740994"); the model keeps every integer beyond 2^53 as a string.
- ViewerRows.SpanClass: `toLowerCase` is modelled for ASCII letters only.
- ViewerSort.SortData: `Array.prototype.sort` is modelled as an insertion sort. The comparator is a total order only when the ids of all rows are of the same kind (all numbers or all strings). Ids of mixed kinds leave the resulting order unspecified, and the model promises only a permutation. A number against a numeric-looking string (`5 < "007"` is true in JavaScript) is compared as false both ways, as if the string were not numeric.
- ViewerSort.InsertionSort: stability is not proved. The contract states that the values are permuted and end in order; the order of rows with equal keys is not promised. The source keeps them in input order: with ids of one kind the comparator is consistent and `Array.prototype.sort` is stable.
- ViewerSegments.AddSegmentAggregations: the loop starts from sentinel keys ("", -1, -1) compared with JavaScript loose equality. A first row whose doc is "" and whose ids are loosely equal to -1 would match the sentinel, and the code would then read a field of a null segment. The model always starts a new run at the first row.
- ViewerSegments.AddSegmentAggregations: every row of a run shares one JavaScript object. The model stores the aggregation once per run and gives each row the run's index (`segOf`), so aliasing is captured as an equal index.
- ViewerStats.HistBuilder.AddSegment: score differences are floating point. The model takes the histogram bin and the order of the two scores as computed inputs, so NaN scores and rounding are not modelled.
- ViewerStats.AddedKeepsTotals: a system named like the total key is excluded, because the code would then count one event twice.
- ViewerData.Viewer.SetData: a string passed instead of an array is modelled as a list of one item. Metadata is modelled as its note and its timing only; other JSON metadata keys are not modelled.
- Re-exporting a parsed row (`mqmGetFilteredTSVData`) writes the metadata object's string form into the tenth column. The model writes the text `join` gives for any object, "[object Object]" (`ViewerRows.RotationUndone`).
- The viewer's DOM work is not modelled: tables, menus, filters, plots, `mqmShow`, `mqmClearFilters`, `mqmSetSelectOptions`, file reading and URL fetching.
- MarkingItem.MarkingWidget: the toasts, the react-query cache invalidation and refetch, and the popup position (mouse coordinates) are not modelled. The server response is a parameter.
- MarkingItem.SelectionBounds: the DOM selection API is modelled as the two word indices it yields, parsed from the `id` attribute (`parentElement.id`) of the word spans at the two ends; NaN is an absent index.
- The results page download (frontend/src/pages/Results.jsx:49-53) is not modelled; it writes the exporter's lines to a file unchanged.
- ViewerSpans.SpanLength: only spans whose class starts with `mqm-m` (major and minor) are counted; critical, trivial and neutral spans are not. The model keeps this behaviour (`ViewerSpans.CriticalSpanNotCounted`) and does not treat it as a defect, since the exclusion may be deliberate.
- The export tests expect rows of annotations with a missing bitext or document to be skipped. The handler raises instead, and the model follows the handler. The skipping variant is `Results.ExportRowsSkippingMissing`, and `Results.SkippingAgrees` relates the two.
- Store order: every `.all()` and `.first()` is modelled as giving rows in ascending id order. The queries have no ORDER BY, so this is an assumption about the database rather than a guarantee of the code.
- Results.ExportedLine: takes as given that the category name of the marking holds no tab or newline. The thirty names hold none, but the proof over the whole table of string literals is beyond the solver's budget; the severity names are proved (`Codes.SeverityNamesFitColumns`).
- MarkingItem.MarkingWidget: the widgets of one annotation share one cache; the model gives each widget its own copy of it, so a write made through one widget is not seen by the others.
