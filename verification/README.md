# Vendor evaluation: a Dafny model

This project models the core of a small vendor-evaluation web application.
The catalogue is made of weighted *segments*, and each segment holds *questions*.
Signed-in users rate every question of a *vendor* from 0 to 10, with an optional comment.
A PDF report then turns those ratings into per-segment averages and a weighted final score.

Modelled:

- **Scoring** (`src/pdf/VendorReport.tsx`). The report body: the per-segment average, where an unrated question counts as 0, and the weighted final score. It also covers the vendor header with its "N/A" defaults and the details section, which lists every question in segment order, with "-" for a missing comment.
- **API routes**:
  - `POST /api/ratings/saveAll`: a bulk upsert keyed by (vendor, question), plus the evaluator stamp, all in one transaction.
  - `/api/segments`: GET, POST, a PUT whose three steps are not transactional, and a DELETE that removes the questions first and then the segment.
  - `POST /api/pdf`: the 401/400/404/500 chain, and the choice of ratings by (vendor, session user).
  - `POST /api/auth/signup`: normalisation of the fields, the email regular expression, and the duplicate check.
  - `/api/vendors`: GET, POST and DELETE.
- **Client pages**:
  - the three different vendor-search filters;
  - the rating map of the evaluation page, with autosave and "Save Evaluation";
  - the report page's download guard;
  - the follow-up steps of the two add-vendor forms.

How the model is built:

- The database is an immutable `Store.Db`. Vendors, users, segments and questions are tables held as sequences in insertion order. Ratings are a map keyed by (vendorId, questionId).
- `Store.Valid` states the constraints the database keeps:
  - unique primary keys;
  - unique user emails;
  - the question-to-segment foreign key;
  - ratings sit under their own key.
- A JSON body field is a `Js.JsValue`: `Undefined`, `Null` or `Defined(v)`. This keeps JavaScript truthiness, `||`, `??` and template interpolation explicit.
- Ids that the database assigns are parameters.
- A thrown error is a `fault` parameter. A handler that makes one database call takes a flag. A handler that makes several takes an optional step, which names the call that throws, so the same request can fail at any of its calls.

Where the system's design description and the code differ, the model follows the code:

- The description mentions a qualitative label for the final score ("Excellent" … "Bad"). The code computes none, and the model has none.
- The description asks for a non-empty vendor name. `POST /api/vendors` only rejects a falsy name, so a name of spaces is accepted (`VendorsApi.PostAcceptsBlankName`).
- The description says the report selects a vendor's ratings. The PDF route selects them by (vendorId, userId), but the bulk save never writes `userId`. So a rating created by the bulk save never reaches anyone's PDF (`PdfApi.SavedRatingsNotInPdf`).

## Model

| member | source | states |
|---|---|---|
| Js.Trim | src/app/api/auth/signup/route.ts:10-11 | `trim()` returns a slice of the string with only whitespace cut off on either side, and no whitespace left at either end |
| Js.TrimEmptyIffBlank | src/app/api/segments/route.ts:31 | `s.trim().length === 0` holds exactly when `s` is whitespace only |
| Js.Lower | src/app/dashboard/evaluate/page.tsx:62 | lower-casing keeps the length and maps each character to its lower-case form |
| Js.LowerIdempotent | src/app/dashboard/evaluate/page.tsx:62-66 | lower-casing an already lower-cased string changes nothing |
| Js.LowerConcat | src/app/dashboard/vendors/page.tsx:77 | lower-casing a concatenation lower-cases each part |
| Js.Includes | src/app/dashboard/evaluate/page.tsx:64-66 | `s.includes(t)` is true exactly when `t` occurs at some index of `s` |
| Js.IncludesEmpty | src/app/vendors/page.tsx:53 | every string includes the empty search term |
| Js.EmptyIncludesOnlyEmpty | src/app/vendors/page.tsx:54-55 | the empty string includes only the empty term |
| Seqs.Filter | src/app/dashboard/evaluate/page.tsx:61-68 | `filter` keeps, in their order, exactly the elements that satisfy the predicate, each as many times as it occurs |
| Store.FindVendor | src/app/api/pdf/route.ts:24-27 | `findUnique` finds a vendor with that id exactly when one exists |
| Store.QuestionsOf | src/app/api/segments/route.ts:7-10 | `include: { questions }` yields exactly the questions whose foreign key names the segment |
| Store.SegmentsByName | src/app/api/segments/route.ts:11-13 | `orderBy: { name: "asc" }` returns a permutation of the segments in ascending name order |
| Scoring.FindRating | src/pdf/VendorReport.tsx:47 | `ratings.find` gives nothing exactly when no rating is about the question, and otherwise the first rating about it |
| Scoring.QuestionScore | src/pdf/VendorReport.tsx:46-49 | a question's score is that of its first rating, and 0 when it has no rating |
| Scoring.Scores | src/pdf/VendorReport.tsx:46-49 | one score per question of the segment, in question order |
| Scoring.SegmentAverage | src/pdf/VendorReport.tsx:51-54 | the average is the sum of the question scores divided by their number, and a segment without questions averages 0 |
| Scoring.Summaries | src/pdf/VendorReport.tsx:45-68 | one summary per segment, in input order, each computed from that segment alone |
| Scoring.FinalScore | src/pdf/VendorReport.tsx:70-71 | with a positive total weight, the final score is the weighted sum divided by the total weight; otherwise it is 0 |
| Scoring.DetailForMeaning | src/pdf/VendorReport.tsx:107-116 | a question's details line carries its segment, id and text, and shows the first rating's score and non-empty comment, or 0 and "-" when it has none |
| Scoring.SegmentDetails | src/pdf/VendorReport.tsx:107-117 | one details line per question of the segment, in question order |
| Scoring.Details | src/pdf/VendorReport.tsx:101-119 | the details section has one line per question over all segments |
| Scoring.VendorReport | src/pdf/VendorReport.tsx:79-119 | the header shows company and email, or "N/A" when they are missing or empty; the body carries the final score, the summaries and the details |
| Scoring.SumBounds | src/pdf/VendorReport.tsx:53 | a sum of n values in [0, 10] lies in [0, 10·n] |
| Scoring.QuotientBounds | src/pdf/VendorReport.tsx:51-54 | a total in [0, 10·n] divided by a positive n lies in [0, 10] |
| Scoring.ProductBounds | src/pdf/VendorReport.tsx:56 | an average in [0, 10] times a non-negative weight lies between 0 and 10 × the weight |
| Scoring.SummarizeInRange | src/pdf/VendorReport.tsx:51-56 | with scores in [0, 10] and a positive weight, a segment's summary has its average in [0, 10] and its weighted average between 0 and 10 × the weight |
| Scoring.QuestionScoreInRange | src/pdf/VendorReport.tsx:46-49 | with every stored score in [0, 10], each question score lies in [0, 10] |
| Scoring.SegmentAverageInRange | src/pdf/VendorReport.tsx:51-54 | with every score in [0, 10], each segment average lies in [0, 10] |
| Scoring.WeightedSumBounds | src/pdf/VendorReport.tsx:56-59 | with averages in [0, 10] and non-negative weights, the weighted sum lies between 0 and 10 × the total weight |
| Scoring.TotalWeightPositive | src/pdf/VendorReport.tsx:58 | positive weights on a non-empty segment list give a positive total weight |
| Scoring.SummariesInRange | src/pdf/VendorReport.tsx:45-68 | with scores in [0, 10] and positive weights, every summary's average lies in [0, 10], its weight is positive and its weighted average lies between 0 and 10 × its weight |
| Scoring.FinalScoreInRange | src/pdf/VendorReport.tsx:70-71 | with scores in [0, 10] and positive weights, the final score lies in [0, 10] |
| Scoring.SingleSegmentFinalIsAverage | src/pdf/VendorReport.tsx:70-71 | with a single positively weighted segment, the final score is that segment's average, whatever the weight |
| Scoring.QuotientOfOne | src/pdf/VendorReport.tsx:58-71 | the totals of one summary are its weight and its weighted average, and their quotient is its average |
| Scoring.WeightedExample | src/pdf/VendorReport.tsx:45-71 | weights 1 and 3 over averages 10 and 0 (an unrated question counting as 0) give a final score of 2.5 |
| Scoring.BeforeMonotone | src/pdf/VendorReport.tsx:101-119 | the lines of segment i start where those of the earlier segments end, inside the section |
| Scoring.DetailsPosition | src/pdf/VendorReport.tsx:101-119 | question j of segment i, rated or not, is listed at position Before(i) + j with its own line |
| Scoring.DetailsHead | src/pdf/VendorReport.tsx:101-119 | the first segment's questions open the section, in order |
| Scoring.DetailsTail | src/pdf/VendorReport.tsx:101-119 | after the first segment's lines come exactly the lines of the remaining segments |
| Scoring.DetailsLineOrigin | src/pdf/VendorReport.tsx:101-119 | every details line sits at the position of some question of some segment |
| Scoring.BeforeStrict | src/pdf/VendorReport.tsx:101-119 | all lines of an earlier segment come before all lines of a later one |
| Scoring.DetailsListEachQuestionOnce | src/pdf/VendorReport.tsx:101-119 | different (segment, question) positions never share a details line, so no question is listed twice |
| SaveAll.Stamp | src/app/api/ratings/saveAll/route.ts:47-53 | the vendor update sets the evaluator and time on the vendor with that id and on no other row |
| SaveAll.Transaction | src/app/api/ratings/saveAll/route.ts:45-54 | a failed transaction leaves the database as it was |
| SaveAll.UpsertStatements | src/app/api/ratings/saveAll/route.ts:23-42 | one upsert per item, in order, keyed by (vendorId, questionId) with `comment ?? ""` |
| SaveAll.Handle | src/app/api/ratings/saveAll/route.ts:6-56 | no session user gives 401, a missing vendorId or non-array ratings gives 400, and any answer other than 200 leaves the database unchanged |
| SaveAll.TransactionSucceeds | src/app/api/ratings/saveAll/route.ts:45-54 | the transaction commits exactly when every item names a question and carries a score, the vendor exists and no database error hits it |
| SaveAll.RunStatements | src/app/api/ratings/saveAll/route.ts:45-54 | the transaction runs the upserts, then stamps the vendor, and fails if either step fails |
| SaveAll.UpsertsSucceed | src/app/api/ratings/saveAll/route.ts:23-54 | the upserts all succeed exactly when every item names a question and carries a score, and no database error hits them |
| SaveAll.RunUpserts | src/app/api/ratings/saveAll/route.ts:23-42 | successful upserts add the requested keys, leave every other key alone, and leave each key holding its last item |
| SaveAll.SaveAllEffect | src/app/api/ratings/saveAll/route.ts:18-56 | the save answers 200 exactly when the session, the body, every item's question id and score, the vendor and the database all allow it; then the ratings are upserted, the vendor is stamped, and the other tables are untouched |
| SaveAll.SaveAllEmptyListStamps | src/app/api/ratings/saveAll/route.ts:45-54 | an empty ratings list still stamps the vendor and writes no rating |
| SaveAll.SaveAllAtomic | src/app/api/ratings/saveAll/route.ts:45-54 | an unknown vendor, an item without a question id or without a score, or a database error gives 500 and leaves the database unchanged |
| SaveAll.UpsertedNothing | src/app/api/ratings/saveAll/route.ts:23-42 | no upsert leaves the ratings as they were |
| SaveAll.UpsertedAllTwice | src/app/api/ratings/saveAll/route.ts:23-42 | upserting the same items a second time changes no rating |
| SaveAll.SaveAllIdempotent | src/app/api/ratings/saveAll/route.ts:23-42 | repeating a successful save changes nothing more |
| SaveAll.SaveAllRowsKeepUser | src/app/api/ratings/saveAll/route.ts:31-40 | upserts never set a rating's user: new rows have none, and overwritten rows keep theirs |
| SaveAll.SaveAllPreservesValid | src/app/api/ratings/saveAll/route.ts:23-54 | the save keeps the database constraints |
| SegmentsApi.List | src/app/api/segments/route.ts:5-24 | GET returns every segment once, by ascending name, each with exactly its own questions; a database error gives 500 |
| SegmentsApi.Post | src/app/api/segments/route.ts:27-53 | POST creates one segment with the name as sent and a falsy weight replaced by 1 exactly when the name is not blank; otherwise 400, and a failure changes nothing |
| SegmentsApi.WeightOrOneMeaning | src/app/api/segments/route.ts:41 | a stored weight is never 0: a missing, null or zero weight becomes 1 |
| SegmentsApi.PostKeepsNameUntrimmed | src/app/api/segments/route.ts:31-43 | a name that is not blank is stored as sent, surrounding whitespace included |
| SegmentsApi.PostRejectsBlankName | src/app/api/segments/route.ts:31-36 | a blank name gives 400 and creates nothing |
| SegmentsApi.UpdateFields | src/app/api/segments/route.ts:69-77 | the field update fails for an unknown segment or a null field; otherwise it patches the defined fields of that segment only |
| SegmentsApi.CreateQuestion | src/app/api/segments/route.ts:80-87 | adding a question fails on an id clash or an unknown segment; otherwise the question is appended |
| SegmentsApi.DeleteQuestionById | src/app/api/segments/route.ts:90-94 | deleting fails for an unknown question; otherwise exactly that question is removed and the rest keep their order |
| SegmentsApi.Put | src/app/api/segments/route.ts:56-104 | a missing segmentId gives 400 and changes nothing; PUT answers 200, 400 or 500 and never touches vendors, users or ratings |
| SegmentsApi.PutFieldsOnly | src/app/api/segments/route.ts:68-77 | a PUT with only fields patches that segment and touches no question |
| SegmentsApi.PutEmptyNameWithWeight | src/app/api/segments/route.ts:69-77 | `name: ""` sent with a weight stores an empty name |
| SegmentsApi.PutAddsQuestion | src/app/api/segments/route.ts:79-87 | a non-blank question text is appended untrimmed; a blank one adds nothing |
| SegmentsApi.PutDeletesForeignQuestion | src/app/api/segments/route.ts:89-94 | a question is deleted by its id alone, even when it belongs to another segment |
| SegmentsApi.PutKeepsEarlierSteps | src/app/api/segments/route.ts:68-103 | when the delete step fails, the field update before it persists and the answer is 500 |
| SegmentsApi.QuestionsNotOf | src/app/api/segments/route.ts:119-121 | `deleteMany` keeps, in order, exactly the questions of other segments |
| SegmentsApi.SegmentsWithout | src/app/api/segments/route.ts:124-126 | `segment.delete` keeps, in order, exactly the other segments |
| SegmentsApi.Delete | src/app/api/segments/route.ts:107-136 | a missing segmentId gives 400 and changes nothing; DELETE answers 200, 400 or 500 and never touches vendors, users or ratings |
| SegmentsApi.DeleteRemovesSegmentAndQuestions | src/app/api/segments/route.ts:118-128 | a successful DELETE leaves exactly the other segments and the other segments' questions, in order |
| SegmentsApi.DeleteKeepsQuestionsDeleted | src/app/api/segments/route.ts:118-134 | when the segment step fails, the questions stay deleted and the answer is 500 |
| Store.SegmentAppendValid | src/app/api/segments/route.ts:38-43 | a new segment with a fresh id keeps the database constraints |
| Store.QuestionAppendValid | src/app/api/segments/route.ts:80-87 | a new question with a fresh id and an existing segment keeps the database constraints |
| SegmentsApi.QuestionRemovalKeepsReferences | src/app/api/segments/route.ts:118-121 | after the questions of a segment are removed, every remaining question still names an existing segment |
| SegmentsApi.RemovalKeepsReferences | src/app/api/segments/route.ts:118-128 | after the segment and its questions are removed, every remaining question names a remaining segment |
| SegmentsApi.RemainingSegmentKept | src/app/api/segments/route.ts:124-126 | a segment id other than the deleted one is still present after the delete |
| SegmentsApi.PostPreservesValid | src/app/api/segments/route.ts:38-43 | POST keeps the database constraints |
| SegmentsApi.AddQuestionStepPreservesValid | src/app/api/segments/route.ts:80-87 | adding a question keeps the database constraints |
| SegmentsApi.DeleteQuestionStepPreservesValid | src/app/api/segments/route.ts:90-94 | deleting a question keeps the database constraints |
| SegmentsApi.PutPreservesValid | src/app/api/segments/route.ts:56-104 | PUT keeps the database constraints, whether it finishes or stops part-way |
| SegmentsApi.DeletePreservesValid | src/app/api/segments/route.ts:107-136 | DELETE keeps the database constraints, whether it finishes or stops part-way |
| PdfApi.Disposition | src/app/api/pdf/route.ts:49 | the header is `attachment; filename="Report_`, then the vendor name, then `.pdf"` |
| PdfApi.SelectRatings | src/app/api/pdf/route.ts:36-38 | the selected ratings are exactly that vendor's rows whose user is the session user, each once |
| PdfApi.PickStep | src/app/api/pdf/route.ts:36-38 | examining one more rating keeps the selection exactly the matching rows among those examined, each once |
| PdfApi.PickedAll | src/app/api/pdf/route.ts:36-38 | once every rating is examined, the selection is exactly the matching rows, each once |
| PdfApi.ReportSegment | src/app/api/pdf/route.ts:30-33 | a report segment carries the row's id, name and weight, and exactly the questions that belong to it |
| PdfApi.Handle | src/app/api/pdf/route.ts:11-60 | the session read, then 401, the body read, then 400, the vendor lookup, then 404, each in that order; a throw at any awaited call gives 500; for a known vendor the answer is a PDF attachment exactly when no later call throws and the vendor name can be put in the header, and 500 otherwise |
| PdfApi.Respond | src/app/api/pdf/route.ts:29-59 | once the vendor is found, a throw from the segment or rating query or the renderer, or a name the header cannot carry, gives 500; otherwise the document is built from the name-ordered segments and the user's ratings |
| PdfApi.DispositionSafeIffNameSafe | src/app/api/pdf/route.ts:45-51 | the attachment header is a valid header value exactly when the vendor name is: Latin-1 only, with no NUL, CR or LF |
| PdfApi.NonLatinNameUnsafe | src/app/api/pdf/route.ts:45-59 | a vendor named "Łódź Tech" cannot be put in the header, so its report is answered with 500 |
| PdfApi.SavedRatingsNotInPdf | src/app/api/pdf/route.ts:36-38 | a rating row created by the bulk save is selected for no user's PDF |
| SignupApi.EmailRegexCharacterisation | src/app/api/auth/signup/route.ts:22-23 | the pattern accepts exactly the strings with no whitespace and one `@` that has text before it and, after it, a `.` that is neither first nor last |
| SignupApi.RegexMatchIsEmailShaped | src/app/api/auth/signup/route.ts:22-23 | every string the pattern accepts has no whitespace and one `@` with text before it and an inner `.` after it |
| SignupApi.EmailShapedMatchesRegex | src/app/api/auth/signup/route.ts:22-23 | every string of that shape is accepted by the pattern |
| SignupApi.EmailRegexAccepts | src/app/api/auth/signup/route.ts:22 | "a@b.co" matches |
| SignupApi.EmailRegexRejectsTrailingDot | src/app/api/auth/signup/route.ts:22 | "a@b." does not match |
| SignupApi.EmailRegexRejectsLeadingDot | src/app/api/auth/signup/route.ts:22 | "a@.co" does not match |
| SignupApi.EmailRegexRejectsTwoAts | src/app/api/auth/signup/route.ts:22 | "a@@b.co" does not match |
| SignupApi.Handle | src/app/api/auth/signup/route.ts:6-53 | a throw reading the body gives 500; then missing fields and then a bad email give 400; a throw at the user lookup gives 500; then a duplicate gives 400; then a throw at the hash or the create, or an id clash, gives 500 "Internal server error"; an account is created, with the normalised name and email and the hashed password, exactly when all checks pass and no call throws |
| SignupApi.WhitespacePasswordAccepted | src/app/api/auth/signup/route.ts:12-14 | a password of spaces passes the field check and is hashed as it is |
| SignupApi.StoredEmailIsNormal | src/app/api/auth/signup/route.ts:11 | a stored email is unchanged by trimming and lower-casing it again |
| SignupApi.DuplicateIgnoresCaseAndSpaces | src/app/api/auth/signup/route.ts:27-31 | after one sign-up, a second whose email differs only in case and surrounding spaces is "User already exists" |
| SignupApi.RegisteredEmailRejected | src/app/api/auth/signup/route.ts:27-31 | a well-formed sign-up with an already registered email gets 400 "User already exists" and changes nothing |
| SignupApi.SignupPreservesValid | src/app/api/auth/signup/route.ts:36-43 | sign-up keeps user ids and emails unique |
| VendorsApi.List | src/app/api/vendors/route.ts:4-9 | GET returns every vendor once, newest first |
| VendorsApi.Column | src/app/api/vendors/route.ts:18-20 | `undefined` and `null` both store a null column; a value is stored as sent |
| VendorsApi.Post | src/app/api/vendors/route.ts:11-23 | a falsy name gives 400; otherwise one never-evaluated vendor is appended and 201 is returned; a failure changes nothing |
| VendorsApi.Delete | src/app/api/vendors/route.ts:25-31 | DELETE succeeds exactly when the vendor exists, touches only the vendor table, and a failure changes nothing |
| VendorsApi.PostAcceptsBlankName | src/app/api/vendors/route.ts:14-16 | a name of spaces creates a vendor |
| VendorsApi.PostThenListed | src/app/api/vendors/route.ts:4-23 | a created vendor appears in the listing |
| VendorsApi.DeleteRemovesOnlyThatVendor | src/app/api/vendors/route.ts:25-31 | delete removes exactly that vendor, keeps the others in order, and leaves its ratings in place |
| VendorsApi.PostPreservesValid | src/app/api/vendors/route.ts:18-20 | POST keeps vendor ids unique |
| VendorsApi.DeletePreservesValid | src/app/api/vendors/route.ts:28 | DELETE keeps vendor ids unique |
| VendorSearch.FieldwiseFilter | src/app/dashboard/evaluate/page.tsx:61-68 | keeps, in order, exactly the vendors whose name, company or email contains the term, ignoring case |
| VendorSearch.FieldwiseFilterCounts | src/app/dashboard/report/page.tsx:27-34 | the report page's identical field-wise search keeps each matching vendor as many times as it is listed, and no other vendor |
| VendorSearch.ConcatenatedFilter | src/app/dashboard/vendors/page.tsx:76-78 | keeps, in order, exactly the vendors whose interpolated `name company email` contains the term, ignoring case |
| VendorSearch.OptionalChainFilter | src/app/vendors/page.tsx:51-56 | keeps, in order, exactly the vendors matched by name, `company?.…` or `email?.…` |
| VendorSearch.EmptyTermKeepsAll | src/app/dashboard/evaluate/page.tsx:61-68 | an empty search keeps every vendor, in all three filters |
| VendorSearch.TermCaseIrrelevant | src/app/dashboard/evaluate/page.tsx:62 | the letter case of the term never changes a result |
| VendorSearch.OptionalChainAgreesWithFieldwise | src/app/vendors/page.tsx:51-56 | the optional-chaining filter returns the same vendors as the field-wise one on every input |
| VendorSearch.MissingFieldNeverMatches | src/app/vendors/page.tsx:54-55 | under optional chaining, a missing company or email is never a match |
| VendorSearch.ConcatenatedMatchesAcrossBoundary | src/app/dashboard/vendors/page.tsx:76-78 | a term spanning name and company matches the concatenated search but not the field-wise one |
| VendorSearch.MissingCompanyMatchesLiteral | src/app/dashboard/vendors/page.tsx:77 | a company that is `null`, as the list endpoint sends a missing one, is found by searching "null" (and an absent field, which that endpoint never sends, by "undefined") |
| VendorSearch.NameMatchSuffices | src/app/vendors/page.tsx:53 | a name match keeps the vendor in every variant |
| EvaluatePage.RatingMap | src/app/dashboard/evaluate/page.tsx:79-87 | the loaded map has one entry per loaded question id, stored under its own id |
| EvaluatePage.RatingMapLastWins | src/app/dashboard/evaluate/page.tsx:81-87 | each question maps to its last loaded rating, with a falsy comment shown as "" |
| EvaluatePage.NullCommentBecomesEmpty | src/app/dashboard/evaluate/page.tsx:85 | a null or empty loaded comment shows as "" |
| EvaluatePage.Current | src/app/dashboard/evaluate/page.tsx:219-224 | an unrated question shows score 0 and an empty comment; a rated one shows its entry |
| EvaluatePage.SaveRating | src/app/dashboard/evaluate/page.tsx:95-103 | autosave sends a request exactly when a vendor is selected |
| EvaluatePage.SliderChange | src/app/dashboard/evaluate/page.tsx:236-251 | the slider sets that question's score, keeps its comment and every other entry, and autosaves the new entry |
| EvaluatePage.CommentChange | src/app/dashboard/evaluate/page.tsx:263-278 | the comment box sets that question's comment, keeps its score and every other entry, and autosaves the new entry |
| EvaluatePage.SaveAllRequests | src/app/dashboard/evaluate/page.tsx:110-126 | "Save Evaluation" sends one request per entry of the map, and every request comes from an entry |
| EvaluatePage.SendStep | src/app/dashboard/evaluate/page.tsx:110-126 | sending one more entry keeps the requests one per entry seen so far |
| EvaluatePage.SentCoversAll | src/app/dashboard/evaluate/page.tsx:110-126 | once every key is visited, each entry has its request |
| EvaluatePage.SentFromEntries | src/app/dashboard/evaluate/page.tsx:110-126 | every request sent is built from an entry of the map |
| EvaluatePage.SliderOnUnratedKeepsEmptyComment | src/app/dashboard/evaluate/page.tsx:219-250 | moving the slider of an unrated question stores an empty comment |
| EvaluatePage.SliderThenComment | src/app/dashboard/evaluate/page.tsx:236-277 | a slider change then a comment change on one question keeps both |
| EvaluatePage.SliderChangeIsSavedByAll | src/app/dashboard/evaluate/page.tsx:110-126 | after a slider change, any request list that covers every entry, as "Save Evaluation" does, sends that question with its new score and the comment shown, for the selected vendor |
| EvaluatePage.NoAutosaveWithoutVendor | src/app/dashboard/evaluate/page.tsx:96 | no edit is autosaved while no vendor is selected |
| ClientForms.HandleDownload | src/app/dashboard/report/page.tsx:36-42 | a download is requested exactly when a vendor is selected, for that vendor |
| ClientForms.AfterAdd | src/app/dashboard/vendors/page.tsx:47-56 | a 2xx answer clears and hides the form and reloads the list; any other answer changes nothing |
| ClientForms.ResubmitAfterResetRejected | src/app/dashboard/vendors/page.tsx:38-57 | the cleared form, if it reaches the route again, gets 400 and creates nothing |
| ClientForms.FailedAddKeepsInput | src/app/dashboard/vendors/page.tsx:47-50 | a failed create keeps what was typed and the database as it was |
| ClientForms.EmptyCompanyStoredAsEmptyString | src/app/dashboard/vendors/page.tsx:41-45 | an empty company is stored as "" rather than null, and the report still shows "N/A" |
| ClientForms.AfterModalAdd | src/app/vendors/page.tsx:44-47 | only a 2xx answer closes the modal and reloads the list |
| ClientForms.ModalStaysOpenOnMissingName | src/app/vendors/page.tsx:31-47 | a form with an empty name, if it reaches the route, gets 400, so the modal stays open and nothing reloads |

## Left out

- Network, request parsing and response serialisation: handlers take decoded bodies and return a status with the new database state. A body that fails to parse is only the `BodyStep` fault.
- A JSON value of the wrong type (a number where a string is expected, a non-numeric weight or score) is not modelled. Each field is a string, a real, `undefined` or `null`. A missing or `null` field that the database requires, such as an item's `score` in the bulk save, makes the statement fail.
- Floating point and `toFixed(2)`: scores, averages and weights are exact reals, and display rounding is not modelled.
- The PDF layout (fonts, pages, styles) is not modelled. The renderer is taken to draw `Scoring.VendorReport` from what it receives, and a rendering failure is the `RenderStep` fault.
- `toLowerCase` is modelled for ASCII letters only.
- The database's string collation is taken to be code-point order. The order of segments that share a name is the model's own choice.
- bcrypt is the opaque `hash` parameter, and its cost factor plays no part.
- `new Date()` and `createdAt` are opaque timestamps passed in as parameters.
- Sessions are reduced to the value of `session?.user?.id`. NextAuth and the middleware are not part of this model.
- The rating foreign keys are taken to be unenforced: deleting a vendor or a question leaves its ratings in place. The question-to-segment foreign key is taken to be enforced.
- GET and POST `/api/vendors` catch no errors. The model leaves out database failures there, apart from an id clash, which is a 500.
- The per-rating route `src/app/api/ratings/[vendorId]/route.ts` is not part of this model. The evaluation page's save requests are data, and their effect on the database is not modelled.
- React state batching and stale closures: each slider or comment event is one atomic step on the latest state. Two events applied to one stale `current` are not modelled.
- The order in which `for … in` visits the rating map is left open.
- JSX, alerts, loading flags and the segments management page are not modelled.
- The browser's `required` validation of the vendor name inputs (`src/app/dashboard/vendors/page.tsx:145`, `src/app/vendors/page.tsx:127`) is not modelled. It blocks an empty-name submit before any request, so the empty-name lemmas of `ClientForms` describe what the route would answer, not a path a user normally reaches.
- SaveAll.Handle: its contract states the guards and that only a 200 changes the database. The effect of a successful save is stated by `SaveAll.SaveAllEffect`.
- SegmentsApi.Put: its contract states the guard, the possible statuses and which tables never change. The effect of each step is stated by the `SegmentsApi.Put…` lemmas.
- SegmentsApi.Delete: its contract states the guard, the possible statuses and which tables never change. The effect is stated by `SegmentsApi.DeleteRemovesSegmentAndQuestions` and `SegmentsApi.DeleteKeepsQuestionsDeleted`.
- Scoring.Details: its contract states only the number of lines. Where each line sits is stated by `Scoring.DetailsPosition`, `Scoring.DetailsLineOrigin` and `Scoring.DetailsListEachQuestionOnce`.
- SaveAll.Transaction: its contract states only the rollback. The effect of a committed transaction is stated by `SaveAll.RunUpserts` and `SaveAll.SaveAllEffect`.
