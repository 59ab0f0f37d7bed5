/**
 `POST /api/pdf`: the report download for one vendor, as seen by the signed-in
 user.

 The decision chain is: no session user, 401; no `vendorId`, 400; unknown
 vendor, 404; a throw from any awaited call, or a vendor name the response
 header cannot carry, 500. Otherwise the renderer receives the vendor, every segment with
 its questions ordered by name, and the ratings of that vendor whose `userId`
 column is the session user. Those ratings are selected by (vendorId, userId),
 not by the (vendorId, questionId) key the bulk save writes.
 */
module PdfApi {
  import opened Basics
  import opened Js
  import opened Store
  import Scoring
  import SaveAll

  /** An error answer, or the document described by what the renderer was given
      and the report it computes from that. */
  datatype PdfResponse =
    | PdfError(status: int, message: string)
    | PdfOk(contentType: string, disposition: string,
            segments: seq<SegmentRow>, selected: seq<RatingRow>, report: Scoring.Report)

  function Status(r: PdfResponse): int {
    if r.PdfOk? then StatusOk else r.status
  }

  /** The `Content-Disposition` header: an attachment named `Report_<vendor name>.pdf`. */
  function Disposition(vendorName: string): (h: string)
    ensures |h| == |vendorName| + 34
    ensures h[..29] == "attachment; filename=\"Report_" && h[|h| - 5..] == ".pdf\""
    ensures h[29..|h| - 5] == vendorName
  {
    "attachment; filename=\"Report_" + vendorName + ".pdf\""
  }

  /** The rows `rating.findMany({ where: { vendorId, userId } })` returns. */
  predicate Selects(vendorId: Id, userId: Id, x: RatingRow) {
    x.vendorId == vendorId && x.userId == Some(userId)
  }

  /** `rating.findMany({ where: { vendorId, userId } })`, in whatever order the
      database yields them: every matching row once, no other row. */
  method SelectRatings(ratings: map<RatingKey, RatingRow>, vendorId: Id, userId: Id) returns (r: seq<RatingRow>)
    ensures forall x :: x in r <==> x in ratings.Values && Selects(vendorId, userId, x)
    ensures RatingsKeyed(ratings) ==> forall i, j :: 0 <= i < j < |r| ==> r[i] != r[j]
  {
    var todo := ratings.Keys;
    ghost var picked: seq<RatingKey> := [];
    r := [];
    while todo != {}
      invariant todo <= ratings.Keys
      invariant Picked(ratings, vendorId, userId, ratings.Keys - todo, picked, r)
      decreases |todo|
    {
      var k :| k in todo;
      PickStep(ratings, vendorId, userId, todo, picked, r, k);
      todo := todo - {k};
      if Selects(vendorId, userId, ratings[k]) {
        r := r + [ratings[k]];
        picked := picked + [k];
      }
    }
    assert ratings.Keys - todo == ratings.Keys;
    PickedAll(ratings, vendorId, userId, picked, r);
  }

  /** What the selection loop keeps: `r` holds, once each and in the order of
      `picked`, the matching rows among the keys `done` seen so far. */
  ghost predicate Picked(ratings: map<RatingKey, RatingRow>, vendorId: Id, userId: Id,
                         done: set<RatingKey>, picked: seq<RatingKey>, r: seq<RatingRow>) {
    && done <= ratings.Keys
    && |picked| == |r|
    && (forall i :: 0 <= i < |r| ==> picked[i] in done && r[i] == ratings[picked[i]] && Selects(vendorId, userId, r[i]))
    && (forall i, j :: 0 <= i < j < |picked| ==> picked[i] != picked[j])
    && (forall k :: k in done && Selects(vendorId, userId, ratings[k]) ==> k in picked)
  }

  /** Taking one more key out of the keys still to see keeps the loop's invariant. */
  lemma PickStep(ratings: map<RatingKey, RatingRow>, vendorId: Id, userId: Id,
                 todo: set<RatingKey>, picked: seq<RatingKey>, r: seq<RatingRow>, k: RatingKey)
    requires Picked(ratings, vendorId, userId, ratings.Keys - todo, picked, r)
    requires todo <= ratings.Keys && k in todo
    ensures Selects(vendorId, userId, ratings[k]) ==>
      Picked(ratings, vendorId, userId, ratings.Keys - (todo - {k}), picked + [k], r + [ratings[k]])
    ensures !Selects(vendorId, userId, ratings[k]) ==> Picked(ratings, vendorId, userId, ratings.Keys - (todo - {k}), picked, r)
  {
    assert ratings.Keys - (todo - {k}) == (ratings.Keys - todo) + {k};
  }

  /** Once every key is seen, `r` is exactly the matching rows, each once. */
  lemma PickedAll(ratings: map<RatingKey, RatingRow>, vendorId: Id, userId: Id, picked: seq<RatingKey>, r: seq<RatingRow>)
    requires Picked(ratings, vendorId, userId, ratings.Keys, picked, r)
    ensures forall x :: x in r <==> x in ratings.Values && Selects(vendorId, userId, x)
    ensures RatingsKeyed(ratings) ==> forall i, j :: 0 <= i < j < |r| ==> r[i] != r[j]
  {
    forall x | x in ratings.Values && Selects(vendorId, userId, x)
      ensures x in r
    {
      var k :| k in ratings && ratings[k] == x;
      var i :| 0 <= i < |picked| && picked[i] == k;
      assert r[i] == x;
    }
  }

  /** A segment row with its questions, as the report reads it. */
  function ReportSegment(db: Db, s: SegmentRow): (r: Scoring.Segment)
    ensures r.id == s.id && r.name == s.name && r.weight == s.weight
    ensures forall i :: 0 <= i < |r.questions| ==>
      exists q :: q in db.questions && q.segmentId == s.id && r.questions[i] == Scoring.Question(q.id, q.text)
    ensures forall q :: q in db.questions && q.segmentId == s.id ==> Scoring.Question(q.id, q.text) in r.questions
  {
    var qs := QuestionsOf(db.questions, s.id);
    var questions := ReportQuestions(qs);
    ReportQuestionsComplete(qs);
    Scoring.Segment(s.id, s.name, s.weight, questions)
  }

  /** The report's view of question rows: id and text, in row order. */
  function ReportQuestions(qs: seq<QuestionRow>): (r: seq<Scoring.Question>)
    ensures |r| == |qs| && forall i :: 0 <= i < |qs| ==> r[i] == Scoring.Question(qs[i].id, qs[i].text)
  {
    seq(|qs|, i requires 0 <= i < |qs| => Scoring.Question(qs[i].id, qs[i].text))
  }

  /** Every question row appears in the report's view of the rows. */
  lemma ReportQuestionsComplete(qs: seq<QuestionRow>)
    ensures forall q :: q in qs ==> Scoring.Question(q.id, q.text) in ReportQuestions(qs)
  {
    forall q | q in qs
      ensures Scoring.Question(q.id, q.text) in ReportQuestions(qs)
    {
      var i :| 0 <= i < |qs| && qs[i] == q;
      assert ReportQuestions(qs)[i] == Scoring.Question(q.id, q.text);
    }
  }

  function ReportSegments(db: Db, ss: seq<SegmentRow>): (r: seq<Scoring.Segment>)
    ensures |r| == |ss| && forall i :: 0 <= i < |ss| ==> r[i] == ReportSegment(db, ss[i])
  {
    seq(|ss|, i requires 0 <= i < |ss| => ReportSegment(db, ss[i]))
  }

  function ReportRatings(rows: seq<RatingRow>): (r: seq<Scoring.Rating>)
    ensures |r| == |rows| && forall i :: 0 <= i < |rows| ==>
      r[i] == Scoring.Rating(rows[i].questionId, rows[i].score, Some(rows[i].comment))
  {
    seq(|rows|, i requires 0 <= i < |rows| => Scoring.Rating(rows[i].questionId, rows[i].score, Some(rows[i].comment)))
  }

  function ReportVendorOf(v: Vendor): Scoring.ReportVendor {
    Scoring.ReportVendor(v.name, v.company, v.email)
  }

  /** The awaited calls inside the handler's `try`, in the order they run. A fault
      names the call that throws; every throw is caught and answered with 500. */
  datatype PdfStep = SessionStep | BodyStep | VendorStep | SegmentsStep | RatingsStep | RenderStep

  /** The answer of the `catch` block. */
  const Failed := PdfError(StatusServerError, "Failed to generate PDF")

  /** A header value the response accepts: a Web IDL ByteString (no character above
      U+00FF) holding no NUL, CR or LF, as the Fetch standard's `Headers` requires.
      Any other value makes `new NextResponse(…)` throw a `TypeError`. */
  predicate HeaderSafe(v: string) {
    forall i :: 0 <= i < |v| ==> v[i] as int <= 0xFF && v[i] != '\0' && v[i] != '\r' && v[i] != '\n'
  }

  /** The attachment header is acceptable exactly when the vendor name is. */
  lemma DispositionSafeIffNameSafe(vendorName: string)
    ensures HeaderSafe(Disposition(vendorName)) <==> HeaderSafe(vendorName)
  {
    var h := Disposition(vendorName);
    if HeaderSafe(h) {
      forall i | 0 <= i < |vendorName|
        ensures vendorName[i] as int <= 0xFF && vendorName[i] != '\0' && vendorName[i] != '\r' && vendorName[i] != '\n'
      {
        assert vendorName[i] == h[29..|h| - 5][i] == h[29 + i];
      }
    }
    if HeaderSafe(vendorName) {
      forall i | 0 <= i < |h|
        ensures h[i] as int <= 0xFF && h[i] != '\0' && h[i] != '\r' && h[i] != '\n'
      {
        if i < 29 {
          assert h[i] == h[..29][i];
        } else if i < |h| - 5 {
          assert h[i] == h[29..|h| - 5][i - 29];
        } else {
          assert h[i] == h[|h| - 5..][i - (|h| - 5)];
        }
      }
    }
  }

  /** A throw at or before the vendor lookup, which pre-empts the 404. */
  predicate LookupFault(fault: Option<PdfStep>) {
    fault == Some(SessionStep) || fault == Some(BodyStep) || fault == Some(VendorStep)
  }

  /** `r` is the report of vendor `v` for user `userId`: a PDF attachment named after
      the vendor, computed from every segment ordered by name and from exactly that
      user's ratings of the vendor. */
  ghost predicate Document(db: Db, v: Vendor, userId: Id, r: PdfResponse) {
    && r.PdfOk?
    && r.contentType == "application/pdf"
    && r.disposition == Disposition(v.name)
    && multiset(r.segments) == multiset(db.segments)
    && (forall i, j :: 0 <= i < j < |r.segments| ==> NameLe(r.segments[i].name, r.segments[j].name))
    && (forall x :: x in r.selected <==> x in db.ratings.Values && Selects(v.id, userId, x))
    && r.report == Scoring.VendorReport(ReportVendorOf(v), ReportSegments(db, r.segments), ReportRatings(r.selected))
  }

  /** The handler. `session` is `session?.user?.id`, `vendorId` the field of the
      decoded body, and `fault` the awaited call that throws, if any. */
  method Handle(db: Db, session: JsValue<Id>, vendorId: JsValue<Id>, fault: Option<PdfStep>) returns (r: PdfResponse)
    ensures fault == Some(SessionStep) ==> r == Failed
    ensures fault != Some(SessionStep) && !Truthy(session) ==> r == PdfError(StatusUnauthorized, "Unauthorized")
    ensures Truthy(session) && fault == Some(BodyStep) ==> r == Failed
    ensures Truthy(session) && fault != Some(SessionStep) && fault != Some(BodyStep) && !Truthy(vendorId) ==>
      r == PdfError(StatusBadRequest, "vendorId is required")
    ensures Truthy(session) && Truthy(vendorId) && fault == Some(VendorStep) ==> r == Failed
    ensures Truthy(session) && Truthy(vendorId) && vendorId.value !in VendorIds(db.vendors) && !LookupFault(fault) ==>
      r == PdfError(StatusNotFound, "Vendor not found")
    ensures Truthy(session) && Truthy(vendorId) && vendorId.value in VendorIds(db.vendors) ==>
      && (r.PdfError? <==> fault.Some? || !HeaderSafe(FindVendor(db.vendors, vendorId.value).value.name))
      && (r.PdfError? ==> r == Failed)
    ensures r.PdfOk? ==>
      && Truthy(session) && Truthy(vendorId) && fault.None?
      && FindVendor(db.vendors, vendorId.value).Some?
      && var v := FindVendor(db.vendors, vendorId.value).value;
      && HeaderSafe(v.name)
      && Document(db, v, session.value, r)
  {
    if fault == Some(SessionStep) {
      return Failed;
    }
    if !Truthy(session) {
      return PdfError(StatusUnauthorized, "Unauthorized");
    }
    if fault == Some(BodyStep) {
      return Failed;
    }
    if !Truthy(vendorId) {
      return PdfError(StatusBadRequest, "vendorId is required");
    }
    if fault == Some(VendorStep) {
      return Failed;
    }
    var found := FindVendor(db.vendors, vendorId.value);
    if found.None? {
      return PdfError(StatusNotFound, "Vendor not found");
    }
    r := Respond(db, found.value, session.value, fault);
  }

  /** The handler once the vendor `v` is found: the segment and rating queries, the
      rendering and the response, any of which may throw. */
  method Respond(db: Db, v: Vendor, userId: Id, fault: Option<PdfStep>) returns (r: PdfResponse)
    ensures r.PdfError? <==> fault.Some? || !HeaderSafe(v.name)
    ensures r.PdfError? ==> r == Failed
    ensures r.PdfOk? ==> Document(db, v, userId, r)
  {
    if fault.Some? {
      return Failed;
    }
    var segments := SegmentsByName(db.segments);
    var selected := SelectRatings(db.ratings, v.id, userId);
    var report := Scoring.VendorReport(ReportVendorOf(v), ReportSegments(db, segments), ReportRatings(selected));
    var disposition := Disposition(v.name);
    DispositionSafeIffNameSafe(v.name);
    if !HeaderSafe(disposition) {
      return Failed;
    }
    r := PdfOk("application/pdf", disposition, segments, selected, report);
  }

  /** A vendor name with a character outside Latin-1, such as "Łódź Tech", cannot
      appear in the attachment header, so its report is always answered with 500. */
  lemma NonLatinNameUnsafe()
    ensures !HeaderSafe(Disposition("\U{0141}\U{00F3}d\U{017A} Tech"))
  {
    DispositionSafeIffNameSafe("\U{0141}\U{00F3}d\U{017A} Tech");
    assert "\U{0141}\U{00F3}d\U{017A} Tech"[0] as int == 0x141;
  }

  /** The two keys disagree: a rating the bulk save creates has no user, so the
      PDF of any user leaves it out. */
  lemma SavedRatingsNotInPdf(db: Db, session: JsValue<Id>, body: SaveAll.Body, now: Timestamp,
                             fault: Option<nat>, k: RatingKey, userId: Id)
    requires SaveAll.Handle(db, session, body, now, fault).status == StatusOk
    requires k !in db.ratings && k in SaveAll.Handle(db, session, body, now, fault).db.ratings
    ensures !Selects(k.0, userId, SaveAll.Handle(db, session, body, now, fault).db.ratings[k])
  {
    SaveAll.SaveAllRowsKeepUser(db, session, body, now, fault);
  }
}
