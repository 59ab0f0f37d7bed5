/**
 `/api/segments`: the catalogue of weighted segments and their questions.

 GET lists segments by name with their questions; POST creates a segment;
 PUT is a multi-purpose update (segment fields, add a question, delete a
 question) whose steps run one after another without a transaction; DELETE
 removes a segment's questions and then the segment, also without a
 transaction. A database error in any step is caught and answered with 500,
 after whatever earlier steps already wrote.

 Identifiers of new rows come from the database; they are parameters here,
 and a clash with an existing id is the unique-constraint error it raises.
 */
module SegmentsApi {
  import opened Basics
  import opened Js
  import opened Store
  import Seqs

  // ---------------------------------------------------------------------------
  // GET

  /** A segment with its questions included. */
  datatype SegmentView = SegmentView(id: Id, name: string, weight: real, questions: seq<QuestionRow>)

  function View(db: Db, s: SegmentRow): SegmentView {
    SegmentView(s.id, s.name, s.weight, QuestionsOf(db.questions, s.id))
  }

  /** The row a view was built from. */
  function RowOf(v: SegmentView): SegmentRow {
    SegmentRow(v.id, v.name, v.weight)
  }

  function Rows(vs: seq<SegmentView>): (r: seq<SegmentRow>)
    ensures |r| == |vs| && forall i :: 0 <= i < |vs| ==> r[i] == RowOf(vs[i])
  {
    seq(|vs|, i requires 0 <= i < |vs| => RowOf(vs[i]))
  }

  /** `GET`: every segment once, ordered by name, each with exactly the questions
      whose foreign key names it; `fault` is a database error (500, empty body). */
  function List(db: Db, fault: bool): (r: (int, seq<SegmentView>))
    ensures fault ==> r == (StatusServerError, [])
    ensures !fault ==> r.0 == StatusOk && multiset(Rows(r.1)) == multiset(db.segments)
    ensures forall i, j :: 0 <= i < j < |r.1| ==> NameLe(r.1[i].name, r.1[j].name)
    ensures forall i, q :: 0 <= i < |r.1| ==> (q in r.1[i].questions <==> q in db.questions && q.segmentId == r.1[i].id)
  {
    if fault then (StatusServerError, [])
    else
      var sorted := SegmentsByName(db.segments);
      var views := seq(|sorted|, i requires 0 <= i < |sorted| => View(db, sorted[i]));
      assert Rows(views) == sorted;
      (StatusOk, views)
  }

  // ---------------------------------------------------------------------------
  // POST

  datatype PostBody = PostBody(name: JsValue<string>, weight: JsValue<real>)

  /** `weight || 1`: a missing, null or zero weight becomes 1. */
  function WeightOrOne(w: JsValue<real>): real {
    if w.Defined? && w.value != 0.0 then w.value else 1.0
  }

  /** `!name || name.trim().length === 0`. */
  predicate NameMissing(name: JsValue<string>) {
    !Truthy(name) || Trim(name.value) == []
  }

  /** `POST`: creates one segment with id `newId`, the name exactly as sent and
      `weight || 1`; a missing or blank name is 400 and creates nothing. */
  function Post(db: Db, body: PostBody, newId: Id, fault: bool): (r: Reply)
    ensures NameMissing(body.name) ==> r == Reply(StatusBadRequest, db)
    ensures r.status != StatusOk ==> r.db == db
    ensures r.status == StatusOk <==> !NameMissing(body.name) && !fault && newId !in SegmentIds(db.segments)
    ensures r.status == StatusOk ==>
      r.db == db.(segments := db.segments + [SegmentRow(newId, body.name.value, WeightOrOne(body.weight))])
  {
    if NameMissing(body.name) then Reply(StatusBadRequest, db)
    else if fault || newId in SegmentIds(db.segments) then Reply(StatusServerError, db)
    else Reply(StatusOk, db.(segments := db.segments + [SegmentRow(newId, body.name.value, WeightOrOne(body.weight))]))
  }

  // ---------------------------------------------------------------------------
  // PUT

  datatype PutBody = PutBody(
    segmentId: JsValue<Id>,
    name: JsValue<string>,
    weight: JsValue<real>,
    addQuestion: JsValue<string>,
    deleteQuestionId: JsValue<Id>)

  /** The database statements of PUT, in the order they run. */
  datatype PutStep = FieldsStep | AddQuestionStep | DeleteQuestionStep

  /** A field of `data`: `undefined` keeps the stored value. */
  function Patch<T>(stored: T, v: JsValue<T>): T {
    if v.Defined? then v.value else stored
  }

  /** `segment.update({ where: { id }, data: { name, weight } })`: fails when the
      segment does not exist or a field is `null` (both columns are required). */
  function UpdateFields(ss: seq<SegmentRow>, id: Id, name: JsValue<string>, weight: JsValue<real>): (r: Option<seq<SegmentRow>>)
    ensures r.None? <==> id !in SegmentIds(ss) || name.Null? || weight.Null?
    ensures r.Some? ==> |r.value| == |ss| && SegmentIds(r.value) == SegmentIds(ss)
    ensures r.Some? ==> forall i :: 0 <= i < |ss| && ss[i].id != id ==> r.value[i] == ss[i]
    ensures r.Some? ==> forall i :: 0 <= i < |ss| && ss[i].id == id ==>
      r.value[i] == SegmentRow(id, Patch(ss[i].name, name), Patch(ss[i].weight, weight))
  {
    if id !in SegmentIds(ss) || name.Null? || weight.Null? then None
    else
      Some(seq(|ss|, i requires 0 <= i < |ss| =>
        if ss[i].id == id then SegmentRow(id, Patch(ss[i].name, name), Patch(ss[i].weight, weight)) else ss[i]))
  }

  /** `question.create`: fails on a clashing id or when the foreign key names no segment. */
  function CreateQuestion(db: Db, q: QuestionRow): (r: Option<Db>)
    ensures r.None? <==> q.id in QuestionIds(db.questions) || q.segmentId !in SegmentIds(db.segments)
    ensures r.Some? ==> r.value == db.(questions := db.questions + [q])
  {
    if q.id in QuestionIds(db.questions) || q.segmentId !in SegmentIds(db.segments) then None
    else Some(db.(questions := db.questions + [q]))
  }

  /** `question.delete({ where: { id } })`: fails when no question has that id. */
  function DeleteQuestionById(db: Db, id: Id): (r: Option<Db>)
    ensures r.None? <==> id !in QuestionIds(db.questions)
    ensures r.Some? ==> r.value == db.(questions := r.value.questions)
    ensures r.Some? ==> Seqs.SubList(r.value.questions, db.questions)
    ensures r.Some? ==> forall q :: q in r.value.questions <==> q in db.questions && q.id != id
  {
    if id !in QuestionIds(db.questions) then None
    else Some(db.(questions := Seqs.Filter(db.questions, (q: QuestionRow) => q.id != id)))
  }

  /** Whether PUT runs the field update: `name || weight !== undefined`. */
  predicate UpdatesFields(b: PutBody) {
    Truthy(b.name) || !b.weight.Undefined?
  }

  /** Whether PUT adds a question: `addQuestion && addQuestion.trim().length > 0`. */
  predicate AddsQuestion(b: PutBody) {
    Truthy(b.addQuestion) && Trim(b.addQuestion.value) != []
  }

  /** Step 1 of PUT, on the database the earlier steps left (`None` once one failed). */
  function FieldsStepRun(d: Option<Db>, b: PutBody, id: Id, fault: Option<PutStep>): (r: Option<Db>)
    ensures r.Some? ==> d.Some? && r.value.vendors == d.value.vendors && r.value.users == d.value.users && r.value.ratings == d.value.ratings
  {
    if d.None? || !UpdatesFields(b) then d
    else if fault == Some(FieldsStep) then None
    else
      match UpdateFields(d.value.segments, id, b.name, b.weight)
      case None => None
      case Some(ss) => Some(d.value.(segments := ss))
  }

  /** Step 2 of PUT. */
  function AddQuestionStepRun(d: Option<Db>, b: PutBody, id: Id, newQuestionId: Id, fault: Option<PutStep>): (r: Option<Db>)
    ensures r.Some? ==> d.Some? && r.value.vendors == d.value.vendors && r.value.users == d.value.users && r.value.ratings == d.value.ratings
  {
    if d.None? || !AddsQuestion(b) then d
    else if fault == Some(AddQuestionStep) then None
    else CreateQuestion(d.value, QuestionRow(newQuestionId, b.addQuestion.value, id))
  }

  /** Step 3 of PUT. */
  function DeleteQuestionStepRun(d: Option<Db>, b: PutBody, fault: Option<PutStep>): (r: Option<Db>)
    ensures r.Some? ==> d.Some? && r.value.vendors == d.value.vendors && r.value.users == d.value.users && r.value.ratings == d.value.ratings
  {
    if d.None? || !Truthy(b.deleteQuestionId) then d
    else if fault == Some(DeleteQuestionStep) then None
    else DeleteQuestionById(d.value, b.deleteQuestionId.value)
  }

  /** `PUT`: the three steps run in order; the first that fails answers 500 and
      leaves the database as the steps before it left it. */
  function Put(db: Db, b: PutBody, newQuestionId: Id, fault: Option<PutStep>): (r: Reply)
    ensures !Truthy(b.segmentId) ==> r == Reply(StatusBadRequest, db)
    ensures r.status in {StatusOk, StatusBadRequest, StatusServerError}
    ensures r.db.vendors == db.vendors && r.db.users == db.users && r.db.ratings == db.ratings
  {
    if !Truthy(b.segmentId) then Reply(StatusBadRequest, db)
    else
      var id := b.segmentId.value;
      var s1 := FieldsStepRun(Some(db), b, id, fault);
      var s2 := AddQuestionStepRun(s1, b, id, newQuestionId, fault);
      var s3 := DeleteQuestionStepRun(s2, b, fault);
      if s3.Some? then Reply(StatusOk, s3.value)
      else if s2.Some? then Reply(StatusServerError, s2.value)
      else if s1.Some? then Reply(StatusServerError, s1.value)
      else Reply(StatusServerError, db)
  }

  // ---------------------------------------------------------------------------
  // DELETE

  /** The database statements of DELETE, in the order they run. */
  datatype DeleteStep = QuestionsStep | SegmentStep

  /** `question.deleteMany({ where: { segmentId } })`. */
  function QuestionsNotOf(qs: seq<QuestionRow>, segmentId: Id): (r: seq<QuestionRow>)
    ensures Seqs.SubList(r, qs)
    ensures forall q :: q in r <==> q in qs && q.segmentId != segmentId
  {
    Seqs.Filter(qs, (q: QuestionRow) => q.segmentId != segmentId)
  }

  /** `segment.delete({ where: { id } })`, once the segment is known to exist. */
  function SegmentsWithout(ss: seq<SegmentRow>, id: Id): (r: seq<SegmentRow>)
    ensures Seqs.SubList(r, ss)
    ensures forall s :: s in r <==> s in ss && s.id != id
  {
    Seqs.Filter(ss, (s: SegmentRow) => s.id != id)
  }

  /** `DELETE`: removes the segment's questions, then the segment; a failure in the
      second step leaves the questions deleted. */
  function Delete(db: Db, segmentId: JsValue<Id>, fault: Option<DeleteStep>): (r: Reply)
    ensures !Truthy(segmentId) ==> r == Reply(StatusBadRequest, db)
    ensures r.status in {StatusOk, StatusBadRequest, StatusServerError}
    ensures r.db.vendors == db.vendors && r.db.users == db.users && r.db.ratings == db.ratings
  {
    if !Truthy(segmentId) then Reply(StatusBadRequest, db)
    else if fault == Some(QuestionsStep) then Reply(StatusServerError, db)
    else
      var id := segmentId.value;
      var d := db.(questions := QuestionsNotOf(db.questions, id));
      if fault == Some(SegmentStep) || id !in SegmentIds(d.segments) then Reply(StatusServerError, d)
      else Reply(StatusOk, d.(segments := SegmentsWithout(d.segments, id)))
  }

  // ---------------------------------------------------------------------------
  // Properties

  /** A zero weight is stored as 1; any other sent weight is stored as sent. */
  lemma WeightOrOneMeaning(w: JsValue<real>)
    ensures WeightOrOne(w) != 0.0
    ensures w == Defined(0.0) || !w.Defined? <==> WeightOrOne(w) == 1.0 && w != Defined(1.0)
  {
  }

  /** A name that is not blank is stored exactly as sent, surrounding
      whitespace included: only the check trims. */
  lemma PostKeepsNameUntrimmed(db: Db, name: string, newId: Id)
    requires !IsBlank(name) && newId !in SegmentIds(db.segments)
    ensures var r := Post(db, PostBody(Defined(name), Undefined), newId, false);
      r.status == StatusOk && r.db.segments[|r.db.segments| - 1] == SegmentRow(newId, name, 1.0)
  {
    TrimEmptyIffBlank(name);
  }

  /** A blank name creates nothing. */
  lemma PostRejectsBlankName(db: Db, name: string, w: JsValue<real>, newId: Id, fault: bool)
    requires IsBlank(name)
    ensures Post(db, PostBody(Defined(name), w), newId, fault) == Reply(StatusBadRequest, db)
  {
    TrimEmptyIffBlank(name);
  }

  /** A PUT that only carries fields changes nothing but that segment's name and
      weight: fields left undefined keep their values, any weight is accepted,
      and no question is touched. */
  lemma PutFieldsOnly(db: Db, id: Id, name: JsValue<string>, weight: JsValue<real>, newQuestionId: Id)
    requires id != [] && id in SegmentIds(db.segments)
    requires !name.Null? && !weight.Null?
    requires Truthy(name) || weight.Defined?
    ensures var r := Put(db, PutBody(Defined(id), name, weight, Undefined, Undefined), newQuestionId, None);
      && r.status == StatusOk
      && r.db.questions == db.questions
      && |r.db.segments| == |db.segments|
      && forall i :: 0 <= i < |db.segments| ==>
           r.db.segments[i] == (if db.segments[i].id == id
                                then SegmentRow(id, Patch(db.segments[i].name, name), Patch(db.segments[i].weight, weight))
                                else db.segments[i])
  {
  }

  /** `name: ""` with a weight sets the stored name to the empty string. */
  lemma PutEmptyNameWithWeight(db: Db, id: Id, w: real, newQuestionId: Id)
    requires id != [] && id in SegmentIds(db.segments)
    ensures var r := Put(db, PutBody(Defined(id), Defined(""), Defined(w), Undefined, Undefined), newQuestionId, None);
      r.status == StatusOk && forall i :: 0 <= i < |r.db.segments| && r.db.segments[i].id == id ==> r.db.segments[i].name == ""
  {
  }

  /** A PUT that only adds a question appends it, text untrimmed, when the text has
      non-blank content; a blank text adds nothing. */
  lemma PutAddsQuestion(db: Db, id: Id, text: string, newQuestionId: Id)
    requires id != [] && id in SegmentIds(db.segments) && newQuestionId !in QuestionIds(db.questions)
    ensures var r := Put(db, PutBody(Defined(id), Undefined, Undefined, Defined(text), Undefined), newQuestionId, None);
      && r.status == StatusOk
      && r.db.segments == db.segments
      && r.db.questions == (if IsBlank(text) then db.questions else db.questions + [QuestionRow(newQuestionId, text, id)])
  {
    var b := PutBody(Defined(id), Undefined, Undefined, Defined(text), Undefined);
    TrimEmptyIffBlank(text);
    assert AddsQuestion(b) <==> !IsBlank(text);
    var s1 := FieldsStepRun(Some(db), b, id, None);
    assert s1 == Some(db);
    var s2 := AddQuestionStepRun(s1, b, id, newQuestionId, None);
    if AddsQuestion(b) {
      assert s2 == Some(db.(questions := db.questions + [QuestionRow(newQuestionId, text, id)]));
    } else {
      assert s2 == Some(db);
    }
    assert DeleteQuestionStepRun(s2, b, None) == s2;
  }

  /** A question is deleted by id alone: a PUT naming segment `a` deletes a question
      of segment `b`. */
  lemma PutDeletesForeignQuestion(db: Db, a: Id, q: QuestionRow, newQuestionId: Id)
    requires a != [] && q.id != [] && q.segmentId != a
    requires q in db.questions && Distinct(QuestionIds(db.questions))
    ensures var r := Put(db, PutBody(Defined(a), Undefined, Undefined, Undefined, Defined(q.id)), newQuestionId, None);
      r.status == StatusOk && q !in r.db.questions
  {
    var i :| 0 <= i < |db.questions| && db.questions[i] == q;
    assert QuestionIds(db.questions)[i] == q.id;
  }

  /** PUT is not transactional: when the delete step fails, the field update before
      it persists. */
  lemma PutKeepsEarlierSteps(db: Db, id: Id, w: real, missing: Id, newQuestionId: Id)
    requires id != [] && id in SegmentIds(db.segments)
    requires missing != [] && missing !in QuestionIds(db.questions)
    ensures var r := Put(db, PutBody(Defined(id), Undefined, Defined(w), Undefined, Defined(missing)), newQuestionId, None);
      && r.status == StatusServerError
      && r.db == db.(segments := UpdateFields(db.segments, id, Undefined, Defined(w)).value)
  {
  }

  /** A successful DELETE leaves exactly the other segments and the questions of
      other segments, in their order. */
  lemma DeleteRemovesSegmentAndQuestions(db: Db, id: Id)
    requires id != [] && id in SegmentIds(db.segments)
    ensures var r := Delete(db, Defined(id), None);
      && r.status == StatusOk
      && Seqs.SubList(r.db.segments, db.segments) && Seqs.SubList(r.db.questions, db.questions)
      && (forall s :: s in r.db.segments <==> s in db.segments && s.id != id)
      && (forall q :: q in r.db.questions <==> q in db.questions && q.segmentId != id)
  {
  }

  /** DELETE is not transactional: when the segment step fails the questions stay deleted. */
  lemma DeleteKeepsQuestionsDeleted(db: Db, id: Id)
    requires id != [] && id in SegmentIds(db.segments)
    ensures var r := Delete(db, Defined(id), Some(SegmentStep));
      && r.status == StatusServerError
      && r.db.segments == db.segments
      && forall q :: q in r.db.questions <==> q in db.questions && q.segmentId != id
  {
  }

  /** A created segment keeps the database constraints. */
  lemma PostPreservesValid(db: Db, body: PostBody, newId: Id, fault: bool)
    requires Valid(db)
    ensures Valid(Post(db, body, newId, fault).db)
  {
    var r := Post(db, body, newId, fault);
    if r.status == StatusOk {
      SegmentAppendValid(db, SegmentRow(newId, body.name.value, WeightOrOne(body.weight)));
    }
  }

  /** The field update keeps the database constraints. */
  lemma FieldsStepPreservesValid(db: Db, b: PutBody, id: Id, fault: Option<PutStep>)
    requires Valid(db)
    ensures var r := FieldsStepRun(Some(db), b, id, fault); r.Some? ==> Valid(r.value)
  {
  }

  /** Adding a question keeps the database constraints. */
  lemma AddQuestionStepPreservesValid(db: Db, b: PutBody, id: Id, newQuestionId: Id, fault: Option<PutStep>)
    requires Valid(db)
    ensures var r := AddQuestionStepRun(Some(db), b, id, newQuestionId, fault); r.Some? ==> Valid(r.value)
  {
    var r := AddQuestionStepRun(Some(db), b, id, newQuestionId, fault);
    if r.Some? && AddsQuestion(b) && fault != Some(AddQuestionStep) {
      QuestionAppendValid(db, QuestionRow(newQuestionId, b.addQuestion.value, id));
    }
  }

  /** Deleting a question keeps the database constraints. */
  lemma DeleteQuestionStepPreservesValid(db: Db, b: PutBody, fault: Option<PutStep>)
    requires Valid(db)
    ensures var r := DeleteQuestionStepRun(Some(db), b, fault); r.Some? ==> Valid(r.value)
  {
    var r := DeleteQuestionStepRun(Some(db), b, fault);
    if r.Some? && r.value != db {
      SubListKeepsQuestionIdsDistinct(r.value.questions, db.questions);
      forall i | 0 <= i < |r.value.questions|
        ensures r.value.questions[i].segmentId in SegmentIds(r.value.segments)
      {
        assert r.value.questions[i] in db.questions;
      }
    }
  }

  /** PUT keeps the database constraints, whether it succeeds or stops part-way. */
  lemma PutPreservesValid(db: Db, b: PutBody, newQuestionId: Id, fault: Option<PutStep>)
    requires Valid(db)
    ensures Valid(Put(db, b, newQuestionId, fault).db)
  {
    if Truthy(b.segmentId) {
      var id := b.segmentId.value;
      var s1 := FieldsStepRun(Some(db), b, id, fault);
      FieldsStepPreservesValid(db, b, id, fault);
      if s1.Some? {
        AddQuestionStepPreservesValid(s1.value, b, id, newQuestionId, fault);
        var s2 := AddQuestionStepRun(s1, b, id, newQuestionId, fault);
        if s2.Some? {
          DeleteQuestionStepPreservesValid(s2.value, b, fault);
        }
      }
    }
  }

  /** DELETE keeps the database constraints, whether it succeeds or stops after
      deleting the questions. */
  lemma DeletePreservesValid(db: Db, segmentId: JsValue<Id>, fault: Option<DeleteStep>)
    requires Valid(db)
    ensures Valid(Delete(db, segmentId, fault).db)
  {
    if Truthy(segmentId) && fault != Some(QuestionsStep) {
      var id := segmentId.value;
      var qs := QuestionsNotOf(db.questions, id);
      SubListKeepsQuestionIdsDistinct(qs, db.questions);
      var r := Delete(db, segmentId, fault);
      if r.status == StatusOk {
        var ss := SegmentsWithout(db.segments, id);
        SubListKeepsSegmentIdsDistinct(ss, db.segments);
        RemovalKeepsReferences(db, id);
        assert r.db == db.(questions := qs, segments := ss);
      } else {
        QuestionRemovalKeepsReferences(db, id);
        assert r.db == db.(questions := qs);
      }
    }
  }

  /** Removing questions leaves every remaining question's segment in place. */
  lemma QuestionRemovalKeepsReferences(db: Db, id: Id)
    requires Valid(db)
    ensures var qs := QuestionsNotOf(db.questions, id);
      forall i :: 0 <= i < |qs| ==> qs[i].segmentId in SegmentIds(db.segments)
  {
    var qs := QuestionsNotOf(db.questions, id);
    forall i | 0 <= i < |qs|
      ensures qs[i].segmentId in SegmentIds(db.segments)
    {
      assert qs[i] in db.questions;
    }
  }

  /** Removing a segment together with its questions leaves every remaining
      question's segment in place. */
  lemma RemovalKeepsReferences(db: Db, id: Id)
    requires Valid(db)
    ensures var qs := QuestionsNotOf(db.questions, id);
      var ss := SegmentsWithout(db.segments, id);
      forall i :: 0 <= i < |qs| ==> qs[i].segmentId in SegmentIds(ss)
  {
    var qs := QuestionsNotOf(db.questions, id);
    var ss := SegmentsWithout(db.segments, id);
    forall i | 0 <= i < |qs|
      ensures qs[i].segmentId in SegmentIds(ss)
    {
      var q := qs[i];
      assert q in db.questions;
      var k :| 0 <= k < |db.questions| && db.questions[k] == q;
      RemainingSegmentKept(db.segments, id, q.segmentId);
    }
  }

  /** A segment id other than the removed one survives the removal. */
  lemma RemainingSegmentKept(ss: seq<SegmentRow>, id: Id, segmentId: Id)
    requires segmentId in SegmentIds(ss) && segmentId != id
    ensures segmentId in SegmentIds(SegmentsWithout(ss, id))
  {
    var rest := SegmentsWithout(ss, id);
    var j :| 0 <= j < |ss| && SegmentIds(ss)[j] == segmentId;
    assert ss[j] in rest;
    var m :| 0 <= m < |rest| && rest[m] == ss[j];
    assert SegmentIds(rest)[m] == segmentId;
  }
}
