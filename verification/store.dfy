/**
 The database the route handlers read and write, as immutable tables.

 Each table is a sequence of rows in insertion order with unique ids; the
 rating table is a map keyed by the unique pair (vendorId, questionId) that
 the bulk-save upsert names `vendorId_questionId`. Every rating also has a
 nullable `userId` column, which the PDF handler filters on and which the
 upserts never set.
 */
module Store {
  import opened Basics
  import Seqs

  datatype Vendor = Vendor(
    id: Id,
    name: string,
    company: Option<string>,
    email: Option<string>,
    createdAt: Timestamp,
    lastEvaluatedById: Option<Id>,
    lastEvaluatedAt: Option<Timestamp>)

  datatype User = User(id: Id, name: string, email: string, password: string)

  datatype SegmentRow = SegmentRow(id: Id, name: string, weight: real)

  datatype QuestionRow = QuestionRow(id: Id, text: string, segmentId: Id)

  /** The unique key of a rating: (vendorId, questionId). */
  type RatingKey = (Id, Id)

  datatype RatingRow = RatingRow(vendorId: Id, questionId: Id, userId: Option<Id>, score: real, comment: string)

  datatype Db = Db(
    vendors: seq<Vendor>,
    users: seq<User>,
    segments: seq<SegmentRow>,
    questions: seq<QuestionRow>,
    ratings: map<RatingKey, RatingRow>)

  /** What a handler returns: the HTTP status and the database it leaves. */
  datatype Reply = Reply(status: int, db: Db)

  function VendorIds(vs: seq<Vendor>): (ids: seq<Id>)
    ensures |ids| == |vs| && forall i :: 0 <= i < |vs| ==> ids[i] == vs[i].id
  {
    seq(|vs|, i requires 0 <= i < |vs| => vs[i].id)
  }

  function UserIds(us: seq<User>): (ids: seq<Id>)
    ensures |ids| == |us| && forall i :: 0 <= i < |us| ==> ids[i] == us[i].id
  {
    seq(|us|, i requires 0 <= i < |us| => us[i].id)
  }

  function UserEmails(us: seq<User>): (emails: seq<string>)
    ensures |emails| == |us| && forall i :: 0 <= i < |us| ==> emails[i] == us[i].email
  {
    seq(|us|, i requires 0 <= i < |us| => us[i].email)
  }

  function SegmentIds(ss: seq<SegmentRow>): (ids: seq<Id>)
    ensures |ids| == |ss| && forall i :: 0 <= i < |ss| ==> ids[i] == ss[i].id
  {
    seq(|ss|, i requires 0 <= i < |ss| => ss[i].id)
  }

  function QuestionIds(qs: seq<QuestionRow>): (ids: seq<Id>)
    ensures |ids| == |qs| && forall i :: 0 <= i < |qs| ==> ids[i] == qs[i].id
  {
    seq(|qs|, i requires 0 <= i < |qs| => qs[i].id)
  }

  /** No value occurs twice. */
  predicate Distinct<T(==)>(xs: seq<T>) {
    forall i, j :: 0 <= i < j < |xs| ==> xs[i] != xs[j]
  }

  /** Every rating row sits under its own (vendorId, questionId) key. */
  predicate RatingsKeyed(ratings: map<RatingKey, RatingRow>) {
    forall k :: k in ratings ==> ratings[k].vendorId == k.0 && ratings[k].questionId == k.1
  }

  /** The constraints the database keeps: unique primary keys, unique user
      emails, the question-to-segment foreign key and the rating key. */
  predicate Valid(db: Db) {
    && Distinct(VendorIds(db.vendors))
    && Distinct(UserIds(db.users))
    && Distinct(UserEmails(db.users))
    && Distinct(SegmentIds(db.segments))
    && Distinct(QuestionIds(db.questions))
    && (forall i :: 0 <= i < |db.questions| ==> db.questions[i].segmentId in SegmentIds(db.segments))
    && RatingsKeyed(db.ratings)
  }

  /** Appending a value not yet present keeps a sequence free of repeats. */
  lemma DistinctAppend<T>(xs: seq<T>, x: T)
    requires Distinct(xs) && x !in xs
    ensures Distinct(xs + [x])
  {
  }

  /** A new segment with a fresh id keeps the database constraints. */
  lemma SegmentAppendValid(db: Db, row: SegmentRow)
    requires Valid(db) && row.id !in SegmentIds(db.segments)
    ensures Valid(db.(segments := db.segments + [row]))
  {
    var ids := SegmentIds(db.segments + [row]);
    assert ids == SegmentIds(db.segments) + [row.id];
    DistinctAppend(SegmentIds(db.segments), row.id);
    forall i | 0 <= i < |db.questions|
      ensures db.questions[i].segmentId in ids
    {
      assert db.questions[i].segmentId in SegmentIds(db.segments);
    }
  }

  /** A new question with a fresh id and an existing segment keeps the database constraints. */
  lemma QuestionAppendValid(db: Db, q: QuestionRow)
    requires Valid(db) && q.id !in QuestionIds(db.questions) && q.segmentId in SegmentIds(db.segments)
    ensures Valid(db.(questions := db.questions + [q]))
  {
    var qs := db.questions + [q];
    assert QuestionIds(qs) == QuestionIds(db.questions) + [q.id];
    DistinctAppend(QuestionIds(db.questions), q.id);
    forall i | 0 <= i < |qs|
      ensures qs[i].segmentId in SegmentIds(db.segments)
    {
      if i < |db.questions| {
        assert qs[i] == db.questions[i];
      }
    }
  }

  /** The id and email columns of a user table with one more row. */
  lemma UsersAppend(us: seq<User>, u: User)
    ensures UserIds(us + [u]) == UserIds(us) + [u.id]
    ensures UserEmails(us + [u]) == UserEmails(us) + [u.email]
  {
  }

  /** Removing rows keeps segment ids unique. */
  lemma SubListKeepsSegmentIdsDistinct(r: seq<SegmentRow>, s: seq<SegmentRow>)
    requires Seqs.SubList(r, s) && Distinct(SegmentIds(s))
    ensures Distinct(SegmentIds(r))
  {
    Seqs.SubListKeysDistinct(r, s, (x: SegmentRow) => x.id);
  }

  /** Removing rows keeps question ids unique. */
  lemma SubListKeepsQuestionIdsDistinct(r: seq<QuestionRow>, s: seq<QuestionRow>)
    requires Seqs.SubList(r, s) && Distinct(QuestionIds(s))
    ensures Distinct(QuestionIds(r))
  {
    Seqs.SubListKeysDistinct(r, s, (x: QuestionRow) => x.id);
  }

  /** `findUnique` on the vendor table. */
  function FindVendor(vs: seq<Vendor>, id: Id): (r: Option<Vendor>)
    ensures r.None? <==> id !in VendorIds(vs)
    ensures r.Some? ==> r.value in vs && r.value.id == id
    decreases |vs|
  {
    if vs == [] then None
    else if vs[0].id == id then Some(vs[0])
    else FindVendor(vs[1..], id)
  }

  /** The questions whose foreign key names `segmentId`, in table order. */
  function QuestionsOf(qs: seq<QuestionRow>, segmentId: Id): (r: seq<QuestionRow>)
    ensures forall q :: q in r <==> q in qs && q.segmentId == segmentId
  {
    Seqs.Filter(qs, (q: QuestionRow) => q.segmentId == segmentId)
  }

  /** The order `orderBy: { name: "asc" }` sorts by, taken as the lexicographic
      order of character codes. */
  predicate NameLe(a: string, b: string)
    decreases |a|
  {
    a == [] || (b != [] && (a[0] < b[0] || (a[0] == b[0] && NameLe(a[1..], b[1..]))))
  }

  lemma {:induction false} NameLeTotal(a: string, b: string)
    ensures NameLe(a, b) || NameLe(b, a)
    decreases |a|
  {
    if a != [] && b != [] && a[0] == b[0] {
      NameLeTotal(a[1..], b[1..]);
    }
  }

  lemma {:induction false} NameLeTransitive(a: string, b: string, c: string)
    requires NameLe(a, b) && NameLe(b, c)
    ensures NameLe(a, c)
    decreases |a|
  {
    if a != [] && b != [] && c != [] && a[0] == b[0] && b[0] == c[0] {
      NameLeTransitive(a[1..], b[1..], c[1..]);
    }
  }

  /** Segments ordered by name ascending. */
  predicate SegmentNameLe(x: SegmentRow, y: SegmentRow) {
    NameLe(x.name, y.name)
  }

  lemma SegmentNameOrder()
    ensures Seqs.Total(SegmentNameLe) && Seqs.Transitive(SegmentNameLe)
  {
    forall x: SegmentRow, y: SegmentRow
      ensures SegmentNameLe(x, y) || SegmentNameLe(y, x)
    {
      NameLeTotal(x.name, y.name);
    }
    forall x: SegmentRow, y: SegmentRow, z: SegmentRow | SegmentNameLe(x, y) && SegmentNameLe(y, z)
      ensures SegmentNameLe(x, z)
    {
      NameLeTransitive(x.name, y.name, z.name);
    }
  }

  /** `segment.findMany({ orderBy: { name: "asc" } })`. */
  function SegmentsByName(ss: seq<SegmentRow>): (r: seq<SegmentRow>)
    ensures multiset(r) == multiset(ss)
    ensures forall i, j :: 0 <= i < j < |r| ==> NameLe(r[i].name, r[j].name)
  {
    SegmentNameOrder();
    Seqs.Sort(ss, SegmentNameLe)
  }
}
