/**
 The computed content of the vendor evaluation report: per-segment averages,
 the weighted final score and the per-question details list.

 Scores and weights are exact reals; the two-decimal formatting of the
 rendered document is not part of the model.
 */
module Scoring {
  import opened Basics

  datatype Question = Question(id: Id, text: string)

  datatype Segment = Segment(id: Id, name: string, weight: real, questions: seq<Question>)

  /** A rating as handed to the report: the comment column may be null. */
  datatype Rating = Rating(questionId: Id, score: real, comment: Option<string>)

  datatype ReportVendor = ReportVendor(name: string, company: Option<string>, email: Option<string>)

  /** One line of the summary box: `name: Avg avg × Weight weight = weighted`. */
  datatype SegmentSummary = SegmentSummary(id: Id, name: string, avg: real, weight: real, weighted: real)

  /** One question of the details section: its text, displayed score and displayed comment. */
  datatype DetailLine = DetailLine(segmentId: Id, questionId: Id, text: string, score: real, comment: string)

  datatype Report = Report(
    vendorName: string,
    company: string,
    email: string,
    finalScore: real,
    summaries: seq<SegmentSummary>,
    details: seq<DetailLine>)

  /** No rating in `ratings` is about question `qid`. */
  predicate Unrated(ratings: seq<Rating>, qid: Id) {
    forall i :: 0 <= i < |ratings| ==> ratings[i].questionId != qid
  }

  /** `ratings[i]` is the first rating about question `qid`. */
  predicate FirstFor(ratings: seq<Rating>, qid: Id, i: int) {
    0 <= i < |ratings| && ratings[i].questionId == qid
    && forall j :: 0 <= j < i ==> ratings[j].questionId != qid
  }

  /** `ratings.find((x) => x.questionId === qid)`. */
  function FindRating(ratings: seq<Rating>, qid: Id): (r: Option<Rating>)
    ensures r.None? <==> Unrated(ratings, qid)
    ensures r.Some? ==> exists i :: FirstFor(ratings, qid, i) && ratings[i] == r.value
    decreases |ratings|
  {
    if ratings == [] then None
    else if ratings[0].questionId == qid then (assert FirstFor(ratings, qid, 0); Some(ratings[0]))
    else
      var r := FindRating(ratings[1..], qid);
      assert forall i :: FirstFor(ratings[1..], qid, i) ==> FirstFor(ratings, qid, i + 1);
      r
  }

  /** `r?.score ?? 0`: the score of the first rating for the question, 0 when it has none. */
  function QuestionScore(ratings: seq<Rating>, qid: Id): (r: real)
    ensures Unrated(ratings, qid) ==> r == 0.0
    ensures forall i :: FirstFor(ratings, qid, i) ==> r == ratings[i].score
  {
    var found := FindRating(ratings, qid);
    if found.Some? then
      assert forall i, j :: FirstFor(ratings, qid, i) && FirstFor(ratings, qid, j) ==> i == j;
      found.value.score
    else 0.0
  }

  /** `segRatings`: one score per question of the segment, in question order. */
  function Scores(seg: Segment, ratings: seq<Rating>): (r: seq<real>)
    ensures |r| == |seg.questions|
    ensures forall j :: 0 <= j < |r| ==> r[j] == QuestionScore(ratings, seg.questions[j].id)
  {
    seq(|seg.questions|, j requires 0 <= j < |seg.questions| => QuestionScore(ratings, seg.questions[j].id))
  }

  /** `xs.reduce((a, b) => a + b, 0)`. */
  function Sum(xs: seq<real>): real
    decreases |xs|
  {
    if xs == [] then 0.0 else xs[0] + Sum(xs[1..])
  }

  /** `n > 0 ? total / n : 0`, the guarded division of both the average and the
      final score. */
  function Quotient(total: real, n: real): (q: real)
    ensures n > 0.0 ==> q == total / n
    ensures n <= 0.0 ==> q == 0.0
  {
    if n > 0.0 then total / n else 0.0
  }

  /** The segment's `avg`: mean of its question scores, 0 for a segment without questions. */
  function SegmentAverage(seg: Segment, ratings: seq<Rating>): (avg: real)
    ensures |seg.questions| == 0 ==> avg == 0.0
    ensures |seg.questions| > 0 ==> avg == Sum(Scores(seg, ratings)) / (|seg.questions| as real)
  {
    Quotient(Sum(Scores(seg, ratings)), |seg.questions| as real)
  }

  /** The summary of one segment: its average, and that average times its weight. */
  function Summarize(seg: Segment, ratings: seq<Rating>): SegmentSummary {
    SegmentSummary(seg.id, seg.name, SegmentAverage(seg, ratings), seg.weight, Weighted(SegmentAverage(seg, ratings), seg.weight))
  }

  /** `avg * weight`. */
  function Weighted(avg: real, weight: real): real {
    avg * weight
  }

  /** `segmentSummaries`: one summary per segment, in input order. */
  function Summaries(segs: seq<Segment>, ratings: seq<Rating>): (r: seq<SegmentSummary>)
    ensures |r| == |segs|
    ensures forall i :: 0 <= i < |segs| ==> r[i] == Summarize(segs[i], ratings)
  {
    seq(|segs|, i requires 0 <= i < |segs| => Summarize(segs[i], ratings))
  }

  /** `totalWeight`: the sum of the summaries' weights. */
  function TotalWeight(sums: seq<SegmentSummary>): real
    decreases |sums|
  {
    if sums == [] then 0.0 else sums[0].weight + TotalWeight(sums[1..])
  }

  /** `weightedSum`: the sum of the summaries' `avg × weight`. */
  function WeightedSum(sums: seq<SegmentSummary>): real
    decreases |sums|
  {
    if sums == [] then 0.0 else sums[0].weighted + WeightedSum(sums[1..])
  }

  /** `finalScore`: the weighted mean of the segment averages, 0 when the total weight is not positive. */
  function FinalScore(segs: seq<Segment>, ratings: seq<Rating>): (r: real)
    ensures var sums := Summaries(segs, ratings);
      && (TotalWeight(sums) > 0.0 ==> r == WeightedSum(sums) / TotalWeight(sums))
      && (TotalWeight(sums) <= 0.0 ==> r == 0.0)
  {
    var sums := Summaries(segs, ratings);
    Quotient(WeightedSum(sums), TotalWeight(sums))
  }

  /** The displayed comment: `r?.comment || "-"`. */
  function DisplayComment(r: Option<Rating>): string {
    if r.Some? && r.value.comment.Some? && r.value.comment.value != "" then r.value.comment.value else "-"
  }

  /** The details entry of question `q` of segment `seg`: `r?.score ?? 0` and `r?.comment || "-"`. */
  function DetailFor(seg: Segment, q: Question, ratings: seq<Rating>): DetailLine {
    DetailLine(seg.id, q.id, q.text, QuestionScore(ratings, q.id), DisplayComment(FindRating(ratings, q.id)))
  }

  /** A question's details line names the question and shows the score and non-empty
      comment of its first rating, or 0 and "-" when it has none. */
  lemma DetailForMeaning(seg: Segment, q: Question, ratings: seq<Rating>)
    ensures var line := DetailFor(seg, q, ratings);
      && line.segmentId == seg.id && line.questionId == q.id && line.text == q.text
      && (Unrated(ratings, q.id) ==> line.score == 0.0 && line.comment == "-")
      && forall i :: FirstFor(ratings, q.id, i) ==>
        && line.score == ratings[i].score
        && line.comment == (if ratings[i].comment.Some? && ratings[i].comment.value != "" then ratings[i].comment.value else "-")
  {
    var r := FindRating(ratings, q.id);
    assert forall i, j :: FirstFor(ratings, q.id, i) && FirstFor(ratings, q.id, j) ==> i == j;
  }

  /** Number of questions over all segments. */
  function QuestionCount(segs: seq<Segment>): nat
    decreases |segs|
  {
    if segs == [] then 0 else |segs[0].questions| + QuestionCount(segs[1..])
  }

  /** Number of questions in the segments before segment `i`. */
  function Before(segs: seq<Segment>, i: nat): nat
    requires i <= |segs|
    decreases i
  {
    if i == 0 then 0 else |segs[0].questions| + Before(segs[1..], i - 1)
  }

  /** The lines of one segment's questions, in question order. */
  function SegmentDetails(seg: Segment, ratings: seq<Rating>): (r: seq<DetailLine>)
    ensures |r| == |seg.questions|
    ensures forall j :: 0 <= j < |r| ==> r[j] == DetailFor(seg, seg.questions[j], ratings)
  {
    seq(|seg.questions|, j requires 0 <= j < |seg.questions| => DetailFor(seg, seg.questions[j], ratings))
  }

  /** The details section: every question of every segment, segment by segment. */
  function Details(segs: seq<Segment>, ratings: seq<Rating>): (r: seq<DetailLine>)
    ensures |r| == QuestionCount(segs)
    decreases |segs|
  {
    if segs == [] then [] else SegmentDetails(segs[0], ratings) + Details(segs[1..], ratings)
  }

  /** The report body: vendor header with "N/A" defaults, final score, summaries and details. */
  function VendorReport(vendor: ReportVendor, segs: seq<Segment>, ratings: seq<Rating>): (r: Report)
    ensures r.vendorName == vendor.name
    ensures r.company == (if vendor.company.Some? && vendor.company.value != "" then vendor.company.value else "N/A")
    ensures r.email == (if vendor.email.Some? && vendor.email.value != "" then vendor.email.value else "N/A")
    ensures r.finalScore == FinalScore(segs, ratings)
    ensures r.summaries == Summaries(segs, ratings)
    ensures r.details == Details(segs, ratings)
  {
    Report(
      vendor.name,
      if vendor.company.Some? && vendor.company.value != "" then vendor.company.value else "N/A",
      if vendor.email.Some? && vendor.email.value != "" then vendor.email.value else "N/A",
      FinalScore(segs, ratings),
      Summaries(segs, ratings),
      Details(segs, ratings))
  }

  // ---------------------------------------------------------------------------
  // Properties of the score

  /** A sum of n values in [0, 10] lies between 0 and 10·n. */
  lemma {:induction false} SumBounds(xs: seq<real>)
    requires forall k :: 0 <= k < |xs| ==> 0.0 <= xs[k] <= 10.0
    ensures 0.0 <= Sum(xs) <= 10.0 * (|xs| as real)
    decreases |xs|
  {
    if xs != [] {
      SumBounds(xs[1..]);
    }
  }

  /** Every rating's score lies in [0, 10]. */
  predicate ScoresInRange(ratings: seq<Rating>) {
    forall i :: 0 <= i < |ratings| ==> 0.0 <= ratings[i].score <= 10.0
  }

  /** A quotient of a value in [0, 10·n] by a positive `n` lies in [0, 10]. */
  lemma QuotientBounds(s: real, n: real)
    requires n > 0.0 && 0.0 <= s <= 10.0 * n
    ensures 0.0 <= s / n <= 10.0
  {
    var q := s / n;
    assert q * n == s;
    assert (10.0 - q) * n == 10.0 * n - s;
  }

  /** With scores in [0, 10], every displayed question score lies in [0, 10]. */
  lemma QuestionScoreInRange(ratings: seq<Rating>, qid: Id)
    requires ScoresInRange(ratings)
    ensures 0.0 <= QuestionScore(ratings, qid) <= 10.0
  {
    var found := FindRating(ratings, qid);
    if found.Some? {
      var i :| FirstFor(ratings, qid, i) && ratings[i] == found.value;
    }
  }

  /** With scores in [0, 10], a segment's average lies in [0, 10]. */
  lemma SegmentAverageInRange(seg: Segment, ratings: seq<Rating>)
    requires ScoresInRange(ratings)
    ensures 0.0 <= SegmentAverage(seg, ratings) <= 10.0
  {
    var xs := Scores(seg, ratings);
    forall k | 0 <= k < |xs|
      ensures 0.0 <= xs[k] <= 10.0
    {
      QuestionScoreInRange(ratings, seg.questions[k].id);
    }
    SumBounds(xs);
    if |xs| > 0 {
      QuotientBounds(Sum(xs), |xs| as real);
    }
  }

  /** With every summary's weighted average between 0 and 10 × its non-negative
      weight, the weighted sum lies between 0 and 10 × the total weight. */
  lemma {:induction false} WeightedSumBounds(sums: seq<SegmentSummary>)
    requires forall k :: 0 <= k < |sums| ==>
      sums[k].weight >= 0.0 && 0.0 <= sums[k].weighted <= 10.0 * sums[k].weight
    ensures 0.0 <= WeightedSum(sums) <= 10.0 * TotalWeight(sums)
    ensures TotalWeight(sums) >= 0.0
    decreases |sums|
  {
    if sums != [] {
      WeightedSumBounds(sums[1..]);
    }
  }

  /** An average in [0, 10] times a non-negative weight lies between 0 and 10 × the weight. */
  lemma ProductBounds(avg: real, w: real)
    requires 0.0 <= avg <= 10.0 && w >= 0.0
    ensures 0.0 <= Weighted(avg, w) <= 10.0 * w
  {
    MulNonNegative(avg, w);
    MulNonNegative(10.0 - avg, w);
    assert 10.0 * w - avg * w == (10.0 - avg) * w;
  }

  /** A product of two non-negative reals is non-negative. */
  lemma MulNonNegative(a: real, b: real)
    requires a >= 0.0 && b >= 0.0
    ensures a * b >= 0.0
  {
    if a > 0.0 && b > 0.0 {
      assert a * b > 0.0;
    }
  }

  /** With scores in [0, 10], the summary of a positively weighted segment has its
      average in [0, 10] and a weighted average between 0 and 10 × its weight. */
  lemma SummarizeInRange(seg: Segment, ratings: seq<Rating>)
    requires ScoresInRange(ratings) && seg.weight > 0.0
    ensures var s := Summarize(seg, ratings);
      0.0 <= s.avg <= 10.0 && s.weight > 0.0 && 0.0 <= s.weighted <= 10.0 * s.weight
  {
    SegmentAverageInRange(seg, ratings);
    ProductBounds(SegmentAverage(seg, ratings), seg.weight);
  }

  /** A positive weight on every segment makes the total weight positive, unless there are no segments. */
  lemma {:induction false} TotalWeightPositive(sums: seq<SegmentSummary>)
    requires sums != []
    requires forall k :: 0 <= k < |sums| ==> sums[k].weight > 0.0
    ensures TotalWeight(sums) > 0.0
    decreases |sums|
  {
    if |sums| > 1 {
      TotalWeightPositive(sums[1..]);
    }
  }

  /** With every score in [0, 10] and every weight positive, the final score lies in [0, 10]. */
  lemma FinalScoreInRange(segs: seq<Segment>, ratings: seq<Rating>)
    requires ScoresInRange(ratings)
    requires forall i :: 0 <= i < |segs| ==> segs[i].weight > 0.0
    ensures 0.0 <= FinalScore(segs, ratings) <= 10.0
  {
    var sums := Summaries(segs, ratings);
    SummariesInRange(segs, ratings);
    WeightedSumBounds(sums);
    if segs != [] {
      TotalWeightPositive(sums);
      QuotientBounds(WeightedSum(sums), TotalWeight(sums));
    }
  }

  /** With scores in [0, 10] and positive weights, every summary has its average in
      [0, 10], a positive weight, and a weighted average between 0 and 10 × its weight. */
  lemma SummariesInRange(segs: seq<Segment>, ratings: seq<Rating>)
    requires ScoresInRange(ratings)
    requires forall i :: 0 <= i < |segs| ==> segs[i].weight > 0.0
    ensures var sums := Summaries(segs, ratings);
      forall k :: 0 <= k < |sums| ==>
        0.0 <= sums[k].avg <= 10.0 && sums[k].weight > 0.0 && 0.0 <= sums[k].weighted <= 10.0 * sums[k].weight
  {
    var sums := Summaries(segs, ratings);
    forall k | 0 <= k < |sums|
      ensures 0.0 <= sums[k].avg <= 10.0 && sums[k].weight > 0.0 && 0.0 <= sums[k].weighted <= 10.0 * sums[k].weight
    {
      SummarizeInRange(segs[k], ratings);
    }
  }

  /** With one positively weighted segment the final score is that segment's average, whatever the weight. */
  lemma SingleSegmentFinalIsAverage(seg: Segment, ratings: seq<Rating>)
    requires seg.weight > 0.0
    ensures FinalScore([seg], ratings) == SegmentAverage(seg, ratings)
  {
    assert [seg][0] == seg;
    assert Summaries([seg], ratings) == [Summarize(seg, ratings)];
    QuotientOfOne(seg, SegmentAverage(seg, ratings));
  }

  /** The totals of the single summary of a positively weighted segment divide back
      to its average. */
  lemma QuotientOfOne(seg: Segment, avg: real)
    requires seg.weight > 0.0
    ensures var s := SegmentSummary(seg.id, seg.name, avg, seg.weight, Weighted(avg, seg.weight));
      TotalWeight([s]) == seg.weight && WeightedSum([s]) / TotalWeight([s]) == avg
  {
    var s := SegmentSummary(seg.id, seg.name, avg, seg.weight, Weighted(avg, seg.weight));
    assert [s][1..] == [];
  }

  /** Weights 1 and 3 over averages 10 and 0 give a final score of 2.5;
      the second segment's only question has no rating and counts as 0. */
  lemma WeightedExample()
    ensures
      var a := Segment("a", "Delivery", 1.0, [Question("q1", "On time?")]);
      var b := Segment("b", "Quality", 3.0, [Question("q2", "Defect free?")]);
      FinalScore([a, b], [Rating("q1", 10.0, None)]) == 2.5
  {
    var a := Segment("a", "Delivery", 1.0, [Question("q1", "On time?")]);
    var b := Segment("b", "Quality", 3.0, [Question("q2", "Defect free?")]);
    var ratings := [Rating("q1", 10.0, None)];
    assert FirstFor(ratings, "q1", 0);
    assert Unrated(ratings, "q2");
    assert Scores(a, ratings) == [10.0];
    assert Scores(b, ratings) == [0.0];
    var sums := Summaries([a, b], ratings);
    assert sums[1..][1..] == [];
    assert TotalWeight(sums[1..]) == 3.0;
    assert WeightedSum(sums[1..]) == 0.0;
    assert TotalWeight(sums) == 4.0;
    assert WeightedSum(sums) == 10.0;
  }

  // ---------------------------------------------------------------------------
  // Properties of the details section

  /** `Before` counts the questions of the segments ahead of segment `i`. */
  lemma {:induction false} BeforeMonotone(segs: seq<Segment>, i: nat)
    requires i < |segs|
    ensures Before(segs, i) + |segs[i].questions| == Before(segs, i + 1)
    ensures Before(segs, i + 1) <= QuestionCount(segs)
    decreases i
  {
    if i > 0 {
      BeforeMonotone(segs[1..], i - 1);
    }
  }

  /** Question `j` of segment `i` is listed at position `Before(segs, i) + j` of the details,
      rated or not. */
  lemma {:induction false} DetailsPosition(segs: seq<Segment>, ratings: seq<Rating>, i: nat, j: nat)
    requires i < |segs| && j < |segs[i].questions|
    ensures Before(segs, i) + j < |Details(segs, ratings)|
    ensures Details(segs, ratings)[Before(segs, i) + j] == DetailFor(segs[i], segs[i].questions[j], ratings)
    decreases i
  {
    if i == 0 {
      DetailsHead(segs, ratings, j);
    } else {
      assert segs[1..][i - 1] == segs[i];
      DetailsPosition(segs[1..], ratings, i - 1, j);
      DetailsTail(segs, ratings, Before(segs[1..], i - 1) + j);
    }
  }

  /** The first segment's lines open the details. */
  lemma DetailsHead(segs: seq<Segment>, ratings: seq<Rating>, j: nat)
    requires segs != [] && j < |segs[0].questions|
    ensures j < |Details(segs, ratings)|
    ensures Details(segs, ratings)[j] == DetailFor(segs[0], segs[0].questions[j], ratings)
  {
    var head := SegmentDetails(segs[0], ratings);
    IndexHead(head, Details(segs[1..], ratings), j);
  }

  /** After the first segment's lines come the lines of the remaining segments. */
  lemma DetailsTail(segs: seq<Segment>, ratings: seq<Rating>, k: nat)
    requires segs != [] && k < |Details(segs[1..], ratings)|
    ensures |segs[0].questions| + k < |Details(segs, ratings)|
    ensures Details(segs, ratings)[|segs[0].questions| + k] == Details(segs[1..], ratings)[k]
  {
    var head := SegmentDetails(segs[0], ratings);
    IndexTail(head, Details(segs[1..], ratings), k);
  }

  /** Indexing the left part of a concatenation. */
  lemma IndexHead<T>(a: seq<T>, b: seq<T>, k: nat)
    requires k < |a|
    ensures (a + b)[k] == a[k]
  {
  }

  /** Indexing the right part of a concatenation. */
  lemma IndexTail<T>(a: seq<T>, b: seq<T>, k: nat)
    requires k < |b|
    ensures (a + b)[|a| + k] == b[k]
  {
  }

  /** Position `k` of the details holds question `j` of segment `i`. */
  predicate PositionOf(segs: seq<Segment>, k: int, i: int, j: int) {
    0 <= i < |segs| && 0 <= j < |segs[i].questions| && k == Before(segs, i) + j
  }

  /** Every line of the details section is the line of some question of some segment. */
  lemma {:induction false} DetailsLineOrigin(segs: seq<Segment>, ratings: seq<Rating>, k: nat)
    requires k < |Details(segs, ratings)|
    ensures exists i, j :: PositionOf(segs, k, i, j)
    decreases |segs|
  {
    var n := |segs[0].questions|;
    if k < n {
      assert PositionOf(segs, k, 0, k);
    } else {
      DetailsLineOrigin(segs[1..], ratings, k - n);
      var i, j :| PositionOf(segs[1..], k - n, i, j);
      assert segs[1..][i] == segs[i + 1];
      assert PositionOf(segs, k, i + 1, j);
    }
  }

  /** Every line of the details section belongs to exactly one (segment, question) position:
      positions of different questions never collide, so no question is listed twice
      and none is left out. */
  lemma DetailsListEachQuestionOnce(segs: seq<Segment>, ratings: seq<Rating>, i1: nat, j1: nat, i2: nat, j2: nat)
    requires i1 < |segs| && j1 < |segs[i1].questions|
    requires i2 < |segs| && j2 < |segs[i2].questions|
    requires (i1, j1) != (i2, j2)
    ensures Before(segs, i1) + j1 != Before(segs, i2) + j2
  {
    if i1 < i2 {
      BeforeStrict(segs, i1, i2);
    } else if i2 < i1 {
      BeforeStrict(segs, i2, i1);
    }
  }

  /** Every question of segment `i1` is positioned before every question of a later segment `i2`. */
  lemma {:induction false} BeforeStrict(segs: seq<Segment>, i1: nat, i2: nat)
    requires i1 < i2 < |segs|
    ensures Before(segs, i1) + |segs[i1].questions| <= Before(segs, i2)
    decreases i2 - i1
  {
    BeforeMonotone(segs, i1);
    if i1 + 1 < i2 {
      BeforeStrict(segs, i1 + 1, i2);
      BeforeMonotone(segs, i1 + 1);
    }
  }
}
