/**
 The evaluation page: the per-question rating map it keeps for the selected
 vendor, the default shown for an unrated question, the slider and comment
 updates with their autosave request, and the "Save Evaluation" request set.

 Requests are data here; sending them is left to the caller.
 */
module EvaluatePage {
  import opened Basics
  import opened Js

  /** A rating as the ratings endpoint returns it. */
  datatype LoadedRating = LoadedRating(questionId: Id, score: real, comment: JsValue<string>)

  /** A rating as the page keeps it. */
  datatype ClientRating = ClientRating(questionId: Id, score: real, comment: string)

  /** The body of a POST to the per-vendor ratings endpoint, with the vendor of its URL. */
  datatype SaveRequest = SaveRequest(vendorId: string, questionId: Id, score: real, comment: string)

  datatype PageState = PageState(selectedVendorId: string, ratings: map<Id, ClientRating>)

  // ---------------------------------------------------------------------------
  // Loading

  /** The entry `loadRatingsForVendor` builds for one loaded rating: `comment || ""`. */
  function Entry(r: LoadedRating): ClientRating {
    ClientRating(r.questionId, r.score, OrEmpty(r.comment))
  }

  /** The question ids of the loaded ratings. */
  function LoadedIds(data: seq<LoadedRating>): set<Id> {
    set i | 0 <= i < |data| :: data[i].questionId
  }

  /** `data.forEach(r => formatted[r.questionId] = …)`: later ratings of a question
      overwrite earlier ones. */
  function RatingMap(data: seq<LoadedRating>): (m: map<Id, ClientRating>)
    ensures m.Keys == LoadedIds(data)
    ensures forall k :: k in m ==> m[k].questionId == k
    decreases |data|
  {
    if data == [] then map[]
    else
      var n := |data| - 1;
      var m := RatingMap(data[..n]);
      assert LoadedIds(data) == LoadedIds(data[..n]) + {data[n].questionId} by {
        forall k | k in LoadedIds(data) ensures k in LoadedIds(data[..n]) + {data[n].questionId} {
          var i :| 0 <= i < |data| && data[i].questionId == k;
          if i < n { assert data[..n][i] == data[i]; }
        }
        forall k | k in LoadedIds(data[..n]) ensures k in LoadedIds(data) {
          var i :| 0 <= i < n && data[..n][i].questionId == k;
          assert data[i] == data[..n][i];
        }
      }
      m[data[n].questionId := Entry(data[n])]
  }

  /** `data[i]` is the last loaded rating of its question. */
  predicate LastLoaded(data: seq<LoadedRating>, i: int) {
    0 <= i < |data| && forall j :: i < j < |data| ==> data[j].questionId != data[i].questionId
  }

  /** Each question maps to the entry of its last loaded rating. */
  lemma {:induction false} RatingMapLastWins(data: seq<LoadedRating>, i: int)
    requires LastLoaded(data, i)
    ensures RatingMap(data)[data[i].questionId] == Entry(data[i])
    decreases |data|
  {
    var n := |data| - 1;
    assert RatingMap(data) == RatingMap(data[..n])[data[n].questionId := Entry(data[n])];
    if i < n {
      assert data[..n][i] == data[i];
      assert LastLoaded(data[..n], i) by {
        forall j | i < j < n ensures data[..n][j].questionId != data[..n][i].questionId {
          assert data[..n][j] == data[j];
        }
      }
      RatingMapLastWins(data[..n], i);
      assert data[n].questionId != data[i].questionId;
    }
  }

  /** A loaded null or empty comment shows as "". */
  lemma NullCommentBecomesEmpty(data: seq<LoadedRating>, i: int)
    requires LastLoaded(data, i) && !Truthy(data[i].comment)
    ensures RatingMap(data)[data[i].questionId].comment == ""
  {
    RatingMapLastWins(data, i);
  }

  // ---------------------------------------------------------------------------
  // Editing

  /** `ratings[q.id] || { questionId: q.id, score: 0, comment: "" }`. */
  function Current(m: map<Id, ClientRating>, qid: Id): (r: ClientRating)
    ensures qid in m ==> r == m[qid]
    ensures qid !in m ==> r == ClientRating(qid, 0.0, "")
  {
    if qid in m then m[qid] else ClientRating(qid, 0.0, "")
  }

  /** `saveRating`: nothing is sent while no vendor is selected. */
  function SaveRating(selectedVendorId: string, qid: Id, score: real, comment: string): (r: Option<SaveRequest>)
    ensures r.None? <==> selectedVendorId == ""
    ensures r.Some? ==> r.value == SaveRequest(selectedVendorId, qid, score, comment)
  {
    if selectedVendorId == "" then None else Some(SaveRequest(selectedVendorId, qid, score, comment))
  }

  /** The slider of question `qid` moved to `score`: the entry takes the new score
      and keeps the comment shown so far; the change is autosaved. */
  function SliderChange(st: PageState, qid: Id, score: real): (r: (PageState, Option<SaveRequest>))
    ensures r.0.selectedVendorId == st.selectedVendorId
    ensures r.0.ratings.Keys == st.ratings.Keys + {qid}
    ensures forall k :: k in st.ratings && k != qid ==> r.0.ratings[k] == st.ratings[k]
    ensures r.0.ratings[qid] == ClientRating(qid, score, Current(st.ratings, qid).comment)
    ensures r.1 == SaveRating(st.selectedVendorId, qid, score, r.0.ratings[qid].comment)
  {
    var current := Current(st.ratings, qid);
    var entry := ClientRating(qid, score, current.comment);
    (st.(ratings := st.ratings[qid := entry]), SaveRating(st.selectedVendorId, qid, score, current.comment))
  }

  /** The comment of question `qid` changed: the entry takes the new comment and
      keeps the score shown so far; the change is autosaved. */
  function CommentChange(st: PageState, qid: Id, comment: string): (r: (PageState, Option<SaveRequest>))
    ensures r.0.selectedVendorId == st.selectedVendorId
    ensures r.0.ratings.Keys == st.ratings.Keys + {qid}
    ensures forall k :: k in st.ratings && k != qid ==> r.0.ratings[k] == st.ratings[k]
    ensures r.0.ratings[qid] == ClientRating(qid, Current(st.ratings, qid).score, comment)
    ensures r.1 == SaveRating(st.selectedVendorId, qid, r.0.ratings[qid].score, comment)
  {
    var current := Current(st.ratings, qid);
    var entry := ClientRating(qid, current.score, comment);
    (st.(ratings := st.ratings[qid := entry]), SaveRating(st.selectedVendorId, qid, current.score, comment))
  }

  /** The request "Save Evaluation" sends for one entry. */
  function RequestFor(selectedVendorId: string, r: ClientRating): SaveRequest {
    SaveRequest(selectedVendorId, r.questionId, r.score, r.comment)
  }

  /** Every entry of the page's rating map has its request among `reqs`. */
  predicate CoversEntries(st: PageState, reqs: seq<SaveRequest>) {
    forall k :: k in st.ratings ==> RequestFor(st.selectedVendorId, st.ratings[k]) in reqs
  }

  /** `req` is the request of some entry of the page's rating map. */
  predicate FromEntry(st: PageState, req: SaveRequest) {
    exists k :: k in st.ratings && req == RequestFor(st.selectedVendorId, st.ratings[k])
  }

  /** `for (const qid in ratings)`: one request per entry of the map, in an order
      the model leaves open, and none for questions never touched. No vendor
      check is made. */
  method SaveAllRequests(st: PageState) returns (reqs: seq<SaveRequest>)
    ensures |reqs| == |st.ratings|
    ensures CoversEntries(st, reqs)
    ensures forall i :: 0 <= i < |reqs| ==> FromEntry(st, reqs[i])
  {
    var todo := st.ratings.Keys;
    ghost var sent: seq<Id> := [];
    reqs := [];
    while todo != {}
      invariant todo <= st.ratings.Keys && |reqs| + |todo| == |st.ratings|
      invariant Sent(st, st.ratings.Keys - todo, sent, reqs)
      decreases |todo|
    {
      var k :| k in todo;
      SendStep(st, todo, sent, reqs, k);
      todo := todo - {k};
      sent := sent + [k];
      reqs := reqs + [RequestFor(st.selectedVendorId, st.ratings[k])];
    }
    assert st.ratings.Keys - todo == st.ratings.Keys;
    SentCoversAll(st, sent, reqs);
    SentFromEntries(st, st.ratings.Keys, sent, reqs);
  }

  /** What the request loop keeps: one request per key of `done`, in the order of
      `sent`, each built from that key's entry. */
  ghost predicate Sent(st: PageState, done: set<Id>, sent: seq<Id>, reqs: seq<SaveRequest>) {
    && done <= st.ratings.Keys
    && |reqs| == |sent|
    && (forall i :: 0 <= i < |sent| ==> sent[i] in done && reqs[i] == RequestFor(st.selectedVendorId, st.ratings[sent[i]]))
    && (forall k :: k in done ==> k in sent)
  }

  /** Sending the entry of one more key keeps the loop's invariant. */
  lemma SendStep(st: PageState, todo: set<Id>, sent: seq<Id>, reqs: seq<SaveRequest>, k: Id)
    requires Sent(st, st.ratings.Keys - todo, sent, reqs)
    requires todo <= st.ratings.Keys && k in todo
    ensures Sent(st, st.ratings.Keys - (todo - {k}), sent + [k], reqs + [RequestFor(st.selectedVendorId, st.ratings[k])])
  {
    assert st.ratings.Keys - (todo - {k}) == (st.ratings.Keys - todo) + {k};
  }

  /** Once every key is sent, each entry has its request. */
  lemma SentCoversAll(st: PageState, sent: seq<Id>, reqs: seq<SaveRequest>)
    requires Sent(st, st.ratings.Keys, sent, reqs)
    ensures CoversEntries(st, reqs)
  {
    forall k | k in st.ratings
      ensures RequestFor(st.selectedVendorId, st.ratings[k]) in reqs
    {
      var i :| 0 <= i < |sent| && sent[i] == k;
      assert reqs[i] == RequestFor(st.selectedVendorId, st.ratings[k]);
    }
  }

  /** Every request comes from an entry. */
  lemma SentFromEntries(st: PageState, done: set<Id>, sent: seq<Id>, reqs: seq<SaveRequest>)
    requires Sent(st, done, sent, reqs)
    ensures forall i :: 0 <= i < |reqs| ==> FromEntry(st, reqs[i])
  {
    forall i | 0 <= i < |reqs|
      ensures FromEntry(st, reqs[i])
    {
      var k := sent[i];
      assert k in st.ratings && reqs[i] == RequestFor(st.selectedVendorId, st.ratings[k]);
    }
  }

  // ---------------------------------------------------------------------------
  // Properties

  /** A slider change on an unrated question starts from an empty comment. */
  lemma SliderOnUnratedKeepsEmptyComment(st: PageState, qid: Id, score: real)
    requires qid !in st.ratings
    ensures SliderChange(st, qid, score).0.ratings[qid] == ClientRating(qid, score, "")
  {
  }

  /** A slider change followed by a comment change on the same question keeps both. */
  lemma SliderThenComment(st: PageState, qid: Id, score: real, comment: string)
    ensures CommentChange(SliderChange(st, qid, score).0, qid, comment).0.ratings[qid] == ClientRating(qid, score, comment)
  {
  }

  /** After a slider change, any request list that covers the page's entries, as
      "Save Evaluation" sends, carries the question's new score with the comment
      shown, for the selected vendor. */
  lemma SliderChangeIsSavedByAll(st: PageState, qid: Id, score: real, reqs: seq<SaveRequest>)
    requires CoversEntries(SliderChange(st, qid, score).0, reqs)
    ensures SaveRequest(st.selectedVendorId, qid, score, Current(st.ratings, qid).comment) in reqs
  {
    var st2 := SliderChange(st, qid, score).0;
    assert qid in st2.ratings;
  }

  /** Autosave sends nothing while no vendor is selected, whatever the edit. */
  lemma NoAutosaveWithoutVendor(st: PageState, qid: Id, score: real, comment: string)
    requires st.selectedVendorId == ""
    ensures SliderChange(st, qid, score).1.None?
    ensures CommentChange(st, qid, comment).1.None?
  {
  }
}
