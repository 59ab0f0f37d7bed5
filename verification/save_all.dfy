/**
 `POST /api/ratings/saveAll`: a bulk upsert of one vendor's ratings, keyed by
 (vendorId, questionId), followed by stamping the vendor with the evaluator,
 all inside one all-or-nothing transaction.

 The handler builds one upsert statement per item of `ratings`, appends the
 vendor update, and hands the list to the transaction. A statement that fails
 (an item without a question id or without a score, an unknown vendor, or a
 database error at a given statement) aborts the transaction: no upsert and no
 stamp persists, and the unhandled error becomes a 500 response.
 */
module SaveAll {
  import opened Basics
  import opened Js
  import opened Store

  /** One element of the `ratings` array of the request body. */
  datatype RatingInput = RatingInput(questionId: JsValue<Id>, score: JsValue<real>, comment: JsValue<string>)

  /** The request body; any `ratings` value that is not an array is `Undefined` or `Null`. */
  datatype Body = Body(vendorId: JsValue<Id>, ratings: JsValue<seq<RatingInput>>)

  /** A statement of the transaction. */
  datatype Statement =
    | Upsert(vendorId: Id, questionId: JsValue<Id>, score: JsValue<real>, comment: string)
    | StampVendor(vendorId: Id, userId: Id, at: Timestamp)

  /** The row an upsert leaves under `key`: an existing row keeps its other
      columns and takes the new score and comment; otherwise a new row with no user. */
  function Upserted(ratings: map<RatingKey, RatingRow>, key: RatingKey, score: real, comment: string): RatingRow {
    if key in ratings then ratings[key].(score := score, comment := comment)
    else RatingRow(key.0, key.1, None, score, comment)
  }

  /** `vendor.update`: sets the evaluator stamp of the vendor with id `vendorId`. */
  function Stamp(vendors: seq<Vendor>, vendorId: Id, userId: Id, at: Timestamp): (r: seq<Vendor>)
    ensures |r| == |vendors| && VendorIds(r) == VendorIds(vendors)
    ensures forall i :: 0 <= i < |r| && vendors[i].id != vendorId ==> r[i] == vendors[i]
    ensures forall i :: 0 <= i < |r| && vendors[i].id == vendorId ==>
      r[i] == vendors[i].(lastEvaluatedById := Some(userId), lastEvaluatedAt := Some(at))
  {
    seq(|vendors|, i requires 0 <= i < |vendors| =>
      if vendors[i].id == vendorId
      then vendors[i].(lastEvaluatedById := Some(userId), lastEvaluatedAt := Some(at))
      else vendors[i])
  }

  /** Executes one statement; `None` when the database rejects it. */
  function Execute(db: Db, st: Statement): Option<Db> {
    match st
    case Upsert(vendorId, questionId, score, comment) =>
      if !questionId.Defined? || !score.Defined? then None
      else
        var key := (vendorId, questionId.value);
        Some(db.(ratings := db.ratings[key := Upserted(db.ratings, key, score.value, comment)]))
    case StampVendor(vendorId, userId, at) =>
      if vendorId !in VendorIds(db.vendors) then None
      else Some(db.(vendors := Stamp(db.vendors, vendorId, userId, at)))
  }

  /** Runs the statements in order; `None` as soon as one fails or statement number `fault` is reached. */
  function Run(db: Db, sts: seq<Statement>, fault: Option<nat>): Option<Db>
    decreases |sts|
  {
    if sts == [] then Some(db)
    else
      match Run(db, sts[..|sts| - 1], fault)
      case None => None
      case Some(d) =>
        if fault == Some(|sts| - 1) then None else Execute(d, sts[|sts| - 1])
  }

  /** `$transaction([...])`: all statements take effect, or the database is left as it was. */
  function Transaction(db: Db, sts: seq<Statement>, fault: Option<nat>): (r: (bool, Db))
    ensures !r.0 ==> r.1 == db
  {
    match Run(db, sts, fault)
    case Some(d) => (true, d)
    case None => (false, db)
  }

  /** `ratings.map(...)`: one upsert per item, keyed by (vendorId, questionId), with `comment ?? ""`. */
  function UpsertStatements(vendorId: Id, items: seq<RatingInput>): (r: seq<Statement>)
    ensures |r| == |items|
    ensures forall i :: 0 <= i < |items| ==>
      r[i] == Upsert(vendorId, items[i].questionId, items[i].score, OrEmptyIfNullish(items[i].comment))
  {
    seq(|items|, i requires 0 <= i < |items| =>
      Upsert(vendorId, items[i].questionId, items[i].score, OrEmptyIfNullish(items[i].comment)))
  }

  /** The statement list of the transaction: the upserts, then the vendor stamp. */
  function Statements(vendorId: Id, items: seq<RatingInput>, userId: Id, now: Timestamp): seq<Statement> {
    UpsertStatements(vendorId, items) + [StampVendor(vendorId, userId, now)]
  }

  /** The handler. `session` is `session?.user?.id`, `now` the `new Date()` of the
      stamp, `fault` a database error raised at that statement of the transaction. */
  function Handle(db: Db, session: JsValue<Id>, body: Body, now: Timestamp, fault: Option<nat>): (r: Reply)
    ensures !Truthy(session) ==> r == Reply(StatusUnauthorized, db)
    ensures Truthy(session) && (!Truthy(body.vendorId) || !body.ratings.Defined?) ==> r == Reply(StatusBadRequest, db)
    ensures r.status == StatusOk || r.db == db
    ensures r.status in {StatusOk, StatusBadRequest, StatusUnauthorized, StatusServerError}
  {
    if !Truthy(session) then Reply(StatusUnauthorized, db)
    else if !Truthy(body.vendorId) || !body.ratings.Defined? then Reply(StatusBadRequest, db)
    else
      var t := Transaction(db, Statements(body.vendorId.value, body.ratings.value, session.value, now), fault);
      if t.0 then Reply(StatusOk, t.1) else Reply(StatusServerError, db)
  }

  // ---------------------------------------------------------------------------
  // What a successful save does

  /** Every item names a question and carries a score: the two values the upsert
      needs, without which the database rejects the statement. */
  predicate AllComplete(items: seq<RatingInput>) {
    forall i :: 0 <= i < |items| ==> items[i].questionId.Defined? && items[i].score.Defined?
  }

  /** The keys the request writes. */
  function RequestKeys(vendorId: Id, items: seq<RatingInput>): set<RatingKey> {
    set i | 0 <= i < |items| && items[i].questionId.Defined? :: (vendorId, items[i].questionId.value)
  }

  /** `items[i]` is the last item about its question. */
  predicate LastFor(items: seq<RatingInput>, i: int) {
    0 <= i < |items| && forall j :: i < j < |items| ==> items[j].questionId != items[i].questionId
  }

  /** `after` is `before` with the items upserted in order: the request's keys
      added, every other key untouched, and each requested key holding the last
      item about its question. */
  ghost predicate UpsertedAll(before: map<RatingKey, RatingRow>, after: map<RatingKey, RatingRow>, vendorId: Id, items: seq<RatingInput>) {
    && AllComplete(items)
    && after.Keys == before.Keys + RequestKeys(vendorId, items)
    && (forall k :: k in before && k !in RequestKeys(vendorId, items) ==> after[k] == before[k])
    && (forall i :: LastFor(items, i) ==>
          after[(vendorId, items[i].questionId.value)]
          == Upserted(before, (vendorId, items[i].questionId.value), items[i].score.value, OrEmptyIfNullish(items[i].comment)))
  }

  /** Every item has a last item about the same question at or after it. */
  lemma {:induction false} HasLast(items: seq<RatingInput>, i: int)
    requires 0 <= i < |items|
    ensures exists j :: i <= j && LastFor(items, j) && items[j].questionId == items[i].questionId
    decreases |items| - i
  {
    if !LastFor(items, i) {
      var j :| i < j < |items| && items[j].questionId == items[i].questionId;
      HasLast(items, j);
    }
  }

  /** The keys of `items + [it]` are those of `items` and the key of `it`. */
  lemma RequestKeysSnoc(vendorId: Id, items: seq<RatingInput>, it: RatingInput)
    requires it.questionId.Defined?
    ensures RequestKeys(vendorId, items + [it]) == RequestKeys(vendorId, items) + {(vendorId, it.questionId.value)}
  {
    var all := items + [it];
    forall k | k in RequestKeys(vendorId, all)
      ensures k in RequestKeys(vendorId, items) + {(vendorId, it.questionId.value)}
    {
      var i :| 0 <= i < |all| && all[i].questionId.Defined? && k == (vendorId, all[i].questionId.value);
      if i < |items| {
        assert all[i] == items[i];
      }
    }
    forall k | k in RequestKeys(vendorId, items)
      ensures k in RequestKeys(vendorId, all)
    {
      var i :| 0 <= i < |items| && items[i].questionId.Defined? && k == (vendorId, items[i].questionId.value);
      assert all[i] == items[i];
    }
    assert all[|items|] == it;
  }

  /** Upserting once more over a row an earlier upsert produced is the same as
      upserting over the original table. */
  lemma UpsertOverUpserted(before: map<RatingKey, RatingRow>, mid: map<RatingKey, RatingRow>, vendorId: Id,
                           items: seq<RatingInput>, key: RatingKey, score: real, comment: string)
    requires UpsertedAll(before, mid, vendorId, items)
    ensures Upserted(mid, key, score, comment) == Upserted(before, key, score, comment)
  {
    if key in RequestKeys(vendorId, items) {
      var i :| 0 <= i < |items| && items[i].questionId.Defined? && key == (vendorId, items[i].questionId.value);
      HasLast(items, i);
    }
  }

  /** One more upsert extends `UpsertedAll` by one item. */
  lemma UpsertedAllSnoc(before: map<RatingKey, RatingRow>, mid: map<RatingKey, RatingRow>, vendorId: Id,
                        items: seq<RatingInput>, it: RatingInput)
    requires UpsertedAll(before, mid, vendorId, items)
    requires it.questionId.Defined? && it.score.Defined?
    ensures var key := (vendorId, it.questionId.value);
      UpsertedAll(before, mid[key := Upserted(mid, key, it.score.value, OrEmptyIfNullish(it.comment))], vendorId, items + [it])
  {
    var key := (vendorId, it.questionId.value);
    var after := mid[key := Upserted(mid, key, it.score.value, OrEmptyIfNullish(it.comment))];
    var all := items + [it];
    RequestKeysSnoc(vendorId, items, it);
    UpsertOverUpserted(before, mid, vendorId, items, key, it.score.value, OrEmptyIfNullish(it.comment));
    assert AllComplete(all) by {
      forall i | 0 <= i < |all| ensures all[i].questionId.Defined? && all[i].score.Defined? {
        if i < |items| { assert all[i] == items[i]; }
      }
    }
    forall i | LastFor(all, i)
      ensures after[(vendorId, all[i].questionId.value)]
          == Upserted(before, (vendorId, all[i].questionId.value), all[i].score.value, OrEmptyIfNullish(all[i].comment))
    {
      if i < |items| {
        assert all[|items|] == it;
        assert all[i] == items[i];
        assert LastFor(items, i) by {
          forall j | i < j < |items| ensures items[j].questionId != items[i].questionId {
            assert all[j] == items[j];
          }
        }
      }
    }
  }

  /** Running the upserts alone succeeds exactly when every item names a question
      and carries a score and no fault is raised among them; it changes nothing but the ratings. */
  lemma {:induction false} UpsertsSucceed(db: Db, vendorId: Id, items: seq<RatingInput>, fault: Option<nat>)
    ensures Run(db, UpsertStatements(vendorId, items), fault).Some?
      <==> AllComplete(items) && !(fault.Some? && fault.value < |items|)
    ensures Run(db, UpsertStatements(vendorId, items), fault).Some? ==>
      var d := Run(db, UpsertStatements(vendorId, items), fault).value;
      d == db.(ratings := d.ratings)
    decreases |items|
  {
    var sts := UpsertStatements(vendorId, items);
    if items != [] {
      var n := |items| - 1;
      var init := items[..n];
      var it := items[n];
      assert items == init + [it];
      assert sts[..n] == UpsertStatements(vendorId, init);
      assert sts[n] == Upsert(vendorId, it.questionId, it.score, OrEmptyIfNullish(it.comment));
      UpsertsSucceed(db, vendorId, init, fault);
      InitIdentified(init, it);
    }
  }

  /** Successful upserts perform `UpsertedAll` on the rating table. */
  lemma {:induction false} RunUpserts(db: Db, vendorId: Id, items: seq<RatingInput>, fault: Option<nat>)
    requires Run(db, UpsertStatements(vendorId, items), fault).Some?
    ensures UpsertedAll(db.ratings, Run(db, UpsertStatements(vendorId, items), fault).value.ratings, vendorId, items)
    decreases |items|
  {
    var sts := UpsertStatements(vendorId, items);
    UpsertsSucceed(db, vendorId, items, fault);
    if items == [] {
      assert RequestKeys(vendorId, items) == {};
    } else {
      var n := |items| - 1;
      var init := items[..n];
      var it := items[n];
      assert items == init + [it];
      assert sts[..n] == UpsertStatements(vendorId, init);
      assert sts[n] == Upsert(vendorId, it.questionId, it.score, OrEmptyIfNullish(it.comment));
      var prev := Run(db, sts[..n], fault);
      assert prev.Some?;
      RunUpserts(db, vendorId, init, fault);
      InitIdentified(init, it);
      var key := (vendorId, it.questionId.value);
      var d := prev.value;
      assert Run(db, sts, fault) == Some(d.(ratings := d.ratings[key := Upserted(d.ratings, key, it.score.value, OrEmptyIfNullish(it.comment))]));
      UpsertedAllSnoc(db.ratings, d.ratings, vendorId, init, it);
    }
  }

  /** All of `init + [it]` are complete exactly when `init` is and `it` is. */
  lemma InitIdentified(init: seq<RatingInput>, it: RatingInput)
    ensures AllComplete(init + [it]) <==> AllComplete(init) && it.questionId.Defined? && it.score.Defined?
  {
    var all := init + [it];
    assert all[|init|] == it;
    assert forall i :: 0 <= i < |init| ==> all[i] == init[i];
  }

  /** A successful save upserts every item, keeps every other rating, stamps the
      vendor with the session user and `now` (even for an empty list), and
      touches no other table. */
  lemma SaveAllEffect(db: Db, session: JsValue<Id>, body: Body, now: Timestamp, fault: Option<nat>)
    ensures Handle(db, session, body, now, fault).status == StatusOk <==>
      && Truthy(session) && Truthy(body.vendorId) && body.ratings.Defined?
      && AllComplete(body.ratings.value)
      && body.vendorId.value in VendorIds(db.vendors)
      && !(fault.Some? && fault.value <= |body.ratings.value|)
    ensures Handle(db, session, body, now, fault).status == StatusOk ==>
      var d := Handle(db, session, body, now, fault).db;
      && UpsertedAll(db.ratings, d.ratings, body.vendorId.value, body.ratings.value)
      && d.vendors == Stamp(db.vendors, body.vendorId.value, session.value, now)
      && d.users == db.users && d.segments == db.segments && d.questions == db.questions
  {
    if Truthy(session) && Truthy(body.vendorId) && body.ratings.Defined? {
      var v := body.vendorId.value;
      var items := body.ratings.value;
      var sts := Statements(v, items, session.value, now);
      TransactionSucceeds(db, v, items, session.value, now, fault);
      assert Handle(db, session, body, now, fault).status == StatusOk <==> Run(db, sts, fault).Some?;
      if Run(db, sts, fault).Some? {
        UpsertsSucceed(db, v, items, fault);
        RunStatements(db, v, items, session.value, now, fault);
        RunUpserts(db, v, items, fault);
      }
    }
  }

  /** The transaction commits exactly when every item names a question and carries
      a score, the vendor exists and no fault is raised. */
  lemma TransactionSucceeds(db: Db, vendorId: Id, items: seq<RatingInput>, userId: Id, now: Timestamp, fault: Option<nat>)
    ensures Run(db, Statements(vendorId, items, userId, now), fault).Some? <==>
      AllComplete(items) && vendorId in VendorIds(db.vendors) && !(fault.Some? && fault.value <= |items|)
  {
    UpsertsSucceed(db, vendorId, items, fault);
    RunStatements(db, vendorId, items, userId, now, fault);
    var upserts := Run(db, UpsertStatements(vendorId, items), fault);
    if upserts.Some? {
      assert upserts.value.vendors == db.vendors;
    }
  }

  /** The transaction's statements run the upserts, then the stamp, unless the
      fault falls on the stamp. */
  lemma RunStatements(db: Db, vendorId: Id, items: seq<RatingInput>, userId: Id, now: Timestamp, fault: Option<nat>)
    ensures Run(db, UpsertStatements(vendorId, items), fault).None? ==>
      Run(db, Statements(vendorId, items, userId, now), fault).None?
    ensures Run(db, UpsertStatements(vendorId, items), fault).Some? ==>
      Run(db, Statements(vendorId, items, userId, now), fault) ==
        if fault == Some(|items|) then None
        else Execute(Run(db, UpsertStatements(vendorId, items), fault).value, StampVendor(vendorId, userId, now))
  {
    var sts := Statements(vendorId, items, userId, now);
    assert sts[..|sts| - 1] == UpsertStatements(vendorId, items);
    assert sts[|sts| - 1] == StampVendor(vendorId, userId, now);
  }

  /** An empty `ratings` array still stamps the vendor and leaves the ratings as they were. */
  lemma SaveAllEmptyListStamps(db: Db, userId: Id, vendorId: Id, items: seq<RatingInput>, now: Timestamp)
    requires userId != [] && vendorId != [] && vendorId in VendorIds(db.vendors) && items == []
    ensures var r := Handle(db, Defined(userId), Body(Defined(vendorId), Defined(items)), now, None);
      && r.status == StatusOk
      && r.db.ratings == db.ratings
      && r.db.vendors == Stamp(db.vendors, vendorId, userId, now)
  {
    var body := Body(Defined(vendorId), Defined(items));
    var r := Handle(db, Defined(userId), body, now, None);
    SaveAllEffect(db, Defined(userId), body, now, None);
    assert r.status == StatusOk;
    UpsertedNothing(db.ratings, r.db.ratings, vendorId, items);
  }

  /** Upserting no item leaves the rating table as it was. */
  lemma UpsertedNothing(before: map<RatingKey, RatingRow>, after: map<RatingKey, RatingRow>, vendorId: Id, items: seq<RatingInput>)
    requires UpsertedAll(before, after, vendorId, items) && items == []
    ensures after == before
  {
    assert RequestKeys(vendorId, items) == {};
  }

  /** All or nothing: whenever a statement fails — the vendor does not exist, or an
      item lacks its question id or score — no rating and no stamp persists. */
  lemma SaveAllAtomic(db: Db, session: JsValue<Id>, body: Body, now: Timestamp, fault: Option<nat>)
    requires Truthy(session) && Truthy(body.vendorId) && body.ratings.Defined?
    requires body.vendorId.value !in VendorIds(db.vendors) || !AllComplete(body.ratings.value)
      || (fault.Some? && fault.value <= |body.ratings.value|)
    ensures Handle(db, session, body, now, fault) == Reply(StatusServerError, db)
  {
    SaveAllEffect(db, session, body, now, fault);
  }

  /** Upserts never duplicate: repeating a successful request at the same time
      leaves the database as the first one left it. */
  lemma SaveAllIdempotent(db: Db, session: JsValue<Id>, body: Body, now: Timestamp)
    requires Handle(db, session, body, now, None).status == StatusOk
    ensures var d := Handle(db, session, body, now, None).db;
      Handle(d, session, body, now, None) == Reply(StatusOk, d)
  {
    var v := body.vendorId.value;
    var items := body.ratings.value;
    var d := Handle(db, session, body, now, None).db;
    SaveAllEffect(db, session, body, now, None);
    assert v in VendorIds(d.vendors);
    SaveAllEffect(d, session, body, now, None);
    var d2 := Handle(d, session, body, now, None).db;
    UpsertedAllTwice(db.ratings, d.ratings, d2.ratings, v, items);
    StampTwice(db.vendors, v, session.value, now);
  }

  /** Upserting the same items a second time changes no row. */
  lemma UpsertedAllTwice(before: map<RatingKey, RatingRow>, mid: map<RatingKey, RatingRow>, after: map<RatingKey, RatingRow>,
                         vendorId: Id, items: seq<RatingInput>)
    requires UpsertedAll(before, mid, vendorId, items) && UpsertedAll(mid, after, vendorId, items)
    ensures after == mid
  {
    forall k | k in after
      ensures after[k] == mid[k]
    {
      if k in RequestKeys(vendorId, items) {
        var i :| 0 <= i < |items| && items[i].questionId.Defined? && k == (vendorId, items[i].questionId.value);
        HasLast(items, i);
      }
    }
  }

  /** Stamping a vendor twice with the same user and time is stamping it once. */
  lemma StampTwice(vendors: seq<Vendor>, vendorId: Id, userId: Id, at: Timestamp)
    ensures Stamp(Stamp(vendors, vendorId, userId, at), vendorId, userId, at) == Stamp(vendors, vendorId, userId, at)
  {
  }

  /** Upserts never set the user column: a row the save creates has no user and a
      row it overwrites keeps its user. */
  lemma SaveAllRowsKeepUser(db: Db, session: JsValue<Id>, body: Body, now: Timestamp, fault: Option<nat>)
    requires Handle(db, session, body, now, fault).status == StatusOk
    ensures var d := Handle(db, session, body, now, fault).db;
      forall k :: k in d.ratings ==>
        d.ratings[k].userId == (if k in db.ratings then db.ratings[k].userId else None)
  {
    var v := body.vendorId.value;
    var items := body.ratings.value;
    var d := Handle(db, session, body, now, fault).db;
    SaveAllEffect(db, session, body, now, fault);
    forall k | k in d.ratings
      ensures d.ratings[k].userId == (if k in db.ratings then db.ratings[k].userId else None)
    {
      if k in RequestKeys(v, items) {
        var i :| 0 <= i < |items| && items[i].questionId.Defined? && k == (v, items[i].questionId.value);
        HasLast(items, i);
      }
    }
  }

  /** A successful save keeps the database constraints. */
  lemma SaveAllPreservesValid(db: Db, session: JsValue<Id>, body: Body, now: Timestamp, fault: Option<nat>)
    requires Valid(db)
    ensures Valid(Handle(db, session, body, now, fault).db)
  {
    var r := Handle(db, session, body, now, fault);
    if r.status == StatusOk {
      var v := body.vendorId.value;
      var items := body.ratings.value;
      SaveAllEffect(db, session, body, now, fault);
      forall k | k in r.db.ratings
        ensures r.db.ratings[k].vendorId == k.0 && r.db.ratings[k].questionId == k.1
      {
        if k in RequestKeys(v, items) {
          var i :| 0 <= i < |items| && items[i].questionId.Defined? && k == (v, items[i].questionId.value);
          HasLast(items, i);
        }
      }
    }
  }
}
