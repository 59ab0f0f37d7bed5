/**
 `/api/vendors`: list, create and delete vendors.

 None of the three handlers catches errors: a failing database call becomes
 the framework's 500 response. Deleting a vendor issues no statement on its
 ratings.
 */
module VendorsApi {
  import opened Basics
  import opened Js
  import opened Store
  import Seqs

  // ---------------------------------------------------------------------------
  // GET

  /** Newest first: `orderBy: { createdAt: "desc" }`. */
  predicate NewerOrSame(a: Vendor, b: Vendor) {
    a.createdAt >= b.createdAt
  }

  lemma NewerOrSameOrder()
    ensures Seqs.Total(NewerOrSame) && Seqs.Transitive(NewerOrSame)
  {
  }

  /** `GET`: every vendor once, newest first. */
  function List(db: Db): (r: seq<Vendor>)
    ensures multiset(r) == multiset(db.vendors)
    ensures forall i, j :: 0 <= i < j < |r| ==> r[i].createdAt >= r[j].createdAt
  {
    NewerOrSameOrder();
    Seqs.Sort(db.vendors, NewerOrSame)
  }

  // ---------------------------------------------------------------------------
  // POST

  datatype PostBody = PostBody(name: JsValue<string>, company: JsValue<string>, email: JsValue<string>)

  /** A nullable column written from a JSON field: `undefined` and `null` both store null. */
  function Column(x: JsValue<string>): (r: Option<string>)
    ensures r.Some? <==> x.Defined?
    ensures r.Some? ==> r.value == x.value
  {
    if x.Defined? then Some(x.value) else None
  }

  /** `POST`: a falsy name is 400; otherwise one new vendor, created at `now` and
      never evaluated, is appended and returned with 201. `newId` is the id the
      database assigns; a clash with an existing id is an uncaught error. */
  function Post(db: Db, body: PostBody, newId: Id, now: Timestamp): (r: Reply)
    ensures !Truthy(body.name) ==> r == Reply(StatusBadRequest, db)
    ensures r.status != StatusCreated ==> r.db == db
    ensures r.status == StatusCreated <==> Truthy(body.name) && newId !in VendorIds(db.vendors)
    ensures r.status == StatusCreated ==>
      r.db == db.(vendors := db.vendors + [Vendor(newId, body.name.value, Column(body.company), Column(body.email), now, None, None)])
  {
    if !Truthy(body.name) then Reply(StatusBadRequest, db)
    else if newId in VendorIds(db.vendors) then Reply(StatusServerError, db)
    else Reply(StatusCreated, db.(vendors := db.vendors + [Vendor(newId, body.name.value, Column(body.company), Column(body.email), now, None, None)]))
  }

  // ---------------------------------------------------------------------------
  // DELETE

  /** `DELETE`: removes the vendor with that id. A missing id or an unknown vendor
      makes `vendor.delete` throw, which is not caught. */
  function Delete(db: Db, vendorId: JsValue<Id>): (r: Reply)
    ensures r.status in {StatusOk, StatusServerError}
    ensures r.status == StatusOk <==> vendorId.Defined? && vendorId.value in VendorIds(db.vendors)
    ensures r.status != StatusOk ==> r.db == db
    ensures r.db == db.(vendors := r.db.vendors)
  {
    if !vendorId.Defined? || vendorId.value !in VendorIds(db.vendors) then Reply(StatusServerError, db)
    else Reply(StatusOk, db.(vendors := Seqs.Filter(db.vendors, (v: Vendor) => v.id != vendorId.value)))
  }

  // ---------------------------------------------------------------------------
  // Properties

  /** Only falsiness is checked: a name of spaces creates a vendor. */
  lemma PostAcceptsBlankName(db: Db, name: string, newId: Id, now: Timestamp)
    requires name != [] && IsBlank(name) && newId !in VendorIds(db.vendors)
    ensures Post(db, PostBody(Defined(name), Undefined, Undefined), newId, now).status == StatusCreated
  {
  }

  /** A created vendor appears in the listing. */
  lemma PostThenListed(db: Db, body: PostBody, newId: Id, now: Timestamp)
    requires Post(db, body, newId, now).status == StatusCreated
    ensures exists v :: v in List(Post(db, body, newId, now).db) && v.id == newId && v.createdAt == now
  {
    var d := Post(db, body, newId, now).db;
    var v := d.vendors[|d.vendors| - 1];
    assert v in multiset(d.vendors);
    assert v in List(d);
  }

  /** A successful delete removes exactly the vendors with that id, keeps the
      others in order, and leaves the ratings, including that vendor's, untouched. */
  lemma DeleteRemovesOnlyThatVendor(db: Db, id: Id)
    requires id in VendorIds(db.vendors)
    ensures var r := Delete(db, Defined(id));
      && r.status == StatusOk
      && Seqs.SubList(r.db.vendors, db.vendors)
      && (forall v :: v in r.db.vendors <==> v in db.vendors && v.id != id)
      && r.db.ratings == db.ratings
  {
  }

  /** Creating a vendor keeps vendor ids unique. */
  lemma PostPreservesValid(db: Db, body: PostBody, newId: Id, now: Timestamp)
    requires Valid(db)
    ensures Valid(Post(db, body, newId, now).db)
  {
    var r := Post(db, body, newId, now);
    if r.status == StatusCreated {
      var v := Vendor(newId, body.name.value, Column(body.company), Column(body.email), now, None, None);
      assert VendorIds(r.db.vendors) == VendorIds(db.vendors) + [newId];
      DistinctAppend(VendorIds(db.vendors), newId);
    }
  }

  /** Deleting a vendor keeps vendor ids unique. */
  lemma DeletePreservesValid(db: Db, vendorId: JsValue<Id>)
    requires Valid(db)
    ensures Valid(Delete(db, vendorId).db)
  {
    var r := Delete(db, vendorId);
    if r.status == StatusOk {
      Seqs.SubListKeysDistinct(r.db.vendors, db.vendors, (v: Vendor) => v.id);
    }
  }
}
