/**
 Form handling on the client pages: the report page's download guard and the
 two add-vendor forms, whose follow-up (reset, close, reload) depends on
 whether the create request succeeded.
 */
module ClientForms {
  import opened Basics
  import opened Js
  import opened Store
  import VendorsApi
  import Scoring
  import PdfApi

  /** `res.ok`: a 2xx status. */
  predicate Ok(status: int) {
    200 <= status < 300
  }

  // ---------------------------------------------------------------------------
  // Report page

  /** `handleDownload`: the `vendorId` of the PDF request, or nothing when no
      vendor is selected. */
  function HandleDownload(selectedVendorId: string): (r: Option<JsValue<Id>>)
    ensures r.None? <==> selectedVendorId == ""
    ensures r.Some? ==> Truthy(r.value) && r.value.value == selectedVendorId
  {
    if selectedVendorId == "" then None else Some(Defined(selectedVendorId))
  }

  // ---------------------------------------------------------------------------
  // Vendor management page (dashboard)

  /** The controlled add-vendor form and whether it is shown. */
  datatype AddForm = AddForm(name: string, company: string, email: string, showAdd: bool)

  /** The JSON body `{ name, company, email }` the form posts. */
  function Body(f: AddForm): VendorsApi.PostBody {
    VendorsApi.PostBody(Defined(f.name), Defined(f.company), Defined(f.email))
  }

  /** The form after the create request answered `status`, and whether the list reloads:
      on success the fields are cleared and the form hidden, otherwise nothing changes. */
  function AfterAdd(f: AddForm, status: int): (r: (AddForm, bool))
    ensures Ok(status) ==> r == (AddForm("", "", "", false), true)
    ensures !Ok(status) ==> r == (f, false)
  {
    if !Ok(status) then (f, false) else (AddForm("", "", "", false), true)
  }

  /** The cleared form, if it reaches the route again, is a 400 that creates
      nothing. The browser's `required` check on the name field normally stops
      such a submit before any request is sent. */
  lemma ResubmitAfterResetRejected(f: AddForm, db: Db, newId: Id, now: Timestamp)
    requires Ok(VendorsApi.Post(db, Body(f), newId, now).status)
    ensures var f2 := AfterAdd(f, VendorsApi.Post(db, Body(f), newId, now).status).0;
      var d := VendorsApi.Post(db, Body(f), newId, now).db;
      VendorsApi.Post(d, Body(f2), newId, now) == Reply(StatusBadRequest, d)
  {
  }

  /** A failed create leaves what was typed in place for another try. */
  lemma FailedAddKeepsInput(f: AddForm, db: Db, newId: Id, now: Timestamp)
    requires !Ok(VendorsApi.Post(db, Body(f), newId, now).status)
    ensures AfterAdd(f, VendorsApi.Post(db, Body(f), newId, now).status) == (f, false)
    ensures VendorsApi.Post(db, Body(f), newId, now).db == db
  {
  }

  /** The form sends an empty company as "", which is stored as an empty string
      rather than null; the report header still shows it as "N/A". */
  lemma EmptyCompanyStoredAsEmptyString(f: AddForm, db: Db, newId: Id, now: Timestamp)
    requires f.name != "" && f.company == "" && newId !in VendorIds(db.vendors)
    ensures var d := VendorsApi.Post(db, Body(f), newId, now).db;
      var v := d.vendors[|d.vendors| - 1];
      && v.company == Some("")
      && Scoring.VendorReport(PdfApi.ReportVendorOf(v), [], []).company == "N/A"
  {
  }

  // ---------------------------------------------------------------------------
  // Vendors page

  /** `FormData.get(...) as string`: a field of the submitted form, null when absent. */
  function FormField(x: Option<string>): JsValue<string> {
    if x.Some? then Defined(x.value) else Null
  }

  /** The modal after the create request answered `status`, and whether the list
      reloads: only a successful create closes the modal and reloads. */
  function AfterModalAdd(isAdding: bool, status: int): (r: (bool, bool))
    ensures r.1 <==> Ok(status)
    ensures r.0 == (isAdding && !Ok(status))
  {
    if Ok(status) then (false, true) else (isAdding, false)
  }

  /** A form with an empty name, if it reaches the route, gets 400: the modal stays
      open and nothing reloads. The browser's `required` check on the name field
      normally stops such a submit first. */
  lemma ModalStaysOpenOnMissingName(db: Db, company: Option<string>, email: Option<string>, newId: Id, now: Timestamp)
    ensures var body := VendorsApi.PostBody(FormField(Some("")), FormField(company), FormField(email));
      var status := VendorsApi.Post(db, body, newId, now).status;
      AfterModalAdd(true, status) == (true, false)
  {
  }
}
