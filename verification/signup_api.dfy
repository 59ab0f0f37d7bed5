/**
 `POST /api/auth/signup`: account creation.

 The name and email are trimmed and the email lower-cased; the password is
 kept verbatim. The checks run in a fixed order: a field empty after
 normalisation, then the email pattern `^[^\s@]+@[^\s@]+\.[^\s@]+$`, then an
 already-registered email. Password hashing is the parameter `hash`.
 */
module SignupApi {
  import opened Basics
  import opened Js
  import opened Store

  datatype SignupBody = SignupBody(name: JsValue<string>, email: JsValue<string>, password: JsValue<string>)

  /** The JSON answer; a created account is reported without its password. */
  datatype SignupResponse =
    | Failure(status: int, message: string)
    | Created(id: Id, email: string, name: string)

  datatype Outcome = Outcome(response: SignupResponse, db: Db)

  function Status(r: SignupResponse): int {
    if r.Created? then StatusCreated else r.status
  }

  // ---------------------------------------------------------------------------
  // The email pattern

  /** A character `[^\s@]` accepts. */
  predicate PlainChar(c: char) {
    !IsWhitespace(c) && c != '@'
  }

  /** `s[lo..hi]` is a non-empty run of `[^\s@]`. */
  predicate PlainRun(s: string, lo: int, hi: int) {
    0 <= lo < hi <= |s| && forall k :: lo <= k < hi ==> PlainChar(s[k])
  }

  /** `^[^\s@]+@[^\s@]+\.[^\s@]+$`: `s` splits at an `@` at `i` and a `.` at `j`
      into three non-empty runs of `[^\s@]`. */
  predicate MatchesEmailRegex(s: string) {
    exists i, j :: 0 <= i < j < |s| && s[i] == '@' && s[j] == '.'
      && PlainRun(s, 0, i) && PlainRun(s, i + 1, j) && PlainRun(s, j + 1, |s|)
  }

  /** The position of the first `c` in `s`. */
  function IndexOf(s: string, c: char): (r: nat)
    requires c in s
    ensures r < |s| && s[r] == c
    ensures forall k :: 0 <= k < r ==> s[k] != c
    decreases |s|
  {
    if s[0] == c then 0 else 1 + IndexOf(s[1..], c)
  }

  /** The same language, stated directly: no whitespace anywhere, exactly one `@`,
      something before it, and after it a `.` that is neither the first nor the
      last character of the domain. */
  predicate IsEmailShaped(s: string) {
    && (forall k :: 0 <= k < |s| ==> !IsWhitespace(s[k]))
    && '@' in s
    && var i := IndexOf(s, '@');
      && i > 0
      && (forall k :: i < k < |s| ==> s[k] != '@')
      && (exists k :: i + 1 < k < |s| - 1 && s[k] == '.')
  }

  /** The pattern accepts exactly the email-shaped strings. */
  lemma EmailRegexCharacterisation(s: string)
    ensures MatchesEmailRegex(s) <==> IsEmailShaped(s)
  {
    if MatchesEmailRegex(s) {
      RegexMatchIsEmailShaped(s);
    }
    if IsEmailShaped(s) {
      EmailShapedMatchesRegex(s);
    }
  }

  /** A string the pattern accepts is email-shaped. */
  lemma RegexMatchIsEmailShaped(s: string)
    requires MatchesEmailRegex(s)
    ensures IsEmailShaped(s)
  {
    var i, j :| 0 <= i < j < |s| && s[i] == '@' && s[j] == '.'
      && PlainRun(s, 0, i) && PlainRun(s, i + 1, j) && PlainRun(s, j + 1, |s|);
    assert '@' in s;
    var at := IndexOf(s, '@');
    assert at == i;
    forall k | 0 <= k < |s|
      ensures !IsWhitespace(s[k])
    {
      if k != i && k != j {
        assert PlainChar(s[k]);
      }
    }
    forall k | i < k < |s|
      ensures s[k] != '@'
    {
      if k != j {
        assert PlainChar(s[k]);
      }
    }
    assert i + 1 < j < |s| - 1 && s[j] == '.';
  }

  /** An email-shaped string is accepted by the pattern. */
  lemma EmailShapedMatchesRegex(s: string)
    requires IsEmailShaped(s)
    ensures MatchesEmailRegex(s)
  {
    var i := IndexOf(s, '@');
    var j :| i + 1 < j < |s| - 1 && s[j] == '.';
    assert PlainRun(s, 0, i);
    assert PlainRun(s, i + 1, j);
    assert PlainRun(s, j + 1, |s|);
  }


  /** A typical address matches the pattern. */
  lemma EmailRegexAccepts()
    ensures MatchesEmailRegex("a@b.co")
  {
    var s := "a@b.co";
    assert PlainRun(s, 0, 1) && PlainRun(s, 2, 3) && PlainRun(s, 4, 6);
    assert 0 <= 1 < 3 < |s| && s[1] == '@' && s[3] == '.';
  }

  /** A domain ending in its only dot does not match. */
  lemma EmailRegexRejectsTrailingDot()
    ensures !MatchesEmailRegex("a@b.")
  {
    EmailRegexCharacterisation("a@b.");
    assert IndexOf("a@b.", '@') == 1;
  }

  /** A domain starting with its only dot does not match. */
  lemma EmailRegexRejectsLeadingDot()
    ensures !MatchesEmailRegex("a@.co")
  {
    EmailRegexCharacterisation("a@.co");
    assert IndexOf("a@.co", '@') == 1;
    assert "a@.co"[3] == 'c';
  }

  /** A second `@` does not match. */
  lemma EmailRegexRejectsTwoAts()
    ensures !MatchesEmailRegex("a@@b.co")
  {
    EmailRegexCharacterisation("a@@b.co");
    assert IndexOf("a@@b.co", '@') == 1;
    assert "a@@b.co"[2] == '@';
  }

  // ---------------------------------------------------------------------------
  // The handler

  /** `(body.name || "").toString().trim()`. */
  function NormalName(body: SignupBody): string {
    Trim(OrEmpty(body.name))
  }

  /** `(body.email || "").toString().trim().toLowerCase()`. */
  function NormalEmail(body: SignupBody): string {
    Lower(Trim(OrEmpty(body.email)))
  }

  /** `(body.password || "").toString()`: not trimmed. */
  function NormalPassword(body: SignupBody): string {
    OrEmpty(body.password)
  }

  const MissingFields := "Name, email and password are required"
  const InvalidEmail := "Invalid email"
  const AlreadyExists := "User already exists"
  const InternalError := "Internal server error"

  /** The awaited calls inside the handler's `try`, in the order they run. A fault
      names the call that throws; every throw is caught and answered with 500. */
  datatype SignupStep = BodyStep | LookupStep | HashStep | CreateStep

  /** The handler. `newId` is the id the database assigns; `fault` is the awaited
      call that throws, if any. An id clash at the create also throws. */
  function Handle(db: Db, body: SignupBody, hash: string -> string, newId: Id, fault: Option<SignupStep>): (r: Outcome)
    ensures r.response.Failure? ==> r.db == db
    ensures fault == Some(BodyStep) ==> r.response == Failure(StatusServerError, InternalError)
    ensures var name, email, password := NormalName(body), NormalEmail(body), NormalPassword(body);
      fault != Some(BodyStep) ==>
      && (name == [] || email == [] || password == [] ==> r.response == Failure(StatusBadRequest, MissingFields))
      && (name != [] && email != [] && password != [] && !IsEmailShaped(email) ==>
            r.response == Failure(StatusBadRequest, InvalidEmail))
      && (name != [] && IsEmailShaped(email) && password != [] && fault == Some(LookupStep) ==>
            r.response == Failure(StatusServerError, InternalError))
      && (name != [] && IsEmailShaped(email) && password != [] && fault != Some(LookupStep) && email in UserEmails(db.users) ==>
            r.response == Failure(StatusBadRequest, AlreadyExists))
      && (name != [] && IsEmailShaped(email) && password != [] && email !in UserEmails(db.users)
          && (fault == Some(HashStep) || fault == Some(CreateStep) || (fault.None? && newId in UserIds(db.users))) ==>
            r.response == Failure(StatusServerError, InternalError))
    ensures r.response.Created? <==>
      && NormalName(body) != [] && NormalPassword(body) != [] && IsEmailShaped(NormalEmail(body))
      && NormalEmail(body) !in UserEmails(db.users) && newId !in UserIds(db.users) && fault.None?
    ensures r.response.Created? ==>
      && r.response == Created(newId, NormalEmail(body), NormalName(body))
      && r.db == db.(users := db.users + [User(newId, NormalName(body), NormalEmail(body), hash(NormalPassword(body)))])
  {
    var name, email, password := NormalName(body), NormalEmail(body), NormalPassword(body);
    EmailRegexCharacterisation(email);
    if fault == Some(BodyStep) then Outcome(Failure(StatusServerError, InternalError), db)
    else if name == [] || email == [] || password == [] then Outcome(Failure(StatusBadRequest, MissingFields), db)
    else if !MatchesEmailRegex(email) then Outcome(Failure(StatusBadRequest, InvalidEmail), db)
    else if fault == Some(LookupStep) then Outcome(Failure(StatusServerError, InternalError), db)
    else if email in UserEmails(db.users) then Outcome(Failure(StatusBadRequest, AlreadyExists), db)
    else if fault.Some? || newId in UserIds(db.users) then Outcome(Failure(StatusServerError, InternalError), db)
    else
      var user := User(newId, name, email, hash(password));
      Outcome(Created(user.id, user.email, user.name), db.(users := db.users + [user]))
  }

  // ---------------------------------------------------------------------------
  // Properties

  /** The password is not trimmed: a password of whitespace only passes the
      field check and is hashed as it is. */
  lemma WhitespacePasswordAccepted(db: Db, body: SignupBody, hash: string -> string, newId: Id)
    requires body.password.Defined? && body.password.value != [] && IsBlank(body.password.value)
    requires NormalName(body) != [] && IsEmailShaped(NormalEmail(body))
    requires NormalEmail(body) !in UserEmails(db.users) && newId !in UserIds(db.users)
    ensures var r := Handle(db, body, hash, newId, None);
      && r.response.Created?
      && r.db.users[|r.db.users| - 1].password == hash(body.password.value)
    ensures Trim(body.password.value) == []
  {
    TrimEmptyIffBlank(body.password.value);
  }

  /** A stored email is already normalised: trimming and lower-casing it again
      changes nothing. */
  lemma StoredEmailIsNormal(db: Db, body: SignupBody, hash: string -> string, newId: Id, fault: Option<SignupStep>)
    requires Handle(db, body, hash, newId, fault).response.Created?
    ensures var e := Handle(db, body, hash, newId, fault).response.email;
      Lower(Trim(e)) == e
  {
    var e := NormalEmail(body);
    LowerIdempotent(Trim(OrEmpty(body.email)));
    assert Trim(e) == e by {
      assert forall k :: 0 <= k < |e| ==> !IsWhitespace(e[k]);
      TrimOfUnspaced(e);
    }
  }

  /** Trimming a string without whitespace changes nothing. */
  lemma TrimOfUnspaced(s: string)
    requires forall k :: 0 <= k < |s| ==> !IsWhitespace(s[k])
    ensures Trim(s) == s
  {
    if s != [] {
      assert !IsWhitespace(s[0]) && !IsWhitespace(s[|s| - 1]);
    }
  }

  /** Two sign-ups whose emails differ only in letter case and surrounding
      whitespace collide: after the first, the second is "User already exists". */
  lemma DuplicateIgnoresCaseAndSpaces(db: Db, b1: SignupBody, b2: SignupBody, hash: string -> string,
                                      id1: Id, id2: Id)
    requires NormalName(b1) != [] && NormalPassword(b1) != [] && IsEmailShaped(NormalEmail(b1))
    requires NormalEmail(b1) !in UserEmails(db.users) && id1 !in UserIds(db.users)
    requires NormalEmail(b2) == NormalEmail(b1)
    requires NormalName(b2) != [] && NormalPassword(b2) != []
    ensures var d := Handle(db, b1, hash, id1, None).db;
      Handle(d, b2, hash, id2, None) == Outcome(Failure(StatusBadRequest, AlreadyExists), d)
  {
    var d := Handle(db, b1, hash, id1, None).db;
    var u := User(id1, NormalName(b1), NormalEmail(b1), hash(NormalPassword(b1)));
    assert d.users == db.users + [u];
    UsersAppend(db.users, u);
    RegisteredEmailRejected(d, b2, hash, id2);
  }

  /** A well-formed sign-up whose normalised email is already registered is
      "User already exists" and changes nothing. */
  lemma RegisteredEmailRejected(db: Db, body: SignupBody, hash: string -> string, newId: Id)
    requires NormalName(body) != [] && NormalPassword(body) != [] && IsEmailShaped(NormalEmail(body))
    requires NormalEmail(body) in UserEmails(db.users)
    ensures Handle(db, body, hash, newId, None) == Outcome(Failure(StatusBadRequest, AlreadyExists), db)
  {
  }

  /** A sign-up keeps user ids and emails unique. */
  lemma SignupPreservesValid(db: Db, body: SignupBody, hash: string -> string, newId: Id, fault: Option<SignupStep>)
    requires Valid(db)
    ensures Valid(Handle(db, body, hash, newId, fault).db)
  {
    var r := Handle(db, body, hash, newId, fault);
    if r.response.Created? {
      var u := User(newId, NormalName(body), NormalEmail(body), hash(NormalPassword(body)));
      assert r.db.users == db.users + [u];
      UsersAppend(db.users, u);
      DistinctAppend(UserIds(db.users), newId);
      DistinctAppend(UserEmails(db.users), u.email);
    }
  }
}
