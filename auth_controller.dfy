/**
 * Registration, login and the current-user route. Registration takes a
 * multipart form whose profile photo multer has already written to disk;
 * every refusal after the photo check deletes that file again. A sarpanch
 * registers together with the village, so that each sarpanch user is bound
 * to exactly one village of its (normalised) name.
 */
module AuthController {
  import opened Js
  import opened Http
  import opened UserModel
  import opened Store
  import opened AuthMiddleware
  import V = VillageModel

  /** The text fields of a registration form (`req.body`). */
  datatype Form = Form(name: Option<string>, villageName: Option<string>, mobile: Option<string>,
                       aadhaarNo: Option<string>, email: Option<string>, gender: Option<string>,
                       age: Option<string>, password: Option<string>)

  /** What `sendTokenResponse` answers: a token for the user's id and the
      user document without its password. */
  datatype TokenResponse = TokenResponse(tokenFor: string, user: User)

  const SarpanchMinAge := 21

  // The messages of the 4xx answers.
  const PhotoRequired := "Profile photo is required."
  const SarpanchFieldsMissing := "Please provide all required fields for Sarpanch registration"
  const SarpanchTooYoung := "Sarpanch age must be 21 or older."
  const PeopleFieldsMissing := "Please provide all required fields for People registration"
  const AadhaarInvalid := "Aadhaar number must be exactly 12 digits"
  const PeopleTooYoung := "Age must be 18 or older."
  const CredentialsMissing := "Please provide email and password"
  const InvalidCredentials := "Invalid credentials"
  const MeNotFound := "User not found (token may be invalid or associated user deleted)"

  function AlreadyExists(subject: string): string
  {
    "User already exists with this " + subject
  }

  function VillageRegistered(villageName: string): string
  {
    "Village '" + villageName + "' is already registered by another Sarpanch"
  }

  /** Where the photo of the profile upload is recorded, relative to the
      server directory. */
  function ProfilePath(filename: string): string
  {
    StoredPath("uploads/profiles/", filename)
  }

  // ---------------------------------------------------------------------
  // The duplicate check
  // ---------------------------------------------------------------------

  /** `User.findOne({ $or: [{ email }, { mobile }] })` finds a user: the
      query values go through the email and mobile setters. */
  predicate ContactsTaken(users: map<string, User>, email: string, mobile: string)
  {
    exists j :: j in users && (users[j].email == LowerTrimmed(email) || users[j].mobile == Trim(mobile))
  }

  predicate EmailTaken(users: map<string, User>, email: string)
  {
    exists j :: j in users && users[j].email == LowerTrimmed(email)
  }

  /** The field the duplicate message names, as written: the stored (lower
      case) email of the user found against the email as submitted. */
  function DuplicateSubjectAsWritten(found: User, email: string): (r: string)
    ensures r == "email" || r == "mobile number"
    ensures r == "email" <==> found.email == email
  {
    if found.email == email then "email" else "mobile number"
  }

  /** As written, an email that differs from a stored one only in case is
      found by the query and then reported as a clash of mobile numbers. */
  lemma CaseVariantReportedAsMobile(found: User)
    requires found.email == "a@b.in"
    ensures found.email == LowerTrimmed("A@b.in")
    ensures DuplicateSubjectAsWritten(found, "A@b.in") == "mobile number"
  {
    var s := "A@b.in";
    assert IsTrimmed(s);
    assert Trim(s) == s;
    assert ToLower(s) == "a@b.in" by {
      assert ToLower(s)[0] == LowerChar('A');
    }
  }

  /** The field the duplicate message names, compared after normalising the
      submitted email as the query does. */
  function DuplicateSubject(users: map<string, User>, email: string, mobile: string): (r: string)
    ensures r == "email" ==> EmailTaken(users, email)
    ensures r != "email" ==> r == "mobile number" && !EmailTaken(users, email)
    ensures ContactsTaken(users, email, mobile) && r == "mobile number" ==>
              exists j :: j in users && users[j].mobile == Trim(mobile)
  {
    if EmailTaken(users, email) then "email" else "mobile number"
  }

  /** The corrected subject names the email exactly when some user has it,
      whatever the case in which it was typed. */
  lemma DuplicateSubjectIgnoresCase(users: map<string, User>, email: string, email': string, mobile: string)
    requires LowerTrimmed(email) == LowerTrimmed(email')
    ensures DuplicateSubject(users, email, mobile) == DuplicateSubject(users, email', mobile)
  {
  }

  /** No user shares the normalised contacts, so the new user keeps the
      unique indexes. */
  lemma FreeContacts(users: map<string, User>, k: string, u: User, email: string, mobile: string)
    requires !ContactsTaken(users, email, mobile)
    requires u.email == LowerTrimmed(email) && u.mobile == Trim(mobile)
    ensures ContactsFree(users, k, u)
  {
  }

  predicate VillageTaken(villages: map<string, V.Village>, villageName: string)
  {
    exists j :: j in villages && villages[j].name == LowerTrimmed(villageName)
  }

  // ---------------------------------------------------------------------
  // Registration guards
  // ---------------------------------------------------------------------

  predicate SarpanchFieldsGiven(f: Form)
  {
    Present(f.name) && Present(f.villageName) && Present(f.mobile) && Present(f.email)
    && Present(f.gender) && Present(f.age) && Present(f.password)
  }

  predicate PeopleFieldsGiven(f: Form)
  {
    SarpanchFieldsGiven(f) && Present(f.aadhaarNo)
  }

  /** `isNaN(Number(age)) || Number(age) < min`. */
  predicate AgeBelow(age: string, min: int)
  {
    ToNumber(age).NaN? || ToNumber(age).v < min
  }

  /** The Aadhaar test: exactly twelve decimal digits once trimmed. */
  predicate AadhaarValid(a: string)
  {
    Length(Trim(a)) == 12 && AllDigits(Trim(a))
  }

  /** The message of the first check of registerSarpanch that refuses the
      form with 400 before anything is created, or None. */
  function SarpanchRefusal(users: map<string, User>, villages: map<string, V.Village>, f: Form): (r: Option<string>)
    ensures !SarpanchFieldsGiven(f) ==>
              r == Some(SarpanchFieldsMissing)
    ensures SarpanchFieldsGiven(f) && AgeBelow(f.age.value, SarpanchMinAge) ==>
              r == Some(SarpanchTooYoung)
    ensures SarpanchFieldsGiven(f) && !AgeBelow(f.age.value, SarpanchMinAge)
            && ContactsTaken(users, f.email.value, f.mobile.value) ==>
              r == Some(AlreadyExists(DuplicateSubject(users, f.email.value, f.mobile.value)))
    ensures r.None? <==> SarpanchFieldsGiven(f) && !AgeBelow(f.age.value, SarpanchMinAge)
                         && !ContactsTaken(users, f.email.value, f.mobile.value)
                         && !VillageTaken(villages, f.villageName.value)
    ensures r.Some? && SarpanchFieldsGiven(f) && !AgeBelow(f.age.value, SarpanchMinAge)
            && !ContactsTaken(users, f.email.value, f.mobile.value) ==>
              r == Some(VillageRegistered(f.villageName.value))
  {
    if !SarpanchFieldsGiven(f) then Some(SarpanchFieldsMissing)
    else if AgeBelow(f.age.value, SarpanchMinAge) then Some(SarpanchTooYoung)
    else if ContactsTaken(users, f.email.value, f.mobile.value) then
      Some(AlreadyExists(DuplicateSubject(users, f.email.value, f.mobile.value)))
    else if VillageTaken(villages, f.villageName.value) then
      Some(VillageRegistered(f.villageName.value))
    else None
  }

  /** The message of the first check of registerPeople that refuses the
      form with 400 before anything is created, or None. */
  function PeopleRefusal(users: map<string, User>, f: Form): (r: Option<string>)
    ensures !PeopleFieldsGiven(f) ==> r == Some(PeopleFieldsMissing)
    ensures PeopleFieldsGiven(f) && !AadhaarValid(f.aadhaarNo.value) ==>
              r == Some(AadhaarInvalid)
    ensures PeopleFieldsGiven(f) && AadhaarValid(f.aadhaarNo.value) && AgeBelow(f.age.value, MinAge) ==>
              r == Some(PeopleTooYoung)
    ensures PeopleFieldsGiven(f) && AadhaarValid(f.aadhaarNo.value) && !AgeBelow(f.age.value, MinAge)
            && ContactsTaken(users, f.email.value, f.mobile.value) ==>
              r == Some(AlreadyExists(DuplicateSubject(users, f.email.value, f.mobile.value)))
    ensures r.None? <==> PeopleFieldsGiven(f) && AadhaarValid(f.aadhaarNo.value) && !AgeBelow(f.age.value, MinAge)
                         && !ContactsTaken(users, f.email.value, f.mobile.value)
  {
    if !PeopleFieldsGiven(f) then Some(PeopleFieldsMissing)
    else if !AadhaarValid(f.aadhaarNo.value) then Some(AadhaarInvalid)
    else if AgeBelow(f.age.value, MinAge) then Some(PeopleTooYoung)
    else if ContactsTaken(users, f.email.value, f.mobile.value) then
      Some(AlreadyExists(DuplicateSubject(users, f.email.value, f.mobile.value)))
    else None
  }

  /** The user document registerSarpanch creates from a form that passed
      its guards. */
  function SarpanchUser(f: Form, photo: string, now: int): (u: User)
    requires SarpanchFieldsGiven(f) && !AgeBelow(f.age.value, SarpanchMinAge)
    ensures u.role == Sarpanch && u.age == ToNumber(f.age.value).v && u.age >= SarpanchMinAge
    ensures u.email == LowerTrimmed(f.email.value) && u.mobile == Trim(f.mobile.value)
    ensures u.villageName == Trim(f.villageName.value) && u.profilePhoto == photo
    ensures u.password.Some? && MatchPassword(u.password.value, f.password.value)
  {
    NewUser(Sarpanch, f.name.value, photo, Trim(f.villageName.value), f.mobile.value, None,
            f.email.value, f.gender.value, ToNumber(f.age.value).v, f.password.value, now)
  }

  /** The user document registerPeople creates from a form that passed its
      guards. */
  function PeopleUser(f: Form, photo: string, now: int): (u: User)
    requires PeopleFieldsGiven(f) && !AgeBelow(f.age.value, MinAge)
    ensures u.role == People && u.age == ToNumber(f.age.value).v && u.age >= MinAge
    ensures u.email == LowerTrimmed(f.email.value) && u.mobile == Trim(f.mobile.value)
    ensures u.villageName == Trim(f.villageName.value) && u.profilePhoto == photo
    ensures u.aadhaarNo == Some(Trim(f.aadhaarNo.value))
    ensures u.password.Some? && MatchPassword(u.password.value, f.password.value)
  {
    NewUser(People, f.name.value, photo, Trim(f.villageName.value), f.mobile.value, f.aadhaarNo,
            f.email.value, f.gender.value, ToNumber(f.age.value).v, f.password.value, now)
  }

  /** A sarpanch whose user document passed its validators always has a
      village the Village schema accepts, and its name is the user's
      village, normalised. */
  lemma SarpanchVillageStored(f: Form, photo: string, uid: string, now: int)
    requires SarpanchFieldsGiven(f) && !AgeBelow(f.age.value, SarpanchMinAge) && uid != ""
    requires SchemaRules(SarpanchUser(f, photo, now), Some(f.password.value))
    ensures V.Stored(V.NewVillage(f.villageName.value, uid, now))
    ensures LowerTrimmed(SarpanchUser(f, photo, now).villageName) == V.NewVillage(f.villageName.value, uid, now).name
  {
    assert |LowerTrimmed(f.villageName.value)| == |Trim(f.villageName.value)|;
  }

  // ---------------------------------------------------------------------
  // The handlers
  // ---------------------------------------------------------------------

  /** The answer of registerSarpanch. `photo` is the name multer gave the
      upload, `uid` the ObjectId the driver assigns the user, and
      `villageFault` an error of `Village.create`, after which the new user
      is deleted again. */
  function SarpanchRegistration(users: map<string, User>, villages: map<string, V.Village>, f: Form,
                                photo: Option<string>, uid: string, now: int, villageFault: Option<JsError>)
    : (r: Outcome<TokenResponse>)
    ensures photo.None? ==> r == Throw(400, PhotoRequired)
    ensures photo.Some? && SarpanchRefusal(users, villages, f).Some? ==>
              r == Throw(400, SarpanchRefusal(users, villages, f).value)
    ensures r.Ok? <==> photo.Some? && SarpanchRefusal(users, villages, f).None?
                       && SchemaRules(SarpanchUser(f, ProfilePath(photo.value), now), Some(f.password.value))
                       && villageFault.None?
    ensures r.Ok? ==> r.status == 201 && r.value.tokenFor == uid && r.value.user.password.None?
                      && r.value.user == WithoutPassword(SarpanchUser(f, ProfilePath(photo.value), now))
    ensures r.Fail? && photo.Some? && SarpanchRefusal(users, villages, f).None?
            && !SchemaRules(SarpanchUser(f, ProfilePath(photo.value), now), Some(f.password.value)) ==>
              r == Forward(ValidationError("User", Violations(SarpanchUser(f, ProfilePath(photo.value), now),
                                                              Some(f.password.value))))
    ensures r.Fail? && photo.Some? && SarpanchRefusal(users, villages, f).None?
            && SchemaRules(SarpanchUser(f, ProfilePath(photo.value), now), Some(f.password.value)) ==>
              r == Forward(villageFault.value)
  {
    if photo.None? then Throw(400, PhotoRequired)
    else
      var refusal := SarpanchRefusal(users, villages, f);
      if refusal.Some? then Throw(400, refusal.value)
      else
        var u := SarpanchUser(f, ProfilePath(photo.value), now);
        var vs := Violations(u, Some(f.password.value));
        ViolationsAreSchemaRules(u, Some(f.password.value));
        if vs != [] then Forward(ValidationError("User", vs))
        else if villageFault.Some? then Forward(villageFault.value)
        else Ok(201, TokenResponse(uid, WithoutPassword(u)))
  }

  /** An accepted sarpanch registration stores a user and a village that
      keep every invariant of the store. */
  lemma SarpanchAccepted(users: map<string, User>, villages: map<string, V.Village>, f: Form,
                         photo: string, uid: string, now: int, villageFault: Option<JsError>)
    requires SarpanchRegistration(users, villages, f, Some(photo), uid, now, villageFault).Ok? && uid != ""
    ensures Stored(SarpanchUser(f, ProfilePath(photo), now)) && SarpanchUser(f, ProfilePath(photo), now).role == Sarpanch
    ensures ContactsFree(users, uid, SarpanchUser(f, ProfilePath(photo), now))
    ensures V.Stored(V.NewVillage(f.villageName.value, uid, now))
    ensures V.NewVillage(f.villageName.value, uid, now).sarpanchId == uid
    ensures V.NewVillage(f.villageName.value, uid, now).name == LowerTrimmed(SarpanchUser(f, ProfilePath(photo), now).villageName)
    ensures forall j :: j in villages ==> villages[j].name != V.NewVillage(f.villageName.value, uid, now).name
  {
    var path := ProfilePath(photo);
    ViolationsAreSchemaRules(SarpanchUser(f, path, now), Some(f.password.value));
    NewUserStored(Sarpanch, f.name.value, path, Trim(f.villageName.value), f.mobile.value, None,
                  f.email.value, f.gender.value, ToNumber(f.age.value).v, f.password.value, now);
    SarpanchVillageStored(f, path, uid, now);
    FreeContacts(users, uid, SarpanchUser(f, path, now), f.email.value, f.mobile.value);
  }

  /** The two `create` calls of an accepted sarpanch registration. */
  method AdmitSarpanch(db: Db, f: Form, photo: Option<string>, uid: string, vid: string, now: int,
                       villageFault: Option<JsError>)
    requires db.Valid()
    requires IsKey(uid) && uid !in db.users && IsKey(vid) && vid !in db.villages
    requires SarpanchRegistration(db.users, db.villages, f, photo, uid, now, villageFault).Ok?
    modifies db`users, db`villages
    ensures db.Valid()
    ensures db.users == old(db.users)[uid := SarpanchUser(f, ProfilePath(photo.value), now)]
    ensures db.villages == old(db.villages)[vid := V.NewVillage(f.villageName.value, uid, now)]
    ensures unchanged(db`files)
  {
    SarpanchAccepted(db.users, db.villages, f, photo.value, uid, now, villageFault);
    db.AddSarpanch(uid, SarpanchUser(f, ProfilePath(photo.value), now), vid,
                   V.NewVillage(f.villageName.value, uid, now));
  }

  /** POST /api/auth/register/sarpanch: answers as SarpanchRegistration; on
      success the sarpanch and its village are stored, otherwise nothing is
      stored and the uploaded photo is deleted. `vid` is the ObjectId of the
      new village. */
  method RegisterSarpanch(db: Db, f: Form, photo: Option<string>, uid: string, vid: string, now: int,
                          villageFault: Option<JsError>)
    returns (o: Outcome<TokenResponse>)
    requires db.Valid()
    requires IsKey(uid) && uid !in db.users && IsKey(vid) && vid !in db.villages
    modifies db`users, db`villages, db`files
    ensures db.Valid()
    ensures o == SarpanchRegistration(old(db.users), old(db.villages), f, photo, uid, now, villageFault)
    ensures o.Ok? ==> db.users == old(db.users)[uid := SarpanchUser(f, ProfilePath(photo.value), now)]
                      && db.villages == old(db.villages)[vid := V.NewVillage(f.villageName.value, uid, now)]
    ensures o.Ok? ==> unchanged(db`files)
    ensures photo.None? ==> unchanged(db`files)
    ensures o.Fail? ==> unchanged(db`users, db`villages)
    ensures o.Fail? && photo.Some? ==> db.files == old(db.files) - {ProfilePath(photo.value)}
  {
    o := SarpanchRegistration(db.users, db.villages, f, photo, uid, now, villageFault);
    if photo.Some? {
      var path := ProfilePath(photo.value);
      if o.Fail? {
        // A refusal, a validation error, or the rollback after the village
        // could not be created.
        db.RemoveFile(path);
      } else {
        AdmitSarpanch(db, f, photo, uid, vid, now, villageFault);
      }
    }
  }

  /** The answer of registerPeople. */
  function PeopleRegistration(users: map<string, User>, f: Form, photo: Option<string>, uid: string, now: int)
    : (r: Outcome<TokenResponse>)
    ensures photo.None? ==> r == Throw(400, PhotoRequired)
    ensures photo.Some? && PeopleRefusal(users, f).Some? ==> r == Throw(400, PeopleRefusal(users, f).value)
    ensures r.Ok? <==> photo.Some? && PeopleRefusal(users, f).None?
                       && SchemaRules(PeopleUser(f, ProfilePath(photo.value), now), Some(f.password.value))
    ensures r.Ok? ==> r.status == 201 && r.value.tokenFor == uid && r.value.user.password.None?
                      && r.value.user == WithoutPassword(PeopleUser(f, ProfilePath(photo.value), now))
    ensures r.Fail? && photo.Some? && PeopleRefusal(users, f).None? ==>
              r == Forward(ValidationError("User", Violations(PeopleUser(f, ProfilePath(photo.value), now),
                                                              Some(f.password.value))))
  {
    if photo.None? then Throw(400, PhotoRequired)
    else
      var refusal := PeopleRefusal(users, f);
      if refusal.Some? then Throw(400, refusal.value)
      else
        var u := PeopleUser(f, ProfilePath(photo.value), now);
        var vs := Violations(u, Some(f.password.value));
        ViolationsAreSchemaRules(u, Some(f.password.value));
        if vs != [] then Forward(ValidationError("User", vs))
        else Ok(201, TokenResponse(uid, WithoutPassword(u)))
  }

  /** An accepted people registration stores a user that keeps every
      invariant of the store. */
  lemma PeopleAccepted(users: map<string, User>, f: Form, photo: string, uid: string, now: int)
    requires PeopleRegistration(users, f, Some(photo), uid, now).Ok?
    ensures Stored(PeopleUser(f, ProfilePath(photo), now)) && PeopleUser(f, ProfilePath(photo), now).role == People
    ensures ContactsFree(users, uid, PeopleUser(f, ProfilePath(photo), now))
  {
    var path := ProfilePath(photo);
    ViolationsAreSchemaRules(PeopleUser(f, path, now), Some(f.password.value));
    NewUserStored(People, f.name.value, path, Trim(f.villageName.value), f.mobile.value, f.aadhaarNo,
                  f.email.value, f.gender.value, ToNumber(f.age.value).v, f.password.value, now);
    FreeContacts(users, uid, PeopleUser(f, path, now), f.email.value, f.mobile.value);
  }

  /** POST /api/auth/register/people: answers as PeopleRegistration; on
      success the user is stored, otherwise the uploaded photo is deleted. */
  method RegisterPeople(db: Db, f: Form, photo: Option<string>, uid: string, now: int)
    returns (o: Outcome<TokenResponse>)
    requires db.Valid() && IsKey(uid) && uid !in db.users
    modifies db`users, db`files
    ensures db.Valid()
    ensures o == PeopleRegistration(old(db.users), f, photo, uid, now)
    ensures o.Ok? ==> db.users == old(db.users)[uid := PeopleUser(f, ProfilePath(photo.value), now)]
    ensures o.Ok? ==> unchanged(db`files)
    ensures photo.None? ==> unchanged(db`files)
    ensures o.Fail? ==> unchanged(db`users)
    ensures o.Fail? && photo.Some? ==> db.files == old(db.files) - {ProfilePath(photo.value)}
  {
    o := PeopleRegistration(db.users, f, photo, uid, now);
    if photo.Some? {
      var path := ProfilePath(photo.value);
      if o.Fail? {
        db.RemoveFile(path);
      } else {
        PeopleAccepted(db.users, f, photo.value, uid, now);
        db.CreateUser(uid, PeopleUser(f, path, now));
      }
    }
  }

  /** The stored user `k` is the one login finds for `email`, and its hash
      accepts `password`. */
  predicate LogsIn(users: map<string, User>, k: string, email: string, password: string)
  {
    k in users && users[k].email == LowerTrimmed(email) && Accepts(users[k], password)
  }

  /** The unique email index: at most one user is found by an email, so at
      most one user logs in with it. */
  lemma {:induction false} OnlyOwnerLogsIn(users: map<string, User>, k: string, email: string, password: string)
    requires UsersValid(users) && k in users && users[k].email == LowerTrimmed(email)
    ensures forall j :: LogsIn(users, j, email, password) ==> j == k
  {
    forall j | LogsIn(users, j, email, password)
      ensures j == k
    {
      EmailIdentifiesUser(users, j, k);
    }
  }

  /** POST /api/auth/login. */
  method LoginUser(db: Db, email: Option<string>, password: Option<string>, now: int)
    returns (o: Outcome<TokenResponse>)
    requires db.Valid()
    modifies db`users
    ensures db.Valid()
    ensures !Present(email) || !Present(password) ==> o == Throw(400, CredentialsMissing)
    ensures o.Ok? <==> Present(email) && Present(password)
                       && exists k :: LogsIn(old(db.users), k, email.value, password.value)
    ensures Present(email) && Present(password) && o.Fail? ==> o == Throw(401, InvalidCredentials)
    ensures o.Ok? ==> o.status == 200 && LogsIn(old(db.users), o.value.tokenFor, email.value, password.value)
                      && db.users == old(db.users)[o.value.tokenFor :=
                                                     old(db.users)[o.value.tokenFor].(lastLogin := Some(now))]
                      && o.value.user == WithoutPassword(db.users[o.value.tokenFor])
    ensures o.Fail? ==> unchanged(db`users)
  {
    if !Present(email) || !Present(password) {
      return Throw(400, CredentialsMissing);
    }
    var e := LowerTrimmed(email.value);
    if !exists j :: j in db.users && db.users[j].email == e {
      assert forall j :: !LogsIn(db.users, j, email.value, password.value);
      return Throw(401, InvalidCredentials);
    }
    var k :| k in db.users && db.users[k].email == e;
    OnlyOwnerLogsIn(db.users, k, email.value, password.value);
    if !Accepts(db.users[k], password.value) {
      assert forall j :: !LogsIn(db.users, j, email.value, password.value);
      return Throw(401, InvalidCredentials);
    }
    assert LogsIn(db.users, k, email.value, password.value);
    var u := db.users[k].(lastLogin := Some(now));
    assert Stored(db.users[k]);
    db.SaveUser(k, u);
    o := Ok(200, TokenResponse(k, WithoutPassword(u)));
  }

  /** A registered user logs in with the password it registered, typed with
      any case or padding of the email, and nobody logs in with that email
      and another password. */
  lemma {:induction false} RegisteredUserLogsIn(users: map<string, User>, k: string,
                                                email: string, password: string, typed: string, other: string)
    requires UsersValid(users) && k in users && users[k].email == LowerTrimmed(email)
    requires users[k].password == Some(H(password)) && LowerTrimmed(typed) == LowerTrimmed(email)
    requires other != password
    ensures LogsIn(users, k, typed, password)
    ensures forall j :: !LogsIn(users, j, typed, other)
  {
    OnlyOwnerLogsIn(users, k, typed, other);
  }

  /** GET /api/auth/me: the user `protect` attached. */
  function GetMe(user: Option<Caller>): (r: Outcome<User>)
    ensures user.None? ==> r == Throw(404, MeNotFound)
    ensures user.Some? ==> r == Ok(200, user.value.user)
  {
    if user.None? then Throw(404, MeNotFound)
    else Ok(200, user.value.user)
  }

  /** Behind `protect`, the current user is answered, and never with its
      password. */
  lemma MeHidesPassword(users: map<string, User>, authorization: Option<string>, verify: string -> Verified)
    requires Protect(users, authorization, verify).Ok?
    ensures GetMe(Some(Protect(users, authorization, verify).value)).Ok?
    ensures GetMe(Some(Protect(users, authorization, verify).value)).value.password.None?
    ensures GetMe(Some(Protect(users, authorization, verify).value)).value
            == WithoutPassword(users[Protect(users, authorization, verify).value.id])
  {
  }
}
