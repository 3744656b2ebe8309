/**
 * The User schema: roles, the fields and their setters (trim, lowercase),
 * the validators Mongoose runs on save, the pre-save hook that hashes a
 * modified password, and matchPassword.
 */
module UserModel {
  import opened Js
  import opened Http

  datatype Role = Sarpanch | People

  function RoleName(r: Role): string
  {
    match r
    case Sarpanch => "sarpanch"
    case People => "people"
  }

  /** A bcrypt digest. The model's hash is an injective stand-in that keeps
      no salt; what matters to the handlers is matchPassword below. */
  datatype Digest = Digest(secret: string)

  function H(password: string): Digest
  {
    Digest(password)
  }

  /** `user.matchPassword(entered)`, i.e. bcrypt.compare(entered, stored). */
  predicate MatchPassword(stored: Digest, entered: string)
  {
    stored == H(entered)
  }

  lemma MatchesExactly(p: string, entered: string)
    ensures MatchPassword(H(p), entered) <==> entered == p
  {
  }

  const MinAge := 18
  const MinPasswordLength := 6
  const DefaultPhoto := "no-photo.jpg"
  const Genders := ["Male", "Female", "Other"]
  const MaritalStatuses := ["Single", "Married", "Divorced", "Widowed"]

  /** A user document. `password` is None when the field was not selected
      (the default, `select: false`) or was deleted from a response. */
  datatype User = User(
    role: Role,
    name: string,
    profilePhoto: string,
    mobile: string,
    email: string,
    password: Option<Digest>,
    gender: string,
    age: int,
    villageName: string,
    aadhaarNo: Option<string>,
    dob: Option<int>,
    maritalStatus: Option<string>,
    occupation: Option<string>,
    registeredAt: int,
    lastLogin: Option<int>)

  function EnumMessage(value: string, path: string): string
  {
    "`" + value + "` is not a valid enum value for path `" + path + "`."
  }

  /** No violation in `vs` is about the `age` path. */
  predicate NoAgePath(vs: seq<Violation>)
  {
    forall v :: v in vs ==> v.0 != "age"
  }

  /** The validators of the paths before `age`, in path order; `plain` is
      the new password when it was modified (validation runs before the
      pre-save hook hashes it). */
  function LeadingViolations(u: User, plain: Option<string>): (vs: seq<Violation>)
    ensures NoAgePath(vs)
  {
    Check(u.name == "", "name", "Please add a name")
    + Check(u.mobile == "", "mobile", "Please add a mobile number")
    + Check(u.email == "", "email", "Please add an email")
    + (if plain.None? then []
       else if plain.value == "" then [("password", "Please add a password")]
       else Check(Length(plain.value) < MinPasswordLength, "password",
                  "Password must be at least 6 characters long"))
    + (if u.gender == "" then [("gender", "Please specify gender")]
       else Check(u.gender !in Genders, "gender", EnumMessage(u.gender, "gender")))
  }

  /** The validators of the paths after `age`. */
  function TrailingViolations(u: User): (vs: seq<Violation>)
    ensures NoAgePath(vs)
  {
    Check(u.villageName == "", "villageName", "Please add village name")
    + Check(u.maritalStatus.Some? && u.maritalStatus.value !in MaritalStatuses,
            "maritalStatus", EnumMessage(if u.maritalStatus.Some? then u.maritalStatus.value else "", "maritalStatus"))
  }

  /** The validators of the schema, in path order, for a document about to
      be saved. */
  function Violations(u: User, plain: Option<string>): (vs: seq<Violation>)
    ensures forall i :: 0 <= i < |vs| && vs[i].0 == "age" ==> vs[i] == ("age", "Age must be at least 18")
    ensures u.age < MinAge <==> ("age", "Age must be at least 18") in vs
  {
    LeadingViolations(u, plain) + Check(u.age < MinAge, "age", "Age must be at least 18") + TrailingViolations(u)
  }

  /** The rules the validators enforce, on the new password when there is one. */
  predicate SchemaRules(u: User, plain: Option<string>)
  {
    && u.name != "" && u.mobile != "" && u.email != ""
    && (plain.Some? ==> Length(plain.value) >= MinPasswordLength)
    && u.gender in Genders && u.age >= MinAge && u.villageName != ""
    && (u.maritalStatus.Some? ==> u.maritalStatus.value in MaritalStatuses)
  }

  lemma {:induction false} ViolationsAreSchemaRules(u: User, plain: Option<string>)
    ensures Violations(u, plain) == [] <==> SchemaRules(u, plain)
  {
    if plain.Some? && plain.value == "" {
      assert Length(plain.value) == 0;
    }
  }

  /** A stored user: it passes its validators, its hash is present, and the
      setters' normal forms hold. */
  predicate Stored(u: User)
  {
    && SchemaRules(u, None)
    && u.password.Some?
    && IsTrimmed(u.name) && IsTrimmed(u.mobile) && IsTrimmed(u.villageName)
    && u.email == LowerTrimmed(u.email)
    && (u.aadhaarNo.Some? ==> IsTrimmed(u.aadhaarNo.value))
    && (u.occupation.Some? ==> IsTrimmed(u.occupation.value))
  }

  /** The pre-save hook: rehash only a modified password. */
  function PreSave(current: Option<Digest>, modified: Option<string>): (r: Option<Digest>)
    ensures modified.None? ==> r == current
    ensures modified.Some? ==> r.Some? && MatchPassword(r.value, modified.value)
  {
    if modified.Some? then Some(H(modified.value)) else current
  }

  /** A save that does not touch the password logs in exactly as before. */
  lemma {:induction false} UntouchedPasswordStillMatches(current: Digest, entered: string)
    ensures PreSave(Some(current), None) == Some(current)
    ensures MatchPassword(PreSave(Some(current), None).value, entered) == MatchPassword(current, entered)
  {
  }

  /** `user.matchPassword(password)` on a document read with its hash. */
  predicate Accepts(u: User, password: string)
  {
    u.password.Some? && MatchPassword(u.password.value, password)
  }

  /** A save with a new password accepts it and rejects every other one. */
  lemma NewPasswordReplacesOld(current: Option<Digest>, newPassword: string, other: string)
    requires other != newPassword
    ensures MatchPassword(PreSave(current, Some(newPassword)).value, newPassword)
    ensures !MatchPassword(PreSave(current, Some(newPassword)).value, other)
  {
  }

  /** Assigning a request value to the Number path `age`: Mongoose casts the
      empty string to null (which `required` then refuses) and other text as
      Number() does. None when the value cannot be stored. */
  function CastAge(given: string): (r: Option<int>)
    ensures r.Some? <==> given != "" && ToNumber(given).Int?
    ensures r.Some? ==> r.value == ToNumber(given).v
  {
    if given != "" && ToNumber(given).Int? then Some(ToNumber(given).v) else None
  }

  /** The age a document holds after `doc.age = given ?? doc.age`, or None
      when the value sent does not cast. */
  function AssignedAge(current: int, given: Option<string>): (r: Option<int>)
    ensures given.None? ==> r == Some(current)
    ensures given.Some? ==> r == CastAge(given.value)
    ensures r.Some? && given.Some? ==> given.value != "" && r.value == ToNumber(given.value).v
  {
    if given.None? then Some(current) else CastAge(given.value)
  }

  /** The validation error of an `age` that did not cast. */
  function AgeCastViolation(given: string): Violation
  {
    if given == "" then ("age", "Please add age")
    else ("age", "Cast to Number failed for value \"" + given + "\" (type string) at path \"age\"")
  }

  /** The errors of `save()` after an `age` assignment that did not cast, on
      the document `u` the other assignments produced. Text that is not a
      number is recorded as a CastError when it is assigned, so it comes
      first, and the age validators are skipped; the empty string is cast to
      null, which `required` refuses in path order. Every other path is
      validated as usual. */
  function AgeCastFailure(u: User, given: string): (vs: seq<Violation>)
    requires CastAge(given).None?
    ensures AgeCastViolation(given) in vs
    ensures given != "" ==> vs[0] == AgeCastViolation(given)
    ensures forall v :: v in vs && v.0 != "age" <==> v in Violations(u, None) && v.0 != "age"
    ensures forall v :: v in vs && v.0 == "age" ==> v == AgeCastViolation(given)
  {
    var lead, trail := LeadingViolations(u, None), TrailingViolations(u);
    assert Violations(u, None) == lead + Check(u.age < MinAge, "age", "Age must be at least 18") + trail;
    if given == "" then lead + [AgeCastViolation(given)] + trail
    else [AgeCastViolation(given)] + lead + trail
  }

  /** `delete userResponse.password` / `.select('-password')`. */
  function WithoutPassword(u: User): (r: User)
    ensures r.password.None?
    ensures r.(password := u.password) == u
  {
    u.(password := None)
  }

  /** What a response shows does not depend on the password. */
  lemma ResponseHidesPassword(u: User, d: Digest)
    ensures WithoutPassword(u) == WithoutPassword(u.(password := Some(d)))
  {
  }

  /** The registration document `User.create` saves: the schema setters
      applied, the optional fields unset, and the password hashed by the
      pre-save hook. */
  function NewUser(role: Role, name: string, profilePhoto: string, villageName: string,
                   mobile: string, aadhaarNo: Option<string>, email: string, gender: string,
                   age: int, password: string, now: int): (u: User)
    ensures u.role == role && u.registeredAt == now && u.lastLogin.None?
    ensures u.name == Trim(name) && u.mobile == Trim(mobile) && u.villageName == Trim(villageName)
    ensures u.email == LowerTrimmed(email) && u.email == LowerTrimmed(u.email)
    ensures u.aadhaarNo == (if aadhaarNo.Some? then Some(Trim(aadhaarNo.value)) else None)
    ensures u.profilePhoto == profilePhoto && u.gender == gender && u.age == age
    ensures u.password.Some? && MatchPassword(u.password.value, password)
    ensures u.dob.None? && u.maritalStatus.None? && u.occupation.None?
  {
    LowerTrimmedIdempotent(email);
    User(role, Trim(name), profilePhoto, Trim(mobile), LowerTrimmed(email),
         PreSave(None, Some(password)), gender, age, Trim(villageName),
         if aadhaarNo.Some? then Some(Trim(aadhaarNo.value)) else None,
         None, None, None, now, None)
  }

  /** A registration document that passes its validators is a stored user. */
  lemma NewUserStored(role: Role, name: string, profilePhoto: string, villageName: string,
                      mobile: string, aadhaarNo: Option<string>, email: string, gender: string,
                      age: int, password: string, now: int)
    requires Violations(NewUser(role, name, profilePhoto, villageName, mobile, aadhaarNo,
                                email, gender, age, password, now), Some(password)) == []
    ensures Stored(NewUser(role, name, profilePhoto, villageName, mobile, aadhaarNo,
                           email, gender, age, password, now))
  {
    var u := NewUser(role, name, profilePhoto, villageName, mobile, aadhaarNo,
                     email, gender, age, password, now);
    ViolationsAreSchemaRules(u, Some(password));
    ViolationsAreSchemaRules(u, None);
  }
}
