/**
 * The signed-in user's own profile: reading it, the partial update of the
 * personal fields (the people-only fields only for a people user) and the
 * password change.
 */
module ProfileController {
  import opened Js
  import opened Http
  import opened UserModel
  import opened Store
  import opened AuthMiddleware

  const UserNotFound := "User not found"
  const ProfileUpdated := "Profile updated successfully"
  const PasswordsMissing := "Please provide current and new password"
  const NewPasswordTooShort := "New password must be at least 6 characters long"
  const WrongPassword := "Incorrect current password"
  const PasswordChanged := "Password changed successfully."

  /** GET /api/profile/me: the user `protect` attached. */
  function GetMyProfile(user: Option<Caller>): (r: Outcome<User>)
    ensures user.None? ==> r == Throw(404, UserNotFound)
    ensures user.Some? ==> r == Ok(200, user.value.user)
  {
    if user.None? then Throw(404, UserNotFound) else Ok(200, user.value.user)
  }

  /** The profile shown is the stored document of the caller, without its
      password. */
  lemma ProfileIsStoredUser(users: map<string, User>, c: Caller)
    requires Authentic(users, c)
    ensures GetMyProfile(Some(c)).Ok?
    ensures GetMyProfile(Some(c)).value == WithoutPassword(users[c.id])
    ensures GetMyProfile(Some(c)).value.password.None?
  {
  }

  // ---------------------------------------------------------------------
  // PUT /api/profile/me
  // ---------------------------------------------------------------------

  /** The fields of the update body; None is a field that is absent or null. */
  datatype ProfileChanges = ProfileChanges(name: Option<string>, gender: Option<string>, age: Option<string>,
                                           dob: Option<int>, maritalStatus: Option<string>,
                                           occupation: Option<string>)

  /** The document after the `??` assignments, the schema setters applied,
      with `age` the cast value. */
  function ApplyProfile(u: User, c: ProfileChanges, age: int): (r: User)
    ensures r.name == (if c.name.Some? then Trim(c.name.value) else u.name)
    ensures r.gender == Coalesce(c.gender, u.gender) && r.age == age
    ensures u.role == People ==> r.dob == (if c.dob.Some? then c.dob else u.dob)
    ensures u.role == People ==> r.maritalStatus == (if c.maritalStatus.Some? then c.maritalStatus else u.maritalStatus)
    ensures u.role == People ==> r.occupation == (if c.occupation.Some? then Some(Trim(c.occupation.value)) else u.occupation)
    ensures u.role == Sarpanch ==> r.dob == u.dob && r.maritalStatus == u.maritalStatus && r.occupation == u.occupation
    ensures r.(name := u.name, gender := u.gender, age := u.age, dob := u.dob,
               maritalStatus := u.maritalStatus, occupation := u.occupation) == u
  {
    var base := u.(name := if c.name.Some? then Trim(c.name.value) else u.name,
                   gender := Coalesce(c.gender, u.gender), age := age);
    if u.role == People then
      base.(dob := if c.dob.Some? then c.dob else u.dob,
            maritalStatus := if c.maritalStatus.Some? then c.maritalStatus else u.maritalStatus,
            occupation := if c.occupation.Some? then Some(Trim(c.occupation.value)) else u.occupation)
    else base
  }

  /** An update body with no field leaves the document as it was. */
  lemma EmptyChangesKeepProfile(u: User)
    ensures AssignedAge(u.age, None) == Some(u.age)
    ensures ApplyProfile(u, ProfileChanges(None, None, None, None, None, None), u.age) == u
  {
  }

  /** The answer of updateMyProfile: the message and the saved document
      without its password. */
  function ProfileUpdate(users: map<string, User>, caller: Caller, c: ProfileChanges)
    : (r: Outcome<(string, User)>)
    ensures caller.id !in users ==> r == Throw(404, UserNotFound)
    ensures caller.id in users && AssignedAge(users[caller.id].age, c.age).None? ==>
              r == Forward(ValidationError("User", AgeCastFailure(ApplyProfile(users[caller.id], c, users[caller.id].age),
                                                                c.age.value)))
    ensures r.Ok? <==> caller.id in users && AssignedAge(users[caller.id].age, c.age).Some?
                       && SchemaRules(ApplyProfile(users[caller.id], c, AssignedAge(users[caller.id].age, c.age).value), None)
    ensures r.Ok? ==> r.status == 200 && r.value.0 == ProfileUpdated && r.value.1.password.None?
                      && r.value.1 == WithoutPassword(ApplyProfile(users[caller.id], c, AssignedAge(users[caller.id].age, c.age).value))
    ensures r.Fail? && caller.id in users && AssignedAge(users[caller.id].age, c.age).Some? ==>
              r == Forward(ValidationError("User", Violations(ApplyProfile(users[caller.id], c,
                                                                           AssignedAge(users[caller.id].age, c.age).value), None)))
  {
    if caller.id !in users then Throw(404, UserNotFound)
    else
      var u := users[caller.id];
      var age := AssignedAge(u.age, c.age);
      if age.None? then Forward(ValidationError("User", AgeCastFailure(ApplyProfile(u, c, u.age), c.age.value)))
      else
        var updated := ApplyProfile(u, c, age.value);
        var vs := Violations(updated, None);
        ViolationsAreSchemaRules(updated, None);
        if vs != [] then Forward(ValidationError("User", vs))
        else Ok(200, (ProfileUpdated, WithoutPassword(updated)))
  }

  /** A profile update that passes its validators can be saved: the contact
      fields, the role and the village are those already stored. */
  lemma ProfileSaveKeepsStore(users: map<string, User>, k: string, c: ProfileChanges, age: int)
    requires UsersValid(users) && k in users && SchemaRules(ApplyProfile(users[k], c, age), None)
    ensures Stored(ApplyProfile(users[k], c, age))
    ensures ApplyProfile(users[k], c, age).role == users[k].role
    ensures ApplyProfile(users[k], c, age).villageName == users[k].villageName
    ensures ContactsFree(users, k, ApplyProfile(users[k], c, age))
  {
    var u, a := users[k], ApplyProfile(users[k], c, age);
    assert Stored(u);
    assert a.password == u.password && a.mobile == u.mobile && a.email == u.email
           && a.villageName == u.villageName && a.aadhaarNo == u.aadhaarNo && a.role == u.role;
    if u.role == People && c.occupation.Some? {
      assert a.occupation == Some(Trim(c.occupation.value));
    } else {
      assert a.occupation == u.occupation;
    }
    SameContactsFree(users, k, a);
  }

  /** PUT /api/profile/me: answers as ProfileUpdate and, when it succeeds,
      saves the updated document. */
  method UpdateMyProfile(db: Db, caller: Caller, c: ProfileChanges) returns (o: Outcome<(string, User)>)
    requires db.Valid()
    modifies db`users
    ensures db.Valid()
    ensures o == ProfileUpdate(old(db.users), caller, c)
    ensures o.Ok? ==> db.users == old(db.users)[caller.id := ApplyProfile(old(db.users)[caller.id], c,
                                                                         AssignedAge(old(db.users)[caller.id].age, c.age).value)]
    ensures o.Fail? ==> unchanged(db`users)
  {
    o := ProfileUpdate(db.users, caller, c);
    if o.Ok? {
      var age := AssignedAge(db.users[caller.id].age, c.age).value;
      ProfileSaveKeepsStore(db.users, caller.id, c, age);
      db.SaveUser(caller.id, ApplyProfile(db.users[caller.id], c, age));
    }
  }

  // ---------------------------------------------------------------------
  // PUT /api/profile/change-password
  // ---------------------------------------------------------------------

  /** The answer of changeMyPassword: both passwords are required and the new
      one must be long enough before the store is consulted. */
  function PasswordChange(users: map<string, User>, caller: Caller, current: Option<string>,
                          next: Option<string>): (r: Outcome<string>)
    ensures !Present(current) || !Present(next) ==> r == Throw(400, PasswordsMissing)
    ensures Present(current) && Present(next) && Length(next.value) < MinPasswordLength ==>
              r == Throw(400, NewPasswordTooShort)
    ensures Present(current) && Present(next) && Length(next.value) >= MinPasswordLength ==>
              (caller.id !in users ==> r == Throw(404, UserNotFound))
              && (caller.id in users && !Accepts(users[caller.id], current.value) ==> r == Throw(401, WrongPassword))
    ensures r.Ok? <==> Present(current) && Present(next) && Length(next.value) >= MinPasswordLength
                       && caller.id in users && Accepts(users[caller.id], current.value)
    ensures r.Ok? ==> r == Ok(200, PasswordChanged)
  {
    if !Present(current) || !Present(next) then Throw(400, PasswordsMissing)
    else if Length(next.value) < MinPasswordLength then Throw(400, NewPasswordTooShort)
    else if caller.id !in users then Throw(404, UserNotFound)
    else if !Accepts(users[caller.id], current.value) then Throw(401, WrongPassword)
    else Ok(200, PasswordChanged)
  }

  /** The two request checks come before the lookup: their answers do not
      depend on the store. */
  lemma RequestChecksIgnoreStore(users: map<string, User>, users': map<string, User>, caller: Caller,
                                 current: Option<string>, next: Option<string>)
    requires !Present(current) || !Present(next) || Length(next.value) < MinPasswordLength
    ensures PasswordChange(users, caller, current, next) == PasswordChange(users', caller, current, next)
    ensures PasswordChange(users, caller, current, next).Fail?
  {
  }

  /** The document `user.save()` stores: the pre-save hook hashes the
      assigned password. */
  function WithPassword(u: User, next: string): (r: User)
    ensures r.password == PreSave(u.password, Some(next)) && r.password.Some?
    ensures r.(password := u.password) == u
  {
    u.(password := PreSave(u.password, Some(next)))
  }

  /** PUT /api/profile/change-password: answers as PasswordChange; on
      success only the caller's hash changes. */
  method ChangeMyPassword(db: Db, caller: Caller, current: Option<string>, next: Option<string>)
    returns (o: Outcome<string>)
    requires db.Valid()
    modifies db`users
    ensures db.Valid()
    ensures o == PasswordChange(old(db.users), caller, current, next)
    ensures o.Ok? ==> db.users == old(db.users)[caller.id := WithPassword(old(db.users)[caller.id], next.value)]
    ensures o.Fail? ==> unchanged(db`users)
  {
    o := PasswordChange(db.users, caller, current, next);
    if o.Ok? {
      var u := WithPassword(db.users[caller.id], next.value);
      assert Stored(db.users[caller.id]);
      SameContactsFree(db.users, caller.id, u);
      db.SaveUser(caller.id, u);
    }
  }

  /** After a password change the caller logs in with the new password and
      with no other, the old one included; before it, the old one was
      accepted. */
  lemma {:induction false} ChangedPasswordTakesOver(users: map<string, User>, caller: Caller,
                                                    current: string, next: string, other: string)
    requires PasswordChange(users, caller, Some(current), Some(next)).Ok?
    requires other != next
    ensures Accepts(users[caller.id], current)
    ensures Accepts(WithPassword(users[caller.id], next), next)
    ensures !Accepts(WithPassword(users[caller.id], next), other)
  {
    NewPasswordReplacesOld(users[caller.id].password, next, other);
  }
}
