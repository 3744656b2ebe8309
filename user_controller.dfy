/**
 * The sarpanch's management of the people of the village: the searchable
 * listing, one person's details, the partial update and the deletion. Each
 * handler on one person checks the id format (400) and then that the record
 * is a people user of the sarpanch's own village (404).
 */
module UserController {
  import opened Js
  import opened Http
  import opened UserModel
  import opened Store
  import opened Listing
  import opened AuthMiddleware
  import A = AuthController

  const PageSize := 10
  const PersonUpdated := "Person details updated successfully"

  // ---------------------------------------------------------------------
  // GET /api/users/people
  // ---------------------------------------------------------------------

  /** The `$regex` test with option `i`, for a search text without regular
      expression syntax: a case-insensitive infix. */
  predicate MatchesText(field: string, search: string)
  {
    HasInfix(ToLower(field), ToLower(search))
  }

  /** The `$or` of the search: name, mobile or Aadhaar number. */
  predicate MatchesSearch(u: User, search: string)
  {
    MatchesText(u.name, search) || MatchesText(u.mobile, search)
    || (u.aadhaarNo.Some? && MatchesText(u.aadhaarNo.value, search))
  }

  /** The filter of getPeopleInVillage: people users of the sarpanch's
      village (the query value goes through the trim setter), and the search
      when one is given. */
  predicate Listed(caller: Caller, search: Option<string>, u: User)
  {
    u.villageName == Trim(caller.user.villageName) && u.role == People
    && (Present(search) ==> MatchesSearch(u, search.value))
  }

  /** GET /api/users/people (sarpanch only), ten to a page, without
      passwords. */
  function GetPeopleInVillage(users: map<string, User>, order: seq<string>, caller: Caller,
                              search: Option<string>, pageQuery: Option<string>): (r: Outcome<Page<User>>)
    requires caller.user.role == Sarpanch
    ensures r.Fail? <==> SkipOf(PageSize, pageQuery) < 0
    ensures r.Ok? ==> r.value.totalCount == |Matching(users, u => Listed(caller, search, u))|
    ensures r.Ok? ==> r.value.pages == CeilDiv(r.value.totalCount, PageSize) && r.value.count <= PageSize
    ensures r.Ok? ==> forall i :: 0 <= i < |r.value.items| ==>
              r.value.items[i].0 in users && r.value.items[i].1 == WithoutPassword(users[r.value.items[i].0])
              && r.value.items[i].1.role == People
              && r.value.items[i].1.villageName == Trim(caller.user.villageName)
              && r.value.items[i].1.password.None?
              && (Present(search) ==> MatchesSearch(users[r.value.items[i].0], search.value))
  {
    Paginate(users, order, u => Listed(caller, search, u), WithoutPassword, pageQuery, PageSize)
  }

  /** A search narrows the listing: every person it finds is also listed
      without it. */
  lemma SearchNarrowsListing(users: map<string, User>, caller: Caller, search: Option<string>)
    ensures Matching(users, u => Listed(caller, search, u)) <= Matching(users, u => Listed(caller, None, u))
  {
  }

  /** No sarpanch is ever listed, whatever the search. */
  lemma ListingHasNoSarpanch(users: map<string, User>, caller: Caller, search: Option<string>, k: string)
    requires k in users && users[k].role == Sarpanch
    ensures k !in Matching(users, u => Listed(caller, search, u))
  {
  }

  // ---------------------------------------------------------------------
  // One person
  // ---------------------------------------------------------------------

  /** The scope test, compared in JavaScript against the caller's village. */
  predicate InScope(caller: Caller, u: User)
  {
    u.villageName == caller.user.villageName && u.role == People
  }

  function InvalidId(id: string): string
  {
    "Invalid person ID format: " + id
  }

  /** The 404 message of getPersonById. */
  function NotFound(id: string, caller: Caller): string
  {
    "Person not found with ID " + id + " in village " + caller.user.villageName
  }

  /** The 404 message of the update and the delete. */
  function NotFoundOrRole(id: string, caller: Caller): string
  {
    NotFound(id, caller) + " or invalid role"
  }

  /** GET /api/users/people/:id (sarpanch only). */
  function GetPersonById(users: map<string, User>, caller: Caller, id: string): (r: Outcome<User>)
    requires caller.user.role == Sarpanch
    ensures !IsObjectId(id) ==> r == Throw(400, InvalidId(id))
    ensures IsObjectId(id) && r.Fail? ==> r == Throw(404, NotFound(id, caller))
    ensures r.Ok? <==> IsObjectId(id) && Key(id) in users && InScope(caller, users[Key(id)])
    ensures r.Ok? ==> r.status == 200 && r.value == WithoutPassword(users[Key(id)]) && r.value.password.None?
  {
    var found := FindVisible(users, id, u => InScope(caller, u), InvalidId(id), NotFound(id, caller));
    if found.Fail? then Fail(found.preset, found.error) else Ok(200, WithoutPassword(users[found.value]))
  }

  /** The fields of the update body; None is a field that is absent or null. */
  datatype PersonChanges = PersonChanges(name: Option<string>, mobile: Option<string>, email: Option<string>,
                                         gender: Option<string>, age: Option<string>,
                                         aadhaarNo: Option<string>, dob: Option<int>,
                                         maritalStatus: Option<string>, occupation: Option<string>)

  /** The text a setter-trimmed field holds after `field = given ?? field`. */
  function Assigned(given: Option<string>, current: string): (r: string)
    ensures given.None? ==> r == current
    ensures given.Some? ==> r == Trim(given.value)
  {
    if given.Some? then Trim(given.value) else current
  }

  /** The document after the nine `??` assignments, setters applied, with
      `age` the cast value. */
  function ApplyPerson(u: User, c: PersonChanges, age: int): (r: User)
    ensures r.name == Assigned(c.name, u.name) && r.mobile == Assigned(c.mobile, u.mobile)
    ensures r.email == (if c.email.Some? then LowerTrimmed(c.email.value) else u.email)
    ensures r.gender == Coalesce(c.gender, u.gender) && r.age == age
    ensures r.aadhaarNo == (if c.aadhaarNo.Some? then Some(Trim(c.aadhaarNo.value)) else u.aadhaarNo)
    ensures r.dob == (if c.dob.Some? then c.dob else u.dob)
    ensures r.maritalStatus == (if c.maritalStatus.Some? then c.maritalStatus else u.maritalStatus)
    ensures r.occupation == (if c.occupation.Some? then Some(Trim(c.occupation.value)) else u.occupation)
    ensures r.role == u.role && r.villageName == u.villageName && r.password == u.password
    ensures r.profilePhoto == u.profilePhoto && r.registeredAt == u.registeredAt && r.lastLogin == u.lastLogin
  {
    u.(name := Assigned(c.name, u.name), mobile := Assigned(c.mobile, u.mobile),
       email := if c.email.Some? then LowerTrimmed(c.email.value) else u.email,
       gender := Coalesce(c.gender, u.gender), age := age,
       aadhaarNo := if c.aadhaarNo.Some? then Some(Trim(c.aadhaarNo.value)) else u.aadhaarNo,
       dob := if c.dob.Some? then c.dob else u.dob,
       maritalStatus := if c.maritalStatus.Some? then c.maritalStatus else u.maritalStatus,
       occupation := if c.occupation.Some? then Some(Trim(c.occupation.value)) else u.occupation)
  }

  /** The unique index the updated document breaks, mobile before email
      (the order the indexes are declared in), or None. */
  function BrokenIndex(users: map<string, User>, k: string, u: User): (r: Option<(string, string)>)
    ensures r.None? <==> ContactsFree(users, k, u)
    ensures r.Some? ==> r.value == ("mobile", u.mobile) || r.value == ("email", u.email)
    ensures r == Some(("mobile", u.mobile)) ==> exists j :: j in users && j != k && users[j].mobile == u.mobile
    ensures r == Some(("email", u.email)) && r != Some(("mobile", u.mobile)) ==>
              exists j :: j in users && j != k && users[j].email == u.email
  {
    if exists j :: j in users && j != k && users[j].mobile == u.mobile then Some(("mobile", u.mobile))
    else if exists j :: j in users && j != k && users[j].email == u.email then Some(("email", u.email))
    else None
  }

  /** The answer of updatePersonDetails. The Aadhaar check runs on the raw
      body value, after the assignments and before the save; the save runs
      the validators and then meets the unique indexes. */
  function PersonUpdate(users: map<string, User>, caller: Caller, id: string, c: PersonChanges)
    : (r: Outcome<(string, User)>)
    ensures !IsObjectId(id) ==> r == Throw(400, InvalidId(id))
    ensures IsObjectId(id) && !(Key(id) in users && InScope(caller, users[Key(id)])) ==>
              r == Throw(404, NotFoundOrRole(id, caller))
    ensures IsObjectId(id) && Key(id) in users && InScope(caller, users[Key(id)])
            && Present(c.aadhaarNo) && !A.AadhaarValid(c.aadhaarNo.value) ==>
              r == Throw(400, A.AadhaarInvalid)
    ensures r.Ok? <==> IsObjectId(id) && Key(id) in users && InScope(caller, users[Key(id)])
                       && !(Present(c.aadhaarNo) && !A.AadhaarValid(c.aadhaarNo.value))
                       && AssignedAge(users[Key(id)].age, c.age).Some?
                       && SchemaRules(ApplyPerson(users[Key(id)], c, AssignedAge(users[Key(id)].age, c.age).value), None)
                       && ContactsFree(users, Key(id), ApplyPerson(users[Key(id)], c, AssignedAge(users[Key(id)].age, c.age).value))
    ensures r.Ok? ==> r.status == 200 && r.value.0 == PersonUpdated && r.value.1.password.None?
                      && r.value.1 == WithoutPassword(ApplyPerson(users[Key(id)], c, AssignedAge(users[Key(id)].age, c.age).value))
  {
    var found := FindVisible(users, id, u => InScope(caller, u), InvalidId(id), NotFoundOrRole(id, caller));
    if found.Fail? then Fail(found.preset, found.error)
    else
      var k := found.value;
      if Present(c.aadhaarNo) && !A.AadhaarValid(c.aadhaarNo.value) then Throw(400, A.AadhaarInvalid)
      else
        var age := AssignedAge(users[k].age, c.age);
        if age.None? then Forward(ValidationError("User", AgeCastFailure(ApplyPerson(users[k], c, users[k].age), c.age.value)))
        else
          var updated := ApplyPerson(users[k], c, age.value);
          var vs := Violations(updated, None);
          ViolationsAreSchemaRules(updated, None);
          if vs != [] then Forward(ValidationError("User", vs))
          else
            var broken := BrokenIndex(users, k, updated);
            if broken.Some? then Forward(DuplicateKeyError(broken.value.0, broken.value.1))
            else Ok(200, (PersonUpdated, WithoutPassword(updated)))
  }

  /** Past the lookup and the Aadhaar check, a refused update forwards what
      the save meets first: the failed age cast, then the validators, then
      the unique index that the merged document breaks. */
  lemma PersonUpdateFailures(users: map<string, User>, caller: Caller, id: string, c: PersonChanges)
    requires IsObjectId(id) && Key(id) in users && InScope(caller, users[Key(id)])
    requires !(Present(c.aadhaarNo) && !A.AadhaarValid(c.aadhaarNo.value))
    ensures AssignedAge(users[Key(id)].age, c.age).None? ==>
              PersonUpdate(users, caller, id, c)
              == Forward(ValidationError("User", AgeCastFailure(ApplyPerson(users[Key(id)], c, users[Key(id)].age), c.age.value)))
    ensures AssignedAge(users[Key(id)].age, c.age).Some? ==>
              var updated := ApplyPerson(users[Key(id)], c, AssignedAge(users[Key(id)].age, c.age).value);
              (!SchemaRules(updated, None) ==>
                 PersonUpdate(users, caller, id, c) == Forward(ValidationError("User", Violations(updated, None))))
              && (SchemaRules(updated, None) && !ContactsFree(users, Key(id), updated) ==>
                    var b := BrokenIndex(users, Key(id), updated);
                    b.Some? && PersonUpdate(users, caller, id, c) == Forward(DuplicateKeyError(b.value.0, b.value.1)))
  {
    if AssignedAge(users[Key(id)].age, c.age).Some? {
      ViolationsAreSchemaRules(ApplyPerson(users[Key(id)], c, AssignedAge(users[Key(id)].age, c.age).value), None);
    }
  }

  /** A sarpanch cannot update a sarpanch, nor anyone of another village. */
  lemma UpdateStaysInScope(users: map<string, User>, caller: Caller, id: string, c: PersonChanges)
    requires PersonUpdate(users, caller, id, c).Ok?
    ensures users[Key(id)].role == People && users[Key(id)].villageName == caller.user.villageName
  {
  }

  /** An accepted update can be saved. */
  lemma PersonSaveKeepsStore(users: map<string, User>, k: string, c: PersonChanges, age: int)
    requires UsersValid(users) && k in users
    requires SchemaRules(ApplyPerson(users[k], c, age), None) && ContactsFree(users, k, ApplyPerson(users[k], c, age))
    ensures Stored(ApplyPerson(users[k], c, age))
  {
    assert Stored(users[k]);
    var u := ApplyPerson(users[k], c, age);
    if c.email.Some? {
      LowerTrimmedIdempotent(c.email.value);
    }
  }

  /** PUT /api/users/people/:id (sarpanch only): answers as PersonUpdate and,
      when it succeeds, saves the document. */
  method UpdatePersonDetails(db: Db, caller: Caller, id: string, c: PersonChanges)
    returns (o: Outcome<(string, User)>)
    requires db.Valid() && caller.user.role == Sarpanch
    modifies db`users
    ensures db.Valid()
    ensures o == PersonUpdate(old(db.users), caller, id, c)
    ensures o.Ok? ==> db.users == old(db.users)[Key(id) := ApplyPerson(old(db.users)[Key(id)], c,
                                                                       AssignedAge(old(db.users)[Key(id)].age, c.age).value)]
    ensures o.Fail? ==> unchanged(db`users)
  {
    o := PersonUpdate(db.users, caller, id, c);
    if o.Ok? {
      var k := Key(id);
      var age := AssignedAge(db.users[k].age, c.age).value;
      PersonSaveKeepsStore(db.users, k, c, age);
      db.SaveUser(k, ApplyPerson(db.users[k], c, age));
    }
  }

  /** The answer of deletePerson. */
  function PersonDeletion(users: map<string, User>, caller: Caller, id: string): (r: Outcome<string>)
    ensures !IsObjectId(id) ==> r == Throw(400, InvalidId(id))
    ensures IsObjectId(id) && r.Fail? ==> r == Throw(404, NotFoundOrRole(id, caller))
    ensures r.Ok? <==> IsObjectId(id) && Key(id) in users && InScope(caller, users[Key(id)])
    ensures r.Ok? ==> r == Ok(200, "Person '" + users[Key(id)].name + "' deleted successfully")
  {
    var found := FindVisible(users, id, u => InScope(caller, u), InvalidId(id), NotFoundOrRole(id, caller));
    if found.Fail? then Fail(found.preset, found.error)
    else Ok(200, "Person '" + users[found.value].name + "' deleted successfully")
  }

  /** DELETE /api/users/people/:id (sarpanch only): removes exactly the
      record that passed the scope check. */
  method DeletePerson(db: Db, caller: Caller, id: string) returns (o: Outcome<string>)
    requires db.Valid() && caller.user.role == Sarpanch
    modifies db`users
    ensures db.Valid()
    ensures o == PersonDeletion(old(db.users), caller, id)
    ensures o.Ok? ==> db.users == old(db.users) - {Key(id)} && Key(id) in old(db.users)
    ensures o.Fail? ==> unchanged(db`users)
  {
    o := PersonDeletion(db.users, caller, id);
    if o.Ok? {
      db.DeleteUser(Key(id));
    }
  }

  /** A sarpanch record is never deleted by this route. */
  lemma SarpanchNeverDeleted(users: map<string, User>, caller: Caller, id: string)
    requires IsObjectId(id) && Key(id) in users && users[Key(id)].role == Sarpanch
    ensures PersonDeletion(users, caller, id).Fail?
  {
  }
}
