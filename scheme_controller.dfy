/**
 * The government-scheme handlers: the sarpanch adds a scheme entry (an
 * image URL may come with the body; nothing is uploaded) and deletes their
 * own entries; everyone lists the entries of their village.
 */
module SchemeController {
  import opened Js
  import opened Http
  import opened UserModel
  import opened Store
  import opened Listing
  import opened AuthMiddleware
  import S = SchemeModel

  const PageSize := 10
  const FieldsRequired := "Scheme heading and details are required."
  const NotAuthorized := "User not authorized to delete this scheme"

  function InvalidId(id: string): string
  {
    "Invalid scheme ID format: " + id
  }

  function SchemeMissing(id: string): string
  {
    "Scheme not found with ID: " + id
  }

  // ---------------------------------------------------------------------
  // POST /api/schemes
  // ---------------------------------------------------------------------

  /** The answer of addScheme. Heading and details need only be truthy;
      the schema then trims the heading and validates what it stores. */
  function SchemeCreation(caller: Caller, heading: Option<string>, details: Option<string>,
                          imageUrl: Option<string>, now: int): (r: Outcome<S.Scheme>)
    ensures !Present(heading) || !Present(details) ==> r == Throw(400, FieldsRequired)
    ensures r.Ok? <==> Present(heading) && Present(details) && Trim(caller.user.villageName) != ""
                       && Trim(heading.value) != "" && Length(Trim(heading.value)) <= S.MaxHeadingLength
                       && caller.id != ""
    ensures r.Ok? ==> r.status == 201
                      && r.value.heading == Trim(heading.value) && r.value.details == details.value
                      && r.value.villageName == Trim(caller.user.villageName) && r.value.addedBy == caller.id
                      && r.value.addedAt == now
                      && r.value.imageUrl == (if Present(imageUrl) then Some(Trim(imageUrl.value)) else None)
    ensures r.Fail? && Present(heading) && Present(details) ==>
              r == Forward(ValidationError("Scheme", S.Violations(S.NewScheme(caller.user.villageName,
                                                                               heading.value, details.value,
                                                                               if Present(imageUrl) then imageUrl else None,
                                                                               caller.id, now))))
  {
    if !Present(heading) || !Present(details) then Throw(400, FieldsRequired)
    else
      var s := S.NewScheme(caller.user.villageName, heading.value, details.value,
                           if Present(imageUrl) then imageUrl else None, caller.id, now);
      var vs := S.Violations(s);
      if vs != [] then Forward(ValidationError("Scheme", vs)) else Ok(201, s)
  }

  /** A heading of white space passes the handler's check and is refused by
      the schema once trimmed. */
  lemma BlankHeadingRefusedBySchema(caller: Caller, details: string, imageUrl: Option<string>, now: int)
    requires details != ""
    ensures SchemeCreation(caller, Some(" "), Some(details), imageUrl, now).Fail?
    ensures SchemeCreation(caller, Some(" "), Some(details), imageUrl, now) != Throw(400, FieldsRequired)
  {
    assert Trim(" ") == "" by {
      assert IsSpace(' ');
    }
    assert Present(Some(" "));
  }

  /** POST /api/schemes (sarpanch only). */
  method AddScheme(db: Db, caller: Caller, heading: Option<string>, details: Option<string>,
                   imageUrl: Option<string>, newId: string, now: int) returns (o: Outcome<S.Scheme>)
    requires db.Valid() && IsKey(newId) && newId !in db.schemes && caller.user.role == Sarpanch
    modifies db`schemes
    ensures db.Valid()
    ensures o == SchemeCreation(caller, heading, details, imageUrl, now)
    ensures o.Ok? ==> db.schemes == old(db.schemes)[newId := o.value]
    ensures o.Fail? ==> unchanged(db`schemes)
  {
    o := SchemeCreation(caller, heading, details, imageUrl, now);
    if o.Ok? {
      S.NewSchemeStored(caller.user.villageName, heading.value, details.value,
                        if Present(imageUrl) then imageUrl else None, caller.id, now);
      db.PutScheme(newId, o.value);
    }
  }

  // ---------------------------------------------------------------------
  // GET /api/schemes
  // ---------------------------------------------------------------------

  /** The filter `{ villageName }`, through the schema's trim setter. */
  predicate InVillage(caller: Caller, s: S.Scheme)
  {
    s.villageName == Trim(caller.user.villageName)
  }

  /** GET /api/schemes: the entries of the caller's village, ten to a page. */
  function GetSchemesForVillage(schemes: map<string, S.Scheme>, order: seq<string>, caller: Caller,
                                pageQuery: Option<string>): (r: Outcome<Page<S.Scheme>>)
    ensures r.Fail? <==> SkipOf(PageSize, pageQuery) < 0
    ensures r.Ok? ==> r.value.totalCount == |Matching(schemes, s => InVillage(caller, s))|
    ensures r.Ok? ==> r.value.pages == CeilDiv(r.value.totalCount, PageSize) && r.value.count <= PageSize
    ensures r.Ok? ==> forall i :: 0 <= i < |r.value.items| ==>
              r.value.items[i].0 in schemes && r.value.items[i].1 == schemes[r.value.items[i].0]
              && r.value.items[i].1.villageName == Trim(caller.user.villageName)
  {
    Paginate(schemes, order, s => InVillage(caller, s), s => s, pageQuery, PageSize)
  }

  // ---------------------------------------------------------------------
  // DELETE /api/schemes/:id
  // ---------------------------------------------------------------------

  /** The answer of deleteScheme: 400, 404 and 403 in that order; the
      message names the heading of the entry removed. */
  function SchemeDeletion(schemes: map<string, S.Scheme>, caller: Caller, id: string): (r: Outcome<string>)
    ensures !IsObjectId(id) ==> r == Throw(400, InvalidId(id))
    ensures IsObjectId(id) && Key(id) !in schemes ==> r == Throw(404, SchemeMissing(id))
    ensures IsObjectId(id) && Key(id) in schemes && schemes[Key(id)].addedBy != caller.id ==>
              r == Throw(403, NotAuthorized)
    ensures r.Ok? <==> IsObjectId(id) && Key(id) in schemes && schemes[Key(id)].addedBy == caller.id
    ensures r.Ok? ==> r == Ok(200, "Scheme '" + schemes[Key(id)].heading + "' deleted successfully")
  {
    var found := FindOwned(schemes, id, (s: S.Scheme) => s.addedBy, caller.id,
                           InvalidId(id), SchemeMissing(id), NotAuthorized);
    if found.Fail? then Fail(found.preset, found.error)
    else Ok(200, "Scheme '" + schemes[found.value].heading + "' deleted successfully")
  }

  /** DELETE /api/schemes/:id (sarpanch only). */
  method DeleteScheme(db: Db, caller: Caller, id: string) returns (o: Outcome<string>)
    requires db.Valid() && caller.user.role == Sarpanch
    modifies db`schemes
    ensures db.Valid()
    ensures o == SchemeDeletion(old(db.schemes), caller, id)
    ensures o.Ok? ==> db.schemes == old(db.schemes) - {Key(id)}
    ensures o.Fail? ==> unchanged(db`schemes)
  {
    o := SchemeDeletion(db.schemes, caller, id);
    if o.Ok? {
      db.DeleteScheme(Key(id));
    }
  }
}
