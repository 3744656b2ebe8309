/**
 * The complaint handlers. A people user submits complaints and lists their
 * own; the sarpanch lists the complaints of the village, replies to them
 * and marks them viewed. Each state-changing handler runs its guards in
 * order and changes only the complaint collection, and only after every
 * guard has passed.
 */
module ComplaintController {
  import opened Js
  import opened Http
  import opened UserModel
  import opened Store
  import opened Listing
  import opened AuthMiddleware
  import C = ComplaintModel

  const PageSize := 10

  /** POST /api/complaints (people only). `newId` is the ObjectId the
      driver assigns, `now` the time of the request. */
  method SubmitComplaint(db: Db, caller: Caller, subject: Option<string>, details: Option<string>,
                         newId: string, now: int) returns (o: Outcome<C.Complaint>)
    requires db.Valid() && caller.user.role == People
    requires IsKey(newId) && newId !in db.complaints
    modifies db`complaints
    ensures db.Valid()
    ensures !Present(subject) || !Present(details) ==>
              o == Throw(400, "Complaint subject and details are required.")
    ensures o.Ok? <==> Present(subject) && Present(details)
                       && C.Violations(C.NewComplaint(caller.user.villageName, subject.value, details.value,
                                                      caller.id, now)) == []
    ensures o.Ok? ==> o.status == 201
                      && o.value == C.NewComplaint(caller.user.villageName, subject.value, details.value, caller.id, now)
                      && o.value.status == C.Pending && o.value.submittedBy == caller.id
                      && db.complaints == old(db.complaints)[newId := o.value]
    ensures o.Fail? && Present(subject) && Present(details) ==>
              o == Forward(ValidationError("Complaint", C.Violations(C.NewComplaint(caller.user.villageName,
                                                                                      subject.value, details.value,
                                                                                      caller.id, now))))
    ensures o.Fail? ==> db.complaints == old(db.complaints)
  {
    if !Present(subject) || !Present(details) {
      return Throw(400, "Complaint subject and details are required.");
    }
    var c := C.NewComplaint(caller.user.villageName, subject.value, details.value, caller.id, now);
    var vs := C.Violations(c);
    if vs != [] {
      return Forward(ValidationError("Complaint", vs));
    }
    C.NewComplaintStored(caller.user.villageName, subject.value, details.value, caller.id, now);
    db.PutComplaint(newId, c);
    o := Ok(201, c);
  }

  /** The filter `{ submittedBy: user._id }`. */
  predicate SubmittedBy(caller: Caller, c: C.Complaint)
  {
    c.submittedBy == caller.id
  }

  /** GET /api/complaints/my-complaints (people only): the caller's own
      complaints, ten to a page. */
  function GetMyComplaints(complaints: map<string, C.Complaint>, order: seq<string>, caller: Caller,
                           pageQuery: Option<string>): (r: Outcome<Page<C.Complaint>>)
    requires caller.user.role == People
    ensures r.Fail? <==> SkipOf(PageSize, pageQuery) < 0
    ensures r.Ok? ==> r.value.totalCount == |Matching(complaints, c => SubmittedBy(caller, c))|
    ensures r.Ok? ==> r.value.pages == CeilDiv(r.value.totalCount, PageSize) && r.value.count <= PageSize
    ensures r.Ok? ==> forall i :: 0 <= i < |r.value.items| ==>
              r.value.items[i].0 in complaints && r.value.items[i].1 == complaints[r.value.items[i].0]
              && r.value.items[i].1.submittedBy == caller.id
  {
    Paginate(complaints, order, c => SubmittedBy(caller, c), c => c, pageQuery, PageSize)
  }

  /** The filter `{ villageName, ...(status ? { status } : {}) }`; the
      village value goes through the schema's trim setter. */
  predicate InVillageWithStatus(caller: Caller, statusQuery: Option<string>, c: C.Complaint)
  {
    c.villageName == Trim(caller.user.villageName)
    && (Present(statusQuery) ==> C.StatusName(c.status) == statusQuery.value)
  }

  /** GET /api/complaints/village (sarpanch only). */
  function GetVillageComplaints(complaints: map<string, C.Complaint>, order: seq<string>, caller: Caller,
                                statusQuery: Option<string>, pageQuery: Option<string>): (r: Outcome<Page<C.Complaint>>)
    requires caller.user.role == Sarpanch
    ensures r.Fail? <==> SkipOf(PageSize, pageQuery) < 0
    ensures r.Ok? ==> r.value.totalCount == |Matching(complaints, c => InVillageWithStatus(caller, statusQuery, c))|
    ensures r.Ok? ==> r.value.pages == CeilDiv(r.value.totalCount, PageSize) && r.value.count <= PageSize
    ensures r.Ok? ==> forall i :: 0 <= i < |r.value.items| ==>
              r.value.items[i].0 in complaints && r.value.items[i].1 == complaints[r.value.items[i].0]
              && r.value.items[i].1.villageName == Trim(caller.user.villageName)
              && (Present(statusQuery) ==> C.StatusName(r.value.items[i].1.status) == statusQuery.value)
  {
    Paginate(complaints, order, c => InVillageWithStatus(caller, statusQuery, c), c => c, pageQuery, PageSize)
  }

  /** A status query that names no status matches no complaint. */
  lemma UnknownStatusMatchesNothing(complaints: map<string, C.Complaint>, caller: Caller, statusQuery: Option<string>)
    requires Present(statusQuery) && C.StatusOf(statusQuery.value).None?
    ensures Matching(complaints, c => InVillageWithStatus(caller, statusQuery, c)) == {}
  {
  }

  /** The scope test of the sarpanch handlers, compared in JavaScript. */
  predicate SameVillage(caller: Caller, c: C.Complaint)
  {
    c.villageName == caller.user.villageName
  }

  function InvalidId(id: string): string
  {
    "Invalid complaint ID format: " + id
  }

  function NotInVillage(id: string, caller: Caller): string
  {
    "Complaint not found with ID " + id + " in village " + caller.user.villageName
  }

  /** The guards of the sarpanch handlers: id format (400), then the lookup
      and the village (404). */
  function FindInVillage(complaints: map<string, C.Complaint>, id: string, caller: Caller): (r: Outcome<string>)
    ensures r == FindVisible(complaints, id, c => SameVillage(caller, c), InvalidId(id), NotInVillage(id, caller))
    ensures r.Ok? ==> r.value in complaints && SameVillage(caller, complaints[r.value])
  {
    FindVisible(complaints, id, c => SameVillage(caller, c), InvalidId(id), NotInVillage(id, caller))
  }

  /** PUT /api/complaints/reply/:id (sarpanch only). */
  method ReplyToComplaint(db: Db, caller: Caller, id: string, reply: Option<string>, now: int)
    returns (o: Outcome<C.Complaint>)
    requires db.Valid() && caller.user.role == Sarpanch
    modifies db`complaints
    ensures db.Valid()
    ensures !Present(reply) ==> o == Throw(400, "Reply text is required.")
    ensures Present(reply) && !IsObjectId(id) ==> o == Throw(400, InvalidId(id))
    ensures Present(reply) && IsObjectId(id) && o.Fail? ==> o == Throw(404, NotInVillage(id, caller))
    ensures o.Ok? <==> Present(reply) && IsObjectId(id) && Key(id) in old(db.complaints)
                       && SameVillage(caller, old(db.complaints)[Key(id)])
    ensures o.Ok? ==> o.status == 200
                      && o.value == C.ReplyTo(old(db.complaints)[Key(id)], reply.value, caller.id, now)
                      && db.complaints == old(db.complaints)[Key(id) := o.value]
    ensures o.Fail? ==> db.complaints == old(db.complaints)
  {
    if !Present(reply) {
      return Throw(400, "Reply text is required.");
    }
    var found := FindInVillage(db.complaints, id, caller);
    if found.Fail? {
      return Fail(found.preset, found.error);
    }
    var k := found.value;
    var c := C.ReplyTo(db.complaints[k], reply.value, caller.id, now);
    db.PutComplaint(k, c);
    o := Ok(200, c);
  }

  /** PUT /api/complaints/viewed/:id (sarpanch only; the route is not
      mounted). The message tells whether anything changed. */
  method MarkComplaintAsViewed(db: Db, caller: Caller, id: string, now: int)
    returns (o: Outcome<(string, C.Complaint)>)
    requires db.Valid() && caller.user.role == Sarpanch
    modifies db`complaints
    ensures db.Valid()
    ensures !IsObjectId(id) ==> o == Throw(400, InvalidId(id))
    ensures IsObjectId(id) && o.Fail? ==> o == Throw(404, NotInVillage(id, caller))
    ensures o.Ok? <==> IsObjectId(id) && Key(id) in old(db.complaints) && SameVillage(caller, old(db.complaints)[Key(id)])
    ensures o.Ok? ==> o.status == 200
                      && o.value.1 == C.MarkViewed(old(db.complaints)[Key(id)], now)
                      && db.complaints == old(db.complaints)[Key(id) := o.value.1]
                      && o.value.0 == (if old(db.complaints)[Key(id)].status == C.Pending
                                       then "Complaint marked as viewed."
                                       else "Complaint status was already Viewed or Replied.")
    ensures o.Fail? ==> db.complaints == old(db.complaints)
  {
    var found := FindInVillage(db.complaints, id, caller);
    if found.Fail? {
      return Fail(found.preset, found.error);
    }
    var k := found.value;
    var c := db.complaints[k];
    if c.status == C.Pending {
      var viewed := C.MarkViewed(c, now);
      db.PutComplaint(k, viewed);
      o := Ok(200, ("Complaint marked as viewed.", viewed));
    } else {
      assert C.MarkViewed(c, now) == c;
      assert db.complaints[k := c] == db.complaints;
      o := Ok(200, ("Complaint status was already Viewed or Replied.", c));
    }
  }
}
