/**
 * The job-posting handlers: the sarpanch posts a job with an optional image
 * and deletes their own postings; everyone lists the postings of their
 * village.
 */
module JobController {
  import opened Js
  import opened Http
  import opened UserModel
  import opened Store
  import opened Listing
  import opened AuthMiddleware
  import J = JobModel

  const DefaultLimit := 10
  const FieldsRequired := "Job posting heading and details are required."
  const InvalidId := "Invalid ID"
  const JobMissing := "Job posting not found"
  const NotAuthorized := "Not authorized"
  const JobDeleted := "Job posting deleted"

  /** Where the job images are stored. */
  const ImageDir := "uploads/jobs/"

  /** The stored path of an uploaded job image. */
  function ImagePath(filename: string): string
  {
    StoredPath(ImageDir, filename)
  }

  // ---------------------------------------------------------------------
  // POST /api/jobs
  // ---------------------------------------------------------------------

  /** The answer of addJob: the trimmed heading and details, the caller's
      village, `addedBy` the caller and the image path. */
  function JobCreation(caller: Caller, heading: Option<string>, details: Option<string>,
                       file: Option<string>, now: int): (r: Outcome<J.Job>)
    ensures !Filled(heading) || !Filled(details) ==> r == Throw(400, FieldsRequired)
    ensures r.Ok? <==> Filled(heading) && Filled(details) && Trim(caller.user.villageName) != ""
                       && Length(Trim(heading.value)) <= J.MaxHeadingLength && caller.id != ""
    ensures r.Ok? ==> r.status == 201
                      && r.value.heading == Trim(heading.value) && r.value.details == Trim(details.value)
                      && r.value.villageName == Trim(caller.user.villageName) && r.value.addedBy == caller.id
                      && r.value.postedAt == now
                      && r.value.imageUrl == (if file.Some? then Some(Trim(ImagePath(file.value))) else None)
    ensures r.Fail? && Filled(heading) && Filled(details) ==>
              r == Forward(ValidationError("Job", J.Violations(J.NewJob(caller.user.villageName,
                                                                         Trim(heading.value), Trim(details.value),
                                                                         UploadedPath(ImageDir, file), caller.id, now))))
  {
    if !Filled(heading) || !Filled(details) then Throw(400, FieldsRequired)
    else
      var j := J.NewJob(caller.user.villageName, Trim(heading.value), Trim(details.value),
                        UploadedPath(ImageDir, file), caller.id, now);
      TrimIdempotent(heading.value);
      var vs := J.Violations(j);
      if vs != [] then Forward(ValidationError("Job", vs)) else Ok(201, j)
  }

  /** POST /api/jobs (sarpanch only). `file` is the stored name of the
      uploaded image; it is removed again whenever the posting is refused. */
  method AddJob(db: Db, caller: Caller, heading: Option<string>, details: Option<string>,
                file: Option<string>, newId: string, now: int) returns (o: Outcome<J.Job>)
    requires db.Valid() && IsKey(newId) && newId !in db.jobs && caller.user.role == Sarpanch
    modifies db`jobs, db`files
    ensures db.Valid()
    ensures o == JobCreation(caller, heading, details, file, now)
    ensures o.Ok? ==> db.jobs == old(db.jobs)[newId := o.value] && unchanged(db`files)
    ensures o.Fail? ==> unchanged(db`jobs)
    ensures o.Fail? && file.Some? ==> db.files == old(db.files) - {ImagePath(file.value)}
    ensures file.None? ==> unchanged(db`files)
  {
    o := JobCreation(caller, heading, details, file, now);
    if o.Ok? {
      J.NewJobStored(caller.user.villageName, Trim(heading.value), Trim(details.value),
                     UploadedPath(ImageDir, file), caller.id, now);
      db.PutJob(newId, o.value);
    } else if file.Some? {
      db.RemoveFile(ImagePath(file.value));
    }
  }

  // ---------------------------------------------------------------------
  // GET /api/jobs
  // ---------------------------------------------------------------------

  /** The filter `{ villageName }`, through the schema's trim setter. */
  predicate InVillage(caller: Caller, j: J.Job)
  {
    j.villageName == Trim(caller.user.villageName)
  }

  /** GET /api/jobs: the postings of the caller's village, `limit` to a page
      with `limit = Number(q.limit) || 10`. */
  function GetJobsForVillage(jobs: map<string, J.Job>, order: seq<string>, caller: Caller,
                             pageQuery: Option<string>, limitQuery: Option<string>): (r: Outcome<Page<J.Job>>)
    ensures r.Fail? <==> SkipOf(OrDefault(NumberOf(limitQuery), DefaultLimit), pageQuery) < 0
    ensures r.Ok? ==> r.value.totalCount == |Matching(jobs, j => InVillage(caller, j))|
    ensures r.Ok? ==> r.value.pages == CeilDiv(r.value.totalCount, OrDefault(NumberOf(limitQuery), DefaultLimit))
    ensures r.Ok? ==> r.value.count <= Abs(OrDefault(NumberOf(limitQuery), DefaultLimit))
    ensures r.Ok? && !(NumberOf(limitQuery).Int? && NumberOf(limitQuery).v != 0) ==> r.value.count <= DefaultLimit
    ensures r.Ok? ==> forall i :: 0 <= i < |r.value.items| ==>
              r.value.items[i].0 in jobs && r.value.items[i].1 == jobs[r.value.items[i].0]
              && r.value.items[i].1.villageName == Trim(caller.user.villageName)
  {
    Paginate(jobs, order, j => InVillage(caller, j), j => j, pageQuery, OrDefault(NumberOf(limitQuery), DefaultLimit))
  }

  // ---------------------------------------------------------------------
  // DELETE /api/jobs/:id
  // ---------------------------------------------------------------------

  /** The answer of deleteJob: 400, 404 and 403 in that order. */
  function JobDeletion(jobs: map<string, J.Job>, caller: Caller, id: string): (r: Outcome<string>)
    ensures !IsObjectId(id) ==> r == Throw(400, InvalidId)
    ensures IsObjectId(id) && Key(id) !in jobs ==> r == Throw(404, JobMissing)
    ensures IsObjectId(id) && Key(id) in jobs && jobs[Key(id)].addedBy != caller.id ==>
              r == Throw(403, NotAuthorized)
    ensures r.Ok? <==> IsObjectId(id) && Key(id) in jobs && jobs[Key(id)].addedBy == caller.id
    ensures r.Ok? ==> r == Ok(200, JobDeleted)
  {
    var found := FindOwned(jobs, id, (j: J.Job) => j.addedBy, caller.id, InvalidId, JobMissing, NotAuthorized);
    if found.Fail? then Fail(found.preset, found.error) else Ok(200, JobDeleted)
  }

  /** DELETE /api/jobs/:id (sarpanch only): the record is removed, then its
      image file when it has one. */
  method DeleteJob(db: Db, caller: Caller, id: string) returns (o: Outcome<string>)
    requires db.Valid() && caller.user.role == Sarpanch
    modifies db`jobs, db`files
    ensures db.Valid()
    ensures o == JobDeletion(old(db.jobs), caller, id)
    ensures o.Ok? ==> db.jobs == old(db.jobs) - {Key(id)}
    ensures o.Ok? && Present(old(db.jobs)[Key(id)].imageUrl) ==>
              db.files == old(db.files) - {old(db.jobs)[Key(id)].imageUrl.value}
    ensures o.Fail? || !Present(old(db.jobs)[Key(id)].imageUrl) ==> unchanged(db`files)
    ensures o.Fail? ==> unchanged(db`jobs)
  {
    o := JobDeletion(db.jobs, caller, id);
    if o.Ok? {
      var image := db.jobs[Key(id)].imageUrl;
      db.DeleteJob(Key(id));
      if Present(image) {
        db.RemoveFile(image.value);
      }
    }
  }
}
