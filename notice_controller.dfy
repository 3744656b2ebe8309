/**
 * The notice handlers: the sarpanch posts a notice with an optional image
 * and deletes their own notices; everyone lists the notices of their
 * village; opening one notice counts a view.
 */
module NoticeController {
  import opened Js
  import opened Http
  import opened UserModel
  import opened Store
  import opened Listing
  import opened AuthMiddleware
  import N = NoticeModel

  const DefaultLimit := 10
  const DetailsMissing := "Authentication error: User/village details missing."
  const FieldsRequired := "Notice heading and details are required."
  const InvalidId := "Invalid ID"
  const NoticeMissing := "Notice not found"
  const NotAuthorized := "Not authorized"
  const NoticeDeleted := "Notice deleted"
  const NotInYourVillage := "Notice not found or not in your village"

  /** Where the notice images are stored. */
  const ImageDir := "uploads/notices/"

  /** The stored path of an uploaded notice image. */
  function ImagePath(filename: string): string
  {
    StoredPath(ImageDir, filename)
  }

  /** The first guard of addNotice: the caller has no id or no village. */
  predicate CallerIncomplete(caller: Caller)
  {
    caller.id == "" || caller.user.villageName == ""
  }

  // ---------------------------------------------------------------------
  // POST /api/notices
  // ---------------------------------------------------------------------

  /** The answer of addNotice: the trimmed heading and details, the
      caller's village and id, the image path and a view count of zero. */
  function NoticeCreation(caller: Caller, heading: Option<string>, details: Option<string>,
                          file: Option<string>, now: int): (r: Outcome<N.Notice>)
    ensures CallerIncomplete(caller) ==> r == Forward(PlainError(DetailsMissing))
    ensures !CallerIncomplete(caller) && (!Filled(heading) || !Filled(details)) ==> r == Throw(400, FieldsRequired)
    ensures r.Ok? <==> !CallerIncomplete(caller) && Filled(heading) && Filled(details)
                       && Trim(caller.user.villageName) != ""
                       && Length(Trim(heading.value)) <= N.MaxHeadingLength
    ensures r.Ok? ==> r.status == 201
                      && r.value.heading == Trim(heading.value) && r.value.details == Trim(details.value)
                      && r.value.villageName == Trim(caller.user.villageName) && r.value.createdBy == caller.id
                      && r.value.viewCount == 0 && r.value.publishedAt == now
                      && r.value.imageUrl == (if file.Some? then Some(Trim(ImagePath(file.value))) else None)
    ensures r.Fail? && !CallerIncomplete(caller) && Filled(heading) && Filled(details) ==>
              r == Forward(ValidationError("Notice", N.Violations(N.NewNotice(caller.user.villageName,
                                                                              Trim(heading.value), Trim(details.value),
                                                                              UploadedPath(ImageDir, file), caller.id, now))))
  {
    if CallerIncomplete(caller) then Forward(PlainError(DetailsMissing))
    else if !Filled(heading) || !Filled(details) then Throw(400, FieldsRequired)
    else
      var n := N.NewNotice(caller.user.villageName, Trim(heading.value), Trim(details.value),
                           UploadedPath(ImageDir, file), caller.id, now);
      TrimIdempotent(heading.value);
      var vs := N.Violations(n);
      if vs != [] then Forward(ValidationError("Notice", vs)) else Ok(201, n)
  }

  /** POST /api/notices (sarpanch only). `file` is the stored name of the
      uploaded image; it is removed again when the notice is refused after
      the caller check. */
  method AddNotice(db: Db, caller: Caller, heading: Option<string>, details: Option<string>,
                   file: Option<string>, newId: string, now: int) returns (o: Outcome<N.Notice>)
    requires db.Valid() && IsKey(newId) && newId !in db.notices && caller.user.role == Sarpanch
    modifies db`notices, db`files
    ensures db.Valid()
    ensures o == NoticeCreation(caller, heading, details, file, now)
    ensures o.Ok? ==> db.notices == old(db.notices)[newId := o.value] && unchanged(db`files)
    ensures o.Fail? ==> unchanged(db`notices)
    ensures o.Fail? && file.Some? && !CallerIncomplete(caller) ==> db.files == old(db.files) - {ImagePath(file.value)}
    ensures file.None? || CallerIncomplete(caller) ==> unchanged(db`files)
  {
    o := NoticeCreation(caller, heading, details, file, now);
    if o.Ok? {
      N.NewNoticeStored(caller.user.villageName, Trim(heading.value), Trim(details.value),
                        UploadedPath(ImageDir, file), caller.id, now);
      db.PutNotice(newId, o.value);
    } else if file.Some? && !CallerIncomplete(caller) {
      db.RemoveFile(ImagePath(file.value));
    }
  }

  // ---------------------------------------------------------------------
  // GET /api/notices
  // ---------------------------------------------------------------------

  /** The filter `{ villageName }`, through the schema's trim setter. */
  predicate InVillage(caller: Caller, n: N.Notice)
  {
    n.villageName == Trim(caller.user.villageName)
  }

  /** GET /api/notices: the notices of the caller's village, `limit` to a
      page with `limit = Number(q.limit) || 10`. */
  function GetNoticesForVillage(notices: map<string, N.Notice>, order: seq<string>, caller: Caller,
                                pageQuery: Option<string>, limitQuery: Option<string>): (r: Outcome<Page<N.Notice>>)
    ensures r.Fail? <==> SkipOf(OrDefault(NumberOf(limitQuery), DefaultLimit), pageQuery) < 0
    ensures r.Ok? ==> r.value.totalCount == |Matching(notices, n => InVillage(caller, n))|
    ensures r.Ok? ==> r.value.pages == CeilDiv(r.value.totalCount, OrDefault(NumberOf(limitQuery), DefaultLimit))
    ensures r.Ok? ==> r.value.count <= Abs(OrDefault(NumberOf(limitQuery), DefaultLimit))
    ensures r.Ok? && !(NumberOf(limitQuery).Int? && NumberOf(limitQuery).v != 0) ==> r.value.count <= DefaultLimit
    ensures r.Ok? ==> forall i :: 0 <= i < |r.value.items| ==>
              r.value.items[i].0 in notices && r.value.items[i].1 == notices[r.value.items[i].0]
              && r.value.items[i].1.villageName == Trim(caller.user.villageName)
  {
    Paginate(notices, order, n => InVillage(caller, n), n => n, pageQuery, OrDefault(NumberOf(limitQuery), DefaultLimit))
  }

  // ---------------------------------------------------------------------
  // DELETE /api/notices/:id
  // ---------------------------------------------------------------------

  /** The answer of deleteNotice: 400, 404 and 403 in that order. */
  function NoticeDeletion(notices: map<string, N.Notice>, caller: Caller, id: string): (r: Outcome<string>)
    ensures !IsObjectId(id) ==> r == Throw(400, InvalidId)
    ensures IsObjectId(id) && Key(id) !in notices ==> r == Throw(404, NoticeMissing)
    ensures IsObjectId(id) && Key(id) in notices && notices[Key(id)].createdBy != caller.id ==>
              r == Throw(403, NotAuthorized)
    ensures r.Ok? <==> IsObjectId(id) && Key(id) in notices && notices[Key(id)].createdBy == caller.id
    ensures r.Ok? ==> r == Ok(200, NoticeDeleted)
  {
    var found := FindOwned(notices, id, (n: N.Notice) => n.createdBy, caller.id, InvalidId, NoticeMissing, NotAuthorized);
    if found.Fail? then Fail(found.preset, found.error) else Ok(200, NoticeDeleted)
  }

  /** DELETE /api/notices/:id (sarpanch only): the record is removed, then
      its image file when it has one. */
  method DeleteNotice(db: Db, caller: Caller, id: string) returns (o: Outcome<string>)
    requires db.Valid() && caller.user.role == Sarpanch
    modifies db`notices, db`files
    ensures db.Valid()
    ensures o == NoticeDeletion(old(db.notices), caller, id)
    ensures o.Ok? ==> db.notices == old(db.notices) - {Key(id)}
    ensures o.Ok? && Present(old(db.notices)[Key(id)].imageUrl) ==>
              db.files == old(db.files) - {old(db.notices)[Key(id)].imageUrl.value}
    ensures o.Fail? || !Present(old(db.notices)[Key(id)].imageUrl) ==> unchanged(db`files)
    ensures o.Fail? ==> unchanged(db`notices)
  {
    o := NoticeDeletion(db.notices, caller, id);
    if o.Ok? {
      var image := db.notices[Key(id)].imageUrl;
      db.DeleteNotice(Key(id));
      if Present(image) {
        db.RemoveFile(image.value);
      }
    }
  }

  // ---------------------------------------------------------------------
  // Opening a notice (the handler is not routed)
  // ---------------------------------------------------------------------

  /** The answer of getNoticeByIdAndIncrementView: the notice of the
      caller's village with one more view, or 404 for any other id. */
  function NoticeView(notices: map<string, N.Notice>, caller: Caller, id: string): (r: Outcome<N.Notice>)
    ensures !IsObjectId(id) ==> r == Throw(400, InvalidId)
    ensures IsObjectId(id) && r.Fail? ==> r == Throw(404, NotInYourVillage)
    ensures r.Ok? <==> IsObjectId(id) && Key(id) in notices && InVillage(caller, notices[Key(id)])
    ensures r.Ok? ==> r.status == 200 && r.value.viewCount == notices[Key(id)].viewCount + 1
                      && r.value.(viewCount := notices[Key(id)].viewCount) == notices[Key(id)]
  {
    var found := FindVisible(notices, id, n => InVillage(caller, n), InvalidId, NotInYourVillage);
    if found.Fail? then Fail(found.preset, found.error)
    else Ok(200, notices[found.value].(viewCount := notices[found.value].viewCount + 1))
  }

  /** The notices after one `findOneAndUpdate` with `$inc`. */
  function AfterView(notices: map<string, N.Notice>, caller: Caller, id: string): map<string, N.Notice>
  {
    var r := NoticeView(notices, caller, id);
    if r.Ok? then notices[Key(id) := r.value] else notices
  }

  /** Opening a notice: the count of the notice found goes up by one and
      nothing else changes. */
  method ViewNotice(db: Db, caller: Caller, id: string) returns (o: Outcome<N.Notice>)
    requires db.Valid()
    modifies db`notices
    ensures db.Valid()
    ensures o == NoticeView(old(db.notices), caller, id)
    ensures db.notices == AfterView(old(db.notices), caller, id)
  {
    o := NoticeView(db.notices, caller, id);
    if o.Ok? {
      assert N.Stored(db.notices[Key(id)]);
      db.PutNotice(Key(id), o.value);
    }
  }

  /** `count` openings of the notice. */
  function Views(notices: map<string, N.Notice>, caller: Caller, id: string, count: nat): map<string, N.Notice>
  {
    if count == 0 then notices else AfterView(Views(notices, caller, id, count - 1), caller, id)
  }

  /** Each opening counts exactly once: after `count` openings of a notice of
      the caller's village its count has grown by `count`, and every other
      notice is as it was. */
  lemma {:induction false} ViewsAddUp(notices: map<string, N.Notice>, caller: Caller, id: string, count: nat)
    requires NoticeView(notices, caller, id).Ok?
    ensures NoticeView(Views(notices, caller, id, count), caller, id).Ok?
    ensures Views(notices, caller, id, count)[Key(id)]
            == notices[Key(id)].(viewCount := notices[Key(id)].viewCount + count)
    ensures Views(notices, caller, id, count).Keys == notices.Keys
    ensures forall k :: k in notices && k != Key(id) ==> Views(notices, caller, id, count)[k] == notices[k]
  {
    if count > 0 {
      ViewsAddUp(notices, caller, id, count - 1);
    }
  }

  /** An id outside the caller's village is never opened: nothing changes. */
  lemma OtherVillageNotCounted(notices: map<string, N.Notice>, caller: Caller, id: string, count: nat)
    requires IsObjectId(id) && Key(id) in notices && !InVillage(caller, notices[Key(id)])
    ensures Views(notices, caller, id, count) == notices
  {
    if count > 0 {
      OtherVillageNotCounted(notices, caller, id, count - 1);
    }
  }
}
