/**
 * The work-done handlers: the sarpanch records a public work of a year,
 * with uploaded images and image URLs from the body, and deletes their own
 * records; everyone lists the records of their village, optionally of one
 * year. Removing a record leaves its images where they are, and so does a
 * refused request.
 */
module WorkDoneController {
  import opened Js
  import opened Http
  import opened UserModel
  import opened Store
  import opened Listing
  import opened AuthMiddleware
  import W = WorkDoneModel

  const PageSize := 10
  const FieldsRequired := "Year and details of work done are required."
  const InvalidYearFilter := "Invalid year provided for filtering."
  const NotAuthorized := "User not authorized to delete this work record"

  function YearOutOfRange(currentYear: int): string
  {
    "Please provide a valid year between 1900 and " + IntText(currentYear + 1) + "."
  }

  function InvalidId(id: string): string
  {
    "Invalid work record ID format: " + id
  }

  function WorkMissing(id: string): string
  {
    "Work record not found with ID: " + id
  }

  // ---------------------------------------------------------------------
  // The image URLs of a new record
  // ---------------------------------------------------------------------

  /** The stored path of an uploaded work image. */
  function UploadPath(filename: string): string
  {
    StoredPath("uploads/works/", filename)
  }

  /** `req.files.map(file => 'uploads/works/' + file.filename)`. */
  function UploadedUrls(files: seq<string>): (r: seq<string>)
    ensures |r| == |files|
    ensures forall i :: 0 <= i < |files| ==> r[i] == UploadPath(files[i])
  {
    seq(|files|, i requires 0 <= i < |files| => UploadPath(files[i]))
  }

  /** The `imageUrls` field of the body: absent, a string, an array of
      strings, or a value of some other type. */
  datatype UrlsField = NoUrls | UrlText(text: string) | UrlList(items: seq<string>) | OtherValue

  predicate IsUrlSep(c: char)
  {
    c == '\n' || c == ','
  }

  /** `.filter(url => url)` on strings: the empty ones are dropped. */
  function NonEmpty(s: seq<string>): (r: seq<string>)
    ensures |r| <= |s|
    ensures forall i :: 0 <= i < |r| ==> r[i] != "" && r[i] in s
    ensures forall x :: x in s && x != "" ==> x in r
    ensures (forall i :: 0 <= i < |s| ==> s[i] != "") ==> r == s
  {
    if s == [] then []
    else
      var rest := NonEmpty(s[1..]);
      assert forall x :: x in s ==> x == s[0] || x in s[1..];
      if s[0] != "" then [s[0]] + rest else rest
  }

  /** `.map(url => url.trim())`. */
  function TrimAll(s: seq<string>): (r: seq<string>)
    ensures |r| == |s|
    ensures forall i :: 0 <= i < |s| ==> r[i] == Trim(s[i])
  {
    seq(|s|, i requires 0 <= i < |s| => Trim(s[i]))
  }

  /** The URLs the body contributes. A string is split at its newlines and
      commas (splitting at each separator instead of at runs of them only
      adds empty pieces, which the filter drops), each piece trimmed and the
      empty ones dropped; an array loses its empty strings; anything else,
      and an empty string, adds nothing. */
  function BodyUrls(urls: UrlsField): (r: seq<string>)
    ensures forall i :: 0 <= i < |r| ==> r[i] != ""
    ensures urls.UrlText? ==> forall i :: 0 <= i < |r| ==> IsTrimmed(r[i]) && NoSep(r[i], IsUrlSep)
    ensures urls.UrlList? ==> (forall x :: x in urls.items && x != "" <==> x in r) && |r| <= |urls.items|
    ensures urls.NoUrls? || urls.OtherValue? ==> r == []
  {
    match urls
    case NoUrls => []
    case UrlText(t) =>
      var pieces := Split(t, IsUrlSep);
      var r := NonEmpty(TrimAll(pieces));
      assert forall i :: 0 <= i < |r| ==> IsTrimmed(r[i]) && NoSep(r[i], IsUrlSep) by {
        forall i | 0 <= i < |r| ensures IsTrimmed(r[i]) && NoSep(r[i], IsUrlSep) {
          var j :| 0 <= j < |pieces| && r[i] == TrimAll(pieces)[j];
          TrimKeepsNoSep(pieces[j]);
        }
      }
      r
    case UrlList(xs) => NonEmpty(xs)
    case OtherValue => []
  }

  /** Trimming takes characters off the ends only. */
  lemma TrimKeepsNoSep(s: string)
    requires NoSep(s, IsUrlSep)
    ensures NoSep(Trim(s), IsUrlSep)
  {
    var t := TrimStart(s);
    forall j | 0 <= j < |t| ensures !IsUrlSep(t[j]) {
      assert t[j] == s[|s| - |t| + j];
    }
    var r := TrimEnd(t);
    forall j | 0 <= j < |r| ensures !IsUrlSep(r[j]) {
      assert r[j] == t[j];
    }
    assert Trim(s) == r;
  }

  /** `allImageUrls`: the uploaded files first, in order, then the body's
      URLs. */
  function AllImageUrls(files: seq<string>, urls: UrlsField): (r: seq<string>)
    ensures |r| == |files| + |BodyUrls(urls)|
    ensures r[..|files|] == UploadedUrls(files) && r[|files|..] == BodyUrls(urls)
  {
    UploadedUrls(files) + BodyUrls(urls)
  }

  /** The URLs a new record stores: the element setter trims each one; the
      uploads' paths come first, in order, then the body's URLs. */
  function StoredUrls(files: seq<string>, urls: UrlsField): (r: seq<string>)
    ensures |r| == |files| + |BodyUrls(urls)|
    ensures forall i :: 0 <= i < |files| ==> r[i] == Trim(UploadPath(files[i]))
    ensures r[|files|..] == TrimAll(BodyUrls(urls))
    ensures urls.UrlText? ==> r[|files|..] == BodyUrls(urls)
  {
    TrimAllAppend(UploadedUrls(files), BodyUrls(urls));
    TextUrlsStayTrimmed(urls);
    TrimAll(AllImageUrls(files, urls))
  }

  lemma TrimAllAppend(a: seq<string>, b: seq<string>)
    ensures TrimAll(a + b) == TrimAll(a) + TrimAll(b)
  {
    assert forall i :: 0 <= i < |a| ==> (a + b)[i] == a[i];
    assert forall i :: |a| <= i < |a| + |b| ==> (a + b)[i] == b[i - |a|];
  }

  /** The URLs of a text body are already trimmed. */
  lemma TextUrlsStayTrimmed(urls: UrlsField)
    ensures urls.UrlText? ==> TrimAll(BodyUrls(urls)) == BodyUrls(urls)
  {
  }

  /** Non-empty, trimmed URLs without separators, joined with commas, come
      back from the body as they were. */
  lemma {:induction false} JoinedUrlsRoundTrip(urls: seq<string>)
    requires |urls| >= 1
    requires forall i :: 0 <= i < |urls| ==> urls[i] != "" && IsTrimmed(urls[i]) && NoSep(urls[i], IsUrlSep)
    ensures BodyUrls(UrlText(Join(urls, ","))) == urls
  {
    SplitJoin(urls, ',', IsUrlSep);
    assert Split(Join(urls, ","), IsUrlSep) == urls;
    assert TrimAll(urls) == urls;
  }

  // ---------------------------------------------------------------------
  // POST /api/works
  // ---------------------------------------------------------------------

  /** `!isNaN(year) && year >= 1900 && year <= currentYear + 1`, with the
      string compared as the number it converts to. */
  predicate YearAccepted(year: string, currentYear: int)
  {
    ToNumber(year).Int? && W.MinYear <= ToNumber(year).v <= currentYear + 1
  }

  /** The answer of addWorkDone. `files` are the stored names of the
      uploaded images, `currentYear` the year of the request and `loadYear`
      the year the schema was built. */
  function WorkCreation(caller: Caller, year: Option<string>, details: Option<string>, files: seq<string>,
                        urls: UrlsField, currentYear: int, loadYear: int, now: int): (r: Outcome<W.WorkDone>)
    ensures !Present(year) || !Present(details) ==> r == Throw(400, FieldsRequired)
    ensures Present(year) && Present(details) && !YearAccepted(year.value, currentYear) ==>
              r == Throw(400, YearOutOfRange(currentYear))
    ensures r.Ok? <==> Present(year) && Present(details) && YearAccepted(year.value, currentYear)
                       && ToNumber(year.value).v <= loadYear + 1
                       && Trim(caller.user.villageName) != "" && caller.id != ""
    ensures r.Ok? ==> r.status == 201 && r.value.year == ToNumber(year.value).v
                      && r.value.villageName == Trim(caller.user.villageName) && r.value.addedBy == caller.id
                      && r.value.details == details.value && r.value.addedAt == now
                      && r.value.imageUrls == StoredUrls(files, urls)
    ensures Present(year) && Present(details) && YearAccepted(year.value, currentYear) && !r.Ok? ==>
              var w := W.NewWorkDone(caller.user.villageName, ToNumber(year.value).v, details.value,
                                     AllImageUrls(files, urls), caller.id, now);
              W.Violations(w, loadYear, currentYear) != []
              && r == Forward(ValidationError("WorkDone", W.Violations(w, loadYear, currentYear)))
  {
    if !Present(year) || !Present(details) then Throw(400, FieldsRequired)
    else if !YearAccepted(year.value, currentYear) then Throw(400, YearOutOfRange(currentYear))
    else
      var all := AllImageUrls(files, urls);
      var w := W.NewWorkDone(caller.user.villageName, ToNumber(year.value).v, details.value, all, caller.id, now);
      var vs := W.Violations(w, loadYear, currentYear);
      assert w.imageUrls == StoredUrls(files, urls);
      if vs != [] then Forward(ValidationError("WorkDone", vs)) else Ok(201, w)
  }

  /** While the server runs in the year it started, the handler's range is
      the schema's: a year it lets through is stored. */
  lemma YearCheckIsSchemaRange(caller: Caller, year: string, details: string, files: seq<string>,
                               urls: UrlsField, currentYear: int, now: int)
    requires Present(Some(year)) && details != "" && YearAccepted(year, currentYear)
    requires Trim(caller.user.villageName) != "" && caller.id != ""
    ensures WorkCreation(caller, Some(year), Some(details), files, urls, currentYear, currentYear, now).Ok?
  {
  }

  /** POST /api/works (sarpanch only). The uploaded images stay on disk
      whatever the answer. */
  method AddWorkDone(db: Db, caller: Caller, year: Option<string>, details: Option<string>, files: seq<string>,
                     urls: UrlsField, currentYear: int, loadYear: int, newId: string, now: int)
    returns (o: Outcome<W.WorkDone>)
    requires db.Valid() && IsKey(newId) && newId !in db.works && caller.user.role == Sarpanch
    modifies db`works
    ensures db.Valid()
    ensures o == WorkCreation(caller, year, details, files, urls, currentYear, loadYear, now)
    ensures o.Ok? ==> db.works == old(db.works)[newId := o.value]
    ensures o.Fail? ==> unchanged(db`works)
    ensures unchanged(db`files)
  {
    o := WorkCreation(caller, year, details, files, urls, currentYear, loadYear, now);
    if o.Ok? {
      db.PutWork(newId, o.value);
    }
  }

  // ---------------------------------------------------------------------
  // GET /api/works
  // ---------------------------------------------------------------------

  /** The filter: the caller's village (through the trim setter) and, when
      a year is asked for, exactly that year. */
  predicate Listed(caller: Caller, yearQuery: Option<string>, w: W.WorkDone)
  {
    w.villageName == Trim(caller.user.villageName)
    && (Present(yearQuery) ==> ToNumber(yearQuery.value) == Int(w.year))
  }

  /** GET /api/works: ten to a page; a year query that is not a number is
      refused. */
  function GetWorkDoneForVillage(works: map<string, W.WorkDone>, order: seq<string>, caller: Caller,
                                 yearQuery: Option<string>, pageQuery: Option<string>): (r: Outcome<Page<W.WorkDone>>)
    ensures Present(yearQuery) && ToNumber(yearQuery.value).NaN? ==> r == Throw(400, InvalidYearFilter)
    ensures r.Ok? <==> !(Present(yearQuery) && ToNumber(yearQuery.value).NaN?) && SkipOf(PageSize, pageQuery) >= 0
    ensures r.Ok? ==> r.value.totalCount == |Matching(works, w => Listed(caller, yearQuery, w))|
    ensures r.Ok? ==> r.value.pages == CeilDiv(r.value.totalCount, PageSize) && r.value.count <= PageSize
    ensures r.Ok? ==> forall i :: 0 <= i < |r.value.items| ==>
              r.value.items[i].0 in works && r.value.items[i].1 == works[r.value.items[i].0]
              && r.value.items[i].1.villageName == Trim(caller.user.villageName)
              && (Present(yearQuery) ==> Int(r.value.items[i].1.year) == ToNumber(yearQuery.value))
  {
    if Present(yearQuery) && ToNumber(yearQuery.value).NaN? then Throw(400, InvalidYearFilter)
    else Paginate(works, order, w => Listed(caller, yearQuery, w), w => w, pageQuery, PageSize)
  }

  /** The year filter only narrows the village's listing. */
  lemma YearFilterNarrows(works: map<string, W.WorkDone>, caller: Caller, yearQuery: Option<string>)
    ensures Matching(works, w => Listed(caller, yearQuery, w)) <= Matching(works, w => Listed(caller, None, w))
  {
  }

  // ---------------------------------------------------------------------
  // DELETE /api/works/:id
  // ---------------------------------------------------------------------

  /** The answer of deleteWorkDone: 400, 404 and 403 in that order; the
      message names the year of the record removed. */
  function WorkDeletion(works: map<string, W.WorkDone>, caller: Caller, id: string): (r: Outcome<string>)
    ensures !IsObjectId(id) ==> r == Throw(400, InvalidId(id))
    ensures IsObjectId(id) && Key(id) !in works ==> r == Throw(404, WorkMissing(id))
    ensures IsObjectId(id) && Key(id) in works && works[Key(id)].addedBy != caller.id ==>
              r == Throw(403, NotAuthorized)
    ensures r.Ok? <==> IsObjectId(id) && Key(id) in works && works[Key(id)].addedBy == caller.id
    ensures r.Ok? ==> r == Ok(200, "Work record for year " + IntText(works[Key(id)].year) + " deleted successfully")
  {
    var found := FindOwned(works, id, (w: W.WorkDone) => w.addedBy, caller.id,
                           InvalidId(id), WorkMissing(id), NotAuthorized);
    if found.Fail? then Fail(found.preset, found.error)
    else Ok(200, "Work record for year " + IntText(works[found.value].year) + " deleted successfully")
  }

  /** DELETE /api/works/:id (sarpanch only): the record goes, its image
      files stay. */
  method DeleteWorkDone(db: Db, caller: Caller, id: string) returns (o: Outcome<string>)
    requires db.Valid() && caller.user.role == Sarpanch
    modifies db`works
    ensures db.Valid()
    ensures o == WorkDeletion(old(db.works), caller, id)
    ensures o.Ok? ==> db.works == old(db.works) - {Key(id)}
    ensures o.Fail? ==> unchanged(db`works)
    ensures unchanged(db`files)
  {
    o := WorkDeletion(db.works, caller, id);
    if o.Ok? {
      db.DeleteWork(Key(id));
    }
  }
}
