/**
 * The upload middleware: the image filter every upload shares, the 5 MB
 * size limit, the names files are stored under, the per-file checks multer
 * runs for one field, and how the job and work handlers turn an upload
 * error into a response. The storage engine and the disk are not modelled;
 * a stored file is only its name.
 */
module UploadMiddleware {
  import opened Js
  import opened Http
  import ErrorMiddleware

  const AllowedTypes := ["jpeg", "jpg", "png", "gif", "webp"]
  const MaxFileSize := 1024 * 1024 * 5
  const FilterMessage := "Images Only! (jpeg, jpg, png, gif, webp) are allowed."

  /** `/jpeg|jpg|png|gif|webp/.test(s)`: an unanchored match. */
  predicate MatchesAllowed(s: string)
  {
    exists i :: 0 <= i < |AllowedTypes| && HasInfix(s, AllowedTypes[i])
  }

  predicate NoDot(s: string)
  {
    forall j :: 0 <= j < |s| ==> s[j] != '.'
  }

  /** The index of the last '.', or -1. */
  function LastDot(s: string): (d: int)
    ensures -1 <= d < |s|
    ensures d >= 0 ==> s[d] == '.'
    ensures forall j :: d < j < |s| ==> s[j] != '.'
  {
    if s == [] then -1
    else if s[|s| - 1] == '.' then |s| - 1
    else LastDot(s[..|s| - 1])
  }

  lemma {:induction false} LastDotOfConcat(a: string, b: string)
    ensures LastDot(a + b) == if LastDot(b) >= 0 then |a| + LastDot(b) else LastDot(a)
    decreases |b|
  {
    if b != [] {
      assert (a + b)[..|a + b| - 1] == a + b[..|b| - 1];
      if b[|b| - 1] != '.' {
        LastDotOfConcat(a, b[..|b| - 1]);
      }
    } else {
      assert a + b == a;
    }
  }

  /** `path.extname(name)` for a base name: from the last '.' to the end,
      or "" when there is no dot, when the only leading dot is the last
      one (".bashrc") and for "..". */
  function ExtName(name: string): (e: string)
    ensures e == "" || (e[0] == '.' && NoDot(e[1..]))
    ensures |e| <= |name| && name[|name| - |e|..] == e
    ensures NoDot(name) ==> e == ""
  {
    var d := LastDot(name);
    if d <= 0 || name == ".." then "" else name[d..]
  }

  /** `imageFileFilter`: None accepts the file. */
  function FileFilter(mimetype: string, originalname: string): (r: Option<JsError>)
    ensures r.None? <==> MatchesAllowed(mimetype) && MatchesAllowed(ToLower(ExtName(originalname)))
    ensures r.Some? ==> r.value == PlainError(FilterMessage)
  {
    if MatchesAllowed(mimetype) && MatchesAllowed(ToLower(ExtName(originalname))) then None
    else Some(PlainError(FilterMessage))
  }

  lemma NoAllowedTypeInEmpty()
    ensures !MatchesAllowed("")
  {
    forall i | 0 <= i < |AllowedTypes|
      ensures !HasInfix("", AllowedTypes[i])
    {
      assert |AllowedTypes[i]| > 0;
    }
  }

  /** A name without an extension is refused whatever its mimetype. */
  lemma NoExtensionRejected(mimetype: string, originalname: string)
    requires NoDot(originalname)
    ensures FileFilter(mimetype, originalname).Some?
  {
    assert ToLower("") == "";
    NoAllowedTypeInEmpty();
  }

  lemma {:induction false} LastDotNone(s: string)
    requires NoDot(s)
    ensures LastDot(s) == -1
    decreases |s|
  {
    if s != [] {
      LastDotNone(s[..|s| - 1]);
    }
  }

  /** The extension of `base.ext`, for a base name and an extension
      without dots, is `.ext`. */
  lemma ExtNameOfDotted(base: string, ext: string)
    requires base != "" && NoDot(base) && NoDot(ext)
    ensures ExtName(base + "." + ext) == "." + ext
  {
    LastDotNone(base);
    LastDotNone(ext);
    LastDotOfConcat(".", ext);
    LastDotOfConcat(base, "." + ext);
    assert base + "." + ext == base + ("." + ext);
    assert (base + ("." + ext))[|base|..] == "." + ext;
  }

  lemma PngxExtension()
    ensures ToLower(ExtName("photo.PNGX")) == ".pngx"
  {
    ExtNameOfDotted("photo", "PNGX");
    assert "photo" + "." + "PNGX" == "photo.PNGX";
    var l := ToLower(".PNGX");
    assert l[1] == 'p' && l[2] == 'n' && l[3] == 'g' && l[4] == 'x';
    assert l == ".pngx";
  }

  lemma PngMatches(s: string, i: nat)
    requires i + 3 <= |s| && s[i..i + 3] == "png"
    ensures MatchesAllowed(s)
  {
    HasInfixAt(s, "png", i);
    assert AllowedTypes[2] == "png";
  }

  /** The match is unanchored: "photo.PNGX" sent as "image/png" passes. */
  lemma UnanchoredMatchAccepts()
    ensures FileFilter("image/png", "photo.PNGX").None?
  {
    PngxExtension();
    PngMatches("image/png", 6);
    PngMatches(".pngx", 1);
  }

  lemma {:induction false} LastDotOfLower(s: string)
    ensures LastDot(ToLower(s)) == LastDot(s)
    decreases |s|
  {
    if s != [] {
      assert ToLower(s)[..|s| - 1] == ToLower(s[..|s| - 1]);
      LastDotOfLower(s[..|s| - 1]);
    }
  }

  lemma ExtNameOfLower(n: string)
    ensures ExtName(ToLower(n)) == ToLower(ExtName(n))
  {
    var l := ToLower(n);
    LastDotOfLower(n);
    var d := LastDot(n);
    if n == ".." {
      assert l == "..";
    } else if d > 0 {
      if |n| == 2 {
        assert n == [n[0], n[1]];
        assert l == [l[0], l[1]];
      }
      assert l[d..] == ToLower(n[d..]);
    }
  }

  lemma LowerIdempotent(s: string)
    ensures ToLower(ToLower(s)) == ToLower(s)
  {
  }

  /** The filter ignores the case of the file name. */
  lemma FilterIgnoresNameCase(mimetype: string, originalname: string)
    ensures FileFilter(mimetype, ToLower(originalname)) == FileFilter(mimetype, originalname)
  {
    ExtNameOfLower(originalname);
    LowerIdempotent(ExtName(originalname));
  }

  // ---------------------------------------------------------------------
  // Stored names
  // ---------------------------------------------------------------------

  const ProfilePrefix := "profilePhoto"
  const JobPrefix := "jobImage"
  const WorkPrefix := "workImage"

  /** `prefix + '-' + Date.now() + '-' + Math.round(Math.random() * 1E9) +
      path.extname(originalname)`. */
  function StoredName(prefix: string, now: nat, rand: nat, originalname: string): (n: string)
    ensures prefix + "-" <= n
  {
    prefix + "-" + NatText(now) + "-" + NatText(rand) + ExtName(originalname)
  }

  /** A stored file keeps the extension of the uploaded one, so the filter
      judges it the same. */
  lemma {:induction false} StoredNameKeepsExtension(prefix: string, now: nat, rand: nat, originalname: string)
    requires NoDot(prefix)
    ensures ExtName(StoredName(prefix, now, rand, originalname)) == ExtName(originalname)
  {
    var base := prefix + "-" + NatText(now) + "-" + NatText(rand);
    var e := ExtName(originalname);
    assert NoDot(base) by {
      forall j | 0 <= j < |base| ensures base[j] != '.' {
        var t1 := NatText(now);
        var t2 := NatText(rand);
        assert base == prefix + "-" + t1 + "-" + t2;
        if |prefix| + 1 <= j < |prefix| + 1 + |t1| {
          assert base[j] == t1[j - |prefix| - 1];
        } else if |prefix| + 2 + |t1| <= j {
          assert base[j] == t2[j - |prefix| - 2 - |t1|];
        }
      }
    }
    assert StoredName(prefix, now, rand, originalname) == base + e;
    LastDotOfConcat(base, e);
    assert LastDot(base) == -1;
    if e != "" {
      assert LastDot(e) == 0;
      assert (base + e)[|base|..] == e;
    } else {
      assert base + e == base;
    }
  }

  // ---------------------------------------------------------------------
  // Receiving the files of one field
  // ---------------------------------------------------------------------

  /** A file part of a multipart request. */
  datatype Incoming = Incoming(field: string, mimetype: string, originalname: string, size: nat)

  /** The error an upload fails with: a MulterError with its code, or the
      filter's error. */
  datatype UploadError = MulterError(code: string, message: string) | FilterError(error: JsError)

  /** What multer hands to the handler's callback. */
  datatype Received = Received(names: seq<string>) | Refused(err: UploadError)

  const UnexpectedFile := MulterError("LIMIT_UNEXPECTED_FILE", "Unexpected field")
  const FileTooLarge := MulterError("LIMIT_FILE_SIZE", "File too large")

  /** multer's checks on one file: the field and the count left for it,
      then the filter, then the size limit. */
  function CheckFile(f: Incoming, field: string, received: nat, maxCount: nat): (r: Option<UploadError>)
    ensures r.None? <==> f.field == field && received < maxCount
                         && FileFilter(f.mimetype, f.originalname).None? && f.size <= MaxFileSize
  {
    if f.field != field || received >= maxCount then Some(UnexpectedFile)
    else if FileFilter(f.mimetype, f.originalname).Some? then Some(FilterError(FileFilter(f.mimetype, f.originalname).value))
    else if f.size > MaxFileSize then Some(FileTooLarge)
    else None
  }

  /** multer's verdict on each file of a request, in order. */
  function Checks(files: seq<Incoming>, field: string, maxCount: nat): (cs: seq<Option<UploadError>>)
    ensures |cs| == |files|
    ensures forall i :: 0 <= i < |files| ==> cs[i] == CheckFile(files[i], field, i, maxCount)
  {
    seq(|files|, i requires 0 <= i < |files| => CheckFile(files[i], field, i, maxCount))
  }

  /** The error of the first refused file, from `from` on: multer stops at
      the first file it refuses. */
  function FirstRefusal(checks: seq<Option<UploadError>>, from: nat): (e: Option<UploadError>)
    requires from <= |checks|
    ensures e.None? <==> forall i :: from <= i < |checks| ==> checks[i].None?
    ensures e.Some? ==> exists i :: from <= i < |checks| && checks[i] == e
                          && forall j :: from <= j < i ==> checks[j].None?
    decreases |checks| - from
  {
    if from == |checks| then None
    else if checks[from].Some? then checks[from]
    else FirstRefusal(checks, from + 1)
  }

  /** `upload.single(field)` (maxCount 1) or `upload.array(field, maxCount)`
      on the files of a request, in order: the stored names, or the error
      of the first file refused (the files stored before it are removed). */
  function Receive(files: seq<Incoming>, field: string, maxCount: nat, prefix: string,
                   now: nat, rand: nat -> nat): (r: Received)
    ensures r.Received? <==> forall i :: 0 <= i < |files| ==> CheckFile(files[i], field, i, maxCount).None?
    ensures r.Received? ==> |r.names| == |files|
    ensures r.Received? ==> forall i :: 0 <= i < |files| ==>
              r.names[i] == StoredName(prefix, now, rand(i), files[i].originalname)
    ensures r.Refused? ==> exists i :: 0 <= i < |files| && CheckFile(files[i], field, i, maxCount) == Some(r.err)
  {
    var e := FirstRefusal(Checks(files, field, maxCount), 0);

    if e.Some? then Refused(e.value)
    else Received(seq(|files|, i requires 0 <= i < |files| => StoredName(prefix, now, rand(i), files[i].originalname)))
  }

  /** A request's files are received exactly when there are at most
      `maxCount` of them, all under `field`, all images within the size
      limit. */
  lemma {:induction false} ReceiveAcceptsExactly(files: seq<Incoming>, field: string, maxCount: nat,
                                                 prefix: string, now: nat, rand: nat -> nat)
    ensures Receive(files, field, maxCount, prefix, now, rand).Received? <==>
              |files| <= maxCount && forall i :: 0 <= i < |files| ==>
                files[i].field == field && FileFilter(files[i].mimetype, files[i].originalname).None?
                && files[i].size <= MaxFileSize
  {
    if Receive(files, field, maxCount, prefix, now, rand).Received? && |files| > 0 {
      assert CheckFile(files[|files| - 1], field, |files| - 1, maxCount).None?;
    }
  }

  // ---------------------------------------------------------------------
  // Upload errors as responses
  // ---------------------------------------------------------------------

  function AsJsError(e: UploadError): JsError
  {
    match e
    case MulterError(code, message) => JsError("MulterError", message, "", "", None, [], [], None)
    case FilterError(err) => err
  }

  /** `err instanceof multer.MulterError && err.code === 'LIMIT_FILE_SIZE'` */
  predicate IsTooLarge(e: UploadError)
  {
    e.MulterError? && e.code == "LIMIT_FILE_SIZE"
  }

  /** The job and work handlers: `res.status(400)` and a new Error whose
      message is `tooLarge` for LIMIT_FILE_SIZE, else the error's own
      message or `fallback`. */
  function UploadFailure<T>(e: UploadError, tooLarge: string, fallback: string): (r: Outcome<T>)
    ensures r.Fail? && r.preset == 400 && r.error.statusCode.None?
    ensures IsTooLarge(e) ==> r.error.message == tooLarge
    ensures !IsTooLarge(e) && AsJsError(e).message != "" ==> r.error.message == AsJsError(e).message
    ensures !IsTooLarge(e) && AsJsError(e).message == "" ==> r.error.message == fallback
  {
    var message :=
      if IsTooLarge(e) then tooLarge
      else if AsJsError(e).message != "" then AsJsError(e).message
      else fallback;
    Throw(400, message)
  }

  function JobUploadFailure<T>(e: UploadError): Outcome<T>
  {
    UploadFailure(e, "Job Image too large. Max 5MB.", "Job image upload error.")
  }

  function WorkUploadFailure<T>(e: UploadError): Outcome<T>
  {
    UploadFailure(e, "Work Image too large. Max 5MB.", "Work image upload error.")
  }

  /** The profile photo handler forwards the error unchanged. */
  function ProfileUploadFailure<T>(e: UploadError): (r: Outcome<T>)
    ensures r == Forward(AsJsError(e))
  {
    Forward(AsJsError(e))
  }

  /** A refused job or work upload answers 400 with a message. */
  lemma {:induction false} UploadRefusalsAre400(e: UploadError, production: bool)
    ensures ErrorMiddleware.Respond(JobUploadFailure<()>(e), production).status == 400
    ensures ErrorMiddleware.Respond(WorkUploadFailure<()>(e), production).status == 400
    ensures ErrorMiddleware.Respond(JobUploadFailure<()>(e), production).error != ""
    ensures ErrorMiddleware.Respond(WorkUploadFailure<()>(e), production).error != ""
  {
    var j := JobUploadFailure<()>(e);
    var w := WorkUploadFailure<()>(e);
    assert j.error.message != "" && w.error.message != "";
    assert !ErrorMiddleware.IsValidation(j.error) && !ErrorMiddleware.IsValidation(w.error);
  }

  /** A refused profile photo reaches the error handler with no status set
      and answers 500. */
  lemma ProfileRefusalsAre500(e: UploadError, production: bool)
    requires e.MulterError? || e.error == PlainError(FilterMessage)
    ensures ErrorMiddleware.Respond(ProfileUploadFailure<()>(e), production).status == 500
  {
  }
}
