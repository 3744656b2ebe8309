# Gramseva portal: a verified model of the request handlers

Gramseva is an Express/Mongoose backend for a village civic portal. Two
roles use it. The *sarpanch* (village head) registers the village and
manages its content. *People* (residents) register under a village, read
its notices, jobs, schemes and work records, and file complaints.

This project models in Dafny the layer between a request and the database:
- the authentication gate (`protect`) and the role check (`authorize`);
- the registration, login, profile and password handlers;
- the village-scope and ownership guards of every resource handler;
- the complaint lifecycle (Pending, Viewed, Replied);
- pagination;
- the central error handler;
- the image upload filter;
- the Mongoose schemas the handlers write through.

The database is the class `Store.Db`. It keeps one map per collection, keyed
by the hexadecimal text of an ObjectId, plus the set of uploaded file paths.
`Db.Valid()` is what the schemas and the unique indexes guarantee of the
stored data, together with the binding between each sarpanch and its
village.

Most handlers are written in two parts:
1. A pure function computes the handler's answer (an `Http.Outcome`: a
   status and a value, or a preset status and an error). Its contract
   states every guard in the source's order, and when the handler
   succeeds.
2. A method calls that function once and applies the single store change
   the source makes. Its contract ties the new state to the old one and
   says that nothing changes on failure.

The role a route's `authorize` imposes is a precondition of the member that
stands for that handler:
- the people role for SubmitComplaint and GetMyComplaints;
- the sarpanch role for GetVillageComplaints, ReplyToComplaint and
  MarkComplaintAsViewed;
- the sarpanch role for the POST and DELETE handlers of notices, jobs,
  schemes and work records (AddNotice, DeleteNotice, AddJob, DeleteJob,
  AddScheme, DeleteScheme, AddWorkDone, DeleteWorkDone);
- the sarpanch role for every /users handler (GetPeopleInVillage,
  GetPersonById, UpdatePersonDetails, DeletePerson).

The pure answer functions behind those methods (NoticeCreation,
JobDeletion and the like) are stated for any caller. The GET handlers that
only `protect` guards take a caller of either role.

Nothing outside the model is called:
- JWT verification is a function parameter `verify`.
- The bcrypt hash is the injective stand-in `UserModel.H`.
- `Date.now()`, `getFullYear()` and `Math.random()` are parameters.
- The sort order of a query is an input sequence of keys.

Three orderings of the code that the model keeps:
- changeMyPassword checks the length of the new password before it looks
  up the user or compares the current password
  (server/controllers/profileController.js:67-82).
- registerSarpanch refuses a second sarpanch for a registered village
  before any user is created (server/controllers/authController.js:79-84).
  The user rollback at lines 116-122 therefore only follows a failed
  `Village.create`.
- protect answers a decoded payload with no `id` with "Not authorized to
  access this route (Invalid token payload)"
  (server/middleware/authMiddleware.js:49-51), not with the invalid-token
  message.

Modules, one per source file: `Js` (the JavaScript string and number
built-ins the handlers rely on), `Http`, `UserModel`, `VillageModel`,
`ComplaintModel`, `NoticeModel`, `JobModel`, `SchemeModel`,
`WorkDoneModel`, `Store`, `Listing`, `ErrorMiddleware`, `AuthMiddleware`,
`UploadMiddleware`, `AuthController`, `ProfileController`, `UserController`,
`ComplaintController`, `NoticeController`, `JobController`,
`SchemeController` and `WorkDoneController`.

## Model

| member | source | states |
|---|---|---|
| Js.Trim | server/controllers/authController.js:92 | `trim()` gives a string with no white space at either end, no longer than the input, and leaves a trimmed string as it is |
| Js.ToLower | server/controllers/authController.js:79 | `toLowerCase()` keeps the length and maps each character on its own, an upper-case ASCII letter to lower case |
| Js.ToNumber | server/controllers/workDoneController.js:84-91 | `Number()` of text: blank text is 0, an optionally signed run of digits is its value, and the result is NaN exactly for any other text |
| Js.Split | server/controllers/workDoneController.js:47 | `split` gives at least one piece and no piece holds a separator (SplitJoin: it undoes `join`) |
| Http.StoredPath | server/controllers/noticeController.js:35 | a stored file's path is the directory followed by the stored name, and both parts can be read back from it |
| Http.RequiredWithMax | server/models/Notice.js:14-19 | a required String path with a `maxlength` reports nothing exactly when the value is non-empty and within the limit; the empty value gives the `required` message and a longer one the `maxlength` message |
| Http.UploadedPath | server/controllers/noticeController.js:33-38 | an upload's recorded path is the directory followed by the stored file name, and null exactly when no file came |
| UserModel.MatchesExactly | server/models/User.js:118-121 | matchPassword on the hash of `p` accepts exactly `p` |
| UserModel.PreSave | server/models/User.js:100-113 | an unmodified password keeps its hash; a modified one is replaced by a hash that matches it |
| UserModel.UntouchedPasswordStillMatches | server/models/User.js:102-104 | a save that does not touch the password keeps the hash, so logins behave exactly as before |
| UserModel.NewPasswordReplacesOld | server/models/User.js:106-109 | after a save with a new password, that password matches and every other one fails |
| UserModel.ViolationsAreSchemaRules | server/models/User.js:5-59 | the schema validators report nothing exactly when the rules hold: name, mobile and email present, password at least 6 characters, gender in the enum, age at least 18, village present, marital status in its enum |
| UserModel.CastAge | server/models/User.js:50-54 | the age text stores a number exactly when it is non-empty and converts to one, and then it stores that number |
| UserModel.AssignedAge | server/controllers/profileController.js:42 | `doc.age = age ?? doc.age`: an absent age keeps the stored one; a given one is stored only when it casts, as that number |
| UserModel.Violations | server/models/User.js:5-95 | the only age error is "Age must be at least 18", and it is reported exactly when the age is below 18 |
| UserModel.AgeCastFailure | server/models/User.js:50-54 | after an age that does not cast, save reports that cast error (first, unless the text was empty), no other age error, and exactly the other paths' errors of the document |
| UserModel.MatchPassword | server/models/User.js:118-121 | bcrypt.compare: the entered text matches exactly when the stored hash is its hash (see MatchesExactly) |
| UserModel.WithoutPassword | server/models/User.js:39-44 | the projection that drops the password changes nothing else |
| UserModel.ResponseHidesPassword | server/controllers/authController.js:18-19 | a response built from a user does not depend on its hash |
| UserModel.NewUser | server/models/User.js:11-86 | the created document has the setters applied (name, mobile, village and Aadhaar trimmed, email lower-cased and trimmed), the given role, no optional profile fields, and a hash that matches the password |
| UserModel.NewUserStored | server/models/User.js:5-113 | a registration document that passes its validators satisfies the stored-user invariant |
| VillageModel.NewVillage | server/models/Village.js:4-25 | the village name is lower-cased and trimmed; the document is storable exactly when that name and the sarpanch id are present |
| VillageModel.Violations | server/models/Village.js:5-18 | no violation exactly when name and sarpanchId are present |
| ComplaintModel.StatusOf | server/models/Complaint.js:26-31 | a status query names a status exactly when it is one of the three enum strings |
| ComplaintModel.NewComplaint | server/models/Complaint.js:4-72 | a new complaint is Pending, has its village and subject trimmed, records the submitter and time, and has all reply fields null |
| ComplaintModel.Violations | server/models/Complaint.js:7-38 | no violation exactly when village, subject (at most 200 characters), details and submitter are present |
| ComplaintModel.NewComplaintStored | server/models/Complaint.js:4-72 | a new complaint that passes its validators satisfies the stored-complaint invariant |
| ComplaintModel.ReplyTo | server/controllers/complaintController.js:140-144 | a reply sets the trimmed text, status Replied, the replier and the time; it keeps an earlier viewedAt and sets one only when it was null; nothing else changes and the status does not move back |
| ComplaintModel.MarkViewed | server/controllers/complaintController.js:180-202 | a Pending complaint becomes Viewed with viewedAt set; any other is left exactly as it was |
| ComplaintModel.StepNeverRegresses | server/controllers/complaintController.js:140-144 | one sarpanch action keeps the complaint consistent, never lowers its status, keeps Replied, and keeps a set viewedAt |
| ComplaintModel.LifecycleNeverRegresses | server/controllers/complaintController.js:141 | over any sequence of replies and views, the status never moves back, Replied stays Replied, and a set viewedAt keeps its value |
| ComplaintModel.LifecycleKeepsConsistent | server/controllers/complaintController.js:140-183 | every complaint reachable by replies and views has the fields its status calls for |
| ComplaintModel.ViewIsIdempotent | server/controllers/complaintController.js:180-202 | marking viewed twice is the same as marking viewed once |
| NoticeModel.NewNotice | server/models/Notice.js:4-47 | the created notice has village, heading and image path trimmed, the creator and time, and a view count of 0 |
| NoticeModel.Violations | server/models/Notice.js:7-36 | no violation exactly when village, heading (at most 150 characters), details and creator are present |
| NoticeModel.NewNoticeStored | server/models/Notice.js:4-47 | a new notice is storable exactly when the trimmed village and heading are non-empty, the heading has at most 150 characters, and details and creator are present |
| JobModel.NewJob | server/models/Job.js:4-47 | the created job has village, heading and image path trimmed, and records who added it and when |
| JobModel.Violations | server/models/Job.js:7-36 | no violation exactly when village, heading (at most 200 characters), details and addedBy are present |
| JobModel.NewJobStored | server/models/Job.js:4-47 | a new job is storable exactly when its required fields hold after trimming |
| SchemeModel.NewScheme | server/models/Scheme.js:4-48 | the created scheme has village, heading and image URL trimmed, and records who added it and when |
| SchemeModel.Violations | server/models/Scheme.js:7-37 | no violation exactly when village, heading (at most 200 characters), details and addedBy are present |
| SchemeModel.NewSchemeStored | server/models/Scheme.js:4-48 | a new scheme is storable exactly when its required fields hold after trimming |
| WorkDoneModel.NewWorkDone | server/models/WorkDone.js:4-54 | the created record has its village and each image URL trimmed, in order, and keeps year, details, adder and time |
| WorkDoneModel.YearViolation | server/models/WorkDone.js:14-20 | the year passes exactly when it is at least 1900 and at most one past both the year the schema was built and the current year; below 1900 gives "Year seems too old" |
| WorkDoneModel.Violations | server/models/WorkDone.js:4-60 | no violation exactly when village, details and addedBy are present and the year is in range |
| WorkDoneModel.SameYearRange | server/models/WorkDone.js:57-60 | while the server runs in the year it started, the schema's range is 1900 to current year + 1 |
| Store.Key | server/controllers/userController.js:66-71 | an ObjectId text written in either case names one canonical key, and a canonical key names itself |
| Store.FindVisible | server/controllers/complaintController.js:123-134 | a malformed id gives 400; a missing record or one outside the caller's scope gives 404; otherwise the record's key is returned |
| Store.FindOwned | server/controllers/jobController.js:84-89 | 400 for a malformed id, then 404 for a missing record, then 403 for another owner's record; otherwise the key |
| Store.FindVisibleIgnoresCase | server/controllers/complaintController.js:123-128 | a record is found whatever the case of the id's hexadecimal digits |
| Store.OwnerDecides | server/controllers/noticeController.js:82 | for a stored record, ownership alone decides whether the owner guard passes |
| Store.Db.PutComplaint | server/models/Complaint.js:4-72 | saving a storable complaint keeps the invariant and changes only that key |
| Store.Db.DeleteComplaint | server/models/Complaint.js:4-72 | removing a complaint keeps the invariant |
| Store.Db.PutNotice | server/models/Notice.js:4-47 | saving a storable notice keeps the invariant and changes only that key |
| Store.Db.DeleteNotice | server/controllers/noticeController.js:85 | removing a notice keeps the invariant |
| Store.Db.PutJob | server/models/Job.js:4-47 | saving a storable job keeps the invariant and changes only that key |
| Store.Db.DeleteJob | server/controllers/jobController.js:94 | removing a job keeps the invariant |
| Store.Db.PutScheme | server/models/Scheme.js:4-48 | saving a storable scheme keeps the invariant and changes only that key |
| Store.Db.DeleteScheme | server/controllers/schemeController.js:103 | removing a scheme keeps the invariant |
| Store.Db.PutWork | server/models/WorkDone.js:4-60 | saving a storable work record keeps the invariant and changes only that key |
| Store.Db.DeleteWork | server/controllers/workDoneController.js:151 | removing a work record keeps the invariant |
| Store.Db.RemoveFile | server/controllers/authController.js:25-36 | removing an upload takes exactly that path out of the file set |
| Store.Db.AddSarpanch | server/controllers/authController.js:89-106 | storing a new sarpanch and a new village bound to it keeps the invariant |
| Store.Db.CreateUser | server/controllers/authController.js:175-186 | storing a people user whose email and mobile are free keeps the invariant |
| Store.Db.SaveUser | server/models/User.js:20-38 | saving a user who keeps role and village and takes nobody else's email or mobile keeps the unique indexes and the invariant |
| Store.Db.DeleteUser | server/controllers/userController.js:174 | deleting a people user keeps the invariant, since no village refers to one |
| Store.AddPeopleKeepsValid | server/models/User.js:20-38 | adding a people user with free contacts keeps every user and village invariant |
| Store.SaveUserKeepsValid | server/models/User.js:20-38 | a save that keeps role, village and unique contacts keeps every invariant |
| Store.DeletePeopleKeepsValid | server/models/Village.js:13-18 | removing a people user leaves every village bound to its sarpanch |
| Store.RegisterSarpanchKeepsValid | server/models/Village.js:4-25 | a new sarpanch with a new village of an unused name keeps both unique indexes and the sarpanch-village binding |
| Store.SameContactsFree | server/models/User.js:20-38 | a user saved with its own email and mobile does not break the unique indexes |
| Store.EmailIdentifiesUser | server/models/User.js:28-31 | two stored users with one email are the same user |
| Store.OneVillagePerSarpanch | server/models/Village.js:8-17 | each sarpanch is bound to exactly one village |
| Listing.Select | server/controllers/complaintController.js:93-97 | the sorted keys of the matching documents: each is a match, and every match in the order is included |
| Listing.SelectKeepsOrder | server/controllers/complaintController.js:93-97 | the selected documents come in the sort's order |
| Listing.SelectDistinct | server/controllers/complaintController.js:93-97 | when the sort lists each document once, so does the selection |
| Listing.SelectCountsMatching | server/controllers/complaintController.js:92-93 | when the sort lists each document once, find and countDocuments see the same number of documents |
| Listing.PageNumber | server/controllers/complaintController.js:84 | `Number(q) \|\| 1` is the query's number when it is a non-zero integer, and 1 otherwise |
| Listing.CeilDiv | server/controllers/complaintController.js:104 | `Math.ceil(a / b)`, bracketed: (q-1)·b < a ≤ q·b for positive b |
| Listing.Window | server/controllers/complaintController.js:95-96 | skip, then limit: the documents after the first `skip`, at most `n` of them, in order |
| Listing.Shown | server/controllers/userController.js:42-43 | each listed key is paired with its document through the projection |
| Listing.Paginate | server/controllers/complaintController.js:83-106 | a negative skip is refused with MongoDB's error; otherwise totalCount is the number of matches, pages is ceil(total/limit), page is Number(q) or 1, and at most the limit of documents is returned, each a match shown through the projection |
| Listing.PageStart | server/controllers/complaintController.js:96-104 | page `p` starts inside the matches exactly up to page `pages`, and pages before it are full |
| Listing.PagesCoverMatches | server/controllers/complaintController.js:92-105 | pages before `pages` hold the full limit, page `pages` is non-empty, and any later page is empty |
| ErrorMiddleware.ErrorHandler | server/middleware/errorMiddleware.js:4-57 | status 500 unless preset; then ObjectId CastError gives 404, duplicate key 11000 gives 400 naming the first key, ValidationError gives 400 with the messages joined by ". ", and the error's own statusCode overrides all of them; success is false and stack is null in production |
| ErrorMiddleware.Respond | server/middleware/errorMiddleware.js:4-57 | a failed handler's response has success false and a stack only outside production; an error's own statusCode decides the status; otherwise a ValidationError or duplicate key gives 400, an ObjectId CastError 404, and anything else the preset status or 500 |
| ErrorMiddleware.ThrowAnswersAsSet | server/middleware/errorMiddleware.js:17-18 | `res.status(s); throw new Error(m)` answers status s with message m |
| ErrorMiddleware.ForwardedPlainIs500 | server/middleware/errorMiddleware.js:17 | an error forwarded with no status set answers 500 |
| ErrorMiddleware.ValidationIs400 | server/middleware/errorMiddleware.js:37-41 | a ValidationError answers 400 whatever status was preset |
| ErrorMiddleware.DuplicateIs400 | server/middleware/errorMiddleware.js:29-34 | a unique-index violation answers 400 naming the field and the value |
| ErrorMiddleware.StatusCodeWins | server/middleware/errorMiddleware.js:44-47 | an ErrorResponse keeps its own status and message |
| AuthMiddleware.ExtractToken | server/middleware/authMiddleware.js:20-26 | a token is taken only from a header starting with "Bearer", and it is non-empty and free of blanks |
| AuthMiddleware.BearerRoundTrip | server/middleware/authMiddleware.js:20-26 | the header "Bearer " + token gives that token back |
| AuthMiddleware.OtherSchemesCarryNoToken | server/middleware/authMiddleware.js:20-23 | a header not starting with "Bearer" carries no token |
| AuthMiddleware.Protect | server/middleware/authMiddleware.js:16-76 | succeeds exactly when a token is present, verifies to an ObjectId id and names a stored user, which is then bound without its password; every failure is a 401 ErrorResponse; no token gives "(No token)", a failed verification its FailureReason, a payload without an id "(Invalid token payload)", an id that is not an ObjectId "(Token failed)" and an unknown id "(User not found)" |
| AuthMiddleware.FailureReason | server/middleware/authMiddleware.js:64-74 | a JsonWebTokenError gives "Invalid token", a TokenExpiredError "Token expired", any other failure "Token failed" |
| AuthMiddleware.NoTokenIgnoresState | server/middleware/authMiddleware.js:33-36 | without a token the answer depends neither on the store nor on the verifier |
| AuthMiddleware.ProtectRefusesWith401 | server/middleware/authMiddleware.js:35-74 | every refusal of protect reaches the client as 401 with its own message |
| AuthMiddleware.Authorize | server/middleware/authMiddleware.js:79-96 | passes exactly when a user is bound and its role is allowed; no user gives 401, a wrong role gives 403 |
| AuthMiddleware.AuthorizeOneRole | server/middleware/authMiddleware.js:88 | `authorize('<role>')` admits that role and no other |
| AuthMiddleware.Gate | server/middleware/authMiddleware.js:16-96 | after protect and authorize, the caller admitted is the one protect bound |
| AuthMiddleware.GateAdmitsExactly | server/middleware/authMiddleware.js:16-96 | the gate admits exactly a token naming a stored user of an allowed role, and refuses with 401 or 403 |
| UploadMiddleware.LastDot | server/middleware/uploadMiddleware.js:10 | the index of the last '.' of a name, or -1 |
| UploadMiddleware.ExtName | server/middleware/uploadMiddleware.js:10 | `path.extname`: a suffix of the name, empty or a dot followed by no dot, and empty for a name without a dot |
| UploadMiddleware.FileFilter | server/middleware/uploadMiddleware.js:7-13 | accepts exactly when both the mimetype and the lower-cased extension contain jpeg, jpg, png, gif or webp; otherwise refuses with the "Images Only!" error |
| UploadMiddleware.NoAllowedTypeInEmpty | server/middleware/uploadMiddleware.js:8 | the empty text matches no allowed type |
| UploadMiddleware.NoExtensionRejected | server/middleware/uploadMiddleware.js:10-12 | a file name without an extension is refused whatever its mimetype |
| UploadMiddleware.ExtNameOfDotted | server/middleware/uploadMiddleware.js:10 | the extension of `base.ext` is `.ext` |
| UploadMiddleware.UnanchoredMatchAccepts | server/middleware/uploadMiddleware.js:8-11 | the match is unanchored: "photo.PNGX" sent as image/png is accepted |
| UploadMiddleware.ExtNameOfLower | server/middleware/uploadMiddleware.js:10 | taking the extension and lower-casing commute |
| UploadMiddleware.FilterIgnoresNameCase | server/middleware/uploadMiddleware.js:10 | the filter's verdict does not depend on the case of the file name |
| UploadMiddleware.StoredName | server/middleware/uploadMiddleware.js:26-27 | a stored name starts with its prefix and a dash |
| UploadMiddleware.StoredNameKeepsExtension | server/middleware/uploadMiddleware.js:27 | a stored name keeps the extension of the uploaded file |
| UploadMiddleware.CheckFile | server/middleware/uploadMiddleware.js:30 | a file passes exactly when it is under the expected field, within the count, accepted by the filter and at most 5 MB |
| UploadMiddleware.Checks | server/middleware/uploadMiddleware.js:106 | one verdict per file of the request, in order, each given by CheckFile with the file's position as the count already received |
| UploadMiddleware.FirstRefusal | server/middleware/uploadMiddleware.js:106 | no refusal exactly when every file passes; otherwise the error is that of the first refused file, every earlier file having passed |
| UploadMiddleware.Receive | server/middleware/uploadMiddleware.js:98-106 | files are received exactly when each passes, under their stored names in order; otherwise the error of a refused file |
| UploadMiddleware.ReceiveAcceptsExactly | server/middleware/uploadMiddleware.js:98-106 | a request is received exactly when it has at most maxCount files, all under the field, all images of at most 5 MB |
| UploadMiddleware.UploadFailure | server/middleware/uploadMiddleware.js:72-113 | status 400; LIMIT_FILE_SIZE gives the "too large" text, otherwise the error's own message or the default |
| UploadMiddleware.ProfileUploadFailure | server/middleware/uploadMiddleware.js:31-35 | the profile handler forwards the upload error unchanged |
| UploadMiddleware.UploadRefusalsAre400 | server/middleware/uploadMiddleware.js:72-113 | a refused job or work upload reaches the client as 400 with a non-empty message |
| UploadMiddleware.ProfileRefusalsAre500 | server/middleware/uploadMiddleware.js:31-35 | a refused profile photo reaches the error handler with no status set and answers 500 |
| AuthController.CaseVariantReportedAsMobile | server/controllers/authController.js:71-76 | as written, an email differing from a stored one only in case is found by the query and then reported as a mobile-number clash |
| AuthController.DuplicateSubject | server/controllers/authController.js:75 | the clash names "email" exactly when a user has the normalised email, and "mobile number" otherwise, in which case some user has the mobile |
| AuthController.DuplicateSubjectIgnoresCase | server/controllers/authController.js:71-75 | the corrected subject does not depend on the case or padding of the email typed |
| AuthController.FreeContacts | server/controllers/authController.js:71-72 | when the duplicate query finds nobody, the new user keeps the unique indexes |
| AuthController.ContactsTaken | server/controllers/authController.js:71 | the `$or` lookup finds a user: a stored user has the lower-cased, trimmed email or the trimmed mobile submitted |
| AuthController.DuplicateSubjectAsWritten | server/controllers/authController.js:75 | the message says "email" exactly when the found user's stored email equals the email as submitted, and "mobile number" otherwise |
| AuthController.VillageTaken | server/controllers/authController.js:79 | a stored village has the submitted name lower-cased and trimmed |
| AuthController.SarpanchRefusal | server/controllers/authController.js:56-84 | the first failing check wins: required fields, then age NaN or below 21, then a used email or mobile, then a registered village name (lower-cased, trimmed) |
| AuthController.PeopleRefusal | server/controllers/authController.js:145-171 | required fields, then the Aadhaar of exactly 12 digits once trimmed, then age NaN or below 18, then a used email or mobile |
| AuthController.SarpanchUser | server/controllers/authController.js:89-99 | the sarpanch document has role sarpanch, the numeric age of at least 21, normalised contacts, the trimmed village, the photo path and a hash matching the password |
| AuthController.PeopleUser | server/controllers/authController.js:175-186 | the people document has role people, age at least 18, normalised contacts, the trimmed village and Aadhaar, and a hash matching the password |
| AuthController.SarpanchVillageStored | server/controllers/authController.js:103-106 | an accepted sarpanch document always gives a storable village named after its normalised village |
| AuthController.SarpanchRegistration | server/controllers/authController.js:42-128 | no photo gives 400, then the refusals give 400, then a schema failure is forwarded, then a failed Village.create is forwarded; success gives 201 with a token for the new id and the user without its password |
| AuthController.SarpanchAccepted | server/controllers/authController.js:89-106 | an accepted registration stores a valid sarpanch with free contacts and a storable village of an unused name bound to it |
| AuthController.AdmitSarpanch | server/controllers/authController.js:89-106 | the two creates add exactly the user and the village and keep the invariant |
| AuthController.RegisterSarpanch | server/controllers/authController.js:42-128 | answers as SarpanchRegistration; on success exactly the user and its village are stored; on any failure nothing is stored (the user is rolled back after a village failure) and the uploaded photo is deleted |
| AuthController.PeopleRegistration | server/controllers/authController.js:133-202 | no photo gives 400, then the refusals give 400, then a schema failure is forwarded; success gives 201 with the user without its password |
| AuthController.PeopleAccepted | server/controllers/authController.js:175-186 | an accepted registration stores a valid people user with free contacts |
| AuthController.RegisterPeople | server/controllers/authController.js:133-202 | answers as PeopleRegistration; on success exactly the user is stored; on failure nothing is stored and the photo is deleted |
| AuthController.LogsIn | server/controllers/authController.js:213-214 | user k is the one found by the lower-cased, trimmed email and its stored hash matches the password |
| AuthController.OnlyOwnerLogsIn | server/controllers/authController.js:213-214 | at most one stored user logs in with a given email |
| AuthController.LoginUser | server/controllers/authController.js:207-220 | missing fields give 400; an unknown email and a wrong password both give the same 401 "Invalid credentials"; success is 200 for the user found, sets only its lastLogin, and answers it without the password |
| AuthController.RegisteredUserLogsIn | server/controllers/authController.js:213-219 | a registered user logs in with its password, whatever the case or padding of the email, and nobody logs in with that email and another password |
| AuthController.GetMe | server/controllers/authController.js:225-234 | no bound user gives 404; otherwise the bound user |
| AuthController.MeHidesPassword | server/controllers/authController.js:225-234 | behind protect, /me answers the stored user without its password |
| ProfileController.GetMyProfile | server/controllers/profileController.js:13-23 | no bound user gives 404; otherwise the bound user |
| ProfileController.ProfileIsStoredUser | server/controllers/profileController.js:13-23 | the profile shown is the caller's stored document without its password |
| ProfileController.ApplyProfile | server/controllers/profileController.js:40-47 | name, gender and age change when given; dob, marital status and occupation change only for a people user; every other field is as stored |
| ProfileController.EmptyChangesKeepProfile | server/controllers/profileController.js:40-47 | an update body with no fields leaves the document as it was |
| ProfileController.ProfileUpdate | server/controllers/profileController.js:28-58 | 404 for a missing user; an age that does not cast forwards the AgeCastFailure errors of the merged document (which keeps its old age); a schema failure forwards the validators' errors; success answers the merged document without its password |
| ProfileController.ProfileSaveKeepsStore | server/controllers/profileController.js:40-49 | an update that passes its validators is storable and keeps role, village and unique contacts |
| ProfileController.UpdateMyProfile | server/controllers/profileController.js:28-58 | answers as ProfileUpdate; on success only the caller's document changes, to the merged one; on failure nothing changes |
| ProfileController.PasswordChange | server/controllers/profileController.js:63-88 | missing fields give 400, then a new password shorter than 6 gives 400, then a missing user gives 404, then a wrong current password gives 401 |
| ProfileController.RequestChecksIgnoreStore | server/controllers/profileController.js:67-72 | the two request checks fail without consulting the store |
| ProfileController.WithPassword | server/controllers/profileController.js:84-85 | the saved document's hash matches the new password, and nothing else changes |
| ProfileController.ChangeMyPassword | server/controllers/profileController.js:63-88 | answers as PasswordChange; on success only the caller's hash changes; on failure, a wrong current password included, nothing changes |
| ProfileController.ChangedPasswordTakesOver | server/controllers/profileController.js:79-85 | a change needs the current password to be accepted, and afterwards the new password logs in and every other one fails |
| UserController.GetPeopleInVillage | server/controllers/userController.js:9-56 | only people of the sarpanch's village are listed, without passwords, narrowed by a search on name, mobile or Aadhaar; ten to a page with the listing arithmetic |
| UserController.SearchNarrowsListing | server/controllers/userController.js:15-35 | everyone a search finds is also listed without it |
| UserController.MatchesSearch | server/controllers/userController.js:23-27 | the search text occurs, ignoring case, in the name, the mobile or the Aadhaar number |
| UserController.Listed | server/controllers/userController.js:15-35 | the filter: a people user of the sarpanch's village, matching the search when one is given |
| UserController.ListingHasNoSarpanch | server/controllers/userController.js:15-35 | a sarpanch is never listed |
| UserController.GetPersonById | server/controllers/userController.js:61-83 | a malformed id gives 400; a missing person, one of another village or a non-people user gives 404; otherwise the person without the password |
| UserController.Assigned | server/controllers/userController.js:121-122 | `field = given ?? field` through the trim setter |
| UserController.ApplyPerson | server/controllers/userController.js:121-129 | each of the nine fields changes only when given, through its setter; role, village, password, photo, registration time and lastLogin are kept |
| UserController.BrokenIndex | server/models/User.js:20-38 | no unique index is broken exactly when the contacts are free; otherwise it names mobile or email with a user that holds it |
| UserController.PersonUpdate | server/controllers/userController.js:88-150 | 400 then 404 as for the lookup; a given Aadhaar not exactly 12 digits gives 400 before the save; the update succeeds exactly when the age casts, the validators pass and no unique index is broken; success answers the merged document without its password |
| UserController.PersonUpdateFailures | server/controllers/userController.js:125-149 | past the lookup and the Aadhaar check, an age that does not cast forwards the AgeCastFailure errors of the merged document, a failed validator forwards the validators' errors, and a merged document taking another user's mobile or email forwards the duplicate-key error for that field |
| UserController.UpdateStaysInScope | server/controllers/userController.js:103-106 | an accepted update is always of a people user of the sarpanch's village |
| UserController.PersonSaveKeepsStore | server/controllers/userController.js:138 | an update that passes its validators and indexes is storable |
| UserController.UpdatePersonDetails | server/controllers/userController.js:88-150 | answers as PersonUpdate; on success only that person changes, to the merged document; on failure nothing changes |
| UserController.PersonDeletion | server/controllers/userController.js:155-181 | 400 for a malformed id, 404 out of scope; otherwise 200 naming the person deleted |
| UserController.DeletePerson | server/controllers/userController.js:155-181 | removes exactly the record that passed the scope check, and nothing on failure |
| UserController.SarpanchNeverDeleted | server/controllers/userController.js:168-171 | a sarpanch record can never be deleted by this route |
| ComplaintController.SubmitComplaint | server/controllers/complaintController.js:10-39 | missing subject or details give 400 and create nothing; otherwise exactly one Pending complaint of the caller's village and id is added, or the validation error is forwarded |
| ComplaintController.GetMyComplaints | server/controllers/complaintController.js:44-68 | only the caller's complaints, ten to a page, with the listing arithmetic |
| ComplaintController.GetVillageComplaints | server/controllers/complaintController.js:74-107 | only complaints of the sarpanch's village, narrowed by an exact status, ten to a page |
| ComplaintController.InVillageWithStatus | server/controllers/complaintController.js:78-90 | the filter: a complaint of the sarpanch's village whose status is exactly the one asked, when one is asked |
| ComplaintController.UnknownStatusMatchesNothing | server/controllers/complaintController.js:78-90 | a status query that names no status matches no complaint |
| ComplaintController.ReplyToComplaint | server/controllers/complaintController.js:113-158 | missing reply text gives 400 before the id check gives 400; missing or another village's complaint gives 404; success stores exactly the replied complaint; any failure changes nothing |
| ComplaintController.MarkComplaintAsViewed | server/controllers/complaintController.js:164-203 | 400, then 404; success stores the complaint marked viewed, with a message saying whether it changed; failure changes nothing |
| NoticeController.NoticeCreation | server/controllers/noticeController.js:22-63 | a caller with no id or village is forwarded as a plain error; a heading or details empty once trimmed gives 400; success gives 201 with the trimmed fields, the caller's village and id, the image path and view count 0; a schema failure is forwarded |
| NoticeController.AddNotice | server/controllers/noticeController.js:22-63 | answers as NoticeCreation; on success exactly the notice is added; a refusal after the caller check deletes the upload |
| NoticeController.GetNoticesForVillage | server/controllers/noticeController.js:66-74 | only the caller's village, with `limit = Number(q.limit) \|\| 10` |
| NoticeController.NoticeDeletion | server/controllers/noticeController.js:77-89 | 400, 404 and 403 in that order; otherwise 200 "Notice deleted" |
| NoticeController.DeleteNotice | server/controllers/noticeController.js:77-89 | on success removes the record, then its image when it has one; on failure nothing changes |
| NoticeController.NoticeView | server/controllers/noticeController.js:92-103 | 400 for a malformed id; 404 unless the notice is of the caller's village; otherwise the notice with one more view and nothing else changed |
| NoticeController.ViewNotice | server/controllers/noticeController.js:96-100 | the store changes exactly as one view of that notice |
| NoticeController.ViewsAddUp | server/controllers/noticeController.js:96-100 | after n views the count has grown by exactly n and every other notice is as it was |
| NoticeController.OtherVillageNotCounted | server/controllers/noticeController.js:96-101 | views of another village's notice change nothing |
| JobController.JobCreation | server/controllers/jobController.js:21-64 | a heading or details empty once trimmed gives 400; success gives 201 with the trimmed fields, the caller's village and id, and the image path; a schema failure is forwarded |
| JobController.AddJob | server/controllers/jobController.js:21-64 | answers as JobCreation; on success exactly the job is added; any failure deletes the upload and adds nothing |
| JobController.GetJobsForVillage | server/controllers/jobController.js:69-77 | only the caller's village, with `limit = Number(q.limit) \|\| 10` |
| JobController.JobDeletion | server/controllers/jobController.js:82-89 | 400, 404 and 403 in that order; otherwise 200 |
| JobController.DeleteJob | server/controllers/jobController.js:82-104 | on success removes the record, then its image when it has one; on failure nothing changes |
| SchemeController.SchemeCreation | server/controllers/schemeController.js:10-42 | a missing heading or details gives 400; success gives 201 with the caller's village and id, and `imageUrl \|\| null`; the trimmed heading is then validated by the schema |
| SchemeController.BlankHeadingRefusedBySchema | server/controllers/schemeController.js:14-30 | a heading of spaces passes the handler's check and is refused by the schema |
| SchemeController.AddScheme | server/controllers/schemeController.js:10-42 | answers as SchemeCreation; on success exactly the scheme is added, on failure nothing |
| SchemeController.GetSchemesForVillage | server/controllers/schemeController.js:47-72 | only the caller's village, ten to a page |
| SchemeController.SchemeDeletion | server/controllers/schemeController.js:77-110 | 400, 404 and 403 in that order; otherwise 200 naming the heading |
| SchemeController.DeleteScheme | server/controllers/schemeController.js:77-110 | on success removes exactly that scheme; a refusal keeps it |
| WorkDoneController.UploadedUrls | server/controllers/workDoneController.js:31-38 | each uploaded file, in order, as its uploads/works path |
| WorkDoneController.NonEmpty | server/controllers/workDoneController.js:47-50 | `.filter(url => url)` keeps exactly the non-empty items, in order |
| WorkDoneController.TrimAll | server/controllers/workDoneController.js:47 | each item trimmed, in order |
| WorkDoneController.BodyUrls | server/controllers/workDoneController.js:44-51 | a string gives trimmed non-empty pieces without separators; an array keeps exactly its non-empty items; anything else gives nothing |
| WorkDoneController.TrimKeepsNoSep | server/controllers/workDoneController.js:47 | trimming a piece adds no separator |
| WorkDoneController.AllImageUrls | server/controllers/workDoneController.js:27-51 | the uploads' paths first, in order, then the body's URLs |
| WorkDoneController.StoredUrls | server/models/WorkDone.js:28-33 | what the record stores: the uploads' paths, in order, then the body's URLs, each trimmed by the element setter |
| WorkDoneController.JoinedUrlsRoundTrip | server/controllers/workDoneController.js:47 | trimmed non-empty URLs joined with commas come back from the body unchanged |
| WorkDoneController.WorkCreation | server/controllers/workDoneController.js:11-75 | a missing year or details gives 400, then a year that is NaN, below 1900 or above current year + 1 gives 400; success gives 201 with the numeric year, the caller's village and id, and the stored URLs; a schema failure of an accepted year (above the load year + 1, or a blank village or id) forwards the schema's ValidationError |
| WorkDoneController.YearCheckIsSchemaRange | server/controllers/workDoneController.js:21-25 | while the server runs in the year it started, a year the handler accepts is also accepted by the schema |
| WorkDoneController.AddWorkDone | server/controllers/workDoneController.js:11-75 | answers as WorkCreation, including the forwarded schema error; on success exactly the record is added; the uploaded files stay whatever the answer |
| WorkDoneController.Listed | server/controllers/workDoneController.js:84-86 | the filter: a record of the caller's village whose year is `Number(year)`, when a year is asked |
| WorkDoneController.GetWorkDoneForVillage | server/controllers/workDoneController.js:80-116 | a non-numeric year query gives 400; otherwise only the caller's village, narrowed to exactly the year asked, ten to a page |
| WorkDoneController.YearFilterNarrows | server/controllers/workDoneController.js:84-99 | the year filter only narrows the village's listing |
| WorkDoneController.WorkDeletion | server/controllers/workDoneController.js:121-158 | 400, 404 and 403 in that order; otherwise 200 naming the year |
| WorkDoneController.DeleteWorkDone | server/controllers/workDoneController.js:121-158 | on success removes exactly that record and leaves its images; a refusal keeps it |

## Left out

- Token signing and verification: `jwt.sign` and `jwt.verify` are replaced by the parameter `verify`, which says what a token decodes to. The refusal when the secret is not configured (server/middleware/authMiddleware.js:43-46) depends on configuration and is not modelled. The 30-day cookie options of sendTokenResponse are computed and never used.
- Password hashing: bcrypt and its salt are replaced by the injective stand-in `UserModel.H`. Only what matchPassword decides is modelled.
- File storage: the disk is the set `Db.files` of stored paths. multer's storage engines, `fs.unlink` and `mkdir`, and their asynchronous error logging are not modelled; a deletion always succeeds.
- AddNotice: the notice route mounts no upload middleware, and the notice and scheme upload handlers are empty stubs. Over HTTP, `req.file` is therefore always absent for a notice; the model still takes an optional file.
- Route wiring (server.js, routes/*.js) and database connection (config/db.js) are not part of this model. Routes appear only as the role preconditions listed above. markComplaintAsViewed and getNoticeByIdAndIncrementView are modelled as handlers, but neither is routed.
- Mongoose internals:
  - `populate` is not modelled.
  - The sort order is an input.
  - `$regex` search is a case-insensitive substring test on text without regular expression syntax.
  - `ObjectId.isValid` is modelled for the 24-digit hexadecimal form only.
  - The email `match` validator (server/models/User.js:34-37), the `createdAt`/`updatedAt` timestamps, and the `registeredAt`/`addedAt` defaults beyond the time passed in are not modelled.
- View counting: `viewCount` is not declared in server/models/Notice.js, and Mongoose's strict mode drops undeclared paths. The `viewCount: 0` of the create (server/controllers/noticeController.js:50) and the `$inc` (line 98) are therefore both discarded, and the program as written never stores or returns a count. The model keeps the counter the code evidently intends. The following members state that intended behaviour and not what is stored:
- NoticeModel.NewNotice: its view count of 0 is not stored by the program.
- NoticeController.NoticeCreation: the answered view count 0 is absent from the program's document.
- NoticeController.NoticeView: the answered notice carries no count in the program.
- NoticeController.ViewNotice: the program's store is unchanged by a view.
- NoticeController.ViewsAddUp: the program keeps no count that could grow.
- NoticeController.OtherVillageNotCounted: holds in the program too, since nothing is counted at all.
- Js.ToNumber: `Number()` is modelled for optional white space around an optionally signed run of decimal digits; any other text converts to NaN. Fractions, exponents, "Infinity" and the hexadecimal, octal and binary forms are not covered, and neither are non-string body values such as a JSON number.
- Js.LowerChar and Js.ToLower: only the ASCII letters are lower-cased. JavaScript's `toLowerCase` and the case-insensitive `$regex` fold every Unicode letter, so "Ärwil" and "ärwil" are different names in the model and the same name in the program. This affects the village name, the people search and the normalised email.
- VillageModel.NewVillage: the lower-cased name is ASCII-only (see Js.ToLower); two village names that differ only in a non-ASCII letter's case are distinct in the model, although the program stores them as the same name.
- AuthController.SarpanchRefusal: for a taken contact it answers with the corrected DuplicateSubject. The program as written names "mobile number" when the stored email differs in case from the submitted one (see Findings, AuthController.CaseVariantReportedAsMobile). SarpanchRegistration and RegisterSarpanch inherit this.
- AuthController.PeopleRefusal: the same as SarpanchRefusal, for the lines at server/controllers/authController.js:166-171. PeopleRegistration and RegisterPeople inherit this.
- ProfileController.ProfileUpdate: `dob` is an `Option<int>`, so a `dob` that does not cast to a Date, and its CastError, cannot be expressed. UpdateMyProfile inherits this.
- UserController.PersonUpdate: the same `dob` limitation as ProfileUpdate. PersonUpdateFailures and UpdatePersonDetails inherit this.
- String length counts UTF-16 code units; the model bounds it between the number of characters and twice that.
- WorkDoneController.BodyUrls: JavaScript splits on runs of newlines and commas. The model splits at each separator and drops the empty pieces; both give the same list. Array items that are not strings are not modelled.
- The `else` branches after a successful `create` (authController.js:109-114, 190-195; complaintController.js:35-38; schemeController.js:38-41; workDoneController.js:71-74) cannot run, since `create` either returns a document or throws. They are left out.
- Failures of the database itself (a lost connection, a failed `save` or `deleteOne`) are not modelled. The exceptions are the failed `Village.create` of a sarpanch registration, and the unique-index errors of a people update.
- Concurrency: races between requests are left out. Uniqueness relies on the store's indexes, which `Db.Valid()` states.
- Logging through `console` is left out.

## Findings

| source | as written | input that shows it | evidently intended | confidence | as-written member | corrected member |
|---|---|---|---|---|---|---|
| server/controllers/authController.js:71-76 | The duplicate message compares the stored email, which is lower-cased, with the email as submitted. registerPeople does the same at lines 166-171. | A user is stored with "a@b.in" and a registration submits "A@b.in". The query finds the user by email, yet the answer is "User already exists with this mobile number". | Name "email" whenever the normalised email is taken. | not executed | AuthController.CaseVariantReportedAsMobile | AuthController.DuplicateSubject |
