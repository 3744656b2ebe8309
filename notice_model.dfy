/**
 * The Notice schema. The handlers also keep a view counter on each notice,
 * which the schema itself does not declare; the model keeps it as a field.
 */
module NoticeModel {
  import opened Js
  import opened Http

  const MaxHeadingLength := 150

  datatype Notice = Notice(
    villageName: string,
    heading: string,
    details: string,
    imageUrl: Option<string>,
    createdBy: string,
    publishedAt: int,
    viewCount: nat)

  /** The document `Notice.create` saves, with the trim setters applied. */
  function NewNotice(villageName: string, heading: string, details: string,
                     imageUrl: Option<string>, createdBy: string, now: int): (n: Notice)
    ensures n.villageName == Trim(villageName) && n.heading == Trim(heading) && n.details == details
    ensures n.imageUrl == (if imageUrl.Some? then Some(Trim(imageUrl.value)) else None)
    ensures n.createdBy == createdBy && n.publishedAt == now && n.viewCount == 0
  {
    Notice(Trim(villageName), Trim(heading), details,
           if imageUrl.Some? then Some(Trim(imageUrl.value)) else None, createdBy, now, 0)
  }

  /** The rules the schema validators enforce. */
  predicate Conforms(n: Notice)
  {
    n.villageName != "" && n.heading != "" && Length(n.heading) <= MaxHeadingLength
    && n.details != "" && n.createdBy != ""
  }

  function Violations(n: Notice): (vs: seq<Violation>)
    ensures vs == [] <==> Conforms(n)
  {
    Check(n.villageName == "", "villageName", "Village name is required for the notice")
    + RequiredWithMax("heading", n.heading, MaxHeadingLength, "Notice heading is required", "Heading cannot be more than 150 characters")
    + Check(n.details == "", "details", "Notice details are required")
    + Check(n.createdBy == "", "createdBy", "Path `createdBy` is required.")
  }

  predicate Stored(n: Notice)
  {
    Conforms(n) && IsTrimmed(n.villageName) && IsTrimmed(n.heading)
    && (n.imageUrl.Some? ==> IsTrimmed(n.imageUrl.value))
  }

  /** A new notice is stored exactly when its trimmed heading is non-empty and
      at most 150 UTF-16 units, its details and village are non-empty and it
      names its author. */
  lemma NewNoticeStored(villageName: string, heading: string, details: string,
                        imageUrl: Option<string>, createdBy: string, now: int)
    ensures Stored(NewNotice(villageName, heading, details, imageUrl, createdBy, now)) <==>
              Trim(villageName) != "" && Trim(heading) != "" && Length(Trim(heading)) <= MaxHeadingLength
              && details != "" && createdBy != ""
  {
  }
}
