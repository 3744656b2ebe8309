/**
 * The Job schema: a job posting of one village.
 */
module JobModel {
  import opened Js
  import opened Http

  const MaxHeadingLength := 200

  datatype Job = Job(
    villageName: string,
    heading: string,
    details: string,
    imageUrl: Option<string>,
    addedBy: string,
    postedAt: int)

  /** The document `Job.create` saves, with the trim setters applied. */
  function NewJob(villageName: string, heading: string, details: string,
                  imageUrl: Option<string>, addedBy: string, now: int): (j: Job)
    ensures j.villageName == Trim(villageName) && j.heading == Trim(heading) && j.details == details
    ensures j.imageUrl == (if imageUrl.Some? then Some(Trim(imageUrl.value)) else None)
    ensures j.addedBy == addedBy && j.postedAt == now
  {
    Job(Trim(villageName), Trim(heading), details,
        if imageUrl.Some? then Some(Trim(imageUrl.value)) else None, addedBy, now)
  }

  /** The rules the schema validators enforce. */
  predicate Conforms(j: Job)
  {
    j.villageName != "" && j.heading != "" && Length(j.heading) <= MaxHeadingLength
    && j.details != "" && j.addedBy != ""
  }

  function Violations(j: Job): (vs: seq<Violation>)
    ensures vs == [] <==> Conforms(j)
  {
    Check(j.villageName == "", "villageName", "Village name is required for the job posting")
    + RequiredWithMax("heading", j.heading, MaxHeadingLength, "Job posting heading is required", "Heading cannot be more than 200 characters")
    + Check(j.details == "", "details", "Job posting details are required")
    + Check(j.addedBy == "", "addedBy", "Path `addedBy` is required.")
  }

  predicate Stored(j: Job)
  {
    Conforms(j) && IsTrimmed(j.villageName) && IsTrimmed(j.heading)
    && (j.imageUrl.Some? ==> IsTrimmed(j.imageUrl.value))
  }

  /** A new job is stored exactly when its trimmed heading is non-empty and
      at most 200 UTF-16 units, its details and village are non-empty and it
      names its author. */
  lemma NewJobStored(villageName: string, heading: string, details: string,
                     imageUrl: Option<string>, addedBy: string, now: int)
    ensures Stored(NewJob(villageName, heading, details, imageUrl, addedBy, now)) <==>
              Trim(villageName) != "" && Trim(heading) != "" && Length(Trim(heading)) <= MaxHeadingLength
              && details != "" && addedBy != ""
  {
  }
}
