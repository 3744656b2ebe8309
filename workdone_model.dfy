/**
 * The WorkDone schema: a record of public work in one village in a year.
 * The year has three validators: `min: 1900`, `max: <year the server
 * started> + 1`, and a custom rule against the current year. Mongoose reports
 * the first of a path's validators that fails.
 */
module WorkDoneModel {
  import opened Js
  import opened Http

  const MinYear := 1900

  datatype WorkDone = WorkDone(
    villageName: string,
    year: int,
    details: string,
    imageUrls: seq<string>,
    addedBy: string,
    addedAt: int)

  /** The document `WorkDone.create` saves: the village trimmed and every
      image URL trimmed by the array's element setter. */
  function NewWorkDone(villageName: string, year: int, details: string,
                       imageUrls: seq<string>, addedBy: string, now: int): (w: WorkDone)
    ensures w.villageName == Trim(villageName) && w.year == year && w.details == details
    ensures |w.imageUrls| == |imageUrls|
    ensures forall i :: 0 <= i < |imageUrls| ==> w.imageUrls[i] == Trim(imageUrls[i])
    ensures w.addedBy == addedBy && w.addedAt == now
  {
    WorkDone(Trim(villageName), year, details,
             seq(|imageUrls|, i requires 0 <= i < |imageUrls| => Trim(imageUrls[i])), addedBy, now)
  }

  /** The first failing validator of `year`, if any. `loadYear` is the year
      when the schema was built, `currentYear` the year at validation. */
  function YearViolation(year: int, loadYear: int, currentYear: int): (v: Option<string>)
    ensures v.None? <==> MinYear <= year <= loadYear + 1 && year <= currentYear + 1
    ensures year < MinYear ==> v == Some("Year seems too old")
  {
    if year < MinYear then Some("Year seems too old")
    else if year > loadYear + 1 then Some("Year cannot be in the far future")
    else if !(year >= MinYear && year <= currentYear + 1) then Some("Please enter a valid year.")
    else None
  }

  function Violations(w: WorkDone, loadYear: int, currentYear: int): (vs: seq<Violation>)
    ensures vs == [] <==>
              w.villageName != "" && MinYear <= w.year <= loadYear + 1 && w.year <= currentYear + 1
              && w.details != "" && w.addedBy != ""
  {
    var yv := YearViolation(w.year, loadYear, currentYear);
    Check(w.villageName == "", "villageName", "Village name is required for the work record")
    + (if yv.Some? then [("year", yv.value)] else [])
    + Check(w.details == "", "details", "Details of the work done are required")
    + Check(w.addedBy == "", "addedBy", "Path `addedBy` is required.")
  }

  /** While the server runs in the year it started, the schema accepts
      exactly the years 1900 to next year. */
  lemma SameYearRange(year: int, currentYear: int)
    ensures YearViolation(year, currentYear, currentYear).None? <==> MinYear <= year <= currentYear + 1
  {
  }

  /** A stored record: the time-independent validators hold and the setters'
      normal forms hold. */
  predicate Stored(w: WorkDone)
  {
    w.villageName != "" && IsTrimmed(w.villageName) && w.year >= MinYear && w.details != ""
    && w.addedBy != "" && forall i :: 0 <= i < |w.imageUrls| ==> IsTrimmed(w.imageUrls[i])
  }
}
