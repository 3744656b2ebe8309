/**
 * The Scheme schema: a government scheme announced in one village.
 */
module SchemeModel {
  import opened Js
  import opened Http

  const MaxHeadingLength := 200

  datatype Scheme = Scheme(
    villageName: string,
    heading: string,
    details: string,
    imageUrl: Option<string>,
    addedBy: string,
    addedAt: int)

  /** The document `Scheme.create` saves, with the trim setters applied. */
  function NewScheme(villageName: string, heading: string, details: string,
                     imageUrl: Option<string>, addedBy: string, now: int): (s: Scheme)
    ensures s.villageName == Trim(villageName) && s.heading == Trim(heading) && s.details == details
    ensures s.imageUrl == (if imageUrl.Some? then Some(Trim(imageUrl.value)) else None)
    ensures s.addedBy == addedBy && s.addedAt == now
  {
    Scheme(Trim(villageName), Trim(heading), details,
           if imageUrl.Some? then Some(Trim(imageUrl.value)) else None, addedBy, now)
  }

  /** The rules the schema validators enforce. */
  predicate Conforms(s: Scheme)
  {
    s.villageName != "" && s.heading != "" && Length(s.heading) <= MaxHeadingLength
    && s.details != "" && s.addedBy != ""
  }

  function Violations(s: Scheme): (vs: seq<Violation>)
    ensures vs == [] <==> Conforms(s)
  {
    Check(s.villageName == "", "villageName", "Village name is required for the scheme")
    + RequiredWithMax("heading", s.heading, MaxHeadingLength, "Scheme heading is required", "Heading cannot be more than 200 characters")
    + Check(s.details == "", "details", "Scheme details are required")
    + Check(s.addedBy == "", "addedBy", "Path `addedBy` is required.")
  }

  predicate Stored(s: Scheme)
  {
    Conforms(s) && IsTrimmed(s.villageName) && IsTrimmed(s.heading)
    && (s.imageUrl.Some? ==> IsTrimmed(s.imageUrl.value))
  }

  /** A new scheme is stored exactly when its trimmed heading is non-empty and
      at most 200 UTF-16 units, its details and village are non-empty and it
      names its author. */
  lemma NewSchemeStored(villageName: string, heading: string, details: string,
                        imageUrl: Option<string>, addedBy: string, now: int)
    ensures Stored(NewScheme(villageName, heading, details, imageUrl, addedBy, now)) <==>
              Trim(villageName) != "" && Trim(heading) != "" && Length(Trim(heading)) <= MaxHeadingLength
              && details != "" && addedBy != ""
  {
  }
}
