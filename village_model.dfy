/**
 * The Village schema: a unique, trimmed, lower-cased name bound to the one
 * sarpanch who registered it.
 */
module VillageModel {
  import opened Js
  import opened Http

  datatype Village = Village(name: string, sarpanchId: string, registeredAt: int)

  function NewVillage(rawName: string, sarpanchId: string, now: int): (v: Village)
    ensures v.name == LowerTrimmed(rawName) && v.sarpanchId == sarpanchId && v.registeredAt == now
    ensures Stored(v) <==> LowerTrimmed(rawName) != "" && sarpanchId != ""
  {
    LowerTrimmedIdempotent(rawName);
    Village(LowerTrimmed(rawName), sarpanchId, now)
  }

  /** The rules the schema validators enforce. */
  predicate Conforms(v: Village)
  {
    v.name != "" && v.sarpanchId != ""
  }

  function Violations(v: Village): (vs: seq<Violation>)
    ensures vs == [] <==> Conforms(v)
  {
    Check(v.name == "", "name", "Village name is required")
    + Check(v.sarpanchId == "", "sarpanchId", "Path `sarpanchId` is required.")
  }

  predicate Stored(v: Village)
  {
    Conforms(v) && v.name == LowerTrimmed(v.name)
  }
}
