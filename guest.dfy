/** Guest categories (`api/models/Guest.ts`). */
module Guests {
  import opened Js

  datatype Guest = Adult | Child | Parent | Student | Staff

  /** `guestTypes`: the recognised category names, in the source's order. */
  const GuestTypes: seq<string> := ["Adult", "Child", "Parent", "Student", "Staff"]

  /** The `type` field of a guest. */
  function TypeName(g: Guest): (name: string)
    ensures name in GuestTypes
  {
    match g
    case Adult => "Adult"
    case Child => "Child"
    case Parent => "Parent"
    case Student => "Student"
    case Staff => "Staff"
  }

  /** `guestFromString`: a guest exactly for the five category names (case-sensitive),
      whose `type` is the given string; null (None) for every other string. */
  function GuestFromString(s: string): (r: Option<Guest>)
    ensures r.Some? <==> s in GuestTypes
    ensures r.Some? ==> TypeName(r.value) == s
  {
    match s
    case "Adult" => Some(Adult)
    case "Child" => Some(Child)
    case "Parent" => Some(Parent)
    case "Student" => Some(Student)
    case "Staff" => Some(Staff)
    case _ => None
  }

  /** `guestFromString` applied to an untyped value: the `switch` compares with
      `===`, so no value other than one of the five strings matches. */
  function GuestFromValue(v: Value): (r: Option<Guest>)
    ensures r.Some? <==> v.Str? && v.s in GuestTypes
    ensures r.Some? ==> v == Str(TypeName(r.value))
  {
    if v.Str? then GuestFromString(v.s) else None
  }

  /** Parsing a guest's own category name gives that guest back. */
  lemma GuestFromStringRoundTrip(g: Guest)
    ensures GuestFromString(TypeName(g)) == Some(g)
  {
  }

  /** Different guests have different category names. */
  lemma TypeNameInjective(g: Guest, h: Guest)
    ensures TypeName(g) == TypeName(h) ==> g == h
  {
  }
}
