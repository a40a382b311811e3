/** Defensive coercions from dynamically typed values (`SafeAs.ts`). */
module SafeAs {
  import opened Js

  /** `safeAsString`: the value itself when it is a string, undefined otherwise
      (undefined and null included). */
  function SafeAsString(value: Value): (r: Option<string>)
    ensures r.Some? <==> value.Str?
    ensures r.Some? ==> r.value == value.s
  {
    if value.Undefined? || value.Null? then None
    else if value.Str? then Some(value.s)
    else None
  }

  /** A decoded optional string, put back as a dynamically typed value. */
  function StringValue(s: Option<string>): Value
  {
    match s
    case None => Undefined
    case Some(str) => Str(str)
  }

  /** `safeAsBoolean`, imported by `TicketType.ts`: its body is not part of this
      model, so it is taken to coerce like `safeAsString` does. */
  function SafeAsBoolean(value: Value): (r: Option<bool>)
    ensures r.Some? <==> value.Bool?
    ensures r.Some? ==> r.value == value.b
  {
    if value.Bool? then Some(value.b) else None
  }

  /** `safeAsNumber`, imported by `Room.ts`: its body is not part of this model,
      so it is taken to coerce like `safeAsString` does. */
  function SafeAsNumber(value: Value): (r: Option<int>)
    ensures r.Some? <==> value.Num?
    ensures r.Some? ==> r.value == value.n
  {
    if value.Num? then Some(value.n) else None
  }

  /** Coercing an already coerced value changes nothing. */
  lemma SafeAsStringIdempotent(value: Value)
    ensures SafeAsString(StringValue(SafeAsString(value))) == SafeAsString(value)
  {
  }
}
