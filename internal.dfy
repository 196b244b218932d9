/// The helpers of src/utils/internal.ts: the nil test, the safe
/// stringification every string built-in relies on, and the choice of
/// time mode behind every date built-in.
module Internal {
  import opened JsValues

  /** `isNil`: the value is undefined or null. */
  predicate IsNil(v: Value) {
    v.Undefined? || v.Null?
  }

  /** Whether `typeof val['toString'] === 'function'` holds for a value
      that is not nil: booleans, numbers, strings, arrays and functions
      inherit a callable one from their prototypes; objects and errors
      carry their own slot. */
  predicate HasCallableToString(v: Value) {
    match v
    case Obj(_, toStr, _) => toStr.ToStringMethod?
    case Err(_, _, _, toStr) => toStr.ToStringMethod?
    case _ => !IsNil(v)
  }

  /** What `String(val.toString())` yields: the inherited methods render
      as ToString does, an own method gives whatever it returns or
      throws. */
  function CallToString(v: Value): Outcome<string>
    requires HasCallableToString(v)
  {
    match v
    case Obj(_, toStr, _) => toStr.result
    case Err(_, _, _, toStr) => toStr.result
    case _ => JsToString(v)
  }

  /** The block an error without a callable toString renders as. */
  function ErrorBlock(name: string, message: string, stack: string): string {
    "[ERROR]: " + name + "\n\n" + message + "\n\n" + stack
  }

  /** `toStringSafe`: the cases are tried in order: a string as it is,
      nil as "", then the value's own toString, then the error block, then
      the JSON text of an object, and last `String(val)`. In this model
      every value that is not an object or an error has a callable
      toString, so the last case is never reached. */
  function ToStringSafe(v: Value): (r: Outcome<string>)
    ensures v.Str? ==> r == Normal(v.s)
    ensures IsNil(v) ==> r == Normal("")
  {
    if v.Str? then Normal(v.s)
    else if IsNil(v) then Normal("")
    else if HasCallableToString(v) then CallToString(v)
    else if v.Err? then Normal(ErrorBlock(v.name, v.message, v.stack))
    else if v.Obj? then Normal(v.json)
    else JsToString(v)
  }

  /** Whether ToString of a value completes: every object and error
      inside it has a toString that returns. */
  ghost predicate Renders(v: Value) {
    match v
    case Arr(items) => forall i :: 0 <= i < |items| ==> Renders(items[i])
    case Obj(_, toStr, _) => toStr.ToStringMethod? && toStr.result.Normal?
    case Err(_, _, _, toStr) => toStr.ToStringMethod? && toStr.result.Normal?
    case _ => true
  }

  /** ToString completes exactly on the values that render. */
  lemma {:induction false} JsToStringCompletesIff(v: Value)
    ensures JsToString(v).Normal? <==> Renders(v)
    decreases v
  {
    match v
    case Arr(items) =>
      var outs := seq(|items|, i requires 0 <= i < |items| => ElementText(items[i]));
      forall i | 0 <= i < |items|
        ensures outs[i].Normal? <==> Renders(items[i])
      {
        JsToStringCompletesIff(items[i]);
      }
    case _ =>
  }

  /** `toStringSafe` completes on every value that renders, and also on a
      top-level object or error without a callable toString (the JSON and
      error-block cases); it throws only when a toString throws, or when an
      array holds an object that cannot be converted. */
  lemma ToStringSafeCompletesIff(v: Value)
    ensures ToStringSafe(v).Normal? <==> Renders(v) || ((v.Obj? || v.Err?) && v.toStr.NoToString?)
  {
    JsToStringCompletesIff(v);
  }

  /** Where `toStringSafe` and `String()` differ: on nil it gives "" rather
      than "undefined" or "null", and on an object or error without a
      callable toString it gives the JSON text or the error block where
      `String()` throws. On every other value the two agree. */
  lemma ToStringSafeAgreesWithString(v: Value)
    ensures !IsNil(v) && HasCallableToString(v) ==> ToStringSafe(v) == JsToString(v)
    ensures v == Undefined ==> ToStringSafe(v) == Normal("") && JsToString(v) == Normal("undefined")
    ensures v == Null ==> ToStringSafe(v) == Normal("") && JsToString(v) == Normal("null")
    ensures (v.Obj? || v.Err?) && !HasCallableToString(v) ==> ToStringSafe(v).Normal? && JsToString(v).Threw?
  {
  }

  /** A callable toString shadows the error block and the JSON text: those
      two cases are reached only by objects and errors that lack one. */
  lemma ToStringShadowsErrorAndJson(v: Value)
    requires v.Obj? || v.Err?
    ensures v.toStr.ToStringMethod? ==> ToStringSafe(v) == v.toStr.result
    ensures v.Err? && v.toStr.NoToString? ==> ToStringSafe(v) == Normal(ErrorBlock(v.name, v.message, v.stack))
    ensures v.Obj? && v.toStr.NoToString? ==> ToStringSafe(v) == Normal(v.json)
  {
  }

  /** The conversion `getTime` applies to its time: into a named zone,
      into local time, or none (the time is returned as it was given,
      which by default is the current UTC time). */
  datatype TimeMode = Zone(name: string) | Local | AsGiven

  /** The decision in `getTime`: a string selects that zone ("" selects
      "UTC"), a truthy non-string local time, anything else leaves the
      time as it is. */
  function GetTimeMode(useLocalTimeOrTimeZone: Value): (m: TimeMode)
    ensures m.Zone? <==> useLocalTimeOrTimeZone.Str?
    ensures m.Zone? ==> m.name != "" && (useLocalTimeOrTimeZone.s != "" ==> m.name == useLocalTimeOrTimeZone.s)
    ensures useLocalTimeOrTimeZone == Str("") ==> m == Zone("UTC")
    ensures m == Local <==> !useLocalTimeOrTimeZone.Str? && Truthy(useLocalTimeOrTimeZone)
    ensures m == AsGiven <==> !useLocalTimeOrTimeZone.Str? && !Truthy(useLocalTimeOrTimeZone)
  {
    match useLocalTimeOrTimeZone
    case Str(zone) => Zone(if zone != "" then zone else "UTC")
    case _ => if Truthy(useLocalTimeOrTimeZone) then Local else AsGiven
  }
}
