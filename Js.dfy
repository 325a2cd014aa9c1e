/** The few JavaScript notions the component relies on: optional values
    (`undefined`), awaited calls that may reject, `Array.prototype.find`
    and the truthiness test applied to a string. */
module Js {

  /** A value that may be `undefined` (or `null`). */
  datatype Option<+T> = None | Some(value: T)

  /** The outcome of an awaited call: it resolved with a value or it threw. */
  datatype Attempt<+T> = Threw | Done(value: T)

  /** `Array.prototype.find` by index: the first position whose element
      satisfies `p`, or nothing when no element does. */
  function FindIndex<T>(s: seq<T>, p: T -> bool): (r: Option<nat>)
    ensures r.Some? ==> r.value < |s| && p(s[r.value])
    ensures r.Some? ==> forall j :: 0 <= j < r.value ==> !p(s[j])
    ensures r.None? ==> forall j :: 0 <= j < |s| ==> !p(s[j])
  {
    if |s| == 0 then None
    else if p(s[0]) then Some(0)
    else
      match FindIndex(s[1..], p)
      case None => None
      case Some(k) => Some(k + 1)
  }

  /** `Array.prototype.find`: the first element satisfying `p`, or `undefined`. */
  function Find<T>(s: seq<T>, p: T -> bool): (r: Option<T>)
    ensures r.Some? <==> exists j :: 0 <= j < |s| && p(s[j])
    ensures r.Some? ==> p(r.value)
    ensures r.Some? ==> exists j :: (0 <= j < |s| && s[j] == r.value &&
                                     forall i :: 0 <= i < j ==> !p(s[i]))
  {
    match FindIndex(s, p)
    case None => None
    case Some(k) => Some(s[k])
  }

  /** JavaScript truthiness of a possibly-undefined string: only `undefined`
      and the empty string are falsy. */
  predicate Truthy(s: Option<string>)
  {
    s.Some? && s.value != ""
  }
}
