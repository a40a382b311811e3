/** The array helpers of `util.ts`. */
module Util {
  import opened Js

  /** Some element of `arr` satisfies `p`: the specification of `any`. */
  predicate AnyOf<T>(arr: seq<T>, p: T -> bool)
  {
    exists i :: 0 <= i < |arr| && p(arr[i])
  }

  /** `any`: scans `arr` in order and stops at the first element satisfying `p`. */
  method Any<T>(arr: seq<T>, p: T -> bool) returns (found: bool)
    ensures found == AnyOf(arr, p)
    ensures arr == [] ==> !found
  {
    for i := 0 to |arr|
      invariant forall j :: 0 <= j < i ==> !p(arr[j])
    {
      if p(arr[i]) {
        return true;
      }
    }
    return false;
  }

  /** `findFirst`: the first element of `arr` satisfying `p`, or undefined (None). */
  method FindFirst<T>(arr: seq<T>, p: T -> bool) returns (r: Option<T>)
    ensures r.None? <==> !AnyOf(arr, p)
    ensures r.Some? ==> exists i :: 0 <= i < |arr| && arr[i] == r.value && p(arr[i]) &&
                                    forall j :: 0 <= j < i ==> !p(arr[j])
  {
    for i := 0 to |arr|
      invariant forall j :: 0 <= j < i ==> !p(arr[j])
    {
      if p(arr[i]) {
        return Some(arr[i]);
      }
    }
    return None;
  }

  /** `any` distributes over concatenation. */
  lemma AnyOfAppend<T>(a: seq<T>, b: seq<T>, p: T -> bool)
    ensures AnyOf(a + b, p) <==> AnyOf(a, p) || AnyOf(b, p)
  {
    if AnyOf(a + b, p) {
      var i :| 0 <= i < |a + b| && p((a + b)[i]);
      if i >= |a| {
        assert p(b[i - |a|]);
      }
    }
    if AnyOf(b, p) {
      var i :| 0 <= i < |b| && p(b[i]);
      assert (a + b)[|a| + i] == b[i];
      assert p((a + b)[|a| + i]);
    }
    if AnyOf(a, p) {
      var i :| 0 <= i < |a| && p(a[i]);
      assert (a + b)[i] == a[i];
      assert p((a + b)[i]);
    }
  }
}
