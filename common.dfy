/** Small shared vocabulary: optional values, results, bytes and first-match search. */
module Common {

  /** A value that may be absent (`undefined`/`null` in the source). */
  datatype Option<+T> = None | Some(value: T) {
    function GetOr(default: T): T {
      match this
      case Some(v) => v
      case None => default
    }
  }

  /** The outcome of an operation that can throw. */
  datatype Result<+T, +E> = Success(value: T) | Failure(error: E)

  /** An octet, as produced by a secure random source. */
  type byte = x: int | 0 <= x < 256

  /** The index of the first element of `s` satisfying `p`, as a database scan
      in physical row order finds it. */
  function FirstIndex<T>(s: seq<T>, p: T -> bool): (r: Option<nat>)
    ensures r.Some? ==> r.value < |s| && p(s[r.value])
    ensures r.Some? ==> forall j :: 0 <= j < r.value ==> !p(s[j])
    ensures r.None? <==> forall j :: 0 <= j < |s| ==> !p(s[j])
  {
    if s == [] then None
    else if p(s[0]) then Some(0)
    else match FirstIndex(s[1..], p)
      case None => None
      case Some(k) => Some(k + 1)
  }

  /** A position at which a member of a sequence occurs. */
  lemma PositionOf<T>(s: seq<T>, x: T) returns (n: nat)
    requires x in s
    ensures n < |s| && s[n] == x
  {
    n :| n < |s| && s[n] == x;
  }
}
