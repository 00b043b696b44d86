/** Linear first-match search, shared by every "scan the list, return the first hit"
    in the services (`Array.prototype.find` in the Node service, the `for` loop over
    the content history in the Flask backend). */
module Seqs {

  import opened Wrappers

  /** The index of the first element of `s` satisfying `p`, or `None` when no element does. */
  function FindFirst<T>(s: seq<T>, p: T -> bool): (r: Option<nat>)
    ensures r.Some? ==> r.value < |s| && p(s[r.value])
    ensures r.Some? ==> forall j :: 0 <= j < r.value ==> !p(s[j])
    ensures r.None? <==> forall j :: 0 <= j < |s| ==> !p(s[j])
    decreases |s|
  {
    if |s| == 0 then None
    else if p(s[0]) then Some(0)
    else
      match FindFirst(s[1..], p)
      case None => None
      case Some(i) => Some(i + 1)
  }

}
