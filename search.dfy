/** Linear search for the first element satisfying a predicate.
    Both loops of the server are "take the first one that qualifies":
    the name loop of `write_paste` (first candidate that is free) and the
    field loop of `paste` (first multipart field that carries an upload). */
module Search {

  /** The index of the first element of `s` that satisfies `p`, or `|s|`
      when there is none. */
  function FirstIndex<T>(s: seq<T>, p: T -> bool): (k: nat)
    ensures k <= |s|
    ensures forall j :: 0 <= j < k ==> !p(s[j])
    ensures k < |s| ==> p(s[k])
  {
    if s == [] then 0
    else if p(s[0]) then 0
    else 1 + FirstIndex(s[1..], p)
  }

  /** The two properties of FirstIndex determine it: any index that is
      preceded only by failures and is itself a hit (or the end) is it. */
  lemma FirstIndexUnique<T>(s: seq<T>, p: T -> bool, k: nat)
    requires k <= |s|
    requires forall j :: 0 <= j < k ==> !p(s[j])
    requires k < |s| ==> p(s[k])
    ensures k == FirstIndex(s, p)
  {
  }
}
