/** The two table lookups the request handlers use: JavaScript's
  * `Array.prototype.findIndex` and `Array.prototype.find`, with a pure,
  * total callback. */
module Lookup {

  datatype Option<T> = None | Some(value: T)

  /** The index of the first element that satisfies `p`, or -1 when no
    * element does (the convention of `findIndex`). */
  function FindIndex<T>(s: seq<T>, p: T -> bool): (r: int)
    ensures -1 <= r < |s|
    ensures r == -1 <==> forall j :: 0 <= j < |s| ==> !p(s[j])
    ensures r != -1 ==> p(s[r]) && forall j :: 0 <= j < r ==> !p(s[j])
  {
    if |s| == 0 then -1
    else if p(s[0]) then 0
    else
      var k := FindIndex(s[1..], p);
      if k == -1 then -1 else k + 1
  }

  /** The first element that satisfies `p`, or None (JavaScript's
    * `undefined`) when no element does (the convention of `find`). */
  function Find<T>(s: seq<T>, p: T -> bool): (r: Option<T>)
    ensures r.None? <==> forall j :: 0 <= j < |s| ==> !p(s[j])
    ensures r.Some? ==> exists i :: 0 <= i < |s| && s[i] == r.value && p(s[i]) &&
                                    forall j :: 0 <= j < i ==> !p(s[j])
  {
    var i := FindIndex(s, p);
    if i == -1 then None else Some(s[i])
  }

  /** Two tables on which two callbacks give the same verdict row by row
    * have the same first match. */
  lemma FindIndexSameVerdicts<T, U>(s: seq<T>, p: T -> bool, t: seq<U>, q: U -> bool)
    requires |s| == |t|
    requires forall j :: 0 <= j < |s| ==> p(s[j]) == q(t[j])
    ensures FindIndex(s, p) == FindIndex(t, q)
  {
  }
}
