/**
  The "nearest so far" scan that nav.js repeats four times: start from
  `minDistance = Infinity`, and replace the kept index only on a strictly
  smaller distance. The kept index is the FIRST position of the minimum.
*/
module Argmin {

  /** `k` is the first index at which `ds` takes its least value. */
  predicate IsFirstMin(ds: seq<real>, k: int) {
    && 0 <= k < |ds|
    && (forall j :: 0 <= j < |ds| ==> ds[k] <= ds[j])
    && (forall j :: 0 <= j < k ==> ds[k] < ds[j])
  }

  /** The index the scan keeps after reading all of `ds`. */
  function FirstMin(ds: seq<real>): (k: nat)
    requires |ds| > 0
    ensures IsFirstMin(ds, k)
  {
    if |ds| == 1 then 0
    else
      var k := FirstMin(ds[..|ds| - 1]);
      if ds[|ds| - 1] < ds[k] then |ds| - 1 else k
  }

  /** The first minimum is unique, so any index with that property is FirstMin. */
  lemma FirstMinUnique(ds: seq<real>, k: int)
    requires IsFirstMin(ds, k)
    ensures k == FirstMin(ds)
  {
    var m := FirstMin(ds);
    assert ds[m] <= ds[k] && ds[k] <= ds[m];
  }

  /** One more step of the scan: the kept index moves only on a strictly smaller value. */
  lemma FirstMinExtend(ds: seq<real>, i: nat)
    requires 0 < i < |ds|
    ensures FirstMin(ds[..i + 1])
         == if ds[i] < ds[FirstMin(ds[..i])] then i else FirstMin(ds[..i])
  {
    assert ds[..i + 1][..i] == ds[..i];
  }
}
