/**
 * Python's `max(xs, key=...)` as the search code uses it: the scan keeps
 * the current best and replaces it only on a strictly larger key, so it
 * returns the first position holding the largest key. Also the Option
 * type for results that may be `None`.
 */
module Choice {
  datatype Option<T> = None | Some(value: T)

  /** The position `max` returns over keys xs: the first largest. */
  function FirstMax(xs: seq<int>): (i: nat)
    requires |xs| > 0
    ensures i < |xs|
  {
    if |xs| == 1 then 0
    else
      var i := FirstMax(xs[..|xs| - 1]);
      if xs[|xs| - 1] > xs[i] then |xs| - 1 else i
  }

  /** The chosen key is at least every key, and every earlier key is strictly smaller. */
  lemma {:induction false} FirstMaxSpec(xs: seq<int>)
    requires |xs| > 0
    ensures forall j :: 0 <= j < |xs| ==> xs[j] <= xs[FirstMax(xs)]
    ensures forall j :: 0 <= j < FirstMax(xs) ==> xs[j] < xs[FirstMax(xs)]
  {
    if |xs| > 1 {
      var init := xs[..|xs| - 1];
      FirstMaxSpec(init);
      assert forall j :: 0 <= j < |init| ==> init[j] == xs[j];
    }
  }

  /** Any position with those two properties is the one `max` returns. */
  lemma FirstMaxUnique(xs: seq<int>, i: nat)
    requires i < |xs|
    requires forall j :: 0 <= j < |xs| ==> xs[j] <= xs[i]
    requires forall j :: 0 <= j < i ==> xs[j] < xs[i]
    ensures FirstMax(xs) == i
  {
    FirstMaxSpec(xs);
  }
}
