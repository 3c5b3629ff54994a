/** Earliest-position search, shared by every "first column that ..." and "first attempt that ..." rule. */
module Search {

  /** Index of the first `true` in `flags` at or after `from`; `|flags|` when there is none. */
  function FirstTrue(flags: seq<bool>, from: nat): (r: nat)
    requires from <= |flags|
    ensures from <= r <= |flags|
    ensures r < |flags| ==> flags[r]
    ensures forall j :: from <= j < r ==> !flags[j]
    decreases |flags| - from
  {
    if from == |flags| then |flags|
    else if flags[from] then from
    else FirstTrue(flags, from + 1)
  }

  /** A position with no `true` before it that is `true` itself, or the end, is the first `true`. */
  lemma FirstTrueIs(flags: seq<bool>, k: nat)
    requires k <= |flags| && (k < |flags| ==> flags[k])
    requires forall j :: 0 <= j < k ==> !flags[j]
    ensures FirstTrue(flags, 0) == k
  {
  }
}
