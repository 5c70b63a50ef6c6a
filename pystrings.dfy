/** The Python string operations the mutators are built from: find, slicing, replace. */
module PyStrings {

  /** `pat` occurs in `s` starting at index `k`. */
  predicate OccursAt(s: string, pat: string, k: int)
  {
    0 <= k && k + |pat| <= |s| && s[k..k + |pat|] == pat
  }

  /** The first occurrence of `pat` at or after `from`, or -1. */
  function FindFrom(s: string, pat: string, from: nat): (r: int)
    requires from <= |s|
    ensures r == -1 || (from <= r && OccursAt(s, pat, r))
    ensures r == -1 ==> forall k :: from <= k ==> !OccursAt(s, pat, k)
    ensures r != -1 ==> forall k :: from <= k < r ==> !OccursAt(s, pat, k)
    decreases |s| - from
  {
    if from + |pat| > |s| then -1
    else if s[from..from + |pat|] == pat then from
    else FindFrom(s, pat, from + 1)
  }

  /** str.find: the index of the first occurrence of `pat`, or -1 when there is none. */
  function Find(s: string, pat: string): (r: int)
    ensures -1 <= r
    ensures r == -1 <==> forall k :: !OccursAt(s, pat, k)
    ensures r != -1 ==> OccursAt(s, pat, r) && forall k :: k < r ==> !OccursAt(s, pat, k)
  {
    FindFrom(s, pat, 0)
  }

  /** s[lo:hi] for non-negative bounds: both are clamped to the length, and an empty
      slice results when hi <= lo. */
  function Slice(s: string, lo: nat, hi: nat): (r: string)
    ensures lo <= hi <= |s| ==> r == s[lo..hi]
    ensures hi <= lo ==> r == []
  {
    var h := if hi <= |s| then hi else |s|;
    if lo < h then s[lo..h] else []
  }

  /** s.replace(target, replacement, 1): the first occurrence of `target` is replaced; an
      empty `target` matches at the front, so `replacement` is prepended. */
  function ReplaceFirst(s: string, target: string, replacement: string): (r: string)
    ensures Find(s, target) == -1 ==> r == s
    ensures Find(s, target) != -1 ==>
      r == s[..Find(s, target)] + replacement + s[Find(s, target) + |target|..]
  {
    if target == [] then replacement + s
    else
      var k := Find(s, target);
      if k == -1 then s else s[..k] + replacement + s[k + |target|..]
  }
}
