/**
 * The two in-memory queries the code runs over entity lists: LINQ's
 * `FirstOrDefault` (first element satisfying a predicate, or null) and
 * `List.Exists` (some element satisfies a predicate).
 */
module Queries {
  import opened Wrappers

  /** Index of the first element of `s` satisfying `p`, or `|s|` when none does. */
  function FirstIndex<T>(s: seq<T>, p: T -> bool): (k: nat)
    ensures k <= |s|
    ensures forall j :: 0 <= j < k ==> !p(s[j])
    ensures k < |s| ==> p(s[k])
    decreases |s|
  {
    if s == [] then 0
    else if p(s[0]) then 0
    else 1 + FirstIndex(s[1..], p)
  }

  /** `FirstOrDefault(p)`: the first element satisfying `p`, or null. */
  function FirstOrDefault<T>(s: seq<T>, p: T -> bool): Option<T>
  {
    var k := FirstIndex(s, p);
    if k < |s| then Some(s[k]) else None
  }

  /** `Exists(p)`: some element satisfies `p`. */
  function Exists<T>(s: seq<T>, p: T -> bool): (b: bool)
    ensures b <==> exists i :: 0 <= i < |s| && p(s[i])
    decreases |s|
  {
    if s == [] then false
    else p(s[0]) || Exists(s[1..], p)
  }

  /** The first match is an element of `s` that satisfies `p`, and no earlier element does;
      there is no match exactly when no element satisfies `p`. */
  lemma FirstOrDefaultSpec<T>(s: seq<T>, p: T -> bool)
    ensures FirstOrDefault(s, p).Some? ==>
              exists k :: 0 <= k < |s| && s[k] == FirstOrDefault(s, p).value && p(s[k]) &&
                          forall j :: 0 <= j < k ==> !p(s[j])
    ensures FirstOrDefault(s, p).None? <==> forall i :: 0 <= i < |s| ==> !p(s[i])
  {
    var k := FirstIndex(s, p);
    if k < |s| {
      assert s[k] == FirstOrDefault(s, p).value && p(s[k]);
    }
  }

  /** When exactly the element at `k` is the earliest one satisfying `p`, it is the first match. */
  lemma FirstOrDefaultAt<T>(s: seq<T>, p: T -> bool, k: nat)
    requires k < |s| && p(s[k])
    requires forall j :: 0 <= j < k ==> !p(s[j])
    ensures FirstIndex(s, p) == k
    ensures FirstOrDefault(s, p) == Some(s[k])
  {
  }
}
