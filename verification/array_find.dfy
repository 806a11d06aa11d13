/**
 Linear first-match search over a sequence, the behaviour shared by every
 `Array.prototype.find` call in the source (receipt logs, the network list).
 */
module ArrayFind {
  import opened Wrappers

  /** True iff `i` is the index of the first element of `s` that satisfies `p`. */
  ghost predicate IsFirst<T>(s: seq<T>, p: T -> bool, i: int) {
    && 0 <= i < |s|
    && p(s[i])
    && forall j :: 0 <= j < i ==> !p(s[j])
  }

  /** The index of the first element satisfying `p`, or None when no element does. */
  function FindIndex<T>(s: seq<T>, p: T -> bool): (r: Option<nat>)
    ensures r.Some? ==> IsFirst(s, p, r.value)
    ensures r.None? ==> forall j :: 0 <= j < |s| ==> !p(s[j])
    decreases |s|
  {
    if |s| == 0 then None
    else if p(s[0]) then Some(0)
    else
      match FindIndex(s[1..], p)
      case None => None
      case Some(i) => Some(i + 1)
  }

  /** The first-match index is unique, so the contract of FindIndex determines its result. */
  lemma FirstIsUnique<T>(s: seq<T>, p: T -> bool, i: int, k: int)
    requires IsFirst(s, p, i) && IsFirst(s, p, k)
    ensures i == k
  {
  }

  /** Elements before the match that fail `p` only shift the index of the match. */
  lemma {:induction false} FindIndexSkipsPrefix<T>(pre: seq<T>, s: seq<T>, p: T -> bool)
    requires forall j :: 0 <= j < |pre| ==> !p(pre[j])
    ensures FindIndex(pre + s, p).None? <==> FindIndex(s, p).None?
    ensures FindIndex(s, p).Some? ==> FindIndex(pre + s, p) == Some(|pre| + FindIndex(s, p).value)
  {
    var t := pre + s;
    match FindIndex(s, p)
    case None =>
      forall j | 0 <= j < |t|
        ensures !p(t[j])
      {
        if j >= |pre| {
          assert t[j] == s[j - |pre|];
        }
      }
    case Some(i) =>
      assert t[|pre| + i] == s[i];
      forall j | 0 <= j < |pre| + i
        ensures !p(t[j])
      {
        if j >= |pre| {
          assert t[j] == s[j - |pre|];
        }
      }
      assert IsFirst(t, p, |pre| + i);
      FirstIsUnique(t, p, |pre| + i, FindIndex(t, p).value);
  }

  /** The search written as the loop a JavaScript engine runs; it agrees with FindIndex. */
  method FindScan<T>(s: seq<T>, p: T -> bool) returns (r: Option<nat>)
    ensures r.Some? ==> IsFirst(s, p, r.value)
    ensures r.None? ==> forall j :: 0 <= j < |s| ==> !p(s[j])
    ensures r == FindIndex(s, p)
  {
    var i := 0;
    while i < |s|
      invariant 0 <= i <= |s|
      invariant forall j :: 0 <= j < i ==> !p(s[j])
    {
      if p(s[i]) {
        ghost var found := FindIndex(s, p);
        FirstIsUnique(s, p, i, found.value);
        return Some(i);
      }
      i := i + 1;
    }
    return None;
  }
}
