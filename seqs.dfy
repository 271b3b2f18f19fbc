/** Generic sequence facts: in-order concatenation (a nested append loop),
    filtering (a boolean-mask selection over table rows) and "last element
    satisfying a test" (a loop that overwrites one slot per match). */
module Seqs {
  import opened Wrappers

  /** Sum of the lengths of the inner sequences. */
  function SumLengths<T>(ss: seq<seq<T>>): nat
  {
    if ss == [] then 0 else SumLengths(ss[..|ss| - 1]) + |ss[|ss| - 1]|
  }

  /** In-order concatenation of the inner sequences. */
  function Concat<T>(ss: seq<seq<T>>): (r: seq<T>)
    ensures |r| == SumLengths(ss)
  {
    if ss == [] then [] else Concat(ss[..|ss| - 1]) + ss[|ss| - 1]
  }

  lemma ConcatSnoc<T>(ss: seq<seq<T>>, t: seq<T>)
    ensures Concat(ss + [t]) == Concat(ss) + t
  {
    assert (ss + [t])[..|ss|] == ss;
  }

  /** An element is in the concatenation iff it is in one of the parts. */
  lemma {:induction false} ConcatMembership<T>(ss: seq<seq<T>>, x: T)
    ensures x in Concat(ss) <==> exists i :: 0 <= i < |ss| && x in ss[i]
  {
    if ss != [] {
      var init := ss[..|ss| - 1];
      ConcatMembership(init, x);
      assert forall i :: 0 <= i < |init| ==> init[i] == ss[i];
      if x in Concat(ss) && x !in ss[|ss| - 1] {
        assert x in Concat(init);
        var i :| 0 <= i < |init| && x in init[i];
        assert x in ss[i];
      }
    }
  }

  /** The elements of `s` that pass `p`, in their original order. */
  function Filter<T>(s: seq<T>, p: T -> bool): (r: seq<T>)
    ensures |r| <= |s|
    ensures forall k :: 0 <= k < |r| ==> r[k] in s && p(r[k])
    ensures forall k :: 0 <= k < |s| && p(s[k]) ==> s[k] in r
  {
    if s == [] then []
    else Filter(s[..|s| - 1], p) + (if p(s[|s| - 1]) then [s[|s| - 1]] else [])
  }

  /** Index of the last element of `s` that passes `p`, if any. */
  function LastWhere<T>(s: seq<T>, p: T -> bool): (r: Option<nat>)
    ensures r.Some? ==> r.value < |s| && p(s[r.value])
    ensures r.Some? ==> forall j :: r.value < j < |s| ==> !p(s[j])
    ensures r.None? <==> forall j :: 0 <= j < |s| ==> !p(s[j])
  {
    if s == [] then None
    else if p(s[|s| - 1]) then Some(|s| - 1)
    else LastWhere(s[..|s| - 1], p)
  }

  lemma LastWhereSnoc<T>(s: seq<T>, x: T, p: T -> bool)
    ensures LastWhere(s + [x], p) == if p(x) then Some(|s|) else LastWhere(s, p)
  {
    assert (s + [x])[..|s|] == s;
  }

  /** Number of elements of `s` that pass `p`. */
  function CountWhere<T>(s: seq<T>, p: T -> bool): nat
  {
    if s == [] then 0
    else CountWhere(s[..|s| - 1], p) + (if p(s[|s| - 1]) then 1 else 0)
  }

  lemma CountWhereSnoc<T>(s: seq<T>, x: T, p: T -> bool)
    ensures CountWhere(s + [x], p) == CountWhere(s, p) + (if p(x) then 1 else 0)
  {
    assert (s + [x])[..|s|] == s;
  }
}
