/**
 * The "best so far" scan both selection loops use and both rankings agree
 * with: walk the candidates in order, skip the ones that have no value, and
 * replace the best only on a strictly greater value, so the first of several
 * equal maxima wins.
 */
module Argmax {
  import opened Wrappers

  /** The index the scan ends on, or None when no candidate has a value. */
  function FirstMaxIndex(vs: seq<Option<real>>): (r: Option<nat>)
    ensures r.None? <==> forall i :: 0 <= i < |vs| ==> vs[i].None?
    ensures r.Some? ==> r.value < |vs| && vs[r.value].Some?
    ensures r.Some? ==> forall i :: 0 <= i < |vs| && vs[i].Some? ==> vs[i].value <= vs[r.value].value
    ensures r.Some? ==> forall i :: 0 <= i < r.value && vs[i].Some? ==> vs[i].value < vs[r.value].value
  {
    if |vs| == 0 then None
    else
      var best := FirstMaxIndex(vs[..|vs| - 1]);
      var v := vs[|vs| - 1];
      if v.None? then best
      else if best.None? || v.value > vs[best.value].value then Some(|vs| - 1)
      else best
  }

  /**
   * The scan's choice is determined by the values alone: an index holding a
   * maximal value with no maximal value before it is the one chosen.
   */
  lemma FirstMaxIndexUnique(vs: seq<Option<real>>, j: nat)
    requires j < |vs| && vs[j].Some?
    requires forall i :: 0 <= i < |vs| && vs[i].Some? ==> vs[i].value <= vs[j].value
    requires forall i :: 0 <= i < j && vs[i].Some? ==> vs[i].value < vs[j].value
    ensures FirstMaxIndex(vs) == Some(j)
  {
  }

  /** One more candidate: the scan keeps its best unless the new value is strictly greater. */
  lemma FirstMaxIndexExtend(vs: seq<Option<real>>, i: nat)
    requires i < |vs|
    ensures var best := FirstMaxIndex(vs[..i]);
      FirstMaxIndex(vs[..i + 1])
      == if vs[i].None? then best
         else if best.None? || vs[i].value > vs[best.value].value then Some(i)
         else best
  {
    assert vs[..i + 1][..i] == vs[..i];
  }
}
