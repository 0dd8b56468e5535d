/** The loops of `and`, `objectOf` and `arrayOf` share one shape: run a
    sequence of checks in order and return the first error met. This module
    states that shape once, over the sequence of the checks' results. */
module Firsts {
  import opened Options
  import opened Values

  /** The first error among `rs[i..]`, or none. */
  function FirstError(rs: seq<Option<ValidationError>>, i: nat): Option<ValidationError>
    requires i <= |rs|
    decreases |rs| - i
  {
    if i == |rs| then None
    else if rs[i].Some? then rs[i]
    else FirstError(rs, i + 1)
  }

  /** There is no first error exactly when every result from `i` on is
      a pass; otherwise the first error is the result at the lowest failing
      position. */
  lemma {:induction false} FirstErrorSpec(rs: seq<Option<ValidationError>>, i: nat)
    requires i <= |rs|
    ensures FirstError(rs, i).None? <==> forall j :: i <= j < |rs| ==> rs[j].None?
    ensures FirstError(rs, i).Some? ==>
      exists j :: i <= j < |rs| && FirstError(rs, i) == rs[j] && forall m :: i <= m < j ==> rs[m].None?
    decreases |rs| - i
  {
    if i < |rs| && rs[i].None? {
      FirstErrorSpec(rs, i + 1);
      if FirstError(rs, i).Some? {
        var j :| i + 1 <= j < |rs| && FirstError(rs, i + 1) == rs[j] && forall m :: i + 1 <= m < j ==> rs[m].None?;
        assert forall m :: i <= m < j ==> rs[m].None?;
      }
    }
  }
}
