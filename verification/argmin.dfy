/** The scan both stages of the matcher perform: start from +infinity with no
    choice, walk the candidates in order, and replace the current choice only
    when a present cost is STRICTLY smaller. Absent costs are the candidates the
    source skips (a length mismatch, a missing row, a failed tolerance test). */
module ArgMin {
  import opened Options

  /** The index the scan ends on: the first index holding the smallest present
      cost, or None when no cost is present. Defined on prefixes, so that the
      last candidate is the one the scan looks at last. */
  function FirstMin(costs: seq<Option<real>>): (r: Option<nat>)
    ensures r.None? <==> forall j :: 0 <= j < |costs| ==> costs[j].None?
    ensures r.Some? ==> r.value < |costs| && costs[r.value].Some?
    ensures r.Some? ==>
      forall j :: 0 <= j < |costs| && costs[j].Some? ==> costs[r.value].value <= costs[j].value
    ensures r.Some? ==>
      forall j :: 0 <= j < r.value && costs[j].Some? ==> costs[r.value].value < costs[j].value
  {
    if |costs| == 0 then None
    else
      var k := |costs| - 1;
      var prev := FirstMin(costs[..k]);
      assert forall j :: 0 <= j < k ==> costs[..k][j] == costs[j];
      match costs[k]
      case None => prev
      case Some(c) => if prev.None? || c < costs[prev.value].value then Some(k) else prev
  }
}
