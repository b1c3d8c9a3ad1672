/** Sums over finite maps. */
module Sums {

  ghost function Sum(amounts: map<nat, nat>): nat {
    if amounts == map[] then 0
    else
      var t :| t in amounts;
      amounts[t] + Sum(amounts - {t})
  }

  lemma {:induction false} SumSplit(amounts: map<nat, nat>, t: nat)
    requires t in amounts
    ensures Sum(amounts) == amounts[t] + Sum(amounts - {t})
    decreases |amounts|
  {
    var u :| u in amounts && Sum(amounts) == amounts[u] + Sum(amounts - {u});
    if u != t {
      SumSplit(amounts - {u}, t);
      SumSplit(amounts - {t}, u);
      assert amounts - {u} - {t} == amounts - {t} - {u};
    }
  }

  lemma SumDrops(before: map<nat, nat>, after: map<nat, nat>, t: nat)
    requires t in before && after.Keys == before.Keys && after[t] < before[t]
    requires forall u :: u in before && u != t ==> after[u] == before[u]
    ensures Sum(after) < Sum(before)
  {
    SumSplit(before, t);
    SumSplit(after, t);
    assert before - {t} == after - {t};
  }
}
