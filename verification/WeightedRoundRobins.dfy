/**
 Smooth weighted round robin.

 The balancer keeps one signed current weight per instance ID.  A call drops the IDs no longer
 listed, raises every listed instance by its weight, picks the largest and lowers the picked one
 by the total weight.  The first half of the module is the balancer and the functions it is proved
 against; the second half is about runs of calls on a fixed list.
 */
module WeightedRoundRobins {
  import opened Results
  import opened Instances

  type Weights = map<string, int>

  /** A missing or non-positive weight counts as 1. */
  function Weight(inst: Instance): (w: int)
    ensures w > 0
    ensures inst.weight > 0 ==> w == inst.weight
    ensures inst.weight <= 0 ==> w == 1
  {
    if inst.weight <= 0 then 1 else inst.weight
  }

  function Total(instances: seq<Instance>, k: nat): (w: int)
    requires k <= |instances|
    ensures w >= k
  {
    if k == 0 then 0 else Total(instances, k - 1) + Weight(instances[k - 1])
  }

  function Current(state: Weights, id: string): int {
    if id in state then state[id] else 0
  }

  function Retain(state: Weights, ids: set<string>): Weights {
    map id | id in state && id in ids :: state[id]
  }

  /** The weights after the first `k` instances were raised. */
  function Bump(state: Weights, instances: seq<Instance>, k: nat): Weights
    requires k <= |instances|
  {
    if k == 0 then state else
      var s := Bump(state, instances, k - 1);
      var inst := instances[k - 1];
      s[inst.id := Current(s, inst.id) + Weight(inst)]
  }

  /** The current weight that instance `j` shows at the moment the scan looks at it. */
  function Score(state: Weights, instances: seq<Instance>, j: nat): int
    requires j < |instances|
  {
    Current(Bump(state, instances, j + 1), instances[j].id)
  }

  /** The instance the scan settles on: the first one with the largest score. */
  function Winner(state: Weights, instances: seq<Instance>, k: nat): (win: nat)
    requires 0 < k <= |instances|
    ensures win < k
    ensures forall j :: 0 <= j < k ==> Score(state, instances, j) <= Score(state, instances, win)
    ensures forall j :: 0 <= j < win ==> Score(state, instances, j) < Score(state, instances, win)
  {
    if k == 1 then 0 else
      var best := Winner(state, instances, k - 1);
      if Score(state, instances, k - 1) > Score(state, instances, best) then k - 1 else best
  }

  function Picked(state: Weights, instances: seq<Instance>): (win: nat)
    requires instances != []
    ensures win < |instances|
  {
    Winner(Retain(state, Ids(instances, |instances|)), instances, |instances|)
  }

  /** The weights after one whole call. */
  function Next(state: Weights, instances: seq<Instance>): Weights
    requires instances != []
  {
    var n := |instances|;
    var s := Bump(Retain(state, Ids(instances, n)), instances, n);
    var id := instances[Picked(state, instances)].id;
    s[id := Current(s, id) - Total(instances, n)]
  }

  class WeightedRoundRobin {
    var state: Weights

    constructor ()
      ensures state == map[]
    {
      state := map[];
    }

    /** The first step of `Select`: forget the instances that went away. */
    method DropUnlisted(instances: seq<Instance>)
      modifies this
      ensures state == Retain(old(state), Ids(instances, |instances|))
    {
      var active: set<string> := {};
      for i := 0 to |instances|
        invariant active == Ids(instances, i)
      {
        active := active + {instances[i].id};
      }

      var ids := state.Keys;
      while ids != {}
        invariant ids <= old(state).Keys
        invariant state == map id | id in old(state) && (id in ids || id in active) :: old(state)[id]
        decreases ids
      {
        var id :| id in ids;
        if id !in active {
          state := state - {id};
        }
        ids := ids - {id};
      }
    }

    method Select(instances: seq<Instance>) returns (r: Result<Instance, BalanceError>)
      modifies this
      ensures instances == [] ==> r == Err(NoInstance) && state == old(state)
      ensures instances != [] ==>
                && r == Ok(instances[Picked(old(state), instances)])
                && state == Next(old(state), instances)
    {
      if |instances| == 0 {
        return Err(NoInstance);
      }

      DropUnlisted(instances);
      var selected, totalWeight := Raise(instances);
      var id := instances[selected].id;
      state := state[id := (if id in state then state[id] else 0) - totalWeight];
      return Ok(instances[selected]);
    }

    /** The scan of `Select`: raise every listed instance and remember the largest. */
    method Raise(instances: seq<Instance>) returns (selected: nat, totalWeight: int)
      requires instances != []
      modifies this
      ensures state == Bump(old(state), instances, |instances|)
      ensures totalWeight == Total(instances, |instances|)
      ensures selected == Winner(old(state), instances, |instances|)
    {
      ghost var kept := state;
      selected, totalWeight := 0, 0;
      var maxCurrent := 0;
      for i := 0 to |instances|
        invariant totalWeight == Total(instances, i)
        invariant state == Bump(kept, instances, i)
        invariant i > 0 ==> selected == Winner(kept, instances, i)
        invariant i > 0 ==> maxCurrent == Score(kept, instances, selected)
      {
        var inst := instances[i];
        var w := inst.weight;
        if w <= 0 {
          w := 1;
        }
        totalWeight := totalWeight + w;
        state := state[inst.id := (if inst.id in state then state[inst.id] else 0) + w];
        assert state == Bump(kept, instances, i + 1);
        assert state[inst.id] == Score(kept, instances, i);
        if i == 0 || state[inst.id] > maxCurrent {
          selected := i;
          maxCurrent := state[inst.id];
        }
      }
    }
  }

  // ----- Any list: which IDs are kept, and what the weights add up to -----

  ghost function MapSum(m: Weights): int {
    if m == map[] then 0 else
      var id :| id in m;
      m[id] + MapSum(m - {id})
  }

  /** The sum does not depend on the order in which the IDs are taken out. */
  lemma {:induction false} MapSumTake(m: Weights, id: string)
    requires id in m
    ensures MapSum(m) == m[id] + MapSum(m - {id})
    decreases |m|
  {
    var first :| id in m && first in m && MapSum(m) == m[first] + MapSum(m - {first});
    if first != id {
      MapSumTake(m - {first}, id);
      MapSumTake(m - {id}, first);
      assert m - {first} - {id} == m - {id} - {first};
    }
  }

  lemma MapSumSet(m: Weights, id: string, v: int)
    ensures MapSum(m[id := v]) == MapSum(m) - Current(m, id) + v
  {
    MapSumTake(m[id := v], id);
    if id in m {
      MapSumTake(m, id);
      assert m[id := v] - {id} == m - {id};
    } else {
      assert m[id := v] - {id} == m;
    }
  }

  lemma {:induction false} BumpSum(state: Weights, instances: seq<Instance>, k: nat)
    requires k <= |instances|
    ensures MapSum(Bump(state, instances, k)) == MapSum(state) + Total(instances, k)
    ensures Bump(state, instances, k).Keys == state.Keys + Ids(instances, k)
  {
    hide MapSum;
    if k > 0 {
      BumpSum(state, instances, k - 1);
      var s := Bump(state, instances, k - 1);
      var inst := instances[k - 1];
      MapSumSet(s, inst.id, Current(s, inst.id) + Weight(inst));
      assert Ids(instances, k) == Ids(instances, k - 1) + {inst.id};
    }
  }

  /** When the list changes, the state's IDs become exactly the listed ones, and the sum of the
      weights that were kept is unchanged.  Duplicate IDs are allowed. */
  lemma CallKeepsSum(state: Weights, instances: seq<Instance>)
    requires instances != []
    ensures Next(state, instances).Keys == Ids(instances, |instances|)
    ensures MapSum(Next(state, instances)) == MapSum(Retain(state, Ids(instances, |instances|)))
  {
    hide MapSum, Bump, Picked, Total;
    var n := |instances|;
    var kept := Retain(state, Ids(instances, n));
    BumpSum(kept, instances, n);
    var s := Bump(kept, instances, n);
    var id := instances[Picked(state, instances)].id;
    MapSumSet(s, id, Current(s, id) - Total(instances, n));
    assert id in Ids(instances, n);
    assert kept.Keys + Ids(instances, n) == Ids(instances, n);
  }

  // ----- A fixed list of distinct IDs -----

  lemma {:induction false} BumpDistinct(state: Weights, instances: seq<Instance>, k: nat)
    requires Distinct(instances) && k <= |instances|
    ensures forall j :: 0 <= j < |instances| ==>
              Current(Bump(state, instances, k), instances[j].id)
              == Current(state, instances[j].id) + if j < k then Weight(instances[j]) else 0
  {
    if k > 0 {
      BumpDistinct(state, instances, k - 1);
    }
  }

  lemma ScoreDistinct(state: Weights, instances: seq<Instance>, j: nat)
    requires Distinct(instances) && j < |instances|
    ensures Score(state, instances, j) == Current(state, instances[j].id) + Weight(instances[j])
  {
    BumpDistinct(state, instances, j + 1);
  }

  lemma KeptScore(state: Weights, instances: seq<Instance>, j: nat)
    requires Distinct(instances) && j < |instances|
    ensures Score(Retain(state, Ids(instances, |instances|)), instances, j)
            == Current(state, instances[j].id) + Weight(instances[j])
  {
    assert instances[j].id in Ids(instances, |instances|);
    ScoreDistinct(Retain(state, Ids(instances, |instances|)), instances, j);
  }

  /** What instance `j` gains and pays in one call. */
  function Change(state: Weights, instances: seq<Instance>, j: nat): int
    requires j < |instances|
  {
    Weight(instances[j]) - if j == Picked(state, instances) then Total(instances, |instances|) else 0
  }

  /** One call on a list of distinct IDs: everyone gains its weight, the picked one pays the total,
      and no one was ahead of the picked one. */
  lemma StepEffect(state: Weights, instances: seq<Instance>, j: nat)
    requires Distinct(instances) && j < |instances|
    ensures Current(Next(state, instances), instances[j].id)
            == Current(state, instances[j].id) + Change(state, instances, j)
    ensures Current(state, instances[j].id) + Weight(instances[j])
            <= Current(state, instances[Picked(state, instances)].id)
               + Weight(instances[Picked(state, instances)])
  {
    var n := |instances|;
    var kept := Retain(state, Ids(instances, n));
    var p := Picked(state, instances);
    KeptScore(state, instances, j);
    KeptScore(state, instances, p);
    assert Score(kept, instances, j) <= Score(kept, instances, p);
    BumpDistinct(kept, instances, n);
    assert instances[j].id in Ids(instances, n);
    assert instances[p].id in Ids(instances, n);
  }

  /** The weights after `k` calls of a fresh balancer. */
  function StateAfter(instances: seq<Instance>, k: nat): Weights
    requires instances != []
  {
    if k == 0 then map[] else Next(StateAfter(instances, k - 1), instances)
  }

  /** How often instance `i` was picked in the first `k` calls. */
  function Times(instances: seq<Instance>, i: nat, k: nat): nat
    requires instances != []
  {
    if k == 0 then 0 else
      Times(instances, i, k - 1) + if Picked(StateAfter(instances, k - 1), instances) == i then 1 else 0
  }

  function CurrentSum(state: Weights, instances: seq<Instance>, n: nat): int
    requires n <= |instances|
  {
    if n == 0 then 0 else CurrentSum(state, instances, n - 1) + Current(state, instances[n - 1].id)
  }

  function TimesSum(instances: seq<Instance>, n: nat, k: nat): nat
    requires instances != []
  {
    if n == 0 then 0 else TimesSum(instances, n - 1, k) + Times(instances, n - 1, k)
  }

  lemma EarnedAndPaid(k: nat, w: int, total: int, before: nat, after: nat)
    requires k > 0 && (after == before || after == before + 1)
    ensures k * w - total * after
            == (k - 1) * w - total * before + w - if after == before then 0 else total
  {
    if after != before {
      assert total * after == total * before + total;
    }
  }

  /** After `k` calls an instance's current weight is what it earned minus what it paid. */
  lemma {:induction false} WeightFormula(instances: seq<Instance>, i: nat, k: nat)
    requires Distinct(instances) && i < |instances|
    ensures Current(StateAfter(instances, k), instances[i].id)
            == k * Weight(instances[i]) - Total(instances, |instances|) * Times(instances, i, k)
  {
    hide Next, Picked, Ids;
    if k > 0 {
      WeightFormula(instances, i, k - 1);
      StepEffect(StateAfter(instances, k - 1), instances, i);
      EarnedAndPaid(k, Weight(instances[i]), Total(instances, |instances|),
                    Times(instances, i, k - 1), Times(instances, i, k));
    }
  }

  lemma {:induction false} StepSum(state: Weights, instances: seq<Instance>, n: nat)
    requires Distinct(instances) && instances != [] && n <= |instances|
    ensures CurrentSum(Next(state, instances), instances, n)
            == CurrentSum(state, instances, n) + Total(instances, n)
               - if Picked(state, instances) < n then Total(instances, |instances|) else 0
  {
    if n > 0 {
      StepSum(state, instances, n - 1);
      StepEffect(state, instances, n - 1);
    }
  }

  lemma {:induction false} SumIsZero(instances: seq<Instance>, k: nat)
    requires Distinct(instances) && instances != []
    ensures CurrentSum(StateAfter(instances, k), instances, |instances|) == 0
  {
    if k == 0 {
      FreshSum(instances, |instances|);
    } else {
      SumIsZero(instances, k - 1);
      StepSum(StateAfter(instances, k - 1), instances, |instances|);
    }
  }

  lemma {:induction false} FreshSum(instances: seq<Instance>, n: nat)
    requires n <= |instances|
    ensures CurrentSum(map[], instances, n) == 0
  {
    if n > 0 {
      FreshSum(instances, n - 1);
    }
  }

  /** If no instance had a positive weight after being raised, the raised weights would not sum
      to a positive number. */
  lemma {:induction false} RaisedSum(state: Weights, instances: seq<Instance>, top: int, n: nat)
    requires n <= |instances|
    requires forall j :: 0 <= j < n ==> Current(state, instances[j].id) + Weight(instances[j]) <= top
    requires top <= 0
    ensures CurrentSum(state, instances, n) + Total(instances, n) <= 0
  {
    if n > 0 {
      RaisedSum(state, instances, top, n - 1);
    }
  }

  lemma PickedIsPositive(instances: seq<Instance>, k: nat)
    requires Distinct(instances) && instances != []
    ensures var p := instances[Picked(StateAfter(instances, k), instances)];
            Current(StateAfter(instances, k), p.id) + Weight(p) > 0
  {
    var state := StateAfter(instances, k);
    var p := instances[Picked(state, instances)];
    var top := Current(state, p.id) + Weight(p);
    forall j | 0 <= j < |instances| ensures Current(state, instances[j].id) + Weight(instances[j]) <= top {
      StepEffect(state, instances, j);
    }
    SumIsZero(instances, k);
    if top <= 0 {
      RaisedSum(state, instances, top, |instances|);
    }
  }

  /** No current weight ever falls to minus the total weight. */
  lemma {:induction false} AboveMinusTotal(instances: seq<Instance>, i: nat, k: nat)
    requires Distinct(instances) && i < |instances|
    ensures Current(StateAfter(instances, k), instances[i].id) > -Total(instances, |instances|)
  {
    hide Next, Picked, Ids;
    if k > 0 {
      var state := StateAfter(instances, k - 1);
      AboveMinusTotal(instances, i, k - 1);
      StepEffect(state, instances, i);
      PickedIsPositive(instances, k - 1);
    }
  }

  lemma {:induction false} SumAtLeast(state: Weights, instances: seq<Instance>, i: nat, low: int, n: nat)
    requires i < n <= |instances| || n <= i < |instances|
    requires forall j :: 0 <= j < n ==> Current(state, instances[j].id) >= low
    ensures i < n ==> CurrentSum(state, instances, n) >= Current(state, instances[i].id) + (n - 1) * low
    ensures n <= i ==> CurrentSum(state, instances, n) >= n * low
  {
    if n > 0 {
      SumAtLeast(state, instances, i, low, n - 1);
      assert n * low == (n - 1) * low + low;
      assert n >= 2 ==> (n - 1) * low == (n - 2) * low + low;
    }
  }

  /** Smoothness: every current weight stays in (-W, (n-1)(W-1)], so no instance is ever a whole
      pick ahead of its share `k * w / W`. */
  lemma Smoothness(instances: seq<Instance>, i: nat, k: nat)
    requires Distinct(instances) && i < |instances|
    ensures var n, total := |instances|, Total(instances, |instances|);
            && -total < Current(StateAfter(instances, k), instances[i].id) <= (n - 1) * (total - 1)
            && total * Times(instances, i, k) < k * Weight(instances[i]) + total
  {
    hide Next, Picked, StateAfter, Times, Weight;
    var n, total := |instances|, Total(instances, |instances|);
    var state := StateAfter(instances, k);
    forall j | 0 <= j < n ensures Current(state, instances[j].id) >= -(total - 1) {
      AboveMinusTotal(instances, j, k);
    }
    SumAtLeast(state, instances, i, -(total - 1), n);
    SumIsZero(instances, k);
    assert (n - 1) * -(total - 1) == -((n - 1) * (total - 1));
    WeightFormula(instances, i, k);
  }

  lemma {:induction false} TimesAddUp(instances: seq<Instance>, n: nat, k: nat)
    requires instances != [] && n <= |instances|
    ensures n == |instances| ==> TimesSum(instances, n, k) == k
  {
    if k == 0 {
      NoTimes(instances, n);
    } else {
      TimesAddUp(instances, n, k - 1);
      TimesStep(instances, n, k);
    }
  }

  lemma {:induction false} NoTimes(instances: seq<Instance>, n: nat)
    requires instances != []
    ensures TimesSum(instances, n, 0) == 0
  {
    if n > 0 {
      NoTimes(instances, n - 1);
    }
  }

  lemma {:induction false} TimesStep(instances: seq<Instance>, n: nat, k: nat)
    requires instances != [] && k > 0
    ensures TimesSum(instances, n, k)
            == TimesSum(instances, n, k - 1)
               + if Picked(StateAfter(instances, k - 1), instances) < n then 1 else 0
  {
    if n > 0 {
      TimesStep(instances, n - 1, k);
    }
  }

  /** If no instance had more than its weight, and together they had the total, each had its weight. */
  lemma {:induction false} AllShares(instances: seq<Instance>, n: nat, k: nat)
    requires instances != [] && n <= |instances|
    requires forall i :: 0 <= i < n ==> Times(instances, i, k) <= Weight(instances[i])
    ensures TimesSum(instances, n, k) <= Total(instances, n)
    ensures TimesSum(instances, n, k) == Total(instances, n) ==>
              forall i :: 0 <= i < n ==> Times(instances, i, k) == Weight(instances[i])
  {
    if n > 0 {
      AllShares(instances, n - 1, k);
    }
  }

  lemma ShareBound(total: int, w: int, times: nat)
    requires total > 0 && total * w - total * times > -total
    ensures times <= w
  {
    AboveMinusOne(total, w - times);
  }

  lemma AboveMinusOne(total: int, x: int)
    requires total > 0 && total * x > -total
    ensures x >= 0
  {
    assert x <= -1 ==> total * x <= -total;
  }

  lemma NoMoreThanWeight(instances: seq<Instance>, j: nat)
    requires Distinct(instances) && j < |instances|
    ensures Times(instances, j, Total(instances, |instances|)) <= Weight(instances[j])
  {
    var total := Total(instances, |instances|);
    AboveMinusTotal(instances, j, total);
    WeightFormula(instances, j, total);
    ShareBound(total, Weight(instances[j]), Times(instances, j, total));
  }

  /** The first W calls pick every instance exactly as often as its weight says and bring every
      current weight back to zero. */
  lemma FirstPeriod(instances: seq<Instance>, i: nat)
    requires Distinct(instances) && i < |instances|
    ensures Times(instances, i, Total(instances, |instances|)) == Weight(instances[i])
    ensures Current(StateAfter(instances, Total(instances, |instances|)), instances[i].id) == 0
  {
    var total := Total(instances, |instances|);
    forall j | 0 <= j < |instances| ensures Times(instances, j, total) <= Weight(instances[j]) {
      NoMoreThanWeight(instances, j);
    }
    TimesAddUp(instances, |instances|, total);
    AllShares(instances, |instances|, total);
    WeightFormula(instances, i, total);
  }

  ghost predicate SameWeights(s: Weights, t: Weights, instances: seq<Instance>) {
    forall j :: 0 <= j < |instances| ==> Current(s, instances[j].id) == Current(t, instances[j].id)
  }

  lemma SamePick(s: Weights, t: Weights, instances: seq<Instance>)
    requires Distinct(instances) && instances != [] && SameWeights(s, t, instances)
    ensures Picked(s, instances) == Picked(t, instances)
  {
    var n := |instances|;
    var p, q := Picked(s, instances), Picked(t, instances);
    KeptScore(s, instances, p);
    KeptScore(t, instances, p);
    KeptScore(s, instances, q);
    KeptScore(t, instances, q);
  }

  /** A call depends on nothing but the listed instances' current weights. */
  lemma SameWeightsSameCall(s: Weights, t: Weights, instances: seq<Instance>)
    requires Distinct(instances) && instances != [] && SameWeights(s, t, instances)
    ensures Picked(s, instances) == Picked(t, instances)
    ensures SameWeights(Next(s, instances), Next(t, instances), instances)
  {
    SamePick(s, t, instances);
    forall j | 0 <= j < |instances|
      ensures Current(Next(s, instances), instances[j].id) == Current(Next(t, instances), instances[j].id)
    {
      StepEffect(s, instances, j);
      StepEffect(t, instances, j);
    }
  }

  lemma PeriodCloses(instances: seq<Instance>)
    requires Distinct(instances) && instances != []
    ensures SameWeights(StateAfter(instances, 0), StateAfter(instances, Total(instances, |instances|)), instances)
  {
    var total := Total(instances, |instances|);
    forall j | 0 <= j < |instances|
      ensures Current(StateAfter(instances, total), instances[j].id) == 0
    {
      FirstPeriod(instances, j);
    }
  }

  /** Two moments with equal weights are followed by equal picks and equal weights. */
  lemma InStep(instances: seq<Instance>, i: nat, a: nat, b: nat)
    requires Distinct(instances) && i < |instances|
    requires SameWeights(StateAfter(instances, a), StateAfter(instances, b), instances)
    ensures SameWeights(StateAfter(instances, a + 1), StateAfter(instances, b + 1), instances)
    ensures Times(instances, i, b + 1) - Times(instances, i, a + 1)
            == Times(instances, i, b) - Times(instances, i, a)
  {
    SameWeightsSameCall(StateAfter(instances, a), StateAfter(instances, b), instances);
  }

  lemma {:induction false} ShiftedRun(instances: seq<Instance>, i: nat, period: nat, k: nat)
    requires Distinct(instances) && i < |instances|
    requires SameWeights(StateAfter(instances, 0), StateAfter(instances, period), instances)
    ensures SameWeights(StateAfter(instances, k), StateAfter(instances, k + period), instances)
    ensures Times(instances, i, k + period) - Times(instances, i, k) == Times(instances, i, period)
  {
    hide Next, Picked, Total;
    if k > 0 {
      ShiftedRun(instances, i, period, k - 1);
      InStep(instances, i, k - 1, k - 1 + period);
      assert k - 1 + period + 1 == k + period;
    }
  }

  /** Exact fairness: every block of W consecutive calls, wherever it starts, picks instance `i`
      exactly `w_i` times. */
  lemma ExactPeriod(instances: seq<Instance>, i: nat, start: nat)
    requires Distinct(instances) && i < |instances|
    ensures Times(instances, i, start + Total(instances, |instances|)) - Times(instances, i, start)
            == Weight(instances[i])
  {
    hide *;
    PeriodCloses(instances);
    ShiftedRun(instances, i, Total(instances, |instances|), start);
    FirstPeriod(instances, i);
  }

  // ----- The period in the configured weights -----

  /** `share` gives each instance its configured weight, or 1 where that is not positive. */
  ghost predicate Shares(instances: seq<Instance>, share: seq<int>) {
    && |share| == |instances|
    && forall j :: 0 <= j < |instances| ==>
         (instances[j].weight > 0 ==> share[j] == instances[j].weight) && (instances[j].weight <= 0 ==> share[j] == 1)
  }

  function SumOf(xs: seq<int>): int {
    if xs == [] then 0 else SumOf(xs[..|xs| - 1]) + xs[|xs| - 1]
  }

  lemma {:induction false} TotalIsSum(instances: seq<Instance>, share: seq<int>, k: nat)
    requires Shares(instances, share) && k <= |instances|
    ensures Total(instances, k) == SumOf(share[..k])
  {
    if k > 0 {
      TotalIsSum(instances, share, k - 1);
      assert share[..k][..k - 1] == share[..k - 1];
    }
  }

  /** Exact fairness in the configured weights: every block of as many calls as the weights sum up to picks
      an instance as often as its own weight says, and once if that is not positive. */
  lemma ConfiguredPeriod(instances: seq<Instance>, share: seq<int>, i: nat, start: nat)
    requires Distinct(instances) && i < |instances| && Shares(instances, share)
    ensures SumOf(share) >= 0
    ensures Times(instances, i, start + SumOf(share)) - Times(instances, i, start)
            == if instances[i].weight > 0 then instances[i].weight else 1
  {
    hide Times, Total, Weight;
    TotalIsSum(instances, share, |instances|);
    assert share[..|instances|] == share;
    ExactPeriod(instances, i, start);
  }

  /** One call on two instances, the first not behind or behind. */
  lemma PickOfTwo(state: Weights, instances: seq<Instance>)
    requires |instances| == 2 && Distinct(instances)
    ensures Picked(state, instances)
            == if Current(state, instances[0].id) + Weight(instances[0])
                  >= Current(state, instances[1].id) + Weight(instances[1]) then 0 else 1
  {
    KeptScore(state, instances, 0);
    KeptScore(state, instances, 1);
    hide Score, Retain, Weight;
  }

  /** Weights 3 and 1 from a fresh balancer: first, first, second, first. */
  lemma ThreeToOne(a: Instance, b: Instance)
    requires a.weight == 3 && b.weight == 1 && a.id != b.id
    ensures var instances := [a, b];
            && Picked(StateAfter(instances, 0), instances) == 0 && Picked(StateAfter(instances, 1), instances) == 0
            && Picked(StateAfter(instances, 2), instances) == 1 && Picked(StateAfter(instances, 3), instances) == 0
  {
    var instances := [a, b];
    assert Total(instances, 1) == 3 && Total(instances, 2) == 4;
    assert StateAfter(instances, 0) == map[];
    PickOfTwo(StateAfter(instances, 0), instances);
    TwoAfter(instances, 0);
    TwoAfter(instances, 1);
    TwoAfter(instances, 2);
  }

  /** The weights of two instances after one more call, and what is picked then. */
  lemma TwoAfter(instances: seq<Instance>, k: nat)
    requires |instances| == 2 && Distinct(instances)
    ensures Current(StateAfter(instances, k + 1), instances[0].id)
            == Current(StateAfter(instances, k), instances[0].id) + Change(StateAfter(instances, k), instances, 0)
    ensures Current(StateAfter(instances, k + 1), instances[1].id)
            == Current(StateAfter(instances, k), instances[1].id) + Change(StateAfter(instances, k), instances, 1)
    ensures Picked(StateAfter(instances, k + 1), instances)
            == if Current(StateAfter(instances, k + 1), instances[0].id) + Weight(instances[0])
                  >= Current(StateAfter(instances, k + 1), instances[1].id) + Weight(instances[1]) then 0 else 1
  {
    StepEffect(StateAfter(instances, k), instances, 0);
    StepEffect(StateAfter(instances, k), instances, 1);
    PickOfTwo(StateAfter(instances, k + 1), instances);
    hide Next, Picked, Change, Weight;
  }
}
