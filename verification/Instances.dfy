/** What the load balancers read of a service instance, and the error they share. */
module Instances {

  datatype Instance = Instance(id: string, weight: int)

  datatype BalanceError = NoInstance

  /** The IDs of the first `k` listed instances. */
  function Ids(instances: seq<Instance>, k: nat): set<string>
    requires k <= |instances|
  {
    set i | 0 <= i < k :: instances[i].id
  }

  ghost predicate Distinct(instances: seq<Instance>) {
    forall i, j :: 0 <= i < j < |instances| ==> instances[i].id != instances[j].id
  }
}
