/**
 Consistent hashing.

 Every instance puts `virtualNodes` points on a ring of 32-bit hashes; a key belongs to the owner of
 the first point at or after the key's own hash, going round past the top.
 */
module ConsistentHashes {
  import opened Results
  import opened Instances
  import opened Decimals

  const RING_SIZE: int := 0x1_0000_0000

  type Hash = h: int | 0 <= h < 0x1_0000_0000

  datatype RingEntry = RingEntry(hash: Hash, instance: Instance)

  type Ring = seq<RingEntry>

  function VirtualKey(inst: Instance, node: nat): string {
    inst.id + "#" + Itoa(node)
  }

  /** The distance from `h` to point `p`, going upwards and wrapping at the top of the ring. */
  function Clockwise(h: Hash, p: RingEntry): nat {
    if p.hash >= h then p.hash - h else p.hash - h + RING_SIZE
  }

  /** The points of one instance, and of a list of instances. */
  function PointsOf(hashFunc: string -> Hash, nodes: nat, inst: Instance): set<RingEntry> {
    set j | 0 <= j < nodes :: RingEntry(hashFunc(VirtualKey(inst, j)), inst)
  }

  function Points(hashFunc: string -> Hash, nodes: nat, instances: seq<Instance>): set<RingEntry> {
    if instances == [] then {} else
      Points(hashFunc, nodes, instances[..|instances| - 1])
      + PointsOf(hashFunc, nodes, instances[|instances| - 1])
  }

  /** `p` is a point that no other point precedes, walking clockwise from `h`. */
  ghost predicate Nearest(points: set<RingEntry>, h: Hash, p: RingEntry) {
    p in points && forall q :: q in points ==> Clockwise(h, p) <= Clockwise(h, q)
  }

  ghost predicate Owns(points: set<RingEntry>, h: Hash, inst: Instance) {
    exists p :: Nearest(points, h, p) && p.instance == inst
  }

  /** Points of different instances never share a hash. */
  ghost predicate NoCollisions(points: set<RingEntry>) {
    forall p, q :: p in points && q in points && p.hash == q.hash ==> p.instance == q.instance
  }

  ghost predicate Sorted(ring: Ring) {
    forall i, j :: 0 <= i < j < |ring| ==> ring[i].hash <= ring[j].hash
  }

  ghost function Elements(ring: Ring): set<RingEntry> {
    set e | e in ring
  }

  method Insert(ring: Ring, e: RingEntry) returns (r: Ring)
    requires Sorted(ring)
    ensures Sorted(r)
    ensures multiset(r) == multiset(ring) + multiset{e}
  {
    hide Sorted;
    var at := |ring|;
    while at > 0 && ring[at - 1].hash > e.hash
      invariant 0 <= at <= |ring|
      invariant forall j :: at <= j < |ring| ==> ring[j].hash > e.hash
    {
      at := at - 1;
    }
    r := ring[..at] + [e] + ring[at..];
    assert ring == ring[..at] + ring[at..];
    InsertedAt(ring, at, e);
  }

  lemma InsertedAt(ring: Ring, at: nat, e: RingEntry)
    requires Sorted(ring) && at <= |ring|
    requires at > 0 ==> ring[at - 1].hash <= e.hash
    requires forall j :: at <= j < |ring| ==> e.hash < ring[j].hash
    ensures Sorted(ring[..at] + [e] + ring[at..])
  {
    var r := ring[..at] + [e] + ring[at..];
    forall i, j | 0 <= i < j < |r| ensures r[i].hash <= r[j].hash {
      if i < at {
        assert r[i] == ring[i] && ring[i].hash <= ring[at - 1].hash;
        if j < at { assert r[j] == ring[j]; } else if j > at { assert r[j] == ring[j - 1]; }
      } else {
        assert r[j] == ring[j - 1];
        if i > at { assert r[i] == ring[i - 1]; }
      }
    }
  }

  /** `sort.Slice` by hash: ordered, the same entries, and no promise about ties. */
  method SortByHash(ring: Ring) returns (sorted: Ring)
    ensures Sorted(sorted)
    ensures multiset(sorted) == multiset(ring)
  {
    sorted := [];
    for i := 0 to |ring|
      invariant Sorted(sorted)
      invariant multiset(sorted) == multiset(ring[..i])
    {
      assert ring[..i + 1] == ring[..i] + [ring[i]];
      sorted := Insert(sorted, ring[i]);
    }
    assert ring[..|ring|] == ring;
  }

  /** `sort.Search`: the first entry whose hash reaches `keyHash`. */
  method Search(ring: Ring, keyHash: Hash) returns (idx: nat)
    requires Sorted(ring)
    ensures idx <= |ring|
    ensures forall k :: 0 <= k < idx ==> ring[k].hash < keyHash
    ensures forall k :: idx <= k < |ring| ==> ring[k].hash >= keyHash
  {
    var low, high := 0, |ring|;
    while low < high
      invariant 0 <= low <= high <= |ring|
      invariant forall k :: 0 <= k < low ==> ring[k].hash < keyHash
      invariant forall k :: high <= k < |ring| ==> ring[k].hash >= keyHash
    {
      var mid := (low + high) / 2;
      if ring[mid].hash >= keyHash {
        high := mid;
      } else {
        low := mid + 1;
      }
    }
    idx := low;
  }

  class ConsistentHash {
    const virtualNodes: nat
    const hashFunc: string -> Hash

    constructor (virtualNodes: int, hashFunc: string -> Hash)
      ensures this.virtualNodes == if virtualNodes > 0 then virtualNodes else 150
      ensures this.hashFunc == hashFunc
    {
      this.virtualNodes := if virtualNodes > 0 then virtualNodes else 150;
      this.hashFunc := hashFunc;
    }

    /** Whatever the hash function, the key goes to an owner of a nearest point. */
    method SelectByKey(instances: seq<Instance>, key: string) returns (r: Result<Instance, BalanceError>)
      requires virtualNodes > 0
      ensures instances == [] ==> r == Err(NoInstance)
      ensures instances != [] ==>
                r.Ok? && Owns(Points(hashFunc, virtualNodes, instances), hashFunc(key), r.value)
    {
      if |instances| == 0 {
        return Err(NoInstance);
      }

      var ring: Ring := [];
      for k := 0 to |instances|
        invariant Elements(ring) == Points(hashFunc, virtualNodes, instances[..k])
        invariant k > 0 ==> ring != []
      {
        var inst := instances[k];
        ghost var before := Elements(ring);
        for i := 0 to virtualNodes
          invariant Elements(ring) == before + PointsOf(hashFunc, i, inst)
          invariant i > 0 || k > 0 ==> ring != []
        {
          var hash := hashFunc(VirtualKey(inst, i));
          assert Elements(ring + [RingEntry(hash, inst)]) == Elements(ring) + {RingEntry(hash, inst)};
          ring := ring + [RingEntry(hash, inst)];
          assert PointsOf(hashFunc, i + 1, inst) == PointsOf(hashFunc, i, inst) + {RingEntry(hash, inst)};
        }
        assert instances[..k + 1][..k] == instances[..k];
      }
      assert instances[..|instances|] == instances;

      var sorted := SortByHash(ring);
      assert Elements(sorted) == Elements(ring) by {
        assert forall e :: e in sorted <==> e in multiset(sorted);
        assert forall e :: e in ring <==> e in multiset(ring);
      }
      assert |sorted| > 0 by {
        assert ring[0] in multiset(sorted);
      }
      var keyHash := hashFunc(key);
      var idx := Search(sorted, keyHash);
      if idx == |sorted| {
        idx := 0;
      }
      assert Nearest(Elements(sorted), keyHash, sorted[idx]);
      return Ok(sorted[idx].instance);
    }
  }

  // ----- What the points' texts say -----

  /** The part of a text after its last `#`, and the part before it. */
  function AfterMark(s: string): string {
    if s == [] || s[|s| - 1] == '#' then [] else AfterMark(s[..|s| - 1]) + [s[|s| - 1]]
  }

  function BeforeMark(s: string): string {
    if s == [] then [] else if s[|s| - 1] == '#' then s[..|s| - 1] else BeforeMark(s[..|s| - 1])
  }

  lemma {:induction false} MarkFound(id: string, digits: string)
    requires '#' !in digits
    ensures BeforeMark(id + "#" + digits) == id && AfterMark(id + "#" + digits) == digits
  {
    if digits == [] {
      assert (id + "#" + digits)[..|id|] == id && (id + "#" + digits)[|id|] == '#';
    } else {
      var front, last := digits[..|digits| - 1], digits[|digits| - 1];
      assert digits == front + [last];
      MarkFound(id, front);
      assert (id + "#" + digits)[..|id| + 1 + |front|] == id + "#" + front;
    }
  }

  /** The text of a virtual node gives back the instance's ID, whatever characters that has, and the node's
      number: no two virtual nodes share a text. */
  lemma VirtualKeyDecodes(inst: Instance, node: nat)
    ensures BeforeMark(VirtualKey(inst, node)) == inst.id
    ensures Decimal(AfterMark(VirtualKey(inst, node))) == node
  {
    assert '#' !in Itoa(node) by {
      assert !IsDigit('#');
    }
    MarkFound(inst.id, Itoa(node));
    DecimalOfItoa(node);
  }

  lemma VirtualKeysDiffer(a: Instance, i: nat, b: Instance, j: nat)
    ensures VirtualKey(a, i) == VirtualKey(b, j) <==> a.id == b.id && i == j
    ensures VirtualKey(Instance("api", 1), 120) == "api#120"
  {
    VirtualKeyDecodes(a, i);
    VirtualKeyDecodes(b, j);
    OneHundredTwenty();
    assert "api" + "#" + "120" == "api#120";
    hide BeforeMark, AfterMark, Itoa, Decimal;
  }

  // ----- What a key's owner depends on -----

  /** Going round the ring, the nearest point is the first hash at or above `h`, or else the
      smallest hash of all. */
  lemma NearestIsSuccessor(points: set<RingEntry>, h: Hash, p: RingEntry)
    ensures Nearest(points, h, p) <==>
              && p in points
              && (if exists q :: q in points && q.hash >= h
                  then p.hash >= h && forall q :: q in points && q.hash >= h ==> p.hash <= q.hash
                  else forall q :: q in points ==> p.hash <= q.hash)
  {
    if q :| q in points && q.hash >= h {
      assert Clockwise(h, q) < RING_SIZE - h;
    }
  }

  lemma OneOwner(points: set<RingEntry>, h: Hash, a: Instance, b: Instance)
    requires NoCollisions(points)
    requires Owns(points, h, a) && Owns(points, h, b)
    ensures a == b
  {
    var p :| Nearest(points, h, p) && p.instance == a;
    var q :| Nearest(points, h, q) && q.instance == b;
    assert Clockwise(h, p) == Clockwise(h, q);
  }

  /** Every hash has one owner exactly if no two instances collide; where two do, the hash they share
      belongs to both, and the order of sorting decides. */
  lemma OneOwnerIff(points: set<RingEntry>)
    ensures (forall h: Hash, a, b :: Owns(points, h, a) && Owns(points, h, b) ==> a == b) <==> NoCollisions(points)
  {
    if NoCollisions(points) {
      forall h: Hash, a, b | Owns(points, h, a) && Owns(points, h, b) ensures a == b {
        OneOwner(points, h, a, b);
      }
    }
    if forall h: Hash, a, b :: Owns(points, h, a) && Owns(points, h, b) ==> a == b {
      forall p, q | p in points && q in points && p.hash == q.hash ensures p.instance == q.instance {
        assert Nearest(points, p.hash, p) && Nearest(points, p.hash, q);
        assert Owns(points, p.hash, p.instance) && Owns(points, p.hash, q.instance);
      }
    }
  }

  lemma {:induction false} PointsMembers(hashFunc: string -> Hash, nodes: nat, instances: seq<Instance>, p: RingEntry)
    ensures p in Points(hashFunc, nodes, instances) <==>
              p.instance in instances && p in PointsOf(hashFunc, nodes, p.instance)
  {
    if instances != [] {
      var front, last := instances[..|instances| - 1], instances[|instances| - 1];
      PointsMembers(hashFunc, nodes, front, p);
      assert instances == front + [last];
    }
  }

  /** The list's order and repetitions do not matter: two lists of the same instances give every key
      the same owner. */
  lemma OrderIndependent(hashFunc: string -> Hash, nodes: nat, xs: seq<Instance>, ys: seq<Instance>,
                         h: Hash, a: Instance, b: Instance)
    requires forall inst :: inst in xs <==> inst in ys
    requires NoCollisions(Points(hashFunc, nodes, xs))
    requires Owns(Points(hashFunc, nodes, xs), h, a) && Owns(Points(hashFunc, nodes, ys), h, b)
    ensures a == b
  {
    forall p ensures p in Points(hashFunc, nodes, xs) <==> p in Points(hashFunc, nodes, ys) {
      PointsMembers(hashFunc, nodes, xs, p);
      PointsMembers(hashFunc, nodes, ys, p);
    }
    assert Points(hashFunc, nodes, xs) == Points(hashFunc, nodes, ys);
    OneOwner(Points(hashFunc, nodes, xs), h, a, b);
  }

  /** Minimal disruption.  `bigger` lists the instances of `smaller` and also `extra`, in any order.
      Read from left to right this is an addition, from right to left a removal: a key's owners
      before and after differ only if the key is now, or was, `extra`'s; and `extra` has exactly the
      keys for which one of its points is nearer than the other list's nearest point. */
  lemma MinimalDisruption(hashFunc: string -> Hash, nodes: nat, smaller: seq<Instance>, extra: Instance,
                          bigger: seq<Instance>, h: Hash, without: RingEntry, with: Instance)
    requires extra !in smaller
    requires forall inst :: inst in bigger <==> inst in smaller || inst == extra
    requires NoCollisions(Points(hashFunc, nodes, bigger))
    requires Nearest(Points(hashFunc, nodes, smaller), h, without)
    requires Owns(Points(hashFunc, nodes, bigger), h, with)
    ensures with == without.instance || with == extra
    ensures with == extra <==>
              exists p :: p in PointsOf(hashFunc, nodes, extra) && Clockwise(h, p) < Clockwise(h, without)
  {
    var few, many := Points(hashFunc, nodes, smaller), Points(hashFunc, nodes, bigger);
    var own := PointsOf(hashFunc, nodes, extra);
    forall p ensures p in many <==> p in few || p in own {
      PointsMembers(hashFunc, nodes, smaller, p);
      PointsMembers(hashFunc, nodes, bigger, p);
    }
    var p :| Nearest(many, h, p) && p.instance == with;
    PointsMembers(hashFunc, nodes, smaller, without);
    PointsMembers(hashFunc, nodes, smaller, p);
    assert without in many;
    if p in few {
      assert Clockwise(h, p) == Clockwise(h, without);
      assert p.hash == without.hash;
    } else {
      assert Clockwise(h, p) == Clockwise(h, without) ==> p.hash == without.hash;
    }
  }
}
