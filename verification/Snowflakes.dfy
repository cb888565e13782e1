/**
 Snowflake IDs: 41 bits of milliseconds since an epoch, 10 bits of node and 12 bits of sequence, drawn
 by a generator whose clock may stand still or run backwards.
 */
module Snowflakes {
  import opened Arithmetic
  import opened Int64s
  import opened Results

  const MAX_NODE: int := 1023
  const MAX_SEQUENCE: int := 4095
  const TWO_41: int := 0x200_0000_0000
  const TWO_42: int := 0x400_0000_0000

  datatype ID = ID(timestamp: int, nodeID: int, sequence: int)

  predicate ValidParts(id: ID) {
    0 <= id.timestamp && 0 <= id.nodeID <= MAX_NODE && 0 <= id.sequence <= MAX_SEQUENCE
  }

  function Pack(id: ID): int {
    Or(Or(ShiftLeft(id.timestamp, 22), ShiftLeft(id.nodeID, 12)), id.sequence)
  }

  function Parse(id: int): ID {
    ID(ShiftRight(id, 22), And(ShiftRight(id, 12), MAX_NODE), And(id, MAX_SEQUENCE))
  }

  // ----- The generator -----

  datatype GenError = InvalidNodeID | InvalidEpoch | ClockMovedBack

  /** The last timestamp and sequence used. */
  datatype Clockwork = Clockwork(timestamp: int, sequence: int)

  /** What one call does with the clock readings it gets: `Waiting` when the sequence ran over and no
      reading has passed the last timestamp yet. */
  datatype Turn = Turned(next: Clockwork) | MovedBack | Waiting

  /** The first reading after the timestamp `last`, from reading `i` on. */
  function NextMillis(clock: seq<int>, i: nat, epoch: int, last: int): Option<int>
    requires i <= |clock|
    decreases |clock| - i
  {
    if i == |clock| then None
    else if clock[i] - epoch > last then Some(clock[i] - epoch)
    else NextMillis(clock, i + 1, epoch, last)
  }

  function TakeTurn(c: Clockwork, epoch: int, clock: seq<int>): Turn
    requires clock != []
  {
    var now := clock[0] - epoch;
    if now < c.timestamp then MovedBack
    else if now > c.timestamp then Turned(Clockwork(now, 0))
    else if c.sequence < MAX_SEQUENCE then Turned(Clockwork(now, c.sequence + 1))
    else match NextMillis(clock, 1, epoch, now)
      case Some(t) => Turned(Clockwork(t, 0))
      case None => Waiting
  }

  class Generator {
    const epoch: int
    const nodeID: int
    var timestamp: int
    var sequence: int

    ghost predicate Valid()
      reads this
    {
      0 <= nodeID <= MAX_NODE && 0 <= sequence <= MAX_SEQUENCE && timestamp >= 0
    }

    function State(): Clockwork
      reads this
    {
      Clockwork(timestamp, sequence)
    }

    constructor (nodeID: int, epoch: int)
      requires 0 <= nodeID <= MAX_NODE
      ensures Valid() && State() == Clockwork(0, 0) && this.nodeID == nodeID && this.epoch == epoch
    {
      this.nodeID := nodeID;
      this.epoch := epoch;
      timestamp := 0;
      sequence := 0;
    }

    /** `now` is the clock at creation. */
    static method New(nodeID: int, epoch: int, now: int) returns (r: Result<Generator, GenError>)
      ensures r == Err(InvalidNodeID) <==> !(0 <= nodeID <= MAX_NODE)
      ensures r == Err(InvalidEpoch) <==> 0 <= nodeID <= MAX_NODE && epoch > now
      ensures r.Ok? <==> 0 <= nodeID <= MAX_NODE && epoch <= now
      ensures r.Ok? ==> fresh(r.value) && r.value.Valid() && r.value.State() == Clockwork(0, 0)
                        && r.value.nodeID == nodeID && r.value.epoch == epoch
    {
      if nodeID < 0 || nodeID > MAX_NODE {
        return Err(InvalidNodeID);
      }
      var g := new Generator(nodeID, epoch);
      if epoch > now {
        return Err(InvalidEpoch);
      }
      return Ok(g);
    }

    method WaitNextMillis(clock: seq<int>, from: nat, last: int) returns (now: int)
      requires from <= |clock| && NextMillis(clock, from, epoch, last).Some?
      ensures Some(now) == NextMillis(clock, from, epoch, last)
    {
      var i := from;
      now := clock[i] - epoch;
      while now <= last
        invariant from <= i < |clock| && now == clock[i] - epoch
        invariant NextMillis(clock, i, epoch, last) == NextMillis(clock, from, epoch, last)
        decreases |clock| - i
      {
        i := i + 1;
        now := clock[i] - epoch;
      }
    }

    /** `clock` holds the readings the call gets, in order; without one that passes the last timestamp a
        call whose sequence ran over does not return. */
    method Generate(clock: seq<int>) returns (r: Result<int, GenError>)
      requires Valid() && clock != [] && !TakeTurn(State(), epoch, clock).Waiting?
      modifies this
      ensures Valid()
      ensures match old(TakeTurn(State(), epoch, clock))
              case MovedBack => r == Err(ClockMovedBack) && State() == old(State())
              case Turned(c) => r == Ok(Pack(ID(c.timestamp, nodeID, c.sequence))) && State() == c
    {
      hide Or, And, ShiftLeft;
      var now := clock[0] - epoch;
      if now < timestamp {
        return Err(ClockMovedBack);
      }
      if now == timestamp {
        SequenceMask(sequence + 1);
        sequence := And(sequence + 1, MAX_SEQUENCE);
        if sequence == 0 {
          now := WaitNextMillis(clock, 1, now);
          NextMillisLater(clock, 1, epoch, timestamp);
        }
      } else {
        sequence := 0;
      }
      timestamp := now;
      var id := Or(Or(ShiftLeft(now, 22), ShiftLeft(nodeID, 12)), sequence);
      return Ok(id);
    }
  }

  lemma {:induction false} NextMillisLater(clock: seq<int>, i: nat, epoch: int, last: int)
    requires i <= |clock| && NextMillis(clock, i, epoch, last).Some?
    ensures NextMillis(clock, i, epoch, last).value > last
    ensures NextMillis(clock, i, epoch, last).value + epoch in clock
    decreases |clock| - i
  {
    if clock[i] - epoch <= last {
      NextMillisLater(clock, i + 1, epoch, last);
    }
  }

  lemma SequenceMask(s: int)
    requires 0 <= s <= MAX_SEQUENCE + 1
    ensures And(s, MAX_SEQUENCE) == if s == MAX_SEQUENCE + 1 then 0 else s
  {
    Powers();
    AndMask(s, 12);
    hide Pow2, AndBits, Wrap, Pattern;
    Quotient(s, 4096, if s == 4096 then 1 else 0, if s == 4096 then 0 else s);
  }

  // ----- Packing and parsing -----

  /** The value a packed ID has before it wraps around. */
  function Sum(id: ID): int {
    id.timestamp % TWO_42 * 0x40_0000 + id.nodeID * 4096 + id.sequence
  }

  lemma TimestampBits(t: int)
    requires t >= 0
    ensures Pattern(ShiftLeft(t, 22)) == t % TWO_42 * 0x40_0000
  {
    Powers();
    var q, h := t / TWO_42, t % TWO_42;
    assert t * 0x40_0000 == TWO_64 * q + h * 0x40_0000;
    Quotient(t * 0x40_0000, TWO_64, q, h * 0x40_0000);
    PatternOfWrap(t * 0x40_0000);
  }

  lemma PatternOfWrap(x: int)
    ensures Pattern(Wrap(x)) == Pattern(x)
  {
  }

  /** Or-ing the node below the timestamp adds it. */
  lemma UpperBits(t: int, node: int)
    requires t >= 0 && 0 <= node <= MAX_NODE
    ensures Or(ShiftLeft(t, 22), ShiftLeft(node, 12)) == Wrap((t % TWO_42 * 1024 + node) * 4096)
  {
    TimestampBits(t);
    Powers();
    OrDisjoint(t % TWO_42, node * 4096, 22);
    hide OrBits, Pow2, Wrap, Pattern, ShiftLeft;
  }

  lemma PackValue(id: ID)
    requires ValidParts(id)
    ensures 0 <= Sum(id) < TWO_64
    ensures Pack(id) == Wrap(Sum(id))
  {
    hide OrBits, Pow2, Wrap, ShiftLeft, ShiftRight;
    var upper := id.timestamp % TWO_42 * 1024 + id.nodeID;
    assert 0 <= upper * 4096 <= TWO_64 - 4096;
    UpperBits(id.timestamp, id.nodeID);
    PatternOfWrap(upper * 4096);
    Powers();
    OrDisjoint(upper, id.sequence, 12);
    assert Pattern(upper * 4096) == upper * 4096 && Pattern(id.sequence) == id.sequence;
    hide Pattern;
  }

  /** What wrapping makes of a timestamp too large for its 42 bits, sign included. */
  function WrapTimestamp(t: int): int {
    var h := t % TWO_42;
    if h < TWO_41 then h else h - TWO_42
  }

  lemma ParseParts(x: int, high: int, node: int, seq_: int)
    requires IsInt64(x) && x == high * 0x40_0000 + node * 4096 + seq_
    requires 0 <= node <= MAX_NODE && 0 <= seq_ <= MAX_SEQUENCE
    ensures Parse(x) == ID(high, node, seq_)
  {
    Powers();
    hide Pow2;
    Quotient(x, 0x40_0000, high, node * 4096 + seq_);
    Quotient(x, 4096, high * 1024 + node, seq_);
    Quotient(high * 1024 + node, 1024, high, node);
    LowBits(x, 12, 4096);
    LowBits(high * 1024 + node, 10, 1024);
  }

  lemma LowBits(x: int, k: nat, p: int)
    requires (k == 10 && p == 1024) || (k == 12 && p == 4096)
    ensures And(x, p - 1) == x % p
  {
    Powers();
    AndMask(Pattern(x), k);
    hide Pow2, AndBits;
    var q, m := x / TWO_64, x % TWO_64;
    assert x == TWO_64 * q + m;
    Quotient(x, p, TWO_64 / p * q + m / p, m % p);
  }

  lemma WrapTimestampExact(t: int)
    requires t >= 0
    ensures WrapTimestamp(t) == t <==> t < TWO_41
  {
  }

  /** `Parse` undoes packing: node and sequence always come back, the timestamp exactly if it is below
      2^41 milliseconds. */
  lemma ParsePack(id: ID)
    requires ValidParts(id)
    ensures Parse(Pack(id)) == id.(timestamp := WrapTimestamp(id.timestamp))
    ensures Parse(Pack(id)) == id <==> id.timestamp < TWO_41
  {
    PackValue(id);
    hide Pack, Parse, Wrap;
    if id.timestamp % TWO_42 >= TWO_41 {
      WrapHigh(Sum(id));
    }
    assert Pack(id) == WrapTimestamp(id.timestamp) * 0x40_0000 + id.nodeID * 4096 + id.sequence;
    ParseParts(Pack(id), WrapTimestamp(id.timestamp), id.nodeID, id.sequence);
    hide WrapTimestamp;
    WrapTimestampExact(id.timestamp);
  }

  lemma WrapTimestampEqual(t: int, u: int)
    ensures WrapTimestamp(t) == WrapTimestamp(u) <==> t % TWO_42 == u % TWO_42
  {
  }

  /** When two IDs are the same: equal nodes and sequences, and timestamps a multiple of 2^42 apart. */
  lemma PackEqualIff(a: ID, b: ID)
    requires ValidParts(a) && ValidParts(b)
    ensures Pack(a) == Pack(b) <==>
              a.nodeID == b.nodeID && a.sequence == b.sequence && a.timestamp % TWO_42 == b.timestamp % TWO_42
  {
    hide Pack, Parse, Wrap, WrapTimestamp;
    ParsePack(a);
    ParsePack(b);
    PackValue(a);
    PackValue(b);
    WrapTimestampEqual(a.timestamp, b.timestamp);
  }

  /** Generators with different node IDs never produce the same ID, at any time. */
  lemma NodesNeverCollide(a: ID, b: ID)
    requires ValidParts(a) && ValidParts(b) && Pack(a) == Pack(b)
    ensures a.nodeID == b.nodeID && a.sequence == b.sequence
  {
    ParsePack(a);
    ParsePack(b);
  }

  predicate Before(a: Clockwork, b: Clockwork) {
    a.timestamp < b.timestamp || (a.timestamp == b.timestamp && a.sequence < b.sequence)
  }

  function IdOf(c: Clockwork, node: int): int {
    Pack(ID(c.timestamp, node, c.sequence))
  }

  lemma PackedRange(id: ID)
    requires ValidParts(id)
    ensures id.timestamp < TWO_41 ==> Pack(id) == id.timestamp * 0x40_0000 + id.nodeID * 4096 + id.sequence
    ensures TWO_41 <= id.timestamp < TWO_42 ==> Pack(id) < 0
  {
    PackValue(id);
    hide Pack, Wrap;
    if id.timestamp < TWO_42 {
      Quotient(id.timestamp, TWO_42, 0, id.timestamp);
      if id.timestamp >= TWO_41 {
        WrapHigh(Sum(id));
      }
    }
  }

  /** Of two states in order the later one has the larger ID exactly until the timestamp reaches 2^41:
      there the sign bit is set and IDs become negative. */
  lemma IncreasingIff(a: Clockwork, b: Clockwork, node: int)
    requires Good(a) && Good(b) && 0 <= node <= MAX_NODE
    requires Before(a, b) && a.timestamp < TWO_41 && b.timestamp < TWO_42
    ensures IdOf(a, node) < IdOf(b, node) <==> b.timestamp < TWO_41
  {
    PackedRange(ID(a.timestamp, node, a.sequence));
    PackedRange(ID(b.timestamp, node, b.sequence));
    hide Pack;
  }

  // ----- Runs -----

  ghost predicate Good(c: Clockwork) {
    c.timestamp >= 0 && 0 <= c.sequence <= MAX_SEQUENCE
  }

  /** A call that succeeds moves on, a call that meets an earlier clock changes nothing. */
  lemma TurnMovesOn(c: Clockwork, epoch: int, clock: seq<int>)
    requires Good(c) && clock != [] && TakeTurn(c, epoch, clock).Turned?
    ensures var next := TakeTurn(c, epoch, clock).next;
            Good(next) && Before(c, next) && next.timestamp + epoch in clock
  {
    if clock[0] - epoch == c.timestamp && c.sequence == MAX_SEQUENCE {
      NextMillisLater(clock, 1, epoch, c.timestamp);
    }
  }

  /** The IDs that a series of calls returns; a call that waits for ever ends the series. */
  function Ids(c: Clockwork, node: int, epoch: int, calls: seq<seq<int>>): seq<int>
    requires forall i :: 0 <= i < |calls| ==> calls[i] != []
    decreases |calls|
  {
    if calls == [] then [] else
      match TakeTurn(c, epoch, calls[0])
      case Turned(next) => [IdOf(next, node)] + Ids(next, node, epoch, calls[1..])
      case MovedBack => Ids(c, node, epoch, calls[1..])
      case Waiting => []
  }

  /** The states those calls leave behind. */
  function Turns(c: Clockwork, epoch: int, calls: seq<seq<int>>): seq<Clockwork>
    requires forall i :: 0 <= i < |calls| ==> calls[i] != []
    decreases |calls|
  {
    if calls == [] then [] else
      match TakeTurn(c, epoch, calls[0])
      case Turned(next) => [next] + Turns(next, epoch, calls[1..])
      case MovedBack => Turns(c, epoch, calls[1..])
      case Waiting => []
  }

  lemma {:induction false} IdsOfTurns(c: Clockwork, node: int, epoch: int, calls: seq<seq<int>>)
    requires forall i :: 0 <= i < |calls| ==> calls[i] != []
    ensures |Ids(c, node, epoch, calls)| == |Turns(c, epoch, calls)|
    ensures forall i :: 0 <= i < |Turns(c, epoch, calls)| ==>
              Ids(c, node, epoch, calls)[i] == IdOf(Turns(c, epoch, calls)[i], node)
    decreases |calls|
  {
    if calls != [] {
      hide IdOf, TakeTurn;
      match TakeTurn(c, epoch, calls[0]) {
        case Turned(next) => IdsOfTurns(next, node, epoch, calls[1..]);
        case MovedBack => IdsOfTurns(c, node, epoch, calls[1..]);
        case Waiting =>
      }
    }
  }

  /** The clock shows timestamps below `bound` only. */
  ghost predicate ClockBelow(epoch: int, calls: seq<seq<int>>, bound: int) {
    forall i, t :: 0 <= i < |calls| && t in calls[i] ==> t - epoch < bound
  }

  /** Every state comes after those before it. */
  ghost predicate Ascending(low: Clockwork, turns: seq<Clockwork>, bound: int) {
    && (forall i :: 0 <= i < |turns| ==> Good(turns[i]) && turns[i].timestamp < bound && Before(low, turns[i]))
    && (forall i, j :: 0 <= i < j < |turns| ==> Before(turns[i], turns[j]))
  }

  /** Whatever the clock does, the states of a run strictly ascend. */
  lemma {:induction false} TurnsAscend(c: Clockwork, epoch: int, calls: seq<seq<int>>, bound: int)
    requires Good(c)
    requires forall i :: 0 <= i < |calls| ==> calls[i] != []
    requires ClockBelow(epoch, calls, bound)
    ensures Ascending(c, Turns(c, epoch, calls), bound)
    decreases |calls|
  {
    if calls != [] {
      assert forall t :: t in calls[0] ==> t - epoch < bound;
      assert ClockBelow(epoch, calls[1..], bound);
      hide TakeTurn, Before, Ascending, ClockBelow;
      match TakeTurn(c, epoch, calls[0]) {
        case Turned(next) =>
          TurnMovesOn(c, epoch, calls[0]);
          assert next.timestamp + epoch - epoch < bound;
          TurnsAscend(next, epoch, calls[1..], bound);
        case MovedBack =>
          TurnsAscend(c, epoch, calls[1..], bound);
        case Waiting =>
          assert Ascending(c, [], bound) by { NoTurns(c, bound); }
      }
    } else {
      NoTurns(c, bound);
    }
  }

  lemma NoTurns(c: Clockwork, bound: int)
    ensures Ascending(c, [], bound)
  {
  }

  /** Uniqueness: whatever the clock does, the IDs of one generator strictly increase, as long as the
      clock stays within 2^41 milliseconds of the epoch. */
  lemma IdsIncrease(c: Clockwork, node: int, epoch: int, calls: seq<seq<int>>)
    requires Good(c) && 0 <= node <= MAX_NODE && c.timestamp < TWO_41
    requires forall i :: 0 <= i < |calls| ==> calls[i] != []
    requires ClockBelow(epoch, calls, TWO_41)
    ensures forall i :: 0 <= i < |Ids(c, node, epoch, calls)| ==> IdOf(c, node) < Ids(c, node, epoch, calls)[i]
    ensures forall i, j :: 0 <= i < j < |Ids(c, node, epoch, calls)| ==>
              Ids(c, node, epoch, calls)[i] < Ids(c, node, epoch, calls)[j]
  {
    var ids, turns := Ids(c, node, epoch, calls), Turns(c, epoch, calls);
    IdsOfTurns(c, node, epoch, calls);
    TurnsAscend(c, epoch, calls, TWO_41);
    hide IdOf, Ids, Turns, Before, Good, ClockBelow;
    forall i | 0 <= i < |ids| ensures IdOf(c, node) < ids[i] {
      IncreasingIff(c, turns[i], node);
    }
    forall i, j | 0 <= i < j < |ids| ensures ids[i] < ids[j] {
      IncreasingIff(turns[i], turns[j], node);
    }
  }

  lemma LaterIsDifferent(a: Clockwork, b: Clockwork, node: int)
    requires Good(a) && Good(b) && 0 <= node <= MAX_NODE
    requires Before(a, b) && a.timestamp < TWO_42 && b.timestamp < TWO_42
    ensures IdOf(a, node) != IdOf(b, node)
  {
    hide Pack;
    PackEqualIff(ID(a.timestamp, node, a.sequence), ID(b.timestamp, node, b.sequence));
    Quotient(a.timestamp, TWO_42, 0, a.timestamp);
    Quotient(b.timestamp, TWO_42, 0, b.timestamp);
  }

  /** Up to 2^42 milliseconds the IDs of a run no longer all increase, but they are still different. */
  lemma IdsDistinct(c: Clockwork, node: int, epoch: int, calls: seq<seq<int>>)
    requires Good(c) && 0 <= node <= MAX_NODE
    requires forall i :: 0 <= i < |calls| ==> calls[i] != []
    requires ClockBelow(epoch, calls, TWO_42)
    ensures forall i, j :: 0 <= i < j < |Ids(c, node, epoch, calls)| ==>
              Ids(c, node, epoch, calls)[i] != Ids(c, node, epoch, calls)[j]
  {
    var ids, turns := Ids(c, node, epoch, calls), Turns(c, epoch, calls);
    IdsOfTurns(c, node, epoch, calls);
    TurnsAscend(c, epoch, calls, TWO_42);
    hide IdOf, Ids, Turns, Before, Good, ClockBelow;
    forall i, j | 0 <= i < j < |ids| ensures ids[i] != ids[j] {
      LaterIsDifferent(turns[i], turns[j], node);
    }
  }

  // ----- When a call fails, and what it gives within a millisecond -----

  /** What a call gives, from the generator's last timestamp and sequence and the clock: the error exactly if
      the clock is behind, sequence 0 in a later millisecond, the next sequence number in the same one, and in
      the same one after 4095 sequence 0 at the first later reading. */
  lemma TurnIs(c: Clockwork, epoch: int, clock: seq<int>)
    requires Good(c) && clock != []
    ensures TakeTurn(c, epoch, clock) == MovedBack <==> clock[0] - epoch < c.timestamp
    ensures TakeTurn(c, epoch, clock).Waiting? <==>
              clock[0] - epoch == c.timestamp && c.sequence == 4095
              && forall i :: 0 <= i < |clock| ==> clock[i] - epoch <= c.timestamp
    ensures clock[0] - epoch > c.timestamp ==> TakeTurn(c, epoch, clock) == Turned(Clockwork(clock[0] - epoch, 0))
    ensures clock[0] - epoch == c.timestamp && c.sequence < 4095 ==>
              TakeTurn(c, epoch, clock) == Turned(Clockwork(c.timestamp, c.sequence + 1))
    ensures clock[0] - epoch == c.timestamp && c.sequence == 4095 && !TakeTurn(c, epoch, clock).Waiting? ==>
              exists i :: 0 < i < |clock| && clock[i] - epoch > c.timestamp
                && (forall j :: 0 <= j < i ==> clock[j] - epoch <= c.timestamp)
                && TakeTurn(c, epoch, clock) == Turned(Clockwork(clock[i] - epoch, 0))
  {
    if clock[0] - epoch == c.timestamp && c.sequence == 4095 {
      var i := FirstLater(clock, 1, epoch, c.timestamp);
    }
  }

  /** Where the waiting loop stops: at the first reading after `last`, or past the end. */
  lemma {:induction false} FirstLater(clock: seq<int>, from: nat, epoch: int, last: int) returns (i: nat)
    requires from <= |clock|
    ensures from <= i <= |clock| && forall j :: from <= j < i ==> clock[j] - epoch <= last
    ensures if i < |clock| then clock[i] - epoch > last && NextMillis(clock, from, epoch, last) == Some(clock[i] - epoch)
            else NextMillis(clock, from, epoch, last) == None
    decreases |clock| - from
  {
    if from == |clock| || clock[from] - epoch > last {
      i := from;
    } else {
      i := FirstLater(clock, from + 1, epoch, last);
    }
  }

  /** A fresh generator fails exactly on clocks before its epoch, and counts 1 in its epoch's millisecond. */
  lemma FreshTurn(epoch: int, clock: seq<int>)
    requires clock != []
    ensures TakeTurn(Clockwork(0, 0), epoch, clock) == MovedBack <==> clock[0] < epoch
    ensures clock[0] == epoch ==> TakeTurn(Clockwork(0, 0), epoch, clock) == Turned(Clockwork(0, 1))
    ensures clock[0] > epoch ==> TakeTurn(Clockwork(0, 0), epoch, clock) == Turned(Clockwork(clock[0] - epoch, 0))
  {
    TurnIs(Clockwork(0, 0), epoch, clock);
  }
}
