/**
 The in-memory message queue: partitions are growing lists of message objects, a producer picks a
 partition from the key, and a consumer keeps an offset per partition.
 */
module MemoryLogs {
  import opened Arithmetic
  import opened Int64s

  type Byte = b: int | 0 <= b < 256

  const TWO_31: int := 0x8000_0000
  const TWO_32: int := 0x1_0000_0000

  function Wrap32(x: int): int {
    (x + TWO_31) % TWO_32 - TWO_31
  }

  /** Go's remainder takes the sign of the dividend. */
  function Remainder(a: int, n: int): int
    requires n > 0
  {
    if a >= 0 then a % n else -((-a) % n)
  }

  function Hash(key: seq<Byte>): int {
    if key == [] then 0 else Wrap(Wrap(Hash(key[..|key| - 1]) * 31) + key[|key| - 1])
  }

  /** The absolute value, except that the minimum stays negative. */
  function Magnitude(h: int): int {
    if h < 0 then Wrap(-h) else h
  }

  function PartitionOf(key: seq<Byte>, n: int): int
    requires n > 0
  {
    if key == [] then 0 else Wrap32(Remainder(Magnitude(Hash(key)), n))
  }

  /** Where a message asked to go to `partition` ends up. */
  function Clamped(partition: int, n: int): (p: nat)
    requires n > 0
    ensures p < n
    ensures 0 <= partition < n ==> p == partition
    ensures !(0 <= partition < n) ==> p == 0
  {
    if partition >= n || partition < 0 then 0 else partition
  }

  /** `id` tells message objects apart. */
  class Message {
    const id: nat
    const key: seq<Byte>
    var partition: int
    var offset: int

    constructor (id: nat, key: seq<Byte>) {
      this.id := id;
      this.key := key;
      partition, offset := 0, 0;
    }

    function Value(): Msg {
      Msg(id, key)
    }
  }

  datatype Msg = Msg(id: nat, key: seq<Byte>)

  function Values(msgs: seq<Message>): seq<Msg> {
    seq(|msgs|, i requires 0 <= i < |msgs| => msgs[i].Value())
  }

  function LogValues(logs: seq<seq<Message>>): seq<seq<Msg>> {
    seq(|logs|, p requires 0 <= p < |logs| => Values(logs[p]))
  }

  class MemTopic {
    var logs: seq<seq<Message>>

    constructor (partitions: nat)
      requires partitions > 0
      ensures |logs| == partitions && (forall p :: 0 <= p < partitions ==> logs[p] == [])
      ensures WellNumbered()
    {
      logs := seq(partitions, _ => []);
    }

    function Messages(): set<Message>
      reads this
    {
      set p, i | 0 <= p < |logs| && 0 <= i < |logs[p]| :: logs[p][i]
    }

    /** Every message carries its partition and its position in it. */
    ghost predicate WellNumbered()
      reads this, Messages()
    {
      forall p, i :: 0 <= p < |logs| && 0 <= i < |logs[p]| ==>
        logs[p][i].partition == p && logs[p][i].offset == i
    }

    method SelectPartition(key: seq<Byte>) returns (partition: int)
      requires |logs| > 0
      ensures partition == PartitionOf(key, |logs|)
    {
      if |key| == 0 {
        return 0;
      }
      hide Wrap;
      var h := 0;
      for i := 0 to |key|
        invariant h == Hash(key[..i])
      {
        assert key[..i + 1][..i] == key[..i];
        h := Wrap(Wrap(h * 31) + key[i]);
      }
      assert key[..|key|] == key;
      if h < 0 {
        h := Wrap(-h);
      }
      return Wrap32(Remainder(h, |logs|));
    }

    /** Appending numbers the message and nothing else.  Numbering stays right exactly when the message
        object was not in the topic before: a second send renumbers its earlier place as well. */
    method Append(msg: Message, partition: int)
      requires |logs| > 0
      modifies this, msg
      ensures var p := Clamped(partition, |old(logs)|);
              && logs == old(logs)[p := old(logs)[p] + [msg]]
              && msg.partition == p && msg.offset == |old(logs)[p]|
      ensures forall s: State :: s.logs == LogValues(old(logs)) ==>
                LogValues(logs) == Appended(s, msg.Value(), Clamped(partition, |s.logs|)).logs
      ensures old(WellNumbered()) ==> (WellNumbered() <==> msg !in old(Messages()))
    {
      var p := partition;
      if p >= |logs| || p < 0 {
        p := 0;
      }
      msg.partition := p;
      msg.offset := |logs[p]|;
      LogValuesAppend(logs, p, msg);
      logs := logs[p := logs[p] + [msg]];
      if old(WellNumbered()) && msg in old(Messages()) {
        var q, i :| 0 <= q < |old(logs)| && 0 <= i < |old(logs)[q]| && old(logs)[q][i] == msg;
        assert logs[q][i] == msg;
      }
    }

    method Send(msg: Message)
      requires |logs| > 0
      modifies this, msg
      ensures var p := Clamped(PartitionOf(msg.key, |old(logs)|), |old(logs)|);
              && logs == old(logs)[p := old(logs)[p] + [msg]]
              && msg.partition == p && msg.offset == |old(logs)[p]|
      ensures forall s: State :: s.logs == LogValues(old(logs)) ==>
                LogValues(logs) == Appended(s, msg.Value(), Clamped(PartitionOf(msg.key, |s.logs|), |s.logs|)).logs
      ensures old(WellNumbered()) ==> (WellNumbered() <==> msg !in old(Messages()))
    {
      var partition := SelectPartition(msg.key);
      Append(msg, partition);
    }

    /** A copy of the partition from `offset` on. */
    method Get(partition: nat, offset: nat) returns (msgs: seq<Message>)
      requires partition < |logs|
      ensures msgs == if offset < |logs[partition]| then logs[partition][offset..] else []
      ensures Values(msgs) == From(LogValues(logs)[partition], offset)
    {
      if offset >= |logs[partition]| {
        return [];
      }
      return logs[partition][offset..];
    }
  }

  lemma LogValuesAppend(logs: seq<seq<Message>>, p: nat, msg: Message)
    requires p < |logs|
    ensures LogValues(logs[p := logs[p] + [msg]]) == LogValues(logs)[p := LogValues(logs)[p] + [msg.Value()]]
  {
    assert Values(logs[p] + [msg]) == Values(logs[p]) + [msg.Value()];
  }

  class MemoryConsumer {
    const topic: MemTopic
    var offsets: seq<nat>
    var msgCh: seq<Message>
    ghost var handed: seq<(nat, Msg)>

    /** The consumer between two rounds, as a state of the step system. */
    ghost function View(sent: seq<Msg>): State
      reads this, topic
    {
      State(LogValues(topic.logs), sent, offsets, Idle, handed)
    }

    ghost predicate Valid()
      reads this, topic
    {
      Inv(View([]), |topic.logs|) && Values(msgCh) == Contents(handed)
    }

    constructor (topic: MemTopic)
      requires |topic.logs| > 0
      ensures Valid() && this.topic == topic && msgCh == [] && handed == []
      ensures forall p :: 0 <= p < |offsets| ==> offsets[p] == 0
    {
      this.topic := topic;
      offsets := seq(|topic.logs|, _ => 0);
      msgCh, handed := [], [];
    }

    /** The inner loop of a round: a batch goes into the channel. */
    method HandOverAll(at: nat, msgs: seq<Message>)
      requires at < |offsets| && Values(msgCh) == Contents(handed)
      modifies this
      ensures offsets == old(offsets)[at := old(offsets)[at] + |msgs|]
      ensures msgCh == old(msgCh) + msgs && handed == old(handed) + Tagged(at, Values(msgs))
      ensures Values(msgCh) == Contents(handed) && |Values(msgs)| == |msgs|
    {
      hide Values, Contents, Tagged;
      ghost var base, before, sofar := offsets, msgCh, handed;
      for j := 0 to |msgs|
        invariant offsets == base[at := base[at] + j] && msgCh == before + msgs[..j] && handed == sofar
      {
        msgCh := msgCh + [msgs[j]];
        offsets := offsets[at := offsets[at] + 1];
      }
      assert msgs[..|msgs|] == msgs;
      assert msgCh == before + msgs;
      ValuesConcat(before, msgs);
      ContentsTagged(handed, at, Values(msgs));
      handed := handed + Tagged(at, Values(msgs));
    }

    /** A round that nobody interrupts is a run of the consumer's steps, and at its end the consumer has
        been handed everything there is. */
    method PullAll()
      requires Valid()
      modifies this
      ensures Valid() && topic.logs == old(topic.logs)
      ensures forall p :: 0 <= p < |offsets| ==> offsets[p] == |topic.logs[p]|
      ensures exists schedule :: ConsumerSteps(schedule)
                && View([]) == Steps(old(View([])), |topic.logs|, schedule)
    {
      hide Inv, Steps, LogValues, Values, Contents, From, HandedOver, ConsumerSteps;
      ghost var start := View([]);
      LogLengths(topic.logs);
      InvShape(start);
      for i := 0 to |topic.logs|
        invariant topic.logs == old(topic.logs) && |offsets| == |topic.logs| == |start.logs|
        invariant View([]).(pull := AfterPartitions(i)) == Round(start, i)
        invariant Values(msgCh) == Contents(handed)
      {
        var msgs := topic.Get(i, offsets[i]);
        HandOverAll(i, msgs);
        assert View([]).(pull := AfterPartitions(i + 1)) == Round(start, i + 1) by {
          HandedOverIs(Round(start, i), i, Values(msgs));
        }
      }
      RoundIsSteps(start);
    }
  }

  function AfterPartitions(k: nat): Pull {
    if k == 0 then Idle else Pulling(k - 1, [])
  }

  function Tagged(from: nat, msgs: seq<Msg>): seq<(nat, Msg)> {
    seq(|msgs|, i requires 0 <= i < |msgs| => (from, msgs[i]))
  }

  /** `now` is where a schedule of consumer steps led. */
  ghost predicate OnTheWay(start: State, now: State, n: nat, schedule: seq<Action>) {
    Inv(start, n) && ConsumerSteps(schedule) && now == Steps(start, n, schedule)
  }

  /** The state in which the first `k` partitions have been taken in. */
  function Round(s: State, k: nat): (r: State)
    requires k <= |s.logs| == |s.offsets|
    ensures r.logs == s.logs && |r.offsets| == |s.offsets|
    ensures forall p :: k <= p < |s.offsets| ==> r.offsets[p] == s.offsets[p]
  {
    if k == 0 then s else HandedOver(Round(s, k - 1), k - 1, From(s.logs[k - 1], s.offsets[k - 1]))
  }

  /** The steps that take in one more partition: enter it and hand over its batch. */
  lemma Pulled(start: State, now: State, n: nat, schedule: seq<Action>, i: nat) returns (more: seq<Action>)
    requires OnTheWay(start, now, n, schedule) && i < n && now.pull == AfterPartitions(i)
    ensures |now.offsets| == n && |now.logs| == n && now.offsets[i] <= |now.logs[i]|
    ensures var batch := From(now.logs[i], now.offsets[i]);
            && |batch| == |now.logs[i]| - now.offsets[i]
            && OnTheWay(start, HandedOver(now, i, batch), n, more)
  {
    hide Inv, Steps, From, HandedOver;
    WithinLog(now, n, i);
    Entered(start, now, n, schedule, i);
    hide OnTheWay;
    var inside := now.(pull := Pulling(i, From(now.logs[i], now.offsets[i])));
    more := HandedBatch(start, inside, n, schedule + [if i == 0 then StartRound else NextPartition]);
    assert HandedOver(inside, i, inside.pull.batch) == HandedOver(now, i, inside.pull.batch) by {
      HandedOverIs(inside, i, inside.pull.batch);
      HandedOverIs(now, i, inside.pull.batch);
    }
  }

  lemma Entered(start: State, now: State, n: nat, schedule: seq<Action>, i: nat)
    requires OnTheWay(start, now, n, schedule) && i < n && now.pull == AfterPartitions(i)
    requires |now.logs| == n == |now.offsets|
    ensures OnTheWay(start, now.(pull := Pulling(i, From(now.logs[i], now.offsets[i]))), n,
                     schedule + [if i == 0 then StartRound else NextPartition])
  {
    OneStep(start, n, schedule, if i == 0 then StartRound else NextPartition);
    hide Delivered, BatchNext, Steps, From;
  }

  lemma InvShape(s: State)
    requires Inv(s, |s.logs|)
    ensures |s.offsets| == |s.logs| > 0
  {
  }

  lemma {:induction false} RoundRun(s: State, k: nat) returns (schedule: seq<Action>)
    requires Inv(s, |s.logs|) && s.pull.Idle? && k <= |s.logs| == |s.offsets|
    ensures Round(s, k).pull == AfterPartitions(k)
    ensures OnTheWay(s, Round(s, k), |s.logs|, schedule)
    ensures forall p :: 0 <= p < k ==> Round(s, k).offsets[p] == |s.logs[p]|
  {
    hide Inv, OnTheWay, From, Tagged;
    if k == 0 {
      schedule := [];
      NowhereYet(s, |s.logs|);
    } else {
      schedule := RoundRun(s, k - 1);
      HandedOverIs(Round(s, k - 1), k - 1, From(s.logs[k - 1], s.offsets[k - 1]));
      hide Round, HandedOver;
      schedule := Pulled(s, Round(s, k - 1), |s.logs|, schedule, k - 1);
    }
  }

  lemma NowhereYet(start: State, n: nat)
    requires Inv(start, n)
    ensures OnTheWay(start, start, n, [])
  {
  }

  /** A whole round is a run of the consumer's steps that leaves nothing behind. */
  lemma RoundIsSteps(s: State)
    requires Inv(s, |s.logs|) && s.pull.Idle? && |s.logs| == |s.offsets|
    ensures Inv(Round(s, |s.logs|).(pull := Idle), |s.logs|)
    ensures forall p :: 0 <= p < |s.logs| ==> Round(s, |s.logs|).offsets[p] == |s.logs[p]|
    ensures exists schedule :: ConsumerSteps(schedule)
              && Steps(s, |s.logs|, schedule) == Round(s, |s.logs|).(pull := Idle)
  {
    var n := |s.logs|;
    var schedule := RoundRun(s, n);
    RoundEnds(s, Round(s, n), n, schedule);
    assert ConsumerSteps(schedule + [NextPartition]);
  }

  lemma HandedOverIs(s: State, at: nat, batch: seq<Msg>)
    requires at < |s.offsets|
    ensures HandedOver(s, at, batch)
            == s.(pull := Pulling(at, []), offsets := s.offsets[at := s.offsets[at] + |batch|],
                  handed := s.handed + Tagged(at, batch))
  {
  }

  lemma WithinLog(s: State, n: nat, p: nat)
    requires Inv(s, n) && p < n
    ensures |s.offsets| == n && |s.logs| == n && s.offsets[p] <= |s.logs[p]|
    ensures |From(s.logs[p], s.offsets[p])| == |s.logs[p]| - s.offsets[p]
  {
    assert Delivered(s, p);
    hide HandedFrom;
  }

  /** The state in which all of `batch` was handed over from partition `at`. */
  function HandedOver(s: State, at: nat, batch: seq<Msg>): State
    requires at < |s.offsets|
  {
    s.(pull := Pulling(at, []), offsets := s.offsets[at := s.offsets[at] + |batch|],
       handed := s.handed + Tagged(at, batch))
  }

  lemma {:induction false} HandedBatch(start: State, now: State, n: nat, schedule: seq<Action>)
    returns (more: seq<Action>)
    requires OnTheWay(start, now, n, schedule) && now.pull.Pulling? && now.pull.at < |now.offsets|
    ensures OnTheWay(start, HandedOver(now, now.pull.at, now.pull.batch), n, more)
    decreases |now.pull.batch|
  {
    hide Inv, Steps, HandedOver;
    HandedOverTail(now, now.pull.at);
    if now.pull.batch == [] {
      more := schedule;
    } else {
      OneHandOver(start, now, n, schedule);
      hide OnTheWay, Apply;
      more := HandedBatch(start, AfterOne(now), n, schedule + [HandOver]);
    }
  }

  function AfterOne(s: State): State
    requires s.pull.Pulling? && s.pull.batch != [] && s.pull.at < |s.offsets|
  {
    var at, batch := s.pull.at, s.pull.batch;
    s.(pull := Pulling(at, batch[1..]), offsets := s.offsets[at := s.offsets[at] + 1],
       handed := s.handed + [(at, batch[0])])
  }

  lemma OneHandOver(start: State, now: State, n: nat, schedule: seq<Action>)
    requires OnTheWay(start, now, n, schedule)
    requires now.pull.Pulling? && now.pull.batch != [] && now.pull.at < |now.offsets|
    ensures OnTheWay(start, AfterOne(now), n, schedule + [HandOver])
  {
    OneStep(start, n, schedule, HandOver);
    hide Delivered, BatchNext, Steps;
  }

  lemma HandedOverTail(s: State, at: nat)
    requires s.pull.Pulling? && at == s.pull.at < |s.offsets|
    ensures s.pull.batch == [] ==> HandedOver(s, at, []) == s
    ensures s.pull.batch != [] ==> HandedOver(AfterOne(s), at, s.pull.batch[1..]) == HandedOver(s, at, s.pull.batch)
  {
    var batch := s.pull.batch;
    if batch == [] {
      assert s.handed + Tagged(at, []) == s.handed;
    } else {
      assert Tagged(at, batch) == [(at, batch[0])] + Tagged(at, batch[1..]);
      hide Tagged;
    }
  }

  lemma RoundEnds(start: State, now: State, n: nat, schedule: seq<Action>)
    requires OnTheWay(start, now, n, schedule) && n > 0 && now.pull == Pulling(n - 1, [])
    ensures Inv(start, n) && ConsumerSteps(schedule + [NextPartition])
    ensures Steps(start, n, schedule + [NextPartition]) == now.(pull := Idle)
    ensures Inv(now.(pull := Idle), n)
  {
    OneStep(start, n, schedule, NextPartition);
    hide Delivered, BatchNext, Steps;
  }

  lemma LogLengths(logs: seq<seq<Message>>)
    ensures |LogValues(logs)| == |logs| && forall p :: 0 <= p < |logs| ==> |LogValues(logs)[p]| == |logs[p]|
  {
  }

  lemma ValuesConcat(a: seq<Message>, b: seq<Message>)
    ensures Values(a + b) == Values(a) + Values(b) && |Values(b)| == |b|
  {
  }

  lemma {:induction false} ContentsTagged(handed: seq<(nat, Msg)>, from: nat, msgs: seq<Msg>)
    ensures Contents(handed + Tagged(from, msgs)) == Contents(handed) + msgs
  {
    if msgs == [] {
      assert handed + Tagged(from, []) == handed;
    } else {
      var front, last := msgs[..|msgs| - 1], msgs[|msgs| - 1];
      ContentsTagged(handed, from, front);
      assert handed + Tagged(from, msgs) == handed + Tagged(from, front) + [(from, last)];
      assert (handed + Tagged(from, msgs))[..|handed| + |front|] == handed + Tagged(from, front);
      assert msgs == front + [last];
    }
  }

  ghost predicate ConsumerSteps(schedule: seq<Action>) {
    forall i :: 0 <= i < |schedule| ==> schedule[i] in {StartRound, HandOver, NextPartition}
  }

  lemma OneStep(s: State, n: nat, schedule: seq<Action>, a: Action)
    requires Inv(s, n) && Enabled(Steps(s, n, schedule), a)
    ensures Steps(s, n, schedule + [a]) == Apply(Steps(s, n, schedule), a, n)
  {
    assert (schedule + [a])[..|schedule|] == schedule;
  }

  // ----- Choosing a partition under wrap-around -----

  lemma Wrap32Small(x: int)
    requires -TWO_31 <= x < TWO_31
    ensures Wrap32(x) == x
  {
    Quotient(x + TWO_31, TWO_32, 0, x + TWO_31);
  }

  /** The chosen partition is in range exactly unless the hash is the one value without a magnitude and
      the number of partitions does not divide it; that key goes to partition 0. */
  lemma ChosenInRangeIff(key: seq<Byte>, n: int)
    requires key != [] && 0 < n < TWO_31
    ensures 0 <= PartitionOf(key, n) < n <==> Hash(key) != MIN_INT64 || TWO_63 % n == 0
    ensures Hash(key) == MIN_INT64 && TWO_63 % n != 0 ==> PartitionOf(key, n) < 0 == Clamped(PartitionOf(key, n), n)
  {
    var h := Hash(key);
    if h == MIN_INT64 {
      WrapHigh(TWO_63);
    }
    hide Wrap, Wrap32, Hash;
    Wrap32Small(Remainder(Magnitude(h), n));
  }

  function Pow31(k: nat): nat {
    if k == 0 then 1 else 31 * Pow31(k - 1)
  }

  /** The key's bytes as the coefficients of a polynomial in 31, the last one constant. */
  function Polynomial(key: seq<Byte>): nat {
    if key == [] then 0 else key[0] * Pow31(|key| - 1) + Polynomial(key[1..])
  }

  lemma {:induction false} PolynomialSnoc(key: seq<Byte>, b: Byte)
    ensures Polynomial(key + [b]) == Polynomial(key) * 31 + b
  {
    if key == [] {
      assert [] + [b] == [b] && Pow31(0) == 1;
      assert Polynomial([b]) == b * Pow31(0) + Polynomial([b][1..]);
    } else {
      assert (key + [b])[1..] == key[1..] + [b];
      PolynomialSnoc(key[1..], b);
      var x, p := key[0], Pow31(|key| - 1);
      assert Pow31(|key|) == 31 * p;
      assert x * (31 * p) == (x * p) * 31;
      hide Polynomial, Pow31;
      assert (x * p + Polynomial(key[1..])) * 31 == (x * p) * 31 + Polynomial(key[1..]) * 31;
    }
  }

  lemma WrapHorner(x: int, b: int)
    ensures Wrap(Wrap(Wrap(x) * 31) + b) == Wrap(x * 31 + b)
  {
    var j := WrapTurns(x);
    var k := WrapTurns(Wrap(x) * 31);
    hide Wrap;
    assert Wrap(Wrap(x) * 31) + b == x * 31 + b + TWO_64 * (31 * j + k);
    WrapShift(x * 31 + b, 31 * j + k);
  }

  /** The hash of a key is its polynomial, reduced to a signed 64-bit integer. */
  lemma {:induction false} HashIsPolynomial(key: seq<Byte>)
    ensures Hash(key) == Wrap(Polynomial(key))
    ensures (Hash(key) - Polynomial(key)) % TWO_64 == 0 && -TWO_63 <= Hash(key) < TWO_63
  {
    if key != [] {
      var front, b := key[..|key| - 1], key[|key| - 1];
      assert key == front + [b];
      HashIsPolynomial(front);
      PolynomialSnoc(front, b);
      hide Wrap, Polynomial;
      WrapHorner(Polynomial(front), b);
    }
    hide Hash, Polynomial;
    var k := WrapTurns(Polynomial(key));
    hide Wrap;
    Quotient(Hash(key) - Polynomial(key), TWO_64, k, 0);
  }

  /** Which partition a key gets: the magnitude of its hash modulo the number of partitions, 0 for an empty
      key, and 0 for the hash without a magnitude unless its remainder is 0 anyway. */
  lemma PartitionIs(key: seq<Byte>, n: int)
    requires 0 < n < TWO_31
    ensures Clamped(PartitionOf(key, n), n)
            == if key == [] || Hash(key) == MIN_INT64 then 0
               else (if Hash(key) < 0 then -Hash(key) else Hash(key)) % n
  {
    if key != [] {
      ChosenInRangeIff(key, n);
      var h := Hash(key);
      hide Hash, Clamped;
      if h == MIN_INT64 {
        WrapHigh(TWO_63);
        hide Wrap;
        Wrap32Small(Remainder(MIN_INT64, n));
        assert Remainder(MIN_INT64, n) <= 0;
      } else {
        hide Wrap;
        Wrap32Small(Remainder(if h < 0 then -h else h, n));
      }
    }
  }

  /** The digits of 2^63 in base 31: a key without a magnitude. */
  const MINIMAL_KEY: seq<Byte> := [11, 22, 0, 3, 18, 9, 5, 17, 18, 10, 4, 3, 8]

  lemma HashStep(key: seq<Byte>, i: nat, h: int)
    requires i < |key| && Hash(key[..i]) == h && 0 <= h * 31 < TWO_63
    ensures Hash(key[..i + 1]) == Wrap(h * 31 + key[i])
  {
    assert key[..i + 1][..i] == key[..i];
  }

  lemma MinimalHash(key: seq<Byte>)
    requires key == MINIMAL_KEY
    ensures Hash(key) == MIN_INT64
  {
    assert key[..0] == [] && Hash([]) == 0;
    hide Hash, Wrap;
    FirstDigits(key);
    LastDigits(key);
    assert key[..13] == key;
    WrapHigh(TWO_63);
  }

  lemma FirstDigits(key: seq<Byte>)
    requires key == MINIMAL_KEY && Hash(key[..0]) == 0
    ensures Hash(key[..7]) == 10392488768
  {
    hide Hash;
    HashStep(key, 0, 0);
    HashStep(key, 1, 11);
    HashStep(key, 2, 363);
    HashStep(key, 3, 11253);
    HashStep(key, 4, 348846);
    HashStep(key, 5, 10814244);
    HashStep(key, 6, 335241573);
  }

  lemma LastDigits(key: seq<Byte>)
    requires key == MINIMAL_KEY && Hash(key[..7]) == 10392488768
    ensures Hash(key[..13]) == Wrap(TWO_63)
  {
    hide Hash;
    HashStep(key, 7, 10392488768);
    HashStep(key, 8, 322167151825);
    HashStep(key, 9, 9987181706593);
    HashStep(key, 10, 309602632904393);
    HashStep(key, 11, 9597681620036187);
    HashStep(key, 12, 297528130221121800);
  }

  /** With three partitions that key asks for partition -2. */
  lemma NegativeChoice()
    ensures Hash(MINIMAL_KEY) == MIN_INT64 && PartitionOf(MINIMAL_KEY, 3) == -2
  {
    MinimalHash(MINIMAL_KEY);
    WrapHigh(TWO_63);
    Wrap32Small(-2);
    hide Hash, Wrap, Wrap32;
  }

  // ----- Senders and one consumer, step by step -----

  /** Between two rounds, in the middle of partition `at` with a copied batch, or closed. */
  datatype Pull = Idle | Pulling(at: nat, batch: seq<Msg>) | Stopped

  /** `handed` lists what the consumer put into its channel, with the partition it came from. */
  datatype State = State(logs: seq<seq<Msg>>, sent: seq<Msg>, offsets: seq<nat>, pull: Pull,
                         handed: seq<(nat, Msg)>)

  datatype Action = Send(msg: Msg) | SendTo(msg: Msg, partition: int)
                  | StartRound | HandOver | NextPartition | Stop

  function Start(n: nat): State {
    State(seq(n, _ => []), [], seq(n, _ => 0), Idle, [])
  }

  function From(log: seq<Msg>, offset: nat): seq<Msg> {
    if offset < |log| then log[offset..] else []
  }

  ghost predicate Shaped(s: State, n: nat) {
    n > 0 && |s.logs| == n && |s.offsets| == n && (s.pull.Pulling? ==> s.pull.at < n)
  }

  predicate Enabled(s: State, a: Action) {
    match a
    case Send(_) => true
    case SendTo(_, _) => true
    case StartRound => s.pull.Idle?
    case HandOver => s.pull.Pulling? && s.pull.batch != []
    case NextPartition => s.pull.Pulling? && s.pull.batch == []
    case Stop => true
  }

  function Appended(s: State, msg: Msg, p: nat): State
    requires p < |s.logs|
  {
    s.(logs := s.logs[p := s.logs[p] + [msg]], sent := s.sent + [msg])
  }

  function Apply(s: State, a: Action, n: nat): State
    requires Shaped(s, n) && Enabled(s, a)
  {
    match a
    case Send(msg) => Appended(s, msg, Clamped(PartitionOf(msg.key, n), n))
    case SendTo(msg, p) => Appended(s, msg, Clamped(p, n))
    case StartRound => s.(pull := Pulling(0, From(s.logs[0], s.offsets[0])))
    case HandOver =>
      var at, batch := s.pull.at, s.pull.batch;
      s.(pull := Pulling(at, batch[1..]), offsets := s.offsets[at := s.offsets[at] + 1],
         handed := s.handed + [(at, batch[0])])
    case NextPartition =>
      var at := s.pull.at + 1;
      if at < n then s.(pull := Pulling(at, From(s.logs[at], s.offsets[at]))) else s.(pull := Idle)
    case Stop => s.(pull := Stopped)
  }

  /** What was handed over from partition `p`, in order. */
  function HandedFrom(handed: seq<(nat, Msg)>, p: nat): seq<Msg> {
    if handed == [] then [] else
      var last := handed[|handed| - 1];
      HandedFrom(handed[..|handed| - 1], p) + if last.0 == p then [last.1] else []
  }

  /** What was handed over is, partition by partition, the start of its log up to the offset. */
  ghost predicate Delivered(s: State, p: nat)
    requires p < |s.logs| && |s.offsets| == |s.logs|
  {
    s.offsets[p] <= |s.logs[p]| && HandedFrom(s.handed, p) == s.logs[p][..s.offsets[p]]
  }

  /** The copied batch is what comes next in its log. */
  ghost predicate BatchNext(s: State)
    requires s.pull.Pulling? && s.pull.at < |s.logs| && |s.offsets| == |s.logs|
  {
    var log, offset := s.logs[s.pull.at], s.offsets[s.pull.at];
    offset + |s.pull.batch| <= |log| && s.pull.batch == log[offset..offset + |s.pull.batch|]
  }

  ghost predicate Inv(s: State, n: nat) {
    && Shaped(s, n)
    && (forall p :: 0 <= p < n ==> Delivered(s, p))
    && (s.pull.Pulling? ==> BatchNext(s))
  }

  lemma AppendStep(s: State, n: nat, msg: Msg, p: nat)
    requires Inv(s, n) && p < n
    ensures Inv(Appended(s, msg, p), n)
  {
    var t := Appended(s, msg, p);
    hide HandedFrom;
    assert forall q :: 0 <= q < n ==> Delivered(s, q) && t.logs[q][..t.offsets[q]] == s.logs[q][..s.offsets[q]];
  }

  lemma HandOverStep(s: State, n: nat)
    requires Inv(s, n) && Enabled(s, HandOver)
    ensures Inv(Apply(s, HandOver, n), n)
  {
    var t := Apply(s, HandOver, n);
    var at, msg := s.pull.at, s.pull.batch[0];
    var offset := s.offsets[at];
    assert msg == s.logs[at][offset];
    hide HandedFrom;
    forall p | 0 <= p < n ensures Delivered(t, p) {
      assert Delivered(s, p);
      assert s.logs[at][..offset + 1] == s.logs[at][..offset] + [msg];
      assert HandedFrom(s.handed, p) + [] == HandedFrom(s.handed, p);
    }
  }

  lemma InvStep(s: State, n: nat, a: Action)
    requires Inv(s, n) && Enabled(s, a)
    ensures Inv(Apply(s, a, n), n)
  {
    match a {
      case Send(msg) => AppendStep(s, n, msg, Clamped(PartitionOf(msg.key, n), n));
      case SendTo(msg, p) => AppendStep(s, n, msg, Clamped(p, n));
      case HandOver => HandOverStep(s, n);
      case StartRound => NextBatch(s, n, 0);
      case NextPartition =>
        if s.pull.at + 1 < n {
          NextBatch(s, n, s.pull.at + 1);
        } else {
          SameDelivery(s, Apply(s, a, n), n);
        }
      case Stop => SameDelivery(s, Apply(s, a, n), n);
    }
  }

  lemma SameDelivery(s: State, t: State, n: nat)
    requires Inv(s, n) && t == s.(pull := t.pull)
    ensures forall p :: 0 <= p < n ==> Delivered(t, p)
  {
    hide HandedFrom;
    forall p | 0 <= p < n ensures Delivered(t, p) {
      assert Delivered(s, p);
    }
  }

  lemma NextBatch(s: State, n: nat, at: nat)
    requires Inv(s, n) && at < n
    ensures Inv(s.(pull := Pulling(at, From(s.logs[at], s.offsets[at]))), n)
  {
    SameDelivery(s, s.(pull := Pulling(at, From(s.logs[at], s.offsets[at]))), n);
    assert Delivered(s, at);
  }

  /** The state that a schedule leads to from `s`; steps that are not possible are skipped. */
  ghost function Steps(s: State, n: nat, schedule: seq<Action>): (t: State)
    requires Inv(s, n)
    ensures Inv(t, n)
  {
    if schedule == [] then s else
      var before, a := Steps(s, n, schedule[..|schedule| - 1]), schedule[|schedule| - 1];
      if Enabled(before, a) then
        InvStep(before, n, a);
        Apply(before, a, n)
      else before
  }

  /** The state after a schedule of a fresh topic with `n` partitions. */
  ghost function Run(n: nat, schedule: seq<Action>): (s: State)
    requires n > 0
    ensures Inv(s, n)
  {
    Steps(Start(n), n, schedule)
  }

  /** Delivery: after any interleaving of sends and pulls, what the consumer was handed from a
      partition is exactly the first `offsets[p]` messages of its log: no gap, no repetition. */
  lemma Delivery(n: nat, schedule: seq<Action>, p: nat)
    requires p < n
    ensures var s := Run(n, schedule);
            s.offsets[p] <= |s.logs[p]| && HandedFrom(s.handed, p) == s.logs[p][..s.offsets[p]]
  {
    assert Delivered(Run(n, schedule), p);
  }

  // ----- Messages with equal keys -----

  function WithKey(msgs: seq<Msg>, key: seq<Byte>): seq<Msg> {
    if msgs == [] then [] else
      var last := msgs[|msgs| - 1];
      WithKey(msgs[..|msgs| - 1], key) + if last.key == key then [last] else []
  }

  function Contents(handed: seq<(nat, Msg)>): seq<Msg> {
    if handed == [] then [] else Contents(handed[..|handed| - 1]) + [handed[|handed| - 1].1]
  }

  lemma WithKeySnoc(msgs: seq<Msg>, msg: Msg, key: seq<Byte>)
    ensures WithKey(msgs + [msg], key) == WithKey(msgs, key) + if msg.key == key then [msg] else []
  {
    assert (msgs + [msg])[..|msgs|] == msgs;
  }

  lemma {:induction false} WithKeyPrefix(msgs: seq<Msg>, k: nat, key: seq<Byte>)
    requires k <= |msgs|
    ensures WithKey(msgs[..k], key) <= WithKey(msgs, key)
  {
    if k < |msgs| {
      var front := msgs[..|msgs| - 1];
      WithKeyPrefix(front, k, key);
      assert front[..k] == msgs[..k];
    } else {
      assert msgs[..k] == msgs;
    }
  }

  type Sending = a: Action | Sends(a) witness Send(Msg(0, []))

  predicate Sends(a: Action) {
    a.Send? || a.SendTo?
  }

  /** The partition a send ends up in. */
  function Target(a: Sending, n: nat): nat
    requires n > 0
  {
    Clamped(if a.Send? then PartitionOf(a.msg.key, n) else a.partition, n)
  }

  /** All messages with the key are sent to partition `home`. */
  ghost predicate SentHome(n: nat, schedule: seq<Action>, key: seq<Byte>, home: nat)
    requires n > 0
  {
    forall i :: 0 <= i < |schedule| && Sends(schedule[i]) && schedule[i].msg.key == key ==>
      Target(schedule[i], n) == home
  }

  /** A key's messages are all in partition `home`, in the order they were sent. */
  ghost predicate KeyInv(s: State, n: nat, key: seq<Byte>, home: nat)
    requires n > 0 && |s.logs| == n
  {
    forall p :: 0 <= p < n ==> KeyAt(s, key, home, p)
  }

  /** What the invariant says of one partition. */
  ghost predicate KeyAt(s: State, key: seq<Byte>, home: nat, p: nat)
    requires p < |s.logs|
  {
    WithKey(s.logs[p], key) == if p == home then WithKey(s.sent, key) else []
  }

  lemma SnocEqual(a: seq<Msg>, b: seq<Msg>, end: seq<Msg>)
    ensures a + end == b + end <==> a == b
    ensures a + end == [] <==> a == [] && end == []
  {
    if a + end == b + end {
      assert a == (a + end)[..|a|] && b == (b + end)[..|b|];
    }
  }

  lemma KeyAtAppended(s: State, key: seq<Byte>, home: nat, msg: Msg, p: nat, q: nat)
    requires p < |s.logs| && q < |s.logs| && home < |s.logs|
    ensures p == home || msg.key != key ==> (KeyAt(Appended(s, msg, p), key, home, q) <==> KeyAt(s, key, home, q))
    ensures p != home && msg.key == key && q == p ==> !KeyAt(Appended(s, msg, p), key, home, q)
  {
    hide WithKey;
    var end := if msg.key == key then [msg] else [];
    WithKeySnoc(s.sent, msg, key);
    WithKeySnoc(s.logs[p], msg, key);
    SnocEqual(WithKey(s.logs[p], key), WithKey(s.sent, key), end);
    var nothing: seq<Msg> := [];
    assert WithKey(s.sent, key) + nothing == WithKey(s.sent, key);
    assert WithKey(s.logs[p], key) + nothing == WithKey(s.logs[p], key);
  }

  lemma KeyAppendIff(s: State, n: nat, key: seq<Byte>, home: nat, msg: Msg, p: nat)
    requires n > 0 && |s.logs| == n && p < n && home < n
    ensures KeyInv(Appended(s, msg, p), n, key, home) <==> KeyInv(s, n, key, home) && (msg.key == key ==> p == home)
  {
    forall q | 0 <= q < n
      ensures p == home || msg.key != key ==> (KeyAt(Appended(s, msg, p), key, home, q) <==> KeyAt(s, key, home, q))
    {
      KeyAtAppended(s, key, home, msg, p, q);
    }
    KeyAtAppended(s, key, home, msg, p, p);
    hide KeyAt;
  }

  /** A key's messages stay together, in order, exactly if they are all sent to one partition: its own
      when sent by key, so `SendWithPartition` must name that one. */
  lemma {:induction false} KeysStayTogetherIff(n: nat, schedule: seq<Action>, key: seq<Byte>, home: nat)
    requires home < n
    ensures KeyInv(Run(n, schedule), n, key, home) <==> SentHome(n, schedule, key, home)
  {
    if schedule != [] {
      var front, a := schedule[..|schedule| - 1], schedule[|schedule| - 1];
      assert schedule == front + [a];
      KeysStayTogetherIff(n, front, key, home);
      var s := Run(n, front);
      hide WithKey, PartitionOf, Clamped, Inv, KeyInv;
      if Sends(a) {
        KeyAppendIff(s, n, key, home, a.msg, Target(a, n));
      } else {
        SameKeys(s, Run(n, schedule), n, key, home);
      }
    }
  }

  lemma SameKeys(s: State, t: State, n: nat, key: seq<Byte>, home: nat)
    requires n > 0 && |s.logs| == n && t.logs == s.logs && t.sent == s.sent
    ensures KeyInv(t, n, key, home) <==> KeyInv(s, n, key, home)
  {
    assert forall p :: 0 <= p < n ==> (KeyAt(t, key, home, p) <==> KeyAt(s, key, home, p));
  }

  lemma {:induction false} OnlyFromOwn(handed: seq<(nat, Msg)>, key: seq<Byte>, home: nat)
    requires forall i :: 0 <= i < |handed| && handed[i].1.key == key ==> handed[i].0 == home
    ensures WithKey(Contents(handed), key) == WithKey(HandedFrom(handed, home), key)
  {
    if handed != [] {
      var front, last := handed[..|handed| - 1], handed[|handed| - 1];
      OnlyFromOwn(front, key, home);
      assert Contents(handed) == Contents(front) + [last.1];
      var own := HandedFrom(front, home);
      assert HandedFrom(handed, home) == if last.0 == home then own + [last.1] else own by {
        assert own + [] == own;
      }
      WithKeySnoc(Contents(front), last.1, key);
      WithKeySnoc(own, last.1, key);
      hide *;
      assert WithKey(own, key) + [] == WithKey(own, key);
    }
  }

  lemma {:induction false} HandedMember(handed: seq<(nat, Msg)>, i: nat)
    requires i < |handed|
    ensures handed[i].1 in HandedFrom(handed, handed[i].0)
  {
    if i < |handed| - 1 {
      HandedMember(handed[..|handed| - 1], i);
    }
  }

  lemma {:induction false} WithKeyMember(msgs: seq<Msg>, msg: Msg, key: seq<Byte>)
    requires msg in msgs && msg.key == key
    ensures msg in WithKey(msgs, key)
  {
    var front := msgs[..|msgs| - 1];
    assert msgs == front + [msgs[|msgs| - 1]];
    if msg in front {
      WithKeyMember(front, msg, key);
    }
  }

  lemma HandedFromHome(s: State, n: nat, key: seq<Byte>, home: nat, i: nat)
    requires Inv(s, n) && KeyInv(s, n, key, home) && i < |s.handed| && s.handed[i].1.key == key
    requires s.handed[i].0 < n
    ensures s.handed[i].0 == home
  {
    var p, msg := s.handed[i].0, s.handed[i].1;
    HandedMember(s.handed, i);
    assert Delivered(s, p) && KeyAt(s, key, home, p);
    assert msg in s.logs[p];
    WithKeyMember(s.logs[p], msg, key);
  }

  lemma {:induction false} HandedInRange(n: nat, schedule: seq<Action>)
    requires n > 0
    ensures forall i :: 0 <= i < |Run(n, schedule).handed| ==> Run(n, schedule).handed[i].0 < n
  {
    if schedule != [] {
      var front := schedule[..|schedule| - 1];
      HandedInRange(n, front);
      assert Shaped(Run(n, front), n);
      hide Inv;
    }
  }

  /** Messages with equal keys sent to one partition reach the consumer in the order they were sent,
      without a gap or a repetition: they are at all times a prefix of what was sent. */
  lemma EqualKeysInOrder(n: nat, schedule: seq<Action>, key: seq<Byte>, home: nat)
    requires home < n && SentHome(n, schedule, key, home)
    ensures var s := Run(n, schedule);
            WithKey(Contents(s.handed), key) <= WithKey(s.sent, key)
  {
    var s := Run(n, schedule);
    KeysStayTogetherIff(n, schedule, key, home);
    HandedInRange(n, schedule);
    hide Run, WithKey, Contents, PartitionOf, Clamped, HandedFrom;
    forall i | 0 <= i < |s.handed| && s.handed[i].1.key == key ensures s.handed[i].0 == home {
      HandedFromHome(s, n, key, home, i);
    }
    OnlyFromOwn(s.handed, key, home);
    assert Delivered(s, home) && KeyAt(s, key, home, home);
    WithKeyPrefix(s.logs[home], s.offsets[home], key);
  }
}
