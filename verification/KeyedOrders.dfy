/**
 When messages with equal keys arrive in order: over all interleavings of a given series of sends with
 the consumer's steps.
 */
module KeyedOrders {
  import opened MemoryLogs

  /** The sends of a schedule, in order. */
  function SendsOf(schedule: seq<Action>): seq<Sending> {
    if schedule == [] then [] else
      SendsOf(schedule[..|schedule| - 1])
      + if Sends(schedule[|schedule| - 1]) then [schedule[|schedule| - 1]] else []
  }

  ghost predicate InOrder(s: State, key: seq<Byte>) {
    WithKey(Contents(s.handed), key) <= WithKey(s.sent, key)
  }

  /** However the consumer's steps fall between the sends, it is handed the key's messages in the order
      they were sent. */
  ghost predicate AlwaysInOrder(n: nat, sends: seq<Sending>, key: seq<Byte>)
    requires n > 0
  {
    forall schedule :: SendsOf(schedule) == sends ==> InOrder(Run(n, schedule), key)
  }

  /** All messages with the key are sent to one partition. */
  ghost predicate OnePartition(n: nat, sends: seq<Sending>, key: seq<Byte>)
    requires n > 0
  {
    forall i, j :: 0 <= i < j < |sends| && sends[i].msg.key == key && sends[j].msg.key == key ==>
      Target(sends[i], n) == Target(sends[j], n)
  }

  lemma {:induction false} SendsOfMember(schedule: seq<Action>, i: nat)
    requires i < |schedule| && Sends(schedule[i])
    ensures schedule[i] in SendsOf(schedule)
  {
    if i < |schedule| - 1 {
      SendsOfMember(schedule[..|schedule| - 1], i);
    }
  }

  lemma OnePartitionInOrder(n: nat, sends: seq<Sending>, key: seq<Byte>, schedule: seq<Action>)
    requires n > 0
    requires OnePartition(n, sends, key) && SendsOf(schedule) == sends
    ensures InOrder(Run(n, schedule), key)
  {
    hide Run, Target;
    var home: nat := 0;
    if k :| 0 <= k < |sends| && sends[k].msg.key == key {
      home := Target(sends[k], n);
      TargetInRange(sends[k], n);
    }
    forall i | 0 <= i < |schedule| && Sends(schedule[i]) && schedule[i].msg.key == key
      ensures Target(schedule[i], n) == home
    {
      SendsOfMember(schedule, i);
      var j :| 0 <= j < |sends| && sends[j] == schedule[i];
    }
    EqualKeysInOrder(n, schedule, key, home);
  }

  lemma TargetInRange(a: Sending, n: nat)
    requires n > 0
    ensures Target(a, n) < n
  {
  }

  // ----- Two partitions: an interleaving that overtakes -----

  /** The consumer goes round empty partitions until it stands before `q`. */
  function Approach(q: nat): seq<Action> {
    if q == 0 then [] else Approach(q - 1) + [if q == 1 then StartRound else NextPartition]
  }

  function Standing(n: nat, q: nat): State {
    Start(n).(pull := AfterPartitions(q))
  }

  lemma {:induction false} Approached(n: nat, q: nat)
    requires q < n
    ensures Run(n, Approach(q)) == Standing(n, q) && SendsOf(Approach(q)) == []
  {
    if q > 0 {
      var a := if q == 1 then StartRound else NextPartition;
      Approached(n, q - 1);
      hide Run, Inv, Enabled, Apply, Standing;
    }
  }

  /** The state after sends alone. */
  ghost predicate Filled(s: State, n: nat, q: nat, sends: seq<Sending>)
    requires n > 0
  {
    && |s.logs| == n && s.offsets == Start(n).offsets && s.pull == AfterPartitions(q) && s.handed == []
    && |s.sent| == |sends| && (forall i :: 0 <= i < |sends| ==> s.sent[i] == sends[i].msg)
    && (forall p, m :: 0 <= p < n ==> (m in s.logs[p] <==> SentTo(sends, n, p, m)))
  }

  ghost predicate SentTo(sends: seq<Sending>, n: nat, p: nat, m: Msg)
    requires n > 0
  {
    exists i :: 0 <= i < |sends| && sends[i].msg == m && Target(sends[i], n) == p
  }

  lemma SentToSnoc(sends: seq<Sending>, a: Sending, n: nat, p: nat, m: Msg)
    requires n > 0
    ensures SentTo(sends + [a], n, p, m) <==> SentTo(sends, n, p, m) || (a.msg == m && Target(a, n) == p)
  {
    hide Target;
    var all := sends + [a];
    assert all[|sends|] == a;
    if SentTo(sends, n, p, m) {
      var i :| 0 <= i < |sends| && sends[i].msg == m && Target(sends[i], n) == p;
      assert all[i] == sends[i];
    }
  }

  lemma FilledSnoc(s: State, n: nat, q: nat, sends: seq<Sending>, a: Sending)
    requires n > 0 && Shaped(s, n)
    requires Filled(s, n, q, sends)
    ensures Filled(Apply(s, a, n), n, q, sends + [a])
  {
    var t := Apply(s, a, n);
    var p0 := Target(a, n);
    assert t == Appended(s, a.msg, p0);
    hide Target, SentTo, Apply;
    forall p, m | 0 <= p < n ensures m in t.logs[p] <==> SentTo(sends + [a], n, p, m) {
      SentToSnoc(sends, a, n, p, m);
    }
  }

  lemma {:induction false} Fill(n: nat, q: nat, sends: seq<Sending>)
    requires q < n
    ensures Filled(Run(n, Approach(q) + sends), n, q, sends)
    ensures SendsOf(Approach(q) + sends) == sends
  {
    if sends == [] {
      Approached(n, q);
      assert Approach(q) + sends == Approach(q);
      StandingFilled(n, q);
    } else {
      var front, a := sends[..|sends| - 1], sends[|sends| - 1];
      Fill(n, q, front);
      assert sends == front + [a] && Approach(q) + sends == Approach(q) + front + [a];
      hide Run, Inv, Filled, Apply, SendsOf, Approach;
      FilledSnoc(Run(n, Approach(q) + front), n, q, front, a);
    }
  }

  lemma StandingFilled(n: nat, q: nat)
    requires q < n
    ensures Filled(Standing(n, q), n, q, [])
  {
  }

  /** Entering a partition and handing over all of it. */
  lemma Emptied(n: nat, q: nat, schedule: seq<Action>, s: State) returns (more: seq<Action>)
    requires q < n && s == Run(n, schedule) && s.pull == AfterPartitions(q) && s.handed == []
    requires |s.logs| == n && s.offsets == Start(n).offsets
    ensures SendsOf(more) == SendsOf(schedule)
    ensures Run(n, more).sent == s.sent && Contents(Run(n, more).handed) == s.logs[q]
  {
    var enter := if q == 0 then StartRound else NextPartition;
    var t := Run(n, schedule + [enter]);
    assert t.pull.Pulling? && t.pull.at == q && t.pull.batch == s.logs[q] by {
      assert s.logs[q][0..] == s.logs[q];
    }
    hide Run, Inv;
    more := HandedAll(n, schedule + [enter], t);
    assert [] + s.logs[q] == s.logs[q];
  }

  lemma {:induction false} HandedAll(n: nat, schedule: seq<Action>, s: State) returns (more: seq<Action>)
    requires n > 0 && s == Run(n, schedule) && s.pull.Pulling?
    ensures SendsOf(more) == SendsOf(schedule)
    ensures Run(n, more).sent == s.sent && Contents(Run(n, more).handed) == Contents(s.handed) + s.pull.batch
    decreases |s.pull.batch|
  {
    var batch := s.pull.batch;
    if batch == [] {
      more := schedule;
    } else {
      var t := Run(n, schedule + [HandOver]);
      assert t.handed == s.handed + [(s.pull.at, batch[0])] && t.pull.batch == batch[1..] && t.sent == s.sent;
      assert (s.handed + [(s.pull.at, batch[0])])[..|s.handed|] == s.handed;
      hide Run, Inv;
      more := HandedAll(n, schedule + [HandOver], t);
      assert Contents(s.handed) + [batch[0]] + batch[1..] == Contents(s.handed) + batch;
    }
  }

  lemma {:induction false} WithKeyConcat(a: seq<Msg>, b: seq<Msg>, key: seq<Byte>)
    ensures WithKey(a + b, key) == WithKey(a, key) + WithKey(b, key)
    decreases |b|
  {
    if b == [] {
      assert a + b == a;
    } else {
      var front, last := b[..|b| - 1], b[|b| - 1];
      assert a + b == a + front + [last] && b == front + [last];
      WithKeyConcat(a, front, key);
      WithKeySnoc(a + front, last, key);
      WithKeySnoc(front, last, key);
    }
  }

  lemma {:induction false} OnlyMembers(msgs: seq<Msg>, key: seq<Byte>, m: Msg)
    requires m in WithKey(msgs, key)
    ensures m in msgs
  {
    var front := msgs[..|msgs| - 1];
    if m in WithKey(front, key) {
      OnlyMembers(front, key, m);
      assert msgs == front + [msgs[|msgs| - 1]];
    }
  }

  /** A later message that arrives without an earlier one is out of order. */
  lemma Overtaken(log: seq<Msg>, sent: seq<Msg>, i: nat, j: nat, key: seq<Byte>)
    requires i < j < |sent| && sent[i].key == key == sent[j].key
    requires forall k :: 0 <= k < j ==> sent[k] != sent[j]
    requires sent[j] in log && sent[i] !in log
    ensures !(WithKey(log, key) <= WithKey(sent, key))
  {
    var before := sent[..j];
    assert sent == before + sent[j..];
    WithKeyConcat(before, sent[j..], key);
    WithKeyMember(log, sent[j], key);
    assert before[i] == sent[i];
    WithKeyMember(before, sent[i], key);
    var got, early := WithKey(log, key), WithKey(before, key);
    if sent[j] in early {
      OnlyMembers(before, key, sent[j]);
    }
    if sent[i] in got {
      OnlyMembers(log, key, sent[i]);
    }
    hide WithKey;
    PrefixOfBoth(got, early, WithKey(sent[j..], key));
  }

  lemma PrefixOfBoth(a: seq<Msg>, b: seq<Msg>, c: seq<Msg>)
    ensures a <= b + c ==> a <= b || b <= a
  {
    if a <= b + c && |a| <= |b| {
      assert a == (b + c)[..|a|] == b[..|a|];
    } else if a <= b + c {
      assert b == (b + c)[..|b|] == a[..|b|];
    }
  }

  lemma Overtaking(n: nat, sends: seq<Sending>, key: seq<Byte>, i: nat, j: nat) returns (schedule: seq<Action>)
    requires n > 0
    requires forall k, l :: 0 <= k < l < |sends| ==> sends[k].msg != sends[l].msg
    requires i < j < |sends| && sends[i].msg.key == key == sends[j].msg.key
    requires Target(sends[i], n) != Target(sends[j], n)
    ensures SendsOf(schedule) == sends && !InOrder(Run(n, schedule), key)
  {
    var q := Target(sends[j], n);
    TargetInRange(sends[j], n);
    Fill(n, q, sends);
    hide Run, Inv, Target, WithKey, Contents;
    var s := Run(n, Approach(q) + sends);
    schedule := Emptied(n, q, Approach(q) + sends, s);
    assert SentTo(sends, n, q, sends[j].msg);
    assert !SentTo(sends, n, q, sends[i].msg);
    Overtaken(s.logs[q], s.sent, i, j, key);
  }

  /** Messages with equal keys arrive in order in every interleaving exactly if all of them are sent to
      one partition, whichever it is. */
  lemma KeyOrderIff(n: nat, sends: seq<Sending>, key: seq<Byte>)
    requires n > 0
    requires forall i, j :: 0 <= i < j < |sends| ==> sends[i].msg != sends[j].msg
    ensures AlwaysInOrder(n, sends, key) <==> OnePartition(n, sends, key)
  {
    hide InOrder, Run, Target;
    if OnePartition(n, sends, key) {
      forall schedule | SendsOf(schedule) == sends ensures InOrder(Run(n, schedule), key) {
        OnePartitionInOrder(n, sends, key, schedule);
      }
    } else {
      var i, j :| 0 <= i < j < |sends| && sends[i].msg.key == key && sends[j].msg.key == key
                  && Target(sends[i], n) != Target(sends[j], n);
      var schedule := Overtaking(n, sends, key, i, j);
    }
  }

  /** A message sent by key, then one with the same key that names the other of two partitions: the second
      can arrive first. */
  lemma NamedPartitionOvertakes(m: Msg, k: Msg)
    requires m.key == [1] == k.key && m != k
    ensures !AlwaysInOrder(2, [Send(m), SendTo(k, 0)], [1])
  {
    var sends: seq<Sending> := [Send(m), SendTo(k, 0)];
    assert Target(sends[0], 2) == 1 by {
      assert m.key[..0] == [];
      assert Hash(m.key) == 1;
    }
    assert Target(sends[1], 2) == 0;
    hide Target, AlwaysInOrder;
    assert !OnePartition(2, sends, [1]);
    KeyOrderIff(2, sends, [1]);
  }
}
