/**
 `MapReduce` as a system of interleaved steps.

 The main goroutine first spawns one worker per item, taking a semaphore slot for each, and only
 then starts to reduce.  A worker maps its item, puts the result into the bounded channel, gives
 its slot back and signs off; a failed item skips the channel.  When all have signed off a closer
 goroutine closes the channel.  A reduce error ends the receiving loop; a cancelled context lets the
 spawning loop return and a worker drop its result.  Every lock-protected section and every channel
 operation is one step.
 */
module MapReduces {
  import opened Results

  /** Where the worker of one item is.  `Leaving` still holds its slot, `Released` no longer does. */
  datatype Phase = Waiting | Mapping | Sending | Leaving | Released | Gone

  datatype Config<!T, !U, !R> =
    Config(source: seq<T>, mapFunc: T -> Option<U>, reduceFunc: (R, U) -> R, reduceFails: (R, U) -> bool,
           zero: R, concurrency: nat, bufferSize: nat)
  {
    /** What the options guarantee. */
    predicate Valid() {
      concurrency > 0 && bufferSize > 0
    }

    predicate Succeeds(i: nat) {
      i < |source| && mapFunc(source[i]).Some?
    }

    function Mapped(i: nat): U
      requires Succeeds(i)
    {
      mapFunc(source[i]).value
    }

    /** The items among the first `k` that map without an error, in source order. */
    function Successes(k: nat): (r: seq<nat>)
      requires k <= |source|
      ensures forall j :: 0 <= j < |r| ==> r[j] < k && Succeeds(r[j])
    {
      if k == 0 then [] else Successes(k - 1) + if Succeeds(k - 1) then [k - 1] else []
    }

    /** Reducing the mapped items in the given order, from the zero value. */
    function Fold(items: seq<nat>): R
      requires forall j :: 0 <= j < |items| ==> Succeeds(items[j])
    {
      if items == [] then zero else
        reduceFunc(Fold(items[..|items| - 1]), Mapped(items[|items| - 1]))
    }

    /** Reducing the `j`-th of these items gives an error, after those before it. */
    predicate FailsAt(items: seq<nat>, j: nat)
      requires j < |items| && forall i :: 0 <= i < |items| ==> Succeeds(items[i])
    {
      reduceFails(Fold(items[..j]), Mapped(items[j]))
    }
  }

  ghost predicate LeftCommutative<T, U(!new), R(!new)>(c: Config<T, U, R>) {
    forall acc, x, y :: c.reduceFunc(c.reduceFunc(acc, x), y) == c.reduceFunc(c.reduceFunc(acc, y), x)
  }

  datatype Error = NoError | MapError(item: nat) | ReduceError(item: nat) | ContextError

  datatype Outcome<R> = Outcome(acc: R, error: Error)

  /** `next` is the item the main goroutine spawns next; `received` lists the items reduced so far,
      `dropped` those whose results were given up.  `halted` says that the last reduction failed. */
  datatype State<R> = State(phases: seq<Phase>, next: nat, sem: nat, wg: nat, channel: seq<nat>,
                            closed: bool, received: seq<nat>, acc: R, errors: seq<nat>, dropped: seq<nat>,
                            halted: bool, cancelled: bool, outcome: Option<Outcome<R>>)
  {
    predicate Returned() {
      outcome.Some?
    }
  }

  datatype Action = Spawn | MapItem(i: nat) | Send(i: nat) | Drop(i: nat) | Release(i: nat) | SignOff(i: nat)
                  | Close | Receive | Return | Abort | Cancel

  function Start<T, U, R>(c: Config<T, U, R>): State<R> {
    State(seq(|c.source|, _ => Waiting), 0, 0, 0, [], false, [], c.zero, [], [], false, false, None)
  }

  predicate Enabled<T, U, R>(c: Config<T, U, R>, s: State<R>, a: Action) {
    match a
    case Spawn => s.next < |s.phases| && s.sem < c.concurrency && !s.Returned()
    case MapItem(i) => i < |s.phases| && s.phases[i] == Mapping
    case Send(i) => i < |s.phases| && s.phases[i] == Sending && |s.channel| < c.bufferSize
    case Drop(i) => i < |s.phases| && s.phases[i] == Sending && s.cancelled
    case Release(i) => i < |s.phases| && s.phases[i] == Leaving
    case SignOff(i) => i < |s.phases| && s.phases[i] == Released
    case Close => s.next == |s.phases| && s.wg == 0 && !s.closed
    case Receive => s.next == |s.phases| && s.channel != [] && !s.halted && !s.Returned()
    case Return => s.next == |s.phases| && (s.halted || (s.channel == [] && s.closed)) && !s.Returned()
    case Abort => s.next < |s.phases| && s.cancelled && !s.Returned()
    case Cancel => !s.cancelled
  }

  /** What the end of `MapReduce` hands back: the first recorded map error goes before a reduce error. */
  function Ending<R>(s: State<R>): Outcome<R>
    requires s.halted ==> s.received != []
  {
    Outcome(s.acc, if s.errors != [] then MapError(s.errors[0])
                   else if s.halted then ReduceError(s.received[|s.received| - 1])
                   else NoError)
  }

  function Apply<T, U, R>(c: Config<T, U, R>, s: State<R>, a: Action): State<R>
    requires Inv(c, s) && Enabled(c, s, a)
  {
    match a
    case Spawn => s.(phases := s.phases[s.next := Mapping], next := s.next + 1, sem := s.sem + 1, wg := s.wg + 1)
    case MapItem(i) =>
      if c.Succeeds(i) then s.(phases := s.phases[i := Sending])
      else s.(phases := s.phases[i := Leaving], errors := s.errors + [i])
    case Send(i) => s.(phases := s.phases[i := Leaving], channel := s.channel + [i])
    case Drop(i) => s.(phases := s.phases[i := Leaving], dropped := s.dropped + [i])
    case Release(i) => s.(phases := s.phases[i := Released], sem := if s.sem > 0 then s.sem - 1 else 0)
    case SignOff(i) => s.(phases := s.phases[i := Gone], wg := if s.wg > 0 then s.wg - 1 else 0)
    case Close => s.(closed := true)
    case Receive =>
      var item := c.Mapped(s.channel[0]);
      s.(channel := s.channel[1..], received := s.received + [s.channel[0]],
         acc := c.reduceFunc(s.acc, item), halted := c.reduceFails(s.acc, item))
    case Return => s.(outcome := Some(Ending(s)))
    case Abort => s.(outcome := Some(Outcome(c.zero, ContextError)))
    case Cancel => s.(cancelled := true)
  }

  // ----- Counting workers -----

  /** What is being counted: slots held, workers not signed off, results still owed to the channel,
      and steps still to be made. */
  datatype Kind = Slots | Live | Owed | Steps

  function Weight(kind: Kind, ok: bool, p: Phase): nat {
    match kind
    case Slots => if p in {Mapping, Sending, Leaving} then 1 else 0
    case Live => if p in {Mapping, Sending, Leaving, Released} then 1 else 0
    case Owed => if ok && p in {Mapping, Sending} then 1 else 0
    case Steps => if p == Waiting then 6 else if p == Mapping then 5 else if p == Sending then 4
                  else if p == Leaving then 2 else if p == Released then 1 else 0
  }

  function Count<T, U, R>(kind: Kind, c: Config<T, U, R>, phases: seq<Phase>, k: nat): nat
    requires k <= |phases|
  {
    if k == 0 then 0 else Count(kind, c, phases, k - 1) + Weight(kind, c.Succeeds(k - 1), phases[k - 1])
  }

  lemma {:induction false} CountSet<T, U, R>(kind: Kind, c: Config<T, U, R>, phases: seq<Phase>, i: nat, p: Phase, k: nat)
    requires i < |phases| && k <= |phases|
    ensures Count(kind, c, phases[i := p], k)
            == Count(kind, c, phases, k)
               + if i < k then Weight(kind, c.Succeeds(i), p) - Weight(kind, c.Succeeds(i), phases[i]) else 0
  {
    if k > 0 {
      CountSet(kind, c, phases, i, p, k - 1);
    }
  }

  lemma {:induction false} CountZero<T, U, R>(kind: Kind, c: Config<T, U, R>, phases: seq<Phase>, k: nat)
    requires k <= |phases|
    requires forall i :: 0 <= i < k ==> Weight(kind, c.Succeeds(i), phases[i]) == 0
    ensures Count(kind, c, phases, k) == 0
  {
    if k > 0 {
      CountZero(kind, c, phases, k - 1);
    }
  }

  lemma {:induction false} CountNonzero<T, U, R>(kind: Kind, c: Config<T, U, R>, phases: seq<Phase>, i: nat, k: nat)
    requires i < k <= |phases| && Weight(kind, c.Succeeds(i), phases[i]) > 0
    ensures Count(kind, c, phases, k) > 0
  {
    if i < k - 1 {
      CountNonzero(kind, c, phases, i, k - 1);
    }
  }

  /** A worker that owes a result holds a slot. */
  lemma {:induction false} OwedHoldsSlot<T, U, R>(c: Config<T, U, R>, phases: seq<Phase>, k: nat)
    requires k <= |phases|
    ensures Count(Owed, c, phases, k) <= Count(Slots, c, phases, k)
    ensures (forall i :: 0 <= i < k && phases[i] in {Mapping, Sending, Leaving} ==> c.Succeeds(i) && phases[i] == Sending)
            ==> Count(Owed, c, phases, k) == Count(Slots, c, phases, k)
  {
    if k > 0 {
      OwedHoldsSlot(c, phases, k - 1);
    }
  }

  // ----- The invariant -----

  ghost predicate NoRepeats(items: seq<nat>) {
    forall i, j :: 0 <= i < j < |items| ==> items[i] != items[j]
  }

  predicate Finished(p: Phase) {
    p in {Leaving, Released, Gone}
  }

  /** The counters count what they should. */
  ghost predicate CountersInv<T, U, R>(c: Config<T, U, R>, s: State<R>) {
    && s.next <= |c.source|
    && s.sem == Count(Slots, c, s.phases, |s.phases|) <= c.concurrency
    && s.wg == Count(Live, c, s.phases, |s.phases|)
    && |c.Successes(s.next)| == Count(Owed, c, s.phases, |s.phases|) + |s.channel| + |s.received| + |s.dropped|
    && |s.channel| <= c.bufferSize
  }

  /** A finished item is in exactly one of channel, reduced part, dropped results and error list, once. */
  ghost predicate ItemsInv<T, U, R>(c: Config<T, U, R>, s: State<R>) {
    && NoRepeats(s.received + s.channel) && NoRepeats(s.dropped) && NoRepeats(s.errors)
    && (forall i: nat :: i in s.received + s.channel <==>
          i < |s.phases| && c.Succeeds(i) && Finished(s.phases[i]) && i !in s.dropped)
    && (forall i: nat :: i in s.dropped ==> i < |s.phases| && c.Succeeds(i) && Finished(s.phases[i]))
    && (forall i: nat :: i in s.errors <==> i < |s.phases| && !c.Succeeds(i) && Finished(s.phases[i]))
  }

  /** The accumulator is the fold of what was received, and the loop ends with the first failure. */
  ghost predicate ReduceInv<T, U, R>(c: Config<T, U, R>, s: State<R>) {
    && (forall j :: 0 <= j < |s.received| ==> c.Succeeds(s.received[j]))
    && s.acc == c.Fold(s.received)
    && (s.halted ==> s.received != [])
    && (forall j :: 0 <= j < |s.received| ==> (c.FailsAt(s.received, j) <==> s.halted && j == |s.received| - 1))
  }

  /** What was returned, and what it means for the state since. */
  ghost predicate OutcomeInv<T, U, R>(c: Config<T, U, R>, s: State<R>) {
    s.Returned() ==>
      var o := s.outcome.value;
      if s.next < |c.source| then s.cancelled && o == Outcome(c.zero, ContextError) else
        && o.acc == s.acc && (s.halted || (s.closed && s.channel == []))
        && match o.error
           case NoError => !s.halted && s.errors == []
           case MapError(i) => i in s.errors
           case ReduceError(i) => s.halted && s.received != [] && i == s.received[|s.received| - 1]
           case ContextError => false
  }

  /** How far the goroutines have come. */
  ghost predicate ShapeInv<T, U, R>(c: Config<T, U, R>, s: State<R>) {
    && |s.phases| == |c.source| && s.next <= |c.source|
    && (forall i :: 0 <= i < |s.phases| ==> (s.phases[i] == Waiting <==> i >= s.next))
    && (forall i :: 0 <= i < |s.phases| && s.phases[i] == Sending ==> c.Succeeds(i))
    && (forall j :: 0 <= j < |s.channel| ==> c.Succeeds(s.channel[j]))
    && (s.next < |c.source| ==> s.received == [])
    && (s.closed ==> s.next == |c.source| && s.wg == 0)
    && (s.dropped != [] ==> s.cancelled)
  }

  ghost predicate Inv<T, U, R>(c: Config<T, U, R>, s: State<R>) {
    && ShapeInv(c, s)
    && CountersInv(c, s)
    && ItemsInv(c, s)
    && ReduceInv(c, s)
    && OutcomeInv(c, s)
  }

  lemma InvStart<T, U, R>(c: Config<T, U, R>)
    ensures Inv(c, Start(c))
  {
    var s := Start(c);
    CountZero(Slots, c, s.phases, |s.phases|);
    CountZero(Live, c, s.phases, |s.phases|);
    CountZero(Owed, c, s.phases, |s.phases|);
  }

  /** The worker a step moves, and where to. */
  function Move<T, U, R>(c: Config<T, U, R>, s: State<R>, a: Action): Option<(nat, Phase)> {
    match a
    case Spawn => Some((s.next, Mapping))
    case MapItem(i) => Some((i, if c.Succeeds(i) then Sending else Leaving))
    case Send(i) => Some((i, Leaving))
    case Drop(i) => Some((i, Leaving))
    case Release(i) => Some((i, Released))
    case SignOff(i) => Some((i, Gone))
    case _ => None
  }

  /** The counts after a worker moved. */
  lemma CountsStep<T, U, R>(c: Config<T, U, R>, s: State<R>, i: nat, p: Phase, kind: Kind)
    requires i < |s.phases|
    ensures Count(kind, c, s.phases[i := p], |s.phases|)
            == Count(kind, c, s.phases, |s.phases|)
               + Weight(kind, c.Succeeds(i), p) - Weight(kind, c.Succeeds(i), s.phases[i])
    ensures Weight(kind, c.Succeeds(i), s.phases[i]) > 0 ==> Count(kind, c, s.phases, |s.phases|) > 0
  {
    CountSet(kind, c, s.phases, i, p, |s.phases|);
    if Weight(kind, c.Succeeds(i), s.phases[i]) > 0 {
      CountNonzero(kind, c, s.phases, i, |s.phases|);
    }
  }

  lemma CountersStep<T, U, R>(c: Config<T, U, R>, s: State<R>, a: Action, i: nat, p: Phase)
    requires Inv(c, s) && Enabled(c, s, a) && Move(c, s, a) == Some((i, p))
    ensures Apply(c, s, a).phases == s.phases[i := p]
    ensures CountersInv(c, Apply(c, s, a))
  {
    hide ItemsInv, ReduceInv, OutcomeInv, Count;
    CountsStep(c, s, i, p, Slots);
    CountsStep(c, s, i, p, Live);
    CountsStep(c, s, i, p, Owed);
  }

  /** A failed item enters the error list. */
  lemma ItemFailed<T, U, R>(c: Config<T, U, R>, s: State<R>, t: State<R>, i: nat)
    requires ItemsInv(c, s) && i < |s.phases| && !Finished(s.phases[i]) && !c.Succeeds(i)
    requires t.phases == s.phases[i := Leaving] && t.errors == s.errors + [i] && t.dropped == s.dropped
    requires t.received == s.received && t.channel == s.channel
    ensures ItemsInv(c, t)
  {
    assert i !in s.errors;
  }

  /** A result enters the channel. */
  lemma ItemSent<T, U, R>(c: Config<T, U, R>, s: State<R>, t: State<R>, i: nat)
    requires ItemsInv(c, s) && i < |s.phases| && !Finished(s.phases[i]) && c.Succeeds(i)
    requires t.phases == s.phases[i := Leaving] && t.errors == s.errors && t.dropped == s.dropped
    requires t.received == s.received && t.channel == s.channel + [i]
    ensures ItemsInv(c, t)
  {
    assert i !in s.received + s.channel && i !in s.dropped;
    assert t.received + t.channel == s.received + s.channel + [i];
  }

  /** A result is dropped. */
  lemma ItemDropped<T, U, R>(c: Config<T, U, R>, s: State<R>, t: State<R>, i: nat)
    requires ItemsInv(c, s) && i < |s.phases| && !Finished(s.phases[i]) && c.Succeeds(i)
    requires t.phases == s.phases[i := Leaving] && t.errors == s.errors && t.dropped == s.dropped + [i]
    requires t.received == s.received && t.channel == s.channel
    ensures ItemsInv(c, t)
  {
    assert i !in s.received + s.channel && i !in s.dropped;
  }

  lemma ItemMoves<T, U, R>(c: Config<T, U, R>, s: State<R>, t: State<R>, i: nat, p: Phase)
    requires ItemsInv(c, s) && i < |s.phases| && (Finished(s.phases[i]) <==> Finished(p))
    requires t.phases == s.phases[i := p]
    requires t.errors == s.errors && t.dropped == s.dropped && t.received + t.channel == s.received + s.channel
    ensures ItemsInv(c, t)
  {
  }

  lemma ItemsStep<T, U, R>(c: Config<T, U, R>, s: State<R>, a: Action, i: nat, p: Phase)
    requires Inv(c, s) && Enabled(c, s, a) && Move(c, s, a) == Some((i, p))
    ensures ItemsInv(c, Apply(c, s, a))
  {
    hide CountersInv, ItemsInv, ReduceInv, OutcomeInv;
    var t := Apply(c, s, a);
    if a.MapItem? && p == Leaving {
      ItemFailed(c, s, t, i);
    } else if a.Send? {
      ItemSent(c, s, t, i);
    } else if a.Drop? {
      ItemDropped(c, s, t, i);
    } else {
      ItemMoves(c, s, t, i, p);
    }
  }

  /** Once the channel is closed no worker has a step left, so none sends into a closed channel. */
  lemma ClosedIsQuiet<T, U, R>(c: Config<T, U, R>, s: State<R>, a: Action)
    requires Inv(c, s) && Enabled(c, s, a) && Move(c, s, a).Some?
    ensures !s.closed
  {
    hide ItemsInv;
    var (i, p) := Move(c, s, a).value;
    if s.closed {
      CountNonzero(Live, c, s.phases, i, |s.phases|);
    }
  }

  lemma WorkerOutcome<T, U, R>(c: Config<T, U, R>, s: State<R>, a: Action)
    requires Inv(c, s) && Enabled(c, s, a) && Move(c, s, a).Some?
    ensures OutcomeInv(c, Apply(c, s, a))
  {
    ClosedIsQuiet(c, s, a);
    hide CountersInv, ItemsInv, ReduceInv;
  }

  lemma WorkerShape<T, U, R>(c: Config<T, U, R>, s: State<R>, a: Action)
    requires Inv(c, s) && Enabled(c, s, a) && Move(c, s, a).Some?
    ensures ShapeInv(c, Apply(c, s, a))
  {
    hide CountersInv, ItemsInv, ReduceInv, OutcomeInv;
    var t := Apply(c, s, a);
    var (i, p) := Move(c, s, a).value;
    ClosedIsQuiet(c, s, a);
    assert t.phases == s.phases[i := p] && t.received == s.received && t.closed == s.closed;
    assert p == Sending ==> c.Succeeds(i);
    assert a.Send? ==> t.channel == s.channel + [i] && c.Succeeds(i);
    assert !a.Send? ==> t.channel == s.channel;
    assert t.next == if a.Spawn? then s.next + 1 else s.next;
    hide Apply, Enabled, Move;
  }

  lemma WorkerReductions<T, U, R>(c: Config<T, U, R>, s: State<R>, a: Action)
    requires Inv(c, s) && Enabled(c, s, a) && Move(c, s, a).Some?
    ensures ReduceInv(c, Apply(c, s, a))
  {
    SameReductions(c, s, Apply(c, s, a));
    hide ShapeInv, CountersInv, ItemsInv, ReduceInv, OutcomeInv;
  }

  lemma WorkerStep<T, U, R>(c: Config<T, U, R>, s: State<R>, a: Action)
    requires Inv(c, s) && Enabled(c, s, a) && Move(c, s, a).Some?
    ensures Inv(c, Apply(c, s, a))
  {
    hide *;
    var (i, p) := Move(c, s, a).value;
    CountersStep(c, s, a, i, p);
    ItemsStep(c, s, a, i, p);
    WorkerOutcome(c, s, a);
    WorkerShape(c, s, a);
    WorkerReductions(c, s, a);
    InvParts(c, Apply(c, s, a));
  }

  lemma InvParts<T, U, R>(c: Config<T, U, R>, s: State<R>)
    requires ShapeInv(c, s) && CountersInv(c, s) && ItemsInv(c, s) && ReduceInv(c, s) && OutcomeInv(c, s)
    ensures Inv(c, s)
  {
    hide ShapeInv, CountersInv, ItemsInv, ReduceInv, OutcomeInv;
  }

  lemma SameItems<T, U, R>(c: Config<T, U, R>, s: State<R>, t: State<R>)
    requires ItemsInv(c, s)
    requires t.phases == s.phases && t.errors == s.errors && t.dropped == s.dropped
    requires t.received + t.channel == s.received + s.channel
    ensures ItemsInv(c, t)
  {
  }

  lemma FailsAtPrefix<T, U, R>(c: Config<T, U, R>, xs: seq<nat>, x: nat, j: nat)
    requires c.Succeeds(x) && (forall k :: 0 <= k < |xs| ==> c.Succeeds(xs[k])) && j <= |xs|
    ensures c.FailsAt(xs + [x], j) == if j < |xs| then c.FailsAt(xs, j) else c.reduceFails(c.Fold(xs), c.Mapped(x))
  {
    assert (xs + [x])[..j] == xs[..j];
    assert xs[..|xs|] == xs;
  }

  lemma ReceiveStep<T, U, R>(c: Config<T, U, R>, s: State<R>)
    requires Inv(c, s) && Enabled(c, s, Receive)
    ensures ReduceInv(c, Apply(c, s, Receive))
  {
    hide CountersInv, ItemsInv, OutcomeInv, c.Fold, c.FailsAt;
    var t := Apply(c, s, Receive);
    FoldSnoc(c, s.received, s.channel[0]);
    forall j | 0 <= j < |t.received| ensures c.FailsAt(t.received, j) <==> t.halted && j == |t.received| - 1 {
      FailsAtPrefix(c, s.received, s.channel[0], j);
    }
  }

  lemma MainItems<T, U, R>(c: Config<T, U, R>, s: State<R>, a: Action)
    requires Inv(c, s) && Enabled(c, s, a) && Move(c, s, a).None?
    ensures CountersInv(c, Apply(c, s, a)) && ItemsInv(c, Apply(c, s, a))
  {
    hide Count, ItemsInv, ReduceInv, OutcomeInv;
    var t := Apply(c, s, a);
    assert t.received + t.channel == s.received + s.channel;
    SameItems(c, s, t);
  }

  lemma MainOutcome<T, U, R>(c: Config<T, U, R>, s: State<R>, a: Action)
    requires Inv(c, s) && Enabled(c, s, a) && Move(c, s, a).None?
    ensures OutcomeInv(c, Apply(c, s, a))
  {
    hide ShapeInv, CountersInv, ItemsInv, ReduceInv, Ending, Count;
    MainFacts(c, s);
    if a.Return? {
      EndingError(s);
    }
  }

  lemma MainFacts<T, U, R>(c: Config<T, U, R>, s: State<R>)
    requires Inv(c, s)
    ensures |s.phases| == |c.source| && (s.next < |c.source| ==> s.received == [])
    ensures s.halted ==> s.received != []
  {
    hide CountersInv, ItemsInv, OutcomeInv;
  }

  lemma EndingError<R>(s: State<R>)
    requires s.halted ==> s.received != []
    ensures Ending(s).acc == s.acc
    ensures Ending(s).error == NoError <==> !s.halted && s.errors == []
    ensures Ending(s).error.MapError? ==> Ending(s).error.item in s.errors
    ensures Ending(s).error.ReduceError? ==> s.halted && Ending(s).error.item == s.received[|s.received| - 1]
    ensures Ending(s).error != ContextError
  {
  }

  lemma MainReductions<T, U, R>(c: Config<T, U, R>, s: State<R>, a: Action)
    requires Inv(c, s) && Enabled(c, s, a) && Move(c, s, a).None?
    ensures ReduceInv(c, Apply(c, s, a))
  {
    if a.Receive? {
      ReceiveStep(c, s);
    } else {
      SameReductions(c, s, Apply(c, s, a));
      hide CountersInv, ItemsInv, ReduceInv, OutcomeInv;
    }
  }

  lemma MainShape<T, U, R>(c: Config<T, U, R>, s: State<R>, a: Action)
    requires Inv(c, s) && Enabled(c, s, a) && Move(c, s, a).None?
    ensures ShapeInv(c, Apply(c, s, a))
  {
    hide CountersInv, ItemsInv, ReduceInv, OutcomeInv;
  }

  lemma MainStep<T, U, R>(c: Config<T, U, R>, s: State<R>, a: Action)
    requires Inv(c, s) && Enabled(c, s, a) && Move(c, s, a).None?
    ensures Inv(c, Apply(c, s, a))
  {
    hide *;
    MainShape(c, s, a);
    MainItems(c, s, a);
    MainOutcome(c, s, a);
    MainReductions(c, s, a);
    InvParts(c, Apply(c, s, a));
  }

  lemma SameReductions<T, U, R>(c: Config<T, U, R>, s: State<R>, t: State<R>)
    requires ReduceInv(c, s) && t.received == s.received && t.acc == s.acc && t.halted == s.halted
    ensures ReduceInv(c, t)
  {
  }

  lemma InvStep<T, U, R>(c: Config<T, U, R>, s: State<R>, a: Action)
    requires Inv(c, s) && Enabled(c, s, a)
    ensures Inv(c, Apply(c, s, a))
  {
    hide *;
    if Move(c, s, a).Some? {
      WorkerStep(c, s, a);
    } else {
      MainStep(c, s, a);
    }
  }

  // ----- Runs -----

  /** The state after a schedule, if every step of it was possible. */
  ghost function Run<T, U, R>(c: Config<T, U, R>, schedule: seq<Action>): (s: Option<State<R>>)
    ensures s.Some? ==> Inv(c, s.value)
  {
    InvStart(c);
    if schedule == [] then Some(Start(c)) else
      var before := Run(c, schedule[..|schedule| - 1]);
      var a := schedule[|schedule| - 1];
      if before.Some? && Enabled(c, before.value, a) then
        InvStep(c, before.value, a);
        Some(Apply(c, before.value, a))
      else None
  }

  /** At most `concurrency` workers hold a slot, in every reachable state. */
  lemma ConcurrencyBound<T, U, R>(c: Config<T, U, R>, schedule: seq<Action>, s: State<R>)
    requires Run(c, schedule) == Some(s)
    ensures Count(Slots, c, s.phases, |s.phases|) <= c.concurrency
  {
  }

  function MapSteps(schedule: seq<Action>, i: nat): nat {
    if schedule == [] then 0 else
      MapSteps(schedule[..|schedule| - 1], i) + if schedule[|schedule| - 1] == MapItem(i) then 1 else 0
  }

  lemma MapOnlyOnce<T, U, R>(c: Config<T, U, R>, s: State<R>, a: Action, i: nat)
    requires Inv(c, s) && Enabled(c, s, a) && i < |c.source|
    ensures a == MapItem(i) ==> s.phases[i] == Mapping
    ensures Apply(c, s, a).phases[i] in {Waiting, Mapping} <==> s.phases[i] in {Waiting, Mapping} && a != MapItem(i)
  {
    hide CountersInv, ItemsInv, ReduceInv, OutcomeInv;
  }

  lemma {:induction false} MappedOnce<T, U, R>(c: Config<T, U, R>, schedule: seq<Action>, s: State<R>, i: nat)
    requires Run(c, schedule) == Some(s) && i < |c.source|
    ensures MapSteps(schedule, i) == if s.phases[i] in {Waiting, Mapping} then 0 else 1
  {
    hide CountersInv, ItemsInv, Enabled, Apply;
    if schedule != [] {
      var front := schedule[..|schedule| - 1];
      var before := Run(c, front).value;
      MappedOnce(c, front, before, i);
      MapOnlyOnce(c, before, schedule[|schedule| - 1], i);
    }
  }

  lemma {:induction false} SuccessesComplete<T, U, R>(c: Config<T, U, R>, k: nat)
    requires k <= |c.source|
    ensures forall i: nat :: i in c.Successes(k) <==> i < k && c.Succeeds(i)
    ensures NoRepeats(c.Successes(k))
  {
    if k > 0 {
      SuccessesComplete(c, k - 1);
    }
  }

  lemma {:induction false} NoRepeatsSameItems(xs: seq<nat>, ys: seq<nat>)
    requires NoRepeats(xs) && NoRepeats(ys)
    requires forall i: nat :: i in xs <==> i in ys
    ensures multiset(xs) == multiset(ys)
  {
    forall i ensures multiset(xs)[i] == multiset(ys)[i] {
      AtMostOnce(xs, i);
      AtMostOnce(ys, i);
    }
  }

  lemma {:induction false} AtMostOnce(xs: seq<nat>, i: nat)
    requires NoRepeats(xs)
    ensures multiset(xs)[i] == if i in xs then 1 else 0
  {
    if xs != [] {
      var front := xs[..|xs| - 1];
      assert xs == front + [xs[|xs| - 1]];
      AtMostOnce(front, i);
    }
  }

  lemma ClosedGone<T, U, R>(c: Config<T, U, R>, s: State<R>)
    requires Inv(c, s) && s.closed
    ensures forall i :: 0 <= i < |c.source| ==> s.phases[i] == Gone
  {
    hide ItemsInv, ReduceInv, OutcomeInv;
    forall i | 0 <= i < |c.source| ensures s.phases[i] == Gone {
      if s.phases[i] != Gone {
        CountNonzero(Live, c, s.phases, i, |s.phases|);
      }
    }
  }

  /** When everybody is gone and the channel is empty, each successful item was received or dropped. */
  lemma Accounted<T, U, R>(c: Config<T, U, R>, s: State<R>)
    requires ItemsInv(c, s) && |s.phases| == |c.source| && s.channel == []
    requires forall i :: 0 <= i < |c.source| ==> s.phases[i] == Gone
    ensures forall i: nat :: i in s.received + s.dropped <==> i < |c.source| && c.Succeeds(i)
    ensures NoRepeats(s.received) && NoRepeats(s.dropped) && forall i :: i in s.dropped ==> i !in s.received
    ensures s.errors == [] <==> forall i :: 0 <= i < |c.source| ==> c.Succeeds(i)
  {
    assert s.received + s.channel == s.received;
    if s.errors != [] {
      assert s.errors[0] in s.errors;
    }
    hide NoRepeats;
  }

  lemma ReceivedAndDropped<T, U, R>(c: Config<T, U, R>, s: State<R>)
    requires Inv(c, s) && s.closed && s.channel == []
    ensures multiset(s.received) + multiset(s.dropped) == multiset(c.Successes(|c.source|))
    ensures s.errors == [] <==> forall i :: 0 <= i < |c.source| ==> c.Succeeds(i)
  {
    ClosedGone(c, s);
    hide CountersInv, ItemsInv, ReduceInv, OutcomeInv, NoRepeats;
    Accounted(c, s);
    SuccessesComplete(c, |c.source|);
    NoRepeatsConcat(s.received, s.dropped);
    NoRepeatsSameItems(s.received + s.dropped, c.Successes(|c.source|));
  }

  lemma NoRepeatsConcat(xs: seq<nat>, ys: seq<nat>)
    requires NoRepeats(xs) && NoRepeats(ys) && forall i :: i in ys ==> i !in xs
    ensures NoRepeats(xs + ys)
  {
    forall i, j | 0 <= i < j < |xs + ys| ensures (xs + ys)[i] != (xs + ys)[j] {
      if i < |xs| <= j {
        assert (xs + ys)[j] in ys;
      }
    }
  }

  /** What is returned, in any run.  A context error comes with the zero value; anything else with the
      fold of what was received.  A map or reduce error is that of a failed item.  Without an error every
      item was mapped exactly once and succeeded, no reduction failed, and each result was reduced or
      dropped, once. */
  lemma ReturnedResult<T, U, R>(c: Config<T, U, R>, schedule: seq<Action>, s: State<R>)
    requires Run(c, schedule) == Some(s) && s.Returned()
    ensures var o := s.outcome.value;
            && (o.error == ContextError ==> s.cancelled && o.acc == c.zero)
            && (o.error != ContextError ==> o.acc == c.Fold(s.received))
            && (o.error.MapError? ==> o.error.item < |c.source| && !c.Succeeds(o.error.item))
            && (o.error.ReduceError? ==> s.received != [] && c.FailsAt(s.received, |s.received| - 1)
                                         && o.error.item == s.received[|s.received| - 1])
            && (o.error == NoError ==>
                  && (forall i :: 0 <= i < |c.source| ==> MapSteps(schedule, i) == 1 && c.Succeeds(i))
                  && (forall j :: 0 <= j < |s.received| ==> !c.FailsAt(s.received, j))
                  && multiset(s.received) + multiset(s.dropped) == multiset(c.Successes(|c.source|)))
  {
    hide CountersInv, Run, MapSteps;
    var o := s.outcome.value;
    if o.error == NoError {
      ClosedGone(c, s);
      ReceivedAndDropped(c, s);
      forall i | 0 <= i < |c.source| ensures MapSteps(schedule, i) == 1 {
        MappedOnce(c, schedule, s, i);
      }
    }
  }

  /** Without cancellation and reduce errors, the run returns an error if and only if an item failed, and
      reduces every successful item exactly once. */
  lemma UndisturbedResult<T, U, R>(c: Config<T, U, R>, schedule: seq<Action>, s: State<R>)
    requires Run(c, schedule) == Some(s) && s.Returned() && !s.cancelled && !s.halted
    ensures forall i :: 0 <= i < |c.source| ==> MapSteps(schedule, i) == 1
    ensures multiset(s.received) == multiset(c.Successes(|c.source|))
    ensures s.outcome.value.error == NoError <==> forall i :: 0 <= i < |c.source| ==> c.Succeeds(i)
  {
    hide CountersInv, ItemsInv, ReduceInv, Run, MapSteps;
    ClosedGone(c, s);
    ReceivedAndDropped(c, s);
    forall i | 0 <= i < |c.source| ensures MapSteps(schedule, i) == 1 {
      MappedOnce(c, schedule, s, i);
    }
  }

  /** A result without an error covers all items exactly if no worker dropped its result; only in a
      cancelled run can one have. */
  lemma CompleteIffNothingDropped<T, U, R>(c: Config<T, U, R>, schedule: seq<Action>, s: State<R>)
    requires Run(c, schedule) == Some(s) && s.Returned() && s.outcome.value.error == NoError
    ensures multiset(s.received) == multiset(c.Successes(|c.source|)) <==> s.dropped == []
    ensures s.dropped != [] ==> s.cancelled
  {
    ReturnedResult(c, schedule, s);
    hide CountersInv, ItemsInv, ReduceInv, Run, MapSteps;
    assert |multiset(s.dropped)| == |s.dropped|;
  }

  lemma RunSnoc<T, U, R>(c: Config<T, U, R>, schedule: seq<Action>, a: Action)
    requires Run(c, schedule).Some? && Enabled(c, Run(c, schedule).value, a)
    ensures Run(c, schedule + [a]) == Some(Apply(c, Run(c, schedule).value, a))
  {
    assert (schedule + [a])[..|schedule|] == schedule;
  }

  /** Cancelled at the start, with the first `k` items mapped and their results dropped. */
  function DroppedState<T, U, R>(c: Config<T, U, R>, k: nat): State<R> {
    State(seq(|c.source|, i => if i < k then Gone else Waiting), k, 0, 0, [], false, [], c.zero, [],
          seq(k, i => i), false, true, None)
  }

  /** The worker of item `k` spawned, then in each of its phases. */
  function DroppingState<T, U, R>(c: Config<T, U, R>, k: nat, p: Phase): State<R>
    requires k < |c.source|
  {
    var s := DroppedState(c, k);
    s.(phases := s.phases[k := p], next := k + 1,
       sem := if p in {Mapping, Sending, Leaving} then 1 else 0,
       wg := if p == Gone then 0 else 1,
       dropped := if p in {Mapping, Sending} then s.dropped else s.dropped + [k])
  }

  lemma DroppingEnds<T, U, R>(c: Config<T, U, R>, k: nat)
    requires k < |c.source|
    ensures DroppingState(c, k, Gone) == DroppedState(c, k + 1)
  {
    assert DroppedState(c, k).phases[k := Gone] == DroppedState(c, k + 1).phases;
    assert DroppedState(c, k).dropped + [k] == DroppedState(c, k + 1).dropped;
  }

  /** The steps of one worker that drops its result. */
  lemma DropOne<T, U, R>(c: Config<T, U, R>, k: nat, schedule: seq<Action>) returns (more: seq<Action>)
    requires c.Valid() && k < |c.source| && c.Succeeds(k)
    requires Run(c, schedule) == Some(DroppedState(c, k))
    ensures Run(c, more) == Some(DroppedState(c, k + 1))
  {
    hide Run, Inv, DroppedState;
    DroppingSteps(c, k);
    RunSnoc(c, schedule, Spawn);
    more := schedule + [Spawn];
    RunSnoc(c, more, MapItem(k));
    more := more + [MapItem(k)];
    RunSnoc(c, more, Drop(k));
    more := more + [Drop(k)];
    RunSnoc(c, more, Release(k));
    more := more + [Release(k)];
    RunSnoc(c, more, SignOff(k));
    more := more + [SignOff(k)];
    DroppingEnds(c, k);
  }

  /** What `a` makes of `s`, wherever `s` was reached. */
  ghost predicate Leads<T, U, R>(c: Config<T, U, R>, s: State<R>, a: Action, t: State<R>) {
    Enabled(c, s, a) && (Inv(c, s) ==> Apply(c, s, a) == t)
  }

  lemma DroppingSteps<T, U, R>(c: Config<T, U, R>, k: nat)
    requires c.Valid() && k < |c.source| && c.Succeeds(k)
    ensures Leads(c, DroppedState(c, k), Spawn, DroppingState(c, k, Mapping))
    ensures Leads(c, DroppingState(c, k, Mapping), MapItem(k), DroppingState(c, k, Sending))
    ensures Leads(c, DroppingState(c, k, Sending), Drop(k), DroppingState(c, k, Leaving))
    ensures Leads(c, DroppingState(c, k, Leaving), Release(k), DroppingState(c, k, Released))
    ensures Leads(c, DroppingState(c, k, Released), SignOff(k), DroppingState(c, k, Gone))
  {
    hide Inv;
  }

  lemma {:induction false} DropUpTo<T, U, R>(c: Config<T, U, R>, k: nat) returns (schedule: seq<Action>)
    requires c.Valid() && k <= |c.source| && forall i :: 0 <= i < k ==> c.Succeeds(i)
    ensures Run(c, schedule) == Some(DroppedState(c, k))
  {
    if k == 0 {
      assert Run(c, []) == Some(Start(c));
      RunSnoc(c, [], Cancel);
      schedule := [] + [Cancel];
      hide Run, Inv;
      assert Start(c).phases == DroppedState(c, 0).phases && [] == DroppedState(c, 0).dropped;
    } else {
      schedule := DropUpTo(c, k - 1);
      schedule := DropOne(c, k - 1, schedule);
    }
  }

  /** Cancelled before its items are mapped, a run over good items can return the zero value and no error. */
  lemma LossWithoutError<T, U, R>(c: Config<T, U, R>) returns (schedule: seq<Action>)
    requires c.Valid() && forall i :: 0 <= i < |c.source| ==> c.Succeeds(i)
    ensures Run(c, schedule).Some? && Run(c, schedule).value.received == []
    ensures Run(c, schedule).value.outcome == Some(Outcome(c.zero, NoError))
  {
    schedule := DropUpTo(c, |c.source|);
    hide Run, Inv;
    RunSnoc(c, schedule, Close);
    schedule := schedule + [Close];
    RunSnoc(c, schedule, Return);
    schedule := schedule + [Return];
  }

  /** Some run returns no error although an item that maps was not reduced. */
  ghost predicate CanLose<T(!new), U(!new), R(!new)>(c: Config<T, U, R>) {
    exists schedule :: Run(c, schedule).Some? && Loses(c, Run(c, schedule).value)
  }

  ghost predicate Loses<T, U, R>(c: Config<T, U, R>, s: State<R>) {
    s.Returned() && s.outcome.value.error == NoError && multiset(s.received) != multiset(c.Successes(|c.source|))
  }

  /** Which calls can lose items without an error, if the context may be cancelled: exactly those with items
      that all map.  A failing item always shows up as an error. */
  lemma CanLoseIff<T(!new), U(!new), R(!new)>(c: Config<T, U, R>)
    requires c.Valid()
    ensures CanLose(c) <==> c.source != [] && forall i :: 0 <= i < |c.source| ==> c.Succeeds(i)
  {
    if c.source != [] && forall i :: 0 <= i < |c.source| ==> c.Succeeds(i) {
      var schedule := LossWithoutError(c);
      AllSucceed(c, |c.source|);
      assert |multiset(c.Successes(|c.source|))| == |c.source|;
      hide Run;
      assert Loses(c, Run(c, schedule).value);
    }
    if schedule :| Run(c, schedule).Some? && Loses(c, Run(c, schedule).value) {
      ReturnedResult(c, schedule, Run(c, schedule).value);
    }
  }

  lemma {:induction false} MoveToEnd<T, U(!new), R(!new)>(c: Config<T, U, R>, xs: seq<nat>, i: nat)
    requires LeftCommutative(c) && i < |xs|
    requires forall j :: 0 <= j < |xs| ==> c.Succeeds(xs[j])
    ensures c.Fold(xs[..i] + xs[i + 1..] + [xs[i]]) == c.Fold(xs)
    decreases |xs|
  {
    var rest := xs[..i] + xs[i + 1..];
    assert (rest + [xs[i]])[..|rest|] == rest;
    if i < |xs| - 1 {
      var front, last := xs[..|xs| - 1], xs[|xs| - 1];
      MoveToEnd(c, front, i);
      var frontRest := front[..i] + front[i + 1..];
      assert (frontRest + [xs[i]])[..|frontRest|] == frontRest;
      assert rest == frontRest + [last];
      assert rest[..|rest| - 1] == frontRest;
    } else {
      assert rest == xs[..i];
    }
  }

  lemma TakeOut(xs: seq<nat>, i: nat)
    requires i < |xs|
    ensures multiset(xs[..i] + xs[i + 1..]) == multiset(xs) - multiset{xs[i]}
  {
    assert xs == xs[..i] + [xs[i]] + xs[i + 1..];
  }

  lemma FoldSnoc<T, U, R>(c: Config<T, U, R>, xs: seq<nat>, x: nat)
    requires c.Succeeds(x) && forall j :: 0 <= j < |xs| ==> c.Succeeds(xs[j])
    ensures c.Fold(xs + [x]) == c.reduceFunc(c.Fold(xs), c.Mapped(x))
  {
    assert (xs + [x])[..|xs|] == xs;
  }

  lemma LastElsewhere(xs: seq<nat>, ys: seq<nat>) returns (i: nat)
    requires xs != [] && multiset(xs) == multiset(ys)
    ensures i < |ys| && ys[i] == xs[|xs| - 1]
    ensures multiset(xs[..|xs| - 1]) == multiset(ys[..i] + ys[i + 1..])
  {
    var last := xs[|xs| - 1];
    assert last in multiset(ys) by {
      assert last in multiset(xs);
    }
    i :| 0 <= i < |ys| && ys[i] == last;
    TakeOut(xs, |xs| - 1);
    TakeOut(ys, i);
    assert xs[..|xs| - 1] + xs[|xs|..] == xs[..|xs| - 1];
  }

  lemma {:induction false} FoldPermutation<T, U(!new), R(!new)>(c: Config<T, U, R>, xs: seq<nat>, ys: seq<nat>)
    requires LeftCommutative(c) && multiset(xs) == multiset(ys)
    requires forall j :: 0 <= j < |xs| ==> c.Succeeds(xs[j])
    requires forall j :: 0 <= j < |ys| ==> c.Succeeds(ys[j])
    ensures c.Fold(xs) == c.Fold(ys)
    decreases |xs|
  {
    hide LeftCommutative;
    if xs == [] {
      assert |ys| == |multiset(ys)|;
    } else {
      var i := LastElsewhere(xs, ys);
      var rest := ys[..i] + ys[i + 1..];
      FoldPermutation(c, xs[..|xs| - 1], rest);
      MoveToEnd(c, ys, i);
      FoldSnoc(c, rest, ys[i]);
    }
  }

  /** Schedule independence.  If the order of two reductions never matters, every run that is not cut
      short by a reduce error or a cancellation returns what reducing one item after the other in source
      order would. */
  lemma ScheduleIndependence<T, U(!new), R(!new)>(c: Config<T, U, R>, schedule: seq<Action>, s: State<R>)
    requires LeftCommutative(c)
    requires Run(c, schedule) == Some(s) && s.Returned() && s.outcome.value.error != ContextError
    requires !s.halted && s.dropped == []
    ensures s.outcome.value.acc == c.Fold(c.Successes(|c.source|))
  {
    ReceivedAndDropped(c, s);
    hide CountersInv, ItemsInv, Run;
    assert multiset(s.received) == multiset(c.Successes(|c.source|));
    FoldPermutation(c, s.received, c.Successes(|c.source|));
  }

  // ----- Progress -----

  /** At least as many results before the last spawn as channel and slots together hold. */
  predicate TooMany<T, U, R>(c: Config<T, U, R>) {
    c.source != [] && |c.Successes(|c.source| - 1)| >= c.bufferSize + c.concurrency
  }

  function Measure<T, U, R>(c: Config<T, U, R>, s: State<R>): nat {
    Count(Steps, c, s.phases, |s.phases|) + |s.channel|
    + (if s.closed then 0 else 1) + (if s.Returned() then 0 else 1) + (if s.cancelled then 0 else 1)
  }

  lemma EveryStepCounts<T, U, R>(c: Config<T, U, R>, s: State<R>, a: Action)
    requires Inv(c, s) && Enabled(c, s, a)
    ensures Measure(c, Apply(c, s, a)) < Measure(c, s)
  {
    hide CountersInv, ItemsInv, ReduceInv, OutcomeInv, Count;
    if Move(c, s, a).Some? {
      var (i, p) := Move(c, s, a).value;
      CountSet(Steps, c, s.phases, i, p, |s.phases|);
      assert Apply(c, s, a).phases == s.phases[i := p];
    }
  }

  lemma {:induction false} StartSteps<T, U, R>(c: Config<T, U, R>, phases: seq<Phase>, k: nat)
    requires k <= |phases| && forall i :: 0 <= i < k ==> phases[i] == Waiting
    ensures Count(Steps, c, phases, k) == 6 * k
  {
    if k > 0 {
      StartSteps(c, phases, k - 1);
    }
  }

  /** No run is longer than 6 steps an item and 3 more. */
  lemma {:induction false} RunsAreShort<T, U, R>(c: Config<T, U, R>, schedule: seq<Action>, s: State<R>)
    requires Run(c, schedule) == Some(s)
    ensures |schedule| + Measure(c, s) <= 6 * |c.source| + 3
  {
    if schedule == [] {
      StartSteps(c, s.phases, |s.phases|);
    } else {
      var front := schedule[..|schedule| - 1];
      var before := Run(c, front).value;
      RunsAreShort(c, front, before);
      EveryStepCounts(c, before, schedule[|schedule| - 1]);
    }
  }

  lemma {:induction false} MoreItemsMoreSuccesses<T, U, R>(c: Config<T, U, R>, j: nat, k: nat)
    requires j <= k <= |c.source|
    ensures |c.Successes(j)| <= |c.Successes(k)|
  {
    if j < k {
      MoreItemsMoreSuccesses(c, j, k - 1);
    }
  }

  /** No goroutine has a step left; only the caller could still cancel. */
  ghost predicate Stuck<T, U, R>(c: Config<T, U, R>, s: State<R>) {
    forall a: Action :: a != Cancel ==> !Enabled(c, s, a)
  }

  /** In a stuck state nobody is between its steps: the spawned workers are gone, or, unless the run was
      cancelled, wait to send into a full channel. */
  lemma StuckWorkers<T, U, R>(c: Config<T, U, R>, s: State<R>)
    requires Inv(c, s) && Stuck(c, s)
    ensures forall i :: 0 <= i < |s.phases| ==> s.phases[i] in {Waiting, Sending, Gone}
    ensures forall i :: 0 <= i < |s.phases| && s.phases[i] == Sending ==> |s.channel| == c.bufferSize && !s.cancelled
  {
    hide ItemsInv, ReduceInv, OutcomeInv, Count;
    forall i | 0 <= i < |s.phases|
      ensures s.phases[i] in {Waiting, Sending, Gone}
      ensures s.phases[i] == Sending ==> |s.channel| == c.bufferSize && !s.cancelled
    {
      assert !Enabled(c, s, MapItem(i)) && !Enabled(c, s, Release(i)) && !Enabled(c, s, SignOff(i));
      assert !Enabled(c, s, Send(i)) && !Enabled(c, s, Drop(i));
    }
  }

  /** A stuck main goroutine has returned, or waits for a slot, or for a channel that nobody closes. */
  lemma StuckMain<T, U, R>(c: Config<T, U, R>, s: State<R>)
    requires Inv(c, s) && Stuck(c, s)
    ensures s.next < |s.phases| && !s.Returned() ==> s.sem == c.concurrency && !s.cancelled
    ensures s.next < |s.phases| && s.Returned() ==> s.cancelled
    ensures s.next == |s.phases| && !s.Returned() ==> s.channel == [] && !s.closed && s.wg > 0
    ensures s.next == |s.phases| && s.wg == 0 ==> s.closed
  {
    hide ItemsInv, ReduceInv, Count;
    assert !Enabled(c, s, Spawn) && !Enabled(c, s, Close) && !Enabled(c, s, Abort);
    assert !Enabled(c, s, Receive) && !Enabled(c, s, Return);
  }

  /** If all slots are held by workers that wait before a full channel, there are too many results. */
  lemma FullOfResults<T, U, R>(c: Config<T, U, R>, s: State<R>)
    requires ShapeInv(c, s) && CountersInv(c, s) && s.next < |s.phases| && s.dropped == []
    requires forall i :: 0 <= i < |s.phases| ==> s.phases[i] in {Waiting, Sending, Gone}
    requires |s.channel| == c.bufferSize && s.sem == c.concurrency
    ensures TooMany(c)
  {
    OwedHoldsSlot(c, s.phases, |s.phases|);
    MoreItemsMoreSuccesses(c, s.next, |c.source| - 1);
    hide Count;
  }

  /** A stuck spawning loop means that all slots are held by workers with a result and the channel is
      full of others. */
  lemma StuckSpawning<T, U, R>(c: Config<T, U, R>, s: State<R>)
    requires c.Valid() && Inv(c, s) && s.next < |s.phases| && !s.Returned() && Stuck(c, s)
    ensures TooMany(c) && |s.channel| == c.bufferSize && s.sem == c.concurrency && !s.cancelled
  {
    StuckWorkers(c, s);
    StuckMain(c, s);
    hide ItemsInv, ReduceInv, OutcomeInv, Enabled, Stuck, TooMany;
    if forall i :: 0 <= i < |s.phases| ==> s.phases[i] != Sending {
      CountZero(Slots, c, s.phases, |s.phases|);
    }
    FullOfResults(c, s);
  }

  lemma StuckReducing<T, U, R>(c: Config<T, U, R>, s: State<R>)
    requires c.Valid() && Inv(c, s) && s.next == |s.phases| && Stuck(c, s)
    ensures s.Returned()
  {
    StuckWorkers(c, s);
    StuckMain(c, s);
    hide ItemsInv, ReduceInv, OutcomeInv, Enabled, Stuck;
    if !s.Returned() {
      CountZero(Live, c, s.phases, |s.phases|);
    }
  }

  /** Unless there are too many results, a run that has not returned can go on. */
  lemma Progress<T, U, R>(c: Config<T, U, R>, s: State<R>)
    requires c.Valid() && !TooMany(c)
    requires Inv(c, s) && !s.Returned()
    ensures exists a: Action :: a != Cancel && Enabled(c, s, a)
  {
    hide CountersInv, ItemsInv, ReduceInv, OutcomeInv, Enabled, TooMany;
    if Stuck(c, s) {
      if s.next == |s.phases| {
        StuckReducing(c, s);
      } else {
        StuckSpawning(c, s);
      }
    }
  }

  lemma LastSpawnBlocked<T, U, R>(c: Config<T, U, R>, s: State<R>)
    requires TooMany(c) && Inv(c, s) && s.next == |c.source| - 1 && !s.cancelled
    ensures !Enabled(c, s, Spawn)
  {
    hide ItemsInv, ReduceInv, OutcomeInv;
    OwedHoldsSlot(c, s.phases, |s.phases|);
  }

  lemma NotTheLastSpawn<T, U, R>(c: Config<T, U, R>, s: State<R>, a: Action)
    requires TooMany(c) && Inv(c, s) && Enabled(c, s, a) && s.next < |c.source| && !s.cancelled
    ensures Apply(c, s, a).next < |c.source|
  {
    hide CountersInv, ItemsInv, ReduceInv, OutcomeInv, TooMany;
    if s.next == |c.source| - 1 {
      LastSpawnBlocked(c, s);
    }
  }

  lemma CancelledForEver<T, U, R>(c: Config<T, U, R>, s: State<R>, a: Action)
    requires Inv(c, s) && Enabled(c, s, a)
    ensures s.cancelled ==> Apply(c, s, a).cancelled
    ensures a != Cancel ==> Apply(c, s, a).cancelled == s.cancelled
  {
    hide CountersInv, ItemsInv, ReduceInv, OutcomeInv;
  }

  /** With too many results the last item is never spawned, unless the run is cancelled. */
  lemma {:induction false} NeverAllSpawned<T, U, R>(c: Config<T, U, R>, schedule: seq<Action>, s: State<R>)
    requires TooMany(c)
    requires Run(c, schedule) == Some(s) && !s.cancelled
    ensures s.next < |c.source|
  {
    hide Inv, Enabled, Apply;
    if schedule == [] {
      assert c.source != [];
    } else {
      hide TooMany;
      var front, a := schedule[..|schedule| - 1], schedule[|schedule| - 1];
      var before := Run(c, front).value;
      CancelledForEver(c, before, a);
      NeverAllSpawned(c, front, before);
      NotTheLastSpawn(c, before, a);
    }
  }

  lemma NotReturnedEarly<T, U, R>(c: Config<T, U, R>, s: State<R>)
    requires Inv(c, s) && s.next < |c.source| && !s.cancelled
    ensures !s.Returned()
  {
    hide CountersInv, ItemsInv, ReduceInv;
  }

  /** Without cancellation `MapReduce` returns from every schedule, or from none: a run that cannot go on
      has returned exactly if there are not too many results, and with too many no run returns. */
  lemma DeadlockIffTooMany<T, U, R>(c: Config<T, U, R>, schedule: seq<Action>, s: State<R>)
    requires c.Valid() && Run(c, schedule) == Some(s) && !s.cancelled
    ensures TooMany(c) ==> !s.Returned()
    ensures Stuck(c, s) ==> (s.Returned() <==> !TooMany(c))
    ensures TooMany(c) && Stuck(c, s) ==> |s.channel| == c.bufferSize && s.sem == c.concurrency
  {
    hide CountersInv, ItemsInv, ReduceInv, OutcomeInv, Enabled, TooMany;
    if TooMany(c) {
      NeverAllSpawned(c, schedule, s);
      NotReturnedEarly(c, s);
      if Stuck(c, s) {
        StuckSpawning(c, s);
      }
    } else if !s.Returned() {
      Progress(c, s);
    }
  }

  /** Every run can be continued, without cancelling it, until it cannot go on any more. */
  lemma {:induction false} Completion<T, U, R>(c: Config<T, U, R>, schedule: seq<Action>, s: State<R>)
    returns (full: seq<Action>)
    requires Run(c, schedule) == Some(s)
    ensures schedule <= full && Run(c, full).Some? && Stuck(c, Run(c, full).value)
    ensures Run(c, full).value.cancelled == s.cancelled
    decreases Measure(c, s)
  {
    hide Inv, Enabled, Apply, Measure;
    if a :| a != Cancel && Enabled(c, s, a) {
      EveryStepCounts(c, s, a);
      CancelledForEver(c, s, a);
      RunSnoc(c, schedule, a);
      full := Completion(c, schedule + [a], Apply(c, s, a));
    } else {
      full := schedule;
    }
  }

  ghost predicate CanReturn<T(!new), U(!new), R(!new)>(c: Config<T, U, R>) {
    exists schedule :: Run(c, schedule).Some? && Run(c, schedule).value.Returned() && !Run(c, schedule).value.cancelled
  }

  /** So there is a run that returns uncancelled exactly if there are not too many results. */
  lemma ReturnsIffNotTooMany<T(!new), U(!new), R(!new)>(c: Config<T, U, R>)
    requires c.Valid()
    ensures CanReturn(c) <==> !TooMany(c)
  {
    hide TooMany, Inv, Enabled, Stuck;
    var start := Start(c);
    assert Run(c, []) == Some(start);
    hide Run;
    var full := Completion(c, [], start);
    DeadlockIffTooMany(c, full, Run(c, full).value);
    if schedule :| Run(c, schedule).Some? && Run(c, schedule).value.Returned() && !Run(c, schedule).value.cancelled {
      DeadlockIffTooMany(c, schedule, Run(c, schedule).value);
    }
  }

  /** Three good items are too many for one worker and a buffer of one. */
  lemma ThreeAreTooMany<T, U, R>(c: Config<T, U, R>)
    requires c.concurrency == 1 && c.bufferSize == 1 && |c.source| == 3
    requires forall i :: 0 <= i < 3 ==> c.Succeeds(i)
    ensures c.Valid() && TooMany(c)
  {
    AllSucceed(c, 2);
  }

  // ----- After a cancellation, and after a reduce error -----

  /** A cancelled run always ends: once it cannot go on it has returned, and every worker that was spawned
      is gone, too many results or not. */
  lemma CancelledEnds<T, U, R>(c: Config<T, U, R>, s: State<R>)
    requires c.Valid() && Inv(c, s) && s.cancelled && Stuck(c, s)
    ensures s.Returned()
    ensures forall i :: 0 <= i < |s.phases| ==> s.phases[i] in {Waiting, Gone}
  {
    StuckWorkers(c, s);
    StuckMain(c, s);
    hide CountersInv, ItemsInv, ReduceInv, OutcomeInv, Enabled;
    if s.next == |s.phases| {
      StuckReducing(c, s);
    }
  }

  /** So every cancelled run can be continued to one that has returned and left nobody behind. */
  lemma CancelledReturns<T, U, R>(c: Config<T, U, R>, schedule: seq<Action>, s: State<R>)
    returns (full: seq<Action>)
    requires c.Valid() && Run(c, schedule) == Some(s) && s.cancelled
    ensures schedule <= full && Run(c, full).Some? && Run(c, full).value.Returned()
    ensures forall i :: 0 <= i < |Run(c, full).value.phases| ==> Run(c, full).value.phases[i] in {Waiting, Gone}
  {
    hide Run, Inv, Stuck;
    full := Completion(c, schedule, s);
    CancelledEnds(c, Run(c, full).value);
  }

  lemma {:induction false} OwedIsSending<T, U, R>(c: Config<T, U, R>, phases: seq<Phase>, k: nat)
    requires k <= |phases| && forall i :: 0 <= i < k ==> phases[i] in {Waiting, Sending, Gone}
    requires forall i :: 0 <= i < k && phases[i] == Sending ==> c.Succeeds(i)
    ensures Count(Owed, c, phases, k) > 0 <==> exists i :: 0 <= i < k && phases[i] == Sending
  {
    if k > 0 {
      OwedIsSending(c, phases, k - 1);
    }
  }

  /** A reduce error ends the receiving loop, and nobody empties the channel any more.  In the end the
      results that neither were received nor fit into the channel keep their workers waiting for ever,
      exactly as many as there are such results, and the closer with them. */
  lemma AbandonedWorkers<T, U, R>(c: Config<T, U, R>, s: State<R>)
    requires c.Valid() && Inv(c, s) && s.halted && !s.cancelled && Stuck(c, s)
    ensures s.Returned()
    ensures forall i :: 0 <= i < |s.phases| ==> s.phases[i] in {Sending, Gone}
    ensures var n, kept := |c.Successes(|c.source|)|, |s.received| + c.bufferSize;
            && Count(Owed, c, s.phases, |s.phases|) == (if n > kept then n - kept else 0)
            && ((exists i :: 0 <= i < |s.phases| && s.phases[i] == Sending) <==> n > kept)
            && (s.closed <==> n <= kept)
  {
    StuckWorkers(c, s);
    StuckMain(c, s);
    HaltedAllSpawned(c, s);
    hide ItemsInv, ReduceInv, OutcomeInv, Enabled, Stuck;
    OwedIsSending(c, s.phases, |s.phases|);
    if i :| 0 <= i < |s.phases| && s.phases[i] == Sending {
      CountNonzero(Live, c, s.phases, i, |s.phases|);
    } else {
      CountZero(Live, c, s.phases, |s.phases|);
    }
  }

  /** When every item succeeds and the first reduction fails, buffer and one receipt must take in all items,
      or else every uncancelled run that can end leaves workers waiting. */
  lemma FirstErrorAbandons<T, U, R>(c: Config<T, U, R>, schedule: seq<Action>, s: State<R>)
    requires c.Valid() && !TooMany(c) && c.source != []
    requires forall i: nat :: i < |c.source| ==> c.Succeeds(i) && c.reduceFails(c.zero, c.Mapped(i))
    requires Run(c, schedule) == Some(s) && !s.cancelled && Stuck(c, s)
    ensures s.Returned() && s.halted && |s.received| == 1
    ensures (exists i :: 0 <= i < |s.phases| && s.phases[i] == Sending) <==> |c.source| > c.bufferSize + 1
  {
    DeadlockIffTooMany(c, schedule, s);
    AllSucceed(c, |c.source|);
    if !s.halted {
      UndisturbedResult(c, schedule, s);
      assert |s.received| == |multiset(s.received)| == |multiset(c.Successes(|c.source|))| == |c.source|;
    }
    OneReceived(c, s);
    hide Inv, Run, Stuck, TooMany;
    AbandonedWorkers(c, s);
  }

  lemma OneReceived<T, U, R>(c: Config<T, U, R>, s: State<R>)
    requires Inv(c, s)
    requires forall i: nat :: i < |c.source| ==> c.Succeeds(i) && c.reduceFails(c.zero, c.Mapped(i))
    ensures s.received != [] ==> s.halted && |s.received| == 1
  {
    if s.received != [] {
      assert c.Succeeds(s.received[0]);
      assert s.received[..0] == [];
      assert c.FailsAt(s.received, 0);
    }
    hide CountersInv, ItemsInv, OutcomeInv;
  }

  lemma HaltedAllSpawned<T, U, R>(c: Config<T, U, R>, s: State<R>)
    requires c.Valid() && Inv(c, s) && s.halted && Stuck(c, s)
    ensures s.next == |s.phases| && s.Returned()
  {
    StuckReducing(c, s);
  }

  lemma {:induction false} AllSucceed<T, U, R>(c: Config<T, U, R>, k: nat)
    requires k <= |c.source| && forall i :: 0 <= i < |c.source| ==> c.Succeeds(i)
    ensures |c.Successes(k)| == k
  {
    if k > 0 {
      AllSucceed(c, k - 1);
    }
  }

  /** Without map errors, too many means more items than buffer and concurrency together. */
  lemma TooManyWithoutErrors<T, U, R>(c: Config<T, U, R>)
    requires c.Valid() && forall i :: 0 <= i < |c.source| ==> c.Succeeds(i)
    ensures TooMany(c) <==> |c.source| > c.bufferSize + c.concurrency
  {
    if c.source != [] {
      AllSucceed(c, |c.source| - 1);
    }
  }

  // ----- What the schedule says: which error, and in which order -----

  /** The items whose mapping failed, in the order of the schedule. */
  function Failures<T, U, R>(c: Config<T, U, R>, schedule: seq<Action>): seq<nat> {
    if schedule == [] then [] else
      var a := schedule[|schedule| - 1];
      Failures(c, schedule[..|schedule| - 1]) + if a.MapItem? && !c.Succeeds(a.i) then [a.i] else []
  }

  /** The items whose results were sent, in the order of the schedule. */
  function SentItems(schedule: seq<Action>): seq<nat> {
    if schedule == [] then [] else
      var a := schedule[|schedule| - 1];
      SentItems(schedule[..|schedule| - 1]) + if a.Send? then [a.i] else []
  }

  lemma ListsStep<T, U, R>(c: Config<T, U, R>, s: State<R>, a: Action)
    requires Inv(c, s) && Enabled(c, s, a)
    ensures var t := Apply(c, s, a);
            && t.errors == s.errors + (if a.MapItem? && !c.Succeeds(a.i) then [a.i] else [])
            && t.received + t.channel == s.received + s.channel + if a.Send? then [a.i] else []
  {
    hide CountersInv, ItemsInv, ReduceInv, OutcomeInv;
    var none: seq<nat> := [];
    assert s.errors + none == s.errors && s.received + s.channel + none == s.received + s.channel;
  }

  /** The channel keeps order: what was reduced and what still waits is what was sent, in that order.  And
      errors are recorded in the order of the failing mappings. */
  lemma {:induction false} FirstInFirstOut<T, U, R>(c: Config<T, U, R>, schedule: seq<Action>, s: State<R>)
    requires Run(c, schedule) == Some(s)
    ensures s.received + s.channel == SentItems(schedule)
    ensures s.errors == Failures(c, schedule)
  {
    if schedule != [] {
      var front, a := schedule[..|schedule| - 1], schedule[|schedule| - 1];
      var before := Run(c, front).value;
      hide Inv, Enabled, Apply;
      FirstInFirstOut(c, front, before);
      ListsStep(c, before, a);
    }
  }

  /** The steps before `MapReduce` returned. */
  function BeforeReturn(schedule: seq<Action>): seq<Action> {
    if schedule == [] then [] else
      var front := schedule[..|schedule| - 1];
      if Return in front then BeforeReturn(front)
      else if schedule[|schedule| - 1] == Return then front
      else schedule
  }

  lemma OutcomeStep<T, U, R>(c: Config<T, U, R>, s: State<R>, a: Action)
    requires Inv(c, s) && Enabled(c, s, a)
    ensures var t := Apply(c, s, a);
            && (s.Returned() ==> t.outcome == s.outcome && t.received == s.received && t.halted == s.halted
                                 && a != Return && a != Abort)
            && (!s.Returned() ==>
                  t.outcome == if a == Return then Some(Ending(s))
                               else if a == Abort then Some(Outcome(c.zero, ContextError)) else s.outcome)
            && (a == Return ==> t.received == s.received && t.halted == s.halted)
            && (s.Returned() <==> s.outcome.Some?)
  {
    hide CountersInv, ItemsInv;
  }

  /** The state at the return, and what has been kept of it since. */
  ghost predicate DecidedBy<T, U, R>(c: Config<T, U, R>, before: seq<Action>, s: State<R>) {
    && Run(c, before).Some?
    && var r := Run(c, before).value;
       && (r.halted ==> r.received != [])
       && s.outcome == Some(Ending(r)) && s.received == r.received && s.halted == r.halted
  }

  lemma BeforeReturnSnoc(front: seq<Action>, a: Action)
    ensures BeforeReturn(front + [a])
            == if Return in front then BeforeReturn(front) else if a == Return then front else front + [a]
    ensures forall b: Action :: b in front + [a] <==> b in front || b == a
  {
    assert (front + [a])[..|front|] == front;
  }

  lemma RunFront<T, U, R>(c: Config<T, U, R>, front: seq<Action>, a: Action, s: State<R>)
    requires Run(c, front + [a]) == Some(s)
    ensures Run(c, front).Some? && Enabled(c, Run(c, front).value, a) && s == Apply(c, Run(c, front).value, a)
  {
    assert (front + [a])[..|front|] == front;
    hide Inv, Enabled, Apply;
  }

  /** What is returned was decided at the `Return` or `Abort` step. */
  ghost predicate Decided<T, U, R>(c: Config<T, U, R>, schedule: seq<Action>, s: State<R>) {
    && (s.Returned() <==> Return in schedule || Abort in schedule)
    && !(Return in schedule && Abort in schedule)
    && (Abort in schedule ==> s.outcome == Some(Outcome(c.zero, ContextError)))
    && (Return in schedule ==> DecidedBy(c, BeforeReturn(schedule), s))
  }

  /** A step after the return changes nothing of it. */
  lemma StaysDecided<T, U, R>(c: Config<T, U, R>, front: seq<Action>, before: State<R>, a: Action, s: State<R>)
    requires Decided(c, front, before) && a != Return && a != Abort
    requires s.outcome == before.outcome
    requires before.Returned() ==> s.received == before.received && s.halted == before.halted
    ensures Decided(c, front + [a], s)
  {
    BeforeReturnSnoc(front, a);
    hide Run, Ending, BeforeReturn;
  }

  lemma NowDecided<T, U, R>(c: Config<T, U, R>, front: seq<Action>, before: State<R>, s: State<R>)
    requires Decided(c, front, before) && !before.Returned()
    requires Run(c, front) == Some(before) && (before.halted ==> before.received != [])
    requires s.outcome == Some(Ending(before)) && s.received == before.received && s.halted == before.halted
    ensures Decided(c, front + [Return], s)
  {
    BeforeReturnSnoc(front, Return);
    hide Run, Ending, BeforeReturn;
  }

  lemma NowAborted<T, U, R>(c: Config<T, U, R>, front: seq<Action>, before: State<R>, s: State<R>)
    requires Decided(c, front, before) && !before.Returned()
    requires s.outcome == Some(Outcome(c.zero, ContextError))
    ensures Decided(c, front + [Abort], s)
  {
    BeforeReturnSnoc(front, Abort);
    hide Run, Ending, BeforeReturn, DecidedBy;
  }

  lemma {:induction false} DecidedAtReturn<T, U, R>(c: Config<T, U, R>, schedule: seq<Action>, s: State<R>)
    requires Run(c, schedule) == Some(s)
    ensures Decided(c, schedule, s)
  {
    hide *;
    if schedule == [] {
      NothingDecided(c, s);
    } else {
      var front, a := schedule[..|schedule| - 1], schedule[|schedule| - 1];
      assert schedule == front + [a];
      RunFront(c, front, a, s);
      DecidedAtReturn(c, front, Run(c, front).value);
      DecidedStep(c, front, Run(c, front).value, a);
    }
  }

  lemma NothingDecided<T, U, R>(c: Config<T, U, R>, s: State<R>)
    requires Run(c, []) == Some(s)
    ensures Decided(c, [], s)
  {
  }

  lemma DecidedStep<T, U, R>(c: Config<T, U, R>, front: seq<Action>, before: State<R>, a: Action)
    requires Run(c, front) == Some(before) && Inv(c, before) && Enabled(c, before, a)
    requires Decided(c, front, before)
    ensures Decided(c, front + [a], Apply(c, before, a))
  {
    hide *;
    var s := Apply(c, before, a);
    OutcomeStep(c, before, a);
    if a == Return {
      MainFacts(c, before);
      NowDecided(c, front, before, s);
    } else if a == Abort {
      NowAborted(c, front, before, s);
    } else {
      StaysDecided(c, front, before, a, s);
    }
  }

  /** Which error is returned, from the schedule: the context's exactly if the spawning loop was aborted; else
      that of the first item whose mapping failed before the return, if there is one; else that of the last
      item reduced, if its reduction failed; else none. */
  lemma ErrorIs<T, U, R>(c: Config<T, U, R>, schedule: seq<Action>, s: State<R>)
    requires Run(c, schedule) == Some(s) && s.Returned()
    ensures var error, failed := s.outcome.value.error, Failures(c, BeforeReturn(schedule));
            && (error == ContextError <==> Abort in schedule)
            && (Abort !in schedule ==>
                  && Return in schedule
                  && (forall i :: error == MapError(i) <==> failed != [] && i == failed[0])
                  && (forall i :: error == ReduceError(i) <==>
                        failed == [] && s.received != [] && i == s.received[|s.received| - 1]
                        && c.FailsAt(s.received, |s.received| - 1))
                  && (error == NoError <==>
                        failed == [] && (s.received == [] || !c.FailsAt(s.received, |s.received| - 1))))
  {
    DecidedAtReturn(c, schedule, s);
    hide Run, BeforeReturn, Failures, CountersInv, ItemsInv, OutcomeInv;
    if Abort !in schedule {
      FirstInFirstOut(c, BeforeReturn(schedule), Run(c, BeforeReturn(schedule)).value);
    }
  }

  /** Two items that both fail, one worker: the first one's error is returned. */
  lemma FirstErrorWins<T, U, R>(c: Config<T, U, R>) returns (schedule: seq<Action>)
    requires c.concurrency == 1 && c.bufferSize == 1 && |c.source| == 2 && !c.Succeeds(0) && !c.Succeeds(1)
    ensures Run(c, schedule).Some? && Run(c, schedule).value.outcome == Some(Outcome(c.zero, MapError(0)))
  {
    schedule := [];
    assert Run(c, schedule) == Some(Start(c));
    hide Run, Inv;
    schedule := FailOne(c, 0, schedule);
    schedule := FailOne(c, 1, schedule);
    RunSnoc(c, schedule, Close);
    schedule := schedule + [Close];
    RunSnoc(c, schedule, Return);
    schedule := schedule + [Return];
  }

  /** Failing items before `k`, each spawned, mapped and gone. */
  ghost predicate FailedBefore<T, U, R>(c: Config<T, U, R>, s: State<R>, k: nat) {
    && |s.phases| == |c.source| && s.next == k && s.sem == 0 && s.wg == 0 && s.channel == [] && !s.closed
    && s.received == [] && s.acc == c.zero && !s.halted && !s.cancelled && s.outcome.None?
    && s.errors == seq(k, i => i)
  }

  lemma FailOne<T, U, R>(c: Config<T, U, R>, k: nat, schedule: seq<Action>) returns (more: seq<Action>)
    requires c.concurrency > 0 && k < |c.source| && !c.Succeeds(k)
    requires Run(c, schedule).Some? && FailedBefore(c, Run(c, schedule).value, k)
    ensures Run(c, more).Some? && FailedBefore(c, Run(c, more).value, k + 1)
  {
    hide Run, Inv;
    RunSnoc(c, schedule, Spawn);
    more := schedule + [Spawn];
    RunSnoc(c, more, MapItem(k));
    more := more + [MapItem(k)];
    RunSnoc(c, more, Release(k));
    more := more + [Release(k)];
    RunSnoc(c, more, SignOff(k));
    more := more + [SignOff(k)];
    assert seq(k, i => i) + [k] == seq(k + 1, i => i);
  }
}
