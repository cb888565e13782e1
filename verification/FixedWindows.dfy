/**
 The fixed-window rate limiter.

 Each key has a count and the start of its window.  A call a whole window after the start opens a new
 window with itself as the first request and is admitted whatever the rate; any other call is
 admitted while the count is below the rate.
 */
module FixedWindows {
  import opened RateEvents

  datatype Counter = Counter(count: int, start: int)

  datatype Slot = Missing | Present(counter: Counter)

  /** `LoadOrStore`: a missing counter starts empty, now. */
  function Loaded(s: Slot, now: int): Counter {
    if s.Missing? then Counter(0, now) else s.counter
  }

  function Admits(rate: int, window: int, s: Slot, now: int): bool {
    now - Loaded(s, now).start >= window || Loaded(s, now).count < rate
  }

  function AfterCall(rate: int, window: int, s: Slot, now: int): Counter {
    var c := Loaded(s, now);
    if now - c.start >= window then Counter(1, now)
    else if c.count < rate then c.(count := c.count + 1)
    else c
  }

  predicate Stale(window: int, c: Counter, now: int) {
    now - c.start >= window * 2
  }

  class SimpleLimiter {
    const rate: int
    const window: int
    var counters: map<string, Counter>

    constructor (rate: int, window: int)
      ensures this.rate == rate && this.window == window && counters == map[]
    {
      this.rate := rate;
      this.window := window;
      counters := map[];
    }

    function At(key: string): Slot
      reads this
    {
      if key in counters then Present(counters[key]) else Missing
    }

    method Allow(key: string, now: int) returns (ok: bool)
      modifies this
      ensures ok == Admits(rate, window, old(At(key)), now)
      ensures counters == old(counters)[key := AfterCall(rate, window, old(At(key)), now)]
    {
      if key !in counters {
        counters := counters[key := Counter(0, now)];
      }
      var c := counters[key];
      if now - c.start >= window {
        counters := counters[key := Counter(1, now)];
        return true;
      }
      if c.count >= rate {
        return false;
      }
      counters := counters[key := c.(count := c.count + 1)];
      return true;
    }

    /** A cleanup's look at a key, under the key's lock: the `Check` step of the runs below. */
    method Look(key: string, now: int) returns (expired: bool)
      requires key in counters
      ensures forall s: KeyState :: s.slot == At(key) ==>
                Apply(rate, window, s, Check(now)) == s.(marked := expired)
    {
      expired := now - counters[key].start >= window * 2;
    }

    /** The deletion that follows when the lock has been given back: the `Delete` step. */
    method Forget(key: string)
      modifies this
      ensures counters == old(counters) - {key}
      ensures forall s: KeyState :: s.marked ==> Apply(rate, window, s, Delete).slot == At(key)
    {
      counters := counters - {key};
    }

    /** One cleanup pass with nothing in between. */
    method Cleanup(now: int)
      modifies this
      ensures counters == map k | k in old(counters) && !Stale(window, old(counters)[k], now) :: old(counters)[k]
    {
      var keys := counters.Keys;
      while keys != {}
        invariant keys <= old(counters).Keys
        invariant counters == map k | k in old(counters) && (k in keys || !Stale(window, old(counters)[k], now))
                                  :: old(counters)[k]
        decreases keys
      {
        var key :| key in keys;
        var expired := Look(key, now);
        assert Apply(rate, window, KeyState(At(key), false, []), Check(now)).marked == expired;
        if expired {
          Forget(key);
        }
        keys := keys - {key};
      }
    }
  }

  // ----- Runs of one key -----

  datatype KeyState = KeyState(slot: Slot, marked: bool, admitted: seq<int>)

  function Apply(rate: int, window: int, s: KeyState, e: Event): KeyState {
    match e
    case Call(now) =>
      KeyState(Present(AfterCall(rate, window, s.slot, now)), s.marked,
               s.admitted + if Admits(rate, window, s.slot, now) then [now] else [])
    case Check(now) => s.(marked := s.slot.Present? && Stale(window, s.slot.counter, now))
    case Delete => if s.marked then s.(slot := Missing, marked := false) else s
  }

  function Run(rate: int, window: int, events: seq<Event>): KeyState {
    if events == [] then KeyState(Missing, false, []) else
      Apply(rate, window, Run(rate, window, events[..|events| - 1]), events[|events| - 1])
  }

  lemma RunSnoc(rate: int, window: int, events: seq<Event>, e: Event)
    ensures Run(rate, window, events + [e]) == Apply(rate, window, Run(rate, window, events), e)
  {
    assert (events + [e])[..|events|] == events;
  }

  // ----- The burst bound -----

  /** What a slot says about the number `n` of admissions in [a, a + window) so far, before that interval
      is over.  `excused` says that a call in it came between a cleanup's look and its deletion: then one
      count of the interval can have been forgotten, and no second one, because what was counted since is
      too young to be found stale. */
  predicate BurstCount(rate: int, slot: Slot, marked: bool, excused: bool, n: int, a: int, last: int) {
    match slot
    case Missing => !marked && n <= if excused then 2 * rate - 1 else rate - 1
    case Present(c) =>
      && 1 <= c.count <= rate && c.start <= last
      && if c.start < a then n <= c.count - 1
         else n <= c.count + rate - 1 || (excused && !marked && n <= c.count + 2 * rate - 1)
  }

  ghost predicate BurstInv(rate: int, window: int, s: KeyState, excused: bool, a: int, last: int) {
    var n := CountIn(s.admitted, a, a + window);
    && AtMost(s.admitted, last)
    && n <= (if excused then 3 * rate - 1 else 2 * rate - 1)
    && (last < a + window ==> BurstCount(rate, s.slot, s.marked, excused, n, a, last))
  }

  lemma BurstCountStep(rate: int, window: int, slot: Slot, marked: bool, excused: bool, n: int, a: int, now: int)
    requires rate >= 1 && window > 0 && now < a + window
    requires BurstCount(rate, slot, marked, excused, n, a, now) && (now < a ==> n <= 0)
    ensures BurstCount(rate, Present(AfterCall(rate, window, slot, now)), marked, excused,
                       n + (if Admits(rate, window, slot, now) && a <= now then 1 else 0), a, now)
  {
  }

  lemma BurstStep(rate: int, window: int, s: KeyState, excused: bool, a: int, now: int)
    requires rate >= 1 && window > 0
    requires BurstInv(rate, window, s, excused, a, now)
    ensures BurstInv(rate, window, Apply(rate, window, s, Call(now)), excused, a, now)
  {
    hide CountIn, Admits, AfterCall, BurstCount;
    var n := CountIn(s.admitted, a, a + window);
    CountSnoc(s.admitted, now, a, a + window);
    assert s.admitted + [] == s.admitted;
    if now < a {
      CountNone(s.admitted, a, a + window);
    }
    if now < a + window {
      var more := n + if Admits(rate, window, s.slot, now) && a <= now then 1 else 0;
      BurstCountStep(rate, window, s.slot, s.marked, excused, n, a, now);
    }
  }

  /** What a deletion needs to know: that it changes nothing, that the window is over, that nothing was
      admitted in the interval yet, that the interval is over, or that it is excused. */
  lemma BurstDeleted(rate: int, window: int, s: KeyState, excused: bool, a: int, t: int)
    requires rate >= 1 && window > 0 && s.marked && BurstInv(rate, window, s, excused, a, t)
    ensures s.slot.Present? && t - s.slot.counter.start >= window ==>
              BurstInv(rate, window, KeyState(Missing, false, s.admitted), excused, a, t)
    ensures CountIn(s.admitted, a, a + window) == 0 || t >= a + window ==>
              BurstInv(rate, window, KeyState(Missing, false, s.admitted), excused, a, t)
    ensures BurstInv(rate, window, KeyState(Missing, false, s.admitted), true, a, t)
  {
    hide CountIn;
  }

  ghost predicate Excused(window: int, events: seq<Event>, a: int) {
    DisturbedIn(events, a, a + window) > 0
  }

  lemma BurstDelete(rate: int, window: int, front: seq<Event>, a: int, t: int)
    requires rate >= 1 && window > 0 && NotBefore(front, t, window)
    requires BurstInv(rate, window, Run(rate, window, front), Excused(window, front, a), a, t)
    requires EndsInCall(front) ==> AtMost(Run(rate, window, front).admitted, front[|front| - 1].now)
                                   && front[|front| - 1].now <= t
    ensures BurstInv(rate, window, Apply(rate, window, Run(rate, window, front), Delete),
                     Excused(window, front + [Delete], a), a, t)
  {
    var s := Run(rate, window, front);
    DisturbedInSnoc(front, Delete, a, a + window);
    if EndsInCall(front) && front[|front| - 1].now < a {
      CountNone(s.admitted, a, a + window);
    }
    hide Run, DisturbedIn, NotBefore, CountIn, BurstCount;
    if s.marked {
      BurstDeleted(rate, window, s, Excused(window, front, a), a, t);
    }
  }

  lemma {:induction false} BurstOf(rate: int, window: int, events: seq<Event>, a: int, t: int)
    requires rate >= 1 && window > 0
    requires Ordered(events, window) && NotBefore(events, t, window)
    ensures BurstInv(rate, window, Run(rate, window, events), Excused(window, events, a), a, t)
  {
    if events == [] {
    } else {
      var front, e := events[..|events| - 1], events[|events| - 1];
      Prefix(events, window);
      NotBeforePrefix(events, t, window);
      assert front + [e] == events;
      hide *;
      RunSnoc(rate, window, front, e);
      BurstOf(rate, window, front, a, t);
      if e.Delete? {
        BurstBefore(rate, window, front, a, t);
        BurstDelete(rate, window, front, a, t);
      } else if e.Call? {
        BurstOf(rate, window, front, a, e.now);
        BurstStep(rate, window, Run(rate, window, front), Excused(window, front, a), a, e.now);
      }
    }
  }

  /** Nothing is admitted later than the last call. */
  lemma BurstBefore(rate: int, window: int, front: seq<Event>, a: int, t: int)
    requires rate >= 1 && window > 0
    requires Ordered(front, window) && NotBefore(front, t, window)
    ensures EndsInCall(front) ==> AtMost(Run(rate, window, front).admitted, front[|front| - 1].now)
                                  && front[|front| - 1].now <= t
    decreases |front|, 1
  {
    if EndsInCall(front) {
      NotBeforeLastCall(front, window);
      NotBeforePrefix(front, t, window);
      hide Run, Ordered, NotBefore, CountIn, BurstCount;
      AdmittedAtMost(rate, window, front, front[|front| - 1].now);
    }
  }

  lemma {:induction false} AdmittedAtMost(rate: int, window: int, events: seq<Event>, t: int)
    requires NotBefore(events, t, window)
    ensures AtMost(Run(rate, window, events).admitted, t)
  {
    if events != [] {
      NotBeforePrefix(events, t, window);
      hide NotBefore, Admits, AfterCall, Stale;
      AdmittedAtMost(rate, window, events[..|events| - 1], t);
    }
  }

  /** Burst bound: for a positive rate, no interval [a, a + window) of any run holds more than 3 * rate - 1
      admissions of a key, however many cleanups are disturbed; and none holds more than 2 * rate - 1
      unless a deletion comes right after a call in that interval. */
  lemma BurstBound(rate: int, window: int, events: seq<Event>, a: int)
    requires rate >= 1 && window > 0
    requires Ordered(events, window)
    ensures CountIn(Run(rate, window, events).admitted, a, a + window) <= 3 * rate - 1
    ensures DisturbedIn(events, a, a + window) == 0 ==>
              CountIn(Run(rate, window, events).admitted, a, a + window) <= 2 * rate - 1
  {
    var t := SomeTimeAfter(events, window);
    BurstOf(rate, window, events, a, t);
    hide Run, DisturbedIn, CountIn, BurstCount;
  }

  // ----- Cleanup -----

  /** The limiter with cleanups is in the same state as the one without, or has forgotten a counter
      whose window is over for every later call. */
  ghost predicate Alike(window: int, s: Slot, r: Slot, t: int) {
    s == r || (s.Missing? && r.Present? && t - r.counter.start >= window)
  }

  lemma {:induction false} CleanupAlike(rate: int, window: int, events: seq<Event>, t: int)
    requires rate >= 1 && window > 0
    requires Ordered(events, window) && Disturbed(events) == 0 && NotBefore(events, t, window)
    ensures var s, r := Run(rate, window, events), Run(rate, window, Calls(events));
            s.admitted == r.admitted && Alike(window, s.slot, r.slot, t)
  {
    if events != [] {
      var front, e := events[..|events| - 1], events[|events| - 1];
      Prefix(events, window);
      NotBeforePrefix(events, t, window);
      CleanupAlike(rate, window, front, t);
      assert front + [e] == events;
      hide *;
      DisturbedSnoc(front, e);
      RunSnoc(rate, window, front, e);
      CallsSnoc(front, e);
      var s, r := Run(rate, window, front), Run(rate, window, Calls(front));
      if e.Call? {
        CleanupAlike(rate, window, front, e.now);
        RunSnoc(rate, window, Calls(front), e);
      } else {
        assert Calls(front) + [] == Calls(front);
      }
    }
  }

  // ----- What the counter means -----

  /** Where the latest window opened: with the first admission, and then with each one that comes a whole
      window or more after the one that opened the window before. */
  function Opened(window: int, admitted: seq<int>): int
    requires admitted != []
  {
    var front, last := admitted[..|admitted| - 1], admitted[|admitted| - 1];
    if front == [] || last - Opened(window, front) >= window then last else Opened(window, front)
  }

  lemma OpenedSnoc(window: int, admitted: seq<int>, t: int)
    ensures Opened(window, admitted + [t])
            == if admitted == [] || t - Opened(window, admitted) >= window then t else Opened(window, admitted)
  {
    assert (admitted + [t])[..|admitted|] == admitted;
  }

  /** The counter of a key that is only called: its window is the one opened last, and its count that of
      the admissions since. */
  ghost predicate Tracks(rate: int, window: int, s: KeyState, t: int) {
    match s.slot
    case Missing => s.admitted == []
    case Present(c) =>
      && s.admitted != [] && c.start == Opened(window, s.admitted) && c.start <= t
      && 1 <= c.count <= rate && c.count == CountIn(s.admitted, c.start, c.start + window)
      && forall i :: 0 <= i < |s.admitted| ==> s.admitted[i] < c.start + window
  }

  lemma TracksCall(rate: int, window: int, s: KeyState, now: int)
    requires rate >= 1 && window > 0 && Tracks(rate, window, s, now) && AtMost(s.admitted, now)
    ensures Tracks(rate, window, Apply(rate, window, s, Call(now)), now)
  {
    hide CountIn, Opened;
    if s.slot.Missing? || now - s.slot.counter.start >= window {
      TracksOpening(window, s, now);
    } else {
      var c := s.slot.counter;
      OpenedSnoc(window, s.admitted, now);
      CountSnoc(s.admitted, now, c.start, c.start + window);
      assert s.admitted + [] == s.admitted;
    }
  }

  /** A call that opens a window is the only admission in it. */
  lemma TracksOpening(window: int, s: KeyState, now: int)
    requires window > 0 && AtMost(s.admitted, now)
    requires s.admitted != [] ==>
               now - Opened(window, s.admitted) >= window
               && forall i :: 0 <= i < |s.admitted| ==> s.admitted[i] < Opened(window, s.admitted) + window
    ensures Opened(window, s.admitted + [now]) == now
    ensures CountIn(s.admitted + [now], now, now + window) == 1
    ensures forall i :: 0 <= i < |s.admitted + [now]| ==> (s.admitted + [now])[i] < now + window
  {
    OpenedSnoc(window, s.admitted, now);
    hide CountIn, Opened;
    CountSnoc(s.admitted, now, now, now + window);
    CountNone(s.admitted, now, now + window);
  }

  lemma {:induction false} CallsTrack(rate: int, window: int, events: seq<Event>, t: int)
    requires rate >= 1 && window > 0 && forall i :: 0 <= i < |events| ==> events[i].Call?
    requires Ordered(events, window) && NotBefore(events, t, window)
    ensures Tracks(rate, window, Run(rate, window, events), t)
  {
    if events != [] {
      var front, e := events[..|events| - 1], events[|events| - 1];
      Prefix(events, window);
      NotBeforePrefix(events, t, window);
      assert front + [e] == events;
      hide Ordered, NotBefore, Apply, CountIn, Opened;
      RunSnoc(rate, window, front, e);
      CallsTrack(rate, window, front, e.now);
      AdmittedAtMost(rate, window, front, e.now);
      TracksCall(rate, window, Run(rate, window, front), e.now);
    }
  }

  /** Exactness: for a positive rate and without disturbed cleanups, a call is admitted if and only if it
      is the first, or the window opened last is over, or fewer than `rate` admissions lie in it. */
  lemma ExactAdmission(rate: int, window: int, events: seq<Event>, now: int)
    requires rate >= 1 && window > 0 && Disturbed(events) == 0
    requires Ordered(events + [Call(now)], window)
    ensures var s := Run(rate, window, events);
            Admits(rate, window, s.slot, now) <==>
              || s.admitted == []
              || now - Opened(window, s.admitted) >= window
              || CountIn(s.admitted, Opened(window, s.admitted), Opened(window, s.admitted) + window) < rate
  {
    hide *;
    PrefixSnoc(events, Call(now), window);
    CleanupAlike(rate, window, events, now);
    CallsOrdered(events, window, now);
    CallsTrack(rate, window, Calls(events), now);
    TracksDecides(rate, window, Run(rate, window, events), Run(rate, window, Calls(events)), now);
  }

  lemma TracksDecides(rate: int, window: int, s: KeyState, r: KeyState, now: int)
    requires rate >= 1 && window > 0 && s.admitted == r.admitted
    requires Alike(window, s.slot, r.slot, now) && Tracks(rate, window, r, now)
    ensures Admits(rate, window, s.slot, now) <==>
              || s.admitted == []
              || now - Opened(window, s.admitted) >= window
              || CountIn(s.admitted, Opened(window, s.admitted), Opened(window, s.admitted) + window) < rate
    ensures s.slot.Present? ==> s.admitted != [] && s.slot.counter.start == Opened(window, s.admitted)
  {
    hide CountIn, Opened;
  }

  /** Under the same conditions a key is stale exactly from two windows after its window opened. */
  lemma StaleIff(rate: int, window: int, events: seq<Event>, now: int)
    requires rate >= 1 && window > 0 && Disturbed(events) == 0
    requires Ordered(events, window) && Run(rate, window, events).slot.Present?
    ensures var s := Run(rate, window, events);
            s.admitted != []
            && (Stale(window, s.slot.counter, now) <==> now - Opened(window, s.admitted) >= 2 * window)
  {
    hide Run, Apply, Ordered, NotBefore, Opened, CountIn, Disturbed, Calls;
    var t := SomeTimeAfter(events, window);
    CleanupAlike(rate, window, events, t);
    CallsOrdered(events, window, t);
    CallsTrack(rate, window, Calls(events), t);
  }

  /** Cleanups that no call disturbs change no decision. */
  ghost predicate UndisturbedInvisible(rate: int, window: int) {
    forall events, t :: Ordered(events, window) && Disturbed(events) == 0 && NotBefore(events, t, window) ==>
      Run(rate, window, events).admitted == Run(rate, window, Calls(events)).admitted
  }

  /** At rate 0 or less the counter left by a refused call admits once its window is over, so
      deleting the counter refuses one call more. */
  lemma NoRateShowsCleanup(rate: int, window: int)
    requires rate <= 0 && window > 0
    ensures !UndisturbedInvisible(rate, window)
  {
    var t := 2 * window;
    var looked := [Call(0)] + [Check(t)] + [Delete];
    var events := looked + [Call(t)];
    RunSnoc(rate, window, [], Call(0));
    RunSnoc(rate, window, [Call(0)], Check(t));
    RunSnoc(rate, window, [Call(0)] + [Check(t)], Delete);
    RunSnoc(rate, window, looked, Call(t));
    RunSnoc(rate, window, [Call(0)], Call(t));
    assert [] + [Call(0)] == [Call(0)];
    CallsSnoc([], Call(0));
    CallsSnoc([Call(0)], Check(t));
    CallsSnoc([Call(0)] + [Check(t)], Delete);
    CallsSnoc(looked, Call(t));
    var nothing: seq<Event> := [];
    assert Calls([Call(0)]) == [Call(0)] && [Call(0)] + nothing == [Call(0)];
    assert Run(rate, window, []) == KeyState(Missing, false, []);
    hide Run, Calls, UndisturbedInvisible;
    assert Run(rate, window, [Call(0)]) == KeyState(Present(Counter(0, 0)), false, []);
    assert Run(rate, window, looked) == KeyState(Missing, false, []);
    assert Run(rate, window, events).admitted == [];
    assert Run(rate, window, Calls(events)).admitted == [t];
    CleanupShows(rate, window, events, t);
  }

  lemma CleanupShows(rate: int, window: int, events: seq<Event>, t: int)
    requires window > 0 && t == 2 * window
    requires events == [Call(0)] + [Check(t)] + [Delete] + [Call(t)]
    requires Run(rate, window, events).admitted != Run(rate, window, Calls(events)).admitted
    ensures !UndisturbedInvisible(rate, window)
  {
    hide Run, Calls;
    assert Ordered(events, window) && NotBefore(events, t, window);
    NotDisturbed(t);
  }

  lemma NotDisturbed(t: int)
    ensures Disturbed([Call(0)] + [Check(t)] + [Delete] + [Call(t)]) == 0
  {
    DisturbedSnoc([], Call(0));
    DisturbedSnoc([Call(0)], Check(t));
    DisturbedSnoc([Call(0)] + [Check(t)], Delete);
    DisturbedSnoc([Call(0)] + [Check(t)] + [Delete], Call(t));
    assert [] + [Call(0)] == [Call(0)];
  }

  /** Undisturbed cleanups change no decision exactly for positive rates. */
  lemma UndisturbedInvisibleIffRate(rate: int, window: int)
    requires window > 0
    ensures UndisturbedInvisible(rate, window) <==> rate >= 1
  {
    if rate >= 1 {
      forall events, t | Ordered(events, window) && Disturbed(events) == 0 && NotBefore(events, t, window)
        ensures Run(rate, window, events).admitted == Run(rate, window, Calls(events)).admitted
      {
        CleanupAlike(rate, window, events, t);
      }
    } else {
      NoRateShowsCleanup(rate, window);
    }
  }

  // ----- Deleting at the wrong moment -----

  /** What is decided on calls at the given times, starting from a slot. */
  function Decisions(rate: int, window: int, slot: Slot, times: seq<int>): seq<bool>
    decreases |times|
  {
    if times == [] then [] else
      [Admits(rate, window, slot, times[0])]
      + Decisions(rate, window, Present(AfterCall(rate, window, slot, times[0])), times[1..])
  }

  /** Deleting the counter at time `now` changes no later decision. */
  ghost predicate DeletionInvisible(rate: int, window: int, slot: Slot, now: int) {
    forall times :: Ascending(times) && (forall i :: 0 <= i < |times| ==> times[i] >= now) ==>
      Decisions(rate, window, slot, times) == Decisions(rate, window, Missing, times)
  }

  /** At a positive rate every counter has counted something. */
  lemma {:induction false} Counted(rate: int, window: int, events: seq<Event>)
    requires rate >= 1
    ensures Run(rate, window, events).slot.Present? ==> Run(rate, window, events).slot.counter.count >= 1
  {
    if events != [] {
      Counted(rate, window, events[..|events| - 1]);
    }
  }

  function Repeat(t: int, n: nat): seq<int> {
    seq(n, _ => t)
  }

  predicate AllAdmitted(decisions: seq<bool>) {
    decisions == [] || (decisions[0] && AllAdmitted(decisions[1..]))
  }

  /** Within a window, `n` more calls at one instant are all admitted only if there is room. */
  lemma {:induction false} Burst(rate: int, window: int, c: Counter, now: int, n: nat)
    requires now - c.start < window
    ensures AllAdmitted(Decisions(rate, window, Present(c), Repeat(now, n))) <==> n == 0 || c.count + n <= rate
    decreases n
  {
    if n > 0 {
      var next := AfterCall(rate, window, Present(c), now);
      assert Repeat(now, n)[1..] == Repeat(now, n - 1);
      Burst(rate, window, next, now, n - 1);
      var rest := Decisions(rate, window, Present(next), Repeat(now, n - 1));
      assert ([Admits(rate, window, Present(c), now)] + rest)[1..] == rest;
    }
  }

  /** In an open window the deleted count lets a full rate in again. */
  lemma OpenWindowCounts(rate: int, window: int, c: Counter, now: int)
    requires window > 0 && rate >= 1 && c.count >= 1 && now - c.start < window
    ensures !DeletionInvisible(rate, window, Present(c), now)
  {
    var times := Repeat(now, rate);
    Burst(rate, window, c, now, rate);
    Burst(rate, window, Counter(0, now), now, rate);
    assert Decisions(rate, window, Missing, times) == Decisions(rate, window, Present(Counter(0, now)), times);
    hide Decisions, AllAdmitted;
    assert Decisions(rate, window, Present(c), times) != Decisions(rate, window, Missing, times);
  }

  /** At rate 0 or less the counter itself is what admits once its window is over. */
  lemma NoRateCounts(rate: int, window: int, c: Counter, now: int)
    requires window > 0 && rate <= 0
    ensures !DeletionInvisible(rate, window, Present(c), now)
  {
    var t := if now - c.start >= window then now else c.start + window;
    var times := [t];
    assert Decisions(rate, window, Present(c), times)[0] && !Decisions(rate, window, Missing, times)[0];
    hide Decisions;
    assert Ascending(times);
  }

  /** A deletion is invisible exactly when there is nothing to delete, or the rate is positive and the
      window is over.  That is what a cleanup's look establishes, and what a call in between undoes. */
  lemma DeletionInvisibleIff(rate: int, window: int, slot: Slot, now: int)
    requires window > 0 && (rate >= 1 && slot.Present? ==> slot.counter.count >= 1)
    ensures DeletionInvisible(rate, window, slot, now)
            <==> slot.Missing? || (rate >= 1 && now - slot.counter.start >= window)
  {
    if slot.Present? {
      if rate <= 0 {
        NoRateCounts(rate, window, slot.counter, now);
      } else if now - slot.counter.start < window {
        OpenWindowCounts(rate, window, slot.counter, now);
      } else {
        forall times | Ascending(times) && (forall i :: 0 <= i < |times| ==> times[i] >= now)
          ensures Decisions(rate, window, slot, times) == Decisions(rate, window, Missing, times)
        {
        }
      }
    }
  }

  /** A call between a cleanup's look and its deletion is forgotten: at rate 1 two requests get through
      in one window, one more than without the cleanup. */
  lemma DisturbedCleanup(window: int)
    requires window > 0
    ensures var t := 2 * window;
            var events := [Call(0)] + [Check(t)] + [Call(t)] + [Delete] + [Call(t)];
            && Ordered(events, window) && NotBefore(events, t, window) && Disturbed(events) == 1
            && CountIn(Run(1, window, events).admitted, t, t + window) == 2
            && CountIn(Run(1, window, Calls(events)).admitted, t, t + window) == 1
  {
    var t := 2 * window;
    DisturbedRun(window, t);
    CallsRun(window, t);
    hide Run, Calls, Disturbed;
    CountSnoc([], 0, t, t + window);
    CountSnoc([0], t, t, t + window);
    CountSnoc([0, t], t, t, t + window);
    assert [] + [0] == [0] && [0] + [t] == [0, t] && [0, t] + [t] == [0, t, t];
  }

  lemma DisturbedRun(window: int, t: int)
    requires window > 0 && t == 2 * window
    ensures Run(1, window, [Call(0)] + [Check(t)] + [Call(t)] + [Delete] + [Call(t)]).admitted == [0, t, t]
    ensures Disturbed([Call(0)] + [Check(t)] + [Call(t)] + [Delete] + [Call(t)]) == 1
  {
    var looked := [Call(0)] + [Check(t)];
    RunSnoc(1, window, [], Call(0));
    RunSnoc(1, window, [Call(0)], Check(t));
    RunSnoc(1, window, looked, Call(t));
    RunSnoc(1, window, looked + [Call(t)], Delete);
    RunSnoc(1, window, looked + [Call(t)] + [Delete], Call(t));
    DisturbedSnoc([], Call(0));
    DisturbedSnoc([Call(0)], Check(t));
    DisturbedSnoc(looked, Call(t));
    DisturbedSnoc(looked + [Call(t)], Delete);
    DisturbedSnoc(looked + [Call(t)] + [Delete], Call(t));
    assert [] + [Call(0)] == [Call(0)];
    assert Run(1, window, []) == KeyState(Missing, false, []) && Disturbed([]) == 0;
    hide Run, Disturbed;
    assert Run(1, window, [Call(0)]) == KeyState(Present(Counter(1, 0)), false, [0]);
    assert Run(1, window, looked) == KeyState(Present(Counter(1, 0)), true, [0]);
    assert Run(1, window, looked + [Call(t)]) == KeyState(Present(Counter(1, t)), true, [0, t]);
  }

  lemma CallsRun(window: int, t: int)
    requires window > 0 && t == 2 * window
    ensures Run(1, window, Calls([Call(0)] + [Check(t)] + [Call(t)] + [Delete] + [Call(t)])).admitted == [0, t]
  {
    OnlyTheCalls(t);
    RunSnoc(1, window, [], Call(0));
    RunSnoc(1, window, [Call(0)], Call(t));
    RunSnoc(1, window, [Call(0)] + [Call(t)], Call(t));
    assert [] + [Call(0)] == [Call(0)];
    assert Run(1, window, []) == KeyState(Missing, false, []);
    hide Run, Calls;
    assert Run(1, window, [Call(0)]) == KeyState(Present(Counter(1, 0)), false, [0]);
    assert Run(1, window, [Call(0)] + [Call(t)]) == KeyState(Present(Counter(1, t)), false, [0, t]);
  }

  lemma OnlyTheCalls(t: int)
    ensures Calls([Call(0)] + [Check(t)] + [Call(t)] + [Delete] + [Call(t)]) == [Call(0)] + [Call(t)] + [Call(t)]
  {
    var looked := [Call(0)] + [Check(t)];
    CallsSnoc([], Call(0));
    CallsSnoc([Call(0)], Check(t));
    CallsSnoc(looked, Call(t));
    CallsSnoc(looked + [Call(t)], Delete);
    CallsSnoc(looked + [Call(t)] + [Delete], Call(t));
    assert Calls([]) == [] && [] + [Call(0)] == [Call(0)];
    hide Calls;
    var none: seq<Event> := [];
    assert [Call(0)] + none == [Call(0)];
    assert [Call(0)] + [Call(t)] + none == [Call(0)] + [Call(t)];
  }

  // ----- The bound is reached -----

  lemma OneUsed(rate: int, window: int, s: KeyState, c: Counter, t: int, a: int)
    requires s.slot == Present(c) && 0 <= t - c.start < window && c.count < rate && a <= t < a + window
    ensures var r := Apply(rate, window, s, Call(t));
            r.slot == Present(c.(count := c.count + 1))
            && CountIn(r.admitted, a, a + window) == CountIn(s.admitted, a, a + window) + 1
  {
    CountSnoc(s.admitted, t, a, a + window);
  }

  /** `n` calls at one moment inside the window use up the count. */
  lemma {:induction false} UseUp(rate: int, window: int, before: seq<Event>, c: Counter, t: int, n: nat, a: int)
    requires Run(rate, window, before).slot == Present(c)
    requires 0 <= t - c.start < window && c.count + n <= rate && a <= t < a + window
    ensures var s, r := Run(rate, window, before), Run(rate, window, before + Many(t, n));
            r.slot == Present(c.(count := c.count + n))
            && CountIn(r.admitted, a, a + window) == CountIn(s.admitted, a, a + window) + n
  {
    hide Run, CountIn, Apply;
    if n == 0 {
      assert before + Many(t, 0) == before;
    } else {
      UseUp(rate, window, before, c, t, n - 1, a);
      assert before + Many(t, n) == before + Many(t, n - 1) + [Call(t)];
      RunSnoc(rate, window, before + Many(t, n - 1), Call(t));
      OneUsed(rate, window, Run(rate, window, before + Many(t, n - 1)), c.(count := c.count + n - 1), t, a);
    }
  }

  /** Two full rates but one in a window's time: the rest of a window's rate at its end, and a full rate as
      soon as the next one can open. */
  function TwoRates(rate: int, window: int, start: int): seq<Event>
    requires rate >= 1
  {
    Many(start + window - 1, rate - 1) + Many(start + window, rate)
  }

  lemma Reopened(rate: int, window: int, s: KeyState, start: int)
    requires rate >= 1 && window >= 2 && s.slot.Present? && s.slot.counter.start == start
    ensures var r := Apply(rate, window, s, Call(start + window));
            r.slot == Present(Counter(1, start + window))
            && CountIn(r.admitted, start + 1, start + 1 + window) == CountIn(s.admitted, start + 1, start + 1 + window) + 1
  {
    CountSnoc(s.admitted, start + window, start + 1, start + 1 + window);
  }

  lemma TwoRatesFit(rate: int, window: int, before: seq<Event>, start: int)
    requires rate >= 1 && window >= 2
    requires Run(rate, window, before).slot == Present(Counter(1, start))
    ensures var s, r := Run(rate, window, before), Run(rate, window, before + TwoRates(rate, window, start));
            r.slot == Present(Counter(rate, start + window))
            && CountIn(r.admitted, start + 1, start + 1 + window)
               == CountIn(s.admitted, start + 1, start + 1 + window) + 2 * rate - 1
  {
    hide Run, CountIn, Many, Apply;
    UseUp(rate, window, before, Counter(1, start), start + window - 1, rate - 1, start + 1);
    var second := before + Many(start + window - 1, rate - 1);
    RunSnoc(rate, window, second, Call(start + window));
    Reopened(rate, window, Run(rate, window, second), start);
    UseUp(rate, window, second + [Call(start + window)], Counter(1, start + window), start + window, rate - 1, start + 1);
    ManyFirst(start + window, rate);
    assert before + TwoRates(rate, window, start)
        == second + [Call(start + window)] + Many(start + window, rate - 1);
  }

  lemma TwoRatesOrdered(rate: int, window: int, before: seq<Event>, start: int)
    requires rate >= 1 && window >= 2
    requires Ordered(before, window) && NotBefore(before, start + window - 1, window)
    ensures Ordered(before + TwoRates(rate, window, start), window)
    ensures NotBefore(before + TwoRates(rate, window, start), start + window, window)
  {
    ManyOrdered(window, before, start + window - 1, rate - 1);
    var second := before + Many(start + window - 1, rate - 1);
    LaterStill(second, start + window - 1, start + window, window);
    ManyOrdered(window, second, start + window, rate);
    assert before + TwoRates(rate, window, start) == second + Many(start + window, rate);
  }

  /** Without cleanups the bound of 2 * rate - 1 is reached. */
  lemma BoundReached(rate: int, window: int)
    requires rate >= 1 && window >= 2
    ensures var events := [Call(0)] + TwoRates(rate, window, 0);
            && Ordered(events, window) && NotBefore(events, window, window)
            && CountIn(Run(rate, window, events).admitted, 1, 1 + window) == 2 * rate - 1
  {
    RunSnoc(rate, window, [], Call(0));
    assert [] + [Call(0)] == [Call(0)];
    CountSnoc([], 0, 1, 1 + window);
    TwoRatesOrdered(rate, window, [Call(0)], 0);
    hide Ordered, NotBefore, TwoRates;
    TwoRatesFit(rate, window, [Call(0)], 0);
  }

  /** A call, a look that finds the window over, and the call that opens the next one. */
  function Looked(window: int): seq<Event> {
    [Call(0)] + [Check(2 * window)] + [Call(2 * window)]
  }

  lemma AfterLooked(rate: int, window: int)
    requires rate >= 1 && window >= 2
    ensures var s := Run(rate, window, Looked(window));
            s.slot == Present(Counter(1, 2 * window)) && s.marked
            && CountIn(s.admitted, 2 * window + 1, 2 * window + 1 + window) == 0
    ensures Ordered(Looked(window), window) && NotBefore(Looked(window), 2 * window, window)
  {
    var t := 2 * window;
    RunSnoc(rate, window, [], Call(0));
    RunSnoc(rate, window, [Call(0)], Check(t));
    RunSnoc(rate, window, [Call(0)] + [Check(t)], Call(t));
    assert [] + [Call(0)] == [Call(0)];
    CountSnoc([], 0, t + 1, t + 1 + window);
    CountSnoc([0], t, t + 1, t + 1 + window);
    assert Run(rate, window, []) == KeyState(Missing, false, []);
    hide Run;
    assert Run(rate, window, [Call(0)]) == KeyState(Present(Counter(1, 0)), false, [0]);
  }

  /** The schedule that reaches 3 * rate - 1: two full rates but one between a look and its deletion, and
      one more after it. */
  function ThreeRates(rate: int, window: int): seq<Event>
    requires rate >= 1
  {
    Looked(window) + TwoRates(rate, window, 2 * window) + [Delete] + Many(3 * window, rate)
  }

  lemma {:induction false} KeepsMark(rate: int, window: int, before: seq<Event>, t: int, n: nat)
    ensures Run(rate, window, before + Many(t, n)).marked == Run(rate, window, before).marked
  {
    if n == 0 {
      assert before + Many(t, 0) == before;
    } else {
      KeepsMark(rate, window, before, t, n - 1);
      assert before + Many(t, n) == before + Many(t, n - 1) + [Call(t)];
      RunSnoc(rate, window, before + Many(t, n - 1), Call(t));
      hide Run;
    }
  }

  lemma TwoRatesKeepMark(rate: int, window: int, before: seq<Event>, start: int)
    requires rate >= 1
    ensures Run(rate, window, before + TwoRates(rate, window, start)).marked == Run(rate, window, before).marked
  {
    hide Run, Many;
    var second := before + Many(start + window - 1, rate - 1);
    KeepsMark(rate, window, before, start + window - 1, rate - 1);
    KeepsMark(rate, window, second, start + window, rate);
    assert before + TwoRates(rate, window, start) == second + Many(start + window, rate);
  }

  /** From nothing, a full rate at one instant is admitted. */
  lemma FullRate(rate: int, window: int, before: seq<Event>, t: int, a: int)
    requires rate >= 1 && window > 0 && Run(rate, window, before).slot.Missing? && a <= t < a + window
    ensures CountIn(Run(rate, window, before + Many(t, rate)).admitted, a, a + window)
            == CountIn(Run(rate, window, before).admitted, a, a + window) + rate
  {
    var s := Run(rate, window, before);
    RunSnoc(rate, window, before, Call(t));
    CountSnoc(s.admitted, t, a, a + window);
    hide Run, CountIn;
    assert Run(rate, window, before + [Call(t)]).slot == Present(Counter(1, t));
    UseUp(rate, window, before + [Call(t)], Counter(1, t), t, rate - 1, a);
    ManyFirst(t, rate);
    assert before + Many(t, rate) == before + [Call(t)] + Many(t, rate - 1);
  }

  lemma ThreeRatesOrdered(rate: int, window: int)
    requires rate >= 1 && window >= 2
    ensures Ordered(ThreeRates(rate, window), window) && NotBefore(ThreeRates(rate, window), 3 * window, window)
  {
    AfterLooked(rate, window);
    hide Run, Ordered, NotBefore, Looked, TwoRates, Many;
    LaterStill(Looked(window), 2 * window, 3 * window - 1, window);
    TwoRatesOrdered(rate, window, Looked(window), 2 * window);
    var two := Looked(window) + TwoRates(rate, window, 2 * window);
    OrderedSnoc(two, Delete, window);
    NotBeforeSnoc(two, Delete, 3 * window, window);
    ManyOrdered(window, two + [Delete], 3 * window, rate);
  }

  /** The bound of 3 * rate - 1 is reached too. */
  lemma DisturbedBoundReached(rate: int, window: int)
    requires rate >= 1 && window >= 2
    ensures var events := ThreeRates(rate, window);
            && Ordered(events, window) && NotBefore(events, 3 * window, window)
            && CountIn(Run(rate, window, events).admitted, 2 * window + 1, 3 * window + 1) == 3 * rate - 1
  {
    var start := 2 * window;
    ThreeRatesOrdered(rate, window);
    AfterLooked(rate, window);
    hide Run, Ordered, NotBefore, CountIn, Looked, Many, TwoRates;
    TwoRatesFit(rate, window, Looked(window), start);
    TwoRatesKeepMark(rate, window, Looked(window), start);
    var two := Looked(window) + TwoRates(rate, window, start);
    RunSnoc(rate, window, two, Delete);
    assert start + window == 3 * window && start + 1 + window == 3 * window + 1;
    FullRate(rate, window, two + [Delete], 3 * window, start + 1);
  }
}
