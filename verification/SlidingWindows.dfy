/**
 The sliding-window rate limiter.

 Each key keeps the times of its admitted requests; a call first forgets those that have left the
 window and then admits if fewer than `rate` are left.  A missing key is the same as an empty list.
 */
module SlidingWindows {
  import opened RateEvents

  function Recent(requests: seq<int>, cutoff: int): seq<int> {
    if requests == [] then [] else
      Recent(requests[..|requests| - 1], cutoff)
      + if requests[|requests| - 1] > cutoff then [requests[|requests| - 1]] else []
  }

  function Admits(rate: nat, window: int, requests: seq<int>, now: int): bool {
    |Recent(requests, now - window)| < rate
  }

  function AfterCall(rate: nat, window: int, requests: seq<int>, now: int): seq<int> {
    Recent(requests, now - window) + if Admits(rate, window, requests, now) then [now] else []
  }

  /** A key is stale when its latest request is, or when it has none.  With a positive rate a cleanup meets
      an empty list only between a call's loading of a new key and its locking of it. */
  predicate Stale(window: int, requests: seq<int>, now: int) {
    requests == [] || requests[|requests| - 1] < now - window * 2
  }

  class SlidingWindowLimiter {
    const rate: nat
    const window: int
    var counters: map<string, seq<int>>

    constructor (rate: nat, window: int)
      ensures this.rate == rate && this.window == window && counters == map[]
    {
      this.rate := rate;
      this.window := window;
      counters := map[];
    }

    function Requests(key: string): seq<int>
      reads this
    {
      if key in counters then counters[key] else []
    }

    method Allow(key: string, now: int) returns (ok: bool)
      modifies this
      ensures ok == Admits(rate, window, old(Requests(key)), now)
      ensures counters == old(counters)[key := AfterCall(rate, window, old(Requests(key)), now)]
    {
      var requests := if key in counters then counters[key] else [];
      var cutoff := now - window;
      var validRequests := [];
      for i := 0 to |requests|
        invariant validRequests == Recent(requests[..i], cutoff)
      {
        assert requests[..i + 1][..i] == requests[..i];
        if requests[i] > cutoff {
          validRequests := validRequests + [requests[i]];
        }
      }
      assert requests[..|requests|] == requests;
      counters := counters[key := validRequests];

      if |validRequests| >= rate {
        assert validRequests + [] == validRequests;
        return false;
      }
      counters := counters[key := validRequests + [now]];
      return true;
    }

    /** A cleanup's look at a key, under the key's lock: the `Check` step of the runs below. */
    method Look(key: string, now: int) returns (stale: bool)
      requires key in counters
      ensures forall s: KeyState :: s.requests == Requests(key) ==>
                Apply(rate, window, s, Check(now)) == s.(marked := stale)
    {
      var requests := counters[key];
      stale := |requests| == 0 || requests[|requests| - 1] < now - window * 2;
    }

    /** The deletion that follows when the lock has been given back: the `Delete` step. */
    method Forget(key: string)
      modifies this
      ensures counters == old(counters) - {key}
      ensures forall s: KeyState :: s.marked ==> Apply(rate, window, s, Delete).requests == Requests(key)
    {
      counters := counters - {key};
    }

    /** One cleanup pass with nothing in between. */
    method Cleanup(now: int)
      modifies this
      ensures counters == map k | k in old(counters) && !Stale(window, old(counters)[k], now) :: old(counters)[k]
    {
      var keys := counters.Keys;
      while keys != {}
        invariant keys <= old(counters).Keys
        invariant counters == map k | k in old(counters) && (k in keys || !Stale(window, old(counters)[k], now))
                                  :: old(counters)[k]
        decreases keys
      {
        var key :| key in keys;
        var stale := Look(key, now);
        assert Apply(rate, window, KeyState(Requests(key), false, []), Check(now)).marked == stale;
        if stale {
          Forget(key);
        }
        keys := keys - {key};
      }
    }
  }

  // ----- Runs of one key -----

  /** The key's list, whether a cleanup found it stale, and the times admitted so far. */
  datatype KeyState = KeyState(requests: seq<int>, marked: bool, admitted: seq<int>)

  function Apply(rate: nat, window: int, s: KeyState, e: Event): KeyState {
    match e
    case Call(now) =>
      KeyState(AfterCall(rate, window, s.requests, now), s.marked,
               s.admitted + if Admits(rate, window, s.requests, now) then [now] else [])
    case Check(now) => s.(marked := Stale(window, s.requests, now))
    case Delete => if s.marked then s.(requests := [], marked := false) else s
  }

  function Run(rate: nat, window: int, events: seq<Event>): KeyState {
    if events == [] then KeyState([], false, []) else
      Apply(rate, window, Run(rate, window, events[..|events| - 1]), events[|events| - 1])
  }

  /** The times admitted since a deletion last made the key forget a call. */
  ghost function Since(rate: nat, window: int, events: seq<Event>): seq<int> {
    if events == [] then [] else
      var front, e := events[..|events| - 1], events[|events| - 1];
      var s := Run(rate, window, front);
      match e
      case Call(now) => Since(rate, window, front) + if Admits(rate, window, s.requests, now) then [now] else []
      case Check(_) => Since(rate, window, front)
      case Delete => if s.marked && EndsInCall(front) then [] else Since(rate, window, front)
  }

  lemma RunSnoc(rate: nat, window: int, events: seq<Event>, e: Event)
    ensures Run(rate, window, events + [e]) == Apply(rate, window, Run(rate, window, events), e)
  {
    assert (events + [e])[..|events|] == events;
  }

  lemma SinceSnoc(rate: nat, window: int, front: seq<Event>, e: Event)
    ensures var s, since := Run(rate, window, front), Since(rate, window, front);
            Since(rate, window, front + [e])
            == match e
               case Call(now) => since + (if Admits(rate, window, s.requests, now) then [now] else [])
               case Check(_) => since
               case Delete => if s.marked && EndsInCall(front) then [] else since
  {
    assert (front + [e])[..|front|] == front;
    hide Run, Admits;
  }

  /** Without a call in between, those are all admissions. */
  lemma {:induction false} SinceAlways(rate: nat, window: int, events: seq<Event>)
    requires Disturbed(events) == 0
    ensures Since(rate, window, events) == Run(rate, window, events).admitted
  {
    if events != [] {
      hide Admits, AfterCall, Stale;
      SinceAlways(rate, window, events[..|events| - 1]);
    }
  }

  lemma {:induction false} RecentMembers(requests: seq<int>, cutoff: int)
    ensures forall t :: t in Recent(requests, cutoff) <==> t in requests && t > cutoff
  {
    if requests != [] {
      var front := requests[..|requests| - 1];
      RecentMembers(front, cutoff);
      assert requests == front + [requests[|requests| - 1]];
    }
  }

  lemma RecentSnoc(requests: seq<int>, t: int, cutoff: int)
    ensures Recent(requests + [t], cutoff) == Recent(requests, cutoff) + if t > cutoff then [t] else []
  {
    assert (requests + [t])[..|requests|] == requests;
  }

  lemma {:induction false} RecentTwice(requests: seq<int>, early: int, late: int)
    requires early <= late
    ensures Recent(Recent(requests, early), late) == Recent(requests, late)
  {
    if requests != [] {
      var front, t := requests[..|requests| - 1], requests[|requests| - 1];
      RecentTwice(front, early, late);
      RecentSnoc(Recent(front, early), t, late);
      assert Recent(front, early) + [] == Recent(front, early);
    }
  }

  lemma {:induction false} RecentNone(requests: seq<int>, cutoff: int)
    requires AtMost(requests, cutoff)
    ensures Recent(requests, cutoff) == []
  {
    if requests != [] {
      RecentNone(requests[..|requests| - 1], cutoff);
    }
  }

  lemma {:induction false} RecentInOrder(requests: seq<int>, cutoff: int, t: int)
    requires Ascending(requests) && AtMost(requests, t)
    ensures Ascending(Recent(requests, cutoff)) && AtMost(Recent(requests, cutoff), t)
  {
    if requests != [] {
      var front, last := requests[..|requests| - 1], requests[|requests| - 1];
      RecentInOrder(front, cutoff, t);
      RecentInOrder(front, cutoff, last);
    }
  }

  lemma CallInOrder(rate: nat, window: int, s: KeyState, since: seq<int>, now: int, t: int)
    requires Ascending(s.requests) && AtMost(s.requests, now) && AtMost(since, now) && now <= t
    ensures var r := Apply(rate, window, s, Call(now));
            Ascending(r.requests) && AtMost(r.requests, t)
    ensures AtMost(since + if Admits(rate, window, s.requests, now) then [now] else [], t)
  {
    RecentInOrder(s.requests, now - window, now);
  }

  /** Times kept and admitted come in order and not after the calls. */
  lemma {:induction false} TimesOrdered(rate: nat, window: int, events: seq<Event>, t: int)
    requires Ordered(events, window) && NotBefore(events, t, window)
    ensures var s := Run(rate, window, events);
            Ascending(s.requests) && AtMost(s.requests, t) && AtMost(Since(rate, window, events), t)
  {
    hide AtMost, Ascending, Ordered, Admits, AfterCall, Stale;
    if events == [] {
      Nothing(t);
    } else {
      var front, e := events[..|events| - 1], events[|events| - 1];
      var s := Run(rate, window, front);
      Prefix(events, window);
      TimesOrdered(rate, window, front, t);
      match e {
        case Call(now) =>
          TimesOrdered(rate, window, front, now);
          CallInOrder(rate, window, s, Since(rate, window, front), now, t);
        case Check(_) =>
        case Delete => Nothing(t);
      }
    }
  }

  lemma Nothing(t: int)
    ensures Ascending([]) && AtMost([], t)
  {
  }

  lemma StaleMeansExpired(window: int, requests: seq<int>, now: int, cutoff: int)
    requires Ascending(requests) && Stale(window, requests, now) && now - window * 2 <= cutoff
    ensures Recent(requests, cutoff) == []
  {
    RecentNone(requests, cutoff);
  }

  /** A key is stale exactly when all it remembers lies more than two windows back. */
  lemma StaleIff(rate: nat, window: int, events: seq<Event>, now: int)
    requires Ordered(events, window)
    ensures var s := Run(rate, window, events);
            Stale(window, s.requests, now) <==> forall i :: 0 <= i < |s.requests| ==> now - s.requests[i] > 2 * window
  {
    var t := SomeTimeAfter(events, window);
    TimesOrdered(rate, window, events, t);
  }

  lemma CallRemembered(rate: nat, window: int, s: KeyState, since: seq<int>, now: int, t: int)
    requires now <= t && Recent(s.requests, t - window) == Recent(since, t - window)
    ensures Recent(Apply(rate, window, s, Call(now)).requests, t - window)
            == Recent(since + if Admits(rate, window, s.requests, now) then [now] else [], t - window)
  {
    hide Recent;
    var kept := Recent(s.requests, now - window);
    RecentTwice(s.requests, now - window, t - window);
    RecentSnoc(kept, now, t - window);
    RecentSnoc(since, now, t - window);
    assert kept + [] == kept && since + [] == since;
  }

  /** What a key remembers and what it admitted since it last forgot a call agree on everything a later
      call can look at. */
  lemma {:induction false} Remembers(rate: nat, window: int, events: seq<Event>, t: int)
    requires Ordered(events, window) && NotBefore(events, t, window)
    ensures Recent(Run(rate, window, events).requests, t - window) == Recent(Since(rate, window, events), t - window)
  {
    if events != [] {
      var front, e := events[..|events| - 1], events[|events| - 1];
      var s := Run(rate, window, front);
      Prefix(events, window);
      Remembers(rate, window, front, t);
      assert NotBefore(front, t, window);
      hide Ordered, Recent, NotBefore, Admits, AfterCall, Stale;
      if e.Call? {
        assert e.now <= t by { LastNotBefore(events, t, window); }
        CallRemembered(rate, window, s, Since(rate, window, front), e.now, t);
      } else if e.Delete? && s.marked && !EndsInCall(front) {
        TimesOrdered(rate, window, front, t);
        StaleMeansExpired(window, s.requests, front[|front| - 1].now, t - window);
        RecentNothing(t - window);
      }
    }
  }

  lemma LastNotBefore(events: seq<Event>, t: int, window: int)
    requires EndsInCall(events) && NotBefore(events, t, window)
    ensures events[|events| - 1].now <= t
  {
  }

  lemma RecentNothing(cutoff: int)
    ensures Recent([], cutoff) == []
  {
  }

  lemma {:induction false} RecentIsCount(times: seq<int>, cutoff: int, now: int)
    requires AtMost(times, now)
    ensures |Recent(times, cutoff)| == CountIn(times, cutoff + 1, now + 1)
  {
    if times != [] {
      RecentIsCount(times[..|times| - 1], cutoff, now);
    }
  }

  /** Exactness: a call at `now` is admitted if and only if fewer than `rate` admissions that its key has
      not been made to forget lie in (now - window, now]; without disturbed cleanups those are all
      earlier admissions. */
  lemma ExactAdmission(rate: nat, window: int, events: seq<Event>, now: int)
    requires Ordered(events + [Call(now)], window)
    ensures Admits(rate, window, Run(rate, window, events).requests, now)
            <==> CountIn(Since(rate, window, events), now - window + 1, now + 1) < rate
    ensures Disturbed(events) == 0 ==> Since(rate, window, events) == Run(rate, window, events).admitted
  {
    hide Ordered, NotBefore, Recent, Run, Since, Disturbed;
    PrefixSnoc(events, Call(now), window);
    Remembers(rate, window, events, now);
    TimesOrdered(rate, window, events, now);
    RecentIsCount(Since(rate, window, events), now - window, now);
    if Disturbed(events) == 0 {
      SinceAlways(rate, window, events);
    }
  }

  lemma {:induction false} SinceBounded(rate: nat, window: int, events: seq<Event>, a: int)
    requires Ordered(events, window)
    ensures CountIn(Since(rate, window, events), a + 1, a + window + 1) <= rate
  {
    if events != [] {
      var front, e := events[..|events| - 1], events[|events| - 1];
      Prefix(events, window);
      assert front + [e] == events;
      SinceBounded(rate, window, front, a);
      hide *;
      SinceSnoc(rate, window, front, e);
      NoneCounted(a + 1, a + window + 1);
      if e.Call? {
        CallBounded(rate, window, front, e.now, a);
      }
    }
  }

  lemma NoneCounted(from: int, to: int)
    ensures CountIn([], from, to) == 0
  {
  }

  lemma CallBounded(rate: nat, window: int, front: seq<Event>, now: int, a: int)
    requires Ordered(front + [Call(now)], window)
    requires CountIn(Since(rate, window, front), a + 1, a + window + 1) <= rate
    ensures var since := Since(rate, window, front);
            CountIn(since + (if Admits(rate, window, Run(rate, window, front).requests, now) then [now] else []),
                    a + 1, a + window + 1) <= rate
  {
    hide *;
    var since := Since(rate, window, front);
    CountSnoc(since, now, a + 1, a + window + 1);
    assert since + [] == since;
    if a < now <= a + window {
      PrefixSnoc(front, Call(now), window);
      ExactAdmission(rate, window, front, now);
      TimesOrdered(rate, window, front, now);
      WindowWithin(since, a, window, now);
    }
  }

  lemma WindowWithin(times: seq<int>, a: int, window: int, now: int)
    requires AtMost(times, now) && a < now <= a + window
    ensures CountIn(times, a + 1, a + window + 1) <= CountIn(times, now - window + 1, now + 1)
  {
    CountMonotone(times, a + 1, a + window + 1, now - window + 1, now + 1);
  }

  lemma AdmittedSnoc(rate: nat, window: int, front: seq<Event>, e: Event, from: int, to: int)
    ensures CountIn(Run(rate, window, front + [e]).admitted, from, to)
            == CountIn(Run(rate, window, front).admitted, from, to)
               + if e.Call? && Admits(rate, window, Run(rate, window, front).requests, e.now) && from <= e.now < to then 1 else 0
  {
    RunSnoc(rate, window, front, e);
    OnlyCallsAdmit(rate, window, Run(rate, window, front), e);
    hide Run, Admits, CountIn, Apply;
    var admitted := Run(rate, window, front).admitted;
    if e.Call? {
      CountSnoc(admitted, e.now, from, to);
    }
    assert admitted + [] == admitted;
  }

  lemma SinceCountSnoc(rate: nat, window: int, front: seq<Event>, e: Event, from: int, to: int)
    ensures var s, since := Run(rate, window, front), CountIn(Since(rate, window, front), from, to);
            CountIn(Since(rate, window, front + [e]), from, to)
            == if e.Call? then since + if Admits(rate, window, s.requests, e.now) && from <= e.now < to then 1 else 0
               else if e.Delete? && s.marked && EndsInCall(front) then 0
               else since
  {
    SinceSnoc(rate, window, front, e);
    NoneCounted(from, to);
    hide Run, Since, Admits, CountIn;
    var times := Since(rate, window, front);
    if e.Call? {
      CountSnoc(times, e.now, from, to);
    }
    assert times + [] == times;
  }

  lemma {:induction false} AdmittedAtMost(rate: nat, window: int, events: seq<Event>, t: int)
    requires NotBefore(events, t, window)
    ensures AtMost(Run(rate, window, events).admitted, t)
  {
    if events != [] {
      NotBeforePrefix(events, t, window);
      hide NotBefore, Admits, AfterCall, Stale;
      AdmittedAtMost(rate, window, events[..|events| - 1], t);
    }
  }

  /** Before the interval, nothing has been admitted in it. */
  lemma NothingYet(rate: nat, window: int, front: seq<Event>, a: int)
    requires Ordered(front, window) && EndsInCall(front) && front[|front| - 1].now <= a
    ensures CountIn(Run(rate, window, front).admitted, a + 1, a + window + 1) == 0
  {
    NotBeforeLastCall(front, window);
    hide Run, Ordered, NotBefore;
    AdmittedAtMost(rate, window, front, front[|front| - 1].now);
    CountNone(Run(rate, window, front).admitted, a + 1, a + window + 1);
  }

  // ----- Any looks: a rate more for every disturbance in the interval -----

  ghost predicate LossInv(rate: nat, admitted: nat, since: nat, losses: nat, inside: bool) {
    && admitted <= rate * (1 + losses)
    && (inside ==> admitted <= since + rate * losses)
  }

  lemma OneLossMore(rate: nat, admitted: nat, since: nat, losses: nat, inside: bool)
    requires since <= rate && LossInv(rate, admitted, since, losses, inside)
    ensures LossInv(rate, admitted, 0, losses + 1, inside)
    ensures LossInv(rate, admitted, since, losses + 1, inside)
    ensures admitted == 0 || !inside ==> LossInv(rate, admitted, 0, losses, inside)
  {
    assert rate * (1 + (losses + 1)) == rate * (losses + 1) + rate == rate * losses + rate + rate;
    assert rate * (1 + losses) == rate * losses + rate;
    assert rate * losses >= 0;
  }

  lemma OneAdmissionMore(rate: nat, admitted: nat, since: nat, losses: nat)
    requires since + 1 <= rate && LossInv(rate, admitted, since, losses, true)
    ensures LossInv(rate, admitted + 1, since + 1, losses, true)
  {
    assert rate * (1 + losses) == rate * losses + rate;
  }

  ghost predicate Bounded(rate: nat, window: int, events: seq<Event>, a: int, t: int) {
    LossInv(rate, CountIn(Run(rate, window, events).admitted, a + 1, a + window + 1),
            CountIn(Since(rate, window, events), a + 1, a + window + 1),
            DisturbedIn(events, a + 1, a + window + 1), t <= a + window)
  }

  lemma LossLater(rate: nat, admitted: nat, since: nat, losses: nat, inside: bool)
    requires LossInv(rate, admitted, since, losses, inside)
    ensures LossInv(rate, admitted, since, losses, false)
  {
  }

  lemma BoundedCall(rate: nat, window: int, front: seq<Event>, now: int, a: int, t: int)
    requires Ordered(front + [Call(now)], window) && Bounded(rate, window, front, a, now) && now <= t
    ensures Bounded(rate, window, front + [Call(now)], a, t)
  {
    var from, to := a + 1, a + window + 1;
    hide Run, Since, DisturbedIn, CountIn, Admits, Ordered, LossInv;
    AdmittedSnoc(rate, window, front, Call(now), from, to);
    SinceCountSnoc(rate, window, front, Call(now), from, to);
    DisturbedInSnoc(front, Call(now), from, to);
    SinceBounded(rate, window, front + [Call(now)], a);
    var n, since := CountIn(Run(rate, window, front).admitted, from, to), CountIn(Since(rate, window, front), from, to);
    var losses := DisturbedIn(front, from, to);
    if Admits(rate, window, Run(rate, window, front).requests, now) && from <= now < to {
      OneAdmissionMore(rate, n, since, losses);
      LossLater(rate, n + 1, since + 1, losses, true);
    } else {
      LossLater(rate, n, since, losses, now <= a + window);
      if now > a + window {
        LossOutside(rate, n, since, CountIn(Since(rate, window, front + [Call(now)]), from, to), losses);
      }
    }
  }

  lemma LossOutside(rate: nat, admitted: nat, since: nat, other: nat, losses: nat)
    requires LossInv(rate, admitted, since, losses, false)
    ensures LossInv(rate, admitted, other, losses, false)
  {
  }

  lemma BoundedDelete(rate: nat, window: int, front: seq<Event>, a: int, t: int)
    requires Ordered(front, window) && NotBefore(front, t, window) && Bounded(rate, window, front, a, t)
    ensures Bounded(rate, window, front + [Delete], a, t)
  {
    var from, to := a + 1, a + window + 1;
    hide Run, Since, DisturbedIn, CountIn, Admits, Ordered, NotBefore, LossInv;
    AdmittedSnoc(rate, window, front, Delete, from, to);
    SinceCountSnoc(rate, window, front, Delete, from, to);
    DisturbedInSnoc(front, Delete, from, to);
    SinceBounded(rate, window, front, a);
    var n, since := CountIn(Run(rate, window, front).admitted, from, to), CountIn(Since(rate, window, front), from, to);
    OneLossMore(rate, n, since, DisturbedIn(front, from, to), t <= a + window);
    if EndsInCall(front) {
      NotBeforePrefix(front, t, window);
      if front[|front| - 1].now <= a {
        NothingYet(rate, window, front, a);
      }
    }
  }

  lemma {:induction false} AlwaysBounded(rate: nat, window: int, events: seq<Event>, a: int, t: int)
    requires Ordered(events, window) && NotBefore(events, t, window)
    ensures Bounded(rate, window, events, a, t)
  {
    if events != [] {
      var front, e := events[..|events| - 1], events[|events| - 1];
      assert front + [e] == events;
      hide *;
      Prefix(events, window);
      NotBeforePrefix(events, t, window);
      if e.Call? {
        AlwaysBounded(rate, window, front, a, e.now);
        BoundedCall(rate, window, front, e.now, a, t);
      } else {
        AlwaysBounded(rate, window, front, a, t);
        if e.Delete? {
          BoundedDelete(rate, window, front, a, t);
        }
      }
    }
  }

  /** No interval (a, a + window] of any run holds more than `rate` admissions of a key, and `rate` more for
      every deletion that comes right after a call in that interval. */
  lemma NoWindowExceedsRate(rate: nat, window: int, events: seq<Event>, a: int)
    requires Ordered(events, window)
    ensures CountIn(Run(rate, window, events).admitted, a + 1, a + window + 1)
            <= rate * (1 + DisturbedIn(events, a + 1, a + window + 1))
  {
    var t := SomeTimeAfter(events, window);
    AlwaysBounded(rate, window, events, a, t);
    hide Run, Since, DisturbedIn, CountIn;
  }

  // ----- Looks at lists that are not empty: one rate more, however many disturbances -----

  /** Every look of a cleanup meets a list with a request in it. */
  ghost predicate MeetsRequests(rate: nat, window: int, events: seq<Event>) {
    forall i :: 0 <= i < |events| && events[i].Check? ==> Run(rate, window, events[..i]).requests != []
  }

  ghost predicate AllAfter(requests: seq<int>, a: int) {
    forall i :: 0 <= i < |requests| ==> requests[i] > a
  }

  /** Before the interval is over: nothing of it was forgotten, or at most one rate, and what is remembered
      since is too young to be found stale. */
  ghost predicate OneLoss(rate: nat, s: KeyState, admitted: nat, since: nat, a: int, t: int) {
    || admitted <= since
    || (!s.marked && t > a && AllAfter(s.requests, a) && admitted <= since + rate)
  }

  ghost predicate TwiceInv(rate: nat, window: int, events: seq<Event>, a: int, t: int) {
    var n := CountIn(Run(rate, window, events).admitted, a + 1, a + window + 1);
    && n <= 2 * rate
    && (t <= a + window ==>
          OneLoss(rate, Run(rate, window, events), n, CountIn(Since(rate, window, events), a + 1, a + window + 1), a, t))
  }

  lemma AfterCallAllAfter(rate: nat, window: int, requests: seq<int>, now: int, a: int)
    requires AllAfter(requests, a) && now > a
    ensures AllAfter(AfterCall(rate, window, requests, now), a)
  {
    RecentMembers(requests, now - window);
    hide Recent;
    var kept := Recent(requests, now - window);
    forall i | 0 <= i < |kept| ensures kept[i] > a {
      assert kept[i] in kept;
    }
  }

  lemma TwiceCall(rate: nat, window: int, front: seq<Event>, now: int, a: int, t: int)
    requires Ordered(front + [Call(now)], window) && TwiceInv(rate, window, front, a, now) && now <= t
    ensures TwiceInv(rate, window, front + [Call(now)], a, t)
  {
    var from, to := a + 1, a + window + 1;
    hide Run, Since, CountIn, Admits, AfterCall, Ordered, AllAfter;
    AdmittedSnoc(rate, window, front, Call(now), from, to);
    SinceCountSnoc(rate, window, front, Call(now), from, to);
    SinceBounded(rate, window, front + [Call(now)], a);
    RunSnoc(rate, window, front, Call(now));
    var s := Run(rate, window, front);
    if AllAfter(s.requests, a) && now > a {
      AfterCallAllAfter(rate, window, s.requests, now, a);
    }
  }

  lemma TwiceDelete(rate: nat, window: int, front: seq<Event>, a: int, t: int)
    requires Ordered(front, window) && NotBefore(front, t, window) && TwiceInv(rate, window, front, a, t)
    ensures TwiceInv(rate, window, front + [Delete], a, t)
  {
    AdmittedSnoc(rate, window, front, Delete, a + 1, a + window + 1);
    SinceCountSnoc(rate, window, front, Delete, a + 1, a + window + 1);
    SinceBounded(rate, window, front, a);
    RunSnoc(rate, window, front, Delete);
    if EndsInCall(front) {
      NotBeforePrefix(front, t, window);
      if front[|front| - 1].now <= a {
        NothingYet(rate, window, front, a);
      }
    }
    hide Run, Since, CountIn, Ordered, NotBefore;
  }

  lemma MeetsPrefix(rate: nat, window: int, front: seq<Event>, e: Event)
    requires MeetsRequests(rate, window, front + [e])
    ensures MeetsRequests(rate, window, front)
    ensures e.Check? ==> Run(rate, window, front).requests != []
  {
    var events := front + [e];
    hide Run;
    assert events[..|front|] == front;
    assert forall i :: 0 <= i < |front| ==> front[..i] == events[..i] && front[i] == events[i];
  }

  lemma {:induction false} AlwaysTwice(rate: nat, window: int, events: seq<Event>, a: int, t: int)
    requires Ordered(events, window) && NotBefore(events, t, window) && MeetsRequests(rate, window, events)
    ensures TwiceInv(rate, window, events, a, t)
  {
    if events != [] {
      var front, e := events[..|events| - 1], events[|events| - 1];
      assert front + [e] == events;
      hide *;
      Prefix(events, window);
      NotBeforePrefix(events, t, window);
      MeetsPrefix(rate, window, front, e);
      if e.Call? {
        AlwaysTwice(rate, window, front, a, e.now);
        TwiceCall(rate, window, front, e.now, a, t);
      } else {
        AlwaysTwice(rate, window, front, a, t);
        if e.Delete? {
          TwiceDelete(rate, window, front, a, t);
        }
      }
    }
  }

  /** If cleanups meet no empty lists, no interval (a, a + window] ever holds more than 2 * rate admissions,
      however many cleanups are disturbed. */
  lemma NoWindowExceedsTwice(rate: nat, window: int, events: seq<Event>, a: int)
    requires Ordered(events, window) && MeetsRequests(rate, window, events)
    ensures CountIn(Run(rate, window, events).admitted, a + 1, a + window + 1) <= 2 * rate
  {
    var t := SomeTimeAfter(events, window);
    AlwaysTwice(rate, window, events, a, t);
    hide Run, Since, CountIn;
  }

  /** Undisturbed cleanups change no decision: the same calls without them admit the same requests. */
  lemma {:induction false} UndisturbedInvisible(rate: nat, window: int, events: seq<Event>)
    requires Ordered(events, window) && Disturbed(events) == 0
    ensures Run(rate, window, events).admitted == Run(rate, window, Calls(events)).admitted
  {
    if events != [] {
      var front, e := events[..|events| - 1], events[|events| - 1];
      Prefix(events, window);
      assert front + [e] == events;
      UndisturbedInvisible(rate, window, front);
      hide *;
      CallsSnoc(front, e);
      var calls := Calls(front);
      RunSnoc(rate, window, front, e);
      OnlyCallsAdmit(rate, window, Run(rate, window, front), e);
      if e.Call? {
        RunSnoc(rate, window, calls, e);
        OnlyCallsAdmit(rate, window, Run(rate, window, calls), e);
        SameDecision(rate, window, front, e.now);
      } else {
        assert calls + [] == calls;
      }
    }
  }

  lemma SameDecision(rate: nat, window: int, front: seq<Event>, now: int)
    requires Ordered(front + [Call(now)], window) && Disturbed(front) == 0
    requires Run(rate, window, front).admitted == Run(rate, window, Calls(front)).admitted
    ensures Admits(rate, window, Run(rate, window, front).requests, now)
            <==> Admits(rate, window, Run(rate, window, Calls(front)).requests, now)
  {
    hide *;
    PrefixSnoc(front, Call(now), window);
    CallsOrdered(front, window, now);
    CallsOrdered(front + [Call(now)], window, now);
    CallsSnoc(front, Call(now));
    OnlyCalls(Calls(front));
    ExactAdmission(rate, window, front, now);
    ExactAdmission(rate, window, Calls(front), now);
  }

  lemma OnlyCallsAdmit(rate: nat, window: int, s: KeyState, e: Event)
    ensures Apply(rate, window, s, e).admitted
            == s.admitted + if e.Call? && Admits(rate, window, s.requests, e.now) then [e.now] else []
  {
    hide Admits, AfterCall;
    var none: seq<int> := [];
    assert s.admitted + none == s.admitted;
  }

  // ----- Deleting at the wrong moment -----

  /** What is decided on calls at the given times, starting from a list of requests. */
  function Decisions(rate: nat, window: int, requests: seq<int>, times: seq<int>): seq<bool>
    decreases |times|
  {
    if times == [] then [] else
      [Admits(rate, window, requests, times[0])]
      + Decisions(rate, window, AfterCall(rate, window, requests, times[0]), times[1..])
  }

  /** Deleting the list at time `now` changes no later decision. */
  ghost predicate DeletionInvisible(rate: nat, window: int, requests: seq<int>, now: int) {
    forall times :: Ascending(times) && (forall i :: 0 <= i < |times| ==> times[i] >= now) ==>
      Decisions(rate, window, requests, times) == Decisions(rate, window, [], times)
  }

  lemma {:induction false} AllRefused(window: int, requests: seq<int>, other: seq<int>, times: seq<int>)
    ensures Decisions(0, window, requests, times) == Decisions(0, window, other, times)
    decreases |times|
  {
    if times != [] {
      AllRefused(window, AfterCall(0, window, requests, times[0]), AfterCall(0, window, other, times[0]), times[1..]);
    }
  }

  function Repeat(t: int, n: nat): seq<int> {
    seq(n, _ => t)
  }

  lemma OneMore(rate: nat, window: int, requests: seq<int>, now: int)
    requires window > 0
    ensures |Recent(AfterCall(rate, window, requests, now), now - window)|
            == |Recent(requests, now - window)| + if Admits(rate, window, requests, now) then 1 else 0
  {
    hide Recent;
    var kept := Recent(requests, now - window);
    RecentTwice(requests, now - window, now - window);
    RecentSnoc(kept, now, now - window);
    assert kept + [] == kept;
  }

  predicate AllAdmitted(decisions: seq<bool>) {
    decisions == [] || (decisions[0] && AllAdmitted(decisions[1..]))
  }

  /** From a list with some recent requests, `n` more calls at one instant are all admitted only if
      there is room. */
  lemma {:induction false} Burst(rate: nat, window: int, requests: seq<int>, now: int, n: nat)
    requires window > 0
    ensures AllAdmitted(Decisions(rate, window, requests, Repeat(now, n)))
            <==> n == 0 || |Recent(requests, now - window)| + n <= rate
    decreases n
  {
    if n > 0 {
      hide Recent;
      var next := AfterCall(rate, window, requests, now);
      assert Repeat(now, n)[1..] == Repeat(now, n - 1);
      OneMore(rate, window, requests, now);
      hide AfterCall;
      Burst(rate, window, next, now, n - 1);
      var rest := Decisions(rate, window, next, Repeat(now, n - 1));
      assert ([Admits(rate, window, requests, now)] + rest)[1..] == rest;
    }
  }

  lemma ExpiredForgotten(rate: nat, window: int, requests: seq<int>, now: int, times: seq<int>)
    requires AtMost(requests, now - window) && forall i :: 0 <= i < |times| ==> times[i] >= now
    ensures Decisions(rate, window, requests, times) == Decisions(rate, window, [], times)
  {
    if times != [] {
      RecentNone(requests, times[0] - window);
      RecentNone([], times[0] - window);
    }
  }

  lemma LiveRequestCounts(rate: nat, window: int, requests: seq<int>, now: int)
    requires window > 0 && rate > 0 && !AtMost(requests, now - window)
    ensures !DeletionInvisible(rate, window, requests, now)
  {
    hide Recent, Decisions;
    var times := Repeat(now, rate);
    RecentMembers(requests, now - window);
    var k :| 0 <= k < |requests| && requests[k] > now - window;
    assert requests[k] in Recent(requests, now - window);
    RecentNone([], now - window);
    Burst(rate, window, requests, now, rate);
    Burst(rate, window, [], now, rate);
    assert Decisions(rate, window, requests, times) != Decisions(rate, window, [], times);
  }

  /** A deletion is invisible exactly when no remembered request is still in the window (or nothing is
      ever admitted).  That is what a cleanup's look establishes, and what a call in between undoes. */
  lemma DeletionInvisibleIff(rate: nat, window: int, requests: seq<int>, now: int)
    requires window > 0
    ensures DeletionInvisible(rate, window, requests, now)
            <==> rate == 0 || forall i :: 0 <= i < |requests| ==> requests[i] <= now - window
  {
    if rate == 0 {
      forall times ensures Decisions(rate, window, requests, times) == Decisions(rate, window, [], times) {
        AllRefused(window, requests, [], times);
      }
    } else if AtMost(requests, now - window) {
      forall times | Ascending(times) && (forall i :: 0 <= i < |times| ==> times[i] >= now)
        ensures Decisions(rate, window, requests, times) == Decisions(rate, window, [], times)
      {
        ExpiredForgotten(rate, window, requests, now, times);
      }
    } else {
      LiveRequestCounts(rate, window, requests, now);
    }
  }

  /** `n` calls at one moment with room for them are all admitted. */
  lemma {:induction false} UseUp(rate: nat, window: int, before: seq<Event>, t: int, n: nat, from: int, to: int)
    requires window > 0 && from <= t < to && |Recent(Run(rate, window, before).requests, t - window)| + n <= rate
    ensures var s, r := Run(rate, window, before), Run(rate, window, before + Many(t, n));
            && r.marked == s.marked && (n > 0 ==> EndsInCall(before + Many(t, n)))
            && |Recent(r.requests, t - window)| == |Recent(s.requests, t - window)| + n
            && CountIn(r.admitted, from, to) == CountIn(s.admitted, from, to) + n
  {
    hide Run, CountIn, Recent;
    if n == 0 {
      assert before + Many(t, 0) == before;
    } else {
      UseUp(rate, window, before, t, n - 1, from, to);
      var most := before + Many(t, n - 1);
      assert before + Many(t, n) == most + [Call(t)];
      RunSnoc(rate, window, most, Call(t));
      AdmittedSnoc(rate, window, most, Call(t), from, to);
      OneMore(rate, window, Run(rate, window, most).requests, t);
      hide AfterCall;
    }
  }

  /** A call, a look that finds it stale, a full rate before the deletion and a full rate after it. */
  function TwoRates(rate: nat, window: int): seq<Event> {
    var t := 2 * window + 1;
    [Call(0)] + [Check(t)] + Many(t, rate) + [Delete] + Many(t, rate)
  }

  lemma LookedAt(rate: nat, window: int, t: int)
    requires rate > 0 && window > 0 && t == 2 * window + 1
    ensures var looked := [Call(0)] + [Check(t)];
            && Run(rate, window, looked) == KeyState([0], true, [0])
            && Ordered(looked, window) && NotBefore(looked, t, window) && MeetsRequests(rate, window, looked)
  {
    var none: seq<Event> := [];
    RunSnoc(rate, window, none, Call(0));
    RunSnoc(rate, window, [Call(0)], Check(t));
    assert none + [Call(0)] == [Call(0)];
    RecentNothing(0 - window);
    hide Run, Recent;
    assert Run(rate, window, none) == KeyState([], false, []) by { FreshKey(rate, window); }
    assert Run(rate, window, [Call(0)]) == KeyState([0], false, [0]);
    assert ([Call(0)] + [Check(t)])[..1] == [Call(0)];
  }

  lemma FreshKey(rate: nat, window: int)
    ensures Run(rate, window, []) == KeyState([], false, [])
  {
  }

  lemma {:induction false} ManyMeet(rate: nat, window: int, before: seq<Event>, t: int, n: nat)
    requires MeetsRequests(rate, window, before)
    ensures MeetsRequests(rate, window, before + Many(t, n))
  {
    hide Run, MeetsRequests;
    if n == 0 {
      assert before + Many(t, 0) == before;
    } else {
      ManyMeet(rate, window, before, t, n - 1);
      assert before + Many(t, n) == before + Many(t, n - 1) + [Call(t)];
      MeetsMore(rate, window, before + Many(t, n - 1), Call(t));
    }
  }

  lemma MeetsMore(rate: nat, window: int, events: seq<Event>, e: Event)
    requires MeetsRequests(rate, window, events) && !e.Check?
    ensures MeetsRequests(rate, window, events + [e])
  {
    hide Run;
    var more := events + [e];
    assert forall i :: 0 <= i < |events| ==> more[..i] == events[..i] && more[i] == events[i];
  }

  lemma TwoRatesOrdered(rate: nat, window: int)
    requires rate > 0 && window > 0
    ensures Ordered(TwoRates(rate, window), window) && MeetsRequests(rate, window, TwoRates(rate, window))
  {
    var t := 2 * window + 1;
    LookedAt(rate, window, t);
    hide Run, Ordered, NotBefore, MeetsRequests, Many;
    var looked := [Call(0)] + [Check(t)];
    ManyOrdered(window, looked, t, rate);
    ManyMeet(rate, window, looked, t, rate);
    var full := looked + Many(t, rate);
    OrderedSnoc(full, Delete, window);
    NotBeforeSnoc(full, Delete, t, window);
    MeetsMore(rate, window, full, Delete);
    ManyOrdered(window, full + [Delete], t, rate);
    ManyMeet(rate, window, full + [Delete], t, rate);
  }

  /** A call between a cleanup's look and its deletion is forgotten, and twice the rate is reached, in one
      instant. */
  lemma DisturbedCleanup(rate: nat, window: int)
    requires rate > 0 && window > 0
    ensures var t, events := 2 * window + 1, TwoRates(rate, window);
            && Ordered(events, window) && MeetsRequests(rate, window, events)
            && CountIn(Run(rate, window, events).admitted, t, t + 1) == 2 * rate
  {
    var t, looked := 2 * window + 1, [Call(0)] + [Check(2 * window + 1)];
    hide *;
    TwoRatesOrdered(rate, window);
    LookedAt(rate, window, t);
    var full := looked + Many(t, rate);
    FirstRate(rate, window, looked, t);
    UseUp(rate, window, full + [Delete], t, rate, t, t + 1);
    assert TwoRates(rate, window) == full + [Delete] + Many(t, rate) by { TwoRatesAre(rate, window); }
  }

  lemma TwoRatesAre(rate: nat, window: int)
    ensures var t := 2 * window + 1;
            TwoRates(rate, window) == [Call(0)] + [Check(t)] + Many(t, rate) + [Delete] + Many(t, rate)
  {
  }

  lemma FirstRate(rate: nat, window: int, looked: seq<Event>, t: int)
    requires rate > 0 && window > 0 && t == 2 * window + 1 && Run(rate, window, looked) == KeyState([0], true, [0])
    ensures var s := Run(rate, window, looked + Many(t, rate) + [Delete]);
            Recent(s.requests, t - window) == [] && CountIn(s.admitted, t, t + 1) == rate
  {
    hide Run, CountIn, Recent, Many;
    RecentNone([0], t - window);
    RecentNothing(t - window);
    CountOld(t);
    UseUp(rate, window, looked, t, rate, t, t + 1);
    RunSnoc(rate, window, looked + Many(t, rate), Delete);
  }

  lemma CountOld(t: int)
    requires t > 0
    ensures CountIn([0], t, t + 1) == 0
  {
    CountSnoc([], 0, t, t + 1);
    assert [] + [0] == [0];
  }

  /** `n` times a look at an empty list, a call, and the deletion. */
  function Rounds(n: nat): seq<Event> {
    if n == 0 then [] else Rounds(n - 1) + [Check(0)] + [Call(0)] + [Delete]
  }

  /** Looks at empty lists have no such bound: each of them makes the key forget the call that follows. */
  lemma {:induction false} EmptyLooksUnbounded(rate: nat, window: int, n: nat)
    requires rate > 0 && window > 0
    ensures Ordered(Rounds(n), window) && NotBefore(Rounds(n), 0, window)
    ensures CountIn(Run(rate, window, Rounds(n)).admitted, 0, 1) == n
    ensures Run(rate, window, Rounds(n)).requests == [] && !Run(rate, window, Rounds(n)).marked
  {
    if n > 0 {
      EmptyLooksUnbounded(rate, window, n - 1);
      var before := Rounds(n - 1);
      RoundOrdered(window, before);
      RoundAdmits(rate, window, before);
      hide Run, Ordered, NotBefore, CountIn;
    }
  }

  lemma RoundOrdered(window: int, before: seq<Event>)
    requires window > 0 && Ordered(before, window) && NotBefore(before, 0, window)
    ensures var after := before + [Check(0)] + [Call(0)] + [Delete];
            Ordered(after, window) && NotBefore(after, 0, window)
  {
    hide Ordered, NotBefore;
    OrderedSnoc(before, Check(0), window);
    NotBeforeSnoc(before, Check(0), 0, window);
    OrderedSnoc(before + [Check(0)], Call(0), window);
    NotBeforeSnoc(before + [Check(0)], Call(0), 0, window);
    OrderedSnoc(before + [Check(0)] + [Call(0)], Delete, window);
    NotBeforeSnoc(before + [Check(0)] + [Call(0)], Delete, 0, window);
  }

  lemma RoundAdmits(rate: nat, window: int, before: seq<Event>)
    requires rate > 0 && Run(rate, window, before).requests == []
    ensures var s, r := Run(rate, window, before), Run(rate, window, before + [Check(0)] + [Call(0)] + [Delete]);
            r.requests == [] && !r.marked && CountIn(r.admitted, 0, 1) == CountIn(s.admitted, 0, 1) + 1
  {
    var s := Run(rate, window, before);
    RunSnoc(rate, window, before, Check(0));
    RunSnoc(rate, window, before + [Check(0)], Call(0));
    RunSnoc(rate, window, before + [Check(0)] + [Call(0)], Delete);
    RecentNothing(0 - window);
    CountSnoc(s.admitted, 0, 0, 1);
    hide Run, Recent, CountIn;
    assert Run(rate, window, before + [Check(0)]) == s.(marked := true);
  }
}
