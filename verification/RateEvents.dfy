/** What happens to one key of an in-memory rate limiter, and how admissions are counted. */
module RateEvents {

  /** A call of `Allow`, a cleanup pass looking at a key it found, and that pass deleting the key if it
      found it stale.  Looking and deleting are two steps in the limiters. */
  datatype Event = Call(now: int) | Check(now: int) | Delete

  /** Calls come in time order, and a cleanup's clock is at most `slack` ahead of a later call's. */
  ghost predicate Ordered(events: seq<Event>, slack: int) {
    forall i, j :: 0 <= i < j < |events| && events[j].Call? ==>
      match events[i]
      case Call(t) => t <= events[j].now
      case Check(t) => t <= events[j].now + slack
      case Delete => true
  }

  ghost predicate EndsInCall(events: seq<Event>) {
    events != [] && events[|events| - 1].Call?
  }

  /** How many deletions come right after a call, whether or not the look before them found the key stale. */
  ghost function Disturbed(events: seq<Event>): nat {
    if events == [] then 0 else
      var front := events[..|events| - 1];
      Disturbed(front) + if events[|events| - 1].Delete? && EndsInCall(front) then 1 else 0
  }

  /** The same, of calls in [from, to). */
  ghost function DisturbedIn(events: seq<Event>, from: int, to: int): nat {
    if events == [] then 0 else
      var front := events[..|events| - 1];
      DisturbedIn(front, from, to)
      + if events[|events| - 1].Delete? && EndsInCall(front) && from <= front[|front| - 1].now < to then 1 else 0
  }

  lemma Prefix(events: seq<Event>, slack: int)
    requires events != [] && Ordered(events, slack)
    ensures Ordered(events[..|events| - 1], slack)
    ensures events[|events| - 1].Call? ==> NotBefore(events[..|events| - 1], events[|events| - 1].now, slack)
  {
  }

  lemma PrefixSnoc(events: seq<Event>, e: Event, slack: int)
    requires Ordered(events + [e], slack)
    ensures Ordered(events, slack)
    ensures e.Call? ==> NotBefore(events, e.now, slack)
  {
    Prefix(events + [e], slack);
    assert (events + [e])[..|events|] == events;
  }

  /** `t` is no earlier than the clock of any event allows for a later call. */
  ghost predicate NotBefore(events: seq<Event>, t: int, slack: int) {
    forall i :: 0 <= i < |events| ==>
      match events[i]
      case Call(u) => u <= t
      case Check(u) => u <= t + slack
      case Delete => true
  }

  function Calls(events: seq<Event>): seq<Event> {
    if events == [] then [] else
      Calls(events[..|events| - 1]) + if events[|events| - 1].Call? then [events[|events| - 1]] else []
  }

  lemma CallsSnoc(events: seq<Event>, e: Event)
    ensures Calls(events + [e]) == Calls(events) + if e.Call? then [e] else []
  {
    assert (events + [e])[..|events|] == events;
  }

  lemma DisturbedSnoc(front: seq<Event>, e: Event)
    ensures Disturbed(front + [e]) == Disturbed(front) + if e.Delete? && EndsInCall(front) then 1 else 0
  {
    assert (front + [e])[..|front|] == front;
  }

  lemma DisturbedInSnoc(front: seq<Event>, e: Event, from: int, to: int)
    ensures DisturbedIn(front + [e], from, to)
            == DisturbedIn(front, from, to)
               + if e.Delete? && EndsInCall(front) && from <= front[|front| - 1].now < to then 1 else 0
  {
    assert (front + [e])[..|front|] == front;
  }

  lemma {:induction false} DisturbedWithin(events: seq<Event>, from: int, to: int)
    ensures DisturbedIn(events, from, to) <= Disturbed(events)
  {
    if events != [] {
      DisturbedWithin(events[..|events| - 1], from, to);
    }
  }

  lemma OrderedSnoc(events: seq<Event>, e: Event, slack: int)
    requires Ordered(events, slack) && (e.Call? ==> NotBefore(events, e.now, slack))
    ensures Ordered(events + [e], slack)
  {
  }

  lemma NotBeforeSnoc(events: seq<Event>, e: Event, t: int, slack: int)
    requires NotBefore(events, t, slack)
    requires (e.Call? ==> e.now <= t) && (e.Check? ==> e.now <= t + slack)
    ensures NotBefore(events + [e], t, slack)
  {
  }

  lemma NotBeforePrefix(events: seq<Event>, t: int, slack: int)
    requires events != [] && NotBefore(events, t, slack)
    ensures NotBefore(events[..|events| - 1], t, slack)
    ensures events[|events| - 1].Call? ==> events[|events| - 1].now <= t
    ensures events[|events| - 1].Check? ==> events[|events| - 1].now <= t + slack
  {
  }

  /** Every run has a time that is no earlier than any of its clocks allows. */
  lemma {:induction false} SomeTimeAfter(events: seq<Event>, slack: int) returns (t: int)
    ensures NotBefore(events, t, slack)
  {
    if events == [] {
      t := 0;
    } else {
      var front, e := events[..|events| - 1], events[|events| - 1];
      var before := SomeTimeAfter(front, slack);
      var own := match e case Call(u) => u case Check(u) => u - slack case Delete => before;
      t := if own > before then own else before;
      LaterStill(front, before, t, slack);
      hide NotBefore;
      assert events == front + [e];
      NotBeforeSnoc(front, e, t, slack);
    }
  }

  /** After a call nothing comes before it. */
  lemma NotBeforeLastCall(events: seq<Event>, slack: int)
    requires EndsInCall(events) && Ordered(events, slack)
    ensures NotBefore(events, events[|events| - 1].now, slack)
  {
  }

  lemma {:induction false} OnlyCalls(events: seq<Event>)
    requires forall i :: 0 <= i < |events| ==> events[i].Call?
    ensures Disturbed(events) == 0
  {
    if events != [] {
      OnlyCalls(events[..|events| - 1]);
    }
  }

  /** How many of the times lie in [from, to). */
  function CountIn(times: seq<int>, from: int, to: int): nat {
    if times == [] then 0 else
      CountIn(times[..|times| - 1], from, to) + if from <= times[|times| - 1] < to then 1 else 0
  }

  ghost predicate Ascending(times: seq<int>) {
    forall i, j :: 0 <= i < j < |times| ==> times[i] <= times[j]
  }

  ghost predicate AtMost(times: seq<int>, t: int) {
    forall i :: 0 <= i < |times| ==> times[i] <= t
  }

  lemma CountSnoc(times: seq<int>, t: int, from: int, to: int)
    ensures CountIn(times + [t], from, to) == CountIn(times, from, to) + if from <= t < to then 1 else 0
  {
    assert (times + [t])[..|times|] == times;
  }

  lemma {:induction false} CountMonotone(times: seq<int>, from: int, to: int, wideFrom: int, wideTo: int)
    requires forall i :: 0 <= i < |times| && from <= times[i] < to ==> wideFrom <= times[i] < wideTo
    ensures CountIn(times, from, to) <= CountIn(times, wideFrom, wideTo)
  {
    if times != [] {
      CountMonotone(times[..|times| - 1], from, to, wideFrom, wideTo);
    }
  }

  lemma {:induction false} CountNone(times: seq<int>, from: int, to: int)
    requires forall i :: 0 <= i < |times| ==> times[i] < from
    ensures CountIn(times, from, to) == 0
  {
    if times != [] {
      CountNone(times[..|times| - 1], from, to);
    }
  }

  lemma {:induction false} CallsOrdered(events: seq<Event>, slack: int, t: int)
    requires Ordered(events, slack)
    ensures Ordered(Calls(events), slack)
    ensures NotBefore(events, t, slack) ==> NotBefore(Calls(events), t, slack)
    ensures forall i :: 0 <= i < |Calls(events)| ==> Calls(events)[i].Call?
  {
    if events != [] {
      Prefix(events, slack);
      CallsOrdered(events[..|events| - 1], slack, t);
      if events[|events| - 1].Call? {
        CallsOrdered(events[..|events| - 1], slack, events[|events| - 1].now);
      }
    }
  }

  function Many(t: int, n: nat): seq<Event> {
    if n == 0 then [] else Many(t, n - 1) + [Call(t)]
  }

  lemma {:induction false} ManyFirst(t: int, n: nat)
    requires n > 0
    ensures Many(t, n) == [Call(t)] + Many(t, n - 1)
  {
    if n > 1 {
      ManyFirst(t, n - 1);
    }
  }

  lemma {:induction false} ManyOrdered(window: int, before: seq<Event>, t: int, n: nat)
    requires window >= 0 && Ordered(before, window) && NotBefore(before, t, window)
    ensures Ordered(before + Many(t, n), window) && NotBefore(before + Many(t, n), t, window)
  {
    hide Ordered, NotBefore;
    if n == 0 {
      assert before + Many(t, 0) == before;
    } else {
      ManyOrdered(window, before, t, n - 1);
      assert before + Many(t, n) == before + Many(t, n - 1) + [Call(t)];
      OrderedSnoc(before + Many(t, n - 1), Call(t), window);
      NotBeforeSnoc(before + Many(t, n - 1), Call(t), t, window);
    }
  }

  lemma LaterStill(events: seq<Event>, t: int, later: int, slack: int)
    requires NotBefore(events, t, slack) && t <= later
    ensures NotBefore(events, later, slack)
  {
  }
}
