/**
 The circuit breaker, with every call one atomic step.

 A closed breaker counts failures since the last success and opens at a threshold; an open one refuses
 until a timeout after the latest failure, then lets a limited number of probes through; enough
 successes close it again and one failure reopens it.
 */
module CircuitBreakers {

  datatype Phase = Closed | Open | HalfOpen

  datatype Config = Config(failureThreshold: int, successThreshold: int, timeout: int, halfOpenRequests: int) {
    /** Thresholds of zero or less act like 1, since they are compared after counting. */
    function FailuresToOpen(): (n: int)
      ensures n >= 1
    {
      if failureThreshold >= 1 then failureThreshold else 1
    }

    function SuccessesToClose(): (n: int)
      ensures n >= 1
    {
      if successThreshold >= 1 then successThreshold else 1
    }

    function ProbeLimit(): (n: int)
      ensures n >= 1
    {
      if halfOpenRequests <= 0 then 1 else halfOpenRequests
    }
  }

  datatype Breaker = Breaker(phase: Phase, failureCount: int, successCount: int, lastFailureTime: int,
                             requests: int, failures: int, inFlight: int)

  const FRESH: Breaker := Breaker(Closed, 0, 0, 0, 0, 0, 0)

  /** A call of the breaker.  Whether a report comes from a probe of the current half-open period is
      known to us, not to the breaker. */
  datatype Event = Allow(now: int) | Success(probe: bool) | Failure(now: int, probe: bool)

  function MoveTo(b: Breaker, phase: Phase): Breaker {
    if b.phase == phase then b
    else if phase == HalfOpen then b.(phase := phase)
    else b.(phase := phase, inFlight := 0)
  }

  function Released(b: Breaker): Breaker {
    if b.inFlight <= 0 then b else b.(inFlight := b.inFlight - 1)
  }

  predicate Ready(c: Config, b: Breaker, now: int) {
    now - b.lastFailureTime >= c.timeout
  }

  predicate Admits(c: Config, b: Breaker, now: int) {
    match b.phase
    case Closed => true
    case Open => Ready(c, b, now) && b.inFlight < c.ProbeLimit()
    case HalfOpen => b.inFlight < c.ProbeLimit()
  }

  function Apply(c: Config, b: Breaker, e: Event): Breaker {
    match e
    case Allow(now) =>
      if b.phase == Closed || (b.phase == Open && !Ready(c, b, now)) then b else
        var h := MoveTo(b, HalfOpen);
        if h.inFlight < c.ProbeLimit() then h.(inFlight := h.inFlight + 1) else h
    case Success(_) =>
      var r := b.(requests := b.requests + 1);
      (match b.phase
       case Closed => r.(failureCount := 0)
       case Open => r
       case HalfOpen =>
         var s := Released(r).(successCount := b.successCount + 1);
         if s.successCount >= c.successThreshold then MoveTo(s, Closed).(failureCount := 0, successCount := 0) else s)
    case Failure(now, _) =>
      var r := b.(requests := b.requests + 1, failures := b.failures + 1, lastFailureTime := now);
      (match b.phase
       case Closed =>
         var s := r.(failureCount := b.failureCount + 1);
         if s.failureCount >= c.failureThreshold then MoveTo(s, Open) else s
       case Open => r
       case HalfOpen => MoveTo(Released(r), Open).(successCount := 0))
  }

  class CircuitBreaker {
    const config: Config
    var phase: Phase
    var failureCount: int
    var successCount: int
    var lastFailureTime: int
    var requests: int
    var failures: int
    var halfOpenInFlight: int

    function State(): Breaker
      reads this
    {
      Breaker(phase, failureCount, successCount, lastFailureTime, requests, failures, halfOpenInFlight)
    }

    constructor (config: Config)
      ensures this.config == config && State() == FRESH
    {
      this.config := config;
      phase := Closed;
      failureCount, successCount, lastFailureTime := 0, 0, 0;
      requests, failures, halfOpenInFlight := 0, 0, 0;
    }

    method Allow(now: int) returns (ok: bool)
      modifies this
      ensures ok == Admits(config, old(State()), now)
      ensures State() == Apply(config, old(State()), Event.Allow(now))
    {
      if phase == Closed {
        return true;
      } else if phase == Open {
        if now - lastFailureTime >= config.timeout {
          TransitionTo(HalfOpen);
          ok := AllowHalfOpenRequest();
          return;
        }
        return false;
      } else {
        ok := AllowHalfOpenRequest();
      }
    }

    method RecordSuccess(ghost probe: bool)
      modifies this
      ensures State() == Apply(config, old(State()), Success(probe))
    {
      requests := requests + 1;
      if phase == Closed {
        failureCount := 0;
      } else if phase == HalfOpen {
        ReleaseHalfOpenRequest();
        successCount := successCount + 1;
        if successCount >= config.successThreshold {
          TransitionTo(Closed);
          failureCount := 0;
          successCount := 0;
        }
      }
    }

    method RecordFailure(now: int, ghost probe: bool)
      modifies this
      ensures State() == Apply(config, old(State()), Failure(now, probe))
    {
      requests := requests + 1;
      failures := failures + 1;
      lastFailureTime := now;
      if phase == Closed {
        failureCount := failureCount + 1;
        if failureCount >= config.failureThreshold {
          TransitionTo(Open);
        }
      } else if phase == HalfOpen {
        ReleaseHalfOpenRequest();
        TransitionTo(Open);
        successCount := 0;
      }
    }

    method TransitionTo(to: Phase)
      modifies this
      ensures State() == MoveTo(old(State()), to)
    {
      var from := phase;
      phase := to;
      if from != to {
        if to != HalfOpen {
          halfOpenInFlight := 0;
        }
      }
    }

    method AllowHalfOpenRequest() returns (ok: bool)
      modifies this
      ensures ok == (old(halfOpenInFlight) < config.ProbeLimit())
      ensures State() == old(State()).(inFlight := old(halfOpenInFlight) + if ok then 1 else 0)
    {
      var limit := config.halfOpenRequests;
      if limit <= 0 {
        limit := 1;
      }
      halfOpenInFlight := halfOpenInFlight + 1;
      if halfOpenInFlight > limit {
        halfOpenInFlight := halfOpenInFlight - 1;
        return false;
      }
      return true;
    }

    method ReleaseHalfOpenRequest()
      modifies this
      ensures State() == Released(old(State()))
    {
      if halfOpenInFlight > 0 {
        halfOpenInFlight := halfOpenInFlight - 1;
      }
    }
  }

  // ----- Runs -----

  function Run(c: Config, trace: seq<Event>): Breaker {
    if trace == [] then FRESH else Apply(c, Run(c, trace[..|trace| - 1]), trace[|trace| - 1])
  }

  /** Failures recorded since the last recorded success. */
  function FailuresSinceSuccess(trace: seq<Event>): nat {
    if trace == [] then 0 else
      var front := trace[..|trace| - 1];
      match trace[|trace| - 1]
      case Allow(_) => FailuresSinceSuccess(front)
      case Success(_) => 0
      case Failure(_, _) => FailuresSinceSuccess(front) + 1
  }

  /** The time of the last recorded failure, 0 if there is none. */
  function LatestFailure(trace: seq<Event>): int {
    if trace == [] then 0 else
      match trace[|trace| - 1]
      case Failure(now, _) => now
      case _ => LatestFailure(trace[..|trace| - 1])
  }

  /** How many reports there were, and how many of them were failures. */
  function Reports(trace: seq<Event>): (nat, nat) {
    if trace == [] then (0, 0) else
      var before := Reports(trace[..|trace| - 1]);
      match trace[|trace| - 1]
      case Allow(_) => before
      case Success(_) => (before.0 + 1, before.1)
      case Failure(_, _) => (before.0 + 1, before.1 + 1)
  }

  /** Successes recorded in the half-open period that `trace` ends in; 0 when it does not end in one. */
  function SuccessesInPeriod(c: Config, trace: seq<Event>): nat {
    if trace == [] || Run(c, trace).phase != HalfOpen then 0 else
      SuccessesInPeriod(c, trace[..|trace| - 1]) + if trace[|trace| - 1].Success? then 1 else 0
  }

  /** The counters mean what their names say, and are bounded. */
  ghost predicate Meaning(c: Config, trace: seq<Event>, b: Breaker) {
    && b.lastFailureTime == LatestFailure(trace)
    && (b.requests, b.failures) == Reports(trace)
    && b.successCount == SuccessesInPeriod(c, trace) < c.SuccessesToClose()
    && (b.phase == Closed ==> b.failureCount == FailuresSinceSuccess(trace) < c.FailuresToOpen())
    && (b.phase != HalfOpen ==> b.inFlight == 0)
    && 0 <= b.inFlight <= c.ProbeLimit()
  }

  /** In every run: the failure count of a closed breaker is the number of failures since the last
      success, the success count that of the current half-open period, the in-flight counter stays
      between 0 and the limit and is 0 outside half-open. */
  lemma {:induction false} CountersMean(c: Config, trace: seq<Event>)
    ensures Meaning(c, trace, Run(c, trace))
  {
    if trace != [] {
      CountersMean(c, trace[..|trace| - 1]);
    }
  }

  lemma RunSnoc(c: Config, trace: seq<Event>, e: Event)
    ensures Run(c, trace + [e]) == Apply(c, Run(c, trace), e)
  {
    assert (trace + [e])[..|trace|] == trace;
  }

  /** The only changes of phase, each with exactly the event and history that causes it. */
  lemma Transitions(c: Config, trace: seq<Event>, e: Event)
    ensures var b, n := Run(c, trace), Run(c, trace + [e]);
            && (b.phase == Closed ==>
                  && n.phase in {Closed, Open}
                  && (n.phase == Open <==> e.Failure? && FailuresSinceSuccess(trace) + 1 == c.FailuresToOpen()))
            && (b.phase == Open ==>
                  && n.phase in {Open, HalfOpen}
                  && (n.phase == HalfOpen <==> e.Allow? && e.now - LatestFailure(trace) >= c.timeout))
            && (b.phase == HalfOpen ==>
                  && (n.phase == Closed <==> e.Success? && SuccessesInPeriod(c, trace) + 1 == c.SuccessesToClose())
                  && (n.phase == Open <==> e.Failure?))
  {
    CountersMean(c, trace);
    RunSnoc(c, trace, e);
  }

  /** An open breaker admits exactly from the timeout after the latest recorded failure on, also when
      that failure was reported while it was open. */
  lemma AdmittedFromOpenIff(c: Config, trace: seq<Event>, now: int)
    requires Run(c, trace).phase == Open
    ensures Admits(c, Run(c, trace), now) <==> now - LatestFailure(trace) >= c.timeout
  {
    CountersMean(c, trace);
  }

  // ----- The counter and the probes it stands for -----

  function ProbeChange(c: Config, b: Breaker, e: Event): int {
    match e
    case Allow(now) => if Admits(c, b, now) then 1 else 0
    case Success(probe) => if probe then -1 else 0
    case Failure(_, probe) => if probe then -1 else 0
  }

  /** Probes of the current half-open period that were admitted and have not reported. */
  function Outstanding(c: Config, trace: seq<Event>): int {
    if trace == [] || Run(c, trace).phase != HalfOpen then 0 else
      var front, e := trace[..|trace| - 1], trace[|trace| - 1];
      Outstanding(c, front) + ProbeChange(c, Run(c, front), e)
  }

  ghost predicate CountsProbes(c: Config, trace: seq<Event>) {
    Run(c, trace).phase == HalfOpen ==> Run(c, trace).inFlight == Outstanding(c, trace)
  }

  /** A report that leaves the breaker half-open is a probe's exactly when the counter is not 0. */
  ghost predicate Timely(c: Config, front: seq<Event>, e: Event) {
    Run(c, front).phase == HalfOpen && Run(c, front + [e]).phase == HalfOpen && !e.Allow? ==>
      (e.probe <==> Run(c, front).inFlight > 0)
  }

  /** One event keeps the counter right exactly if it is timely. */
  lemma CountsProbesStep(c: Config, front: seq<Event>, e: Event)
    requires CountsProbes(c, front)
    ensures CountsProbes(c, front + [e]) <==> Timely(c, front, e)
  {
    CountersMean(c, front);
    RunSnoc(c, front, e);
    if Run(c, front).phase != HalfOpen {
      assert Outstanding(c, front) == 0;
    }
    hide Run, Outstanding, Meaning;
  }

  /** The counter is the number of outstanding probes throughout a run exactly if every report that
      leaves the breaker half-open is timely: a late report, or one from a request admitted before the
      breaker opened, may only come while no probe is counted. */
  lemma {:induction false} CounterCountsProbesIff(c: Config, trace: seq<Event>)
    ensures (forall i :: 0 <= i <= |trace| ==> CountsProbes(c, trace[..i]))
            <==> (forall i :: 0 <= i < |trace| ==> Timely(c, trace[..i], trace[i]))
  {
    if trace == [] {
      assert forall i :: 0 <= i <= |trace| ==> trace[..i] == [];
      assert CountsProbes(c, []);
    } else {
      hide *;
      var front, e := trace[..|trace| - 1], trace[|trace| - 1];
      assert trace == front + [e];
      CounterCountsProbesIff(c, front);
      AllPrefixes(c, front, e);
      if CountsProbes(c, front) {
        CountsProbesStep(c, front, e);
      }
    }
  }

  lemma AllPrefixes(c: Config, front: seq<Event>, e: Event)
    ensures var trace := front + [e];
            && ((forall i :: 0 <= i <= |trace| ==> CountsProbes(c, trace[..i]))
                <==> (forall i :: 0 <= i <= |front| ==> CountsProbes(c, front[..i])) && CountsProbes(c, trace))
            && ((forall i :: 0 <= i < |trace| ==> Timely(c, trace[..i], trace[i]))
                <==> (forall i :: 0 <= i < |front| ==> Timely(c, front[..i], front[i])) && Timely(c, front, e))
    ensures (forall i :: 0 <= i <= |front| ==> CountsProbes(c, front[..i])) ==> CountsProbes(c, front)
  {
    hide CountsProbes, Timely;
    var trace := front + [e];
    assert trace[..|trace|] == trace && trace[..|front|] == front && front[..|front|] == front;
    assert trace[|front|] == e;
    forall i | 0 <= i <= |front| ensures trace[..i] == front[..i] {
    }
  }

  /** Where the counter is right, the outstanding probes are within the limit. */
  lemma ProbesWithinLimit(c: Config, trace: seq<Event>)
    requires CountsProbes(c, trace)
    ensures 0 <= Outstanding(c, trace) <= c.ProbeLimit()
  {
    CountersMean(c, trace);
  }

  const OPENED: Breaker := Breaker(Open, 1, 0, 3, 1, 1, 0)
  const PROBING: Breaker := Breaker(HalfOpen, 1, 0, 3, 1, 1, 1)
  const FREED: Breaker := Breaker(HalfOpen, 1, 1, 3, 2, 1, 0)

  /** A probe, a late report, and a second probe. */
  lemma LateReport(c: Config)
    requires c == Config(1, 3, 30, 1)
    ensures c.ProbeLimit() == 1
    ensures Apply(c, OPENED, Allow(40)) == PROBING && ProbeChange(c, OPENED, Allow(40)) == 1
    ensures Apply(c, PROBING, Success(false)) == FREED && ProbeChange(c, PROBING, Success(false)) == 0
    ensures Apply(c, FREED, Allow(41)).phase == HalfOpen && ProbeChange(c, FREED, Allow(41)) == 1
    ensures PROBING.phase == HalfOpen && FREED.phase == HalfOpen
  {
  }

  /** Two requests admitted while closed, and a failure that opens the breaker. */
  lemma OpenedWithOneInFlight(c: Config)
    requires c == Config(1, 3, 30, 1)
    ensures Run(c, [Allow(1), Allow(2), Failure(3, false)]) == OPENED
    ensures Outstanding(c, [Allow(1), Allow(2), Failure(3, false)]) == 0
  {
    RunSnoc(c, [], Allow(1));
    RunSnoc(c, [Allow(1)], Allow(2));
    RunSnoc(c, [Allow(1), Allow(2)], Failure(3, false));
    assert [] + [Allow(1)] == [Allow(1)] && [Allow(1)] + [Allow(2)] == [Allow(1), Allow(2)];
    assert [Allow(1), Allow(2)] + [Failure(3, false)] == [Allow(1), Allow(2), Failure(3, false)];
  }

  lemma OneEventMore(c: Config, trace: seq<Event>, b: Breaker, n: int, e: Event)
    requires Run(c, trace) == b && Outstanding(c, trace) == n
    ensures Run(c, trace + [e]) == Apply(c, b, e)
    ensures Outstanding(c, trace + [e]) == if Apply(c, b, e).phase != HalfOpen then 0 else n + ProbeChange(c, b, e)
  {
    RunSnoc(c, trace, e);
  }

  /** A late report frees a slot that a probe still uses: after the probe at 40, the success of the
      request admitted at 2 lets a second probe in, with a limit of one. */
  lemma LateReportLetsExtraProbeIn(c: Config)
    requires c == Config(1, 3, 30, 1)
    ensures var trace := [Allow(1), Allow(2), Failure(3, false), Allow(40), Success(false), Allow(41)];
            Run(c, trace).phase == HalfOpen && Outstanding(c, trace) == c.ProbeLimit() + 1
  {
    hide *;
    var before := [Allow(1), Allow(2), Failure(3, false)];
    OpenedWithOneInFlight(c);
    LateReport(c);
    OneEventMore(c, before, OPENED, 0, Allow(40));
    OneEventMore(c, before + [Allow(40)], PROBING, 1, Success(false));
    OneEventMore(c, before + [Allow(40)] + [Success(false)], FREED, 1, Allow(41));
    assert before + [Allow(40)] + [Success(false)] + [Allow(41)]
        == [Allow(1), Allow(2), Failure(3, false), Allow(40), Success(false), Allow(41)];
  }

  // ----- Probes that never report -----

  /** No probe slot is free. */
  predicate Full(c: Config, b: Breaker) {
    b.phase == HalfOpen && b.inFlight >= c.ProbeLimit()
  }

  /** Only a report moves a full breaker. */
  lemma FullMovesIffReport(c: Config, b: Breaker, e: Event)
    requires Full(c, b)
    ensures Apply(c, b, e) == b <==> e.Allow?
    ensures e.Allow? ==> !Admits(c, b, e.now)
  {
  }

  /** A full breaker refuses every request until a report comes, however much time passes: there is no
      timeout for probes. */
  lemma {:induction false} SilentProbesBlock(c: Config, trace: seq<Event>, more: seq<Event>, now: int)
    requires Full(c, Run(c, trace)) && forall i :: 0 <= i < |more| ==> more[i].Allow?
    ensures Run(c, trace + more) == Run(c, trace) && !Admits(c, Run(c, trace + more), now)
  {
    hide Run;
    if more == [] {
      assert trace + more == trace;
    } else {
      var front, e := more[..|more| - 1], more[|more| - 1];
      SilentProbesBlock(c, trace, front, now);
      assert trace + more == trace + front + [e];
      RunSnoc(c, trace + front, e);
      FullMovesIffReport(c, Run(c, trace), e);
    }
  }

  /** One failure and one probe fill this breaker. */
  lemma OneProbeFills(c: Config)
    requires c == Config(1, 1, 30, 1)
    ensures Full(c, Run(c, [Failure(0, false)] + [Allow(30)]))
  {
    RunSnoc(c, [], Failure(0, false));
    RunSnoc(c, [Failure(0, false)], Allow(30));
    assert [] + [Failure(0, false)] == [Failure(0, false)];
    assert Run(c, []) == FRESH;
    hide Run;
    assert Run(c, [Failure(0, false)]) == Breaker(Open, 1, 0, 0, 1, 1, 0);
  }

  // ----- What is admitted -----

  /** The slots taken in the half-open period that `trace` ends in, from its requests and reports alone: a
      request takes one while fewer than the limit are taken, a report gives one back. */
  function SlotsTaken(c: Config, trace: seq<Event>): nat {
    if trace == [] || Run(c, trace).phase != HalfOpen then 0 else
      var taken := SlotsTaken(c, trace[..|trace| - 1]);
      var limit := if c.halfOpenRequests > 1 then c.halfOpenRequests else 1;
      if trace[|trace| - 1].Allow? then (if taken < limit then taken + 1 else taken)
      else if taken > 0 then taken - 1 else 0
  }

  lemma {:induction false} SlotsAreCounted(c: Config, trace: seq<Event>)
    ensures Run(c, trace).inFlight == SlotsTaken(c, trace)
  {
    CountersMean(c, trace);
    if trace != [] {
      var front := trace[..|trace| - 1];
      SlotsAreCounted(c, front);
      CountersMean(c, front);
      hide Meaning;
    }
  }

  /** What is admitted, in every run: everything while closed; while open, from the timeout after the latest
      recorded failure on; while half-open, up to the configured number of probes at a time, at least one. */
  lemma AdmitsIff(c: Config, trace: seq<Event>, now: int)
    ensures Admits(c, Run(c, trace), now) <==>
              || Run(c, trace).phase == Closed
              || (Run(c, trace).phase == Open && now - LatestFailure(trace) >= c.timeout)
              || (Run(c, trace).phase == HalfOpen
                  && (SlotsTaken(c, trace) < c.halfOpenRequests || SlotsTaken(c, trace) == 0))
  {
    CountersMean(c, trace);
    SlotsAreCounted(c, trace);
    hide Run, SlotsTaken;
  }

  /** A fresh breaker is closed and admits at any time. */
  lemma FreshAdmits(c: Config, now: int)
    ensures Run(c, []).phase == Closed && Admits(c, Run(c, []), now)
  {
    AdmitsIff(c, [], now);
  }
}
