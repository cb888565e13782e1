/**
 The Redis lock as a system of interleaved steps.

 Processes share one Redis store and each keeps its own map of lock values.  A call of the locker is
 a sequence of atomic steps: reading or writing the process's map is one, a Redis command or script
 is one, and steps of all calls of all processes interleave in any order with the passing of time.
 Tokens are numbers that are never drawn twice.  Times are milliseconds.
 */
module RedisLocks {
  import opened Results

  type Process = nat
  type Key = string
  type Token = nat

  datatype Entry = Entry(token: Token, deadline: int)

  datatype Reply = Acquired | NotAcquired | Unlocked | Extended | LockNotHeld

  /** A call, by the step it makes next. */
  datatype Call =
    | SetNX(proc: Process, key: Key, token: Token, ttl: int)      // try to acquire, over and over in Lock
    | Store(proc: Process, key: Key, token: Token)                // storeLockValue
    | ReadToUnlock(proc: Process, key: Key)                       // getLockValue in Unlock
    | Delete(proc: Process, key: Key, token: Token)               // compare-and-delete script
    | Forget(proc: Process, key: Key, deleted: bool)              // deleteLockValue
    | ReadToExtend(proc: Process, key: Key, ttl: int)             // getLockValue in Extend
    | Prolong(proc: Process, key: Key, token: Token, ttl: int)    // compare-and-pexpire script
    | Done(reply: Reply)

  /** What happened to a token that once acquired its key; `deadline` is the latest one set for it. */
  datatype Grant = Grant(proc: Process, key: Key, deadline: int, released: bool)

  datatype State = State(now: int, redis: map<Key, Entry>, values: map<(Process, Key), Token>,
                         calls: map<nat, Call>, nextToken: Token, grants: map<Token, Grant>)
  {
    /** A key past its deadline is gone. */
    predicate Live(key: Key) {
      key in redis && redis[key].deadline > now
    }

    predicate Holds(key: Key, token: Token) {
      Live(key) && redis[key].token == token
    }

    function With(id: nat, call: Call): State {
      this.(calls := calls[id := call])
    }
  }

  datatype Action =
    | Tick(ms: nat)
    | StartAcquire(id: nat, proc: Process, key: Key, ttl: int)
    | StartUnlock(id: nat, proc: Process, key: Key)
    | StartExtend(id: nat, proc: Process, key: Key, ttl: int)
    | Step(id: nat)
    | GiveUp(id: nat)

  const START: State := State(0, map[], map[], map[], 0, map[])

  predicate Enabled(s: State, a: Action) {
    match a
    case Tick(_) => true
    case StartAcquire(id, _, _, ttl) => id !in s.calls && ttl > 0
    case StartUnlock(id, _, _) => id !in s.calls
    case StartExtend(id, _, _, _) => id !in s.calls
    case Step(id) => id in s.calls && !s.calls[id].Done?
    case GiveUp(id) => id in s.calls && s.calls[id].SetNX?
  }

  /** SET NX: succeeds on a key that is not live; otherwise the caller may try again. */
  function DoSetNX(s: State, id: nat, c: Call): State
    requires c.SetNX?
  {
    if s.Live(c.key) then s else
      var deadline := s.now + c.ttl;
      s.With(id, Store(c.proc, c.key, c.token))
       .(redis := s.redis[c.key := Entry(c.token, deadline)],
         grants := s.grants[c.token := Grant(c.proc, c.key, deadline, false)])
  }

  function DoDelete(s: State, id: nat, c: Call): State
    requires c.Delete?
  {
    if !s.Holds(c.key, c.token) then s.With(id, Forget(c.proc, c.key, false)) else
      var t := s.With(id, Forget(c.proc, c.key, true)).(redis := s.redis - {c.key});
      if c.token in s.grants then t.(grants := s.grants[c.token := s.grants[c.token].(released := true)]) else t
  }

  function DoProlong(s: State, id: nat, c: Call): State
    requires c.Prolong?
  {
    if !s.Holds(c.key, c.token) then s.With(id, Done(LockNotHeld)) else
      var deadline := s.now + c.ttl;
      var t := s.With(id, Done(Extended)).(redis := s.redis[c.key := Entry(c.token, deadline)]);
      if c.token in s.grants then t.(grants := s.grants[c.token := s.grants[c.token].(deadline := deadline)]) else t
  }

  function DoStep(s: State, id: nat): State
    requires id in s.calls
  {
    var c := s.calls[id];
    match c
    case SetNX(_, _, _, _) => DoSetNX(s, id, c)
    case Store(p, k, token) => s.With(id, Done(Acquired)).(values := s.values[(p, k) := token])
    case ReadToUnlock(p, k) =>
      s.With(id, if (p, k) in s.values then Delete(p, k, s.values[(p, k)]) else Done(LockNotHeld))
    case Delete(_, _, _) => DoDelete(s, id, c)
    case Forget(p, k, deleted) =>
      s.With(id, Done(if deleted then Unlocked else LockNotHeld)).(values := s.values - {(p, k)})
    case ReadToExtend(p, k, ttl) =>
      s.With(id, if (p, k) in s.values then Prolong(p, k, s.values[(p, k)], ttl) else Done(LockNotHeld))
    case Prolong(_, _, _, _) => DoProlong(s, id, c)
    case Done(_) => s
  }

  function Apply(s: State, a: Action): State
    requires Enabled(s, a)
  {
    match a
    case Tick(ms) => s.(now := s.now + ms)
    case StartAcquire(id, p, k, ttl) => s.With(id, SetNX(p, k, s.nextToken, ttl)).(nextToken := s.nextToken + 1)
    case StartUnlock(id, p, k) => s.With(id, ReadToUnlock(p, k))
    case StartExtend(id, p, k, ttl) => s.With(id, ReadToExtend(p, k, ttl))
    case Step(id) => DoStep(s, id)
    case GiveUp(id) => s.With(id, Done(NotAcquired))
  }

  // ----- The invariant -----

  ghost predicate Granted(s: State, token: Token, p: Process, k: Key) {
    token in s.grants && s.grants[token].proc == p && s.grants[token].key == k
  }

  /** Redis and the grants tell the same story. */
  ghost predicate StoreInv(s: State) {
    && (forall k :: k in s.redis ==>
          var e := s.redis[k];
          e.token in s.grants && s.grants[e.token].key == k
          && s.grants[e.token].deadline == e.deadline && !s.grants[e.token].released)
    && (forall t :: t in s.grants && !s.grants[t].released && s.grants[t].deadline > s.now ==>
          var k := s.grants[t].key;
          k in s.redis && s.redis[k].token == t)
  }

  /** A token that has not acquired yet is known to one call only; all others were granted to the
      process that uses them. */
  ghost predicate CallInv(s: State, id: nat)
    requires id in s.calls
  {
    match s.calls[id]
    case SetNX(_, _, token, ttl) =>
      && ttl > 0 && token !in s.grants && token < s.nextToken
      && forall j :: j in s.calls && j != id && s.calls[j].SetNX? ==> s.calls[j].token != token
    case Store(p, k, token) => Granted(s, token, p, k)
    case Delete(p, k, token) => Granted(s, token, p, k)
    case Prolong(p, k, token, _) => Granted(s, token, p, k)
    case _ => true
  }

  ghost predicate TokensInv(s: State) {
    && (forall t :: t in s.grants ==> t < s.nextToken)
    && (forall pk :: pk in s.values ==> Granted(s, s.values[pk], pk.0, pk.1))
    && (forall id :: id in s.calls ==> CallInv(s, id))
  }

  ghost predicate Inv(s: State) {
    StoreInv(s) && TokensInv(s)
  }

  lemma StoreStep(s: State, a: Action)
    requires Inv(s) && Enabled(s, a)
    ensures StoreInv(Apply(s, a))
  {
    if a.Step? {
      assert CallInv(s, a.id);
    }
  }

  /** A step that sets a new deadline for `token`. */
  ghost predicate Extends(s: State, a: Action, token: Token)
    requires Enabled(s, a)
  {
    a.Step? && s.calls[a.id].Prolong? && s.calls[a.id].token == token && s.Holds(s.calls[a.id].key, token)
  }

  lemma GrantsOnlyGrow(s: State, a: Action, token: Token)
    requires Inv(s) && Enabled(s, a) && token in s.grants
    ensures token in Apply(s, a).grants
    ensures Granted(Apply(s, a), token, s.grants[token].proc, s.grants[token].key)
    ensures s.grants[token].released ==> Apply(s, a).grants[token].released
    ensures Apply(s, a).grants[token].deadline
            == if Extends(s, a, token) then s.now + s.calls[a.id].ttl else s.grants[token].deadline
  {
    if a.Step? {
      assert CallInv(s, a.id);
    }
  }

  /** The call a step is about. */
  predicate Concerns(a: Action, id: nat) {
    match a
    case Tick(_) => false
    case _ => a.id == id
  }

  lemma OtherCallKept(s: State, a: Action, id: nat)
    requires Inv(s) && Enabled(s, a) && id in s.calls && !Concerns(a, id)
    ensures id in Apply(s, a).calls && CallInv(Apply(s, a), id)
  {
    hide StoreInv;
    var c := s.calls[id];
    assert CallInv(s, id);
    if c.SetNX? {
      OtherAttemptKept(s, a, id);
    } else {
      hide Apply, Inv;
      if c.Store? || c.Delete? || c.Prolong? {
        GrantsOnlyGrow(s, a, c.token);
      }
    }
  }

  /** The token of an attempt that goes on is still nobody else's. */
  lemma OtherAttemptKept(s: State, a: Action, id: nat)
    requires Inv(s) && Enabled(s, a) && id in s.calls && !Concerns(a, id) && s.calls[id].SetNX?
    ensures id in Apply(s, a).calls && CallInv(Apply(s, a), id)
  {
    hide StoreInv;
    assert CallInv(s, id);
    if a.Step? {
      assert CallInv(s, a.id);
    }
  }

  lemma OwnCallKept(s: State, a: Action, id: nat)
    requires Inv(s) && Enabled(s, a) && Concerns(a, id)
    ensures id in Apply(s, a).calls && CallInv(Apply(s, a), id)
  {
    hide StoreInv;
    if id in s.calls {
      assert CallInv(s, id);
    } else if a.StartAcquire? {
      forall j | j in s.calls && s.calls[j].SetNX? ensures s.calls[j].token != s.nextToken {
        assert CallInv(s, j);
      }
    }
  }

  lemma ValuesKept(s: State, a: Action, pk: (Process, Key))
    requires Inv(s) && Enabled(s, a) && pk in Apply(s, a).values
    ensures Granted(Apply(s, a), Apply(s, a).values[pk], pk.0, pk.1)
  {
    hide StoreInv;
    if a.Step? {
      assert CallInv(s, a.id);
    }
    if pk in s.values {
      GrantsOnlyGrow(s, a, s.values[pk]);
    }
  }

  lemma TokensStep(s: State, a: Action)
    requires Inv(s) && Enabled(s, a)
    ensures TokensInv(Apply(s, a))
  {
    var t := Apply(s, a);
    forall id | id in t.calls ensures CallInv(t, id) {
      if Concerns(a, id) {
        OwnCallKept(s, a, id);
      } else {
        OtherCallKept(s, a, id);
      }
    }
    forall pk | pk in t.values ensures Granted(t, t.values[pk], pk.0, pk.1) {
      ValuesKept(s, a, pk);
    }
    hide StoreInv, CallInv, Granted;
    if a.Step? {
      NewGrantsDrawn(s, a.id);
    }
  }

  lemma NewGrantsDrawn(s: State, id: nat)
    requires Inv(s) && Enabled(s, Step(id))
    ensures forall t :: t in Apply(s, Step(id)).grants ==> t < s.nextToken
  {
    hide StoreInv;
    assert CallInv(s, id);
  }

  /** The state after a schedule, if every step of it was possible. */
  ghost function Run(schedule: seq<Action>): (s: Option<State>)
    ensures s.Some? ==> Inv(s.value)
  {
    if schedule == [] then Some(START) else
      var before := Run(schedule[..|schedule| - 1]);
      var a := schedule[|schedule| - 1];
      if before.Some? && Enabled(before.value, a) then
        StoreStep(before.value, a);
        TokensStep(before.value, a);
        Some(Apply(before.value, a))
      else None
  }

  // ----- Mutual exclusion -----

  /** The process on whose behalf the live entry of a key was set. */
  ghost function Holder(s: State, k: Key): Option<Process> {
    if s.Live(k) && s.redis[k].token in s.grants then Some(s.grants[s.redis[k].token].proc) else None
  }

  /** In every reachable state at most one process has a stored value equal to the live Redis value
      of a key, and it is the holder. */
  lemma MutualExclusion(schedule: seq<Action>, s: State, k: Key, p: Process, q: Process)
    requires Run(schedule) == Some(s)
    requires (p, k) in s.values && s.Holds(k, s.values[(p, k)])
    ensures Holder(s, k) == Some(p)
    ensures (q, k) in s.values && s.Holds(k, s.values[(q, k)]) ==> q == p
  {
    assert Granted(s, s.values[(p, k)], p, k);
    if (q, k) in s.values && s.Holds(k, s.values[(q, k)]) {
      assert Granted(s, s.values[(q, k)], q, k);
    }
  }

  /** An unlock or extend script run by a process that is not the holder changes nothing in Redis and
      no grant, and the call goes on to report that the lock is not held. */
  lemma OthersChangeNothing(schedule: seq<Action>, s: State, id: nat)
    requires Run(schedule) == Some(s) && id in s.calls
    requires s.calls[id].Delete? || s.calls[id].Prolong?
    requires Holder(s, s.calls[id].key) != Some(s.calls[id].proc)
    ensures Enabled(s, Step(id))
    ensures var t := Apply(s, Step(id));
            && t.redis == s.redis && t.grants == s.grants
            && (s.calls[id].Prolong? ==> t.calls[id] == Done(LockNotHeld))
            && (s.calls[id].Delete? ==>
                  && Enabled(t, Step(id)) && Apply(t, Step(id)).redis == s.redis
                  && Apply(t, Step(id)).calls[id] == Done(LockNotHeld))
  {
    assert CallInv(s, id);
  }

  /** The scripts of the holder itself succeed, whoever else is at work, as long as they use the
      token that is in Redis. */
  lemma HolderSucceeds(s: State, id: nat)
    requires Inv(s) && id in s.calls
    requires s.calls[id].Delete? || s.calls[id].Prolong?
    requires s.Holds(s.calls[id].key, s.calls[id].token)
    ensures Holder(s, s.calls[id].key) == Some(s.calls[id].proc)
    ensures var t := Apply(s, Step(id));
            && (s.calls[id].Prolong? ==> t.calls[id] == Done(Extended))
            && (s.calls[id].Delete? ==> !t.Live(s.calls[id].key) && t.grants[s.calls[id].token].released)
  {
    assert CallInv(s, id);
  }

  // ----- Tenure -----

  /** A grant lasts until it is released or its latest deadline passes. */
  predicate Active(s: State, token: Token) {
    token in s.grants && !s.grants[token].released && s.grants[token].deadline > s.now
  }

  /** An attempt succeeds exactly when no grant on the key is active any more: nobody acquires before
      the earlier of the holder's unlock and its latest deadline. */
  lemma AcquireIffNoActiveGrant(schedule: seq<Action>, s: State, id: nat)
    requires Run(schedule) == Some(s) && id in s.calls && s.calls[id].SetNX?
    ensures Apply(s, Step(id)).calls[id].Store? <==>
              forall token :: token in s.grants && s.grants[token].key == s.calls[id].key ==> !Active(s, token)
    ensures !Apply(s, Step(id)).calls[id].Store? ==> Apply(s, Step(id)) == s
  {
    var k := s.calls[id].key;
    if s.Live(k) {
      assert Active(s, s.redis[k].token);
    }
  }

  /** At most one grant per key is active. */
  lemma OneActiveGrant(s: State, a: Token, b: Token)
    requires Inv(s) && Active(s, a) && Active(s, b) && s.grants[a].key == s.grants[b].key
    ensures a == b
  {
  }

  /** A step that runs the extend script with `token`, whatever comes of it. */
  ghost predicate Attempts(s: State, a: Action, token: Token)
    requires Enabled(s, a)
  {
    a.Step? && s.calls[a.id].Prolong? && s.calls[a.id].token == token
  }

  /** From `s`, where the deadline of `token` was last set at time `last`, every attempt to extend is for
      `ttl` and no time `ttl` passes without one, until the token is released. */
  ghost predicate Tended(s: State, schedule: seq<Action>, token: Token, ttl: int, last: int)
    decreases |schedule|
  {
    schedule == [] ||
    (var a := schedule[0];
     Enabled(s, a) &&
     var t := Apply(s, a);
     (token in t.grants && t.grants[token].released) ||
     (var last' := if Attempts(s, a, token) then s.now else last;
      (Attempts(s, a, token) ==> s.calls[a.id].ttl == ttl)
      && t.now - last' < ttl && Tended(t, schedule[1..], token, ttl, last')))
  }

  /** While its grant is active every attempt with the token succeeds. */
  lemma AttemptsSucceed(s: State, a: Action, token: Token)
    requires Inv(s) && Enabled(s, a) && Active(s, token)
    ensures s.Holds(s.grants[token].key, token)
    ensures Attempts(s, a, token) <==> Extends(s, a, token)
  {
    if Attempts(s, a, token) {
      assert CallInv(s, a.id);
    }
  }

  /** The state after a schedule that starts in `s`. */
  ghost function After(s: State, schedule: seq<Action>): Option<State>
    decreases |schedule|
  {
    if schedule == [] then Some(s)
    else if Enabled(s, schedule[0]) then After(Apply(s, schedule[0]), schedule[1..])
    else None
  }

  /** A released token is never the live value of its key again. */
  lemma {:induction false} ReleasedForEver(s: State, schedule: seq<Action>, token: Token)
    requires Inv(s) && token in s.grants && s.grants[token].released && After(s, schedule).Some?
    ensures token in After(s, schedule).value.grants && After(s, schedule).value.grants[token].released
    ensures forall k :: !After(s, schedule).value.Holds(k, token)
    decreases |schedule|
  {
    if schedule == [] {
      forall k ensures !s.Holds(k, token) {
        if s.Live(k) {
          assert !s.grants[s.redis[k].token].released;
        }
      }
    } else {
      StoreStep(s, schedule[0]);
      TokensStep(s, schedule[0]);
      GrantsOnlyGrow(s, schedule[0], token);
      hide Inv, Apply;
      ReleasedForEver(Apply(s, schedule[0]), schedule[1..], token);
    }
  }

  /** If it is attempted to extend the lock often enough, the key does not expire: after any such schedule
      the token was released by its holder, or it is still the live value of the key. */
  lemma {:induction false} WatchdogKeepsLock(s: State, schedule: seq<Action>, token: Token, ttl: int, last: int)
    requires Inv(s) && Active(s, token) && s.grants[token].deadline == last + ttl
    requires After(s, schedule).Some? && Tended(s, schedule, token, ttl, last)
    ensures var t := After(s, schedule).value;
            && token in t.grants
            && (t.grants[token].released || t.Holds(s.grants[token].key, token))
    decreases |schedule|
  {
    if schedule != [] {
      var a := schedule[0];
      var t := Apply(s, a);
      StoreStep(s, a);
      TokensStep(s, a);
      GrantsOnlyGrow(s, a, token);
      AttemptsSucceed(s, a, token);
      hide Inv, Apply, Extends, Attempts;
      if t.grants[token].released {
        ReleasedForEver(t, schedule[1..], token);
      } else {
        WatchdogKeepsLock(t, schedule[1..], token, ttl, if Attempts(s, a, token) then s.now else last);
      }
    } else {
      assert s.Holds(s.grants[token].key, token);
    }
  }

  // ----- The watchdog's ticker -----

  /** The lock as its holder left it after storing the token: its grant is active, the token is in the
      process's map, and no call of the process on the key is about to change that but an unlock. */
  ghost predicate Owned(s: State, p: Process, k: Key, token: Token) {
    && Active(s, token) && Granted(s, token, p, k)
    && (p, k) in s.values && s.values[(p, k)] == token
    && forall id :: id in s.calls ==> OwnCallsUse(s.calls[id], p, k, token)
  }

  ghost predicate OwnCallsUse(c: Call, p: Process, k: Key, token: Token) {
    match c
    case Store(q, j, _) => (q, j) != (p, k)
    case Delete(q, j, t) => (q, j) == (p, k) ==> t == token
    case Forget(q, j, _) => (q, j) != (p, k)
    case Prolong(q, j, t, _) => (q, j) == (p, k) ==> t == token
    case _ => true
  }

  /** Storing the token of a fresh acquisition makes it owned, if no other call of the process on the key
      is past its reading. */
  lemma StoringOwns(s: State, id: nat)
    requires Inv(s) && id in s.calls && s.calls[id].Store? && Active(s, s.calls[id].token)
    requires forall j :: j in s.calls && j != id ==>
               OwnCallsUse(s.calls[j], s.calls[id].proc, s.calls[id].key, s.calls[id].token)
    ensures var c := s.calls[id];
            Owned(Apply(s, Step(id)), c.proc, c.key, c.token)
  {
    assert CallInv(s, id);
    hide StoreInv;
  }

  lemma OwnedStep(s: State, a: Action, p: Process, k: Key, token: Token)
    requires Inv(s) && Enabled(s, a) && Owned(s, p, k, token)
    requires Active(Apply(s, a), token)
    ensures Owned(Apply(s, a), p, k, token)
  {
    var t := Apply(s, a);
    forall id | id in t.calls ensures OwnCallsUse(t.calls[id], p, k, token) {
    }
    hide Inv, Apply, OwnCallsUse;
    GrantsOnlyGrow(s, a, token);
  }

  /** The watchdog goroutine: waiting for its ticker, inside a call of `Extend`, or stopped at time `at` by
      an unlock that has begun, which leaves the key until after `until`. */
  datatype Watch = Sleeping(since: int) | Extending(id: nat, started: int) | Stopped(at: int, until: int)

  /** The ticker's promise: an extension starts at most `interval` after the last one ended, and takes at
      most `delay`. */
  datatype Pace = Pace(ttl: int, interval: int, delay: int) {
    predicate Valid() {
      0 <= interval && 0 <= delay && interval + delay < ttl
    }

    predicate Punctual(w: Watch, now: int) {
      match w
      case Sleeping(since) => now - since <= interval
      case Extending(_, started) => now - started <= delay
      case Stopped(_, _) => true
    }

    /** The key is safe until after this time. */
    function SafeUntil(w: Watch): int {
      match w
      case Sleeping(since) => since + interval + delay
      case Extending(_, started) => started + delay
      case Stopped(_, until) => until
    }
  }

  /** What a step means for the watchdog of `p`'s lock on `k`.  `Unlock` stops it before anything else. */
  function Watching(s: State, a: Action, w: Watch, p: Process, k: Key, pace: Pace): Watch
    requires Enabled(s, a)
  {
    if w.Stopped? then w
    else if a.StartUnlock? && a.proc == p && a.key == k then Stopped(s.now, pace.SafeUntil(w))
    else if w.Sleeping? then
      if a.StartExtend? && a.proc == p && a.key == k && a.ttl == pace.ttl then Extending(a.id, s.now) else w
    else if a == Step(w.id) && w.id in Apply(s, a).calls && Apply(s, a).calls[w.id].Done? then Sleeping(s.now)
    else w
  }

  /** The watchdog at the end of a schedule. */
  ghost function WatchAfter(s: State, schedule: seq<Action>, w: Watch, p: Process, k: Key, pace: Pace): Watch
    decreases |schedule|
  {
    if schedule == [] || !Enabled(s, schedule[0]) then w
    else WatchAfter(Apply(s, schedule[0]), schedule[1..], Watching(s, schedule[0], w, p, k, pace), p, k, pace)
  }

  /** The watchdog is punctual throughout the schedule, until it is stopped, and nobody extends the token by
      less than the TTL. */
  ghost predicate Watched(s: State, schedule: seq<Action>, w: Watch, p: Process, k: Key, token: Token, pace: Pace)
    decreases |schedule|
  {
    schedule == [] ||
    (var a := schedule[0];
     Enabled(s, a) &&
     var t, w' := Apply(s, a), Watching(s, a, w, p, k, pace);
     && (Attempts(s, a, token) ==> s.calls[a.id].ttl >= pace.ttl)
     && pace.Punctual(w', t.now)
     && Watched(t, schedule[1..], w', p, k, token, pace))
  }

  /** There is time for the extension that is due, and the call in progress is on its way. */
  ghost predicate InTime(s: State, w: Watch, p: Process, k: Key, token: Token, pace: Pace)
    requires token in s.grants
  {
    && s.grants[token].deadline > pace.SafeUntil(w)
    && match w
       case Sleeping(since) => since <= s.now
       case Extending(id, started) =>
         && started <= s.now && id in s.calls
         && (s.calls[id] == ReadToExtend(p, k, pace.ttl) || s.calls[id] == Prolong(p, k, token, pace.ttl))
       case Stopped(at, until) => at <= until && until <= s.now + pace.interval + pace.delay
  }

  /** A step keeps the watchdog in time; only after it was stopped can the grant run out. */
  lemma TickInTime(s: State, a: Action, w: Watch, p: Process, k: Key, token: Token, pace: Pace)
    requires Inv(s) && Enabled(s, a) && Owned(s, p, k, token) && pace.Valid()
    requires InTime(s, w, p, k, token, pace) && pace.Punctual(w, s.now)
    requires Attempts(s, a, token) ==> s.calls[a.id].ttl >= pace.ttl
    requires pace.Punctual(Watching(s, a, w, p, k, pace), Apply(s, a).now)
    ensures token in Apply(s, a).grants
    ensures var t, w' := Apply(s, a), Watching(s, a, w, p, k, pace);
            !t.grants[token].released ==>
              if t.grants[token].deadline > t.now then Active(t, token) && InTime(t, w', p, k, token, pace)
              else w'.Stopped? && w'.at <= w'.until < t.now
  {
    hide Inv, StoreInv, TokensInv, Granted, OwnCallsUse;
    GrantsOnlyGrow(s, a, token);
    AttemptsSucceed(s, a, token);
    if !Apply(s, a).grants[token].released {
      DeadlineInTime(s, a, w, p, k, token, pace);
      CallInTime(s, a, w, p, k, token, pace);
    }
  }

  /** The deadline stays beyond the time that is safe; once the clock passes it the watchdog was stopped. */
  lemma DeadlineInTime(s: State, a: Action, w: Watch, p: Process, k: Key, token: Token, pace: Pace)
    requires Inv(s) && Enabled(s, a) && Owned(s, p, k, token) && pace.Valid()
    requires InTime(s, w, p, k, token, pace) && pace.Punctual(w, s.now)
    requires Attempts(s, a, token) ==> s.calls[a.id].ttl >= pace.ttl
    requires pace.Punctual(Watching(s, a, w, p, k, pace), Apply(s, a).now)
    ensures token in Apply(s, a).grants
    ensures var t, w' := Apply(s, a), Watching(s, a, w, p, k, pace);
            && t.grants[token].deadline > pace.SafeUntil(w')
            && (t.grants[token].deadline <= t.now ==> w'.Stopped?)
            && (w'.Stopped? ==> w'.at <= w'.until <= t.now + pace.interval + pace.delay)
  {
    hide Inv, StoreInv, TokensInv, Granted, OwnCallsUse;
    GrantsOnlyGrow(s, a, token);
    AttemptsSucceed(s, a, token);
    NowGoesOn(s, a);
    if w.Extending? {
      Extension(s, a, w, p, k, token, pace);
    }
    hide Apply;
  }

  lemma NowGoesOn(s: State, a: Action)
    requires Enabled(s, a)
    ensures Apply(s, a).now >= s.now && (!a.Tick? ==> Apply(s, a).now == s.now)
  {
  }

  /** The watchdog's own call ends by extending. */
  lemma Extension(s: State, a: Action, w: Watch, p: Process, k: Key, token: Token, pace: Pace)
    requires Inv(s) && Enabled(s, a) && Owned(s, p, k, token) && w.Extending?
    requires InTime(s, w, p, k, token, pace)
    ensures Watching(s, a, w, p, k, pace).Sleeping? ==> Attempts(s, a, token)
  {
    hide Inv, StoreInv, TokensInv, Granted, OwnCallsUse;
  }

  lemma CallInTime(s: State, a: Action, w: Watch, p: Process, k: Key, token: Token, pace: Pace)
    requires Inv(s) && Enabled(s, a) && Owned(s, p, k, token)
    requires InTime(s, w, p, k, token, pace)
    ensures var t, w' := Apply(s, a), Watching(s, a, w, p, k, pace);
            match w'
            case Sleeping(since) => since <= t.now
            case Extending(id, started) =>
              && started <= t.now && id in t.calls
              && (t.calls[id] == ReadToExtend(p, k, pace.ttl) || t.calls[id] == Prolong(p, k, token, pace.ttl))
            case Stopped(_, _) => true
  {
    hide Inv, StoreInv, TokensInv, Granted, OwnCallsUse;
    NowGoesOn(s, a);
  }

  /** A stopped watchdog stays as it is while time goes on. */
  lemma {:induction false} StoppedStays(s: State, schedule: seq<Action>, w: Watch, p: Process, k: Key, pace: Pace)
    requires w.Stopped? && After(s, schedule).Some?
    ensures WatchAfter(s, schedule, w, p, k, pace) == w
    ensures After(s, schedule).value.now >= s.now
    decreases |schedule|
  {
    if schedule != [] {
      StoppedStays(Apply(s, schedule[0]), schedule[1..], w, p, k, pace);
    }
  }

  lemma {:induction false} GrantsStay(s: State, schedule: seq<Action>, token: Token)
    requires Inv(s) && token in s.grants && After(s, schedule).Some?
    ensures token in After(s, schedule).value.grants
    decreases |schedule|
  {
    if schedule != [] {
      StoreStep(s, schedule[0]);
      TokensStep(s, schedule[0]);
      GrantsOnlyGrow(s, schedule[0], token);
      hide Inv, Apply;
      GrantsStay(Apply(s, schedule[0]), schedule[1..], token);
    }
  }

  /** What the watchdog achieves: the token was released, or it is the live value of its key, or an unlock
      has begun and the time that still was safe then is over. */
  ghost predicate Kept(t: State, w: Watch, k: Key, token: Token) {
    && token in t.grants
    && (t.grants[token].released || t.Holds(k, token) || (w.Stopped? && w.at <= w.until < t.now))
  }

  /** The watchdog keeps the lock: if interval and delay together stay below the TTL, then in every
      interleaving with any calls of any processes the key does not expire before its holder begins to
      unlock, and not until after the time that is safe then. */
  lemma {:induction false} TickerKeepsLock(s: State, schedule: seq<Action>, w: Watch, p: Process, k: Key,
                                           token: Token, pace: Pace)
    requires Inv(s) && Owned(s, p, k, token) && After(s, schedule).Some? && pace.Valid()
    requires InTime(s, w, p, k, token, pace) && pace.Punctual(w, s.now)
    requires Watched(s, schedule, w, p, k, token, pace)
    ensures Kept(After(s, schedule).value, WatchAfter(s, schedule, w, p, k, pace), k, token)
    decreases |schedule|
  {
    if schedule == [] {
    } else {
      var a := schedule[0];
      var t := Apply(s, a);
      StoreStep(s, a);
      TokensStep(s, a);
      TickInTime(s, a, w, p, k, token, pace);
      var w' := Watching(s, a, w, p, k, pace);
      hide Inv, Owned, Active, InTime, Apply, Watching, Attempts, pace.Valid;
      if t.grants[token].released {
        ReleasedForEver(t, schedule[1..], token);
      } else if t.grants[token].deadline <= t.now {
        StoppedStays(t, schedule[1..], w', p, k, pace);
        GrantsStay(t, schedule[1..], token);
      } else {
        OwnedStep(s, a, p, k, token);
        TickerKeepsLock(t, schedule[1..], w', p, k, token, pace);
      }
    }
  }

  // ----- Tenure, in the TTLs the callers gave -----

  /** A call keeps what it was started with while it tries to acquire. */
  ghost predicate StartedWith(s: State, id: nat, p: Process, k: Key, ttl: int) {
    id in s.calls && (s.calls[id].SetNX? ==> s.calls[id].proc == p && s.calls[id].key == k && s.calls[id].ttl == ttl)
  }

  lemma StaysStartedWith(s: State, a: Action, id: nat, p: Process, k: Key, ttl: int)
    requires Enabled(s, a) && StartedWith(s, id, p, k, ttl)
    ensures StartedWith(Apply(s, a), id, p, k, ttl)
  {
  }

  lemma {:induction false} TriesWhatItStarted(schedule: seq<Action>, i: nat, s: State)
    requires Run(schedule) == Some(s) && i < |schedule| && schedule[i].StartAcquire?
    ensures StartedWith(s, schedule[i].id, schedule[i].proc, schedule[i].key, schedule[i].ttl)
  {
    var front, a := schedule[..|schedule| - 1], schedule[|schedule| - 1];
    var before := Run(front).value;
    hide Inv;
    if i < |front| {
      hide Apply;
      TriesWhatItStarted(front, i, before);
      StaysStartedWith(before, a, schedule[i].id, schedule[i].proc, schedule[i].key, schedule[i].ttl);
    }
  }

  /** From `s` on, no unlock or extend script runs with `token`, and nobody tries to acquire `k` at `until` or
      later. */
  ghost predicate Untouched(s: State, schedule: seq<Action>, k: Key, token: Token, until: int)
    decreases |schedule|
  {
    schedule == [] ||
    (var a := schedule[0];
     && Enabled(s, a)
     && (a.Step? && (s.calls[a.id].Delete? || s.calls[a.id].Prolong?) ==> s.calls[a.id].token != token)
     && (a.Step? && s.calls[a.id].SetNX? && s.calls[a.id].key == k ==> s.now < until)
     && Untouched(Apply(s, a), schedule[1..], k, token, until))
  }

  /** The key holds `token` until then. */
  ghost predicate Leased(s: State, k: Key, token: Token, until: int) {
    k in s.redis && s.redis[k] == Entry(token, until)
  }

  lemma LeaseStep(s: State, a: Action, k: Key, token: Token, until: int)
    requires Enabled(s, a) && Leased(s, k, token, until)
    requires a.Step? && (s.calls[a.id].Delete? || s.calls[a.id].Prolong?) ==> s.calls[a.id].token != token
    requires a.Step? && s.calls[a.id].SetNX? && s.calls[a.id].key == k ==> s.now < until
    ensures Leased(Apply(s, a), k, token, until)
  {
  }

  lemma {:induction false} LeaseLasts(s: State, schedule: seq<Action>, k: Key, token: Token, until: int)
    requires Leased(s, k, token, until) && Untouched(s, schedule, k, token, until) && After(s, schedule).Some?
    ensures Leased(After(s, schedule).value, k, token, until)
    decreases |schedule|
  {
    if schedule != [] {
      LeaseStep(s, schedule[0], k, token, until);
      hide Leased, Apply;
      LeaseLasts(Apply(s, schedule[0]), schedule[1..], k, token, until);
    }
  }

  predicate Succeeds(s: State, id: nat)
    requires id in s.calls && s.calls[id].SetNX?
  {
    DoStep(s, id).calls[id].Store?
  }

  /** The TTL of an acquisition: when an attempt started with `ttl` succeeds at some time, and its token is
      neither released nor extended, then the next attempts on the key fail while less than `ttl` has passed
      since, and the first one after that succeeds. */
  lemma AcquiredForItsTtl(schedule: seq<Action>, acq: nat, p: Process, k: Key, ttl: int,
                          s: State, more: seq<Action>, u: State, id: nat)
    requires StartAcquire(acq, p, k, ttl) in schedule && Run(schedule) == Some(s)
    requires acq in s.calls && s.calls[acq].SetNX? && Succeeds(s, acq)
    requires After(DoStep(s, acq), more) == Some(u)
    requires Untouched(DoStep(s, acq), more, k, s.calls[acq].token, s.now + ttl)
    requires id in u.calls && u.calls[id].SetNX? && u.calls[id].key == k
    ensures Succeeds(u, id) <==> u.now >= s.now + ttl
  {
    hide Inv, Untouched, After, Run;
    var i :| 0 <= i < |schedule| && schedule[i] == StartAcquire(acq, p, k, ttl);
    TriesWhatItStarted(schedule, i, s);
    SetsTheLease(s, acq);
    hide DoStep;
    LeaseLasts(DoStep(s, acq), more, k, s.calls[acq].token, s.now + ttl);
    LeaseDecides(u, id, k, s.calls[acq].token, s.now + ttl);
  }

  lemma SetsTheLease(s: State, id: nat)
    requires id in s.calls && s.calls[id].SetNX? && Succeeds(s, id)
    ensures Leased(DoStep(s, id), s.calls[id].key, s.calls[id].token, s.now + s.calls[id].ttl)
  {
  }

  /** An attempt on a leased key succeeds exactly when the lease is over. */
  lemma LeaseDecides(s: State, id: nat, k: Key, token: Token, until: int)
    requires id in s.calls && s.calls[id].SetNX? && s.calls[id].key == k && Leased(s, k, token, until)
    ensures Succeeds(s, id) <==> s.now >= until
  {
  }

  /** The TTL of an extension: the same, counted from the extend script that succeeded. */
  lemma ExtendedForItsTtl(s: State, ext: nat, more: seq<Action>, u: State, id: nat)
    requires ext in s.calls && s.calls[ext].Prolong? && DoStep(s, ext).calls[ext] == Done(Extended)
    requires After(DoStep(s, ext), more) == Some(u)
    requires Untouched(DoStep(s, ext), more, s.calls[ext].key, s.calls[ext].token, s.now + s.calls[ext].ttl)
    requires id in u.calls && u.calls[id].SetNX? && u.calls[id].key == s.calls[ext].key
    ensures Succeeds(u, id) <==> u.now >= s.now + s.calls[ext].ttl
  {
    hide Untouched, After;
    assert Leased(DoStep(s, ext), s.calls[ext].key, s.calls[ext].token, s.now + s.calls[ext].ttl);
    hide DoStep;
    LeaseLasts(DoStep(s, ext), more, s.calls[ext].key, s.calls[ext].token, s.now + s.calls[ext].ttl);
    LeaseDecides(u, id, s.calls[ext].key, s.calls[ext].token, s.now + s.calls[ext].ttl);
  }

  /** How every call ends: what its last step makes of it. */
  lemma Replies(s: State, id: nat)
    requires id in s.calls
    ensures s.calls[id].Store? ==> DoStep(s, id).calls[id] == Done(Acquired)
    ensures s.calls[id].ReadToUnlock? && (s.calls[id].proc, s.calls[id].key) !in s.values ==>
              DoStep(s, id).calls[id] == Done(LockNotHeld) && DoStep(s, id).redis == s.redis
    ensures s.calls[id].ReadToExtend? && (s.calls[id].proc, s.calls[id].key) !in s.values ==>
              DoStep(s, id).calls[id] == Done(LockNotHeld) && DoStep(s, id).redis == s.redis
    ensures s.calls[id].Prolong? ==>
              (DoStep(s, id).calls[id] == Done(Extended) <==> s.Holds(s.calls[id].key, s.calls[id].token))
  {
  }

  /** `Unlock` reports success exactly if its script found the token, and then the key is free at once; either
      way the process forgets its value. */
  lemma UnlockedIffHeld(s: State, id: nat)
    requires id in s.calls && s.calls[id].Delete?
    ensures var c, t := s.calls[id], DoStep(s, id);
            && t.calls[id].Forget? && (t.Live(c.key) <==> s.Live(c.key) && !s.Holds(c.key, c.token))
            && (DoStep(t, id).calls[id] == Done(Unlocked) <==> s.Holds(c.key, c.token))
            && (DoStep(t, id).calls[id] == Done(LockNotHeld) <==> !s.Holds(c.key, c.token))
            && (c.proc, c.key) !in DoStep(t, id).values
  {
  }
}
