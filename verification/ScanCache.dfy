/**
 The scan cache and its rate limit: `scan`
 (src/appliance_admin/daemon/managers/network.py), as a transition system over every
 interleaving of callers. Time is in integer ticks of the monotonic clock.
 */
module ScanCache {
  import opened Wrappers
  import opened AccessPoints

  type CallId = nat

  datatype Reply =
    | Cached(accessPoints: seq<AccessPoint>)   // {"cached": True, ...}
    | Fresh(accessPoints: seq<AccessPoint>)    // {"cached": False, ...}
    | Busy                                     // BusyError: the scan was rejected and nothing is cached
    | Unavailable                              // NetworkBackendUnavailableError, or a failed read
    | Cancelled

  datatype Pc =
    | Waiting                 // for the scan lock
    | Locating                // lock held; looking up the Wi-Fi device
    | Scanning(stamp: int)    // a D-Bus scan is in flight; `stamp` is when it was decided
    | Listing                 // reading the access points
    | Ended(reply: Reply)

  /** `_scan_min_interval` and `_scan_cache_seconds`. */
  datatype Params = Params(minInterval: int, cacheSeconds: int)

  datatype State = State(
    cache: seq<AccessPoint>, lastRequest: int, lastResult: int,
    clock: int, lock: Option<CallId>, calls: map<CallId, Pc>)

  datatype ScanOutcome = Completed | BackendLost | Rejected

  datatype Event =
    | Start(c: CallId, force: bool)
    | Acquire(c: CallId)
    | Locate(c: CallId, found: bool)
    | ScanEnds(c: CallId, outcome: ScanOutcome)
    | ReadEnds(c: CallId, result: Option<seq<AccessPoint>>)
    | Cancel(c: CallId)
    | Tick(d: nat)

  predicate Critical(pc: Pc) {
    pc.Locating? || pc.Scanning? || pc.Listing?
  }

  predicate Enabled(s: State, e: Event) {
    match e
    case Start(c, _) => c !in s.calls
    case Acquire(c) => c in s.calls && s.calls[c].Waiting? && s.lock.None?
    case Locate(c, _) => c in s.calls && s.calls[c].Locating?
    case ScanEnds(c, _) => c in s.calls && s.calls[c].Scanning?
    case ReadEnds(c, _) => c in s.calls && s.calls[c].Listing?
    case Cancel(c) => c in s.calls && !s.calls[c].Ended?
    case Tick(_) => true
  }

  function Goto(s: State, c: CallId, pc: Pc): State {
    s.(calls := s.calls[c := pc])
  }

  function End(s: State, c: CallId, reply: Reply): State {
    Goto(s, c, Ended(reply)).(lock := if s.lock == Some(c) then None else s.lock)
  }

  function Apply(p: Params, s: State, e: Event): State
    requires Enabled(s, e)
  {
    match e
    case Start(c, force) =>
      if !force && s.cache != [] && s.clock - s.lastResult < p.cacheSeconds
      then Goto(s, c, Ended(Cached(s.cache)))
      else Goto(s, c, Waiting)
    case Acquire(c) => Goto(s, c, Locating).(lock := Some(c))
    case Locate(c, found) =>
      if !found then End(s, c, Unavailable)
      else if s.clock - s.lastRequest >= p.minInterval then Goto(s, c, Scanning(s.clock))
      else Goto(s, c, Listing)
    case ScanEnds(c, outcome) =>
      (match outcome
       case Completed => Goto(s, c, Listing).(lastRequest := s.calls[c].stamp)
       case BackendLost => End(s, c, Unavailable)
       case Rejected => if s.cache == [] then End(s, c, Busy) else Goto(s, c, Listing))
    case ReadEnds(c, result) =>
      if result.None? then End(s, c, Unavailable)
      else End(s.(cache := result.value, lastResult := s.clock), c, Fresh(result.value))
    case Cancel(c) => End(s, c, Cancelled)
    case Tick(d) => s.(clock := s.clock + d)
  }

  // -------------------------------------------------------------------------- runs

  datatype Trace = Init | Then(past: Trace, event: Event)

  /** The daemon starts at clock `t0`; both stamps start at zero. */
  function Initial(t0: int): State {
    State([], 0, 0, t0, None, map[])
  }

  predicate Run(p: Params, t0: int, t: Trace)
    decreases t, 0
  {
    t.Then? ==> Run(p, t0, t.past) && Enabled(After(p, t0, t.past), t.event)
  }

  function After(p: Params, t0: int, t: Trace): State
    requires Run(p, t0, t)
    decreases t, 1
  {
    match t
    case Init => Initial(t0)
    case Then(past, e) => Apply(p, After(p, t0, past), e)
  }

  /** The latest completed read of the access points, and when it ended. */
  function LastRead(p: Params, t0: int, t: Trace): Option<(seq<AccessPoint>, int)>
    requires Run(p, t0, t)
  {
    match t
    case Init => None
    case Then(past, e) =>
      if e.ReadEnds? && e.result.Some? then Some((e.result.value, After(p, t0, past).clock)) else LastRead(p, t0, past)
  }

  /** A D-Bus scan is requested. */
  predicate Requests(p: Params, s: State, e: Event)
    requires Enabled(s, e)
  {
    e.Locate? && Apply(p, s, e).calls[e.c].Scanning?
  }

  /** When each scan that completed was decided. */
  function CompletedStamps(p: Params, t0: int, t: Trace): seq<int>
    requires Run(p, t0, t)
  {
    match t
    case Init => []
    case Then(past, e) =>
      var rest := CompletedStamps(p, t0, past);
      var s := After(p, t0, past);
      if e.ScanEnds? && e.outcome.Completed? then rest + [s.calls[e.c].stamp] else rest
  }

  /** How many scans were requested. */
  function Requested(p: Params, t0: int, t: Trace): nat
    requires Run(p, t0, t)
  {
    match t
    case Init => 0
    case Then(past, e) => Requested(p, t0, past) + if Requests(p, After(p, t0, past), e) then 1 else 0
  }

  // --------------------------------------------------------------------- invariants

  predicate Exclusive(s: State) {
    && (s.lock.Some? ==> s.lock.value in s.calls)
    && forall c | c in s.calls :: Critical(s.calls[c]) <==> s.lock == Some(c)
  }

  lemma {:induction false} ExclusiveStep(p: Params, s: State, e: Event)
    requires Exclusive(s) && Enabled(s, e)
    ensures Exclusive(Apply(p, s, e))
  {
  }

  lemma {:induction false} RunExclusive(p: Params, t0: int, t: Trace)
    requires Run(p, t0, t)
    ensures Exclusive(After(p, t0, t))
  {
    if t.Then? {
      RunExclusive(p, t0, t.past);
      ExclusiveStep(p, After(p, t0, t.past), t.event);
    }
  }

  /** A scan in flight was decided at least the minimum interval after the last one that completed. */
  predicate StampOk(p: Params, s: State, pc: Pc) {
    pc.Scanning? ==> s.lastRequest + p.minInterval <= pc.stamp <= s.clock
  }

  lemma {:induction false} StampStep(p: Params, s: State, e: Event, c: CallId)
    requires Exclusive(s) && Enabled(s, e) && c in Apply(p, s, e).calls
    requires c in s.calls ==> StampOk(p, s, s.calls[c])
    ensures StampOk(p, Apply(p, s, e), Apply(p, s, e).calls[c])
  {
  }

  lemma {:induction false} RunStamp(p: Params, t0: int, t: Trace, c: CallId)
    requires Run(p, t0, t) && c in After(p, t0, t).calls
    ensures StampOk(p, After(p, t0, t), After(p, t0, t).calls[c])
  {
    if t.Then? {
      var s := After(p, t0, t.past);
      RunExclusive(p, t0, t.past);
      if c in s.calls {
        RunStamp(p, t0, t.past, c);
      }
      StampStep(p, s, t.event, c);
    }
  }

  // ------------------------------------------------------------------ main theorems

  /** At most one call awaits a D-Bus scan, in every interleaving. */
  lemma {:induction false} OneScanAtATime(p: Params, t0: int, t: Trace, c: CallId, d: CallId)
    requires Run(p, t0, t)
    requires c in After(p, t0, t).calls && After(p, t0, t).calls[c].Scanning?
    requires d in After(p, t0, t).calls && After(p, t0, t).calls[d].Scanning?
    ensures c == d
  {
    RunExclusive(p, t0, t);
  }

  /** Call `c` has requested a D-Bus scan. */
  predicate DidRequest(p: Params, t0: int, t: Trace, c: CallId)
    requires Run(p, t0, t)
  {
    t.Then? && (DidRequest(p, t0, t.past, c) || (Requests(p, After(p, t0, t.past), t.event) && t.event.c == c))
  }

  /** It has seen the scan complete. */
  predicate DidComplete(t: Trace, c: CallId) {
    t.Then? && (DidComplete(t.past, c) || t.event == ScanEnds(c, Completed))
  }

  /** It has stopped waiting before that: on an error, at its timeout, or because it was cancelled. */
  predicate GaveUp(p: Params, t0: int, t: Trace, c: CallId)
    requires Run(p, t0, t)
  {
    t.Then? &&
    (GaveUp(p, t0, t.past, c)
     || t.event == ScanEnds(c, BackendLost) || t.event == ScanEnds(c, Rejected)
     || (t.event == Cancel(c) && After(p, t0, t.past).calls[c].Scanning?))
  }

  /** Where call `c` stands with its scan. */
  predicate Tally(calls: map<CallId, Pc>, c: CallId, requested: bool, completed: bool, gaveUp: bool) {
    var scanning := c in calls && calls[c].Scanning?;
    && (requested <==> scanning || completed || gaveUp)
    && !(scanning && completed) && !(scanning && gaveUp) && !(completed && gaveUp)
    && (requested ==> c in calls && !calls[c].Waiting? && !calls[c].Locating?)
  }

  lemma {:induction false} TallyStep(p: Params, s: State, e: Event, c: CallId, requested: bool, completed: bool,
                                     gaveUp: bool)
    requires Enabled(s, e) && Tally(s.calls, c, requested, completed, gaveUp)
    ensures Tally(
      Apply(p, s, e).calls, c,
      requested || (Requests(p, s, e) && e.c == c),
      completed || e == ScanEnds(c, Completed),
      gaveUp || e == ScanEnds(c, BackendLost) || e == ScanEnds(c, Rejected) || (e == Cancel(c) && s.calls[c].Scanning?))
  {
    if e.ScanEnds? {
      assert e == ScanEnds(e.c, e.outcome);
    }
  }

  /** Every scan requested is awaited, has completed, or was given up by its call. */
  lemma {:induction false} ScansAccounted(p: Params, t0: int, t: Trace, c: CallId)
    requires Run(p, t0, t)
    ensures Tally(After(p, t0, t).calls, c, DidRequest(p, t0, t, c), DidComplete(t, c), GaveUp(p, t0, t, c))
  {
    if t.Then? {
      ScansAccounted(p, t0, t.past, c);
      TallyStep(p, After(p, t0, t.past), t.event, c,
                DidRequest(p, t0, t.past, c), DidComplete(t.past, c), GaveUp(p, t0, t.past, c));
      hide Apply;
    }
  }

  /**
   Which scans can overlap in NetworkManager: when one is requested, the earlier ones that need not be
   over are exactly those whose calls gave up on them.
   */
  lemma {:induction false} OverlapExact(p: Params, t0: int, t: Trace, e: Event, d: CallId)
    requires Run(p, t0, Then(t, e)) && Requests(p, After(p, t0, t), e)
    ensures DidRequest(p, t0, t, d) && !DidComplete(t, d) <==> GaveUp(p, t0, t, d)
  {
    RunExclusive(p, t0, t);
    ScansAccounted(p, t0, t, d);
  }

  /** The daemon's stamps are those the run shows. */
  lemma {:induction false} LastRequestIsLast(p: Params, t0: int, t: Trace)
    requires Run(p, t0, t)
    ensures var stamps := CompletedStamps(p, t0, t);
            After(p, t0, t).lastRequest == if stamps == [] then 0 else stamps[|stamps| - 1]
  {
    if t.Then? {
      LastRequestIsLast(p, t0, t.past);
    }
  }

  /** Completed scans were decided at least the minimum interval apart, `force` or not. */
  lemma {:induction false} CompletedScansAreSpaced(p: Params, t0: int, t: Trace)
    requires Run(p, t0, t)
    ensures var stamps := CompletedStamps(p, t0, t);
            forall i | 0 < i < |stamps| :: stamps[i] - stamps[i - 1] >= p.minInterval
  {
    if t.Then? {
      CompletedScansAreSpaced(p, t0, t.past);
      LastRequestIsLast(p, t0, t.past);
      if t.event.ScanEnds? {
        RunStamp(p, t0, t.past, t.event.c);
      }
    }
  }

  /**
   When a scan is requested: exactly when the minimum interval has passed since the last one
   that completed was decided. Failed and cancelled scans do not count.
   */
  lemma {:induction false} RequestExact(p: Params, t0: int, t: Trace, c: CallId)
    requires Run(p, t0, Then(t, Locate(c, true)))
    ensures var stamps := CompletedStamps(p, t0, t);
            Requests(p, After(p, t0, t), Locate(c, true)) <==>
            After(p, t0, t).clock - (if stamps == [] then 0 else stamps[|stamps| - 1]) >= p.minInterval
  {
    LastRequestIsLast(p, t0, t);
  }

  // ------------------------------------------------------------------ who gets which reply

  predicate Occurs(t: Trace, e: Event) {
    t.Then? && (t.event == e || Occurs(t.past, e))
  }

  /** A scan of call `c` was rejected when nothing was cached. */
  predicate RejectedEmpty(p: Params, t0: int, t: Trace, c: CallId)
    requires Run(p, t0, t)
  {
    t.Then? && (RejectedEmpty(p, t0, t.past, c) || (t.event == ScanEnds(c, Rejected)
                                                    && After(p, t0, t.past).cache == []))
  }

  /** The call was answered from the cache with `value`. */
  predicate AnsweredFromCache(p: Params, t0: int, t: Trace, c: CallId, value: seq<AccessPoint>)
    requires Run(p, t0, t)
  {
    t.Then? &&
    (AnsweredFromCache(p, t0, t.past, c, value) ||
     var read := LastRead(p, t0, t.past);
     && t.event == Start(c, false) && read.Some? && read.value.0 == value && value != []
     && After(p, t0, t.past).clock - read.value.1 < p.cacheSeconds)
  }

  /** Call `c` has ended with reply `r`. */
  predicate Replied(s: State, c: CallId, r: Reply) {
    c in s.calls && s.calls[c] == Ended(r)
  }

  /**
   Which call gets which reply, exactly: a lost backend, whether it shows in the device look-up, during
   the scan or in the read, always ends the call with that error, whatever is cached; a rejected scan
   ends it with BusyError if and only if nothing is cached, and otherwise the read decides; and the
   cache answers every call that does not force and finds it non-empty and fresh.
   */
  lemma {:induction false} RepliesExact(p: Params, t0: int, t: Trace, c: CallId)
    requires Run(p, t0, t)
    ensures var s := After(p, t0, t);
            && (Replied(s, c, Unavailable) <==>
                  Occurs(t, Locate(c, false)) || Occurs(t, ScanEnds(c, BackendLost)) || Occurs(t, ReadEnds(c, None)))
            && (Replied(s, c, Busy) <==> RejectedEmpty(p, t0, t, c))
            && (Replied(s, c, Cancelled) <==> Occurs(t, Cancel(c)))
            && (forall value :: Replied(s, c, Fresh(value)) <==> Occurs(t, ReadEnds(c, Some(value))))
            && (forall value :: Replied(s, c, Cached(value)) <==> AnsweredFromCache(p, t0, t, c, value))
  {
    if t.Then? {
      var s := After(p, t0, t.past);
      RepliesExact(p, t0, t.past, c);
      CacheIsLastRead(p, t0, t.past);
      ReplyStep(p, s, t.event, c);
      hide Apply;
    }
  }

  /** How a step ends a call: a reply once given stays, and only these steps give one. */
  lemma {:induction false} ReplyStep(p: Params, s: State, e: Event, c: CallId)
    requires Enabled(s, e)
    ensures var s' := Apply(p, s, e);
            && (Replied(s', c, Unavailable) <==>
                  Replied(s, c, Unavailable) || e == Locate(c, false) || e == ScanEnds(c, BackendLost)
                    || e == ReadEnds(c, None))
            && (Replied(s', c, Busy) <==> Replied(s, c, Busy) || (e == ScanEnds(c, Rejected) && s.cache == []))
            && (Replied(s', c, Cancelled) <==> Replied(s, c, Cancelled) || e == Cancel(c))
            && (forall value :: Replied(s', c, Fresh(value)) <==>
                Replied(s, c, Fresh(value)) || e == ReadEnds(c, Some(value)))
            && (forall value :: Replied(s', c, Cached(value)) <==>
                  || Replied(s, c, Cached(value))
                  || (e == Start(c, false) && value == s.cache && value != []
                      && s.clock - s.lastResult < p.cacheSeconds))
  {
  }

  /** What the cache holds. */
  lemma {:induction false} CacheIsLastRead(p: Params, t0: int, t: Trace)
    requires Run(p, t0, t)
    ensures var s := After(p, t0, t);
            match LastRead(p, t0, t)
            case None => s.cache == [] && s.lastResult == 0
            case Some(r) => s.cache == r.0 && s.lastResult == r.1
  {
    if t.Then? {
      CacheIsLastRead(p, t0, t.past);
    }
  }

  predicate Extends(u: Trace, t: Trace) {
    u == t || (u.Then? && Extends(u.past, t))
  }

  /**
   Every reply marked as cached is non-empty, equals the latest completed read, and is younger than the
   cache time.
   */
  lemma {:induction false} CachedReplies(p: Params, t0: int, t: Trace, c: CallId)
    requires Run(p, t0, t) && c in After(p, t0, t).calls
    requires var pc := After(p, t0, t).calls[c]; pc.Ended? && pc.reply.Cached?
    ensures
      var value := After(p, t0, t).calls[c].reply.accessPoints;
      value != [] &&
      exists q :: Extends(t, Then(q, Start(c, false))) && Run(p, t0, q)
                  && LastRead(p, t0, q).Some? && LastRead(p, t0, q).value.0 == value
                  && After(p, t0, q).clock - LastRead(p, t0, q).value.1 < p.cacheSeconds
  {
    var past := t.past;
    var s := After(p, t0, past);
    if c in s.calls {
      CachedReplies(p, t0, past, c);
      var q :| Extends(past, Then(q, Start(c, false))) && Run(p, t0, q)
               && LastRead(p, t0, q).Some? && LastRead(p, t0, q).value.0 == s.calls[c].reply.accessPoints
               && After(p, t0, q).clock - LastRead(p, t0, q).value.1 < p.cacheSeconds;
      assert Extends(t, Then(q, Start(c, false)));
    } else {
      CacheIsLastRead(p, t0, past);
      assert Extends(t, Then(past, Start(c, false)));
    }
  }

  /** `BusyError` is raised only while no read has produced an access point to fall back on. */
  lemma {:induction false} BusyOnlyWithoutCache(p: Params, t0: int, t: Trace, e: Event, c: CallId)
    requires Run(p, t0, Then(t, e)) && c in After(p, t0, Then(t, e)).calls
    requires After(p, t0, Then(t, e)).calls[c] == Ended(Busy)
    requires c in After(p, t0, t).calls ==> After(p, t0, t).calls[c] != Ended(Busy)
    ensures e == ScanEnds(c, Rejected)
    ensures var read := LastRead(p, t0, t); read.None? || read.value.0 == []
  {
    CacheIsLastRead(p, t0, t);
  }

  /** Some run ends in `s` after `n` scan requests. */
  ghost predicate Reached(p: Params, t0: int, s: State, n: nat) {
    exists t :: Run(p, t0, t) && After(p, t0, t) == s && Requested(p, t0, t) == n
  }

  lemma {:induction false} Step(p: Params, t0: int, s: State, n: nat, e: Event) returns (s': State)
    requires Reached(p, t0, s, n) && Enabled(s, e)
    ensures s' == Apply(p, s, e)
    ensures Reached(p, t0, s', n + if Requests(p, s, e) then 1 else 0)
  {
    s' := Apply(p, s, e);
    var t :| Run(p, t0, t) && After(p, t0, t) == s && Requested(p, t0, t) == n;
    var t' := Then(t, e);
    assert Run(p, t0, t') && After(p, t0, t') == s' && Requested(p, t0, t') == n + if Requests(p, s, e) then 1 else 0;
  }

  /**
   The rate limit covers completed scans only: as long as NetworkManager rejects them, any number
   of scans can be requested with no time passing at all.
   */
  lemma {:induction false} RejectedScansAreNotLimited(p: Params, t0: int, n: nat) returns (s: State)
    requires t0 >= p.minInterval
    ensures Reached(p, t0, s, n)
    ensures s.cache == [] && s.lastRequest == 0 && s.clock == t0 && s.lock.None?
    ensures forall c :: c in s.calls <==> 0 <= c < n
  {
    if n == 0 {
      s := Initial(t0);
      assert Run(p, t0, Init) && After(p, t0, Init) == s && Requested(p, t0, Init) == 0;
    } else {
      s := RejectedScansAreNotLimited(p, t0, n - 1);
      s := RejectedScan(p, t0, s, n - 1, n - 1);
    }
  }

  /** One more caller has its scan rejected, in an instant. */
  lemma {:induction false} RejectedScan(p: Params, t0: int, s: State, n: nat, c: CallId) returns (s': State)
    requires Reached(p, t0, s, n) && c !in s.calls
    requires s.cache == [] && s.lock.None? && s.clock - s.lastRequest >= p.minInterval
    ensures s' == s.(calls := s.calls[c := Ended(Busy)]) && Reached(p, t0, s', n + 1)
  {
    hide Reached;
    s' := Step(p, t0, s, n, Start(c, true));
    s' := Step(p, t0, s', n, Acquire(c));
    assert s' == s.(lock := Some(c), calls := s.calls[c := Locating]);
    s' := Step(p, t0, s', n, Locate(c, true));
    assert s' == s.(lock := Some(c), calls := s.calls[c := Scanning(s.clock)]);
    s' := Step(p, t0, s', n + 1, ScanEnds(c, Rejected));
  }
}
