/**
 The code of `scan` (src/appliance_admin/daemon/managers/network.py) with the fields it
 updates, step by step, with the other callers running at every `await`. Whatever happens, what
 it does is a run of the transition system in `ScanCache`, so the theorems there are theorems
 about this code.
 */
module ScanCode {
  import opened Wrappers
  import opened AccessPoints
  import opened ScanCache

  /** What the environment does at one `await`. */
  datatype Choice = Choice(others: seq<Event>, cancel: bool, found: bool, outcome: ScanOutcome,
                           result: Option<seq<AccessPoint>>)

  predicate Concerns(e: Event, c: CallId) {
    !e.Tick? && e.c == c
  }

  /** Nobody else moves a call or takes the lock from it; nor, while it holds the lock, changes cache or stamps. */
  lemma {:induction false} OthersLeave(p: Params, s: State, e: Event, c: CallId)
    requires Exclusive(s) && Enabled(s, e) && !Concerns(e, c) && c in s.calls
    ensures var s' := Apply(p, s, e);
            && c in s'.calls && s'.calls[c] == s.calls[c] && s.clock <= s'.clock
            && (s.lock == Some(c) ==>
                  s'.lock == Some(c) && s'.cache == s.cache && s'.lastRequest == s.lastRequest
                    && s'.lastResult == s.lastResult)
  {
  }

  /**
   The reply the environment brings about; its awaits are env(0) to env(2). `due` says whether the minimum
   interval had passed when the device was found, and `empty` whether nothing is cached.
   */
  function ReplyOf(env: nat -> Choice, due: bool, empty: bool): Reply {
    var early := EarlyReply(env, due, empty);
    if early.Some? then early.value
    else if env(2).cancel then Cancelled
    else if env(2).result.None? then Unavailable
    else Fresh(env(2).result.value)
  }

  /** As far as the first two awaits decide it; `None` if the read does. */
  function EarlyReply(env: nat -> Choice, due: bool, empty: bool): (early: Option<Reply>)
    ensures early.Some? ==> early.value.Cancelled? || early.value.Unavailable? || (early.value.Busy? && empty)
  {
    if env(0).cancel then Some(Cancelled)
    else if !env(0).found then Some(Unavailable)
    else if due && env(1).cancel then Some(Cancelled)
    else if due && env(1).outcome.BackendLost? then Some(Unavailable)
    else if due && env(1).outcome.Rejected? && empty then Some(Busy)
    else None
  }

  /** The call requests a scan, and it completes. */
  predicate CompletesScan(env: nat -> Choice, due: bool) {
    !env(0).cancel && env(0).found && due && !env(1).cancel && env(1).outcome.Completed?
  }

  class Scanner {
    const p: Params
    const t0: int
    var scanCache: seq<AccessPoint>
    var lastScanRequest: int
    var lastScanResult: int
    var clock: int
    var scanLock: Option<CallId>
    var calls: map<CallId, Pc>
    ghost var t: Trace

    constructor (p: Params, t0: int)
      ensures Valid() && this.p == p && this.t0 == t0 && t == Init
    {
      this.p, this.t0 := p, t0;
      scanCache, lastScanRequest, lastScanResult := [], 0, 0;
      clock, scanLock, calls, t := t0, None, map[], Init;
    }

    function S(): State
      reads this
    {
      State(scanCache, lastScanRequest, lastScanResult, clock, scanLock, calls)
    }

    ghost predicate Valid()
      reads this
    {
      Run(p, t0, t) && After(p, t0, t) == S()
    }

    /** Call `c` holds the lock, at `pc`. */
    predicate Holding(c: CallId, pc: Pc)
      reads this
    {
      c in calls && calls[c] == pc && scanLock == Some(c)
    }

    /** While call `c` is suspended, the others do what they can. */
    method Others(c: CallId, events: seq<Event>)
      requires Valid() && c in calls
      modifies this
      ensures Valid() && c in calls && calls[c] == old(calls[c])
      ensures old(scanLock) == Some(c) ==>
                scanLock == Some(c) && scanCache == old(scanCache)
                && lastScanRequest == old(lastScanRequest) && lastScanResult == old(lastScanResult)
      ensures old(clock) <= clock
    {
      for i := 0 to |events|
        invariant Valid() && c in calls && calls[c] == old(calls[c]) && old(clock) <= clock
        invariant old(scanLock) == Some(c) ==>
                    scanLock == Some(c) && scanCache == old(scanCache)
                    && lastScanRequest == old(lastScanRequest) && lastScanResult == old(lastScanResult)
      {
        var e := events[i];
        if Enabled(S(), e) && !Concerns(e, c) {
          RunExclusive(p, t0, t);
          OthersLeave(p, S(), e, c);
          var s := Apply(p, S(), e);
          scanCache, lastScanRequest, lastScanResult := s.cache, s.lastRequest, s.lastResult;
          clock, scanLock, calls := s.clock, s.lock, s.calls;
          t := Then(t, e);
        }
      }
    }

    /** An `await` under the lock: the others run, and then the server may cancel the call. */
    method Await(c: CallId, choice: Choice) returns (cancelled: bool)
      requires Valid() && c in calls && !calls[c].Ended? && scanLock == Some(c)
      modifies this
      ensures Valid() && c in calls
      ensures cancelled == choice.cancel && old(clock) <= clock
      ensures if cancelled then calls[c] == Ended(Cancelled) && scanLock.None? else Holding(c, old(calls[c]))
      ensures scanCache == old(scanCache) && lastScanRequest == old(lastScanRequest)
              && lastScanResult == old(lastScanResult)
    {
      Others(c, choice.others);
      cancelled := choice.cancel;
      if cancelled {
        scanLock := None;
        calls := calls[c := Ended(Cancelled)];
        t := Then(t, Cancel(c));
      }
    }

    /** `scan` up to the lock: `None` when the call has to wait for it. */
    method Scan(c: CallId, force: bool) returns (r: Option<Reply>)
      requires Valid() && c !in calls
      modifies this
      ensures Valid() && t == Then(old(t), Start(c, force)) && c in calls
      ensures if r.None? then calls[c] == Waiting else calls[c] == Ended(r.value)
      ensures r.Some? <==> !force && scanCache != [] && clock - lastScanResult < p.cacheSeconds
      ensures r.Some? ==> r.value == Cached(old(scanCache))
      ensures scanCache == old(scanCache) && clock == old(clock) && lastScanResult == old(lastScanResult)
    {
      t := Then(t, Start(c, force));
      var now := clock;
      if !force && scanCache != [] && now - lastScanResult < p.cacheSeconds {
        r := Some(Cached(scanCache));
        calls := calls[c := Ended(Cached(scanCache))];
      } else {
        r := None;
        calls := calls[c := Waiting];
      }
    }

    /** The body of `async with self._scan_lock`, once the lock is free for call `c`. */
    method ScanLocked(c: CallId, env: nat -> Choice) returns (r: Reply, ghost decided: int)
      requires Valid() && c in calls && calls[c].Waiting? && scanLock.None?
      modifies this
      ensures Valid() && c in calls && calls[c] == Ended(r) && scanLock.None?
      ensures r.Fresh? ==> scanCache == r.accessPoints && lastScanResult == clock
      ensures !r.Fresh? ==> scanCache == old(scanCache) && lastScanResult == old(lastScanResult)
      ensures r.Busy? ==> scanCache == []
      ensures var due := decided - old(lastScanRequest) >= p.minInterval;
              && r == ReplyOf(env, due, old(scanCache) == [])
              && lastScanRequest == if CompletesScan(env, due) then decided else old(lastScanRequest)
      ensures old(clock) <= decided <= clock
    {
      hide Run, After, EarlyReply, CompletesScan;
      Enter(c);
      var ended: Option<Reply>;
      ended, decided := RequestIfDue(c, env);
      if ended.Some? {
        return ended.value, decided;
      }
      r := Read(c, env);
    }

    /** The lock is taken. */
    method Enter(c: CallId)
      requires Valid() && c in calls && calls[c].Waiting? && scanLock.None?
      modifies `scanLock, `calls, `t
      ensures Valid() && Holding(c, Locating)
    {
      scanLock := Some(c);
      calls := calls[c := Locating];
      t := Then(t, Acquire(c));
    }

    /** Reading the access points into the cache. */
    method Read(c: CallId, env: nat -> Choice) returns (r: Reply)
      requires Valid() && Holding(c, Listing)
      modifies this
      ensures Valid() && c in calls && calls[c] == Ended(r) && scanLock.None? && lastScanRequest == old(lastScanRequest)
      ensures if r.Fresh? then scanCache == r.accessPoints && lastScanResult == clock
              else scanCache == old(scanCache) && lastScanResult == old(lastScanResult)
      ensures r == if env(2).cancel then Cancelled
                   else if env(2).result.None? then Unavailable
                   else Fresh(env(2).result.value)
      ensures old(clock) <= clock
    {
      hide Run, After;
      var cancelled := Await(c, env(2));
      if cancelled {
        return Cancelled;
      }
      r := Store(c, env(2).result);
    }

    /** Looking up the device, and the D-Bus scan if one is due; `None` when the call goes on to read. */
    method RequestIfDue(c: CallId, env: nat -> Choice) returns (ended: Option<Reply>, ghost decided: int)
      requires Valid() && Holding(c, Locating)
      modifies this
      ensures Valid() && c in calls
      ensures if ended.None? then Holding(c, Listing) else calls[c] == Ended(ended.value) && scanLock.None?
      ensures scanCache == old(scanCache) && lastScanResult == old(lastScanResult)
      ensures var due := decided - old(lastScanRequest) >= p.minInterval;
              && ended == EarlyReply(env, due, old(scanCache) == [])
              && lastScanRequest == if CompletesScan(env, due) then decided else old(lastScanRequest)
      ensures old(clock) <= decided <= clock
    {
      hide Run, After;
      var cancelled := Await(c, env(0));
      decided := clock;
      if cancelled {
        return Some(Cancelled), decided;
      }
      if !env(0).found {
        var r := Leave(c, Locate(c, false), Unavailable);
        return Some(r), decided;
      }
      var now := clock;
      if now - lastScanRequest >= p.minInterval {
        Goto(c, Locate(c, true), Scanning(now));
        ended := AwaitScan(c, env, now);
      } else {
        Goto(c, Locate(c, true), Listing);
        ended := None;
      }
    }

    /** `_request_scan_and_wait`, and the handlers around it. */
    method AwaitScan(c: CallId, env: nat -> Choice, now: int) returns (ended: Option<Reply>)
      requires Valid() && Holding(c, Scanning(now)) && now - lastScanRequest >= p.minInterval
      requires !env(0).cancel && env(0).found
      modifies this
      ensures old(clock) <= clock
      ensures Valid() && c in calls
      ensures if ended.None? then Holding(c, Listing) else calls[c] == Ended(ended.value) && scanLock.None?
      ensures scanCache == old(scanCache) && lastScanResult == old(lastScanResult)
      ensures ended == EarlyReply(env, true, old(scanCache) == [])
      ensures lastScanRequest == if !env(1).cancel && env(1).outcome.Completed? then now else old(lastScanRequest)
    {
      hide Run, After;
      var cancelled := Await(c, env(1));
      if cancelled {
        return Some(Cancelled);
      }
      match env(1).outcome
      case Completed =>
        Stamp(c, now);
        return None;
      case BackendLost =>
        var r := Leave(c, ScanEnds(c, BackendLost), Unavailable);
        return Some(r);
      case Rejected =>
        if scanCache == [] {
          var r := Leave(c, ScanEnds(c, Rejected), Busy);
          return Some(r);
        }
        Goto(c, ScanEnds(c, Rejected), Listing);
        return None;
    }

    /** The call moves on, with no field changed. */
    method Goto(c: CallId, ghost e: Event, pc: Pc)
      requires Valid() && c in calls
      requires Enabled(S(), e) && Apply(p, S(), e) == S().(calls := calls[c := pc])
      modifies `calls, `t
      ensures Valid() && calls == old(calls)[c := pc]
    {
      calls := calls[c := pc];
      t := Then(t, e);
    }

    /** The scan completed: only now is the time at which it was decided recorded. */
    method Stamp(c: CallId, now: int)
      requires Valid() && Holding(c, Scanning(now))
      modifies `calls, `t, `lastScanRequest
      ensures Valid() && Holding(c, Listing) && lastScanRequest == now
    {
      lastScanRequest := now;
      calls := calls[c := Listing];
      t := Then(t, ScanEnds(c, Completed));
    }

    /** The access points were read, or could not be. */
    method Store(c: CallId, result: Option<seq<AccessPoint>>) returns (r: Reply)
      requires Valid() && Holding(c, Listing)
      modifies this
      ensures Valid() && c in calls && calls[c] == Ended(r) && scanLock.None? && lastScanRequest == old(lastScanRequest)
      ensures clock == old(clock)
      ensures if result.None? then r == Unavailable && scanCache == old(scanCache)
              && lastScanResult == old(lastScanResult)
              else r == Fresh(result.value) && scanCache == result.value && lastScanResult == clock
    {
      if result.None? {
        r := Leave(c, ReadEnds(c, None), Unavailable);
        return;
      }
      scanCache := result.value;
      lastScanResult := clock;
      scanLock := None;
      calls := calls[c := Ended(Fresh(scanCache))];
      t := Then(t, ReadEnds(c, result));
      return Fresh(scanCache);
    }

    /** An exception leaves `async with`. */
    method Leave(c: CallId, ghost e: Event, reply: Reply) returns (r: Reply)
      requires Valid() && c in calls && scanLock == Some(c)
      requires Enabled(S(), e) && Apply(p, S(), e) == End(S(), c, reply)
      modifies this
      ensures r == reply && Valid() && c in calls && calls[c] == Ended(reply) && scanLock.None? && clock == old(clock)
      ensures scanCache == old(scanCache) && lastScanRequest == old(lastScanRequest)
              && lastScanResult == old(lastScanResult)
    {
      scanLock := None;
      calls := calls[c := Ended(reply)];
      t := Then(t, e);
      return reply;
    }
  }
}
