/**
 The code of a transaction as the daemon runs it: `connect`, `activate_profile` and
 `_finish_transaction` (src/appliance_admin/daemon/managers/network.py), step by step, against
 a NetworkManager that answers as it likes and with everybody else running at every `await`.
 The code assigns its own fields and passes on the checkpoint it was given; that every one of
 its steps is one of the transition system in `Transaction`, and the one its environment brings
 about, is an obligation.
 */
module TransactionCode {
  import opened Wrappers
  import opened Transaction
  import opened TransactionOutcomes
  import opened TransactionEnvironment

  /** How an awaited step ends: as planned, with an `Exception`, or with `CancelledError`. */
  datatype Fate = Returned | Raised | WasCancelled

  class Daemon {
    const p: Params
    const cfg0: Config
    var nm: Nm
    var clock: int
    var connectionLock: Option<CallId>
    var calls: map<CallId, Call>
    ghost var t: Trace

    constructor (p: Params, cfg0: Config)
      ensures this.p == p && this.cfg0 == cfg0 && Valid() && t == Init
    {
      this.p, this.cfg0 := p, cfg0;
      nm, clock, connectionLock, calls, t := Nm(cfg0, None, 0), 0, None, map[], Init;
    }

    function S(): State
      reads this
    {
      State(nm, clock, connectionLock, calls)
    }

    ghost predicate Valid()
      reads this
    {
      Run(p, cfg0, t) && After(p, cfg0, t) == S()
    }

    /** The run continues `base`, and call `c` has gone through the first `n` of its awaits as `env` has it. */
    ghost predicate On(c: CallId, env: nat -> Choice, n: nat, base: Trace)
      reads this
    {
      Valid() && Extends(t, base) && Obeyed(p, cfg0, t, base, c, env, n)
    }

    /** And it holds the lock, at `pc`. */
    ghost predicate Holding(c: CallId, pc: Pc, env: nat -> Choice, n: nat, base: Trace)
      reads this
    {
      On(c, env, n, base) && c in calls && calls[c].pc == pc && connectionLock == Some(c)
    }

    /** Or it is over, as of the run's last event. */
    ghost predicate Over(c: CallId, o: Outcome, env: nat -> Choice, n: nat, base: Trace)
      reads this
    {
      On(c, env, n, base) && c in calls && calls[c].pc == Ended(o) && JustEnded(p, cfg0, t, c)
    }

    /** While call `c` is suspended, the others do what they can. */
    method Others(c: CallId, events: seq<Event>, ghost env: nat -> Choice, ghost n: nat, ghost base: Trace)
      requires On(c, env, n, base) && c in calls && Extends(t, base)
      modifies this
      ensures On(c, env, n, base) && c in calls && calls[c] == old(calls[c])
      ensures old(connectionLock) == Some(c) ==> connectionLock == Some(c)
    {
      for i := 0 to |events|
        invariant On(c, env, n, base) && c in calls && calls[c] == old(calls[c])
        invariant old(connectionLock) == Some(c) ==> connectionLock == Some(c)
      {
        var e := events[i];
        if Enabled(p, S(), e) && !Concerns(e, c) {
          RunExclusive(p, cfg0, t);
          CallsStay(p, S(), e);
          OthersLeave(p, S(), e, c);
          ExtendsLonger(t, base, e);
          var s := Apply(p, S(), e);
          nm, clock, connectionLock, calls := s.nm, s.clock, s.lock, s.calls;
          t := Then(t, e);
        }
      }
    }

    /**
     Await `n` of call `c`, under the lock: the others run, and then the server may cancel the call, whose
     request under way is carried out or not.
     */
    method Await(c: CallId, env: nat -> Choice, n: nat, ghost base: Trace) returns (cancelled: bool)
      requires c in calls && Critical(calls[c].pc) && Holding(c, calls[c].pc, env, n, base)
      modifies this
      ensures cancelled == env(n).cancel
      ensures if cancelled then Over(c, Cancelled, env, n + 1, base) else Holding(c, old(calls[c].pc), env, n, base)
    {
      Others(c, env(n).others, env, n, base);
      cancelled := env(n).cancel;
      if cancelled {
        var effect := Carries(n, env(n));
        var carried := if effect then Carried(p, nm, clock, calls[c].pc, env(n).cfg) else nm;
        Leave(c, Cancel(c, effect, env(n).cfg), carried, Cancelled, env, n, base);
      }
    }

    /** Await `n` is over: the call goes on to `pc`, leaving NetworkManager as `nm'`. */
    method Goto(c: CallId, ghost e: Event, nm': Nm, pc: Pc, ghost env: nat -> Choice, ghost n: nat, ghost base: Trace)
      requires On(c, env, n, base) && c in calls && Enabled(p, S(), e)
      requires Concerns(e, c) && PlayedBy(S(), c, n, env(n), e)
      requires Apply(p, S(), e) == S().(nm := nm', calls := calls[c := calls[c].(pc := pc)])
      modifies `nm, `calls, `t
      ensures On(c, env, n + 1, base) && c in calls && calls[c].pc == pc
    {
      ExtendsLonger(t, base, e);
      nm := nm';
      calls := calls[c := calls[c].(pc := pc)];
      t := Then(t, e);
    }

    /** Await `n` is the last: the call ends, leaving `async with`. */
    method Leave(c: CallId, ghost e: Event, nm': Nm, o: Outcome, ghost env: nat -> Choice, ghost n: nat,
                 ghost base: Trace)
      requires On(c, env, n, base) && c in calls && !calls[c].pc.Ended? && Enabled(p, S(), e)
      requires Concerns(e, c) && PlayedBy(S(), c, n, env(n), e)
      requires Apply(p, S(), e) == S().(nm := nm', calls := calls[c := calls[c].(pc := Ended(o))], lock := None)
      modifies `nm, `connectionLock, `calls, `t
      ensures Over(c, o, env, n + 1, base)
    {
      ExtendsLonger(t, base, e);
      nm := nm';
      connectionLock := None;
      calls := calls[c := calls[c].(pc := Ended(o))];
      t := Then(t, e);
    }

    /** `connect` and `activate_profile`, from the moment the connection lock is free for call `c`. */
    method Transaction(c: CallId, env: nat -> Choice) returns (o: Outcome, ghost n: nat)
      requires Valid() && c in calls && calls[c].pc.Waiting? && connectionLock.None?
      modifies this
      ensures Valid() && c in calls && calls[c].pc == Ended(o)
      ensures Finished(p, cfg0, t, Then(old(t), Acquire(c)), c, env, n, o)
      ensures o.Accepted? ==> AllGo(env, 7)
      ensures GivesUpInTime(p) && AllGo(env, 7) ==> o.Accepted?
      ensures 0 < n && (o.Cancelled? <==> env(n - 1).cancel) && (CancelledFirst(env) ==> o.Cancelled?)
      ensures o.Accepted? ==> exists q :: Extends(t, Then(q, CheckpointDestroy(c, Success)))
                                          && ReadyToAccept(p, cfg0, q, c)
      ensures LedgerOf(p, cfg0, t, c).own.Some? <==> CreatedBy(env)
      ensures GivesUpInTime(p) ==> (Committed(p, cfg0, t, c) <==> CommittedBy(env))
      ensures Balanced(nm, LedgerOf(p, cfg0, t, c))
      ensures o.Failed? && AskedToActivate(t, c) ==> n in {5, 6, 8, 9}
      ensures o.Failed? && AskedToActivate(t, c)
              && (Effective(env(n - 1).reply) || (8 <= n && Effective(env(n - 2).reply))) ==>
                var l := LedgerOf(p, cfg0, t, c);
                && nm.live.None? && nm.cfg == l.InForce()
                && (Committed(p, cfg0, t, c) || l.resolution.RolledBack? || l.resolution.Expired?)
    {
      connectionLock := Some(c);
      calls := calls[c := calls[c].(pc := Preparing)];
      ghost var base := Then(t, Acquire(c));
      t := base;
      hide Run, After, Extends, JustEnded, Obeyed, AllGo, CreatedBy, CommittedBy, Balanced;
      Nothing(p, cfg0, base, c, env);
      o, n := Locked(c, env, base);
      RunLedger(p, cfg0, t, c);
      CheckpointFollows(p, cfg0, t, base, c, env, n, o);
      OutcomeFollows(p, cfg0, t, base, c, env, n, o);
      if o.Accepted? {
        AcceptedMeansCommitted(p, cfg0, t, c);
      }
      if GivesUpInTime(p) {
        CommitFollows(p, cfg0, t, base, c, env, n, o);
      }
      if o.Failed? && AskedToActivate(t, c) {
        RollbackFollows(p, cfg0, t, base, c, env, n);
      }
    }

    /** The body of `async with self._connection_lock`. */
    method Locked(c: CallId, env: nat -> Choice, ghost base: Trace) returns (o: Outcome, ghost n: nat)
      requires Holding(c, Preparing, env, 0, base) && t == base
      modifies this
      ensures Over(c, o, env, n, base)
    {
      hide Run, After, Extends, JustEnded, Obeyed;
      // the device, and for a saved profile its settings
      var cancelled := Await(c, env, 0, base);
      if cancelled {
        return Cancelled, 1;
      }
      if !env(0).found {
        Leave(c, PrepareFails(c), nm, Failed, env, 0, base);
        return Failed, 1;
      }
      LookedUp(p, cfg0, t, base, c, env);
      o, n := CreateCheckpoint(c, env, base);
    }

    /** `_create_checkpoint`, and what follows. */
    method CreateCheckpoint(c: CallId, env: nat -> Choice, ghost base: Trace) returns (o: Outcome, ghost n: nat)
      requires Holding(c, Preparing, env, 1, base)
      modifies this
      ensures Over(c, o, env, n, base)
    {
      hide Run, After, Extends, JustEnded, Obeyed;
      var cancelled := Await(c, env, 1, base);
      if cancelled {
        return Cancelled, 2;
      }
      var reply := env(1).reply;
      var checkpoint := nm.nextId;
      var nm' := if Effective(reply) then Create(nm, clock, p.checkpointTimeout) else nm;
      if !reply.Success? {
        Leave(c, CheckpointCreate(c, reply), nm', Failed, env, 1, base);
        return Failed, 2;
      }
      Goto(c, CheckpointCreate(c, reply), nm', Created(checkpoint), env, 1, base);
      o, n := Checkpointed(c, checkpoint, env, base);
    }

    /** The rest, once the checkpoint exists. */
    method Checkpointed(c: CallId, checkpoint: nat, env: nat -> Choice, ghost base: Trace)
      returns (o: Outcome, ghost n: nat)
      requires Holding(c, Created(checkpoint), env, 2, base)
      modifies this
      ensures Over(c, o, env, n, base)
    {
      hide Run, After, Extends, JustEnded, Obeyed;
      // outside the `try`: a failure here rolls nothing back
      var cancelled := Await(c, env, 2, base);
      if cancelled {
        return Cancelled, 3;
      }
      if !env(2).found {
        Leave(c, Interface(c, false), nm, Failed, env, 2, base);
        return Failed, 3;
      }
      Goto(c, Interface(c, true), nm, Activating(checkpoint), env, 2, base);
      o, n := ActivateAndFinish(c, checkpoint, env, base);
    }

    /** The `try` of `connect` and `activate_profile`. */
    method ActivateAndFinish(c: CallId, checkpoint: nat, env: nat -> Choice, ghost base: Trace)
      returns (o: Outcome, ghost n: nat)
      requires Holding(c, Activating(checkpoint), env, 3, base)
      modifies this
      ensures Over(c, o, env, n, base)
    {
      hide Run, After, Extends, JustEnded, Obeyed;
      var cancelled := Await(c, env, 3, base);
      if cancelled {
        return Cancelled, 4;
      }
      var reply := env(3).reply;
      var nm' := if Effective(reply) then nm.(cfg := env(3).cfg) else nm;
      if !reply.Success? {
        Goto(c, Activate(c, reply, env(3).cfg), nm', OuterRollback(checkpoint), env, 3, base);
        o, n := RollBackAndRaise(c, checkpoint, env, 4, base);
        return;
      }
      Goto(c, Activate(c, reply, env(3).cfg), nm', Finishing(checkpoint), env, 3, base);
      var f, next := FinishTransaction(c, checkpoint, env, base);
      match f
      case Returned => return Accepted, next;
      case WasCancelled => return Cancelled, next;
      case Raised => o, n := RollBackAndRaise(c, checkpoint, env, next, base);
    }

    /** The handlers of `connect` and `activate_profile`. */
    method RollBackAndRaise(c: CallId, checkpoint: nat, env: nat -> Choice, at: nat, ghost base: Trace)
      returns (o: Outcome, ghost n: nat)
      requires Holding(c, OuterRollback(checkpoint), env, at, base)
      modifies this
      ensures Over(c, o, env, n, base)
    {
      hide Run, After, Extends, JustEnded, Obeyed;
      var cancelled := Await(c, env, at, base);
      if cancelled {
        return Cancelled, at + 1;
      }
      var reply := Answered(nm, checkpoint, env(at).reply);
      var nm' := if Effective(reply) then Rollback(nm, checkpoint) else nm;
      Leave(c, CheckpointRollback(c, reply), nm', Failed, env, at, base);
      return Failed, at + 1;
    }

    /** `_finish_transaction`; `next` is the call's next await. */
    method FinishTransaction(c: CallId, checkpoint: nat, env: nat -> Choice, ghost base: Trace)
      returns (f: Fate, next: nat)
      requires Holding(c, Finishing(checkpoint), env, 4, base)
      modifies this
      ensures match f
              case Returned => Over(c, Accepted, env, next, base)
              case Raised => Holding(c, OuterRollback(checkpoint), env, next, base)
              case WasCancelled => Over(c, Cancelled, env, next, base)
    {
      hide Run, After, Extends, JustEnded, Obeyed;
      var cancelled := Await(c, env, 4, base);
      if cancelled {
        return WasCancelled, 5;
      }
      if !env(4).found {
        Goto(c, FinishInterface(c, false), nm, OuterRollback(checkpoint), env, 4, base);
        return Raised, 5;
      }
      Goto(c, FinishInterface(c, true), nm, Verifying(checkpoint), env, 4, base);
      f, next := VerifyAndDestroy(c, checkpoint, env, base);
    }

    /** Its `try`. */
    method VerifyAndDestroy(c: CallId, checkpoint: nat, env: nat -> Choice, ghost base: Trace)
      returns (f: Fate, next: nat)
      requires Holding(c, Verifying(checkpoint), env, 5, base)
      modifies this
      ensures match f
              case Returned => Over(c, Accepted, env, next, base)
              case Raised => Holding(c, OuterRollback(checkpoint), env, next, base)
              case WasCancelled => Over(c, Cancelled, env, next, base)
    {
      hide Run, After, Extends, JustEnded, Obeyed;
      var cancelled := Await(c, env, 5, base);
      if cancelled {
        return WasCancelled, 6;
      }
      if !env(5).found {
        Goto(c, Verify(c, false), nm, InnerRollback(checkpoint), env, 5, base);
        f, next := RollBackAndReraise(c, checkpoint, env, 6, base);
        return;
      }
      Goto(c, Verify(c, true), nm, Destroying(checkpoint), env, 5, base);
      f, next := Commit(c, checkpoint, env, base);
    }

    /** The destroy request and, if it fails, the rollback. */
    method Commit(c: CallId, checkpoint: nat, env: nat -> Choice, ghost base: Trace) returns (f: Fate, next: nat)
      requires Holding(c, Destroying(checkpoint), env, 6, base)
      modifies this
      ensures match f
              case Returned => Over(c, Accepted, env, next, base)
              case Raised => Holding(c, OuterRollback(checkpoint), env, next, base)
              case WasCancelled => Over(c, Cancelled, env, next, base)
    {
      hide Run, After, Extends, JustEnded, Obeyed, Enabled, Apply;
      var cancelled := Await(c, env, 6, base);
      if cancelled {
        return WasCancelled, 7;
      }
      var destroyed := CallDestroy(c, checkpoint, env, base);
      if destroyed {
        return Returned, 7;
      }
      f, next := RollBackAndReraise(c, checkpoint, env, 7, base);
    }

    /** What comes of `call_checkpoint_destroy`. */
    method CallDestroy(c: CallId, checkpoint: nat, env: nat -> Choice, ghost base: Trace) returns (destroyed: bool)
      requires Holding(c, Destroying(checkpoint), env, 6, base) && !env(6).cancel
      modifies this
      ensures if destroyed then Over(c, Accepted, env, 7, base) else Holding(c, InnerRollback(checkpoint), env, 7, base)
    {
      hide Run, After, Extends, JustEnded, Obeyed;
      var reply := Answered(nm, checkpoint, env(6).reply);
      var nm' := if Effective(reply) then Destroy(nm, checkpoint) else nm;
      destroyed := reply.Success?;
      if destroyed {
        Leave(c, CheckpointDestroy(c, reply), nm', Accepted, env, 6, base);
      } else {
        Goto(c, CheckpointDestroy(c, reply), nm', InnerRollback(checkpoint), env, 6, base);
      }
    }

    /** Its `except Exception`: the rollback's own failure is suppressed, its cancellation is not. */
    method RollBackAndReraise(c: CallId, checkpoint: nat, env: nat -> Choice, at: nat, ghost base: Trace)
      returns (f: Fate, next: nat)
      requires Holding(c, InnerRollback(checkpoint), env, at, base)
      modifies this
      ensures next == at + 1 && !f.Returned?
      ensures if f.WasCancelled? then Over(c, Cancelled, env, next, base)
              else Holding(c, OuterRollback(checkpoint), env, next, base)
    {
      hide Run, After, Extends, JustEnded, Obeyed;
      var cancelled := Await(c, env, at, base);
      if cancelled {
        return WasCancelled, at + 1;
      }
      var reply := Answered(nm, checkpoint, env(at).reply);
      var nm' := if Effective(reply) then Rollback(nm, checkpoint) else nm;
      Goto(c, CheckpointRollback(c, reply), nm', OuterRollback(checkpoint), env, at, base);
      return Raised, at + 1;
    }
  }

  lemma {:induction false} ExtendsLonger(t: Trace, base: Trace, e: Event)
    requires Extends(t, base)
    ensures Extends(Then(t, e), base) && Then(t, e) != base
  {
    Longer(t, base);
  }

  /** A trace is no part of an earlier one. */
  lemma {:induction false} Longer(t: Trace, base: Trace)
    requires Extends(t, base)
    ensures Length(base) <= Length(t)
  {
    if t != base {
      Longer(t.past, base);
    }
  }

  function Length(t: Trace): nat {
    if t.Init? then 0 else 1 + Length(t.past)
  }

  lemma {:induction false} Nothing(p: Params, cfg0: Config, base: Trace, c: CallId, env: nat -> Choice)
    requires Run(p, cfg0, base)
    ensures Extends(base, base) && Obeyed(p, cfg0, base, base, c, env, 0)
  {
  }

  /** Successful look-ups are an await without an event. */
  lemma {:induction false} LookedUp(p: Params, cfg0: Config, t: Trace, base: Trace, c: CallId, env: nat -> Choice)
    requires Run(p, cfg0, t) && Obeyed(p, cfg0, t, base, c, env, 0) && Goes(0, env(0))
    ensures Obeyed(p, cfg0, t, base, c, env, 1)
  {
    if t != base {
      LookedUp(p, cfg0, t.past, base, c, env);
    }
  }
}
