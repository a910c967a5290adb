/**
 What becomes of the network when a call ends: which failures roll back, what a call that is not
 accepted may leave behind, and what happens to a change made without the lock. The facts are
 read off the run, event by event, and proved of NetworkManager's state.
 */
module TransactionOutcomes {
  import opened Wrappers
  import opened Transaction

  // ------------------------------------------------------------------- a call's ledger

  /** What has become of a checkpoint: the first of the call's requests to take effect decides, or its expiry. */
  datatype Resolution = Unresolved | Destroyed | RolledBack | Expired

  /**
   What a call has to answer for: the checkpoint its request created, even if the reply was an
   error or never awaited; the configuration that checkpoint found; what became of it; and what
   the configuration was last changed to, since the checkpoint was created or, if that has
   happened, since it was rolled back or expired. After a rollback only a change made without the
   lock counts.
   */
  datatype Ledger = Ledger(own: Option<nat>, found: Config, resolution: Resolution, written: Option<Config>)
  {
    function Opened(nm: Nm): Ledger {
      Ledger(Some(nm.nextId), nm.cfg, Unresolved, None)
    }

    function Resolve(r: Resolution): Ledger {
      if !resolution.Unresolved? then this
      else if r.RolledBack? || r.Expired? then this.(resolution := r, written := None)
      else this.(resolution := r)
    }

    function Write(cfg: Config): Ledger {
      if resolution.RolledBack? then this else this.(written := Some(cfg))
    }

    /** The configuration the ledger accounts for. */
    function InForce(): Config {
      if written.Some? then written.value else found
    }
  }

  /** One event, booked in the ledger of call `c`; `s` is the state it happens in. */
  function Book(s: State, l: Ledger, e: Event, c: CallId): Ledger {
    match e
    case CheckpointCreate(d, reply) => if d == c && Effective(reply) then l.Opened(s.nm) else l
    case Activate(_, reply, cfg) => if Effective(reply) then l.Write(cfg) else l
    case CheckpointDestroy(d, reply) => if d == c && Effective(reply) then l.Resolve(Destroyed) else l
    case CheckpointRollback(d, reply) => if d == c && Effective(reply) then l.Resolve(RolledBack) else l
    case Cancel(d, effect, cfg) =>
      if d != c || !effect || c !in s.calls then l
      else (
        match s.calls[c].pc
        case Preparing => l.Opened(s.nm)
        case Activating(_) => l.Write(cfg)
        case Destroying(_) => l.Resolve(Destroyed)
        case InnerRollback(_) | OuterRollback(_) => l.Resolve(RolledBack)
        case _ => l)
    case Expire => if l.own.Some? && Holds(s.nm, l.own.value) then l.Resolve(Expired) else l
    case Settle(cfg) => l.Write(cfg)
    case Unlocked(cfg) => l.(written := Some(cfg))
    case _ => l
  }

  function LedgerOf(p: Params, cfg0: Config, t: Trace, c: CallId): Ledger
    requires Run(p, cfg0, t)
  {
    match t
    case Init => Ledger(None, cfg0, Unresolved, None)
    case Then(past, e) => Book(After(p, cfg0, past), LedgerOf(p, cfg0, past, c), e, c)
  }

  /** NetworkManager's state is what the ledger says. */
  predicate Balanced(nm: Nm, l: Ledger) {
    l.own.Some? ==>
      && (if l.resolution.Unresolved?
          then Holds(nm, l.own.value) && nm.live.value.snapshot == l.found
          else nm.live.None?)
      && nm.cfg == l.InForce()
  }

  predicate Follows(pc: Pc, l: Ledger) {
    && (pc.Waiting? || pc.Preparing? ==> l.own.None?)
    && (HasCheckpoint(pc) ==> l.own == Some(pc.cp))
    && (Protected(pc) ==> l.resolution.Unresolved? || l.resolution.Expired?)
    && (l.own.None? ==> l.resolution.Unresolved?)
  }

  /** A step of somebody else keeps the books. */
  lemma {:induction false} OthersBalance(p: Params, s: State, e: Event, c: CallId, l: Ledger)
    requires Exclusive(s) && Enabled(p, s, e) && !Concerns(e, c)
    requires c in s.calls && !s.calls[c].pc.Ended? && Follows(s.calls[c].pc, l) && Balanced(s.nm, l)
    ensures c in Apply(p, s, e).calls && Apply(p, s, e).calls[c] == s.calls[c]
    ensures Balanced(Apply(p, s, e).nm, Book(s, l, e, c)) && Follows(s.calls[c].pc, Book(s, l, e, c))
    ensures !Commits(s, e) || e.c != c
    ensures Book(s, l, e, c).resolution.Destroyed? <==> l.resolution.Destroyed?
  {
    CallsStay(p, s, e);
    OthersLeave(p, s, e, c);
  }

  /** So does one of its own, up to and including its last. */
  lemma {:induction false} OwnBalance(p: Params, s: State, e: Event, c: CallId, l: Ledger)
    requires Enabled(p, s, e) && Concerns(e, c) && !e.Start?
    requires c in s.calls && !s.calls[c].pc.Ended? && Follows(s.calls[c].pc, l) && Balanced(s.nm, l)
    ensures c in Apply(p, s, e).calls
    ensures Balanced(Apply(p, s, e).nm, Book(s, l, e, c)) && Follows(Apply(p, s, e).calls[c].pc, Book(s, l, e, c))
    ensures Book(s, l, e, c).resolution.Destroyed? <==> l.resolution.Destroyed? || Commits(s, e)
  {
    if e.Cancel? {
      CancelBalances(p, s, e, c, l);
    } else {
      StepBalances(p, s, e, c, l);
    }
    hide Apply, Enabled, Book, Balanced, Follows;
  }

  lemma {:induction false} StepBalances(p: Params, s: State, e: Event, c: CallId, l: Ledger)
    requires Enabled(p, s, e) && Concerns(e, c) && !e.Start? && !e.Cancel?
    requires c in s.calls && !s.calls[c].pc.Ended? && Follows(s.calls[c].pc, l) && Balanced(s.nm, l)
    ensures c in Apply(p, s, e).calls
    ensures Balanced(Apply(p, s, e).nm, Book(s, l, e, c)) && Follows(Apply(p, s, e).calls[c].pc, Book(s, l, e, c))
    ensures Book(s, l, e, c).resolution.Destroyed? <==> l.resolution.Destroyed? || Commits(s, e)
  {
  }

  lemma {:induction false} CancelBalances(p: Params, s: State, e: Event, c: CallId, l: Ledger)
    requires Enabled(p, s, e) && Concerns(e, c) && e.Cancel?
    requires c in s.calls && !s.calls[c].pc.Ended? && Follows(s.calls[c].pc, l) && Balanced(s.nm, l)
    ensures c in Apply(p, s, e).calls
    ensures Balanced(Apply(p, s, e).nm, Book(s, l, e, c)) && Follows(Apply(p, s, e).calls[c].pc, Book(s, l, e, c))
    ensures Book(s, l, e, c).resolution.Destroyed? <==> l.resolution.Destroyed? || Commits(s, e)
  {
  }

  /** The call is under way, or the run's last event has ended it. */
  predicate Current(p: Params, cfg0: Config, t: Trace, c: CallId)
    requires Run(p, cfg0, t)
  {
    c in After(p, cfg0, t).calls && (!After(p, cfg0, t).calls[c].pc.Ended? || JustEnded(p, cfg0, t, c))
  }

  /** The run's last event has ended the call. */
  predicate JustEnded(p: Params, cfg0: Config, t: Trace, c: CallId)
    requires Run(p, cfg0, t)
  {
    && c in After(p, cfg0, t).calls && After(p, cfg0, t).calls[c].pc.Ended?
    && t.Then? && c in After(p, cfg0, t.past).calls && !After(p, cfg0, t.past).calls[c].pc.Ended?
  }

  /** Some step of the run dropped the checkpoint of call `c`, which had verified its connection, for good. */
  predicate Committed(p: Params, cfg0: Config, t: Trace, c: CallId)
    requires Run(p, cfg0, t)
  {
    t.Then? && (Committed(p, cfg0, t.past, c) || (Commits(After(p, cfg0, t.past), t.event) && t.event.c == c))
  }

  /** A call that has not started has nothing in its books. */
  lemma {:induction false} NotStarted(p: Params, cfg0: Config, t: Trace, c: CallId)
    requires Run(p, cfg0, t) && c !in After(p, cfg0, t).calls
    ensures var l := LedgerOf(p, cfg0, t, c); l.own.None? && l.resolution.Unresolved?
    ensures !Committed(p, cfg0, t, c)
  {
    if t.Then? {
      CallsStay(p, After(p, cfg0, t.past), t.event);
      NotStarted(p, cfg0, t.past, c);
      hide Apply;
    }
  }

  lemma {:induction false} RunLedger(p: Params, cfg0: Config, t: Trace, c: CallId)
    requires Run(p, cfg0, t) && Current(p, cfg0, t, c)
    ensures var l := LedgerOf(p, cfg0, t, c);
            && Balanced(After(p, cfg0, t).nm, l) && Follows(After(p, cfg0, t).calls[c].pc, l)
            && (l.resolution.Destroyed? <==> Committed(p, cfg0, t, c))
  {
    var s, e := After(p, cfg0, t.past), t.event;
    if c !in s.calls {
      NotStarted(p, cfg0, t.past, c);
      StartStep(p, s, e, c);
    } else {
      if s.calls[c].pc.Ended? {
        EndedStays(p, s, e, c);
      }
      hide Apply;
      RunExclusive(p, cfg0, t.past);
      RunLedger(p, cfg0, t.past, c);
      if Concerns(e, c) {
        assert !e.Start?;
        OwnBalance(p, s, e, c, LedgerOf(p, cfg0, t.past, c));
      } else {
        OthersBalance(p, s, e, c, LedgerOf(p, cfg0, t.past, c));
      }
    }
  }

  lemma {:induction false} StartStep(p: Params, s: State, e: Event, c: CallId)
    requires Enabled(p, s, e) && c !in s.calls && c in Apply(p, s, e).calls
    ensures e == Start(c) && Apply(p, s, e).calls[c].pc.Waiting?
  {
  }

  // ---------------------------------------------------------------------- main theorems

  /**
   The network a call leaves behind, at the moment it ends in whatever way and whatever the timeouts.
   Its checkpoint is still live if and only if it was created, none of its destroy and rollback
   requests took effect, and it has not expired; no other checkpoint is live then. The configuration
   from before is in force if and only if nothing has changed it, and not back, since the checkpoint
   was created, or since a rollback or its expiry if that came before any destroy.
   */
  lemma {:induction false} OutcomeExact(p: Params, cfg0: Config, t: Trace, c: CallId)
    requires Run(p, cfg0, t) && JustEnded(p, cfg0, t, c)
    ensures var l, nm := LedgerOf(p, cfg0, t, c), After(p, cfg0, t).nm;
            && ((l.own.Some? && Holds(nm, l.own.value)) <==> (l.own.Some? && l.resolution.Unresolved?))
            && (l.own.Some? && !l.resolution.Unresolved? ==> nm.live.None?)
            && (l.own.Some? ==> (nm.cfg == l.found <==> l.written.None? || l.written.value == l.found))
            && (l.resolution.Destroyed? <==> Committed(p, cfg0, t, c))
  {
    RunLedger(p, cfg0, t, c);
  }

  /** With a server that gives up in time, expiry has no part in it. */
  lemma {:induction false} NeverExpired(p: Params, cfg0: Config, t: Trace, c: CallId)
    requires GivesUpInTime(p) && Run(p, cfg0, t) && Current(p, cfg0, t, c)
    ensures !LedgerOf(p, cfg0, t, c).resolution.Expired?
  {
    var s, e := After(p, cfg0, t.past), t.event;
    if c !in s.calls {
      NotStarted(p, cfg0, t.past, c);
      StartStep(p, s, e, c);
    } else {
      if s.calls[c].pc.Ended? {
        EndedStays(p, s, e, c);
      }
      hide Apply;
      RunInv(p, cfg0, t.past);
      RunLedger(p, cfg0, t.past, c);
      NeverExpired(p, cfg0, t.past, c);
      NotDue(p, s, e, c, LedgerOf(p, cfg0, t.past, c));
    }
  }

  lemma {:induction false} NotDue(p: Params, s: State, e: Event, c: CallId, l: Ledger)
    requires Inv(p, s) && Enabled(p, s, e) && c in s.calls && !s.calls[c].pc.Ended?
    requires Follows(s.calls[c].pc, l) && Balanced(s.nm, l) && !l.resolution.Expired?
    ensures !Book(s, l, e, c).resolution.Expired?
  {
    assert CallOk(p, s, s.calls[c]);
  }

  /** The server cancelled the call while its destroy request was on the way, and that still took effect. */
  predicate CutOff(p: Params, cfg0: Config, t: Trace, c: CallId)
    requires Run(p, cfg0, t)
  {
    t.Then? &&
    (CutOff(p, cfg0, t.past, c) ||
     (t.event.Cancel? && t.event.c == c && t.event.effect && After(p, cfg0, t.past).calls[c].pc.Destroying?))
  }

  /** A call is accepted exactly by the step in which its destroy request is answered with success. */
  lemma {:induction false} AcceptedExact(p: Params, cfg0: Config, t: Trace, c: CallId)
    requires Run(p, cfg0, t)
    ensures Occurs(t, CheckpointDestroy(c, Success))
            <==> c in After(p, cfg0, t).calls && After(p, cfg0, t).calls[c].pc == Ended(Accepted)
  {
    if t.Then? {
      var s := After(p, cfg0, t.past);
      AcceptedExact(p, cfg0, t.past, c);
      AcceptedStep(p, s, t.event, c);
      hide Apply;
    }
  }

  lemma {:induction false} AcceptedStep(p: Params, s: State, e: Event, c: CallId)
    requires Enabled(p, s, e)
    ensures var s' := Apply(p, s, e);
            (c in s'.calls && s'.calls[c].pc == Ended(Accepted))
            <==> (c in s.calls && s.calls[c].pc == Ended(Accepted)) || e == CheckpointDestroy(c, Success)
  {
  }

  /** The call's checkpoint expired before its destroy request was answered. */
  predicate Outlived(p: Params, cfg0: Config, t: Trace, c: CallId)
    requires Run(p, cfg0, t)
  {
    t.Then? &&
    (Outlived(p, cfg0, t.past, c) ||
     var s := After(p, cfg0, t.past);
     t.event.Expire? && c in s.calls && Protected(s.calls[c].pc) && Holds(s.nm, s.calls[c].pc.cp))
  }

  /** The call's destroy request has taken effect as far as the daemon can tell. */
  predicate Asked(p: Params, cfg0: Config, t: Trace, c: CallId)
    requires Run(p, cfg0, t)
  {
    Occurs(t, CheckpointDestroy(c, Error(true))) || CutOff(p, cfg0, t, c)
  }

  /**
   Atomicity towards the client, whatever the timeouts: a call commits if it is accepted; one that is
   not accepted commits exactly when its destroy request was carried out although it was answered
   with an error, or although the call was cancelled meanwhile, and found a checkpoint that had not
   expired.
   */
  lemma {:induction false} CommitExact(p: Params, cfg0: Config, t: Trace, c: CallId)
    requires Run(p, cfg0, t)
    ensures Committed(p, cfg0, t, c) <==>
            || (c in After(p, cfg0, t).calls && After(p, cfg0, t).calls[c].pc == Ended(Accepted))
            || (Asked(p, cfg0, t, c) && !Outlived(p, cfg0, t, c))
  {
    AcceptedExact(p, cfg0, t, c);
    RunCommitted(p, cfg0, t, c);
  }

  lemma {:induction false} RunCommitted(p: Params, cfg0: Config, t: Trace, c: CallId)
    requires Run(p, cfg0, t)
    ensures Committed(p, cfg0, t, c) <==>
            Occurs(t, CheckpointDestroy(c, Success)) || (Asked(p, cfg0, t, c) && !Outlived(p, cfg0, t, c))
  {
    if t.Then? {
      RunCommitted(p, cfg0, t.past, c);
      RunHeld(p, cfg0, t.past, c);
      CommitStep(p, After(p, cfg0, t.past), t.event, c);
      hide Apply;
    }
  }

  /** Until its destroy request is answered, a call's checkpoint is there unless it has expired. */
  lemma {:induction false} RunHeld(p: Params, cfg0: Config, t: Trace, c: CallId)
    requires Run(p, cfg0, t)
    ensures var s := After(p, cfg0, t);
            && (c !in s.calls || s.calls[c].pc.Waiting? || s.calls[c].pc.Preparing? ==>
                  !Asked(p, cfg0, t, c) && !Outlived(p, cfg0, t, c))
            && (c in s.calls && Protected(s.calls[c].pc) ==>
                  !Asked(p, cfg0, t, c) && (Holds(s.nm, s.calls[c].pc.cp) <==> !Outlived(p, cfg0, t, c)))
  {
    if t.Then? {
      RunHeld(p, cfg0, t.past, c);
      RunExclusive(p, cfg0, t.past);
      if c in After(p, cfg0, t).calls {
        HeldStep(p, After(p, cfg0, t.past), t.event, c);
      } else {
        CallsStay(p, After(p, cfg0, t.past), t.event);
      }
      hide Apply;
    }
  }

  lemma {:induction false} HeldStep(p: Params, s: State, e: Event, c: CallId)
    requires Exclusive(s) && Enabled(p, s, e) && c in Apply(p, s, e).calls
    ensures var s' := Apply(p, s, e);
            var pc' := s'.calls[c].pc;
            && (pc'.Waiting? || pc'.Preparing? ==> c !in s.calls || s.calls[c].pc.Waiting? || s.calls[c].pc.Preparing?)
            && (Protected(pc') ==>
                  && c in s.calls
                  && if Protected(s.calls[c].pc)
                     then Holds(s'.nm, pc'.cp) <==> Holds(s.nm, s.calls[c].pc.cp) && !e.Expire?
                     else s.calls[c].pc.Preparing? && Holds(s'.nm, pc'.cp))
            && (Protected(pc') || pc'.Waiting? || pc'.Preparing? ==>
                e != CheckpointDestroy(c, Error(true)) && !(e.Cancel? && e.c == c))
  {
    if c in s.calls && !Concerns(e, c) {
      OthersLeave(p, s, e, c);
    }
  }

  /** A destroy request commits exactly when it is carried out and finds its checkpoint. */
  lemma {:induction false} CommitStep(p: Params, s: State, e: Event, c: CallId)
    requires Enabled(p, s, e)
    ensures Commits(s, e) && e.c == c <==>
            || e == CheckpointDestroy(c, Success)
            || (c in s.calls && s.calls[c].pc.Destroying? && Holds(s.nm, s.calls[c].pc.cp)
                && (e == CheckpointDestroy(c, Error(true)) || (e.Cancel? && e.c == c && e.effect)))
  {
    if e.CheckpointDestroy? {
      assert e.reply.Success? || e.reply == Error(e.reply.effect);
      assert e == CheckpointDestroy(e.c, e.reply);
    }
  }

  /** With a server that gives up in time, no checkpoint expires under its call. */
  lemma {:induction false} NeverOutlived(p: Params, cfg0: Config, t: Trace, c: CallId)
    requires GivesUpInTime(p) && Run(p, cfg0, t)
    ensures !Outlived(p, cfg0, t, c)
  {
    if t.Then? {
      NeverOutlived(p, cfg0, t.past, c);
      RunInv(p, cfg0, t.past);
      var s := After(p, cfg0, t.past);
      assert c in s.calls ==> CallOk(p, s, s.calls[c]);
      hide Apply;
    }
  }

  // --------------------------------------------------- failures that do not roll back

  /** The interface look-up between the checkpoint and the `try` fails: no rollback is even asked for. */
  lemma {:induction false} LookupLost(p: Params, cfg0: Config) returns (s: State)
    ensures Reached(p, cfg0, s, cfg0, false) && s.calls == map[0 := Call(Ended(Failed), p.requestTimeout)]
    ensures s.nm == Nm(cfg0, Some(Checkpoint(0, cfg0, Expiry(0, p.checkpointTimeout))), 1)
  {
    hide Reached;
    s := FirstCallPrepares(p, cfg0);
    s := Step(p, cfg0, s, cfg0, false, CheckpointCreate(0, Success));
    s := Step(p, cfg0, s, cfg0, false, Interface(0, false));
  }

  /** The one rollback of a failed activation is lost: the call has failed, and the new network is in force. */
  lemma {:induction false} RollbackLost(p: Params, cfg0: Config, bad: Config) returns (s: State)
    ensures Reached(p, cfg0, s, cfg0, false) && s.calls == map[0 := Call(Ended(Failed), p.requestTimeout)]
    ensures s.nm == Nm(bad, Some(Checkpoint(0, cfg0, Expiry(0, p.checkpointTimeout))), 1)
  {
    hide Reached;
    s := FirstCallActivates(p, cfg0);
    s := Step(p, cfg0, s, cfg0, false, Activate(0, Error(true), bad));
    s := Step(p, cfg0, s, cfg0, false, CheckpointRollback(0, Error(false)));
  }

  /**
   The checkpoint request takes effect and is answered with an error: the checkpoint stays, and nobody knows
   its id.
   */
  lemma {:induction false} CreateLost(p: Params, cfg0: Config) returns (s: State)
    ensures Reached(p, cfg0, s, cfg0, false) && s.calls == map[0 := Call(Ended(Failed), p.requestTimeout)]
    ensures s.nm == Nm(cfg0, Some(Checkpoint(0, cfg0, Expiry(0, p.checkpointTimeout))), 1)
  {
    hide Reached;
    s := FirstCallPrepares(p, cfg0);
    s := Step(p, cfg0, s, cfg0, false, CheckpointCreate(0, Error(true)));
  }

  /** The destroy takes effect and is answered with an error: the call has failed, and its network stays for good. */
  lemma {:induction false} FailedYetCommitted(p: Params, cfg0: Config, good: Config) returns (t: Trace)
    ensures Run(p, cfg0, t) && After(p, cfg0, t).calls == map[0 := Call(Ended(Failed), p.requestTimeout)]
    ensures After(p, cfg0, t).nm == Nm(good, None, 1) && Committed(p, cfg0, t, 0)
  {
    var verified := FirstCallCommits(p, cfg0, good);
    var t1 := Then(verified, CheckpointDestroy(0, Error(true)));
    assert Run(p, cfg0, t1) && Committed(p, cfg0, t1, 0);
    var t2 := Then(t1, CheckpointRollback(0, Error(false)));
    assert Run(p, cfg0, t2);
    t := Then(t2, CheckpointRollback(0, Error(false)));
  }

  // --------------------------------------------------------- who asks for a rollback

  predicate AskedToActivate(t: Trace, c: CallId) {
    t.Then? && ((t.event.Activate? && t.event.c == c) || AskedToActivate(t.past, c))
  }

  /** The call's verification has come to a result. */
  predicate HasVerified(t: Trace, c: CallId) {
    t.Then? && ((t.event.Verify? && t.event.c == c) || HasVerified(t.past, c))
  }

  /** How many rollbacks the call has asked for. */
  function Rollbacks(t: Trace, c: CallId): nat {
    if t.Init? then 0 else Rollbacks(t.past, c) + if t.event.CheckpointRollback? && t.event.c == c then 1 else 0
  }

  /** What a call at `pc` has asked of NetworkManager so far. */
  predicate AskedSoFar(pc: Pc, activated: bool, verified: bool, rollbacks: nat) {
    match pc
    case Waiting | Preparing | Created(_) | Activating(_) => !activated && !verified && rollbacks == 0
    case Finishing(_) | Verifying(_) => activated && !verified && rollbacks == 0
    case Destroying(_) | InnerRollback(_) => activated && verified && rollbacks == 0
    case OuterRollback(_) => activated && rollbacks == if verified then 1 else 0
    case Ended(Accepted) => activated && verified && rollbacks == 0
    case Ended(Failed) => rollbacks == if verified then 2 else if activated then 1 else 0
    case Ended(Cancelled) => rollbacks <= 1
  }

  lemma {:induction false} RunAsked(p: Params, cfg0: Config, t: Trace, c: CallId)
    requires Run(p, cfg0, t)
    ensures var calls := After(p, cfg0, t).calls;
            if c in calls then AskedSoFar(calls[c].pc, AskedToActivate(t, c), HasVerified(t, c), Rollbacks(t, c))
            else !AskedToActivate(t, c) && !HasVerified(t, c) && Rollbacks(t, c) == 0
  {
    if t.Then? {
      RunAsked(p, cfg0, t.past, c);
      AskedStep(p, After(p, cfg0, t.past), t.event, c,
                AskedToActivate(t.past, c), HasVerified(t.past, c), Rollbacks(t.past, c));
      hide Apply;
    }
  }

  lemma {:induction false} AskedStep(p: Params, s: State, e: Event, c: CallId, activated: bool, verified: bool,
                                     rollbacks: nat)
    requires Enabled(p, s, e)
    requires if c in s.calls then AskedSoFar(s.calls[c].pc, activated, verified, rollbacks)
             else !activated && !verified && rollbacks == 0
    ensures
      var activated' := activated || (e.Activate? && e.c == c);
      var verified' := verified || (e.Verify? && e.c == c);
      var rollbacks' := rollbacks + if e.CheckpointRollback? && e.c == c then 1 else 0;
      if c in Apply(p, s, e).calls then AskedSoFar(Apply(p, s, e).calls[c].pc, activated', verified', rollbacks')
      else !activated' && !verified' && rollbacks' == 0
  {
  }

  /**
   Exactly which failures ask for rollbacks: none before the call has asked for its activation; one
   when that or the look-up after it fails; two when the verification or the destroy request does.
   */
  lemma {:induction false} RollbacksExact(p: Params, cfg0: Config, t: Trace, c: CallId)
    requires Run(p, cfg0, t) && c in After(p, cfg0, t).calls && After(p, cfg0, t).calls[c].pc == Ended(Failed)
    ensures Rollbacks(t, c) == if !AskedToActivate(t, c) then 0 else if HasVerified(t, c) then 2 else 1
  {
    RunAsked(p, cfg0, t, c);
    if HasVerified(t, c) {
      VerifiedIsActivated(p, cfg0, t, c);
    }
  }

  lemma {:induction false} VerifiedIsActivated(p: Params, cfg0: Config, t: Trace, c: CallId)
    requires Run(p, cfg0, t) && HasVerified(t, c)
    ensures AskedToActivate(t, c)
  {
    RunAsked(p, cfg0, t.past, c);
    if !(t.event.Verify? && t.event.c == c) {
      VerifiedIsActivated(p, cfg0, t.past, c);
    }
  }

  // ------------------------------------------------------- changes made without the lock

  /** The event changes the configuration other than by a rollback. */
  predicate Changes(s: State, e: Event) {
    match e
    case Activate(_, reply, _) => Effective(reply)
    case Cancel(c, effect, _) => c in s.calls && s.calls[c].pc.Activating? && effect
    case Settle(_) | Unlocked(_) => true
    case _ => false
  }

  /** `u` continues the run `t`, and nothing changes the configuration in between. */
  predicate Unchanged(p: Params, cfg0: Config, t: Trace, u: Trace)
    requires Run(p, cfg0, u)
  {
    u == t || (u.Then? && Unchanged(p, cfg0, t, u.past) && !Changes(After(p, cfg0, u.past), u.event))
  }

  /** Between `t` and `u` the live checkpoint `id` is destroyed by a commit, or by the creation of another one. */
  predicate LetGo(p: Params, cfg0: Config, t: Trace, u: Trace, id: nat)
    requires Run(p, cfg0, u)
  {
    && u != t && u.Then?
    && (LetGo(p, cfg0, t, u.past, id) || (Holds(After(p, cfg0, u.past).nm, id)
                                          && Releases(After(p, cfg0, u.past), u.event)))
  }

  predicate Releases(s: State, e: Event) {
    Commits(s, e) || Creates(s, e)
  }

  /** Where NetworkManager stands with a change to `cfg` made under the live checkpoint `cp`. */
  predicate Standing(nm: Nm, cp: Checkpoint, cfg: Config, letGo: bool) {
    && cp.id < nm.nextId
    && if nm.live == Some(cp) then nm.cfg == cfg && !letGo
       else
         var kept := if letGo then cfg else cp.snapshot;
         !Holds(nm, cp.id) && nm.cfg == kept && (nm.live.Some? ==> nm.live.value.snapshot == kept)
  }

  lemma {:induction false} StandingStep(p: Params, s: State, e: Event, cp: Checkpoint, cfg: Config, letGo: bool)
    requires Enabled(p, s, e) && !Changes(s, e) && Standing(s.nm, cp, cfg, letGo)
    ensures Standing(Apply(p, s, e).nm, cp, cfg, letGo || (Holds(s.nm, cp.id) && Releases(s, e)))
  {
  }

  lemma {:induction false} RunStanding(p: Params, cfg0: Config, t: Trace, u: Trace, cp: Checkpoint, cfg: Config)
    requires Run(p, cfg0, t) && Run(p, cfg0, u) && Unchanged(p, cfg0, t, u)
    requires Standing(After(p, cfg0, t).nm, cp, cfg, false)
    ensures Standing(After(p, cfg0, u).nm, cp, cfg, LetGo(p, cfg0, t, u, cp.id))
  {
    if u != t {
      RunStanding(p, cfg0, t, u.past, cp, cfg);
      StandingStep(p, After(p, cfg0, u.past), u.event, cp, cfg, LetGo(p, cfg0, t, u.past, cp.id));
      hide Apply;
    }
  }

  lemma {:induction false} SettledStep(p: Params, s: State, e: Event, cfg: Config)
    requires Enabled(p, s, e) && !Changes(s, e) && s.nm.cfg == cfg && Fallback(s.nm) == cfg
    ensures var nm := Apply(p, s, e).nm; nm.cfg == cfg && Fallback(nm) == cfg
  {
  }

  /** With no checkpoint live, nothing that happens later takes a change back. */
  lemma {:induction false} UncheckpointedStays(p: Params, cfg0: Config, t: Trace, u: Trace, cfg: Config)
    requires Run(p, cfg0, t) && Run(p, cfg0, u) && Unchanged(p, cfg0, t, u)
    requires After(p, cfg0, t).nm.cfg == cfg && After(p, cfg0, t).nm.live.None?
    ensures var nm := After(p, cfg0, u).nm; nm.cfg == cfg && Fallback(nm) == cfg
  {
    if u != t {
      UncheckpointedStays(p, cfg0, t, u.past, cfg);
      SettledStep(p, After(p, cfg0, u.past), u.event, cfg);
      hide Apply;
    }
  }

  /**
   `disconnect` and `delete_profile` do not take the lock, and report success even when a live
   checkpoint is going to undo what they did. In every future in which nobody changes the
   configuration again, their change is in force if and only if no checkpoint was live, or the one
   that was still is, or it went by a commit or an absorption rather than by a rollback or its expiry.
   */
  lemma {:induction false} UnlockedChangeSurvives(p: Params, cfg0: Config, t: Trace, cfg: Config, u: Trace)
    requires Run(p, cfg0, t) && Run(p, cfg0, u) && Unchanged(p, cfg0, Then(t, Unlocked(cfg)), u)
    requires After(p, cfg0, t).nm.live.Some? ==> cfg != After(p, cfg0, t).nm.live.value.snapshot
    ensures var live := After(p, cfg0, t).nm.live;
            After(p, cfg0, u).nm.cfg == cfg <==>
            live.None? || Holds(After(p, cfg0, u).nm, live.value.id)
              || LetGo(p, cfg0, Then(t, Unlocked(cfg)), u, live.value.id)
  {
    var t' := Then(t, Unlocked(cfg));
    assert Run(p, cfg0, t');
    var live := After(p, cfg0, t).nm.live;
    if live.None? {
      UncheckpointedStays(p, cfg0, t', u, cfg);
    } else {
      RunOwner(p, cfg0, t);
      RunStanding(p, cfg0, t', u, live.value, cfg);
    }
  }

  /** A change made while a call holds its checkpoint. */
  lemma {:induction false} ChangeUnderCheckpoint(p: Params, cfg0: Config, cfg: Config) returns (t: Trace)
    ensures Run(p, cfg0, t) && t.Then? && t.event == Unlocked(cfg)
    ensures var live := Checkpoint(0, cfg0, Expiry(0, p.checkpointTimeout));
            After(p, cfg0, t) == State(Nm(cfg, Some(live), 1), 0, Some(0),
                                       map[0 := Call(Activating(0), p.requestTimeout)])
  {
    var before := FirstCallActivates(p, cfg0);
    var q :| Run(p, cfg0, q) && After(p, cfg0, q) == before;
    t := Then(q, Unlocked(cfg));
  }

  /** It was reported as done; the call then fails and rolls back, and the change is gone. */
  lemma {:induction false} UnlockedChangeUndone(p: Params, cfg0: Config, cfg: Config) returns (t: Trace)
    ensures Run(p, cfg0, t) && Occurs(t, Unlocked(cfg))
    ensures After(p, cfg0, t).nm == Nm(cfg0, None, 1)
    ensures After(p, cfg0, t).calls == map[0 := Call(Ended(Failed), p.requestTimeout)]
  {
    var changed := ChangeUnderCheckpoint(p, cfg0, cfg);
    var refused := Then(changed, Activate(0, Error(false), cfg));
    assert Run(p, cfg0, refused);
    t := Then(refused, CheckpointRollback(0, Success));
  }
}
