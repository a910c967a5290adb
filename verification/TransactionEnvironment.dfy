/**
 A transaction against its environment: `env(0)`, `env(1)`, ... say how each of a call's awaits goes,
 and a run obeys them if the call's own events are the ones they bring about. What the call's
 outcome and effects are then follows from the environment alone.
 */
module TransactionEnvironment {
  import opened Wrappers
  import opened Transaction
  import opened TransactionOutcomes

  /** What the environment does at one `await`; `others` is what everybody else does meanwhile. */
  datatype Choice = Choice(others: seq<Event>, cancel: bool, effect: bool, found: bool, reply: Reply, cfg: Config)

  /** NetworkManager's answer about checkpoint `id`: an error if it is gone. */
  function Answered(nm: Nm, id: nat, reply: Reply): Reply {
    if reply.Success? && !Holds(nm, id) then Error(false) else reply
  }

  /**
   In state `s`, `e` is the event that await `i` of call `c` brings about. The awaits are: the look-ups,
   the checkpoint, the interface, the activation, the interface again, the verification, the destroy
   request; and where the call then stands, up to two rollbacks.
   */
  predicate PlayedBy(s: State, c: CallId, i: nat, choice: Choice, e: Event) {
    if choice.cancel then e == Cancel(c, Carries(i, choice), choice.cfg)
    else
      match e
      case PrepareFails(d) => d == c && i == 0 && !choice.found
      case CheckpointCreate(d, reply) => d == c && i == 1 && reply == choice.reply
      case Interface(d, found) => d == c && i == 2 && found == choice.found
      case Activate(d, reply, cfg) => d == c && i == 3 && reply == choice.reply && cfg == choice.cfg
      case FinishInterface(d, found) => d == c && i == 4 && found == choice.found
      case Verify(d, usable) => d == c && i == 5 && usable == choice.found
      case CheckpointDestroy(d, reply) => d == c && i == 6 && AnswersFor(s, c, choice, reply)
      case CheckpointRollback(d, reply) => d == c && AnswersFor(s, c, choice, reply)
      case _ => false
  }

  /** The request that a cancelled call has under way is carried out; its first await is not for one. */
  predicate Carries(i: nat, choice: Choice) {
    choice.effect && i != 0
  }

  predicate AnswersFor(s: State, c: CallId, choice: Choice, reply: Reply) {
    c in s.calls && HasCheckpoint(s.calls[c].pc) && reply == Answered(s.nm, s.calls[c].pc.cp, choice.reply)
  }

  /**
   Since `base`, the events of call `c` are those that its first `n` awaits bring about; look-ups that
   succeed leave none.
   */
  predicate Obeyed(p: Params, cfg0: Config, t: Trace, base: Trace, c: CallId, env: nat -> Choice, n: nat)
    requires Run(p, cfg0, t)
  {
    if t == base then n == 0 || (n == 1 && Goes(0, env(0)))
    else
      && t.Then?
      && if Concerns(t.event, c)
         then n > 0 && Obeyed(p, cfg0, t.past, base, c, env, n - 1)
              && PlayedBy(After(p, cfg0, t.past), c, n - 1, env(n - 1), t.event)
         else Obeyed(p, cfg0, t.past, base, c, env, n)
  }

  /** Await `i` goes as planned. */
  predicate Goes(i: nat, choice: Choice) {
    !choice.cancel && if i in {1, 3, 6} then choice.reply.Success? else choice.found
  }

  predicate AllGo(env: nat -> Choice, to: nat) {
    forall i: nat | i < to :: Goes(i, env(i))
  }

  predicate NoCancel(env: nat -> Choice, to: nat) {
    forall i: nat | i < to :: !env(i).cancel
  }

  /**
   Await `f` is the first that does not go as planned, and the call is not cancelled in it. A server
   that gives up too late may find the checkpoint gone although the destroy request was in order.
   */
  predicate Trouble(p: Params, env: nat -> Choice, f: nat) {
    f < 7 && AllGo(env, f) && !env(f).cancel && (!Goes(f, env(f)) || (f == 6 && !GivesUpInTime(p)))
  }

  /** Where the call stands after `n` awaits, and how it got there. */
  predicate Tracked(p: Params, env: nat -> Choice, n: nat, pc: Pc) {
    match pc
    case Waiting => false
    case Preparing => n <= 1 && AllGo(env, n)
    case Created(_) => n == 2 && AllGo(env, n)
    case Activating(_) => n == 3 && AllGo(env, n)
    case Finishing(_) => n == 4 && AllGo(env, n)
    case Verifying(_) => n == 5 && AllGo(env, n)
    case Destroying(_) => n == 6 && AllGo(env, n)
    case InnerRollback(_) => n in {6, 7} && Trouble(p, env, n - 1)
    case OuterRollback(_) =>
      NoCancel(env, n) && if n in {4, 5} then Trouble(p, env, n - 1) else n in {7, 8} && Trouble(p, env, n - 2)
    case Ended(Accepted) => n == 7 && AllGo(env, n)
    case Ended(Cancelled) =>
      && 1 <= n && NoCancel(env, n - 1) && env(n - 1).cancel
      && (|| (n <= 7 && AllGo(env, n - 1))
          || (n in {5, 6, 7, 8} && Trouble(p, env, n - 2))
          || (n in {8, 9} && Trouble(p, env, n - 3)))
    case Ended(Failed) =>
      && NoCancel(env, n)
      && (if n in {1, 2, 3} then Trouble(p, env, n - 1)
          else if n in {5, 6} then Trouble(p, env, n - 2)
          else n in {8, 9} && Trouble(p, env, n - 3))
  }

  lemma {:induction false} TrackedStep(p: Params, s: State, e: Event, c: CallId, env: nat -> Choice, n: nat)
    requires Enabled(p, s, e) && (GivesUpInTime(p) ==> Inv(p, s)) && c in s.calls && Tracked(p, env, n, s.calls[c].pc)
    requires Concerns(e, c) && PlayedBy(s, c, n, env(n), e)
    ensures c in Apply(p, s, e).calls && Tracked(p, env, n + 1, Apply(p, s, e).calls[c].pc)
  {
    assert forall k: nat | k <= n && AllGo(env, k) :: NoCancel(env, k);
    if e.Cancel? {
      hide Inv;
    } else {
      assert GivesUpInTime(p) ==> CallOk(p, s, s.calls[c]);
      hide Inv;
      GoOnStep(p, s, e, c, env, n);
      hide Apply, Enabled, Tracked, PlayedBy;
    }
  }

  /** A step in which it is not cancelled. */
  lemma {:induction false} GoOnStep(p: Params, s: State, e: Event, c: CallId, env: nat -> Choice, n: nat)
    requires Enabled(p, s, e) && c in s.calls && Tracked(p, env, n, s.calls[c].pc)
    requires Concerns(e, c) && PlayedBy(s, c, n, env(n), e) && !e.Cancel?
    requires forall k: nat | k <= n && AllGo(env, k) :: NoCancel(env, k)
    requires GivesUpInTime(p) && s.calls[c].pc.Destroying? ==> Holds(s.nm, s.calls[c].pc.cp)
    ensures c in Apply(p, s, e).calls && Tracked(p, env, n + 1, Apply(p, s, e).calls[c].pc)
  {
  }

  /** A run that obeys the environment takes the call where the environment leads it. */
  lemma {:induction false} RunTracked(p: Params, cfg0: Config, t: Trace, base: Trace, c: CallId, env: nat -> Choice,
                                      n: nat)
    requires Run(p, cfg0, base) && Run(p, cfg0, t) && Obeyed(p, cfg0, t, base, c, env, n)
    requires c in After(p, cfg0, base).calls && After(p, cfg0, base).calls[c].pc.Preparing?
    ensures c in After(p, cfg0, t).calls && Tracked(p, env, n, After(p, cfg0, t).calls[c].pc)
  {
    if t != base {
      var s := After(p, cfg0, t.past);
      CallsStay(p, s, t.event);
      if Concerns(t.event, c) {
        RunTracked(p, cfg0, t.past, base, c, env, n - 1);
        if GivesUpInTime(p) {
          RunInv(p, cfg0, t.past);
        }
        TrackedStep(p, s, t.event, c, env, n - 1);
      } else {
        RunTracked(p, cfg0, t.past, base, c, env, n);
        RunExclusive(p, cfg0, t.past);
        OthersLeave(p, s, t.event, c);
      }
      hide Apply, Tracked, PlayedBy;
    }
  }

  // ------------------------------------------------------------------------ what follows

  /** The call started at `base`, the run's last event has ended it with outcome `o`, and it took `n` awaits. */
  predicate Finished(p: Params, cfg0: Config, t: Trace, base: Trace, c: CallId, env: nat -> Choice, n: nat,
                     o: Outcome) {
    && Run(p, cfg0, base) && Run(p, cfg0, t) && Obeyed(p, cfg0, t, base, c, env, n)
    && c in After(p, cfg0, base).calls && After(p, cfg0, base).calls[c].pc.Preparing?
    && JustEnded(p, cfg0, t, c) && After(p, cfg0, t).calls[c].pc == Ended(o)
  }

  /** The first await that does not go as planned is one in which the call is cancelled. */
  predicate CancelledFirst(env: nat -> Choice) {
    exists i: nat :: i < 7 && env(i).cancel && AllGo(env, i)
  }

  /**
   The outcome is the one the environment has brought about: accepted only if all goes as planned, and
   then indeed if the server gives up in time; cancelled if that is what happens first, and if it is
   cancelled at all, it was in its last await.
   */
  lemma {:induction false} OutcomeFollows(p: Params, cfg0: Config, t: Trace, base: Trace, c: CallId,
                                          env: nat -> Choice, n: nat, o: Outcome)
    requires Finished(p, cfg0, t, base, c, env, n, o)
    ensures 0 < n <= 9
    ensures o.Accepted? ==> AllGo(env, 7)
    ensures GivesUpInTime(p) && AllGo(env, 7) ==> o.Accepted?
    ensures o.Cancelled? <==> env(n - 1).cancel
    ensures CancelledFirst(env) ==> o.Cancelled?
  {
    RunTracked(p, cfg0, t, base, c, env, n);
    hide Obeyed, JustEnded, Run, After;
    if o.Accepted? {
      assert Goes(n - 1, env(n - 1));
    }
    if i: nat :| i < 7 && env(i).cancel && AllGo(env, i) {
      FirstCancel(p, env, n, o, i);
    }
  }

  lemma {:induction false} FirstCancel(p: Params, env: nat -> Choice, n: nat, o: Outcome, i: nat)
    requires Tracked(p, env, n, Ended(o)) && i < 7 && env(i).cancel && AllGo(env, i)
    ensures o.Cancelled?
  {
    assert !Goes(i, env(i));
  }

  /**
   A failure rolls back: an uncancelled call that fails after asking for its activation has asked for a
   rollback in its last await, and after its verification or its destroy request has failed in the one
   before as well. If one of these requests takes effect, no checkpoint is live, and the configuration
   is the one its checkpoint found, unless the call has committed, or up to changes made without the
   lock since.
   */
  lemma {:induction false} RollbackFollows(p: Params, cfg0: Config, t: Trace, base: Trace, c: CallId,
                                           env: nat -> Choice, n: nat)
    requires Finished(p, cfg0, t, base, c, env, n, Failed) && AskedToActivate(t, c)
    ensures n in {5, 6, 8, 9} && t.event.CheckpointRollback?
    ensures Effective(env(n - 1).reply) || (8 <= n && Effective(env(n - 2).reply)) ==>
              var l, nm := LedgerOf(p, cfg0, t, c), After(p, cfg0, t).nm;
              && nm.live.None? && nm.cfg == l.InForce()
              && (Committed(p, cfg0, t, c) || l.resolution.RolledBack? || l.resolution.Expired?)
  {
    hide *;
    LastAwait(p, cfg0, t, base, c, env, n);
    OutcomeExact(p, cfg0, t, c);
    if 8 <= n && Effective(env(n - 2).reply) {
      RunRolled(p, cfg0, t.past, base, c, env, n - 1);
    }
    Resolved(p, cfg0, t, c);
  }

  /**
   The last step is the outer rollback, and it settles the checkpoint if it takes effect, or if that is
   settled already.
   */
  lemma {:induction false} LastAwait(p: Params, cfg0: Config, t: Trace, base: Trace, c: CallId, env: nat -> Choice,
                                     n: nat)
    requires Finished(p, cfg0, t, base, c, env, n, Failed) && AskedToActivate(t, c)
    ensures n in {5, 6, 8, 9} && t.Then? && Run(p, cfg0, t) && Run(p, cfg0, t.past) && Run(p, cfg0, base)
    ensures Obeyed(p, cfg0, t.past, base, c, env, n - 1)
    ensures c in After(p, cfg0, base).calls && After(p, cfg0, base).calls[c].pc.Preparing?
    ensures c in After(p, cfg0, t.past).calls && After(p, cfg0, t.past).calls[c].pc.OuterRollback?
    ensures JustEnded(p, cfg0, t, c) && LedgerOf(p, cfg0, t, c).own.Some? && t.event.CheckpointRollback?
    ensures Effective(env(n - 1).reply) || !LedgerOf(p, cfg0, t.past, c).resolution.Unresolved? ==>
              !LedgerOf(p, cfg0, t, c).resolution.Unresolved?
  {
    LastIsOwn(p, cfg0, t, base, c, env, n, Failed);
    RunLedger(p, cfg0, t, c);
    RunAsked(p, cfg0, t.past, c);
    RunLedger(p, cfg0, t.past, c);
    RunTracked(p, cfg0, t, base, c, env, n);
    hide Obeyed, Tracked;
    LastRollback(p, After(p, cfg0, t.past), t.event, c, n - 1, env(n - 1), LedgerOf(p, cfg0, t.past, c),
                 AskedToActivate(t.past, c), HasVerified(t.past, c), Rollbacks(t.past, c));
    hide Apply, Balanced, Follows;
    RunTracked(p, cfg0, t.past, base, c, env, n - 1);
    OuterAwaits(p, env, n - 1, After(p, cfg0, t.past).calls[c].pc);
  }

  lemma {:induction false} OuterAwaits(p: Params, env: nat -> Choice, n: nat, pc: Pc)
    requires Tracked(p, env, n, pc) && pc.OuterRollback?
    ensures n in {4, 5, 7, 8}
  {
  }

  /** The step that ends a call is one of its own. */
  lemma {:induction false} LastIsOwn(p: Params, cfg0: Config, t: Trace, base: Trace, c: CallId,
                                     env: nat -> Choice, n: nat, o: Outcome)
    requires Finished(p, cfg0, t, base, c, env, n, o)
    ensures t != base && t.Then? && Concerns(t.event, c) && 0 < n && Obeyed(p, cfg0, t.past, base, c, env, n - 1)
    ensures PlayedBy(After(p, cfg0, t.past), c, n - 1, env(n - 1), t.event)
  {
    var s := After(p, cfg0, t.past);
    if !Concerns(t.event, c) {
      RunExclusive(p, cfg0, t.past);
      OthersLeave(p, s, t.event, c);
    }
    hide Apply, PlayedBy;
  }

  /** What a settled checkpoint means when the call is over. */
  lemma {:induction false} Resolved(p: Params, cfg0: Config, t: Trace, c: CallId)
    requires Run(p, cfg0, t) && JustEnded(p, cfg0, t, c)
    ensures var l, nm := LedgerOf(p, cfg0, t, c), After(p, cfg0, t).nm;
            l.own.Some? && !l.resolution.Unresolved? ==>
              && nm.live.None? && nm.cfg == l.InForce()
              && (Committed(p, cfg0, t, c) || l.resolution.RolledBack? || l.resolution.Expired?)
  {
    RunLedger(p, cfg0, t, c);
  }

  /** The first of two rollbacks, if it takes effect, leaves the checkpoint resolved. */
  lemma {:induction false} RunRolled(p: Params, cfg0: Config, t: Trace, base: Trace, c: CallId, env: nat -> Choice,
                                     n: nat)
    requires Run(p, cfg0, base) && Run(p, cfg0, t) && Obeyed(p, cfg0, t, base, c, env, n)
    requires c in After(p, cfg0, base).calls && After(p, cfg0, base).calls[c].pc.Preparing?
    requires c in After(p, cfg0, t).calls && After(p, cfg0, t).calls[c].pc.OuterRollback?
    requires 7 <= n && Effective(env(n - 1).reply)
    ensures !LedgerOf(p, cfg0, t, c).resolution.Unresolved?
  {
    var s := After(p, cfg0, t.past);
    if Concerns(t.event, c) {
      RunTracked(p, cfg0, t.past, base, c, env, n - 1);
      RunLedger(p, cfg0, t.past, c);
      FirstRollback(p, s, t.event, c, n - 1, env(n - 1), LedgerOf(p, cfg0, t.past, c));
    } else {
      RunExclusive(p, cfg0, t.past);
      OthersLeave(p, s, t.event, c);
      RunRolled(p, cfg0, t.past, base, c, env, n);
    }
    hide Apply;
  }

  lemma {:induction false} FirstRollback(p: Params, s: State, e: Event, c: CallId, i: nat, choice: Choice, l: Ledger)
    requires Enabled(p, s, e) && c in s.calls && !s.calls[c].pc.Ended? && Concerns(e, c) && 6 <= i
    requires c in Apply(p, s, e).calls && Apply(p, s, e).calls[c].pc.OuterRollback?
    requires PlayedBy(s, c, i, choice, e) && Effective(choice.reply) && Follows(s.calls[c].pc, l) && Balanced(s.nm, l)
    ensures !Book(s, l, e, c).resolution.Unresolved?
  {
  }

  /** The failing step of a call that has asked for its activation is a rollback request. */
  lemma {:induction false} LastRollback(p: Params, s: State, e: Event, c: CallId, i: nat, choice: Choice, l: Ledger,
                                        activated: bool, verified: bool, rollbacks: nat)
    requires Enabled(p, s, e) && c in s.calls && !s.calls[c].pc.Ended? && Concerns(e, c)
    requires c in Apply(p, s, e).calls && Apply(p, s, e).calls[c].pc == Ended(Failed)
    requires AskedSoFar(s.calls[c].pc, activated, verified, rollbacks) && (activated || e.Activate?)
    requires PlayedBy(s, c, i, choice, e) && Follows(s.calls[c].pc, l) && Balanced(s.nm, l)
    ensures l.own.Some? && s.calls[c].pc.OuterRollback? && e.CheckpointRollback?
    ensures Effective(choice.reply) || !l.resolution.Unresolved? ==> !Book(s, l, e, c).resolution.Unresolved?
  {
  }

  // ----------------------------------------------------------------- what it commits

  /** All goes as planned up to the verification, and the destroy request takes effect, whatever becomes of the call. */
  predicate CommittedBy(env: nat -> Choice) {
    AllGo(env, 6) && if env(6).cancel then env(6).effect else Effective(env(6).reply)
  }

  predicate CommitTracked(env: nat -> Choice, pc: Pc, committed: bool) {
    if pc.Ended? || RollingBack(pc) then committed <==> CommittedBy(env) else !committed
  }

  lemma {:induction false} CommitTrackedStep(p: Params, s: State, e: Event, c: CallId, env: nat -> Choice, n: nat,
                                             committed: bool)
    requires GivesUpInTime(p) && Enabled(p, s, e) && c in s.calls && Concerns(e, c) && !s.calls[c].pc.Ended?
    requires Tracked(p, env, n, s.calls[c].pc) && CommitTracked(env, s.calls[c].pc, committed)
    requires PlayedBy(s, c, n, env(n), e)
    requires s.calls[c].pc.Destroying? ==> Holds(s.nm, s.calls[c].pc.cp)
    ensures c in Apply(p, s, e).calls && CommitTracked(env, Apply(p, s, e).calls[c].pc, committed || Commits(s, e))
  {
    if n < 6 && !Goes(n, env(n)) {
      assert !AllGo(env, 6);
    }
  }

  /** With a server that gives up in time, a call commits exactly if the environment lets it. */
  lemma {:induction false} CommitFollows(p: Params, cfg0: Config, t: Trace, base: Trace, c: CallId,
                                         env: nat -> Choice, n: nat, o: Outcome)
    requires GivesUpInTime(p) && Finished(p, cfg0, t, base, c, env, n, o)
    ensures Committed(p, cfg0, t, c) <==> CommittedBy(env)
  {
    RunCommitTracked(p, cfg0, t, base, c, env, n);
  }

  lemma {:induction false} RunCommitTracked(p: Params, cfg0: Config, t: Trace, base: Trace, c: CallId,
                                            env: nat -> Choice, n: nat)
    requires GivesUpInTime(p) && Run(p, cfg0, base) && Run(p, cfg0, t) && Obeyed(p, cfg0, t, base, c, env, n)
    requires c in After(p, cfg0, base).calls && After(p, cfg0, base).calls[c].pc.Preparing?
    requires Current(p, cfg0, t, c)
    ensures CommitTracked(env, After(p, cfg0, t).calls[c].pc, Committed(p, cfg0, t, c))
  {
    if t == base {
      RunLedger(p, cfg0, t, c);
    } else {
      var s := After(p, cfg0, t.past);
      RunTracked(p, cfg0, t.past, base, c, env, if Concerns(t.event, c) then n - 1 else n);
      NotOverYet(p, cfg0, t, c);
      RunCommitTracked(p, cfg0, t.past, base, c, env, if Concerns(t.event, c) then n - 1 else n);
      if Concerns(t.event, c) {
        RunInv(p, cfg0, t.past);
        assert CallOk(p, s, s.calls[c]);
        CommitTrackedStep(p, s, t.event, c, env, n - 1, Committed(p, cfg0, t.past, c));
      } else {
        RunExclusive(p, cfg0, t.past);
        OthersLeave(p, s, t.event, c);
      }
      hide Apply;
    }
  }

  /** A call that is current was under way one step before. */
  lemma {:induction false} NotOverYet(p: Params, cfg0: Config, t: Trace, c: CallId)
    requires Run(p, cfg0, t) && t.Then? && Current(p, cfg0, t, c) && c in After(p, cfg0, t.past).calls
    ensures !After(p, cfg0, t.past).calls[c].pc.Ended?
  {
    if After(p, cfg0, t.past).calls[c].pc.Ended? {
      EndedStays(p, After(p, cfg0, t.past), t.event, c);
    }
  }

  // ---------------------------------------------------------- what it creates and activates

  /** The look-ups succeed, and the checkpoint request takes effect, whatever becomes of the call. */
  predicate CreatedBy(env: nat -> Choice) {
    Goes(0, env(0)) && if env(1).cancel then env(1).effect else Effective(env(1).reply)
  }

  /** The call has a checkpoint to answer for exactly if the environment has created one. */
  lemma {:induction false} CheckpointFollows(p: Params, cfg0: Config, t: Trace, base: Trace, c: CallId,
                                             env: nat -> Choice, n: nat, o: Outcome)
    requires Finished(p, cfg0, t, base, c, env, n, o)
    ensures LedgerOf(p, cfg0, t, c).own.Some? <==> CreatedBy(env)
  {
    hide *;
    LastStep(p, cfg0, t, base, c, env, n, o);
    CreatedStep(p, After(p, cfg0, t.past), t.event, c, env, n - 1, LedgerOf(p, cfg0, t.past, c));
  }

  /** The step that ends the call, and where the call stood before. */
  lemma {:induction false} LastStep(p: Params, cfg0: Config, t: Trace, base: Trace, c: CallId,
                                    env: nat -> Choice, n: nat, o: Outcome)
    requires Finished(p, cfg0, t, base, c, env, n, o)
    ensures t.Then? && 0 < n && Run(p, cfg0, t) && Run(p, cfg0, t.past)
    ensures var s := After(p, cfg0, t.past);
            && Enabled(p, s, t.event) && Concerns(t.event, c) && PlayedBy(s, c, n - 1, env(n - 1), t.event)
            && c in s.calls && !s.calls[c].pc.Ended? && Tracked(p, env, n - 1, s.calls[c].pc)
            && Follows(s.calls[c].pc, LedgerOf(p, cfg0, t.past, c))
            && c in Apply(p, s, t.event).calls && Apply(p, s, t.event).calls[c].pc.Ended?
            && LedgerOf(p, cfg0, t, c) == Book(s, LedgerOf(p, cfg0, t.past, c), t.event, c)
  {
    hide Obeyed, Tracked, PlayedBy, Balanced, Follows, Book, Enabled, Apply, Concerns;
    LastIsOwn(p, cfg0, t, base, c, env, n, o);
    RunLedger(p, cfg0, t.past, c);
    RunTracked(p, cfg0, t.past, base, c, env, n - 1);
  }

  lemma {:induction false} CreatedStep(p: Params, s: State, e: Event, c: CallId, env: nat -> Choice, n: nat, l: Ledger)
    requires Enabled(p, s, e) && Concerns(e, c) && PlayedBy(s, c, n, env(n), e)
    requires c in s.calls && !s.calls[c].pc.Ended? && Tracked(p, env, n, s.calls[c].pc) && Follows(s.calls[c].pc, l)
    requires c in Apply(p, s, e).calls && Apply(p, s, e).calls[c].pc.Ended?
    ensures Book(s, l, e, c).own.Some? <==> CreatedBy(env)
  {
    if HasCheckpoint(s.calls[c].pc) {
      GoneFar(p, env, n, s.calls[c].pc);
    }
  }

  /** A call that has its checkpoint has come past its creation. */
  lemma {:induction false} GoneFar(p: Params, env: nat -> Choice, n: nat, pc: Pc)
    requires Tracked(p, env, n, pc) && HasCheckpoint(pc)
    ensures Goes(0, env(0)) && Goes(1, env(1))
  {
  }

  /** The event occurs in the run after `base`. */
  predicate OccursSince(t: Trace, base: Trace, e: Event) {
    t != base && t.Then? && (t.event == e || OccursSince(t.past, base, e))
  }

  /** The only connection the call activates is the one it was asked for. */
  lemma {:induction false} ActivationFollows(p: Params, cfg0: Config, t: Trace, base: Trace, c: CallId,
                                             env: nat -> Choice, n: nat, reply: Reply, cfg: Config)
    requires Run(p, cfg0, t) && Obeyed(p, cfg0, t, base, c, env, n)
    requires OccursSince(t, base, Activate(c, reply, cfg))
    ensures cfg == env(3).cfg && reply == env(3).reply && !env(3).cancel
  {
    if t.event != Activate(c, reply, cfg) {
      ActivationFollows(p, cfg0, t.past, base, c, env, if Concerns(t.event, c) then n - 1 else n, reply, cfg);
    }
  }
}
