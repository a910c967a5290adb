/**
 The checkpointed Wi-Fi transaction shared by `connect` and `activate_profile`
 (src/appliance_admin/daemon/managers/network.py), as a transition system over
 every interleaving of calls, D-Bus outcomes, cancellations and expiries.

 A run is a `Trace` of events. Each event carries the environment's choices, so
 `After` is a function and every theorem ranges over all traces.
 */
module Transaction {
  import opened Wrappers

  type CallId = nat

  /** The part of NetworkManager's configuration that a checkpoint captures. */
  datatype Config = Config(profiles: set<string>, active: Option<string>)

  // ---------------------------------------------------------------- NetworkManager

  /** `expiry` is `None` for a checkpoint that never expires. */
  datatype Checkpoint = Checkpoint(id: nat, snapshot: Config, expiry: Option<int>)

  /** NetworkManager's side: at most one checkpoint lives, because every one is created with DESTROY_ALL. */
  datatype Nm = Nm(cfg: Config, live: Option<Checkpoint>, nextId: nat)

  predicate Holds(nm: Nm, id: nat) {
    nm.live.Some? && nm.live.value.id == id
  }

  /** A timeout of 0 asks for a checkpoint without expiry. */
  function Expiry(now: int, timeout: nat): Option<int> {
    if timeout == 0 then None else Some(now + timeout)
  }

  predicate Due(nm: Nm, now: int) {
    nm.live.Some? && nm.live.value.expiry.Some? && nm.live.value.expiry.value <= now
  }

  /** The live checkpoint is still there after time `deadline`. */
  predicate Outlasts(nm: Nm, deadline: int) {
    nm.live.Some? && (nm.live.value.expiry.Some? ==> deadline < nm.live.value.expiry.value)
  }

  function Create(nm: Nm, now: int, timeout: nat): Nm {
    Nm(nm.cfg, Some(Checkpoint(nm.nextId, nm.cfg, Expiry(now, timeout))), nm.nextId + 1)
  }

  function Destroy(nm: Nm, id: nat): Nm {
    if Holds(nm, id) then nm.(live := None) else nm
  }

  function Rollback(nm: Nm, id: nat): Nm {
    if Holds(nm, id) then nm.(cfg := nm.live.value.snapshot, live := None) else nm
  }

  // ------------------------------------------------------------------------ daemon

  datatype Outcome = Accepted | Failed | Cancelled

  /** Where a call stands; `cp` is the checkpoint id it was given. */
  datatype Pc =
    | Waiting                    // for the connection lock
    | Preparing                  // lock held; device and profile look-ups, then the checkpoint request
    | Created(cp: nat)           // looking up the NetworkManager interface, outside every `try`
    | Activating(cp: nat)
    | Finishing(cp: nat)         // `_finish_transaction` looking up the interface
    | Verifying(cp: nat)
    | Destroying(cp: nat)
    | InnerRollback(cp: nat)     // the handler in `_finish_transaction`
    | OuterRollback(cp: nat)     // the handler in `connect` / `activate_profile`
    | Ended(outcome: Outcome)

  datatype Call = Call(pc: Pc, deadline: int)

  datatype State = State(nm: Nm, clock: int, lock: Option<CallId>, calls: map<CallId, Call>)

  /** Settings: the server's request timeout and the checkpoint's own timeout. */
  datatype Params = Params(requestTimeout: nat, checkpointTimeout: nat)

  /** The server gives up on a request before the checkpoint it created can expire. */
  predicate GivesUpInTime(p: Params) {
    p.checkpointTimeout == 0 || p.requestTimeout < p.checkpointTimeout
  }

  /** A D-Bus reply. An error may come with or without the request having taken effect. */
  datatype Reply = Success | Error(effect: bool)

  datatype Event =
    | Start(c: CallId)
    | Acquire(c: CallId)
    | PrepareFails(c: CallId)
    | CheckpointCreate(c: CallId, reply: Reply)
    | Interface(c: CallId, found: bool)
    | Activate(c: CallId, reply: Reply, cfg: Config)
    | FinishInterface(c: CallId, found: bool)
    | Verify(c: CallId, usable: bool)
    | CheckpointDestroy(c: CallId, reply: Reply)
    | CheckpointRollback(c: CallId, reply: Reply)
    | Cancel(c: CallId, effect: bool, cfg: Config)  // `effect`: the request in flight is still carried out
    | Expire                                        // NetworkManager's own rollback
    | Settle(cfg: Config)                           // an activation under way keeps changing the device
    | Unlocked(cfg: Config)                         // `disconnect` or `delete_profile`
    | Tick(d: nat)

  predicate Critical(pc: Pc) {
    !pc.Waiting? && !pc.Ended?
  }

  /** Between the checkpoint's creation and the first attempt to resolve it. */
  predicate Protected(pc: Pc) {
    pc.Created? || pc.Activating? || pc.Finishing? || pc.Verifying? || pc.Destroying?
  }

  predicate RollingBack(pc: Pc) {
    pc.InnerRollback? || pc.OuterRollback?
  }

  predicate Enabled(p: Params, s: State, e: Event) {
    match e
    case Start(c) => c !in s.calls
    case Acquire(c) => c in s.calls && s.calls[c].pc.Waiting? && s.lock.None?
    case PrepareFails(c) => c in s.calls && s.calls[c].pc.Preparing?
    case CheckpointCreate(c, _) => c in s.calls && s.calls[c].pc.Preparing?
    case Interface(c, _) => c in s.calls && s.calls[c].pc.Created?
    case Activate(c, _, _) => c in s.calls && s.calls[c].pc.Activating?
    case FinishInterface(c, _) => c in s.calls && s.calls[c].pc.Finishing?
    case Verify(c, _) => c in s.calls && s.calls[c].pc.Verifying?
    // NetworkManager answers with an error when asked about a checkpoint it no longer has.
    case CheckpointDestroy(c, reply) =>
      c in s.calls && s.calls[c].pc.Destroying? && (reply.Success? ==> Holds(s.nm, s.calls[c].pc.cp))
    case CheckpointRollback(c, reply) =>
      c in s.calls && RollingBack(s.calls[c].pc) && (reply.Success? ==> Holds(s.nm, s.calls[c].pc.cp))
    case Cancel(c, _, _) => c in s.calls && !s.calls[c].pc.Ended?
    case Expire => Due(s.nm, s.clock)
    case Settle(_) => s.nm.live.Some?
    case Unlocked(_) => true
    // Time does not pass a due expiry, nor the instant at which the server cancels a running call.
    case Tick(d) =>
      && (s.nm.live.Some? && s.nm.live.value.expiry.Some? ==> s.clock + d <= s.nm.live.value.expiry.value)
      && forall c | c in s.calls && !s.calls[c].pc.Ended? :: s.clock + d <= s.calls[c].deadline
  }

  function Goto(s: State, c: CallId, pc: Pc): State
    requires c in s.calls
  {
    s.(calls := s.calls[c := s.calls[c].(pc := pc)])
  }

  /** The call returns or raises, leaving `async with self._connection_lock`. */
  function End(s: State, c: CallId, outcome: Outcome): State
    requires c in s.calls
  {
    Goto(s, c, Ended(outcome)).(lock := if s.lock == Some(c) then None else s.lock)
  }

  function WithNm(s: State, nm: Nm): State {
    s.(nm := nm)
  }

  predicate Effective(reply: Reply) {
    reply.Success? || reply.effect
  }

  /** What NetworkManager does with the request a call at `pc` has in flight. */
  function Carried(p: Params, nm: Nm, now: int, pc: Pc, cfg: Config): Nm {
    match pc
    case Preparing => Create(nm, now, p.checkpointTimeout)
    case Activating(_) => nm.(cfg := cfg)
    case Destroying(cp) => Destroy(nm, cp)
    case InnerRollback(cp) => Rollback(nm, cp)
    case OuterRollback(cp) => Rollback(nm, cp)
    case _ => nm
  }

  function Apply(p: Params, s: State, e: Event): State
    requires Enabled(p, s, e)
  {
    match e
    case Start(c) => s.(calls := s.calls[c := Call(Waiting, s.clock + p.requestTimeout)])
    case Acquire(c) => Goto(s, c, Preparing).(lock := Some(c))
    case PrepareFails(c) => End(s, c, Failed)
    case CheckpointCreate(c, reply) =>
      var s' := if Effective(reply) then WithNm(s, Create(s.nm, s.clock, p.checkpointTimeout)) else s;
      if reply.Success? then Goto(s', c, Created(s.nm.nextId)) else End(s', c, Failed)
    case Interface(c, found) =>
      if found then Goto(s, c, Activating(s.calls[c].pc.cp)) else End(s, c, Failed)
    case Activate(c, reply, cfg) =>
      var s' := if Effective(reply) then WithNm(s, s.nm.(cfg := cfg)) else s;
      Goto(s', c, if reply.Success? then Finishing(s.calls[c].pc.cp) else OuterRollback(s.calls[c].pc.cp))
    case FinishInterface(c, found) =>
      Goto(s, c, if found then Verifying(s.calls[c].pc.cp) else OuterRollback(s.calls[c].pc.cp))
    case Verify(c, usable) =>
      Goto(s, c, if usable then Destroying(s.calls[c].pc.cp) else InnerRollback(s.calls[c].pc.cp))
    case CheckpointDestroy(c, reply) =>
      var s' := if Effective(reply) then WithNm(s, Destroy(s.nm, s.calls[c].pc.cp)) else s;
      if reply.Success? then End(s', c, Accepted) else Goto(s', c, InnerRollback(s.calls[c].pc.cp))
    case CheckpointRollback(c, reply) =>
      var s' := if Effective(reply) then WithNm(s, Rollback(s.nm, s.calls[c].pc.cp)) else s;
      if s.calls[c].pc.InnerRollback? then Goto(s', c, OuterRollback(s.calls[c].pc.cp)) else End(s', c, Failed)
    case Cancel(c, effect, cfg) =>
      var s' := if effect then WithNm(s, Carried(p, s.nm, s.clock, s.calls[c].pc, cfg)) else s;
      End(s', c, Cancelled)
    case Expire => WithNm(s, Rollback(s.nm, s.nm.live.value.id))
    case Settle(cfg) => WithNm(s, s.nm.(cfg := cfg))
    case Unlocked(cfg) => WithNm(s, s.nm.(cfg := cfg))
    case Tick(d) => s.(clock := s.clock + d)
  }

  // -------------------------------------------------------------------------- runs

  datatype Trace = Init | Then(past: Trace, event: Event)

  function Initial(cfg0: Config): State {
    State(Nm(cfg0, None, 0), 0, None, map[])
  }

  /** `t` is a run of the system from configuration `cfg0`. */
  predicate Run(p: Params, cfg0: Config, t: Trace)
    decreases t, 0
  {
    t.Then? ==> Run(p, cfg0, t.past) && Enabled(p, After(p, cfg0, t.past), t.event)
  }

  function After(p: Params, cfg0: Config, t: Trace): State
    requires Run(p, cfg0, t)
    decreases t, 1
  {
    match t
    case Init => Initial(cfg0)
    case Then(past, e) => Apply(p, After(p, cfg0, past), e)
  }

  // --------------------------------------------------- what a run has made permanent

  /** The event makes NetworkManager drop the checkpoint of a call that verified its connection. */
  predicate Commits(s: State, e: Event) {
    match e
    case CheckpointDestroy(c, reply) =>
      c in s.calls && s.calls[c].pc.Destroying? && Effective(reply) && Holds(s.nm, s.calls[c].pc.cp)
    case Cancel(c, effect, _) =>
      c in s.calls && s.calls[c].pc.Destroying? && effect && Holds(s.nm, s.calls[c].pc.cp)
    case _ => false
  }

  /** The event makes NetworkManager create a checkpoint. */
  predicate Creates(s: State, e: Event) {
    match e
    case CheckpointCreate(_, reply) => Effective(reply)
    case Cancel(c, effect, _) => c in s.calls && s.calls[c].pc.Preparing? && effect
    case _ => false
  }

  /** A new checkpoint replaces a live one: the configuration it finds becomes the one to return to. */
  predicate Absorbs(s: State, e: Event) {
    Creates(s, e) && s.nm.live.Some?
  }

  /** An absorption that loses something: the live checkpoint would have restored another configuration. */
  predicate Launders(s: State, e: Event) {
    Absorbs(s, e) && s.nm.cfg != s.nm.live.value.snapshot
  }

  /** A call activates a connection when its checkpoint has expired, and no other is live. */
  predicate Exposes(s: State, e: Event) {
    s.nm.live.None? &&
    match e
    case Activate(_, reply, _) => Effective(reply)
    case Cancel(c, effect, _) => c in s.calls && s.calls[c].pc.Activating? && effect
    case _ => false
  }

  /** Such an activation, if it changes anything. */
  predicate Strays(s: State, e: Event) {
    Exposes(s, e) && e.cfg != s.nm.cfg
  }

  /** Some step of the run was one. */
  predicate Strayed(p: Params, cfg0: Config, t: Trace)
    requires Run(p, cfg0, t)
  {
    t.Then? && (Strayed(p, cfg0, t.past) || Strays(After(p, cfg0, t.past), t.event))
  }

  /**
   The configuration to fall back on, read off the run: the one at the latest verified commit or
   absorption, or the one that an unlocked change or an activation made with no checkpoint live;
   else `cfg0`.
   */
  function Settled(p: Params, cfg0: Config, t: Trace): Config
    requires Run(p, cfg0, t)
  {
    match t
    case Init => cfg0
    case Then(past, e) =>
      var s := After(p, cfg0, past);
      if Commits(s, e) || Absorbs(s, e) then s.nm.cfg
      else if Exposes(s, e) || (e.Unlocked? && s.nm.live.None?) then e.cfg
      else Settled(p, cfg0, past)
  }

  /** The configuration in force when call `c` found its connection usable. */
  function Seen(p: Params, cfg0: Config, t: Trace, c: CallId): Config
    requires Run(p, cfg0, t)
  {
    match t
    case Init => cfg0
    case Then(past, e) => if e == Verify(c, true) then After(p, cfg0, past).nm.cfg else Seen(p, cfg0, past, c)
  }

  /** What an activation under way, or somebody without the lock, has last made of the configuration since. */
  function ChangedSince(t: Trace, c: CallId): Option<Config> {
    match t
    case Init => None
    case Then(past, e) =>
      if e == Verify(c, true) then None
      else if e.Settle? || e.Unlocked? then Some(e.cfg)
      else ChangedSince(past, c)
  }

  /** A commit of something else than what was verified: the network has changed in between, and not back. */
  predicate Drifts(p: Params, cfg0: Config, t: Trace, e: Event)
    requires Run(p, cfg0, t)
  {
    Commits(After(p, cfg0, t), e) && ChangedSince(t, e.c).Some? && ChangedSince(t, e.c).value != Seen(p, cfg0, t, e.c)
  }

  /**
   As `Settled`, but only verified and deliberate changes count: a commit stands for the
   configuration its call has verified, and an absorption for nothing.
   */
  function Verified(p: Params, cfg0: Config, t: Trace): Config
    requires Run(p, cfg0, t)
  {
    match t
    case Init => cfg0
    case Then(past, e) =>
      var s := After(p, cfg0, past);
      if Commits(s, e) then Seen(p, cfg0, past, e.c)
      else if e.Unlocked? && s.nm.live.None? then e.cfg
      else Verified(p, cfg0, past)
  }

  /** Some step of the run absorbed a checkpoint with loss, or committed what was not verified. */
  predicate Spoiled(p: Params, cfg0: Config, t: Trace)
    requires Run(p, cfg0, t)
  {
    t.Then? && (Spoiled(p, cfg0, t.past) || Launders(After(p, cfg0, t.past), t.event)
                || Drifts(p, cfg0, t.past, t.event))
  }

  // --------------------------------------------------------------------- invariants

  /** What the lock guarantees, whatever the timeouts. */
  predicate Exclusive(s: State) {
    && (s.lock.Some? ==> s.lock.value in s.calls)
    && forall c | c in s.calls :: Critical(s.calls[c].pc) <==> s.lock == Some(c)
  }

  predicate CallOk(p: Params, s: State, call: Call) {
    var nm, pc := s.nm, call.pc;
    && (!pc.Ended? ==> s.clock <= call.deadline <= s.clock + p.requestTimeout)
    && (Protected(pc) ==> Holds(nm, pc.cp) && Outlasts(nm, call.deadline))
    && (RollingBack(pc) ==> nm.live.None? || (Holds(nm, pc.cp) && Outlasts(nm, call.deadline)))
  }

  predicate ExpiryOk(p: Params, expiry: Option<int>, clock: int) {
    if p.checkpointTimeout == 0 then expiry.None?
    else expiry.Some? && clock <= expiry.value <= clock + p.checkpointTimeout
  }

  predicate Inv(p: Params, s: State) {
    && Exclusive(s)
    && (s.nm.live.Some? ==> ExpiryOk(p, s.nm.live.value.expiry, s.clock))
    && forall c | c in s.calls :: CallOk(p, s, s.calls[c])
  }

  lemma {:induction false} ExclusiveStep(p: Params, s: State, e: Event)
    requires Exclusive(s) && Enabled(p, s, e)
    ensures Exclusive(Apply(p, s, e))
  {
  }

  /** The event is a step of call `c` itself. */
  predicate Concerns(e: Event, c: CallId) {
    match e
    case Expire | Settle(_) | Unlocked(_) | Tick(_) => false
    case _ => e.c == c
  }

  /** Nobody else moves a call or takes the lock from it. */
  lemma {:induction false} OthersLeave(p: Params, s: State, e: Event, c: CallId)
    requires Exclusive(s) && Enabled(p, s, e) && !Concerns(e, c) && c in Apply(p, s, e).calls
    ensures c in s.calls && Apply(p, s, e).calls[c] == s.calls[c]
    ensures s.lock == Some(c) ==> Apply(p, s, e).lock == Some(c)
    ensures Critical(s.calls[c].pc) ==>
              var live := Apply(p, s, e).nm.live;
              live == s.nm.live || (live.None? && e.Expire? && Due(s.nm, s.clock))
  {
  }

  /** A step keeps the bookkeeping of one call, given that it keeps the lock exclusive. */
  lemma {:induction false} CallStep(p: Params, s: State, e: Event, c: CallId)
    requires GivesUpInTime(p)
    requires Inv(p, s) && Enabled(p, s, e) && c in Apply(p, s, e).calls
    ensures CallOk(p, Apply(p, s, e), Apply(p, s, e).calls[c])
  {
    assert c in s.calls ==> CallOk(p, s, s.calls[c]);
    if !Concerns(e, c) {
      OthersLeave(p, s, e, c);
      assert Apply(p, s, e).clock == s.clock || (e.Tick? && Apply(p, s, e).clock == s.clock + e.d);
      hide Apply;
    }
  }

  lemma {:induction false} ExpiryStep(p: Params, s: State, e: Event)
    requires Enabled(p, s, e) && (s.nm.live.Some? ==> ExpiryOk(p, s.nm.live.value.expiry, s.clock))
    ensures var s' := Apply(p, s, e); s'.nm.live.Some? ==> ExpiryOk(p, s'.nm.live.value.expiry, s'.clock)
  {
  }

  lemma {:induction false} InvStep(p: Params, s: State, e: Event)
    requires GivesUpInTime(p)
    requires Inv(p, s) && Enabled(p, s, e)
    ensures Inv(p, Apply(p, s, e))
  {
    hide Exclusive, CallOk, ExpiryOk, Enabled, Apply;
    ExclusiveStep(p, s, e);
    ExpiryStep(p, s, e);
    var s' := Apply(p, s, e);
    forall c | c in s'.calls ensures CallOk(p, s', s'.calls[c]) {
      CallStep(p, s, e, c);
    }
  }

  lemma {:induction false} RunExclusive(p: Params, cfg0: Config, t: Trace)
    requires Run(p, cfg0, t)
    ensures Exclusive(After(p, cfg0, t))
    ensures var calls := After(p, cfg0, t).calls;
            forall c, d | c in calls && d in calls && Critical(calls[c].pc) && Critical(calls[d].pc) :: c == d
  {
    if t.Then? {
      RunExclusive(p, cfg0, t.past);
      ExclusiveStep(p, After(p, cfg0, t.past), t.event);
    }
  }

  lemma {:induction false} RunInv(p: Params, cfg0: Config, t: Trace)
    requires GivesUpInTime(p)
    requires Run(p, cfg0, t)
    ensures Inv(p, After(p, cfg0, t))
  {
    if t.Then? {
      RunInv(p, cfg0, t.past);
      InvStep(p, After(p, cfg0, t.past), t.event);
    }
  }

  // ------------------------------------------------------------------ main theorems

  /** The configuration NetworkManager is in, or would go back to. */
  function Fallback(nm: Nm): Config {
    if nm.live.None? then nm.cfg else nm.live.value.snapshot
  }

  lemma {:induction false} FallbackStep(p: Params, s: State, e: Event)
    requires Enabled(p, s, e)
    ensures Fallback(Apply(p, s, e).nm) ==
            if Commits(s, e) || Absorbs(s, e) then s.nm.cfg
            else if Exposes(s, e) || (e.Unlocked? && s.nm.live.None?) then e.cfg
            else Fallback(s.nm)
  {
  }

  /**
   Safety over every run, whatever the timeouts: a live checkpoint's snapshot is the settled
   configuration, and with no checkpoint live NetworkManager is in it.
   */
  lemma {:induction false} RunSettled(p: Params, cfg0: Config, t: Trace)
    requires Run(p, cfg0, t)
    ensures Fallback(After(p, cfg0, t).nm) == Settled(p, cfg0, t)
  {
    if t.Then? {
      RunSettled(p, cfg0, t.past);
      FallbackStep(p, After(p, cfg0, t.past), t.event);
      hide Apply;
    }
  }

  /** One step of a call that stays on the way to its commit, with its checkpoint still there. */
  lemma {:induction false} DestroyingStep(p: Params, s: State, e: Event, c: CallId)
    requires Exclusive(s) && Enabled(p, s, e)
    requires ReadyToDestroy(Apply(p, s, e), c)
    ensures c in s.calls
    ensures Apply(p, s, e).nm.cfg == if e.Settle? || e.Unlocked? then e.cfg else s.nm.cfg
    ensures ReadyToDestroy(s, c) || e == Verify(c, true)
  {
    if Concerns(e, c) {
      assert e == Verify(c, true);
    } else {
      OthersLeave(p, s, e, c);
    }
  }

  /** Call `c` has verified its connection, and NetworkManager still has its checkpoint. */
  predicate ReadyToDestroy(s: State, c: CallId) {
    c in s.calls && s.calls[c].pc.Destroying? && Holds(s.nm, s.calls[c].pc.cp)
  }

  /** Between verification and commit only those changes touch the network: nobody else gets in. */
  lemma {:induction false} RunDestroying(p: Params, cfg0: Config, t: Trace, c: CallId)
    requires Run(p, cfg0, t) && ReadyToDestroy(After(p, cfg0, t), c)
    ensures var changed := ChangedSince(t, c);
            After(p, cfg0, t).nm.cfg == if changed.Some? then changed.value else Seen(p, cfg0, t, c)
  {
    RunExclusive(p, cfg0, t.past);
    DestroyingStep(p, After(p, cfg0, t.past), t.event, c);
    if t.event != Verify(c, true) {
      RunDestroying(p, cfg0, t.past, c);
    }
    hide Apply;
  }

  /**
   What stays verified, step by step and exactly, whatever the timeouts: given that NetworkManager
   falls back on verified work, it still does after the next step unless that creates a checkpoint
   over a live one with another snapshot than the configuration in force, or commits a network that
   has changed, and not back, since its call verified it, or activates another network when the
   call's checkpoint has expired.
   */
  lemma {:induction false} VerifiedExact(p: Params, cfg0: Config, t: Trace, e: Event)
    requires Run(p, cfg0, Then(t, e)) && Fallback(After(p, cfg0, t).nm) == Verified(p, cfg0, t)
    ensures Fallback(After(p, cfg0, Then(t, e)).nm) == Verified(p, cfg0, Then(t, e))
            <==> !Launders(After(p, cfg0, t), e) && !Drifts(p, cfg0, t, e) && !Strays(After(p, cfg0, t), e)
  {
    var s := After(p, cfg0, t);
    FallbackStep(p, s, e);
    if Commits(s, e) {
      RunDestroying(p, cfg0, t, e.c);
    }
    hide Apply;
  }

  /** So every run without such a step falls back on nothing but verified work. */
  lemma {:induction false} RunVerified(p: Params, cfg0: Config, t: Trace)
    requires Run(p, cfg0, t) && !Spoiled(p, cfg0, t) && !Strayed(p, cfg0, t)
    ensures Fallback(After(p, cfg0, t).nm) == Verified(p, cfg0, t)
  {
    if t.Then? {
      RunVerified(p, cfg0, t.past);
      VerifiedExact(p, cfg0, t.past, t.event);
    }
  }

  /** A server that gives up in time never lets a call outlive its checkpoint. */
  lemma {:induction false} NeverExposed(p: Params, cfg0: Config, t: Trace, e: Event)
    requires GivesUpInTime(p) && Run(p, cfg0, Then(t, e))
    ensures !Exposes(After(p, cfg0, t), e)
  {
    RunInv(p, cfg0, t);
    var s := After(p, cfg0, t);
    assert forall c | c in s.calls :: CallOk(p, s, s.calls[c]);
  }

  lemma {:induction false} NeverStrayed(p: Params, cfg0: Config, t: Trace)
    requires GivesUpInTime(p) && Run(p, cfg0, t)
    ensures !Strayed(p, cfg0, t)
  {
    if t.Then? {
      NeverStrayed(p, cfg0, t.past);
      NeverExposed(p, cfg0, t.past, t.event);
    }
  }

  /** With no checkpoint live, the configuration in force is a verified one, in every run that is not spoiled. */
  ghost predicate OnlyVerifiedStays(p: Params) {
    forall cfg0, t | Run(p, cfg0, t) && !Spoiled(p, cfg0, t) && After(p, cfg0, t).nm.live.None? ::
      After(p, cfg0, t).nm.cfg == Verified(p, cfg0, t)
  }

  /** No call ever asks NetworkManager to destroy a checkpoint that is gone. */
  ghost predicate DestroysOnlyLive(p: Params) {
    forall cfg0, t, c, reply | Run(p, cfg0, Then(t, CheckpointDestroy(c, reply))) :: HoldsOwn(p, cfg0, t, c)
  }

  /** The checkpoint that call `c` was given is live. */
  predicate HoldsOwn(p: Params, cfg0: Config, t: Trace, c: CallId) {
    && Run(p, cfg0, t)
    && var s := After(p, cfg0, t);
    && c in s.calls && (Protected(s.calls[c].pc) || RollingBack(s.calls[c].pc)) && Holds(s.nm, s.calls[c].pc.cp)
  }

  /** Some run, spoiled or not, ends in `s` with `verified` as its verified configuration. */
  ghost predicate Reached(p: Params, cfg0: Config, s: State, verified: Config, spoiled: bool) {
    exists t :: Run(p, cfg0, t) && After(p, cfg0, t) == s && Verified(p, cfg0, t) == verified
      && Spoiled(p, cfg0, t) == spoiled
  }

  /** One more step of a run under construction. */
  lemma {:induction false} Step(p: Params, cfg0: Config, s: State, v: Config, l: bool, e: Event) returns (s': State)
    requires Reached(p, cfg0, s, v, l) && Enabled(p, s, e)
    requires !Commits(s, e) && !e.Unlocked?
    ensures s' == Apply(p, s, e)
    ensures Reached(p, cfg0, s', v, l || Launders(s, e))
  {
    s' := Apply(p, s, e);
    var t :| Run(p, cfg0, t) && After(p, cfg0, t) == s && Verified(p, cfg0, t) == v && Spoiled(p, cfg0, t) == l;
    var t' := Then(t, e);
    assert Run(p, cfg0, t') && After(p, cfg0, t') == s' && Verified(p, cfg0, t') == v
           && Spoiled(p, cfg0, t') == (l || Launders(s, e));
  }

  /** The first call takes the lock. */
  lemma {:induction false} FirstCallPrepares(p: Params, cfg0: Config) returns (s: State)
    ensures s == State(Nm(cfg0, None, 0), 0, Some(0), map[0 := Call(Preparing, p.requestTimeout)])
    ensures Reached(p, cfg0, s, cfg0, false)
  {
    assert Run(p, cfg0, Init) && After(p, cfg0, Init) == Initial(cfg0);
    assert Reached(p, cfg0, Initial(cfg0), cfg0, false);
    hide Reached, Run, After;
    s := Step(p, cfg0, Initial(cfg0), cfg0, false, Start(0));
    s := Step(p, cfg0, s, cfg0, false, Acquire(0));
  }

  /** It runs up to its activation request. */
  lemma {:induction false} FirstCallActivates(p: Params, cfg0: Config) returns (s: State)
    ensures s == State(Nm(cfg0, Some(Checkpoint(0, cfg0, Expiry(0, p.checkpointTimeout))), 1), 0, Some(0),
                       map[0 := Call(Activating(0), p.requestTimeout)])
    ensures Reached(p, cfg0, s, cfg0, false)
  {
    hide Reached;
    s := FirstCallPrepares(p, cfg0);
    s := Step(p, cfg0, s, cfg0, false, CheckpointCreate(0, Success));
    s := Step(p, cfg0, s, cfg0, false, Interface(0, true));
  }

  /** It can outlive its checkpoint when the server waits long enough: then it changes NetworkManager unprotected. */
  lemma {:induction false} OutlivedActivation(p: Params, cfg0: Config, cfg: Config) returns (s: State)
    requires !GivesUpInTime(p)
    ensures s.nm == Nm(cfg, None, 1) && s.calls == map[0 := Call(Finishing(0), p.requestTimeout)]
    ensures Reached(p, cfg0, s, cfg0, false)
  {
    hide Reached;
    s := FirstCallActivates(p, cfg0);
    s := Step(p, cfg0, s, cfg0, false, Tick(p.checkpointTimeout));
    s := Step(p, cfg0, s, cfg0, false, Expire);
    s := Step(p, cfg0, s, cfg0, false, Activate(0, Success, cfg));
  }

  lemma {:induction false} ShortRequestsSuffice(p: Params)
    requires GivesUpInTime(p)
    ensures DestroysOnlyLive(p) && OnlyVerifiedStays(p)
  {
    forall cfg0, t, c, reply | Run(p, cfg0, Then(t, CheckpointDestroy(c, reply)))
      ensures HoldsOwn(p, cfg0, t, c)
    {
      RunInv(p, cfg0, t);
      assert CallOk(p, After(p, cfg0, t), After(p, cfg0, t).calls[c]);
    }
    forall cfg0, t | Run(p, cfg0, t) && !Spoiled(p, cfg0, t) && After(p, cfg0, t).nm.live.None?
      ensures After(p, cfg0, t).nm.cfg == Verified(p, cfg0, t)
    {
      NeverStrayed(p, cfg0, t);
      RunVerified(p, cfg0, t);
    }
  }

  lemma {:induction false} LongRequestsLeaveUnverified(p: Params)
    requires !GivesUpInTime(p)
    ensures !OnlyVerifiedStays(p)
  {
    var none := Config({}, None);
    var s := OutlivedActivation(p, none, Config({"new"}, Some("new")));
    var t :| Run(p, none, t) && After(p, none, t) == s && Verified(p, none, t) == none && !Spoiled(p, none, t);
  }

  /** It can even come to the point of destroying the checkpoint it outlived. */
  lemma {:induction false} OutlivedDestroy(p: Params, cfg0: Config) returns (s: State)
    requires !GivesUpInTime(p)
    ensures s.nm.live.None? && s.calls == map[0 := Call(Destroying(0), p.requestTimeout)]
    ensures Reached(p, cfg0, s, cfg0, false)
  {
    hide Reached;
    s := OutlivedActivation(p, cfg0, cfg0);
    s := Step(p, cfg0, s, cfg0, false, FinishInterface(0, true));
    s := Step(p, cfg0, s, cfg0, false, Verify(0, true));
  }

  lemma {:induction false} LongRequestsDestroyExpired(p: Params)
    requires !GivesUpInTime(p)
    ensures !DestroysOnlyLive(p)
  {
    var none := Config({}, None);
    var s := OutlivedDestroy(p, none);
    var t :| Run(p, none, t) && After(p, none, t) == s;
    assert Run(p, none, Then(t, CheckpointDestroy(0, Error(false)))) && !HoldsOwn(p, none, t, 0);
  }

  /**
   Both guarantees hold exactly when the server gives up on a request before its
   checkpoint can expire (30 s against 45 s by default).
   */
  lemma {:induction false} RequestTimeoutExact(p: Params)
    ensures DestroysOnlyLive(p) <==> GivesUpInTime(p)
    ensures OnlyVerifiedStays(p) <==> GivesUpInTime(p)
  {
    if GivesUpInTime(p) {
      ShortRequestsSuffice(p);
    } else {
      LongRequestsLeaveUnverified(p);
      LongRequestsDestroyExpired(p);
    }
  }

  /** A first call on its way to verify the connection it has activated. */
  lemma {:induction false} FirstCallVerifies(p: Params, cfg0: Config, good: Config) returns (s: State)
    ensures s == State(Nm(good, Some(Checkpoint(0, cfg0, Expiry(0, p.checkpointTimeout))), 1), 0, Some(0),
                       map[0 := Call(Verifying(0), p.requestTimeout)])
    ensures Reached(p, cfg0, s, cfg0, false)
  {
    hide Reached;
    s := FirstCallActivates(p, cfg0);
    s := Step(p, cfg0, s, cfg0, false, Activate(0, Success, good));
    s := Step(p, cfg0, s, cfg0, false, FinishInterface(0, true));
  }

  /** A call that the server cancels, at the request timeout, leaves an orphan checkpoint behind. */
  lemma {:induction false} CancelledOrphan(p: Params, cfg0: Config, bad: Config) returns (s: State)
    requires GivesUpInTime(p)
    ensures var live := Checkpoint(0, cfg0, Expiry(0, p.checkpointTimeout));
            s == State(Nm(bad, Some(live), 1), p.requestTimeout, None,
                       map[0 := Call(Ended(Cancelled), p.requestTimeout)])
    ensures Reached(p, cfg0, s, cfg0, false)
  {
    hide Reached;
    s := FirstCallVerifies(p, cfg0, bad);
    s := Step(p, cfg0, s, cfg0, false, Tick(p.requestTimeout));
    s := Step(p, cfg0, s, cfg0, false, Cancel(0, false, bad));
  }

  /** The next call's checkpoint absorbs it, and takes the unverified network for the state to return to. */
  lemma {:induction false} AbsorbedOrphan(p: Params, cfg0: Config, bad: Config) returns (s: State)
    requires GivesUpInTime(p) && bad != cfg0
    ensures s.nm == Nm(bad, Some(Checkpoint(1, bad, Expiry(p.requestTimeout, p.checkpointTimeout))), 2)
    ensures s.clock == p.requestTimeout && s.lock == Some(1)
    ensures s.calls == map[0 := Call(Ended(Cancelled), p.requestTimeout), 1 := Call(Created(1), 2 * p.requestTimeout)]
    ensures Reached(p, cfg0, s, cfg0, true)
  {
    hide Reached;
    s := CancelledOrphan(p, cfg0, bad);
    s := Step(p, cfg0, s, cfg0, false, Start(1));
    s := Step(p, cfg0, s, cfg0, false, Acquire(1));
    s := Step(p, cfg0, s, cfg0, false, CheckpointCreate(1, Success));
  }

  /**
   So without the guard the guarantee fails, with timeouts as they should be: one call is cancelled at
   the request timeout, the next one fails, no checkpoint is live, and the unverified network stays.
   */
  lemma {:induction false} LaunderedOrphan(p: Params, cfg0: Config, bad: Config) returns (s: State)
    requires GivesUpInTime(p) && bad != cfg0
    ensures Reached(p, cfg0, s, cfg0, true)
    ensures s.nm == Nm(bad, None, 2) && s.clock == p.requestTimeout
    ensures s.calls.Keys == {0, 1} && s.calls[1].pc == Ended(Failed)
    ensures s.calls[0] == Call(Ended(Cancelled), p.requestTimeout)
  {
    hide Reached;
    s := AbsorbedOrphan(p, cfg0, bad);
    s := Step(p, cfg0, s, cfg0, true, Interface(1, true));
    s := Step(p, cfg0, s, cfg0, true, Activate(1, Error(false), bad));
    s := Step(p, cfg0, s, cfg0, true, CheckpointRollback(1, Success));
  }

  /** It finds the network usable as it is. */
  lemma {:induction false} FirstCallCommits(p: Params, cfg0: Config, good: Config) returns (t: Trace)
    ensures Run(p, cfg0, t) && !Spoiled(p, cfg0, t) && Seen(p, cfg0, t, 0) == good
    ensures var live := Checkpoint(0, cfg0, Expiry(0, p.checkpointTimeout));
            After(p, cfg0, t) == State(Nm(good, Some(live), 1), 0, Some(0),
                                       map[0 := Call(Destroying(0), p.requestTimeout)])
  {
    var s := FirstCallVerifies(p, cfg0, good);
    var q :| Run(p, cfg0, q) && After(p, cfg0, q) == s && !Spoiled(p, cfg0, q);
    t := Then(q, Verify(0, true));
    assert Run(p, cfg0, t);
  }

  /**
   The other way to fail: one call, nothing spoiled before, and the network changes between the
   call's verification and its commit. It is accepted, and what stays nobody has verified.
   */
  lemma {:induction false} DriftedCommit(p: Params, cfg0: Config, good: Config, bad: Config) returns (t: Trace)
    requires good != bad
    ensures Run(p, cfg0, t) && After(p, cfg0, t).nm == Nm(bad, None, 1) && Verified(p, cfg0, t) == good
    ensures After(p, cfg0, t).calls == map[0 := Call(Ended(Accepted), p.requestTimeout)]
    ensures t.Then? && !Spoiled(p, cfg0, t.past) && !Absorbs(After(p, cfg0, t.past), t.event)
  {
    var verified := FirstCallCommits(p, cfg0, good);
    var changed := Then(verified, Settle(bad));
    assert Run(p, cfg0, changed) && Seen(p, cfg0, changed, 0) == good;
    t := Then(changed, CheckpointDestroy(0, Success));
  }

  // ----------------------------------------------------------- whose checkpoint it is

  predicate HasCheckpoint(pc: Pc) {
    Protected(pc) || RollingBack(pc)
  }

  /** The call whose request created checkpoint `id`. */
  function Creator(p: Params, cfg0: Config, t: Trace, id: nat): Option<CallId>
    requires Run(p, cfg0, t)
  {
    match t
    case Init => None
    case Then(past, e) =>
      var s := After(p, cfg0, past);
      if Creates(s, e) && s.nm.nextId == id then Some(e.c) else Creator(p, cfg0, past, id)
  }

  predicate Occurs(t: Trace, e: Event) {
    t.Then? && (t.event == e || Occurs(t.past, e))
  }

  predicate Extends(u: Trace, t: Trace) {
    u == t || (u.Then? && Extends(u.past, t))
  }

  /** A call's bookkeeping against the run that led to it. */
  predicate CallHistory(p: Params, cfg0: Config, t: Trace, c: CallId)
    requires Run(p, cfg0, t) && c in After(p, cfg0, t).calls
  {
    var s := After(p, cfg0, t);
    var pc := s.calls[c].pc;
    && (HasCheckpoint(pc) ==> pc.cp < s.nm.nextId && Creator(p, cfg0, t, pc.cp) == Some(c))
    && (pc.Destroying? ==> Occurs(t, Verify(c, true)))
  }

  /** How one step changes what a call holds: only its own request gives it a checkpoint. */
  lemma {:induction false} HoldingStep(p: Params, s: State, e: Event, c: CallId)
    requires Enabled(p, s, e) && c in Apply(p, s, e).calls
    ensures s.nm.nextId <= Apply(p, s, e).nm.nextId
    ensures var pc := Apply(p, s, e).calls[c].pc;
            && (c !in s.calls ==> pc.Waiting?)
            && (c in s.calls && HasCheckpoint(pc) ==>
                  || (HasCheckpoint(s.calls[c].pc) && pc.cp == s.calls[c].pc.cp)
                  || (e == CheckpointCreate(c, Success) && pc.cp == s.nm.nextId < Apply(p, s, e).nm.nextId))
            && (c in s.calls && pc.Destroying? ==> s.calls[c].pc.Destroying? || e == Verify(c, true))
            && (c in s.calls && HasCheckpoint(s.calls[c].pc) ==>
                pc.Ended? || (HasCheckpoint(pc) && pc.cp == s.calls[c].pc.cp))
  {
  }

  lemma {:induction false} RunHistory(p: Params, cfg0: Config, t: Trace, c: CallId)
    requires Run(p, cfg0, t) && c in After(p, cfg0, t).calls
    ensures CallHistory(p, cfg0, t, c)
  {
    if t.Then? {
      HoldingStep(p, After(p, cfg0, t.past), t.event, c);
      if c in After(p, cfg0, t.past).calls {
        RunHistory(p, cfg0, t.past, c);
      }
    }
  }

  /** A step leaves live only the checkpoint that was, or the one it creates. */
  lemma {:induction false} LiveStep(p: Params, s: State, e: Event)
    requires Enabled(p, s, e) && Apply(p, s, e).nm.live.Some?
    ensures var s' := Apply(p, s, e);
            var id := s'.nm.live.value.id;
            if Creates(s, e)
            then id == s.nm.nextId < s'.nm.nextId && e.c in s'.calls
              && (s'.calls[e.c].pc.Ended? || s'.calls[e.c].pc == Created(id))
            else Holds(s.nm, id) && s'.nm.nextId == s.nm.nextId
    ensures forall c | c in s.calls :: c in Apply(p, s, e).calls
  {
  }

  /** A live checkpoint belongs to the call holding it, or to one that is over. */
  lemma {:induction false} RunOwner(p: Params, cfg0: Config, t: Trace)
    requires Run(p, cfg0, t) && After(p, cfg0, t).nm.live.Some?
    ensures var s := After(p, cfg0, t);
            var id := s.nm.live.value.id;
            var owner := Creator(p, cfg0, t, id);
            && id < s.nm.nextId
            && owner.Some? && owner.value in s.calls
            && var pc := s.calls[owner.value].pc; pc.Ended? || (HasCheckpoint(pc) && pc.cp == id)
  {
    if t.Then? {
      var s := After(p, cfg0, t.past);
      LiveStep(p, s, t.event);
      if !Creates(s, t.event) {
        RunOwner(p, cfg0, t.past);
        var owner := Creator(p, cfg0, t.past, s.nm.live.value.id).value;
        HoldingStep(p, s, t.event, owner);
        if s.calls[owner].pc.Ended? {
          EndedStays(p, s, t.event, owner);
        }
      }
    }
  }

  lemma {:induction false} CallsStay(p: Params, s: State, e: Event)
    requires Enabled(p, s, e)
    ensures forall c | c in s.calls :: c in Apply(p, s, e).calls
  {
  }

  lemma {:induction false} EndedStays(p: Params, s: State, e: Event, c: CallId)
    requires Enabled(p, s, e) && c in s.calls && s.calls[c].pc.Ended?
    ensures c in Apply(p, s, e).calls && Apply(p, s, e).calls[c] == s.calls[c]
  {
  }

  /**
   The connection lock keeps transactions disjoint in every interleaving: whenever a
   checkpoint is created no call holds one, and what DESTROY_ALL removes belongs to a
   call that is already over. No assumption on the timeouts.
   */
  lemma {:induction false} CreationsAreDisjoint(p: Params, cfg0: Config, t: Trace, e: Event)
    requires Run(p, cfg0, Then(t, e)) && Creates(After(p, cfg0, t), e)
    ensures var s := After(p, cfg0, t);
            && (forall c | c in s.calls :: !HasCheckpoint(s.calls[c].pc))
            && (s.nm.live.Some? ==>
                  var owner := Creator(p, cfg0, t, s.nm.live.value.id);
                  owner.Some? && owner.value in s.calls && s.calls[owner.value].pc.Ended?)
  {
    RunExclusive(p, cfg0, t);
    var s := After(p, cfg0, t);
    assert Critical(s.calls[e.c].pc);
    if s.nm.live.Some? {
      RunOwner(p, cfg0, t);
    }
  }

  /** In state `q`, call `c` has verified its connection and is destroying its own, live checkpoint. */
  predicate ReadyToAccept(p: Params, cfg0: Config, q: Trace, c: CallId) {
    && Run(p, cfg0, q)
    && var s := After(p, cfg0, q);
    && c in s.calls && s.calls[c].pc.Destroying?
    && Holds(s.nm, s.calls[c].pc.cp)
    && Creator(p, cfg0, q, s.calls[c].pc.cp) == Some(c)
    && Occurs(q, Verify(c, true))
  }

  /** The one step by which a call comes to be accepted. */
  lemma {:induction false} AcceptStep(p: Params, s: State, e: Event, c: CallId)
    requires Enabled(p, s, e) && c in Apply(p, s, e).calls && Apply(p, s, e).calls[c].pc == Ended(Accepted)
    requires c in s.calls ==> s.calls[c].pc != Ended(Accepted)
    ensures c in s.calls && e == CheckpointDestroy(c, Success) && s.calls[c].pc.Destroying?
            && Holds(s.nm, s.calls[c].pc.cp)
  {
  }

  /** Every `accepted` reply destroyed its own live checkpoint after a successful verification. */
  lemma {:induction false} AcceptedMeansCommitted(p: Params, cfg0: Config, t: Trace, c: CallId)
    requires Run(p, cfg0, t) && c in After(p, cfg0, t).calls
    requires After(p, cfg0, t).calls[c].pc == Ended(Accepted)
    ensures exists q :: Extends(t, Then(q, CheckpointDestroy(c, Success))) && ReadyToAccept(p, cfg0, q, c)
  {
    var s := After(p, cfg0, t.past);
    if c in s.calls && s.calls[c].pc == Ended(Accepted) {
      AcceptedMeansCommitted(p, cfg0, t.past, c);
      var q :| Extends(t.past, Then(q, CheckpointDestroy(c, Success))) && ReadyToAccept(p, cfg0, q, c);
      assert Extends(t, Then(q, CheckpointDestroy(c, Success)));
    } else {
      AcceptStep(p, s, t.event, c);
      RunHistory(p, cfg0, t.past, c);
      hide Apply;
      assert ReadyToAccept(p, cfg0, t.past, c);
    }
  }

  lemma {:induction false} GoneStep(p: Params, s: State, e: Event, id: nat)
    requires Enabled(p, s, e) && id < s.nm.nextId && !Holds(s.nm, id)
    ensures id < Apply(p, s, e).nm.nextId && !Holds(Apply(p, s, e).nm, id)
  {
  }

  /** A checkpoint that is gone stays gone, whatever the other calls do; ids are not used again. */
  lemma {:induction false} GoneStaysGone(p: Params, cfg0: Config, t: Trace, u: Trace, id: nat)
    requires Run(p, cfg0, u) && Extends(u, t) && Run(p, cfg0, t)
    requires id < After(p, cfg0, t).nm.nextId && !Holds(After(p, cfg0, t).nm, id)
    ensures id < After(p, cfg0, u).nm.nextId && !Holds(After(p, cfg0, u).nm, id)
  {
    if u != t {
      GoneStaysGone(p, cfg0, t, u.past, id);
      GoneStep(p, After(p, cfg0, u.past), u.event, id);
      hide Apply;
    }
  }

  /** Hence the second rollback after a failed verification changes nothing once the first took effect. */
  lemma {:induction false} SecondRollbackIsIdle(p: Params, cfg0: Config, t: Trace, u: Trace, c: CallId, first: Reply,
                                                second: Reply)
    requires Run(p, cfg0, Then(t, CheckpointRollback(c, first))) && After(p, cfg0, t).calls[c].pc.InnerRollback?
             && Effective(first)
    requires Extends(u, Then(t, CheckpointRollback(c, first))) && Run(p, cfg0, Then(u, CheckpointRollback(c, second)))
    requires c in After(p, cfg0, u).calls && After(p, cfg0, u).calls[c].pc.OuterRollback?
    ensures After(p, cfg0, Then(u, CheckpointRollback(c, second))).nm == After(p, cfg0, u).nm
  {
    RunHistory(p, cfg0, t, c);
    RunHistory(p, cfg0, u, c);
    var t' := Then(t, CheckpointRollback(c, first));
    var id := After(p, cfg0, t).calls[c].pc.cp;
    SameCheckpoint(p, cfg0, t', u, c, id);
    GoneStaysGone(p, cfg0, t', u, id);
  }

  /** A call keeps the checkpoint it was given. */
  lemma {:induction false} SameCheckpoint(p: Params, cfg0: Config, t: Trace, u: Trace, c: CallId, id: nat)
    requires Run(p, cfg0, u) && Extends(u, t) && Run(p, cfg0, t)
    requires c in After(p, cfg0, t).calls && HasCheckpoint(After(p, cfg0, t).calls[c].pc)
             && After(p, cfg0, t).calls[c].pc.cp == id
    ensures c in After(p, cfg0, u).calls
    ensures var pc := After(p, cfg0, u).calls[c].pc; pc.Ended? || (HasCheckpoint(pc) && pc.cp == id)
  {
    if u != t {
      SameCheckpoint(p, cfg0, t, u.past, c, id);
      var s := After(p, cfg0, u.past);
      CallsStay(p, s, u.event);
      HoldingStep(p, s, u.event, c);
      if s.calls[c].pc.Ended? {
        EndedStays(p, s, u.event, c);
      }
      hide Apply;
    }
  }

  // ------------------------------------------------------------ the timeout as backstop

  /**
   After `t`, nothing commits, creates a checkpoint, or changes the network without the lock or
   without a checkpoint.
   */
  predicate Undecided(p: Params, cfg0: Config, t: Trace, u: Trace)
    requires Run(p, cfg0, u)
  {
    u == t ||
    (u.Then? && Undecided(p, cfg0, t, u.past) &&
     var s := After(p, cfg0, u.past);
     !Commits(s, u.event) && !Creates(s, u.event) && !u.event.Unlocked? && !Exposes(s, u.event))
  }

  lemma {:induction false} UndecidedKeeps(p: Params, cfg0: Config, t: Trace, u: Trace)
    requires Run(p, cfg0, t) && Run(p, cfg0, u) && Undecided(p, cfg0, t, u)
    ensures Settled(p, cfg0, u) == Settled(p, cfg0, t)
    ensures var live := After(p, cfg0, u).nm.live; live.None? || live == After(p, cfg0, t).nm.live
  {
    if u != t {
      UndecidedKeeps(p, cfg0, t, u.past);
    }
  }

  lemma {:induction false} RunExpiry(p: Params, cfg0: Config, t: Trace)
    requires Run(p, cfg0, t)
    ensures var s := After(p, cfg0, t); s.nm.live.Some? ==> ExpiryOk(p, s.nm.live.value.expiry, s.clock)
  {
    if t.Then? {
      RunExpiry(p, cfg0, t.past);
      ExpiryStep(p, After(p, cfg0, t.past), t.event);
      hide Apply;
    }
  }

  /**
   Whatever failed, was cancelled or was left half-way, the previous configuration is back
   once the checkpoint timeout has passed, even if the daemon does nothing any more.
   */
  lemma {:induction false} TimeoutRestores(p: Params, cfg0: Config, t: Trace, u: Trace)
    requires Run(p, cfg0, t) && Run(p, cfg0, u) && Undecided(p, cfg0, t, u)
    requires 0 < p.checkpointTimeout && After(p, cfg0, u).clock > After(p, cfg0, t).clock + p.checkpointTimeout
    ensures After(p, cfg0, u).nm.live.None? && After(p, cfg0, u).nm.cfg == Settled(p, cfg0, t)
  {
    UndecidedKeeps(p, cfg0, t, u);
    RunExpiry(p, cfg0, t);
    RunExpiry(p, cfg0, u);
    RunSettled(p, cfg0, u);
  }
}
