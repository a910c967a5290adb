/**
 Why the verification loop loses no wakeup: the event is cleared before both property
 reads, and the subscriptions predate the loop (`_verify_activation`,
 src/appliance_admin/daemon/managers/network.py). NetworkManager changes its state and
 emits signals at any time; signals and replies travel in one ordered queue.
 */
module ActivationWakeups {
  import opened Wrappers

  datatype Query = AskDevice | AskActive

  datatype Message = Changed | DeviceReply(value: int) | ActiveReply(value: int)

  datatype Pc =
    | Top               // about to clear the event and read
    | ReadingDevice
    | ReadingActive
    | Checking          // both states read; addresses and connectivity may still be looked up
    | Waiting           // in `changed_event.wait()`

  datatype State = State(
    device: int, active: int,           // NetworkManager's own state
    query: Option<Query>,               // a request it has not answered yet
    queue: seq<Message>,                // on their way to the daemon
    event: bool, pc: Pc,
    seenDevice: int, seenActive: int)   // what the daemon read last

  datatype Event =
    | Change(device: int, active: int)
    | Serve
    | Deliver
    | Clear
    | Wait
    | Wake
    | TimeOut

  predicate Enabled(s: State, e: Event) {
    match e
    case Change(device, active) => device != s.device || active != s.active
    case Serve => s.query.Some?
    case Deliver => s.queue != []
    case Clear => s.pc.Top?
    case Wait => s.pc.Checking?
    case Wake => s.pc.Waiting? && s.event
    case TimeOut => s.pc.Waiting?
  }

  function Apply(s: State, e: Event): State
    requires Enabled(s, e)
  {
    match e
    case Change(device, active) => s.(device := device, active := active, queue := s.queue + [Changed])
    case Serve =>
      var reply := if s.query.value.AskDevice? then DeviceReply(s.device) else ActiveReply(s.active);
      s.(query := None, queue := s.queue + [reply])
    case Deliver =>
      var s' := s.(queue := s.queue[1..]);
      (match s.queue[0]
       case Changed => s'.(event := true)
       case DeviceReply(v) => s'.(seenDevice := v, pc := ReadingActive, query := Some(AskActive))
       case ActiveReply(v) => s'.(seenActive := v, pc := Checking))
    case Clear => s.(event := false, pc := ReadingDevice, query := Some(AskDevice))
    case Wait => s.(pc := Waiting)
    case Wake => s.(pc := Top)
    case TimeOut => s.(pc := Top)
  }

  datatype Trace = Init | Then(past: Trace, event: Event)

  /** The subscriptions are in place and the loop is about to start; the event may be in any state. */
  function Initial(device: int, active: int, event: bool): State {
    State(device, active, None, [], event, Top, 0, 0)
  }

  predicate Run(s0: State, t: Trace)
    decreases t, 0
  {
    t.Then? ==> Run(s0, t.past) && Enabled(After(s0, t.past), t.event)
  }

  function After(s0: State, t: Trace): State
    requires Run(s0, t)
    decreases t, 1
  {
    match t
    case Init => s0
    case Then(past, e) => Apply(After(s0, past), e)
  }

  /** The daemon will notice: the event is set, or a signal that sets it is on its way. */
  predicate Noticed(s: State) {
    s.event || Changed in s.queue
  }

  predicate DeviceCaptured(pc: Pc) {
    pc.ReadingActive? || pc.Checking? || pc.Waiting?
  }

  predicate ActiveCaptured(pc: Pc) {
    pc.Checking? || pc.Waiting?
  }

  /** Every value read since the event was cleared is current, or its being out of date is noticed. */
  predicate Current(s: State) {
    && (DeviceCaptured(s.pc) ==> s.seenDevice == s.device || Noticed(s))
    && (ActiveCaptured(s.pc) ==> s.seenActive == s.active || Noticed(s))
    && (forall m | m in s.queue ::
          && (m.DeviceReply? ==> s.pc.ReadingDevice? && s.query.None? && (m.value == s.device || Noticed(s)))
          && (m.ActiveReply? ==> s.pc.ReadingActive? && s.query.None? && (m.value == s.active || Noticed(s))))
    && (s.query.Some? ==> if s.query.value.AskDevice? then s.pc.ReadingDevice? else s.pc.ReadingActive?)
    && OneReply(s.queue)
  }

  /** At most one reply is on its way. */
  predicate OneReply(queue: seq<Message>) {
    forall i, j | 0 <= i < j < |queue| :: queue[i].Changed? || queue[j].Changed?
  }

  lemma {:induction false} ChangeKeeps(s: State, device: int, active: int)
    requires Current(s) && Enabled(s, Change(device, active))
    ensures Current(Apply(s, Change(device, active)))
  {
    var s' := Apply(s, Change(device, active));
    assert s'.queue[|s.queue|] == Changed;
    assert forall m | m in s'.queue :: m in s.queue || m == Changed;
  }

  lemma {:induction false} ServeKeeps(s: State)
    requires Current(s) && Enabled(s, Serve)
    ensures Current(Apply(s, Serve))
  {
    var s' := Apply(s, Serve);
    assert forall m | m in s.queue :: m.Changed?;
    assert forall m | m in s'.queue :: m in s.queue || m == s'.queue[|s.queue|];
    assert Changed in s.queue ==> Changed in s'.queue;
  }

  lemma {:induction false} DeliverKeeps(s: State)
    requires Current(s) && Enabled(s, Deliver)
    ensures Current(Apply(s, Deliver))
  {
    var s' := Apply(s, Deliver);
    var head := s.queue[0];
    assert s.queue == [head] + s'.queue && head in s.queue;
    assert forall m :: m in s.queue <==> m == head || m in s'.queue;
    if !head.Changed? {
      forall m | m in s'.queue ensures m.Changed? {
        var j :| 0 <= j < |s'.queue| && s'.queue[j] == m;
        assert s.queue[j + 1] == m;
      }
    }
  }

  lemma {:induction false} CurrentStep(s: State, e: Event)
    requires Current(s) && Enabled(s, e)
    ensures Current(Apply(s, e))
  {
    match e
    case Change(device, active) => ChangeKeeps(s, device, active);
    case Serve => ServeKeeps(s);
    case Deliver => DeliverKeeps(s);
    case _ =>
  }

  lemma {:induction false} RunCurrent(device: int, active: int, event: bool, t: Trace)
    requires Run(Initial(device, active, event), t)
    ensures Current(After(Initial(device, active, event), t))
  {
    if t.Then? {
      RunCurrent(device, active, event, t.past);
      CurrentStep(After(Initial(device, active, event), t.past), t.event);
    }
  }

  /**
   No wakeup is lost: while the loop waits with the event clear and no signal on its way, the two
   states it read are NetworkManager's state now, both at once.
   */
  lemma {:induction false} NoLostWakeup(device: int, active: int, event: bool, t: Trace)
    requires Run(Initial(device, active, event), t)
    ensures var s := After(Initial(device, active, event), t);
            s.pc.Waiting? && !s.event && Changed !in s.queue ==> s.seenDevice == s.device && s.seenActive == s.active
  {
    RunCurrent(device, active, event, t);
  }

  /** A signal has arrived since the event was last cleared; it may have been set before the loop began. */
  predicate SignalledSinceClear(s0: State, t: Trace)
    requires Run(s0, t)
  {
    match t
    case Init => s0.event
    case Then(past, e) =>
      !e.Clear? && (SignalledSinceClear(s0, past) || (e.Deliver? && After(s0, past).queue[0].Changed?))
  }

  /** The event says exactly that: no iteration is started by a signal from before the last clear. */
  lemma {:induction false} EventExact(s0: State, t: Trace)
    requires Run(s0, t)
    ensures After(s0, t).event <==> SignalledSinceClear(s0, t)
  {
    if t.Then? {
      EventExact(s0, t.past);
    }
  }

  /** Handing the daemon everything on its way. */
  function Drain(s: State): State
    decreases |s.queue|
  {
    if s.queue == [] then s else Drain(Apply(s, Deliver))
  }

  /** And a change during the wait ends it: once what is on its way has arrived, the event is set. */
  lemma {:induction false} ChangeWakes(device: int, active: int, event: bool, t: Trace)
    requires Run(Initial(device, active, event), t)
    requires var s := After(Initial(device, active, event), t);
             s.pc.Waiting? && (s.seenDevice != s.device || s.seenActive != s.active)
    ensures var s' := Drain(After(Initial(device, active, event), t));
            s'.pc.Waiting? && Enabled(s', Wake) && Apply(s', Wake).pc.Top?
  {
    RunCurrent(device, active, event, t);
    DrainSets(After(Initial(device, active, event), t));
  }

  lemma {:induction false} DrainSets(s: State)
    requires s.pc.Waiting? && Noticed(s) && forall m | m in s.queue :: m.Changed?
    ensures Drain(s).pc.Waiting? && Drain(s).event
    decreases |s.queue|
  {
    if s.queue != [] {
      var s' := Apply(s, Deliver);
      assert s.queue[0] in s.queue;
      assert forall m | m in s'.queue :: m in s.queue;
      DrainSets(s');
    }
  }
}
