/**
 The verification loop of a transaction: `_verify_activation`
 (src/appliance_admin/daemon/managers/network.py). Time is in milliseconds of the event
 loop's clock. What NetworkManager answers in each iteration, how long that takes and
 whether a property-change signal arrives are parameters.
 */
module Activation {
  import opened Wrappers

  const DEVICE_STATE_ACTIVATED := 100
  const DEVICE_STATE_FAILED := 120
  const ACTIVE_STATE_ACTIVATED := 2
  const ACTIVE_STATE_DEACTIVATED := 4

  /** `_ip4_details`, as far as the verification looks at it. */
  datatype Ip4 = Ip4(addresses: seq<string>, gateway: string, dns: seq<string>)

  /**
   One iteration as the environment plays it. `None` is a D-Bus call that failed; `readTime` is
   the time the calls took; `signalled` whether a signal has set, or will set, the event, and
   `waited` how long that takes; `lateness` how late the wait's timeout fires.
   */
  datatype Observation = Observation(
    device: Option<int>, active: Option<int>, ip4: Option<Ip4>, connectivity: Option<int>,
    readTime: nat, signalled: bool, waited: nat, lateness: nat)

  datatype Verdict =
    | Usable(connectivity: int, ip4: Ip4)
    | Rejected            // NetworkActivationError on what was read
    | TimedOut            // NetworkActivationError after the deadline
    | BackendLost         // NetworkBackendUnavailableError

  predicate Activated(o: Observation) {
    o.device == Some(DEVICE_STATE_ACTIVATED) && o.active == Some(ACTIVE_STATE_ACTIVATED)
  }

  predicate Configured(o: Observation) {
    Activated(o) && o.ip4.Some? && o.ip4.value.addresses != [] && o.ip4.value.gateway != "" && o.ip4.value.dns != []
  }

  /** Everything is in place; an unknown connectivity (0) is not held against the network. */
  predicate Accepts(o: Observation) {
    Configured(o) && o.connectivity.Some? && o.connectivity.value !in {1, 2, 3}
  }

  predicate Rejects(o: Observation) {
    || (o.device.Some? && o.active.Some? && (o.device.value == DEVICE_STATE_FAILED
                                             || o.active.value == ACTIVE_STATE_DEACTIVATED))
    || (Configured(o) && o.connectivity.Some? && o.connectivity.value in {1, 2, 3})
  }

  /** A call the iteration depends on failed. */
  predicate Breaks(o: Observation) {
    || o.device.None?
    || o.active.None?
    || (Activated(o) && o.ip4.None?)
    || (Configured(o) && o.connectivity.None?)
  }

  predicate Inconclusive(o: Observation) {
    !Accepts(o) && !Rejects(o) && !Breaks(o)
  }

  /** Whole seconds needed to cover `ms` milliseconds. */
  function CeilSeconds(ms: nat): nat {
    (ms + 999) / 1000
  }

  lemma {:induction false} OneMoreSecond(seconds: nat, ms: nat)
    ensures 1000 * seconds < ms <==> seconds < CeilSeconds(ms)
  {
  }

  function Min(a: int, b: int): int {
    if a <= b then a else b
  }

  /** What the calls and the late timeouts of the first `n` iterations add to the waits. */
  function Delays(obs: nat -> Observation, n: nat): nat {
    if n == 0 then 0 else Delays(obs, n - 1) + obs(n - 1).readTime + obs(n - 1).lateness
  }

  /** One look at the connection: `None` when there is nothing to conclude yet. */
  method Examine(o: Observation) returns (v: Option<Verdict>)
    ensures v.None? <==> Inconclusive(o)
    ensures v.Some? ==> Justified(o, v.value)
  {
    if o.device.None? || o.active.None? {
      return Some(BackendLost);
    }
    if o.device.value == DEVICE_STATE_FAILED || o.active.value == ACTIVE_STATE_DEACTIVATED {
      return Some(Rejected);
    }
    if o.device.value == DEVICE_STATE_ACTIVATED && o.active.value == ACTIVE_STATE_ACTIVATED {
      if o.ip4.None? {
        return Some(BackendLost);
      }
      var ip4 := o.ip4.value;
      if ip4.addresses != [] && ip4.gateway != "" && ip4.dns != [] {
        if o.connectivity.None? {
          return Some(BackendLost);
        }
        if o.connectivity.value in {1, 2, 3} {
          return Some(Rejected);
        }
        return Some(Usable(o.connectivity.value, ip4));
      }
    }
    return None;
  }

  /** What was read bears the verdict out. */
  predicate Justified(o: Observation, v: Verdict) {
    match v
    case Usable(connectivity, ip4) => Accepts(o) && o.connectivity == Some(connectivity) && o.ip4 == Some(ip4)
    case Rejected => Rejects(o) && !Breaks(o)
    case BackendLost => Breaks(o) && !Rejects(o)
    case TimedOut => false
  }

  /** What a look is worth, in NetworkManager's numbers. */
  lemma {:induction false} LookExact(o: Observation, connectivity: int, ip4: Ip4)
    ensures Justified(o, Usable(connectivity, ip4)) <==>
            && o.device == Some(100) && o.active == Some(2)
            && o.ip4 == Some(ip4) && ip4.addresses != [] && ip4.gateway != "" && ip4.dns != []
            && o.connectivity == Some(connectivity) && connectivity != 1 && connectivity != 2 && connectivity != 3
    ensures Inconclusive(o) <==>
            && o.device.Some? && o.active.Some? && o.device.value != 120 && o.active.value != 4
            && (o.device.value == 100 && o.active.value == 2 ==>
                  o.ip4.Some? && (o.ip4.value.addresses == [] || o.ip4.value.gateway == "" || o.ip4.value.dns == []))
    ensures Justified(o, Rejected) <==>
            && o.device.Some? && o.active.Some?
            && (|| o.device.value == 120 || o.active.value == 4
                || (&& o.device.value == 100 && o.active.value == 2
                    && o.ip4.Some? && o.ip4.value.addresses != [] && o.ip4.value.gateway != "" && o.ip4.value.dns != []
                    && o.connectivity.Some? && 1 <= o.connectivity.value <= 3))
  {
  }

  /** How many signals the first `n` iterations have consumed. */
  function Consumed(obs: nat -> Observation, signals: nat, n: nat): nat {
    if n == 0 then 0
    else
      var before := Consumed(obs, signals, n - 1);
      before + if obs(n - 1).signalled && before < signals then 1 else 0
  }

  /**
   The most that the first `n` iterations take: the reads, and for each the time until the signal it
   consumes, or else a second and the lateness of its timeout.
   */
  function Spent(obs: nat -> Observation, signals: nat, n: nat): nat {
    if n == 0 then 0
    else
      var o := obs(n - 1);
      Spent(obs, signals, n - 1) + o.readTime
      + if o.signalled && Consumed(obs, signals, n - 1) < signals then o.waited else 1000 + o.lateness
  }

  lemma {:induction false} NothingSpent(obs: nat -> Observation, signals: nat)
    ensures Delays(obs, 0) == Consumed(obs, signals, 0) == Spent(obs, signals, 0) == 0
  {
  }

  lemma {:induction false} MoreSpent(obs: nat -> Observation, signals: nat, n: nat)
    ensures var o, woken := obs(n), obs(n).signalled && Consumed(obs, signals, n) < signals;
            && Delays(obs, n + 1) == Delays(obs, n) + o.readTime + o.lateness
            && Consumed(obs, signals, n + 1) == Consumed(obs, signals, n) + (if woken then 1 else 0)
            && Spent(obs, signals, n + 1)
               == Spent(obs, signals, n) + o.readTime + (if woken then o.waited else 1000 + o.lateness)
  {
  }

  /** Waiting for the event, for a second at most and not past the deadline. */
  method Wait(now: int, deadline: int, o: Observation, woken: bool) returns (later: int)
    ensures now <= later <= now + 1000 + o.lateness
    ensures later <= (if deadline >= now then deadline else now) + o.lateness
    ensures !woken ==> later >= Min(deadline, now + 1000)
    ensures woken ==> later <= now + o.waited
  {
    var timeout := Min(1000, deadline - now);
    var wait := if timeout > 0 then timeout else 0;
    return if woken then now + Min(o.waited, wait) else now + wait + o.lateness;
  }

  /**
   `found` says whether the two interface look-ups before the loop succeed, and `lookup` how long
   they take; `signals` bounds the signals that arrive during the call. The verdict is that of the
   first conclusive iteration, or a timeout if there is none before the deadline; an iteration that
   does not consume a signal advances the clock by a second or to the deadline, which bounds
   their number `n`. No wait lasts longer than a second or goes past the deadline, so the call
   ends at the latest when the calls begun before the deadline are back. A signal cuts the wait
   short: there is no timeout as long as the waits for the signals, with a second for each of the
   others, leave room for another look.
   */
  method VerifyActivation(start: int, activationTimeout: nat, found: bool, lookup: nat, obs: nat -> Observation,
                          signals: nat)
    returns (v: Verdict, n: nat, now: int, subscribed: bool)
    ensures !found ==> v.BackendLost? && n == 0
    ensures forall i | 0 <= i < n - 1 :: Inconclusive(obs(i))
    ensures found && !v.TimedOut? ==> n > 0 && Justified(obs(n - 1), v)
    ensures v.TimedOut? ==> now >= start + activationTimeout && (n > 0 ==> Inconclusive(obs(n - 1)))
    ensures n <= signals + CeilSeconds(activationTimeout)
    ensures start + lookup <= now <= start + lookup + 1000 * n + Delays(obs, n)
    ensures n > 0 ==> now <= start + activationTimeout + obs(n - 1).readTime + obs(n - 1).lateness
    ensures v.TimedOut? ==> activationTimeout <= lookup + Spent(obs, signals, n)
    ensures found && !v.TimedOut? ==> now <= start + lookup + Spent(obs, signals, n - 1) + obs(n - 1).readTime
    ensures !subscribed
  {
    hide Inconclusive, Justified, CeilSeconds, Delays, Spent, Consumed;
    NothingSpent(obs, signals);
    var deadline := start + activationTimeout;
    n, now, subscribed := 0, start + lookup, false;
    if !found {
      return BackendLost, n, now, subscribed;
    }
    subscribed := true;
    var left := signals;
    ghost var expired := 0;  // waits that ran into their timeout
    while now < deadline
      invariant n == (signals - left) + expired && 0 <= left <= signals
      invariant start + lookup <= now <= start + lookup + 1000 * n + Delays(obs, n)
      invariant signals - left == Consumed(obs, signals, n)
      invariant now <= start + lookup + Spent(obs, signals, n)
      invariant Min(deadline, start + 1000 * expired) <= now
      invariant n > 0 ==> now <= deadline + obs(n - 1).readTime + obs(n - 1).lateness
      invariant expired <= CeilSeconds(activationTimeout)
      invariant forall i | 0 <= i < n :: Inconclusive(obs(i))
      decreases left, deadline - now
    {
      OneMoreSecond(expired, activationTimeout);
      MoreSpent(obs, signals, n);
      var o := obs(n);
      n := n + 1;
      now := now + o.readTime;
      var verdict := Examine(o);
      if verdict.Some? {
        return verdict.value, n, now, false;
      }
      if o.signalled && left > 0 {
        left := left - 1;
        now := Wait(now, deadline, o, true);
      } else {
        expired := expired + 1;
        now := Wait(now, deadline, o, false);
      }
    }
    return TimedOut, n, now, false;
  }
}
