/**
 The hostname transaction: `hostname_set`, `_restore_hostname` and `_wait_for_avahi_hostname`
 (src/appliance_admin/daemon/managers/system.py).

 `Host` is the machine the commands act on. A `script`, which is arbitrary, decides how each
 command goes: whether it succeeds, fails or times out, with or without having taken effect,
 how long it takes, and what Avahi makes of its own name meanwhile. Time is in milliseconds.
 Calls do not overlap, and nothing but the commands changes the Linux name; Avahi's name moves
 only while Avahi is being renamed or watched.
 */
module HostnameTransaction {
  import opened Wrappers
  import opened Hostnames

  const AVAHI_RUNNING := 2
  const COMMAND_TIMEOUT := 10000
  const READ_TIMEOUT := 2000
  const AVAHI_CALL_TIMEOUT := 2000
  const AVAHI_WAIT := 4000
  const POLL_INTERVAL := 100

  datatype Command =
    | ReadHostname                 // hostname
    | SetLinux(name: string)       // hostnamectl set-hostname
    | SetAvahi(name: string)       // avahi-set-host-name
    | GetState                     // busctl call ... GetState
    | GetFqdn                      // busctl call ... GetHostNameFqdn

  /** `Raised` is any exception the callers do not catch, cancellation included. */
  datatype Reply =
    | Text(line: string)
    | ServerState(state: Option<int>)   // `None`: the reply does not parse
    | NotFoundError
    | TimeoutError
    | Raised

  datatype Entry = Entry(command: Command, reply: Reply)

  datatype Fate = Succeeds | Fails | Hangs | Raises

  /** How one command goes. */
  datatype Turn = Turn(fate: Fate, effect: bool, duration: nat, readable: bool, running: bool, fqdn: string)

  /** The commands that change something, in order. */
  function Writes(log: seq<Entry>): seq<Command> {
    if log == [] then []
    else
      var n := |log| - 1;
      var c := log[n].command;
      if c.SetLinux? || c.SetAvahi? then Writes(log[..n]) + [c] else Writes(log[..n])
  }

  lemma {:induction false} WritesSnoc(log: seq<Entry>, e: Entry)
    ensures Writes(log + [e]) == if e.command.SetLinux? || e.command.SetAvahi? then Writes(log) + [e.command]
            else Writes(log)
  {
    assert (log + [e])[..|log|] == log;
  }

  /** How many commands have timed out. */
  function Timeouts(log: seq<Entry>): nat {
    if log == [] then 0
    else
      var n := |log| - 1;
      Timeouts(log[..n]) + if log[n].reply.TimeoutError? then 1 else 0
  }

  lemma {:induction false} TimeoutsSnoc(log: seq<Entry>, e: Entry)
    ensures Timeouts(log + [e]) == Timeouts(log) + if e.reply.TimeoutError? then 1 else 0
  {
    assert (log + [e])[..|log|] == log;
  }

  function AvahiName(fqdn: string): string {
    Lower(StripDots(fqdn))
  }

  /** The last thing done was to see Avahi running and then to read `name` off it. */
  predicate Observed(log: seq<Entry>, name: string) {
    && |log| >= 2
    && log[|log| - 2] == Entry(GetState, ServerState(Some(AVAHI_RUNNING)))
    && log[|log| - 1].command == GetFqdn
    && log[|log| - 1].reply.Text?
    && ParseFqdn(log[|log| - 1].reply.line) == Some(name)
  }

  /** The name an entry reads off Avahi, if it does. */
  function NameIn(e: Entry): Option<string> {
    if e.command.GetFqdn? && e.reply.Text? then ParseFqdn(e.reply.line) else None
  }

  predicate Writing(c: Command) {
    c.SetLinux? || c.SetAvahi?
  }

  /** From entry `from` on, nothing was changed, no name was read, and nothing was raised. */
  predicate Fruitless(log: seq<Entry>, from: nat) {
    forall i | from <= i < |log| :: NameIn(log[i]).None? && !Writing(log[i].command) && !log[i].reply.Raised?
  }

  /** The first name read off Avahi from entry `from` on, before anything else is changed, is `name`. */
  predicate Published(log: seq<Entry>, from: nat, name: string) {
    exists i :: from <= i < |log| && NameIn(log[i]) == Some(name) && Fruitless(log[..i], from)
  }

  /** A command has raised what nobody catches. */
  predicate RaisedSince(log: seq<Entry>, from: nat) {
    exists i :: from <= i < |log| && log[i].reply.Raised?
  }

  lemma {:induction false} FruitlessSnoc(log: seq<Entry>, from: nat, e: Entry)
    requires Fruitless(log, from) && from <= |log| && !Writing(e.command)
    ensures NameIn(e).None? && !e.reply.Raised? ==> Fruitless(log + [e], from)
    ensures RaisedSince(log + [e], from) <==> e.reply.Raised?
    ensures forall name :: Published(log + [e], from, name) <==> NameIn(e) == Some(name)
  {
    var longer := log + [e];
    assert longer[..|log|] == log && longer[|log|] == e;
    assert forall i | 0 <= i < |log| :: longer[i] == log[i];
  }

  lemma {:induction false} FruitlessHas(log: seq<Entry>, from: nat)
    requires Fruitless(log, from)
    ensures !RaisedSince(log, from)
    ensures forall name :: !Published(log, from, name)
  {
  }

  /** What happened in two stretches of the log. */
  lemma {:induction false} RaisedSplit(before: seq<Entry>, log: seq<Entry>, from: nat)
    requires before <= log && from <= |before|
    ensures RaisedSince(log, from) <==> RaisedSince(before, from) || RaisedSince(log, |before|)
  {
    assert forall i | 0 <= i < |before| :: before[i] == log[i];
  }

  lemma {:induction false} WriteEnds(log: seq<Entry>, from: nat, at: nat)
    requires from <= at < |log| && Writing(log[at].command)
    ensures forall i | at < i <= |log| :: !Fruitless(log[..i], from)
  {
    forall i | at < i <= |log| ensures !Fruitless(log[..i], from) {
      assert log[..i][at] == log[at];
    }
  }

  /** A change puts an end to looking for a name. */
  lemma {:induction false} PublishedBefore(before: seq<Entry>, log: seq<Entry>, from: nat, name: string)
    requires before <= log && from <= |before| && (|before| < |log| ==> Writing(log[|before|].command))
    ensures Published(log, from, name) <==> Published(before, from, name)
  {
    if |before| < |log| {
      WriteEnds(log, from, |before|);
    }
    assert forall i | 0 <= i < |before| :: before[i] == log[i] && before[..i] == log[..i];
  }

  /** Command `i` is played by turn `i` of the script, and raises what nobody catches exactly if the turn says so. */
  predicate Recorded(script: nat -> Turn, log: seq<Entry>) {
    forall i | 0 <= i < |log| :: log[i].reply.Raised? <==> script(i).fate.Raises?
  }

  lemma {:induction false} RecordedSnoc(script: nat -> Turn, log: seq<Entry>, e: Entry)
    requires Recorded(script, log) && (e.reply.Raised? <==> script(|log|).fate.Raises?)
    ensures Recorded(script, log + [e])
  {
  }

  class Host {
    const script: nat -> Turn
    var at: nat
    var clock: int
    var linux: string
    var running: bool
    var fqdn: string
    var log: seq<Entry>

    constructor (script: nat -> Turn, clock: int, linux: string, running: bool, fqdn: string)
      requires Plain(fqdn)
      ensures this.script == script && this.clock == clock && this.linux == linux && this.running == running
              && this.fqdn == fqdn
      ensures log == [] && Valid()
    {
      this.script, this.clock, this.linux, this.running, this.fqdn := script, clock, linux, running, fqdn;
      at, log := 0, [];
    }

    /** Avahi's names contain nothing busctl would have to escape; the log is what the script has played. */
    predicate Valid()
      reads this
    {
      Plain(fqdn) && at == |log| && Recorded(script, log)
    }

    /** `_run_command`: at most `timeout` long; killing a command that hangs takes no time. */
    method Run(c: Command, timeout: nat) returns (r: Reply)
      requires Valid()
      modifies this
      ensures Valid() && log == old(log) + [Entry(c, r)]
      ensures Writes(log) == if c.SetLinux? || c.SetAvahi? then Writes(old(log)) + [c] else Writes(old(log))
      ensures old(clock) <= clock <= old(clock) + timeout && (r.TimeoutError? ==> clock == old(clock) + timeout)
      ensures if c.SetLinux? then linux in {old(linux), c.name} && (r.Text? ==> linux == c.name)
              else linux == old(linux)
      ensures Timeouts(log) == Timeouts(old(log)) + if r.TimeoutError? then 1 else 0
      ensures c.ReadHostname? || c.SetLinux? ==> fqdn == old(fqdn) && running == old(running)
      ensures Truthful(c, r, linux, running, fqdn)
    {
      hide Answer, Truthful, Recorded, Writes, Timeouts;
      var turn := script(at);
      at := at + 1;
      clock := clock + if turn.fate.Hangs? || turn.duration > timeout then timeout else turn.duration;
      if c.SetLinux? && (turn.fate.Succeeds? || turn.effect) {
        linux := c.name;
      }
      if c.SetAvahi? || c.GetState? || c.GetFqdn? {
        running := turn.running;
        if Plain(turn.fqdn) {
          fqdn := turn.fqdn;
        }
      }
      r := Answer(turn, c, linux, running, fqdn);
      AnswerTruthful(turn, c, linux, running, fqdn);
      WritesSnoc(log, Entry(c, r));
      RecordedSnoc(script, log, Entry(c, r));
      TimeoutsSnoc(log, Entry(c, r));
      log := log + [Entry(c, r)];
    }
  }

  /** A reply, if there is one, tells the truth about the host, or cannot be read. */
  predicate Truthful(c: Command, r: Reply, linux: string, running: bool, fqdn: string) {
    && (r.Text? ==> !c.GetState?)
    && (r.ServerState? ==> c.GetState?)
    && (c.ReadHostname? && r.Text? ==> r.line == linux)
    && (r == ServerState(Some(AVAHI_RUNNING)) ==> running)
    && (c.GetFqdn? && r.Text? && ParseFqdn(r.line).Some? ==> ParseFqdn(r.line).value == AvahiName(fqdn))
  }

  function Answer(turn: Turn, c: Command, linux: string, running: bool, fqdn: string): Reply {
    match turn.fate
    case Fails => NotFoundError
    case Hangs => TimeoutError
    case Raises => Raised
    case Succeeds =>
      match c
      case ReadHostname => Text(linux)
      case GetState => ServerState(if !turn.readable then None else Some(if running then AVAHI_RUNNING else 1))
      case GetFqdn => Text(if turn.readable then BusctlString(fqdn) else "")
      case SetLinux(_) | SetAvahi(_) => Text("")
  }

  lemma {:induction false} AnswerTruthful(turn: Turn, c: Command, linux: string, running: bool, fqdn: string)
    requires Plain(fqdn)
    ensures Truthful(c, Answer(turn, c, linux, running, fqdn), linux, running, fqdn)
    ensures Answer(turn, c, linux, running, fqdn).Raised? <==> turn.fate.Raises?
    ensures Answer(turn, c, linux, running, fqdn).TimeoutError? <==> turn.fate.Hangs?
    ensures c.SetLinux? && Answer(turn, c, linux, running, fqdn).Text? ==> turn.fate.Succeeds?
  {
    ParseBusctl(fqdn);
    assert ParseFqdn("").None?;
  }

  datatype WaitResult = Registered(name: string) | GaveUp | WaitInterrupted

  /** `_wait_for_avahi_hostname`; `polls` counts the GetState calls. */
  method WaitForAvahi(host: Host) returns (r: WaitResult, polls: nat)
    requires host.Valid()
    modifies host
    ensures host.Valid() && host.linux == old(host.linux)
    ensures Writes(host.log) == Writes(old(host.log)) && old(host.log) <= host.log
    ensures r.WaitInterrupted? <==> RaisedSince(host.log, |old(host.log)|)
    ensures forall name :: Published(host.log, |old(host.log)|, name) <==> r == Registered(name)
    ensures r.Registered? ==> r.name == AvahiName(host.fqdn) && Observed(host.log, r.name)
    ensures r.Registered? ==> 2 <= |host.log| && host.log[|host.log| - 2] == Entry(GetState, ServerState(Some(2)))
    ensures r.GaveUp? ==> host.clock >= old(host.clock) + 4000
    ensures polls <= 41
    ensures old(host.clock) <= host.clock <= old(host.clock) + 8100
    ensures host.clock - old(host.clock) >= 2000 * (Timeouts(host.log) - Timeouts(old(host.log)))
  {
    hide Timeouts, Published, RaisedSince, Fruitless, ParseFqdn, Plain, Recorded, Observed;
    var deadline := host.clock + AVAHI_WAIT;
    ghost var from := |host.log|;
    NothingYet(host.log);
    polls := 0;
    while true
      invariant host.Valid() && host.linux == old(host.linux)
      invariant Writes(host.log) == Writes(old(host.log)) && old(host.log) <= host.log && Fruitless(host.log, from)
      invariant old(host.clock) + polls * POLL_INTERVAL <= host.clock
      invariant host.clock - old(host.clock) >= 2000 * (Timeouts(host.log) - Timeouts(old(host.log)))
      invariant host.clock < deadline + POLL_INTERVAL
      decreases deadline + POLL_INTERVAL - host.clock
    {
      polls := polls + 1;
      ghost var before := host.log;
      var state := host.Run(GetState, AVAHI_CALL_TIMEOUT);
      FruitlessSnoc(before, from, Entry(GetState, state));
      if state.Raised? {
        return WaitInterrupted, polls;
      }
      if state == ServerState(Some(AVAHI_RUNNING)) {
        ghost var asked := host.log;
        var reply := host.Run(GetFqdn, AVAHI_CALL_TIMEOUT);
        FruitlessSnoc(asked, from, Entry(GetFqdn, reply));
        if reply.Raised? {
          return WaitInterrupted, polls;
        }
        if reply.Text? && ParseFqdn(reply.line).Some? {
          SeenRunning(before, reply);
          return Registered(ParseFqdn(reply.line).value), polls;
        }
      }
      if host.clock >= deadline {
        FruitlessHas(host.log, from);
        return GaveUp, polls;
      }
      host.clock := host.clock + POLL_INTERVAL;
    }
  }

  lemma {:induction false} NothingYet(log: seq<Entry>)
    ensures Fruitless(log, |log|)
  {
  }

  /** Running, then named. */
  lemma {:induction false} SeenRunning(log: seq<Entry>, reply: Reply)
    requires reply.Text? && ParseFqdn(reply.line).Some?
    ensures Observed(log + [Entry(GetState, ServerState(Some(AVAHI_RUNNING)))] + [Entry(GetFqdn, reply)],
                     ParseFqdn(reply.line).value)
  {
  }

  /** Entry `at` asks Avahi to take `name`, succeeds, and `name`.local is the first thing then read off Avahi. */
  predicate Advertised(log: seq<Entry>, at: nat, name: string) {
    at < |log| && log[at] == Entry(SetAvahi(name), log[at].reply) && log[at].reply.Text?
      && Published(log, at + 1, name + ".local")
  }

  /** What both directions do about Avahi; `None` when something is raised. */
  method PublishName(host: Host, name: string) returns (r: Option<bool>)
    requires host.Valid()
    modifies host
    ensures host.Valid() && host.linux == old(host.linux)
    ensures Writes(host.log) == Writes(old(host.log)) + [SetAvahi(name)] && old(host.log) <= host.log
    ensures |old(host.log)| < |host.log| && host.log[|old(host.log)|].command == SetAvahi(name)
    ensures r.None? <==> RaisedSince(host.log, |old(host.log)|)
    ensures r.Some? ==> (r.value <==> Advertised(host.log, |old(host.log)|, name))
    ensures host.log[|old(host.log)|].reply.TimeoutError? ==> host.clock >= old(host.clock) + 10000
    ensures r == Some(true) ==> AvahiName(host.fqdn) == name + ".local" && Observed(host.log, name + ".local")
    ensures old(host.clock) <= host.clock <= old(host.clock) + 18100
  {
    hide Timeouts, Writes, Observed, Plain, Recorded, Published, RaisedSince, Fruitless, AvahiName;
    ghost var from := |host.log|;
    NothingYet(host.log);
    ghost var before := host.log;
    var avahi := host.Run(SetAvahi(name), COMMAND_TIMEOUT);
    ghost var sent := host.log;
    RaisedOnce(before, Entry(SetAvahi(name), avahi));
    if avahi.Raised? {
      return None;
    }
    if !avahi.Text? {
      return Some(false);
    }
    var published, _ := WaitForAvahi(host);
    RaisedSplit(sent, host.log, from);
    if published.WaitInterrupted? {
      return None;
    }
    return Some(published == Registered(name + ".local"));
  }

  lemma {:induction false} RaisedOnce(log: seq<Entry>, e: Entry)
    ensures RaisedSince(log + [e], |log|) <==> e.reply.Raised?
  {
    assert (log + [e])[|log|] == e;
  }

  datatype RollbackError = LinuxRollbackFailed | MdnsRollbackFailed

  datatype Restored = Restored(errors: seq<RollbackError>) | RestoreInterrupted

  /** From entry `from` on the log shows a rollback to `hostname` with these errors. */
  predicate RestoredAs(log: seq<Entry>, from: nat, hostname: string, errors: seq<RollbackError>) {
    && from + 1 < |log|
    && log[from].command == SetLinux(hostname) && log[from + 1].command == SetAvahi(hostname)
    && errors == (if log[from].reply.Text? then [] else [LinuxRollbackFailed])
                 + (if Advertised(log, from + 1, hostname) then [] else [MdnsRollbackFailed])
  }

  /** `_restore_hostname`. The Avahi rollback is attempted whether or not the Linux rollback failed. */
  method RestoreHostname(host: Host, hostname: string) returns (r: Restored, ghost writes: seq<Command>)
    requires host.Valid()
    modifies host
    ensures host.Valid() && host.linux in {old(host.linux), hostname}
    ensures Writes(host.log) == Writes(old(host.log)) + writes && old(host.log) <= host.log
    ensures |old(host.log)| < |host.log| && host.log[|old(host.log)|].command == SetLinux(hostname)
    ensures r.RestoreInterrupted? <==> RaisedSince(host.log, |old(host.log)|)
    ensures host.log[|old(host.log)|].reply.TimeoutError? ==> host.clock >= old(host.clock) + 10000
    ensures r.Restored? ==> RestoredAs(host.log, |old(host.log)|, hostname, r.errors)
    ensures if r.Restored? then writes == [SetLinux(hostname), SetAvahi(hostname)]
            else writes == [SetLinux(hostname)] || writes == [SetLinux(hostname), SetAvahi(hostname)]
    ensures r.Restored? && LinuxRollbackFailed !in r.errors ==> host.linux == hostname
    ensures r.Restored? && MdnsRollbackFailed !in r.errors ==>
              AvahiName(host.fqdn) == hostname + ".local" && Observed(host.log, hostname + ".local")
    ensures old(host.clock) <= host.clock <= old(host.clock) + 28100
  {
    hide Timeouts, Writes, Observed, Plain, Recorded, Advertised, Published, RaisedSince, Fruitless, AvahiName;
    var rollbackErrors: seq<RollbackError> := [];
    ghost var before := host.log;
    var linux := host.Run(SetLinux(hostname), COMMAND_TIMEOUT);
    writes := [SetLinux(hostname)];
    ghost var sent := host.log;
    RaisedOnce(before, Entry(SetLinux(hostname), linux));
    if linux.Raised? {
      return RestoreInterrupted, writes;
    }
    if !linux.Text? {
      rollbackErrors := rollbackErrors + [LinuxRollbackFailed];
    }
    var published := PublishName(host, hostname);
    writes := writes + [SetAvahi(hostname)];
    RaisedSplit(sent, host.log, |before|);
    if published.None? {
      return RestoreInterrupted, writes;
    }
    if !published.value {
      rollbackErrors := rollbackErrors + [MdnsRollbackFailed];
    }
    return Restored(rollbackErrors), writes;
  }

  datatype Outcome =
    | InvalidRequest
    | Unreadable                                 // the current name could not be read
    | Accepted(hostname: string)
    | LinuxFailed(errors: seq<RollbackError>)    // "Failed to set Linux hostname: ..."
    | MdnsFailed(errors: seq<RollbackError>)     // "Failed to publish the requested hostname: ..."
    | Interrupted                                // an exception nobody catches, such as the server's cancellation

  /** The error message says that the original hostname was restored. */
  predicate SaysRestored(o: Outcome) {
    (o.LinuxFailed? || o.MdnsFailed?) && o.errors == []
  }

  /** Nothing was attempted, or nothing was changed for good. */
  predicate Untouched(o: Outcome) {
    o.InvalidRequest? || o.Unreadable?
  }

  /** The two names a host goes by. */
  datatype Names = Names(linux: string, avahi: string)

  function NamesOf(host: Host): Names
    reads host
  {
    Names(Lower(host.linux), AvahiName(host.fqdn))
  }

  /** Avahi's FQDN is the Linux name plus ".local", letter case aside. */
  predicate Agree(n: Names) {
    n.avahi == n.linux + ".local"
  }

  /** What a call that is not interrupted promises about the two names. */
  predicate Transacted(before: Names, request: string, o: Outcome, after: Names) {
    && (o.InvalidRequest? <==> !ValidHostname(request))
    && (Untouched(o) ==> after == before)
    && (o.Accepted? ==> o.hostname == Lower(request) && after == Names(Lower(request), Lower(request) + ".local"))
    && (SaysRestored(o) ==> after == Names(before.linux, before.linux + ".local"))
  }

  /** The commands an outcome accounts for, given the requested and the original name. */
  predicate Accounts(o: Outcome, requested: string, original: string, writes: seq<Command>) {
    var undo := [SetLinux(original), SetAvahi(original)];
    match o
    case InvalidRequest | Unreadable => writes == []
    case Accepted(_) => writes == [SetLinux(requested), SetAvahi(requested)]
    case LinuxFailed(_) => writes == [SetLinux(requested)] + undo
    case MdnsFailed(_) => writes == [SetLinux(requested), SetAvahi(requested)] + undo
    case Interrupted =>
      || writes <= [SetLinux(requested)] + undo
      || writes <= [SetLinux(requested), SetAvahi(requested)] + undo
  }

  /** The outcome is what the log from entry `from` on warrants, nothing having been raised. */
  predicate Warranted(o: Outcome, log: seq<Entry>, from: nat, requested: string, original: string) {
    && from < |log| && log[from].command == SetLinux(requested)
    && if !log[from].reply.Text? then o.LinuxFailed? && RestoredAs(log, from + 1, original, o.errors)
       else if Advertised(log, from + 1, requested) then o == Accepted(requested)
       else o.MdnsFailed? && exists m :: from + 2 <= m < |log| && RestoredAs(log, m, original, o.errors)
  }

  /** The part of `hostname_set` that changes things, once the request is valid and the original name is known. */
  method Transact(host: Host, requested: string, original: string) returns (o: Outcome, ghost writes: seq<Command>)
    requires host.Valid()
    modifies host
    ensures host.Valid()
    ensures o.Accepted? || o.LinuxFailed? || o.MdnsFailed? || o.Interrupted?
    ensures Writes(host.log) == Writes(old(host.log)) + writes && old(host.log) <= host.log
    ensures o.Interrupted? <==> RaisedSince(host.log, |old(host.log)|)
    ensures !o.Interrupted? ==> Warranted(o, host.log, |old(host.log)|, requested, original)
    ensures |old(host.log)| < |host.log|
            && (host.log[|old(host.log)|].reply.TimeoutError? ==> host.clock >= old(host.clock) + 10000)
    ensures Accounts(o, requested, original, writes)
    ensures o.Accepted? ==> o.hostname == requested && host.linux == requested
                            && AvahiName(host.fqdn) == requested + ".local" && Observed(host.log, requested + ".local")
    ensures SaysRestored(o) ==> host.linux == original
                                && AvahiName(host.fqdn) == original + ".local"
                                && Observed(host.log, original + ".local")
    ensures host.linux in {old(host.linux), original, requested}
    ensures old(host.clock) <= host.clock <= old(host.clock) + 56200
  {
    hide Timeouts, Writes, Observed, Plain, Recorded, AvahiName, Advertised, RestoredAs, Published, RaisedSince,
      Fruitless;
    ghost var before := host.log;
    var linux := host.Run(SetLinux(requested), COMMAND_TIMEOUT);
    writes := [SetLinux(requested)];
    RaisedOnce(before, Entry(SetLinux(requested), linux));
    if linux.Raised? {
      return Interrupted, writes;
    }
    ghost var changed: seq<Command>;
    if linux.Text? {
      o, changed := Announce(host, requested, original, |before|);
    } else {
      o, changed := Undo(host, original, false, |before|);
    }
    writes := writes + changed;
  }

  /** The rest of it, once the Linux name is the requested one. */
  method Announce(host: Host, requested: string, original: string, ghost from: nat)
    returns (o: Outcome, ghost writes: seq<Command>)
    requires host.Valid() && |host.log| == from + 1 && !RaisedSince(host.log, from)
    modifies host
    ensures host.Valid() && host.linux in {old(host.linux), original}
    ensures Writes(host.log) == Writes(old(host.log)) + writes && old(host.log) <= host.log
    ensures o.Interrupted? <==> RaisedSince(host.log, from)
    ensures match o
            case Accepted(name) => name == requested && writes == [SetAvahi(requested)]
            case MdnsFailed(_) => writes == [SetAvahi(requested), SetLinux(original), SetAvahi(original)]
            case Interrupted => writes <= [SetAvahi(requested), SetLinux(original), SetAvahi(original)]
            case _ => false
    ensures !o.Interrupted? ==> (o.Accepted? <==> Advertised(host.log, from + 1, requested))
    ensures o.MdnsFailed? ==> exists m :: from + 2 <= m < |host.log| && RestoredAs(host.log, m, original, o.errors)
    ensures o.Accepted? ==> host.linux == old(host.linux) && AvahiName(host.fqdn) == requested + ".local"
                            && Observed(host.log, requested + ".local")
    ensures SaysRestored(o) ==> host.linux == original
                                && AvahiName(host.fqdn) == original + ".local"
                                && Observed(host.log, original + ".local")
    ensures old(host.clock) <= host.clock <= old(host.clock) + 46200
  {
    hide Timeouts, Writes, Observed, Plain, Recorded, AvahiName, Advertised, RestoredAs, Published, RaisedSince,
      Fruitless;
    ghost var sent := host.log;
    var published := PublishName(host, requested);
    writes := [SetAvahi(requested)];
    RaisedSplit(sent, host.log, from);
    if published.None? {
      return Interrupted, writes;
    }
    if published.value {
      return Accepted(requested), writes;
    }
    ghost var tried := host.log;
    ghost var undone: seq<Command>;
    o, undone := Undo(host, original, true, from);
    AdvertisedBefore(tried, host.log, from + 1, requested);
    writes := writes + undone;
    RestoredWithin(host.log, |tried|, original, o);
  }

  lemma {:induction false} RestoredWithin(log: seq<Entry>, from: nat, original: string, o: Outcome)
    ensures o.MdnsFailed? && RestoredAs(log, from, original, o.errors) ==> from < |log|
  {
  }

  /** The handlers of `hostname_set`. */
  method Undo(host: Host, original: string, renamed: bool, ghost from: nat)
    returns (o: Outcome, ghost writes: seq<Command>)
    requires host.Valid() && from <= |host.log| && !RaisedSince(host.log, from)
    modifies host
    ensures host.Valid() && host.linux in {old(host.linux), original}
    ensures Writes(host.log) == Writes(old(host.log)) + writes && old(host.log) <= host.log
    ensures |old(host.log)| < |host.log| && host.log[|old(host.log)|].command == SetLinux(original)
    ensures if o.Interrupted? then writes <= [SetLinux(original), SetAvahi(original)]
            else (if renamed then o.MdnsFailed? else o.LinuxFailed?)
                 && writes == [SetLinux(original), SetAvahi(original)]
    ensures o.Interrupted? <==> RaisedSince(host.log, from)
    ensures !o.Interrupted? ==> RestoredAs(host.log, |old(host.log)|, original, o.errors)
    ensures SaysRestored(o) ==> host.linux == original
                                && AvahiName(host.fqdn) == original + ".local"
                                && Observed(host.log, original + ".local")
    ensures old(host.clock) <= host.clock <= old(host.clock) + 28100
  {
    hide Timeouts, Writes, Observed, Plain, Recorded, AvahiName, Advertised, RestoredAs, Published, RaisedSince,
      Fruitless;
    ghost var before := host.log;
    var restored: Restored;
    restored, writes := RestoreHostname(host, original);
    RaisedSplit(before, host.log, from);
    match restored
    case RestoreInterrupted => o := Interrupted;
    case Restored(errors) => o := if renamed then MdnsFailed(errors) else LinuxFailed(errors);
  }

  lemma {:induction false} AdvertisedBefore(before: seq<Entry>, log: seq<Entry>, at: nat, name: string)
    requires before <= log && at < |before| && (|before| < |log| ==> Writing(log[|before|].command))
    ensures Advertised(log, at, name) <==> Advertised(before, at, name)
  {
    PublishedBefore(before, log, at + 1, name + ".local");
  }

  /** `hostname_set`; `writes` are the changing commands it issued. */
  method HostnameSet(host: Host, request: string) returns (o: Outcome, ghost writes: seq<Command>)
    requires host.Valid()
    modifies host
    ensures host.Valid()
    ensures Transacted(old(NamesOf(host)), request, o, NamesOf(host))
    ensures Writes(host.log) == Writes(old(host.log)) + writes && old(host.log) <= host.log
    ensures o.InvalidRequest? ==> host.log == old(host.log)
    ensures o.Interrupted? <==> RaisedSince(host.log, |old(host.log)|)
    ensures !o.InvalidRequest? ==> |old(host.log)| < |host.log| && host.log[|old(host.log)|].command == ReadHostname
    ensures !o.InvalidRequest? && host.log[|old(host.log)|].reply.TimeoutError? ==> host.clock == old(host.clock) + 2000
    ensures o.Unreadable? <==> !o.InvalidRequest? && host.log[|old(host.log)|].reply in {NotFoundError, TimeoutError}
    ensures !Untouched(o) && !o.Interrupted? ==>
              Warranted(o, host.log, |old(host.log)| + 1, Lower(request), old(Lower(host.linux)))
    ensures Accounts(o, Lower(request), old(Lower(host.linux)), writes)
    ensures LowerCaseOf(request, Lower(request)) && LowerCaseOf(old(host.linux), old(Lower(host.linux)))
    ensures o.Accepted? ==> LowerCaseOf(request, o.hostname)
    ensures o.Accepted? ==> host.linux == Lower(request) && Observed(host.log, Lower(request) + ".local")
    ensures SaysRestored(o) ==> host.linux == old(Lower(host.linux))
                                && Observed(host.log, old(Lower(host.linux)) + ".local")
    ensures host.linux in {old(host.linux), old(Lower(host.linux)), Lower(request)}
    ensures host.clock <= old(host.clock) + 58200
  {
    hide Timeouts, ValidHostname, Lower, LowerCaseOf, Writes, Observed, ParseFqdn, StripDots, Plain, Recorded,
      AvahiName,
      Warranted,
      RaisedSince, Published;
    writes := [];
    ghost var before := host.log;
    NothingYet(before);
    FruitlessHas(before, |before|);
    LowerExact(request);
    LowerExact(host.linux);
    if !ValidHostname(request) {
      return InvalidRequest, writes;
    }
    var requested := Lower(request);
    var read := host.Run(ReadHostname, READ_TIMEOUT);
    RaisedOnce(before, Entry(ReadHostname, read));
    if read.Raised? {
      return Interrupted, writes;
    }
    if !read.Text? {
      assert !read.ServerState?;
      return Unreadable, writes;
    }
    var original := Lower(read.line);
    ghost var asked := host.log;
    o, writes := Transact(host, requested, original);
    RaisedSplit(asked, host.log, |before|);
  }

  // ------------------------------------------------------------------ sequences of calls

  /** A call that ended, and the names it left. */
  datatype Call = Call(request: string, outcome: Outcome, after: Names, raised: bool)

  /** What a call promises; it is interrupted exactly if one of its commands raised what nobody catches. */
  predicate Keeps(before: Names, call: Call) {
    Transacted(before, call.request, call.outcome, call.after) && (call.outcome.Interrupted? <==> call.raised)
  }

  /** Calls following one another, each keeping its promise; nothing changes the names in between. */
  predicate History(start: Names, calls: seq<Call>) {
    forall i | 0 <= i < |calls| :: Keeps(Previous(start, calls, i), calls[i])
  }

  /** The names call `i` found. */
  function Previous(start: Names, calls: seq<Call>, i: nat): Names
    requires i <= |calls|
  {
    if i == 0 then start else calls[i - 1].after
  }

  /** The call left the names in a state it vouches for. */
  predicate Vouches(o: Outcome) {
    o.Accepted? || SaysRestored(o)
  }

  /** The call reports that a rollback failed. */
  predicate ReportsError(o: Outcome) {
    (o.LinuxFailed? || o.MdnsFailed?) && o.errors != []
  }

  /** The call may have left the names in disagreement: a rollback failed, or a command raised what nobody catches. */
  predicate Admits(call: Call) {
    ReportsError(call.outcome) || call.raised
  }

  /**
   From call `j` on, up to call `k`, nobody admits anything; and call `j` found names that agreed, or were
   vouched for.
   */
  predicate SoundSince(calls: seq<Call>, j: nat, k: nat)
    requires j <= k + 1 <= |calls|
  {
    (j == 0 || Vouches(calls[j - 1].outcome)) && forall i | j <= i <= k :: !Admits(calls[i])
  }

  /** One call keeps the names in agreement, or restores it. */
  lemma {:induction false} CallAgrees(before: Names, call: Call)
    requires Keeps(before, call)
    requires Vouches(call.outcome) || (Agree(before) && !Admits(call))
    ensures Agree(call.after)
  {
    hide ValidHostname, Lower;
  }

  /**
   Over any sequence of calls from agreeing names, the names agree after each call unless it, or a
   call since the last one that vouches for them, reported a rollback error or met an exception
   nobody catches.
   */
  lemma {:induction false} AgreementHolds(start: Names, calls: seq<Call>, j: nat, k: nat)
    requires Agree(start) && History(start, calls)
    requires j <= k + 1 <= |calls| && SoundSince(calls, j, k)
    ensures Agree(calls[k].after)
  {
    hide Agree, Keeps, Admits, Vouches;
    if j == k + 1 {
      VouchedAgrees(start, calls, k);
    } else {
      if k > 0 {
        AgreementHolds(start, calls, j, k - 1);
      }
      assert Keeps(Previous(start, calls, k), calls[k]);
      CallAgrees(Previous(start, calls, k), calls[k]);
    }
  }

  /** Whatever went before, the names agree after a call that vouches for them. */
  lemma {:induction false} VouchedAgrees(start: Names, calls: seq<Call>, k: nat)
    requires History(start, calls) && k < |calls| && Vouches(calls[k].outcome)
    ensures Agree(calls[k].after)
  {
    hide Agree, Keeps;
    assert Keeps(Previous(start, calls, k), calls[k]);
    CallAgrees(Previous(start, calls, k), calls[k]);
  }

  /**
   Calls that are not cancelled and meet no other such exception: only a rollback error they report
   can have taken the agreement away.
   */
  lemma {:induction false} OnlyReportedErrorsDisagree(start: Names, calls: seq<Call>, k: nat)
    requires Agree(start) && History(start, calls) && k < |calls|
    requires forall i | 0 <= i <= k :: !calls[i].raised
    ensures Agree(calls[k].after) || exists i :: 0 <= i <= k && ReportsError(calls[i].outcome)
  {
    hide Agree, History, Vouches, ReportsError;
    if forall i | 0 <= i <= k :: !ReportsError(calls[i].outcome) {
      assert SoundSince(calls, 0, k);
      AgreementHolds(start, calls, 0, k);
    }
  }

  /** A client's requests, one after the other; `marks[i]` is how many commands came before call `i`. */
  method SetAll(host: Host, requests: seq<string>) returns (calls: seq<Call>, ghost marks: seq<nat>)
    requires host.Valid()
    modifies host
    ensures host.Valid() && |calls| == |requests| && forall i | 0 <= i < |calls| :: calls[i].request == requests[i]
    ensures History(old(NamesOf(host)), calls) && NamesOf(host) == Previous(old(NamesOf(host)), calls, |calls|)
    ensures Marked(host.script, calls, marks)
    ensures Agree(old(NamesOf(host))) ==>
              forall j: nat, k: nat | j <= k + 1 <= |calls| && SoundSince(calls, j, k) :: Agree(calls[k].after)
  {
    hide Timeouts, Keeps, Transacted, Agree, AvahiName, Lower, SoundSince, Warranted, Observed, Writes, Plain, Recorded,
      RaisedSince, Marked, History;
    ghost var start := NamesOf(host);
    calls, marks := [], [|host.log|];
    NothingMarked(host.script, |host.log|);
    NoCalls(start);
    for n := 0 to |requests|
      invariant host.Valid() && |calls| == n && forall i | 0 <= i < n :: calls[i].request == requests[i]
      invariant History(start, calls) && NamesOf(host) == Previous(start, calls, n)
      invariant |marks| == n + 1 && marks[n] == |host.log| && Marked(host.script, calls, marks)
    {
      var from := |host.log|;
      var outcome, _ := HostnameSet(host, requests[n]);
      var call := Call(requests[n], outcome, NamesOf(host), RaisedSince(host.log, from));
      CallKeeps(Previous(start, calls, n), call);
      HistorySnoc(start, calls, call);
      MarkedSnoc(host.script, calls, marks, host.log, call);
      calls, marks := calls + [call], marks + [|host.log|];
    }
    AllAgree(start, calls);
  }

  lemma {:induction false} AllAgree(start: Names, calls: seq<Call>)
    requires History(start, calls)
    ensures Agree(start) ==>
              forall j: nat, k: nat | j <= k + 1 <= |calls| && SoundSince(calls, j, k) :: Agree(calls[k].after)
  {
    hide History, Agree, SoundSince;
    if Agree(start) {
      forall j: nat, k: nat | j <= k + 1 <= |calls| && SoundSince(calls, j, k) ensures Agree(calls[k].after) {
        AgreementHolds(start, calls, j, k);
      }
    }
  }

  /** A call is said to have raised exactly if the script has one of its commands do so. */
  predicate Marked(script: nat -> Turn, calls: seq<Call>, marks: seq<nat>) {
    && |marks| == |calls| + 1
    && forall i | 0 <= i < |calls| :: calls[i].raised <==> TurnRaises(script, marks[i], marks[i + 1])
  }

  predicate TurnRaises(script: nat -> Turn, from: nat, to: nat) {
    exists k: nat :: from <= k < to && script(k).fate.Raises?
  }

  lemma {:induction false} RaisedTurns(script: nat -> Turn, log: seq<Entry>, from: nat)
    requires Recorded(script, log)
    ensures RaisedSince(log, from) <==> TurnRaises(script, from, |log|)
  {
  }

  lemma {:induction false} NoCalls(start: Names)
    ensures History(start, [])
  {
  }

  lemma {:induction false} NothingMarked(script: nat -> Turn, at: nat)
    ensures Marked(script, [], [at])
  {
  }

  lemma {:induction false} CallKeeps(before: Names, call: Call)
    requires Transacted(before, call.request, call.outcome, call.after) && (call.outcome.Interrupted? <==> call.raised)
    ensures Keeps(before, call)
  {
    hide Transacted;
  }

  lemma {:induction false} MarkedSnoc(script: nat -> Turn, calls: seq<Call>, marks: seq<nat>, log: seq<Entry>,
                                      call: Call)
    requires Marked(script, calls, marks) && Recorded(script, log) && marks[|calls|] <= |log|
    requires call.raised <==> RaisedSince(log, marks[|calls|])
    ensures Marked(script, calls + [call], marks + [|log|])
  {
    hide Recorded, RaisedSince, TurnRaises;
    var n := |calls|;
    RaisedTurns(script, log, marks[n]);
    var more, ends := calls + [call], marks + [|log|];
    forall i | 0 <= i < |more| ensures more[i].raised <==> TurnRaises(script, ends[i], ends[i + 1]) {
      if i < n {
        assert more[i] == calls[i] && ends[i] == marks[i] && ends[i + 1] == marks[i + 1];
      }
    }
  }

  lemma {:induction false} HistorySnoc(start: Names, calls: seq<Call>, call: Call)
    requires History(start, calls) && Keeps(Previous(start, calls, |calls|), call)
    ensures History(start, calls + [call]) && Previous(start, calls + [call], |calls| + 1) == call.after
  {
    hide Keeps;
    var more := calls + [call];
    forall i | 0 <= i < |more| ensures Keeps(Previous(start, more, i), more[i]) {
      assert Previous(start, more, i) == Previous(start, calls, i);
    }
  }
}
