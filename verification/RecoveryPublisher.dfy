/**
 The recovery-name publisher (scripts/publish-recovery-hostname.sh): a loop that keeps one
 child process per active address, and none while the host itself goes by the recovery name.
 Publishers may die on their own at any time, INT and TERM may arrive between any two commands,
 and a process is known by a serial number standing for its pid.
 */
module RecoveryPublisher {
  import opened Hostnames

  const RECOVERY_HOSTNAME := "43a9-9ed7"

  predicate EndsWith(s: string, suffix: string) {
    |suffix| <= |s| && s[|s| - |suffix|..] == suffix
  }

  /** `${current_hostname,,}` and then `${current_hostname%.local}` */
  function SingleLabel(hostname: string): string {
    var lower := Lower(hostname);
    if EndsWith(lower, ".local") then lower[..|lower| - |".local"|] else lower
  }

  predicate IsRecoveryName(hostname: string) {
    SingleLabel(hostname) == RECOVERY_HOSTNAME
  }

  /** The address field without its prefix length: everything before the last slash. */
  function AddressOf(cidr: string): string {
    if forall i | 0 <= i < |cidr| :: cidr[i] != '/' then cidr
    else if cidr[|cidr| - 1] == '/' then cidr[..|cidr| - 1]
    else AddressOf(cidr[..|cidr| - 1])
  }

  lemma {:induction false} AddressOfCidr(address: string, prefix: string)
    requires forall i | 0 <= i < |prefix| :: prefix[i] != '/'
    ensures AddressOf(address + "/" + prefix) == address
  {
    var cidr := address + "/" + prefix;
    assert cidr[|address|] == '/';
    if prefix == "" {
      assert cidr[..|cidr| - 1] == address;
    } else {
      var n := |prefix| - 1;
      assert cidr[..|cidr| - 1] == address + "/" + prefix[..n];
      assert cidr[|cidr| - 1] == prefix[n];
      AddressOfCidr(address, prefix[..n]);
    }
  }

  /** The addresses listed, less empty fields. */
  function Addresses(cidrs: seq<string>): set<string> {
    set cidr | cidr in cidrs && AddressOf(cidr) != "" :: AddressOf(cidr)
  }

  /** Recovery-name mode: the name in any letter case, alone or in the domain local. */
  lemma {:induction false} RecoveryNameExact(hostname: string)
    ensures IsRecoveryName(hostname) <==> Lower(hostname) == "43a9-9ed7" || Lower(hostname) == "43a9-9ed7.local"
  {
    var lower := Lower(hostname);
    var suffix := ".local";
    hide Lower;
    if EndsWith(lower, suffix) {
      assert lower == lower[..|lower| - |suffix|] + suffix;
    }
    assert ("43a9-9ed7" + suffix)[..|"43a9-9ed7"|] == "43a9-9ed7" && "43a9-9ed7" + suffix == "43a9-9ed7.local";
    assert EndsWith("43a9-9ed7.local", suffix);
    assert !EndsWith("43a9-9ed7", suffix) by {
      assert "43a9-9ed7"[9 - 6] != '.';
    }
  }

  /** The address of a field: what precedes its last slash, or all of it. */
  predicate HasAddress(cidr: string, address: string) {
    || (address == cidr && forall i | 0 <= i < |cidr| :: cidr[i] != '/')
    || (|address| < |cidr| && cidr[..|address|] == address && cidr[|address|] == '/'
        && forall i | |address| < i < |cidr| :: cidr[i] != '/')
  }

  lemma {:induction false} AddressOfExact(cidr: string)
    ensures HasAddress(cidr, AddressOf(cidr))
  {
    if !(forall i | 0 <= i < |cidr| :: cidr[i] != '/') && cidr[|cidr| - 1] != '/' {
      var front := cidr[..|cidr| - 1];
      assert forall i | 0 <= i < |front| :: front[i] == cidr[i];
      AddressOfExact(front);
      assert cidr[..|AddressOf(front)|] == front[..|AddressOf(front)|];
    }
  }

  /** The active addresses are those of the fields listed, the empty one excepted. */
  lemma {:induction false} AddressesExact(cidrs: seq<string>, address: string)
    ensures address in Addresses(cidrs) <==> address != "" && exists cidr :: cidr in cidrs && HasAddress(cidr, address)
  {
    if cidr :| cidr in cidrs && HasAddress(cidr, address) {
      AddressOfExact(cidr);
      OneAddress(cidr, address, AddressOf(cidr));
    }
    forall cidr | cidr in cidrs ensures HasAddress(cidr, AddressOf(cidr)) {
      AddressOfExact(cidr);
    }
  }

  lemma {:induction false} OneAddress(cidr: string, a: string, b: string)
    requires HasAddress(cidr, a) && HasAddress(cidr, b)
    ensures a == b
  {
  }

  /** The publisher's map, and what became of every process it ever spawned. */
  datatype Snapshot = Snapshot(publishers: map<string, nat>, alive: set<nat>, reaped: set<nat>, spawned: nat)

  predicate OneToOne(m: map<string, nat>) {
    forall a, b | a in m && b in m && a != b :: m[a] != m[b]
  }

  /** The serial numbers given out so far. */
  function Below(n: nat): (s: set<nat>)
    ensures forall i: nat :: i in s <==> i < n
  {
    if n == 0 then {} else Below(n - 1) + {n - 1}
  }

  /** No child is ever outside the map: a process spawned has been waited for, or is in the map, and not both. */
  predicate Accounted(s: Snapshot) {
    && OneToOne(s.publishers)
    && s.alive <= s.publishers.Values
    && s.reaped !! s.publishers.Values
    && s.reaped + s.publishers.Values == Below(s.spawned)
  }

  /** The publisher was dead when the round began, or died on its own before one of the round's `kill -0`. */
  ghost predicate Died(before: Snapshot, deaths: nat -> set<nat>, pid: nat) {
    pid !in before.alive || exists k: nat :: k < |before.publishers| && pid in deaths(k)
  }

  /** It was dead before the first of these checks. */
  ghost predicate FoundDead(before: Snapshot, deaths: nat -> set<nat>, pid: nat) {
    pid !in before.alive || pid in deaths(0)
  }

  /**
   A round outside recovery-name mode, with these addresses active: the map covers exactly them; a
   publisher that did not die is kept, alive; one found dead, having died in the round before, in the
   sleep after it or before the first check of this round, is replaced by a new process; one that dies
   later in the round is replaced or, dead, left to the next one; those of addresses that are gone are
   waited for.
   */
  ghost predicate Reconciled(before: Snapshot, active: set<string>, deaths: nat -> set<nat>, after: Snapshot) {
    && after.publishers.Keys == active
    && before.spawned <= after.spawned
    && before.reaped <= after.reaped
    && (forall a | a in active && a in before.publishers && !Died(before, deaths, before.publishers[a]) ::
          after.publishers[a] == before.publishers[a] && after.publishers[a] in after.alive)
    && (forall a | a in active && a in before.publishers && after.publishers[a] == before.publishers[a] ::
          !FoundDead(before, deaths, before.publishers[a]))
    && (forall pid | pid in after.alive && pid < before.spawned :: !Died(before, deaths, pid))
    && (forall a | a in active && (a !in before.publishers || after.publishers[a] != before.publishers[a]) ::
          after.publishers[a] >= before.spawned && after.publishers[a] in after.alive)
    && (forall a | a in before.publishers && a !in active :: before.publishers[a] in after.reaped)
  }

  /** After `stop_all`: no child is left. */
  ghost predicate Emptied(before: Snapshot, after: Snapshot) {
    after.publishers == map[] && after.alive == {} && after.spawned == before.spawned
      && after.reaped == Below(after.spawned)
  }

  /**
   A round in which a signal has stopped everything, and which went on: all the publishers it began
   with are waited for, and those it ends with are new, alive, and each at an active address, though
   not every active address need have one.
   */
  ghost predicate Disturbed(before: Snapshot, active: set<string>, after: Snapshot) {
    && after.publishers.Keys <= active
    && before.spawned <= after.spawned
    && Below(before.spawned) <= after.reaped
    && forall a | a in after.publishers :: after.publishers[a] >= before.spawned && after.publishers[a] in after.alive
  }

  /**
   The signals that arrive in a round: `stopping(k)` before the first loop looks up its k-th key, or
   after its last for `k` the number of keys; `starting(k)` before the second loop turns to its k-th
   address. One that arrives between the look-up of a key and its stopping acts like one after it.
   */
  datatype Signals = Signals(stopping: nat -> bool, starting: nat -> bool)

  /** The first loop looks up a key that a signal has removed: under `set -u` that ends the script. */
  ghost predicate LosesKey(publishers: map<string, nat>, signals: Signals) {
    exists k: nat :: k < |publishers| && signals.stopping(k)
  }

  ghost predicate Quiet(publishers: map<string, nat>, active: set<string>, signals: Signals) {
    && (forall k: nat | k <= |publishers| :: !signals.stopping(k))
    && (forall k: nat | k < |active| :: !signals.starting(k))
  }

  class Publisher {
    var publishers: map<string, nat>
    var alive: set<nat>
    var reaped: set<nat>
    var spawned: nat

    constructor ()
      ensures Valid() && publishers == map[] && spawned == 0
    {
      publishers, alive, reaped, spawned := map[], {}, {}, 0;
    }

    function Snap(): Snapshot
      reads this
    {
      Snapshot(publishers, alive, reaped, spawned)
    }

    predicate Valid()
      reads this
    {
      Accounted(Snap())
    }

    /** `stop_publisher`: kill the process if it still runs, wait for it, forget it. */
    method StopPublisher(address: string)
      requires Valid()
      modifies this
      ensures Valid()
      ensures publishers == old(publishers) - {address} && spawned == old(spawned)
      ensures if address in old(publishers)
              then alive == old(alive) - {old(publishers)[address]}
                && reaped == old(reaped) + {old(publishers)[address]}
              else alive == old(alive) && reaped == old(reaped)
    {
      if address in publishers {
        var pid := publishers[address];
        ghost var before := publishers;
        alive := alive - {pid};
        reaped := reaped + {pid};
        publishers := publishers - {address};
        RemovedValues(before, address);
      }
    }

    /** `stop_all`, over the keys present when it starts. */
    method StopAll()
      requires Valid()
      modifies this
      ensures Valid() && Emptied(old(Snap()), Snap())
    {
      var todo := publishers.Keys;
      while todo != {}
        invariant Valid() && publishers.Keys == todo && spawned == old(spawned)
        decreases todo
      {
        var address :| address in todo;
        todo := todo - {address};
        StopPublisher(address);
      }
    }

    /**
     One round of the loop. `hostname` is what the hostname command printed, `cidrs` the address
     fields of the listing, and `deaths(k)` the publishers that die before the k-th `kill -0`.
     `lost` says that the script is at its end.
     */
    method Round(hostname: string, cidrs: seq<string>, deaths: nat -> set<nat>, signals: Signals) returns (lost: bool)
      requires Valid()
      modifies this
      ensures Valid()
      ensures lost <==> !IsRecoveryName(hostname) && LosesKey(old(publishers), signals)
      ensures Rounded(old(Snap()), hostname, Addresses(cidrs), deaths, signals, Snap())
    {
      if IsRecoveryName(hostname) {
        StopAll();
        return false;
      }
      lost := Reconcile(Addresses(cidrs), deaths, signals);
    }

    /** The two loops of a round. */
    method Reconcile(active: set<string>, deaths: nat -> set<nat>, signals: Signals) returns (lost: bool)
      requires Valid()
      modifies this
      ensures Valid() && (lost <==> LosesKey(old(publishers), signals))
      ensures if lost then Emptied(old(Snap()), Snap())
              else if Quiet(old(publishers), active, signals) then Reconciled(old(Snap()), active, deaths, Snap())
              else Disturbed(old(Snap()), active, Snap())
    {
      hide Accounted, Reconciled, Emptied, Disturbed, Pruned, Filled;
      ghost var before := Snap();
      var n := |publishers|;
      lost := StopStale(active, deaths, signals.stopping);
      if lost {
        return;
      }
      ghost var kept := Snap();
      var between := signals.stopping(n);
      if between {
        StopAll();
      }
      ghost var left := Snap();
      BetweenLoops(before, kept, left, active, deaths, between);
      var late := Spawn(active, signals.starting);
      if between || late {
        StillDisturbed(before, kept, left, active, deaths, between, late, Snap());
      } else {
        BothLoops(before, kept, active, deaths, Snap());
      }
    }

    /** One happening. */
    method Meet(h: Happening) returns (lost: bool)
      requires Valid()
      modifies this
      ensures Valid() && Handled(old(Snap()), h, Snap()) && (lost <==> Ends(old(Snap()), h))
    {
      hide Accounted, Rounded, LosesKey;
      lost := false;
      match h
      case ARound(hostname, cidrs, deaths, signals) => lost := Round(hostname, cidrs, deaths, signals);
      case ASignal => StopAll();
    }

    /** The first loop: stop the publishers of addresses that are gone, and those that have died. */
    method StopStale(active: set<string>, deaths: nat -> set<nat>, stopping: nat -> bool) returns (lost: bool)
      requires Valid()
      modifies this
      ensures Valid()
      ensures lost <==> exists k: nat :: k < |old(publishers)| && stopping(k)
      ensures if lost then Emptied(old(Snap()), Snap()) else Pruned(old(Snap()), active, deaths, Snap())
    {
      hide Accounted, OneToOne, Below, Died, Emptied, Pruning, Pruned;
      ghost var before, dead := Snap(), {};
      PruningStarts(before, active, deaths(0));
      var todo := publishers.Keys;
      var k := 0;
      while todo != {}
        invariant Valid() && Pruning(before, active, deaths(0), todo, dead, Snap())
        invariant k == |before.publishers| - |todo| && forall i: nat | i < k :: !stopping(i)
        invariant forall pid | pid in dead :: Died(before, deaths, pid)
        invariant forall i: nat | i < k :: deaths(i) <= dead
        decreases todo
      {
        if stopping(k) {
          ghost var now := Snap();
          StopAll();
          EmptiedEarlier(before, active, deaths(0), todo, dead, now, Snap());
          return true;
        }
        var address :| address in todo;
        DeathsCount(before, deaths, k);
        Prune(address, active, deaths(k), before, deaths(0), todo, dead);
        todo, dead, k := todo - {address}, dead + deaths(k), k + 1;
      }
      PruningEnds(before, active, deaths, dead, Snap());
      return false;
    }

    /** One turn of that loop, as a step towards its result. */
    method Prune(address: string, active: set<string>, dying: set<nat>,
                 ghost before: Snapshot, ghost first: set<nat>, ghost todo: set<string>, ghost dead: set<nat>)
      requires Valid() && first <= dead + dying && Pruning(before, active, first, todo, dead, Snap()) && address in todo
      modifies this
      ensures Valid() && Pruning(before, active, first, todo - {address}, dead + dying, Snap())
    {
      hide Accounted, Pruning, Checked;
      ghost var now := Snap();
      PruningHas(before, active, first, todo, dead, now, address);
      CheckPublisher(address, address in active, dying);
      PruningStep(before, active, first, todo, dead, now, address, dying, Snap());
    }

    /** The check itself; the processes of `dying` die before its `kill -0`. */
    method CheckPublisher(address: string, isActive: bool, dying: set<nat>)
      requires Valid() && address in publishers
      modifies this
      ensures Valid() && Checked(old(Snap()), address, isActive, dying, Snap())
    {
      alive := alive - dying;
      if !isActive || publishers[address] !in alive {
        OthersKeepPid(publishers, address);
        StopPublisher(address);
      }
    }

    /** The second loop: start a publisher for every active address that has none. */
    method Spawn(active: set<string>, starting: nat -> bool) returns (disturbed: bool)
      requires Valid() && publishers.Keys <= active
      modifies this
      ensures Valid()
      ensures disturbed <==> exists k: nat :: k < |active| && starting(k)
      ensures if disturbed then Disturbed(old(Snap()), active, Snap()) else Filled(old(Snap()), active, Snap())
    {
      hide Accounted, Disturbed, Emptied;
      ghost var before := Snap();
      disturbed := false;
      var todo := active;
      var k := 0;
      while todo != {}
        invariant Valid() && k == |active| - |todo|
        invariant disturbed <==> exists i: nat :: i < k && starting(i)
        invariant if disturbed then Disturbed(before, active, Snap())
                  else Filled(before, publishers.Keys, Snap()) && publishers.Keys <= active
                       && active - todo <= publishers.Keys
        decreases todo
      {
        if starting(k) {
          ghost var now := Snap();
          StopAll();
          DisturbedNow(before, now, active, disturbed, Snap());
          disturbed := true;
        }
        var address :| address in todo;
        todo := todo - {address};
        k := k + 1;
        if address !in publishers {
          Start(address, disturbed, before, active);
        }
      }
    }

    /** One new publisher, in the background. */
    method Start(address: string, ghost disturbed: bool, ghost before: Snapshot, ghost active: set<string>)
      requires Valid() && address !in publishers && address in active
      requires if disturbed then Disturbed(before, active, Snap()) else Filled(before, publishers.Keys, Snap())
      modifies this
      ensures Valid() && publishers == old(publishers)[address := old(spawned)]
      ensures if disturbed then Disturbed(before, active, Snap()) else Filled(before, publishers.Keys, Snap())
    {
      SpawnedAccounted(Snap(), address);
      hide Accounted;
      publishers := publishers[address := spawned];
      alive := alive + {spawned};
      spawned := spawned + 1;
    }
  }

  /** Only a live publisher of an active address passes the check of the first loop. */
  ghost predicate Checked(now: Snapshot, address: string, isActive: bool, dying: set<nat>, after: Snapshot)
    requires address in now.publishers
  {
    var pid := now.publishers[address];
    && after.spawned == now.spawned
    && (if isActive && pid in now.alive - dying
        then after.publishers == now.publishers && after.reaped == now.reaped
        else after.publishers == now.publishers - {address} && after.reaped == now.reaped + {pid})
    && after.alive <= now.alive - dying
    && forall a | a in after.publishers && after.publishers[a] in now.alive - dying ::
       after.publishers[a] in after.alive
  }

  /** In the first loop, with the keys `todo` still to come and the processes `dead` dead, `first` before any check. */
  ghost predicate Pruning(before: Snapshot, active: set<string>, first: set<nat>, todo: set<string>, dead: set<nat>,
                          now: Snapshot) {
    && now.spawned == before.spawned && before.reaped <= now.reaped && now.alive <= before.alive - dead
    && todo <= now.publishers.Keys <= before.publishers.Keys
    && (forall a | a in now.publishers :: now.publishers[a] == before.publishers[a])
    && (forall a | a in now.publishers && a !in todo :: a in active && now.publishers[a] in before.alive - first)
    && (forall a | a in before.publishers && a !in now.publishers :: before.publishers[a] in now.reaped)
    && (forall a | a in active && a in before.publishers && before.publishers[a] in before.alive - dead ::
          a in now.publishers && now.publishers[a] in now.alive)
  }

  lemma {:induction false} PruningStarts(before: Snapshot, active: set<string>, first: set<nat>)
    ensures Pruning(before, active, first, before.publishers.Keys, {}, before)
  {
  }

  lemma {:induction false} PruningHas(before: Snapshot, active: set<string>, first: set<nat>, todo: set<string>,
                                      dead: set<nat>, now: Snapshot, address: string)
    requires Pruning(before, active, first, todo, dead, now) && address in todo
    ensures address in now.publishers
  {
  }

  lemma {:induction false} PruningStep(before: Snapshot, active: set<string>, first: set<nat>, todo: set<string>,
                                       dead: set<nat>, now: Snapshot,
                                       address: string, dying: set<nat>, after: Snapshot)
    requires Pruning(before, active, first, todo, dead, now) && address in todo && address in now.publishers
    requires Checked(now, address, address in active, dying, after) && first <= dead + dying
    ensures Pruning(before, active, first, todo - {address}, dead + dying, after)
  {
  }

  lemma {:induction false} PruningEnds(before: Snapshot, active: set<string>, deaths: nat -> set<nat>, dead: set<nat>,
                                       now: Snapshot)
    requires Pruning(before, active, deaths(0), {}, dead, now)
    requires forall pid | pid in dead :: Died(before, deaths, pid)
    requires forall i: nat | i < |before.publishers| :: deaths(i) <= dead
    ensures Pruned(before, active, deaths, now)
  {
    NotAliveIsDead(before, deaths);
    forall pid | pid in now.alive ensures !Died(before, deaths, pid) {
    }
    hide Died;
  }

  /** After the first loop, undisturbed: what is left of the map. */
  ghost predicate Pruned(before: Snapshot, active: set<string>, deaths: nat -> set<nat>, after: Snapshot) {
    && after.spawned == before.spawned
    && before.reaped <= after.reaped
    && after.publishers.Keys <= before.publishers.Keys * active
    && (forall a | a in after.publishers :: after.publishers[a] == before.publishers[a]
                                            && !FoundDead(before, deaths, after.publishers[a]))
    && (forall pid | pid in after.alive :: !Died(before, deaths, pid))
    && (forall a | a in before.publishers && a !in after.publishers :: before.publishers[a] in after.reaped)
    && (forall a | a in active && a in before.publishers && !Died(before, deaths, before.publishers[a]) ::
          a in after.publishers && after.publishers[a] in after.alive)
  }

  /** After the second loop, undisturbed: the addresses covered, with the publishers there were and new ones. */
  ghost predicate Filled(before: Snapshot, covered: set<string>, after: Snapshot) {
    && after.publishers.Keys == covered
    && after.reaped == before.reaped
    && before.spawned <= after.spawned
    && before.alive <= after.alive
    && (forall pid | pid in after.alive && pid < before.spawned :: pid in before.alive)
    && (forall a | a in before.publishers :: a in covered && after.publishers[a] == before.publishers[a])
    && (forall a | a in covered && a !in before.publishers :: after.publishers[a] >= before.spawned
                                                              && after.publishers[a] in after.alive)
  }

  /** What a round makes of the publishers. */
  ghost predicate Rounded(before: Snapshot, hostname: string, active: set<string>, deaths: nat -> set<nat>,
                          signals: Signals, after: Snapshot) {
    if IsRecoveryName(hostname) || LosesKey(before.publishers, signals) then Emptied(before, after)
    else if Quiet(before.publishers, active, signals) then Reconciled(before, active, deaths, after)
    else Disturbed(before, active, after)
  }

  lemma {:induction false} BothLoops(before: Snapshot, kept: Snapshot, active: set<string>, deaths: nat -> set<nat>,
                                     after: Snapshot)
    requires Accounted(before) && Pruned(before, active, deaths, kept) && Filled(kept, active, after)
    ensures Reconciled(before, active, deaths, after)
  {
    hide Died;
    forall a | a in before.publishers ensures before.publishers[a] < before.spawned {
      MappedIsSpawned(before, before.publishers[a]);
    }
    hide Accounted;
  }

  lemma {:induction false} EmptiedEarlier(before: Snapshot, active: set<string>, first: set<nat>, todo: set<string>,
                                          dead: set<nat>, now: Snapshot, after: Snapshot)
    requires Pruning(before, active, first, todo, dead, now) && Emptied(now, after)
    ensures Emptied(before, after)
  {
  }

  lemma {:induction false} BetweenLoops(before: Snapshot, kept: Snapshot, left: Snapshot, active: set<string>,
                                        deaths: nat -> set<nat>, between: bool)
    requires Pruned(before, active, deaths, kept) && if between then Emptied(kept, left) else left == kept
    ensures left.publishers.Keys <= active
  {
  }

  /** `stop_all` in the middle of the second loop. */
  lemma {:induction false} DisturbedNow(before: Snapshot, now: Snapshot, active: set<string>, disturbed: bool,
                                        after: Snapshot)
    requires Emptied(now, after)
    requires if disturbed then Disturbed(before, active, now) else Filled(before, now.publishers.Keys, now)
    ensures Disturbed(before, active, after)
  {
    assert before.spawned <= after.spawned;
    assert Below(before.spawned) <= Below(after.spawned);
  }

  /** A round disturbed between its loops, or in the second one. */
  lemma {:induction false} StillDisturbed(before: Snapshot, kept: Snapshot, left: Snapshot, active: set<string>,
                                          deaths: nat -> set<nat>,
                                          between: bool, late: bool, after: Snapshot)
    requires Pruned(before, active, deaths, kept)
    requires if between then Emptied(kept, left) else left == kept
    requires if late then Disturbed(left, active, after) else Filled(left, active, after)
    requires between || late
    ensures Disturbed(before, active, after)
  {
  }

  /** What dies before the k-th check of the round has died on its own. */
  lemma {:induction false} DeathsCount(before: Snapshot, deaths: nat -> set<nat>, k: nat)
    requires k < |before.publishers|
    ensures forall pid | pid in deaths(k) :: Died(before, deaths, pid)
  {
  }

  lemma {:induction false} NotAliveIsDead(before: Snapshot, deaths: nat -> set<nat>)
    ensures forall pid | pid !in before.alive :: Died(before, deaths, pid)
  {
  }

  lemma {:induction false} OthersKeepPid(m: map<string, nat>, a: string)
    requires OneToOne(m) && a in m
    ensures forall b | b in m && b != a :: m[b] != m[a]
  {
  }

  lemma {:induction false} RemovedValues(m: map<string, nat>, a: string)
    requires OneToOne(m) && a in m
    ensures OneToOne(m - {a}) && (m - {a}).Values == m.Values - {m[a]}
  {
    var m' := m - {a};
    forall v ensures v in m'.Values <==> v in m.Values && v != m[a] {
      if v in m.Values && v != m[a] {
        var b :| b in m && m[b] == v;
        assert b in m' && m'[b] == v;
      }
      if v in m'.Values {
        var b :| b in m' && m'[b] == v;
        assert b in m && m[b] == v;
      }
    }
  }

  lemma {:induction false} AddedValues(m: map<string, nat>, a: string, v: nat)
    requires a !in m
    ensures m[a := v].Values == m.Values + {v}
  {
    var m' := m[a := v];
    forall w ensures w in m'.Values <==> w in m.Values || w == v {
      if w in m.Values {
        var b :| b in m && m[b] == w;
        assert b in m' && m'[b] == w;
      }
      assert a in m' && m'[a] == v;
    }
  }

  lemma {:induction false} SpawnedAccounted(s: Snapshot, a: string)
    requires Accounted(s) && a !in s.publishers
    ensures Accounted(Snapshot(s.publishers[a := s.spawned], s.alive + {s.spawned}, s.reaped, s.spawned + 1))
  {
    var m := s.publishers[a := s.spawned];
    AddedValues(s.publishers, a, s.spawned);
    forall b | b in s.publishers ensures s.publishers[b] < s.spawned {
      assert s.publishers[b] in s.publishers.Values;
    }
    assert s.reaped + m.Values == Below(s.spawned) + {s.spawned};
    assert s.spawned !in s.reaped by {
      assert s.spawned !in s.reaped + s.publishers.Values;
    }
  }

  // -------------------------------------------------------------------------- counting

  lemma {:induction false} ValuesCount(m: map<string, nat>)
    requires OneToOne(m)
    ensures |m.Values| == |m|
    decreases |m|
  {
    if m.Keys == {} {
      assert m == map[];
    } else {
      var a :| a in m;
      RemovedValues(m, a);
      assert (m - {a}).Keys == m.Keys - {a};
      ValuesCount(m - {a});
      assert m.Values == (m - {a}).Values + {m[a]};
    }
  }

  lemma {:induction false} BelowCount(n: nat)
    ensures |Below(n)| == n
  {
    if n > 0 {
      BelowCount(n - 1);
      var rest := Below(n - 1);
      assert n - 1 !in rest && |rest + {n - 1}| == |rest| + 1;
    }
  }

  /** Process conservation: spawned = waited for + in the map, at every point between commands. */
  lemma {:induction false} Conservation(s: Snapshot)
    requires Accounted(s)
    ensures s.spawned == |s.reaped| + |s.publishers|
    ensures forall p | p in s.alive :: exists a :: a in s.publishers && s.publishers[a] == p
  {
    ValuesCount(s.publishers);
    BelowCount(s.spawned);
    assert |s.reaped + s.publishers.Values| == |s.reaped| + |s.publishers.Values|;
  }

  lemma {:induction false} MappedIsSpawned(s: Snapshot, pid: nat)
    requires Accounted(s) && pid in s.publishers.Values
    ensures pid < s.spawned
  {
    assert pid in Below(s.spawned);
  }

  // ------------------------------------------------------------------------ many rounds

  /** What the loop meets next. A handled INT or TERM runs `stop_all`, and the loop goes on. */
  datatype Happening =
    | ARound(hostname: string, cidrs: seq<string>, deaths: nat -> set<nat>, signals: Signals)
    | ASignal

  ghost predicate Handled(before: Snapshot, h: Happening, after: Snapshot) {
    match h
    case ARound(hostname, cidrs, deaths, signals) => Rounded(before, hostname, Addresses(cidrs), deaths, signals, after)
    case ASignal => Emptied(before, after)
  }

  /** The script ends by itself in this round. */
  ghost predicate Ends(before: Snapshot, h: Happening) {
    h.ARound? && !IsRecoveryName(h.hostname) && LosesKey(before.publishers, h.signals)
  }

  /** Rounds and signals, one after the other. */
  ghost predicate History(snaps: seq<Snapshot>, happenings: seq<Happening>) {
    && |snaps| == |happenings| + 1
    && (forall i | 0 <= i < |snaps| :: Accounted(snaps[i]))
    && forall i | 0 <= i < |happenings| :: Handled(snaps[i], happenings[i], snaps[i + 1])
  }

  /** The round reconciles the map with these active addresses, undisturbed. */
  ghost predicate Reconciling(before: Snapshot, h: Happening) {
    h.ARound? && !IsRecoveryName(h.hostname) && Quiet(before.publishers, Addresses(h.cidrs), h.signals)
  }

  /** An undisturbed round that finds address `a` active, and process `pid` alive throughout. */
  ghost predicate Spares(before: Snapshot, h: Happening, a: string, pid: nat) {
    Reconciling(before, h) && a in Addresses(h.cidrs) && !Died(before, h.deaths, pid)
  }

  lemma {:induction false} QuietKeepsKeys(publishers: map<string, nat>, active: set<string>, signals: Signals)
    requires Quiet(publishers, active, signals)
    ensures !LosesKey(publishers, signals)
  {
  }

  /**
   Over any number of undisturbed rounds, an address that stays active keeps the pid of its
   publisher until that publisher dies on its own.
   */
  lemma {:induction false} LivePublisherKeepsPid(snaps: seq<Snapshot>, hs: seq<Happening>, i: nat, j: nat, a: string)
    requires History(snaps, hs) && i <= j <= |hs|
    requires a in snaps[i].publishers
    requires forall k | i <= k < j :: Spares(snaps[k], hs[k], a, snaps[i].publishers[a])
    ensures a in snaps[j].publishers && snaps[j].publishers[a] == snaps[i].publishers[a]
  {
    hide *;
    if i < j {
      HistoryAt(snaps, hs, j - 1);
      LivePublisherKeepsPid(snaps, hs, i, j - 1, a);
      LiveStep(snaps[j - 1], hs[j - 1], snaps[j], a);
    }
  }

  lemma {:induction false} LiveStep(before: Snapshot, h: Happening, after: Snapshot, a: string)
    requires Handled(before, h, after) && a in before.publishers && Spares(before, h, a, before.publishers[a])
    ensures a in after.publishers && after.publishers[a] == before.publishers[a]
  {
    QuietKeepsKeys(before.publishers, Addresses(h.cidrs), h.signals);
    hide Died, Quiet, LosesKey, IsRecoveryName, Addresses;
  }

  /** What happens next finds the process dead: it died in the last round, or in the sleep since. */
  ghost predicate FoundDeadBy(before: Snapshot, h: Happening, pid: nat) {
    pid !in before.alive || (h.ARound? && pid in h.deaths(0))
  }

  /**
   A publisher found dead is gone from the map once a round or a signal has passed, and never comes
   back: in an undisturbed round its address, if active, is given a new process.
   */
  lemma {:induction false} DeadPublisherIsReplaced(snaps: seq<Snapshot>, hs: seq<Happening>, i: nat, j: nat, pid: nat)
    requires History(snaps, hs) && i < j <= |hs|
    requires pid in snaps[i].publishers.Values && FoundDeadBy(snaps[i], hs[i], pid)
    ensures Reconciling(snaps[j - 1], hs[j - 1]) ==> snaps[j].publishers.Keys == Addresses(hs[j - 1].cidrs)
    ensures pid !in snaps[j].publishers.Values && pid < snaps[j].spawned
  {
    hide History, Accounted, Handled, Reconciling, Addresses, FoundDeadBy;
    HistoryAt(snaps, hs, i);
    HistoryAt(snaps, hs, j - 1);
    MappedIsSpawned(snaps[i], pid);
    GoneForGood(snaps, hs, i, j, pid);
    ReconcilingCovers(snaps[j - 1], hs[j - 1], snaps[j]);
  }

  /**
   No death escapes the script: whenever in a round a publisher dies, the next round is the last to find it
   in the map.
   */
  lemma {:induction false} EveryDeathIsNoticed(snaps: seq<Snapshot>, hs: seq<Happening>, i: nat, j: nat, pid: nat)
    requires History(snaps, hs) && i + 1 < j <= |hs|
    requires pid in snaps[i].publishers.Values && hs[i].ARound? && Died(snaps[i], hs[i].deaths, pid)
    ensures pid !in snaps[i + 1].alive && pid !in snaps[j].publishers.Values
  {
    hide History, Accounted, Handled, Died;
    HistoryAt(snaps, hs, i);
    MappedIsSpawned(snaps[i], pid);
    DeathStep(snaps[i], hs[i], snaps[i + 1], pid);
    GoneForGood(snaps, hs, i + 1, j, pid);
  }

  lemma {:induction false} GoneForGood(snaps: seq<Snapshot>, hs: seq<Happening>, i: nat, j: nat, pid: nat)
    requires History(snaps, hs) && i < j <= |hs|
    requires pid < snaps[i].spawned && (pid !in snaps[i].publishers.Values || FoundDeadBy(snaps[i], hs[i], pid))
    ensures pid !in snaps[j].publishers.Values && pid < snaps[j].spawned
  {
    hide History, Accounted, Handled, FoundDeadBy;
    HistoryAt(snaps, hs, j - 1);
    if i < j - 1 {
      GoneForGood(snaps, hs, i, j - 1, pid);
    }
    GoneStep(snaps[j - 1], hs[j - 1], snaps[j], pid);
  }

  lemma {:induction false} HistoryAt(snaps: seq<Snapshot>, hs: seq<Happening>, i: nat)
    requires History(snaps, hs) && i < |hs|
    ensures |snaps| == |hs| + 1
    ensures Accounted(snaps[i]) && Accounted(snaps[i + 1]) && Handled(snaps[i], hs[i], snaps[i + 1])
  {
  }

  lemma {:induction false} ReconcilingCovers(before: Snapshot, h: Happening, after: Snapshot)
    requires Handled(before, h, after)
    ensures Reconciling(before, h) ==> after.publishers.Keys == Addresses(h.cidrs)
  {
    if Reconciling(before, h) {
      QuietKeepsKeys(before.publishers, Addresses(h.cidrs), h.signals);
    }
    hide Died, Quiet, LosesKey, IsRecoveryName, Addresses;
  }

  /** One happening: a dead process leaves the map, and one outside the map stays outside. */
  lemma {:induction false} GoneStep(before: Snapshot, h: Happening, after: Snapshot, pid: nat)
    requires Accounted(after) && Handled(before, h, after)
    requires pid < before.spawned && (pid !in before.publishers.Values || FoundDeadBy(before, h, pid))
    ensures pid !in after.publishers.Values && pid < after.spawned
  {
    hide Accounted, Died, Quiet, LosesKey, IsRecoveryName, Addresses;
    forall a | a in after.publishers ensures after.publishers[a] != pid {
      assert a in before.publishers ==> before.publishers[a] in before.publishers.Values;
    }
  }

  lemma {:induction false} DeathStep(before: Snapshot, h: Happening, after: Snapshot, pid: nat)
    requires Accounted(after) && Handled(before, h, after)
    requires pid < before.spawned && h.ARound? && Died(before, h.deaths, pid)
    ensures pid !in after.alive && pid < after.spawned
  {
    hide Died, Quiet, LosesKey, IsRecoveryName, Addresses, OneToOne;
  }

  // -------------------------------------------------------------------- the whole script

  /**
   Any number of rounds and signals, and then the script exits: at the end of the list, or because
   a signal took away a key under the first loop. No child survives it either way.
   */
  method Script(happenings: seq<Happening>) returns (p: Publisher, ghost snaps: seq<Snapshot>)
    ensures fresh(p) && p.Valid() && p.publishers == map[] && p.alive == {} && p.reaped == Below(p.spawned)
    ensures 0 < |snaps| <= |happenings| + 1 && History(snaps, happenings[..|snaps| - 1])
    ensures p.spawned == snaps[|snaps| - 1].spawned
    ensures forall i | 0 <= i < |snaps| - 2 :: !Ends(snaps[i], happenings[i])
    ensures |snaps| <= |happenings| ==> 2 <= |snaps| && Ends(snaps[|snaps| - 2], happenings[|snaps| - 2])
  {
    hide Accounted, Handled, Ends;
    p := new Publisher();
    snaps := [p.Snap()];
    var i, lost := 0, false;
    while i < |happenings| && !lost
      invariant fresh(p) && p.Valid()
      invariant i <= |happenings| && |snaps| == i + 1 && snaps[i] == p.Snap() && History(snaps, happenings[..i])
      invariant forall k | 0 <= k < i :: Ends(snaps[k], happenings[k]) <==> lost && k == i - 1
      invariant lost ==> 0 < i
    {
      lost := p.Meet(happenings[i]);
      HistorySnoc(snaps, happenings[..i], happenings[i], p.Snap());
      assert happenings[..i + 1] == happenings[..i] + [happenings[i]];
      snaps := snaps + [p.Snap()];
      i := i + 1;
    }
    p.StopAll();
  }

  lemma {:induction false} HistorySnoc(snaps: seq<Snapshot>, hs: seq<Happening>, h: Happening, after: Snapshot)
    requires History(snaps, hs) && Accounted(after) && Handled(snaps[|hs|], h, after)
    ensures History(snaps + [after], hs + [h])
  {
    hide Accounted, Handled;
    var snaps', hs' := snaps + [after], hs + [h];
    forall i | 0 <= i < |snaps'| ensures Accounted(snaps'[i]) {
      assert i < |snaps| ==> snaps'[i] == snaps[i];
    }
    forall i | 0 <= i < |hs'| ensures Handled(snaps'[i], hs'[i], snaps'[i + 1]) {
      assert i < |hs| ==> hs'[i] == hs[i] && snaps'[i + 1] == snaps[i + 1];
    }
  }
}
