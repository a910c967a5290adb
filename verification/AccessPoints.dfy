/**
 Grouping and merging of scanned access points: `_read_access_points`
 (src/appliance_admin/daemon/managers/network.py).

 `Merged` says what a result must be, for every list of readings, duplicates
 included, and `MergedUnique` that it says so completely.
 */
module AccessPoints {
  import opened Wrappers

  /** The properties read from one access-point object. */
  datatype Reading = Reading(
    path: string, ssid: string, bssid: string, strength: int, frequency: int,
    flags: nat, wpaFlags: nat, rsnFlags: nat)
  {
    predicate Secured() {
      flags != 0 || wpaFlags != 0 || rsnFlags != 0
    }

    function Key(): Key {
      Network(ssid, Secured())
    }
  }

  datatype Key = Network(ssid: string, secured: bool)

  /** One entry of the reply. */
  datatype AccessPoint = AccessPoint(
    ssid: string, bssid: string, bssids: seq<string>, strength: int, frequency: int, secured: bool, active: bool)
  {
    function Key(): Key {
      Network(ssid, secured)
    }
  }

  datatype ScanError = Unreadable | InvalidStrength(strength: int)

  predicate ValidStrength(r: Reading) {
    0 <= r.strength <= 100
  }

  // ------------------------------------------------------------------ specification

  /** The readings of one network, in arrival order. */
  function Group(rs: seq<Reading>, k: Key): seq<Reading> {
    if rs == [] then []
    else
      var front, last := rs[..|rs| - 1], rs[|rs| - 1];
      if last.ssid != "" && last.Key() == k then Group(front, k) + [last] else Group(front, k)
  }

  /** Position of a network's first reading, or `|rs|` if it was not heard. */
  function Arrival(rs: seq<Reading>, k: Key): (i: nat)
    ensures i <= |rs|
    ensures i < |rs| ==> rs[i].ssid != "" && rs[i].Key() == k
    ensures forall j | 0 <= j < i :: rs[j].ssid == "" || rs[j].Key() != k
  {
    if rs == [] || (rs[0].ssid != "" && rs[0].Key() == k) then 0 else 1 + Arrival(rs[1..], k)
  }

  predicate Heard(rs: seq<Reading>, k: Key) {
    Group(rs, k) != []
  }

  /** Position of the first of the strongest readings. */
  function Strongest(g: seq<Reading>): (m: nat)
    requires g != []
    ensures m < |g|
  {
    var n := |g| - 1;
    if n == 0 then 0
    else
      var m := Strongest(g[..n]);
      if g[n].strength > g[m].strength then n else m
  }

  function Bssids(g: seq<Reading>): seq<string> {
    seq(|g|, i requires 0 <= i < |g| => g[i].bssid)
  }

  /** A reading whose BSSID was heard before, and which does not beat every earlier one, is passed over. */
  predicate PassedOver(earlier: seq<Reading>, r: Reading) {
    r.bssid in Bssids(earlier) && earlier[Strongest(earlier)].strength >= r.strength
  }

  /** The readings that count: all but those passed over, in arrival order. */
  function Kept(g: seq<Reading>): seq<Reading> {
    if g == [] then []
    else
      var front, last := g[..|g| - 1], g[|g| - 1];
      if PassedOver(front, last) then Kept(front) else Kept(front) + [last]
  }

  predicate AnyActive(g: seq<Reading>, activePath: string) {
    exists r :: r in g && r.path == activePath
  }

  /** The entry for the network whose readings are `g`. */
  function Entry(g: seq<Reading>, activePath: string): AccessPoint
    requires g != []
  {
    var best := g[Strongest(g)];
    AccessPoint(best.ssid, best.bssid, Bssids(Kept(g)), best.strength, best.frequency, best.Secured(),
                AnyActive(Kept(g), activePath))
  }

  /** The entry a network must get, if it was heard. */
  function EntryOf(rs: seq<Reading>, activePath: string, k: Key): Option<AccessPoint> {
    if Heard(rs, k) then Some(Entry(Group(rs, k), activePath)) else None
  }

  /** Stronger first; equally strong networks in the order of `rank`. */
  predicate Before(rank: Key -> nat, a: AccessPoint, b: AccessPoint) {
    a.strength > b.strength || (a.strength == b.strength && rank(a.Key()) < rank(b.Key()))
  }

  predicate Ordered(rank: Key -> nat, out: seq<AccessPoint>) {
    forall i, j | 0 <= i < j < |out| :: Before(rank, out[i], out[j])
  }

  /** `out` holds every wanted entry, and nothing else. */
  ghost predicate Complete(wanted: Key -> Option<AccessPoint>, out: seq<AccessPoint>) {
    && (forall e | e in out :: wanted(e.Key()) == Some(e))
    && (forall k | wanted(k).Some? :: wanted(k).value in out)
  }

  function Arrivals(rs: seq<Reading>): Key -> nat {
    k => Arrival(rs, k)
  }

  function Entries(rs: seq<Reading>, activePath: string): Key -> Option<AccessPoint> {
    k => EntryOf(rs, activePath, k)
  }

  /** The specification: one right entry per network heard, strongest first, ties in the order they were first heard. */
  ghost predicate Merged(rs: seq<Reading>, activePath: string, out: seq<AccessPoint>) {
    Complete(Entries(rs, activePath), out) && Ordered(Arrivals(rs), out)
  }

  // ------------------------------------------------------------- one entry at a time

  lemma {:induction false} GroupSnoc(rs: seq<Reading>, r: Reading, k: Key)
    ensures Group(rs + [r], k) == if r.ssid != "" && r.Key() == k then Group(rs, k) + [r] else Group(rs, k)
  {
    assert (rs + [r])[..|rs|] == rs;
  }

  /** A network's group holds exactly its readings. */
  lemma {:induction false} GroupHas(rs: seq<Reading>, k: Key, r: Reading)
    ensures r in Group(rs, k) <==> r in rs && r.ssid != "" && r.Key() == k
  {
    if rs != [] {
      var n := |rs| - 1;
      assert rs == rs[..n] + [rs[n]];
      GroupHas(rs[..n], k, r);
    }
  }

  lemma {:induction false} ArrivalHeard(rs: seq<Reading>, k: Key)
    ensures Arrival(rs, k) < |rs| <==> Heard(rs, k)
  {
    var a := Arrival(rs, k);
    if a < |rs| {
      GroupHas(rs, k, rs[a]);
    } else if Heard(rs, k) {
      GroupHas(rs, k, Group(rs, k)[0]);
    }
  }

  lemma {:induction false} ArrivalSnoc(rs: seq<Reading>, r: Reading, k: Key)
    ensures Arrival(rs + [r], k) == if Heard(rs, k) || (r.ssid != "" && r.Key() == k) then Arrival(rs, k) else |rs| + 1
  {
    ArrivalHeard(rs, k);
    var a, b := Arrival(rs, k), Arrival(rs + [r], k);
    assert forall j | 0 <= j < |rs| :: (rs + [r])[j] == rs[j];
    assert (rs + [r])[|rs|] == r;
    if a < |rs| {
      assert (rs + [r])[a] == rs[a];
    }
  }

  /** No BSSID is lost by passing readings over. */
  lemma {:induction false} KeptHasAll(g: seq<Reading>, b: string)
    ensures b in Bssids(Kept(g)) <==> b in Bssids(g)
  {
    if g != [] {
      var front, last := g[..|g| - 1], g[|g| - 1];
      KeptHasAll(front, b);
      assert Bssids(g) == Bssids(front) + [last.bssid];
      assert Bssids(Kept(front) + [last]) == Bssids(Kept(front)) + [last.bssid];
    }
  }

  /** What one more reading `r` does to the entry of its network. */
  lemma {:induction false} EntrySnoc(g: seq<Reading>, r: Reading, activePath: string)
    requires g != [] && Entry(g, activePath).Key() == r.Key()
    ensures
      var known, here := Entry(g, activePath), r.path == activePath;
      Entry(g + [r], activePath) ==
        if r.strength > known.strength
        then AccessPoint(r.ssid, r.bssid, known.bssids + [r.bssid], r.strength, r.frequency, r.Secured(),
                         here || known.active)
        else if r.bssid !in known.bssids then known.(bssids := known.bssids + [r.bssid], active := known.active || here)
        else known
  {
    var g' := g + [r];
    assert g'[..|g|] == g && g'[|g|] == r;
    var m := Strongest(g);
    assert Strongest(g') == if r.strength > g[m].strength then |g| else m;
    KeptHasAll(g, r.bssid);
    assert Bssids(Kept(g) + [r]) == Bssids(Kept(g)) + [r.bssid];
  }

  // ------------------------------------------------------------------------- sorting

  /** Python's `sorted(..., key=strength, reverse=True)`: stable, strongest first. */
  function SortByStrength(es: seq<AccessPoint>): seq<AccessPoint> {
    if es == [] then [] else Insert(SortByStrength(es[..|es| - 1]), es[|es| - 1])
  }

  /** Behind every entry at least as strong. */
  function Slot(out: seq<AccessPoint>, e: AccessPoint): (p: nat)
    ensures p <= |out|
    ensures p > 0 ==> out[p - 1].strength >= e.strength
    ensures forall i | p <= i < |out| :: out[i].strength < e.strength
  {
    if out == [] then 0
    else
      var n := |out| - 1;
      if out[n].strength >= e.strength then n + 1 else Slot(out[..n], e)
  }

  function Insert(out: seq<AccessPoint>, e: AccessPoint): seq<AccessPoint> {
    var p := Slot(out, e);
    out[..p] + [e] + out[p..]
  }

  lemma {:induction false} InsertHas(out: seq<AccessPoint>, e: AccessPoint, x: AccessPoint)
    ensures x in Insert(out, e) <==> x == e || x in out
  {
    var p := Slot(out, e);
    assert out == out[..p] + out[p..];
  }

  lemma {:induction false} SortHas(es: seq<AccessPoint>, x: AccessPoint)
    ensures x in SortByStrength(es) <==> x in es
  {
    hide Insert;
    if es != [] {
      var n := |es| - 1;
      SortHas(es[..n], x);
      InsertHas(SortByStrength(es[..n]), es[n], x);
      assert es == es[..n] + [es[n]];
    }
  }

  lemma {:induction false} InsertOrdered(rank: Key -> nat, out: seq<AccessPoint>, e: AccessPoint)
    requires Ordered(rank, out)
    requires forall i | 0 <= i < |out| :: rank(out[i].Key()) < rank(e.Key())
    ensures Ordered(rank, Insert(out, e))
  {
    var p := Slot(out, e);
    var r := Insert(out, e);
    assert forall i | 0 <= i < p :: r[i] == out[i];
    assert r[p] == e;
    assert forall i | p < i < |r| :: r[i] == out[i - 1];
    forall i, j | 0 <= i < j < |r| ensures Before(rank, r[i], r[j]) {
      if i < p - 1 && j == p {
        assert Before(rank, out[i], out[p - 1]);
      }
    }
  }

  lemma {:induction false} SortOrdered(rank: Key -> nat, es: seq<AccessPoint>)
    requires forall i, j | 0 <= i < j < |es| :: rank(es[i].Key()) < rank(es[j].Key())
    ensures Ordered(rank, SortByStrength(es))
  {
    if es != [] {
      var n := |es| - 1;
      var out := SortByStrength(es[..n]);
      SortOrdered(rank, es[..n]);
      forall i | 0 <= i < |out| ensures rank(out[i].Key()) < rank(es[n].Key()) {
        SortHas(es[..n], out[i]);
        assert out[i] in es[..n];
      }
      InsertOrdered(rank, out, es[n]);
    }
  }

  // ------------------------------------------------------------------------- reading

  predicate Rejected(r: Reading) {
    r.ssid != "" && !ValidStrength(r)
  }

  /**
   The loop's dictionary: a wanted entry per key, its keys in the order of first insertion, which is that of
   `rank`.
   */
  ghost predicate Tabulates(wanted: Key -> Option<AccessPoint>, rank: Key -> nat, order: seq<Key>,
                            byNetwork: map<Key, AccessPoint>) {
    && (forall k :: wanted(k) == if k in byNetwork then Some(byNetwork[k]) else None)
    && (forall k :: k in byNetwork <==> k in order)
    && (forall k | k in byNetwork :: byNetwork[k].Key() == k)
    && (forall i, j | 0 <= i < j < |order| :: rank(order[i]) < rank(order[j]))
  }

  /** One insertion or replacement. */
  lemma {:induction false} TabulatesStep(wanted: Key -> Option<AccessPoint>, rank: Key -> nat,
                                         wanted': Key -> Option<AccessPoint>, rank': Key -> nat,
                                         order: seq<Key>, byNetwork: map<Key, AccessPoint>, key: Key, e: AccessPoint)
    requires Tabulates(wanted, rank, order, byNetwork) && e.Key() == key
    requires forall k :: wanted'(k) == if k == key then Some(e) else wanted(k)
    requires forall k | wanted(k).Some? :: rank'(k) == rank(k) && (key !in byNetwork ==> rank(k) < rank'(key))
    ensures Tabulates(wanted', rank', if key in byNetwork then order else order + [key], byNetwork[key := e])
  {
    var order' := if key in byNetwork then order else order + [key];
    forall i, j | 0 <= i < j < |order'| ensures rank'(order'[i]) < rank'(order'[j]) {
      assert order'[i] in order;
      if j < |order| {
        assert order[j] in order;
      }
    }
  }

  /** What reading `r` turns its network's entry into. */
  function Absorb(known: Option<AccessPoint>, r: Reading, activePath: string): AccessPoint {
    var here := r.path == activePath;
    if known.None? then AccessPoint(r.ssid, r.bssid, [r.bssid], r.strength, r.frequency, r.Secured(), here)
    else if r.strength > known.value.strength
    then AccessPoint(r.ssid, r.bssid, known.value.bssids + [r.bssid], r.strength, r.frequency, r.Secured(),
                     here || known.value.active)
    else if r.bssid !in known.value.bssids
    then known.value.(bssids := known.value.bssids + [r.bssid], active := known.value.active || here)
    else known.value
  }

  lemma {:induction false} EntryOfSnoc(rs: seq<Reading>, r: Reading, activePath: string, k: Key)
    ensures EntryOf(rs + [r], activePath, k) ==
            if r.ssid != "" && r.Key() == k then Some(Absorb(EntryOf(rs, activePath, k), r, activePath))
              else EntryOf(rs, activePath, k)
  {
    GroupSnoc(rs, r, k);
    if r.ssid != "" && r.Key() == k {
      if Heard(rs, k) {
        EntryKey(rs, activePath, k);
        EntrySnoc(Group(rs, k), r, activePath);
      } else {
        FirstEntry(r, activePath);
      }
    }
  }

  lemma {:induction false} EntryKey(rs: seq<Reading>, activePath: string, k: Key)
    requires Heard(rs, k)
    ensures Entry(Group(rs, k), activePath).Key() == k
  {
    var g := Group(rs, k);
    assert g[Strongest(g)] in g;
    GroupHas(rs, k, g[Strongest(g)]);
  }

  /** How one more reading changes what is wanted: only its own network's entry, and no earlier arrival. */
  ghost predicate Grows(wanted: Key -> Option<AccessPoint>, rank: Key -> nat, wanted': Key -> Option<AccessPoint>,
                        rank': Key -> nat,
                        n: nat, r: Reading, activePath: string) {
    && (forall k :: wanted'(k) == if r.ssid != "" && k == r.Key() then Some(Absorb(wanted(k), r, activePath))
        else wanted(k))
    && (forall k | wanted(k).Some? :: wanted(k).value.Key() == k && rank'(k) == rank(k) < n)
    && (r.ssid != "" && wanted(r.Key()).None? ==> rank'(r.Key()) == n)
  }

  lemma {:induction false} EntriesGrow(rs: seq<Reading>, r: Reading, activePath: string)
    ensures Grows(Entries(rs, activePath), Arrivals(rs), Entries(rs + [r], activePath), Arrivals(rs + [r]), |rs|, r,
                  activePath)
  {
    forall k
      ensures EntryOf(rs + [r], activePath, k) ==
              if r.ssid != "" && k == r.Key() then Some(Absorb(EntryOf(rs, activePath, k), r, activePath))
                else EntryOf(rs, activePath, k)
      ensures Heard(rs, k) ==> EntryOf(rs, activePath, k).value.Key() == k
                               && Arrival(rs + [r], k) == Arrival(rs, k) < |rs|
      ensures r.ssid != "" && !Heard(rs, k) && k == r.Key() ==> Arrival(rs + [r], k) == |rs|
    {
      EntryOfSnoc(rs, r, activePath, k);
      ArrivalHeard(rs, k);
      ArrivalSnoc(rs, r, k);
      if Heard(rs, k) {
        EntryKey(rs, activePath, k);
      }
    }
  }

  /** What one more reading does to the whole dictionary. */
  lemma {:induction false} TabulatesSnoc(wanted: Key -> Option<AccessPoint>, rank: Key -> nat,
                                         wanted': Key -> Option<AccessPoint>, rank': Key -> nat,
                                         n: nat, r: Reading, activePath: string, order: seq<Key>,
                                         byNetwork: map<Key, AccessPoint>)
    requires Tabulates(wanted, rank, order, byNetwork) && Grows(wanted, rank, wanted', rank', n, r, activePath)
    ensures
      var e := Absorb(if r.Key() in byNetwork then Some(byNetwork[r.Key()]) else None, r, activePath);
      if r.ssid == "" then Tabulates(wanted', rank', order, byNetwork)
      else Tabulates(wanted', rank', if r.Key() in byNetwork then order else order + [r.Key()], byNetwork[r.Key() := e])
  {
    if r.ssid == "" {
      assert forall i | 0 <= i < |order| :: order[i] in order;
    } else {
      TabulatesStep(wanted, rank, wanted', rank', order, byNetwork, r.Key(), Absorb(wanted(r.Key()), r, activePath));
    }
  }

  lemma {:induction false} FirstEntry(r: Reading, activePath: string)
    ensures Entry([] + [r], activePath) ==
            AccessPoint(r.ssid, r.bssid, [r.bssid], r.strength, r.frequency, r.Secured(), r.path == activePath)
  {
    var g := [r];
    assert [] + [r] == g && g[..0] == [] && g[0] == r;
    assert Kept(g) == Kept([]) + [r] == [r];
    assert Bssids(g) == [r.bssid];
  }

  /** The properties of an access point could not be read, or are not valid. */
  predicate Broken(r: Option<Reading>) {
    r.None? || Rejected(r.value)
  }

  function ErrorOf(r: Option<Reading>): ScanError {
    if r.None? then Unreadable else InvalidStrength(r.value.strength)
  }

  function Readings(listed: seq<Option<Reading>>): seq<Reading>
    requires forall i | 0 <= i < |listed| :: listed[i].Some?
  {
    seq(|listed|, i requires 0 <= i < |listed| && listed[i].Some? => listed[i].value)
  }

  /**
   `activePath` and `listed` are `None` when the device cannot be read, or the access points cannot
   be listed. The readings come in the order of that list; one may fail, and the first that is
   broken ends the scan with its error.
   */
  method ReadAccessPoints(activePath: Option<string>, listed: Option<seq<Option<Reading>>>)
    returns (r: Result<seq<AccessPoint>, ScanError>)
    ensures activePath.None? || listed.None? ==> r == Err(Unreadable)
    ensures activePath.Some? && listed.Some? ==>
              (r.Err? <==> exists i :: 0 <= i < |listed.value| && Broken(listed.value[i]))
    ensures activePath.Some? && listed.Some? ==>
              (r.Ok? <==> forall i | 0 <= i < |listed.value| ::
                            && listed.value[i].Some?
                            && (listed.value[i].value.ssid == "" || 0 <= listed.value[i].value.strength <= 100))
    ensures r.Err? && r.error.InvalidStrength? ==>
              && listed.Some? && !(0 <= r.error.strength <= 100)
              && exists i :: 0 <= i < |listed.value| && listed.value[i].Some? && listed.value[i].value.ssid != ""
                             && listed.value[i].value.strength == r.error.strength
    ensures activePath.Some? && listed.Some? && r.Err? ==>
              exists i :: 0 <= i < |listed.value| && Broken(listed.value[i]) && r.error == ErrorOf(listed.value[i])
                          && forall j | 0 <= j < i :: !Broken(listed.value[j])
    ensures r.Ok? ==> activePath.Some? && listed.Some?
                      && (forall i | 0 <= i < |listed.value| :: !Broken(listed.value[i]))
                      && Merged(Readings(listed.value), activePath.value, r.value)
  {
    if activePath.None? || listed.None? {
      return Err(Unreadable);
    }
    r := MergeReadings(activePath.value, listed.value);
  }

  /** The loop of `_read_access_points`. */
  method MergeReadings(activePath: string, listed: seq<Option<Reading>>)
    returns (r: Result<seq<AccessPoint>, ScanError>)
    ensures r.Err? ==> exists i :: 0 <= i < |listed| && Broken(listed[i]) && r.error == ErrorOf(listed[i])
                                   && forall j | 0 <= j < i :: !Broken(listed[j])
    ensures r.Ok? ==> (forall i | 0 <= i < |listed| :: !Broken(listed[i]))
                      && Merged(Readings(listed), activePath, r.value)
  {
    ghost var rs: seq<Reading> := [];
    hide Tabulates, Entries, Arrivals, Grows, Merged;
    var byNetwork: map<Key, AccessPoint> := map[];
    var order: seq<Key> := [];
    TabulatesNothing(rs, activePath);
    for n := 0 to |listed|
      invariant |rs| == n && forall i | 0 <= i < n :: listed[i] == Some(rs[i]) && !Broken(listed[i])
      invariant Tabulates(Entries(rs, activePath), Arrivals(rs), order, byNetwork)
    {
      if listed[n].None? {
        return Err(Unreadable);
      }
      var reading := listed[n].value;
      ghost var earlier := rs;
      rs := rs + [reading];
      EntriesGrow(earlier, reading, activePath);
      TabulatesSnoc(Entries(earlier, activePath), Arrivals(earlier), Entries(rs, activePath), Arrivals(rs),
                    n, reading, activePath, order, byNetwork);
      if reading.ssid == "" {
        continue;
      }
      if !ValidStrength(reading) {
        return Err(InvalidStrength(reading.strength));
      }
      var item := AccessPoint(reading.ssid, reading.bssid, [reading.bssid], reading.strength, reading.frequency,
                              reading.Secured(), reading.path == activePath);
      var key := Network(reading.ssid, reading.Secured());
      if key !in byNetwork {
        byNetwork := byNetwork[key := item];
        order := order + [key];
      } else {
        var known := byNetwork[key];
        if item.strength > known.strength {
          item := item.(bssids := known.bssids + [item.bssid], active := item.active || known.active);
          byNetwork := byNetwork[key := item];
        } else {
          if item.bssid !in known.bssids {
            known := known.(bssids := known.bssids + [item.bssid], active := known.active || item.active);
          }
          byNetwork := byNetwork[key := known];
        }
      }
    }
    assert rs == Readings(listed);
    OrderedKeys(Entries(rs, activePath), Arrivals(rs), order, byNetwork);
    var values := seq(|order|, i requires 0 <= i < |order| && order[i] in byNetwork => byNetwork[order[i]]);
    SortedIsMerged(rs, activePath, order, byNetwork, values);
    return Ok(SortByStrength(values));
  }

  lemma {:induction false} TabulatesNothing(rs: seq<Reading>, activePath: string)
    requires rs == []
    ensures Tabulates(Entries(rs, activePath), Arrivals(rs), [], map[])
  {
    assert forall k :: Entries(rs, activePath)(k) == EntryOf(rs, activePath, k) == None;
  }

  lemma {:induction false} OrderedKeys(wanted: Key -> Option<AccessPoint>, rank: Key -> nat, order: seq<Key>,
                                       byNetwork: map<Key, AccessPoint>)
    requires Tabulates(wanted, rank, order, byNetwork)
    ensures forall i | 0 <= i < |order| :: order[i] in byNetwork
  {
    assert forall i | 0 <= i < |order| :: order[i] in order;
  }

  /** Sorting the dictionary's values completes the job. */
  lemma {:induction false} SortedIsComplete(wanted: Key -> Option<AccessPoint>, rank: Key -> nat,
                                            order: seq<Key>, byNetwork: map<Key, AccessPoint>, values: seq<AccessPoint>)
    requires Tabulates(wanted, rank, order, byNetwork)
    requires |values| == |order| && forall i | 0 <= i < |order| :: order[i] in byNetwork
                                                                   && values[i] == byNetwork[order[i]]
    ensures Complete(wanted, SortByStrength(values)) && Ordered(rank, SortByStrength(values))
  {
    SortOrdered(rank, values);
    var out := SortByStrength(values);
    forall e | e in out ensures wanted(e.Key()) == Some(e) {
      SortHas(values, e);
      var j :| 0 <= j < |values| && values[j] == e;
    }
    forall k | wanted(k).Some? ensures wanted(k).value in out {
      var j :| 0 <= j < |order| && order[j] == k;
      assert values[j] in values;
      SortHas(values, values[j]);
    }
  }

  lemma {:induction false} SortedIsMerged(rs: seq<Reading>, activePath: string,
                                          order: seq<Key>, byNetwork: map<Key, AccessPoint>, values: seq<AccessPoint>)
    requires Tabulates(Entries(rs, activePath), Arrivals(rs), order, byNetwork)
    requires |values| == |order| && forall i | 0 <= i < |order| :: order[i] in byNetwork
                                                                   && values[i] == byNetwork[order[i]]
    ensures Merged(rs, activePath, SortByStrength(values))
  {
    SortedIsComplete(Entries(rs, activePath), Arrivals(rs), order, byNetwork, values);
  }
}
