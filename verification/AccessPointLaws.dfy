/**
 What the merged access-point list means to a client, proved from its specification
 `AccessPoints.Merged`, which the loop meets.
 */
module AccessPointLaws {
  import opened Wrappers
  import opened AccessPoints

  // ------------------------------------------------------------ the list is determined

  lemma {:induction false} FirstIsMember(s: seq<AccessPoint>)
    ensures s != [] ==> s[0] in s
  {
  }

  /** Two lists sorted the same strict way and holding the same entries are equal. */
  lemma {:induction false} SortedUnique(rank: Key -> nat, x: seq<AccessPoint>, y: seq<AccessPoint>)
    requires Ordered(rank, x) && Ordered(rank, y)
    requires forall e :: e in x <==> e in y
    ensures x == y
  {
    FirstIsMember(x);
    FirstIsMember(y);
    if x != [] {
      assert x[0] in y;
      assert y[0] in x;
      assert x[0] == y[0];
      forall e ensures e in x[1..] <==> e in y[1..] {
        assert e in x[1..] ==> e in x && Before(rank, x[0], e);
        assert e in y[1..] ==> e in y && Before(rank, y[0], e);
        assert x == [x[0]] + x[1..] && y == [y[0]] + y[1..];
      }
      SortedUnique(rank, x[1..], y[1..]);
    }
  }

  /** The specification leaves no freedom: a list of readings has one merged list. */
  lemma {:induction false} MergedUnique(rs: seq<Reading>, activePath: string, x: seq<AccessPoint>, y: seq<AccessPoint>)
    requires Merged(rs, activePath, x) && Merged(rs, activePath, y)
    ensures x == y
  {
    var wanted := Entries(rs, activePath);
    hide Entries;
    assert forall e :: e in x <==> e in y by {
      assert forall e | e in x :: wanted(e.Key()) == Some(e);
      assert forall e | e in y :: wanted(e.Key()) == Some(e);
    }
    SortedUnique(Arrivals(rs), x, y);
  }

  // ----------------------------------------------------------------- one entry's meaning

  lemma {:induction false} StrongestIsFirstMax(g: seq<Reading>)
    requires g != []
    ensures forall i | 0 <= i < |g| :: g[i].strength <= g[Strongest(g)].strength
    ensures forall i | 0 <= i < Strongest(g) :: g[i].strength < g[Strongest(g)].strength
  {
    var n := |g| - 1;
    if n > 0 {
      StrongestIsFirstMax(g[..n]);
      assert forall i | 0 <= i < n :: g[..n][i] == g[i];
    }
  }

  /** Dropping the last reading changes nothing about the earlier ones. */
  lemma {:induction false} FrontSame(g: seq<Reading>)
    requires g != []
    ensures var n := |g| - 1; forall i | 0 <= i < n :: g[..n][i] == g[i] && g[..n][..i] == g[..i]
  {
  }

  /** Reading `i` counts. */
  predicate Counts(g: seq<Reading>, i: nat)
    requires i < |g|
  {
    !PassedOver(g[..i], g[i])
  }

  lemma {:induction false} FrontCounts(g: seq<Reading>)
    requires g != []
    ensures var n := |g| - 1; forall i | 0 <= i < n :: Counts(g[..n], i) == Counts(g, i)
  {
    FrontSame(g);
  }

  /** Exactly which readings count: those whose BSSID is new, and those beating every earlier one. */
  lemma {:induction false} KeptHas(g: seq<Reading>, r: Reading)
    ensures r in Kept(g) <==> exists i :: 0 <= i < |g| && g[i] == r && Counts(g, i)
  {
    if g != [] {
      hide PassedOver;
      var n := |g| - 1;
      KeptHas(g[..n], r);
      FrontCounts(g);
      assert forall i | 0 <= i < n :: g[..n][i] == g[i];
    }
  }

  predicate Distinct(s: seq<string>) {
    forall i, j | 0 <= i < j < |s| :: s[i] != s[j]
  }

  lemma {:induction false} SameEnds(a: seq<Reading>, b: seq<Reading>, r: Reading)
    ensures a + [r] == b + [r] <==> a == b
  {
    assert (a + [r])[..|a|] == a && (b + [r])[..|b|] == b;
  }

  lemma {:induction false} KeptIsShorter(g: seq<Reading>)
    ensures |Kept(g)| <= |g|
  {
    if g != [] {
      hide PassedOver;
      KeptIsShorter(g[..|g| - 1]);
    }
  }

  /** The last reading is kept beside all the others exactly when it counts. */
  lemma {:induction false} AllKeptSnoc(g: seq<Reading>)
    requires g != []
    ensures var n := |g| - 1; Kept(g) == g <==> Kept(g[..n]) == g[..n] && Counts(g, n)
  {
    hide PassedOver;
    var n := |g| - 1;
    KeptIsShorter(g[..n]);
    if Counts(g, n) {
      SameEnds(Kept(g[..n]), g[..n], g[n]);
      assert g == g[..n] + [g[n]];
    }
  }

  /** All BSSIDs are listed in arrival order exactly when no reading is passed over. */
  lemma {:induction false} AllKeptExact(g: seq<Reading>)
    ensures |Kept(g)| <= |g|
    ensures Kept(g) == g <==> forall i | 0 <= i < |g| :: Counts(g, i)
  {
    KeptIsShorter(g);
    if g != [] {
      AllKeptExact(g[..|g| - 1]);
      AllKeptSnoc(g);
      FrontCounts(g);
      hide Kept, Counts;
    }
  }

  /** A BSSID heard before that counts all the same. */
  predicate Relisted(g: seq<Reading>, i: nat)
    requires i < |g|
  {
    g[i].bssid in Bssids(g[..i]) && Counts(g, i)
  }

  lemma {:induction false} DistinctSnoc(s: seq<string>, b: string)
    ensures Distinct(s + [b]) <==> Distinct(s) && b !in s
  {
    var t := s + [b];
    assert forall i | 0 <= i < |s| :: t[i] == s[i];
    assert t[|s|] == b;
  }

  /** A BSSID is listed twice exactly when a repeated BSSID comes with a new maximum. */
  lemma {:induction false} DuplicatesExact(g: seq<Reading>)
    ensures Distinct(Bssids(Kept(g))) <==> forall i | 0 <= i < |g| :: !Relisted(g, i)
  {
    if g != [] {
      var n := |g| - 1;
      DuplicatesExact(g[..n]);
      KeptHasAll(g[..n], g[n].bssid);
      var k := Kept(g[..n]);
      assert Bssids(k + [g[n]]) == Bssids(k) + [g[n].bssid];
      DistinctSnoc(Bssids(k), g[n].bssid);
      FrontSame(g);
      FrontCounts(g);
      assert forall i | 0 <= i < n :: Relisted(g[..n], i) == Relisted(g, i);
      assert Kept(g) == if Counts(g, n) then k + [g[n]] else k;
      assert Relisted(g, n) <==> g[n].bssid in Bssids(k) && Counts(g, n);
    }
  }

  /** The flag of the network in use is lost exactly when every reading of the active access point is passed over. */
  lemma {:induction false} ActiveLostExact(g: seq<Reading>, activePath: string)
    ensures AnyActive(g, activePath) && !AnyActive(Kept(g), activePath) <==>
            && (exists i :: 0 <= i < |g| && g[i].path == activePath)
            && (forall i | 0 <= i < |g| && g[i].path == activePath :: !Counts(g, i))
  {
    forall r ensures r in Kept(g) <==> exists i :: 0 <= i < |g| && g[i] == r && Counts(g, i) {
      KeptHas(g, r);
    }
    forall i | 0 <= i < |g| && g[i].path == activePath && Counts(g, i) ensures AnyActive(Kept(g), activePath) {
      assert g[i] in Kept(g);
    }
  }

  /** The entry of a network heard twice. */
  lemma {:induction false} PairEntry(first: Reading, second: Reading, activePath: string)
    requires first.Key() == second.Key()
    ensures
      var known := AccessPoint(first.ssid, first.bssid, [first.bssid], first.strength, first.frequency, first.Secured(),
                               first.path == activePath);
      Entry([first, second], activePath) == Absorb(Some(known), second, activePath)
  {
    hide Entry;
    FirstEntry(first, activePath);
    assert [] + [first] == [first] && [first] + [second] == [first, second];
    EntrySnoc([first], second, activePath);
  }

  /** Both do happen: a weaker duplicate loses the flag, a stronger one is listed twice. */
  lemma {:induction false} DuplicatesMisbehave()
    ensures
      var first := Reading("/ap/1", "Shop", "aa", 50, 2412, 0, 0, 0);
      var weaker := Reading("/ap/2", "Shop", "aa", 40, 2412, 0, 0, 0);
      var stronger := Reading("/ap/2", "Shop", "aa", 60, 2412, 0, 0, 0);
      && !Entry([first, weaker], "/ap/2").active
      && Entry([first, stronger], "/ap/2").bssids == ["aa", "aa"]
  {
    var first := Reading("/ap/1", "Shop", "aa", 50, 2412, 0, 0, 0);
    var weaker := Reading("/ap/2", "Shop", "aa", 40, 2412, 0, 0, 0);
    var stronger := Reading("/ap/2", "Shop", "aa", 60, 2412, 0, 0, 0);
    hide Entry;
    PairEntry(first, weaker, "/ap/2");
    PairEntry(first, stronger, "/ap/2");
  }

  /** With distinct BSSIDs both are right: every BSSID once, in arrival order, and the active flag is the OR. */
  lemma {:induction false} DistinctAllKept(g: seq<Reading>)
    requires Distinct(Bssids(g))
    ensures Kept(g) == g
  {
    forall i | 0 <= i < |g| ensures Counts(g, i) {
      assert forall j | 0 <= j < i :: g[..i][j].bssid == Bssids(g)[j];
      assert g[i].bssid == Bssids(g)[i];
    }
    AllKeptExact(g);
  }

  // ------------------------------------------------------------------ the whole list

  /** No two readings of one network share a BSSID. */
  predicate DistinctBssids(rs: seq<Reading>) {
    forall i, j | 0 <= i < j < |rs| :: rs[i].ssid != "" && rs[i].Key() == rs[j].Key() ==> rs[i].bssid != rs[j].bssid
  }

  lemma {:induction false} GroupDistinct(rs: seq<Reading>, k: Key)
    requires DistinctBssids(rs)
    ensures Distinct(Bssids(Group(rs, k)))
  {
    if rs != [] {
      var n := |rs| - 1;
      var front, last := rs[..n], rs[n];
      GroupDistinct(front, k);
      if last.ssid != "" && last.Key() == k {
        var g := Group(front, k);
        forall i | 0 <= i < |g| ensures g[i].bssid != last.bssid {
          GroupHas(front, k, g[i]);
          var j :| 0 <= j < n && front[j] == g[i];
          assert rs[j].bssid != rs[n].bssid;
        }
        assert Bssids(g + [last]) == Bssids(g) + [last.bssid];
      }
    }
  }

  /** An entry speaks for the first of its group's strongest readings. */
  lemma {:induction false} BestReading(g: seq<Reading>, activePath: string)
    requires g != []
    ensures var e := Entry(g, activePath);
            exists m :: 0 <= m < |g| && e.strength == g[m].strength && e.bssid == g[m].bssid
                        && e.frequency == g[m].frequency
                        && (forall i | 0 <= i < |g| :: g[i].strength <= g[m].strength)
                        && (forall i | 0 <= i < m :: g[i].strength < g[m].strength)
  {
    StrongestIsFirstMax(g);
    var m := Strongest(g);
    var e := Entry(g, activePath);
    assert e.strength == g[m].strength && e.bssid == g[m].bssid && e.frequency == g[m].frequency;
  }

  /** By name, and by whether any of the access point's three sets of security flags is set. */
  predicate SameNetwork(r: Reading, e: AccessPoint) {
    r.ssid == e.ssid && (e.secured <==> (r.flags != 0 || r.wpaFlags != 0 || r.rsnFlags != 0))
  }

  lemma {:induction false} SameNetworkIsKey(r: Reading, e: AccessPoint)
    ensures SameNetwork(r, e) <==> r.Key() == e.Key()
  {
  }

  /**
   The full specification for readings with distinct BSSIDs per network: one entry per network
   heard; the group's maximum strength, with BSSID and frequency of the first reading reaching it;
   exactly the group's BSSIDs in arrival order; active when one of the group is.
   */
  lemma {:induction false} MergedMeaning(rs: seq<Reading>, activePath: string, out: seq<AccessPoint>, e: AccessPoint)
    requires Merged(rs, activePath, out) && DistinctBssids(rs) && e in out
    ensures
      var g := Group(rs, e.Key());
      && g != []
      && (forall r :: r in g <==> r in rs && r.ssid != "" && SameNetwork(r, e))
      && (exists m :: 0 <= m < |g| && e.strength == g[m].strength && e.bssid == g[m].bssid
                      && e.frequency == g[m].frequency
                      && (forall i | 0 <= i < |g| :: g[i].strength <= g[m].strength)
                      && (forall i | 0 <= i < m :: g[i].strength < g[m].strength))
      && e.bssids == Bssids(g)
      && (e.active <==> exists r :: r in g && r.path == activePath)
  {
    var k := e.Key();
    var g := Group(rs, k);
    assert EntryOf(rs, activePath, k) == Entries(rs, activePath)(k) == Some(e);
    forall r ensures r in g <==> r in rs && r.ssid != "" && SameNetwork(r, e) {
      GroupHas(rs, k, r);
      SameNetworkIsKey(r, e);
    }
    hide SameNetwork;
    GroupDistinct(rs, k);
    DistinctAllKept(g);
    BestReading(g, activePath);
  }

  /** The group `g` is made of the readings at the positions `at`, in order, which are all of network `k`. */
  predicate Picked(rs: seq<Reading>, k: Key, at: seq<nat>, g: seq<Reading>) {
    && |at| == |g|
    && (forall i, j | 0 <= i < j < |at| :: at[i] < at[j])
    && (forall i | 0 <= i < |at| :: at[i] < |rs| && rs[at[i]] == g[i])
    && (forall i: nat | i < |rs| && rs[i].ssid != "" && rs[i].Key() == k :: i in at)
  }

  /** A group is in arrival order, and misses no reading of its network. */
  lemma {:induction false} GroupInOrder(rs: seq<Reading>, k: Key) returns (at: seq<nat>)
    ensures Picked(rs, k, at, Group(rs, k))
  {
    hide Picked;
    at := [];
    if rs == [] {
      PickedNothing(k);
    } else {
      var n := |rs| - 1;
      at := GroupInOrder(rs[..n], k);
      PickedSnoc(rs[..n], k, at, Group(rs[..n], k), rs[n]);
      assert rs[..n] + [rs[n]] == rs;
      at := if rs[n].ssid != "" && rs[n].Key() == k then at + [n] else at;
    }
  }

  lemma {:induction false} PickedNothing(k: Key)
    ensures Picked([], k, [], Group([], k))
  {
  }

  lemma {:induction false} PickedSnoc(rs: seq<Reading>, k: Key, at: seq<nat>, g: seq<Reading>, r: Reading)
    requires Picked(rs, k, at, g)
    ensures if r.ssid != "" && r.Key() == k then Picked(rs + [r], k, at + [|rs|], g + [r])
            else Picked(rs + [r], k, at, g)
  {
    var more := rs + [r];
    assert forall i | 0 <= i < |rs| :: more[i] == rs[i];
    if r.ssid != "" && r.Key() == k {
      var ends := at + [|rs|];
      forall i: nat | i < |more| && more[i].ssid != "" && more[i].Key() == k ensures i in ends {
        assert i < |rs| ==> i in at;
        assert i == |rs| ==> ends[|at|] == i;
      }
    }
  }

  predicate Listed(out: seq<AccessPoint>, k: Key) {
    exists e :: e in out && e.Key() == k
  }

  predicate HasReading(rs: seq<Reading>, k: Key) {
    exists r :: r in rs && r.ssid != "" && r.Key() == k
  }

  /** One entry per network, and one for every network. */
  lemma {:induction false} OneEntryPerNetwork(rs: seq<Reading>, activePath: string, out: seq<AccessPoint>)
    requires Merged(rs, activePath, out)
    ensures forall i, j | 0 <= i < j < |out| :: out[i].Key() != out[j].Key()
    ensures forall k :: Listed(out, k) <==> HasReading(rs, k)
    ensures forall i, j | 0 <= i < j < |out| :: !(out[i].ssid == out[j].ssid && out[i].secured == out[j].secured)
    ensures forall r | r in rs && r.ssid != "" :: exists e :: e in out && SameNetwork(r, e)
    ensures forall e | e in out :: exists r :: r in rs && r.ssid != "" && SameNetwork(r, e)
  {
    ListedNetworks(rs, activePath, out);
    hide Merged, Listed, HasReading;
    forall r | r in rs && r.ssid != "" ensures exists e :: e in out && SameNetwork(r, e) {
      HasItself(rs, r);
      var e := ListedOne(out, r.Key());
      SameNetworkIsKey(r, e);
    }
    forall e | e in out ensures exists r :: r in rs && r.ssid != "" && SameNetwork(r, e) {
      ListsItself(out, e);
      var r := ReadOne(rs, e.Key());
      SameNetworkIsKey(r, e);
    }
  }

  lemma {:induction false} HasItself(rs: seq<Reading>, r: Reading)
    requires r in rs && r.ssid != ""
    ensures HasReading(rs, r.Key())
  {
  }

  lemma {:induction false} ListsItself(out: seq<AccessPoint>, e: AccessPoint)
    requires e in out
    ensures Listed(out, e.Key())
  {
  }

  lemma {:induction false} ListedOne(out: seq<AccessPoint>, k: Key) returns (e: AccessPoint)
    requires Listed(out, k)
    ensures e in out && e.Key() == k
  {
    e :| e in out && e.Key() == k;
  }

  lemma {:induction false} ReadOne(rs: seq<Reading>, k: Key) returns (r: Reading)
    requires HasReading(rs, k)
    ensures r in rs && r.ssid != "" && r.Key() == k
  {
    r :| r in rs && r.ssid != "" && r.Key() == k;
  }

  lemma {:induction false} ListedNetworks(rs: seq<Reading>, activePath: string, out: seq<AccessPoint>)
    requires Merged(rs, activePath, out)
    ensures forall i, j | 0 <= i < j < |out| :: out[i].Key() != out[j].Key()
    ensures forall k :: Listed(out, k) <==> HasReading(rs, k)
  {
    var wanted := Entries(rs, activePath);
    forall i, j | 0 <= i < j < |out| ensures out[i].Key() != out[j].Key() {
      assert Before(Arrivals(rs), out[i], out[j]);
      assert out[i] in out && out[j] in out;
      assert wanted(out[i].Key()) == Some(out[i]) && wanted(out[j].Key()) == Some(out[j]);
    }
    forall k ensures Listed(out, k) <==> HasReading(rs, k) {
      assert wanted(k) == EntryOf(rs, activePath, k);
      if r :| r in rs && r.ssid != "" && r.Key() == k {
        GroupHas(rs, k, r);
        EntryKey(rs, activePath, k);
        assert wanted(k).value in out;
      }
      if e :| e in out && e.Key() == k {
        var g := Group(rs, k);
        GroupHas(rs, k, g[0]);
      }
    }
  }

  /** Some reading of the first network comes before any of the second. */
  predicate HeardBefore(rs: seq<Reading>, a: AccessPoint, b: AccessPoint) {
    exists m :: 0 <= m < |rs| && rs[m].ssid != "" && SameNetwork(rs[m], a)
                && forall n | 0 <= n <= m :: rs[n].ssid == "" || !SameNetwork(rs[n], b)
  }

  /** The list goes from strong to weak, and equally strong networks come in the order they were first heard. */
  lemma {:induction false} StrongestFirst(rs: seq<Reading>, activePath: string, out: seq<AccessPoint>, i: nat, j: nat)
    requires Merged(rs, activePath, out) && i < j < |out|
    ensures out[i].strength >= out[j].strength
    ensures out[i].strength == out[j].strength ==> HeardBefore(rs, out[i], out[j])
  {
    var a, b := out[i], out[j];
    assert Before(Arrivals(rs), a, b);
    if a.strength == b.strength {
      assert Arrivals(rs)(a.Key()) == Arrival(rs, a.Key()) && Arrivals(rs)(b.Key()) == Arrival(rs, b.Key());
      FirstHeard(rs, a, b);
    }
  }

  lemma {:induction false} FirstHeard(rs: seq<Reading>, a: AccessPoint, b: AccessPoint)
    requires Arrival(rs, a.Key()) < Arrival(rs, b.Key())
    ensures HeardBefore(rs, a, b)
  {
    hide SameNetwork;
    var m := Arrival(rs, a.Key());
    SameNetworkIsKey(rs[m], a);
    forall n | 0 <= n <= m ensures rs[n].ssid == "" || !SameNetwork(rs[n], b) {
      SameNetworkIsKey(rs[n], b);
    }
  }

  // --------------------------------------------------------------- order independence

  datatype Summary = Summary(key: Key, strength: int, bssids: set<string>, active: bool)

  function Summarize(e: AccessPoint): Summary {
    Summary(e.Key(), e.strength, (set b | b in e.bssids), e.active)
  }

  lemma {:induction false} TwoOccurrences<T>(s: seq<T>, i: nat, j: nat)
    requires i < j < |s| && s[i] == s[j]
    ensures multiset(s)[s[i]] >= 2
  {
    assert s == s[..j] + s[j..];
    assert s[i] in s[..j];
    assert s[j..][0] == s[j];
  }

  lemma {:induction false} TwoIndices<T>(s: seq<T>, x: T) returns (i: nat, j: nat)
    requires multiset(s)[x] >= 2
    ensures i < j < |s| && s[i] == s[j] == x
  {
    var n := |s| - 1;
    assert s == s[..n] + [s[n]];
    if s[n] == x {
      assert x in multiset(s[..n]);
      i :| 0 <= i < n && s[i] == x;
      j := n;
    } else {
      i, j := TwoIndices(s[..n], x);
    }
  }

  lemma {:induction false} NoTwins(a: seq<Reading>, r: Reading)
    requires DistinctBssids(a) && r.ssid != ""
    ensures multiset(a)[r] <= 1
  {
    if multiset(a)[r] >= 2 {
      var i, j := TwoIndices(a, r);
      assert false;
    }
  }

  /** Having distinct BSSIDs does not depend on the order. */
  lemma {:induction false} DistinctAnyOrder(a: seq<Reading>, b: seq<Reading>)
    requires multiset(a) == multiset(b) && DistinctBssids(a)
    ensures DistinctBssids(b)
  {
    forall i, j | 0 <= i < j < |b| && b[i].ssid != "" && b[i].Key() == b[j].Key() ensures b[i].bssid != b[j].bssid {
      NoTwins(a, b[i]);
      if b[i] == b[j] {
        TwoOccurrences(b, i, j);
      } else {
        assert b[i] in multiset(a) && b[j] in multiset(a);
        var i' :| 0 <= i' < |a| && a[i'] == b[i];
        var j' :| 0 <= j' < |a| && a[j'] == b[j];
      }
    }
  }

  /** The same group in another order has the same maximum. */
  lemma {:induction false} SameMaximum(g: seq<Reading>, h: seq<Reading>)
    requires g != [] && h != []
    requires forall r :: r in g <==> r in h
    ensures g[Strongest(g)].strength == h[Strongest(h)].strength
  {
    StrongestIsFirstMax(g);
    StrongestIsFirstMax(h);
    assert g[Strongest(g)] in h && h[Strongest(h)] in g;
  }

  lemma {:induction false} SameGroup(a: seq<Reading>, b: seq<Reading>, k: Key)
    requires multiset(a) == multiset(b)
    ensures forall r :: r in Group(a, k) <==> r in Group(b, k)
  {
    forall r ensures r in Group(a, k) <==> r in Group(b, k) {
      GroupHas(a, k, r);
      GroupHas(b, k, r);
      assert r in a <==> r in multiset(a);
      assert r in b <==> r in multiset(b);
    }
  }

  lemma {:induction false} SameGroupSameSummary(g: seq<Reading>, h: seq<Reading>, activePath: string)
    requires g != [] && h != []
    requires forall r :: r in g <==> r in h
    requires Distinct(Bssids(g)) && Distinct(Bssids(h))
    requires Entry(g, activePath).Key() == Entry(h, activePath).Key()
    ensures Summarize(Entry(g, activePath)) == Summarize(Entry(h, activePath))
  {
    DistinctAllKept(g);
    DistinctAllKept(h);
    SameMaximum(g, h);
    SameBssids(g, h);
    SameBssids(h, g);
    hide Strongest, Kept, Bssids;
    assert (set b | b in Bssids(g)) == (set b | b in Bssids(h));
  }

  /** The same readings in another order give every network the same summary. */
  lemma {:induction false} SummarySurvives(a: seq<Reading>, b: seq<Reading>, activePath: string, k: Key)
    requires multiset(a) == multiset(b) && DistinctBssids(a) && DistinctBssids(b) && Heard(a, k)
    ensures Heard(b, k) && Summarize(Entry(Group(a, k), activePath)) == Summarize(Entry(Group(b, k), activePath))
  {
    hide Group, Entry, Summarize, Distinct, DistinctBssids;
    SameGroup(a, b, k);
    assert Group(a, k)[0] in Group(b, k);
    EntryKey(a, activePath, k);
    EntryKey(b, activePath, k);
    GroupDistinct(a, k);
    GroupDistinct(b, k);
    SameGroupSameSummary(Group(a, k), Group(b, k), activePath);
  }

  lemma {:induction false} SameBssids(g: seq<Reading>, h: seq<Reading>)
    requires forall r | r in g :: r in h
    ensures forall b | b in Bssids(g) :: b in Bssids(h)
  {
    forall b | b in Bssids(g) ensures b in Bssids(h) {
      var i :| 0 <= i < |g| && Bssids(g)[i] == b;
      assert g[i] in g;
      var j :| 0 <= j < |h| && h[j] == g[i];
      assert Bssids(h)[j] == b;
    }
  }

  /** Merging is order-independent, up to the order and the representatives of the entries. */
  lemma {:induction false} OrderIndependent(a: seq<Reading>, b: seq<Reading>, activePath: string,
                                            outA: seq<AccessPoint>, outB: seq<AccessPoint>)
    requires multiset(a) == multiset(b) && DistinctBssids(a)
    requires Merged(a, activePath, outA) && Merged(b, activePath, outB)
    ensures (set e | e in outA :: Summarize(e)) == (set e | e in outB :: Summarize(e))
  {
    DistinctAnyOrder(a, b);
    SummariesIncluded(a, b, activePath, outA, outB);
    SummariesIncluded(b, a, activePath, outB, outA);
  }

  lemma {:induction false} SummariesIncluded(a: seq<Reading>, b: seq<Reading>, activePath: string,
                                             outA: seq<AccessPoint>, outB: seq<AccessPoint>)
    requires multiset(a) == multiset(b) && DistinctBssids(a) && DistinctBssids(b)
    requires Merged(a, activePath, outA) && Merged(b, activePath, outB)
    ensures forall e | e in outA :: exists e' :: e' in outB && Summarize(e') == Summarize(e)
  {
    forall e | e in outA ensures exists e' :: e' in outB && Summarize(e') == Summarize(e) {
      var k := e.Key();
      assert EntryOf(a, activePath, k) == Entries(a, activePath)(k) == Some(e);
      SummarySurvives(a, b, activePath, k);
      assert EntryOf(b, activePath, k) == Entries(b, activePath)(k);
      assert Entry(Group(b, k), activePath) in outB;
    }
  }

  /** If one reading at most is the active access point, one entry at most is active; duplicates or not. */
  lemma {:induction false} AtMostOneActive(rs: seq<Reading>, activePath: string, out: seq<AccessPoint>, i: nat, j: nat)
    requires Merged(rs, activePath, out)
    requires forall m, n | 0 <= m < n < |rs| :: !(rs[m].path == activePath && rs[n].path == activePath)
    requires i < j < |out|
    ensures !(out[i].active && out[j].active)
  {
    OneEntryPerNetwork(rs, activePath, out);
    if out[i].active && out[j].active {
      var m := ActiveReading(rs, activePath, out, out[i]);
      var n := ActiveReading(rs, activePath, out, out[j]);
    }
  }

  lemma {:induction false} ActiveReading(rs: seq<Reading>, activePath: string, out: seq<AccessPoint>, e: AccessPoint)
    returns (m: nat)
    requires Merged(rs, activePath, out) && e in out && e.active
    ensures m < |rs| && rs[m].path == activePath && rs[m].Key() == e.Key()
  {
    var k := e.Key();
    assert EntryOf(rs, activePath, k) == Entries(rs, activePath)(k) == Some(e);
    var g := Group(rs, k);
    var r :| r in Kept(g) && r.path == activePath;
    KeptHas(g, r);
    assert r in g;
    GroupHas(rs, k, r);
    m :| 0 <= m < |rs| && rs[m] == r;
  }
}
