/**
 Waiting for a scan to complete: `_request_scan_and_wait`
 (src/appliance_admin/daemon/managers/network.py).

 `values` is the history of NetworkManager's LastScan property (-1 when it is missing):
 `values[0]` is what the first read returns, `sub` is the moment the subscription takes
 effect, and the last value is the one in force when the wait ends.
 */
module ScanWait {
  import opened Wrappers

  datatype Outcome =
    | Completed
    | TimedOut       // BusyError: the scan did not complete before the timeout
    | Refused        // the scan request itself failed
    | Unavailable    // a property could not be read

  /** What the property-change callback and the re-read after the timeout accept. */
  predicate IsNew(previous: int, current: int) {
    current != previous && current >= 0
  }

  /** A scan finished after the first read. */
  predicate Finished(values: seq<int>)
    requires values != []
  {
    exists i :: 0 <= i < |values| && IsNew(values[0], values[i])
  }

  /** A signal that counts is delivered: the property changes to a new value after the subscription. */
  predicate Signalled(values: seq<int>, sub: nat)
    requires values != []
  {
    exists i :: sub < i < |values| && values[i] != values[i - 1] && IsNew(values[0], values[i])
  }

  /** What the daemon can see: a signal, or else the value it reads when the wait has timed out. */
  predicate Seen(values: seq<int>, sub: nat)
    requires values != []
  {
    Signalled(values, sub) || IsNew(values[0], values[|values| - 1])
  }

  method RequestScanAndWait(values: seq<int>, sub: nat, firstRead: bool, accepted: bool, reread: bool)
    returns (r: Outcome, subscribed: bool)
    requires sub < |values|
    ensures !subscribed
    ensures r.Unavailable? <==> !firstRead || (accepted && !reread && !Signalled(values, sub))
    ensures r.Refused? <==> firstRead && !accepted
    ensures r.Completed? ==> Seen(values, sub) && Finished(values)
    ensures r.TimedOut? ==> !Seen(values, sub)
    ensures r.Completed? ==> exists i :: 0 < i < |values| && values[i] != values[0] && 0 <= values[i]
    ensures r.TimedOut? ==> values[|values| - 1] == values[0] || values[|values| - 1] < 0
    ensures firstRead && accepted
            && (exists i :: sub < i < |values| && values[i] != values[i - 1] && values[i] != values[0]
                                          && 0 <= values[i]) ==>
              r.Completed?
  {
    subscribed := false;
    if !firstRead {
      return Unavailable, subscribed;
    }
    var previous := values[0];
    var finished := false;
    subscribed := true;
    if !accepted {
      subscribed := false;
      return Refused, subscribed;
    }
    // the event loop delivers the property changes until one sets the event or the wait times out
    var i := sub;
    while i + 1 < |values| && !finished
      invariant sub <= i < |values|
      invariant finished <==> exists j :: sub < j <= i && values[j] != values[j - 1] && IsNew(previous, values[j])
    {
      i := i + 1;
      if values[i] != values[i - 1] {
        var current := values[i];
        if current != previous && current >= 0 {
          finished := true;
        }
      }
    }
    if !finished {
      if !reread {
        subscribed := false;
        return Unavailable, subscribed;
      }
      var current := values[|values| - 1];
      if current == previous || current < 0 {
        subscribed := false;
        return TimedOut, subscribed;
      }
    }
    subscribed := false;
    return Completed, subscribed;
  }

  /** LastScan never falls. */
  predicate MovesForward(values: seq<int>) {
    forall i, j | 0 <= i < j < |values| :: values[i] <= values[j]
  }

  /**
   The race with the subscription is harmless, whatever its moment, exactly when a scan that
   finished still shows at the end of the wait; it does, if LastScan only moves forward.
   */
  lemma {:induction false} RaceTolerated(values: seq<int>)
    requires values != []
    ensures (forall sub: nat | sub < |values| :: Seen(values, sub) <==> Finished(values))
            <==> (Finished(values) ==> IsNew(values[0], values[|values| - 1]))
    ensures MovesForward(values) ==> forall sub: nat | sub < |values| :: Seen(values, sub) <==> Finished(values)
  {
    var last: nat := |values| - 1;
    assert !Signalled(values, last);
    assert Seen(values, last) <==> IsNew(values[0], values[last]);
    forall sub: nat | sub < |values| && Seen(values, sub) ensures Finished(values) {
    }
    if MovesForward(values) && Finished(values) {
      var i :| 0 <= i < |values| && IsNew(values[0], values[i]);
      assert values[0] < values[i] <= values[last];
    }
  }
}
