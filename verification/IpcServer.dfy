/**
 One client connection of the privileged daemon: `_handle_client`, `_read_request_line` and
 `_authorize` (src/appliance_admin/daemon/server.py). Credentials, the account databases, the
 bytes on the socket, JSON validation and the handlers are parameters. Time is in milliseconds.
 */
module IpcServer {
  import opened Wrappers

  type Byte = bv8
  const NEWLINE: Byte := 10

  datatype Settings = Settings(requestTimeout: nat, maxRequestBytes: nat, allowedUids: set<int>)

  datatype Account = Account(name: string, gid: int)

  datatype Group = Group(gid: int, members: set<string>)

  /** Who is connecting; `uid` is `None` when the socket does not tell. */
  datatype Peer = Peer(uid: Option<int>, account: Option<Account>, socketGroup: Option<Group>)

  datatype Request = Request(id: string, action: string)

  /** What `readline` does within the timeout. */
  datatype Arrival = Line(bytes: seq<Byte>, after: nat) | TooLong(after: nat) | NothingInTime

  /** How a handler ends; `after` is how long it takes, unless the timeout cancels it first. */
  datatype Ending = Returns(after: nat) | Rejects(code: string, after: nat) | TimesOut(after: nat) | Crashes(after: nat)

  datatype Response = Success(id: string) | Failure(id: string, code: string)

  predicate Authorized(settings: Settings, peer: Peer) {
    && peer.uid.Some?
    && (|| peer.uid.value == 0
        || peer.uid.value in settings.allowedUids
        || (peer.account.Some? && peer.socketGroup.Some?
            && Member(peer.account.value, peer.socketGroup.value)))
  }

  /** By primary or by supplementary membership. */
  predicate Member(user: Account, group: Group) {
    user.gid == group.gid || user.name in group.members
  }

  /** Who may come in: root and the listed users always, anybody else exactly as a member of the socket's group. */
  lemma {:induction false} AccessExact(settings: Settings, uid: int, account: Option<Account>, group: Option<Group>)
    ensures Authorized(settings, Peer(Some(0), account, group))
    ensures uid in settings.allowedUids ==> Authorized(settings, Peer(Some(uid), account, group))
    ensures !Authorized(settings, Peer(None, account, group))
    ensures uid != 0 && uid !in settings.allowedUids ==>
              (Authorized(settings, Peer(Some(uid), account, group)) <==>
                 exists a, g :: account == Some(a) && group == Some(g) && Member(a, g))
    ensures forall name, gid, members :: Member(Account(name, gid), Group(gid, members))
    ensures forall name, gid, other, members | gid != other ::
              Member(Account(name, gid), Group(other, members)) <==> name in members
  {
    if account.Some? && group.Some? && Member(account.value, group.value) {
      assert account == Some(account.value) && group == Some(group.value);
    }
  }

  method Authorize(settings: Settings, peer: Peer) returns (ok: bool)
    ensures ok <==> Authorized(settings, peer)
  {
    if peer.uid.None? {
      return false;
    }
    if peer.uid.value == 0 || peer.uid.value in settings.allowedUids {
      return true;
    }
    if peer.account.None? || peer.socketGroup.None? {
      return false;
    }
    var user, group := peer.account.value, peer.socketGroup.value;
    return user.gid == group.gid || user.name in group.members;
  }

  /**
   `ran` is the action whose handler was started, `spent` the time from the connection to the
   response. A handler runs only for an authorized peer, a well-framed line, a valid request and a
   known action; there is one response, under the request's own id as soon as there is one; and a
   handler that is not back within the timeout is cancelled and answered with "timeout".
   */
  method HandleClient(settings: Settings, peer: Peer, arrival: Arrival, parse: seq<Byte> -> Option<Request>,
                      handlers: map<string, Ending>)
    returns (response: Response, ran: Option<string>, cancelled: bool, spent: nat)
    ensures
      var framed := arrival.Line? && arrival.after < settings.requestTimeout
                    && 0 < |arrival.bytes| <= settings.maxRequestBytes && arrival.bytes[|arrival.bytes| - 1] == 10;
      var late := arrival.NothingInTime? || arrival.after >= settings.requestTimeout;
      var request := if framed then parse(arrival.bytes) else None;
      && (ran.Some? <==> Authorized(settings, peer) && request.Some? && request.value.action in handlers)
      && (ran.Some? ==> ran.value == request.value.action)
      && response.id == (if Authorized(settings, peer) && request.Some? then request.value.id else "unknown")
      && (cancelled <==> ran.Some? && handlers[ran.value].after >= settings.requestTimeout)
      && (cancelled ==> response == Failure(request.value.id, "timeout")
                        && spent == arrival.after + settings.requestTimeout)
      && (ran.Some? && !cancelled ==>
            && spent == arrival.after + handlers[ran.value].after
            && match handlers[ran.value]
               case Returns(_) => response == Success(request.value.id)
               case Rejects(code, _) => response == Failure(request.value.id, code)
               case TimesOut(_) => response == Failure(request.value.id, "timeout")
               case Crashes(_) => response == Failure(request.value.id, "internal_error"))
      && (Authorized(settings, peer) && ran.None? ==>
            response == Failure(response.id, if late then "timeout" else "invalid_request"))
    ensures !Authorized(settings, peer) ==> response == Failure("unknown", "not_authorized") && spent == 0
    ensures spent <= 2 * settings.requestTimeout
  {
    var requestId := "unknown";
    ran, cancelled, spent := None, false, 0;
    var authorized := Authorize(settings, peer);
    if !authorized {
      return Failure(requestId, "not_authorized"), ran, cancelled, spent;
    }
    match arrival
    case NothingInTime =>
      return Failure(requestId, "timeout"), ran, cancelled, settings.requestTimeout;
    case TooLong(after) =>
      spent := if after < settings.requestTimeout then after else settings.requestTimeout;
      var code := if after < settings.requestTimeout then "invalid_request" else "timeout";
      return Failure(requestId, code), ran, cancelled, spent;
    case Line(bytes, after) =>
      if after >= settings.requestTimeout {
        return Failure(requestId, "timeout"), ran, cancelled, settings.requestTimeout;
      }
      spent := after;
      if bytes == [] || |bytes| > settings.maxRequestBytes || bytes[|bytes| - 1] != NEWLINE {
        return Failure(requestId, "invalid_request"), ran, cancelled, spent;
      }
      var request := parse(bytes);
      if request.None? {
        return Failure(requestId, "invalid_request"), ran, cancelled, spent;
      }
      requestId := request.value.id;
      if request.value.action !in handlers {
        return Failure(requestId, "invalid_request"), ran, cancelled, spent;
      }
      ran := Some(request.value.action);
      var ending := handlers[request.value.action];
      if ending.after >= settings.requestTimeout {
        return Failure(requestId, "timeout"), ran, true, spent + settings.requestTimeout;
      }
      spent := spent + ending.after;
      match ending {
        case Returns(_) => response := Success(requestId);
        case Rejects(code, _) => response := Failure(requestId, code);
        case TimesOut(_) => response := Failure(requestId, "timeout");
        case Crashes(_) => response := Failure(requestId, "internal_error");
      }
  }
}
