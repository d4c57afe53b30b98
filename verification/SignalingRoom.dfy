/** The signalling room for browsers (databases/cloudflare/worker.mjs:270-378). One event of the room is
    one step: its handlers run one at a time. */
module SignalingRoom {
  import opened Words

  const MAX_SIGNAL_BYTES: nat := 98304
  const MAX_MESSAGES: nat := 250

  type Socket = nat
  type Peer = string

  // ---- messages ----------------------------------------------------------------------

  /** A field of parsed JSON, as far as the room looks at it. */
  datatype Field = Other | Text(s: string)

  /** Data as it arrives: not text, text that is not JSON, or an object. */
  datatype Data = Binary | Garbage(length: nat) | Object(length: nat, kind: Field, peerId: Field, ciphertext: Field)

  datatype Signal = Signal(peerId: Peer, ciphertext: string)

  /** What the room takes for a signal. */
  function ParseSignal(d: Data): (r: Option<Signal>)
    ensures r.Some? <==>
              && d.Object? && d.length <= MAX_SIGNAL_BYTES && d.kind == Text("signal")
              && d.peerId.Text? && 8 <= |d.peerId.s| <= 80
              && d.ciphertext.Text? && 20 <= |d.ciphertext.s| <= MAX_SIGNAL_BYTES
    ensures r.Some? ==> r.value == Signal(d.peerId.s, d.ciphertext.s)
  {
    match d
    case Binary => None
    case Garbage(_) => None
    case Object(length, kind, peerId, ciphertext) =>
      if length > MAX_SIGNAL_BYTES || kind != Text("signal") then None
      else if !peerId.Text? || |peerId.s| < 8 || |peerId.s| > 80 then None
      else if !ciphertext.Text? || |ciphertext.s| < 20 || |ciphertext.s| > MAX_SIGNAL_BYTES then None
      else Some(Signal(peerId.s, ciphertext.s))
  }

  datatype Message =
    | Ready
    | Refused
    | HostJoined
    | HostLeft
    | ClientJoined(peerId: Peer)
    | ClientLeft(peerId: Peer)
    | Forwarded(signal: Signal)

  /** A message that was sent, and on which socket. */
  datatype Out = Out(to: Socket, msg: Message)

  // ---- what a host has been told -------------------------------------------------------

  /** The peers a socket believes to be present after the messages sent to it. */
  function Believed(log: seq<Out>, h: Socket): set<Peer>
    decreases |log|
  {
    if log == [] then {}
    else
      var before, out := Believed(log[..|log| - 1], h), log[|log| - 1];
      if out.to != h then before
      else match out.msg
        case ClientJoined(p) => before + {p}
        case ClientLeft(p) => before - {p}
        case _ => before
  }

  /** Nobody joins twice in a row, and nobody leaves who has not joined. */
  ghost predicate NoDoubles(log: seq<Out>, h: Socket)
    decreases |log|
  {
    log == [] ||
      var before, out := log[..|log| - 1], log[|log| - 1];
      && NoDoubles(before, h)
      && (out.to == h && out.msg.ClientJoined? ==> out.msg.peerId !in Believed(before, h))
      && (out.to == h && out.msg.ClientLeft? ==> out.msg.peerId in Believed(before, h))
  }

  lemma SentOne(log: seq<Out>, out: Out, h: Socket)
    ensures Believed(log + [out], h) ==
              if out.to == h && out.msg.ClientJoined? then Believed(log, h) + {out.msg.peerId}
              else if out.to == h && out.msg.ClientLeft? then Believed(log, h) - {out.msg.peerId}
              else Believed(log, h)
    ensures NoDoubles(log + [out], h) <==>
              && NoDoubles(log, h)
              && (out.to == h && out.msg.ClientJoined? ==> out.msg.peerId !in Believed(log, h))
              && (out.to == h && out.msg.ClientLeft? ==> out.msg.peerId in Believed(log, h))
  {
    assert (log + [out])[..|log|] == log;
  }

  lemma {:induction false} ToldNothing(log: seq<Out>, h: Socket)
    requires forall o | o in log :: o.to != h
    ensures Believed(log, h) == {} && NoDoubles(log, h)
    decreases |log|
  {
    if log != [] {
      ToldNothing(log[..|log| - 1], h);
    }
  }

  /** What was sent stays sent. */
  lemma SentSince(before: seq<Out>, after: seq<Out>, from: nat)
    requires before <= after && from <= |before|
    ensures forall o | o in before[from..] :: o in after[from..]
    ensures forall o | o in after[|before|..] :: o in after[from..]
  {
    assert after[from..] == before[from..] + after[|before|..];
  }

  // ---- the room --------------------------------------------------------------------------

  class Room {
    var host: Option<Socket>
    var clients: map<Peer, Socket>
    var messageCounts: map<Socket, nat>
    var closed: set<Socket>           // sockets the room has closed: sending on one throws
    ghost var log: seq<Out>
    ghost var seen: set<Socket>
    ghost var listening: set<Socket>  // sockets whose events reach the room
    ghost var accepted: map<Socket, nat>

    ghost predicate Valid()
      reads this
    {
      && (host.Some? ==> host.value in seen && forall p | p in clients :: clients[p] != host.value)
      && (forall p | p in clients :: clients[p] in seen)
      && (forall p, q | p in clients && q in clients && clients[p] == clients[q] :: p == q)
      && (forall o | o in log :: o.to in seen)
      && (host.Some? ==> NoDoubles(log, host.value))
      && (host.Some? && host.value !in closed ==> Believed(log, host.value) == clients.Keys)
      && Rationed()
    }

    /** No socket has more than the allowed number of messages accepted. */
    ghost predicate Rationed()
      reads this
    {
      && (forall s | s in accepted :: s in messageCounts && accepted[s] == Min(messageCounts[s], MAX_MESSAGES))
      && (forall s | s in messageCounts :: s in accepted)
    }

    ghost function Accepted(s: Socket): nat
      reads this
    {
      if s in accepted then accepted[s] else 0
    }

    constructor ()
      ensures Valid() && host == None && clients == map[] && log == []
      ensures closed == {} && seen == {} && listening == {}
    {
      host, clients, messageCounts, closed := None, map[], map[], {};
      log, seen, listening, accepted := [], {}, {}, map[];
    }

    /** Sends on a socket; on one the room has closed this throws. */
    method Send(to: Socket, msg: Message) returns (ok: bool)
      modifies `log
      ensures ok <==> to !in closed
      ensures log == if ok then old(log) + [Out(to, msg)] else old(log)
    {
      ok := to !in closed;
      if ok {
        log := log + [Out(to, msg)];
      }
    }

    method SafeSend(to: Socket, msg: Message)
      modifies `log
      ensures log == if to !in closed then old(log) + [Out(to, msg)] else old(log)
    {
      var _ := Send(to, msg);
    }

    /** A second host is refused; the first learns of every client there is. */
    method AttachHost(ws: Socket)
      requires Valid() && ws !in seen && ws !in closed
      modifies `host, `closed, `log, `seen, `listening
      ensures Valid() && seen == old(seen) + {ws}
      ensures old(host).Some? ==> host == old(host) && ws in closed && listening == old(listening)
      ensures old(host) == None ==> host == Some(ws) && listening == old(listening) + {ws} && closed == old(closed)
      ensures old(host) == None ==>
                old(log) <= log
                && forall p | p in clients && clients[p] !in closed :: Out(clients[p], HostJoined) in log[|old(log)|..]
    {
      seen := seen + {ws};
      if host.Some? {
        SentOne(log, Out(ws, Refused), host.value);
        var _ := Send(ws, Refused);
        closed := closed + {ws};
        return;
      }
      host := Some(ws);
      ToldNothing(log, ws);
      AnnounceClients(ws);
      listening := listening + {ws};
    }

    /** Tells a new host of every client, and every client of the host. */
    method AnnounceClients(ws: Socket)
      requires ws in seen && ws !in closed && forall p | p in clients :: clients[p] in seen && clients[p] != ws
      requires Believed(log, ws) == {} && NoDoubles(log, ws) && forall o | o in log :: o.to in seen
      modifies `log
      ensures Believed(log, ws) == clients.Keys && NoDoubles(log, ws) && forall o | o in log :: o.to in seen
      ensures old(log) <= log
      ensures forall p | p in clients && clients[p] !in closed :: Out(clients[p], HostJoined) in log[|old(log)|..]
    {
      hide Believed, NoDoubles;
      SentOne(log, Out(ws, Ready), ws);
      var _ := Send(ws, Ready);
      var todo := clients.Keys;
      while todo != {}
        modifies `log
        invariant todo <= clients.Keys
        invariant Believed(log, ws) == clients.Keys - todo && NoDoubles(log, ws)
        invariant old(log) <= log
        invariant forall p | p in clients && p !in todo && clients[p] !in closed ::
                    Out(clients[p], HostJoined) in log[|old(log)|..]
        invariant forall o | o in log :: o.to in seen
        decreases |todo|
      {
        var peerId :| peerId in todo;
        ghost var before := log;
        AnnounceClient(ws, peerId, clients[peerId]);
        SentSince(before, log, |old(log)|);
        todo := todo - {peerId};
      }
    }

    method AnnounceClient(ws: Socket, peerId: Peer, client: Socket)
      requires ws in seen && ws !in closed && client in seen && client != ws
      requires NoDoubles(log, ws) && peerId !in Believed(log, ws) && forall o | o in log :: o.to in seen
      modifies `log
      ensures Believed(log, ws) == old(Believed(log, ws)) + {peerId} && NoDoubles(log, ws)
      ensures forall o | o in log :: o.to in seen
      ensures old(log) <= log && (client !in closed ==> Out(client, HostJoined) in log[|old(log)|..])
    {
      hide Believed, NoDoubles;
      SentOne(log, Out(ws, ClientJoined(peerId)), ws);
      var _ := Send(ws, ClientJoined(peerId));
      SentOne(log, Out(client, HostJoined), ws);
      SafeSend(client, HostJoined);
      assert client !in closed ==> log[|old(log)|..][1] == Out(client, HostJoined);
    }

    /** A client is listed, then announced to the host. When the host's socket is closed and not yet
        detached the announcement throws: the client stays listed without anyone listening to it. */
    method AttachClient(ws: Socket, peerId: Peer)
      requires Valid() && ws !in seen && ws !in closed && peerId !in clients
      modifies `clients, `log, `seen, `listening
      ensures Valid() && clients == old(clients)[peerId := ws]
      ensures listening == if host.Some? && host.value in closed then old(listening) else old(listening) + {ws}
      ensures log == old(log) + [Out(ws, Ready)]
                     + (if host.Some? && host.value !in closed then [Out(host.value, ClientJoined(peerId))] else [])
    {
      clients := clients[peerId := ws];
      seen := seen + {ws};
      if host.Some? {
        SentOne(log, Out(ws, Ready), host.value);
      }
      var _ := Send(ws, Ready);
      if host.Some? {
        SentOne(log, Out(host.value, ClientJoined(peerId)), host.value);
        var ok := Send(host.value, ClientJoined(peerId));
        if !ok {
          return;
        }
      }
      listening := listening + {ws};
    }

    method DetachHost(ws: Socket)
      requires Valid()
      modifies `host, `log
      ensures Valid() && host == if old(host) == Some(ws) then None else old(host)
      ensures old(log) <= log && (old(host) != Some(ws) ==> log == old(log))
      ensures old(host) == Some(ws) ==>
                forall p | p in clients && clients[p] !in closed :: Out(clients[p], HostLeft) in log[|old(log)|..]
    {
      if host != Some(ws) {
        return;
      }
      host := None;
      var todo := clients.Keys;
      while todo != {}
        modifies `log
        invariant todo <= clients.Keys
        invariant forall o | o in log :: o.to in seen
        invariant old(log) <= log
        invariant forall p | p in clients && p !in todo && clients[p] !in closed ::
                    Out(clients[p], HostLeft) in log[|old(log)|..]
        decreases |todo|
      {
        var peerId :| peerId in todo;
        ghost var before := log;
        SafeSend(clients[peerId], HostLeft);
        SentSince(before, log, |old(log)|);
        todo := todo - {peerId};
      }
    }

    method DetachClient(peerId: Peer, ws: Socket)
      requires Valid()
      modifies `clients, `log
      ensures Valid()
      ensures clients == if peerId in old(clients) && old(clients)[peerId] == ws then old(clients) - {peerId}
                         else old(clients)
      ensures log == old(log) + (if clients != old(clients) && host.Some? && host.value !in closed
                                 then [Out(host.value, ClientLeft(peerId))] else [])
    {
      if peerId !in clients || clients[peerId] != ws {
        return;
      }
      clients := clients - {peerId};
      assert clients.Keys == old(clients).Keys - {peerId};
      if host.Some? {
        SentOne(log, Out(host.value, ClientLeft(peerId)), host.value);
        SafeSend(host.value, ClientLeft(peerId));
      }
    }

    /** Counts a message; past the limit the socket is closed and the message refused. */
    method BumpMessage(ws: Socket) returns (ok: bool)
      requires Rationed()
      modifies `messageCounts, `closed, `accepted
      ensures Rationed()
      ensures ok <==> old(Accepted(ws)) < MAX_MESSAGES
      ensures Accepted(ws) == old(Accepted(ws)) + (if ok then 1 else 0)
      ensures forall s | s != ws :: Accepted(s) == old(Accepted(s))
      ensures closed == if ok then old(closed) else old(closed) + {ws}
    {
      var next := (if ws in messageCounts then messageCounts[ws] else 0) + 1;
      messageCounts := messageCounts[ws := next];
      ok := next <= MAX_MESSAGES;
      accepted := accepted[ws := Min(next, MAX_MESSAGES)];
      if !ok {
        closed := closed + {ws};
      }
    }

    /** When a message of the host goes on: it is the host, has messages left, and names a client that
        can be reached. */
    ghost predicate HostForwards(ws: Socket, data: Data)
      reads this
    {
      && host == Some(ws) && Accepted(ws) < MAX_MESSAGES && ParseSignal(data).Some?
      && ParseSignal(data).value.peerId in clients && clients[ParseSignal(data).value.peerId] !in closed
    }

    /** When a message of a client does: it is that client, has messages left, names itself, and the
        host can be reached. */
    ghost predicate ClientForwards(peerId: Peer, ws: Socket, data: Data)
      reads this
    {
      && peerId in clients && clients[peerId] == ws && Accepted(ws) < MAX_MESSAGES
      && ParseSignal(data).Some? && ParseSignal(data).value.peerId == peerId
      && host.Some? && host.value !in closed
    }

    /** A signal that names the peer. */
    static predicate Names(data: Data, peerId: Peer) {
      ParseSignal(data).Some? && ParseSignal(data).value.peerId == peerId
    }

    /** A host's signal reaches the client it names, and no one else. */
    method OnHostMessage(ws: Socket, data: Data)
      requires Valid()
      modifies `messageCounts, `closed, `accepted, `log
      ensures Valid() && Accepted(ws) <= old(Accepted(ws)) + 1
      ensures closed == old(closed)
                        + if host == Some(ws) && (old(Accepted(ws)) >= MAX_MESSAGES || ParseSignal(data) == None)
                          then {ws} else {}
      ensures log == if old(HostForwards(ws, data))
                     then old(log) + [Out(clients[ParseSignal(data).value.peerId], Forwarded(ParseSignal(data).value))]
                     else old(log)
    {
      if host != Some(ws) {
        return;
      }
      var ok := BumpMessage(ws);
      if !ok {
        return;
      }
      var msg := ParseSignal(data);
      if msg == None {
        closed := closed + {ws};
        return;
      }
      if msg.value.peerId in clients {
        SentOne(log, Out(clients[msg.value.peerId], Forwarded(msg.value)), ws);
        SafeSend(clients[msg.value.peerId], Forwarded(msg.value));
      }
    }

    /** A client's signal reaches the host, under the client's own name only. */
    method OnClientMessage(peerId: Peer, ws: Socket, data: Data)
      requires Valid()
      modifies `messageCounts, `closed, `accepted, `log
      ensures Valid() && Accepted(ws) <= old(Accepted(ws)) + 1
      ensures closed == old(closed)
                        + if peerId in clients && clients[peerId] == ws
                             && (old(Accepted(ws)) >= MAX_MESSAGES || !Names(data, peerId))
                          then {ws} else {}
      ensures log == if old(ClientForwards(peerId, ws, data))
                     then old(log) + [Out(host.value, Forwarded(ParseSignal(data).value))]
                     else old(log)
    {
      if peerId !in clients || clients[peerId] != ws {
        return;
      }
      var ok := BumpMessage(ws);
      if !ok {
        return;
      }
      var msg := ParseSignal(data);
      if msg == None || msg.value.peerId != peerId {
        closed := closed + {ws};
        return;
      }
      if host.Some? {
        SentOne(log, Out(host.value, Forwarded(msg.value)), host.value);
        SafeSend(host.value, Forwarded(msg.value));
      }
    }
  }

  /** A run to a client that is listed with nobody listening to it: the host sends what is not JSON, which
      closes its socket, and the client arrives before the host is detached. */
  method Stranded(peerId: Peer) returns (room: Room)
    ensures fresh(room) && room.Valid() && room.host == Some(1) && 1 in room.closed
    ensures room.clients == map[peerId := 2] && 2 !in room.listening && 2 !in room.closed
  {
    room := new Room();
    room.AttachHost(1);
    room.OnHostMessage(1, Garbage(4));
    room.AttachClient(2, peerId);
  }
}
