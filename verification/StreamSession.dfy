/** One tunnel carries the streams of many API server connections: registration
    under fresh ids, demultiplexing of framed messages by id, and partial writes
    to the connections. */
module StreamSession {
  import opened TunnelMessage

  const TYPE_DATA: nat := 3
  const TYPE_REMOVE_CONNECT: nat := 4

  // ---- What a frame does to a session ----

  /** The open connections of a session, each with what was written to it. */
  datatype Tunnel = Tunnel(conns: map<nat, seq<byte>>, closed: bool)

  function Taken(data: seq<byte>, accepted: nat): seq<byte>
  {
    if accepted < |data| then data[..accepted] else data
  }

  /** The session after a message: data goes to the connection of its id. */
  function Delivered(t: Tunnel, m: Message, accepted: nat): Tunnel
  {
    if m.connectId in t.conns && m.messageType == TYPE_DATA then
      t.(conns := t.conns[m.connectId := t.conns[m.connectId] + Taken(m.data, accepted)])
    else t
  }

  /** The session after a frame: one that does not decode ends the session. */
  function Framed(t: Tunnel, frame: seq<byte>, accepted: nat): Tunnel
  {
    match Decode(frame)
    case None => t.(closed := true)
    case Some(m) => Delivered(t, m, accepted)
  }

  // ---- The session ----

  /** An API server connection; `out` is all that was written to it. */
  class Connection {
    var id: nat
    var out: seq<byte>
    var peerDone: bool

    constructor ()
      ensures out == [] && !peerDone
    {
      id, out, peerDone := 0, [], false;
    }

    /** A write accepts some of the bytes, at least one unless it fails. */
    method WriteToAPIServer(p: seq<byte>) returns (n: nat, err: bool)
      requires p != []
      modifies this`out
      ensures n <= |p| && out == old(out) + p[..n] && (!err ==> n >= 1)
    {
      err := *;
      n :| n <= |p| && (!err ==> n >= 1);
      out := out + p[..n];
    }
  }

  class StreamServer {
    var nextMessageID: nat

    constructor ()
      ensures nextMessageID == 0
    {
      nextMessageID := 0;
    }
  }

  class Session {
    var apiServerConn: map<nat, Connection>
    var tunnelClosed: bool

    /** Keys are the connections' own ids. */
    ghost predicate Valid()
      reads this, apiServerConn.Values
    {
      forall id | id in apiServerConn :: apiServerConn[id].id == id
    }

    /** The session as the runs below see it. */
    ghost function View(): Tunnel
      reads this, apiServerConn.Values
    {
      Tunnel(map id | id in apiServerConn :: apiServerConn[id].out, tunnelClosed)
    }

    constructor ()
      ensures Valid() && apiServerConn == map[] && !tunnelClosed
    {
      apiServerConn, tunnelClosed := map[], false;
    }

    /** `AddAPIServerConnection`: the id is used up even when the tunnel has
        closed; otherwise the connection is registered under it. */
    method AddAPIServerConnection(ss: StreamServer, connection: Connection) returns (ok: bool)
      requires Valid() && connection !in apiServerConn.Values
      requires forall id | id in apiServerConn :: id <= ss.nextMessageID
      modifies this`apiServerConn, ss, connection`id
      ensures Valid() && ss.nextMessageID == old(ss.nextMessageID) + 1
      ensures ok <==> !tunnelClosed
      ensures !ok ==> apiServerConn == old(apiServerConn)
      ensures ok ==> ss.nextMessageID !in old(apiServerConn) && connection.id == ss.nextMessageID
      ensures ok ==> apiServerConn == old(apiServerConn)[ss.nextMessageID := connection]
      ensures ok ==> View().conns == old(View()).conns[ss.nextMessageID := connection.out]
      ensures forall id | id in apiServerConn :: id <= ss.nextMessageID
    {
      ss.nextMessageID := ss.nextMessageID + 1;
      var id := ss.nextMessageID;
      if tunnelClosed {
        return false;
      }
      connection.id := id;
      apiServerConn := apiServerConn[id := connection];
      return true;
    }

    /** `DeleteAPIServerConnection`. */
    method DeleteAPIServerConnection(con: Connection)
      requires Valid()
      modifies this`apiServerConn
      ensures Valid() && apiServerConn == old(apiServerConn) - {con.id}
      ensures View().conns == old(View()).conns - {con.id}
    {
      apiServerConn := apiServerConn - {con.id};
    }

    /** `ProxyTunnelMessageToApiserver`: data goes to the connection of its id,
        whole unless a write fails, then what was accepted; no other connection
        is written to. */
    method ProxyTunnelMessageToApiserver(m: Message) returns (err: bool, ghost accepted: nat)
      requires Valid()
      modifies apiServerConn.Values
      ensures Valid()
      ensures m.connectId !in apiServerConn ==> err
      ensures View() == Delivered(old(View()), m, accepted)
      ensures !err ==> accepted >= |m.data|
      ensures forall id | id in apiServerConn ::
                apiServerConn[id].peerDone <==>
                  old(apiServerConn[id].peerDone) || (id == m.connectId && m.messageType == TYPE_REMOVE_CONNECT)
    {
      accepted := |m.data|;
      if m.connectId !in apiServerConn {
        err := true;
        return;
      }
      var con := apiServerConn[m.connectId];
      ghost var before := con.out;
      err := false;
      if m.messageType == TYPE_REMOVE_CONNECT {
        con.peerDone := true;
      } else if m.messageType == TYPE_DATA {
        var i := 0;
        while i < |m.data|
          invariant 0 <= i <= |m.data| && con.out == before + m.data[..i] && Valid()
          invariant forall id | id in apiServerConn && id != m.connectId :: apiServerConn[id].out == old(apiServerConn[id].out)
          invariant forall id | id in apiServerConn :: apiServerConn[id].peerDone == old(apiServerConn[id].peerDone)
          decreases |m.data| - i
        {
          var n;
          n, err := con.WriteToAPIServer(m.data[i..]);
          assert m.data[..i] + m.data[i..][..n] == m.data[..i + n];
          if err {
            accepted := i + n;
            assert Taken(m.data, accepted) == m.data[..i + n];
            assert con.out == before + Taken(m.data, accepted);
            assert View() == Delivered(old(View()), m, accepted);
            return;
          }
          i := i + n;
        }
        assert m.data[..|m.data|] == m.data;
      }
    }

    /** `Close`: every peer is told. */
    method Close()
      requires Valid()
      modifies this`tunnelClosed, apiServerConn.Values
      ensures Valid() && View() == old(View()).(closed := true)
      ensures forall id | id in apiServerConn :: apiServerConn[id].peerDone
    {
      var todo := apiServerConn.Keys;
      while todo != {}
        invariant todo <= apiServerConn.Keys && Valid()
        invariant apiServerConn == old(apiServerConn) && tunnelClosed == old(tunnelClosed)
        invariant forall id | id in apiServerConn && id !in todo :: apiServerConn[id].peerDone
        invariant forall id | id in apiServerConn :: apiServerConn[id].out == old(apiServerConn[id].out)
      {
        var id :| id in todo;
        apiServerConn[id].peerDone := true;
        todo := todo - {id};
      }
      tunnelClosed := true;
    }

    /** One turn of `Serve`: takes the step of the runs below. */
    method ServeFrame(frame: seq<byte>) returns (ghost accepted: nat)
      requires Valid()
      modifies this`tunnelClosed, apiServerConn.Values
      ensures Valid() && View() == Framed(old(View()), frame, accepted)
      ensures tunnelClosed <==> old(tunnelClosed) || Decode(frame).None?
    {
      var message := Decode(frame);
      accepted := 0;
      if message.None? {
        Close();
        return;
      }
      var err;
      err, accepted := ProxyTunnelMessageToApiserver(message.value);
    }
  }

  // ---- Runs over all sessions ----

  datatype State = State(next: nat, tunnels: map<string, Tunnel>)

  /** `accepted` is how many bytes of a data frame are written before a write
      fails, if one does. */
  datatype Event =
    | Open(session: string)
    | Connect(session: string)
    | Disconnect(session: string, id: nat)
    | Frame(session: string, frame: seq<byte>, accepted: nat)
    | Close(session: string)

  predicate Enabled(s: State, e: Event)
  {
    match e
    case Open(t) => t !in s.tunnels
    case Connect(t) => t in s.tunnels
    case Disconnect(t, _) => t in s.tunnels
    case Frame(t, _, _) => t in s.tunnels && !s.tunnels[t].closed
    case Close(t) => t in s.tunnels
  }

  function Do(s: State, e: Event): State
    requires Enabled(s, e)
  {
    match e
    case Open(t) => s.(tunnels := s.tunnels[t := Tunnel(map[], false)])
    case Connect(t) =>
      var id := s.next + 1;
      var tunnel := s.tunnels[t];
      State(id, if tunnel.closed then s.tunnels else s.tunnels[t := tunnel.(conns := tunnel.conns[id := []])])
    case Disconnect(t, id) => s.(tunnels := s.tunnels[t := s.tunnels[t].(conns := s.tunnels[t].conns - {id})])
    case Frame(t, frame, accepted) => s.(tunnels := s.tunnels[t := Framed(s.tunnels[t], frame, accepted)])
    case Close(t) => s.(tunnels := s.tunnels[t := s.tunnels[t].(closed := true)])
  }

  ghost predicate Run(trace: seq<State>, events: seq<Event>)
  {
    |trace| == |events| + 1 &&
    forall i | 0 <= i < |events| :: Enabled(trace[i], events[i]) && trace[i + 1] == Do(trace[i], events[i])
  }

  predicate Registered(s: State, session: string, id: nat)
  {
    session in s.tunnels && id in s.tunnels[session].conns
  }

  /** Who is registered after a step: who was, but for the one that disconnects,
      and the one that connects to a tunnel which is not closed, with nothing
      written to it yet. */
  lemma RegisteredIff(s: State, e: Event, session: string, id: nat)
    requires Enabled(s, e)
    ensures Registered(Do(s, e), session, id) <==>
              || (Registered(s, session, id) && e != Disconnect(session, id))
              || (e == Connect(session) && !s.tunnels[session].closed && id == s.next + 1)
    ensures e == Connect(session) && !s.tunnels[session].closed && id == s.next + 1 ==>
              Do(s, e).tunnels[session].conns[id] == []
  {
    hide Decode;
  }

  /** A tunnel is closed from the first frame on that does not decode, or from
      being closed. */
  lemma ClosedIff(s: State, e: Event, session: string)
    requires Enabled(s, e) && session in s.tunnels
    ensures session in Do(s, e).tunnels
    ensures Do(s, e).tunnels[session].closed <==>
              || s.tunnels[session].closed || e == Close(session)
              || (e.Frame? && e.session == session && Decode(e.frame).None?)
  {
    hide Decode;
  }

  /** Connect at step `a` registers this id. */
  ghost predicate ConnectsAt(trace: seq<State>, events: seq<Event>, a: nat, session: string, id: nat)
    requires Run(trace, events)
  {
    a < |events| && events[a] == Connect(session) && session in trace[a].tunnels && !trace[a].tunnels[session].closed
    && id == trace[a].next + 1
  }

  // ---- The reference: what the frames of a connection carry ----

  function Payload(e: Event, session: string, id: nat): seq<byte>
  {
    if e.Frame? && e.session == session then
      match Decode(e.frame)
      case None => []
      case Some(m) => if m.connectId == id && m.messageType == TYPE_DATA then Taken(m.data, e.accepted) else []
    else []
  }

  /** The payloads of steps `a` up to `n`, in order. */
  function Payloads(events: seq<Event>, a: nat, n: nat, session: string, id: nat): seq<byte>
    requires n <= |events|
  {
    if n <= a then [] else Payloads(events, a, n - 1, session, id) + Payload(events[n - 1], session, id)
  }

  /** A frame made by the sender carries its message's data to the message's
      connection and nothing to any other. */
  lemma FramedPayload(m: Message, session: string, id: nat)
    requires m.connectId < UINT64 && m.messageType < UINT64
    ensures Payload(Frame(session, Encode(m), |m.data|), session, id) ==
              if m.connectId == id && m.messageType == TYPE_DATA then m.data else []
  {
    hide Encode, Decode;
    DecodeEncode(m);
  }

  /** One step adds exactly its payload to a connection that stays registered. */
  lemma StepDelivers(s: State, e: Event, session: string, id: nat)
    requires Enabled(s, e) && Registered(s, session, id) && Registered(Do(s, e), session, id) && id <= s.next
    ensures Do(s, e).tunnels[session].conns[id] == s.tunnels[session].conns[id] + Payload(e, session, id)
  {
    hide Decode;
  }

  lemma {:induction false} NextGrows(trace: seq<State>, events: seq<Event>, i: nat, j: nat)
    requires Run(trace, events) && i <= j < |trace|
    ensures trace[i].next <= trace[j].next
    decreases j
  {
    hide Framed;
    if i < j { NextGrows(trace, events, i, j - 1); }
  }

  /** Ids are never used twice, in any of the sessions. */
  lemma IdsAreFresh(trace: seq<State>, events: seq<Event>, a: nat, b: nat, s: string, t: string, x: nat, y: nat)
    requires Run(trace, events) && a < b
    requires ConnectsAt(trace, events, a, s, x) && ConnectsAt(trace, events, b, t, y)
    ensures x < y
  {
    NextGrows(trace, events, a + 1, b);
  }

  ghost predicate StaysRegistered(trace: seq<State>, a: nat, n: nat, session: string, id: nat)
  {
    n < |trace| && forall k | a < k <= n :: Registered(trace[k], session, id)
  }

  /** In every interleaving, what has been written to a connection is the
      in-order concatenation of the data its session's frames carried for its id
      since it was registered. */
  lemma {:induction false} DeliveredInOrder(trace: seq<State>, events: seq<Event>, a: nat, n: nat, session: string, id: nat)
    requires Run(trace, events) && ConnectsAt(trace, events, a, session, id) && a < n
    requires StaysRegistered(trace, a, n, session, id)
    ensures trace[n].tunnels[session].conns[id] == Payloads(events, a + 1, n, session, id)
    decreases n
  {
    hide Payload, Framed;
    if n > a + 1 {
      DeliveredInOrder(trace, events, a, n - 1, session, id);
      NextGrows(trace, events, a + 1, n - 1);
      assert Registered(trace[n - 1], session, id) && Registered(trace[n], session, id);
      StepDelivers(trace[n - 1], events[n - 1], session, id);
    }
  }
}
