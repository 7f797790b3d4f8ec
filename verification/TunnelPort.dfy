/** Negotiation of tunnel ports between cloudcore instances: one record, in the
    annotation of a config map that every instance reads, extends and writes
    back; the API server refuses a write based on an outdated copy. */
module TunnelPort {
  import opened Strings

  const SERVER_PORT: nat := 10350

  /** Ports by address, and the set of ports in use. */
  datatype Record = Record(ipTunnelPort: map<string, nat>, port: set<nat>)

  // ---- The search for a port ----

  /** The ports from `lo` up to, but not including, `hi`. */
  function Interval(lo: nat, hi: nat): (r: set<nat>)
    requires lo <= hi
    ensures |r| == hi - lo
    ensures forall p :: p in r <==> lo <= p < hi
  {
    if lo == hi then {} else Interval(lo, hi - 1) + {hi - 1}
  }

  lemma {:induction false} SubsetSize(a: set<nat>, b: set<nat>)
    requires a <= b
    ensures |a| <= |b|
  {
    if a != {} {
      var x :| x in a;
      SubsetSize(a - {x}, b - {x});
    }
  }

  /** The least port from the server port on that is not in use. */
  predicate IsLeastFree(used: set<nat>, port: nat)
  {
    SERVER_PORT <= port && port !in used && forall p | SERVER_PORT <= p < port :: p in used
  }

  /** `negotiatePort`: its unbounded loop ends with the least free port, within
      as many steps as ports are in use. */
  method NegotiatePort(used: set<nat>) returns (port: nat)
    ensures IsLeastFree(used, port) && port <= SERVER_PORT + |used|
  {
    port := SERVER_PORT;
    while port in used
      invariant SERVER_PORT <= port <= SERVER_PORT + |used|
      invariant forall p | SERVER_PORT <= p < port :: p in used
      decreases SERVER_PORT + |used| - port
    {
      BusyPrefix(used, port + 1);
      port := port + 1;
    }
    BusyPrefix(used, port);
  }

  lemma BusyPrefix(used: set<nat>, port: nat)
    requires SERVER_PORT <= port && forall p | SERVER_PORT <= p < port :: p in used
    ensures port <= SERVER_PORT + |used|
  {
    assert Interval(SERVER_PORT, port) <= used;
    SubsetSize(Interval(SERVER_PORT, port), used);
  }

  // ---- One instance ----

  /** What one instance writes back, or the port it finds recorded. */
  datatype Plan = Use(port: nat) | Write(port: nat, record: Record)

  /** `NegotiateTunnelPort` between reading and writing. */
  method PlanPort(read: Option<Record>, ip: string) returns (plan: Plan)
    ensures Follows(read, ip, plan)
  {
    match read {
      case Some(record) =>
        if ip in record.ipTunnelPort {
          return Use(record.ipTunnelPort[ip]);
        }
        var port := NegotiatePort(record.port);
        return Write(port, Record(record.ipTunnelPort[ip := port], record.port + {port}));
      case None =>
        return Write(SERVER_PORT, Record(map[ip := SERVER_PORT], {SERVER_PORT}));
    }
  }

  predicate Follows(read: Option<Record>, ip: string, plan: Plan)
  {
    match read
    case Some(record) =>
      if ip in record.ipTunnelPort then plan == Use(record.ipTunnelPort[ip])
      else plan.Write? && IsLeastFree(record.port, plan.port) &&
           plan.record == Record(record.ipTunnelPort[ip := plan.port], record.port + {plan.port})
    case None => plan == Write(SERVER_PORT, Record(map[ip := SERVER_PORT], {SERVER_PORT}))
  }

  // ---- All instances ----

  /** An instance: starting, about to write what it planned from the version it
      read, or done; an instance that fails ends without port. */
  datatype Instance =
    | Starting(ip: string)
    | Writing(ip: string, version: nat, plan: Plan)
    | Running(ip: string, port: nat)
    | Failed(ip: string)

  /** The config map with the version its last write gave it, and the instances. */
  datatype State = State(record: Option<Record>, version: nat, instances: map<string, Instance>)

  datatype Event =
    | Read(id: string, plan: Plan)
    | ReadFails(id: string)
    | Commit(id: string)
    | CommitFails(id: string)
    | Start(id: string, ip: string)

  predicate Enabled(s: State, e: Event)
  {
    match e
    case Start(id, _) => id !in s.instances
    case Read(id, plan) => id in s.instances && s.instances[id].Starting? && Follows(s.record, s.instances[id].ip, plan)
    case ReadFails(id) => id in s.instances && s.instances[id].Starting?
    case Commit(id) => id in s.instances && s.instances[id].Writing?
    case CommitFails(id) => id in s.instances && s.instances[id].Writing?
  }

  /** A write based on an outdated version is refused: the instance fails. */
  function Do(s: State, e: Event): State
    requires Enabled(s, e)
  {
    match e
    case Start(id, ip) => s.(instances := s.instances[id := Starting(ip)])
    case Read(id, plan) =>
      var ip := s.instances[id].ip;
      if plan.Use? then s.(instances := s.instances[id := Running(ip, plan.port)])
      else s.(instances := s.instances[id := Writing(ip, s.version, plan)])
    case ReadFails(id) => s.(instances := s.instances[id := Failed(s.instances[id].ip)])
    case Commit(id) =>
      var i := s.instances[id];
      if i.version == s.version && i.plan.Write? then
        State(Some(i.plan.record), s.version + 1, s.instances[id := Running(i.ip, i.plan.port)])
      else s.(instances := s.instances[id := Failed(i.ip)])
    case CommitFails(id) => s.(instances := s.instances[id := Failed(s.instances[id].ip)])
  }

  /** The record is injective and lists its ports. */
  ghost predicate RecordOk(r: Record)
  {
    && (forall a, b | a in r.ipTunnelPort && b in r.ipTunnelPort && r.ipTunnelPort[a] == r.ipTunnelPort[b] :: a == b)
    && (forall p :: p in r.port <==> exists a | a in r.ipTunnelPort :: r.ipTunnelPort[a] == p)
  }

  /** What an instance knows is in the record, or will be when it writes. */
  ghost predicate InstanceOk(record: Option<Record>, version: nat, i: Instance)
  {
    match i
    case Running(ip, port) => record.Some? && ip in record.value.ipTunnelPort && record.value.ipTunnelPort[ip] == port
    case Writing(ip, v, plan) => plan.Write? && v <= version && (v == version ==> Follows(record, ip, plan))
    case _ => true
  }

  ghost predicate Inv(s: State)
  {
    && (s.record.Some? ==> RecordOk(s.record.value))
    && forall id | id in s.instances :: InstanceOk(s.record, s.version, s.instances[id])
  }

  /** Every address of the one record has the same port in the other. */
  ghost predicate Extends(a: Option<Record>, b: Option<Record>)
  {
    a.Some? ==> b.Some? && forall ip | ip in a.value.ipTunnelPort ::
      ip in b.value.ipTunnelPort && b.value.ipTunnelPort[ip] == a.value.ipTunnelPort[ip]
  }

  lemma PlanOk(record: Option<Record>, ip: string, plan: Plan)
    requires (record.Some? ==> RecordOk(record.value)) && Follows(record, ip, plan) && plan.Write?
    ensures RecordOk(plan.record) && Extends(record, Some(plan.record))
    ensures ip in plan.record.ipTunnelPort && plan.record.ipTunnelPort[ip] == plan.port
  {
    hide IsLeastFree;
    var r := plan.record;
    if record.Some? {
      LeastIsFree(record.value.port, plan.port);
      forall a | a in record.value.ipTunnelPort ensures record.value.ipTunnelPort[a] != plan.port {
        assert record.value.ipTunnelPort[a] in record.value.port;
      }
    }
    forall p ensures p in r.port <==> exists a | a in r.ipTunnelPort :: r.ipTunnelPort[a] == p {
      if record.Some? && p in record.value.port {
        var a :| a in record.value.ipTunnelPort && record.value.ipTunnelPort[a] == p;
        assert a in r.ipTunnelPort && r.ipTunnelPort[a] == p;
      }
      if p == plan.port { assert r.ipTunnelPort[ip] == p; }
    }
  }

  lemma LeastIsFree(used: set<nat>, port: nat)
    requires IsLeastFree(used, port)
    ensures port !in used
  {
  }

  lemma StepKeeps(s: State, e: Event)
    requires Inv(s) && Enabled(s, e)
    ensures Inv(Do(s, e)) && Extends(s.record, Do(s, e).record)
  {
    hide Follows, RecordOk;
    match e
    case Commit(id) => CommitKeeps(s, id);
    case Read(id, plan) => if plan.Use? { UsesRecorded(s.record, s.instances[id].ip, plan); }
    case _ =>
  }

  lemma UsesRecorded(record: Option<Record>, ip: string, plan: Plan)
    requires Follows(record, ip, plan) && plan.Use?
    ensures record.Some? && ip in record.value.ipTunnelPort && record.value.ipTunnelPort[ip] == plan.port
  {
  }

  lemma CommitKeeps(s: State, id: string)
    requires Inv(s) && Enabled(s, Commit(id))
    ensures Inv(Do(s, Commit(id))) && Extends(s.record, Do(s, Commit(id)).record)
  {
    hide Follows, RecordOk;
    var i := s.instances[id];
    if i.version == s.version && i.plan.Write? {
      PlanOk(s.record, i.ip, i.plan);
      var t := Do(s, Commit(id));
      forall j | j in t.instances ensures InstanceOk(t.record, t.version, t.instances[j]) {
        assert InstanceOk(s.record, s.version, s.instances[j]);
      }
    }
  }

  ghost predicate Run(trace: seq<State>, events: seq<Event>)
  {
    |trace| == |events| + 1 &&
    forall i | 0 <= i < |events| :: Enabled(trace[i], events[i]) && trace[i + 1] == Do(trace[i], events[i])
  }

  predicate Init(s: State)
  {
    s.record == None && s.instances == map[]
  }

  lemma {:induction false} RunKeeps(trace: seq<State>, events: seq<Event>, i: nat, j: nat)
    requires Run(trace, events) && Init(trace[0]) && i <= j < |trace|
    ensures Inv(trace[j]) && Extends(trace[i].record, trace[j].record)
    decreases j
  {
    hide Do, Enabled, RecordOk;
    if j > 0 {
      RunKeeps(trace, events, if i < j then i else j - 1, j - 1);
      StepKeeps(trace[j - 1], events[j - 1]);
    }
  }

  /** Instance `id` runs for `ip` on `port` in this state. */
  ghost predicate RunsOn(s: State, id: string, ip: string, port: nat)
  {
    id in s.instances && s.instances[id] == Running(ip, port)
  }

  /** In every interleaving, two instances run on the same port, at whatever two
      times, exactly when they have the same address: ports are never shared
      between addresses, and an address keeps its port forever. */
  lemma PortsIdentifyAddresses(trace: seq<State>, events: seq<Event>, i: nat, j: nat,
                               a: string, ipA: string, portA: nat, b: string, ipB: string, portB: nat)
    requires Run(trace, events) && Init(trace[0]) && i <= j < |trace|
    requires RunsOn(trace[i], a, ipA, portA) && RunsOn(trace[j], b, ipB, portB)
    ensures portA == portB <==> ipA == ipB
  {
    hide Do, Enabled;
    RunKeeps(trace, events, i, i);
    RunKeeps(trace, events, i, j);
    assert InstanceOk(trace[i].record, trace[i].version, trace[i].instances[a]);
    assert InstanceOk(trace[j].record, trace[j].version, trace[j].instances[b]);
  }

  // ---- Runs that get there ----

  lemma LeastFreeExists(used: set<nat>) returns (port: nat)
    ensures IsLeastFree(used, port)
  {
    port := SERVER_PORT;
    while port in used
      invariant SERVER_PORT <= port <= SERVER_PORT + |used|
      invariant forall p | SERVER_PORT <= p < port :: p in used
      decreases SERVER_PORT + |used| - port
    {
      BusyPrefix(used, port + 1);
      port := port + 1;
    }
  }

  /** From every state, a starting instance whose calls succeed and that nobody
      overtakes comes to run: on the port its address has, or else on the least one
      from 10350 on that no address has, which is then recorded. */
  lemma StartRuns(s: State, id: string) returns (trace: seq<State>, events: seq<Event>)
    requires id in s.instances && s.instances[id].Starting?
    ensures Run(trace, events) && trace[0] == s
    ensures var ip := s.instances[id].ip; var t := trace[|events|];
            && id in t.instances && t.instances[id].Running? && t.instances[id].ip == ip
            && (if s.record.Some? && ip in s.record.value.ipTunnelPort then
                  t.instances[id].port == s.record.value.ipTunnelPort[ip] && t.record == s.record
                else
                  var port := t.instances[id].port;
                  && 10350 <= port
                  && (forall p | 10350 <= p < port :: s.record.Some? && p in s.record.value.port)
                  && (s.record.Some? ==> port !in s.record.value.port)
                  && t.record.Some? && ip in t.record.value.ipTunnelPort && t.record.value.ipTunnelPort[ip] == port)
  {
    var ip := s.instances[id].ip;
    if s.record.Some? && ip in s.record.value.ipTunnelPort {
      var e := Read(id, Use(s.record.value.ipTunnelPort[ip]));
      trace, events := [s, Do(s, e)], [e];
    } else {
      var plan;
      if s.record.Some? {
        var r := s.record.value;
        var port := LeastFreeExists(r.port);
        plan := Write(port, Record(r.ipTunnelPort[ip := port], r.port + {port}));
      } else {
        plan := Write(SERVER_PORT, Record(map[ip := SERVER_PORT], {SERVER_PORT}));
      }
      var s1 := Do(s, Read(id, plan));
      trace, events := [s, s1, Do(s1, Commit(id))], [Read(id, plan), Commit(id)];
    }
  }
}
