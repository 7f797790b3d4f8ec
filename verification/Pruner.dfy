/** The mission state pruner: on every tick it collects the dead edge clusters
    and, unless all of them were dead on the tick before, prunes every mission
    state. Between ticks clusters report and missions come and go. */
module Pruner {
  import opened Strings
  import opened MissionState

  const HEALTHY_STATUS := "healthy"
  const DISCONNECTED_STATUS := "disconnected"

  /** An edge cluster as listed on a tick; `stale` says that its last heart beat
      is older than the timeout. */
  datatype EdgeCluster = EdgeCluster(name: string, health: string, stale: bool)

  type Missions = map<string, StateMap>

  /** The names of the clusters that are stale or not healthy. */
  function Dead(clusters: seq<EdgeCluster>): set<string>
  {
    set ec | ec in clusters && (ec.stale || ec.health != HEALTHY_STATUS) :: ec.name
  }

  /** Which API calls of a tick succeed: listing clusters, listing missions, and
      writing back each mission but the `failed` ones. */
  datatype Calls = Calls(clustersOk: bool, missionsOk: bool, failed: set<string>)

  const ALL_OK := Calls(true, true, {})

  function PruneAll(missions: Missions, dead: set<string>, failed: set<string>): Missions
  {
    map m | m in missions :: if m in failed then missions[m] else Prune(missions[m], dead)
  }

  /** The missions after a tick, with the early return. */
  function Ticked(cache: set<string>, missions: Missions, dead: set<string>, calls: Calls): Missions
  {
    if !calls.clustersOk || dead <= cache || !calls.missionsOk then missions
    else PruneAll(missions, dead, calls.failed)
  }

  class MissionStatePruner {
    var deadEdgeClustersCache: set<string>
    var missions: Missions

    constructor (missions: Missions)
      ensures deadEdgeClustersCache == {} && this.missions == missions
    {
      deadEdgeClustersCache, this.missions := {}, missions;
    }

    /** The loop over the listed clusters: the dead ones, and whether one of
        them is new. A stale cluster is marked disconnected on the way. */
    method CollectDead(clusters: seq<EdgeCluster>) returns (dead: set<string>, newDead: bool)
      ensures dead == Dead(clusters)
      ensures forall n :: n in dead <==> exists ec | ec in clusters :: ec.name == n && (ec.stale || ec.health != "healthy")
      ensures newDead <==> !(dead <= deadEdgeClustersCache)
    {
      dead, newDead := {}, false;
      for i := 0 to |clusters|
        invariant dead == Dead(clusters[..i])
        invariant newDead <==> !(dead <= deadEdgeClustersCache)
      {
        var ec := clusters[i];
        assert clusters[..i + 1] == clusters[..i] + [ec];
        if ec.stale && ec.health != DISCONNECTED_STATUS {
          ec := ec.(health := DISCONNECTED_STATUS);
        }
        if ec.health != HEALTHY_STATUS {
          dead := dead + {ec.name};
          if ec.name !in deadEdgeClustersCache {
            newDead := true;
          }
        }
        assert Dead(clusters[..i + 1]) == dead;
      }
      assert clusters[..|clusters|] == clusters;
    }

    method CheckAndPrune(clusters: seq<EdgeCluster>, calls: Calls)
      modifies this
      ensures missions == Ticked(old(deadEdgeClustersCache), old(missions), Dead(clusters), calls)
      ensures missions.Keys == old(missions).Keys
      ensures forall m | m in missions ::
                if calls.clustersOk && calls.missionsOk && m !in calls.failed
                   && (exists ec | ec in clusters ::
                         (ec.stale || ec.health != "healthy") && ec.name !in old(deadEdgeClustersCache))
                then missions[m] == Prune(old(missions)[m], Dead(clusters))
                else missions[m] == old(missions)[m]
      ensures deadEdgeClustersCache == if calls.clustersOk then Dead(clusters) else old(deadEdgeClustersCache)
    {
      if !calls.clustersOk {
        return;
      }
      var dead, newDead := CollectDead(clusters);
      deadEdgeClustersCache := dead;
      if !newDead {
        return;
      }
      if !calls.missionsOk {
        return;
      }
      ghost var before := missions;
      var todo := missions.Keys;
      while todo != {}
        invariant todo <= before.Keys && missions.Keys == before.Keys
        invariant forall m | m in before ::
                    missions[m] == if m in todo || m in calls.failed then before[m] else Prune(before[m], dead)
        invariant deadEdgeClustersCache == dead
      {
        var name :| name in todo;
        var state, changed := PruneMission(missions[name], dead);
        if changed && name !in calls.failed {
          missions := missions[name := state];
        }
        todo := todo - {name};
      }
      assert missions == PruneAll(before, dead, calls.failed);
    }
  }

  // ---- Runs ----

  /** `reported` holds the clusters that reported since the missions were last
      pruned for them; on a tick that returns early, those of them still dead. */
  datatype State = State(cache: set<string>, missions: Missions, reported: set<string>)

  datatype Event =
    | Tick(clusters: seq<EdgeCluster>, calls: Calls)
    | Report(mission: string, cluster: string, report: StateMap)
    | LocalState(mission: string, value: string)
    | Created(mission: string)
    | Removed(mission: string)

  function Do(s: State, e: Event): State
  {
    match e
    case Tick(clusters, calls) =>
      var dead := Dead(clusters);
      if calls.clustersOk then
        State(dead, Ticked(s.cache, s.missions, dead, calls), if dead <= s.cache then s.reported * dead else {})
      else s
    case Report(m, cluster, report) =>
      if m in s.missions then
        State(s.cache, s.missions[m := Aggregate(s.missions[m], report, cluster)], s.reported + {cluster})
      else s
    case LocalState(m, value) =>
      if m in s.missions then s.(missions := s.missions[m := s.missions[m][LOCAL_EDGE_CLUSTER := value]]) else s
    case Created(m) => if m in s.missions then s else s.(missions := s.missions[m := map[]])
    case Removed(m) => s.(missions := s.missions - {m})
  }

  ghost predicate Run(trace: seq<State>, events: seq<Event>)
  {
    |trace| == |events| + 1 && forall i | 0 <= i < |events| :: trace[i + 1] == Do(trace[i], events[i])
  }

  predicate Init(s: State)
  {
    s.cache == {} && s.reported == {}
  }

  /** No API call fails, no cluster is called `LOCAL_EDGE_CLUSTER`, and reports are
      a cluster's own. */
  ghost predicate ErrorFree(e: Event)
  {
    match e
    case Tick(clusters, calls) => calls == ALL_OK && LOCAL_EDGE_CLUSTER !in Dead(clusters)
    case Report(_, cluster, report) => '/' !in cluster && OwnedBy(cluster, report)
    case _ => true
  }

  /** Every mission is already pruned for the cached clusters that have kept
      silent since. */
  ghost predicate Inv(s: State)
  {
    LOCAL_EDGE_CLUSTER !in s.cache && AllPruned(s.missions, s.cache - s.reported)
  }

  ghost predicate AllPruned(missions: Missions, dead: set<string>)
  {
    forall m | m in missions :: Pruned(missions[m], dead)
  }

  lemma PrunedSubset(state: StateMap, dead: set<string>, fewer: set<string>)
    requires Pruned(state, dead) && fewer <= dead
    ensures Pruned(state, fewer)
  {
    hide IsTop, Head;
  }

  lemma ReportKeepsPruned(state: StateMap, report: StateMap, cluster: string, dead: set<string>)
    requires Pruned(state, dead) && '/' !in cluster && OwnedBy(cluster, report)
    ensures Pruned(Aggregate(state, report, cluster), dead - {cluster})
  {
    hide Owns, Cut, IsTop;
    LiveUncut(cluster, dead - {cluster});
    PrunedSubset(state, dead, dead - {cluster});
  }

  lemma LocalKeepsPruned(state: StateMap, value: string, dead: set<string>)
    requires Pruned(state, dead) && LOCAL_EDGE_CLUSTER !in dead
    ensures Pruned(state[LOCAL_EDGE_CLUSTER := value], dead)
  {
    hide Split;
    SplitPlain(LOCAL_EDGE_CLUSTER, '/');
  }

  /** The missions are pruned for two sets of clusters exactly when they are for
      both together. */
  lemma PrunedUnion(missions: Missions, a: set<string>, b: set<string>)
    ensures AllPruned(missions, a + b) <==> AllPruned(missions, a) && AllPruned(missions, b)
  {
    hide Cut, IsTop;
    forall m | m in missions ensures Pruned(missions[m], a + b) <==> Pruned(missions[m], a) && Pruned(missions[m], b) {
      PrunedBoth(missions[m], a, b);
    }
  }

  lemma PrunedBoth(state: StateMap, a: set<string>, b: set<string>)
    ensures Pruned(state, a + b) <==> Pruned(state, a) && Pruned(state, b)
  {
    hide IsTop, Head;
    if Pruned(state, a + b) {
      PrunedSubset(state, a + b, a);
      PrunedSubset(state, a + b, b);
    }
  }

  lemma PruneAllFixed(missions: Missions, dead: set<string>)
    ensures PruneAll(missions, dead, {}) == missions <==> AllPruned(missions, dead)
    ensures AllPruned(PruneAll(missions, dead, {}), dead)
  {
    hide Pruned, Prune;
    var p := PruneAll(missions, dead, {});
    forall m | m in missions ensures Pruned(missions[m], dead) <==> p[m] == missions[m] {
      PrunedIffFixed(missions[m], dead);
    }
    forall m | m in p ensures Pruned(p[m], dead) {
      PrunedIffFixed(missions[m], dead);
    }
    if AllPruned(missions, dead) {
      assert p == missions;
    }
  }

  /** A tick leaves what pruning would leave exactly when it prunes, or the
      missions are pruned anyway for the dead clusters that have reported since. */
  lemma EarlyReturnIsPruningIff(s: State, clusters: seq<EdgeCluster>)
    requires Inv(s)
    ensures Do(s, Tick(clusters, ALL_OK)).missions == PruneAll(s.missions, Dead(clusters), {}) <==>
              !(Dead(clusters) <= s.cache) || AllPruned(s.missions, Dead(clusters) * s.reported)
  {
    hide Pruned, Prune, Dead, AllPruned;
    var dead := Dead(clusters);
    if dead <= s.cache {
      PruneAllFixed(s.missions, dead);
      AllPrunedSubset(s.missions, s.cache - s.reported, dead - s.reported);
      assert (dead - s.reported) + (dead * s.reported) == dead;
      PrunedUnion(s.missions, dead - s.reported, dead * s.reported);
    }
  }

  lemma AllPrunedSubset(missions: Missions, dead: set<string>, fewer: set<string>)
    requires AllPruned(missions, dead) && fewer <= dead
    ensures AllPruned(missions, fewer)
  {
    hide Pruned;
    forall m | m in missions { PrunedSubset(missions[m], dead, fewer); }
  }

  lemma TickKeeps(s: State, clusters: seq<EdgeCluster>)
    requires Inv(s) && LOCAL_EDGE_CLUSTER !in Dead(clusters)
    ensures Inv(Do(s, Tick(clusters, ALL_OK)))
  {
    hide Pruned, Prune, Dead, AllPruned;
    var dead := Dead(clusters);
    if dead <= s.cache {
      AllPrunedSubset(s.missions, s.cache - s.reported, dead - s.reported);
      assert dead - s.reported * dead == dead - s.reported;
    } else {
      PruneAllFixed(s.missions, dead);
      assert dead - {} == dead;
    }
  }

  lemma ReportKeeps(s: State, m: string, cluster: string, report: StateMap)
    requires Inv(s) && ErrorFree(Report(m, cluster, report))
    ensures Inv(Do(s, Report(m, cluster, report)))
  {
    hide Pruned, Aggregate, OwnedBy;
    var dead := s.cache - s.reported;
    forall x | x in s.missions { PrunedSubset(s.missions[x], dead, dead - {cluster}); }
    if m in s.missions { ReportKeepsPruned(s.missions[m], report, cluster, dead); }
    assert s.cache - (s.reported + {cluster}) == dead - {cluster};
  }

  lemma StepKeeps(s: State, e: Event)
    requires Inv(s) && ErrorFree(e)
    ensures Inv(Do(s, e))
  {
    hide Pruned, Ticked, Dead, Aggregate, OwnedBy;
    match e
    case Tick(clusters, calls) => TickKeeps(s, clusters);
    case Report(m, cluster, report) => ReportKeeps(s, m, cluster, report);
    case LocalState(m, value) =>
      if m in s.missions { LocalKeepsPruned(s.missions[m], value, s.cache - s.reported); }
    case Created(m) => EmptyIsPruned(s.cache - s.reported);
    case Removed(m) =>
  }

  lemma EmptyIsPruned(dead: set<string>)
    ensures Pruned(map[], dead)
  {
  }

  lemma {:induction false} RunKeeps(trace: seq<State>, events: seq<Event>, n: nat)
    requires Run(trace, events) && Init(trace[0]) && n < |trace|
    requires forall i | 0 <= i < |events| :: ErrorFree(events[i])
    ensures Inv(trace[n])
  {
    hide Do, ErrorFree, Pruned;
    if n == 0 {
      assert trace[0].cache - trace[0].reported == {};
      forall m | m in trace[0].missions { NothingDead(trace[0].missions[m]); }
    } else {
      RunKeeps(trace, events, n - 1);
      StepKeeps(trace[n - 1], events[n - 1]);
    }
  }

  lemma NothingDead(state: StateMap)
    ensures Pruned(state, {})
  {
  }

  /** In every run without API errors, whatever clusters flap: a tick leaves
      exactly what pruning without a cache would leave, if and only if it finds a
      new dead cluster or the missions are pruned for the dead clusters that have
      reported since they were pruned. */
  lemma CacheIsTransparentIff(trace: seq<State>, events: seq<Event>, i: nat)
    requires Run(trace, events) && Init(trace[0]) && i < |events| && events[i].Tick?
    requires forall j | 0 <= j < |events| :: ErrorFree(events[j])
    ensures var s := trace[i]; var dead := Dead(events[i].clusters);
            trace[i + 1].missions == PruneAll(s.missions, dead, {}) <==>
              !(dead <= s.cache) || AllPruned(s.missions, dead * s.reported)
  {
    hide Pruned, Prune, Dead, AllPruned, Inv;
    RunKeeps(trace, events, i);
    assert ErrorFree(events[i]);
    EarlyReturnIsPruningIff(trace[i], events[i].clusters);
  }

  /** In particular when no cluster dead on this tick and the one before has
      reported since it was pruned; the missions are then pruned for all dead. */
  lemma CacheIsTransparent(trace: seq<State>, events: seq<Event>, i: nat)
    requires Run(trace, events) && Init(trace[0]) && i < |events| && events[i].Tick?
    requires forall j | 0 <= j < |events| :: ErrorFree(events[j])
    requires Dead(events[i].clusters) * trace[i].cache * trace[i].reported == {}
    ensures trace[i + 1].missions == PruneAll(trace[i].missions, Dead(events[i].clusters), {})
    ensures AllPruned(trace[i + 1].missions, Dead(events[i].clusters))
  {
    hide Pruned, Prune, Dead;
    var s, dead := trace[i], Dead(events[i].clusters);
    CacheIsTransparentIff(trace, events, i);
    if dead <= s.cache {
      assert dead * s.reported == dead * s.cache * s.reported;
      forall m | m in s.missions { NothingDead(s.missions[m]); }
    }
    PruneAllFixed(s.missions, dead);
  }

  // ---- What escapes ----

  /** A cluster that reports between two ticks on which it is dead keeps its
      reported state: it is not new to the second tick. */
  lemma FlappingEscapes(cluster: string, value: string) returns (trace: seq<State>, events: seq<Event>)
    requires '/' !in cluster && value != EDGE_CLUSTER_OFFLINE
    ensures Run(trace, events) && Init(trace[0]) && |events| == 3
    ensures events[2].Tick? && events[2].calls == ALL_OK && cluster in Dead(events[2].clusters)
    ensures trace[3].missions == map["m" := map[cluster := value]]
  {
    var down := [EdgeCluster(cluster, HEALTHY_STATUS, true)];
    assert down[0] in down;
    events := [Tick(down, ALL_OK), Report("m", cluster, map[cluster := value]), Tick(down, ALL_OK)];
    var s0 := State({}, map["m" := map[]], {});
    var s1 := Do(s0, events[0]);
    var s2 := Do(s1, events[1]);
    var s3 := Do(s2, events[2]);
    trace := [s0, s1, s2, s3];
    assert s1.missions["m"] == map[];
    assert Aggregate(map[], map[cluster := value], cluster) == map[cluster := value];
  }

  /** Nothing but ticks on which exactly these clusters are dead, and events of
      other missions. */
  ghost predicate LeavesAlone(e: Event, dead: set<string>, m: string)
  {
    match e
    case Tick(clusters, _) => Dead(clusters) == dead
    case Report(x, _, _) => x != m
    case LocalState(x, _) => x != m
    case Created(x) => x != m
    case Removed(x) => x != m
  }

  /** A mission whose write-back fails is not pruned again while the same clusters
      stay dead, over every run and however many ticks of it succeed. */
  lemma {:induction false} FailedWriteIsNotRetried(before: State, clusters: seq<EdgeCluster>, calls: Calls, m: string,
                                                   trace: seq<State>, events: seq<Event>, n: nat)
    requires m in before.missions && calls.clustersOk && m in calls.failed
    requires Run(trace, events) && trace[0] == Do(before, Tick(clusters, calls)) && n < |trace|
    requires forall i | 0 <= i < |events| :: LeavesAlone(events[i], Dead(clusters), m)
    ensures trace[n].cache == Dead(clusters)
    ensures m in trace[n].missions && trace[n].missions[m] == before.missions[m]
  {
    hide Prune, Dead, Aggregate;
    if n > 0 {
      FailedWriteIsNotRetried(before, clusters, calls, m, trace, events, n - 1);
      assert LeavesAlone(events[n - 1], Dead(clusters), m);
    }
  }
}
