/** The state of a mission, kept per cluster: a cluster reports the state it
    knows under its own name, its parent replaces that cluster's slice, and the
    pruner cuts the slices of dead clusters. Keys are cluster paths separated
    by slashes. */
module MissionState {
  import opened Strings
  import opened Names

  type StateMap = map<string, string>

  /** The key a cluster keeps its own state under. */
  const LOCAL_EDGE_CLUSTER := "LocalEdgeCluster"

  const EDGE_CLUSTER_OFFLINE := "cluster unreacheable"

  // ---- Ownership ----

  /** The key is the cluster's own or lies below it, as the code tests it. */
  predicate Owns(cluster: string, key: string)
  {
    key == cluster || HasPrefix(key, cluster + "/")
  }

  /** For a name without slash, that is: the key's first component. */
  lemma OwnsIsHead(cluster: string, key: string)
    requires '/' !in cluster
    ensures Owns(cluster, key) <==> Head(key, '/') == cluster
  {
    hide Split;
    if Owns(cluster, key) {
      SplitPlain(cluster, '/');
      if key != cluster {
        var rest := key[|cluster| + 1..];
        assert key == cluster + "/" + rest;
        SplitConcat(cluster, rest, '/');
      }
    }
    if Head(key, '/') == cluster {
      var parts := Split(key, '/');
      JoinSplit(key, '/');
      if |parts| > 1 {
        assert key == cluster + "/" + Join(parts[1..], '/');
        assert key[..|cluster| + 1] == cluster + "/";
      }
    }
  }

  // ---- Reporting ----

  /** The key under which a cluster reports one of its keys. */
  function ReportKey(cluster: string, key: string): string
  {
    if key == LOCAL_EDGE_CLUSTER then cluster else cluster + "/" + key
  }

  lemma ReportKeyInjective(cluster: string, a: string, b: string)
    ensures ReportKey(cluster, a) == ReportKey(cluster, b) ==> a == b
  {
    var n := |cluster| + 1;
    if a != LOCAL_EDGE_CLUSTER { assert ReportKey(cluster, a)[n..] == a; }
    if b != LOCAL_EDGE_CLUSTER { assert ReportKey(cluster, b)[n..] == b; }
  }

  lemma ReportKeyOwned(cluster: string, key: string)
    ensures Owns(cluster, ReportKey(cluster, key))
  {
    assert (cluster + "/" + key)[..|cluster| + 1] == cluster + "/";
  }

  /** `r` is what the cluster reports of `state`. */
  ghost predicate Reports(cluster: string, state: StateMap, r: StateMap)
  {
    && (forall k | k in state :: ReportKey(cluster, k) in r && r[ReportKey(cluster, k)] == state[k])
    && (forall key | key in r :: exists k :: k in state && ReportKey(cluster, k) == key)
  }

  ghost function Report(cluster: string, state: StateMap): (r: StateMap)
    ensures Reports(cluster, state, r)
    ensures forall key | key in r :: Owns(cluster, key)
  {
    ReportKeysInjective(cluster);
    var r := map k | k in state :: ReportKey(cluster, k) := state[k];
    assert forall key | key in r :: exists k :: k in state && ReportKey(cluster, k) == key;
    r
  }

  lemma ReportKeysInjective(cluster: string)
    ensures forall a, b :: ReportKey(cluster, a) == ReportKey(cluster, b) ==> a == b
    ensures forall k :: Owns(cluster, ReportKey(cluster, k))
  {
    forall a, b ensures ReportKey(cluster, a) == ReportKey(cluster, b) ==> a == b { ReportKeyInjective(cluster, a, b); }
    forall k ensures Owns(cluster, ReportKey(cluster, k)) { ReportKeyOwned(cluster, k); }
  }

  lemma ReportsStep(cluster: string, done: StateMap, r: StateMap, k: string, v: string)
    requires Reports(cluster, done, r) && k !in done
    ensures Reports(cluster, done[k := v], r[ReportKey(cluster, k) := v])
  {
    var key, r' := ReportKey(cluster, k), r[ReportKey(cluster, k) := v];
    forall a | a in done[k := v] ensures ReportKey(cluster, a) in r' && r'[ReportKey(cluster, a)] == done[k := v][a] {
      ReportKeyInjective(cluster, a, k);
    }
    forall b | b in r' ensures exists a :: a in done[k := v] && ReportKey(cluster, a) == b {
      if b == key {
        assert k in done[k := v];
      } else {
        var a :| a in done && ReportKey(cluster, a) == b;
        assert a in done[k := v];
      }
    }
  }

  /** `ReportMissionState`'s loop, for every order of the keys. */
  method ReportMissionState(cluster: string, state: StateMap) returns (updated: StateMap)
    ensures updated == Report(cluster, state)
  {
    hide Reports;
    updated := map[];
    var todo := state.Keys;
    ghost var done: StateMap := map[];
    assert Reports(cluster, done, updated) by { EmptyReport(cluster); }
    while todo != {}
      invariant todo <= state.Keys && done == map key | key in state && key !in todo :: state[key]
      invariant Reports(cluster, done, updated)
    {
      var key :| key in todo;
      ReportsStep(cluster, done, updated, key, state[key]);
      if key == LOCAL_EDGE_CLUSTER {
        updated := updated[cluster := state[key]];
      } else {
        updated := updated[cluster + "/" + key := state[key]];
      }
      done := done[key := state[key]];
      todo := todo - {key};
    }
    assert done == state;
    SameReport(cluster, state, updated, Report(cluster, state));
  }

  lemma EmptyReport(cluster: string)
    ensures Reports(cluster, map[], map[])
  {
  }

  lemma SameReport(cluster: string, state: StateMap, a: StateMap, b: StateMap)
    requires Reports(cluster, state, a) && Reports(cluster, state, b)
    ensures a == b
  {
    hide ReportKey;
    forall key ensures key in a <==> key in b { }
  }

  // ---- Aggregating ----

  /** The old entries the cluster does not own, and its report. */
  function Aggregate(state: StateMap, report: StateMap, cluster: string): StateMap
  {
    (map key | key in state && !Owns(cluster, key) :: state[key]) + report
  }

  /** Where `aggregateState` stands when it has been through `state` but for the
      keys in `todo`: what is left of the state and of the report. */
  ghost predicate Midway(state: StateMap, report: StateMap, cluster: string, todo: set<string>,
                         result: StateMap, newState: StateMap)
  {
    && (forall k :: k in newState <==> k in report && !(k in state && k !in todo && Owns(cluster, k)))
    && (forall k | k in newState :: newState[k] == report[k])
    && (forall k :: k in result <==> k in state && !(k !in todo && Owns(cluster, k) && k !in report))
    && (forall k | k in result :: result[k] == if k !in todo && Owns(cluster, k) then report[k] else state[k])
  }

  lemma MidwayEnd(state: StateMap, report: StateMap, cluster: string, result: StateMap, newState: StateMap)
    requires Midway(state, report, cluster, {}, result, newState)
    ensures result + newState == Aggregate(state, report, cluster)
  {
    hide Owns;
    var a, b := result + newState, Aggregate(state, report, cluster);
    assert forall k :: k in a <==> k in b;
    assert forall k | k in a :: a[k] == b[k];
  }

  /** `aggregateState`, which edits both maps while ranging over one, for every
      order of the keys. */
  method AggregateState(state: StateMap, report: StateMap, cluster: string) returns (result: StateMap)
    ensures result == Aggregate(state, report, cluster)
  {
    hide Owns, Aggregate;
    result := state;
    var newState := report;
    var todo := state.Keys;
    while todo != {}
      invariant todo <= state.Keys && Midway(state, report, cluster, todo, result, newState)
    {
      var key :| key in todo;
      if Owns(cluster, key) {
        if key in newState {
          result := result[key := newState[key]];
          newState := newState - {key};
        } else {
          result := result - {key};
        }
      }
      todo := todo - {key};
    }
    MidwayEnd(state, report, cluster, result, newState);
    result := CopyInto(result, newState);
  }

  /** The copying loop at the end of `aggregateState`. */
  method CopyInto(state: StateMap, newState: StateMap) returns (result: StateMap)
    ensures result == state + newState
  {
    result := state;
    var rest := newState.Keys;
    while rest != {}
      invariant rest <= newState.Keys
      invariant result.Keys == state.Keys + (newState.Keys - rest)
      invariant forall key | key in result :: result[key] == if key in newState && key !in rest then newState[key] else state[key]
    {
      var key :| key in rest;
      result := result[key := newState[key]];
      rest := rest - {key};
    }
  }

  ghost predicate OwnedBy(cluster: string, report: StateMap)
  {
    forall key | key in report :: Owns(cluster, key)
  }

  /** Reports of two clusters can be taken in either order. */
  lemma AggregateCommutes(state: StateMap, r1: StateMap, c1: string, r2: StateMap, c2: string)
    requires '/' !in c1 && '/' !in c2 && c1 != c2 && OwnedBy(c1, r1) && OwnedBy(c2, r2)
    ensures Aggregate(Aggregate(state, r1, c1), r2, c2) == Aggregate(Aggregate(state, r2, c2), r1, c1)
  {
    hide Owns;
    OwnersDisjoint(c1, c2);
    var a, b := Aggregate(Aggregate(state, r1, c1), r2, c2), Aggregate(Aggregate(state, r2, c2), r1, c1);
    assert forall key :: key in a <==> key in b;
    assert forall key | key in a :: a[key] == b[key];
  }

  lemma OwnersDisjoint(c1: string, c2: string)
    requires '/' !in c1 && '/' !in c2 && c1 != c2
    ensures forall key :: !(Owns(c1, key) && Owns(c2, key))
  {
    hide Owns, Head;
    forall key ensures !(Owns(c1, key) && Owns(c2, key)) {
      OwnsIsHead(c1, key);
      OwnsIsHead(c2, key);
    }
  }

  // ---- Pruning ----

  /** The key names a direct sub-cluster. */
  predicate IsTop(key: string)
  {
    |Split(key, '/')| == 1
  }

  lemma TopIsHead(key: string)
    requires IsTop(key)
    ensures Head(key, '/') == key
  {
    JoinSplit(key, '/');
  }

  /** The key lies below a dead cluster. */
  predicate Cut(dead: set<string>, key: string)
  {
    !IsTop(key) && Head(key, '/') in dead
  }

  /** Dead clusters read unreachable, and nothing below them remains. */
  function Prune(state: StateMap, dead: set<string>): StateMap
  {
    map key | key in state && !Cut(dead, key) :: if IsTop(key) && key in dead then EDGE_CLUSTER_OFFLINE else state[key]
  }

  ghost predicate Pruned(state: StateMap, dead: set<string>)
  {
    forall key | key in state :: !Cut(dead, key) && (IsTop(key) && key in dead ==> state[key] == EDGE_CLUSTER_OFFLINE)
  }

  /** Pruned states are exactly the states pruning leaves alone, and pruning
      always reaches one. */
  lemma PrunedIffFixed(state: StateMap, dead: set<string>)
    ensures Pruned(state, dead) <==> Prune(state, dead) == state
    ensures Pruned(Prune(state, dead), dead)
  {
    hide Cut, IsTop;
    var p := Prune(state, dead);
    if p == state {
      forall key | key in state ensures !Cut(dead, key) && (IsTop(key) && key in dead ==> state[key] == EDGE_CLUSTER_OFFLINE) {
        assert key in p;
      }
    }
  }

  /** What pruning leaves, for clusters without slash in their names: everything
      below a dead cluster goes, a dead cluster itself reads unreachable, and all
      else stays. */
  lemma PruneMeans(state: StateMap, dead: set<string>, key: string)
    requires forall c | c in dead :: '/' !in c
    ensures key in Prune(state, dead) <==> key in state && !exists c | c in dead :: HasPrefix(key, c + "/")
    ensures key in Prune(state, dead) && key in dead ==> Prune(state, dead)[key] == "cluster unreacheable"
    ensures key in Prune(state, dead) && key !in dead ==> Prune(state, dead)[key] == state[key]
  {
    hide Split, Cut, IsTop;
    forall c | c in dead && HasPrefix(key, c + "/") ensures Cut(dead, key) {
      BelowIsCut(dead, c, key);
    }
    if Cut(dead, key) {
      var c := CutIsBelow(dead, key);
    }
    if key in dead {
      DeadIsTop(key);
    }
  }

  lemma BelowIsCut(dead: set<string>, c: string, key: string)
    requires c in dead && '/' !in c && HasPrefix(key, c + "/")
    ensures Cut(dead, key)
  {
    hide Split;
    var rest := key[|c| + 1..];
    assert key == c + "/" + rest;
    SplitConcat(c, rest, '/');
    SplitPlain(c, '/');
  }

  lemma CutIsBelow(dead: set<string>, key: string) returns (c: string)
    requires Cut(dead, key)
    ensures c in dead && HasPrefix(key, c + "/")
  {
    hide Split;
    var parts := Split(key, '/');
    c := parts[0];
    JoinSplit(key, '/');
    assert key == c + "/" + Join(parts[1..], '/');
    assert key[..|c| + 1] == c + "/";
  }

  lemma DeadIsTop(key: string)
    requires '/' !in key
    ensures IsTop(key)
  {
    SplitPlain(key, '/');
  }

  /** The pruner's loop over one mission state, which sets and deletes the keys
      it ranges over, for every order: `changed` tells exactly whether the
      state must be written back. */
  method PruneMission(state: StateMap, dead: set<string>) returns (result: StateMap, changed: bool)
    ensures result == Prune(state, dead)
    ensures changed <==> result != state
  {
    hide Split;
    result, changed := state, false;
    var todo := state.Keys;
    while todo != {}
      invariant todo <= state.Keys
      invariant forall k :: k in result <==> k in state && (k in todo || !Cut(dead, k))
      invariant forall k | k in result ::
                  result[k] == if k !in todo && IsTop(k) && k in dead then EDGE_CLUSTER_OFFLINE else state[k]
      invariant changed <==> result != state
    {
      var key :| key in todo;
      var parts := Split(key, '/');
      if |parts| == 1 {
        if key in dead && state[key] != EDGE_CLUSTER_OFFLINE {
          result := result[key := EDGE_CLUSTER_OFFLINE];
          changed := true;
          assert result[key] != state[key];
        }
      } else {
        if parts[0] in dead {
          result := result - {key};
          changed := true;
          assert key in state && key !in result;
        }
      }
      todo := todo - {key};
    }
  }

  /** Taking the report of a live cluster and pruning dead ones commute. */
  lemma AggregatePruneCommutes(state: StateMap, report: StateMap, cluster: string, dead: set<string>)
    requires '/' !in cluster && cluster !in dead && OwnedBy(cluster, report)
    ensures Prune(Aggregate(state, report, cluster), dead) == Aggregate(Prune(state, dead), report, cluster)
  {
    hide Owns, Cut, IsTop;
    LiveUncut(cluster, dead);
    var a, b := Prune(Aggregate(state, report, cluster), dead), Aggregate(Prune(state, dead), report, cluster);
    assert forall key :: key in a <==> key in b;
    assert forall key | key in a :: a[key] == b[key];
  }

  lemma LiveUncut(cluster: string, dead: set<string>)
    requires '/' !in cluster && cluster !in dead
    ensures forall key | Owns(cluster, key) :: !Cut(dead, key) && !(IsTop(key) && key in dead)
  {
    hide Owns, Head, IsTop;
    forall key | Owns(cluster, key) ensures !Cut(dead, key) && !(IsTop(key) && key in dead) {
      OwnsIsHead(cluster, key);
      if IsTop(key) { TopIsHead(key); }
    }
  }
}
