/** Mission state across a whole tree of clusters: one round of reports, from
    the leaves up, gives the root the state of every cluster below it under
    that cluster's path. */
module MissionTree {
  import opened Strings
  import opened MissionState

  /** A cluster, the state of the mission as the cluster holds it before the
      round, and its direct sub-clusters. Its own state is the entry under
      `LOCAL_EDGE_CLUSTER`. */
  datatype Cluster = Cluster(name: string, state: StateMap, subs: seq<Cluster>)

  /** The mission state at `c` after every cluster below has reported. */
  ghost function Round(c: Cluster): StateMap
    decreases c, 1
  {
    Absorb(c.state, c.subs)
  }

  /** The reports of `subs` taken one after the other. */
  ghost function Absorb(state: StateMap, subs: seq<Cluster>): StateMap
    decreases subs, 0
  {
    if subs == [] then state
    else Absorb(Aggregate(state, Report(subs[0].name, Round(subs[0])), subs[0].name), subs[1..])
  }

  /** The round as the clusters carry it out. */
  method RunRound(c: Cluster) returns (state: StateMap)
    ensures state == Round(c)
    decreases c
  {
    state := c.state;
    var i := 0;
    while i < |c.subs|
      invariant 0 <= i <= |c.subs|
      invariant Absorb(state, c.subs[i..]) == Round(c)
    {
      var sub := c.subs[i];
      var below := RunRound(sub);
      var report := ReportMissionState(sub.name, below);
      assert c.subs[i..][0] == sub && c.subs[i..][1..] == c.subs[i + 1..];
      state := AggregateState(state, report, sub.name);
      i := i + 1;
    }
  }

  // ---- The reference: looking a cluster up by its path ----

  function FindSub(subs: seq<Cluster>, name: string): (r: Option<Cluster>)
    ensures r.Some? ==> r.value in subs && r.value.name == name
  {
    if subs == [] then None
    else if subs[0].name == name then Some(subs[0])
    else FindSub(subs[1..], name)
  }

  /** The local state of the cluster at `path` below `c`. */
  function At(c: Cluster, path: seq<string>): Option<string>
    decreases |path|
  {
    if path == [] then
      if LOCAL_EDGE_CLUSTER in c.state then Some(c.state[LOCAL_EDGE_CLUSTER]) else None
    else
      var sub := FindSub(c.subs, path[0]);
      if sub.None? then None else At(sub.value, path[1..])
  }

  function Key(path: seq<string>): string
  {
    if path == [] then LOCAL_EDGE_CLUSTER else Join(path, '/')
  }

  /** Sub-clusters have distinct names, without slash and other than
      `LOCAL_EDGE_CLUSTER`, at every level. */
  ghost predicate WellNamed(c: Cluster)
  {
    NamesOk(c.subs) && forall i | 0 <= i < |c.subs| :: WellNamed(c.subs[i])
  }

  /** An entry of a cluster that is not there. */
  ghost predicate IsOrphan(c: Cluster, key: string)
  {
    key in c.state && key != LOCAL_EDGE_CLUSTER && forall i | 0 <= i < |c.subs| :: !Owns(c.subs[i].name, key)
  }

  /** No cluster of the tree holds an orphan before the round. */
  ghost predicate OrphanFree(c: Cluster)
  {
    && (forall key | key in c.state :: !IsOrphan(c, key))
    && (forall i | 0 <= i < |c.subs| :: OrphanFree(c.subs[i]))
  }

  ghost predicate NamesOk(subs: seq<Cluster>)
  {
    && (forall i | 0 <= i < |subs| :: '/' !in subs[i].name && subs[i].name != LOCAL_EDGE_CLUSTER)
    && (forall i, j | 0 <= i < j < |subs| :: subs[i].name != subs[j].name)
  }

  // ---- The round, key by key ----

  /** The same entry, or none, under `key`. */
  predicate SameAt(a: StateMap, b: StateMap, key: string)
  {
    (key in a <==> key in b) && (key in a ==> a[key] == b[key])
  }

  lemma AggregateAt(state: StateMap, report: StateMap, cluster: string, key: string)
    requires OwnedBy(cluster, report)
    ensures SameAt(Aggregate(state, report, cluster), if Owns(cluster, key) then report else state, key)
  {
    hide Owns;
  }

  lemma OneOwner(a: string, b: string, key: string)
    requires '/' !in a && '/' !in b && Owns(a, key) && Owns(b, key)
    ensures a == b
  {
    hide Owns;
    OwnsIsHead(a, key);
    OwnsIsHead(b, key);
  }

  /** A key no sub-cluster owns is untouched. */
  lemma {:induction false} AbsorbOther(state: StateMap, subs: seq<Cluster>, key: string)
    requires forall i | 0 <= i < |subs| :: !Owns(subs[i].name, key)
    ensures SameAt(Absorb(state, subs), state, key)
    decreases |subs|
  {
    hide Owns, Aggregate, Reports;
    if subs != [] {
      var report := Report(subs[0].name, Round(subs[0]));
      AggregateAt(state, report, subs[0].name, key);
      AbsorbOther(Aggregate(state, report, subs[0].name), subs[1..], key);
    }
  }

  /** A key owned by the i-th sub-cluster is as that cluster reports it. */
  lemma {:induction false} AbsorbOwned(state: StateMap, subs: seq<Cluster>, i: nat, key: string)
    requires NamesOk(subs) && i < |subs| && Owns(subs[i].name, key)
    ensures SameAt(Absorb(state, subs), Report(subs[i].name, Round(subs[i])), key)
    decreases |subs|
  {
    hide Owns, Aggregate, Reports;
    var report := Report(subs[0].name, Round(subs[0]));
    var next := Aggregate(state, report, subs[0].name);
    if i == 0 {
      AggregateAt(state, report, subs[0].name, key);
      forall j | 0 <= j < |subs[1..]| ensures !Owns(subs[1..][j].name, key) {
        if Owns(subs[1..][j].name, key) { OneOwner(subs[0].name, subs[1..][j].name, key); }
      }
      AbsorbOther(next, subs[1..], key);
    } else {
      AbsorbOwned(next, subs[1..], i - 1, key);
    }
  }

  lemma LocalUnowned(subs: seq<Cluster>)
    requires NamesOk(subs)
    ensures forall i | 0 <= i < |subs| :: !Owns(subs[i].name, LOCAL_EDGE_CLUSTER)
  {
    hide Owns, Split;
    SplitPlain(LOCAL_EDGE_CLUSTER, '/');
    forall i | 0 <= i < |subs| ensures !Owns(subs[i].name, LOCAL_EDGE_CLUSTER) {
      OwnsIsHead(subs[i].name, LOCAL_EDGE_CLUSTER);
    }
  }

  // ---- Paths ----

  /** A path of names as they occur in a tree. */
  predicate PlainPath(path: seq<string>)
  {
    (forall i | 0 <= i < |path| :: '/' !in path[i]) && (path != [] ==> path[0] != LOCAL_EDGE_CLUSTER)
  }

  /** Distinct clusters have distinct keys: nothing is merged. */
  lemma KeyInjective(p: seq<string>, q: seq<string>)
    requires PlainPath(p) && PlainPath(q) && Key(p) == Key(q)
    ensures p == q
  {
    hide Split, Join;
    SplitPlain(LOCAL_EDGE_CLUSTER, '/');
    if p != [] { SplitJoin(p, '/'); }
    if q != [] { SplitJoin(q, '/'); }
  }

  /** Reporting prefixes the path. */
  lemma ReportKeyExtends(name: string, path: seq<string>)
    requires PlainPath(path)
    ensures ReportKey(name, Key(path)) == Key([name] + path)
  {
    if path != [] {
      if Key(path) == LOCAL_EDGE_CLUSTER { KeyInjective(path, []); }
      assert ([name] + path)[1..] == path;
    }
  }

  lemma FindSubAt(subs: seq<Cluster>, i: nat)
    requires NamesOk(subs) && i < |subs|
    ensures FindSub(subs, subs[i].name) == Some(subs[i])
  {
    if i > 0 { FindSubAt(subs[1..], i - 1); }
  }

  lemma FindSubIndex(subs: seq<Cluster>, name: string) returns (i: nat)
    requires FindSub(subs, name).Some?
    ensures i < |subs| && subs[i] == FindSub(subs, name).value && subs[i].name == name
  {
    i :| 0 <= i < |subs| && subs[i] == FindSub(subs, name).value;
  }

  lemma {:induction false} PathIsPlain(c: Cluster, path: seq<string>)
    requires WellNamed(c) && At(c, path).Some?
    ensures PlainPath(path)
    decreases |path|
  {
    if path != [] {
      var i := FindSubIndex(c.subs, path[0]);
      PathIsPlain(c.subs[i], path[1..]);
      assert forall k | 1 <= k < |path| :: path[k] == path[1..][k - 1];
    }
  }

  // ---- The theorem ----

  /** Nothing is lost: the state of every cluster arrives under its path. */
  lemma {:induction false} NothingLost(c: Cluster, path: seq<string>)
    requires WellNamed(c) && At(c, path).Some?
    ensures Key(path) in Round(c) && Round(c)[Key(path)] == At(c, path).value
    decreases |path|
  {
    hide Owns, Join, ReportKey;
    if path == [] {
      LocalUnowned(c.subs);
      AbsorbOther(c.state, c.subs, LOCAL_EDGE_CLUSTER);
    } else {
      var i := FindSubIndex(c.subs, path[0]);
      var sub := c.subs[i];
      NothingLost(sub, path[1..]);
      PathIsPlain(sub, path[1..]);
      ReportKeyExtends(sub.name, path[1..]);
      ReportKeyOwned(sub.name, Key(path[1..]));
      assert [sub.name] + path[1..] == path;
      AbsorbOwned(c.state, c.subs, i, Key(path));
    }
  }

  /** Nothing is invented: without orphans, every key is the path of a cluster. */
  lemma {:induction false} NothingInvented(c: Cluster, key: string) returns (path: seq<string>)
    requires WellNamed(c) && OrphanFree(c) && key in Round(c)
    ensures At(c, path).Some? && Key(path) == key
    decreases c
  {
    hide Owns, Join, ReportKey;
    if i :| 0 <= i < |c.subs| && Owns(c.subs[i].name, key) {
      var sub := c.subs[i];
      AbsorbOwned(c.state, c.subs, i, key);
      var k :| k in Round(sub) && ReportKey(sub.name, k) == key;
      var p := NothingInvented(sub, k);
      PathIsPlain(sub, p);
      ReportKeyExtends(sub.name, p);
      FindSubAt(c.subs, i);
      path := [sub.name] + p;
      assert path[1..] == p;
    } else {
      AbsorbOther(c.state, c.subs, key);
      assert !IsOrphan(c, key);
      path := [];
    }
  }

  /** The key is the path of some cluster. */
  ghost predicate IsPathKey(c: Cluster, key: string)
  {
    exists path :: At(c, path).Some? && Key(path) == key
  }

  /** The path of a cluster below `c` is owned by the sub-cluster it starts with,
      and is that sub-cluster's report of the rest of the path. */
  lemma PathStarts(c: Cluster, path: seq<string>)
    requires WellNamed(c) && At(c, path).Some? && path != []
    ensures FindSub(c.subs, path[0]).Some?
    ensures Owns(path[0], Key(path)) && Key(path) == ReportKey(path[0], Key(path[1..]))
  {
    hide Owns, Join, ReportKey;
    var i := FindSubIndex(c.subs, path[0]);
    PathIsPlain(c.subs[i], path[1..]);
    ReportKeyExtends(path[0], path[1..]);
    ReportKeyOwned(path[0], Key(path[1..]));
    assert [path[0]] + path[1..] == path;
  }

  /** An orphan of the cluster itself survives the round, and is nobody's path. */
  lemma OrphanStays(c: Cluster, key: string)
    requires WellNamed(c) && IsOrphan(c, key)
    ensures key in Round(c) && !IsPathKey(c, key)
  {
    hide Owns, Join, ReportKey;
    AbsorbOther(c.state, c.subs, key);
    forall path | At(c, path).Some? ensures Key(path) != key {
      if path != [] {
        PathStarts(c, path);
        var i := FindSubIndex(c.subs, path[0]);
      }
    }
  }

  /** A key of a sub-cluster that is nobody's path is nobody's path above. */
  lemma OrphanRises(c: Cluster, i: nat, key: string)
    requires WellNamed(c) && i < |c.subs| && key in Round(c.subs[i]) && !IsPathKey(c.subs[i], key)
    ensures var above := ReportKey(c.subs[i].name, key); above in Round(c) && !IsPathKey(c, above)
  {
    hide Owns, Join, ReportKey, Key;
    var sub := c.subs[i];
    var above := ReportKey(sub.name, key);
    ReportKeyOwned(sub.name, key);
    AbsorbOwned(c.state, c.subs, i, above);
    LocalUnowned(c.subs);
    EmptyPath();
    forall path | At(c, path).Some? ensures Key(path) != above {
      if path != [] && Key(path) == above {
        PathStarts(c, path);
        var j := FindSubIndex(c.subs, path[0]);
        OneOwner(path[0], sub.name, above);
        FindSubAt(c.subs, i);
        ReportKeyInjective(sub.name, Key(path[1..]), key);
      }
    }
  }

  lemma EmptyPath()
    ensures Key([]) == LOCAL_EDGE_CLUSTER
  {
  }

  lemma {:induction false} OrphanArrives(c: Cluster) returns (key: string)
    requires WellNamed(c) && !OrphanFree(c)
    ensures key in Round(c) && !IsPathKey(c, key)
    decreases c
  {
    hide IsOrphan, IsPathKey, Round, ReportKey;
    if k :| k in c.state && IsOrphan(c, k) {
      key := k;
      OrphanStays(c, k);
    } else {
      var i :| 0 <= i < |c.subs| && !OrphanFree(c.subs[i]);
      var k := OrphanArrives(c.subs[i]);
      OrphanRises(c, i, k);
      key := ReportKey(c.subs[i].name, k);
    }
  }

  /** After a round the root has the local state of every cluster under its path,
      each under its own, and nothing else exactly when no cluster of the tree
      held an entry of a cluster that is not there. */
  lemma RoundIsExact(c: Cluster)
    requires WellNamed(c)
    ensures forall path :: At(c, path).Some? ==> Key(path) in Round(c) && Round(c)[Key(path)] == At(c, path).value
    ensures forall p, q :: At(c, p).Some? && At(c, q).Some? && Key(p) == Key(q) ==> p == q
    ensures (forall key | key in Round(c) :: IsPathKey(c, key)) <==> OrphanFree(c)
  {
    hide At, Key, Round, WellNamed, OrphanFree;
    forall path | At(c, path).Some? ensures Key(path) in Round(c) && Round(c)[Key(path)] == At(c, path).value {
      NothingLost(c, path);
    }
    forall p, q | At(c, p).Some? && At(c, q).Some? && Key(p) == Key(q) ensures p == q {
      PathIsPlain(c, p);
      PathIsPlain(c, q);
      KeyInjective(p, q);
    }
    if OrphanFree(c) {
      forall key | key in Round(c) ensures IsPathKey(c, key) {
        var path := NothingInvented(c, key);
      }
    } else {
      var key := OrphanArrives(c);
    }
  }
}
