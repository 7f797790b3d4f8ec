/** Anti-entropy of missions between cloud and edge cluster: the edge reports
    the missions it has noted, the cloud compares and resends its list, the
    edge aligns to the list. */
module MissionAlign {
  import opened Strings

  datatype Mission = Mission(name: string, clusters: seq<string>, matchLabels: map<string, string>, spec: string)

  /** The edge cluster's own name and labels. */
  datatype Site = Site(name: string, labels: map<string, string>)

  /** `noted` is the deployer's match table, `local` what the cluster holds. */
  datatype State = State(noted: map<string, bool>, local: map<string, Mission>)

  /** Which commands fail, by mission name; a failed listing yields its error
      text as the only name. */
  datatype Calls = Calls(
    failedApply: set<string>, unreadable: set<string>, undeletable: set<string>, listError: Option<string>)

  /** Placement: everywhere, by cluster name, or by one shared label. */
  predicate Matches(site: Site, m: Mission)
  {
    || (m.clusters == [] && m.matchLabels == map[])
    || site.name in m.clusters
    || exists k | k in m.matchLabels :: k in site.labels && site.labels[k] == m.matchLabels[k]
  }

  function Names(list: seq<Mission>): set<string>
  {
    set m | m in list :: m.name
  }

  lemma NamesSnoc(list: seq<Mission>, m: Mission)
    ensures Names(list + [m]) == Names(list) + {m.name}
  {
    assert forall n | n in Names(list) + {m.name} :: n in Names(list + [m]) by {
      assert m in list + [m];
      assert forall x | x in list :: x in list + [m];
    }
  }

  lemma SubsetSnoc(a: set<string>, n: string, b: set<string>)
    ensures a + {n} <= b <==> a <= b && n in b
  {
    if a + {n} <= b {
      assert forall x | x in a :: x in a + {n};
      assert n in a + {n};
    }
  }

  // ---- What the operations do ----

  /** The match is noted whether or not the command succeeds. */
  function Apply(site: Site, s: State, m: Mission, ok: bool): State
  {
    State(s.noted[m.name := Matches(site, m)], if ok then s.local[m.name := m] else s.local)
  }

  /** The match is forgotten whether or not the command succeeds. */
  function Delete(s: State, n: string, ok: bool): State
  {
    State(s.noted - {n}, if ok then s.local - {n} else s.local)
  }

  function ApplyAll(site: Site, s: State, list: seq<Mission>, failed: set<string>): State
  {
    if list == [] then s
    else
      var m := list[|list| - 1];
      Apply(site, ApplyAll(site, s, list[..|list| - 1], failed), m, m.name !in failed)
  }

  function Listing(s: State, calls: Calls): set<string>
  {
    if calls.listError.None? then s.local.Keys else {calls.listError.value}
  }

  /** The missions that a deletion by name gets as far as forgetting. */
  function Removable(s: State, calls: Calls): set<string>
  {
    Listing(s, calls) * s.local.Keys - calls.unreadable
  }

  function Align(site: Site, s: State, list: seq<Mission>, calls: Calls): State
  {
    var t := ApplyAll(site, s, list, calls.failedApply);
    var gone := Removable(t, calls) - Names(list);
    State(t.noted - gone, t.local - (gone - calls.undeletable))
  }

  // ---- The deployer ----

  class MissionDeployer {
    const site: Site
    var MissionMatch: map<string, bool>
    var local: map<string, Mission>

    constructor (site: Site, local: map<string, Mission>)
      ensures this.site == site && Value() == State(map[], local)
    {
      this.site, MissionMatch, this.local := site, map[], local;
    }

    function Value(): State
      reads this
    {
      State(MissionMatch, local)
    }

    method IsMatchingMission(m: Mission) returns (matching: bool)
      ensures matching <==> Matches(site, m)
      ensures matching <==>
                || (|m.clusters| == 0 && |m.matchLabels| == 0)
                || (exists i | 0 <= i < |m.clusters| :: m.clusters[i] == site.name)
                || (exists k | k in m.matchLabels :: k in site.labels && site.labels[k] == m.matchLabels[k])
    {
      assert |m.matchLabels| == 0 <==> m.matchLabels == map[];
      if |m.clusters| == 0 && |m.matchLabels| == 0 {
        assert m.matchLabels == map[];
        return true;
      }
      for i := 0 to |m.clusters|
        invariant site.name !in m.clusters[..i]
      {
        if m.clusters[i] == site.name {
          return true;
        }
      }
      assert m.clusters[..|m.clusters|] == m.clusters;
      if |m.matchLabels| == 0 {
        assert m.matchLabels == map[];
        return false;
      }
      var todo := m.matchLabels.Keys;
      while todo != {}
        invariant todo <= m.matchLabels.Keys
        invariant forall k | k in m.matchLabels && k !in todo ::
                    !(k in site.labels && site.labels[k] == m.matchLabels[k])
      {
        var k :| k in todo;
        if k in site.labels && site.labels[k] == m.matchLabels[k] {
          return true;
        }
        todo := todo - {k};
      }
      return false;
    }

    method ApplyMission(m: Mission, ok: bool)
      modifies this
      ensures Value() == Apply(site, old(Value()), m, ok)
    {
      var matching := IsMatchingMission(m);
      MissionMatch := MissionMatch[m.name := matching];
      if ok {
        local := local[m.name := m];
      }
    }

    /** Deleting a mission that the cluster does not have fails. */
    method DeleteMission(n: string, ok: bool) returns (err: bool)
      modifies this
      ensures err <==> !ok || n !in old(local)
      ensures Value() == Delete(old(Value()), n, ok)
    {
      MissionMatch := MissionMatch - {n};
      if !ok || n !in local {
        return true;
      }
      local := local - {n};
      return false;
    }

    /** A mission that cannot be read is not forgotten either. */
    method DeleteMissionByName(n: string, calls: Calls) returns (err: bool)
      modifies this
      ensures err <==> n !in old(local) || n in calls.unreadable || n in calls.undeletable
      ensures Value() == if n !in old(local) || n in calls.unreadable then old(Value())
                         else Delete(old(Value()), n, n !in calls.undeletable)
    {
      if n !in local || n in calls.unreadable {
        return true;
      }
      err := DeleteMission(n, n !in calls.undeletable);
    }

    /** The error covers the deletions only: a failed apply is just logged. */
    method AlignMissionList(list: seq<Mission>, calls: Calls) returns (err: bool)
      modifies this
      ensures Value() == Align(site, old(Value()), list, calls)
      ensures err <==> !(Listing(ApplyAll(site, old(Value()), list, calls.failedApply), calls) - Names(list)
                           <= Removable(ApplyAll(site, old(Value()), list, calls.failedApply), calls) - calls.undeletable)
    {
      var missionMap: set<string> := {};
      for i := 0 to |list|
        invariant Value() == ApplyAll(site, old(Value()), list[..i], calls.failedApply)
        invariant missionMap == Names(list[..i])
      {
        assert list[..i + 1] == list[..i] + [list[i]];
        assert list[..i + 1][..i] == list[..i];
        NamesSnoc(list[..i], list[i]);
        missionMap := missionMap + {list[i].name};
        ApplyMission(list[i], list[i].name !in calls.failedApply);
      }
      assert list[..|list|] == list;
      err := DeleteUnlisted(missionMap, calls);
    }

    /** The second loop; the cluster lists its missions in any order. */
    method DeleteUnlisted(missionMap: set<string>, calls: Calls) returns (err: bool)
      modifies this
      ensures MissionMatch == old(MissionMatch) - (old(Removable(Value(), calls)) - missionMap)
      ensures local == old(local) - (old(Removable(Value(), calls)) - missionMap - calls.undeletable)
      ensures err <==> !(old(Listing(Value(), calls)) - missionMap <= old(Removable(Value(), calls)) - calls.undeletable)
    {
      err := false;
      var listed := if calls.listError.None? then local.Keys else {calls.listError.value};
      ghost var removable := Removable(Value(), calls);
      var todo := listed;
      ghost var gone: set<string> := {};
      while todo != {}
        invariant todo <= listed
        invariant gone == removable - missionMap - todo
        invariant MissionMatch == old(MissionMatch) - gone
        invariant local == old(local) - (gone - calls.undeletable)
        invariant err <==> !(listed - todo - missionMap <= removable - calls.undeletable)
      {
        var n :| n in todo;
        ghost var done := listed - todo - missionMap;
        todo := todo - {n};
        if n in missionMap {
          assert listed - todo - missionMap == done;
        } else {
          assert listed - todo - missionMap == done + {n};
          SubsetSnoc(done, n, removable - calls.undeletable);
          assert n in local <==> n in old(local);
          var failed := DeleteMissionByName(n, calls);
          err := err || failed;
          if n in removable {
            gone := gone + {n};
          }
        }
      }
    }

    /** The mission lists of a state report: nothing from an unhealthy cluster,
        else every noted mission once, and the matching ones. */
    method ReportMissions(healthy: bool) returns (received: seq<string>, active: seq<string>)
      ensures !healthy ==> received == [] && active == []
      ensures healthy ==> forall n :: n in received <==> n in MissionMatch
      ensures healthy ==> forall n :: n in active <==> n in MissionMatch && MissionMatch[n]
      ensures healthy ==> |received| == |MissionMatch|
    {
      received, active := [], [];
      if !healthy {
        return;
      }
      var todo := MissionMatch.Keys;
      while todo != {}
        invariant todo <= MissionMatch.Keys
        invariant forall n :: n in received <==> n in MissionMatch && n !in todo
        invariant forall n :: n in active <==> n in MissionMatch && n !in todo && MissionMatch[n]
        invariant |received| + |todo| == |MissionMatch.Keys|
      {
        var k :| k in todo;
        received := received + [k];
        if MissionMatch[k] {
          active := active + [k];
        }
        todo := todo - {k};
      }
    }
  }

  /** The controller's comparison: the list is sent exactly when the sets of
      names differ. */
  method NeedsMissionList(received: seq<string>, cloud: seq<Mission>) returns (send: bool)
    ensures send <==> (set n | n in received) != Names(cloud)
  {
    var inEdge, inCloud := {}, {};
    for i := 0 to |received|
      invariant inEdge == set n | n in received[..i]
    {
      assert received[..i + 1] == received[..i] + [received[i]];
      inEdge := inEdge + {received[i]};
    }
    for i := 0 to |cloud|
      invariant inCloud == Names(cloud[..i])
    {
      NamesSnoc(cloud[..i], cloud[i]);
      assert cloud[..i + 1] == cloud[..i] + [cloud[i]];
      inCloud := inCloud + {cloud[i].name};
    }
    assert received[..|received|] == received && cloud[..|cloud|] == cloud;
    return inEdge != inCloud;
  }

  // ---- One round ----

  lemma {:induction false} ApplyAllKeys(site: Site, s: State, list: seq<Mission>, failed: set<string>)
    ensures ApplyAll(site, s, list, failed).noted.Keys == s.noted.Keys + Names(list)
    ensures ApplyAll(site, s, list, failed).local.Keys == s.local.Keys + (Names(list) - failed)
  {
    hide Matches;
    if list != [] {
      var k := |list| - 1;
      assert list == list[..k] + [list[k]];
      NamesSnoc(list[..k], list[k]);
      ApplyAllKeys(site, s, list[..k], failed);
    }
  }

  /** The missions of a list by name; the last of a name counts. */
  function Contents(list: seq<Mission>): map<string, Mission>
  {
    if list == [] then map[] else Contents(list[..|list| - 1])[list[|list| - 1].name := list[|list| - 1]]
  }

  lemma {:induction false} ContentsAt(list: seq<Mission>)
    ensures Contents(list).Keys == Names(list)
    ensures forall n | n in Contents(list) :: Contents(list)[n] in list && Contents(list)[n].name == n
  {
    if list != [] {
      var k := |list| - 1;
      assert list == list[..k] + [list[k]];
      NamesSnoc(list[..k], list[k]);
      ContentsAt(list[..k]);
    }
  }

  /** Applying a list leaves each mission whose command succeeds with the content
      it is last listed with, and all others as they were; the noted match is that
      of the last occurrence whether or not the command succeeds. */
  lemma {:induction false} ApplyAllContents(site: Site, s: State, list: seq<Mission>, failed: set<string>, n: string)
    ensures var t := ApplyAll(site, s, list, failed);
            && (n in Contents(list) ==> n in t.noted && (t.noted[n] <==> Matches(site, Contents(list)[n])))
            && (n in Contents(list) && n !in failed ==> n in t.local && t.local[n] == Contents(list)[n])
            && (n !in Contents(list) || n in failed ==>
                  (n in t.local <==> n in s.local) && (n in s.local ==> t.local[n] == s.local[n]))
            && (n !in Contents(list) ==> (n in t.noted <==> n in s.noted) && (n in s.noted ==> t.noted[n] == s.noted[n]))
  {
    hide Matches;
    if list != [] {
      ApplyAllContents(site, s, list[..|list| - 1], failed, n);
    }
  }

  /** After aligning, every listed mission whose command succeeds is held with the
      content it is last listed with, and every other mission that is still held is
      unchanged. */
  lemma AlignContents(site: Site, s: State, list: seq<Mission>, calls: Calls, n: string)
    ensures var t := Align(site, s, list, calls);
            && (n in Contents(list) && n !in calls.failedApply ==> n in t.local && t.local[n] == Contents(list)[n])
            && (n !in Contents(list) || n in calls.failedApply ==>
                  n in t.local ==> n in s.local && t.local[n] == s.local[n])
            && (n in Contents(list) ==> n in t.noted && (t.noted[n] <==> Matches(site, Contents(list)[n])))
  {
    hide Matches, ApplyAll, Contents;
    ContentsAt(list);
    ApplyAllContents(site, s, list, calls.failedApply, n);
  }

  /** What aligning does to the two sets of names, in terms of the state before. */
  lemma AlignKeys(site: Site, s: State, list: seq<Mission>, calls: Calls)
    ensures Align(site, s, list, calls).noted.Keys == s.noted.Keys + Names(list) - (Removable(s, calls) - Names(list))
    ensures Align(site, s, list, calls).local.Keys
              == s.local.Keys + (Names(list) - calls.failedApply)
                 - (Removable(s, calls) - Names(list) - calls.undeletable)
  {
    hide Apply, Names, ApplyAll;
    ApplyAllKeys(site, s, list, calls.failedApply);
    var t := ApplyAll(site, s, list, calls.failedApply);
    assert Removable(t, calls) - Names(list) == Removable(s, calls) - Names(list);
  }

  /** When the cluster cannot list its missions, nothing is forgotten or deleted,
      and aligning reports an error: the error text is taken for a mission. */
  lemma FailedListing(site: Site, s: State, list: seq<Mission>, calls: Calls)
    requires calls.listError.Some? && calls.listError.value !in Names(list) && calls.listError.value !in s.local
    ensures Align(site, s, list, calls).noted.Keys == s.noted.Keys + Names(list)
    ensures Align(site, s, list, calls).local.Keys == s.local.Keys + (Names(list) - calls.failedApply)
    ensures var t := ApplyAll(site, s, list, calls.failedApply);
            !(Listing(t, calls) - Names(list) <= Removable(t, calls) - calls.undeletable)
  {
    hide Apply, Names, ApplyAll;
    AlignKeys(site, s, list, calls);
    ApplyAllKeys(site, s, list, calls.failedApply);
    assert calls.listError.value in Listing(ApplyAll(site, s, list, calls.failedApply), calls) - Names(list);
  }

  /** The report agrees with the cloud after one round exactly when every stale
      noted mission is one the cluster can list and read. */
  lemma ReportAgreesIff(site: Site, s: State, list: seq<Mission>, calls: Calls)
    ensures (Align(site, s, list, calls).noted.Keys == Names(list)) <==>
            (s.noted.Keys - Names(list) <= Removable(s, calls))
  {
    hide Align, Names, Removable;
    AlignKeys(site, s, list, calls);
  }

  lemma SetsAgree(have: set<string>, want: set<string>, failed: set<string>, gone: set<string>)
    ensures (have + (want - failed) - (gone - want) == want) <==> (want * failed <= have && have - want <= gone)
  {
    var got := have + (want - failed) - (gone - want);
    if got == want {
      forall n | n in want * failed ensures n in have {
        assert n in got;
      }
      forall n | n in have - want ensures n in gone {
        assert n !in got;
      }
    }
  }

  /** The cluster agrees with the cloud after one round exactly when every missing
      mission could be applied and every surplus one removed. */
  lemma ClusterAgreesIff(site: Site, s: State, list: seq<Mission>, calls: Calls)
    ensures (Align(site, s, list, calls).local.Keys == Names(list)) <==>
            (Names(list) * calls.failedApply <= s.local.Keys
             && s.local.Keys - Names(list) <= Removable(s, calls) - calls.undeletable)
  {
    hide Align, Names, Removable;
    AlignKeys(site, s, list, calls);
    SetsAgree(s.local.Keys, Names(list), calls.failedApply, Removable(s, calls) - calls.undeletable);
    assert Removable(s, calls) - Names(list) - calls.undeletable
        == Removable(s, calls) - calls.undeletable - Names(list);
  }

  /** Align, report, compare: the cloud sends its list again exactly when a stale
      noted mission could not be listed and read. */
  method Round(md: MissionDeployer, cloud: seq<Mission>, calls: Calls) returns (send: bool)
    modifies md
    ensures md.Value() == Align(md.site, old(md.Value()), cloud, calls)
    ensures send <==> !(old(md.MissionMatch.Keys) - Names(cloud) <= old(Removable(md.Value(), calls)))
  {
    hide Align, Names, Removable, Matches;
    ReportAgreesIff(md.site, md.Value(), cloud, calls);
    var err := md.AlignMissionList(cloud, calls);
    var received, active := md.ReportMissions(true);
    send := NeedsMissionList(received, cloud);
    assert (set n | n in received) == md.Value().noted.Keys;
  }

  // ---- Runs ----

  datatype Event =
    | ApplyOne(m: Mission, ok: bool)
    | DeleteOne(n: string, deleted: bool)
    | AlignTo(list: seq<Mission>, calls: Calls)

  function Do(site: Site, s: State, e: Event): State
  {
    match e
    case ApplyOne(m, ok) => Apply(site, s, m, ok)
    case DeleteOne(n, deleted) => Delete(s, n, deleted)
    case AlignTo(list, calls) => Align(site, s, list, calls)
  }

  function After(site: Site, s: State, events: seq<Event>): State
  {
    if events == [] then s
    else Do(site, After(site, s, events[..|events| - 1]), events[|events| - 1])
  }

  /** Every apply command of the event succeeds; deletions, reads and listings
      may fail. */
  predicate Applies(e: Event)
  {
    match e
    case ApplyOne(_, ok) => ok
    case DeleteOne(_, _) => true
    case AlignTo(list, calls) => Names(list) !! calls.failedApply
  }

  lemma StepKeeps(site: Site, s: State, e: Event)
    requires s.noted.Keys <= s.local.Keys && Applies(e)
    ensures Do(site, s, e).noted.Keys <= Do(site, s, e).local.Keys
  {
    hide Align, Names, Matches, Removable;
    match e
    case ApplyOne(m, ok) =>
    case DeleteOne(n, deleted) =>
    case AlignTo(list, calls) => AlignKeys(site, s, list, calls);
  }

  /** As long as no apply command fails, the noted missions are in the cluster,
      whatever else fails. */
  lemma {:induction false} RunKeeps(site: Site, s: State, events: seq<Event>)
    requires s.noted.Keys <= s.local.Keys && forall e | e in events :: Applies(e)
    ensures After(site, s, events).noted.Keys <= After(site, s, events).local.Keys
  {
    hide Do, Applies;
    if events != [] {
      var k := |events| - 1;
      assert forall e | e in events[..k] :: e in events;
      RunKeeps(site, s, events[..k]);
      assert events[k] in events;
      StepKeeps(site, After(site, s, events[..k]), events[k]);
    }
  }

  /** From a fresh start, over every run whose apply commands succeed, one
      alignment whose commands succeed makes the cluster hold exactly the cloud's
      missions, content and all, and the report name exactly these, with their
      matches. */
  lemma OneRoundConverges(site: Site, local: map<string, Mission>, events: seq<Event>, list: seq<Mission>, calls: Calls)
    requires forall e | e in events :: Applies(e)
    requires calls == Calls({}, {}, {}, None)
    ensures var t := Align(site, After(site, State(map[], local), events), list, calls);
            && t.local == Contents(list)
            && t.noted.Keys == Contents(list).Keys
            && forall n | n in t.noted :: t.noted[n] <==> Matches(site, Contents(list)[n])
  {
    hide Align, Applies, After, Names, Contents, Matches;
    var s := After(site, State(map[], local), events);
    RunKeeps(site, State(map[], local), events);
    ReportAgreesIff(site, s, list, calls);
    ClusterAgreesIff(site, s, list, calls);
    ContentsAt(list);
    forall n ensures n in Names(list) ==>
                       && Align(site, s, list, calls).local[n] == Contents(list)[n]
                       && (Align(site, s, list, calls).noted[n] <==> Matches(site, Contents(list)[n]))
    {
      AlignContents(site, s, list, calls, n);
    }
  }

  ghost predicate Avoids(e: Event, n: string)
  {
    match e
    case ApplyOne(m, _) => m.name != n
    case DeleteOne(d, _) => d != n
    case AlignTo(list, _) => n !in Names(list)
  }

  /** A noted mission that the cluster does not hold is reported forever, through
      every number of alignments, until an event names it. */
  lemma {:induction false} StaleStaysNoted(site: Site, s: State, events: seq<Event>, n: string)
    requires n in s.noted && n !in s.local && forall e | e in events :: Avoids(e, n)
    ensures n in After(site, s, events).noted && n !in After(site, s, events).local
  {
    hide Align, Names, Matches;
    if events != [] {
      var k := |events| - 1;
      assert forall e | e in events[..k] :: e in events;
      StaleStaysNoted(site, s, events[..k], n);
      var t := After(site, s, events[..k]);
      assert events[k] in events;
      match events[k]
      case ApplyOne(m, ok) =>
      case DeleteOne(d, deleted) =>
      case AlignTo(list, calls) => AlignKeys(site, t, list, calls);
    }
  }

  /** The report can agree with the cloud while the cluster does not: a deletion
      that fails is forgotten all the same. */
  lemma ForgottenLeftover(site: Site)
    ensures var m := Mission("m", [], map[], "");
            var s := State(map["m" := true], map["m" := m]);
            var t := Align(site, s, [], Calls({}, {}, {"m"}, None));
            t.noted.Keys == Names([]) && t.local.Keys == {"m"}
  {
    var m := Mission("m", [], map[], "");
    var s := State(map["m" := true], map["m" := m]);
    AlignKeys(site, s, [], Calls({}, {}, {"m"}, None));
  }
}
