/** What a node's config map says of each device, over whole runs: the entries of
    its latest add or update. */
module DeviceHistory {
  import opened Strings
  import opened DeviceProfile
  import opened DeviceConfig

  /** The devices of the node by name, each as it was last added or updated. */
  type Devices = map<string, Device>

  /** An update leaves the model reference; without a cached model nothing is
      added or deleted. */
  function Noted(latest: Devices, e: Event): Devices
  {
    match e
    case DeviceAdded(d, model) => if model.Some? then latest[d.name := d] else latest
    case DeviceUpdated(d) => if d.name in latest then latest[d.name := d.(model := latest[d.name].model)] else latest
    case DeviceDeleted(d, model, _) => if model.Some? then latest - {d.name} else latest
  }

  function Latest(events: seq<Event>): Devices
  {
    if events == [] then map[] else Noted(Latest(events[..|events| - 1]), events[|events| - 1])
  }

  function Elems<T(==)>(s: seq<T>): set<T>
  {
    set x | x in s
  }

  function InstancesOf(latest: Devices): set<Instance>
  {
    set n | n in latest :: InstanceOf(latest[n])
  }

  function ProtocolsOf(latest: Devices): set<Protocol>
  {
    set n | n in latest :: ProtocolOf(latest[n])
  }

  predicate Keyed(latest: Devices)
  {
    forall n | n in latest :: latest[n].name == n
  }

  /** Every device has a supported protocol. */
  predicate Named(latest: Devices)
  {
    forall n | n in latest :: ProtocolOf(latest[n]).name != ""
  }

  /** The instances are exactly those of the devices. */
  ghost predicate InstancesCurrent(p: Profile, latest: Devices)
  {
    Keyed(latest) && Distinct(InstanceNames(p.instances)) && Elems(p.instances) == InstancesOf(latest)
  }

  /** The instances and protocols are exactly those of the devices. */
  ghost predicate Current(p: Profile, latest: Devices)
  {
    && InstancesCurrent(p, latest) && Named(latest)
    && Distinct(ProtocolNames(p.protocols)) && Elems(p.protocols) == ProtocolsOf(latest)
  }

  // ---- Lists ----

  /** The element at `i` occurs nowhere else. */
  ghost predicate Once<T>(s: seq<T>, i: nat)
  {
    i < |s| && forall j | 0 <= j < |s| && j != i :: s[j] != s[i]
  }

  lemma SwapRemoveElems<T>(s: seq<T>, i: nat)
    requires Once(s, i)
    ensures Elems(SwapRemove(s, i)) == Elems(s) - {s[i]}
  {
    var t := SwapRemove(s, i);
    assert forall j | 0 <= j < |t| :: t[j] == if j == i then s[|s| - 1] else s[j];
    forall x | x in s && x != s[i] ensures x in t {
      var j :| 0 <= j < |s| && s[j] == x;
      assert t[if j == |s| - 1 then i else j] == x;
    }
  }

  lemma RemoveAtElems<T>(s: seq<T>, i: nat)
    requires Once(s, i)
    ensures Elems(RemoveAt(s, i)) == Elems(s) - {s[i]}
  {
    var t := RemoveAt(s, i);
    assert forall j | 0 <= j < |t| :: t[j] == s[if j < i then j else j + 1];
    forall x | x in s && x != s[i] ensures x in t {
      var j :| 0 <= j < |s| && s[j] == x;
      assert t[if j < i then j else j - 1] == x;
    }
  }

  lemma UpdateElems<T>(s: seq<T>, i: nat, y: T)
    requires Once(s, i)
    ensures Elems(s[i := y]) == Elems(s) - {s[i]} + {y}
  {
    var t := s[i := y];
    assert t[i] == y;
    forall x | x in s && x != s[i] ensures x in t {
      var j :| 0 <= j < |s| && s[j] == x;
      assert t[j] == x;
    }
  }

  lemma RemoveAtDistinct(s: seq<Protocol>, i: nat)
    requires i < |s| && Distinct(ProtocolNames(s))
    ensures Distinct(ProtocolNames(RemoveAt(s, i)))
  {
    var t := RemoveAt(s, i);
    assert forall j | 0 <= j < |t| :: ProtocolNames(t)[j] == ProtocolNames(s)[if j < i then j else j + 1];
  }

  // ---- Devices and their entries ----

  lemma DevicesApart(latest: Devices, n: string)
    requires Keyed(latest) && n in latest
    ensures InstancesOf(latest - {n}) == InstancesOf(latest) - {InstanceOf(latest[n])}
  {
    hide ProtocolOf;
    assert forall m | m in latest && m != n :: InstanceOf(latest[m]) != InstanceOf(latest[n]);
    assert forall m | m in latest && m != n :: m in latest - {n} && (latest - {n})[m] == latest[m];
  }

  lemma ProtocolsApart(latest: Devices, n: string)
    requires Keyed(latest) && Named(latest) && n in latest
    ensures ProtocolsOf(latest - {n}) == ProtocolsOf(latest) - {ProtocolOf(latest[n])}
  {
    hide ProtocolOf;
    forall m | m in latest && m != n ensures ProtocolOf(latest[m]) != ProtocolOf(latest[n]) {
      ProtocolsDiffer(latest[m], latest[n]);
    }
    assert forall m | m in latest && m != n :: m in latest - {n} && (latest - {n})[m] == latest[m];
  }

  lemma ProtocolsDiffer(a: Device, b: Device)
    requires a.name != b.name && ProtocolOf(a).name != ""
    ensures ProtocolOf(a).name != ProtocolOf(b).name
  {
    hide ProtocolOf, OwnName;
    OwnNameOf(a);
    OwnNameOf(b);
    if ProtocolOf(a).name == ProtocolOf(b).name { ProtocolNamesDevice(ProtocolOf(a).name, a.name, b.name); }
  }

  lemma DeviceJoins(latest: Devices, d: Device)
    ensures InstancesOf(latest[d.name := d]) == InstancesOf(latest - {d.name}) + {InstanceOf(d)}
    ensures ProtocolsOf(latest[d.name := d]) == ProtocolsOf(latest - {d.name}) + {ProtocolOf(d)}
  {
    hide ProtocolOf, InstanceOf;
    var after, rest := latest[d.name := d], latest - {d.name};
    assert forall m | m in rest :: m in after && after[m] == rest[m];
    assert forall m | m in after && m != d.name :: m in rest && rest[m] == after[m];
    assert d.name in after && after[d.name] == d;
  }

  /** Where a device's entries are. */
  lemma EntryOf(p: Profile, latest: Devices, name: string)
    requires InstancesCurrent(p, latest)
    ensures name in InstanceNames(p.instances) <==> name in latest
    ensures name in latest ==>
              var i := Find(InstanceNames(p.instances), name);
              Once(p.instances, i) && p.instances[i] == InstanceOf(latest[name])
  {
    hide ProtocolOf;
    if name in InstanceNames(p.instances) {
      var i := Find(InstanceNames(p.instances), name);
      assert p.instances[i] in Elems(p.instances);
      var n :| n in latest && p.instances[i] == InstanceOf(latest[n]);
      forall j | 0 <= j < |p.instances| && j != i ensures p.instances[j] != p.instances[i] {
        assert InstanceNames(p.instances)[j] != InstanceNames(p.instances)[i];
      }
    }
    if name in latest {
      assert InstanceOf(latest[name]) in InstancesOf(latest);
      var j :| 0 <= j < |p.instances| && p.instances[j] == InstanceOf(latest[name]);
      assert InstanceNames(p.instances)[j] == name;
    }
  }

  lemma ProtocolEntryOf(p: Profile, latest: Devices, name: string)
    requires Current(p, latest) && name in latest
    ensures RefOf(p, name) == ProtocolOf(latest[name]).name
    ensures var k := Find(ProtocolNames(p.protocols), RefOf(p, name));
            Once(p.protocols, k) && p.protocols[k] == ProtocolOf(latest[name])
  {
    hide ProtocolOf;
    EntryOf(p, latest, name);
    var x := ProtocolOf(latest[name]);
    assert x in ProtocolsOf(latest);
    var k :| 0 <= k < |p.protocols| && p.protocols[k] == x;
    assert ProtocolNames(p.protocols)[k] == x.name;
    FindIs(ProtocolNames(p.protocols), x.name, k);
    forall j | 0 <= j < |p.protocols| && j != k ensures p.protocols[j] != p.protocols[k] {
      assert ProtocolNames(p.protocols)[j] != ProtocolNames(p.protocols)[k];
    }
  }

  // ---- Each edit ----

  lemma NewNameApart(p: Profile, latest: Devices, d: Device)
    requires Current(p, latest) && d.name !in latest && ProtocolOf(d).name != ""
    ensures ProtocolOf(d).name !in ProtocolNames(p.protocols)
  {
    hide ProtocolOf;
    forall j | 0 <= j < |p.protocols| ensures ProtocolNames(p.protocols)[j] != ProtocolOf(d).name {
      assert p.protocols[j] in Elems(p.protocols);
      var n :| n in latest && p.protocols[j] == ProtocolOf(latest[n]);
      ProtocolsDiffer(d, latest[n]);
    }
  }

  lemma AddedInstances(p: Profile, latest: Devices, d: Device, model: Model)
    requires InstancesCurrent(p, latest) && d.name !in InstanceNames(p.instances)
    ensures InstancesCurrent(Added(p, d, Some(model)), latest[d.name := d])
  {
    hide ProtocolOf, InstancesOf;
    EntryOf(p, latest, d.name);
    DeviceJoins(latest, d);
    assert latest - {d.name} == latest;
    var q := Added(p, d, Some(model));
    assert Elems(q.instances) == Elems(p.instances) + {InstanceOf(d)};
    assert InstanceNames(q.instances) == InstanceNames(p.instances) + [d.name];
  }

  lemma AddedCurrent(p: Profile, latest: Devices, d: Device, model: Model)
    requires Current(p, latest) && d.name !in InstanceNames(p.instances) && ProtocolOf(d).name != ""
    ensures Current(Added(p, d, Some(model)), latest[d.name := d])
  {
    hide ProtocolOf, InstancesOf, ProtocolsOf, InstancesCurrent;
    AddedInstances(p, latest, d, model);
    EntryOf(p, latest, d.name);
    NewNameApart(p, latest, d);
    DeviceJoins(latest, d);
    assert latest - {d.name} == latest;
    var q := Added(p, d, Some(model));
    assert Elems(q.protocols) == Elems(p.protocols) + {ProtocolOf(d)};
    assert ProtocolNames(q.protocols) == ProtocolNames(p.protocols) + [ProtocolOf(d).name];
  }

  lemma RemovedInstances(p: Profile, latest: Devices, d: Device, model: Model)
    requires InstancesCurrent(p, latest) && d.name in InstanceNames(p.instances)
    ensures InstancesCurrent(Removed(p, d, Some(model)), latest - {d.name})
  {
    hide ProtocolOf, InstancesOf, DropProtocol, DropModel;
    EntryOf(p, latest, d.name);
    DevicesApart(latest, d.name);
    var i := Find(InstanceNames(p.instances), d.name);
    SwapRemoveElems(p.instances, i);
    assert InstanceNames(SwapRemove(p.instances, i)) == SwapRemove(InstanceNames(p.instances), i);
    SwapRemoveDistinct(InstanceNames(p.instances), i);
  }

  lemma RemovedCurrent(p: Profile, latest: Devices, d: Device, model: Model)
    requires Current(p, latest) && d.name in InstanceNames(p.instances)
    ensures Current(Removed(p, d, Some(model)), latest - {d.name})
  {
    hide ProtocolOf, InstancesOf, ProtocolsOf, DropInstance;
    RemovedInstances(p, latest, d, model);
    EntryOf(p, latest, d.name);
    ProtocolEntryOf(p, latest, d.name);
    ProtocolsApart(latest, d.name);
    var k := Find(ProtocolNames(p.protocols), RefOf(p, d.name));
    SwapRemoveElems(p.protocols, k);
    assert ProtocolNames(SwapRemove(p.protocols, k)) == SwapRemove(ProtocolNames(p.protocols), k);
    SwapRemoveDistinct(ProtocolNames(p.protocols), k);
  }

  /** The device that an update leaves: the model reference stays. */
  function Refreshed(latest: Devices, d: Device): Device
    requires d.name in latest
  {
    d.(model := latest[d.name].model)
  }

  lemma RefreshedInstance(p: Profile, latest: Devices, d: Device)
    requires InstancesCurrent(p, latest) && d.name in latest
    ensures ProtocolOf(Refreshed(latest, d)) == ProtocolOf(d)
    ensures var i := Find(InstanceNames(p.instances), d.name);
            i < |p.instances| && SetInstance(p.instances, d) == p.instances[i := InstanceOf(Refreshed(latest, d))]
  {
    EntryOf(p, latest, d.name);
  }

  lemma ChangedInstances(p: Profile, latest: Devices, d: Device)
    requires InstancesCurrent(p, latest) && d.name in latest
    ensures InstancesCurrent(Changed(p, d), latest[d.name := Refreshed(latest, d)])
  {
    hide ProtocolOf, InstancesOf, ProtocolsOf;
    var i := Find(InstanceNames(p.instances), d.name);
    EntryOf(p, latest, d.name);
    RefreshedInstance(p, latest, d);
    DevicesApart(latest, d.name);
    DeviceJoins(latest, Refreshed(latest, d));
    UpdateElems(p.instances, i, InstanceOf(Refreshed(latest, d)));
    SetInstanceAt(p.instances, d);
  }

  lemma ChangedProtocols(p: Profile, latest: Devices, d: Device)
    requires Current(p, latest) && d.name in latest && ProtocolOf(d).name != ""
    ensures Elems(Changed(p, d).protocols) == ProtocolsOf(latest[d.name := Refreshed(latest, d)])
    ensures Distinct(ProtocolNames(Changed(p, d).protocols))
  {
    hide ProtocolOf, InstancesOf, SetInstance;
    var k := Find(ProtocolNames(p.protocols), RefOf(p, d.name));
    ProtocolEntryOf(p, latest, d.name);
    RefreshedInstance(p, latest, d);
    ProtocolsApart(latest, d.name);
    DeviceJoins(latest, Refreshed(latest, d));
    RemoveAtElems(p.protocols, k);
    RemoveAtDistinct(p.protocols, k);
    var rest := RemoveAt(p.protocols, k);
    assert Elems(rest + [ProtocolOf(d)]) == Elems(rest) + {ProtocolOf(d)};
    forall j | 0 <= j < |rest| ensures ProtocolNames(rest)[j] != ProtocolOf(d).name {
      assert rest[j] in Elems(rest);
      var n :| n in latest - {d.name} && rest[j] == ProtocolOf(latest[n]);
      ProtocolsDiffer(d, latest[n]);
    }
    assert ProtocolNames(rest + [ProtocolOf(d)]) == ProtocolNames(rest) + [ProtocolOf(d).name];
  }

  lemma ChangedCurrent(p: Profile, latest: Devices, d: Device)
    requires Current(p, latest) && d.name in InstanceNames(p.instances) && ProtocolOf(d).name != ""
    ensures d.name in latest && Current(Changed(p, d), latest[d.name := Refreshed(latest, d)])
  {
    hide ProtocolOf, Changed, InstancesOf, ProtocolsOf, InstancesCurrent;
    EntryOf(p, latest, d.name);
    RefreshedInstance(p, latest, d);
    ChangedInstances(p, latest, d);
    ChangedProtocols(p, latest, d);
  }

  // ---- Runs ----

  /** A config map without profile is one without devices. */
  ghost predicate CurrentConfig(c: ConfigMap, latest: Devices)
  {
    if c.Holding? then Current(c.profile, latest) else latest == map[]
  }

  /** Added and updated devices have a supported protocol. */
  predicate HasProtocol(e: Event)
  {
    (e.DeviceAdded? || e.DeviceUpdated?) ==> ProtocolOf(e.d).name != ""
  }

  lemma NothingCurrent()
    ensures Current(NO_PROFILE, map[])
  {
  }

  lemma EmptyCurrent(p: Profile, latest: Devices)
    requires InstancesCurrent(p, latest) && p.instances == []
    ensures latest == map[]
  {
    hide ProtocolOf;
    forall n ensures n !in latest {
      EntryOf(p, latest, n);
    }
  }

  lemma StepCurrent(c: ConfigMap, latest: Devices, e: Event)
    requires CurrentConfig(c, latest) && Orderly(c, e) && HasProtocol(e)
    ensures CurrentConfig(Do(c, e), Noted(latest, e))
  {
    hide Current, ProtocolOf, Added, Removed, Changed;
    match e
    case DeviceAdded(d, model) =>
      if model.Some? {
        NothingCurrent();
        AddedCurrent(if c.Holding? then c.profile else NO_PROFILE, latest, d, model.value);
      }
    case DeviceUpdated(d) => ChangedCurrent(c.profile, latest, d);
    case DeviceDeleted(d, model, _) =>
      if model.Some? {
        RemovedCurrent(c.profile, latest, d, model.value);
      } else {
        RemovedNone(c.profile, d);
      }
      var q := Removed(c.profile, d, model);
      if IsEmpty(q) { CurrentInstances(q, Noted(latest, e)); EmptyCurrent(q, Noted(latest, e)); }
  }

  lemma CurrentInstances(p: Profile, latest: Devices)
    requires Current(p, latest)
    ensures InstancesCurrent(p, latest)
  {
  }

  /** The instances alone, for devices of any protocol or none. */
  ghost predicate InstancesInConfig(c: ConfigMap, latest: Devices)
  {
    if c.Holding? then InstancesCurrent(c.profile, latest) else latest == map[]
  }

  lemma StepInstances(c: ConfigMap, latest: Devices, e: Event)
    requires InstancesInConfig(c, latest) && Orderly(c, e)
    ensures InstancesInConfig(Do(c, e), Noted(latest, e))
  {
    hide InstancesCurrent, ProtocolOf, Added, Removed, Changed;
    match e
    case DeviceAdded(d, model) =>
      if model.Some? {
        NothingCurrent();
        CurrentInstances(NO_PROFILE, map[]);
        AddedInstances(if c.Holding? then c.profile else NO_PROFILE, latest, d, model.value);
      }
    case DeviceUpdated(d) =>
      EntryOf(c.profile, latest, d.name);
      ChangedInstances(c.profile, latest, d);
    case DeviceDeleted(d, model, _) =>
      if model.Some? {
        RemovedInstances(c.profile, latest, d, model.value);
      } else {
        RemovedNone(c.profile, d);
      }
      var q := Removed(c.profile, d, model);
      if IsEmpty(q) { EmptyCurrent(q, Noted(latest, e)); }
  }

  /** In every orderly run, of devices of any protocol or none, the instances are
      exactly those of the devices there are, each as last added or updated. */
  lemma {:induction false} RunInstances(trace: seq<ConfigMap>, events: seq<Event>, n: nat)
    requires Run(trace, events) && trace[0] == Absent && n < |trace|
    requires forall i | 0 <= i < |events| :: Orderly(trace[i], events[i])
    ensures InstancesInConfig(trace[n], Latest(events[..n]))
  {
    hide Do, Orderly, InstancesCurrent, Noted;
    if n > 0 {
      RunInstances(trace, events, n - 1);
      StepInstances(trace[n - 1], Latest(events[..n - 1]), events[n - 1]);
      assert events[..n][..n - 1] == events[..n - 1];
    }
  }

  /** At step `j` a device was added with this model. */
  ghost predicate BroughtAt(events: seq<Event>, j: nat, m: Model)
  {
    j < |events| && events[j].DeviceAdded? && events[j].model == Some(m)
  }

  lemma StepModels(c: ConfigMap, e: Event, m: Model)
    requires Do(c, e).Holding? && m in Do(c, e).profile.models
    ensures (c.Holding? && m in c.profile.models) || (e.DeviceAdded? && e.model == Some(m))
  {
    hide ProtocolOf, InstanceOf;
    match e
    case DeviceAdded(_, _) =>
    case DeviceUpdated(_) =>
    case DeviceDeleted(_, _, _) =>
  }

  /** In every run, each listed model is one that was cached, properties and all,
      when a device was added. */
  lemma {:induction false} RunModels(trace: seq<ConfigMap>, events: seq<Event>, n: nat, m: Model) returns (j: nat)
    requires Run(trace, events) && trace[0] == Absent && n < |trace|
    requires trace[n].Holding? && m in trace[n].profile.models
    ensures j < n && BroughtAt(events, j, m)
  {
    hide Do;
    if n == 0 { assert false; }
    StepModels(trace[n - 1], events[n - 1], m);
    if trace[n - 1].Holding? && m in trace[n - 1].profile.models {
      j := RunModels(trace, events, n - 1, m);
    } else {
      j := n - 1;
    }
  }

  /** So with a cache that does not change, in every orderly run the listed models
      are exactly the cached models that the instances refer to. */
  lemma RunModelsCached(trace: seq<ConfigMap>, events: seq<Event>, n: nat, cache: map<string, Model>)
    requires Run(trace, events) && trace[0] == Absent && n < |trace| && trace[n].Holding?
    requires forall i | 0 <= i < |events| :: Orderly(trace[i], events[i])
    requires forall i | 0 <= i < |events| && events[i].DeviceAdded? && events[i].model.Some? ::
               events[i].model.value.name in cache && cache[events[i].model.value.name] == events[i].model.value
    ensures forall m :: m in trace[n].profile.models <==>
              m.name in cache && cache[m.name] == m && m.name in InstanceModels(trace[n].profile.instances)
  {
    hide Do, Orderly;
    var p := trace[n].profile;
    RunSound(trace, events, n);
    forall m ensures m in p.models <==> m.name in cache && cache[m.name] == m && m.name in InstanceModels(p.instances) {
      if m in p.models {
        var j := RunModels(trace, events, n, m);
        var k :| 0 <= k < |p.models| && p.models[k] == m;
        assert ModelNames(p.models)[k] == m.name;
      }
      if m.name in cache && cache[m.name] == m && m.name in InstanceModels(p.instances) {
        assert m.name in ModelNames(p.models);
        var k :| 0 <= k < |p.models| && ModelNames(p.models)[k] == m.name;
        assert p.models[k] in p.models;
        var j := RunModels(trace, events, n, p.models[k]);
      }
    }
  }

  /** In every orderly run of devices with a supported protocol, the config map's
      instance and protocol entries are exactly those of the devices there are,
      each as it was last added or updated. */
  lemma {:induction false} RunCurrent(trace: seq<ConfigMap>, events: seq<Event>, n: nat)
    requires Run(trace, events) && trace[0] == Absent && n < |trace|
    requires forall i | 0 <= i < |events| :: Orderly(trace[i], events[i]) && HasProtocol(events[i])
    ensures CurrentConfig(trace[n], Latest(events[..n]))
  {
    hide Do, Orderly, Current, HasProtocol, Noted;
    if n > 0 {
      RunCurrent(trace, events, n - 1);
      StepCurrent(trace[n - 1], Latest(events[..n - 1]), events[n - 1]);
      assert events[..n][..n - 1] == events[..n - 1];
    }
  }
}
