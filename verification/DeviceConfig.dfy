/** The device controller's edits of one node's config map. */
module DeviceConfig {
  import opened Strings
  import opened DeviceProfile

  /** The profile while it is being edited. */
  class Editor {
    var instances: seq<Instance>
    var protocols: seq<Protocol>
    var models: seq<Model>

    constructor (p: Profile)
      ensures Current() == p
    {
      instances, protocols, models := p.instances, p.protocols, p.models;
    }

    function Current(): Profile
      reads this
    {
      Profile(instances, protocols, models)
    }

    /** `addDeviceInstanceAndProtocol`. */
    method AddDeviceInstanceAndProtocol(d: Device)
      modifies this
      ensures instances == old(instances) + [InstanceOf(d)] && protocols == old(protocols) + [ProtocolOf(d)]
      ensures models == old(models)
    {
      var protocol := Protocol("", "", None, None);
      if d.common.Some? {
        protocol := protocol.(common := d.common);
      }
      if d.opcua.Some? {
        protocol := protocol.(name := OPCUA + "-" + d.name, kind := OPCUA, config := d.opcua);
      } else if d.modbus.Some? {
        protocol := protocol.(name := MODBUS + "-" + d.name, kind := MODBUS, config := d.modbus);
      } else if d.bluetooth.Some? {
        protocol := protocol.(name := BLUETOOTH + "-" + d.name, kind := BLUETOOTH, config := d.bluetooth);
      } else if d.customized.Some? {
        protocol := protocol.(name := CUSTOMIZED_PROTOCOL + "-" + d.name, kind := CUSTOMIZED_PROTOCOL, config := d.customized);
      }
      instances := instances + [Instance(d.name, d.model, protocol.name, d.data)];
      protocols := protocols + [protocol];
    }

    /** `addDeviceProfile`, once the profile is read. */
    method Add(d: Device, model: Model)
      modifies this
      ensures Current() == Added(old(Current()), d, Some(model))
    {
      AddDeviceInstanceAndProtocol(d);
      var k := FirstOf(ModelNames(models), model.name);
      if k == |models| {
        models := models + [model];
      }
    }

    /** `deleteDeviceInstanceAndProtocol`: the instance, and the first protocol
        of its name. */
    method DeleteDeviceInstanceAndProtocol(name: string)
      modifies this
      ensures instances == DropInstance(old(instances), name)
      ensures protocols == DropProtocol(old(protocols), RefOf(old(Current()), name))
      ensures models == old(models)
    {
      var protocol := "";
      var i := FirstOf(InstanceNames(instances), name);
      if i < |instances| {
        protocol := instances[i].protocol;
        var last := |instances| - 1;
        instances := instances[i := instances[last]];
        instances := instances[..last];
      }
      assert protocol == RefOf(old(Current()), name);
      DeleteProtocol(protocol);
    }

    method DeleteProtocol(protocol: string)
      modifies this`protocols
      ensures protocols == DropProtocol(old(protocols), protocol)
    {
      var k := FirstOf(ProtocolNames(protocols), protocol);
      if k < |protocols| {
        var last := |protocols| - 1;
        protocols := protocols[k := protocols[last]];
        protocols := protocols[..last];
      }
    }

    /** `deleteDeviceModelAndVisitors`. */
    method DeleteDeviceModelAndVisitors(name: string)
      modifies this
      ensures models == DropModel(old(models), name) && instances == old(instances) && protocols == old(protocols)
    {
      var i := FirstOf(ModelNames(models), name);
      if i < |models| {
        var last := |models| - 1;
        models := models[i := models[last]];
        models := models[..last];
      }
    }

    /** `deleteFromDeviceProfile`, once the profile is read. */
    method Delete(d: Device, model: Model)
      modifies this
      ensures Current() == Removed(old(Current()), d, Some(model))
    {
      DeleteDeviceInstanceAndProtocol(d.name);
      var k := FirstOf(InstanceModels(instances), model.name);
      assert k < |instances| <==> model.name in InstanceModels(instances);
      if k == |instances| {
        DeleteDeviceModelAndVisitors(model.name);
      }
    }

    /** The editing half of `updateConfigMap`: the old protocol goes, the
        instance is refreshed, the new protocol comes last. */
    method Update(d: Device)
      modifies this
      ensures Current() == Changed(old(Current()), d)
    {
      var oldProtocol := "";
      var i := FirstOf(InstanceNames(instances), d.name);
      if i < |instances| {
        oldProtocol := instances[i].protocol;
      }
      var k := FirstOf(ProtocolNames(protocols), oldProtocol);
      if k < |protocols| {
        protocols := protocols[..k] + protocols[k + 1..];
      }
      var protocol := NewProtocol(d);
      if i < |instances| {
        instances := instances[i := instances[i].(data := d.data, protocol := protocol.name)];
      }
      protocols := protocols + [protocol];
    }
  }

  /** The protocol chain of `updateConfigMap`. */
  method NewProtocol(d: Device) returns (protocol: Protocol)
    ensures protocol == ProtocolOf(d)
  {
    protocol := Protocol("", "", None, None);
    if d.opcua.Some? {
      protocol := BuildDeviceProtocol(OPCUA, d.name, d.opcua.value);
    } else if d.modbus.Some? {
      protocol := BuildDeviceProtocol(MODBUS, d.name, d.modbus.value);
    } else if d.bluetooth.Some? {
      protocol := BuildDeviceProtocol(BLUETOOTH, d.name, d.bluetooth.value);
    } else if d.customized.Some? {
      protocol := BuildDeviceProtocol(CUSTOMIZED_PROTOCOL, d.name, d.customized.value);
    }
    protocol := protocol.(common := d.common);
  }

  function BuildDeviceProtocol(kind: string, name: string, config: string): Protocol
  {
    Protocol(kind + "-" + name, kind, Some(config), None)
  }

  /** The search loops of the edits: the first position of a name. */
  method FirstOf(names: seq<string>, x: string) returns (i: nat)
    ensures i == Find(names, x)
  {
    i := 0;
    while i < |names|
      invariant 0 <= i <= |names|
      invariant forall j | 0 <= j < i :: names[j] != x
    {
      if names[i] == x {
        break;
      }
      i := i + 1;
    }
    FindIs(names, x, i);
  }

  lemma FindIs(s: seq<string>, x: string, i: nat)
    requires i <= |s| && (forall j | 0 <= j < i :: s[j] != x) && (i < |s| ==> s[i] == x)
    ensures Find(s, x) == i
  {
  }

  // ---- The config map ----

  /** The node's config map: none, one without a profile, or one with it. */
  datatype ConfigMap = Absent | Bare | Holding(profile: Profile)

  predicate IsEmpty(p: Profile)
  {
    p.instances == [] && p.protocols == [] && p.models == []
  }

  const NO_PROFILE := Profile([], [], [])

  function WithDevice(c: ConfigMap, d: Device, model: Option<Model>): ConfigMap
  {
    if model.None? then (if c == Absent then Bare else c)
    else Holding(Added(if c.Holding? then c.profile else NO_PROFILE, d, model))
  }

  function WithUpdate(c: ConfigMap, d: Device): ConfigMap
  {
    if c.Holding? && !IsEmpty(c.profile) then Holding(Changed(c.profile, d)) else c
  }

  /** A profile without entries is written as an empty object; such a config map
      is deleted, unless the API refuses. */
  function WithoutDevice(c: ConfigMap, d: Device, model: Option<Model>, deleteOk: bool): ConfigMap
  {
    match c
    case Absent => Absent
    case Bare => if deleteOk then Absent else Bare
    case Holding(p) =>
      var q := Removed(p, d, model);
      if IsEmpty(q) && deleteOk then Absent else Holding(q)
  }

  class NodeConfig {
    var config: ConfigMap

    constructor ()
      ensures config == Absent
    {
      config := Absent;
    }

    method AddToConfigMap(d: Device, model: Option<Model>)
      modifies this
      ensures config == WithDevice(old(config), d, model)
      ensures !config.Absent? && (model.Some? ==> config.Holding?)
      ensures model.None? && !old(config).Absent? ==> config == old(config)
    {
      if config.Absent? {
        config := Bare;
      }
      if model.None? {
        return;
      }
      var editor := new Editor(if config.Holding? then config.profile else NO_PROFILE);
      editor.Add(d, model.value);
      config := Holding(editor.Current());
    }

    method UpdateConfigMap(d: Device)
      modifies this
      ensures config == WithUpdate(old(config), d)
      ensures !old(config).Holding? ==> config == old(config)
    {
      if !config.Holding? || IsEmpty(config.profile) {
        return;
      }
      var editor := new Editor(config.profile);
      editor.Update(d);
      config := Holding(editor.Current());
    }

    method DeleteFromConfigMap(d: Device, model: Option<Model>, deleteOk: bool)
      modifies this
      ensures config == WithoutDevice(old(config), d, model, deleteOk)
      ensures !deleteOk ==> (config.Holding? <==> old(config).Holding?)
      ensures old(config).Bare? && deleteOk ==> config == Absent
    {
      if config.Absent? {
        return;
      }
      if config.Holding? && model.Some? {
        var editor := new Editor(config.profile);
        editor.Delete(d, model.value);
        config := Holding(editor.Current());
      }
      if config.Bare? || IsEmpty(config.profile) {
        if !deleteOk {
          return;
        }
        config := Absent;
      }
    }
  }

  // ---- Runs ----

  datatype Event =
    | DeviceAdded(d: Device, model: Option<Model>)
    | DeviceUpdated(d: Device)
    | DeviceDeleted(d: Device, model: Option<Model>, deleteOk: bool)

  function Do(c: ConfigMap, e: Event): ConfigMap
  {
    match e
    case DeviceAdded(d, model) => WithDevice(c, d, model)
    case DeviceUpdated(d) => WithUpdate(c, d)
    case DeviceDeleted(d, model, deleteOk) => WithoutDevice(c, d, model, deleteOk)
  }

  function NamesIn(c: ConfigMap): seq<string>
  {
    if c.Holding? then InstanceNames(c.profile.instances) else []
  }

  /** Devices are added under new names, with the model they refer to; they are
      updated and deleted while they are there, and their model reference stays. */
  ghost predicate Orderly(c: ConfigMap, e: Event)
  {
    match e
    case DeviceAdded(d, model) => d.name !in NamesIn(c) && (model.Some? ==> model.value.name == d.model)
    case DeviceUpdated(d) => d.name in NamesIn(c)
    case DeviceDeleted(d, model, _) =>
      && d.name in NamesIn(c) && (model.Some? ==> model.value.name == d.model)
      && c.profile.instances[Find(NamesIn(c), d.name)].model == d.model
  }

  ghost predicate SoundConfig(c: ConfigMap)
  {
    c.Holding? ==> Sound(c.profile)
  }

  lemma StepSound(c: ConfigMap, e: Event)
    requires SoundConfig(c) && Orderly(c, e)
    ensures SoundConfig(Do(c, e))
  {
    hide Sound, Added, Removed, Changed;
    match e
    case DeviceAdded(d, model) =>
      if model.Some? {
        NoProfileSound();
        AddedSound(if c.Holding? then c.profile else NO_PROFILE, d, model.value);
      }
      AddedNone(d, model);
    case DeviceUpdated(d) => ChangedSound(c.profile, d);
    case DeviceDeleted(d, model, _) => if model.Some? { RemovedSound(c.profile, d, model.value); } else { RemovedNone(c.profile, d); }
  }

  lemma NoProfileSound()
    ensures Sound(NO_PROFILE) && InstanceNames([]) == []
  {
    assert forall m :: m in ModelNames([]) <==> m in InstanceModels([]);
  }

  lemma AddedNone(d: Device, model: Option<Model>)
    ensures forall p :: model.None? ==> Added(p, d, model) == p
  {
  }

  lemma RemovedNone(p: Profile, d: Device)
    ensures Removed(p, d, None) == p
  {
  }

  ghost predicate Run(trace: seq<ConfigMap>, events: seq<Event>)
  {
    |trace| == |events| + 1 && forall i | 0 <= i < |events| :: trace[i + 1] == Do(trace[i], events[i])
  }

  /** In every orderly run the profile keeps its integrity. */
  lemma {:induction false} RunSound(trace: seq<ConfigMap>, events: seq<Event>, n: nat)
    requires Run(trace, events) && trace[0] == Absent && n < |trace|
    requires forall i | 0 <= i < |events| :: Orderly(trace[i], events[i])
    ensures SoundConfig(trace[n])
  {
    hide Do, Orderly, Sound;
    if n > 0 {
      RunSound(trace, events, n - 1);
      StepSound(trace[n - 1], events[n - 1]);
    }
  }

  /** ... and deleting a device drops the config map exactly when no instance
      remains. */
  lemma DroppedWhenLastLeaves(trace: seq<ConfigMap>, events: seq<Event>, i: nat)
    requires Run(trace, events) && trace[0] == Absent && i < |events|
    requires forall j | 0 <= j < |events| :: Orderly(trace[j], events[j])
    requires events[i].DeviceDeleted? && events[i].model.Some? && events[i].deleteOk
    ensures trace[i].Holding?
    ensures trace[i + 1] == Absent <==> Removed(trace[i].profile, events[i].d, events[i].model).instances == []
  {
    hide Added, Removed, Changed, Sound;
    RunSound(trace, events, i);
    var e := events[i];
    assert Orderly(trace[i], e) && trace[i + 1] == Do(trace[i], e);
    RemovedSound(trace[i].profile, e.d, e.model.value);
    EmptyIffNoInstance(Removed(trace[i].profile, e.d, e.model));
  }

  lemma EmptyIffNoInstance(p: Profile)
    requires Sound(p)
    ensures IsEmpty(p) <==> p.instances == []
  {
    if p.instances == [] {
      assert |Refs(p.instances)| == 0;
      assert multiset(Refs(p.instances)) == multiset{};
      assert |multiset(ProtocolNames(p.protocols))| == 0;
      SomeModelName(p.models);
    }
  }

  lemma SomeModelName(models: seq<Model>)
    ensures models != [] ==> exists m :: m in ModelNames(models)
  {
    if models != [] { assert ModelNames(models)[0] in ModelNames(models); }
  }
}
