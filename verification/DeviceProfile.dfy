/** The device profile of one node: instances, the protocols they name and the
    models they refer to, edited by appending and by swap-removal inside a
    config map. */
module DeviceProfile {
  import opened Strings

  /** A device as the controller sees it: at most the first present protocol
      counts; `data` stands for twins, data properties, topic and visitors. */
  datatype Device = Device(name: string, model: string, common: Option<string>,
                           opcua: Option<string>, modbus: Option<string>, bluetooth: Option<string>,
                           customized: Option<string>, data: string)

  datatype Instance = Instance(name: string, model: string, protocol: string, data: string)
  datatype Protocol = Protocol(name: string, kind: string, config: Option<string>, common: Option<string>)
  datatype Model = Model(name: string, properties: string)

  datatype Profile = Profile(instances: seq<Instance>, protocols: seq<Protocol>, models: seq<Model>)

  const OPCUA := "opcua"
  const MODBUS := "modbus"
  const BLUETOOTH := "bluetooth"
  const CUSTOMIZED_PROTOCOL := "customized-protocol"

  // ---- What a device contributes ----

  function KindOf(d: Device): Option<(string, string)>
  {
    if d.opcua.Some? then Some((OPCUA, d.opcua.value))
    else if d.modbus.Some? then Some((MODBUS, d.modbus.value))
    else if d.bluetooth.Some? then Some((BLUETOOTH, d.bluetooth.value))
    else if d.customized.Some? then Some((CUSTOMIZED_PROTOCOL, d.customized.value))
    else None
  }

  /** The protocol entry; a device with no supported protocol has a nameless one. */
  function ProtocolOf(d: Device): Protocol
  {
    match KindOf(d)
    case Some(k) => Protocol(k.0 + "-" + d.name, k.0, Some(k.1), d.common)
    case None => Protocol("", "", None, d.common)
  }

  function InstanceOf(d: Device): Instance
  {
    Instance(d.name, d.model, ProtocolOf(d).name, d.data)
  }

  /** The entries of a device: the first protocol it has, in the order OPC UA,
      Modbus, Bluetooth, customized, gives name, kind and configuration; the common
      configuration is always there. */
  lemma EntriesOf(d: Device)
    ensures InstanceOf(d) == Instance(d.name, d.model, ProtocolOf(d).name, d.data)
    ensures d.opcua.Some? ==> ProtocolOf(d) == Protocol("opcua-" + d.name, "opcua", d.opcua, d.common)
    ensures d.opcua.None? && d.modbus.Some? ==> ProtocolOf(d) == Protocol("modbus-" + d.name, "modbus", d.modbus, d.common)
    ensures d.opcua.None? && d.modbus.None? && d.bluetooth.Some? ==>
              ProtocolOf(d) == Protocol("bluetooth-" + d.name, "bluetooth", d.bluetooth, d.common)
    ensures d.opcua.None? && d.modbus.None? && d.bluetooth.None? && d.customized.Some? ==>
              ProtocolOf(d) == Protocol("customized-protocol-" + d.name, "customized-protocol", d.customized, d.common)
    ensures d.opcua.None? && d.modbus.None? && d.bluetooth.None? && d.customized.None? ==>
              ProtocolOf(d) == Protocol("", "", None, d.common)
  {
    assert OPCUA + "-" == "opcua-" && MODBUS + "-" == "modbus-" && BLUETOOTH + "-" == "bluetooth-";
    assert CUSTOMIZED_PROTOCOL + "-" == "customized-protocol-";
  }

  /** The protocol name is empty or made from a kind and the instance's name. */
  predicate OwnName(protocol: string, name: string)
  {
    protocol == "" || exists kind | kind in [OPCUA, MODBUS, BLUETOOTH, CUSTOMIZED_PROTOCOL] :: protocol == kind + "-" + name
  }

  /** A protocol name tells its device: the kinds start differently. */
  lemma ProtocolNamesDevice(protocol: string, a: string, b: string)
    requires OwnName(protocol, a) && OwnName(protocol, b) && protocol != ""
    ensures a == b
  {
    var k :| k in [OPCUA, MODBUS, BLUETOOTH, CUSTOMIZED_PROTOCOL] && protocol == k + "-" + a;
    var l :| l in [OPCUA, MODBUS, BLUETOOTH, CUSTOMIZED_PROTOCOL] && protocol == l + "-" + b;
    assert protocol[0] == k[0] && protocol[0] == l[0];
    assert k == l;
    assert protocol[|k| + 1..] == a && protocol[|l| + 1..] == b;
  }

  // ---- Lists ----

  function InstanceNames(s: seq<Instance>): seq<string> { seq(|s|, i requires 0 <= i < |s| => s[i].name) }
  function Refs(s: seq<Instance>): seq<string> { seq(|s|, i requires 0 <= i < |s| => s[i].protocol) }
  function InstanceModels(s: seq<Instance>): seq<string> { seq(|s|, i requires 0 <= i < |s| => s[i].model) }
  function ProtocolNames(s: seq<Protocol>): seq<string> { seq(|s|, i requires 0 <= i < |s| => s[i].name) }
  function ModelNames(s: seq<Model>): seq<string> { seq(|s|, i requires 0 <= i < |s| => s[i].name) }

  /** The first position of `x`, or the length. */
  function Find(s: seq<string>, x: string): (i: nat)
    ensures i <= |s|
    ensures i < |s| ==> s[i] == x
    ensures forall j | 0 <= j < i :: s[j] != x
    ensures i < |s| <==> x in s
  {
    if s == [] then 0 else if s[0] == x then 0 else 1 + Find(s[1..], x)
  }

  /** The last element takes the removed one's place. */
  function SwapRemove<T>(s: seq<T>, i: nat): seq<T>
    requires i < |s|
  {
    s[i := s[|s| - 1]][..|s| - 1]
  }

  function RemoveAt<T>(s: seq<T>, i: nat): seq<T>
    requires i < |s|
  {
    s[..i] + s[i + 1..]
  }

  lemma MiddleMultiset<T>(a: seq<T>, x: T, b: seq<T>)
    ensures multiset(a + [x] + b) == multiset(a) + multiset(b) + multiset{x}
  {
  }

  lemma SwapRemoveMultiset<T>(s: seq<T>, i: nat)
    requires i < |s|
    ensures multiset(s) == multiset(SwapRemove(s, i)) + multiset{s[i]}
  {
    var n := |s| - 1;
    if i == n {
      assert s == s[..n] + [s[n]] && SwapRemove(s, i) == s[..n];
    } else {
      var a, b := s[..i], s[i + 1..n];
      assert s == (a + [s[i]] + b) + [s[n]];
      assert SwapRemove(s, i) == a + [s[n]] + b;
      MiddleMultiset(a, s[i], b);
      MiddleMultiset(a, s[n], b);
    }
  }

  lemma RemoveAtMultiset<T>(s: seq<T>, i: nat)
    requires i < |s|
    ensures multiset(s) == multiset(RemoveAt(s, i)) + multiset{s[i]}
  {
    assert s == s[..i] + [s[i]] + s[i + 1..];
    MiddleMultiset(s[..i], s[i], s[i + 1..]);
  }

  ghost predicate Distinct(s: seq<string>)
  {
    forall i, j | 0 <= i < j < |s| :: s[i] != s[j]
  }

  lemma SwapRemoveDistinct(s: seq<string>, i: nat)
    requires Distinct(s) && i < |s|
    ensures Distinct(SwapRemove(s, i))
    ensures forall x :: x in SwapRemove(s, i) <==> x in s && x != s[i]
  {
    var t := SwapRemove(s, i);
    assert forall j | 0 <= j < |t| :: t[j] == if j == i then s[|s| - 1] else s[j];
    forall x | x in s && x != s[i] ensures x in t {
      var j :| 0 <= j < |s| && s[j] == x;
      assert t[if j == |s| - 1 then i else j] == x;
    }
  }

  // ---- The three edits ----

  /** The profile with the device; without its model in the cache nothing is
      written. */
  function Added(p: Profile, d: Device, model: Option<Model>): Profile
  {
    if model.None? then p
    else Profile(p.instances + [InstanceOf(d)], p.protocols + [ProtocolOf(d)],
                 if model.value.name in ModelNames(p.models) then p.models else p.models + [model.value])
  }

  /** The protocol name of the instance, or the empty name if there is none. */
  function RefOf(p: Profile, name: string): string
  {
    var i := Find(InstanceNames(p.instances), name);
    if i < |p.instances| then p.instances[i].protocol else ""
  }

  function DropInstance(s: seq<Instance>, name: string): seq<Instance>
  {
    var i := Find(InstanceNames(s), name);
    if i < |s| then SwapRemove(s, i) else s
  }

  function DropProtocol(s: seq<Protocol>, name: string): seq<Protocol>
  {
    var i := Find(ProtocolNames(s), name);
    if i < |s| then SwapRemove(s, i) else s
  }

  function DropModel(s: seq<Model>, name: string): seq<Model>
  {
    var i := Find(ModelNames(s), name);
    if i < |s| then SwapRemove(s, i) else s
  }

  function Removed(p: Profile, d: Device, model: Option<Model>): Profile
  {
    if model.None? then p
    else
      var instances := DropInstance(p.instances, d.name);
      Profile(instances, DropProtocol(p.protocols, RefOf(p, d.name)),
              if model.value.name in InstanceModels(instances) then p.models else DropModel(p.models, model.value.name))
  }

  function TakeOut(s: seq<Protocol>, name: string): seq<Protocol>
  {
    var i := Find(ProtocolNames(s), name);
    if i < |s| then RemoveAt(s, i) else s
  }

  function SetInstance(s: seq<Instance>, d: Device): seq<Instance>
  {
    var i := Find(InstanceNames(s), d.name);
    if i < |s| then s[i := s[i].(protocol := ProtocolOf(d).name, data := d.data)] else s
  }

  function Changed(p: Profile, d: Device): Profile
  {
    Profile(SetInstance(p.instances, d), TakeOut(p.protocols, RefOf(p, d.name)) + [ProtocolOf(d)], p.models)
  }

  // ---- Referential integrity ----

  /** Instance names are unique, the protocols are exactly those the instances
      name, with multiplicity, and the models exactly those they refer to,
      each once. */
  ghost predicate Sound(p: Profile)
  {
    && Distinct(InstanceNames(p.instances))
    && multiset(ProtocolNames(p.protocols)) == multiset(Refs(p.instances))
    && ModelsSound(p.models, p.instances)
    && (forall i | 0 <= i < |p.instances| :: OwnName(p.instances[i].protocol, p.instances[i].name))
  }

  ghost predicate ModelsSound(models: seq<Model>, instances: seq<Instance>)
  {
    && Distinct(ModelNames(models))
    && forall m :: m in ModelNames(models) <==> m in InstanceModels(instances)
  }

  lemma OwnNameOf(d: Device)
    ensures OwnName(ProtocolOf(d).name, d.name)
  {
    assert OPCUA in [OPCUA, MODBUS, BLUETOOTH, CUSTOMIZED_PROTOCOL];
    assert MODBUS in [OPCUA, MODBUS, BLUETOOTH, CUSTOMIZED_PROTOCOL];
    assert BLUETOOTH in [OPCUA, MODBUS, BLUETOOTH, CUSTOMIZED_PROTOCOL];
    assert CUSTOMIZED_PROTOCOL in [OPCUA, MODBUS, BLUETOOTH, CUSTOMIZED_PROTOCOL];
  }

  lemma AddedModels(p: Profile, d: Device, model: Model)
    requires ModelsSound(p.models, p.instances) && model.name == d.model
    ensures ModelsSound(Added(p, d, Some(model)).models, p.instances + [InstanceOf(d)])
  {
    hide ProtocolOf;
    var q := Added(p, d, Some(model));
    assert InstanceModels(q.instances) == InstanceModels(p.instances) + [d.model];
    assert ModelNames(p.models + [model]) == ModelNames(p.models) + [model.name];
  }

  /** Adding keeps integrity exactly when the name is new. */
  lemma AddedSound(p: Profile, d: Device, model: Model)
    requires Sound(p) && model.name == d.model
    ensures Sound(Added(p, d, Some(model))) <==> d.name !in InstanceNames(p.instances)
  {
    hide OwnName, ModelsSound, ProtocolOf;
    var q := Added(p, d, Some(model));
    assert InstanceNames(q.instances) == InstanceNames(p.instances) + [d.name];
    assert Refs(q.instances) == Refs(p.instances) + [ProtocolOf(d).name];
    assert ProtocolNames(q.protocols) == ProtocolNames(p.protocols) + [ProtocolOf(d).name];
    AddedModels(p, d, model);
    OwnNameOf(d);
    if d.name in InstanceNames(p.instances) {
      var j :| 0 <= j < |p.instances| && InstanceNames(p.instances)[j] == d.name;
      assert InstanceNames(q.instances)[j] == InstanceNames(q.instances)[|p.instances|];
    } else {
      assert Distinct(InstanceNames(q.instances));
    }
  }

  lemma DropInstanceAt(s: seq<Instance>, name: string)
    ensures name !in InstanceNames(s) ==> DropInstance(s, name) == s
    ensures name in InstanceNames(s) ==>
              var i := Find(InstanceNames(s), name);
              && InstanceNames(DropInstance(s, name)) == SwapRemove(InstanceNames(s), i)
              && Refs(DropInstance(s, name)) == SwapRemove(Refs(s), i)
              && InstanceModels(DropInstance(s, name)) == SwapRemove(InstanceModels(s), i)
  {
  }

  lemma DropProtocolNames(s: seq<Protocol>, name: string)
    ensures name in ProtocolNames(s) ==>
              multiset(ProtocolNames(s)) == multiset(ProtocolNames(DropProtocol(s, name))) + multiset{name}
    ensures name !in ProtocolNames(s) ==> DropProtocol(s, name) == s
  {
    if name in ProtocolNames(s) {
      var i := Find(ProtocolNames(s), name);
      assert ProtocolNames(SwapRemove(s, i)) == SwapRemove(ProtocolNames(s), i);
      SwapRemoveMultiset(ProtocolNames(s), i);
    }
  }

  /** The models are right after dropping an instance exactly when the model
      looked at is the instance's own, or that one is still referred to. */
  lemma RemovedModels(p: Profile, d: Device, model: Model)
    requires ModelsSound(p.models, p.instances) && model.name == d.model && d.name in InstanceNames(p.instances)
    ensures var own := p.instances[Find(InstanceNames(p.instances), d.name)].model;
            ModelsSound(Removed(p, d, Some(model)).models, DropInstance(p.instances, d.name))
            <==> d.model == own || own in InstanceModels(DropInstance(p.instances, d.name))
  {
    hide RefOf, DropProtocol, DropModel, ProtocolOf, ModelNames, Distinct, SwapRemove;
    var i := Find(InstanceNames(p.instances), d.name);
    DropInstanceAt(p.instances, d.name);
    StillReferred(InstanceModels(p.instances), i);
    assert InstanceModels(p.instances)[i] == p.instances[i].model;
    DropModelNames(p.models, d.model);
  }

  lemma DropModelNames(s: seq<Model>, name: string)
    requires Distinct(ModelNames(s))
    ensures Distinct(ModelNames(DropModel(s, name)))
    ensures forall m :: m in ModelNames(DropModel(s, name)) <==> m in ModelNames(s) && m != name
  {
    hide Distinct;
    var k := Find(ModelNames(s), name);
    if k < |s| {
      assert ModelNames(SwapRemove(s, k)) == SwapRemove(ModelNames(s), k);
      SwapRemoveDistinct(ModelNames(s), k);
    }
  }

  /** What is left of a list after a swap-removal. */
  lemma StillReferred(s: seq<string>, i: nat)
    requires i < |s|
    ensures forall x | x != s[i] :: x in SwapRemove(s, i) <==> x in s
    ensures s[i] in s
  {
    var t := SwapRemove(s, i);
    assert forall j | 0 <= j < |t| :: t[j] == if j == i then s[|s| - 1] else s[j];
    forall x | x != s[i] && x in s ensures x in t {
      var j :| 0 <= j < |s| && s[j] == x;
      assert t[if j == |s| - 1 then i else j] == x;
    }
  }

  lemma SwapMultiset(a: multiset<string>, x: string, y: string)
    ensures a + multiset{x} == a + multiset{y} <==> x == y
    ensures a + multiset{x} != a
  {
    assert (a + multiset{x})[x] == a[x] + 1;
    assert x != y ==> (a + multiset{y})[x] == a[x];
  }

  lemma CancelMultiset<T>(a: multiset<T>, b: multiset<T>, x: T)
    requires a + multiset{x} == b + multiset{x}
    ensures a == b
  {
    assert a == (a + multiset{x}) - multiset{x};
    assert b == (b + multiset{x}) - multiset{x};
  }

  lemma RemovedRefs(p: Profile, name: string)
    requires Sound(p) && name in InstanceNames(p.instances)
    ensures RefOf(p, name) in ProtocolNames(p.protocols)
    ensures multiset(ProtocolNames(DropProtocol(p.protocols, RefOf(p, name)))) == multiset(Refs(DropInstance(p.instances, name)))
  {
    hide OwnName, ModelsSound, DropProtocol, DropInstance;
    var i := Find(InstanceNames(p.instances), name);
    var ref := p.instances[i].protocol;
    DropInstanceAt(p.instances, name);
    SwapRemoveMultiset(Refs(p.instances), i);
    assert Refs(p.instances)[i] == ref;
    assert ref in multiset(Refs(p.instances));
    assert ref in ProtocolNames(p.protocols);
    DropProtocolNames(p.protocols, ref);
    CancelMultiset(multiset(ProtocolNames(DropProtocol(p.protocols, ref))), multiset(Refs(DropInstance(p.instances, name))), ref);
  }

  lemma RemovedNames(p: Profile, name: string)
    requires Sound(p) && name in InstanceNames(p.instances)
    ensures var rest := DropInstance(p.instances, name);
            Distinct(InstanceNames(rest)) && forall j | 0 <= j < |rest| :: OwnName(rest[j].protocol, rest[j].name)
  {
    hide OwnName, ModelsSound, Refs;
    var i := Find(InstanceNames(p.instances), name);
    SwapRemoveDistinct(InstanceNames(p.instances), i);
    var rest := SwapRemove(p.instances, i);
    assert InstanceNames(rest) == SwapRemove(InstanceNames(p.instances), i);
    assert forall j | 0 <= j < |rest| :: rest[j] == p.instances[if j == i then |p.instances| - 1 else j];
  }

  lemma RemovedPresent(p: Profile, d: Device, model: Model)
    requires Sound(p) && model.name == d.model && d.name in InstanceNames(p.instances)
    ensures Sound(Removed(p, d, Some(model))) <==>
              ModelsSound(Removed(p, d, Some(model)).models, DropInstance(p.instances, d.name))
  {
    hide OwnName, ModelsSound, DropProtocol, DropModel, DropInstance, RefOf, InstanceNames, Refs, ProtocolNames, Distinct;
    RemovedRefs(p, d.name);
    RemovedNames(p, d.name);
  }

  lemma RemovedAbsent(p: Profile, d: Device, model: Model)
    requires Sound(p) && model.name == d.model && d.name !in InstanceNames(p.instances)
    ensures Sound(Removed(p, d, Some(model))) <==> "" !in ProtocolNames(p.protocols)
  {
    hide OwnName, DropProtocol, DropInstance;
    DropInstanceAt(p.instances, d.name);
    DropProtocolNames(p.protocols, "");
  }

  /** Deleting a device keeps integrity exactly when it is there with its own
      model, or its model is still referred to; deleting one that is not there,
      exactly when no protocol is nameless. */
  lemma RemovedSound(p: Profile, d: Device, model: Model)
    requires Sound(p) && model.name == d.model
    ensures Sound(Removed(p, d, Some(model))) <==>
              if d.name in InstanceNames(p.instances) then
                var own := p.instances[Find(InstanceNames(p.instances), d.name)].model;
                d.model == own || own in InstanceModels(DropInstance(p.instances, d.name))
              else "" !in ProtocolNames(p.protocols)
  {
    hide OwnName, ModelsSound, DropProtocol, DropInstance, Removed;
    if d.name in InstanceNames(p.instances) {
      RemovedPresent(p, d, model);
      RemovedModels(p, d, model);
    } else {
      RemovedAbsent(p, d, model);
    }
  }

  lemma TakeOutNames(s: seq<Protocol>, name: string)
    ensures name in ProtocolNames(s) ==>
              multiset(ProtocolNames(s)) == multiset(ProtocolNames(TakeOut(s, name))) + multiset{name}
    ensures name !in ProtocolNames(s) ==> TakeOut(s, name) == s
  {
    if name in ProtocolNames(s) {
      var i := Find(ProtocolNames(s), name);
      assert ProtocolNames(RemoveAt(s, i)) == RemoveAt(ProtocolNames(s), i);
      RemoveAtMultiset(ProtocolNames(s), i);
    }
  }

  lemma SetInstanceAt(s: seq<Instance>, d: Device)
    ensures InstanceNames(SetInstance(s, d)) == InstanceNames(s)
    ensures InstanceModels(SetInstance(s, d)) == InstanceModels(s)
    ensures d.name !in InstanceNames(s) ==> SetInstance(s, d) == s
    ensures d.name in InstanceNames(s) ==>
              var i := Find(InstanceNames(s), d.name);
              Refs(SetInstance(s, d)) == Refs(s)[i := ProtocolOf(d).name]
  {
    hide ProtocolOf;
  }

  /** The protocol names after an update. */
  lemma ChangedNames(p: Profile, d: Device)
    ensures multiset(ProtocolNames(Changed(p, d).protocols)) ==
              multiset(ProtocolNames(TakeOut(p.protocols, RefOf(p, d.name)))) + multiset{ProtocolOf(d).name}
  {
    hide ProtocolOf, TakeOut, RefOf, SetInstance;
    var rest := TakeOut(p.protocols, RefOf(p, d.name));
    assert ProtocolNames(Changed(p, d).protocols) == ProtocolNames(rest) + [ProtocolOf(d).name];
  }

  lemma ChangedRefsPresent(p: Profile, d: Device)
    requires multiset(ProtocolNames(p.protocols)) == multiset(Refs(p.instances)) && d.name in InstanceNames(p.instances)
    ensures multiset(ProtocolNames(Changed(p, d).protocols)) == multiset(Refs(Changed(p, d).instances))
  {
    hide ProtocolOf, TakeOut, SetInstance, ProtocolNames;
    var ref, i := RefOf(p, d.name), Find(InstanceNames(p.instances), d.name);
    ChangedNames(p, d);
    SetInstanceAt(p.instances, d);
    TakeOutNames(p.protocols, ref);
    ReplaceMultiset(Refs(p.instances), i, ProtocolOf(d).name);
    assert Refs(p.instances)[i] == ref && ref in multiset(Refs(p.instances));
    assert ref in multiset(ProtocolNames(p.protocols));
    CancelMultiset(multiset(ProtocolNames(TakeOut(p.protocols, ref))), multiset(RemoveAt(Refs(p.instances), i)), ref);
  }

  lemma ChangedRefsAbsent(p: Profile, d: Device)
    requires multiset(ProtocolNames(p.protocols)) == multiset(Refs(p.instances)) && d.name !in InstanceNames(p.instances)
    ensures multiset(ProtocolNames(Changed(p, d).protocols)) == multiset(Refs(Changed(p, d).instances)) <==>
              ProtocolOf(d).name == "" && "" in ProtocolNames(p.protocols)
  {
    hide ProtocolOf, TakeOut, SetInstance, ProtocolNames;
    ChangedNames(p, d);
    SetInstanceAt(p.instances, d);
    TakeOutNames(p.protocols, "");
    var new' := ProtocolOf(d).name;
    if "" in ProtocolNames(p.protocols) {
      SwapMultiset(multiset(ProtocolNames(TakeOut(p.protocols, ""))), "", new');
    } else {
      SwapMultiset(multiset(ProtocolNames(p.protocols)), new', new');
    }
  }

  lemma ChangedRefs(p: Profile, d: Device)
    requires Sound(p)
    ensures var q := Changed(p, d);
            multiset(ProtocolNames(q.protocols)) == multiset(Refs(q.instances)) <==>
              d.name in InstanceNames(p.instances) || (ProtocolOf(d).name == "" && "" in ProtocolNames(p.protocols))
  {
    hide OwnName, ProtocolOf, Changed, ModelsSound, Distinct, InstanceNames, ProtocolNames, Refs;
    if d.name in InstanceNames(p.instances) {
      ChangedRefsPresent(p, d);
    } else {
      ChangedRefsAbsent(p, d);
    }
  }

  lemma ReplaceMultiset(s: seq<string>, i: nat, x: string)
    requires i < |s|
    ensures multiset(s) == multiset(RemoveAt(s, i)) + multiset{s[i]}
    ensures multiset(s[i := x]) == multiset(RemoveAt(s, i)) + multiset{x}
  {
    RemoveAtMultiset(s, i);
    assert s[i := x] == s[..i] + [x] + s[i + 1..];
    MiddleMultiset(s[..i], x, s[i + 1..]);
  }

  /** Updating a device keeps integrity when it is there; when it is not, only
      in the one case that a nameless protocol takes the place of another. */
  lemma ChangedSound(p: Profile, d: Device)
    requires Sound(p)
    ensures Sound(Changed(p, d)) <==>
              d.name in InstanceNames(p.instances) || (ProtocolOf(d).name == "" && "" in ProtocolNames(p.protocols))
  {
    hide OwnName, ProtocolOf, TakeOut, Refs, ProtocolNames;
    ChangedRefs(p, d);
    SetInstanceAt(p.instances, d);
    OwnNameOf(d);
    var q := Changed(p, d);
    assert ModelsSound(q.models, q.instances);
    forall j | 0 <= j < |q.instances| ensures OwnName(q.instances[j].protocol, q.instances[j].name) {
      assert OwnName(p.instances[j].protocol, p.instances[j].name);
    }
  }

  /** The first nameless protocol, if any. */
  function Nameless(s: seq<Protocol>): Option<Protocol>
  {
    var i := Find(ProtocolNames(s), "");
    if i < |s| then Some(s[i]) else None
  }

  ghost predicate SameContent(a: Profile, b: Profile)
  {
    multiset(a.instances) == multiset(b.instances) && multiset(a.protocols) == multiset(b.protocols) &&
    multiset(a.models) == multiset(b.models)
  }

  lemma FindLast(s: seq<string>, x: string)
    requires x !in s
    ensures Find(s + [x], x) == |s|
  {
    var i := Find(s + [x], x);
    assert (s + [x])[|s|] == x;
    assert forall j | 0 <= j < |s| :: (s + [x])[j] == s[j];
  }

  lemma UndoneInstances(p: Profile, d: Device)
    requires d.name !in InstanceNames(p.instances)
    ensures DropInstance(p.instances + [InstanceOf(d)], d.name) == p.instances
    ensures forall q: Profile | q.instances == p.instances + [InstanceOf(d)] :: RefOf(q, d.name) == ProtocolOf(d).name
  {
    hide ProtocolOf;
    var s := p.instances + [InstanceOf(d)];
    assert InstanceNames(s) == InstanceNames(p.instances) + [d.name];
    FindLast(InstanceNames(p.instances), d.name);
  }

  lemma UndoneModels(p: Profile, d: Device, model: Model)
    requires Sound(p) && model.name == d.model
    ensures var models := Added(p, d, Some(model)).models;
            (if d.model in InstanceModels(p.instances) then models else DropModel(models, d.model)) == p.models
  {
    hide ProtocolOf, OwnName;
    assert ModelsSound(p.models, p.instances);
    if d.model !in InstanceModels(p.instances) {
      assert ModelNames(p.models + [model]) == ModelNames(p.models) + [d.model];
      FindLast(ModelNames(p.models), d.model);
    }
  }

  /** A named protocol is found where it was put. */
  lemma NamedProtocolIsNew(p: Profile, d: Device)
    requires Sound(p) && d.name !in InstanceNames(p.instances) && ProtocolOf(d).name != ""
    ensures ProtocolOf(d).name !in ProtocolNames(p.protocols)
  {
    hide OwnName, ModelsSound, ProtocolOf;
    var name := ProtocolOf(d).name;
    if name in ProtocolNames(p.protocols) {
      assert name in multiset(Refs(p.instances));
      var i :| 0 <= i < |p.instances| && Refs(p.instances)[i] == name;
      OwnNameOf(d);
      assert InstanceNames(p.instances)[i] == p.instances[i].name;
      ProtocolNamesDevice(name, d.name, p.instances[i].name);
    }
  }

  lemma UndoneProtocols(s: seq<Protocol>, n: Protocol)
    ensures var k := Find(ProtocolNames(s), n.name);
            multiset(DropProtocol(s + [n], n.name)) == multiset(s) <==> k == |s| || s[k] == n
  {
    var k := Find(ProtocolNames(s), n.name);
    assert ProtocolNames(s + [n]) == ProtocolNames(s) + [n.name];
    if k == |s| {
      FindLast(ProtocolNames(s), n.name);
    } else {
      FindFirst(ProtocolNames(s), n.name, n.name);
      assert SwapRemove(s + [n], k) == s[k := n];
      ReplacedSame(s, k, n);
    }
  }

  lemma ReplacedSame<T>(s: seq<T>, k: nat, n: T)
    requires k < |s|
    ensures multiset(s[k := n]) == multiset(s) <==> s[k] == n
  {
    var rest := multiset(s[..k]) + multiset(s[k + 1..]);
    assert s == s[..k] + [s[k]] + s[k + 1..];
    assert s[k := n] == s[..k] + [n] + s[k + 1..];
    assert multiset(s) == rest + multiset{s[k]};
    assert multiset(s[k := n]) == rest + multiset{n};
    if s[k] == n {
      assert s[k := n] == s;
    } else {
      assert (rest + multiset{s[k]})[n] == rest[n];
      assert (rest + multiset{n})[n] == rest[n] + 1;
    }
  }

  lemma FindFirst(s: seq<string>, x: string, y: string)
    requires x in s
    ensures Find(s + [y], x) == Find(s, x)
  {
    var i, j := Find(s, x), Find(s + [y], x);
    assert (s + [y])[i] == x;
    assert forall k | 0 <= k < |s| :: (s + [y])[k] == s[k];
  }

  /** Deleting a device that was just added restores the profile, up to order,
      exactly when its protocol has a name, or no other protocol is nameless, or
      the first nameless one is the same. */
  lemma RemovedUndoesAdded(p: Profile, d: Device, model: Model)
    requires Sound(p) && model.name == d.model && d.name !in InstanceNames(p.instances)
    ensures SameContent(Removed(Added(p, d, Some(model)), d, Some(model)), p) <==>
              ProtocolOf(d).name != "" || Nameless(p.protocols).None? || Nameless(p.protocols) == Some(ProtocolOf(d))
  {
    hide ProtocolOf, DropInstance, DropModel, DropProtocol, RefOf, Sound, InstanceModels, ModelNames, InstanceNames;
    UndoneInstances(p, d);
    UndoneModels(p, d, model);
    UndoneProtocols(p.protocols, ProtocolOf(d));
    if ProtocolOf(d).name != "" { NamedProtocolIsNew(p, d); }
  }

  /** Two devices without a supported protocol, the second added and deleted
      again: the second's protocol entry is left, and the first's is gone. */
  lemma NamelessTakesWrong(a: Device, b: Device, model: Model)
    requires KindOf(a).None? && KindOf(b).None? && a.name != b.name && a.common != b.common
    requires a.model == model.name && b.model == model.name
    ensures var p := Added(Profile([], [], []), a, Some(model));
            var q := Removed(Added(p, b, Some(model)), b, Some(model));
            && p.instances == [InstanceOf(a)] && p.protocols == [ProtocolOf(a)]
            && q.instances == [InstanceOf(a)] && q.protocols == [ProtocolOf(b)] && q.protocols != p.protocols
  {
    var r := Added(Added(Profile([], [], []), a, Some(model)), b, Some(model));
    assert InstanceNames(r.instances) == [a.name, b.name];
    assert Find([a.name, b.name], b.name) == 1;
    assert ProtocolNames(r.protocols) == ["", ""];
    assert Find(["", ""], "") == 0;
  }
}
