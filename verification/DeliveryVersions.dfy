/** The order of versions in the node store and in the ObjectSync records. */
module DeliveryVersions {
  import opened Strings
  import opened Names
  import opened Delivery
  import opened DeliverySafety
  import opened DeliveryRuns

  // ---- The node store ----

  /** What may take the place of a stored message: a delete, or, unless a
      delete is stored, something newer. */
  predicate Supersedes(a: Message, b: Message)
  {
    a == b || IsDeleteMessage(a) || (!IsDeleteMessage(b) && Newer(a.version, b.version))
  }

  /** Every insert or update at hand has a version, and while the loop holds a
      message the store holds it or something that superseded it. */
  ghost predicate StoreOrder(store: map<Ref, Message>, loop: Loop)
  {
    && (forall r | r in store && !IsDeleteMessage(store[r]) :: store[r].version.Some?)
    && (loop.Sending? ==>
          && loop.msg.ref in store && Supersedes(store[loop.msg.ref], loop.msg)
          && (!IsDeleteMessage(loop.msg) ==> loop.msg.version.Some?))
  }

  lemma AcceptedSupersedes(node: string, store: map<Ref, Message>, syncs: Syncs, m: Message)
    requires Accepted(node, store, syncs, m)
    ensures m.ref in store ==> Supersedes(m, store[m.ref])
    ensures !IsDeleteMessage(m) ==> m.version.Some?
  {
    hide KeyOf;
  }

  lemma SupersedesTransitive(a: Message, b: Message, c: Message)
    requires Supersedes(a, b) && Supersedes(b, c)
    ensures Supersedes(a, c)
  {
  }

  lemma DispatchOrder(s: State, m: Message)
    requires StoreOrder(s.store, s.loop)
    ensures StoreOrder(DoDispatch(s, m).store, DoDispatch(s, m).loop)
  {
    hide Accepted, Supersedes;
    if Accepted(s.node, s.store, s.syncs, m) {
      AcceptedSupersedes(s.node, s.store, s.syncs, m);
      if s.loop.Sending? && s.loop.msg.ref == m.ref { SupersedesTransitive(m, s.store[m.ref], s.loop.msg); }
    }
  }

  lemma TakeOrder(s: State, ref: Ref, toSend: bool, writeOk: bool)
    requires StoreKnown(s.log, s.store) && StoreOrder(s.store, s.loop) && s.loop == Idle
    ensures StoreOrder(DoTake(s, ref, toSend, writeOk).store, DoTake(s, ref, toSend, writeOk).loop)
  {
  }

  lemma SaveOrder(s: State, api: Api)
    requires StoreOrder(s.store, s.loop) && s.loop.Sending?
    ensures StoreOrder(DoSave(s, api).store, DoSave(s, api).loop)
  {
    hide KeyOf, SavedVersion;
  }

  lemma StoreOrderStep(s: State, e: Event)
    requires StoreKnown(s.log, s.store) && StoreOrder(s.store, s.loop) && Enabled(s, e)
    ensures StoreOrder(Do(s, e).store, Do(s, e).loop)
  {
    hide Process, KeyOf, DoDispatch, DoTake, DoSave;
    match e
    case Dispatch(m) => DispatchOrder(s, m);
    case Take(ref, toSend, writeOk) => TakeOrder(s, ref, toSend, writeOk);
    case Save(api) => SaveOrder(s, api);
    case Resend(_) =>
    case Ack(_) =>
    case EdgeProcess(_) =>
    case _ =>
  }

  /** One step replaces a stored message only by what supersedes it, and drops
      one only when a delete of that object is acknowledged, at which time the
      store holds a delete for it. */
  lemma StoreStep(s: State, e: Event, r: Ref)
    requires StoreOrder(s.store, s.loop) && Enabled(s, e) && r in s.store
    ensures r in Do(s, e).store ==> Supersedes(Do(s, e).store[r], s.store[r])
    ensures r !in Do(s, e).store ==>
              e.Save? && s.loop.msg.operation == Delete && s.loop.msg.ref == r && IsDeleteMessage(s.store[r])
  {
    hide Process, SavedVersion, KeyOf;
    match e
    case Dispatch(_) =>
    case Take(_, _, _) =>
    case Resend(_) =>
    case GiveUp =>
    case Ack(_) =>
    case Save(_) =>
    case EdgeProcess(_) =>
    case Lose(_) =>
    case RecordGone(_) =>
    case ForeignSave(_, _, _, _) =>
  }

  lemma {:induction false} RunOrder(trace: seq<State>, events: seq<Event>, n: nat)
    requires Run(trace, events) && Init(trace[0]) && n < |trace|
    ensures Inv(trace[n]) && StoreOrder(trace[n].store, trace[n].loop)
  {
    hide Do;
    RunKeeps(trace, events, n);
    if n > 0 {
      RunOrder(trace, events, n - 1);
      StoreOrderStep(trace[n - 1], events[n - 1]);
    }
  }

  ghost predicate StoredThroughout(trace: seq<State>, i: nat, j: nat, r: Ref)
  {
    i <= j < |trace| && forall k | i <= k <= j :: r in trace[k].store
  }

  /** Over any stretch of a run in which an object has a stored message: a
      stored delete is followed only by deletes, and a stored insert or update
      by itself, by a delete, or by something strictly newer. */
  lemma {:induction false} StoredOnlySuperseded(trace: seq<State>, events: seq<Event>, i: nat, j: nat, r: Ref)
    requires Run(trace, events) && Init(trace[0]) && StoredThroughout(trace, i, j, r)
    ensures Supersedes(trace[j].store[r], trace[i].store[r])
    decreases j
  {
    hide Do, Inv;
    if i < j {
      StoredOnlySuperseded(trace, events, i, j - 1, r);
      RunOrder(trace, events, j - 1);
      StoreStep(trace[j - 1], events[j - 1], r);
    }
  }

  /** An entry leaves the store only with the acknowledged delete of its object,
      and then it is a delete: no pending insert or update is ever dropped. */
  lemma DroppedIsDelete(trace: seq<State>, events: seq<Event>, i: nat, r: Ref)
    requires Run(trace, events) && Init(trace[0]) && i < |events|
    requires r in trace[i].store && r !in trace[i + 1].store
    ensures events[i].Save? && trace[i].loop.Sending? && trace[i].loop.acked
    ensures trace[i].loop.msg.operation == Delete && trace[i].loop.msg.ref == r
    ensures IsDeleteMessage(trace[i].store[r])
  {
    hide Do, Inv;
    RunOrder(trace, events, i);
    StoreStep(trace[i], events[i], r);
  }

  // ---- The recorded versions ----

  /** Recording `m` over `version` would lower it or lose it. */
  predicate Lags(m: Message, version: Option<nat>)
  {
    version.Some? && !(m.version.Some? && version.value <= m.version.value)
  }

  function Recorded(syncs: Syncs, key: SyncKey): Option<nat>
  {
    if key in syncs then syncs[key] else None
  }

  /** Saving `m` writes the version of this UID. */
  predicate Writes(m: Message, uid: string)
  {
    m.uid == Some(uid) && m.operation != Delete
  }

  /** The version that the loop is about to record for the UID. */
  function UnderWay(loop: Loop, uid: string): Option<nat>
  {
    if loop.Sending? && Writes(loop.msg, uid) then loop.msg.version else None
  }

  /** The message lags the record of its UID, or what is about to be recorded. */
  predicate Behind(s: State, m: Message)
  {
    m.uid.Some? &&
    (|| Lags(m, Recorded(s.syncs, KeyOf(s.node, m.ref, m.uid.value)))
     || (s.loop.Sending? && s.loop.msg.ref == m.ref && Lags(m, UnderWay(s.loop, m.uid.value))))
  }

  /** What is stored and what is being sent for the object's UID does not lag
      the record, and what is stored does not lag what is being sent. */
  predicate InStep(s: State, ref: Ref, uid: string)
  {
    && (ref in s.store && Writes(s.store[ref], uid) ==>
          && !Lags(s.store[ref], Recorded(s.syncs, KeyOf(s.node, ref, uid)))
          && !Lags(s.store[ref], UnderWay(s.loop, uid)))
    && (s.loop.Sending? && Writes(s.loop.msg, uid) ==>
          !Lags(s.loop.msg, Recorded(s.syncs, KeyOf(s.node, ref, uid))))
  }

  /** The UID is the object's. */
  ghost predicate UidBound(log: seq<Message>, ref: Ref, uid: string)
  {
    forall i | 0 <= i < |log| && log[i].uid == Some(uid) :: log[i].ref == ref
  }

  /** The stored insert or update that `m` would replace is of another UID. */
  predicate CrossesUid(store: map<Ref, Message>, m: Message)
  {
    m.ref in store && !IsDeleteMessage(store[m.ref]) && store[m.ref].uid != m.uid
  }

  /** An update that the version check lets through unchecked: it is marked for
      deletion, or takes the place of a message of another UID. */
  predicate ThroughGap(s: State, m: Message)
  {
    m.deleting || CrossesUid(s.store, m)
  }

  /** What the record order of one object asks of a dispatched message of its
      UID: that it is for the object, and not behind if it comes through a gap.
      Other objects' messages are free. */
  predicate Tame(s: State, e: Event, ref: Ref, uid: string)
  {
    e.Dispatch? && e.msg.uid == Some(uid) ==>
      && e.msg.ref == ref
      && (e.msg.operation != Delete && ThroughGap(s, e.msg) && Accepted(s.node, s.store, s.syncs, e.msg) ==>
            !Behind(s, e.msg))
  }

  /** An insert or update that is behind is accepted exactly through one of the
      two gaps in the version check. */
  lemma BehindAcceptedIff(s: State, m: Message)
    requires StoreOrder(s.store, s.loop) && m.operation != Delete && Behind(s, m)
    requires InStep(s, m.ref, m.uid.value)
    ensures Accepted(s.node, s.store, s.syncs, m) <==>
              m.deleting || (CrossesUid(s.store, m) && Newer(m.version, s.store[m.ref].version))
  {
    hide KeyOf;
  }

  lemma DispatchInStep(s: State, m: Message, ref: Ref, uid: string)
    requires StoreOrder(s.store, s.loop) && InStep(s, ref, uid) && Tame(s, Dispatch(m), ref, uid)
    requires s.loop.Sending? && s.loop.msg.uid == Some(uid) ==> s.loop.msg.ref == ref
    ensures InStep(DoDispatch(s, m), ref, uid)
  {
    hide KeyOf, Accepted, StoreOrder;
    if Accepted(s.node, s.store, s.syncs, m) && Writes(m, uid) && Behind(s, m) {
      BehindAcceptedIff(s, m);
    }
  }

  /** Recording the loop's message leaves what superseded it in step. */
  lemma SaveInStep(s: State, api: Api, ref: Ref, uid: string)
    requires InStep(s, ref, uid) && s.loop.Sending?
    requires s.loop.msg.uid == Some(uid) ==> s.loop.msg.ref == ref
    ensures InStep(DoSave(s, api), ref, uid)
  {
    if s.loop.msg.uid.Some? { SyncNamesDiffer(s.node, uid, s.loop.msg.uid.value); }
  }

  lemma SyncNamesDiffer(node: string, a: string, b: string)
    ensures BuildObjectSyncName(node, a) == BuildObjectSyncName(node, b) ==> a == b
  {
    var x, y := BuildObjectSyncName(node, a), BuildObjectSyncName(node, b);
    assert x[|node| + 1..] == a && y[|node| + 1..] == b;
  }

  /** Another node's record has another name. */
  lemma ForeignKeyDiffers(node: string, ref: Ref, uid: string, from: string, ref': Ref, uid': string)
    requires node != from && '.' !in uid && '.' !in uid'
    ensures KeyOf(node, ref, uid) != KeyOf(from, ref', uid')
  {
    hide BuildObjectSyncName;
    SyncNameRoundTrip(node, uid);
    SyncNameRoundTrip(from, uid');
  }

  lemma TakeInStep(s: State, taken: Ref, toSend: bool, writeOk: bool, ref: Ref, uid: string)
    requires StoreKnown(s.log, s.store) && UidBound(s.log, ref, uid) && InStep(s, ref, uid) && s.loop == Idle
    ensures InStep(DoTake(s, taken, toSend, writeOk), ref, uid)
  {
    hide KeyOf;
  }

  /** Nothing is stored or recorded, and the loop goes on with its message or
      ends. */
  predicate Quiet(s: State, t: State)
  {
    && t.node == s.node && t.store == s.store && t.syncs == s.syncs
    && (t.loop.Sending? ==> s.loop.Sending? && t.loop.msg == s.loop.msg)
  }

  lemma QuietInStep(s: State, t: State, ref: Ref, uid: string)
    requires InStep(s, ref, uid) && Quiet(s, t)
    ensures InStep(t, ref, uid)
  {
    hide KeyOf, Lags;
    NoneLags();
  }

  lemma QuietStep(s: State, e: Event)
    requires Enabled(s, e) && !e.Dispatch? && !e.Take? && !e.Save? && !e.RecordGone? && !e.ForeignSave?
    ensures Quiet(s, Do(s, e))
  {
    hide Process, Accepted, SavedVersion, KeyOf, DoDispatch, DoTake, DoSave;
    match e
    case Resend(_) =>
    case GiveUp =>
    case Ack(_) =>
    case EdgeProcess(_) =>
    case Lose(_) =>
  }

  lemma RecordsInStep(s: State, syncs: Syncs, ref: Ref, uid: string)
    requires InStep(s, ref, uid)
    requires var key := KeyOf(s.node, ref, uid); Recorded(syncs, key) in {None, Recorded(s.syncs, key)}
    ensures InStep(s.(syncs := syncs), ref, uid)
  {
    hide KeyOf, Lags;
    NoneLags();
  }

  lemma InStepStep(s: State, e: Event, ref: Ref, uid: string)
    requires StoreKnown(s.log, s.store) && StoreOrder(s.store, s.loop) && UidBound(s.log, ref, uid) && '.' !in uid
    requires s.loop.Sending? && s.loop.msg.uid == Some(uid) ==> s.loop.msg.ref == ref
    requires InStep(s, ref, uid) && Enabled(s, e) && Tame(s, e, ref, uid)
    ensures InStep(Do(s, e), ref, uid)
  {
    hide InStep, Process, KeyOf, Accepted, StoreOrder, StoreKnown, UidBound, DoDispatch, DoSave, DoTake;
    match e
    case Dispatch(m) => DispatchInStep(s, m, ref, uid);
    case Save(api) => SaveInStep(s, api, ref, uid);
    case Take(taken, toSend, writeOk) => TakeInStep(s, taken, toSend, writeOk, ref, uid);
    case ForeignSave(from, ref', uid', version) =>
      ForeignKeyDiffers(s.node, ref, uid, from, ref', uid');
      RecordsInStep(s, s.syncs[KeyOf(from, ref', uid') := version], ref, uid);
    case RecordGone(key) => RecordsInStep(s, s.syncs - {key}, ref, uid);
    case _ =>
      QuietStep(s, e);
      QuietInStep(s, Do(s, e), ref, uid);
  }

  lemma NoneLags()
    ensures forall m :: !Lags(m, None)
  {
  }

  lemma BoundStep(s: State, e: Event, ref: Ref, uid: string)
    requires UidBound(s.log, ref, uid) && Enabled(s, e) && Tame(s, e, ref, uid)
    ensures UidBound(Do(s, e).log, ref, uid)
  {
    hide Process, KeyOf, Accepted, SavedVersion;
    match e
    case Dispatch(_) =>
    case Take(_, _, _) =>
    case Resend(_) =>
    case GiveUp =>
    case Ack(_) =>
    case Save(_) =>
    case EdgeProcess(_) =>
    case Lose(_) =>
    case RecordGone(_) =>
    case ForeignSave(_, _, _, _) =>
  }

  /** All that a step which is tame for the object keeps. */
  ghost predicate Ordered(s: State, ref: Ref, uid: string)
  {
    Inv(s) && StoreOrder(s.store, s.loop) && UidBound(s.log, ref, uid) && InStep(s, ref, uid)
  }

  lemma LoopBound(s: State, ref: Ref, uid: string)
    requires Inv(s) && UidBound(s.log, ref, uid)
    ensures s.loop.Sending? && s.loop.msg.uid == Some(uid) ==> s.loop.msg.ref == ref
  {
    assert s.loop.Sending? ==> Known(s.log, s.loop.msg);
  }

  lemma OrderedStep(s: State, e: Event, ref: Ref, uid: string)
    requires Ordered(s, ref, uid) && Enabled(s, e) && Tame(s, e, ref, uid) && '.' !in uid
    ensures Ordered(Do(s, e), ref, uid)
  {
    hide Do, InStep, Tame, UidBound, StoreOrder;
    InvStoreKnown(s);
    LoopBound(s, ref, uid);
    StepKeeps(s, e);
    StoreOrderStep(s, e);
    BoundStep(s, e, ref, uid);
    InStepStep(s, e, ref, uid);
  }

  lemma SaveRaises(s: State, api: Api, ref: Ref, uid: string)
    requires InStep(s, ref, uid) && s.loop.Sending?
    requires var key := KeyOf(s.node, ref, uid); key in s.syncs && s.syncs[key].Some? && key in DoSave(s, api).syncs
    ensures var key := KeyOf(s.node, ref, uid);
            DoSave(s, api).syncs[key].Some? && s.syncs[key].value <= DoSave(s, api).syncs[key].value
  {
    if s.loop.msg.uid.Some? { SyncNamesDiffer(s.node, uid, s.loop.msg.uid.value); }
  }

  /** Records change only when a loop saves or a record is deleted. */
  lemma OtherStepsKeepRecords(s: State, e: Event)
    requires Enabled(s, e) && !e.Save? && !e.ForeignSave? && !e.RecordGone?
    ensures Do(s, e).syncs == s.syncs
  {
    hide Process, Accepted;
    match e
    case Dispatch(_) =>
    case Take(_, _, _) =>
    case Resend(_) =>
    case _ =>
  }

  /** One step never lowers the object's record. */
  lemma RecordStep(s: State, e: Event, ref: Ref, uid: string)
    requires InStep(s, ref, uid) && Enabled(s, e) && '.' !in uid
    requires var key := KeyOf(s.node, ref, uid); key in s.syncs && s.syncs[key].Some? && key in Do(s, e).syncs
    ensures var key := KeyOf(s.node, ref, uid);
            Do(s, e).syncs[key].Some? && s.syncs[key].value <= Do(s, e).syncs[key].value
  {
    hide InStep, KeyOf, DoSave, DoTake, DoDispatch, DoSend, DoAck, DoEdge;
    match e
    case Save(api) => SaveRaises(s, api, ref, uid);
    case ForeignSave(from, ref', uid', _) => ForeignKeyDiffers(s.node, ref, uid, from, ref', uid');
    case RecordGone(_) =>
    case _ => OtherStepsKeepRecords(s, e);
  }

  predicate TameRun(trace: seq<State>, events: seq<Event>, ref: Ref, uid: string)
  {
    |trace| == |events| + 1 && forall i | 0 <= i < |events| :: Tame(trace[i], events[i], ref, uid)
  }

  lemma InitOrdered(s: State, ref: Ref, uid: string)
    requires Init(s)
    ensures Ordered(s, ref, uid)
  {
    InitInv(s);
  }

  lemma {:induction false} RunOrdered(trace: seq<State>, events: seq<Event>, n: nat, ref: Ref, uid: string)
    requires Run(trace, events) && Init(trace[0]) && TameRun(trace, events, ref, uid) && '.' !in uid && n < |trace|
    ensures Ordered(trace[n], ref, uid) && trace[n].node == trace[0].node
  {
    hide Do, Ordered, Init, Tame;
    if n == 0 {
      InitOrdered(trace[0], ref, uid);
    } else {
      RunOrdered(trace, events, n - 1, ref, uid);
      OrderedStep(trace[n - 1], events[n - 1], ref, uid);
      StepGrows(trace[n - 1], events[n - 1]);
    }
  }

  ghost predicate RecordedThroughout(trace: seq<State>, i: nat, j: nat, key: SyncKey)
  {
    i <= j < |trace| && forall k | i <= k <= j :: key in trace[k].syncs
  }

  /** While the record of an object exists its version never decreases, in every
      run in which no update of that UID is accepted through a gap while behind.
      Messages of other UIDs, of this and of other nodes, may be anything. */
  lemma {:induction false} RecordedVersionNeverDecreases(trace: seq<State>, events: seq<Event>, i: nat, j: nat,
                                                         ref: Ref, uid: string)
    requires Run(trace, events) && Init(trace[0]) && TameRun(trace, events, ref, uid) && '.' !in uid
    requires RecordedThroughout(trace, i, j, KeyOf(trace[0].node, ref, uid))
    requires trace[i].syncs[KeyOf(trace[0].node, ref, uid)].Some?
    ensures var key := KeyOf(trace[0].node, ref, uid);
            trace[j].syncs[key].Some? && trace[i].syncs[key].value <= trace[j].syncs[key].value
    decreases j
  {
    hide Do, InStep, Tame, Init, KeyOf, Inv;
    if i < j {
      RecordedVersionNeverDecreases(trace, events, i, j - 1, ref, uid);
      RunOrdered(trace, events, j - 1, ref, uid);
      assert trace[j] == Do(trace[j - 1], events[j - 1]) && KeyOf(trace[0].node, ref, uid) in trace[j].syncs;
      RecordStep(trace[j - 1], events[j - 1], ref, uid);
    }
  }

  /** The loop recorded `version` under `key` at step `k`. */
  ghost predicate SavedAt(trace: seq<State>, events: seq<Event>, k: nat, key: SyncKey, version: Option<nat>)
  {
    && k < |events| && k < |trace| && events[k].Save? && trace[k].loop.Sending?
    && trace[k].loop.msg.operation != Delete && trace[k].loop.msg.uid.Some?
    && key == KeyOf(trace[k].node, trace[k].loop.msg.ref, trace[k].loop.msg.uid.value)
    && trace[k].loop.msg.version == version
  }

  /** Every recorded version of this node was there at the start or was recorded
      by the loop for a message of that version. */
  lemma {:induction false} RecordOrigin(trace: seq<State>, events: seq<Event>, n: nat, ref: Ref, uid: string)
    requires Run(trace, events) && Init(trace[0]) && n < |trace| && '.' !in uid
    requires var key := KeyOf(trace[0].node, ref, uid); key in trace[n].syncs && trace[n].syncs[key].Some?
    ensures var key := KeyOf(trace[0].node, ref, uid);
            || (key in trace[0].syncs && trace[0].syncs[key] == trace[n].syncs[key])
            || exists k: nat :: k < n && SavedAt(trace, events, k, key, trace[n].syncs[key])
  {
    hide KeyOf, DoTake, DoDispatch, DoSend, DoAck, DoEdge, Init, Inv;
    if n > 0 {
      var key := KeyOf(trace[0].node, ref, uid);
      var s, e := trace[n - 1], events[n - 1];
      RunKeeps(trace, events, n - 1);
      if key in s.syncs && s.syncs[key] == trace[n].syncs[key] {
        RecordOrigin(trace, events, n - 1, ref, uid);
      } else {
        match e
        case Save(api) => assert SavedAt(trace, events, n - 1, key, trace[n].syncs[key]);
        case ForeignSave(from, ref', uid', _) => ForeignKeyDiffers(s.node, ref, uid, from, ref', uid'); assert false;
        case RecordGone(_) =>
        case _ => OtherStepsKeepRecords(s, e); assert false;
      }
    }
  }

  /** Every version that the run has recorded is backed by the edge for as long as
      it stands: the loop saved it for an answered message of that UID and version,
      since then the edge has seen nothing older for that object, and while it has
      seen nothing newer the row is there, with the message's content after an
      update, and after an insert exactly when it landed at some processing. */
  lemma RecordIsBacked(trace: seq<State>, events: seq<Event>, n: nat, ref: Ref, uid: string) returns (k: nat)
    requires Run(trace, events) && Init(trace[0]) && n < |trace| && '.' !in uid
    requires var key := KeyOf(trace[0].node, ref, uid);
             && key in trace[n].syncs && trace[n].syncs[key].Some?
             && !(key in trace[0].syncs && trace[0].syncs[key] == trace[n].syncs[key])
    ensures k < n && SavedAt(trace, events, k, KeyOf(trace[0].node, ref, uid), trace[n].syncs[KeyOf(trace[0].node, ref, uid)])
    ensures trace[k].loop.msg.uid == Some(uid)
    ensures exists j: nat :: j < k && AnsweredAt(trace, events, j, trace[k].loop.msg)
    ensures forall t | k <= t <= n ::
              trace[k].loop.msg.ref in trace[t].seen && trace[k].loop.msg.id <= trace[t].seen[trace[k].loop.msg.ref]
    ensures var m := trace[k].loop.msg; var meta := trace[n].meta;
            trace[n].seen[m.ref] == m.id ==>
              && m.ref in meta
              && (m.operation == Update ==> meta[m.ref] == m.content)
              && (m.operation == Insert ==>
                    (meta[m.ref] == m.content <==> exists j: nat :: j < n && LandedAt(trace, events, j, m)))
  {
    hide KeyOf, Do, Inv, Init, AnsweredAt, LandedAt;
    var key := KeyOf(trace[0].node, ref, uid);
    RecordOrigin(trace, events, n, ref, uid);
    k :| 0 <= k < n && SavedAt(trace, events, k, key, trace[n].syncs[key]);
    var m := trace[k].loop.msg;
    RunKeeps(trace, events, k);
    KeyTellsUid(trace[0].node, ref, uid, m.ref, m.uid.value);
    SuccessPointMeansStored(trace, events, k);
    forall t | k <= t <= n ensures m.ref in trace[t].seen && m.id <= trace[t].seen[m.ref] {
      AcknowledgedStays(trace, events, k, t);
    }
    AcknowledgedStays(trace, events, k, n);
    if m.operation == Insert && trace[n].seen[m.ref] == m.id {
      RowOfNewest(trace, events, k, n);
    }
  }

  lemma KeyTellsUid(node: string, ref: Ref, uid: string, ref': Ref, uid': string)
    requires KeyOf(node, ref, uid) == KeyOf(node, ref', uid')
    ensures uid == uid'
  {
    SyncNamesDiffer(node, uid, uid');
  }

  lemma RowOfNewest(trace: seq<State>, events: seq<Event>, k: nat, n: nat)
    requires Run(trace, events) && Init(trace[0]) && k <= n < |trace|
    requires trace[k].loop.Sending? && trace[k].loop.acked && trace[k].loop.msg.operation == Insert
    requires trace[k].loop.msg.ref in trace[n].seen && trace[n].seen[trace[k].loop.msg.ref] == trace[k].loop.msg.id
    ensures var m := trace[k].loop.msg;
            m.ref in trace[n].meta &&
            (trace[n].meta[m.ref] == m.content <==> exists j: nat :: j < n && LandedAt(trace, events, j, m))
  {
    hide Do, Init, LandedAt;
    var m := trace[k].loop.msg;
    RunKeeps(trace, events, k);
    RepliedGrows(trace, events, k, n);
    assert Known(trace[k].log, m) && Known(trace[n].log, m);
    AcknowledgedStays(trace, events, k, n);
    if m.id in trace[n].committed {
      var j := CommittedLanded(trace, events, n, m.id);
    }
    forall j: nat | j < n && LandedAt(trace, events, j, m) ensures trace[n].meta[m.ref] == m.content {
      LandedStays(trace, events, j, n, m);
    }
  }

  // ---- The gaps are real ----

  const ALL_OK := Api(true, true, true, true)
  const EDGE_OK := Outcome(true, true, true)

  /** The events that carry one stored message through to its success point. */
  function Deliver(ref: Ref, id: nat): seq<Event>
  {
    [Take(ref, true, true), EdgeProcess(EDGE_OK), Ack(id), Save(ALL_OK)]
  }

  /** A run of one stored and queued message through to its success point. */
  lemma StoredRun(s: State, m: Message) returns (trace: seq<State>)
    requires s.loop == Idle && s.link == [] && m.ref in s.queue && m.ref in s.store && s.store[m.ref] == m
    requires Process(s.meta, m, EDGE_OK).ok
    ensures Run(trace, Deliver(m.ref, m.id)) && trace[0] == s
    ensures trace[3].loop == Sending(m, 0, true) && trace[3].meta == Process(s.meta, m, EDGE_OK).meta
    ensures trace[3].syncs == s.syncs && trace[3].node == s.node
    ensures trace[4] == DoSave(trace[3], ALL_OK)
  {
    hide Accepted, Process, DoSave;
    var s1 := Do(s, Take(m.ref, true, true));
    var s2 := Do(s1, EdgeProcess(EDGE_OK));
    var s3 := Do(s2, Ack(m.id));
    trace := [s, s1, s2, s3, Do(s3, Save(ALL_OK))];
  }

  /** One more event in front of a run. */
  lemma RunCons(s: State, e: Event, trace: seq<State>, events: seq<Event>)
    requires Run(trace, events) && Enabled(s, e) && trace[0] == Do(s, e)
    ensures Run([s] + trace, [e] + events)
  {
    hide Do, Enabled;
    var all, es := [s] + trace, [e] + events;
    forall i | 0 <= i < |es| ensures Enabled(all[i], es[i]) && all[i + 1] == Do(all[i], es[i]) {
      if i > 0 { assert all[i] == trace[i - 1] && all[i + 1] == trace[i] && es[i] == events[i - 1]; }
    }
  }

  /** A run of one dispatched message through to its success point, from any
      state in which nothing is under way. */
  lemma DeliverRun(s: State, m: Message) returns (trace: seq<State>, events: seq<Event>)
    requires s.loop == Idle && s.link == [] && m.id == |s.log| && (m.uid.Some? ==> '.' !in m.uid.value)
    requires Accepted(s.node, s.store, s.syncs, m) && Process(s.meta, m, EDGE_OK).ok
    ensures events == [Dispatch(m)] + Deliver(m.ref, m.id) && Run(trace, events) && trace[0] == s
    ensures trace[4].loop == Sending(m, 0, true) && trace[4].meta == Process(s.meta, m, EDGE_OK).meta
    ensures trace[4].syncs == s.syncs && trace[4].node == s.node
    ensures trace[5] == DoSave(trace[4], ALL_OK)
  {
    hide Accepted, Process, DoSave;
    var rest := StoredRun(Enqueued(s, m), m);
    RunCons(s, Dispatch(m), rest, Deliver(m.ref, m.id));
    trace, events := [s] + rest, [Dispatch(m)] + Deliver(m.ref, m.id);
  }

  /** The record order asks for no less than it must: from every idle state, an
      accepted insert or update that lags its record can be carried through to a
      success point that lowers or loses the recorded version. */
  lemma LaggingLowersRecord(s: State, m: Message) returns (trace: seq<State>, events: seq<Event>)
    requires s.loop == Idle && s.link == [] && m.id == |s.log| && m.uid.Some? && '.' !in m.uid.value
    requires Accepted(s.node, s.store, s.syncs, m) && Process(s.meta, m, EDGE_OK).ok && m.operation != Delete
    requires Lags(m, Recorded(s.syncs, KeyOf(s.node, m.ref, m.uid.value)))
    ensures Run(trace, events) && trace[0] == s && |trace| == 6
    ensures var key := KeyOf(s.node, m.ref, m.uid.value);
            key in trace[5].syncs && trace[5].syncs[key] == m.version
            && !(m.version.Some? && s.syncs[key].value <= m.version.value)
  {
    hide Accepted, Process, KeyOf;
    trace, events := DeliverRun(s, m);
  }

  /** ... and one that lags what is about to be recorded, likewise: once the loop
      has recorded its message, the accepted one lowers or loses that version. */
  lemma LaggingUnderWayLowersRecord(s: State, m: Message) returns (trace: seq<State>, events: seq<Event>)
    requires s.loop.Sending? && s.loop.acked && s.link == [] && m.id == |s.log| && m.uid.Some? && '.' !in m.uid.value
    requires s.loop.msg.ref == m.ref && Lags(m, UnderWay(s.loop, m.uid.value))
    requires Accepted(s.node, s.store, s.syncs, m) && Process(s.meta, m, EDGE_OK).ok && m.operation != Delete
    ensures Run(trace, events) && trace[0] == s && |trace| == 7
    ensures var key := KeyOf(s.node, m.ref, m.uid.value);
            && key in trace[2].syncs && trace[2].syncs[key] == s.loop.msg.version && s.loop.msg.version.Some?
            && key in trace[6].syncs && trace[6].syncs[key] == m.version
            && !(m.version.Some? && s.loop.msg.version.value <= m.version.value)
  {
    hide Accepted, Process, KeyOf;
    var s1 := Enqueued(s, m);
    var s2 := DoSave(s1, ALL_OK);
    var rest := StoredRun(s2, m);
    RunCons(s1, Save(ALL_OK), rest, Deliver(m.ref, m.id));
    RunCons(s, Dispatch(m), [s1] + rest, [Save(ALL_OK)] + Deliver(m.ref, m.id));
    trace, events := [s] + ([s1] + rest), [Dispatch(m)] + ([Save(ALL_OK)] + Deliver(m.ref, m.id));
    assert trace[2] == rest[0] && trace[6] == rest[4];
  }

  /** A node that starts with the given records and meta table. */
  function Fresh(node: string, syncs: Syncs, meta: map<Ref, string>): (s: State)
    ensures Init(s)
  {
    State(node, map[], {}, Idle, {}, syncs, [], meta, [], map[], map[], {}, {})
  }

  /** An update marked for deletion skips the version check: it lowers any
      higher record. */
  lemma MarkedUpdateLowersRecord(node: string, ref: Ref, uid: string, high: nat, low: nat, content: string)
      returns (trace: seq<State>, events: seq<Event>)
    requires low < high && '.' !in uid && ref.kind != "podstatus"
    ensures Run(trace, events) && Init(trace[0]) && |trace| == 6
    ensures var key := KeyOf(node, ref, uid);
            trace[0].syncs == map[key := Some(high)] && trace[5].syncs == map[key := Some(low)]
  {
    var key := KeyOf(node, ref, uid);
    var s := Fresh(node, map[key := Some(high)], map[]);
    var m := Message(0, ref, Some(uid), Update, true, Some(low), EdgeController, content);
    trace, events := DeliverRun(s, m);
    assert trace[5].syncs == s.syncs[key := Some(low)];
  }

  /** An update of another UID is compared with the stored message only, not
      with its own record: it lowers any record above the stored version. */
  lemma CrossedUidLowersRecord(node: string, ref: Ref, uid: string, other: string, high: nat, low: nat, content: string)
      returns (trace: seq<State>, events: seq<Event>)
    requires 0 < low < high && '.' !in uid && '.' !in other && uid != other && ref.kind != "podstatus"
    ensures Run(trace, events) && Init(trace[0]) && |trace| == 7
    ensures var key := KeyOf(node, ref, uid);
            trace[0].syncs == map[key := Some(high)] && trace[6].syncs == map[key := Some(low)]
  {
    var key := KeyOf(node, ref, uid);
    var s := Fresh(node, map[key := Some(high)], map[]);
    var b := Message(0, ref, Some(other), Update, false, Some(low - 1), EdgeController, content);
    var a := Message(1, ref, Some(uid), Update, false, Some(low), EdgeController, content);
    SyncNamesDiffer(node, uid, other);
    assert Accepted(s.node, s.store, s.syncs, b);
    var s1 := Do(s, Dispatch(b));
    var rest, more := DeliverRun(s1, a);
    trace, events := [s] + rest, [Dispatch(b)] + more;
    assert trace[6].syncs == s.syncs[key := Some(low)];
    forall i | 0 <= i < |events| ensures Enabled(trace[i], events[i]) && trace[i + 1] == Do(trace[i], events[i]) {
      if i > 0 { assert events[i] == more[i - 1] && trace[i] == rest[i - 1] && trace[i + 1] == rest[i]; }
    }
  }

  /** "Save first, then acknowledge" fails of inserts: an insert over an older
      row is acknowledged and its version recorded while the old content stays. */
  lemma ShadowedInsertIsRecorded(node: string, ref: Ref, uid: string, version: nat, old': string, new': string)
      returns (trace: seq<State>, events: seq<Event>)
    requires old' != new' && '.' !in uid && !IsClusterdKind(ref.kind)
    ensures Run(trace, events) && Init(trace[0]) && |trace| == 6
    ensures events[0].Dispatch? && events[0].msg.ref == ref && events[0].msg.content == new'
    ensures trace[5].syncs == map[KeyOf(node, ref, uid) := Some(version)]
    ensures trace[5].meta == map[ref := old']
  {
    var s := Fresh(node, map[], map[ref := old']);
    var m := Message(0, ref, Some(uid), Insert, false, Some(version), EdgeController, new');
    trace, events := DeliverRun(s, m);
    assert trace[5].meta == trace[4].meta;
  }

  // ---- After the last retry ----

  /** The object has a stored message that no part of the sender looks at. */
  predicate Stuck(s: State, r: Ref)
  {
    r in s.store && r !in s.queue && !(s.loop.Sending? && s.loop.msg.ref == r)
  }

  /** The three ways to leave the sender without anything being lost to it: the
      last retry passes, it is skipped when taken, or the edge has answered. */
  predicate Releases(s: State, e: Event, r: Ref)
  {
    || (e.GiveUp? && s.loop.Sending? && s.loop.msg.ref == r)
    || (e.Take? && e.ref == r && !e.toSend)
    || (e.Save? && s.loop.Sending? && s.loop.acked && s.loop.msg.ref == r)
  }

  lemma SendReleasesNothing(s: State, m: Message, retries: nat, acked: bool, writeOk: bool, r: Ref)
    requires s.loop.Sending? ==> s.loop.msg == m
    ensures Stuck(DoSend(s, m, retries, acked, writeOk), r) ==> Stuck(s.(loop := Idle), r) && m.ref != r
  {
  }

  lemma TakeSticks(s: State, ref: Ref, toSend: bool, writeOk: bool, r: Ref)
    requires StoreKnown(s.log, s.store) && s.loop == Idle
    requires !Stuck(s, r) && Stuck(DoTake(s, ref, toSend, writeOk), r)
    ensures ref == r && !toSend
  {
    hide DoSend;
    if ref in s.store && toSend {
      var t := s.(queue := s.queue - {ref}, pending := s.pending + {s.store[ref].id});
      SendReleasesNothing(t, s.store[ref], 0, false, writeOk, r);
    }
  }

  lemma SaveSticks(s: State, api: Api, r: Ref)
    requires s.loop.Sending? && !Stuck(s, r) && Stuck(DoSave(s, api), r)
    ensures s.loop.msg.ref == r
  {
    hide KeyOf, SavedVersion;
  }

  lemma StickStep(s: State, e: Event, r: Ref)
    requires StoreKnown(s.log, s.store) && Enabled(s, e) && !Stuck(s, r) && Stuck(Do(s, e), r)
    ensures Releases(s, e, r)
  {
    hide Process, Accepted, DoSend, DoTake, DoSave;
    match e
    case Dispatch(_) =>
    case Take(ref, toSend, writeOk) => TakeSticks(s, ref, toSend, writeOk, r);
    case Resend(writeOk) => SendReleasesNothing(s, s.loop.msg, s.loop.retries + 1, s.loop.acked, writeOk, r);
    case Save(api) => SaveSticks(s, api, r);
    case Ack(_) =>
    case EdgeProcess(_) =>
    case _ =>
  }

  /** In every run, a stored message that nobody is to send was released at some
      step: a failed write, a lost frame or a newer message never strands it. */
  lemma {:induction false} StuckWasReleased(trace: seq<State>, events: seq<Event>, n: nat, r: Ref) returns (k: nat)
    requires Run(trace, events) && Init(trace[0]) && n < |trace| && Stuck(trace[n], r)
    ensures k < n && Releases(trace[k], events[k], r)
  {
    hide Do, Inv, Releases;
    if n == 0 { assert false; }
    RunKeeps(trace, events, n - 1);
    InvStoreKnown(trace[n - 1]);
    if Stuck(trace[n - 1], r) {
      k := StuckWasReleased(trace, events, n - 1, r);
    } else {
      StickStep(trace[n - 1], events[n - 1], r);
      k := n - 1;
    }
  }

  lemma GiveUpSticks(s: State)
    requires StoreOrder(s.store, s.loop) && Enabled(s, GiveUp) && s.loop.msg.ref !in s.queue
    ensures Stuck(Do(s, GiveUp), s.loop.msg.ref)
  {
  }

  /** The step puts a new message for `r` into the store. */
  predicate Revives(s: State, e: Event, r: Ref)
  {
    e.Dispatch? && e.msg.ref == r && Accepted(s.node, s.store, s.syncs, e.msg)
  }

  lemma StuckSend(s: State, m: Message, retries: nat, acked: bool, writeOk: bool, r: Ref)
    requires Stuck(s, r) && m.ref != r
    ensures Stuck(DoSend(s, m, retries, acked, writeOk), r) && DoSend(s, m, retries, acked, writeOk).store == s.store
  {
  }

  lemma StuckTake(s: State, ref: Ref, toSend: bool, writeOk: bool, r: Ref)
    requires StoreKnown(s.log, s.store) && Stuck(s, r) && ref != r
    ensures Stuck(DoTake(s, ref, toSend, writeOk), r) && DoTake(s, ref, toSend, writeOk).store == s.store
  {
    hide DoSend;
    if ref in s.store && toSend {
      StuckSend(s.(queue := s.queue - {ref}, pending := s.pending + {s.store[ref].id}), s.store[ref], 0, false, writeOk, r);
    }
  }

  lemma StuckSave(s: State, api: Api, r: Ref)
    requires Stuck(s, r) && s.loop.Sending?
    ensures Stuck(DoSave(s, api), r) && DoSave(s, api).store[r] == s.store[r]
  {
    hide SavedVersion, KeyOf;
  }

  lemma StuckStep(s: State, e: Event, r: Ref)
    requires StoreKnown(s.log, s.store) && Stuck(s, r) && Enabled(s, e) && !Revives(s, e, r)
    ensures Stuck(Do(s, e), r) && Do(s, e).store[r] == s.store[r]
  {
    hide Process, Accepted, DoSave, DoSend, DoTake;
    match e
    case Dispatch(_) =>
    case Take(ref, toSend, writeOk) => StuckTake(s, ref, toSend, writeOk, r);
    case Resend(writeOk) => StuckSend(s, s.loop.msg, s.loop.retries + 1, s.loop.acked, writeOk, r);
    case Save(api) => StuckSave(s, api, r);
    case EdgeProcess(_) =>
    case Ack(_) =>
    case _ =>
  }

  /** What may take the place of a given-up message: a delete, or, unless the
      message is itself a delete, something strictly newer. */
  predicate MayRevive(stored: Message, m: Message)
  {
    IsDeleteMessage(m) || (!IsDeleteMessage(stored) && Newer(m.version, stored.version))
  }

  /** A message given up on is never sent again, in any run, until a message that
      may revive it arrives: a resync of the same version does not, and after a
      delete not even newer inserts and updates of that name do. */
  lemma {:induction false} GivenUpStaysStuck(trace: seq<State>, events: seq<Event>, i: nat, j: nat, r: Ref)
    requires Run(trace, events) && Init(trace[0]) && i <= j < |trace| && Stuck(trace[i], r)
    requires forall k, m | i <= k < j && events[k] == Dispatch(m) && m.ref == r :: !MayRevive(trace[i].store[r], m)
    ensures Stuck(trace[j], r) && trace[j].store[r] == trace[i].store[r]
    decreases j
  {
    hide Do, Inv, Init;
    if i < j {
      GivenUpStaysStuck(trace, events, i, j - 1, r);
      RunKeeps(trace, events, j - 1);
      InvStoreKnown(trace[j - 1]);
      StuckStep(trace[j - 1], events[j - 1], r);
    }
  }

  /** ... and a message that may revive it does, at once. */
  lemma RevivedIff(s: State, m: Message, r: Ref)
    requires Stuck(s, r) && m.ref == r && Enabled(s, Dispatch(m))
    ensures Stuck(Do(s, Dispatch(m)), r) <==> !MayRevive(s.store[r], m)
  {
  }

  lemma InvStoreKnown(s: State)
    requires Inv(s)
    ensures StoreKnown(s.log, s.store)
  {
  }
}
