/** CloudHub's delivery of resource messages to one edge node, as a transition
    system: the dispatcher fills a per-node store and work queue, one write
    loop sends, resends, waits for the acknowledgement and then records the
    acknowledged version in an ObjectSync record (the "success point"); the
    edge's MetaManager writes its meta table and replies.

    The link to the edge is in order but may lose anything; acknowledgements
    may be late, repeated, reordered or lost. Every call that can fail carries
    its outcome in the event. */
module Delivery {
  import opened Strings
  import opened Names

  datatype Operation = Insert | Update | Delete

  datatype Source = EdgeController | DynamicController | FunctionManager | Edged | OtherSource

  /** A resource message. `id` is its number in dispatch order, `deleting` says
      that the object carries a deletion timestamp; `version` is the resource
      version, absent when empty; `uid` is absent when the content is not an
      object. */
  datatype Message = Message(id: nat, ref: Ref, uid: Option<string>, operation: Operation, deleting: bool,
                             version: Option<nat>, source: Source, content: string)

  predicate IsDeleteMessage(m: Message)
  {
    m.operation == Delete || m.deleting
  }

  // ---- The dispatcher: which messages enter the store ----

  datatype SyncKey = SyncKey(namespace: string, name: string)

  /** ObjectSync records; a record can exist before its version is written. */
  type Syncs = map<SyncKey, Option<nat>>

  function KeyOf(node: string, ref: Ref, uid: string): SyncKey
  {
    SyncKey(ref.namespace, BuildObjectSyncName(node, uid))
  }

  predicate Newer(a: Option<nat>, b: Option<nat>)
  {
    a.Some? && b.Some? && a.value > b.value
  }

  /** A delete always enters. Any other message needs a version, and must be
      newer than the stored message of its object, which must not be a delete;
      with nothing stored, newer than the recorded version. */
  predicate Accepted(node: string, store: map<Ref, Message>, syncs: Syncs, m: Message)
  {
    IsDeleteMessage(m) ||
    (m.version.Some? &&
     if m.ref in store then
       !IsDeleteMessage(store[m.ref]) && Newer(m.version, store[m.ref].version)
     else
       m.uid.Some? &&
       var key := KeyOf(node, m.ref, m.uid.value);
       key in syncs && syncs[key].Some? ==> Newer(m.version, syncs[key]))
  }

  // ---- The success point ----

  /** Which of the API calls in saving a success point succeed. */
  datatype Api = Api(getOk: bool, createOk: bool, statusOk: bool, deleteOk: bool)

  /** The version reaches the record: it exists or can be created, and every
      call on the way succeeds. */
  predicate Stamped(syncs: Syncs, key: SyncKey, api: Api)
  {
    api.getOk && api.statusOk && (key in syncs || api.createOk)
  }

  /** The records after an acknowledged insert or update; a created record
      whose status could not be written stays without version. */
  function SavedVersion(syncs: Syncs, key: SyncKey, version: Option<nat>, api: Api): Syncs
  {
    if Stamped(syncs, key, api) then syncs[key := version]
    else if api.getOk && api.createOk && key !in syncs then syncs[key := None]
    else syncs
  }

  // ---- The edge ----

  /** Which of the steps of processing one message succeed. */
  datatype Outcome = Outcome(marshalOk: bool, queryOk: bool, writeOk: bool)

  /** The meta table afterwards, and whether an OK went back to the cloud. */
  datatype Reply = Reply(meta: map<Ref, string>, ok: bool)

  predicate IsClusterdKind(kind: string)
  {
    kind == "mission" || kind == "missionlist" || kind == "edgecluster" || kind == "edgeclusterlist"
  }

  function ProcessUpdate(meta: map<Ref, string>, m: Message, o: Outcome): Reply
  {
    if !o.marshalOk then Reply(meta, false)
    else if m.ref.kind == "podstatus" && o.queryOk && m.ref in meta && meta[m.ref] == m.content then Reply(meta, false)
    else if !o.writeOk then Reply(meta, false)
    else Reply(meta[m.ref := m.content], m.source == EdgeController || m.source == DynamicController)
  }

  /** Inserting a row that exists is reported as success without writing. */
  function ProcessInsert(meta: map<Ref, string>, m: Message, o: Outcome): Reply
  {
    if IsClusterdKind(m.ref.kind) && o.queryOk && m.ref in meta then ProcessUpdate(meta, m, o)
    else if !o.marshalOk || !o.writeOk then Reply(meta, false)
    else Reply(if m.ref in meta then meta else meta[m.ref := m.content], true)
  }

  function ProcessDelete(meta: map<Ref, string>, m: Message, o: Outcome): Reply
  {
    if !o.writeOk then Reply(meta, false)
    else Reply(meta - {m.ref}, !(m.ref.kind == "pod" && m.source == Edged))
  }

  function Process(meta: map<Ref, string>, m: Message, o: Outcome): Reply
  {
    match m.operation
    case Insert => ProcessInsert(meta, m, o)
    case Update => ProcessUpdate(meta, m, o)
    case Delete => ProcessDelete(meta, m, o)
  }

  /** Processing writes no row but the message's own. */
  lemma ProcessFrame(meta: map<Ref, string>, m: Message, o: Outcome, ref: Ref)
    requires ref != m.ref
    ensures var r := Process(meta, m, o).meta; (ref in r <==> ref in meta) && (ref in meta ==> r[ref] == meta[ref])
  {
  }

  /** An insert the edge answers OK while a row is there that the insert does
      not overwrite: decided by what the edge sees before it processes. */
  predicate Shadowed(meta: map<Ref, string>, m: Message, o: Outcome)
  {
    m.operation == Insert && m.ref in meta && meta[m.ref] != m.content && !(IsClusterdKind(m.ref.kind) && o.queryOk)
  }

  /** "Save first, then acknowledge" holds of an acknowledged insert or update
      exactly when it is not a shadowed insert. */
  lemma AckedMeansCommitted(meta: map<Ref, string>, m: Message, o: Outcome)
    requires m.operation != Delete && Process(meta, m, o).ok
    ensures m.ref in Process(meta, m, o).meta
    ensures Process(meta, m, o).meta[m.ref] == m.content <==> !Shadowed(meta, m, o)
  {
  }

  /** The row holds the message's content afterwards, decided by what the edge
      sees before: it does already, or the message is written. */
  predicate Lands(meta: map<Ref, string>, m: Message, o: Outcome)
  {
    || (m.ref in meta && meta[m.ref] == m.content)
    || (o.marshalOk && o.writeOk &&
        (m.operation == Insert && m.ref in meta ==> IsClusterdKind(m.ref.kind) && o.queryOk))
  }

  lemma LandsIff(meta: map<Ref, string>, m: Message, o: Outcome)
    requires m.operation != Delete
    ensures Lands(meta, m, o) <==> m.ref in Process(meta, m, o).meta && Process(meta, m, o).meta[m.ref] == m.content
  {
  }

  // ---- The system ----

  /** The write loop: between messages, or inside one `sendMsg`. */
  datatype Loop = Idle | Sending(msg: Message, retries: nat, acked: bool)

  const MAX_RETRIES: nat := 4

  /** `log` holds every message ever dispatched, at its id; `sent` the newest
      message written to the link per object; `seen` the newest one the edge
      took off it; `replied` the ids it answered OK; `committed` those of them
      after which the row held the message's content. */
  datatype State = State(
    node: string,
    store: map<Ref, Message>,
    queue: set<Ref>,
    loop: Loop,
    pending: set<nat>,
    syncs: Syncs,
    link: seq<Message>,
    meta: map<Ref, string>,
    log: seq<Message>,
    sent: map<Ref, nat>,
    seen: map<Ref, nat>,
    replied: set<nat>,
    committed: set<nat>)

  predicate Init(s: State)
  {
    s.store == map[] && s.queue == {} && s.loop == Idle && s.pending == {} && s.link == [] && s.log == [] &&
    s.sent == map[] && s.seen == map[] && s.replied == {} && s.committed == {}
  }

  /** `toSend` is false when the node is not connected, or the message is not
      meant for the edge. */
  datatype Event =
    | Dispatch(msg: Message)                            // addMessageToQueue
    | Take(ref: Ref, toSend: bool, writeOk: bool)       // the loop takes a key and, unless it skips it, first sends it
    | Resend(writeOk: bool)                             // the timer fires
    | GiveUp                                            // the timer fires after the last retry
    | Ack(id: nat)                                      // a response from the edge reaches HandleServer
    | Save(api: Api)                                    // the loop sees the acknowledgement
    | EdgeProcess(outcome: Outcome)                     // the edge processes the next message on the link
    | Lose(at: nat)                                     // the link loses a message
    | RecordGone(key: SyncKey)                          // a record is deleted by someone else
    | ForeignSave(from: string, ref: Ref, uid: string, version: Option<nat>) // another node's loop writes a record

  predicate Enabled(s: State, e: Event)
  {
    match e
    case Dispatch(m) => m.id == |s.log| && (m.uid.Some? ==> '.' !in m.uid.value)
    case Take(ref, _, _) => s.loop == Idle && ref in s.queue
    case Resend(_) => s.loop.Sending? && s.loop.retries < MAX_RETRIES
    case GiveUp => s.loop.Sending? && s.loop.retries == MAX_RETRIES
    case Ack(id) => id in s.replied
    case Save(_) => s.loop.Sending? && s.loop.acked
    case EdgeProcess(_) => s.link != []
    case Lose(i) => i < |s.link|
    case RecordGone(_) => true
    case ForeignSave(from, _, uid, _) => from != s.node && '.' !in uid
  }

  function Ignored(s: State, m: Message): State
  {
    s.(log := s.log + [m])
  }

  function Enqueued(s: State, m: Message): State
  {
    s.(log := s.log + [m], store := s.store[m.ref := m], queue := s.queue + {m.ref})
  }

  function DoDispatch(s: State, m: Message): State
  {
    if Accepted(s.node, s.store, s.syncs, m) then Enqueued(s, m) else Ignored(s, m)
  }

  /** A write to the link inside `sendMsg`: on failure the loop gives the key
      back to the queue. */
  function DoSend(s: State, m: Message, retries: nat, acked: bool, writeOk: bool): State
  {
    if writeOk then
      s.(loop := Sending(m, retries, acked), link := s.link + [m], sent := s.sent[m.ref := m.id])
    else s.(loop := Idle, queue := s.queue + {m.ref})
  }

  function DoTake(s: State, ref: Ref, toSend: bool, writeOk: bool): State
  {
    var t := s.(queue := s.queue - {ref});
    if ref !in s.store || !toSend then t
    else DoSend(t.(pending := s.pending + {s.store[ref].id}), s.store[ref], 0, false, writeOk)
  }

  function DoAck(s: State, id: nat): State
  {
    if id !in s.pending then s
    else
      var t := s.(pending := s.pending - {id});
      if s.loop.Sending? && s.loop.msg.id == id then t.(loop := s.loop.(acked := true)) else t
  }

  function DoSaveDelete(s: State, m: Message, key: SyncKey, deleteOk: bool): State
  {
    s.(loop := Idle, store := s.store - {m.ref}, syncs := if deleteOk then s.syncs - {key} else s.syncs)
  }

  function DoSave(s: State, api: Api): State
    requires s.loop.Sending?
  {
    var m := s.loop.msg;
    if m.uid.None? then s.(loop := Idle)
    else
      var key := KeyOf(s.node, m.ref, m.uid.value);
      if m.operation == Delete then DoSaveDelete(s, m, key, api.deleteOk)
      else s.(loop := Idle, syncs := SavedVersion(s.syncs, key, m.version, api))
  }

  function DoEdge(s: State, o: Outcome): State
    requires s.link != []
  {
    var m := s.link[0];
    var r := Process(s.meta, m, o);
    var replied := if r.ok then s.replied + {m.id} else s.replied;
    s.(link := s.link[1..], meta := r.meta, seen := s.seen[m.ref := m.id], replied := replied,
       committed := if m.operation != Delete && m.id in replied && m.ref in r.meta && r.meta[m.ref] == m.content
                    then s.committed + {m.id} else s.committed)
  }

  function Do(s: State, e: Event): State
    requires Enabled(s, e)
  {
    match e
    case Dispatch(m) => DoDispatch(s, m)
    case Take(ref, toSend, writeOk) => DoTake(s, ref, toSend, writeOk)
    case Resend(writeOk) => DoSend(s, s.loop.msg, s.loop.retries + 1, s.loop.acked, writeOk)
    case GiveUp => s.(loop := Idle)
    case Ack(id) => DoAck(s, id)
    case Save(api) => DoSave(s, api)
    case EdgeProcess(o) => DoEdge(s, o)
    case Lose(i) => s.(link := s.link[..i] + s.link[i + 1..])
    case RecordGone(key) => s.(syncs := s.syncs - {key})
    case ForeignSave(from, ref, uid, version) => s.(syncs := s.syncs[KeyOf(from, ref, uid) := version])
  }

  /** `trace` is a run from its first state: each state follows from the one
      before by an enabled event. */
  ghost predicate Run(trace: seq<State>, events: seq<Event>)
  {
    |trace| == |events| + 1 &&
    forall i | 0 <= i < |events| :: Enabled(trace[i], events[i]) && trace[i + 1] == Do(trace[i], events[i])
  }
}
