/** What the steps of the delivery system do get done: which messages are let in,
    which are answered, what a success point leaves, and runs that show it. */
module DeliveryProgress {
  import opened Strings
  import opened Names
  import opened Delivery
  import opened DeliverySafety
  import opened DeliveryVersions

  // ---- Which messages are let in ----

  /** After the dispatch the message is the stored one of its object, and queued. */
  predicate LetIn(s: State, m: Message)
    requires Enabled(s, Dispatch(m))
  {
    var t := Do(s, Dispatch(m));
    m.ref in t.store && t.store[m.ref] == m && m.ref in t.queue
  }

  /** A message that is not let in leaves the store and the queue as they were. */
  lemma RefusedChangesNothing(s: State, m: Message)
    requires Enabled(s, Dispatch(m)) && !LetIn(s, m)
    ensures Do(s, Dispatch(m)).store == s.store && Do(s, Dispatch(m)).queue == s.queue
  {
    hide Accepted;
  }

  /** Deletes, and updates of an object with a deletion timestamp, are let in
      whatever is stored and recorded. */
  lemma DeleteIsLetIn(s: State, m: Message)
    requires Enabled(s, Dispatch(m)) && (m.operation == Delete || m.deleting)
    ensures LetIn(s, m)
  {
  }

  /** With nothing stored for its object, an insert or update is let in exactly
      when it has a version and a UID, and every version recorded for that UID is
      strictly lower. */
  lemma FirstIsLetInIff(s: State, m: Message)
    requires Enabled(s, Dispatch(m)) && m.operation != Delete && !m.deleting && m.ref !in s.store
    ensures LetIn(s, m) <==>
              && m.version.Some? && m.uid.Some?
              && var key := SyncKey(m.ref.namespace, s.node + "." + m.uid.value);
                 key in s.syncs && s.syncs[key].Some? ==> s.syncs[key].value < m.version.value
  {
  }

  /** With a message stored for its object, exactly when it has a version and the
      stored one is neither a delete nor marked for deletion, and strictly older. */
  lemma NextIsLetInIff(s: State, m: Message)
    requires Enabled(s, Dispatch(m)) && m.operation != Delete && !m.deleting && m.ref in s.store
    requires StoreKnown(s.log, s.store)
    ensures LetIn(s, m) <==>
              && m.version.Some?
              && var x := s.store[m.ref];
                 x.operation != Delete && !x.deleting && x.version.Some? && x.version.value < m.version.value
  {
    assert Known(s.log, s.store[m.ref]);
  }

  // ---- Which messages are answered, and what they leave ----

  predicate FromController(m: Message)
  {
    m.source == EdgeController || m.source == DynamicController
  }

  /** A delete is answered exactly when it could be made, unless it is the edge's
      own of a pod; and the row is gone exactly when it could, or was not there. */
  lemma DeleteAnsweredIff(meta: map<Ref, string>, m: Message, o: Outcome)
    requires m.operation == Delete
    ensures Process(meta, m, o).ok <==> o.writeOk && !(m.ref.kind == "pod" && m.source == Edged)
    ensures m.ref !in Process(meta, m, o).meta <==> o.writeOk || m.ref !in meta
  {
  }

  /** An update is answered exactly when it is a controller's and could be written,
      unless it is a pod status that the row has already. */
  lemma UpdateAnsweredIff(meta: map<Ref, string>, m: Message, o: Outcome)
    requires m.operation == Update
    ensures Process(meta, m, o).ok <==>
              && FromController(m) && o.marshalOk && o.writeOk
              && !(m.ref.kind == "podstatus" && o.queryOk && m.ref in meta && meta[m.ref] == m.content)
    ensures !(o.marshalOk && o.writeOk) ==> Process(meta, m, o).meta == meta
    ensures o.marshalOk && o.writeOk ==> m.ref in Process(meta, m, o).meta && Process(meta, m, o).meta[m.ref] == m.content
  {
  }

  /** An insert is answered exactly when it could be written, unless it is treated
      as an update, which happens to clusterd's resources that are there, and is
      not a controller's. */
  lemma InsertAnsweredIff(meta: map<Ref, string>, m: Message, o: Outcome)
    requires m.operation == Insert
    ensures Process(meta, m, o).ok <==>
              && o.marshalOk && o.writeOk
              && (m.ref in meta && o.queryOk && m.ref.kind in {"mission", "missionlist", "edgecluster", "edgeclusterlist"} ==>
                    FromController(m))
    ensures !(o.marshalOk && o.writeOk) ==> Process(meta, m, o).meta == meta
    ensures o.marshalOk && o.writeOk && m.ref !in meta ==>
              m.ref in Process(meta, m, o).meta && Process(meta, m, o).meta[m.ref] == m.content
  {
  }

  /** Which messages are answered when every call succeeds. */
  lemma AllOkAnsweredIff(meta: map<Ref, string>, m: Message)
    ensures Process(meta, m, EDGE_OK).ok <==>
              match m.operation
              case Delete => !(m.ref.kind == "pod" && m.source == Edged)
              case Update => FromController(m) && !(m.ref.kind == "podstatus" && m.ref in meta && meta[m.ref] == m.content)
              case Insert =>
                FromController(m) || m.ref !in meta
                || m.ref.kind !in {"mission", "missionlist", "edgecluster", "edgeclusterlist"}
  {
    match m.operation
    case Insert => InsertAnsweredIff(meta, m, EDGE_OK);
    case Update => UpdateAnsweredIff(meta, m, EDGE_OK);
    case Delete => DeleteAnsweredIff(meta, m, EDGE_OK);
  }

  // ---- What a success point leaves ----

  /** An acknowledged delete takes its object out of the store, and its record
      unless the API refuses; nothing else changes there. */
  lemma DeleteSaved(s: State, api: Api)
    requires Enabled(s, Save(api)) && s.loop.msg.operation == Delete && s.loop.msg.uid.Some?
    ensures var m := s.loop.msg; var key := SyncKey(m.ref.namespace, s.node + "." + m.uid.value); var t := Do(s, Save(api));
            && t.store == s.store - {m.ref} && t.loop == Idle && t.queue == s.queue
            && t.syncs == if api.deleteOk then s.syncs - {key} else s.syncs
  {
  }

  /** An acknowledged insert or update gets its version into its record exactly
      when the record can be read, is there or can be created, and its status can
      be written; no other record changes, and the store stays. */
  lemma VersionSaved(s: State, api: Api)
    requires Enabled(s, Save(api)) && s.loop.msg.operation != Delete && s.loop.msg.uid.Some?
    ensures var m := s.loop.msg; var key := SyncKey(m.ref.namespace, s.node + "." + m.uid.value); var t := Do(s, Save(api));
            && t.store == s.store && t.loop == Idle && t.queue == s.queue
            && t.syncs - {key} == s.syncs - {key}
            && (api.getOk && api.statusOk && (key in s.syncs || api.createOk) ==> key in t.syncs && t.syncs[key] == m.version)
            && (!(api.getOk && api.statusOk && (key in s.syncs || api.createOk)) ==>
                  if key in s.syncs then key in t.syncs && t.syncs[key] == s.syncs[key]
                  else if api.getOk && api.createOk then key in t.syncs && t.syncs[key].None?
                  else key !in t.syncs)
  {
    hide BuildObjectSyncName;
    assert BuildObjectSyncName(s.node, s.loop.msg.uid.value) == s.node + "." + s.loop.msg.uid.value by { SyncNameIs(s.node, s.loop.msg.uid.value); }
  }

  lemma SyncNameIs(node: string, uid: string)
    ensures BuildObjectSyncName(node, uid) == node + "." + uid
  {
  }

  /** What carries no UID leaves store and records alone. */
  lemma UnidentifiedSaved(s: State, api: Api)
    requires Enabled(s, Save(api)) && s.loop.msg.uid.None?
    ensures Do(s, Save(api)).store == s.store && Do(s, Save(api)).syncs == s.syncs && Do(s, Save(api)).loop == Idle
  {
  }

  // ---- Runs that get there ----

  /** From every idle state with nothing stored for the object: a controller's
      update newer than what is recorded, if anything, is let in, sent, written and
      recorded. */
  lemma NewerRaisesRecord(s: State, m: Message) returns (trace: seq<State>, events: seq<Event>)
    requires s.loop == Idle && s.link == [] && m.id == |s.log| && m.ref !in s.store
    requires m.operation == Update && !m.deleting && FromController(m)
    requires !(m.ref.kind == "podstatus" && m.ref in s.meta && s.meta[m.ref] == m.content)
    requires m.version.Some? && m.uid.Some? && '.' !in m.uid.value
    requires var key := SyncKey(m.ref.namespace, s.node + "." + m.uid.value);
             key in s.syncs && s.syncs[key].Some? ==> s.syncs[key].value < m.version.value
    ensures Run(trace, events) && trace[0] == s && |trace| == 6
    ensures var key := SyncKey(m.ref.namespace, s.node + "." + m.uid.value);
            && key in trace[5].syncs && trace[5].syncs[key] == m.version
            && m.ref in trace[5].meta && trace[5].meta[m.ref] == m.content
  {
    hide Process;
    FirstIsLetInIff(s, m);
    AllOkAnsweredIff(s.meta, m);
    UpdateAnsweredIff(s.meta, m, EDGE_OK);
    trace, events := DeliverRun(s, m);
    assert trace[5] == Do(trace[4], Save(ALL_OK));
    VersionSaved(trace[4], ALL_OK);
  }

  /** From every idle state: a controller's delete is let in, sent and made, and
      then row, store entry and record are gone. */
  lemma DeleteClears(s: State, m: Message) returns (trace: seq<State>, events: seq<Event>)
    requires s.loop == Idle && s.link == [] && m.id == |s.log|
    requires m.operation == Delete && FromController(m)
    requires m.uid.Some? && '.' !in m.uid.value
    ensures Run(trace, events) && trace[0] == s && |trace| == 6
    ensures m.ref !in trace[5].meta && m.ref !in trace[5].store
    ensures SyncKey(m.ref.namespace, s.node + "." + m.uid.value) !in trace[5].syncs
  {
    hide Process;
    DeleteIsLetIn(s, m);
    AllOkAnsweredIff(s.meta, m);
    DeleteAnsweredIff(s.meta, m, EDGE_OK);
    trace, events := DeliverRun(s, m);
    assert trace[5] == Do(trace[4], Save(ALL_OK));
    DeleteSaved(trace[4], ALL_OK);
  }
}
