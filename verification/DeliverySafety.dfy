/** What every run of the delivery system keeps. */
module DeliverySafety {
  import opened Names
  import opened Delivery

  // ---- The invariant, part by part ----

  /** The message is the dispatched message of its id. */
  predicate Known(log: seq<Message>, m: Message)
  {
    m.id < |log| && log[m.id] == m
  }

  ghost predicate StoreKnown(log: seq<Message>, store: map<Ref, Message>)
  {
    forall r | r in store :: Known(log, store[r]) && store[r].ref == r
  }

  ghost predicate LinkKnown(log: seq<Message>, link: seq<Message>)
  {
    forall i | 0 <= i < |link| :: Known(log, link[i])
  }

  ghost predicate Numbered(log: seq<Message>)
  {
    forall i | 0 <= i < |log| :: log[i].id == i
  }

  ghost predicate Below(ids: set<nat>, n: nat)
  {
    forall id | id in ids :: id < n
  }

  /** Per object, the link carries messages in dispatch order, none newer than
      the newest sent and none older than the newest seen. */
  ghost predicate LinkInOrder(link: seq<Message>)
  {
    forall i, j | 0 <= i < j < |link| && link[i].ref == link[j].ref :: link[i].id <= link[j].id
  }

  ghost predicate LinkBetween(link: seq<Message>, seen: map<Ref, nat>, sent: map<Ref, nat>)
  {
    forall i | 0 <= i < |link| ::
      && link[i].ref in sent && link[i].id <= sent[link[i].ref]
      && (link[i].ref in seen ==> seen[link[i].ref] <= link[i].id)
  }

  ghost predicate SeenWasSent(seen: map<Ref, nat>, sent: map<Ref, nat>)
  {
    forall r | r in seen :: r in sent && seen[r] <= sent[r]
  }

  ghost predicate StoredIsNewest(sent: map<Ref, nat>, store: map<Ref, Message>, n: nat)
  {
    forall r | r in sent :: sent[r] < n && (r in store ==> sent[r] <= store[r].id)
  }

  /** The loop's message is known, sent, the newest sent for its object, and
      only acknowledged when the edge has answered it. */
  ghost predicate LoopSound(log: seq<Message>, loop: Loop, sent: map<Ref, nat>, replied: set<nat>)
  {
    loop.Sending? ==>
      && Known(log, loop.msg) && loop.retries <= MAX_RETRIES
      && loop.msg.ref in sent && sent[loop.msg.ref] == loop.msg.id
      && (loop.acked ==> loop.msg.id in replied)
  }

  /** The edge answered message `m`: its row is as `m` left it for as long as
      `m` is the newest message seen for its object. An insert that was answered
      without being written is the only answered message not committed. */
  ghost predicate Answered(seen: map<Ref, nat>, meta: map<Ref, string>, committed: set<nat>, m: Message)
  {
    && m.ref in seen && m.id <= seen[m.ref]
    && (m.operation == Delete ==> m.id !in committed)
    && (m.operation == Update ==> m.id in committed)
    && (seen[m.ref] == m.id ==>
          if m.operation == Delete then m.ref !in meta
          else m.ref in meta && (meta[m.ref] == m.content <==> m.id in committed))
  }

  ghost predicate Durable(log: seq<Message>, seen: map<Ref, nat>, meta: map<Ref, string>,
                          replied: set<nat>, committed: set<nat>)
  {
    forall id | id in replied && id < |log| :: Answered(seen, meta, committed, log[id])
  }

  ghost predicate Inv(s: State)
  {
    && StoreKnown(s.log, s.store)
    && LinkKnown(s.log, s.link)
    && Numbered(s.log)
    && Below(s.replied, |s.log|)
    && s.committed <= s.replied
    && LinkInOrder(s.link)
    && LinkBetween(s.link, s.seen, s.sent)
    && SeenWasSent(s.seen, s.sent)
    && StoredIsNewest(s.sent, s.store, |s.log|)
    && LoopSound(s.log, s.loop, s.sent, s.replied)
    && Durable(s.log, s.seen, s.meta, s.replied, s.committed)
  }

  // ---- Each step keeps it ----

  lemma LogGrows(s: State, m: Message)
    requires Inv(s) && m.id == |s.log|
    ensures Inv(Ignored(s, m))
  {
    var log := s.log + [m];
    forall r | r in s.store ensures Known(log, s.store[r]) { assert Known(s.log, s.store[r]); }
    forall i | 0 <= i < |s.link| ensures Known(log, s.link[i]) { assert Known(s.log, s.link[i]); }
    forall id | id in s.replied ensures id < |log| && Answered(s.seen, s.meta, s.committed, log[id]) {
      assert Answered(s.seen, s.meta, s.committed, s.log[id]);
    }
  }

  lemma EnqueueKeeps(s: State, m: Message)
    requires Inv(s) && m.id == |s.log|
    ensures Inv(Enqueued(s, m))
  {
    LogGrows(s, m);
    var t := Enqueued(s, m);
    assert StoreKnown(t.log, t.store);
    assert StoredIsNewest(t.sent, t.store, |t.log|);
  }

  lemma SendKeeps(s: State, m: Message, retries: nat, acked: bool, writeOk: bool)
    requires Inv(s) && Known(s.log, m) && retries <= MAX_RETRIES
    requires m.ref in s.sent ==> s.sent[m.ref] <= m.id
    requires m.ref in s.store ==> m.id <= s.store[m.ref].id
    requires acked ==> m.id in s.replied
    ensures Inv(DoSend(s, m, retries, acked, writeOk))
  {
    var t := DoSend(s, m, retries, acked, writeOk);
    if writeOk {
      assert LinkKnown(t.log, t.link);
      assert LinkInOrder(t.link);
      assert LinkBetween(t.link, t.seen, t.sent);
      assert SeenWasSent(t.seen, t.sent);
      assert StoredIsNewest(t.sent, t.store, |t.log|);
    }
  }

  lemma TakeKeeps(s: State, ref: Ref, toSend: bool, writeOk: bool)
    requires Inv(s) && s.loop == Idle
    ensures Inv(DoTake(s, ref, toSend, writeOk))
  {
    if ref in s.store && toSend {
      var m := s.store[ref];
      SendKeeps(s.(queue := s.queue - {ref}, pending := s.pending + {m.id}), m, 0, false, writeOk);
    }
  }

  lemma LoseKeeps(s: State, i: nat)
    requires Inv(s) && i < |s.link|
    ensures Inv(s.(link := s.link[..i] + s.link[i + 1..]))
  {
    var link := s.link[..i] + s.link[i + 1..];
    assert forall j | 0 <= j < |link| :: link[j] == s.link[if j < i then j else j + 1];
  }

  lemma SaveDeleteKeeps(s: State, m: Message, key: SyncKey, deleteOk: bool)
    requires Inv(s)
    ensures Inv(DoSaveDelete(s, m, key, deleteOk))
  {
  }

  lemma SaveKeeps(s: State, api: Api)
    requires Inv(s) && s.loop.Sending?
    ensures Inv(DoSave(s, api))
  {
    var m := s.loop.msg;
    if m.uid.Some? { SaveDeleteKeeps(s, m, KeyOf(s.node, m.ref, m.uid.value), api.deleteOk); }
  }

  lemma EdgeLinkKeeps(s: State, o: Outcome)
    requires Inv(s) && s.link != []
    ensures var t := DoEdge(s, o);
            LinkKnown(t.log, t.link) && LinkInOrder(t.link) && LinkBetween(t.link, t.seen, t.sent) && SeenWasSent(t.seen, t.sent)
  {
    var link := s.link[1..];
    assert forall i | 0 <= i < |link| :: link[i] == s.link[i + 1];
    assert s.link[0] == s.link[0];
  }

  /** The message being processed becomes the newest seen of its object: if
      the edge has answered it, now or before, the row is as it left it. */
  lemma AnswersProcessed(s: State, o: Outcome)
    requires Inv(s) && s.link != []
    ensures var t := DoEdge(s, o); s.link[0].id in t.replied ==> Answered(t.seen, t.meta, t.committed, s.link[0])
  {
    var m := s.link[0];
    assert Known(s.log, m);
    if m.id in s.replied { assert Answered(s.seen, s.meta, s.committed, s.log[m.id]); }
  }

  /** Answers to other messages still hold. */
  lemma AnswersKept(s: State, o: Outcome, id: nat)
    requires Inv(s) && s.link != [] && id in s.replied && id != s.link[0].id
    ensures var t := DoEdge(s, o); Answered(t.seen, t.meta, t.committed, s.log[id])
  {
    assert Known(s.log, s.link[0]);
    assert Answered(s.seen, s.meta, s.committed, s.log[id]);
    if s.log[id].ref != s.link[0].ref { ProcessFrame(s.meta, s.link[0], o, s.log[id].ref); }
  }

  lemma EdgeKeeps(s: State, o: Outcome)
    requires Inv(s) && s.link != []
    ensures Inv(DoEdge(s, o))
  {
    EdgeLinkKeeps(s, o);
    assert Known(s.log, s.link[0]);
    AnswersProcessed(s, o);
    forall id | id in s.replied && id != s.link[0].id { AnswersKept(s, o, id); }
  }

  lemma DispatchKeeps(s: State, m: Message)
    requires Inv(s) && Enabled(s, Dispatch(m))
    ensures Inv(DoDispatch(s, m))
  {
    LogGrows(s, m);
    EnqueueKeeps(s, m);
  }

  lemma AckKeeps(s: State, id: nat)
    requires Inv(s) && id in s.replied
    ensures Inv(DoAck(s, id))
  {
  }

  /** Every step keeps the invariant. */
  lemma StepKeeps(s: State, e: Event)
    requires Inv(s) && Enabled(s, e)
    ensures Inv(Do(s, e))
  {
    match e
    case Dispatch(m) => DispatchKeeps(s, m);
    case Take(ref, toSend, writeOk) => TakeKeeps(s, ref, toSend, writeOk);
    case Resend(writeOk) => SendKeeps(s, s.loop.msg, s.loop.retries + 1, s.loop.acked, writeOk);
    case Ack(id) => AckKeeps(s, id);
    case Save(api) => SaveKeeps(s, api);
    case EdgeProcess(o) => EdgeKeeps(s, o);
    case Lose(i) => LoseKeeps(s, i);
    case _ =>
  }

  lemma InitInv(s: State)
    requires Init(s)
    ensures Inv(s)
  {
  }

  /** The node stays, the log only grows. */
  lemma StepGrows(s: State, e: Event)
    requires Enabled(s, e)
    ensures Do(s, e).node == s.node && s.log <= Do(s, e).log
  {
    hide Accepted, Process, SavedVersion, KeyOf;
    match e
    case Dispatch(_) =>
    case Take(_, _, _) =>
    case Resend(_) =>
    case GiveUp =>
    case Ack(_) =>
    case Save(_) =>
    case EdgeProcess(_) =>
    case Lose(_) =>
    case RecordGone(_) =>
    case ForeignSave(_, _, _, _) =>
  }

  /** Ids enter `replied` and `committed` only when the edge processes that
      message. */
  lemma StepReplies(s: State, e: Event)
    requires Enabled(s, e)
    ensures s.replied <= Do(s, e).replied && s.committed <= Do(s, e).committed
    ensures !e.EdgeProcess? ==> Do(s, e).replied == s.replied && Do(s, e).committed == s.committed
    ensures e.EdgeProcess? ==> Do(s, e) == DoEdge(s, e.outcome)
  {
    hide Accepted, Process, SavedVersion, KeyOf;
    match e
    case Dispatch(_) =>
    case Take(_, _, _) =>
    case Resend(_) =>
    case GiveUp =>
    case Ack(_) =>
    case Save(_) =>
    case EdgeProcess(_) =>
    case Lose(_) =>
    case RecordGone(_) =>
    case ForeignSave(_, _, _, _) =>
  }
}
