/** The code of the delivery system in its own form: the node's queue and
    message handler on the cloud side, the MetaManager on the edge side. Each
    method is proved against the functions of the transition system. */
module CloudHub {
  import opened Strings
  import opened Names
  import opened Delivery

  /** The channel `sendMsg` waits on; closing it is the acknowledgement. */
  class AckChannel {
    var closed: bool

    constructor ()
      ensures !closed
    {
      closed := false;
    }
  }

  /** Dispatching stores and queues the message, or only logs it. */
  lemma DispatchIs(s: State, m: Message, store: map<Ref, Message>, syncs: Syncs)
    requires s.store == store && s.syncs == syncs
    ensures Accepted(s.node, store, syncs, m) ==>
              DoDispatch(s, m) == s.(log := s.log + [m], store := store[m.ref := m], queue := s.queue + {m.ref})
    ensures !Accepted(s.node, store, syncs, m) ==> DoDispatch(s, m) == s.(log := s.log + [m])
  {
    hide Accepted;
  }

  /** What wakes `sendMsg`: the closed channel, or the timer, in which case the
      resend may fail. */
  datatype Signal = AckClosed | Timer(writeOk: bool)

  datatype SendResult = Acknowledged | GaveUp | WriteError | StillWaiting

  class NodeHub {
    const node: string
    var store: map<Ref, Message>
    var queue: set<Ref>
    var acks: map<nat, AckChannel>
    var syncs: Syncs
    var link: seq<Message>

    constructor (node: string, syncs: Syncs)
      ensures this.node == node && this.syncs == syncs
      ensures store == map[] && queue == {} && acks == map[] && link == []
    {
      this.node := node;
      this.syncs := syncs;
      store, queue, acks, link := map[], {}, map[], [];
    }

    /** The delivery system in which this hub is; `rest` gives what the hub does
        not hold. */
    ghost function View(rest: State): State
      reads this
    {
      rest.(node := node, store := store, queue := queue, syncs := syncs)
    }

    /** `CompareResourceVersion` on two present versions. */
    static function Compare(a: nat, b: nat): int
    {
      if a > b then 1 else if a == b then 0 else -1
    }

    /** Takes the step of dispatching the message. */
    method AddMessageToQueue(m: Message, ghost rest: State)
      requires forall r | r in store && !IsDeleteMessage(store[r]) :: store[r].version.Some?
      modifies this`store, this`queue
      ensures View(rest.(log := rest.log + [m])) == DoDispatch(old(View(rest)), m)
      ensures forall r | r in store && !IsDeleteMessage(store[r]) :: store[r].version.Some?
    {
      hide DoDispatch, KeyOf;
      DispatchIs(View(rest), m, store, syncs);
      if m.version.None? && !IsDeleteMessage(m) {
        return;
      }
      if !IsDeleteMessage(m) {
        if m.ref !in store {
          if m.uid.None? {
            return;
          }
          var key := KeyOf(node, m.ref, m.uid.value);
          if key in syncs && syncs[key].Some? && Compare(m.version.value, syncs[key].value) <= 0 {
            return;
          }
        }
        if m.ref in store {
          var stored := store[m.ref];
          if IsDeleteMessage(stored) || Compare(m.version.value, stored.version.value) <= 0 {
            return;
          }
        }
      }
      store := store[m.ref := m];
      queue := queue + {m.ref};
    }

    /** The ack branch of `HandleServer`: closes the channel that waits for this
        message, once, and no other. */
    method HandleAck(parent: nat)
      requires forall i, j | i in acks && j in acks && i != j :: acks[i] != acks[j]
      modifies this`acks, acks.Values
      ensures acks == old(acks) - {parent}
      ensures parent in old(acks) ==> old(acks)[parent].closed
      ensures forall i | i in old(acks) && i != parent :: old(acks)[i].closed == old(acks[i].closed)
    {
      if parent in acks {
        var channel := acks[parent];
        channel.closed := true;
        acks := acks - {parent};
      }
    }

    /** One `sendMsg`: between one and five copies go out, all of this message;
        it is acknowledged exactly when the channel closes before the timer has
        fired a fifth time and before a write fails. */
    method SendMsg(m: Message, firstOk: bool, signals: seq<Signal>) returns (result: SendResult, copies: nat)
      modifies this`acks, this`link
      ensures m.id in acks && fresh(acks[m.id]) && acks == old(acks)[m.id := acks[m.id]]
      ensures link == old(link) + seq(copies, _ => m)
      ensures !firstOk ==> copies == 0 && result == WriteError
      ensures firstOk ==> 1 <= copies <= 1 + MAX_RETRIES == 5 && copies <= 1 + |signals|
      ensures forall i | 0 <= i < copies - 1 :: signals[i] == Timer(true)
      ensures firstOk ==>
                result == if copies - 1 == |signals| then StillWaiting
                          else if signals[copies - 1].AckClosed? then Acknowledged
                          else if copies == 1 + MAX_RETRIES then GaveUp
                          else WriteError
      ensures firstOk && copies <= MAX_RETRIES && copies - 1 < |signals| ==> signals[copies - 1] != Timer(true)
    {
      var channel := new AckChannel();
      acks := acks[m.id := channel];
      var retry := 0;
      copies := 0;
      if !firstOk {
        return WriteError, 0;
      }
      link := link + [m];
      copies := 1;
      var i := 0;
      while i < |signals|
        invariant 0 <= i <= |signals| && copies == i + 1 && retry == i && retry <= MAX_RETRIES
        invariant link == old(link) + seq(copies, _ => m)
        invariant forall k | 0 <= k < i :: signals[k] == Timer(true)
        invariant acks == old(acks)[m.id := channel] && fresh(channel)
      {
        match signals[i] {
          case AckClosed =>
            return Acknowledged, copies;
          case Timer(writeOk) =>
            if retry == MAX_RETRIES {
              return GaveUp, copies;
            }
            if !writeOk {
              return WriteError, copies;
            }
            link := link + [m];
            copies := copies + 1;
            retry := retry + 1;
        }
        i := i + 1;
      }
      return StillWaiting, copies;
    }

    /** Takes the step of saving: an acknowledged delete takes its object out of
        the store and deletes the record; an acknowledged insert or update writes
        its version. */
    method SaveSuccessPoint(m: Message, api: Api, ghost rest: State)
      requires rest.loop.Sending? && rest.loop.acked && rest.loop.msg == m
      modifies this`store, this`syncs
      ensures View(rest.(loop := Idle)) == Do(old(View(rest)), Save(api))
    {
      if m.uid.None? {
        return;
      }
      var key := KeyOf(node, m.ref, m.uid.value);
      if m.operation == Delete {
        store := store - {m.ref};
        if api.deleteOk {
          syncs := syncs - {key};
        }
        return;
      }
      if !api.getOk {
        return;
      }
      if key in syncs {
        if api.statusOk {
          syncs := syncs[key := m.version];
        }
      } else {
        if !api.createOk {
          return;
        }
        syncs := syncs[key := None];
        if api.statusOk {
          syncs := syncs[key := m.version];
        }
      }
    }
  }

  /** The events of one `sendMsg` that has written so many copies. */
  function Sends(ref: Ref, copies: nat): seq<Event>
    requires copies >= 1
  {
    [Take(ref, true, true)] + seq(copies - 1, _ => Resend(true))
  }

  /** The loop of `sendMsg` in the transition system: after writing so many copies
      it holds the message it took, the copies are on the link, and it may go on
      to resend, or to give up, exactly as `SendMsg` does. */
  lemma {:induction false} SendRun(s: State, ref: Ref, copies: nat) returns (trace: seq<State>)
    requires s.loop == Idle && ref in s.queue && ref in s.store && 1 <= copies <= 1 + MAX_RETRIES
    ensures Run(trace, Sends(ref, copies)) && trace[0] == s
    ensures trace[copies].loop == Sending(s.store[ref], copies - 1, false)
    ensures trace[copies].link == s.link + seq(copies, _ => s.store[ref])
    ensures trace[copies].store == s.store && trace[copies].syncs == s.syncs
    ensures Enabled(trace[copies], GiveUp) <==> copies == 1 + MAX_RETRIES
    ensures Enabled(trace[copies], Resend(true)) <==> copies <= MAX_RETRIES
    decreases copies
  {
    if copies == 1 {
      trace := [s, Do(s, Take(ref, true, true))];
    } else {
      var before := SendRun(s, ref, copies - 1);
      var last := before[copies - 1];
      var next := Do(last, Resend(true));
      trace := before + [next];
      assert Sends(ref, copies) == Sends(ref, copies - 1) + [Resend(true)];
      RunSnoc(before, Sends(ref, copies - 1), Resend(true));
      assert next.link == last.link + [s.store[ref]];
    }
  }

  lemma RunSnoc(trace: seq<State>, events: seq<Event>, e: Event)
    requires Run(trace, events) && Enabled(trace[|events|], e)
    ensures Run(trace + [Do(trace[|events|], e)], events + [e])
  {
    hide Do, Enabled;
    var more, es := trace + [Do(trace[|events|], e)], events + [e];
    forall i | 0 <= i < |es| ensures Enabled(more[i], es[i]) && more[i + 1] == Do(more[i], es[i]) {
      if i < |events| {
        assert more[i] == trace[i] && more[i + 1] == trace[i + 1] && es[i] == events[i];
      }
    }
  }

  class MetaManager {
    var meta: map<Ref, string>

    /** `INSERT`: a row that exists is not an error and is not changed. */
    method SaveMeta(ref: Ref, content: string, writeOk: bool) returns (err: bool)
      modifies this
      ensures err == !writeOk
      ensures meta == if writeOk && ref !in old(meta) then old(meta)[ref := content] else old(meta)
    {
      if !writeOk {
        return true;
      }
      if ref !in meta {
        meta := meta[ref := content];
      }
      return false;
    }

    /** `INSERT OR REPLACE`. */
    method InsertOrUpdate(ref: Ref, content: string, writeOk: bool) returns (err: bool)
      modifies this
      ensures err == !writeOk
      ensures meta == if writeOk then old(meta)[ref := content] else old(meta)
    {
      if !writeOk {
        return true;
      }
      meta := meta[ref := content];
      return false;
    }

    method ProcessUpdate(m: Message, o: Outcome) returns (ok: bool)
      modifies this
      ensures Reply(meta, ok) == Delivery.ProcessUpdate(old(meta), m, o)
    {
      if !o.marshalOk {
        return false;
      }
      if m.ref.kind == "podstatus" && o.queryOk && m.ref in meta && meta[m.ref] == m.content {
        return false;
      }
      var err := InsertOrUpdate(m.ref, m.content, o.writeOk);
      if err {
        return false;
      }
      match m.source {
        case EdgeController | DynamicController =>
          return true;
        case FunctionManager | Edged | OtherSource =>
          return false;
      }
    }

    method ProcessInsert(m: Message, o: Outcome) returns (ok: bool)
      modifies this
      ensures Reply(meta, ok) == Delivery.ProcessInsert(old(meta), m, o)
    {
      if IsClusterdKind(m.ref.kind) && o.queryOk && m.ref in meta {
        ok := ProcessUpdate(m, o);
        return;
      }
      if !o.marshalOk {
        return false;
      }
      var err := SaveMeta(m.ref, m.content, o.writeOk);
      return !err;
    }

    method ProcessDelete(m: Message, o: Outcome) returns (ok: bool)
      modifies this
      ensures Reply(meta, ok) == Delivery.ProcessDelete(old(meta), m, o)
    {
      if !o.writeOk {
        return false;
      }
      meta := meta - {m.ref};
      if m.ref.kind == "pod" && m.source == Edged {
        return false;
      }
      return true;
    }

    /** The edge's dispatch on the operation takes the step of the transition
        system. */
    method Process(m: Message, o: Outcome) returns (ok: bool)
      modifies this
      ensures Reply(meta, ok) == Delivery.Process(old(meta), m, o)
    {
      match m.operation {
        case Insert => ok := ProcessInsert(m, o);
        case Update => ok := ProcessUpdate(m, o);
        case Delete => ok := ProcessDelete(m, o);
      }
    }
  }
}
