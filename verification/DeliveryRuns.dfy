/** What the success points of a whole run say about the edge. */
module DeliveryRuns {
  import opened Names
  import opened Delivery
  import opened DeliverySafety

  lemma {:induction false} RunKeeps(trace: seq<State>, events: seq<Event>, n: nat)
    requires Run(trace, events) && Init(trace[0]) && n < |trace|
    ensures Inv(trace[n]) && trace[n].node == trace[0].node
  {
    hide Do, Inv, Init;
    if n == 0 {
      InitInv(trace[0]);
    } else {
      RunKeeps(trace, events, n - 1);
      StepKeeps(trace[n - 1], events[n - 1]);
      StepGrows(trace[n - 1], events[n - 1]); StepReplies(trace[n - 1], events[n - 1]);
    }
  }

  /** At step `j` the edge processed `m`. */
  ghost predicate ProcessedAt(trace: seq<State>, events: seq<Event>, j: nat, m: Message)
  {
    j < |events| && j < |trace| && events[j].EdgeProcess? && trace[j].link != [] && trace[j].link[0] == m
  }

  /** At step `j` the edge processed `m` and answered OK. */
  ghost predicate AnsweredAt(trace: seq<State>, events: seq<Event>, j: nat, m: Message)
  {
    ProcessedAt(trace, events, j, m) && Process(trace[j].meta, m, events[j].outcome).ok
  }

  lemma {:induction false} RepliedWasAnswered(trace: seq<State>, events: seq<Event>, n: nat, id: nat) returns (j: nat)
    requires Run(trace, events) && Init(trace[0]) && n < |trace| && id in trace[n].replied
    ensures id < |trace[n].log|
    ensures j < n && AnsweredAt(trace, events, j, trace[n].log[id])
  {
    hide Do, Process;
    RunKeeps(trace, events, n);
    if n == 0 { assert false; }
    RunKeeps(trace, events, n - 1);
    var s := trace[n - 1];
    StepGrows(s, events[n - 1]); StepReplies(s, events[n - 1]);
    if id in s.replied {
      j := RepliedWasAnswered(trace, events, n - 1, id);
    } else {
      j := n - 1;
      assert Known(s.log, s.link[0]);
    }
  }

  /** At step `j` the edge processed `m`, and the row held its content then. */
  ghost predicate LandedAt(trace: seq<State>, events: seq<Event>, j: nat, m: Message)
  {
    ProcessedAt(trace, events, j, m) && Lands(trace[j].meta, m, events[j].outcome)
  }

  lemma {:induction false} CommittedLanded(trace: seq<State>, events: seq<Event>, n: nat, id: nat) returns (j: nat)
    requires Run(trace, events) && Init(trace[0]) && n < |trace| && id in trace[n].committed
    ensures id < |trace[n].log|
    ensures j < n && LandedAt(trace, events, j, trace[n].log[id])
  {
    hide Do, Process, Lands;
    RunKeeps(trace, events, n);
    if n == 0 { assert false; }
    RunKeeps(trace, events, n - 1);
    StepGrows(trace[n - 1], events[n - 1]); StepReplies(trace[n - 1], events[n - 1]);
    var s, e := trace[n - 1], events[n - 1];
    if id in s.committed {
      j := CommittedLanded(trace, events, n - 1, id);
    } else {
      j := n - 1;
      assert Known(s.log, s.link[0]);
      LandsIff(s.meta, s.link[0], e.outcome);
    }
  }

  /** The edge sees the messages of an object in dispatch order. */
  lemma SeenStep(s: State, e: Event, r: Ref)
    requires Inv(s) && Enabled(s, e) && r in s.seen
    ensures r in Do(s, e).seen && s.seen[r] <= Do(s, e).seen[r]
  {
    hide Accepted, Process, SavedVersion, KeyOf;
    match e
    case Dispatch(_) =>
    case Take(_, _, _) =>
    case Resend(_) =>
    case GiveUp =>
    case Ack(_) =>
    case Save(_) =>
    case EdgeProcess(_) => assert s.link[0] == s.link[0];
    case Lose(_) =>
    case RecordGone(_) =>
    case ForeignSave(_, _, _, _) =>
  }

  lemma {:induction false} SeenGrows(trace: seq<State>, events: seq<Event>, i: nat, n: nat, r: Ref)
    requires Run(trace, events) && Init(trace[0]) && i <= n < |trace| && r in trace[i].seen
    ensures r in trace[n].seen && trace[i].seen[r] <= trace[n].seen[r]
    decreases n
  {
    hide Do, Inv, Init;
    if i < n {
      SeenGrows(trace, events, i, n - 1, r);
      RunKeeps(trace, events, n - 1);
      SeenStep(trace[n - 1], events[n - 1], r);
    }
  }

  /** The meta table changes only when the edge processes a message. */
  lemma OtherStepsKeepMeta(s: State, e: Event)
    requires Enabled(s, e) && !e.EdgeProcess?
    ensures Do(s, e).meta == s.meta
  {
    hide Accepted, SavedVersion, KeyOf;
    match e
    case Dispatch(_) =>
    case Take(_, _, _) =>
    case Resend(_) =>
    case Ack(_) =>
    case Save(_) =>
    case _ =>
  }

  ghost predicate Holds(meta: map<Ref, string>, m: Message)
  {
    m.ref in meta && meta[m.ref] == m.content
  }

  /** While `m` is the newest message seen of its object, a row that holds its
      content goes on doing so. */
  lemma HoldsStep(s: State, e: Event, m: Message)
    requires Inv(s) && Enabled(s, e) && Known(s.log, m) && m.operation != Delete && Holds(s.meta, m)
    requires m.ref in Do(s, e).seen && Do(s, e).seen[m.ref] == m.id
    ensures Holds(Do(s, e).meta, m)
  {
    hide Process;
    if e.EdgeProcess? {
      var x := s.link[0];
      assert Known(s.log, x);
      if x.ref == m.ref {
        assert x == m;
        LandsIff(s.meta, m, e.outcome);
      } else {
        ProcessFrame(s.meta, x, e.outcome, m.ref);
      }
    } else {
      OtherStepsKeepMeta(s, e);
    }
  }

  lemma LandedIsKnown(trace: seq<State>, events: seq<Event>, j: nat, m: Message)
    requires Run(trace, events) && Init(trace[0]) && m.operation != Delete && LandedAt(trace, events, j, m)
    ensures j + 1 < |trace| && Known(trace[j + 1].log, m) && Holds(trace[j + 1].meta, m)
    ensures m.ref in trace[j + 1].seen && trace[j + 1].seen[m.ref] == m.id
  {
    hide Process, Lands;
    RunKeeps(trace, events, j);
    assert Known(trace[j].log, trace[j].link[0]);
    LandsIff(trace[j].meta, m, events[j].outcome);
  }

  /** A row that once held the content of `m` still does when `m` is the newest
      message seen of its object. */
  lemma {:induction false} LandedStays(trace: seq<State>, events: seq<Event>, j: nat, n: nat, m: Message)
    requires Run(trace, events) && Init(trace[0]) && j < n < |trace| && m.operation != Delete
    requires LandedAt(trace, events, j, m) && m.ref in trace[n].seen && trace[n].seen[m.ref] == m.id
    ensures Known(trace[n].log, m) && Holds(trace[n].meta, m)
    decreases n
  {
    hide Do, Inv, Init, Process, Lands, Holds;
    LandedIsKnown(trace, events, j, m);
    if j + 1 < n {
      SeenGrows(trace, events, j + 1, n - 1, m.ref);
      SeenGrows(trace, events, n - 1, n, m.ref);
      LandedStays(trace, events, j, n - 1, m);
      RunKeeps(trace, events, n - 1);
      StepGrows(trace[n - 1], events[n - 1]);
      HoldsStep(trace[n - 1], events[n - 1], m);
    }
  }

  lemma {:induction false} RepliedGrows(trace: seq<State>, events: seq<Event>, i: nat, n: nat)
    requires Run(trace, events) && i <= n < |trace|
    ensures trace[i].replied <= trace[n].replied && trace[i].log <= trace[n].log
    decreases n
  {
    hide Do;
    if i < n {
      RepliedGrows(trace, events, i, n - 1);
      StepReplies(trace[n - 1], events[n - 1]);
      StepGrows(trace[n - 1], events[n - 1]);
    }
  }

  /** What an acknowledged message means in every later state: the edge has not
      gone back behind it, and while it is the newest message seen of its object
      the row is as it left it. */
  lemma AcknowledgedStays(trace: seq<State>, events: seq<Event>, k: nat, n: nat)
    requires Run(trace, events) && Init(trace[0]) && k <= n < |trace|
    requires trace[k].loop.Sending? && trace[k].loop.acked
    ensures var m := trace[k].loop.msg; Answered(trace[n].seen, trace[n].meta, trace[n].committed, m)
  {
    hide Do, Init, Answered;
    RunKeeps(trace, events, k);
    RunKeeps(trace, events, n);
    RepliedGrows(trace, events, k, n);
    var m := trace[k].loop.msg;
    assert Known(trace[k].log, m) && Known(trace[n].log, m);
    assert m.id in trace[n].replied;
  }

  /** Whenever the loop records or deletes a success point, the edge has
      answered that message before, and at that moment the edge's row is what
      the message asked for: gone after a delete, the message's content after
      an update. After an insert it is the message's content exactly when at some
      processing the insert was written or found its content there. */
  lemma SuccessPointMeansStored(trace: seq<State>, events: seq<Event>, i: nat)
    requires Run(trace, events) && Init(trace[0]) && i < |events| && events[i].Save?
    ensures trace[i].loop.Sending?
    ensures var m := trace[i].loop.msg; var meta := trace[i].meta;
            && (exists j: nat :: j < i && AnsweredAt(trace, events, j, m))
            && (m.operation == Delete ==> m.ref !in meta)
            && (m.operation == Update ==> m.ref in meta && meta[m.ref] == m.content)
            && (m.operation == Insert ==> m.ref in meta)
    ensures var m := trace[i].loop.msg;
            m.operation == Insert ==>
              (trace[i].meta[m.ref] == m.content <==> exists j: nat :: j < i && LandedAt(trace, events, j, m))
  {
    hide Process, Lands;
    RunKeeps(trace, events, i);
    var s := trace[i];
    var m := s.loop.msg;
    var j := RepliedWasAnswered(trace, events, i, m.id);
    assert Answered(s.seen, s.meta, s.committed, s.log[m.id]);
    assert s.seen[m.ref] == m.id;
    if m.operation == Insert {
      if m.id in s.committed {
        var k := CommittedLanded(trace, events, i, m.id);
      }
      forall k: nat | k < i && LandedAt(trace, events, k, m) ensures s.meta[m.ref] == m.content {
        LandedStays(trace, events, k, i, m);
      }
    }
  }
}
