/** The phase of a pod, counted from its container statuses. */
module PodPhase {
  import opened Strings

  /** Any of the three state pointers may be set; exit codes as integers. */
  datatype Status = Status(
    name: string, running: bool, terminated: Option<int>, waiting: bool, lastTerminated: Option<int>)

  /** `OnFailure` also stands for any policy text that is neither of the others. */
  datatype Policy = Always | OnFailure | Never

  datatype Phase = Pending | Running | Succeeded | Failed

  datatype PodSpec = PodSpec(initContainers: seq<string>, containers: seq<string>, policy: Policy)

  function Find(info: seq<Status>, name: string): Option<Status>
  {
    if info == [] then None
    else if info[0].name == name then Some(info[0])
    else Find(info[1..], name)
  }

  method GetContainerStatus(info: seq<Status>, name: string) returns (r: Option<Status>)
    ensures r == Find(info, name)
    ensures r.None? ==> forall i | 0 <= i < |info| :: info[i].name != name
    ensures r.Some? ==>
              exists i | 0 <= i < |info| :: r.value == info[i] && info[i].name == name && forall j | 0 <= j < i :: info[j].name != name
  {
    for i := 0 to |info|
      invariant Find(info, name) == Find(info[i..], name)
      invariant forall j | 0 <= j < i :: info[j].name != name
    {
      if info[i].name == name {
        return Some(info[i]);
      }
    }
    assert info[|info|..] == [];
    return None;
  }

  // ---- What a status says ----

  datatype InitOutcome = InitPending | InitDone | InitFailed

  function Exited(code: int): InitOutcome
  {
    if code == 0 then InitDone else InitFailed
  }

  function InitOf(st: Option<Status>): InitOutcome
  {
    if st.None? || st.value.running then InitPending
    else if st.value.terminated.Some? then Exited(st.value.terminated.value)
    else if st.value.waiting && st.value.lastTerminated.Some? then Exited(st.value.lastTerminated.value)
    else InitPending
  }

  /** A container that waits after having terminated is restarting. */
  datatype Outcome = Unknown | IsRunning | Waits | Restarts | Exits(code: int)

  function OutcomeOf(st: Option<Status>): Outcome
  {
    if st.None? then Unknown
    else if st.value.running then IsRunning
    else if st.value.terminated.Some? then Exits(st.value.terminated.value)
    else if !st.value.waiting then Unknown
    else if st.value.lastTerminated.Some? then Restarts
    else Waits
  }

  /** What each outcome says about the status: of the three states, running comes
      before terminated and terminated before waiting. */
  lemma OutcomeIff(st: Option<Status>)
    ensures OutcomeOf(st) == IsRunning <==> st.Some? && st.value.running
    ensures forall code :: OutcomeOf(st) == Exits(code) <==> st.Some? && !st.value.running && st.value.terminated == Some(code)
    ensures OutcomeOf(st) == Restarts <==>
              st.Some? && !st.value.running && st.value.terminated.None? && st.value.waiting && st.value.lastTerminated.Some?
    ensures OutcomeOf(st) == Waits <==>
              st.Some? && !st.value.running && st.value.terminated.None? && st.value.waiting && st.value.lastTerminated.None?
  {
  }

  /** An init container is done when it, or its last run while it waits for the
      next, exited with 0, failed when with anything else, pending otherwise. */
  lemma InitIff(st: Option<Status>)
    ensures InitOf(st) == InitDone <==>
              st.Some? && !st.value.running &&
              (st.value.terminated == Some(0)
               || (st.value.terminated.None? && st.value.waiting && st.value.lastTerminated == Some(0)))
    ensures InitOf(st) == InitFailed <==>
              st.Some? && !st.value.running &&
              ((st.value.terminated.Some? && st.value.terminated.value != 0)
               || (st.value.terminated.None? && st.value.waiting && st.value.lastTerminated.Some? && st.value.lastTerminated.value != 0))
  {
  }

  predicate SomeInit(spec: PodSpec, info: seq<Status>, o: InitOutcome)
  {
    exists c | c in spec.initContainers :: InitOf(Find(info, c)) == o
  }

  predicate SomeMain(spec: PodSpec, info: seq<Status>, o: Outcome)
  {
    exists c | c in spec.containers :: OutcomeOf(Find(info, c)) == o
  }

  /** Init containers are done with, and every container has left the states
      before running. */
  predicate Started(spec: PodSpec, info: seq<Status>)
  {
    && (spec.policy == Never ==> !SomeInit(spec, info, InitFailed))
    && !SomeInit(spec, info, InitPending)
    && !SomeMain(spec, info, Waits)
    && !SomeMain(spec, info, Unknown)
    && spec.containers != []
  }

  predicate AllExitedWell(spec: PodSpec, info: seq<Status>)
  {
    forall c | c in spec.containers :: OutcomeOf(Find(info, c)) == Exits(0)
  }

  /** The phase, without counting. */
  function PhaseOf(spec: PodSpec, info: seq<Status>): Phase
  {
    if spec.policy == Never && SomeInit(spec, info, InitFailed) then Failed
    else if !Started(spec, info) then Pending
    else if spec.policy == Always || SomeMain(spec, info, IsRunning) then Running
    else if AllExitedWell(spec, info) then Succeeded
    else if spec.policy == Never then Failed
    else Running
  }

  // ---- The counting loops ----

  method CountInit(spec: PodSpec, info: seq<Status>) returns (pending: nat, failed: nat, initialized: nat)
    ensures pending > 0 <==> SomeInit(spec, info, InitPending)
    ensures failed > 0 <==> SomeInit(spec, info, InitFailed)
    ensures pending + failed + initialized == |spec.initContainers|
  {
    hide Find;
    pending, failed, initialized := 0, 0, 0;
    for i := 0 to |spec.initContainers|
      invariant pending > 0 <==> exists k | 0 <= k < i :: InitOf(Find(info, spec.initContainers[k])) == InitPending
      invariant failed > 0 <==> exists k | 0 <= k < i :: InitOf(Find(info, spec.initContainers[k])) == InitFailed
      invariant pending + failed + initialized == i
    {
      var st := GetContainerStatus(info, spec.initContainers[i]);
      if st.None? {
        pending := pending + 1;
      } else if st.value.running {
        pending := pending + 1;
      } else if st.value.terminated.Some? {
        if st.value.terminated.value == 0 {
          initialized := initialized + 1;
        } else {
          failed := failed + 1;
        }
      } else if st.value.waiting {
        if st.value.lastTerminated.Some? {
          if st.value.lastTerminated.value == 0 {
            initialized := initialized + 1;
          } else {
            failed := failed + 1;
          }
        } else {
          pending := pending + 1;
        }
      } else {
        pending := pending + 1;
      }
    }
  }

  datatype Counts = Counts(unknown: nat, running: nat, waiting: nat, stopped: nat, succeeded: nat)

  /** What the counters say about the first `i` containers. */
  predicate Counted(n: Counts, spec: PodSpec, info: seq<Status>, i: nat)
    requires i <= |spec.containers|
  {
    && (n.unknown > 0 <==> exists k | 0 <= k < i :: OutcomeOf(Find(info, spec.containers[k])) == Unknown)
    && (n.running > 0 <==> exists k | 0 <= k < i :: OutcomeOf(Find(info, spec.containers[k])) == IsRunning)
    && (n.waiting > 0 <==> exists k | 0 <= k < i :: OutcomeOf(Find(info, spec.containers[k])) == Waits)
    && n.unknown + n.running + n.waiting + n.stopped == i
    && n.succeeded <= n.stopped
    && (n.succeeded == i <==> forall k | 0 <= k < i :: OutcomeOf(Find(info, spec.containers[k])) == Exits(0))
  }

  method CountContainers(spec: PodSpec, info: seq<Status>) returns (n: Counts)
    ensures Counted(n, spec, info, |spec.containers|)
  {
    hide Find;
    n := Counts(0, 0, 0, 0, 0);
    for i := 0 to |spec.containers|
      invariant Counted(n, spec, info, i)
    {
      var st := GetContainerStatus(info, spec.containers[i]);
      if st.None? {
        n := n.(unknown := n.unknown + 1);
      } else if st.value.running {
        n := n.(running := n.running + 1);
      } else if st.value.terminated.Some? {
        n := n.(stopped := n.stopped + 1);
        if st.value.terminated.value == 0 {
          n := n.(succeeded := n.succeeded + 1);
        }
      } else if st.value.waiting {
        if st.value.lastTerminated.Some? {
          n := n.(stopped := n.stopped + 1);
        } else {
          n := n.(waiting := n.waiting + 1);
        }
      } else {
        n := n.(unknown := n.unknown + 1);
      }
    }
  }

  /** The counters refine the quantified phase. */
  method GetPhase(spec: PodSpec, info: seq<Status>) returns (phase: Phase)
    ensures phase == PhaseOf(spec, info)
  {
    hide Find, OutcomeOf, InitOf;
    var pendingInit, failedInit, initialized := CountInit(spec, info);
    var n := CountContainers(spec, info);
    CountedMeans(n, spec, info);
    if failedInit > 0 && spec.policy == Never {
      return Failed;
    }
    if pendingInit > 0 || n.waiting > 0 {
      return Pending;
    } else if n.running > 0 && n.unknown == 0 {
      return Running;
    } else if n.running == 0 && n.stopped > 0 && n.unknown == 0 {
      if spec.policy == Always {
        return Running;
      }
      if n.stopped == n.succeeded {
        return Succeeded;
      }
      if spec.policy == Never {
        return Failed;
      }
      return Running;
    } else {
      return Pending;
    }
  }

  lemma CountedMeans(n: Counts, spec: PodSpec, info: seq<Status>)
    requires Counted(n, spec, info, |spec.containers|)
    ensures n.unknown > 0 <==> SomeMain(spec, info, Unknown)
    ensures n.running > 0 <==> SomeMain(spec, info, IsRunning)
    ensures n.waiting > 0 <==> SomeMain(spec, info, Waits)
    ensures n.succeeded == |spec.containers| <==> AllExitedWell(spec, info)
  {
    hide Find, OutcomeOf;
  }

  // ---- Laws of the phase ----

  /** A pod has succeeded exactly when it has containers, each of them terminated
      with code 0, its policy is not to restart always, and no init container is
      pending or, under `Never`, failed. A container that waits to be restarted
      spoils success even if its last exit was clean. */
  lemma SucceededIff(spec: PodSpec, info: seq<Status>)
    ensures PhaseOf(spec, info) == Succeeded <==>
              && spec.policy != Always && spec.containers != [] && AllExitedWell(spec, info)
              && !SomeInit(spec, info, InitPending)
              && (spec.policy == Never ==> !SomeInit(spec, info, InitFailed))
  {
    hide Find, OutcomeOf, InitOf;
    if AllExitedWell(spec, info) && spec.containers != [] {
      assert !SomeMain(spec, info, Waits) && !SomeMain(spec, info, Unknown) && !SomeMain(spec, info, IsRunning);
    }
  }

  /** A pod fails only under `Never`: by an init container, or with every container
      stopped and not all of them cleanly. */
  lemma FailedIff(spec: PodSpec, info: seq<Status>)
    ensures PhaseOf(spec, info) == Failed <==>
              && spec.policy == Never
              && (|| SomeInit(spec, info, InitFailed)
                  || (&& !SomeInit(spec, info, InitPending) && !AllExitedWell(spec, info)
                      && forall c | c in spec.containers ::
                           var o := OutcomeOf(Find(info, c));
                           o.Restarts? || o.Exits?))
  {
    hide Find, InitOf;
    var stopped := forall c | c in spec.containers ::
                     var o := OutcomeOf(Find(info, c));
                     o.Restarts? || o.Exits?;
    if stopped {
      assert forall o: Outcome | o in {Waits, Unknown, IsRunning} :: !SomeMain(spec, info, o);
    } else {
      var c :| c in spec.containers && var o := OutcomeOf(Find(info, c)); !(o.Restarts? || o.Exits?);
      assert OutcomeOf(Find(info, c)) in {Waits, Unknown, IsRunning};
    }
  }

  /** Nothing holds the pod back: no init container is pending, nor failed under
      `Never`, and no container is unknown or still waits for its first start. */
  predicate NotHeldBack(spec: PodSpec, info: seq<Status>)
  {
    && (forall c | c in spec.initContainers ::
          var o := InitOf(Find(info, c));
          o != InitPending && (spec.policy == Never ==> o != InitFailed))
    && (forall c | c in spec.containers ::
          var o := OutcomeOf(Find(info, c));
          o.IsRunning? || o.Restarts? || o.Exits?)
  }

  /** A pod runs exactly when it has containers, nothing holds it back, and one of
      them runs, or all have stopped and are to be restarted: under `Always`, or
      under `OnFailure` when not all exited cleanly. */
  lemma RunningIff(spec: PodSpec, info: seq<Status>)
    ensures PhaseOf(spec, info) == Running <==>
              && spec.containers != [] && NotHeldBack(spec, info)
              && (|| (exists c | c in spec.containers :: OutcomeOf(Find(info, c)) == IsRunning)
                  || spec.policy == Always
                  || (spec.policy == OnFailure
                      && exists c | c in spec.containers :: OutcomeOf(Find(info, c)) != Exits(0)))
  {
    hide Find, InitOf, OutcomeOf;
    HeldBack(spec, info);
  }

  /** A pod is pending exactly when it has no containers or something holds it
      back, but for an init container that failed under `Never`. */
  lemma PendingIff(spec: PodSpec, info: seq<Status>)
    ensures PhaseOf(spec, info) == Pending <==>
              && !(spec.policy == Never && exists c | c in spec.initContainers :: InitOf(Find(info, c)) == InitFailed)
              && (spec.containers == [] || !NotHeldBack(spec, info))
  {
    hide Find, InitOf, OutcomeOf;
    HeldBack(spec, info);
  }

  lemma HeldBack(spec: PodSpec, info: seq<Status>)
    ensures NotHeldBack(spec, info) && spec.containers != [] <==> Started(spec, info)
  {
    hide Find, InitOf, OutcomeOf;
    if Started(spec, info) {
      forall c | c in spec.containers ensures var o := OutcomeOf(Find(info, c)); o.IsRunning? || o.Restarts? || o.Exits? {
        assert OutcomeOf(Find(info, c)) != Waits && OutcomeOf(Find(info, c)) != Unknown;
      }
    }
  }

  /** Under `Always` a pod never ends. */
  lemma AlwaysNeverEnds(spec: PodSpec, info: seq<Status>)
    requires spec.policy == Always
    ensures PhaseOf(spec, info) in {Pending, Running}
  {
    SucceededIff(spec, info);
    FailedIff(spec, info);
  }

  // ---- The order of the statuses ----

  predicate Distinct(info: seq<Status>)
  {
    forall i, j | 0 <= i < j < |info| :: info[i].name != info[j].name
  }

  /** With distinct names, the status found is the one there is. */
  lemma {:induction false} FindIs(info: seq<Status>, name: string)
    requires Distinct(info)
    ensures forall st | st in info && st.name == name :: Find(info, name) == Some(st)
    ensures Find(info, name).Some? ==> Find(info, name).value in info && Find(info, name).value.name == name
  {
    if info != [] {
      FindIs(info[1..], name);
      assert info == [info[0]] + info[1..];
    }
  }

  lemma SameFind(a: seq<Status>, b: seq<Status>, name: string)
    requires Distinct(a) && Distinct(b) && multiset(a) == multiset(b)
    ensures Find(a, name) == Find(b, name)
  {
    FindIs(a, name);
    FindIs(b, name);
    if Find(a, name).Some? {
      assert Find(a, name).value in multiset(b);
    } else if Find(b, name).Some? {
      assert Find(b, name).value in multiset(a);
    }
  }

  /** The order in which statuses and containers are listed does not matter. */
  lemma PhaseIgnoresOrder(spec: PodSpec, info: seq<Status>, spec': PodSpec, info': seq<Status>)
    requires Distinct(info) && Distinct(info') && multiset(info) == multiset(info')
    requires multiset(spec.containers) == multiset(spec'.containers)
    requires multiset(spec.initContainers) == multiset(spec'.initContainers) && spec.policy == spec'.policy
    ensures PhaseOf(spec, info) == PhaseOf(spec', info')
  {
    hide Find, OutcomeOf, InitOf, Distinct;
    forall c: string ensures Find(info, c) == Find(info', c) {
      SameFind(info, info', c);
    }
    assert forall c :: c in spec.containers <==> c in spec'.containers by {
      assert forall c :: c in spec.containers <==> c in multiset(spec.containers);
      assert forall c :: c in spec'.containers <==> c in multiset(spec'.containers);
    }
    assert forall c :: c in spec.initContainers <==> c in spec'.initContainers by {
      assert forall c :: c in spec.initContainers <==> c in multiset(spec.initContainers);
      assert forall c :: c in spec'.initContainers <==> c in multiset(spec'.initContainers);
    }
    assert |spec.containers| == |multiset(spec.containers)| == |spec'.containers|;
    assert forall o :: SomeInit(spec, info, o) == SomeInit(spec', info', o);
    assert forall o :: SomeMain(spec, info, o) == SomeMain(spec', info', o);
    assert AllExitedWell(spec, info) == AllExitedWell(spec', info');
  }
}
