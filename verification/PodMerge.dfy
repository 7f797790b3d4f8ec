/** The pod manager's merging of watch events: modifications that change
    nothing the edge cares about are dropped. */
module PodMerge {
  import opened Strings

  /** `rest` stands for the object metadata not named here. */
  datatype Meta = Meta(uid: string, resourceVersion: string, generation: int, deletionTimestamp: Option<string>, rest: string)

  datatype Pod = Pod(meta: Meta, spec: string, status: string)

  datatype EventType = Added | Modified | Deleted | Unsupported

  datatype Event = Event(kind: EventType, pod: Pod)

  datatype CachePod = CachePod(meta: Meta, spec: string)

  type Cache = map<string, CachePod>

  function Cached(p: Pod): CachePod
  {
    CachePod(p.meta, p.spec)
  }

  /** The comparison after the two fields that do not count are overwritten. */
  function IsPodUpdated(old': CachePod, p: Pod): bool
  {
    var meta := old'.meta.(resourceVersion := p.meta.resourceVersion, generation := p.meta.generation);
    meta != p.meta || old'.spec != p.spec
  }

  // ---- What a stream of events means ----

  /** The pods after one more event. */
  function Next(pods: map<string, Pod>, e: Event): map<string, Pod>
  {
    match e.kind
    case Added => pods[e.pod.meta.uid := e.pod]
    case Modified => pods[e.pod.meta.uid := e.pod]
    case Deleted => pods - {e.pod.meta.uid}
    case Unsupported => pods
  }

  /** The pods after a stream: later events of a UID replace earlier ones. */
  function Replay(events: seq<Event>): map<string, Pod>
  {
    if events == [] then map[] else Next(Replay(events[..|events| - 1]), events[|events| - 1])
  }

  /** What is left of a pod without resource version, generation and status. */
  datatype Core = Core(uid: string, deletionTimestamp: Option<string>, rest: string, spec: string)

  function CoreOf(p: Pod): Core
  {
    Core(p.meta.uid, p.meta.deletionTimestamp, p.meta.rest, p.spec)
  }

  /** The two sets of pods differ at most in those. */
  ghost predicate SamePods(a: map<string, Pod>, b: map<string, Pod>)
  {
    a.Keys == b.Keys && forall uid | uid in a :: CoreOf(a[uid]) == CoreOf(b[uid])
  }

  // ---- The merge ----

  /** The events that one event leads to, given the cache. */
  function Emitted(cache: Cache, e: Event): seq<Event>
  {
    match e.kind
    case Added => [if e.pod.meta.deletionTimestamp.None? then e else e.(kind := Modified)]
    case Deleted => [e]
    case Modified =>
      if e.pod.meta.uid in cache && !IsPodUpdated(cache[e.pod.meta.uid], e.pod) then [] else [e]
    case Unsupported => []
  }

  function CacheAfter(cache: Cache, e: Event): Cache
  {
    match e.kind
    case Added => cache[e.pod.meta.uid := Cached(e.pod)]
    case Modified => cache[e.pod.meta.uid := Cached(e.pod)]
    case Deleted => cache - {e.pod.meta.uid}
    case Unsupported => cache
  }

  class PodManager {
    var pods: Cache
    var mergedEvents: seq<Event>

    constructor ()
      ensures pods == map[] && mergedEvents == []
    {
      pods, mergedEvents := map[], [];
    }

    /** One turn of the merge loop. */
    method MergeOne(re: Event)
      modifies this
      ensures pods == CacheAfter(old(pods), re)
      ensures mergedEvents == old(mergedEvents) + Emitted(old(pods), re)
    {
      var pod := re.pod;
      match re.kind {
        case Added =>
          pods := pods[pod.meta.uid := Cached(pod)];
          if pod.meta.deletionTimestamp.None? {
            mergedEvents := mergedEvents + [re];
          } else {
            mergedEvents := mergedEvents + [re.(kind := Modified)];
          }
        case Deleted =>
          pods := pods - {pod.meta.uid};
          mergedEvents := mergedEvents + [re];
        case Modified =>
          var value := if pod.meta.uid in pods then Some(pods[pod.meta.uid]) else None;
          pods := pods[pod.meta.uid := Cached(pod)];
          if value.Some? {
            if IsPodUpdated(value.value, pod) {
              mergedEvents := mergedEvents + [re];
            }
          } else {
            mergedEvents := mergedEvents + [re];
          }
        case Unsupported =>
      }
    }

    /** The merge loop over a stream. */
    method Merge(events: seq<Event>)
      requires pods == map[] && mergedEvents == []
      modifies this
      ensures (mergedEvents, pods) == Merged(events)
    {
      for i := 0 to |events|
        invariant (mergedEvents, pods) == Merged(events[..i])
      {
        assert events[..i + 1][..i] == events[..i];
        MergeOne(events[i]);
      }
      assert events[..|events|] == events;
    }
  }

  /** What a stream leads to: the events sent on, and the cache. */
  function Merged(events: seq<Event>): (seq<Event>, Cache)
  {
    if events == [] then ([], map[])
    else
      var (merged, cache) := Merged(events[..|events| - 1]);
      var e := events[|events| - 1];
      (merged + Emitted(cache, e), CacheAfter(cache, e))
  }

  /** After every prefix of the stream, what has been sent on means the same pods
      as the raw events, and the cache holds the raw pods; nothing sent on is
      ever taken back. */
  lemma {:induction false} MergedMeansSame(events: seq<Event>, n: nat)
    requires n <= |events|
    ensures Merged(events[..n]).0 <= Merged(events).0
    ensures SamePods(Replay(Merged(events[..n]).0), Replay(events[..n]))
    ensures Mirrors(Merged(events[..n]).1, Replay(events[..n]))
    decreases |events|, n
  {
    hide Emitted, CacheAfter, SamePods, Mirrors;
    if n < |events| {
      var front := events[..|events| - 1];
      MergedMeansSame(front, n);
      assert front[..n] == events[..n];
    } else if n == 0 {
      assert events[..n] == [];
      NothingMerged();
    } else {
      var front, e := events[..n - 1], events[n - 1];
      MergedMeansSame(front, n - 1);
      assert front[..n - 1] == front && events[..n] == events && events == front + [e];
      MergeStep(front, e, Merged(front).0, Merged(front).1);
    }
  }

  lemma NothingMerged()
    ensures SamePods(Replay([]), Replay([])) && Mirrors(map[], Replay([]))
  {
  }

  /** The cache holds metadata and spec of the raw pods. */
  ghost predicate Mirrors(cache: Cache, pods: map<string, Pod>)
  {
    cache.Keys == pods.Keys && forall uid | uid in pods :: cache[uid] == Cached(pods[uid]) && pods[uid].meta.uid == uid
  }

  /** A modification is dropped exactly when it leaves the core of a known pod
      as it was. */
  lemma DroppedIffUnchanged(cache: Cache, pods: map<string, Pod>, e: Event)
    requires Mirrors(cache, pods) && e.kind == Modified
    ensures Emitted(cache, e) == [] <==> e.pod.meta.uid in pods && CoreOf(pods[e.pod.meta.uid]) == CoreOf(e.pod)
  {
  }

  /** How an event is sent on: a pod that appears already marked for deletion goes
      out as modified, any other as added; what is deleted goes out as deleted, and
      a modification as such or not at all; always with the same pod. */
  lemma SentAs(cache: Cache, e: Event)
    ensures e.kind == Added ==>
              Emitted(cache, e) == [Event(if e.pod.meta.deletionTimestamp.Some? then Modified else Added, e.pod)]
    ensures e.kind == Deleted ==> Emitted(cache, e) == [Event(Deleted, e.pod)]
    ensures e.kind == Modified ==> Emitted(cache, e) == [] || Emitted(cache, e) == [Event(Modified, e.pod)]
    ensures e.kind == Modified && e.pod.meta.uid !in cache ==> Emitted(cache, e) == [Event(Modified, e.pod)]
    ensures e.kind == Unsupported ==> Emitted(cache, e) == []
  {
  }

  lemma ReplayOne(events: seq<Event>, e: Event)
    ensures Replay(events + [e]) == Next(Replay(events), e)
  {
    assert (events + [e])[..|events|] == events;
  }

  lemma SameAfter(a: map<string, Pod>, b: map<string, Pod>, e: Event)
    requires SamePods(a, b)
    ensures SamePods(Next(a, e), Next(b, e))
  {
    hide CoreOf;
  }

  lemma SameWithout(a: map<string, Pod>, b: map<string, Pod>, e: Event)
    requires SamePods(a, b)
    requires e.kind == Unsupported || (e.kind == Modified && e.pod.meta.uid in b && CoreOf(b[e.pod.meta.uid]) == CoreOf(e.pod))
    ensures SamePods(a, Next(b, e))
  {
    hide CoreOf;
  }

  lemma MirrorStep(pods: map<string, Pod>, cache: Cache, e: Event)
    requires Mirrors(cache, pods)
    ensures Mirrors(CacheAfter(cache, e), Next(pods, e))
  {
  }

  /** The emitted event means the same as the raw one. */
  lemma EmittedMeansSame(pods: map<string, Pod>, cache: Cache, e: Event)
    ensures Emitted(cache, e) != [] ==> |Emitted(cache, e)| == 1 && Next(pods, Emitted(cache, e)[0]) == Next(pods, e)
    ensures Emitted(cache, e) == [] ==> e.kind == Unsupported || e.kind == Modified
  {
  }

  /** One event: raw and merged stream stay in step. */
  lemma MergeStep(front: seq<Event>, e: Event, merged: seq<Event>, cache: Cache)
    requires Mirrors(cache, Replay(front)) && SamePods(Replay(merged), Replay(front))
    ensures Mirrors(CacheAfter(cache, e), Replay(front + [e]))
    ensures SamePods(Replay(merged + Emitted(cache, e)), Replay(front + [e]))
  {
    hide *;
    ReplayOne(front, e);
    MirrorStep(Replay(front), cache, e);
    EmittedMeansSame(Replay(merged), cache, e);
    if Emitted(cache, e) == [] {
      assert merged + Emitted(cache, e) == merged;
      if e.kind == Modified { DroppedIffUnchanged(cache, Replay(front), e); }
      SameWithout(Replay(merged), Replay(front), e);
    } else {
      var m := Emitted(cache, e)[0];
      assert merged + Emitted(cache, e) == merged + [m];
      ReplayOne(merged, m);
      SameAfter(Replay(merged), Replay(front), e);
    }
  }

  /** A change of status alone does not get through. */
  lemma StatusAloneIsDropped(p: Pod, status: string)
    requires status != p.status
    ensures var e := Event(Modified, p.(status := status));
            && Emitted(CacheAfter(map[], Event(Added, p)), e) == []
            && Replay([Event(Added, p), e])[p.meta.uid] != Replay([Event(Added, p)])[p.meta.uid]
  {
    var a, e := Event(Added, p), Event(Modified, p.(status := status));
    ReplayOne([], a);
    ReplayOne([a], e);
    assert [a] == [] + [a] && [a, e] == [a] + [e];
  }
}
