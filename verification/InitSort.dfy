/** The in-place ordering of init container statuses by the pod's spec. It is
    meant to make the comparison of two statuses independent of order. */
module InitSort {
  import opened PodPhase

  /** The first index from `from` on that carries the name, or the length. */
  function IndexFrom(s: seq<Status>, name: string, from: nat): (j: nat)
    requires from <= |s|
    ensures from <= j <= |s|
    ensures j < |s| ==> s[j].name == name
    ensures forall k | from <= k < j :: s[k].name != name
    decreases |s| - from
  {
    if from == |s| || s[from].name == name then from else IndexFrom(s, name, from + 1)
  }

  function Swap(s: seq<Status>, i: nat, j: nat): seq<Status>
    requires i < |s| && j < |s|
  {
    s[i := s[j]][j := s[i]]
  }

  /** The statuses after placing the given names, and how many were placed. */
  function Place(names: seq<string>, s: seq<Status>): (r: (seq<Status>, nat))
    ensures |r.0| == |s| && r.1 <= |s|
  {
    if names == [] then (s, 0)
    else
      var (t, current) := Place(names[..|names| - 1], s);
      var j := IndexFrom(t, names[|names| - 1], current);
      if j == |t| then (t, current) else (Swap(t, current, j), current + 1)
  }

  method SortInitContainerStatuses(names: seq<string>, statuses: array<Status>)
    modifies statuses
    ensures statuses[..] == Place(names, old(statuses[..])).0
  {
    var current := 0;
    for i := 0 to |names|
      invariant (statuses[..], current) == Place(names[..i], old(statuses[..]))
      invariant current <= statuses.Length
    {
      assert names[..i + 1][..i] == names[..i];
      ghost var t := statuses[..];
      var j := current;
      while j < statuses.Length && statuses[j].name != names[i]
        invariant current <= j <= statuses.Length && statuses[..] == t
        invariant IndexFrom(t, names[i], current) == IndexFrom(t, names[i], j)
      {
        j := j + 1;
      }
      if j < statuses.Length {
        statuses[current], statuses[j] := statuses[j], statuses[current];
        assert statuses[..] == Swap(t, current, j);
        current := current + 1;
      }
    }
    assert names[..|names|] == names;
  }

  // ---- Permutation ----

  lemma SwapMultiset(s: seq<Status>, i: nat, j: nat)
    requires i < |s| && j < |s|
    ensures multiset(Swap(s, i, j)) == multiset(s)
  {
  }

  lemma SwapDistinct(s: seq<Status>, i: nat, j: nat)
    requires i < |s| && j < |s| && Distinct(s)
    ensures Distinct(Swap(s, i, j))
  {
  }

  /** No status is lost, invented or duplicated, whatever the names. */
  lemma {:induction false} PlacePermutes(names: seq<string>, s: seq<Status>)
    ensures multiset(Place(names, s).0) == multiset(s)
    ensures Distinct(s) ==> Distinct(Place(names, s).0)
  {
    hide Distinct;
    if names != [] {
      PlacePermutes(names[..|names| - 1], s);
      var (t, current) := Place(names[..|names| - 1], s);
      var j := IndexFrom(t, names[|names| - 1], current);
      if j < |t| {
        SwapMultiset(t, current, j);
        if Distinct(t) {
          SwapDistinct(t, current, j);
        }
      }
    }
  }

  // ---- Order ----

  function NamesOf(s: seq<Status>): set<string>
  {
    set st | st in s :: st.name
  }

  /** The names that have a status, in the order of the spec, each once. */
  function Want(names: seq<string>, present: set<string>): seq<string>
  {
    if names == [] then []
    else
      var w := Want(names[..|names| - 1], present);
      var n := names[|names| - 1];
      if n in present && n !in w then w + [n] else w
  }

  lemma {:induction false} WantHas(names: seq<string>, present: set<string>)
    ensures forall n :: n in Want(names, present) <==> n in names && n in present
  {
    if names != [] {
      var k := |names| - 1;
      WantHas(names[..k], present);
      assert names == names[..k] + [names[k]];
    }
  }

  /** The statuses start with the wanted ones, in order. */
  predicate StartsWith(s: seq<Status>, w: seq<string>)
  {
    |w| <= |s| && forall i | 0 <= i < |w| :: s[i].name == w[i]
  }

  lemma SameNames(s: seq<Status>, t: seq<Status>)
    requires multiset(s) == multiset(t)
    ensures NamesOf(s) == NamesOf(t)
  {
    assert forall st :: st in s <==> st in multiset(s);
    assert forall st :: st in t <==> st in multiset(t);
  }

  /** Placing one name: it is found behind the placed ones exactly when it has a
      status and was not placed yet. */
  lemma FoundIff(s: seq<Status>, w: seq<string>, n: string)
    requires Distinct(s) && StartsWith(s, w)
    ensures IndexFrom(s, n, |w|) < |s| <==> n in NamesOf(s) && n !in w
  {
    var j := IndexFrom(s, n, |w|);
    if j < |s| {
      assert s[j] in s;
    } else if n in NamesOf(s) {
      var st :| st in s && st.name == n;
      var k :| 0 <= k < |s| && s[k] == st;
      assert n == w[k];
    }
  }

  /** With distinct status names, those named in the spec come first, in the
      order of the spec. */
  lemma {:induction false} PlacedInOrder(names: seq<string>, s: seq<Status>)
    requires Distinct(s)
    ensures Place(names, s).1 == |Want(names, NamesOf(s))|
    ensures StartsWith(Place(names, s).0, Want(names, NamesOf(s)))
  {
    hide Distinct, NamesOf;
    if names != [] {
      var k := |names| - 1;
      PlacedInOrder(names[..k], s);
      var (t, current) := Place(names[..k], s);
      PlacePermutes(names[..k], s);
      SameNames(s, t);
      FoundIff(t, Want(names[..k], NamesOf(s)), names[k]);
    }
  }

  /** The statuses behind the placed ones are those the spec does not name. */
  lemma RestUnnamed(names: seq<string>, s: seq<Status>, k: nat)
    requires Distinct(s) && Place(names, s).1 <= k < |s|
    ensures Place(names, s).0[k].name !in names
  {
    var (t, current) := Place(names, s);
    var w := Want(names, NamesOf(s));
    PlacedInOrder(names, s);
    PlacePermutes(names, s);
    SameNames(s, t);
    WantHas(names, NamesOf(s));
    assert t[k] in t;
    forall i | 0 <= i < |w| ensures w[i] != t[k].name {
      assert t[i].name == w[i];
    }
  }

  // ---- Is the result independent of the order? ----

  predicate AtMostOneUnnamed(names: seq<string>, s: seq<Status>)
  {
    forall i, j | 0 <= i < j < |s| :: s[i].name in names || s[j].name in names
  }

  ghost predicate Canonical(names: seq<string>, s: seq<Status>)
  {
    forall t: seq<Status> | Distinct(t) && multiset(t) == multiset(s) :: Place(names, t).0 == Place(names, s).0
  }

  lemma UnnamedOf(names: seq<string>, s: seq<Status>, t: seq<Status>)
    requires Distinct(s) && multiset(s) == multiset(t) && AtMostOneUnnamed(names, t)
    ensures AtMostOneUnnamed(names, s)
  {
    forall i, j | 0 <= i < j < |s| ensures s[i].name in names || s[j].name in names {
      assert s[i] in multiset(t) && s[j] in multiset(t);
      var i' :| 0 <= i' < |t| && t[i'] == s[i];
      var j' :| 0 <= j' < |t| && t[j'] == s[j];
      assert i' != j';
    }
  }

  /** At most one status is unnamed exactly when at most one was not placed. */
  lemma UnplacedIff(names: seq<string>, s: seq<Status>)
    requires Distinct(s)
    ensures AtMostOneUnnamed(names, s) <==> |s| <= Place(names, s).1 + 1
  {
    hide Distinct, Place, NamesOf, Want;
    var (r, c) := Place(names, s);
    PlacePermutes(names, s);
    PlacedInOrder(names, s);
    WantHas(names, NamesOf(s));
    assert forall i | 0 <= i < c :: r[i].name == Want(names, NamesOf(s))[i];
    forall k | c <= k < |r| ensures r[k].name !in names {
      RestUnnamed(names, s, k);
    }
    if |s| <= c + 1 {
      UnnamedOf(names, s, r);
    } else {
      assert r[c].name !in names && r[c + 1].name !in names;
      if AtMostOneUnnamed(names, s) {
        UnnamedOf(names, r, s);
      }
    }
  }

  /** One status with a given name: equal names mean equal statuses. */
  lemma SameStatus(s: seq<Status>, t: seq<Status>, i: nat)
    requires Distinct(s) && multiset(s) == multiset(t) && i < |s| && i < |t| && s[i].name == t[i].name
    ensures s[i] == t[i]
  {
    assert t[i] in multiset(t);
    assert t[i] in s;
  }

  /** A last element that everything before leaves no choice for. */
  lemma SameLast(s: seq<Status>, t: seq<Status>)
    requires |s| > 0 && multiset(s) == multiset(t) && |s| == |t| && s[..|s| - 1] == t[..|s| - 1]
    ensures s == t
  {
    var p := s[..|s| - 1];
    var x, y := s[|s| - 1], t[|s| - 1];
    assert s == p + [x] && t == p + [y];
    assert multiset(s) - multiset(p) == multiset{x} && multiset(t) - multiset(p) == multiset{y};
    assert x in multiset{y};
  }

  lemma SameResult(names: seq<string>, s: seq<Status>, t: seq<Status>)
    requires Distinct(s) && Distinct(t) && multiset(t) == multiset(s) && |s| <= Place(names, s).1 + 1
    ensures Place(names, t).0 == Place(names, s).0
  {
    hide Place;
    SameNames(s, t);
    PlacedInOrder(names, s);
    PlacedInOrder(names, t);
    PlacePermutes(names, s);
    PlacePermutes(names, t);
    var a, b := Place(names, s).0, Place(names, t).0;
    assert |a| == |multiset(a)| == |multiset(b)| == |b|;
    var c := |Want(names, NamesOf(s))|;
    forall i | 0 <= i < c ensures a[i] == b[i] {
      SameStatus(a, b, i);
    }
    assert a[..c] == b[..c];
    if |a| == c {
      assert a == a[..c] && b == b[..c];
    } else {
      SameLast(a, b);
    }
  }

  lemma {:induction false} WantPrefix(names: seq<string>, present: set<string>, k: nat)
    requires k <= |names|
    ensures Want(names[..k], present) <= Want(names, present)
    decreases |names|
  {
    if k == |names| {
      assert names[..k] == names;
    } else {
      assert names[..|names| - 1][..k] == names[..k];
      WantPrefix(names[..|names| - 1], present, k);
    }
  }

  /** Statuses that are in order already stay as they are. */
  lemma {:induction false} OrderedStays(names: seq<string>, s: seq<Status>, k: nat)
    requires Distinct(s) && StartsWith(s, Want(names, NamesOf(s))) && k <= |names|
    ensures Place(names[..k], s).0 == s
    decreases k
  {
    hide Distinct, NamesOf;
    if k > 0 {
      var present := NamesOf(s);
      OrderedStays(names, s, k - 1);
      assert names[..k][..k - 1] == names[..k - 1];
      PlacedInOrder(names[..k - 1], s);
      WantPrefix(names, present, k);
      WantPrefix(names, present, k - 1);
      var w := Want(names[..k - 1], present);
      FoundIff(s, w, names[k - 1]);
      var j := IndexFrom(s, names[k - 1], |w|);
      if j < |s| {
        assert Want(names[..k], present) == w + [names[k - 1]];
        assert s[|w|].name == (w + [names[k - 1]])[|w|];
        assert j == |w|;
        assert Swap(s, j, j) == s;
      }
    }
  }

  lemma AlreadySorted(names: seq<string>, s: seq<Status>)
    requires Distinct(s) && StartsWith(s, Want(names, NamesOf(s)))
    ensures Place(names, s).0 == s
  {
    OrderedStays(names, s, |names|);
    assert names[..|names|] == names;
  }

  /** Sorting again changes nothing. */
  lemma SortIsIdempotent(names: seq<string>, s: seq<Status>)
    requires Distinct(s)
    ensures Place(names, Place(names, s).0).0 == Place(names, s).0
  {
    PlacedInOrder(names, s);
    PlacePermutes(names, s);
    SameNames(s, Place(names, s).0);
    AlreadySorted(names, Place(names, s).0);
  }

  /** Two statuses that the spec does not name keep whatever order they had. */
  lemma TwoUnnamedDiffer(names: seq<string>, s: seq<Status>)
    requires Distinct(s) && |s| > Place(names, s).1 + 1
    ensures !Canonical(names, s)
  {
    hide Distinct, Place, NamesOf, Want;
    var (r, c) := Place(names, s);
    PlacedInOrder(names, s);
    PlacePermutes(names, s);
    var t := Swap(r, c, c + 1);
    SwapMultiset(r, c, c + 1);
    SwapDistinct(r, c, c + 1);
    SameNames(s, t);
    AlreadySorted(names, t);
    SwappedDiffers(r, c);
  }

  lemma SwappedDiffers(r: seq<Status>, c: nat)
    requires c + 1 < |r| && Distinct(r)
    ensures Swap(r, c, c + 1) != r
  {
    assert Swap(r, c, c + 1)[c] == r[c + 1];
  }

  /** With distinct names, the result is independent of the given order exactly
      when at most one status is not named by the spec. */
  lemma CanonicalIff(names: seq<string>, s: seq<Status>)
    requires Distinct(s)
    ensures Canonical(names, s) <==> AtMostOneUnnamed(names, s)
  {
    hide Distinct, Place, AtMostOneUnnamed;
    UnplacedIff(names, s);
    if AtMostOneUnnamed(names, s) {
      forall t: seq<Status> | Distinct(t) && multiset(t) == multiset(s)
        ensures Place(names, t).0 == Place(names, s).0
      {
        SameResult(names, s, t);
      }
    } else {
      TwoUnnamedDiffer(names, s);
    }
  }

  /** Ordering the init statuses leaves the pod's phase as it was. */
  lemma SortKeepsPhase(spec: PodSpec, main: seq<Status>, init: seq<Status>)
    requires Distinct(main + init)
    ensures PhaseOf(spec, main + Place(spec.initContainers, init).0) == PhaseOf(spec, main + init)
  {
    var sorted := Place(spec.initContainers, init).0;
    assert forall i | 0 <= i < |init| :: init[i] == (main + init)[|main| + i];
    PlacePermutes(spec.initContainers, init);
    StillDistinct(main, init, sorted);
    PhaseIgnoresOrder(spec, main + sorted, spec, main + init);
  }

  lemma StillDistinct(main: seq<Status>, init: seq<Status>, sorted: seq<Status>)
    requires Distinct(main + init) && Distinct(sorted) && multiset(sorted) == multiset(init)
    ensures Distinct(main + sorted)
  {
    var all := main + sorted;
    forall i, j | 0 <= i < j < |all| ensures all[i].name != all[j].name {
      if i < |main| <= j {
        assert all[j] == sorted[j - |main|];
        assert sorted[j - |main|] in multiset(init);
        var k :| 0 <= k < |init| && init[k] == all[j];
        assert (main + init)[|main| + k] == all[j] && (main + init)[i] == all[i];
      } else if j < |main| {
        assert (main + init)[i] == all[i] && (main + init)[j] == all[j];
      } else {
        assert all[i] == sorted[i - |main|] && all[j] == sorted[j - |main|];
      }
    }
  }
}
