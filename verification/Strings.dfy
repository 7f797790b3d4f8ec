/** Separated names: the splitting and joining that resource paths, mission
    state keys and ObjectSync names are built on. */
module Strings {

  datatype Option<+T> = None | Some(value: T)

  /** `strings.Split` with a one-character separator: never empty. */
  function Split(s: string, c: char): (parts: seq<string>)
    ensures |parts| >= 1
  {
    if s == "" then [""]
    else
      var rest := Split(s[1..], c);
      if s[0] == c then [""] + rest
      else [[s[0]] + rest[0]] + rest[1..]
  }

  /** `strings.Join` with a one-character separator. */
  function Join(parts: seq<string>, c: char): string
  {
    if |parts| == 0 then ""
    else if |parts| == 1 then parts[0]
    else parts[0] + [c] + Join(parts[1..], c)
  }

  lemma {:induction false} SplitPlain(a: string, c: char)
    requires c !in a
    ensures Split(a, c) == [a]
  {
    if a != "" {
      SplitPlain(a[1..], c);
      assert [a[0]] + a[1..] == a;
    }
  }

  /** A separator splits exactly there. */
  lemma {:induction false} SplitConcat(a: string, b: string, c: char)
    ensures Split(a + [c] + b, c) == Split(a, c) + Split(b, c)
  {
    hide Split;
    var s := a + [c] + b;
    var y := Split(b, c);
    if a == "" {
      assert s[0] == c && s[1..] == b;
      SplitStep(s, c, y);
      SplitPlain("", c);
    } else {
      var x := Split(a[1..], c);
      SplitConcat(a[1..], b, c);
      assert s[0] == a[0] && s[1..] == a[1..] + [c] + b;
      SplitStep(s, c, x + y);
      assert (x + y)[0] == x[0] && (x + y)[1..] == x[1..] + y;
      SplitStep(a, c, x);
    }
  }

  lemma SplitStep(s: string, c: char, rest: seq<string>)
    requires s != "" && rest == Split(s[1..], c)
    ensures Split(s, c) == if s[0] == c then [""] + rest else [[s[0]] + rest[0]] + rest[1..]
  {
  }

  /** No component contains the separator. */
  lemma {:induction false} SplitFree(s: string, c: char)
    ensures forall p | p in Split(s, c) :: c !in p
  {
    if s != "" {
      SplitFree(s[1..], c);
      SplitStep(s, c, Split(s[1..], c));
    }
  }

  /** Joining what was split gives the string back. */
  lemma {:induction false} JoinSplit(s: string, c: char)
    ensures Join(Split(s, c), c) == s
  {
    if s != "" {
      var rest := Split(s[1..], c);
      JoinSplit(s[1..], c);
      if s[0] == c {
        assert ([""] + rest)[1..] == rest;
      } else {
        var parts := [[s[0]] + rest[0]] + rest[1..];
        assert parts[1..] == rest[1..];
      }
    }
  }

  /** Splitting what was joined gives the components back, when none of them
      contains the separator. */
  lemma {:induction false} SplitJoin(parts: seq<string>, c: char)
    requires |parts| >= 1
    requires forall p | p in parts :: c !in p
    ensures Split(Join(parts, c), c) == parts
  {
    if |parts| == 1 {
      SplitPlain(parts[0], c);
    } else {
      SplitJoin(parts[1..], c);
      SplitPlain(parts[0], c);
      SplitConcat(parts[0], Join(parts[1..], c), c);
      assert parts == [parts[0]] + parts[1..];
    }
  }

  /** The component before the first separator. */
  function Head(s: string, c: char): string
  {
    Split(s, c)[0]
  }
}
