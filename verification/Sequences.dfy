// Filtering: the values that are there, and the items that pass a test, in order.
module Sequences {
  import opened Wrappers

  lemma JoinAssociates<T>(a: seq<T>, b: seq<T>, c: seq<T>)
    ensures a + b + c == a + (b + c)
  {
  }

  // The pieces one after another.
  function Concat<T>(pieces: seq<seq<T>>): seq<T> {
    if pieces == [] then [] else Concat(pieces[..|pieces| - 1]) + pieces[|pieces| - 1]
  }

  lemma SingleIsOneOfTwo<T>(a: seq<T>, b: seq<T>, x: T)
    requires a + b == [x]
    ensures (a == [x] && b == []) || (a == [] && b == [x])
  {
    if a == [] {
      assert b == a + b;
    } else {
      assert (a + b)[0] == a[0] && |a| == 1;
    }
  }

  lemma PartsAround<T>(s: seq<T>, i: nat)
    requires i < |s|
    ensures s == s[..i] + ([s[i]] + s[i + 1..])
  {
  }

  // The values that are there, in order.
  function Present<T>(s: seq<Option<T>>): seq<T>
    decreases |s|
  {
    if s == [] then [] else
    var last := |s| - 1;
    Present(s[..last]) + (match s[last] case Some(v) => [v] case None => [])
  }

  lemma PresentGrows<T>(s: seq<Option<T>>, x: Option<T>)
    ensures Present(s + [x]) == Present(s) + (match x case Some(v) => [v] case None => [])
  {
    assert (s + [x])[..|s|] == s;
  }

  // The values stand at the ascending positions `at`, and at no other position is there a value.
  ghost predicate ArePresentAt<T>(values: seq<T>, at: seq<nat>, s: seq<Option<T>>) {
    && |at| == |values|
    && (forall j :: 0 <= j < |at| ==> at[j] < |s| && s[at[j]] == Some(values[j]))
    && (forall j, k :: 0 <= j < k < |at| ==> at[j] < at[k])
    && (forall i :: 0 <= i < |s| && s[i].Some? ==> i in at)
  }

  lemma {:induction false} PlaceGrows<T>(values: seq<T>, at: seq<nat>, s: seq<Option<T>>, x: T)
    requires ArePresentAt(values, at, s)
    ensures ArePresentAt(values + [x], at + [|s|], s + [Some(x)])
  {
    var grown := at + [|s|];
    assert grown[|at|] == |s|;
    assert forall i :: i in at ==> i in grown;
  }

  lemma {:induction false} PlaceStays<T>(values: seq<T>, at: seq<nat>, s: seq<Option<T>>)
    requires ArePresentAt(values, at, s)
    ensures ArePresentAt(values, at, s + [None])
  {
  }

  lemma {:induction false} PresentStandAt<T>(s: seq<Option<T>>) returns (at: seq<nat>)
    ensures ArePresentAt(Present(s), at, s)
    decreases |s|
  {
    at := [];
    if s != [] {
      var rest, last := s[..|s| - 1], s[|s| - 1];
      at := PresentStandAt(rest);
      assert s == rest + [last];
      PresentGrows(rest, last);
      match last
      case Some(x) =>
        PlaceGrows(Present(rest), at, rest, x);
        at := at + [|rest|];
      case None =>
        PlaceStays(Present(rest), at, rest);
    }
  }

  function Filter<T>(s: seq<T>, keep: T -> bool): seq<T>
    decreases |s|
  {
    if s == [] then [] else
    var last := |s| - 1;
    Filter(s[..last], keep) + (if keep(s[last]) then [s[last]] else [])
  }

  lemma FilterGrows<T>(s: seq<T>, x: T, keep: T -> bool)
    ensures Filter(s + [x], keep) == Filter(s, keep) + (if keep(x) then [x] else [])
  {
    assert (s + [x])[..|s|] == s;
  }

  lemma {:induction false} InFilter<T>(s: seq<T>, keep: T -> bool, x: T)
    ensures x in Filter(s, keep) <==> x in s && keep(x)
    decreases |s|
  {
    if s != [] {
      var rest, last := s[..|s| - 1], s[|s| - 1];
      InFilter(rest, keep, x);
      assert s == rest + [last];
    }
  }

  lemma {:induction false} FilterJoins<T>(a: seq<T>, b: seq<T>, keep: T -> bool)
    ensures Filter(a + b, keep) == Filter(a, keep) + Filter(b, keep)
    decreases |b|
  {
    if b == [] {
      assert a + b == a;
    } else {
      var rest, last := b[..|b| - 1], b[|b| - 1];
      var tail := if keep(last) then [last] else [];
      FilterJoins(a, rest, keep);
      assert a + b == (a + rest) + [last];
      FilterGrows(a + rest, last, keep);
      JoinAssociates(Filter(a, keep), Filter(rest, keep), tail);
    }
  }

  function Both<T>(first: T -> bool, second: T -> bool): T -> bool {
    (x: T) => first(x) && second(x)
  }

  lemma {:induction false} FilterTwice<T>(s: seq<T>, first: T -> bool, second: T -> bool)
    ensures Filter(Filter(s, first), second) == Filter(s, Both(first, second))
    decreases |s|
  {
    if s != [] {
      var rest, last := s[..|s| - 1], s[|s| - 1];
      FilterTwice(rest, first, second);
      if first(last) {
        assert Filter(s, first) == Filter(rest, first) + [last];
        FilterGrows(Filter(rest, first), last, second);
      } else {
        assert Filter(s, first) == Filter(rest, first);
      }
    }
  }

  // Only how the items of the sequence fare matters.
  lemma {:induction false} FilterAgrees<T>(s: seq<T>, keep: T -> bool, also: T -> bool)
    requires forall i :: 0 <= i < |s| ==> keep(s[i]) == also(s[i])
    ensures Filter(s, keep) == Filter(s, also)
    decreases |s|
  {
    if s != [] {
      var last := |s| - 1;
      assert keep(s[last]) == also(s[last]);
      FilterAgrees(s[..last], keep, also);
    }
  }

  lemma {:induction false} FilterNone<T>(s: seq<T>, keep: T -> bool)
    requires forall i :: 0 <= i < |s| ==> !keep(s[i])
    ensures Filter(s, keep) == []
    decreases |s|
  {
    if s != [] {
      var last := |s| - 1;
      assert !keep(s[last]);
      FilterNone(s[..last], keep);
    }
  }

  function Not<T>(keep: T -> bool): T -> bool {
    (x: T) => !keep(x)
  }

  // What passes the test, before what does not.
  function InFront<T>(s: seq<T>, keep: T -> bool): seq<T> {
    Filter(s, keep) + Filter(s, Not(keep))
  }

  lemma {:induction false} InFrontPermutes<T>(s: seq<T>, keep: T -> bool)
    ensures multiset(InFront(s, keep)) == multiset(s)
    decreases |s|
  {
    if s != [] {
      var rest, last := s[..|s| - 1], s[|s| - 1];
      InFrontPermutes(rest, keep);
      assert s == rest + [last];
      FilterGrows(rest, last, keep);
      FilterGrows(rest, last, Not(keep));
    }
  }

  // What a test lets pass from such a reordering, if it lets pass only what stands in front, or
  // nothing of that.
  lemma {:induction false} FilterOfInFront<T>(s: seq<T>, keep: T -> bool, also: T -> bool)
    requires (forall i :: 0 <= i < |s| && also(s[i]) ==> keep(s[i]))
          || (forall i :: 0 <= i < |s| && also(s[i]) ==> !keep(s[i]))
    ensures Filter(InFront(s, keep), also) == Filter(s, also)
  {
    FilterJoins(Filter(s, keep), Filter(s, Not(keep)), also);
    FilterTwice(s, keep, also);
    FilterTwice(s, Not(keep), also);
    if forall i :: 0 <= i < |s| && also(s[i]) ==> keep(s[i]) {
      FilterAgrees(s, Both(keep, also), also);
      FilterNone(s, Both(Not(keep), also));
    } else {
      FilterNone(s, Both(keep, also));
      FilterAgrees(s, Both(Not(keep), also), also);
    }
  }
}
