// Text shared by the modules that cut and join it.
module Strings {
  import opened Wrappers

  // What ends the authority of a URL, and what ends its path (section 3 of RFC 3986).
  const AUTHORITY_STOPS: set<char> := {'/', '?', '#'}
  const PATH_STOPS: set<char> := {'?', '#'}

  // What follows the first `://`.
  function AfterMark(s: string): Option<string> {
    if |s| < 3 then None
    else if s[..3] == "://" then Some(s[3..])
    else AfterMark(s[1..])
  }

  // The text up to the first character in `stops`.
  function Until(s: string, stops: set<char>): string {
    if s == "" || s[0] in stops then "" else [s[0]] + Until(s[1..], stops)
  }

  predicate HasNone(s: string, stops: set<char>) {
    forall i :: 0 <= i < |s| ==> s[i] !in stops
  }

  // There is nothing more, or it starts with a character in `stops`.
  predicate StartsAfresh(s: string, stops: set<char>) {
    s == "" || s[0] in stops
  }

  lemma {:induction false} UntilIsPrefix(s: string, stops: set<char>)
    ensures var h := Until(s, stops);
            HasNone(h, stops) && |h| <= |s| && s[..|h|] == h && StartsAfresh(s[|h|..], stops)
    decreases |s|
  {
    if s != "" && s[0] !in stops {
      UntilIsPrefix(s[1..], stops);
      var h := Until(s[1..], stops);
      assert Until(s, stops) == [s[0]] + h;
      assert s[|h| + 1..] == s[1..][|h|..];
    }
  }

  lemma {:induction false} UntilOf(head: string, tail: string, stops: set<char>)
    requires HasNone(head, stops) && StartsAfresh(tail, stops)
    ensures Until(head + tail, stops) == head
    decreases |head|
  {
    if head == "" {
      assert head + tail == tail;
    } else {
      assert (head + tail)[1..] == head[1..] + tail;
      UntilOf(head[1..], tail, stops);
    }
  }

  // Nothing that comes after a stop matters.
  lemma {:induction false} UntilIgnoresTail(a: string, b: string, stops: set<char>)
    requires StartsAfresh(b, stops)
    ensures Until(a + b, stops) == Until(a, stops)
    decreases |a|
  {
    if a == "" {
      assert a + b == b;
    } else {
      assert (a + b)[1..] == a[1..] + b;
      UntilIgnoresTail(a[1..], b, stops);
    }
  }

  lemma {:induction false} UntilJoins(a: string, b: string, stops: set<char>)
    requires HasNone(a, stops)
    ensures Until(a + b, stops) == a + Until(b, stops)
    decreases |a|
  {
    if a == "" {
      assert a + b == b;
    } else {
      assert (a + b)[1..] == a[1..] + b;
      UntilJoins(a[1..], b, stops);
    }
  }

  lemma {:induction false} UntilIsShorter(s: string, stops: set<char>)
    ensures |Until(s, stops)| <= |s| && (Until(s, stops) == s <==> HasNone(s, stops))
    ensures |Until(s, stops)| == |s| ==> HasNone(s, stops)
    decreases |s|
  {
    if s != "" && s[0] !in stops {
      UntilIsShorter(s[1..], stops);
      assert s == [s[0]] + s[1..];
    }
  }

  lemma {:induction false} AfterMarkOf(scheme: string, rest: string)
    requires ':' !in scheme
    ensures AfterMark(scheme + "://" + rest) == Some(rest)
    decreases |scheme|
  {
    var s := scheme + "://" + rest;
    if scheme == "" {
      assert s[..3] == "://" && s[3..] == rest;
    } else {
      assert s[0] == scheme[0];
      assert s[1..] == scheme[1..] + "://" + rest;
      AfterMarkOf(scheme[1..], rest);
    }
  }

  // A head without stops, and a tail that is empty or starts with one, are told apart in one way.
  lemma SplitIsUnique(x: string, r: string, y: string, t: string, stops: set<char>)
    requires x + r == y + t
    requires HasNone(x, stops) && HasNone(y, stops)
    requires StartsAfresh(r, stops) && StartsAfresh(t, stops)
    ensures x == y && r == t
  {
    UntilOf(x, r, stops);
    UntilOf(y, t, stops);
    assert r == (x + r)[|x|..] && t == (y + t)[|y|..];
  }

  predicate IsMarkAt(s: string, i: nat) {
    i + 3 <= |s| && s[i] == ':' && s[i + 1] == '/' && s[i + 2] == '/'
  }

  // The first `://` stands at `i`.
  ghost predicate IsFirstMark(s: string, i: nat) {
    IsMarkAt(s, i) && forall j: nat :: j < i ==> !IsMarkAt(s, j)
  }

  // What follows the first mark is found, if there is a mark.
  lemma {:induction false} AfterMarkExactly(s: string) returns (i: nat)
    ensures match AfterMark(s)
            case Some(rest) => IsFirstMark(s, i) && rest == s[i + 3..]
            case None => forall j: nat :: !IsMarkAt(s, j)
    decreases |s|
  {
    i := 0;
    if |s| >= 3 {
      assert s[..3] == [s[0], s[1], s[2]];
      if s[..3] != "://" {
        assert !IsMarkAt(s, 0);
        i := AfterMarkExactly(s[1..]);
        assert forall j: nat :: j > 0 ==> (IsMarkAt(s, j) <==> IsMarkAt(s[1..], j - 1));
        i := i + 1;
      }
    }
  }
}
