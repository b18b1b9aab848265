/** The structural comparison of two JSON trees (src/contract.rs). */
module JsonDiff {
  import opened Arithmetic
  import opened Wrappers
  import opened Sequences
  import opened Json
  import Decimal

  datatype Detail =
    | MissingKey(expected: Json)
    | UnexpectedKey(actual: Json)
    | LengthMismatch(expectedLength: nat, actualLength: nat)
    | Differs(expectedValue: Json, actualValue: Json)

  // One reported mismatch: the path of the place, and what is wrong there.
  datatype Mismatch = Mismatch(path: seq<Segment>, detail: Detail)

  // ---------- The reported list ----------

  function Push(s: Segment, m: Mismatch): Mismatch {
    Mismatch([s] + m.path, m.detail)
  }

  // The mismatches of a child, as seen from its parent.
  function Below(s: Segment, ms: seq<Mismatch>): (r: seq<Mismatch>)
    ensures |r| == |ms|
    ensures forall i :: 0 <= i < |ms| ==> r[i] == Push(s, ms[i])
  {
    seq(|ms|, i requires 0 <= i < |ms| => Push(s, ms[i]))
  }

  // What `diff` reports, in its order.
  function Diff(e: Json, a: Json): seq<Mismatch>
    decreases e
  {
    if e == a then []
    else if e.Obj? && a.Obj? then
      KeyDiffs(e, a, SortedKeys(e.fields.Keys)) + Unexpected(e, a, SortedKeys(a.fields.Keys))
    else if e.Arr? && a.Arr? then
      LengthDiff(e, a) + ItemDiffs(e, a, 0)
    else [Mismatch([], Differs(e, a))]
  }

  // The part for expected keys.
  function KeyDiffs(e: Json, a: Json, keys: seq<string>): seq<Mismatch>
    requires e.Obj? && a.Obj?
    decreases e, |keys|
  {
    if keys == [] then [] else KeyDiff(e, a, keys[0]) + KeyDiffs(e, a, keys[1..])
  }

  function KeyDiff(e: Json, a: Json, key: string): seq<Mismatch>
    requires e.Obj? && a.Obj?
    decreases e, 0
  {
    if key !in e.fields then []
    else if key in a.fields then Below(Key(key), Diff(e.fields[key], a.fields[key]))
    else [Mismatch([Key(key)], MissingKey(e.fields[key]))]
  }

  // The part for keys that only the actual object has.
  function Unexpected(e: Json, a: Json, keys: seq<string>): seq<Mismatch>
    requires e.Obj? && a.Obj?
    decreases |keys|
  {
    if keys == [] then [] else OnlyActual(e, a, keys[0]) + Unexpected(e, a, keys[1..])
  }

  function OnlyActual(e: Json, a: Json, key: string): seq<Mismatch>
    requires e.Obj? && a.Obj?
  {
    if key in a.fields && key !in e.fields then [Mismatch([Key(key)], UnexpectedKey(a.fields[key]))] else []
  }

  function LengthDiff(e: Json, a: Json): seq<Mismatch>
    requires e.Arr? && a.Arr?
  {
    if |e.items| != |a.items| then [Mismatch([], LengthMismatch(|e.items|, |a.items|))] else []
  }

  // The part for common positions from `i` on.
  function ItemDiffs(e: Json, a: Json, i: nat): seq<Mismatch>
    requires e.Arr? && a.Arr?
    decreases e, |e.items| - i
  {
    if i >= |e.items| || i >= |a.items| then [] else ItemDiff(e, a, i) + ItemDiffs(e, a, i + 1)
  }

  function ItemDiff(e: Json, a: Json, i: nat): seq<Mismatch>
    requires e.Arr? && a.Arr? && i < |e.items| && i < |a.items|
    decreases e, 0
  {
    Below(Index(i), Diff(e.items[i], a.items[i]))
  }

  // ---------- What a mismatch says ----------

  // The mismatch is true of the two trees: both sides are read at its path, and the detail is
  // what was found there. Nothing here follows the order or the recursion of the comparison.
  ghost predicate Holds(m: Mismatch, e: Json, a: Json) {
    var inE, inA := Lookup(e, m.path), Lookup(a, m.path);
    match m.detail
    case MissingKey(x) => inE == Some(x) && LacksKey(a, m.path)
    case UnexpectedKey(y) => inA == Some(y) && LacksKey(e, m.path)
    case LengthMismatch(n, k) =>
      && inE.Some? && inE.value.Arr? && |inE.value.items| == n
      && inA.Some? && inA.value.Arr? && |inA.value.items| == k
      && n != k
    case Differs(x, y) =>
      inE == Some(x) && inA == Some(y) && x != y && !(x.Obj? && y.Obj?) && !(x.Arr? && y.Arr?)
  }

  // The path leads to an object that has not the last key of the path.
  ghost predicate LacksKey(t: Json, path: seq<Segment>) {
    && path != [] && path[|path| - 1].Key?
    && var parent := Lookup(t, path[..|path| - 1]);
    && parent.Some? && parent.value.Obj? && path[|path| - 1].name !in parent.value.fields
  }

  // ---------- The report is exact ----------

  function Pop(m: Mismatch): Mismatch
    requires m.path != []
  {
    Mismatch(m.path[1..], m.detail)
  }

  lemma PushPop(s: Segment, m: Mismatch)
    ensures Push(s, m).path[0] == s && Pop(Push(s, m)) == m
    ensures m.path != [] ==> Push(m.path[0], Pop(m)) == m
  {
  }

  lemma InBelow(s: Segment, ms: seq<Mismatch>, m: Mismatch)
    ensures m in Below(s, ms) <==> m.path != [] && m.path[0] == s && Pop(m) in ms
  {
    if m in Below(s, ms) {
      var i :| 0 <= i < |ms| && Below(s, ms)[i] == m;
      PushPop(s, ms[i]);
    }
    if m.path != [] && m.path[0] == s && Pop(m) in ms {
      var i :| 0 <= i < |ms| && ms[i] == Pop(m);
      PushPop(s, m);
      assert Below(s, ms)[i] == m;
    }
  }

  // The segment a mismatch of the part for `key` starts with.
  ghost predicate StartsAt(m: Mismatch, s: Segment) {
    m.path != [] && m.path[0] == s
  }

  lemma {:induction false} InKeyDiffs(e: Json, a: Json, keys: seq<string>, m: Mismatch)
    requires e.Obj? && a.Obj?
    ensures m in KeyDiffs(e, a, keys) <==>
            m.path != [] && m.path[0].Key? && m.path[0].name in keys && m in KeyDiff(e, a, m.path[0].name)
    decreases |keys|
  {
    if keys != [] {
      var k := keys[0];
      if k in e.fields && k in a.fields {
        InBelow(Key(k), Diff(e.fields[k], a.fields[k]), m);
      }
      InKeyDiffs(e, a, keys[1..], m);
    }
  }

  lemma {:induction false} InUnexpected(e: Json, a: Json, keys: seq<string>, m: Mismatch)
    requires e.Obj? && a.Obj?
    ensures m in Unexpected(e, a, keys) <==>
            && |m.path| == 1 && m.path[0].Key? && m.path[0].name in keys
            && m.path[0].name in a.fields && m.path[0].name !in e.fields
            && m.detail == UnexpectedKey(a.fields[m.path[0].name])
    decreases |keys|
  {
    if |m.path| == 1 {
      assert m.path == [m.path[0]];
    }
    if keys != [] {
      InUnexpected(e, a, keys[1..], m);
    }
  }

  lemma {:induction false} InItemDiffs(e: Json, a: Json, i: nat, m: Mismatch)
    requires e.Arr? && a.Arr?
    ensures m in ItemDiffs(e, a, i) <==>
            && m.path != [] && m.path[0].Index? && i <= m.path[0].at < Min(|e.items|, |a.items|)
            && Pop(m) in Diff(e.items[m.path[0].at], a.items[m.path[0].at])
    decreases |e.items| - i
  {
    if i < |e.items| && i < |a.items| {
      InBelow(Index(i), Diff(e.items[i], a.items[i]), m);
      InItemDiffs(e, a, i + 1, m);
    }
  }

  // The mismatch concerns a key that only one of two objects has.
  ghost predicate IsOneSided(m: Mismatch, e: Json, a: Json)
    requires e.Obj? && a.Obj?
  {
    && |m.path| == 1 && m.path[0].Key?
    && var k := m.path[0].name;
    || (k in e.fields && k !in a.fields && m.detail == MissingKey(e.fields[k]))
    || (k in a.fields && k !in e.fields && m.detail == UnexpectedKey(a.fields[k]))
  }

  // The mismatch lies inside a child that both trees have.
  ghost predicate IsInside(m: Mismatch, e: Json, a: Json) {
    && m.path != []
    && Child(e, m.path[0]).Some? && Child(a, m.path[0]).Some?
    && Pop(m) in Diff(Child(e, m.path[0]).value, Child(a, m.path[0]).value)
  }

  lemma InKeyDiff(e: Json, a: Json, k: string, m: Mismatch)
    requires e.Obj? && a.Obj? && StartsAt(m, Key(k))
    ensures m in KeyDiff(e, a, k) <==> IsInside(m, e, a) || (k !in a.fields && IsOneSided(m, e, a))
  {
    if k in e.fields && k in a.fields {
      InBelow(Key(k), Diff(e.fields[k], a.fields[k]), m);
    } else if |m.path| == 1 {
      assert m.path == [m.path[0]];
    }
  }

  lemma {:induction false} ObjectDiffParts(e: Json, a: Json, m: Mismatch)
    requires e.Obj? && a.Obj? && e != a
    ensures m in Diff(e, a) <==>
            m in KeyDiffs(e, a, SortedKeys(e.fields.Keys)) || m in Unexpected(e, a, SortedKeys(a.fields.Keys))
  {
  }

  lemma {:induction false} ObjectDiff(e: Json, a: Json, m: Mismatch)
    requires e.Obj? && a.Obj? && e != a
    ensures m in Diff(e, a) <==> IsOneSided(m, e, a) || IsInside(m, e, a)
  {
    ObjectDiffParts(e, a, m);
    InKeyDiffs(e, a, SortedKeys(e.fields.Keys), m);
    InUnexpected(e, a, SortedKeys(a.fields.Keys), m);
    if m.path != [] && m.path[0].Key? {
      SortedKeysHold(e.fields.Keys, m.path[0].name);
      SortedKeysHold(a.fields.Keys, m.path[0].name);
      InKeyDiff(e, a, m.path[0].name, m);
    }
  }

  lemma ArrayDiff(e: Json, a: Json, m: Mismatch)
    requires e.Arr? && a.Arr? && e != a
    ensures m in Diff(e, a) <==>
            || (|e.items| != |a.items| && m == Mismatch([], LengthMismatch(|e.items|, |a.items|)))
            || IsInside(m, e, a)
  {
    assert m in Diff(e, a) <==> m in LengthDiff(e, a) || m in ItemDiffs(e, a, 0);
    InItemDiffs(e, a, 0, m);
  }

  lemma NothingHoldsOfEqualTrees(m: Mismatch, t: Json)
    ensures !Holds(m, t, t)
  {
    if m.path != [] {
      var n := |m.path| - 1;
      LookupLast(t, m.path[..n], m.path[n]);
      assert m.path == m.path[..n] + [m.path[n]];
    }
  }

  lemma LacksKeyBelow(t: Json, path: seq<Segment>)
    requires |path| >= 2
    ensures LacksKey(t, path) <==> Child(t, path[0]).Some? && LacksKey(Child(t, path[0]).value, path[1..])
  {
    var n := |path| - 1;
    assert path[..n][1..] == path[1..][..n - 1];
    assert path[..n][0] == path[0];
  }

  // A mismatch with a longer path holds of two trees as the shorter one holds of their children.
  lemma HoldsInside(m: Mismatch, e: Json, a: Json)
    requires |m.path| >= 2 || (|m.path| == 1 && (m.detail.LengthMismatch? || m.detail.Differs?))
    ensures Holds(m, e, a) <==>
            && Child(e, m.path[0]).Some? && Child(a, m.path[0]).Some?
            && Holds(Pop(m), Child(e, m.path[0]).value, Child(a, m.path[0]).value)
  {
    if |m.path| >= 2 {
      LacksKeyBelow(e, m.path);
      LacksKeyBelow(a, m.path);
    }
  }

  // A mismatch with one segment about a key is true exactly when one object has the key and the other has not.
  lemma HoldsOfKey(m: Mismatch, e: Json, a: Json)
    requires |m.path| == 1 && (m.detail.MissingKey? || m.detail.UnexpectedKey?)
    ensures Holds(m, e, a) <==> e.Obj? && a.Obj? && IsOneSided(m, e, a)
  {
    assert m.path == [m.path[0]] && m.path[..0] == [];
    LookupLast(e, [], m.path[0]);
    LookupLast(a, [], m.path[0]);
    assert [] + [m.path[0]] == m.path;
  }

  // The report holds every true mismatch and nothing else.
  lemma {:induction false} DiffIsExact(e: Json, a: Json, m: Mismatch)
    ensures m in Diff(e, a) <==> Holds(m, e, a)
    decreases |m.path|
  {
    if e == a {
      NothingHoldsOfEqualTrees(m, e);
    } else {
      if m.path != [] && Child(e, m.path[0]).Some? && Child(a, m.path[0]).Some? {
        DiffIsExact(Child(e, m.path[0]).value, Child(a, m.path[0]).value, Pop(m));
      }
      HoldsHere(m, e, a);
      if e.Obj? && a.Obj? {
        ObjectDiff(e, a, m);
      } else if e.Arr? && a.Arr? {
        ArrayDiff(e, a, m);
      }
    }
  }

  lemma NoKeyIsMissingAtRoot(m: Mismatch, e: Json, a: Json)
    requires m.path == [] && (m.detail.MissingKey? || m.detail.UnexpectedKey?)
    ensures !Holds(m, e, a)
  {
  }

  // What holds of two trees, by their kinds.
  lemma HoldsHere(m: Mismatch, e: Json, a: Json)
    requires e != a
    requires m.path != [] && Child(e, m.path[0]).Some? && Child(a, m.path[0]).Some? ==>
               (Pop(m) in Diff(Child(e, m.path[0]).value, Child(a, m.path[0]).value) <==>
                Holds(Pop(m), Child(e, m.path[0]).value, Child(a, m.path[0]).value))
    ensures Holds(m, e, a) <==>
            if e.Obj? && a.Obj? then IsOneSided(m, e, a) || IsInside(m, e, a)
            else if e.Arr? && a.Arr? then
              || (|e.items| != |a.items| && m == Mismatch([], LengthMismatch(|e.items|, |a.items|)))
              || IsInside(m, e, a)
            else m == Mismatch([], Differs(e, a))
  {
    if |m.path| == 1 && (m.detail.MissingKey? || m.detail.UnexpectedKey?) {
      HoldsOfKey(m, e, a);
      if Child(e, m.path[0]).Some? && Child(a, m.path[0]).Some? {
        NoKeyIsMissingAtRoot(Pop(m), Child(e, m.path[0]).value, Child(a, m.path[0]).value);
      }
    } else if m.path != [] {
      HoldsInside(m, e, a);
    }
  }

  // ---------- What follows from exactness ----------

  lemma InsideIsReported(e: Json, a: Json, s: Segment, m: Mismatch)
    requires Child(e, s).Some? && Child(a, s).Some? && m in Diff(Child(e, s).value, Child(a, s).value)
    ensures Push(s, m) in Diff(e, a)
  {
    PushPop(s, m);
    if e == a {
      DiffIsExact(Child(e, s).value, Child(a, s).value, m);
      NothingHoldsOfEqualTrees(m, Child(e, s).value);
    } else if e.Obj? {
      ObjectDiff(e, a, Push(s, m));
    } else {
      ArrayDiff(e, a, Push(s, m));
    }
  }

  lemma MapsDifferAtKey(x: map<string, Json>, y: map<string, Json>)
    ensures x == y || exists k :: (k in x || k in y) && (k !in x || k !in y || x[k] != y[k])
  {
    if forall k :: k in x || k in y ==> k in x && k in y && x[k] == y[k] {
      assert x == y;
    }
  }

  lemma ListsDifferAtIndex(x: seq<Json>, y: seq<Json>)
    requires |x| == |y|
    ensures x == y || exists i :: 0 <= i < |x| && x[i] != y[i]
  {
  }

  // Two different trees of one kind with children differ in their number of items, in a key that
  // only one has, or in a common child.
  lemma DifferentChild(e: Json, a: Json) returns (s: Segment)
    requires e != a && ((e.Obj? && a.Obj?) || (e.Arr? && a.Arr?))
    ensures e.Obj? || |e.items| == |a.items| ==> Child(e, s) != Child(a, s)
  {
    s := Index(0);
    if e.Obj? {
      MapsDifferAtKey(e.fields, a.fields);
      var k :| (k in e.fields || k in a.fields) && (k !in e.fields || k !in a.fields || e.fields[k] != a.fields[k]);
      s := Key(k);
    } else if |e.items| == |a.items| {
      ListsDifferAtIndex(e.items, a.items);
      var i :| 0 <= i < |e.items| && e.items[i] != a.items[i];
      s := Index(i);
    }
  }

  // A child that only one tree has, or the kinds of the trees, are reported at once.
  lemma DifferenceHere(e: Json, a: Json, s: Segment) returns (m: Mismatch)
    requires Child(e, s) != Child(a, s) && (Child(e, s).None? || Child(a, s).None?)
    ensures m in Diff(e, a) && m.path <= [s]
  {
    if e.Obj? && a.Obj? {
      var detail := if Child(e, s).Some? then MissingKey(e.fields[s.name]) else UnexpectedKey(a.fields[s.name]);
      m := Mismatch([s], detail);
      ObjectDiff(e, a, m);
    } else if e.Arr? && a.Arr? {
      m := Mismatch([], LengthMismatch(|e.items|, |a.items|));
      ArrayDiff(e, a, m);
    } else {
      m := Mismatch([], Differs(e, a));
    }
  }

  // Every place where the trees differ lies at, above or below a reported path.
  lemma {:induction false} DiffCovers(e: Json, a: Json, place: seq<Segment>) returns (m: Mismatch)
    requires Lookup(e, place) != Lookup(a, place)
    ensures m in Diff(e, a) && (m.path <= place || place <= m.path)
    decreases e
  {
    if place != [] {
      var s := place[0];
      if Child(e, s).Some? && Child(a, s).Some? {
        var inner := DiffCovers(Child(e, s).value, Child(a, s).value, place[1..]);
        InsideIsReported(e, a, s, inner);
        m := Push(s, inner);
      } else {
        m := DifferenceHere(e, a, s);
      }
    } else if (e.Obj? && a.Obj?) || (e.Arr? && a.Arr? && |e.items| == |a.items|) {
      var s := DifferentChild(e, a);
      if Child(e, s).Some? && Child(a, s).Some? {
        var inner := DiffCovers(Child(e, s).value, Child(a, s).value, []);
        InsideIsReported(e, a, s, inner);
        m := Push(s, inner);
      } else {
        m := DifferenceHere(e, a, s);
      }
    } else if e.Arr? && a.Arr? {
      m := Mismatch([], LengthMismatch(|e.items|, |a.items|));
      ArrayDiff(e, a, m);
    } else {
      m := Mismatch([], Differs(e, a));
    }
  }

  // Nothing is reported exactly for equal trees.
  lemma DiffIsEmptyExactlyForEqualTrees(e: Json, a: Json)
    ensures Diff(e, a) == [] <==> e == a
  {
    if e != a {
      var m := DiffCovers(e, a, []);
    }
  }

  // At every reported path the trees really differ.
  lemma ReportedPlacesDiffer(e: Json, a: Json, m: Mismatch)
    requires m in Diff(e, a)
    ensures Lookup(e, m.path) != Lookup(a, m.path)
  {
    DiffIsExact(e, a, m);
    if m.path != [] {
      var n := |m.path| - 1;
      assert m.path == m.path[..n] + [m.path[n]];
      LookupLast(e, m.path[..n], m.path[n]);
      LookupLast(a, m.path[..n], m.path[n]);
    }
  }

  // The mismatch with the two sides exchanged.
  function Swap(m: Mismatch): Mismatch {
    match m.detail
    case MissingKey(x) => Mismatch(m.path, UnexpectedKey(x))
    case UnexpectedKey(y) => Mismatch(m.path, MissingKey(y))
    case LengthMismatch(n, k) => Mismatch(m.path, LengthMismatch(k, n))
    case Differs(x, y) => Mismatch(m.path, Differs(y, x))
  }

  ghost predicate IsReported(e: Json, a: Json, path: seq<Segment>) {
    exists m :: m in Diff(e, a) && m.path == path
  }

  // Swapping the arguments exchanges the sides of each mismatch ...
  lemma DiffSwaps(e: Json, a: Json, m: Mismatch)
    ensures m in Diff(e, a) <==> Swap(m) in Diff(a, e)
  {
    DiffIsExact(e, a, m);
    DiffIsExact(a, e, Swap(m));
  }

  lemma {:induction false} SwappedIsReported(e: Json, a: Json, path: seq<Segment>)
    requires IsReported(e, a, path)
    ensures IsReported(a, e, path)
  {
    var m :| m in Diff(e, a) && m.path == path;
    DiffSwaps(e, a, m);
    ReportedBy(a, e, Swap(m));
  }

  lemma {:induction false} ReportedBy(e: Json, a: Json, m: Mismatch)
    requires m in Diff(e, a)
    ensures IsReported(e, a, m.path)
  {
  }

  // ... and reports the same places.
  lemma SwapReportsSamePlaces(e: Json, a: Json, path: seq<Segment>)
    ensures IsReported(e, a, path) <==> IsReported(a, e, path)
  {
    if IsReported(e, a, path) {
      SwappedIsReported(e, a, path);
    }
    if IsReported(a, e, path) {
      SwappedIsReported(a, e, path);
    }
  }

  // ---------- The order of the report ----------

  ghost predicate HasKey(t: Json, key: string) {
    t.Obj? && key in t.fields
  }

  // Positions ascend. Keys of the expected object come first, then those of the actual one alone; both
  // ascend.
  ghost predicate SegmentPrecedes(s: Segment, t: Segment, e: Json) {
    match (s, t)
    case (Index(i), Index(j)) => i < j
    case (Key(k), Key(l)) => if HasKey(e, k) == HasKey(e, l) then k != l && Leq(k, l) else HasKey(e, k)
    case _ => false
  }

  // The place `p` stands before the place `q`: above it, or before it where their paths part.
  ghost predicate Precedes(p: seq<Segment>, q: seq<Segment>, e: Json)
    decreases |p|
  {
    if p == [] || q == [] then p == [] && q != []
    else if p[0] == q[0] then Child(e, p[0]).Some? && Precedes(p[1..], q[1..], Child(e, p[0]).value)
    else SegmentPrecedes(p[0], q[0], e)
  }

  lemma {:induction false} PrecedesOneWay(p: seq<Segment>, q: seq<Segment>, e: Json)
    requires Precedes(p, q, e)
    ensures !Precedes(q, p, e) && p != q
    decreases |p|
  {
    if p != [] && q != [] {
      if p[0] == q[0] {
        PrecedesOneWay(p[1..], q[1..], Child(e, p[0]).value);
      } else if p[0].Key? && q[0].Key? && Leq(p[0].name, q[0].name) && Leq(q[0].name, p[0].name) {
        LeqAntisymmetric(p[0].name, q[0].name);
      }
    }
  }

  // Every place stands before the places reported after it.
  ghost predicate InOrder(ms: seq<Mismatch>, e: Json) {
    forall i, j :: 0 <= i < j < |ms| ==> Precedes(ms[i].path, ms[j].path, e)
  }

  ghost predicate AllPrecede(x: seq<Mismatch>, y: seq<Mismatch>, e: Json) {
    forall m, n :: m in x && n in y ==> Precedes(m.path, n.path, e)
  }

  lemma {:induction false} JoinInOrder(x: seq<Mismatch>, y: seq<Mismatch>, e: Json)
    requires InOrder(x, e) && InOrder(y, e) && AllPrecede(x, y, e)
    ensures InOrder(x + y, e)
  {
    forall i, j | 0 <= i < j < |x + y|
      ensures Precedes((x + y)[i].path, (x + y)[j].path, e)
    {
      if i < |x| <= j {
        assert x[i] in x && y[j - |x|] in y;
      }
    }
  }

  lemma {:induction false} BelowInOrder(s: Segment, ms: seq<Mismatch>, e: Json)
    requires Child(e, s).Some? && InOrder(ms, Child(e, s).value)
    ensures InOrder(Below(s, ms), e)
  {
    var r := Below(s, ms);
    forall i, j | 0 <= i < j < |r|
      ensures Precedes(r[i].path, r[j].path, e)
    {
      assert r[i] == Push(s, ms[i]) && r[j] == Push(s, ms[j]);
      PushedPrecedes(s, ms[i].path, ms[j].path, e);
    }
  }

  lemma {:induction false} PushedPrecedes(s: Segment, p: seq<Segment>, q: seq<Segment>, e: Json)
    requires Child(e, s).Some? && Precedes(p, q, Child(e, s).value)
    ensures Precedes([s] + p, [s] + q, e)
  {
    assert ([s] + p)[1..] == p && ([s] + q)[1..] == q;
  }

  lemma {:induction false} KeyDiffStarts(e: Json, a: Json, k: string, m: Mismatch)
    requires e.Obj? && a.Obj? && m in KeyDiff(e, a, k)
    ensures m.path != [] && m.path[0] == Key(k)
  {
    if k in e.fields && k in a.fields {
      InBelow(Key(k), Diff(e.fields[k], a.fields[k]), m);
    }
  }

  lemma {:induction false} KeyDiffsInOrder(e: Json, a: Json, keys: seq<string>)
    requires e.Obj? && a.Obj? && Ascends(keys) && forall k :: k in keys ==> k in e.fields
    ensures InOrder(KeyDiffs(e, a, keys), e)
    decreases e, |keys|
  {
    if keys != [] {
      var k, rest := keys[0], keys[1..];
      if k in a.fields {
        DiffInOrder(e.fields[k], a.fields[k]);
        BelowInOrder(Key(k), Diff(e.fields[k], a.fields[k]), e);
      }
      KeyDiffsInOrder(e, a, rest);
      forall m, n | m in KeyDiff(e, a, k) && n in KeyDiffs(e, a, rest)
        ensures Precedes(m.path, n.path, e)
      {
        KeyDiffStarts(e, a, k, m);
        InKeyDiffs(e, a, rest, n);
        FirstKeyPrecedes(keys, n.path[0].name);
      }
      JoinInOrder(KeyDiff(e, a, k), KeyDiffs(e, a, rest), e);
    }
  }

  lemma {:induction false} FirstKeyPrecedes(keys: seq<string>, k: string)
    requires keys != [] && Ascends(keys) && k in keys[1..]
    ensures keys[0] != k && Leq(keys[0], k)
  {
    var i :| 0 <= i < |keys[1..]| && keys[1..][i] == k;
    assert keys[i + 1] == k;
  }

  lemma {:induction false} UnexpectedInOrder(e: Json, a: Json, keys: seq<string>)
    requires e.Obj? && a.Obj? && Ascends(keys)
    ensures InOrder(Unexpected(e, a, keys), e)
    decreases |keys|
  {
    if keys != [] {
      var k, rest := keys[0], keys[1..];
      UnexpectedInOrder(e, a, rest);
      forall m, n | m in OnlyActual(e, a, k) && n in Unexpected(e, a, rest)
        ensures Precedes(m.path, n.path, e)
      {
        InUnexpected(e, a, rest, n);
        FirstKeyPrecedes(keys, n.path[0].name);
      }
      JoinInOrder(OnlyActual(e, a, k), Unexpected(e, a, rest), e);
    }
  }

  lemma {:induction false} ItemDiffsInOrder(e: Json, a: Json, i: nat)
    requires e.Arr? && a.Arr?
    ensures InOrder(ItemDiffs(e, a, i), e)
    decreases e, |e.items| - i
  {
    if i < |e.items| && i < |a.items| {
      DiffInOrder(e.items[i], a.items[i]);
      BelowInOrder(Index(i), Diff(e.items[i], a.items[i]), e);
      ItemDiffsInOrder(e, a, i + 1);
      forall m, n | m in ItemDiff(e, a, i) && n in ItemDiffs(e, a, i + 1)
        ensures Precedes(m.path, n.path, e)
      {
        InBelow(Index(i), Diff(e.items[i], a.items[i]), m);
        InItemDiffs(e, a, i + 1, n);
      }
      JoinInOrder(ItemDiff(e, a, i), ItemDiffs(e, a, i + 1), e);
    }
  }

  lemma {:induction false} ObjectInOrder(e: Json, a: Json)
    requires e.Obj? && a.Obj?
    ensures InOrder(KeyDiffs(e, a, SortedKeys(e.fields.Keys)) + Unexpected(e, a, SortedKeys(a.fields.Keys)), e)
    decreases e, 1 + |SortedKeys(e.fields.Keys)|
  {
    var keys, others := SortedKeys(e.fields.Keys), SortedKeys(a.fields.Keys);
    SortedKeysAscend(e.fields.Keys);
    SortedKeysAscend(a.fields.Keys);
    forall k | k in keys
      ensures k in e.fields
    {
      SortedKeysHold(e.fields.Keys, k);
    }
    KeyDiffsInOrder(e, a, keys);
    UnexpectedInOrder(e, a, others);
    forall m, n | m in KeyDiffs(e, a, keys) && n in Unexpected(e, a, others)
      ensures Precedes(m.path, n.path, e)
    {
      InKeyDiffs(e, a, keys, m);
      InUnexpected(e, a, others, n);
    }
    JoinInOrder(KeyDiffs(e, a, keys), Unexpected(e, a, others), e);
  }

  lemma {:induction false} ArrayInOrder(e: Json, a: Json)
    requires e.Arr? && a.Arr?
    ensures InOrder(LengthDiff(e, a) + ItemDiffs(e, a, 0), e)
    decreases e, 1 + |e.items|
  {
    ItemDiffsInOrder(e, a, 0);
    forall m, n | m in LengthDiff(e, a) && n in ItemDiffs(e, a, 0)
      ensures Precedes(m.path, n.path, e)
    {
      InItemDiffs(e, a, 0, n);
    }
    JoinInOrder(LengthDiff(e, a), ItemDiffs(e, a, 0), e);
  }

  // The report stands in the order of its places.
  lemma {:induction false} DiffInOrder(e: Json, a: Json)
    ensures InOrder(Diff(e, a), e)
    decreases e
  {
    if e != a && e.Obj? && a.Obj? {
      ObjectInOrder(e, a);
    } else if e != a && e.Arr? && a.Arr? {
      ArrayInOrder(e, a);
    }
  }

  // The report of a comparison: exactly the true mismatches, in the order of their places.
  ghost predicate IsReport(ms: seq<Mismatch>, e: Json, a: Json) {
    (forall m :: m in ms <==> Holds(m, e, a)) && InOrder(ms, e)
  }

  lemma {:induction false} SameFirst(x: seq<Mismatch>, y: seq<Mismatch>, e: Json)
    requires InOrder(x, e) && InOrder(y, e) && x != [] && y != [] && x[0] in y && y[0] in x
    ensures x[0] == y[0]
  {
    var i :| 0 <= i < |x| && x[i] == y[0];
    var j :| 0 <= j < |y| && y[j] == x[0];
    if i > 0 && j > 0 {
      assert Precedes(x[0].path, x[i].path, e) && Precedes(y[0].path, y[j].path, e);
      PrecedesOneWay(x[0].path, y[0].path, e);
      assert false;
    }
  }

  lemma {:induction false} FirstIsOnce(x: seq<Mismatch>, e: Json)
    requires InOrder(x, e) && x != []
    ensures x[0] !in x[1..]
  {
    if x[0] in x[1..] {
      var i :| 0 <= i < |x[1..]| && x[1..][i] == x[0];
      assert x[i + 1] == x[0];
      PrecedesOneWay(x[0].path, x[i + 1].path, e);
      assert false;
    }
  }

  lemma {:induction false} EmptyTogether(x: seq<Mismatch>, y: seq<Mismatch>)
    requires forall m :: m in x <==> m in y
    ensures x == [] <==> y == []
  {
    if x != [] {
      assert x[0] in x;
    }
    if y != [] {
      assert y[0] in y;
    }
  }

  lemma {:induction false} OrderedListsAreOne(x: seq<Mismatch>, y: seq<Mismatch>, e: Json)
    requires InOrder(x, e) && InOrder(y, e) && forall m :: m in x <==> m in y
    ensures x == y
    decreases |x|
  {
    EmptyTogether(x, y);
    if x != [] {
      SameFirst(x, y, e);
      FirstIsOnce(x, e);
      FirstIsOnce(y, e);
      assert x == [x[0]] + x[1..] && y == [y[0]] + y[1..];
      forall m
        ensures m in x[1..] <==> m in y[1..]
      {
        assert m in x <==> m == x[0] || m in x[1..];
        assert m in y <==> m == y[0] || m in y[1..];
      }
      OrderedListsAreOne(x[1..], y[1..], e);
    }
  }

  lemma DiffIsReport(e: Json, a: Json)
    ensures IsReport(Diff(e, a), e, a)
  {
    DiffInOrder(e, a);
    forall m
      ensures m in Diff(e, a) <==> Holds(m, e, a)
    {
      DiffIsExact(e, a, m);
    }
  }

  // There is one report: the true mismatches stand in no other list in that order.
  lemma {:induction false} ReportIsDetermined(ms: seq<Mismatch>, e: Json, a: Json)
    ensures IsReport(ms, e, a) <==> ms == Diff(e, a)
  {
    DiffIsReport(e, a);
    if IsReport(ms, e, a) {
      OrderedListsAreOne(ms, Diff(e, a), e);
    }
  }

  // ---------- No place is reported twice ----------

  ghost predicate DistinctPaths(ms: seq<Mismatch>) {
    forall i, j :: 0 <= i < j < |ms| ==> ms[i].path != ms[j].path
  }

  ghost predicate NoCommonPath(x: seq<Mismatch>, y: seq<Mismatch>) {
    forall i, j :: 0 <= i < |x| && 0 <= j < |y| ==> x[i].path != y[j].path
  }

  lemma JoinedPathsAreDistinct(x: seq<Mismatch>, y: seq<Mismatch>)
    requires DistinctPaths(x) && DistinctPaths(y) && NoCommonPath(x, y)
    ensures DistinctPaths(x + y)
  {
  }

  lemma BelowKeepsDistinct(s: Segment, ms: seq<Mismatch>)
    requires DistinctPaths(ms)
    ensures DistinctPaths(Below(s, ms))
  {
    var r := Below(s, ms);
    forall i, j | 0 <= i < j < |r|
      ensures r[i].path != r[j].path
    {
      PushPop(s, ms[i]);
      PushPop(s, ms[j]);
    }
  }

  ghost predicate DistinctKeys(keys: seq<string>) {
    forall i, j :: 0 <= i < j < |keys| ==> keys[i] != keys[j]
  }

  lemma {:induction false} KeyDiffsAreDistinct(e: Json, a: Json, keys: seq<string>)
    requires e.Obj? && a.Obj? && DistinctKeys(keys)
    ensures DistinctPaths(KeyDiffs(e, a, keys))
    decreases e, |keys|
  {
    if keys != [] {
      var k := keys[0];
      var first, rest := KeyDiff(e, a, k), KeyDiffs(e, a, keys[1..]);
      if k in e.fields && k in a.fields {
        DiffPathsAreDistinct(e.fields[k], a.fields[k]);
        BelowKeepsDistinct(Key(k), Diff(e.fields[k], a.fields[k]));
      }
      KeyDiffsAreDistinct(e, a, keys[1..]);
      assert k !in keys[1..];
      forall j | 0 <= j < |rest|
        ensures rest[j].path != [] && rest[j].path[0] != Key(k)
      {
        InKeyDiffs(e, a, keys[1..], rest[j]);
      }
      assert forall i :: 0 <= i < |first| ==> first[i].path[0] == Key(k);
      JoinedPathsAreDistinct(first, rest);
    }
  }

  lemma {:induction false} UnexpectedAreDistinct(e: Json, a: Json, keys: seq<string>)
    requires e.Obj? && a.Obj? && DistinctKeys(keys)
    ensures DistinctPaths(Unexpected(e, a, keys))
    decreases |keys|
  {
    if keys != [] {
      var rest := Unexpected(e, a, keys[1..]);
      UnexpectedAreDistinct(e, a, keys[1..]);
      forall j | 0 <= j < |rest|
        ensures rest[j].path != [Key(keys[0])]
      {
        InUnexpected(e, a, keys[1..], rest[j]);
      }
    }
  }

  lemma {:induction false} ItemDiffsAreDistinct(e: Json, a: Json, i: nat)
    requires e.Arr? && a.Arr?
    ensures DistinctPaths(ItemDiffs(e, a, i))
    decreases e, |e.items| - i
  {
    if i < |e.items| && i < |a.items| {
      var first, rest := Below(Index(i), Diff(e.items[i], a.items[i])), ItemDiffs(e, a, i + 1);
      DiffPathsAreDistinct(e.items[i], a.items[i]);
      BelowKeepsDistinct(Index(i), Diff(e.items[i], a.items[i]));
      ItemDiffsAreDistinct(e, a, i + 1);
      forall j | 0 <= j < |rest|
        ensures rest[j].path != [] && rest[j].path[0] != Index(i)
      {
        InItemDiffs(e, a, i + 1, rest[j]);
      }
      assert forall j :: 0 <= j < |first| ==> first[j].path[0] == Index(i);
      JoinedPathsAreDistinct(first, rest);
    }
  }

  lemma PartsShareNoPath(e: Json, a: Json, keys: seq<string>, others: seq<string>)
    requires e.Obj? && a.Obj? && forall k :: k in keys ==> k in e.fields
    ensures NoCommonPath(KeyDiffs(e, a, keys), Unexpected(e, a, others))
  {
    var x, y := KeyDiffs(e, a, keys), Unexpected(e, a, others);
    forall i, j | 0 <= i < |x| && 0 <= j < |y|
      ensures x[i].path != y[j].path
    {
      InKeyDiffs(e, a, keys, x[i]);
      InUnexpected(e, a, others, y[j]);
    }
  }

  // No path is reported twice.
  lemma {:induction false} DiffPathsAreDistinct(e: Json, a: Json)
    ensures DistinctPaths(Diff(e, a))
    decreases e
  {
    if e != a && e.Obj? && a.Obj? {
      var keys, others := SortedKeys(e.fields.Keys), SortedKeys(a.fields.Keys);
      SortedKeysAreTheKeys(e.fields.Keys);
      SortedKeysAreTheKeys(a.fields.Keys);
      KeyDiffsAreDistinct(e, a, keys);
      UnexpectedAreDistinct(e, a, others);
      PartsShareNoPath(e, a, keys, others);
      JoinedPathsAreDistinct(KeyDiffs(e, a, keys), Unexpected(e, a, others));
    } else if e != a && e.Arr? && a.Arr? {
      var rest := ItemDiffs(e, a, 0);
      ItemDiffsAreDistinct(e, a, 0);
      forall j | 0 <= j < |rest|
        ensures rest[j].path != []
      {
        InItemDiffs(e, a, 0, rest[j]);
      }
      JoinedPathsAreDistinct(LengthDiff(e, a), rest);
    }
  }

  // ---------- Replaying the report as edits ----------

  // The tree with the child at `s` replaced.
  function WithChild(t: Json, s: Segment, c: Json): Json
    requires Child(t, s).Some?
  {
    match s
    case Key(k) => Obj(t.fields[k := c])
    case Index(i) => Arr(t.items[i := c])
  }

  // One mismatch as an edit: a missing key is deleted, an unexpected key inserted, a differing
  // value replaced; a length mismatch names no items and edits nothing.
  function Patch(t: Json, m: Mismatch): Json
    decreases |m.path|
  {
    if m.path == [] then
      if m.detail.Differs? then m.detail.actualValue else t
    else if |m.path| == 1 && t.Obj? && m.path[0].Key? && m.detail.MissingKey? then
      Obj(t.fields - {m.path[0].name})
    else if |m.path| == 1 && t.Obj? && m.path[0].Key? && m.detail.UnexpectedKey? then
      Obj(t.fields[m.path[0].name := m.detail.actual])
    else match Child(t, m.path[0])
         case None => t
         case Some(c) => WithChild(t, m.path[0], Patch(c, Pop(m)))
  }

  function Replay(t: Json, ms: seq<Mismatch>): Json
    decreases |ms|
  {
    if ms == [] then t else Replay(Patch(t, ms[0]), ms[1..])
  }

  lemma {:induction false} ReplayJoins(t: Json, x: seq<Mismatch>, y: seq<Mismatch>)
    ensures Replay(t, x + y) == Replay(Replay(t, x), y)
    decreases |x|
  {
    if x == [] {
      assert x + y == y;
    } else {
      assert (x + y)[0] == x[0] && (x + y)[1..] == x[1..] + y;
      ReplayJoins(Patch(t, x[0]), x[1..], y);
    }
  }

  // No mismatch speaks of a key of the parent.
  ghost predicate StaysInside(ms: seq<Mismatch>) {
    forall i :: 0 <= i < |ms| ==> ms[i].path != [] || ms[i].detail.Differs? || ms[i].detail.LengthMismatch?
  }

  lemma DiffStaysInside(e: Json, a: Json)
    ensures StaysInside(Diff(e, a))
  {
    var ms := Diff(e, a);
    forall i | 0 <= i < |ms|
      ensures ms[i].path != [] || ms[i].detail.Differs? || ms[i].detail.LengthMismatch?
    {
      assert ms[i] in ms;
      DiffIsExact(e, a, ms[i]);
    }
  }

  lemma PatchBelow(t: Json, s: Segment, m: Mismatch)
    requires Child(t, s).Some?
    requires m.path != [] || m.detail.Differs? || m.detail.LengthMismatch?
    ensures Patch(t, Push(s, m)) == WithChild(t, s, Patch(Child(t, s).value, m))
  {
    PushPop(s, m);
  }

  // Edits below a child change that child only.
  lemma {:induction false} ReplayBelow(t: Json, s: Segment, ms: seq<Mismatch>)
    requires Child(t, s).Some? && StaysInside(ms)
    ensures Replay(t, Below(s, ms)) == WithChild(t, s, Replay(Child(t, s).value, ms))
    decreases |ms|
  {
    var c := Child(t, s).value;
    if ms == [] {
      assert WithChild(t, s, c) == t;
    } else {
      var next := Patch(c, ms[0]);
      PatchBelow(t, s, ms[0]);
      assert Below(s, ms)[1..] == Below(s, ms[1..]);
      ReplayBelow(WithChild(t, s, next), s, ms[1..]);
      WithChildTwice(t, s, next, Replay(next, ms[1..]));
    }
  }

  lemma WithChildTwice(t: Json, s: Segment, c: Json, d: Json)
    requires Child(t, s).Some?
    ensures Child(WithChild(t, s, c), s) == Some(c)
    ensures WithChild(WithChild(t, s, c), s, d) == WithChild(t, s, d)
  {
    if s.Key? {
      assert t.fields[s.name := c][s.name := d] == t.fields[s.name := d];
    } else {
      assert t.items[s.at := c][s.at := d] == t.items[s.at := d];
    }
  }

  // The actual tree as far as the expected one reaches: where two arrays differ in length, the
  // result keeps the expected length, with the expected items past the common part.
  function Merged(e: Json, a: Json): Json
    decreases e
  {
    if e == a then e
    else if e.Obj? && a.Obj? then
      Obj(map k | k in a.fields :: if k in e.fields then Merged(e.fields[k], a.fields[k]) else a.fields[k])
    else if e.Arr? && a.Arr? then
      Arr(seq(|e.items|, i requires 0 <= i < |e.items| =>
        if i < |a.items| then Merged(e.items[i], a.items[i]) else e.items[i]))
    else a
  }

  // `t` is an object whose values are merged at the keys `done`, and those of `start` elsewhere.
  ghost predicate KeysMerged(t: Json, start: map<string, Json>, done: seq<string>, e: Json, a: Json)
    requires e.Obj? && a.Obj?
  {
    && t.Obj?
    && (forall k :: k in done ==> (k in t.fields <==> k in a.fields))
    && (forall k :: k in done && k in e.fields && k in a.fields && k in t.fields ==>
          t.fields[k] == Merged(e.fields[k], a.fields[k]))
    && (forall k :: k !in done ==> (k in t.fields <==> k in start))
    && (forall k :: k !in done && k in start && k in t.fields ==> t.fields[k] == start[k])
  }

  // One key: the edits that concern it merge it and touch no other key.
  lemma ReplayKey(e: Json, a: Json, k: string, f: map<string, Json>)
    requires e.Obj? && a.Obj? && k in e.fields && k in f && f[k] == e.fields[k]
    requires k in a.fields ==> Replay(e.fields[k], Diff(e.fields[k], a.fields[k])) == Merged(e.fields[k], a.fields[k])
    ensures Replay(Obj(f), KeyDiff(e, a, k)) ==
            Obj(if k in a.fields then f[k := Merged(e.fields[k], a.fields[k])] else f - {k})
  {
    if k in a.fields {
      DiffStaysInside(e.fields[k], a.fields[k]);
      ReplayBelow(Obj(f), Key(k), Diff(e.fields[k], a.fields[k]));
    }
  }

  lemma {:induction false} ReplayKeys(e: Json, a: Json, keys: seq<string>, f: map<string, Json>)
    requires e.Obj? && a.Obj? && DistinctKeys(keys)
    requires forall k :: k in keys ==> k in e.fields && k in f && f[k] == e.fields[k]
    ensures KeysMerged(Replay(Obj(f), KeyDiffs(e, a, keys)), f, keys, e, a)
    decreases e, |keys|
  {
    if keys != [] {
      var k := keys[0];
      var merged := f - {k};
      if k in a.fields {
        ReplayMerges(e.fields[k], a.fields[k]);
        merged := f[k := Merged(e.fields[k], a.fields[k])];
      }
      ReplayKey(e, a, k, f);
      ReplayJoins(Obj(f), KeyDiff(e, a, k), KeyDiffs(e, a, keys[1..]));
      assert k !in keys[1..];
      assert forall x :: x in keys[1..] ==> x in merged && merged[x] == e.fields[x];
      ReplayKeys(e, a, keys[1..], merged);
      assert forall x :: x in keys <==> x == k || x in keys[1..];
    }
  }

  lemma {:induction false} ReplayUnexpected(e: Json, a: Json, keys: seq<string>, f: map<string, Json>)
    requires e.Obj? && a.Obj?
    ensures var t := Replay(Obj(f), Unexpected(e, a, keys));
            && t.Obj?
            && (forall k :: k in t.fields <==> k in f || (k in keys && k in a.fields && k !in e.fields))
            && (forall k :: k in t.fields ==>
                  t.fields[k] == if k in keys && k in a.fields && k !in e.fields then a.fields[k] else f[k])
    decreases |keys|
  {
    if keys != [] {
      var k := keys[0];
      if k in a.fields && k !in e.fields {
        var m := Mismatch([Key(k)], UnexpectedKey(a.fields[k]));
        ReplayJoins(Obj(f), [m], Unexpected(e, a, keys[1..]));
        assert Replay(Obj(f), [m]) == Obj(f[k := a.fields[k]]);
        ReplayUnexpected(e, a, keys[1..], f[k := a.fields[k]]);
      } else {
        assert Unexpected(e, a, keys) == Unexpected(e, a, keys[1..]);
        ReplayUnexpected(e, a, keys[1..], f);
      }
    }
  }

  ghost predicate IsMergedMap(f: map<string, Json>, e: Json, a: Json)
    requires e.Obj? && a.Obj?
  {
    && (forall k :: k in f <==> k in a.fields)
    && (forall k :: k in f && k in e.fields ==> f[k] == Merged(e.fields[k], a.fields[k]))
    && (forall k :: k in f && k !in e.fields ==> f[k] == a.fields[k])
  }

  lemma MergedMapIsMerged(f: map<string, Json>, e: Json, a: Json)
    requires e.Obj? && a.Obj? && e != a && IsMergedMap(f, e, a)
    ensures Obj(f) == Merged(e, a)
  {
    assert f == Merged(e, a).fields;
  }

  lemma AllKeysMerged(t: Json, keys: seq<string>, others: seq<string>, e: Json, a: Json)
    requires e.Obj? && a.Obj? && KeysMerged(t, e.fields, keys, e, a)
    requires forall k :: k in keys <==> k in e.fields
    requires forall k :: k in others <==> k in a.fields
    ensures Replay(t, Unexpected(e, a, others)).Obj?
    ensures IsMergedMap(Replay(t, Unexpected(e, a, others)).fields, e, a)
  {
    ReplayUnexpected(e, a, others, t.fields);
    var f := Replay(t, Unexpected(e, a, others)).fields;
    forall k
      ensures k in f <==> k in a.fields
      ensures k in f && k in e.fields ==> f[k] == Merged(e.fields[k], a.fields[k])
    {
    }
  }

  // `t` is an array whose items are merged in the common part from `i` on, and those of `start` elsewhere.
  ghost predicate ItemsMerged(t: Json, start: seq<Json>, i: nat, e: Json, a: Json)
    requires e.Arr? && a.Arr?
  {
    && t.Arr? && |t.items| == |start| == |e.items|
    && forall j :: 0 <= j < |start| ==>
         t.items[j] == if i <= j < |a.items| then Merged(e.items[j], a.items[j]) else start[j]
  }

  // One position: the edits that concern it merge it and touch no other position.
  lemma {:induction false} ReplayItem(e: Json, a: Json, i: nat, items: seq<Json>)
    requires e.Arr? && a.Arr? && i < |e.items| && i < |a.items| && i < |items| && items[i] == e.items[i]
    requires Replay(e.items[i], Diff(e.items[i], a.items[i])) == Merged(e.items[i], a.items[i])
    ensures Replay(Arr(items), ItemDiff(e, a, i)) == Arr(items[i := Merged(e.items[i], a.items[i])])
  {
    DiffStaysInside(e.items[i], a.items[i]);
    ReplayBelow(Arr(items), Index(i), Diff(e.items[i], a.items[i]));
  }

  lemma {:induction false} OneMoreMerged(t: Json, start: seq<Json>, i: nat, e: Json, a: Json)
    requires e.Arr? && a.Arr? && i < |e.items| == |start| && i < |a.items|
    requires ItemsMerged(t, start[i := Merged(e.items[i], a.items[i])], i + 1, e, a)
    ensures ItemsMerged(t, start, i, e, a)
  {
  }

  lemma {:induction false} ReplayItems(e: Json, a: Json, i: nat, items: seq<Json>)
    requires e.Arr? && a.Arr? && |items| == |e.items|
    requires forall j :: i <= j < |items| ==> items[j] == e.items[j]
    ensures ItemsMerged(Replay(Arr(items), ItemDiffs(e, a, i)), items, i, e, a)
    decreases e, |e.items| - i
  {
    if i < |e.items| && i < |a.items| {
      ReplayMerges(e.items[i], a.items[i]);
      ReplayItem(e, a, i, items);
      ReplayJoins(Arr(items), ItemDiff(e, a, i), ItemDiffs(e, a, i + 1));
      var next := items[i := Merged(e.items[i], a.items[i])];
      ReplayItems(e, a, i + 1, next);
      OneMoreMerged(Replay(Arr(next), ItemDiffs(e, a, i + 1)), items, i, e, a);
    }
  }

  // Replaying the report on the expected tree gives the merged tree.
  lemma {:induction false} ReplayMerges(e: Json, a: Json)
    ensures Replay(e, Diff(e, a)) == Merged(e, a)
    decreases e
  {
    if e != a && e.Obj? && a.Obj? {
      var keys, others := SortedKeys(e.fields.Keys), SortedKeys(a.fields.Keys);
      SortedKeysAreTheKeys(e.fields.Keys);
      SortedKeysAreTheKeys(a.fields.Keys);
      ReplayKeys(e, a, keys, e.fields);
      var t := Replay(e, KeyDiffs(e, a, keys));
      ReplayJoins(e, KeyDiffs(e, a, keys), Unexpected(e, a, others));
      AllKeysMerged(t, keys, others, e, a);
      MergedMapIsMerged(Replay(e, Diff(e, a)).fields, e, a);
    } else if e != a && e.Arr? && a.Arr? {
      ReplayItems(e, a, 0, e.items);
      ReplayJoins(e, LengthDiff(e, a), ItemDiffs(e, a, 0));
      assert Replay(e, LengthDiff(e, a)) == e;
      assert Replay(e, Diff(e, a)).items == Merged(e, a).items;
    }
  }

  // The two trees agree at every common position: they differ at most in the lengths of arrays.
  ghost predicate Agrees(t: Json, a: Json)
    decreases t
  {
    if t.Obj? && a.Obj? then
      t.fields.Keys == a.fields.Keys && forall k :: k in t.fields.Keys ==> Agrees(t.fields[k], a.fields[k])
    else if t.Arr? && a.Arr? then
      forall i :: 0 <= i < |t.items| && i < |a.items| ==> Agrees(t.items[i], a.items[i])
    else t == a
  }

  lemma {:induction false} AgreesWithItself(t: Json)
    ensures Agrees(t, t)
    decreases t
  {
    if t.Obj? {
      forall k | k in t.fields.Keys
        ensures Agrees(t.fields[k], t.fields[k])
      {
        AgreesWithItself(t.fields[k]);
      }
    } else if t.Arr? {
      forall i | 0 <= i < |t.items|
        ensures Agrees(t.items[i], t.items[i])
      {
        AgreesWithItself(t.items[i]);
      }
    }
  }

  lemma {:induction false} MergedAgrees(e: Json, a: Json)
    ensures Agrees(Merged(e, a), a)
    decreases e
  {
    if e == a || (!(e.Obj? && a.Obj?) && !(e.Arr? && a.Arr?)) {
      AgreesWithItself(a);
    } else if e.Obj? {
      var t := Merged(e, a);
      forall k | k in t.fields.Keys
        ensures Agrees(t.fields[k], a.fields[k])
      {
        if k in e.fields {
          MergedAgrees(e.fields[k], a.fields[k]);
        } else {
          AgreesWithItself(a.fields[k]);
        }
      }
    } else {
      var t := Merged(e, a);
      forall i | 0 <= i < |t.items| && i < |a.items|
        ensures Agrees(t.items[i], a.items[i])
      {
        MergedAgrees(e.items[i], a.items[i]);
      }
    }
  }

  ghost predicate LengthsReported(e: Json, a: Json) {
    exists m :: m in Diff(e, a) && m.detail.LengthMismatch?
  }

  lemma {:induction false} MergedChild(e: Json, a: Json, s: Segment)
    requires e != a && Child(e, s).Some? && Child(a, s).Some?
    ensures Child(Merged(e, a), s) == Some(Merged(Child(e, s).value, Child(a, s).value))
  {
  }

  // A length mismatch with a path lies inside a child that both trees have.
  lemma {:induction false} LengthIsInside(e: Json, a: Json, m: Mismatch)
    requires e != a && m in Diff(e, a) && m.detail.LengthMismatch? && m.path != []
    ensures IsInside(m, e, a)
  {
    if e.Obj? && a.Obj? {
      ObjectDiff(e, a, m);
    } else if e.Arr? && a.Arr? {
      ArrayDiff(e, a, m);
    }
  }

  lemma {:induction false} LengthSpoilsMerge(e: Json, a: Json, m: Mismatch)
    requires m in Diff(e, a) && m.detail.LengthMismatch?
    ensures Merged(e, a) != a
    decreases |m.path|
  {
    assert e != a;
    if m.path == [] {
      DiffIsExact(e, a, m);
    } else {
      var s := m.path[0];
      LengthIsInside(e, a, m);
      LengthSpoilsMerge(Child(e, s).value, Child(a, s).value, Pop(m));
      MergedChild(e, a, s);
    }
  }

  lemma LengthIsReportedAbove(e: Json, a: Json, s: Segment, m: Mismatch)
    requires Child(e, s).Some? && Child(a, s).Some?
    requires m in Diff(Child(e, s).value, Child(a, s).value) && m.detail.LengthMismatch?
    ensures LengthsReported(e, a)
  {
    InsideIsReported(e, a, s, m);
    assert Push(s, m).detail.LengthMismatch?;
  }

  lemma ChildLengthsReported(e: Json, a: Json, s: Segment)
    requires Child(e, s).Some? && Child(a, s).Some? && !LengthsReported(e, a)
    ensures !LengthsReported(Child(e, s).value, Child(a, s).value)
  {
    if m :| m in Diff(Child(e, s).value, Child(a, s).value) && m.detail.LengthMismatch? {
      LengthIsReportedAbove(e, a, s, m);
    }
  }

  lemma {:induction false} MergedIsActual(e: Json, a: Json)
    requires !LengthsReported(e, a)
    ensures Merged(e, a) == a
    decreases e
  {
    if e != a && e.Obj? && a.Obj? {
      forall k | k in e.fields && k in a.fields
        ensures Merged(e.fields[k], a.fields[k]) == a.fields[k]
      {
        ChildLengthsReported(e, a, Key(k));
        MergedIsActual(e.fields[k], a.fields[k]);
      }
      assert Merged(e, a).fields == a.fields;
    } else if e != a && e.Arr? && a.Arr? {
      var m := Mismatch([], LengthMismatch(|e.items|, |a.items|));
      ArrayDiff(e, a, m);
      assert |e.items| != |a.items| ==> m in Diff(e, a) && m.detail.LengthMismatch?;
      forall i | 0 <= i < |e.items|
        ensures Merged(e.items[i], a.items[i]) == a.items[i]
      {
        ChildLengthsReported(e, a, Index(i));
        MergedIsActual(e.items[i], a.items[i]);
      }
      assert Merged(e, a).items == a.items;
    }
  }

  // The report is enough to rebuild the actual tree from the expected one, exactly when it holds no
  // length mismatch; otherwise the rebuilt tree still agrees with it at every common position.
  lemma ReplayRebuilds(e: Json, a: Json)
    ensures Replay(e, Diff(e, a)) == a <==> forall m :: m in Diff(e, a) ==> !m.detail.LengthMismatch?
    ensures Agrees(Replay(e, Diff(e, a)), a)
  {
    ReplayMerges(e, a);
    MergedAgrees(e, a);
    if m :| m in Diff(e, a) && m.detail.LengthMismatch? {
      LengthSpoilsMerge(e, a, m);
    } else {
      MergedIsActual(e, a);
    }
  }

  // ---------- The comparison as the program runs it ----------

  // The mismatches of the place at `path`, as seen from the root.
  function Under(path: seq<Segment>, ms: seq<Mismatch>): seq<Mismatch>
    decreases |ms|
  {
    if ms == [] then [] else [Mismatch(path + ms[0].path, ms[0].detail)] + Under(path, ms[1..])
  }

  lemma {:induction false} UnderJoins(path: seq<Segment>, x: seq<Mismatch>, y: seq<Mismatch>)
    ensures Under(path, x + y) == Under(path, x) + Under(path, y)
    decreases |x|
  {
    if x == [] {
      assert x + y == y;
    } else {
      assert (x + y)[0] == x[0] && (x + y)[1..] == x[1..] + y;
      UnderJoins(path, x[1..], y);
    }
  }

  lemma {:induction false} UnderBelow(path: seq<Segment>, s: Segment, ms: seq<Mismatch>)
    ensures Under(path, Below(s, ms)) == Under(path + [s], ms)
    decreases |ms|
  {
    if ms != [] {
      assert path + ([s] + ms[0].path) == path + [s] + ms[0].path;
      assert Below(s, ms)[1..] == Below(s, ms[1..]);
      UnderBelow(path, s, ms[1..]);
    }
  }

  lemma UnderOne(path: seq<Segment>, tail: seq<Segment>, detail: Detail)
    ensures Under(path, [Mismatch(tail, detail)]) == [Mismatch(path + tail, detail)]
  {
  }

  lemma {:induction false} UnderRoot(ms: seq<Mismatch>)
    ensures Under([], ms) == ms
    decreases |ms|
  {
    if ms != [] {
      assert [] + ms[0].path == ms[0].path;
      UnderRoot(ms[1..]);
    }
  }

  // A comparison in progress: every level of it pushes on one path and appends to one list.
  class Comparison {
    var path: seq<Segment>
    var out: seq<Mismatch>

    constructor ()
      ensures path == [] && out == []
    {
      path, out := [], [];
    }

    method Enter(s: Segment)
      modifies this`path
      ensures path == old(path) + [s]
    {
      path := path + [s];
    }

    method Leave()
      requires path != []
      modifies this`path
      ensures path == old(path[..|path| - 1])
    {
      path := path[..|path| - 1];
    }

    method Report(detail: Detail)
      modifies this`out
      ensures out == old(out) + [Mismatch(path, detail)]
    {
      out := out + [Mismatch(path, detail)];
    }

    // Appends the mismatches of this place and leaves the path as it was.
    method DiffAt(e: Json, a: Json)
      modifies this
      ensures path == old(path)
      ensures out == old(out) + Under(path, Diff(e, a))
      decreases e, 3
    {
      if e == a {
        return;
      }
      if e.Obj? && a.Obj? {
        DiffObjects(e, a);
      } else if e.Arr? && a.Arr? {
        DiffArrays(e, a);
      } else {
        UnderHere(path, Differs(e, a));
        Report(Differs(e, a));
      }
    }

    method DiffObjects(e: Json, a: Json)
      requires e.Obj? && a.Obj? && e != a
      modifies this
      ensures path == old(path)
      ensures out == old(out) + Under(path, Diff(e, a))
      decreases e, 2, 1
    {
      var keys, others := SortedKeys(e.fields.Keys), SortedKeys(a.fields.Keys);
      UnderJoins(path, KeyDiffs(e, a, keys), Unexpected(e, a, others));
      JoinAssociates(out, Under(path, KeyDiffs(e, a, keys)), Under(path, Unexpected(e, a, others)));
      SortedKeysAreTheKeys(e.fields.Keys);
      ExpectedKeys(e, a, keys);
      SortedKeysAreTheKeys(a.fields.Keys);
      ActualKeys(e, a, others);
    }

    method ExpectedKeys(e: Json, a: Json, keys: seq<string>)
      requires e.Obj? && a.Obj? && forall n :: 0 <= n < |keys| ==> keys[n] in e.fields
      modifies this
      ensures path == old(path)
      ensures out == old(out) + Under(path, KeyDiffs(e, a, keys))
      decreases e, 2, 0
    {
      ghost var whole := out + Under(path, KeyDiffs(e, a, keys));
      assert keys[0..] == keys;
      for n := 0 to |keys|
        invariant path == old(path)
        invariant out + Under(path, KeyDiffs(e, a, keys[n..])) == whole
      {
        KeyDiffsUnder(path, e, a, keys, n);
        JoinAssociates(out, Under(path, KeyDiff(e, a, keys[n])), Under(path, KeyDiffs(e, a, keys[n + 1..])));
        ExpectedKey(e, a, keys[n]);
      }
      assert keys[|keys|..] == [];
    }

    method ActualKeys(e: Json, a: Json, keys: seq<string>)
      requires e.Obj? && a.Obj? && forall n :: 0 <= n < |keys| ==> keys[n] in a.fields
      modifies this
      ensures path == old(path)
      ensures out == old(out) + Under(path, Unexpected(e, a, keys))
    {
      ghost var whole := out + Under(path, Unexpected(e, a, keys));
      assert keys[0..] == keys;
      for n := 0 to |keys|
        invariant path == old(path)
        invariant out + Under(path, Unexpected(e, a, keys[n..])) == whole
      {
        UnexpectedUnder(path, e, a, keys, n);
        JoinAssociates(out, Under(path, OnlyActual(e, a, keys[n])), Under(path, Unexpected(e, a, keys[n + 1..])));
        ActualKey(e, a, keys[n]);
      }
      assert keys[|keys|..] == [];
    }

    method ExpectedKey(e: Json, a: Json, key: string)
      requires e.Obj? && a.Obj? && key in e.fields
      modifies this
      ensures path == old(path)
      ensures out == old(out) + Under(path, KeyDiff(e, a, key))
      decreases e, 1
    {
      Enter(Key(key));
      if key in a.fields {
        UnderBelow(old(path), Key(key), Diff(e.fields[key], a.fields[key]));
        DiffAt(e.fields[key], a.fields[key]);
      } else {
        UnderOne(old(path), [Key(key)], MissingKey(e.fields[key]));
        Report(MissingKey(e.fields[key]));
      }
      Leave();
    }

    method ActualKey(e: Json, a: Json, key: string)
      requires e.Obj? && a.Obj? && key in a.fields
      modifies this
      ensures path == old(path)
      ensures out == old(out) + Under(path, OnlyActual(e, a, key))
    {
      if key !in e.fields {
        UnderOne(path, [Key(key)], UnexpectedKey(a.fields[key]));
        Enter(Key(key));
        Report(UnexpectedKey(a.fields[key]));
        Leave();
      }
    }

    method DiffArrays(e: Json, a: Json)
      requires e.Arr? && a.Arr? && e != a
      modifies this
      ensures path == old(path)
      ensures out == old(out) + Under(path, Diff(e, a))
      decreases e, 2, 1
    {
      UnderJoins(path, LengthDiff(e, a), ItemDiffs(e, a, 0));
      JoinAssociates(out, Under(path, LengthDiff(e, a)), Under(path, ItemDiffs(e, a, 0)));
      if |e.items| != |a.items| {
        UnderHere(path, LengthMismatch(|e.items|, |a.items|));
        Report(LengthMismatch(|e.items|, |a.items|));
      }
      CommonItems(e, a);
    }

    method CommonItems(e: Json, a: Json)
      requires e.Arr? && a.Arr?
      modifies this
      ensures path == old(path)
      ensures out == old(out) + Under(path, ItemDiffs(e, a, 0))
      decreases e, 2, 0
    {
      ghost var here, whole := path, out + Under(path, ItemDiffs(e, a, 0));
      var common := Min(|e.items|, |a.items|);
      for index := 0 to common
        invariant path == here
        invariant out + Under(here, ItemDiffs(e, a, index)) == whole
      {
        ItemsStep(out, here, e, a, index, whole);
        CommonItem(e, a, index);
      }
      ItemsEnd(out, here, e, a, common, whole);
    }

    method CommonItem(e: Json, a: Json, index: nat)
      requires e.Arr? && a.Arr? && index < |e.items| && index < |a.items|
      modifies this
      ensures path == old(path)
      ensures out == old(out) + Under(path, ItemDiff(e, a, index))
      decreases e, 1
    {
      UnderBelow(path, Index(index), Diff(e.items[index], a.items[index]));
      Enter(Index(index));
      DiffAt(e.items[index], a.items[index]);
      Leave();
    }
  }

  lemma UnderHere(path: seq<Segment>, detail: Detail)
    ensures Under(path, [Mismatch([], detail)]) == [Mismatch(path, detail)]
  {
    UnderOne(path, [], detail);
    assert path + [] == path;
  }

  lemma {:induction false} ItemsStep(
    out: seq<Mismatch>, path: seq<Segment>, e: Json, a: Json, i: nat, whole: seq<Mismatch>)
    requires e.Arr? && a.Arr? && i < |e.items| && i < |a.items|
    requires out + Under(path, ItemDiffs(e, a, i)) == whole
    ensures out + Under(path, ItemDiff(e, a, i)) + Under(path, ItemDiffs(e, a, i + 1)) == whole
  {
    ItemDiffsUnder(path, e, a, i);
    JoinAssociates(out, Under(path, ItemDiff(e, a, i)), Under(path, ItemDiffs(e, a, i + 1)));
  }

  lemma {:induction false} ItemsEnd(
    out: seq<Mismatch>, path: seq<Segment>, e: Json, a: Json, i: nat, whole: seq<Mismatch>)
    requires e.Arr? && a.Arr? && (i >= |e.items| || i >= |a.items|)
    requires out + Under(path, ItemDiffs(e, a, i)) == whole
    ensures out == whole
  {
    assert ItemDiffs(e, a, i) == [];
    assert out + [] == out;
  }

  lemma {:induction false} ItemDiffsUnder(path: seq<Segment>, e: Json, a: Json, i: nat)
    requires e.Arr? && a.Arr? && i < |e.items| && i < |a.items|
    ensures Under(path, ItemDiffs(e, a, i)) == Under(path, ItemDiff(e, a, i)) + Under(path, ItemDiffs(e, a, i + 1))
  {
    UnderJoins(path, ItemDiff(e, a, i), ItemDiffs(e, a, i + 1));
  }

  lemma KeyDiffsUnder(path: seq<Segment>, e: Json, a: Json, keys: seq<string>, n: nat)
    requires e.Obj? && a.Obj? && n < |keys|
    ensures Under(path, KeyDiffs(e, a, keys[n..])) ==
            Under(path, KeyDiff(e, a, keys[n])) + Under(path, KeyDiffs(e, a, keys[n + 1..]))
  {
    assert keys[n..][0] == keys[n] && keys[n..][1..] == keys[n + 1..];
    UnderJoins(path, KeyDiff(e, a, keys[n]), KeyDiffs(e, a, keys[n + 1..]));
  }

  lemma UnexpectedUnder(path: seq<Segment>, e: Json, a: Json, keys: seq<string>, n: nat)
    requires e.Obj? && a.Obj? && n < |keys|
    ensures Under(path, Unexpected(e, a, keys[n..])) ==
            Under(path, OnlyActual(e, a, keys[n])) + Under(path, Unexpected(e, a, keys[n + 1..]))
  {
    assert keys[n..][0] == keys[n] && keys[n..][1..] == keys[n + 1..];
    UnderJoins(path, OnlyActual(e, a, keys[n]), Unexpected(e, a, keys[n + 1..]));
  }

  // The whole comparison.
  method Compare(e: Json, a: Json) returns (mismatches: seq<Mismatch>)
    ensures mismatches == Diff(e, a)
    ensures IsReport(mismatches, e, a)
    ensures mismatches == [] <==> e == a
  {
    DiffIsReport(e, a);
    var comparison := new Comparison();
    comparison.DiffAt(e, a);
    UnderRoot(Diff(e, a));
    DiffIsEmptyExactlyForEqualTrees(e, a);
    mismatches := comparison.out;
  }

  // ---------- Rendered locations ----------

  function SegmentText(s: Segment): string {
    match s
    case Key(k) => "." + k
    case Index(i) => "[" + Decimal.Print(i) + "]"
  }

  function PathText(path: seq<Segment>): string
    decreases |path|
  {
    if path == [] then "" else SegmentText(path[0]) + PathText(path[1..])
  }

  lemma {:induction false} PathTextGrows(path: seq<Segment>, s: Segment)
    ensures PathText(path + [s]) == PathText(path) + SegmentText(s)
    decreases |path|
  {
    if path == [] {
      assert path + [s] == [s] && ([s])[1..] == [];
    } else {
      assert (path + [s])[1..] == path[1..] + [s];
      PathTextGrows(path[1..], s);
    }
  }

  // A key is a dot and its name, a position its number in brackets.
  ghost predicate IsPiece(piece: string, s: Segment) {
    match s
    case Key(name) => piece == ['.'] + name
    case Index(i) => piece == ['['] + Decimal.Print(i) + [']']
  }

  ghost predicate ArePieces(pieces: seq<string>, path: seq<Segment>) {
    |pieces| == |path| && forall i :: 0 <= i < |path| ==> IsPiece(pieces[i], path[i])
  }

  // The text of a path is that of its segments, one after another.
  lemma {:induction false} PathTextExactly(path: seq<Segment>) returns (pieces: seq<string>)
    ensures ArePieces(pieces, path) && PathText(path) == Concat(pieces)
    decreases |path|
  {
    pieces := [];
    if path != [] {
      var rest, last := path[..|path| - 1], path[|path| - 1];
      pieces := PathTextExactly(rest);
      assert path == rest + [last];
      PathTextGrows(rest, last);
      assert (pieces + [SegmentText(last)])[..|pieces|] == pieces;
      pieces := pieces + [SegmentText(last)];
    }
  }

  ghost predicate IsRendering(rendered: string, path: seq<Segment>) {
    exists pieces: seq<string> :: ArePieces(pieces, path) && rendered == "$" + Concat(pieces)
  }

  lemma {:induction false} PathIsRendered(path: seq<Segment>)
    ensures IsRendering("$" + PathText(path), path)
  {
    var pieces := PathTextExactly(path);
  }

  method RenderPath(path: seq<Segment>) returns (rendered: string)
    ensures rendered == "$" + PathText(path)
    ensures IsRendering(rendered, path)
  {
    rendered := "$";
    for i := 0 to |path|
      invariant rendered == "$" + PathText(path[..i])
    {
      PathTextGrows(path[..i], path[i]);
      assert path[..i + 1] == path[..i] + [path[i]];
      JoinAssociates("$", PathText(path[..i]), SegmentText(path[i]));
      rendered := rendered + SegmentText(path[i]);
    }
    assert path[..|path|] == path;
    PathIsRendered(path);
  }

  // ---------- Which locations tell places apart ----------

  function IndexText(n: nat): string {
    SegmentText(Index(n))
  }

  ghost predicate EndsIn(s: string, tail: string) {
    |tail| <= |s| && s[|s| - |tail|..] == tail
  }

  ghost predicate EndsInIndex(s: string) {
    exists n: nat :: EndsIn(s, IndexText(n))
  }

  // A key that cannot be taken for more than one segment: it holds no `.` and does not end in `[n]`.
  ghost predicate IsClear(key: string) {
    '.' !in key && !EndsInIndex(key)
  }

  // Every key of the path is clear or one of the given ones.
  ghost predicate IsOver(path: seq<Segment>, others: set<string>) {
    forall i :: 0 <= i < |path| ==> path[i].Key? ==> IsClear(path[i].name) || path[i].name in others
  }

  // Over clear keys and the given ones, different paths have different texts.
  ghost predicate TellsApart(others: set<string>) {
    forall x, y :: IsOver(x, others) && IsOver(y, others) && PathText(x) == PathText(y) ==> x == y
  }

  lemma IndexTextChars(n: nat)
    ensures |IndexText(n)| >= 3 && IndexText(n)[0] == '['
    ensures forall i :: 0 < i < |IndexText(n)| ==> IndexText(n)[i] != '['
    ensures '.' !in IndexText(n)
  {
    var digits := Decimal.Print(n);
    assert forall i :: 0 <= i < |digits| ==> Decimal.IsDigit(digits[i]);
  }

  lemma IndexTextIsInjective(n: nat, m: nat)
    requires IndexText(n) == IndexText(m)
    ensures n == m
  {
    assert Decimal.Print(n) == IndexText(n)[1..|IndexText(n)| - 1];
    assert Decimal.Print(m) == IndexText(m)[1..|IndexText(m)| - 1];
    Decimal.ValueOfPrint(n);
    Decimal.ValueOfPrint(m);
  }

  // Of two ends of a text, the shorter is an end of the longer.
  lemma EndsNest(s: string, a: string, b: string)
    requires EndsIn(s, a) && EndsIn(s, b) && |a| <= |b|
    ensures EndsIn(b, a)
  {
    assert b[|b| - |a|..] == s[|s| - |a|..];
  }

  lemma IndexEndsInItself(n: nat, m: nat)
    requires EndsIn(IndexText(m), IndexText(n))
    ensures n == m
  {
    IndexTextChars(n);
    IndexTextChars(m);
    var d := |IndexText(m)| - |IndexText(n)|;
    assert IndexText(m)[d] == IndexText(m)[d..][0];
    IndexTextIsInjective(n, m);
  }

  // A text ends in one index at most.
  lemma LastIndexIsUnique(s: string, n: nat, m: nat)
    requires EndsIn(s, IndexText(n)) && EndsIn(s, IndexText(m))
    ensures n == m
  {
    if |IndexText(n)| <= |IndexText(m)| {
      EndsNest(s, IndexText(n), IndexText(m));
      IndexEndsInItself(n, m);
    } else {
      EndsNest(s, IndexText(m), IndexText(n));
      IndexEndsInItself(m, n);
    }
  }

  lemma EndWithoutDot(t: string, key: string, tail: string)
    requires '.' !in tail && EndsIn(t + ("." + key), tail)
    ensures EndsIn(key, tail)
  {
    var s := t + ("." + key);
    assert s[|s| - |key| - 1] == '.' && s[|s| - |key|..] == key;
    assert forall i :: |s| - |tail| <= i < |s| ==> s[i] == tail[i - (|s| - |tail|)];
    assert |tail| <= |key|;
    assert EndsIn(s, key);
    EndsNest(s, tail, key);
  }

  // After a clear key, the text does not end in an index.
  lemma NoIndexAfterClearKey(t: string, key: string)
    requires IsClear(key)
    ensures !EndsInIndex(t + ("." + key))
  {
    if n: nat :| EndsIn(t + ("." + key), IndexText(n)) {
      IndexTextChars(n);
      EndWithoutDot(t, key, IndexText(n));
    }
  }

  lemma IndexAtEnd(t: string, n: nat)
    ensures EndsIn(t + IndexText(n), IndexText(n)) && EndsInIndex(t + IndexText(n))
  {
    assert EndsIn(t + IndexText(n), IndexText(n));
  }

  lemma LastDotIsUnique(t: string, k: string, u: string, l: string)
    requires t + ("." + k) == u + ("." + l) && '.' !in k && '.' !in l
    ensures t == u && k == l
  {
    var s := t + ("." + k);
    assert s[|s| - |k| - 1] == '.' && s[|s| - |l| - 1] == '.';
    assert forall i :: |s| - |k| <= i < |s| ==> s[i] == k[i - (|s| - |k|)];
    assert forall i :: |s| - |l| <= i < |s| ==> s[i] == l[i - (|s| - |l|)];
    assert |k| == |l|;
    assert t == s[..|t|] && u == s[..|t|];
    assert k == s[|t| + 1..] && l == s[|t| + 1..];
  }

  lemma OnlyDotIsUnique(t: string, k: string, u: string, l: string)
    requires t + ("." + k) == u + ("." + l) && '.' !in t && '.' !in k
    ensures t == u && k == l
  {
    var s := t + ("." + k);
    assert s[|u|] == '.';
    assert forall i :: 0 <= i < |s| && i != |t| ==> s[i] != '.';
    assert t == s[..|t|] && u == s[..|t|];
    assert k == s[|t| + 1..] && l == s[|t| + 1..];
  }

  lemma {:induction false} TextOfLast(path: seq<Segment>)
    requires path != []
    ensures var n := |path| - 1;
            PathText(path) == PathText(path[..n]) + SegmentText(path[n]) && PathText(path) != ""
  {
    var n := |path| - 1;
    assert path == path[..n] + [path[n]];
    PathTextGrows(path[..n], path[n]);
  }

  lemma SameSuffix(t: string, u: string, tail: string)
    requires t + tail == u + tail
    ensures t == u
  {
    assert t == (t + tail)[..|t|] && u == (u + tail)[..|u|];
  }

  // The last segments of two paths over clear keys with one text are the same.
  lemma LastSegmentIsUnique(t: string, s: Segment, u: string, r: Segment)
    requires t + SegmentText(s) == u + SegmentText(r)
    requires (s.Key? ==> IsClear(s.name)) && (r.Key? ==> IsClear(r.name))
    ensures s == r && t == u
  {
    if s.Index? {
      IndexAtEnd(t, s.at);
    }
    if r.Index? {
      IndexAtEnd(u, r.at);
    }
    if s.Key? && r.Key? {
      LastDotIsUnique(t, s.name, u, r.name);
    } else if s.Key? {
      NoIndexAfterClearKey(t, s.name);
    } else if r.Key? {
      NoIndexAfterClearKey(u, r.name);
    } else {
      LastIndexIsUnique(t + SegmentText(s), s.at, r.at);
      SameSuffix(t, u, SegmentText(s));
    }
  }

  lemma OverInit(path: seq<Segment>)
    requires IsOver(path, {}) && path != []
    ensures var n := |path| - 1; IsOver(path[..n], {}) && (path[n].Key? ==> IsClear(path[n].name))
  {
  }

  lemma SameInitAndLast(x: seq<Segment>, y: seq<Segment>)
    requires x != [] && y != [] && x[..|x| - 1] == y[..|y| - 1] && x[|x| - 1] == y[|y| - 1]
    ensures x == y
  {
    assert x == x[..|x| - 1] + [x[|x| - 1]] && y == y[..|y| - 1] + [y[|y| - 1]];
  }

  lemma OneIsEmpty(x: seq<Segment>, y: seq<Segment>)
    requires PathText(x) == PathText(y)
    ensures x == [] <==> y == []
  {
    if x != [] {
      TextOfLast(x);
    }
    if y != [] {
      TextOfLast(y);
    }
  }

  // Locations of paths over clear keys tell the paths apart.
  lemma {:induction false} ClearPathsAreDistinct(x: seq<Segment>, y: seq<Segment>)
    requires IsOver(x, {}) && IsOver(y, {}) && PathText(x) == PathText(y)
    ensures x == y
    decreases |x|
  {
    OneIsEmpty(x, y);
    if x != [] {
      var n, m := |x| - 1, |y| - 1;
      TextOfLast(x);
      TextOfLast(y);
      OverInit(x);
      OverInit(y);
      LastSegmentIsUnique(PathText(x[..n]), x[n], PathText(y[..m]), y[m]);
      ClearPathsAreDistinct(x[..n], y[..m]);
      SameInitAndLast(x, y);
    }
  }

  // The part of a key before its last dot, and the part after it.
  lemma {:induction false} CutAtLastDot(key: string) returns (u: string, v: string)
    requires '.' in key
    ensures key == u + ("." + v) && '.' !in v && |u| < |key|
    decreases |key|
  {
    var n := |key| - 1;
    if key[n] == '.' {
      u, v := key[..n], "";
    } else {
      assert key == key[..n] + [key[n]];
      u, v := CutAtLastDot(key[..n]);
      v := v + [key[n]];
    }
  }

  lemma OneSegmentText(s: Segment)
    ensures PathText([s]) == SegmentText(s)
  {
    assert [s][1..] == [];
  }

  lemma OverGrows(path: seq<Segment>, s: Segment)
    requires IsOver(path, {}) && (s.Key? ==> IsClear(s.name))
    ensures IsOver(path + [s], {}) && PathText(path + [s]) == PathText(path) + SegmentText(s)
  {
    PathTextGrows(path, s);
  }

  lemma EndsInGrows(before: string, s: string)
    ensures EndsInIndex(s) ==> EndsInIndex(before + s)
  {
    if n: nat :| EndsIn(s, IndexText(n)) {
      assert EndsIn(before + s, IndexText(n));
    }
  }

  lemma AfterLastDotIsClear(key: string, u: string, v: string)
    requires !EndsInIndex(key) && key == u + ("." + v) && '.' !in v
    ensures IsClear(v)
  {
    EndsInGrows(".", v);
    EndsInGrows(u, "." + v);
  }

  lemma {:induction false} SplitAtIndex(u: string, n: nat, before: seq<Segment>)
    requires IsOver(before, {}) && PathText(before) == "." + u
    ensures IsOver(before + [Index(n)], {}) && PathText(before + [Index(n)]) == "." + (u + IndexText(n))
  {
    OverGrows(before, Index(n));
    JoinAssociates(".", u, IndexText(n));
  }

  lemma {:induction false} SplitAtDot(u: string, v: string, before: seq<Segment>)
    requires IsOver(before, {}) && IsClear(v) && PathText(before) == "." + u
    ensures IsOver(before + [Key(v)], {}) && PathText(before + [Key(v)]) == "." + (u + ("." + v))
  {
    OverGrows(before, Key(v));
    JoinAssociates(".", u, "." + v);
  }

  // The text of any key is the text of a path over clear keys, which is longer unless the key is clear.
  lemma {:induction false} KeySplits(key: string) returns (path: seq<Segment>)
    ensures IsOver(path, {}) && PathText(path) == "." + key
    ensures path != [] && (!IsClear(key) ==> |path| > 1)
    decreases |key|
  {
    if IsClear(key) {
      path := [Key(key)];
      OneSegmentText(Key(key));
    } else if EndsInIndex(key) {
      var n: nat :| EndsIn(key, IndexText(n));
      IndexTextChars(n);
      var u := key[..|key| - |IndexText(n)|];
      assert key == u + IndexText(n);
      var before := KeySplits(u);
      SplitAtIndex(u, n, before);
      path := before + [Index(n)];
    } else {
      var u, v := CutAtLastDot(key);
      AfterLastDotIsClear(key, u, v);
      var before := KeySplits(u);
      SplitAtDot(u, v, before);
      path := before + [Key(v)];
    }
  }

  lemma ClearKeysTellApart()
    ensures TellsApart({})
  {
    forall x, y | IsOver(x, {}) && IsOver(y, {}) && PathText(x) == PathText(y)
      ensures x == y
    {
      ClearPathsAreDistinct(x, y);
    }
  }

  // Locations tell paths apart over the clear keys and one more key exactly if that key is clear too:
  // the clear keys are all the keys that are safe.
  lemma TellsApartExactly(key: string)
    ensures TellsApart({key}) <==> IsClear(key)
  {
    if IsClear(key) {
      forall x, y | IsOver(x, {key}) && IsOver(y, {key}) && PathText(x) == PathText(y)
        ensures x == y
      {
        ClearPathsAreDistinct(x, y);
      }
    } else {
      var path := KeySplits(key);
      var x := [Key(key)];
      OneSegmentText(Key(key));
      assert IsOver(x, {key}) && IsOver(path, {key}) && PathText(x) == PathText(path) && x != path;
    }
  }

  lemma {:induction false} PathTextJoins(x: seq<Segment>, y: seq<Segment>)
    ensures PathText(x + y) == PathText(x) + PathText(y)
    decreases |x|
  {
    if x == [] {
      assert x + y == y;
    } else {
      assert (x + y)[0] == x[0] && (x + y)[1..] == x[1..] + y;
      PathTextJoins(x[1..], y);
    }
  }

  lemma PathTextOfThree(x: seq<Segment>, y: seq<Segment>, z: seq<Segment>)
    ensures PathText(x + y + z) == PathText(x) + PathText(y) + PathText(z)
  {
    PathTextJoins(x + y, z);
    PathTextJoins(x, y);
  }

  // Some other path has the same text.
  ghost predicate SharesText(path: seq<Segment>) {
    exists other :: IsOtherFor(other, path)
  }

  // A key at that place is followed by a segment or not clear.
  ghost predicate IsUnclearAt(path: seq<Segment>, i: nat) {
    i < |path| && path[i].Key? && (i + 1 < |path| || !IsClear(path[i].name))
  }

  // Segments may be replaced by others with the same text.
  lemma ReplacedText(before: seq<Segment>, some: seq<Segment>, others: seq<Segment>, rest: seq<Segment>)
    requires PathText(some) == PathText(others)
    ensures PathText(before + others + rest) == PathText(before + some + rest)
  {
    PathTextOfThree(before, some, rest);
    PathTextOfThree(before, others, rest);
  }

  ghost predicate IsOtherFor(other: seq<Segment>, path: seq<Segment>) {
    PathText(other) == PathText(path) && other != path
  }

  // If their number is another one, the path is another one.
  lemma ReplacedIsOther(before: seq<Segment>, some: seq<Segment>, others: seq<Segment>, rest: seq<Segment>)
    requires PathText(some) == PathText(others) && |some| != |others|
    ensures IsOtherFor(before + others + rest, before + some + rest)
  {
    ReplacedText(before, some, others, rest);
    assert |before + others + rest| != |before + some + rest|;
  }

  lemma TwoSegmentsText(s: Segment, t: Segment)
    ensures PathText([s, t]) == SegmentText(s) + SegmentText(t)
  {
    assert [s, t][1..] == [t];
    OneSegmentText(t);
  }

  lemma Parted(path: seq<Segment>, i: nat, some: seq<Segment>)
    requires i + |some| <= |path| && forall j :: 0 <= j < |some| ==> path[i + j] == some[j]
    ensures path == path[..i] + some + path[i + |some|..]
  {
  }

  lemma UnclearHasOther(path: seq<Segment>, i: nat) returns (other: seq<Segment>)
    requires IsUnclearAt(path, i)
    ensures IsOtherFor(other, path)
  {
    var name := path[i].name;
    if !IsClear(name) {
      var split := KeySplits(name);
      OneSegmentText(path[i]);
      Parted(path, i, [path[i]]);
      ReplacedIsOther(path[..i], [path[i]], split, path[i + 1..]);
      other := path[..i] + split + path[i + 1..];
    } else {
      other := FollowedHasOther(path, i);
    }
  }

  lemma FollowedHasOther(path: seq<Segment>, i: nat) returns (other: seq<Segment>)
    requires i + 1 < |path| && path[i].Key?
    ensures IsOtherFor(other, path)
  {
    var name, next := path[i].name, SegmentText(path[i + 1]);
    var merged := Key(name + next);
    OneSegmentText(merged);
    TwoSegmentsText(path[i], path[i + 1]);
    JoinAssociates(".", name, next);
    Parted(path, i, [path[i], path[i + 1]]);
    ReplacedIsOther(path[..i], [path[i], path[i + 1]], [merged], path[i + 2..]);
    other := path[..i] + [merged] + path[i + 2..];
  }

  ghost predicate HasNoKey(path: seq<Segment>) {
    forall i :: 0 <= i < |path| ==> !path[i].Key?
  }

  lemma {:induction false} NoDotNoKey(path: seq<Segment>)
    ensures '.' !in PathText(path) <==> HasNoKey(path)
    decreases |path|
  {
    if path != [] {
      NoDotNoKey(path[1..]);
      if path[0].Key? {
        assert PathText(path)[0] == '.';
      } else {
        IndexTextChars(path[0].at);
        assert forall i :: 0 < i < |path| ==> path[i] == path[1..][i - 1];
      }
    }
  }

  // A text without a dot, or with one before a clear key at its end, has one path.
  lemma ClearPathIsUnique(path: seq<Segment>, other: seq<Segment>)
    requires PathText(other) == PathText(path) && forall i :: !IsUnclearAt(path, i)
    ensures other == path
  {
    NoDotNoKey(path);
    NoDotNoKey(other);
    if !HasNoKey(path) {
      OnlyLastIsKey(path);
      OneIsEmpty(path, other);
      var n := |path| - 1;
      TextOfLast(path);
      NoDotNoKey(path[..n]);
      assert !IsUnclearAt(path, n);
      LastKeyDecides(PathText(path[..n]), path[n].name, other);
    }
    ClearPathsAreDistinct(other, path);
  }

  lemma OnlyLastIsKey(path: seq<Segment>)
    requires !HasNoKey(path) && forall i :: !IsUnclearAt(path, i)
    ensures path != [] && path[|path| - 1].Key? && HasNoKey(path[..|path| - 1]) && IsOver(path, {})
  {
    var n := |path| - 1;
    forall i | 0 <= i < n
      ensures !path[i].Key?
    {
      assert !IsUnclearAt(path, i);
    }
    assert !IsUnclearAt(path, n);
  }

  lemma LastKeyDecides(t: string, key: string, other: seq<Segment>)
    requires '.' !in t && IsClear(key) && other != [] && PathText(other) == t + SegmentText(Key(key))
    ensures IsOver(other, {})
  {
    TextOfLast(other);
    LastKeyIsIt(t, key, other[..|other| - 1], other[|other| - 1]);
    OverByLast(other);
  }

  lemma OverByLast(path: seq<Segment>)
    requires path != [] && HasNoKey(path[..|path| - 1])
    requires path[|path| - 1].Key? ==> IsClear(path[|path| - 1].name)
    ensures IsOver(path, {})
  {
    assert forall i :: 0 <= i < |path| - 1 ==> path[i] == path[..|path| - 1][i];
  }

  lemma LastKeyIsIt(t: string, key: string, before: seq<Segment>, last: Segment)
    requires '.' !in t && IsClear(key) && PathText(before) + SegmentText(last) == t + SegmentText(Key(key))
    ensures last == Key(key) && HasNoKey(before)
  {
    if last.Index? {
      IndexAtEnd(PathText(before), last.at);
      NoIndexAfterClearKey(t, key);
    } else {
      OnlyDotIsUnique(t, key, PathText(before), last.name);
      NoDotNoKey(before);
    }
  }

  // A path shares its text with another one exactly if a key of it is followed by a segment, holds
  // `.`, or ends in `[n]`.
  lemma SharesTextExactly(path: seq<Segment>)
    ensures SharesText(path) <==> exists i: nat :: IsUnclearAt(path, i)
  {
    if i: nat :| IsUnclearAt(path, i) {
      var other := UnclearHasOther(path, i);
    } else if other :| IsOtherFor(other, path) {
      ClearPathIsUnique(path, other);
    }
  }

  lemma PathsCollide()
    ensures [Key("a.b")] != [Key("a"), Key("b")] && PathText([Key("a.b")]) == PathText([Key("a"), Key("b")])
  {
    OneSegmentText(Key("a.b"));
    TwoSegmentsText(Key("a"), Key("b"));
    assert |[Key("a.b")]| != |[Key("a"), Key("b")]|;
  }

  function Collided(x: Json): Json {
    Obj(map["a.b" := x, "a" := Obj(map["b" := x])])
  }

  lemma CollidedAreReported(x: Json, y: Json) returns (m: Mismatch, n: Mismatch)
    requires x.Bool? && y.Bool? && x != y
    ensures m.path == [Key("a.b")] && n.path == [Key("a"), Key("b")]
    ensures m in Diff(Collided(x), Collided(y)) && n in Diff(Collided(x), Collided(y))
  {
    var leaf := Mismatch([], Differs(x, y));
    m, n := Push(Key("a.b"), leaf), Push(Key("a"), Push(Key("b"), leaf));
    InsideIsReported(Obj(map["b" := x]), Obj(map["b" := y]), Key("b"), leaf);
    InsideIsReported(Collided(x), Collided(y), Key("a"), Push(Key("b"), leaf));
    InsideIsReported(Collided(x), Collided(y), Key("a.b"), leaf);
  }

  // Other keys can make two reported places look the same.
  lemma LocationsCanCollide() returns (e: Json, a: Json, m: Mismatch, n: Mismatch)
    ensures m in Diff(e, a) && n in Diff(e, a) && m.path != n.path && PathText(m.path) == PathText(n.path)
  {
    e, a := Collided(Bool(false)), Collided(Bool(true));
    m, n := CollidedAreReported(Bool(false), Bool(true));
    PathsCollide();
  }
}
