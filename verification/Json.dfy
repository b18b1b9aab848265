/** JSON values as the program handles them: an object is a finite map that is always walked in
  ascending order of its keys (the map type of the JSON library in its default build).
 */
module Json {
  import opened Wrappers

  // Numbers are opaque values with equality, written as their text.
  datatype Json =
    | Null
    | Bool(flag: bool)
    | Num(text: string)
    | Str(value: string)
    | Arr(items: seq<Json>)
    | Obj(fields: map<string, Json>)

  // ---------- The order of keys ----------

  // Lexicographic order.
  predicate Leq(a: string, b: string) {
    a == "" || (b != "" && (a[0] < b[0] || (a[0] == b[0] && Leq(a[1..], b[1..]))))
  }

  // One text stands before another exactly if it is a prefix of it, or has the smaller character at the
  // first place where they differ.
  lemma {:induction false} LeqExactly(a: string, b: string)
    ensures Leq(a, b) <==> a <= b || exists i :: 0 <= i < |a| && i < |b| && a[..i] == b[..i] && a[i] < b[i]
    decreases |a|
  {
    if a != "" && b != "" && a[0] == b[0] {
      LeqExactly(a[1..], b[1..]);
      if i :| 0 <= i < |a[1..]| && i < |b[1..]| && a[1..][..i] == b[1..][..i] && a[1..][i] < b[1..][i] {
        assert a[..i + 1] == [a[0]] + a[1..][..i] && b[..i + 1] == [b[0]] + b[1..][..i];
        assert a[i + 1] < b[i + 1];
      }
      if i :| 0 <= i < |a| && i < |b| && a[..i] == b[..i] && a[i] < b[i] {
        assert i > 0 && a[1..][..i - 1] == a[..i][1..] && b[1..][..i - 1] == b[..i][1..];
        assert a[1..][i - 1] < b[1..][i - 1];
      }
      assert a <= b <==> a[1..] <= b[1..];
    } else if a != "" && b != "" {
      assert a[..0] == b[..0];
      if i :| 0 <= i < |a| && i < |b| && a[..i] == b[..i] && a[i] < b[i] {
        assert i > 0 ==> a[..i][0] == b[..i][0];
      }
    }
  }

  lemma {:induction false} LeqTotal(a: string, b: string)
    ensures Leq(a, b) || Leq(b, a)
    decreases |a|
  {
    if a != "" && b != "" && a[0] == b[0] {
      LeqTotal(a[1..], b[1..]);
    }
  }

  lemma {:induction false} LeqAntisymmetric(a: string, b: string)
    requires Leq(a, b) && Leq(b, a)
    ensures a == b
    decreases |a|
  {
    if a != "" && b != "" {
      LeqAntisymmetric(a[1..], b[1..]);
      assert a == [a[0]] + a[1..] && b == [b[0]] + b[1..];
    }
  }

  lemma {:induction false} LeqTransitive(a: string, b: string, c: string)
    requires Leq(a, b) && Leq(b, c)
    ensures Leq(a, c)
    decreases |a|
  {
    if a != "" && b != "" && c != "" && a[0] == b[0] == c[0] {
      LeqTransitive(a[1..], b[1..], c[1..]);
    }
  }

  predicate IsLeast(k: string, keys: set<string>) {
    k in keys && forall x :: x in keys ==> Leq(k, x)
  }

  lemma {:induction false} LeastExists(keys: set<string>)
    requires keys != {}
    ensures exists k :: IsLeast(k, keys)
    decreases |keys|
  {
    var x :| x in keys;
    var others := keys - {x};
    LeqTotal(x, x);
    assert forall y :: y in keys ==> y == x || y in others;
    if others == {} {
      assert IsLeast(x, keys);
    } else {
      LeastExists(others);
      var m :| IsLeast(m, others);
      LeqTotal(x, m);
      if Leq(m, x) {
        assert IsLeast(m, keys);
      } else {
        forall y | y in others
          ensures Leq(x, y)
        {
          LeqTransitive(x, m, y);
        }
        assert IsLeast(x, keys);
      }
    }
  }

  lemma LeastIsUnique(keys: set<string>)
    ensures forall j, k :: IsLeast(j, keys) && IsLeast(k, keys) ==> j == k
  {
    forall j, k | IsLeast(j, keys) && IsLeast(k, keys)
      ensures j == k
    {
      LeqAntisymmetric(j, k);
    }
  }

  function Least(keys: set<string>): (k: string)
    requires keys != {}
    ensures IsLeast(k, keys)
  {
    LeastExists(keys);
    LeastIsUnique(keys);
    var k :| k in keys && IsLeast(k, keys);
    k
  }

  // The keys in the order in which a map is walked.
  function SortedKeys(keys: set<string>): seq<string>
    decreases |keys|
  {
    if keys == {} then [] else [Least(keys)] + SortedKeys(keys - {Least(keys)})
  }

  lemma {:induction false} SortedKeysHold(keys: set<string>, k: string)
    ensures k in SortedKeys(keys) <==> k in keys
    decreases |keys|
  {
    if keys != {} {
      var least := Least(keys);
      SortedKeysHold(keys - {least}, k);
      assert SortedKeys(keys) == [least] + SortedKeys(keys - {least});
    }
  }

  ghost predicate Ascends(s: seq<string>) {
    forall i, j :: 0 <= i < j < |s| ==> Leq(s[i], s[j]) && s[i] != s[j]
  }

  lemma AscendsWithHead(first: string, rest: seq<string>)
    requires Ascends(rest) && forall k :: k in rest ==> Leq(first, k) && first != k
    ensures Ascends([first] + rest)
  {
  }

  lemma {:induction false} SortedKeysAscend(keys: set<string>)
    ensures Ascends(SortedKeys(keys))
    decreases |keys|
  {
    if keys != {} {
      var least := Least(keys);
      var rest := keys - {least};
      SortedKeysAscend(rest);
      forall k | k in SortedKeys(rest)
        ensures Leq(least, k) && least != k
      {
        SortedKeysHold(rest, k);
      }
      AscendsWithHead(least, SortedKeys(rest));
    }
  }

  // Every key once, in ascending order.
  lemma SortedKeysAreTheKeys(keys: set<string>)
    ensures var s := SortedKeys(keys);
            && (forall k :: k in s <==> k in keys)
            && (forall i, j :: 0 <= i < j < |s| ==> Leq(s[i], s[j]) && s[i] != s[j])
  {
    forall k
      ensures k in SortedKeys(keys) <==> k in keys
    {
      SortedKeysHold(keys, k);
    }
    SortedKeysAscend(keys);
  }

  // ---------- Places in a tree ----------

  datatype Segment = Key(name: string) | Index(at: nat)

  function Child(t: Json, s: Segment): Option<Json> {
    match (t, s)
    case (Obj(fields), Key(k)) => if k in fields then Some(fields[k]) else None
    case (Arr(items), Index(i)) => if i < |items| then Some(items[i]) else None
    case _ => None
  }

  // What stands at `path` in a tree.
  function Lookup(t: Json, path: seq<Segment>): Option<Json>
    decreases |path|
  {
    if path == [] then Some(t) else
    match Child(t, path[0])
    case None => None
    case Some(c) => Lookup(c, path[1..])
  }

  lemma {:induction false} LookupLast(t: Json, path: seq<Segment>, s: Segment)
    ensures Lookup(t, path + [s]) ==
            match Lookup(t, path) { case None => None case Some(c) => Child(c, s) }
    decreases |path|
  {
    if path == [] {
      assert path + [s] == [s];
      assert ([s])[1..] == [];
    } else {
      assert (path + [s])[1..] == path[1..] + [s];
      var c := Child(t, path[0]);
      if c.Some? {
        LookupLast(c.value, path[1..], s);
      }
    }
  }
}
