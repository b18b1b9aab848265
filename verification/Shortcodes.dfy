/** The `:shortcode:` scanner and the emoji matcher behind it (src/accounts/serializer.rs).

  Positions are character positions. The scanner of the source uses byte offsets of the same
  colons, and cuts the same substrings.
 */
module Shortcodes {
  import opened Sequences
  import opened Wrappers

  predicate IsShortcodeChar(c: char) {
    || 'a' <= c <= 'z'
    || 'A' <= c <= 'Z'
    || '0' <= c <= '9'
    || c == '_' || c == '+' || c == '-'
  }

  const LOWER := "abcdefghijklmnopqrstuvwxyz"
  const UPPER := "ABCDEFGHIJKLMNOPQRSTUVWXYZ"
  const OTHERS := "0123456789_+-"

  lemma LowerExactly(c: char)
    ensures c in LOWER <==> 'a' <= c <= 'z'
  {
    if 'a' <= c <= 'z' {
      assert LOWER[c as int - 'a' as int] == c;
    }
  }

  lemma UpperExactly(c: char)
    ensures c in UPPER <==> 'A' <= c <= 'Z'
  {
    if 'A' <= c <= 'Z' {
      assert UPPER[c as int - 'A' as int] == c;
    }
  }

  lemma OthersExactly(c: char)
    ensures c in OTHERS <==> '0' <= c <= '9' || c == '_' || c == '+' || c == '-'
  {
    if '0' <= c <= '9' {
      assert OTHERS[c as int - '0' as int] == c;
    }
    assert OTHERS[10] == '_' && OTHERS[11] == '+' && OTHERS[12] == '-';
  }

  // The 65 characters of a shortcode.
  lemma ShortcodeCharExactly(c: char)
    ensures IsShortcodeChar(c) <==> c in LOWER || c in UPPER || c in OTHERS
  {
    LowerExactly(c);
    UpperExactly(c);
    OthersExactly(c);
  }

  predicate IsToken(s: string) {
    s != "" && forall i :: 0 <= i < |s| ==> IsShortcodeChar(s[i])
  }

  // ---------- The scanner ----------

  // The positions of every colon, ascending.
  function ColonPositions(text: string): seq<nat> {
    if text == "" then [] else
    var last := |text| - 1;
    ColonPositions(text[..last]) + if text[last] == ':' then [last] else []
  }

  ghost predicate Colons(text: string, ps: seq<nat>) {
    && (forall k :: 0 <= k < |ps| ==> ps[k] < |text| && text[ps[k]] == ':')
    && (forall j, k :: 0 <= j < k < |ps| ==> ps[j] < ps[k])
  }

  lemma {:induction false} ColonPositionsExact(text: string)
    ensures Colons(text, ColonPositions(text))
    ensures forall i :: 0 <= i < |text| && text[i] == ':' ==> i in ColonPositions(text)
  {
    if text != "" {
      var last := |text| - 1;
      ColonPositionsExact(text[..last]);
      forall i | 0 <= i < last && text[i] == ':'
        ensures i in ColonPositions(text)
      {
        assert text[..last][i] == ':';
      }
    }
  }

  // How many windows there are, that is pairs of consecutive colons.
  function WindowCount(text: string): nat {
    if ColonPositions(text) == [] then 0 else |ColonPositions(text)| - 1
  }

  lemma WindowBounds(text: string, w: nat)
    requires w < WindowCount(text)
    ensures ColonPositions(text)[w] < ColonPositions(text)[w + 1] < |text|
  {
    ColonPositionsExact(text);
  }

  // The text inside the w-th window.
  function Inner(text: string, w: nat): string
    requires w < WindowCount(text)
  {
    WindowBounds(text, w);
    var ps := ColonPositions(text);
    text[ps[w] + 1..ps[w + 1]]
  }

  // Which windows hold a token.
  function ValidWindows(text: string): (valid: seq<bool>)
    ensures |valid| == WindowCount(text)
    ensures forall w :: 0 <= w < |valid| ==> valid[w] == IsToken(Inner(text, w))
  {
    seq(WindowCount(text), w requires 0 <= w < WindowCount(text) => IsToken(Inner(text, w)))
  }

  // The windows the scan takes from the i-th on: a taken window uses up its closing colon.
  function TakenFrom(valid: seq<bool>, i: nat): (taken: seq<nat>)
    ensures forall k :: 0 <= k < |taken| ==> i <= taken[k] < |valid|
    decreases |valid| - i
  {
    if i >= |valid| then []
    else if valid[i] then [i] + TakenFrom(valid, i + 2)
    else TakenFrom(valid, i + 1)
  }

  function TokensOf(text: string, taken: seq<nat>): (ts: seq<string>)
    requires forall k :: 0 <= k < |taken| ==> taken[k] < WindowCount(text)
    ensures |ts| == |taken| && forall k :: 0 <= k < |ts| ==> ts[k] == Inner(text, taken[k])
  {
    seq(|taken|, k requires 0 <= k < |taken| => Inner(text, taken[k]))
  }

  function Taken(text: string): (taken: seq<nat>)
    ensures forall k :: 0 <= k < |taken| ==> taken[k] < WindowCount(text)
  {
    TakenFrom(ValidWindows(text), 0)
  }

  // The tokens of a text, in text order.
  function Tokens(text: string): seq<string> {
    TokensOf(text, Taken(text))
  }

  // The tokens the scan finds from the i-th window on.
  function TokensFrom(text: string, i: nat): seq<string>
    decreases WindowCount(text) - i
  {
    if i >= WindowCount(text) then []
    else if IsToken(Inner(text, i)) then [Inner(text, i)] + TokensFrom(text, i + 2)
    else TokensFrom(text, i + 1)
  }

  lemma TokensOfStep(text: string, first: nat, rest: seq<nat>)
    requires first < WindowCount(text) && forall k :: 0 <= k < |rest| ==> rest[k] < WindowCount(text)
    ensures TokensOf(text, [first] + rest) == [Inner(text, first)] + TokensOf(text, rest)
  {
  }

  // They are those of the windows it takes.
  lemma {:induction false} TokensFromAreTaken(text: string, i: nat)
    ensures TokensFrom(text, i) == TokensOf(text, TakenFrom(ValidWindows(text), i))
    decreases WindowCount(text) - i
  {
    var valid := ValidWindows(text);
    if i < WindowCount(text) {
      if valid[i] {
        TokensFromAreTaken(text, i + 2);
        TokensOfStep(text, i, TakenFrom(valid, i + 2));
      } else {
        TokensFromAreTaken(text, i + 1);
      }
    }
  }

  lemma TokensAreFound(text: string)
    ensures Tokens(text) == TokensFrom(text, 0)
  {
    TokensFromAreTaken(text, 0);
  }

  // Between two colons in a row stands the inside of a window.
  lemma WindowText(text: string, ps: seq<nat>, i: nat)
    requires ps == ColonPositions(text) && i + 1 < |ps|
    ensures i < WindowCount(text) && ps[i] < ps[i + 1] < |text|
    ensures text[ps[i] + 1..ps[i + 1]] == Inner(text, i)
  {
    WindowBounds(text, i);
  }

  lemma ScanStep(result: seq<string>, text: string, i: nat, whole: seq<string>)
    requires i < WindowCount(text) && result + TokensFrom(text, i) == whole
    ensures var inner := Inner(text, i);
            if IsToken(inner) then result + [inner] + TokensFrom(text, i + 2) == whole
            else result + TokensFrom(text, i + 1) == whole
  {
    if IsToken(Inner(text, i)) {
      JoinAssociates(result, [Inner(text, i)], TokensFrom(text, i + 2));
    }
  }

  method ShortcodesIn(text: string) returns (result: seq<string>)
    ensures result == Tokens(text)
  {
    var colonPositions := ColonPositions(text);
    result := [];
    var i := 0;
    ghost var whole := TokensFrom(text, 0);
    assert result + TokensFrom(text, i) == whole;
    while i + 1 < |colonPositions|
      invariant result + TokensFrom(text, i) == whole
    {
      var start, end := colonPositions[i], colonPositions[i + 1];
      WindowText(text, colonPositions, i);
      var inner := text[start + 1..end];
      ScanStep(result, text, i, whole);
      if IsToken(inner) {
        result := result + [inner];
        i := i + 2;
      } else {
        i := i + 1;
      }
    }
    assert result + [] == result;
    TokensAreFound(text);
  }

  // A window is taken exactly when it is valid and the window before it was not taken.
  lemma {:induction false} GreedyChoice(valid: seq<bool>, i: nat, w: nat)
    requires i <= w < |valid|
    ensures w in TakenFrom(valid, i) <==> valid[w] && (w == i || w - 1 !in TakenFrom(valid, i))
    decreases |valid| - i
  {
    var next := if valid[i] then i + 2 else i + 1;
    if w >= next {
      GreedyChoice(valid, next, w);
    }
  }

  lemma TakenExactly(text: string, w: nat)
    requires w < WindowCount(text)
    ensures w in Taken(text) <==> IsToken(Inner(text, w)) && (w == 0 || w - 1 !in Taken(text))
  {
    GreedyChoice(ValidWindows(text), 0, w);
  }

  // An occurrence of `:token:`: the positions of its two delimiting colons.
  datatype Occurrence = Occurrence(open: nat, close: nat)

  predicate Occurs(text: string, o: Occurrence) {
    o.open < o.close < |text| && text[o.open] == ':' && text[o.close] == ':' && IsToken(text[o.open + 1..o.close])
  }

  // Two occurrences overlap when they share a character, a delimiter included.
  ghost predicate Apart(a: Occurrence, b: Occurrence) {
    a.close < b.open || b.close < a.open
  }

  ghost predicate AllApart(os: set<Occurrence>) {
    forall a, b :: a in os && b in os && a != b ==> Apart(a, b)
  }

  // Every occurrence is a window of two consecutive colons.
  lemma OccurrenceIsWindow(text: string, o: Occurrence) returns (w: nat)
    requires Occurs(text, o)
    ensures w < WindowCount(text)
    ensures ColonPositions(text)[w] == o.open && ColonPositions(text)[w + 1] == o.close
    ensures Inner(text, w) == text[o.open + 1..o.close] && IsToken(Inner(text, w))
  {
    var ps := ColonPositions(text);
    ColonPositionsExact(text);
    assert o.open in ps && o.close in ps;
    w :| 0 <= w < |ps| && ps[w] == o.open;
    var v :| 0 <= v < |ps| && ps[v] == o.close;
    assert w < v;
    forall p | o.open < p < o.close
      ensures text[p] != ':'
    {
      assert IsShortcodeChar(text[o.open + 1..o.close][p - (o.open + 1)]);
    }
    assert o.open < ps[w + 1] <= o.close;
    assert text[ps[w + 1]] == ':';
  }

  // The taken window an occurrence is charged to: its own, or the one just before it.
  ghost predicate ChargedTo(text: string, o: Occurrence, t: nat) {
    var ps := ColonPositions(text);
    && t in Taken(text) && t < WindowCount(text)
    && (ps[t] == o.open || ps[t + 1] == o.open)
  }

  lemma ChargeExists(text: string, o: Occurrence) returns (t: nat)
    requires Occurs(text, o)
    ensures ChargedTo(text, o, t)
  {
    var w := OccurrenceIsWindow(text, o);
    TakenExactly(text, w);
    t := if w in Taken(text) then w else w - 1;
  }

  lemma ChargeIsInjective(text: string, a: Occurrence, b: Occurrence, t: nat)
    requires Occurs(text, a) && Occurs(text, b) && ChargedTo(text, a, t) && ChargedTo(text, b, t)
    ensures a == b || !Apart(a, b)
  {
    var v := OccurrenceIsWindow(text, a);
    var w := OccurrenceIsWindow(text, b);
    ColonPositionsExact(text);
    assert v == t || v == t + 1;
    assert w == t || w == t + 1;
  }

  lemma {:induction false} InjectiveMapSize<A, B>(m: map<A, B>, range: set<B>)
    requires forall a :: a in m ==> m[a] in range
    requires forall a, b :: a in m && b in m && a != b ==> m[a] != m[b]
    ensures |m.Keys| <= |range|
    decreases |m|
  {
    if m.Keys != {} {
      var a :| a in m;
      var rest := m - {a};
      assert rest.Keys == m.Keys - {a};
      InjectiveMapSize(rest, range - {m[a]});
    }
  }

  lemma {:induction false} ElementsAtMostLength<T>(s: seq<T>)
    ensures |set x | x in s| <= |s|
  {
    if s == [] {
      assert (set x | x in s) == {};
    } else {
      ElementsAtMostLength(s[1..]);
      assert (set x | x in s) == (set x | x in s[1..]) + {s[0]};
    }
  }

  // The greedy scan is optimal: no set of non-overlapping occurrences is larger than its result.
  lemma GreedyScanIsOptimal(text: string, os: set<Occurrence>)
    requires AllApart(os) && forall o :: o in os ==> Occurs(text, o)
    ensures |os| <= |Tokens(text)|
  {
    forall o | o in os
      ensures exists t: nat :: ChargedTo(text, o, t)
    {
      var t := ChargeExists(text, o);
    }
    var charge := map o | o in os :: var t: nat :| ChargedTo(text, o, t); t;
    var taken := set t | t in Taken(text);
    forall a, b | a in charge && b in charge && a != b
      ensures charge[a] != charge[b]
    {
      if charge[a] == charge[b] {
        ChargeIsInjective(text, a, b, charge[a]);
      }
    }
    InjectiveMapSize(charge, taken);
    assert charge.Keys == os;
    ElementsAtMostLength(Taken(text));
  }

  // The occurrence a window stands for.
  function WindowOccurrence(text: string, w: nat): Occurrence
    requires w < WindowCount(text)
  {
    Occurrence(ColonPositions(text)[w], ColonPositions(text)[w + 1])
  }

  lemma {:induction false} TakenAreTwoApart(valid: seq<bool>, i: nat, j: nat, k: nat)
    requires j < k < |TakenFrom(valid, i)|
    ensures TakenFrom(valid, i)[j] + 2 <= TakenFrom(valid, i)[k]
    decreases |valid| - i
  {
    if !valid[i] {
      TakenAreTwoApart(valid, i + 1, j, k);
    } else if j > 0 {
      TakenAreTwoApart(valid, i + 2, j - 1, k - 1);
    }
  }

  // What the scan returns is itself such a set: every token is an occurrence, and the tokens
  // stand apart in text order.
  lemma ResultIsApart(text: string, k: nat)
    requires k < |Tokens(text)|
    ensures var o := WindowOccurrence(text, Taken(text)[k]);
            && Occurs(text, o)
            && Tokens(text)[k] == text[o.open + 1..o.close]
            && forall j :: 0 <= j < k ==>
                 var p := WindowOccurrence(text, Taken(text)[j]); p.close < o.open && Apart(p, o)
  {
    var taken := Taken(text);
    ColonPositionsExact(text);
    assert taken[k] in taken;
    TakenExactly(text, taken[k]);
    forall j | 0 <= j < k
      ensures WindowOccurrence(text, taken[j]).close < WindowOccurrence(text, taken[k]).open
    {
      TakenAreTwoApart(ValidWindows(text), 0, j, k);
    }
  }

  // ---------- De-duplication ----------

  // The elements in order of first appearance.
  function FirstAppearances<T(==)>(s: seq<T>): seq<T> {
    if s == [] then [] else
    var init, last := s[..|s| - 1], s[|s| - 1];
    if last in init then FirstAppearances(init) else FirstAppearances(init) + [last]
  }

  // The shortcodes a display name and a note refer to.
  function Referenced(displayName: string, note: string): seq<string> {
    FirstAppearances(Tokens(displayName) + Tokens(note))
  }

  lemma {:induction false} FirstAppearancesElements<T>(s: seq<T>, x: T)
    ensures x in FirstAppearances(s) <==> x in s
  {
    if s != [] {
      FirstAppearancesElements(s[..|s| - 1], x);
      assert s == s[..|s| - 1] + [s[|s| - 1]];
    }
  }

  ghost predicate NoRepeats<T>(s: seq<T>) {
    forall i, j :: 0 <= i < j < |s| ==> s[i] != s[j]
  }

  // `n` is where `x` first stands in `s`.
  ghost predicate FirstAt<T>(s: seq<T>, x: T, n: nat) {
    n < |s| && s[n] == x && forall i :: 0 <= i < n ==> s[i] != x
  }

  lemma {:induction false} FirstAppearancesPlace<T>(s: seq<T>, k: nat) returns (n: nat)
    requires k < |FirstAppearances(s)|
    ensures FirstAt(s, FirstAppearances(s)[k], n)
  {
    var init, last := s[..|s| - 1], s[|s| - 1];
    if k < |FirstAppearances(init)| {
      n := FirstAppearancesPlace(init, k);
    } else {
      n := |s| - 1;
    }
  }

  // No repeats, and the order is that of the first places.
  lemma {:induction false} FirstAppearancesOrder<T>(s: seq<T>, j: nat, k: nat, m: nat, n: nat)
    requires j < k < |FirstAppearances(s)|
    requires FirstAt(s, FirstAppearances(s)[j], m) && FirstAt(s, FirstAppearances(s)[k], n)
    ensures FirstAppearances(s)[j] != FirstAppearances(s)[k]
    ensures m < n
  {
    var init, last := s[..|s| - 1], s[|s| - 1];
    assert forall i :: 0 <= i < |init| ==> s[i] == init[i];
    var fj, fk := FirstAppearances(s)[j], FirstAppearances(s)[k];
    assert fj in FirstAppearances(init);
    FirstAppearancesElements(init, fj);
    assert FirstAt(init, fj, m);
    if k < |FirstAppearances(init)| {
      assert fk in FirstAppearances(init);
      FirstAppearancesElements(init, fk);
      assert FirstAt(init, fk, n);
      FirstAppearancesOrder(init, j, k, m, n);
    } else {
      assert forall i :: 0 <= i < |init| ==> s[i] != last;
    }
  }

  lemma FirstAppearancesNoRepeats<T>(s: seq<T>)
    ensures NoRepeats(FirstAppearances(s))
  {
    var f := FirstAppearances(s);
    forall j, k | 0 <= j < k < |f|
      ensures f[j] != f[k]
    {
      var m := FirstAppearancesPlace(s, j);
      var n := FirstAppearancesPlace(s, k);
      FirstAppearancesOrder(s, j, k, m, n);
    }
  }

  lemma FirstAppearancesStep<T>(s: seq<T>, x: T)
    ensures FirstAppearances(s + [x]) == if x in s then FirstAppearances(s) else FirstAppearances(s) + [x]
  {
    assert (s + [x])[..|s|] == s;
  }

  // One pass over a token list: `before` is what earlier passes have seen.
  ghost predicate Extracted(before: seq<string>, seen: set<string>, result: seq<string>) {
    (forall x :: x in seen <==> x in before) && result == FirstAppearances(before)
  }

  lemma ExtractStep(before: seq<string>, x: string, seen: set<string>, result: seq<string>)
    requires Extracted(before, seen, result)
    ensures x !in seen ==> Extracted(before + [x], seen + {x}, result + [x])
    ensures x in seen ==> Extracted(before + [x], seen, result)
  {
    FirstAppearancesStep(before, x);
  }

  // The pass over one text's tokens.
  method AddTokens(tokens: seq<string>, seen0: set<string>, result0: seq<string>, ghost before: seq<string>)
    returns (seen: set<string>, result: seq<string>)
    requires Extracted(before, seen0, result0)
    ensures Extracted(before + tokens, seen, result)
  {
    seen, result := seen0, result0;
    ghost var passed := before;
    for k := 0 to |tokens|
      invariant passed == before + tokens[..k]
      invariant Extracted(passed, seen, result)
    {
      ExtractStep(passed, tokens[k], seen, result);
      if tokens[k] !in seen {
        seen := seen + {tokens[k]};
        result := result + [tokens[k]];
      }
      passed := passed + [tokens[k]];
    }
    assert passed == before + tokens;
  }

  // The display name first, then the note.
  method ExtractShortcodes(displayName: string, note: string) returns (result: seq<string>)
    ensures result == Referenced(displayName, note)
  {
    var named := ShortcodesIn(displayName);
    var noted := ShortcodesIn(note);
    var seen: set<string>;
    seen, result := AddTokens(named, {}, [], []);
    assert [] + named == named;
    seen, result := AddTokens(noted, seen, result, named);
  }

  // ---------- The matcher ----------

  datatype CustomEmoji = CustomEmoji(
    shortcode: string,
    url: string,
    staticUrl: string,
    visibleInPicker: bool,
    category: Option<string>)

  // The candidates of one shortcode, in order.
  function Group(candidates: seq<CustomEmoji>, shortcode: string): (g: seq<CustomEmoji>)
    ensures forall e :: e in g <==> e in candidates && e.shortcode == shortcode
  {
    if candidates == [] then [] else
    var init, last := candidates[..|candidates| - 1], candidates[|candidates| - 1];
    assert candidates == init + [last];
    Group(init, shortcode) + if last.shortcode == shortcode then [last] else []
  }

  // There is a row, and every other row equals the first.
  predicate AllEqual(g: seq<CustomEmoji>) {
    g != [] && forall k :: 0 <= k < |g| ==> g[k] == g[0]
  }

  // The rows of `grouped` that are unambiguous, in the order of `referenced`.
  function Unambiguous(referenced: seq<string>, grouped: map<string, seq<CustomEmoji>>): seq<CustomEmoji> {
    if referenced == [] then [] else
    var s := referenced[0];
    (if s in grouped && AllEqual(grouped[s]) then [grouped[s][0]] else []) + Unambiguous(referenced[1..], grouped)
  }

  // The candidates grouped by shortcode.
  function Groups(candidates: seq<CustomEmoji>): map<string, seq<CustomEmoji>> {
    if candidates == [] then map[] else
    var before, e := Groups(candidates[..|candidates| - 1]), candidates[|candidates| - 1];
    before[e.shortcode := (if e.shortcode in before then before[e.shortcode] else []) + [e]]
  }

  lemma {:induction false} GroupsExact(candidates: seq<CustomEmoji>, s: string)
    ensures s in Groups(candidates) <==> Group(candidates, s) != []
    ensures s in Groups(candidates) ==> Groups(candidates)[s] == Group(candidates, s)
  {
    if candidates != [] {
      GroupsExact(candidates[..|candidates| - 1], s);
    }
  }

  function Matched(displayName: string, note: string, candidates: seq<CustomEmoji>): seq<CustomEmoji> {
    Unambiguous(Referenced(displayName, note), Groups(candidates))
  }

  method MatchReferencedEmojis(displayName: string, note: string, candidates: seq<CustomEmoji>)
    returns (r: seq<CustomEmoji>)
    ensures r == Matched(displayName, note, candidates)
  {
    var referenced := ExtractShortcodes(displayName, note);
    if referenced == [] {
      return [];
    }
    var grouped: map<string, seq<CustomEmoji>> := map[];
    for k := 0 to |candidates|
      invariant grouped == Groups(candidates[..k])
    {
      var candidate := candidates[k];
      assert candidates[..k + 1][..k] == candidates[..k];
      var group := if candidate.shortcode in grouped then grouped[candidate.shortcode] else [];
      grouped := grouped[candidate.shortcode := group + [candidate]];
    }
    assert candidates[..|candidates|] == candidates;
    r := Unambiguous(referenced, grouped);
  }

  // The candidates agree on a shortcode, and there is one at all.
  ghost predicate Agreed(candidates: seq<CustomEmoji>, e: CustomEmoji) {
    e in candidates && forall c :: c in candidates && c.shortcode == e.shortcode ==> c == e
  }

  lemma GroupAgrees(candidates: seq<CustomEmoji>, s: string)
    ensures var g := Group(candidates, s);
            AllEqual(g) <==> exists e: CustomEmoji :: e.shortcode == s && Agreed(candidates, e)
    ensures var g := Group(candidates, s);
            AllEqual(g) ==> g[0].shortcode == s && Agreed(candidates, g[0])
  {
    var g := Group(candidates, s);
    if AllEqual(g) {
      assert g[0] in g;
      assert Agreed(candidates, g[0]);
    }
    if e: CustomEmoji :| e.shortcode == s && Agreed(candidates, e) {
      assert e in g;
      forall k | 0 <= k < |g|
        ensures g[k] == e
      {
        assert g[k] in g;
      }
    }
  }

  lemma {:induction false} UnambiguousElements(referenced: seq<string>, candidates: seq<CustomEmoji>, e: CustomEmoji)
    ensures e in Unambiguous(referenced, Groups(candidates)) <==> e.shortcode in referenced && Agreed(candidates, e)
  {
    if referenced != [] {
      UnambiguousElements(referenced[1..], candidates, e);
      GroupAgrees(candidates, referenced[0]);
      GroupsExact(candidates, referenced[0]);
    }
  }

  // An emoji is attached exactly when its shortcode is referenced, it is a candidate, and every
  // candidate of that shortcode is identical to it.
  lemma MatchedExactly(displayName: string, note: string, candidates: seq<CustomEmoji>, e: CustomEmoji)
    ensures e in Matched(displayName, note, candidates)
       <==> (e.shortcode in Tokens(displayName) || e.shortcode in Tokens(note)) && Agreed(candidates, e)
  {
    UnambiguousElements(Referenced(displayName, note), candidates, e);
    FirstAppearancesElements(Tokens(displayName) + Tokens(note), e.shortcode);
  }

  lemma {:induction false} PlaceOfReference(referenced: seq<string>, candidates: seq<CustomEmoji>, k: nat)
    returns (q: nat)
    requires k < |Unambiguous(referenced, Groups(candidates))|
    ensures q < |referenced| && referenced[q] == Unambiguous(referenced, Groups(candidates))[k].shortcode
  {
    var e := Unambiguous(referenced, Groups(candidates))[k];
    UnambiguousElements(referenced, candidates, e);
    q :| 0 <= q < |referenced| && referenced[q] == e.shortcode;
  }

  lemma {:induction false} UnambiguousHead(referenced: seq<string>, candidates: seq<CustomEmoji>)
    returns (head: seq<CustomEmoji>)
    requires referenced != []
    ensures Unambiguous(referenced, Groups(candidates)) == head + Unambiguous(referenced[1..], Groups(candidates))
    ensures |head| <= 1 && (head != [] ==> head[0].shortcode == referenced[0])
  {
    var s, grouped := referenced[0], Groups(candidates);
    GroupAgrees(candidates, s);
    GroupsExact(candidates, s);
    head := if s in grouped && AllEqual(grouped[s]) then [grouped[s][0]] else [];
  }

  // The output keeps the order of first appearance, and repeats no shortcode.
  lemma {:induction false} UnambiguousOrder(referenced: seq<string>, candidates: seq<CustomEmoji>, j: nat, k: nat)
    returns (m: nat, n: nat)
    requires j < k < |Unambiguous(referenced, Groups(candidates))|
    ensures var r := Unambiguous(referenced, Groups(candidates));
            m < n < |referenced| && referenced[m] == r[j].shortcode && referenced[n] == r[k].shortcode
    decreases |referenced|
  {
    var head := UnambiguousHead(referenced, candidates);
    var rest := Unambiguous(referenced[1..], Groups(candidates));
    assert (head + rest)[k] == rest[k - |head|];
    if j < |head| {
      var q := PlaceOfReference(referenced[1..], candidates, k - |head|);
      m, n := 0, q + 1;
    } else {
      m, n := UnambiguousOrder(referenced[1..], candidates, j - |head|, k - |head|);
      m, n := m + 1, n + 1;
    }
  }

  lemma MatchedOrder(displayName: string, note: string, candidates: seq<CustomEmoji>, j: nat, k: nat)
    returns (m: nat, n: nat)
    requires j < k < |Matched(displayName, note, candidates)|
    ensures var r := Matched(displayName, note, candidates);
            && r[j].shortcode != r[k].shortcode
            && m < n
            && FirstAt(Tokens(displayName) + Tokens(note), r[j].shortcode, m)
            && FirstAt(Tokens(displayName) + Tokens(note), r[k].shortcode, n)
  {
    var all := Tokens(displayName) + Tokens(note);
    FirstAppearancesNoRepeats(all);
    var a, b := UnambiguousOrder(Referenced(displayName, note), candidates, j, k);
    m := FirstAppearancesPlace(all, a);
    n := FirstAppearancesPlace(all, b);
    FirstAppearancesOrder(all, a, b, m, n);
  }

  // Only the set of referenced candidates matters: reordering, repeating, or adding unreferenced
  // candidates changes nothing.
  lemma {:induction false} UnambiguousDependsOnSet(referenced: seq<string>, a: seq<CustomEmoji>, b: seq<CustomEmoji>)
    requires forall e: CustomEmoji :: e.shortcode in referenced ==> (e in a <==> e in b)
    ensures Unambiguous(referenced, Groups(a)) == Unambiguous(referenced, Groups(b))
    decreases |referenced|
  {
    if referenced != [] {
      var s := referenced[0];
      GroupAgrees(a, s);
      GroupAgrees(b, s);
      GroupsExact(a, s);
      GroupsExact(b, s);
      forall e: CustomEmoji | e.shortcode == s
        ensures Agreed(a, e) <==> Agreed(b, e)
      {
      }
      forall e: CustomEmoji | e.shortcode in referenced[1..]
        ensures e in a <==> e in b
      {
        assert e.shortcode in referenced;
      }
      UnambiguousDependsOnSet(referenced[1..], a, b);
    }
  }

  lemma MatchedDependsOnSet(displayName: string, note: string, a: seq<CustomEmoji>, b: seq<CustomEmoji>)
    requires forall e: CustomEmoji ::
               e.shortcode in Tokens(displayName) || e.shortcode in Tokens(note) ==> (e in a <==> e in b)
    ensures Matched(displayName, note, a) == Matched(displayName, note, b)
  {
    var referenced := Referenced(displayName, note);
    forall e: CustomEmoji | e.shortcode in referenced
      ensures e in a <==> e in b
    {
      FirstAppearancesElements(Tokens(displayName) + Tokens(note), e.shortcode);
    }
    UnambiguousDependsOnSet(referenced, a, b);
  }
}
