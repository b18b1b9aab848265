/** Continuation links (src/api/pagination.rs, src/accounts/endpoints.rs): how they are printed,
  and what a client and the server read back from them.

  A string stands for its UTF-8 bytes, one character below 256 for each byte.
 */
module Links {
  import opened Arithmetic
  import opened Wrappers
  import Decimal
  import Pagination
  import opened Sequences
  import opened Strings

  // ---------- Percent-encoding ----------

  predicate IsBytes(s: string) {
    forall i :: 0 <= i < |s| ==> s[i] < 256 as char
  }

  // The unreserved characters of section 2.3 of RFC 3986.
  predicate IsUnreserved(c: char) {
    'A' <= c <= 'Z' || 'a' <= c <= 'z' || '0' <= c <= '9' || c == '-' || c == '_' || c == '.' || c == '~'
  }

  function HexDigit(n: nat): char
    requires n < 16
  {
    if n < 10 then ('0' as int + n) as char else ('A' as int + n - 10) as char
  }

  predicate IsHex(c: char) {
    '0' <= c <= '9' || 'A' <= c <= 'F' || 'a' <= c <= 'f'
  }

  function HexValue(c: char): (n: nat)
    requires IsHex(c)
    ensures n < 16
  {
    if c <= '9' then c as int - '0' as int
    else if c <= 'F' then c as int - 'A' as int + 10
    else c as int - 'a' as int + 10
  }

  function EncodeByte(c: char): string
    requires c < 256 as char
  {
    if IsUnreserved(c) then [c] else ['%', HexDigit(c as int / 16), HexDigit(c as int % 16)]
  }

  function Encoded(value: string): string
    requires IsBytes(value)
  {
    if value == "" then "" else Encoded(value[..|value| - 1]) + EncodeByte(value[|value| - 1])
  }

  const HEX := "0123456789ABCDEF"

  // A letter, a digit or one of `-._~` stands for itself; every other byte is a `%` and two digits.
  ghost predicate IsEncodedByte(piece: string, c: char)
    requires c < 256 as char
  {
    if 'A' <= c <= 'Z' || 'a' <= c <= 'z' || '0' <= c <= '9' || c in "-._~" then piece == [c]
    else piece == ['%', HEX[c as int / 16], HEX[c as int % 16]]
  }

  ghost predicate IsEncoding(out: string, value: string)
    requires IsBytes(value)
  {
    exists pieces: seq<string> :: ArePieces(pieces, value) && out == Concat(pieces)
  }

  ghost predicate ArePieces(pieces: seq<string>, value: string)
    requires IsBytes(value)
  {
    |pieces| == |value| && forall i :: 0 <= i < |value| ==> IsEncodedByte(pieces[i], value[i])
  }

  lemma ByteIsEncoded(c: char)
    requires c < 256 as char
    ensures IsEncodedByte(EncodeByte(c), c)
  {
  }

  // The encoding is that of the bytes, one after another.
  lemma {:induction false} EncodedExactly(value: string) returns (pieces: seq<string>)
    requires IsBytes(value)
    ensures ArePieces(pieces, value) && Encoded(value) == Concat(pieces)
    decreases |value|
  {
    pieces := [];
    if value != "" {
      var rest, last := value[..|value| - 1], value[|value| - 1];
      pieces := EncodedExactly(rest);
      ByteIsEncoded(last);
      assert (pieces + [EncodeByte(last)])[..|pieces|] == pieces;
      pieces := pieces + [EncodeByte(last)];
    }
  }

  lemma EncodedIsEncoding(value: string)
    requires IsBytes(value)
    ensures IsEncoding(Encoded(value), value)
  {
    var pieces := EncodedExactly(value);
  }

  method PercentEncodeQuery(value: string) returns (out: string)
    requires IsBytes(value)
    ensures out == Encoded(value)
    ensures IsEncoding(out, value)
  {
    out := "";
    for i := 0 to |value|
      invariant out == Encoded(value[..i])
    {
      assert value[..i + 1][..i] == value[..i];
      if IsUnreserved(value[i]) {
        out := out + [value[i]];
      } else {
        out := out + "%";
        out := out + [HexDigit(value[i] as int / 16), HexDigit(value[i] as int % 16)];
      }
    }
    assert value[..|value|] == value;
    EncodedIsEncoding(value);
  }

  // How a form-encoded query component is read: `+` is a space, `%XX` is a byte, and a `%` that
  // starts no such triple stands for itself.
  predicate StartsEscape(s: string) {
    |s| >= 3 && s[0] == '%' && IsHex(s[1]) && IsHex(s[2])
  }

  function Decoded(s: string): string {
    if s == "" then ""
    else if StartsEscape(s) then
      [(16 * HexValue(s[1]) + HexValue(s[2])) as char] + Decoded(s[3..])
    else
      [if s[0] == '+' then ' ' else s[0]] + Decoded(s[1..])
  }

  const LOWER_HEX := "0123456789abcdef"

  lemma DigitIsRead(c: char, d: nat)
    requires d < 16 && (c == HEX[d] || c == LOWER_HEX[d])
    ensures IsHex(c) && HexValue(c) == d
  {
  }

  // A `+` is read as a space, and a `%` with two digits, of either case, as their byte.
  lemma DecodedStarts(a: char, b: char, high: nat, low: nat, s: string)
    requires high < 16 && (a == HEX[high] || a == LOWER_HEX[high])
    requires low < 16 && (b == HEX[low] || b == LOWER_HEX[low])
    ensures Decoded(['%', a, b] + s) == [(16 * high + low) as char] + Decoded(s)
    ensures Decoded("+" + s) == " " + Decoded(s)
  {
    DigitIsRead(a, high);
    DigitIsRead(b, low);
    assert (['%', a, b] + s)[3..] == s && ("+" + s)[1..] == s;
  }

  lemma DecodedEncodeByte(c: char, rest: string)
    requires c < 256 as char
    ensures Decoded(EncodeByte(c) + rest) == [c] + Decoded(rest)
  {
    var s := EncodeByte(c) + rest;
    if IsUnreserved(c) {
      assert s[1..] == rest;
    } else {
      assert s[3..] == rest;
    }
  }

  lemma {:induction false} DecodedEncodedThen(value: string, rest: string)
    requires IsBytes(value)
    ensures Decoded(Encoded(value) + rest) == value + Decoded(rest)
    decreases |value|
  {
    if value == "" {
      assert Encoded(value) + rest == rest;
    } else {
      var init, last := value[..|value| - 1], value[|value| - 1];
      JoinAssociates(Encoded(init), EncodeByte(last), rest);
      DecodedEncodedThen(init, EncodeByte(last) + rest);
      DecodedEncodeByte(last, rest);
      JoinAssociates(init, [last], Decoded(rest));
      assert value == init + [last];
    }
  }

  // Decoding undoes encoding.
  lemma DecodedOfEncoded(value: string)
    requires IsBytes(value)
    ensures Decoded(Encoded(value)) == value
  {
    DecodedEncodedThen(value, "");
    assert Encoded(value) + "" == Encoded(value);
  }

  lemma EncodedIsInjective(a: string, b: string)
    requires IsBytes(a) && IsBytes(b) && Encoded(a) == Encoded(b)
    ensures a == b
  {
    DecodedOfEncoded(a);
    DecodedOfEncoded(b);
  }

  predicate IsEncodedChar(c: char) {
    IsUnreserved(c) || c == '%'
  }

  // The output holds unreserved characters and `%` only.
  lemma {:induction false} EncodedAlphabet(value: string)
    requires IsBytes(value)
    ensures forall i :: 0 <= i < |Encoded(value)| ==> IsEncodedChar(Encoded(value)[i])
    decreases |value|
  {
    if value != "" {
      EncodedAlphabet(value[..|value| - 1]);
    }
  }

  // ---------- Cutting text ----------

  // The text up to the first `c`, and the text after it.
  function Before(s: string, c: char): string {
    if s == "" || s[0] == c then "" else [s[0]] + Before(s[1..], c)
  }

  function After(s: string, c: char): string {
    if s == "" then "" else if s[0] == c then s[1..] else After(s[1..], c)
  }

  lemma {:induction false} CutAtFirst(a: string, c: char, b: string)
    requires c !in a
    ensures Before(a + [c] + b, c) == a
    ensures After(a + [c] + b, c) == b
    decreases |a|
  {
    if a == "" {
      assert (a + [c] + b)[1..] == b;
    } else {
      assert (a + [c] + b)[1..] == a[1..] + [c] + b;
      CutAtFirst(a[1..], c, b);
    }
  }

  lemma {:induction false} CutNowhere(a: string, c: char)
    requires c !in a
    ensures Before(a, c) == a && After(a, c) == ""
    decreases |a|
  {
    if a != "" {
      CutNowhere(a[1..], c);
    }
  }

  lemma {:induction false} AfterIsShorter(s: string, c: char)
    ensures s != "" ==> |After(s, c)| < |s|
    decreases |s|
  {
    if s != "" && s[0] != c {
      AfterIsShorter(s[1..], c);
    }
  }

  // ---------- Queries ----------

  datatype Pair = Pair(key: string, value: string)

  predicate PairOfBytes(p: Pair) {
    IsBytes(p.key) && IsBytes(p.value)
  }

  predicate AllOfBytes(pairs: seq<Pair>) {
    forall i :: 0 <= i < |pairs| ==> PairOfBytes(pairs[i])
  }

  function EncodedPair(p: Pair): string
    requires PairOfBytes(p)
  {
    Encoded(p.key) + "=" + Encoded(p.value)
  }

  // The pairs in order, with `&` between them.
  function Query(pairs: seq<Pair>): string
    requires AllOfBytes(pairs)
  {
    if pairs == [] then ""
    else if |pairs| == 1 then EncodedPair(pairs[0])
    else EncodedPair(pairs[0]) + "&" + Query(pairs[1..])
  }

  datatype Origin = Origin(scheme: string, host: string)

  datatype Context = Context(origin: Origin, path: string, extraQuery: seq<Pair>)

  function Base(ctx: Context): string {
    ctx.origin.scheme + "://" + ctx.origin.host + ctx.path
  }

  function Pairs(ctx: Context, cursorParam: string, cursorValue: string): seq<Pair> {
    ctx.extraQuery + [Pair(cursorParam, cursorValue)]
  }

  function Url(ctx: Context, cursorParam: string, cursorValue: string): string
    requires AllOfBytes(Pairs(ctx, cursorParam, cursorValue))
  {
    Base(ctx) + "?" + Query(Pairs(ctx, cursorParam, cursorValue))
  }

  lemma {:induction false} QueryUnfolds(pairs: seq<Pair>)
    requires AllOfBytes(pairs) && |pairs| > 1
    ensures PairOfBytes(pairs[0]) && AllOfBytes(pairs[1..])
    ensures Query(pairs) == EncodedPair(pairs[0]) + "&" + Query(pairs[1..])
  {
  }

  lemma {:induction false} QueryGrows(pairs: seq<Pair>, p: Pair)
    requires AllOfBytes(pairs) && PairOfBytes(p)
    ensures Query(pairs + [p]) == if pairs == [] then EncodedPair(p) else Query(pairs) + "&" + EncodedPair(p)
    decreases |pairs|
  {
    if pairs != [] {
      var rest := pairs[1..];
      assert PairOfBytes(pairs[0]);
      var first, last := EncodedPair(pairs[0]), EncodedPair(p);
      assert (pairs + [p])[0] == pairs[0] && (pairs + [p])[1..] == rest + [p];
      QueryUnfolds(pairs + [p]);
      QueryGrows(rest, p);
      if rest != [] {
        QueryUnfolds(pairs);
        JoinLast(first + "&", Query(rest), "&", last);
      }
    }
  }

  // The URL with only the first pairs written.
  function UrlUpTo(base: string, pairs: seq<Pair>): string
    requires AllOfBytes(pairs)
  {
    if pairs == [] then base else base + "?" + Query(pairs)
  }

  lemma UrlGrows(base: string, pairs: seq<Pair>, p: Pair)
    requires AllOfBytes(pairs) && PairOfBytes(p)
    ensures UrlUpTo(base, pairs + [p]) ==
            UrlUpTo(base, pairs) + [if pairs == [] then '?' else '&'] + Encoded(p.key) + "=" + Encoded(p.value)
  {
    QueryGrows(pairs, p);
    var k, v := Encoded(p.key), Encoded(p.value);
    if pairs == [] {
      JoinLast(base + "?", k, "=", v);
    } else {
      var q := Query(pairs);
      JoinLast(q + "&", k, "=", v);
      JoinLast(base + "?", q, "&", k);
      JoinLast(base + "?", q + "&" + k, "=", v);
    }
  }

  lemma JoinLast(a: string, b: string, c: string, d: string)
    ensures a + (b + c + d) == a + b + c + d
  {
  }

  lemma UrlGrowsAt(base: string, pairs: seq<Pair>, index: nat)
    requires AllOfBytes(pairs) && index < |pairs|
    ensures PairOfBytes(pairs[index])
    ensures var p := pairs[index];
            UrlUpTo(base, pairs[..index + 1]) ==
            UrlUpTo(base, pairs[..index]) + [if index == 0 then '?' else '&'] + Encoded(p.key) + "=" + Encoded(p.value)
  {
    assert PairOfBytes(pairs[index]);
    var before := pairs[..index];
    assert AllOfBytes(before);
    assert pairs[..index + 1] == before + [pairs[index]];
    UrlGrows(base, before, pairs[index]);
  }

  method UrlWith(ctx: Context, cursorParam: string, cursorValue: string) returns (url: string)
    requires AllOfBytes(Pairs(ctx, cursorParam, cursorValue))
    ensures url == Url(ctx, cursorParam, cursorValue)
  {
    url := Base(ctx);
    var pairs := Pairs(ctx, cursorParam, cursorValue);
    for index := 0 to |pairs|
      invariant url == UrlUpTo(Base(ctx), pairs[..index])
    {
      var pair := pairs[index];
      UrlGrowsAt(Base(ctx), pairs, index);
      url := url + [if index == 0 then '?' else '&'];
      var key := PercentEncodeQuery(pair.key);
      url := url + key;
      url := url + "=";
      var value := PercentEncodeQuery(pair.value);
      url := url + value;
    }
    assert pairs[..|pairs|] == pairs;
  }

  // ---------- Reading a query ----------

  // One `key=value` component; without `=` the value is empty.
  function ReadPair(component: string): Pair {
    Pair(Decoded(Before(component, '=')), Decoded(After(component, '=')))
  }

  // A form-encoded query: components are separated by `&`, empty ones are skipped.
  function ReadQuery(query: string): seq<Pair>
    decreases |query|
  {
    if query == "" then [] else
    AfterIsShorter(query, '&');
    var component := Before(query, '&');
    (if component == "" then [] else [ReadPair(component)]) + ReadQuery(After(query, '&'))
  }

  // The query of a URL: what follows the first `?`, up to a `#`.
  function QueryOf(url: string): string {
    After(Before(url, '#'), '?')
  }

  lemma EncodedHasNo(value: string, c: char)
    requires IsBytes(value) && !IsEncodedChar(c)
    ensures c !in Encoded(value)
  {
    EncodedAlphabet(value);
  }

  lemma EncodedPairHasNo(p: Pair, c: char)
    requires PairOfBytes(p) && !IsEncodedChar(c) && c != '='
    ensures c !in EncodedPair(p)
  {
    EncodedHasNo(p.key, c);
    EncodedHasNo(p.value, c);
  }

  lemma ReadEncodedPair(p: Pair)
    requires PairOfBytes(p)
    ensures EncodedPair(p) != "" && ReadPair(EncodedPair(p)) == p
  {
    EncodedHasNo(p.key, '=');
    CutAtFirst(Encoded(p.key), '=', Encoded(p.value));
    DecodedOfEncoded(p.key);
    DecodedOfEncoded(p.value);
  }

  lemma {:induction false} QueryHasNo(pairs: seq<Pair>, c: char)
    requires AllOfBytes(pairs) && (c == '#' || c == '>')
    ensures c !in Query(pairs)
    decreases |pairs|
  {
    if pairs != [] {
      assert PairOfBytes(pairs[0]);
      EncodedPairHasNo(pairs[0], c);
      QueryHasNo(pairs[1..], c);
    }
  }

  // Reading a printed query gives all its pairs back, in order.
  lemma {:induction false} ReadPrintedQuery(pairs: seq<Pair>)
    requires AllOfBytes(pairs)
    ensures ReadQuery(Query(pairs)) == pairs
    decreases |pairs|
  {
    if pairs != [] {
      assert PairOfBytes(pairs[0]);
      var first := EncodedPair(pairs[0]);
      ReadEncodedPair(pairs[0]);
      EncodedPairHasNo(pairs[0], '&');
      if |pairs| == 1 {
        CutNowhere(first, '&');
      } else {
        CutAtFirst(first, '&', Query(pairs[1..]));
        ReadPrintedQuery(pairs[1..]);
      }
    }
  }

  // For an origin and path without `?` and `#`, the query of a printed link reads back as every
  // preserved parameter followed by the cursor.
  lemma ReadPrintedLink(ctx: Context, cursorParam: string, cursorValue: string)
    requires AllOfBytes(Pairs(ctx, cursorParam, cursorValue))
    requires '?' !in Base(ctx) && '#' !in Base(ctx)
    ensures ReadQuery(QueryOf(Url(ctx, cursorParam, cursorValue))) == Pairs(ctx, cursorParam, cursorValue)
  {
    var pairs := Pairs(ctx, cursorParam, cursorValue);
    QueryHasNo(pairs, '#');
    CutNowhere(Url(ctx, cursorParam, cursorValue), '#');
    CutAtFirst(Base(ctx), '?', Query(pairs));
    ReadPrintedQuery(pairs);
  }

  // Printed links read back only for such an origin and path.

  lemma {:induction false} CutWithin(a: string, b: string, c: char)
    requires c in a
    ensures Before(a + b, c) == Before(a, c)
    ensures After(a + b, c) == After(a, c) + b
    decreases |a|
  {
    if a[0] == c {
      assert (a + b)[1..] == a[1..] + b;
    } else {
      assert (a + b)[1..] == a[1..] + b;
      CutWithin(a[1..], b, c);
    }
  }

  lemma EscapeIsLocal(a: string, b: string)
    requires a != "" && b != "" && !IsHex(b[0])
    ensures StartsEscape(a + b) == StartsEscape(a)
  {
  }

  // An escape never reaches across a character that is no hex digit.
  lemma {:induction false} DecodedSplits(a: string, b: string)
    requires b != "" && !IsHex(b[0])
    ensures Decoded(a + b) == Decoded(a) + Decoded(b)
    decreases |a|
  {
    if a == "" {
      assert a + b == b;
    } else {
      EscapeIsLocal(a, b);
      var n := if StartsEscape(a) then 3 else 1;
      assert (a + b)[n..] == a[n..] + b;
      DecodedSplits(a[n..], b);
      JoinAssociates(Decoded(a)[..1], Decoded(a[n..]), Decoded(b));
    }
  }

  function Weight(pairs: seq<Pair>): nat {
    if pairs == [] then 0 else |pairs[0].key| + |pairs[0].value| + Weight(pairs[1..])
  }

  lemma DecodedPlain(c: char, s: string)
    requires c != '%' && c != '+'
    ensures Decoded([c] + s) == [c] + Decoded(s)
  {
    assert ([c] + s)[1..] == s;
  }

  lemma DecodedAfterMark(p: Pair)
    requires PairOfBytes(p)
    ensures |Decoded("?" + EncodedPair(p))| == |p.key| + |p.value| + 2
    ensures |Decoded("?" + Encoded(p.key))| == |p.key| + 1
  {
    DecodedPlain('?', Encoded(p.key));
    DecodedOfEncoded(p.key);
    DecodedPlain('?', EncodedPair(p));
    JoinAssociates(Encoded(p.key), "=", Encoded(p.value));
    DecodedEncodedThen(p.key, "=" + Encoded(p.value));
    DecodedPlain('=', Encoded(p.value));
    DecodedOfEncoded(p.value);
  }

  // A stray `?` and whatever stands before it stay in the key or the value that is read.
  lemma StrayMarkInValue(r: string, p: Pair)
    requires PairOfBytes(p) && '=' in r
    ensures |ReadPair(r + ("?" + EncodedPair(p))).value| > |p.key| + |p.value|
  {
    DecodedAfterMark(p);
    var rest := "?" + EncodedPair(p);
    CutWithin(r, rest, '=');
    DecodedSplits(After(r, '='), rest);
  }

  lemma StrayMarkInKey(r: string, p: Pair)
    requires PairOfBytes(p) && '=' !in r
    ensures var q := ReadPair(r + ("?" + EncodedPair(p))); |q.key| > |p.key| && q.value == p.value
  {
    var mark := "?" + Encoded(p.key);
    EncodedHasNo(p.key, '=');
    assert r + ("?" + EncodedPair(p)) == (r + mark) + ['='] + Encoded(p.value);
    CutAtFirst(r + mark, '=', Encoded(p.value));
    DecodedAfterMark(p);
    DecodedSplits(r, mark);
    DecodedOfEncoded(p.value);
  }

  lemma WeightOfTail(head: seq<Pair>, tail: seq<Pair>)
    requires |head| <= 1
    ensures Weight(head + tail) == Weight(head) + Weight(tail)
  {
    if head == [] {
      assert head + tail == tail;
    } else {
      assert (head + tail)[1..] == tail;
    }
  }

  lemma WeightOfQuery(query: string)
    requires query != ""
    ensures Weight(ReadQuery(query)) >= Weight(ReadQuery(After(query, '&')))
    ensures Before(query, '&') != "" ==>
      var p := ReadPair(Before(query, '&'));
      Weight(ReadQuery(query)) == |p.key| + |p.value| + Weight(ReadQuery(After(query, '&')))
  {
    var component := Before(query, '&');
    WeightOfTail(if component == "" then [] else [ReadPair(component)], ReadQuery(After(query, '&')));
  }

  lemma MarkedJoin(r: string, mark: string, a: string, b: string)
    ensures r + (mark + (a + b)) == (r + (mark + a)) + b
  {
  }

  lemma StrayComponentIsFirst(r: string, pairs: seq<Pair>)
    requires AllOfBytes(pairs) && pairs != [] && '&' !in r
    ensures AllOfBytes([pairs[0]])
    ensures var s := r + ("?" + Query(pairs));
            && Before(s, '&') == r + ("?" + EncodedPair(pairs[0]))
            && After(s, '&') == Query(pairs[1..])
  {
    var p := pairs[0];
    assert PairOfBytes(p);
    var component := r + ("?" + EncodedPair(p));
    EncodedPairHasNo(p, '&');
    if |pairs| == 1 {
      CutNowhere(component, '&');
    } else {
      var rest := Query(pairs[1..]);
      assert Query(pairs) == EncodedPair(p) + "&" + rest;
      MarkedJoin(r, "?", EncodedPair(p), "&" + rest);
      JoinAssociates(EncodedPair(p), "&", rest);
      JoinAssociates(component, "&", rest);
      CutAtFirst(component, '&', rest);
    }
  }

  lemma StrayPairAddsWeight(r: string, p: Pair)
    requires PairOfBytes(p)
    ensures var q := ReadPair(r + ("?" + EncodedPair(p))); |q.key| + |q.value| > |p.key| + |p.value|
  {
    if '=' in r {
      StrayMarkInValue(r, p);
    } else {
      StrayMarkInKey(r, p);
    }
  }

  lemma StrayComponentAddsWeight(r: string, pairs: seq<Pair>)
    requires AllOfBytes(pairs) && pairs != [] && '&' !in r
    ensures Weight(ReadQuery(r + ("?" + Query(pairs)))) > Weight(pairs)
  {
    StrayComponentIsFirst(r, pairs);
    assert PairOfBytes(pairs[0]);
    StrayPairAddsWeight(r, pairs[0]);
    WeightOfQuery(r + ("?" + Query(pairs)));
    ReadPrintedQuery(pairs[1..]);
  }

  lemma {:induction false} StrayQueryAddsWeight(r: string, pairs: seq<Pair>)
    requires AllOfBytes(pairs) && pairs != []
    ensures Weight(ReadQuery(r + ("?" + Query(pairs)))) > Weight(pairs)
    decreases |r|
  {
    if '&' in r {
      CutWithin(r, "?" + Query(pairs), '&');
      AfterIsShorter(r, '&');
      WeightOfQuery(r + ("?" + Query(pairs)));
      StrayQueryAddsWeight(After(r, '&'), pairs);
    } else {
      StrayComponentAddsWeight(r, pairs);
    }
  }

  lemma MarkBreaksLinks(ctx: Context, cursorParam: string, v: string)
    requires AllOfBytes(Pairs(ctx, cursorParam, v)) && '?' in Base(ctx) && '#' !in Base(ctx)
    ensures ReadQuery(QueryOf(Url(ctx, cursorParam, v))) != Pairs(ctx, cursorParam, v)
  {
    var pairs := Pairs(ctx, cursorParam, v);
    var rest := "?" + Query(pairs);
    JoinAssociates(Base(ctx), "?", Query(pairs));
    QueryHasNo(pairs, '#');
    CutNowhere(Base(ctx) + rest, '#');
    CutWithin(Base(ctx), rest, '?');
    StrayQueryAddsWeight(After(Base(ctx), '?'), pairs);
  }

  lemma HashHidesQuery(ctx: Context, cursorParam: string, v: string)
    requires AllOfBytes(Pairs(ctx, cursorParam, v)) && '#' in Base(ctx)
    ensures QueryOf(Url(ctx, cursorParam, v)) == QueryOf(Base(ctx))
  {
    var query := Query(Pairs(ctx, cursorParam, v));
    JoinAssociates(Base(ctx), "?", query);
    CutWithin(Base(ctx), "?" + query, '#');
  }

  // The links of an endpoint read back for every cursor value exactly when its origin and path
  // hold neither `?` nor `#`.
  lemma LinksReadBackExactly(ctx: Context, cursorParam: string)
    requires AllOfBytes(Pairs(ctx, cursorParam, ""))
    ensures (forall v: string | AllOfBytes(Pairs(ctx, cursorParam, v)) ::
               ReadQuery(QueryOf(Url(ctx, cursorParam, v))) == Pairs(ctx, cursorParam, v))
       <==> '?' !in Base(ctx) && '#' !in Base(ctx)
  {
    if '#' in Base(ctx) {
      CursorIsBytes(ctx, cursorParam, "1");
      HashHidesQuery(ctx, cursorParam, "");
      HashHidesQuery(ctx, cursorParam, "1");
      assert Pairs(ctx, cursorParam, "")[|ctx.extraQuery|] != Pairs(ctx, cursorParam, "1")[|ctx.extraQuery|];
    } else if '?' in Base(ctx) {
      MarkBreaksLinks(ctx, cursorParam, "");
    } else {
      forall v: string | AllOfBytes(Pairs(ctx, cursorParam, v))
        ensures ReadQuery(QueryOf(Url(ctx, cursorParam, v))) == Pairs(ctx, cursorParam, v)
      {
        ReadPrintedLink(ctx, cursorParam, v);
      }
    }
  }

  lemma CursorIsBytes(ctx: Context, cursorParam: string, v: string)
    requires AllOfBytes(Pairs(ctx, cursorParam, "")) && IsBytes(v)
    ensures AllOfBytes(Pairs(ctx, cursorParam, v))
  {
    var pairs, n := Pairs(ctx, cursorParam, v), |ctx.extraQuery|;
    forall i | 0 <= i < |pairs|
      ensures PairOfBytes(pairs[i])
    {
      assert PairOfBytes(Pairs(ctx, cursorParam, "")[i]);
    }
  }

  // ---------- The Link header ----------

  datatype Entry = Entry(url: string, rel: string)

  function EntryText(e: Entry): string {
    "<" + e.url + ">; rel=\"" + e.rel + "\""
  }

  function HeaderText(entries: seq<Entry>): string {
    if entries == [] then ""
    else if |entries| == 1 then EntryText(entries[0])
    else EntryText(entries[0]) + ", " + HeaderText(entries[1..])
  }

  // What a header value may hold: visible ASCII and tabs.
  predicate IsHeaderValue(s: string) {
    forall i :: 0 <= i < |s| ==> ' ' <= s[i] <= '~' || s[i] == '\t'
  }

  datatype PageCursors = PageCursors(next: Option<string>, prev: Option<string>)

  predicate CursorsOfBytes(cursors: PageCursors) {
    (cursors.next.Some? ==> IsBytes(cursors.next.value)) && (cursors.prev.Some? ==> IsBytes(cursors.prev.value))
  }

  // The links of a page: `next` continues with older items, `prev` catches up on newer ones.
  function Entries(ctx: Context, cursors: PageCursors): seq<Entry>
    requires AllOfBytes(ctx.extraQuery) && CursorsOfBytes(cursors)
  {
    (if cursors.next.Some? then [Entry(Url(ctx, "max_id", cursors.next.value), "next")] else [])
    + (if cursors.prev.Some? then [Entry(Url(ctx, "min_id", cursors.prev.value), "prev")] else [])
  }

  function NextText(url: string): string {
    "<" + url + ">; rel=\"next\""
  }

  function PrevText(url: string): string {
    "<" + url + ">; rel=\"prev\""
  }

  lemma EntryTexts(url: string)
    ensures EntryText(Entry(url, "next")) == NextText(url) && EntryText(Entry(url, "prev")) == PrevText(url)
  {
  }

  // The texts of the links that are there.
  function Parts(ctx: Context, cursors: PageCursors): seq<string>
    requires AllOfBytes(ctx.extraQuery) && CursorsOfBytes(cursors)
  {
    (if cursors.next.Some? then [NextText(Url(ctx, "max_id", cursors.next.value))] else [])
    + (if cursors.prev.Some? then [PrevText(Url(ctx, "min_id", cursors.prev.value))] else [])
  }

  function Joined(parts: seq<string>): string {
    if parts == [] then "" else if |parts| == 1 then parts[0] else parts[0] + ", " + Joined(parts[1..])
  }

  lemma {:induction false} JoinedIsHeader(entries: seq<Entry>, parts: seq<string>)
    requires |entries| == |parts| && forall i :: 0 <= i < |parts| ==> parts[i] == EntryText(entries[i])
    ensures Joined(parts) == HeaderText(entries)
    decreases |parts|
  {
    if |parts| > 1 {
      JoinedIsHeader(entries[1..], parts[1..]);
    }
  }

  lemma PartsAreEntries(ctx: Context, cursors: PageCursors)
    requires AllOfBytes(ctx.extraQuery) && CursorsOfBytes(cursors)
    ensures (Parts(ctx, cursors) == [] <==> Entries(ctx, cursors) == [])
    ensures Joined(Parts(ctx, cursors)) == HeaderText(Entries(ctx, cursors))
  {
    if cursors.next.Some? {
      EntryTexts(Url(ctx, "max_id", cursors.next.value));
    }
    if cursors.prev.Some? {
      EntryTexts(Url(ctx, "min_id", cursors.prev.value));
    }
    JoinedIsHeader(Entries(ctx, cursors), Parts(ctx, cursors));
  }

  method BuildLinkHeader(ctx: Context, cursors: PageCursors) returns (header: Option<string>)
    requires AllOfBytes(ctx.extraQuery) && CursorsOfBytes(cursors)
    ensures var text := HeaderText(Entries(ctx, cursors));
            header == if Entries(ctx, cursors) != [] && IsHeaderValue(text) then Some(text) else None
  {
    var parts: seq<string> := [];
    if cursors.next.Some? {
      var url := UrlWith(ctx, "max_id", cursors.next.value);
      parts := parts + [NextText(url)];
    }
    if cursors.prev.Some? {
      var url := UrlWith(ctx, "min_id", cursors.prev.value);
      parts := parts + [PrevText(url)];
    }
    assert parts == Parts(ctx, cursors);
    PartsAreEntries(ctx, cursors);
    if parts == [] {
      return None;
    }
    var joined := Joined(parts);
    header := if IsHeaderValue(joined) then Some(joined) else None;
  }

  // How a client reads a Link header (section 3 of RFC 8288): `<url>; rel="name"` entries
  // separated by `, `.
  function ReadHeader(h: string): Option<seq<Entry>>
    decreases |h|
  {
    if h == "" || h[0] != '<' then None else
    AfterIsShorter(h[1..], '>');
    var url, rest := Before(h[1..], '>'), After(h[1..], '>');
    if !("; rel=\"" <= rest) then None else
    AfterIsShorter(rest[7..], '"');
    var rel, more := Before(rest[7..], '"'), After(rest[7..], '"');
    if more == "" then Some([Entry(url, rel)])
    else if !(", " <= more) then None
    else
      match ReadHeader(more[2..])
      case None => None
      case Some(entries) => Some([Entry(url, rel)] + entries)
  }

  predicate PlainEntry(e: Entry) {
    '>' !in e.url && '"' !in e.rel
  }

  ghost predicate AllPlain(entries: seq<Entry>) {
    forall i :: 0 <= i < |entries| ==> PlainEntry(entries[i])
  }

  lemma ReadOneEntry(e: Entry, more: string)
    requires PlainEntry(e)
    ensures var h := EntryText(e) + more;
            && h != "" && h[0] == '<' && Before(h[1..], '>') == e.url
            && After(h[1..], '>') == "; rel=\"" + (e.rel + ['"'] + more)
  {
    var h := EntryText(e) + more;
    var rest := "; rel=\"" + (e.rel + ['"'] + more);
    assert h[1..] == e.url + ['>'] + rest;
    CutAtFirst(e.url, '>', rest);
  }

  lemma ReadOneRel(e: Entry, more: string)
    requires PlainEntry(e)
    ensures var rest := "; rel=\"" + (e.rel + ['"'] + more);
            && "; rel=\"" <= rest && Before(rest[7..], '"') == e.rel && After(rest[7..], '"') == more
  {
    var rest := "; rel=\"" + (e.rel + ['"'] + more);
    assert rest[7..] == e.rel + ['"'] + more;
    CutAtFirst(e.rel, '"', more);
  }

  lemma {:induction false} ReadPrintedHeader(entries: seq<Entry>)
    requires entries != [] && AllPlain(entries)
    ensures ReadHeader(HeaderText(entries)) == Some(entries)
    decreases |entries|
  {
    var e := entries[0];
    var tail := HeaderText(entries[1..]);
    assert PlainEntry(e);
    if |entries| == 1 {
      assert HeaderText(entries) == EntryText(e) + "";
      assert entries == [e];
      ReadOneEntry(e, "");
      ReadOneRel(e, "");
    } else {
      JoinAssociates(EntryText(e), ", ", tail);
      assert ", " <= ", " + tail;
      assert entries == [e] + entries[1..];
      ReadOneEntry(e, ", " + tail);
      ReadOneRel(e, ", " + tail);
      assert (", " + tail)[2..] == tail;
      ReadPrintedHeader(entries[1..]);
    }
  }

  lemma {:induction false} BeforeHasNo(s: string, c: char)
    ensures c !in Before(s, c)
    decreases |s|
  {
    if s != "" && s[0] != c {
      BeforeHasNo(s[1..], c);
    }
  }

  ghost predicate NoMarkIn(entries: seq<Entry>) {
    forall i :: 0 <= i < |entries| ==> '>' !in entries[i].url
  }

  // Whatever is read out of a header, no URL of it holds `>`.
  lemma {:induction false} ReadUrlsHoldNoMark(h: string)
    requires ReadHeader(h).Some?
    ensures NoMarkIn(ReadHeader(h).value)
    decreases |h|
  {
    BeforeHasNo(h[1..], '>');
    AfterIsShorter(h[1..], '>');
    var rest := After(h[1..], '>');
    AfterIsShorter(rest[7..], '"');
    var more := After(rest[7..], '"');
    if more != "" {
      ReadUrlsHoldNoMark(more[2..]);
    }
  }

  // A printed header reads back as its entries exactly if no URL in it holds `>`.
  lemma HeaderReadsBackExactly(entries: seq<Entry>)
    requires entries != [] && forall i :: 0 <= i < |entries| ==> '"' !in entries[i].rel
    ensures ReadHeader(HeaderText(entries)) == Some(entries) <==> NoMarkIn(entries)
  {
    if NoMarkIn(entries) {
      assert AllPlain(entries);
      ReadPrintedHeader(entries);
    } else if ReadHeader(HeaderText(entries)).Some? {
      ReadUrlsHoldNoMark(HeaderText(entries));
    }
  }

  // The header of a page with both cursors, letter by letter.
  lemma HeaderOfBoth(ctx: Context, next: string, prev: string)
    requires AllOfBytes(ctx.extraQuery) && CursorsOfBytes(PageCursors(Some(next), Some(prev)))
    ensures AllOfBytes(Pairs(ctx, "max_id", next)) && AllOfBytes(Pairs(ctx, "min_id", prev))
    ensures HeaderText(Entries(ctx, PageCursors(Some(next), Some(prev)))) ==
            "<" + Url(ctx, "max_id", next) + ">; rel=\"next\", <" + Url(ctx, "min_id", prev) + ">; rel=\"prev\""
  {
    var a, b := Entry(Url(ctx, "max_id", next), "next"), Entry(Url(ctx, "min_id", prev), "prev");
    assert Entries(ctx, PageCursors(Some(next), Some(prev))) == [a, b];
    EntryTexts(a.url);
    EntryTexts(b.url);
    assert [a, b][1..] == [b];
    assert HeaderText([a, b]) == NextText(a.url) + ", " + PrevText(b.url);
    HeaderTextJoins(a.url, b.url);
  }

  lemma HeaderTextJoins(next: string, prev: string)
    ensures NextText(next) + ", " + PrevText(prev) ==
            "<" + next + ">; rel=\"next\", <" + prev + ">; rel=\"prev\""
  {
    assert ">; rel=\"next\", <" == ">; rel=\"next\"" + ", " + "<";
  }

  lemma UrlHoldsMark(ctx: Context, cursorParam: string, cursorValue: string)
    requires AllOfBytes(Pairs(ctx, cursorParam, cursorValue))
    ensures '>' in Url(ctx, cursorParam, cursorValue) <==> '>' in Base(ctx)
  {
    QueryHasNo(Pairs(ctx, cursorParam, cursorValue), '>');
  }

  lemma {:induction false} NoMarkJoins(a: seq<Entry>, b: seq<Entry>)
    ensures NoMarkIn(a + b) <==> NoMarkIn(a) && NoMarkIn(b)
  {
    if NoMarkIn(a + b) {
      assert forall i :: 0 <= i < |a| ==> (a + b)[i] == a[i];
      assert forall i :: 0 <= i < |b| ==> (a + b)[|a| + i] == b[i];
    }
  }

  lemma {:induction false} OneHoldsMark(ctx: Context, param: string, cursor: string, rel: string)
    requires AllOfBytes(Pairs(ctx, param, cursor))
    ensures NoMarkIn([Entry(Url(ctx, param, cursor), rel)]) <==> '>' !in Base(ctx)
  {
    UrlHoldsMark(ctx, param, cursor);
    assert [Entry(Url(ctx, param, cursor), rel)][0].url == Url(ctx, param, cursor);
  }

  lemma {:induction false} LinksHoldMark(ctx: Context, cursors: PageCursors)
    requires AllOfBytes(ctx.extraQuery) && CursorsOfBytes(cursors) && Entries(ctx, cursors) != []
    ensures NoMarkIn(Entries(ctx, cursors)) <==> '>' !in Base(ctx)
  {
    var next := if cursors.next.Some? then [Entry(Url(ctx, "max_id", cursors.next.value), "next")] else [];
    var prev := if cursors.prev.Some? then [Entry(Url(ctx, "min_id", cursors.prev.value), "prev")] else [];
    NoMarkJoins(next, prev);
    if cursors.next.Some? {
      OneHoldsMark(ctx, "max_id", cursors.next.value, "next");
    }
    if cursors.prev.Some? {
      OneHoldsMark(ctx, "min_id", cursors.prev.value, "prev");
    }
  }

  // The header of a page with links reads back as exactly these links if and only if neither origin
  // nor path holds `>`.
  lemma ReadSentHeader(ctx: Context, cursors: PageCursors)
    requires AllOfBytes(ctx.extraQuery) && CursorsOfBytes(cursors) && Entries(ctx, cursors) != []
    ensures ReadHeader(HeaderText(Entries(ctx, cursors))) == Some(Entries(ctx, cursors)) <==> '>' !in Base(ctx)
  {
    LinksHoldMark(ctx, cursors);
    HeaderReadsBackExactly(Entries(ctx, cursors));
  }

  // ---------- The links of a status list ----------

  // What `accounts/:id/statuses` preserves on its links: the limit as sent, and each filter that
  // is on.
  datatype StatusFilters = StatusFilters(pinned: bool, onlyMedia: bool, excludeReplies: bool, excludeReblogs: bool)

  const PINNED := "pinned"
  const ONLY_MEDIA := "only_media"
  const EXCLUDE_REPLIES := "exclude_replies"
  const EXCLUDE_REBLOGS := "exclude_reblogs"

  function FlagPair(name: string, on: bool): seq<Pair> {
    if on then [Pair(name, "true")] else []
  }

  function ExtraQuery(limit: Option<U32>, f: StatusFilters): seq<Pair> {
    LimitPair(limit)
    + FlagPair(PINNED, f.pinned)
    + FlagPair(ONLY_MEDIA, f.onlyMedia)
    + FlagPair(EXCLUDE_REPLIES, f.excludeReplies)
    + FlagPair(EXCLUDE_REBLOGS, f.excludeReblogs)
  }

  // All values sent for a parameter.
  function Values(pairs: seq<Pair>, key: string): seq<string> {
    if pairs == [] then [] else
    (if pairs[0].key == key then [pairs[0].value] else []) + Values(pairs[1..], key)
  }

  datatype ReadError = Repeated(key: string) | BadLimit(raw: string) | BadFlag(key: string, raw: string)

  // A parameter of the query struct: sent at most once.
  function One(pairs: seq<Pair>, key: string): Result<Option<string>, ReadError> {
    var values := Values(pairs, key);
    if |values| == 0 then Ok(None) else if |values| == 1 then Ok(Some(values[0])) else Err(Repeated(key))
  }

  function ReadLimit(raw: Option<string>): Result<Option<U32>, ReadError> {
    if raw.None? then Ok(None) else
    match Decimal.Parse(raw.value, 0xFFFF_FFFF)
    case Some(n) => Ok(Some(n))
    case None => Err(BadLimit(raw.value))
  }

  function ReadFlag(key: string, raw: Option<string>): Result<bool, ReadError> {
    if raw.None? then Ok(false)
    else if raw.value == "true" || raw.value == "1" then Ok(true)
    else if raw.value == "false" || raw.value == "0" then Ok(false)
    else Err(BadFlag(key, raw.value))
  }

  datatype StatusesRequest = StatusesRequest(page: Pagination.PageParams, filters: StatusFilters)

  // The query as the handler's struct holds it: each parameter as sent.
  datatype StatusesQuery = StatusesQuery(
    maxId: Option<string>,
    sinceId: Option<string>,
    minId: Option<string>,
    limit: Option<string>,
    pinned: Option<string>,
    onlyMedia: Option<string>,
    excludeReplies: Option<string>,
    excludeReblogs: Option<string>)

  function ReadStatusesQuery(pairs: seq<Pair>): Result<StatusesQuery, ReadError> {
    var maxId :- One(pairs, "max_id");
    var sinceId :- One(pairs, "since_id");
    var minId :- One(pairs, "min_id");
    var limit :- One(pairs, "limit");
    var pinned :- One(pairs, PINNED);
    var onlyMedia :- One(pairs, ONLY_MEDIA);
    var replies :- One(pairs, EXCLUDE_REPLIES);
    var reblogs :- One(pairs, EXCLUDE_REBLOGS);
    Ok(StatusesQuery(maxId, sinceId, minId, limit, pinned, onlyMedia, replies, reblogs))
  }

  function Interpreted(query: StatusesQuery): Result<StatusesRequest, ReadError> {
    var limit :- ReadLimit(query.limit);
    var pinned :- ReadFlag(PINNED, query.pinned);
    var onlyMedia :- ReadFlag(ONLY_MEDIA, query.onlyMedia);
    var replies :- ReadFlag(EXCLUDE_REPLIES, query.excludeReplies);
    var reblogs :- ReadFlag(EXCLUDE_REBLOGS, query.excludeReblogs);
    Ok(StatusesRequest(Pagination.PageParams(query.maxId, query.sinceId, query.minId, limit),
                       StatusFilters(pinned, onlyMedia, replies, reblogs)))
  }

  // What the handler makes of the query it receives.
  function ReadStatusesRequest(pairs: seq<Pair>): Result<StatusesRequest, ReadError> {
    var query :- ReadStatusesQuery(pairs);
    Interpreted(query)
  }

  // What is sent for a parameter: nothing, or one value.
  ghost predicate IsSent(pairs: seq<Pair>, key: string, value: Option<string>) {
    match value
    case None => forall i :: 0 <= i < |pairs| ==> pairs[i].key != key
    case Some(v) => exists i :: IsOnlyAt(pairs, key, v, i)
  }

  ghost predicate IsOnlyAt(pairs: seq<Pair>, key: string, value: string, i: nat) {
    && i < |pairs| && pairs[i] == Pair(key, value)
    && forall j :: 0 <= j < |pairs| && pairs[j].key == key ==> j == i
  }

  ghost predicate IsRepeated(pairs: seq<Pair>, key: string) {
    exists i, j :: 0 <= i < j < |pairs| && pairs[i].key == key && pairs[j].key == key
  }

  lemma {:induction false} NoValue(pairs: seq<Pair>, key: string)
    ensures Values(pairs, key) == [] ==> IsSent(pairs, key, None)
    ensures Values(pairs, key) != [] ==> exists i :: 0 <= i < |pairs| && pairs[i].key == key
    decreases |pairs|
  {
    if pairs != [] {
      var rest := pairs[1..];
      NoValue(rest, key);
      if pairs[0].key == key {
        assert Values(pairs, key)[0] == pairs[0].value;
      } else {
        assert Values(pairs, key) == Values(rest, key);
        assert forall i :: 0 < i < |pairs| ==> pairs[i] == rest[i - 1];
        if i :| 0 <= i < |rest| && rest[i].key == key {
          assert pairs[i + 1].key == key;
        }
      }
    }
  }

  lemma {:induction false} OneValue(pairs: seq<Pair>, key: string) returns (i: nat)
    requires |Values(pairs, key)| == 1
    ensures IsOnlyAt(pairs, key, Values(pairs, key)[0], i)
    decreases |pairs|
  {
    var rest := pairs[1..];
    assert forall j :: 0 < j < |pairs| ==> pairs[j] == rest[j - 1];
    if pairs[0].key == key {
      i := 0;
      NoValue(rest, key);
    } else {
      i := OneValue(rest, key);
      i := i + 1;
    }
  }

  lemma {:induction false} ManyValues(pairs: seq<Pair>, key: string)
    requires |Values(pairs, key)| > 1
    ensures IsRepeated(pairs, key)
    decreases |pairs|
  {
    var rest := pairs[1..];
    if pairs[0].key == key {
      NoValue(rest, key);
      var j :| 0 <= j < |rest| && rest[j].key == key;
      assert pairs[j + 1].key == key;
    } else {
      ManyValues(rest, key);
      var i, j :| 0 <= i < j < |rest| && rest[i].key == key && rest[j].key == key;
      assert pairs[i + 1].key == key && pairs[j + 1].key == key;
    }
  }

  lemma OneExactly(pairs: seq<Pair>, key: string)
    ensures match One(pairs, key)
            case Ok(value) => IsSent(pairs, key, value)
            case Err(e) => e == Repeated(key) && IsRepeated(pairs, key)
  {
    NoValue(pairs, key);
    if |Values(pairs, key)| == 1 {
      var i := OneValue(pairs, key);
    } else if |Values(pairs, key)| > 1 {
      ManyValues(pairs, key);
    }
  }

  // A flag that is not sent is off; `true` and `1` switch it on, `false` and `0` off.
  ghost predicate IsFlagSent(pairs: seq<Pair>, key: string, flag: bool) {
    if flag then IsSent(pairs, key, Some("true")) || IsSent(pairs, key, Some("1"))
    else IsSent(pairs, key, None) || IsSent(pairs, key, Some("false")) || IsSent(pairs, key, Some("0"))
  }

  ghost predicate IsLimitSent(pairs: seq<Pair>, limit: Option<U32>) {
    match limit
    case None => IsSent(pairs, "limit", None)
    case Some(n) => exists raw :: IsSent(pairs, "limit", Some(raw)) && Decimal.IsTextOf(raw, n)
  }

  ghost predicate IsParam(key: string) {
    || key == "max_id" || key == "since_id" || key == "min_id" || key == "limit"
    || IsFlag(key)
  }

  ghost predicate IsFlag(key: string) {
    key == "pinned" || key == "only_media" || key == "exclude_replies" || key == "exclude_reblogs"
  }

  // What is wrong with a query: a parameter is repeated, the limit is no number below 2^32, or a flag
  // is none of its four texts.
  ghost predicate IsQueryProblem(pairs: seq<Pair>, e: ReadError) {
    match e
    case Repeated(key) => IsParam(key) && IsRepeated(pairs, key)
    case BadLimit(raw) =>
      && IsSent(pairs, "limit", Some(raw))
      && forall n: nat :: n <= 0xFFFF_FFFF ==> !Decimal.IsTextOf(raw, n)
    case BadFlag(key, raw) =>
      && IsFlag(key) && IsSent(pairs, key, Some(raw))
      && raw != "true" && raw != "1" && raw != "false" && raw != "0"
  }

  lemma FlagExactly(pairs: seq<Pair>, key: string, raw: Option<string>)
    requires IsFlag(key) && IsSent(pairs, key, raw)
    ensures match ReadFlag(key, raw)
            case Ok(flag) => IsFlagSent(pairs, key, flag)
            case Err(e) => IsQueryProblem(pairs, e)
  {
  }

  lemma LimitExactly(pairs: seq<Pair>, raw: Option<string>)
    requires IsSent(pairs, "limit", raw)
    ensures match ReadLimit(raw)
            case Ok(limit) => IsLimitSent(pairs, limit)
            case Err(e) => IsQueryProblem(pairs, e)
  {
    if raw.Some? {
      match Decimal.Parse(raw.value, 0xFFFF_FFFF)
      case Some(n) => Decimal.ParseExactly(raw.value, 0xFFFF_FFFF, n);
      case None =>
        forall n: nat | n <= 0xFFFF_FFFF
          ensures !Decimal.IsTextOf(raw.value, n)
        {
          Decimal.ParseExactly(raw.value, 0xFFFF_FFFF, n);
        }
    }
  }

  // The query holds each parameter as it was sent, under its own key.
  ghost predicate IsQueryOf(pairs: seq<Pair>, q: StatusesQuery) {
    && IsSent(pairs, "max_id", q.maxId) && IsSent(pairs, "since_id", q.sinceId) && IsSent(pairs, "min_id", q.minId)
    && IsSent(pairs, "limit", q.limit)
    && IsSent(pairs, "pinned", q.pinned) && IsSent(pairs, "only_media", q.onlyMedia)
    && IsSent(pairs, "exclude_replies", q.excludeReplies) && IsSent(pairs, "exclude_reblogs", q.excludeReblogs)
  }

  lemma {:induction false} QueryExactly(pairs: seq<Pair>)
    ensures match ReadStatusesQuery(pairs)
            case Ok(q) => IsQueryOf(pairs, q)
            case Err(e) => IsQueryProblem(pairs, e)
  {
    OneExactly(pairs, "max_id");
    OneExactly(pairs, "since_id");
    OneExactly(pairs, "min_id");
    OneExactly(pairs, "limit");
    OneExactly(pairs, PINNED);
    OneExactly(pairs, ONLY_MEDIA);
    OneExactly(pairs, EXCLUDE_REPLIES);
    OneExactly(pairs, EXCLUDE_REBLOGS);
  }

  // Any query: each part of an accepted request is what its own parameter says; a query is refused for
  // something that is wrong with it.
  lemma {:induction false} RequestIsReadExactly(pairs: seq<Pair>)
    ensures match ReadStatusesRequest(pairs)
            case Ok(r) =>
              && IsSent(pairs, "max_id", r.page.maxId)
              && IsSent(pairs, "since_id", r.page.sinceId)
              && IsSent(pairs, "min_id", r.page.minId)
              && IsLimitSent(pairs, r.page.limit)
              && IsFlagSent(pairs, "pinned", r.filters.pinned)
              && IsFlagSent(pairs, "only_media", r.filters.onlyMedia)
              && IsFlagSent(pairs, "exclude_replies", r.filters.excludeReplies)
              && IsFlagSent(pairs, "exclude_reblogs", r.filters.excludeReblogs)
            case Err(e) => IsQueryProblem(pairs, e)
  {
    QueryExactly(pairs);
    if ReadStatusesQuery(pairs).Ok? {
      var q := ReadStatusesQuery(pairs).value;
      LimitExactly(pairs, q.limit);
      FlagExactly(pairs, "pinned", q.pinned);
      FlagExactly(pairs, "only_media", q.onlyMedia);
      FlagExactly(pairs, "exclude_replies", q.excludeReplies);
      FlagExactly(pairs, "exclude_reblogs", q.excludeReblogs);
    }
  }

  lemma {:induction false} QueryHoldsMaxId(pairs: seq<Pair>)
    requires ReadStatusesQuery(pairs).Ok?
    ensures One(pairs, "max_id") == Ok(ReadStatusesQuery(pairs).value.maxId)
  {
  }

  lemma InterpretedKeepsMaxId(query: StatusesQuery)
    requires Interpreted(query).Ok?
    ensures Interpreted(query).value.page.maxId == query.maxId
  {
  }

  lemma {:induction false} ReadMaxId(pairs: seq<Pair>, request: StatusesRequest)
    requires ReadStatusesRequest(pairs) == Ok(request)
    ensures One(pairs, "max_id") == Ok(request.page.maxId)
  {
    QueryHoldsMaxId(pairs);
    InterpretedKeepsMaxId(ReadStatusesQuery(pairs).value);
  }

  lemma {:induction false} ValuesJoin(a: seq<Pair>, b: seq<Pair>, key: string)
    ensures Values(a + b, key) == Values(a, key) + Values(b, key)
    decreases |a|
  {
    if a == [] {
      assert a + b == b;
    } else {
      assert (a + b)[1..] == a[1..] + b;
      ValuesJoin(a[1..], b, key);
    }
  }

  function FlagValues(key: string, name: string, on: bool): seq<string> {
    if key == name && on then ["true"] else []
  }

  lemma FlagPairValues(key: string, name: string, on: bool)
    ensures Values(FlagPair(name, on), key) == FlagValues(key, name, on)
  {
    if on {
      assert FlagPair(name, on)[1..] == [];
    }
  }

  function LimitPair(limit: Option<U32>): seq<Pair> {
    if limit.Some? then [Pair("limit", Decimal.Print(limit.value))] else []
  }

  function LimitValues(key: string, limit: Option<U32>): seq<string> {
    if key == "limit" && limit.Some? then [Decimal.Print(limit.value)] else []
  }

  lemma LimitPairValues(key: string, limit: Option<U32>)
    ensures Values(LimitPair(limit), key) == LimitValues(key, limit)
  {
    if limit.Some? {
      assert LimitPair(limit)[1..] == [];
    }
  }

  lemma FlagJoins(before: seq<Pair>, key: string, name: string, on: bool)
    ensures Values(before + FlagPair(name, on), key) == Values(before, key) + FlagValues(key, name, on)
  {
    ValuesJoin(before, FlagPair(name, on), key);
    FlagPairValues(key, name, on);
  }

  function ExtraValues(key: string, limit: Option<U32>, f: StatusFilters): seq<string> {
    LimitValues(key, limit)
    + FlagValues(key, PINNED, f.pinned)
    + FlagValues(key, ONLY_MEDIA, f.onlyMedia)
    + FlagValues(key, EXCLUDE_REPLIES, f.excludeReplies)
    + FlagValues(key, EXCLUDE_REBLOGS, f.excludeReblogs)
  }

  lemma ValuesOfExtra(limit: Option<U32>, f: StatusFilters, key: string)
    ensures Values(ExtraQuery(limit, f), key) == ExtraValues(key, limit, f)
  {
    var s0 := LimitPair(limit);
    LimitPairValues(key, limit);
    FlagJoins(s0, key, PINNED, f.pinned);
    var s1 := s0 + FlagPair(PINNED, f.pinned);
    FlagJoins(s1, key, ONLY_MEDIA, f.onlyMedia);
    var s2 := s1 + FlagPair(ONLY_MEDIA, f.onlyMedia);
    FlagJoins(s2, key, EXCLUDE_REPLIES, f.excludeReplies);
    var s3 := s2 + FlagPair(EXCLUDE_REPLIES, f.excludeReplies);
    FlagJoins(s3, key, EXCLUDE_REBLOGS, f.excludeReblogs);
  }

  // The values of one parameter on a printed link.
  lemma ValuesOnLink(limit: Option<U32>, f: StatusFilters, param: string, cursor: string, key: string)
    ensures Values(ExtraQuery(limit, f) + [Pair(param, cursor)], key) ==
            ExtraValues(key, limit, f) + if key == param then [cursor] else []
  {
    var last := [Pair(param, cursor)];
    ValuesJoin(ExtraQuery(limit, f), last, key);
    ValuesOfExtra(limit, f, key);
    assert last[1..] == [];
  }

  lemma CursorsOnLink(limit: Option<U32>, f: StatusFilters, param: string, cursor: string)
    requires param == "max_id" || param == "min_id"
    ensures var pairs := ExtraQuery(limit, f) + [Pair(param, cursor)];
            && One(pairs, "max_id") == Ok(if param == "max_id" then Some(cursor) else None)
            && One(pairs, "since_id") == Ok(None)
            && One(pairs, "min_id") == Ok(if param == "min_id" then Some(cursor) else None)
            && One(pairs, "limit") == Ok(if limit.Some? then Some(Decimal.Print(limit.value)) else None)
  {
    ValuesOnLink(limit, f, param, cursor, "max_id");
    ValuesOnLink(limit, f, param, cursor, "since_id");
    ValuesOnLink(limit, f, param, cursor, "min_id");
    ValuesOnLink(limit, f, param, cursor, "limit");
  }

  lemma FiltersOnLink(limit: Option<U32>, f: StatusFilters, param: string, cursor: string)
    requires param == "max_id" || param == "min_id"
    ensures var pairs := ExtraQuery(limit, f) + [Pair(param, cursor)];
            && One(pairs, PINNED) == Ok(if f.pinned then Some("true") else None)
            && One(pairs, ONLY_MEDIA) == Ok(if f.onlyMedia then Some("true") else None)
            && One(pairs, EXCLUDE_REPLIES) == Ok(if f.excludeReplies then Some("true") else None)
            && One(pairs, EXCLUDE_REBLOGS) == Ok(if f.excludeReblogs then Some("true") else None)
  {
    ValuesOnLink(limit, f, param, cursor, PINNED);
    ValuesOnLink(limit, f, param, cursor, ONLY_MEDIA);
    ValuesOnLink(limit, f, param, cursor, EXCLUDE_REPLIES);
    ValuesOnLink(limit, f, param, cursor, EXCLUDE_REBLOGS);
  }

  // Reading the parameters of a printed `max_id` or `min_id` link gives the same limit and
  // filters, the cursor, and no other bound.
  lemma ReadLinkParameters(limit: Option<U32>, f: StatusFilters, param: string, cursor: string)
    requires param == "max_id" || param == "min_id"
    ensures ReadStatusesRequest(ExtraQuery(limit, f) + [Pair(param, cursor)]) ==
            var maxId := if param == "max_id" then Some(cursor) else None;
            var minId := if param == "min_id" then Some(cursor) else None;
            Ok(StatusesRequest(Pagination.PageParams(maxId, None, minId, limit), f))
  {
    var pairs := ExtraQuery(limit, f) + [Pair(param, cursor)];
    CursorsOnLink(limit, f, param, cursor);
    FiltersOnLink(limit, f, param, cursor);
    if limit.Some? {
      Decimal.ParseOfPrint(limit.value, 0xFFFF_FFFF);
    }
  }

  // ---------- Links behind a stray `?` ----------

  // The pairs of all components but the last, and the last component.
  function Settled(r: string): seq<Pair>
    decreases |r|
  {
    if '&' !in r then [] else
    AfterIsShorter(r, '&');
    (if Before(r, '&') == "" then [] else [ReadPair(Before(r, '&'))]) + Settled(After(r, '&'))
  }

  function LastComponent(r: string): string
    decreases |r|
  {
    if '&' !in r then r else
    AfterIsShorter(r, '&');
    LastComponent(After(r, '&'))
  }

  lemma {:induction false} StrayQuerySplits(r: string, p: Pair)
    requires PairOfBytes(p)
    ensures ReadQuery(r + ("?" + EncodedPair(p))) == Settled(r) + [ReadPair(LastComponent(r) + ("?" + EncodedPair(p)))]
    decreases |r|
  {
    var rest := "?" + EncodedPair(p);
    EncodedPairHasNo(p, '&');
    if '&' in r {
      CutWithin(r, rest, '&');
      AfterIsShorter(r, '&');
      StrayQuerySplits(After(r, '&'), p);
      var first := if Before(r, '&') == "" then [] else [ReadPair(Before(r, '&'))];
      JoinAssociates(first, Settled(After(r, '&')), [ReadPair(LastComponent(r) + rest)]);
    } else {
      CutNowhere(r + rest, '&');
    }
  }

  // The last component is not read as the pair that was printed.
  lemma StrayPairIsAnother(r: string, p: Pair)
    requires PairOfBytes(p)
    ensures var q := ReadPair(r + ("?" + EncodedPair(p))); q.key == p.key ==> q.value != p.value
  {
    if '=' in r {
      StrayMarkInValue(r, p);
    } else {
      StrayMarkInKey(r, p);
    }
  }

  ghost predicate ReadsBack(r: string, p: Pair)
    requires PairOfBytes(p)
  {
    One(ReadQuery(r + ("?" + EncodedPair(p))), p.key) == Ok(Some(p.value))
  }

  // So a value that is read back was there before.
  lemma StrayValueIsSettled(r: string, p: Pair)
    requires PairOfBytes(p) && ReadsBack(r, p)
    ensures Values(Settled(r), p.key) == [p.value]
  {
    var last := ReadPair(LastComponent(r) + ("?" + EncodedPair(p)));
    StrayQuerySplits(r, p);
    StrayPairIsAnother(LastComponent(r), p);
    ValuesJoin(Settled(r), [last], p.key);
    assert [last][1..] == [];
    SingleIsOneOfTwo(Values(Settled(r), p.key), Values([last], p.key), p.value);
  }

  // Of two values of one parameter, one at least does not read back behind a stray `?`.
  lemma StrayMarkFailsOnce(r: string, p: Pair, q: Pair)
    requires PairOfBytes(p) && PairOfBytes(q) && p.key == q.key && p.value != q.value
    ensures !ReadsBack(r, p) || !ReadsBack(r, q)
  {
    if ReadsBack(r, p) && ReadsBack(r, q) {
      StrayValueIsSettled(r, p);
      StrayValueIsSettled(r, q);
      assert false;
    }
  }

  ghost predicate LinkReadsBack(ctx: Context, p: Pair)
    requires AllOfBytes(Pairs(ctx, p.key, p.value))
  {
    One(ReadQuery(QueryOf(Url(ctx, p.key, p.value))), p.key) == Ok(Some(p.value))
  }

  // If two links without further parameters read back, neither origin nor path holds `?` or `#`.
  lemma TwoLinksReadBack(ctx: Context, p: Pair, q: Pair)
    requires ctx.extraQuery == [] && PairOfBytes(p) && PairOfBytes(q) && p.key == q.key && p.value != q.value
    requires AllOfBytes(Pairs(ctx, p.key, p.value)) && AllOfBytes(Pairs(ctx, q.key, q.value))
    requires LinkReadsBack(ctx, p) && LinkReadsBack(ctx, q)
    ensures '?' !in Base(ctx) && '#' !in Base(ctx)
  {
    if '#' in Base(ctx) {
      HashHidesQuery(ctx, p.key, p.value);
      HashHidesQuery(ctx, q.key, q.value);
    } else if '?' in Base(ctx) {
      OnePairBehindMark(ctx, p);
      OnePairBehindMark(ctx, q);
      StrayMarkFailsOnce(After(Base(ctx), '?'), p, q);
    }
  }

  lemma OnePairBehindMark(ctx: Context, p: Pair)
    requires ctx.extraQuery == [] && PairOfBytes(p) && AllOfBytes(Pairs(ctx, p.key, p.value))
    requires '?' in Base(ctx) && '#' !in Base(ctx)
    ensures LinkReadsBack(ctx, p) <==> ReadsBack(After(Base(ctx), '?'), p)
  {
    var pairs := Pairs(ctx, p.key, p.value);
    assert pairs == [p] && Query(pairs) == EncodedPair(p);
    var rest := "?" + EncodedPair(p);
    JoinAssociates(Base(ctx), "?", EncodedPair(p));
    QueryHasNo(pairs, '#');
    CutNowhere(Base(ctx) + rest, '#');
    CutWithin(Base(ctx), rest, '?');
  }
}
