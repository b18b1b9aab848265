/** 256-bit keys written as 64 hexadecimal digits (`validate_hex_256_bits` of src/config.rs). */
module HexKey {
  import opened Wrappers

  type Byte = x: int | 0 <= x < 256

  datatype HexError = WrongLength(count: nat) | NotHexadecimal

  // The White_Space property of Unicode, which `trim` removes at both ends.
  predicate IsWhitespace(c: char) {
    var u := c as int;
    || 0x9 <= u <= 0xD || u == 0x20 || u == 0x85 || u == 0xA0 || u == 0x1680 || 0x2000 <= u <= 0x200A
    || u == 0x2028 || u == 0x2029 || u == 0x202F || u == 0x205F || u == 0x3000
  }

  function TrimStart(s: string): string {
    if s != "" && IsWhitespace(s[0]) then TrimStart(s[1..]) else s
  }

  function TrimEnd(s: string): string {
    if s != "" && IsWhitespace(s[|s| - 1]) then TrimEnd(s[..|s| - 1]) else s
  }

  function Trim(s: string): string {
    TrimEnd(TrimStart(s))
  }

  predicate AllWhitespace(s: string) {
    forall i :: 0 <= i < |s| ==> IsWhitespace(s[i])
  }

  lemma {:induction false} TrimStartExactly(s: string)
    ensures var t := TrimStart(s);
            && |t| <= |s| && s[|s| - |t|..] == t && AllWhitespace(s[..|s| - |t|])
            && (t != "" ==> !IsWhitespace(t[0]))
    decreases |s|
  {
    if s != "" && IsWhitespace(s[0]) {
      TrimStartExactly(s[1..]);
      var n := |s| - |TrimStart(s)|;
      assert s[n..] == s[1..][n - 1..];
      assert s[..n] == [s[0]] + s[1..][..n - 1];
    }
  }

  lemma {:induction false} TrimEndExactly(s: string)
    ensures var t := TrimEnd(s);
            && |t| <= |s| && s[..|t|] == t && AllWhitespace(s[|t|..])
            && (t != "" ==> !IsWhitespace(t[|t| - 1]))
    decreases |s|
  {
    if s != "" && IsWhitespace(s[|s| - 1]) {
      var rest, n := s[..|s| - 1], |TrimEnd(s)|;
      TrimEndExactly(rest);
      assert s[..n] == rest[..n];
      assert s[n..] == rest[n..] + [s[|s| - 1]];
    }
  }

  // Trimming takes whitespace away at both ends, all of it and nothing else.
  lemma TrimExactly(s: string) returns (front: string, back: string)
    ensures s == front + (Trim(s) + back) && AllWhitespace(front) && AllWhitespace(back)
    ensures Trim(s) != "" ==> !IsWhitespace(Trim(s)[0]) && !IsWhitespace(Trim(s)[|Trim(s)| - 1])
  {
    var t, u := TrimStart(s), Trim(s);
    TrimStartExactly(s);
    TrimEndExactly(t);
    front, back := s[..|s| - |t|], t[|u|..];
    assert t == u + back;
    assert u != "" ==> u[0] == t[0];
  }

  // The code points with that property.
  const WHITESPACE: set<int> := {
    0x9, 0xA, 0xB, 0xC, 0xD, 0x20, 0x85, 0xA0, 0x1680,
    0x2000, 0x2001, 0x2002, 0x2003, 0x2004, 0x2005, 0x2006, 0x2007, 0x2008, 0x2009, 0x200A,
    0x2028, 0x2029, 0x202F, 0x205F, 0x3000}

  lemma WhitespaceExactly(c: char)
    ensures IsWhitespace(c) <==> c as int in WHITESPACE
  {
  }

  function HexDigit(c: char): Option<nat> {
    if '0' <= c <= '9' then Some(c as int - '0' as int)
    else if 'a' <= c <= 'f' then Some(c as int - 'a' as int + 10)
    else if 'A' <= c <= 'F' then Some(c as int - 'A' as int + 10)
    else None
  }

  const DIGITS := "0123456789abcdef"
  const UPPER_DIGITS := "0123456789ABCDEF"

  // The digits of both cases have their place as value, and nothing else is a digit.
  lemma HexDigitExactly(c: char, d: nat)
    ensures HexDigit(c) == Some(d) <==> d < 16 && (c == DIGITS[d] || c == UPPER_DIGITS[d])
  {
  }

  // `u8::from_str_radix(_, 16)` on two characters: a leading `+` is a sign.
  function PairValue(first: char, second: char): Option<Byte> {
    match HexDigit(second)
    case None => None
    case Some(low) =>
      if first == '+' then Some(low) else
      match HexDigit(first)
      case None => None
      case Some(high) => Some(16 * high + low)
  }

  // Two digits are sixteen times the first and the second; a `+` and a digit are that digit.
  lemma PairExactly(first: char, second: char, b: Byte)
    ensures PairValue(first, second) == Some(b) <==>
            || (first == '+' && HexDigit(second) == Some(b))
            || (exists high: nat, low: nat ::
                  HexDigit(first) == Some(high) && HexDigit(second) == Some(low) && b == 16 * high + low)
  {
  }

  // The byte the i-th pair stands for.
  function ByteAt(s: string, i: nat): Option<Byte>
    requires 2 * i + 1 < |s|
  {
    PairValue(s[2 * i], s[2 * i + 1])
  }

  predicate AllPairs(s: string)
    requires |s| == 64
  {
    forall i :: 0 <= i < 32 ==> ByteAt(s, i).Some?
  }

  // The key that a text stands for, or why it stands for none.
  function KeyOf(raw: string): Result<seq<Byte>, HexError> {
    var s := Trim(raw);
    if |s| != 64 then Err(WrongLength(|s|))
    else if AllPairs(s) then Ok(seq(32, i requires 0 <= i < 32 => ByteAt(s, i).value))
    else Err(NotHexadecimal)
  }

  // Accepted is exactly a text of 64 characters, once trimmed, whose pairs all have a value; the
  // key holds these values in order.
  method ValidateHex256Bits(raw: string) returns (r: Result<seq<Byte>, HexError>)
    ensures var s := Trim(raw);
            if |s| != 64 then r == Err(WrongLength(|s|))
            else if AllPairs(s) then
              r.Ok? && |r.value| == 32 && forall i :: 0 <= i < 32 ==> Some(r.value[i]) == ByteAt(s, i)
            else r == Err(NotHexadecimal)
    ensures r == KeyOf(raw)
  {
    var chars := Trim(raw);
    if |chars| != 64 {
      return Err(WrongLength(|chars|));
    }
    var bytes := new Byte[32](_ => 0);
    for i := 0 to 32
      invariant forall j :: 0 <= j < i ==> Some(bytes[j]) == ByteAt(chars, j)
    {
      var value := ByteAt(chars, i);
      if value.None? {
        return Err(NotHexadecimal);
      }
      bytes[i] := value.value;
    }
    r := Ok(bytes[..]);
    assert bytes[..] == KeyOf(raw).value;
  }

  // ---------- Writing a key ----------

  function DigitChar(d: nat): (c: char)
    requires d < 16
    ensures HexDigit(c) == Some(d) && c != '+' && !IsWhitespace(c)
  {
    if d < 10 then ('0' as int + d) as char else ('a' as int + d - 10) as char
  }

  function Encoded(bytes: seq<Byte>): (s: string)
    ensures |s| == 2 * |bytes|
  {
    if bytes == [] then "" else [DigitChar(bytes[0] / 16), DigitChar(bytes[0] % 16)] + Encoded(bytes[1..])
  }

  lemma {:induction false} EncodedPairs(bytes: seq<Byte>, i: nat)
    requires i < |bytes|
    ensures Encoded(bytes)[2 * i] == DigitChar(bytes[i] / 16) && Encoded(bytes)[2 * i + 1] == DigitChar(bytes[i] % 16)
    decreases |bytes|
  {
    if i > 0 {
      EncodedPairs(bytes[1..], i - 1);
    }
  }

  // Every key reads back from its text.
  lemma DecodedOfEncoded(bytes: seq<Byte>)
    requires |bytes| == 32
    ensures Trim(Encoded(bytes)) == Encoded(bytes)
    ensures forall i :: 0 <= i < 32 ==> ByteAt(Encoded(bytes), i) == Some(bytes[i])
  {
    EncodedPairs(bytes, 0);
    EncodedPairs(bytes, 31);
    forall i | 0 <= i < 32
      ensures ByteAt(Encoded(bytes), i) == Some(bytes[i])
    {
      EncodedPairs(bytes, i);
    }
  }

  // The digit in lower case; anything else as it is.
  function Lower(c: char): char {
    if 'A' <= c <= 'F' then (c as int - 'A' as int + 'a' as int) as char else c
  }

  ghost predicate ReadsBackAs(s: string, text: string) {
    |s| == |text| && forall i :: 0 <= i < |s| ==> text[i] == Lower(s[i])
  }

  lemma DigitReprints(c: char)
    requires HexDigit(c).Some?
    ensures HexDigit(c).value < 16 && DigitChar(HexDigit(c).value) == Lower(c)
  {
  }

  lemma Nibbles(high: nat, low: nat)
    requires high < 16 && low < 16
    ensures (16 * high + low) / 16 == high && (16 * high + low) % 16 == low
  {
  }

  lemma PairReencodes(first: char, second: char)
    requires PairValue(first, second).Some?
    ensures var b := PairValue(first, second).value;
            DigitChar(b % 16) == Lower(second) && (DigitChar(b / 16) == Lower(first) <==> first != '+')
  {
    var low := HexDigit(second).value;
    DigitReprints(second);
    if first == '+' {
      Nibbles(0, low);
    } else {
      DigitReprints(first);
      Nibbles(HexDigit(first).value, low);
    }
  }

  // The key writes back to the text it was read from, in lower case, exactly when the text has no `+`.
  lemma EncodedOfDecoded(s: string, bytes: seq<Byte>)
    requires |s| == 64 && |bytes| == 32 && forall i :: 0 <= i < 32 ==> ByteAt(s, i) == Some(bytes[i])
    ensures ReadsBackAs(s, Encoded(bytes)) <==> '+' !in s
  {
    var text := Encoded(bytes);
    forall i | 0 <= i < 32
      ensures text[2 * i + 1] == Lower(s[2 * i + 1]) && s[2 * i + 1] != '+'
      ensures text[2 * i] == Lower(s[2 * i]) <==> s[2 * i] != '+'
    {
      assert ByteAt(s, i) == Some(bytes[i]);
      EncodedPairs(bytes, i);
      PairReencodes(s[2 * i], s[2 * i + 1]);
    }
    forall k | 0 <= k < 64
      ensures text[k] == Lower(s[k]) <==> s[k] != '+'
    {
      assert k == 2 * (k / 2) || k == 2 * (k / 2) + 1;
    }
  }
}
