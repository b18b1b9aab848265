/** Unsigned decimal text, as cursors, limits and form indices print and parse it.

  Parsing follows Rust's unsigned `str::parse`: an optional leading `+`, at least one digit, only
  digits, and no value above the type's maximum.
 */
module Decimal {
  import Arithmetic
  import opened Wrappers

  predicate IsDigit(c: char) {
    '0' <= c <= '9'
  }

  predicate AllDigits(s: string) {
    forall i :: 0 <= i < |s| ==> IsDigit(s[i])
  }

  function DigitChar(d: nat): (c: char)
    requires d < 10
    ensures IsDigit(c) && c as int - '0' as int == d
  {
    ('0' as int + d) as char
  }

  function Print(n: nat): (s: string)
    ensures s != "" && AllDigits(s)
  {
    if n < 10 then [DigitChar(n)] else Print(n / 10) + [DigitChar(n % 10)]
  }

  // A whole number of either sign.
  function PrintInt(n: int): string {
    if n < 0 then "-" + Print(-n) else Print(n)
  }

  function Value(s: string): nat
    requires AllDigits(s)
  {
    if s == "" then 0 else 10 * Value(s[..|s| - 1]) + (s[|s| - 1] as int - '0' as int)
  }

  function Parse(s: string, max: nat): Option<nat> {
    var body := if s != "" && s[0] == '+' then s[1..] else s;
    if body == "" || !AllDigits(body) || Value(body) > max then None else Some(Value(body))
  }

  lemma {:induction false} ValueOfPrint(n: nat)
    ensures Value(Print(n)) == n
  {
    if n >= 10 {
      ValueOfPrint(n / 10);
      assert Print(n)[..|Print(n)| - 1] == Print(n / 10);
    }
  }

  // Printing then parsing gives the number back, up to the maximum and not above it.
  lemma ParseOfPrint(n: nat, max: nat)
    ensures Parse(Print(n), max) == if n <= max then Some(n) else None
  {
    ValueOfPrint(n);
  }

  // ---------- Which texts are numbers ----------

  predicate AllZeros(s: string) {
    forall i :: 0 <= i < |s| ==> s[i] == '0'
  }

  // The text is the number as it is printed, with any zeros in front, and a `+` or nothing before them.
  ghost predicate IsTextOf(s: string, n: nat) {
    exists sign, zeros :: s == sign + (zeros + Print(n)) && (sign == "" || sign == "+") && AllZeros(zeros)
  }

  lemma {:induction false} ZerosDoNotCount(zeros: string, s: string)
    requires AllZeros(zeros) && AllDigits(s)
    ensures AllDigits(zeros + s) && Value(zeros + s) == Value(s)
    decreases |s|, |zeros|
  {
    var t := zeros + s;
    if s != "" {
      assert t[..|t| - 1] == zeros + s[..|s| - 1];
      ZerosDoNotCount(zeros, s[..|s| - 1]);
    } else if zeros != "" {
      assert t == zeros && t[..|t| - 1] == zeros[..|zeros| - 1] + "";
      ZerosDoNotCount(zeros[..|zeros| - 1], "");
    }
  }

  lemma {:induction false} DigitsArePrinted(s: string) returns (zeros: string)
    requires s != "" && AllDigits(s)
    ensures AllZeros(zeros) && s == zeros + Print(Value(s))
    decreases |s|
  {
    var rest, last := s[..|s| - 1], s[|s| - 1];
    assert s == rest + [last];
    if rest == "" {
      zeros := "";
      assert Value(rest) == 0;
    } else {
      zeros := DigitsArePrinted(rest);
      if Value(rest) == 0 {
        assert Print(0) == "0";
        zeros := rest;
      } else {
        assert Print(Value(s)) == Print(Value(rest)) + [last];
      }
    }
  }

  // A text without a sign, and one with it.
  lemma BodyIsText(s: string, body: string, sign: string)
    requires body != "" && AllDigits(body) && s == sign + body && (sign == "" || sign == "+")
    ensures IsTextOf(s, Value(body))
  {
    var zeros := DigitsArePrinted(body);
    assert s == sign + (zeros + Print(Value(body)));
  }

  lemma ParsedIsText(s: string, max: nat, n: nat)
    requires Parse(s, max) == Some(n)
    ensures n <= max && IsTextOf(s, n)
  {
    if s[0] == '+' {
      assert s == "+" + s[1..];
      BodyIsText(s, s[1..], "+");
    } else {
      assert s == "" + s;
      BodyIsText(s, s, "");
    }
  }

  lemma BodyParses(s: string, body: string, max: nat)
    requires body != "" && AllDigits(body) && Value(body) <= max && (s == body || s == "+" + body)
    ensures Parse(s, max) == Some(Value(body))
  {
    if s == body {
      assert IsDigit(s[0]);
    } else {
      assert s[1..] == body;
    }
  }

  lemma TextParses(s: string, max: nat, n: nat)
    requires n <= max && IsTextOf(s, n)
    ensures Parse(s, max) == Some(n)
  {
    var sign, zeros :| s == sign + (zeros + Print(n)) && (sign == "" || sign == "+") && AllZeros(zeros);
    var body := zeros + Print(n);
    ZerosDoNotCount(zeros, Print(n));
    ValueOfPrint(n);
    assert sign == "" ==> "" + body == body;
    BodyParses(s, body, max);
  }

  // Exactly the texts of a number that is not too large parse, each as its number.
  lemma ParseExactly(s: string, max: nat, n: nat)
    ensures Parse(s, max) == Some(n) <==> n <= max && IsTextOf(s, n)
  {
    if Parse(s, max) == Some(n) {
      ParsedIsText(s, max, n);
    }
    if n <= max && IsTextOf(s, n) {
      TextParses(s, max, n);
    }
  }

  function Pow10(k: nat): nat {
    if k == 0 then 1 else 10 * Pow10(k - 1)
  }

  // The k-th character of a printed number from the right is its digit of that weight.
  lemma {:induction false} DigitOfPrint(n: nat, k: nat)
    requires k < |Print(n)|
    ensures Pow10(k) > 0 && Print(n)[|Print(n)| - 1 - k] == DigitChar(n / Pow10(k) % 10)
  {
    if k > 0 {
      DigitOfPrint(n / 10, k - 1);
      DivTwice(n, Pow10(k - 1));
      assert Print(n)[|Print(n)| - 1 - k] == Print(n / 10)[|Print(n / 10)| - 1 - (k - 1)];
    }
  }

  lemma DivTwice(n: nat, w: nat)
    requires w > 0
    ensures n / 10 / w == n / (10 * w)
  {
    var q, r := n / 10 / w, n / 10 % w;
    assert n / 10 == w * q + r;
    assert n == 10 * (w * q + r) + n % 10;
    assert 10 * (w * q) == (10 * w) * q;
    Arithmetic.DivUnique(n, 10 * w, q, 10 * r + n % 10);
  }

  // It starts with a zero only if it is 0.
  lemma {:induction false} PrintStarts(n: nat)
    ensures n > 0 ==> Print(n)[0] != '0'
    ensures n == 0 ==> Print(n) == "0"
  {
    if n >= 10 {
      PrintStarts(n / 10);
    }
  }
}
