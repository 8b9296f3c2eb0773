/** The integer printer and parser: digits are written backwards into a buffer that is then
    reversed in place, and read back by the usual accumulating loop. Signed overflow, which
    C++ leaves undefined, is an explicit None. */
module Numerals {
  import opened Seqs

  const INT_MIN: int := -0x8000_0000
  const INT_MAX: int := 0x7FFF_FFFF
  const NUL: char := '\0'

  // ------------------------------------------------------------------ digits

  /** ntoa: decimal digits, then capital letters. */
  function Ntoa(d: nat): (c: char)
    requires d < 36
    ensures c != NUL && c != ' ' && c != '\t' && c != '-'
    ensures IsDigit(c) <==> d < 10
    ensures c == "0123456789ABCDEFGHIJKLMNOPQRSTUVWXYZ"[d]
  {
    if d < 10 then '0' + d as char else 'A' + (d - 10) as char
  }

  predicate IsDigit(c: char): (r: bool)
    ensures r <==> 48 <= c as int <= 57
  {
    '0' <= c <= '9'
  }

  predicate IsBlank(c: char): (r: bool)
    ensures r <==> c as int == 32 || c as int == 9
  {
    c == ' ' || c == '\t'
  }

  function DigitValue(c: char): (d: nat)
    ensures IsDigit(c) ==> c as int == '0' as int + d == 48 + d
  {
    if IsDigit(c) then c as nat - '0' as nat
    else if 'A' <= c <= 'Z' then c as nat - 'A' as nat + 10
    else 0
  }

  lemma DivFacts(v: nat, b: nat)
    requires b >= 2
    ensures b * (v / b) + v % b == v && v % b < b
    ensures v >= b ==> 1 <= v / b < v
    ensures v < b ==> v / b == 0 && v % b == v
  {
    var q := v / b;
    assert v == b * q + v % b;
    if q == 0 {
      assert b * q == 0;
    } else {
      Multiples(q, 1, b);
      Multiples(b, 0, q);
    }
  }

  lemma Multiples(c: nat, a: nat, b: nat)
    requires a < b
    ensures c * a + c <= c * b
  {
    assert c * (b - a - 1) >= 0;
  }

  /** The canonical numeral of v: most significant digit first, no leading zero but in "0". */
  function Digits(v: nat, b: nat): (s: string)
    requires 2 <= b <= 36
    ensures |s| > 0
    ensures forall i :: 0 <= i < |s| ==> s[i] != NUL && s[i] != ' ' && s[i] != '\t' && s[i] != '-'
  {
    DivFacts(v, b);
    if v < b then [Ntoa(v)] else Digits(v / b, b) + [Ntoa(v % b)]
  }

  function ValueOf(s: string, b: nat): nat {
    if s == "" then 0 else b * ValueOf(s[..|s| - 1], b) + DigitValue(s[|s| - 1])
  }

  lemma ValueAppend(s: string, d: nat, b: nat)
    requires d < b <= 36
    ensures ValueOf(s + [Ntoa(d)], b) == b * ValueOf(s, b) + d
  {
    var t := s + [Ntoa(d)];
    assert t[..|t| - 1] == s;
    assert DigitValue(Ntoa(d)) == d;
  }

  /** Reading the numeral gives the number back, so different numbers print differently. */
  lemma {:induction false} DigitsDenote(v: nat, b: nat)
    requires 2 <= b <= 36
    ensures ValueOf(Digits(v, b), b) == v
  {
    if v < b {
      assert Digits(v, b)[..0] == "";
    } else {
      DivFacts(v, b);
      var q, r := v / b, v % b;
      DigitsDenote(q, b);
      assert Digits(v, b) == Digits(q, b) + [Ntoa(r)];
      ValueAppend(Digits(q, b), r, b);
    }
  }

  lemma {:induction false} DigitsAreCanonical(v: nat, b: nat)
    requires 2 <= b <= 36
    ensures Digits(v, b)[0] == '0' <==> v == 0
    ensures b <= 10 ==> forall i :: 0 <= i < |Digits(v, b)| ==> IsDigit(Digits(v, b)[i])
  {
    DivFacts(v, b);
    if v >= b {
      var q, r := v / b, v % b;
      DigitsAreCanonical(q, b);
      assert Digits(v, b) == Digits(q, b) + [Ntoa(r)];
    }
  }

  function Power(b: nat, n: nat): (p: nat)
    requires b > 0
    ensures p > 0
  {
    if n == 0 then 1 else b * Power(b, n - 1)
  }

  lemma Quotient(v: nat, c: nat, q: nat, r: nat)
    requires v == c * q + r && r < c
    ensures v / c == q
  {
    var p := v / c;
    assert v == c * p + v % c;
    if p < q { Multiples(c, p, q); } else if q < p { Multiples(c, q, p); }
  }

  /** Dividing twice is dividing by the product. */
  lemma DivideTwice(v: nat, b: nat, c: nat)
    requires b > 0 && c > 0
    ensures v / (b * c) == v / b / c
  {
    var q, p := v / b, v / b / c;
    var s := q % c;
    assert v == b * q + v % b && q == c * p + s;
    assert b * q == b * c * p + b * s;
    Multiples(b, s, c);
    Quotient(v, b * c, p, b * s + v % b);
  }

  /** Digit i of v, from the right. */
  function DigitNo(v: nat, b: nat, i: nat): (d: nat)
    requires 2 <= b
    ensures d < b
  {
    v / Power(b, i) % b
  }

  lemma DigitNoStep(v: nat, b: nat, i: nat)
    requires 2 <= b
    ensures DigitNo(v, b, 0) == v % b
    ensures i > 0 ==> DigitNo(v, b, i) == DigitNo(v / b, b, i - 1)
  {
    if i > 0 { DivideTwice(v, b, Power(b, i - 1)); }
  }

  lemma DigitsStep(v: nat, b: nat)
    requires 2 <= b <= 36
    ensures v < b ==> Digits(v, b) == [Ntoa(v % b)]
    ensures v >= b ==> Digits(v, b) == Digits(v / b, b) + [Ntoa(v % b)] && v / b > 0
  {
    DivFacts(v, b);
  }

  lemma {:induction false} DigitAt(v: nat, b: nat, i: nat)
    requires 2 <= b <= 36 && i < |Digits(v, b)|
    ensures Digits(v, b)[|Digits(v, b)| - 1 - i] == Ntoa(DigitNo(v, b, i))
    decreases i
  {
    hide Digits, DigitNo, Ntoa;
    DigitsStep(v, b);
    DigitNoStep(v, b, i);
    if i > 0 { DigitAt(v / b, b, i - 1); }
  }

  lemma PowerStep(b: nat, n: nat)
    requires b > 0
    ensures Power(b, 0) == 1
    ensures n > 0 ==> Power(b, n) == b * Power(b, n - 1)
  {}

  /** A quotient below w, or at least w, before the last digit is put back. */
  lemma Scaled(v: nat, b: nat, w: nat)
    requires b >= 2
    ensures v / b < w ==> v < b * w
    ensures w <= v / b ==> b * w <= v
  {
    var q := v / b;
    assert v == b * q + v % b;
    if q < w { Multiples(b, q, w); } else if w < q { Multiples(b, w, q); }
  }

  lemma {:induction false} DigitsFit(v: nat, b: nat)
    requires 2 <= b <= 36
    ensures var n := |Digits(v, b)|; v < Power(b, n) && (v > 0 ==> Power(b, n - 1) <= v)
  {
    hide Digits, Power, Ntoa;
    var n := |Digits(v, b)|;
    DigitsStep(v, b);
    DivFacts(v, b);
    PowerStep(b, n);
    PowerStep(b, n - 1);
    if v >= b {
      DigitsFit(v / b, b);
      Scaled(v, b, Power(b, n - 1));
      Scaled(v, b, Power(b, n - 2));
    }
  }

  lemma ZeroDigits(b: nat)
    requires 2 <= b <= 36
    ensures Digits(0, b) == "0"
  {
    assert 0 % b == 0;
  }

  /** The character i places from the right stands for the digit of v / b^i, and there are as many
      as v needs. */
  lemma DigitsArePositional(v: nat, b: nat)
    requires 2 <= b <= 36
    ensures var s := Digits(v, b);
      && (forall i :: 0 <= i < |s| ==>
            s[|s| - 1 - i] == "0123456789ABCDEFGHIJKLMNOPQRSTUVWXYZ"[DigitNo(v, b, i)])
      && v < Power(b, |s|) && (v > 0 ==> Power(b, |s| - 1) <= v) && (v == 0 ==> s == "0")
  {
    hide Digits, Power, DigitNo, Ntoa;
    DigitsFit(v, b);
    ZeroDigits(b);
    var s := Digits(v, b);
    forall i | 0 <= i < |s|
      ensures s[|s| - 1 - i] == Ntoa(DigitNo(v, b, i))
    {
      DigitAt(v, b, i);
    }
  }

  // ------------------------------------------------------------------ reversal

  function Reversed(s: string): (r: string)
    ensures |r| == |s|
    ensures forall i :: 0 <= i < |s| ==> r[i] == s[|s| - 1 - i]
  {
    seq(|s|, i requires 0 <= i < |s| => s[|s| - 1 - i])
  }

  /** The digits in the order the loop of utoa produces them. */
  function Backwards(v: nat, b: nat): string
    requires 2 <= b <= 36
  {
    DivFacts(v, b);
    if v == 0 then "" else [Ntoa(v % b)] + Backwards(v / b, b)
  }

  lemma {:induction false} BackwardsReversed(v: nat, b: nat)
    requires 2 <= b <= 36 && v > 0
    ensures Reversed(Backwards(v, b)) == Digits(v, b)
  {
    DivFacts(v, b);
    var q, r := v / b, v % b;
    var t := Backwards(q, b);
    if v >= b {
      BackwardsReversed(q, b);
      assert Reversed([Ntoa(r)] + t) == Reversed(t) + [Ntoa(r)];
    }
  }

  /** strlen of the string that starts at the given place of a buffer. */
  method StrLen(str: array<char>, at: nat) returns (len: nat)
    requires at <= str.Length && exists j :: at <= j < str.Length && str[j] == NUL
    ensures at + len < str.Length && str[at + len] == NUL
    ensures forall j :: at <= j < at + len ==> str[j] != NUL
  {
    len := 0;
    ghost var end :| at <= end < str.Length && str[end] == NUL;
    while str[at + len] != NUL
      invariant at + len <= end
      invariant forall j :: at <= j < at + len ==> str[j] != NUL
      decreases end - (at + len)
    {
      len := len + 1;
    }
  }

  /** strnrev: swap from both ends inwards. */
  method StrNRev(str: array<char>, at: nat, len: nat)
    requires at + len <= str.Length
    modifies str
    ensures str[at..at + len] == Reversed(old(str[at..at + len]))
    ensures str[..at] == old(str[..at]) && str[at + len..] == old(str[at + len..])
  {
    var i := 0;
    while i < len / 2
      invariant 0 <= i <= len / 2
      invariant forall k :: 0 <= k < str.Length ==>
        str[k] == if at <= k < at + i || at + len - i <= k < at + len
                  then old(str[2 * at + len - 1 - k]) else old(str[k])
    {
      var tmp := str[at + i];
      str[at + i] := str[at + len - 1 - i];
      str[at + len - 1 - i] := tmp;
      i := i + 1;
    }
  }

  // ------------------------------------------------------------------ printing

  /** Where a text without NULs ends is where the first NUL is. */
  lemma FirstNul(s: string, text: string, len: nat)
    requires |text| < |s| && s[..|text|] == text && s[|text|] == NUL
    requires forall i :: 0 <= i < |text| ==> text[i] != NUL
    requires len < |s| && s[len] == NUL && forall i :: 0 <= i < len ==> s[i] != NUL
    ensures len == |text|
  {
    assert forall i :: 0 <= i < |text| ==> s[i] == text[i];
  }

  /** The loop of utoa: the digits as they come, then the end of the string. */
  method WriteBackwards(value: nat, str: array<char>, at: nat, base: nat) returns (i: nat)
    requires 2 <= base <= 36 && at + |Backwards(value, base)| < str.Length
    modifies str
    ensures i == |Backwards(value, base)|
    ensures str[at..at + i] == Backwards(value, base) && str[at + i] == NUL
    ensures str[..at] == old(str[..at])
  {
    hide Backwards;
    ghost var all := Backwards(value, base);
    var v: nat := value;
    i := 0;
    while v != 0
      invariant i <= |all| && Backwards(v, base) == all[i..]
      invariant str[at..at + i] == all[..i]
      invariant str[..at] == old(str[..at])
      decreases v
    {
      BackwardsStep(v, base);
      var d, q := v % base, v / base;
      str[at + i] := Ntoa(d);
      assert str[at..at + i + 1] == all[..i] + [all[i]];
      i := i + 1;
      v := q;
    }
    BackwardsEnd(base);
    str[at + i] := NUL;
  }

  /** utoa into the buffer from the given place on; returns the length. The character i places from
      the right is that of the i-th digit of the value. */
  method Utoa(value: nat, str: array<char>, at: nat, base: nat) returns (len: nat)
    requires 2 <= base <= 36 && at + |Digits(value, base)| < str.Length
    modifies str
    ensures len == |Digits(value, base)|
    ensures str[at..at + len] == Digits(value, base) && str[at + len] == '\0'
    ensures var s := str[at..at + len];
      forall i :: 0 <= i < len ==> s[len - 1 - i] == "0123456789ABCDEFGHIJKLMNOPQRSTUVWXYZ"[DigitNo(value, base, i)]
    ensures str[..at] == old(str[..at])
  {
    hide DigitNo;
    DigitsArePositional(value, base);
    if value == 0 {
      str[at] := '0';
      str[at + 1] := NUL;
      return 1;
    }
    BackwardsReversed(value, base);
    NoNul(value, base);
    hide Digits, Backwards;
    var i := WriteBackwards(value, str, at, base);
    ghost var all := Backwards(value, base);
    len := StrLen(str, at);
    FirstNul(str[at..], all, len);
    assert str[at..at + len] == all;
    StrNRev(str, at, len);
  }

  lemma BackwardsStep(v: nat, b: nat)
    requires 2 <= b <= 36 && v > 0
    ensures var s := Backwards(v, b); s != "" && s[0] == Ntoa(v % b) && s[1..] == Backwards(v / b, b) && v / b < v
  {
    DivFacts(v, b);
  }

  lemma BackwardsEnd(b: nat)
    requires 2 <= b <= 36
    ensures Backwards(0, b) == ""
  {}

  lemma {:induction false} NoNul(v: nat, b: nat)
    requires 2 <= b <= 36
    ensures forall i :: 0 <= i < |Backwards(v, b)| ==> Backwards(v, b)[i] != NUL
  {
    if v > 0 { NoNul(v / b, b); }
  }

  /** The text of an int; None for the one int whose negation overflows. */
  function TextOf(value: int, base: nat): Option<string>
    requires 2 <= base <= 36
  {
    if value >= 0 then Some(Digits(value, base))
    else if value == INT_MIN then None
    else Some("-" + Digits(-value, base))
  }

  /** A minus sign in front of a negative value, and then the digits of its magnitude; every value
      but the smallest int has a text. */
  lemma TextInCharacters(value: int, base: nat)
    requires 2 <= base <= 36
    ensures TextOf(value, base).None? <==> value == -2147483648
    ensures TextOf(value, base).Some? ==>
      var t, m: nat := TextOf(value, base).value, if value < 0 then -value else value;
      var n := if value < 0 then |t| - 1 else |t|;
      && n > 0 && (value < 0 ==> t[0] == '-') && m < Power(base, n) && (m > 0 ==> Power(base, n - 1) <= m)
      && forall i :: 0 <= i < n ==> t[|t| - 1 - i] == "0123456789ABCDEFGHIJKLMNOPQRSTUVWXYZ"[DigitNo(m, base, i)]
  {
    hide Digits, DigitNo, Power;
    DigitsArePositional(if value < 0 then -value else value, base);
  }

  /** itoa; None when negating the value overflows. */
  method Itoa(value: int, str: array<char>, base: nat) returns (len: Option<nat>)
    requires INT_MIN <= value <= INT_MAX && 2 <= base <= 36
    requires TextOf(value, base).Some? ==> |TextOf(value, base).value| < str.Length
    requires value < 0 ==> str.Length > 0
    modifies str
    ensures TextOf(value, base).None? ==> len.None?
    ensures TextOf(value, base).Some? ==>
      var text := TextOf(value, base).value;
      len == Some(|text|) && str[..|text|] == text && str[|text|] == '\0'
  {
    if value == 0 {
      str[0] := '0';
      str[1] := NUL;
      return Some(1);
    }
    var i, magnitude := 0, value;
    if value < 0 {
      str[0] := '-';
      i := 1;
      if -value > INT_MAX { return None; }
      magnitude := -value;
    }
    var n := Utoa(magnitude, str, i, base);
    assert str[..i + n] == str[..i] + str[i..i + n];
    return Some(i + n);
  }

  // ------------------------------------------------------------------ parsing

  function SkipBlanks(s: string): string {
    if s != "" && IsBlank(s[0]) then SkipBlanks(s[1..]) else s
  }

  /** The number of digits a string starts with. */
  function DigitRun(s: string): (n: nat)
    ensures n <= |s|
    ensures forall i :: 0 <= i < n ==> IsDigit(s[i]) && 48 <= s[i] as int <= 57
    ensures n < |s| ==> !IsDigit(s[n]) && !(48 <= s[n] as int <= 57)
  {
    if s != "" && IsDigit(s[0]) then 1 + DigitRun(s[1..]) else 0
  }

  /** The number that decimal digits in ASCII stand for. */
  function AsciiValue(s: string): int {
    if s == "" then 0 else 10 * AsciiValue(s[..|s| - 1]) + (s[|s| - 1] as int - 48)
  }

  lemma {:induction false} ValueIsAscii(s: string)
    requires forall i :: 0 <= i < |s| ==> 48 <= s[i] as int <= 57
    ensures ValueOf(s, 10) == AsciiValue(s)
  {
    if s != "" { ValueIsAscii(s[..|s| - 1]); }
  }

  /** What a decimal numeral after blanks and a sign means; None when it does not fit an int. */
  function Parse(s: string): Option<int> {
    var t := SkipBlanks(s);
    var negative := t != "" && t[0] == '-';
    var u := if negative then t[1..] else t;
    var v: int := ValueOf(u[..DigitRun(u)], 10);
    if v > INT_MAX then None else Some(if negative then -v else v)
  }

  lemma {:induction false} BlanksAreSkipped(blanks: string, s: string)
    requires forall i :: 0 <= i < |blanks| ==> blanks[i] == ' ' || blanks[i] == '\t'
    requires s != "" ==> s[0] != ' ' && s[0] != '\t'
    ensures SkipBlanks(blanks + s) == s
  {
    if blanks == "" {
      assert blanks + s == s;
    } else {
      assert (blanks + s)[1..] == blanks[1..] + s;
      BlanksAreSkipped(blanks[1..], s);
    }
  }

  lemma {:induction false} RunOf(digits: string, rest: string)
    requires forall i :: 0 <= i < |digits| ==> '0' <= digits[i] <= '9'
    requires rest != "" ==> !('0' <= rest[0] <= '9')
    ensures DigitRun(digits + rest) == |digits|
  {
    if digits == "" {
      assert digits + rest == rest;
    } else {
      assert (digits + rest)[1..] == digits[1..] + rest;
      RunOf(digits[1..], rest);
    }
  }

  lemma RunValue(digits: string, rest: string)
    requires digits != "" && forall i :: 0 <= i < |digits| ==> '0' <= digits[i] <= '9'
    requires rest != "" ==> !('0' <= rest[0] <= '9')
    ensures var u := digits + rest;
      u != "" && '0' <= u[0] <= '9' && ValueOf(u[..DigitRun(u)], 10) == AsciiValue(digits)
  {
    RunOf(digits, rest);
    ValueIsAscii(digits);
    assert (digits + rest)[..|digits|] == digits;
    assert (digits + rest)[0] == digits[0];
    hide DigitRun, ValueOf, AsciiValue;
  }

  lemma AfterBlanks(s: string, u: string)
    requires u != "" && '0' <= u[0] <= '9'
    ensures var v: int := ValueOf(u[..DigitRun(u)], 10);
      && (SkipBlanks(s) == u ==> Parse(s) == if v > 2147483647 then None else Some(v))
      && (SkipBlanks(s) == ['-'] + u ==> Parse(s) == if v > 2147483647 then None else Some(-v))
  {
    hide SkipBlanks, DigitRun, ValueOf;
    assert (['-'] + u)[1..] == u;
  }

  lemma ParseSigned(blanks: string, u: string)
    requires forall i :: 0 <= i < |blanks| ==> blanks[i] == ' ' || blanks[i] == '\t'
    requires u != "" && '0' <= u[0] <= '9'
    ensures var v: int := ValueOf(u[..DigitRun(u)], 10);
      && Parse(blanks + u) == (if v > 2147483647 then None else Some(v))
      && Parse(blanks + (['-'] + u)) == (if v > 2147483647 then None else Some(-v))
  {
    hide SkipBlanks, Parse;
    BlanksAreSkipped(blanks, u);
    BlanksAreSkipped(blanks, ['-'] + u);
    AfterBlanks(blanks + u, u);
    AfterBlanks(blanks + (['-'] + u), u);
  }

  /** Blanks, a sign if there is one, digits, and anything that does not start with a digit: the
      number that the digits stand for, with its sign. */
  lemma ParseReads(blanks: string, digits: string, rest: string)
    requires forall i :: 0 <= i < |blanks| ==> blanks[i] == ' ' || blanks[i] == '\t'
    requires digits != "" && forall i :: 0 <= i < |digits| ==> '0' <= digits[i] <= '9'
    requires rest != "" ==> !('0' <= rest[0] <= '9')
    ensures var v := AsciiValue(digits);
      && Parse(blanks + (digits + rest)) == (if v > 2147483647 then None else Some(v))
      && Parse(blanks + (['-'] + (digits + rest))) == (if v > 2147483647 then None else Some(-v))
  {
    hide Parse, DigitRun, ValueOf, AsciiValue;
    RunValue(digits, rest);
    ParseSigned(blanks, digits + rest);
  }

  lemma {:induction false} ValueGrows(s: string, i: nat)
    requires i <= |s|
    ensures ValueOf(s[..i], 10) <= ValueOf(s, 10)
    decreases |s|
  {
    if i < |s| {
      var r := s[..|s| - 1];
      ValueGrows(r, i);
      assert r[..i] == s[..i];
    } else {
      assert s[..i] == s;
    }
  }

  /** atoi of the string str; None as soon as the accumulator overflows. */
  method Atoi(str: string) returns (r: Option<int>)
    ensures r == Parse(str)
  {
    hide DigitRun, ValueOf;
    var i := 0;
    while i < |str| && IsBlank(str[i])
      invariant 0 <= i <= |str| && SkipBlanks(str[i..]) == SkipBlanks(str)
    {
      assert str[i..][1..] == str[i + 1..];
      i := i + 1;
    }
    assert SkipBlanks(str) == str[i..];
    var negative := false;
    if i < |str| && str[i] == '-' {
      negative := true;
      i := i + 1;
    }
    r := AtoiDigits(str[i..]);
    if negative && r.Some? { r := Some(-r.value); }
  }

  /** The accumulating loop of atoi. */
  method AtoiDigits(u: string) returns (r: Option<int>)
    ensures var v: int := ValueOf(u[..DigitRun(u)], 10); r == if v > INT_MAX then None else Some(v)
    ensures var v := AsciiValue(u[..DigitRun(u)]); r == if v > 2147483647 then None else Some(v)
  {
    ValueIsAscii(u[..DigitRun(u)]);
    hide DigitRun, ValueOf;
    var i, converted := 0, 0;
    RunStart(u);
    while i < |u| && IsDigit(u[i])
      invariant 0 <= i <= DigitRun(u) && converted == ValueOf(u[..i], 10) <= INT_MAX
    {
      RunStep(u, i);
      if converted * 10 > INT_MAX { return None; }
      converted := converted * 10;
      if converted + DigitValue(u[i]) > INT_MAX { return None; }
      converted := converted + DigitValue(u[i]);
      i := i + 1;
    }
    r := Some(converted);
  }

  lemma RunStart(u: string)
    ensures ValueOf(u[..0], 10) == 0
  {}

  lemma ValueStep(u: string, i: nat)
    requires i < |u|
    ensures ValueOf(u[..i + 1], 10) == 10 * ValueOf(u[..i], 10) + DigitValue(u[i])
  {
    var x := u[..i + 1];
    assert x[..i] == u[..i] && x[|x| - 1] == u[i];
  }

  lemma RunStep(u: string, i: nat)
    requires i <= DigitRun(u) && i < |u| && IsDigit(u[i])
    ensures i < DigitRun(u)
    ensures ValueOf(u[..i + 1], 10) == 10 * ValueOf(u[..i], 10) + DigitValue(u[i]) <= ValueOf(u[..DigitRun(u)], 10)
  {
    hide DigitRun, ValueOf, DigitValue;
    var y := u[..DigitRun(u)];
    assert y[..i + 1] == u[..i + 1];
    ValueStep(u, i);
    ValueGrows(y, i + 1);
  }

  // ------------------------------------------------------------------ round trip

  /** Printing an int in decimal and parsing the text gives the int back, for every int but
      the smallest, which cannot be printed without overflow. */
  lemma PrintParse(value: int)
    requires -2147483648 <= value <= 2147483647
    ensures (TextOf(value, 10).Some? && Parse(TextOf(value, 10).value) == Some(value)) <==> value != -2147483648
  {
    if value != -2147483648 {
      var m := if value < 0 then -value else value;
      var d := Digits(m, 10);
      DigitsAreCanonical(m, 10);
      DigitsDenote(m, 10);
      ParseOfDigits(d);
      hide Digits, Parse, ValueOf, AsciiValue;
    }
  }

  lemma ParseOfDigits(d: string)
    requires d != "" && forall i :: 0 <= i < |d| ==> '0' <= d[i] <= '9'
    ensures var v: int := ValueOf(d, 10);
      && Parse(d) == (if v > 2147483647 then None else Some(v))
      && Parse("-" + d) == (if v > 2147483647 then None else Some(-v))
  {
    hide Parse, ValueOf, AsciiValue;
    ValueIsAscii(d);
    ParseReads("", d, "");
    assert d + "" == d && "" + d == d && "" + (['-'] + d) == "-" + d;
  }
}
