/**
 The string primitives of the Go library that cell names rest on: strconv.Itoa, strconv.Atoi,
 strings.ToUpper on ASCII, strings.Split at ':' and the letter tests of lib.go.
 */
module Text {
  import opened Wrappers

  predicate IsUpper(c: char) { 'A' <= c <= 'Z' }

  predicate IsLower(c: char) { 'a' <= c <= 'z' }

  predicate IsAlpha(c: char) { IsUpper(c) || IsLower(c) }

  predicate IsDigit(c: char) { '0' <= c <= '9' }

  predicate AllUpper(s: string) { forall i :: 0 <= i < |s| ==> IsUpper(s[i]) }

  predicate AllAlpha(s: string) { forall i :: 0 <= i < |s| ==> IsAlpha(s[i]) }

  predicate AllDigits(s: string) { forall i :: 0 <= i < |s| ==> IsDigit(s[i]) }

  predicate NoAlpha(s: string) { forall i :: 0 <= i < |s| ==> !IsAlpha(s[i]) }

  function UpperChar(c: char): (u: char) {
    if IsLower(c) then (c as int - 32) as char else c
  }

  /** strings.ToUpper, for the ASCII letters. */
  function ToUpper(s: string): (u: string)
    ensures |u| == |s| && forall i :: 0 <= i < |s| ==> u[i] == UpperChar(s[i])
  {
    seq(|s|, i requires 0 <= i < |s| => UpperChar(s[i]))
  }

  function DigitChar(d: int): (c: char)
    requires 0 <= d < 10
  {
    ('0' as int + d) as char
  }

  /** strconv.Itoa of a non-negative number. */
  function Itoa(n: nat): (s: string)
    ensures s != [] && AllDigits(s)
  {
    if n < 10 then [DigitChar(n)] else Itoa(n / 10) + [DigitChar(n % 10)]
  }

  /** strconv.Itoa of any number. */
  function ItoaInt(n: int): (s: string) {
    if n < 0 then "-" + Itoa(-n) else Itoa(n)
  }

  function DigitsValue(s: string): (n: nat)
    requires AllDigits(s)
  {
    if s == [] then 0
    else DigitsValue(s[..|s| - 1]) * 10 + (s[|s| - 1] as int - '0' as int)
  }

  /** strconv.Atoi: an optional sign, then one or more digits. */
  function Atoi(s: string): (n: Option<int>) {
    var signed: bool := s != [] && (s[0] == '+' || s[0] == '-');
    var digits := if signed then s[1..] else s;
    if digits == [] || !AllDigits(digits) then None
    else if signed && s[0] == '-' then Some(0 - DigitsValue(digits))
    else Some(DigitsValue(digits))
  }

  lemma {:induction false} DigitsValueItoa(n: nat)
    ensures DigitsValue(Itoa(n)) == n
  {
    if n < 10 {
      assert Itoa(n)[..0] == [];
    } else {
      DigitsValueItoa(n / 10);
      assert Itoa(n)[..|Itoa(n)| - 1] == Itoa(n / 10);
    }
  }

  /** Atoi undoes Itoa. */
  lemma AtoiItoa(n: nat)
    ensures Atoi(Itoa(n)) == Some(n)
  {
    DigitsValueItoa(n);
    assert IsDigit(Itoa(n)[0]);
  }

  predicate Plain(s: string) {
    s != [] && AllDigits(s) && (s[0] == '0' ==> |s| == 1)
  }

  lemma {:induction false} ItoaPlain(n: nat)
    ensures Plain(Itoa(n)) && (n > 0 ==> Itoa(n)[0] != '0')
  {
    if n >= 10 { ItoaPlain(n / 10); }
  }

  lemma LastDecimal(high: nat, c: char)
    requires high >= 1 && IsDigit(c)
    ensures Itoa(high * 10 + (c as int - '0' as int)) == Itoa(high) + [c]
  {
    var d := c as int - '0' as int;
    var n := high * 10 + d;
    assert n >= 10 && n / 10 == high && n % 10 == d;
  }

  lemma OneDigit(c: char)
    requires IsDigit(c)
    ensures DigitsValue([c]) == c as int - '0' as int && Itoa(c as int - '0' as int) == [c]
  {
    assert [c][..0] == [];
  }

  lemma DigitsStep(front: string, c: char)
    requires AllDigits(front) && IsDigit(c)
    ensures AllDigits(front + [c]) && DigitsValue(front + [c]) == DigitsValue(front) * 10 + (c as int - '0' as int)
  {
    assert (front + [c])[..|front|] == front;
  }

  /** Itoa undoes the digit reader on numerals without a leading zero. */
  lemma {:induction false} ItoaDigitsValue(s: string)
    requires Plain(s)
    ensures Itoa(DigitsValue(s)) == s
    ensures s[0] != '0' ==> DigitsValue(s) > 0
  {
    hide Itoa, DigitsValue;
    var front, c := s[..|s| - 1], s[|s| - 1];
    assert s == front + [c];
    if |s| == 1 {
      assert s == [c];
      OneDigit(c);
    } else {
      assert front[0] == s[0];
      ItoaDigitsValue(front);
      DigitsStep(front, c);
      LastDecimal(DigitsValue(front), c);
    }
  }

  /** strings.Split(s, ":"): the pieces between the colons, in order. */
  function SplitColon(s: string): (parts: seq<string>)
    ensures |parts| >= 1
  {
    if s == [] then [[]]
    else
      var rest := SplitColon(s[1..]);
      if s[0] == ':' then [[]] + rest else [[s[0]] + rest[0]] + rest[1..]
  }

  predicate NoColon(s: string) { ':' !in s }

  lemma {:induction false} SplitNoColon(s: string)
    requires NoColon(s)
    ensures SplitColon(s) == [s]
  {
    if s != [] {
      SplitNoColon(s[1..]);
      assert s == [s[0]] + s[1..];
    }
  }

  /** Two colon-free names joined by a colon split back into the two. */
  lemma {:induction false} SplitPair(a: string, b: string)
    requires NoColon(a) && NoColon(b)
    ensures SplitColon(a + ":" + b) == [a, b]
  {
    var s := a + ":" + b;
    if a == [] {
      assert s[1..] == b;
      SplitNoColon(b);
    } else {
      assert s[1..] == a[1..] + ":" + b;
      SplitPair(a[1..], b);
      assert s[0] == a[0] && a == [a[0]] + a[1..];
    }
  }
}
