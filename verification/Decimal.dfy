/** Decimal numbers as the C library prints and reads them. */
module Decimal {
  import opened Common
  import Digits

  predicate IsSpace(c: char) {
    c == ' ' || '\t' <= c <= '\r'
  }

  /** A number as %d prints it. */
  function Print(n: nat): (s: string)
    ensures s != "" && IsDigit(s[|s| - 1])
  {
    if n < 10 then [n as char + '0'] else Print(n / 10) + [(n % 10) as char + '0']
  }

  function Digit(c: char): nat
    requires IsDigit(c)
  {
    (c - '0') as nat
  }

  /** The number of digits a text starts with. */
  function DigitRun(s: string): (n: nat)
    ensures n <= |s|
    ensures n < |s| ==> !IsDigit(s[n])
  {
    if s == "" || !IsDigit(s[0]) then 0 else 1 + DigitRun(s[1..])
  }

  /** The value of a string of digits. */
  function ValueOf(s: string): nat
    requires forall i :: 0 <= i < |s| ==> IsDigit(s[i])
  {
    if s == "" then 0 else ValueOf(s[..|s| - 1]) * 10 + Digit(s[|s| - 1])
  }

  /** The digits a text starts with. */
  function Leading(s: string): (d: string)
    ensures forall i :: 0 <= i < |d| ==> IsDigit(d[i])
    decreases |s|
  {
    if s == "" || !IsDigit(s[0]) then "" else [s[0]] + Leading(s[1..])
  }

  function SkipSpaces(s: string): string
    decreases |s|
  {
    if s != "" && IsSpace(s[0]) then SkipSpaces(s[1..]) else s
  }

  /** What atoi reads, on numbers of any size. */
  function Atoi(s: string): int {
    var t := SkipSpaces(s);
    if t != "" && t[0] == '-' then -(ValueOf(Leading(t[1..])) as int)
    else if t != "" && t[0] == '+' then ValueOf(Leading(t[1..]))
    else ValueOf(Leading(t))
  }

  lemma {:induction false} LeadingOfDigits(s: string, more: string)
    requires forall i :: 0 <= i < |s| ==> IsDigit(s[i])
    requires more == "" || !IsDigit(more[0])
    ensures Leading(s + more) == s && DigitRun(s + more) == |s|
    decreases |s|
  {
    if s == "" {
      assert s + more == more;
    } else {
      assert (s + more)[1..] == s[1..] + more;
      LeadingOfDigits(s[1..], more);
    }
  }

  lemma {:induction false} PrintIsDigits(n: nat)
    ensures forall i :: 0 <= i < |Print(n)| ==> IsDigit(Print(n)[i])
    ensures ValueOf(Print(n)) == n
  {
    if n < 10 {
      var s := Print(n);
      assert s[..|s| - 1] == "";
    } else {
      PrintIsDigits(n / 10);
      var s := Print(n);
      assert s[..|s| - 1] == Print(n / 10);
    }
  }

  /** Reading back a printed number. */
  lemma AtoiPrint(n: nat)
    ensures Atoi(Print(n)) == n
  {
    PrintIsDigits(n);
    LeadingOfDigits(Print(n), "");
    assert Print(n) + "" == Print(n);
    assert IsDigit(Print(n)[0]);
  }

  /** A number below 10^k has at most k digits. */
  lemma {:induction false} PrintIsShort(n: nat, k: nat)
    requires k > 0 && n < Digits.Pow(10, k)
    ensures |Print(n)| <= k
  {
    if n >= 10 {
      assert k > 1;
      PrintIsShort(n / 10, k - 1);
    }
  }

  /** The decimal digit of 10^k. */
  lemma {:induction false} PrintDigit(n: nat, k: nat)
    requires k < |Print(n)|
    ensures Print(n)[|Print(n)| - 1 - k] as int == 48 + n / Digits.Pow(10, k) % 10
    decreases k
  {
    hide Print;
    PrintStep(n);
    if n >= 10 && k > 0 {
      PrintDigit(n / 10, k - 1);
      Digits.DivDiv(n, 10, Digits.Pow(10, k - 1));
    }
  }

  lemma PrintStep(n: nat)
    ensures |Print(n)| > 0 && Print(n)[|Print(n)| - 1] as int == 48 + n % 10
    ensures n < 10 ==> |Print(n)| == 1
    ensures n >= 10 ==> Print(n)[..|Print(n)| - 1] == Print(n / 10)
  {
  }

  lemma {:induction false} SpacesSkipped(spaces: string, more: string)
    requires forall i :: 0 <= i < |spaces| ==> spaces[i] == ' ' || 9 <= spaces[i] as int <= 13
    requires more == "" || !(more[0] == ' ' || 9 <= more[0] as int <= 13)
    ensures SkipSpaces(spaces + more) == more
    decreases |spaces|
  {
    if spaces == "" {
      assert spaces + more == more;
    } else {
      assert (spaces + more)[1..] == spaces[1..] + more;
      SpacesSkipped(spaces[1..], more);
    }
  }

  /** What is read as a number: spaces, a sign or none, and then digits, up to the first
      character that is none; no digits are 0. */
  lemma AtoiForms(spaces: string, sign: string, digits: string, junk: string)
    requires forall i :: 0 <= i < |spaces| ==> spaces[i] == ' ' || 9 <= spaces[i] as int <= 13
    requires forall i :: 0 <= i < |digits| ==> '0' <= digits[i] <= '9'
    requires sign == "" || sign == "+" || sign == "-"
    requires junk == "" || !('0' <= junk[0] <= '9')
    requires sign == "" && digits == "" && junk != "" ==>
      junk[0] != '+' && junk[0] != '-' && junk[0] != ' ' && !(9 <= junk[0] as int <= 13)
    ensures Atoi(spaces + (sign + (digits + junk))) == if sign == "-" then -(ValueOf(digits) as int) else ValueOf(digits)
  {
    hide SkipSpaces, Leading, ValueOf;
    var number := digits + junk;
    var t := sign + number;
    assert sign == "" ==> t == number;
    assert sign != "" ==> t[1..] == number && t[0] == sign[0];
    assert sign == "" && t != "" ==> t[0] == if digits != "" then digits[0] else junk[0];
    SpacesSkipped(spaces, t);
    LeadingOfDigits(digits, junk);
  }
}
