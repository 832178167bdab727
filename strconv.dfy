/** strconv.Atoi as the settings page uses it: a request's `groupID` query
    parameter is a group ID only when Atoi accepts it. */
module Strconv {
  import opened Wrappers

  /** The range of Go's `int` on a 64-bit platform. */
  const MinInt: int := -0x8000_0000_0000_0000
  const MaxInt: int := 0x7FFF_FFFF_FFFF_FFFF

  predicate IsDigit(c: char) { '0' <= c <= '9' }

  predicate AllDigits(s: string) { forall i :: 0 <= i < |s| ==> IsDigit(s[i]) }

  predicate HasSign(s: string) { s != [] && (s[0] == '+' || s[0] == '-') }

  /** The digits after an optional leading sign. */
  function Unsigned(s: string): string
  {
    if HasSign(s) then s[1..] else s
  }

  /** The value of a string of decimal digits. */
  function DigitsValue(s: string): nat
    requires AllDigits(s)
  {
    if s == [] then 0 else 10 * DigitsValue(s[..|s| - 1]) + (s[|s| - 1] as int - '0' as int)
  }

  /** The decimal digits of a natural number, without leading zeros ("0" for zero). */
  function Digits(n: nat): (s: string)
    ensures s != [] && AllDigits(s)
  {
    if n < 10 then [('0' as int + n) as char] else Digits(n / 10) + [('0' as int + n % 10) as char]
  }

  /** strconv.Itoa. */
  function Itoa(n: int): string
  {
    if n < 0 then "-" + Digits(-n) else Digits(n)
  }

  /** strconv.Atoi: an optional '+' or '-', then at least one decimal digit,
      and a value that fits in a 64-bit int; anything else is an error. */
  function Atoi(s: string): (r: Option<int>)
    ensures r.Some? ==> MinInt <= r.value <= MaxInt
    ensures r.Some? ==> Unsigned(s) != [] && AllDigits(Unsigned(s))
  {
    var u := Unsigned(s);
    if u == [] || !AllDigits(u) then None
    else
      var v: int := DigitsValue(u);
      var n := if HasSign(s) && s[0] == '-' then -v else v;
      if MinInt <= n <= MaxInt then Some(n) else None
  }

  /** Reading back the digits of a number gives the number. */
  lemma {:induction false} DigitsValueOfDigits(n: nat)
    ensures DigitsValue(Digits(n)) == n
  {
    if n >= 10 {
      DigitsValueOfDigits(n / 10);
      var s := Digits(n);
      assert s[..|s| - 1] == Digits(n / 10);
    }
  }

  /** Atoi accepts exactly what Itoa writes for every 64-bit value. */
  lemma AtoiItoa(n: int)
    requires MinInt <= n <= MaxInt
    ensures Atoi(Itoa(n)) == Some(n)
  {
    var d := Digits(if n < 0 then -n else n);
    DigitsValueOfDigits(if n < 0 then -n else n);
    if n < 0 {
      assert Itoa(n) == "-" + d;
      assert HasSign(Itoa(n)) && Itoa(n)[0] == '-';
      assert Unsigned(Itoa(n)) == d;
    } else {
      assert Itoa(n) == d && IsDigit(d[0]);
      assert Unsigned(Itoa(n)) == d;
    }
  }

  /** A groupID that holds a character other than a digit, past an optional
      leading sign, is never a group ID. */
  lemma AtoiRejectsNonDigit(s: string, i: nat)
    requires i < |s| && !IsDigit(s[i])
    requires i > 0 || (s[0] != '+' && s[0] != '-')
    ensures Atoi(s) == None
  {
    if HasSign(s) {
      assert Unsigned(s)[i - 1] == s[i];
    }
  }
}
