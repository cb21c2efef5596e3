/**
  Rendering of a non-negative integer in radix 36, as Number.prototype.toString(36)
  produces it for the millisecond clock (section 21.1.3.6 of ECMA-262): lower-case
  digits 0-9 then a-z, most significant digit first, no leading zeros, "0" for zero.
  FromBase36 reads such a rendering back; the two are inverse on canonical digit strings.
 */
module Base36 {

  const Radix: nat := 36

  predicate IsDigit(c: char) {
    ('0' <= c <= '9') || ('a' <= c <= 'z')
  }

  predicate AllDigits(s: string) {
    forall i :: 0 <= i < |s| ==> IsDigit(s[i])
  }

  /** A string that ToBase36 can produce: non-empty, digits only, no leading zero. */
  predicate Canonical(s: string) {
    |s| >= 1 && AllDigits(s) && (|s| > 1 ==> s[0] != '0')
  }

  function DigitValue(c: char): (v: nat)
    requires IsDigit(c)
    ensures v < Radix
    ensures v == 0 <==> c == '0'
  {
    if c <= '9' then c as int - '0' as int else c as int - 'a' as int + 10
  }

  /** The character for one radix-36 digit; DigitValue reads it back. */
  function Digit(d: nat): (c: char)
    requires d < Radix
    ensures IsDigit(c) && DigitValue(c) == d
  {
    if d < 10 then ('0' as int + d) as char else ('a' as int + d - 10) as char
  }

  lemma DigitOfValue(c: char)
    requires IsDigit(c)
    ensures Digit(DigitValue(c)) == c
  {
  }

  /** Number.prototype.toString(36) restricted to non-negative integers. */
  function ToBase36(n: nat): (s: string)
    ensures Canonical(s)
    ensures n > 0 ==> s[0] != '0'
    decreases n
  {
    if n < Radix then [Digit(n)] else ToBase36(n / Radix) + [Digit(n % Radix)]
  }

  /** The value of a string of radix-36 digits, most significant first. */
  function FromBase36(s: string): nat
    requires AllDigits(s)
  {
    if s == [] then 0 else Radix * FromBase36(s[..|s| - 1]) + DigitValue(s[|s| - 1])
  }

  lemma {:induction false} FromToBase36(n: nat)
    ensures FromBase36(ToBase36(n)) == n
    decreases n
  {
    var s := ToBase36(n);
    if n < Radix {
      assert s[..|s| - 1] == [];
    } else {
      assert s[..|s| - 1] == ToBase36(n / Radix);
      FromToBase36(n / Radix);
    }
  }

  /** Distinct clock values render to distinct strings. */
  lemma ToBase36Injective(m: nat, n: nat)
    ensures ToBase36(m) == ToBase36(n) ==> m == n
  {
    FromToBase36(m);
    FromToBase36(n);
  }

  lemma {:induction false} LeadingNonZeroPositive(s: string)
    requires Canonical(s) && s[0] != '0'
    ensures FromBase36(s) >= 1
    decreases |s|
  {
    if |s| > 1 {
      var p := s[..|s| - 1];
      LeadingNonZeroPositive(p);
    }
  }

  lemma {:induction false} ToFromBase36(s: string)
    requires Canonical(s)
    ensures ToBase36(FromBase36(s)) == s
    decreases |s|
  {
    var v := FromBase36(s);
    var d := DigitValue(s[|s| - 1]);
    DigitOfValue(s[|s| - 1]);
    if |s| == 1 {
      assert s[..|s| - 1] == [];
      assert FromBase36([]) == 0;
      assert v == d;
    } else {
      var p := s[..|s| - 1];
      var w := FromBase36(p);
      LeadingNonZeroPositive(p);
      assert v == Radix * w + d;
      assert v / Radix == w && v % Radix == d;
      ToFromBase36(p);
      assert s == p + [s[|s| - 1]];
    }
  }
}
