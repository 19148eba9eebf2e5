/** Decimal numerals, as Rust's formatter prints unsigned integers, and reading them back. */
module Decimal {

  predicate IsDigit(c: char) { '0' <= c <= '9' }

  function DigitOf(d: nat): char
    requires d < 10
  {
    ('0' as int + d) as char
  }

  function Numeral(n: nat): (s: string)
    ensures s != [] && forall i | 0 <= i < |s| :: IsDigit(s[i])
  {
    if n < 10 then [DigitOf(n)] else Numeral(n / 10) + [DigitOf(n % 10)]
  }

  /** Zero padding on the left up to a width, as `{:0w}` does; longer numerals are kept whole. */
  function Padded(n: nat, width: nat): string {
    Zeros(width - |Numeral(n)|) + Numeral(n)
  }

  function Zeros(k: int): (s: string)
    ensures |s| == if k < 0 then 0 else k
    ensures forall i | 0 <= i < |s| :: s[i] == '0'
  {
    if k <= 0 then [] else "0" + Zeros(k - 1)
  }

  function ValueOf(s: string): nat
    requires forall i | 0 <= i < |s| :: IsDigit(s[i])
  {
    if s == [] then 0 else assert IsDigit(s[|s| - 1]); 10 * ValueOf(s[..|s| - 1]) + (s[|s| - 1] as int - '0' as int)
  }

  lemma {:induction false} NumeralValue(n: nat, width: nat)
    ensures forall i | 0 <= i < |Padded(n, width)| :: IsDigit(Padded(n, width)[i])
    ensures ValueOf(Numeral(n)) == n && ValueOf(Padded(n, width)) == n
  {
    PlainValue(n);
    ZerosAddNothing(Zeros(width - |Numeral(n)|), Numeral(n));
  }

  lemma {:induction false} PlainValue(n: nat)
    ensures ValueOf(Numeral(n)) == n
  {
    if n >= 10 {
      var s := Numeral(n);
      assert s[..|s| - 1] == Numeral(n / 10);
      PlainValue(n / 10);
    }
  }

  lemma {:induction false} ZerosAddNothing(z: string, s: string)
    requires forall i | 0 <= i < |z| :: z[i] == '0'
    requires forall i | 0 <= i < |s| :: IsDigit(s[i])
    ensures forall i | 0 <= i < |z + s| :: IsDigit((z + s)[i])
    ensures ValueOf(z + s) == ValueOf(s)
    decreases |z| + |s|
  {
    var t := z + s;
    if s != [] {
      assert t[..|t| - 1] == z + s[..|s| - 1];
      ZerosAddNothing(z, s[..|s| - 1]);
    } else if z != [] {
      assert t[..|t| - 1] == z[..|z| - 1] + s;
      ZerosAddNothing(z[..|z| - 1], s);
    }
  }

  lemma NumeralsDiffer(m: nat, n: nat, width: nat)
    ensures Numeral(m) == Numeral(n) ==> m == n
    ensures Padded(m, width) == Padded(n, width) ==> m == n
  {
    NumeralValue(m, width);
    NumeralValue(n, width);
  }

  lemma TwoDigits(n: nat)
    requires n < 100
    ensures |Padded(n, 2)| == 2
  {
    if n >= 10 { assert |Numeral(n / 10)| == 1; }
  }
}
