/** `String(n)` for a natural number: its decimal digits, without leading zeros. */
module Decimal {
  import opened Wrappers
  import opened Utf16

  function Digits(n: nat): (r: Text)
    ensures r != [] && forall c :: c in r ==> IsDigit(c)
    ensures n > 0 ==> r[0] != 0x30
  {
    if n < 10 then [0x30 + n] else Digits(n / 10) + [0x30 + n % 10]
  }

  function ValueOf(t: Text): nat
    requires forall c :: c in t ==> IsDigit(c)
  {
    if t == [] then 0 else
    assert IsDigit(t[|t| - 1]);
    ValueOf(t[..|t| - 1]) * 10 + (t[|t| - 1] as int - 0x30)
  }

  lemma {:induction false} ValueOfDigits(n: nat)
    ensures ValueOf(Digits(n)) == n
  {
    if n >= 10 {
      ValueOfDigits(n / 10);
      assert Digits(n)[..|Digits(n)| - 1] == Digits(n / 10);
    } else {
      assert Digits(n)[..0] == [];
    }
  }

  lemma {:induction false} DigitsOfValue(t: Text)
    requires t != [] && (forall c :: c in t ==> IsDigit(c)) && (|t| == 1 || t[0] != 0x30)
    ensures Digits(ValueOf(t)) == t
    ensures |t| > 1 ==> ValueOf(t) >= 10
  {
    var init := t[..|t| - 1];
    assert t == init + [t[|t| - 1]];
    if |t| > 1 {
      DigitsOfValue(init);
      assert ValueOf(init) > 0 by {
        if |init| == 1 {
          assert init[..0] == [] && init[0] == t[0];
        }
      }
      assert IsDigit(t[|t| - 1]);
      assert ValueOf(t) / 10 == ValueOf(init) && ValueOf(t) % 10 == t[|t| - 1] - 0x30;
    } else {
      assert init == [];
      assert t == [t[0]] && t[0] in t;
    }
  }

  /** Distinct numbers print differently. */
  lemma DigitsInjective(a: nat, b: nat)
    requires Digits(a) == Digits(b)
    ensures a == b
  {
    ValueOfDigits(a);
    ValueOfDigits(b);
  }
}
