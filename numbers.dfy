/** Decimal text of integers: Python's str() on an int, and int() on a token. */
module Numbers {
  import opened Results

  predicate IsDigit(c: char) { '0' <= c <= '9' }

  function DigitChar(d: nat): (c: char)
    requires d < 10
    ensures IsDigit(c)
  {
    ('0' as int + d) as char
  }

  function DigitValue(c: char): (d: nat)
    requires IsDigit(c)
    ensures d < 10
  {
    c as int - '0' as int
  }

  /** A string Python's int() accepts in this model: one or more decimal digits. */
  predicate IsDecimal(s: string)
  {
    |s| >= 1 && forall i :: 0 <= i < |s| ==> IsDigit(s[i])
  }

  /** str(n) for n >= 0: the decimal digits of n, most significant first, no leading zero. */
  function ShowNat(n: nat): (r: string)
    ensures IsDecimal(r)
    ensures |r| > 1 ==> r[0] != '0'
  {
    if n < 10 then [DigitChar(n)] else ShowNat(n / 10) + [DigitChar(n % 10)]
  }

  /** str(i) for any int: a minus sign before the digits of a negative number. */
  function ShowInt(i: int): (r: string)
    ensures |r| >= 1
    ensures (r[0] == '-') <==> i < 0
  {
    if i < 0 then "-" + ShowNat(-i) else ShowNat(i)
  }

  /** The value of a string of decimal digits, most significant first. */
  function DecimalValue(s: string): nat
    requires forall i :: 0 <= i < |s| ==> IsDigit(s[i])
  {
    if s == [] then 0 else DecimalValue(s[..|s| - 1]) * 10 + DigitValue(s[|s| - 1])
  }

  /** int(tok), restricted to plain decimal tokens; anything else raises in Python. */
  function ParseInt(tok: string): (r: Option<int>)
    ensures r.Some? <==> IsDecimal(tok)
    ensures r.Some? ==> r.value >= 0
  {
    if IsDecimal(tok) then Some(DecimalValue(tok)) else None
  }

  /** int(str(n)) == n. */
  lemma {:induction false} ParseShowNat(n: nat)
    ensures ParseInt(ShowNat(n)) == Some(n)
  {
    if n >= 10 {
      ParseShowNat(n / 10);
      var s := ShowNat(n / 10) + [DigitChar(n % 10)];
      assert s[..|s| - 1] == ShowNat(n / 10);
      assert DigitValue(DigitChar(n % 10)) == n % 10;
      assert DecimalValue(ShowNat(n / 10)) == n / 10;
      assert DecimalValue(s) == (n / 10) * 10 + n % 10 == n;
      assert ShowNat(n) == s;
    } else {
      var s := [DigitChar(n)];
      assert ShowNat(n) == s && s[..0] == [];
      assert DecimalValue(s) == DecimalValue([]) * 10 + DigitValue(DigitChar(n));
      assert DigitValue(DigitChar(n)) == n;
    }
  }

  function Pow10(k: nat): (p: nat)
    ensures p >= 1
  {
    if k == 0 then 1 else 10 * Pow10(k - 1)
  }

  /** str(n) has at most k characters exactly when n < 10^k. */
  lemma {:induction false} ShowNatLength(n: nat, k: nat)
    requires k >= 1
    ensures |ShowNat(n)| <= k <==> n < Pow10(k)
  {
    if n >= 10 {
      if k == 1 {
        assert Pow10(1) == 10;
      } else {
        ShowNatLength(n / 10, k - 1);
        assert n / 10 < Pow10(k - 1) <==> n < 10 * Pow10(k - 1);
      }
    } else {
      PowAtLeastTen(k);
    }
  }

  lemma {:induction false} PowAtLeastTen(k: nat)
    requires k >= 1
    ensures Pow10(k) >= 10
  {
    if k > 1 {
      PowAtLeastTen(k - 1);
    }
  }

  /** str(i) fits a field of 7 characters exactly when -10^6 < i < 10^7. */
  lemma IntFitsSeven(i: int)
    ensures |ShowInt(i)| <= 7 <==> -1000000 < i < 10000000
  {
    assert Pow10(6) == 1000000;
    assert Pow10(7) == 10000000;
    if i < 0 {
      ShowNatLength(-i, 6);
    } else {
      ShowNatLength(i, 7);
    }
  }
}
