/** The point identifiers built by initPoints with `fmt.Sprintf("P%04s", fmt.Sprint(i))`
    (main.go:41): "P" followed by the decimal form of `i` left-padded with zeros to four
    characters. */
module PointIds {

  const IdWidth: nat := 4

  predicate IsDigit(c: char)
  {
    '0' <= c <= '9'
  }

  function DigitChar(d: nat): char
    requires d < 10
  {
    ['0', '1', '2', '3', '4', '5', '6', '7', '8', '9'][d]
  }

  function DigitValue(c: char): nat
    requires IsDigit(c)
  {
    (c as int - '0' as int) as nat
  }

  /** `fmt.Sprint(n)` for a non-negative integer. */
  function Decimal(n: nat): string
  {
    if n < 10 then [DigitChar(n)] else Decimal(n / 10) + [DigitChar(n % 10)]
  }

  /** The `%0<w>s` verb: `s` left-padded with '0' up to `w` characters. */
  function ZeroPad(s: string, w: nat): string
  {
    if |s| >= w then s else seq(w - |s|, _ => '0') + s
  }

  function PointId(i: nat): string
  {
    "P" + ZeroPad(Decimal(i), IdWidth)
  }

  predicate AllDigits(s: string)
  {
    forall j :: 0 <= j < |s| ==> IsDigit(s[j])
  }

  /** The number a string of decimal digits denotes. */
  function DigitsValue(s: string): nat
    requires AllDigits(s)
  {
    if s == [] then 0 else DigitsValue(s[..|s| - 1]) * 10 + DigitValue(s[|s| - 1])
  }

  /** The inverse of PointId: the index an identifier was made from, if it has that shape. */
  function IdIndex(id: string): Option<nat>
  {
    if |id| >= 1 && id[0] == 'P' && AllDigits(id[1..]) then Some(DigitsValue(id[1..])) else None
  }

  datatype Option<T> = None | Some(value: T)

  lemma DigitChar_Value(d: nat)
    requires d < 10
    ensures IsDigit(DigitChar(d)) && DigitValue(DigitChar(d)) == d
  {
  }

  /** `fmt.Sprint` writes only digits, and they denote the number written. */
  lemma {:induction false} Decimal_Value(n: nat)
    ensures AllDigits(Decimal(n)) && DigitsValue(Decimal(n)) == n
  {
    var s := Decimal(n);
    if n < 10 {
      DigitChar_Value(n);
      assert s[..0] == [];
    } else {
      Decimal_Value(n / 10);
      DigitChar_Value(n % 10);
      assert s[..|s| - 1] == Decimal(n / 10);
    }
  }

  /** Leading zeros do not change the value of a digit string. */
  lemma {:induction false} LeadingZeros_Value(k: nat, s: string)
    requires AllDigits(s)
    ensures AllDigits(seq(k, _ => '0') + s)
    ensures DigitsValue(seq(k, _ => '0') + s) == DigitsValue(s)
    decreases |s|, k
  {
    var z := seq(k, _ => '0');
    if s == [] {
      assert z + s == z;
      if k > 0 {
        assert z[..k - 1] == seq(k - 1, _ => '0');
        LeadingZeros_Value(k - 1, []);
        assert seq(k - 1, _ => '0') + [] == seq(k - 1, _ => '0');
      }
    } else {
      var s' := s[..|s| - 1];
      LeadingZeros_Value(k, s');
      assert (z + s)[..|z + s| - 1] == z + s';
    }
  }

  /** Padding with zeros keeps the decimal value. */
  lemma ZeroPad_Value(s: string, w: nat)
    requires AllDigits(s)
    ensures AllDigits(ZeroPad(s, w)) && DigitsValue(ZeroPad(s, w)) == DigitsValue(s)
  {
    if |s| < w {
      LeadingZeros_Value(w - |s|, s);
    }
  }

  /** Round trip: the index can be read back from every identifier initPoints builds. */
  lemma PointId_RoundTrip(i: nat)
    ensures IdIndex(PointId(i)) == Some(i)
  {
    Decimal_Value(i);
    ZeroPad_Value(Decimal(i), IdWidth);
    assert PointId(i)[1..] == ZeroPad(Decimal(i), IdWidth);
  }

  /** Distinct indices give distinct identifiers, so the 1000 stores of initPoints never
      overwrite one another. */
  lemma PointId_Injective(i: nat, j: nat)
    ensures PointId(i) == PointId(j) <==> i == j
  {
    PointId_RoundTrip(i);
    PointId_RoundTrip(j);
  }

  /** A number below 10^k has at most k decimal digits. */
  lemma {:induction false} Decimal_Length(n: nat, k: nat)
    requires n < Pow10(k)
    ensures 1 <= |Decimal(n)| <= if k == 0 then 1 else k
  {
    if n >= 10 {
      assert k >= 2 by { assert Pow10(0) == 1 && Pow10(1) == 10; }
      Decimal_Length(n / 10, k - 1);
    }
  }

  function Pow10(k: nat): (r: nat)
    ensures r >= 1
  {
    if k == 0 then 1 else 10 * Pow10(k - 1)
  }

  /** Every index from 1 to 9999 gives a five-character identifier: "P" and four digits. */
  lemma PointId_Shape(i: nat)
    requires 1 <= i < 10000
    ensures |PointId(i)| == 1 + IdWidth && PointId(i)[0] == 'P'
    ensures AllDigits(PointId(i)[1..])
  {
    assert Pow10(4) == 10000;
    Decimal_Length(i, 4);
    Decimal_Value(i);
    ZeroPad_Value(Decimal(i), IdWidth);
    assert PointId(i)[1..] == ZeroPad(Decimal(i), IdWidth);
  }

  /** The first, a middle and the last identifier of the initial table. */
  lemma PointId_Examples()
    ensures PointId(1) == "P0001"
    ensures PointId(42) == "P0042"
    ensures PointId(1000) == "P1000"
  {
  }
}
