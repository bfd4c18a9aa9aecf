/**
 Decimal rendering of unsigned integers as Rust's `format!` produces it:
 `{}` writes the shortest decimal form and `{:05}` left-pads it with zeros
 to at least five characters. `Value` reads such a string back.
 */
module Decimal {

  predicate IsDigit(ch: char) {
    '0' <= ch <= '9'
  }

  predicate AllDigits(s: string) {
    forall i | 0 <= i < |s| :: IsDigit(s[i])
  }

  function DigitChar(d: nat): (ch: char)
    requires d < 10
    ensures IsDigit(ch)
    ensures ch as int - '0' as int == d
  {
    ('0' as int + d) as char
  }

  /** `{}`: the shortest decimal representation of `n`. */
  function Digits(n: nat): (s: string)
    ensures 1 <= |s|
    ensures AllDigits(s)
    ensures 1 < |s| ==> s[0] != '0'
    ensures n < 10 <==> |s| == 1
  {
    if n < 10 then [DigitChar(n)] else Digits(n / 10) + [DigitChar(n % 10)]
  }

  /** The number a string of decimal digits denotes. */
  function Value(s: string): nat
    requires AllDigits(s)
  {
    if |s| == 0 then 0
    else Value(s[..|s| - 1]) * 10 + (s[|s| - 1] as int - '0' as int)
  }

  lemma {:induction false} ValueOfDigits(n: nat)
    ensures Value(Digits(n)) == n
  {
    if n >= 10 {
      var s := Digits(n);
      assert s[..|s| - 1] == Digits(n / 10);
      ValueOfDigits(n / 10);
    }
  }

  function Zeros(k: nat): (z: string)
    ensures |z| == k
    ensures forall i | 0 <= i < k :: z[i] == '0'
  {
    seq(k, _ => '0')
  }

  /** `{:0width}`: `s` left-padded with zeros to at least `width` characters. */
  function ZeroPad(s: string, width: nat): (r: string)
    ensures |r| == if |s| < width then width else |s|
    ensures r[|r| - |s|..] == s
    ensures forall i | 0 <= i < |r| - |s| :: r[i] == '0'
  {
    if |s| < width then Zeros(width - |s|) + s else s
  }

  /** `{:05}` applied to an unsigned integer. */
  function Padded5(n: nat): (s: string)
    ensures 5 <= |s|
    ensures AllDigits(s)
  {
    ZeroPad(Digits(n), 5)
  }

  /** Leading zeros do not change the value a digit string denotes. */
  lemma {:induction false} ValueIgnoresLeadingZeros(k: nat, s: string)
    requires AllDigits(s)
    ensures AllDigits(Zeros(k) + s)
    ensures Value(Zeros(k) + s) == Value(s)
    decreases |s|
  {
    var t := Zeros(k) + s;
    assert AllDigits(t) by {
      forall i | 0 <= i < |t|
        ensures IsDigit(t[i])
      {
        if i >= k {
          assert t[i] == s[i - k];
        }
      }
    }
    if |s| == 0 {
      ValueOfZeros(k);
      assert t == Zeros(k);
    } else {
      var init := s[..|s| - 1];
      assert t[..|t| - 1] == Zeros(k) + init;
      ValueIgnoresLeadingZeros(k, init);
    }
  }

  lemma {:induction false} ValueOfZeros(k: nat)
    ensures Value(Zeros(k)) == 0
  {
    if k > 0 {
      assert Zeros(k)[..k - 1] == Zeros(k - 1);
      ValueOfZeros(k - 1);
    }
  }

  /** Reading a `{:05}` field back gives the number that was written. */
  lemma Padded5RoundTrip(n: nat)
    ensures Value(Padded5(n)) == n
  {
    var d := Digits(n);
    ValueOfDigits(n);
    if |d| < 5 {
      ValueIgnoresLeadingZeros(5 - |d|, d);
    }
  }

  /** Distinct numbers get distinct `{:05}` fields. */
  lemma Padded5Injective(a: nat, b: nat)
    ensures Padded5(a) == Padded5(b) <==> a == b
  {
    Padded5RoundTrip(a);
    Padded5RoundTrip(b);
  }
}
