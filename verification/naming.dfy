/** Output file names: `format!("{}-{:05}-of-{:05}", n, index, countLabel)`. */
module Naming {

  import opened Decimal

  function OutputName(n: nat, index: nat, countLabel: nat): (name: string)
    ensures |name| >= |Digits(n)| + 14
  {
    Digits(n) + "-" + Padded5(index) + "-of-" + Padded5(countLabel)
  }

  predicate NoDash(s: string) {
    forall i | 0 <= i < |s| :: s[i] != '-'
  }

  lemma DigitsHaveNoDash(s: string)
    requires AllDigits(s)
    ensures NoDash(s)
  {
  }

  /** A dash-free field followed by a dash is recovered from the string. */
  lemma SplitAtFirstDash(x: string, y: string, x': string, y': string)
    requires NoDash(x) && NoDash(x')
    requires x + "-" + y == x' + "-" + y'
    ensures x == x' && y == y'
  {
    var s := x + "-" + y;
    FirstDash(x, y);
    FirstDash(x', y');
    assert |x| == |x'|;
    assert x == s[..|x|] == x';
    assert y == s[|x| + 1..] == y';
  }

  /** In `x + "-" + y` with a dash-free `x`, the first dash is at index `|x|`. */
  lemma FirstDash(x: string, y: string)
    requires NoDash(x)
    ensures (x + "-" + y)[|x|] == '-'
    ensures forall i | 0 <= i < |x| :: (x + "-" + y)[i] != '-'
  {
  }

  /** Regrouping the name's parts so that each dash heads a suffix. */
  lemma Regroup(d: string, a: string, l: string)
    ensures d + "-" + a + "-of-" + l == d + "-" + (a + "-" + ("of-" + l))
  {
    var head, tail := d + "-", "-" + ("of-" + l);
    assert "-of-" + l == tail;
    assert head + a + "-of-" + l == head + (a + tail);
  }

  lemma NameShape(n: nat, index: nat, countLabel: nat)
    ensures OutputName(n, index, countLabel) == Digits(n) + "-" + (Padded5(index) + "-" + ("of-" + Padded5(countLabel)))
  {
    Regroup(Digits(n), Padded5(index), Padded5(countLabel));
  }

  /** An output name determines the order, the chunk index and the countLabel it was
      formatted from; in particular distinct chunk indices of one order (same
      countLabel) get distinct file names. */
  lemma OutputNameInjective(n1: nat, i1: nat, l1: nat, n2: nat, i2: nat, l2: nat)
    ensures OutputName(n1, i1, l1) == OutputName(n2, i2, l2) <==> n1 == n2 && i1 == i2 && l1 == l2
  {
    if OutputName(n1, i1, l1) == OutputName(n2, i2, l2) {
      NameShape(n1, i1, l1);
      NameShape(n2, i2, l2);
      DigitsHaveNoDash(Digits(n1));
      DigitsHaveNoDash(Digits(n2));
      DigitsHaveNoDash(Padded5(i1));
      DigitsHaveNoDash(Padded5(i2));
      SplitAtFirstDash(Digits(n1), Padded5(i1) + "-" + ("of-" + Padded5(l1)),
                       Digits(n2), Padded5(i2) + "-" + ("of-" + Padded5(l2)));
      SplitAtFirstDash(Padded5(i1), "of-" + Padded5(l1), Padded5(i2), "of-" + Padded5(l2));
      assert Padded5(l1) == ("of-" + Padded5(l1))[3..] == ("of-" + Padded5(l2))[3..] == Padded5(l2);
      ValueOfDigits(n1);
      ValueOfDigits(n2);
      Padded5Injective(i1, i2);
      Padded5Injective(l1, l2);
    }
  }
}
