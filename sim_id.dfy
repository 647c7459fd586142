/** The simulation id of an iteration: the iteration number in decimal, padded
    with leading zeros to the width of the budget `m`, and the directory name
    built from it. */
module SimIds {

  function DigitChar(d: nat): char
    requires d < 10
  {
    ('0' as int + d) as char
  }

  predicate IsDigit(c: char) {
    '0' <= c <= '9'
  }

  /** The decimal numeral of `n`, without leading zeros ("0" for zero). */
  function Digits(n: nat): (s: string)
    ensures |s| >= 1
    ensures forall k :: 0 <= k < |s| ==> IsDigit(s[k])
  {
    if n < 10 then [DigitChar(n)] else Digits(n / 10) + [DigitChar(n % 10)]
  }

  function Zeros(k: nat): (s: string)
    ensures |s| == k
    ensures forall i :: 0 <= i < k ==> s[i] == '0'
  {
    if k == 0 then [] else ['0'] + Zeros(k - 1)
  }

  function DigitValue(c: char): (d: nat)
    requires IsDigit(c)
    ensures d < 10 && DigitChar(d) == c
  {
    c as int - '0' as int
  }

  /** The number a string of digits denotes. */
  function Value(s: string): nat
    requires forall k :: 0 <= k < |s| ==> IsDigit(s[k])
  {
    if s == [] then 0 else Value(s[..|s| - 1]) * 10 + DigitValue(s[|s| - 1])
  }

  /** The id of iteration `i` under budget `m`: `i` left-padded with zeros to
      the number of digits of `m`; a wider `i` is not truncated. */
  function SimId(i: nat, m: nat): (s: string)
    ensures |s| == if |Digits(i)| >= |Digits(m)| then |Digits(i)| else |Digits(m)|
    ensures forall k :: 0 <= k < |s| ==> IsDigit(s[k])
  {
    var pad := if |Digits(i)| >= |Digits(m)| then 0 else |Digits(m)| - |Digits(i)|;
    Zeros(pad) + Digits(i)
  }

  /** The simulation directory of iteration `i`. */
  function SimDir(i: nat, m: nat): (s: string)
    ensures |s| == 4 + |SimId(i, m)|
    ensures s[..4] == "sim_" && s[4..] == SimId(i, m)
  {
    "sim_" + SimId(i, m)
  }

  /** Reading back the numeral of `n` gives `n`. */
  lemma {:induction false} ValueOfDigits(n: nat)
    ensures Value(Digits(n)) == n
  {
    if n >= 10 {
      ValueOfDigits(n / 10);
      var s := Digits(n);
      assert s[..|s| - 1] == Digits(n / 10);
    }
  }

  /** A leading zero does not change the number a string denotes. */
  lemma {:induction false} ValueLeadingZero(s: string)
    requires forall k :: 0 <= k < |s| ==> IsDigit(s[k])
    ensures Value(['0'] + s) == Value(s)
  {
    if s != [] {
      var t := ['0'] + s;
      assert t[..|t| - 1] == ['0'] + s[..|s| - 1];
      ValueLeadingZero(s[..|s| - 1]);
    }
  }

  lemma {:induction false} ValueZeroPadded(k: nat, s: string)
    requires forall i :: 0 <= i < |s| ==> IsDigit(s[i])
    ensures Value(Zeros(k) + s) == Value(s)
  {
    if k > 0 {
      var rest := Zeros(k - 1) + s;
      assert Zeros(k) + s == ['0'] + rest;
      assert forall i :: 0 <= i < |rest| ==> IsDigit(rest[i]);
      ValueLeadingZero(rest);
      ValueZeroPadded(k - 1, s);
    } else {
      assert Zeros(k) + s == s;
    }
  }

  /** The id denotes the iteration number, so distinct iterations get
      distinct ids and directories. */
  lemma SimIdRoundTrip(i: nat, m: nat)
    ensures Value(SimId(i, m)) == i
  {
    var pad := if |Digits(i)| >= |Digits(m)| then 0 else |Digits(m)| - |Digits(i)|;
    ValueZeroPadded(pad, Digits(i));
    ValueOfDigits(i);
  }

  lemma SimIdInjective(i: nat, j: nat, m: nat)
    requires SimId(i, m) == SimId(j, m)
    ensures i == j
  {
    SimIdRoundTrip(i, m);
    SimIdRoundTrip(j, m);
  }

  /** A larger number never has fewer digits. */
  lemma {:induction false} DigitsMonotone(a: nat, b: nat)
    requires a <= b
    ensures |Digits(a)| <= |Digits(b)|
  {
    if a >= 10 {
      DigitsMonotone(a / 10, b / 10);
    }
  }

  /** Every iteration up to the budget gets an id of the budget's width. */
  lemma SimIdFixedWidth(i: nat, m: nat)
    requires i <= m
    ensures |SimId(i, m)| == |Digits(m)|
  {
    DigitsMonotone(i, m);
  }
}
