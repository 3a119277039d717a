/** Decimal texts: digit strings, powers of ten, and signed integers as text. */
module Decimal {
  predicate IsDigit(ch: char) { '0' <= ch <= '9' }

  predicate AllDigits(s: string) { forall i :: 0 <= i < |s| ==> IsDigit(s[i]) }

  function DigitOf(ch: char): nat
    requires IsDigit(ch)
  {
    ch as int - '0' as int
  }

  function Pow10(n: nat): (p: nat)
    ensures p >= 1
  {
    if n == 0 then 1 else 10 * Pow10(n - 1)
  }

  /** The number a digit string denotes. */
  function Num(s: string): nat
    requires AllDigits(s)
  {
    if s == [] then 0 else DigitOf(s[0]) * Pow10(|s| - 1) + Num(s[1..])
  }

  function Zeros(n: nat): (z: string)
    ensures |z| == n && forall i :: 0 <= i < n ==> z[i] == '0'
  {
    seq(n, _ => '0')
  }

  /** String.padEnd(n, "0"). */
  function PadEnd(s: string, n: nat): (p: string)
    ensures |p| == if n <= |s| then |s| else n
    ensures AllDigits(s) ==> AllDigits(p)
  {
    if n <= |s| then s else s + Zeros(n - |s|)
  }

  /** The string without its trailing zeros. */
  function TrimZeros(s: string): (r: string)
    ensures |r| <= |s| && r == s[..|r|]
    ensures AllDigits(s) ==> AllDigits(r)
  {
    if s != [] && s[|s| - 1] == '0' then TrimZeros(s[..|s| - 1]) else s
  }

  /** Lexicographic order of strings. */
  predicate TextLess(a: string, b: string) {
    if b == [] then false
    else if a == [] then true
    else a[0] < b[0] || (a[0] == b[0] && TextLess(a[1..], b[1..]))
  }

  // ----- the products the proofs below need -----

  lemma MulMonotone(x: int, y: int, p: int)
    requires x <= y && 0 <= p
    ensures x * p <= y * p
  {}

  lemma MulGap(x: int, y: int, p: int)
    requires x < y && 0 <= p
    ensures x * p + p <= y * p
  {
    MulMonotone(x + 1, y, p);
  }

  lemma MulAssociates(a: int, b: int, c: int)
    ensures a * b * c == a * (b * c)
  {}

  lemma MulDistributes(a: int, b: int, c: int)
    ensures (a + b) * c == a * c + b * c
  {}

  lemma {:induction false} Pow10Add(m: nat, n: nat)
    ensures Pow10(m + n) == Pow10(m) * Pow10(n)
  {
    if m > 0 {
      Pow10Add(m - 1, n);
      MulAssociates(10, Pow10(m - 1), Pow10(n));
    }
  }

  lemma Pow10Grows(m: nat, n: nat)
    requires m <= n
    ensures Pow10(m) <= Pow10(n)
  {
    if m < n { Pow10Grows(m, n - 1); }
  }

  lemma {:induction false} NumBound(s: string)
    requires AllDigits(s)
    ensures Num(s) < Pow10(|s|)
  {
    if s != [] {
      NumBound(s[1..]);
      MulMonotone(DigitOf(s[0]), 9, Pow10(|s| - 1));
    }
  }

  lemma LeadingDigitDecides(x: int, y: int, u: int, v: int, p: int)
    requires 0 <= u < p && 0 <= v < p
    ensures x < y ==> x * p + u < y * p + v
    ensures y < x ==> y * p + v < x * p + u
  {
    if x < y { MulGap(x, y, p); }
    if y < x { MulGap(y, x, p); }
  }

  /** On digit strings of one length, text order is numeric order. */
  lemma {:induction false} TextOrderIsNumeric(a: string, b: string)
    requires AllDigits(a) && AllDigits(b) && |a| == |b|
    ensures TextLess(a, b) <==> Num(a) < Num(b)
    ensures a == b <==> Num(a) == Num(b)
  {
    if a != [] {
      TextOrderIsNumeric(a[1..], b[1..]);
      NumBound(a[1..]);
      NumBound(b[1..]);
      LeadingDigitDecides(DigitOf(a[0]), DigitOf(b[0]), Num(a[1..]), Num(b[1..]), Pow10(|a| - 1));
      assert a == [a[0]] + a[1..] && b == [b[0]] + b[1..];
    }
  }

  lemma {:induction false} NumConcat(a: string, b: string)
    requires AllDigits(a) && AllDigits(b)
    ensures AllDigits(a + b) && Num(a + b) == Num(a) * Pow10(|b|) + Num(b)
  {
    if a == [] {
      assert a + b == b;
    } else {
      NumConcat(a[1..], b);
      assert (a + b)[1..] == a[1..] + b;
      Pow10Add(|a| - 1, |b|);
      var d, p, q := DigitOf(a[0]), Pow10(|a| - 1), Pow10(|b|);
      MulAssociates(d, p, q);
      MulDistributes(d * p, Num(a[1..]), q);
    }
  }

  lemma {:induction false} NumZeros(n: nat)
    ensures AllDigits(Zeros(n)) && Num(Zeros(n)) == 0
  {
    if n > 0 {
      assert Zeros(n)[1..] == Zeros(n - 1);
      NumZeros(n - 1);
    }
  }

  lemma NumPad(s: string, n: nat)
    requires AllDigits(s) && |s| <= n
    ensures Num(PadEnd(s, n)) == Num(s) * Pow10(n - |s|)
  {
    NumZeros(n - |s|);
    if n > |s| { NumConcat(s, Zeros(n - |s|)); }
  }

  // ----- trailing zeros -----

  lemma {:induction false} TrimSplit(s: string)
    ensures s == TrimZeros(s) + Zeros(|s| - |TrimZeros(s)|)
    ensures TrimZeros(s) == [] || TrimZeros(s)[|TrimZeros(s)| - 1] != '0'
  {
    hide Zeros;
    if s != [] && s[|s| - 1] == '0' {
      var init := s[..|s| - 1];
      TrimSplit(init);
      var t := TrimZeros(init);
      assert TrimZeros(s) == t;
      hide TrimZeros;
      SplitOneMore(s, init, t, |init| - |t|);
    } else {
      ZerosNone();
    }
  }

  lemma SplitOneMore(s: string, init: string, t: string, n: nat)
    requires s == init + ['0'] && init == t + Zeros(n)
    ensures s == t + Zeros(n + 1)
  {
    OneMoreZero(n);
    hide Zeros;
    assert t + Zeros(n) + ['0'] == t + (Zeros(n) + ['0']);
  }

  lemma OneMoreZero(n: nat)
    ensures Zeros(n + 1) == Zeros(n) + ['0']
  {}

  lemma ZerosNone()
    ensures Zeros(0) == []
  {}

  lemma {:induction false} TrimPad(s: string, k: nat)
    ensures TrimZeros(s + Zeros(k)) == TrimZeros(s)
  {
    if k == 0 {
      assert s + Zeros(0) == s;
    } else {
      assert (s + Zeros(k))[..|s| + k - 1] == s + Zeros(k - 1);
      TrimPad(s, k - 1);
    }
  }

  lemma {:induction false} TrimOfPad(s: string, n: nat)
    requires |s| <= n
    ensures TrimZeros(PadEnd(s, n)) == TrimZeros(s)
  {
    hide TrimZeros, Zeros;
    TrimPad(s, n - |s|);
    ZerosNone();
    assert PadEnd(s, n) == s + Zeros(n - |s|);
  }

  /** Two digit strings trim to the same text exactly when they pad to the same text. */
  lemma {:induction false} TrimIffPad(a: string, b: string, n: nat)
    requires |a| <= n && |b| <= n
    ensures TrimZeros(a) == TrimZeros(b) <==> PadEnd(a, n) == PadEnd(b, n)
  {
    hide TrimZeros, PadEnd, Zeros;
    TrimOfPad(a, n);
    TrimOfPad(b, n);
    var p, q := PadEnd(a, n), PadEnd(b, n);
    TrimSplit(p);
    TrimSplit(q);
    assert |p| == n && |q| == n;
  }

  // ----- integers as text -----

  function DigitChar(d: nat): (ch: char)
    requires d < 10
    ensures IsDigit(ch) && DigitOf(ch) == d
  {
    (d + '0' as int) as char
  }

  function NatText(n: nat): (s: string)
    ensures s != [] && AllDigits(s)
  {
    if n < 10 then [DigitChar(n)] else NatText(n / 10) + [DigitChar(n % 10)]
  }

  /** The decimal rendering of an integer. */
  function IntText(n: int): (s: string)
    ensures '.' !in s && s != []
  {
    if n < 0 then "-" + NatText(-n) else NatText(n)
  }

  /** BigInt(text) of an optionally negative digit string. */
  function ParseInt(s: string): int
    requires AllDigits(s) || (s != [] && s[0] == '-' && AllDigits(s[1..]))
  {
    if s != [] && s[0] == '-' then 0 - Num(s[1..]) else Num(s)
  }

  lemma {:induction false} NatTextNum(n: nat)
    ensures Num(NatText(n)) == n
  {
    if n >= 10 {
      NatTextNum(n / 10);
      NumConcat(NatText(n / 10), [DigitChar(n % 10)]);
      assert Num([DigitChar(n % 10)]) == n % 10;
    }
  }

  /** Rendering and parsing an integer is the identity. */
  lemma IntTextRoundTrip(n: int)
    ensures var s := IntText(n);
            && (AllDigits(s) || (s[0] == '-' && AllDigits(s[1..])))
            && ParseInt(s) == n
  {
    if n < 0 {
      NatTextNum(-n);
      assert IntText(n)[1..] == NatText(-n);
    } else {
      NatTextNum(n);
    }
  }
}
