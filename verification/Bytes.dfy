/** Octets, ASCII classes, and positional numerals over octets. */
module Bytes {
  type byte = b: int | 0 <= b < 256

  const CR: byte := 13
  const LF: byte := 10
  const SP: byte := 32
  const HTAB: byte := 9
  const CRLF: seq<byte> := [13, 10]

  /** The octets of an ASCII literal. */
  function Ascii(s: string): (r: seq<byte>)
    ensures |r| == |s|
    ensures forall i :: 0 <= i < |s| ==> r[i] == s[i] as int % 256
  {
    seq(|s|, i requires 0 <= i < |s| => s[i] as int % 256)
  }

  function Min(a: nat, b: nat): nat {
    if a <= b then a else b
  }

  predicate IsDigit(b: byte) {
    48 <= b <= 57
  }

  predicate IsAlpha(b: byte) {
    65 <= b <= 90 || 97 <= b <= 122
  }

  predicate IsHexDigit(b: byte) {
    IsDigit(b) || 65 <= b <= 70 || 97 <= b <= 102
  }

  function HexValue(b: byte): (v: nat)
    requires IsHexDigit(b)
    ensures v < 16
  {
    if b <= 57 then b - 48 else if b <= 70 then b - 55 else b - 87
  }

  function Lower(b: byte): byte {
    if 65 <= b <= 90 then b + 32 else b
  }

  /** `eq_ignore_ascii_case`. */
  predicate SameIgnoringCase(a: seq<byte>, b: seq<byte>) {
    |a| == |b| && forall i :: 0 <= i < |a| ==> Lower(a[i]) == Lower(b[i])
  }

  /** The first index of `b` in `s[from..limit]`, or `limit`. */
  function IndexOf(s: seq<byte>, b: byte, from: nat, limit: nat): (i: nat)
    requires from <= limit <= |s|
    ensures from <= i <= limit
    ensures i < limit ==> s[i] == b
    ensures forall k :: from <= k < i ==> s[k] != b
    decreases limit - from
  {
    if from == limit || s[from] == b then from else IndexOf(s, b, from + 1, limit)
  }

  /** Value of a run of digits in `base`, most significant first. */
  function Value(ds: seq<byte>, base: nat): (v: nat)
    requires forall i :: 0 <= i < |ds| ==> IsHexDigit(ds[i])
  {
    if ds == [] then 0
    else Value(ds[..|ds| - 1], base) * base + HexValue(ds[|ds| - 1])
  }

  function DigitOf(v: nat): (b: byte)
    requires v < 16
    ensures IsHexDigit(b) && HexValue(b) == v
    ensures v < 10 ==> IsDigit(b)
  {
    if v < 10 then v + 48 else v + 87
  }

  /** The shortest numeral of `n` in `base`. */
  function Numeral(n: nat, base: nat): (ds: seq<byte>)
    requires 2 <= base <= 16
    ensures ds != []
    ensures forall i :: 0 <= i < |ds| ==> IsHexDigit(ds[i])
    ensures base <= 10 ==> forall i :: 0 <= i < |ds| ==> IsDigit(ds[i])
  {
    if n < base then [DigitOf(n)]
    else
      Shrinks(n, base);
      Numeral(n / base, base) + [DigitOf(n % base)]
  }

  lemma Shrinks(n: nat, base: nat)
    requires 2 <= base <= n
    ensures n / base < n
  {
    MulMono(2, base, n);
    DivBound(n, base, n);
  }

  lemma DivBound(n: nat, base: nat, p: nat)
    requires 1 <= base
    requires n < base * p
    ensures n / base < p
  {
    MulMono(p, n / base, base);
    assert n == base * (n / base) + n % base;
  }

  lemma MulMono(a: nat, b: nat, c: nat)
    ensures a <= b ==> a * c <= b * c
  {
  }

  lemma ValueSnoc(ds: seq<byte>, d: byte, base: nat)
    requires forall i :: 0 <= i < |ds| ==> IsHexDigit(ds[i])
    requires IsHexDigit(d)
    ensures forall i :: 0 <= i < |ds + [d]| ==> IsHexDigit((ds + [d])[i])
    ensures Value(ds + [d], base) == Value(ds, base) * base + HexValue(d)
  {
    assert (ds + [d])[..|ds|] == ds;
  }

  lemma DivMod(n: nat, base: nat)
    requires 1 <= base
    ensures n == (n / base) * base + n % base
  {
  }

  lemma {:induction false} NumeralValue(n: nat, base: nat)
    requires 2 <= base <= 16
    ensures Value(Numeral(n, base), base) == n
  {
    if n < base {
      ValueSnoc([], DigitOf(n), base);
      assert [] + [DigitOf(n)] == [DigitOf(n)];
    } else {
      Shrinks(n, base);
      NumeralValue(n / base, base);
      ValueSnoc(Numeral(n / base, base), DigitOf(n % base), base);
      DivMod(n, base);
    }
  }

  function Pow(base: nat, k: nat): nat {
    if k == 0 then 1 else base * Pow(base, k - 1)
  }

  lemma {:induction false} NumeralLength(n: nat, base: nat, k: nat)
    requires 2 <= base <= 16 && 1 <= k
    requires n < Pow(base, k)
    ensures |Numeral(n, base)| <= k
  {
    if n >= base {
      Shrinks(n, base);
      assert Pow(base, 1) == base;
      DivBound(n, base, Pow(base, k - 1));
      NumeralLength(n / base, base, k - 1);
    }
  }

  lemma {:induction false} PowGrows(base: nat, k: nat, m: nat)
    requires 1 <= base && k <= m
    ensures Pow(base, k) <= Pow(base, m)
    decreases m - k
  {
    if k < m {
      PowGrows(base, k, m - 1);
      MulMono(1, base, Pow(base, m - 1));
    }
  }

  /** A numeral of so many hexadecimal digits stays below that power of 16. */
  lemma {:induction false} HexValueBound(ds: seq<byte>)
    requires forall i :: 0 <= i < |ds| ==> IsHexDigit(ds[i])
    ensures Value(ds, 16) < Pow(16, |ds|)
  {
    if ds != [] {
      HexValueBound(ds[..|ds| - 1]);
    }
  }

  lemma SixteenToTheSixteenth()
    ensures Pow(16, 16) == 0x1_0000_0000_0000_0000
  {
    assert Pow(16, 4) == 0x1_0000;
    assert Pow(16, 8) == 0x1_0000_0000;
    assert Pow(16, 12) == 0x1_0000_0000_0000;
  }

  // ---------------------------------------------------------------- sequence algebra

  lemma Assoc<T>(a: seq<T>, b: seq<T>, c: seq<T>)
    ensures a + b + c == a + (b + c)
  {
  }

  lemma Cut2<T>(a: seq<T>, b: seq<T>)
    ensures (a + b)[..|a|] == a && (a + b)[|a|..] == b
  {
  }

  lemma Cut3<T>(a: seq<T>, b: seq<T>, c: seq<T>)
    ensures (a + b + c)[..|a|] == a
    ensures (a + b + c)[|a|..|a| + |b|] == b
    ensures (a + b + c)[|a| + |b|..] == c
  {
  }
}
