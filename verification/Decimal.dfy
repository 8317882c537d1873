// Decimal rendering: strconv.Itoa and the zero-padded forms of fmt and time.
module Decimal {
  function Digit(d: nat): char
    requires d < 10
  {
    ('0' as int + d) as char
  }

  predicate IsDigit(c: char) {
    '0' <= c <= '9'
  }

  predicate AllDigits(s: string) {
    forall i :: 0 <= i < |s| ==> IsDigit(s[i])
  }

  function Itoa(n: nat): (s: string)
    ensures s != [] && AllDigits(s)
  {
    if n < 10 then [Digit(n)] else Itoa(n / 10) + [Digit(n % 10)]
  }

  // The number a digit string denotes, leading zeros allowed.
  function Atoi(s: string): nat
    requires AllDigits(s)
  {
    if s == [] then 0 else 10 * Atoi(s[..|s| - 1]) + (s[|s| - 1] as int - '0' as int)
  }

  function Pad(n: nat, width: nat): (s: string)
    ensures AllDigits(s) && |s| >= width
  {
    Zeros(width - |Itoa(n)|) + Itoa(n)
  }

  function Zeros(k: int): (s: string)
    ensures |s| == if k < 0 then 0 else k
    ensures AllDigits(s)
  {
    if k <= 0 then [] else ['0'] + Zeros(k - 1)
  }

  lemma {:induction false} ItoaReads(n: nat)
    ensures Atoi(Itoa(n)) == n
  {
    if n >= 10 {
      ItoaReads(n / 10);
      assert Itoa(n)[..|Itoa(n)| - 1] == Itoa(n / 10);
    }
  }

  lemma {:induction false} ItoaLength(n: nat, width: nat)
    requires n < Power10(width) && width > 0
    ensures |Itoa(n)| <= width
  {
    if n >= 10 {
      ItoaLength(n / 10, width - 1);
    }
  }

  function Power10(k: nat): (r: nat)
    ensures r > 0
  {
    if k == 0 then 1 else 10 * Power10(k - 1)
  }

  lemma {:induction false} AtoiZeros(k: int, s: string)
    requires AllDigits(s)
    ensures AllDigits(Zeros(k) + s) && Atoi(Zeros(k) + s) == Atoi(s)
  {
    if s == [] {
      assert Zeros(k) + s == Zeros(k);
      if k > 0 {
        AtoiZeros(k - 1, []);
        assert Zeros(k - 1) + [] == Zeros(k - 1);
        ZerosSnoc(k);
        assert Zeros(k)[..|Zeros(k)| - 1] == Zeros(k - 1);
      }
    } else {
      AtoiZeros(k, s[..|s| - 1]);
      assert (Zeros(k) + s)[..|Zeros(k) + s| - 1] == Zeros(k) + s[..|s| - 1];
    }
  }

  lemma {:induction false} ZerosSnoc(k: int)
    requires k > 0
    ensures Zeros(k) == Zeros(k - 1) + ['0']
  {
    if k > 1 {
      ZerosSnoc(k - 1);
    }
  }

  // A padded number reads back, so padding to any width stays injective.
  lemma PadReads(n: nat, width: nat)
    ensures Atoi(Pad(n, width)) == n
  {
    ItoaReads(n);
    AtoiZeros(width - |Itoa(n)|, Itoa(n));
  }

  lemma PadExact(n: nat, width: nat)
    requires width > 0 && n < Power10(width)
    ensures |Pad(n, width)| == width
  {
    ItoaLength(n, width);
  }
}
