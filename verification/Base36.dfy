// Sequence numbers as short codes.
module Base36 {
  const INT64 := 0x8000_0000_0000_0000
  const BUFFER := 13

  // The first 36 characters of the alphabet it shares with the random codes.
  function Alphabet(d: nat): char
    requires d < 36
  {
    if d < 10 then '0' + d as char else 'a' + (d - 10) as char
  }

  function Power36(k: nat): nat {
    if k == 0 then 1 else 36 * Power36(k - 1)
  }

  predicate IsDigit(c: char) {
    '0' <= c <= '9' || 'a' <= c <= 'z'
  }

  function DigitValue(c: char): nat
    requires IsDigit(c)
  {
    if c <= '9' then c as int - '0' as int else c as int - 'a' as int + 10
  }

  predicate AllDigits(s: string) {
    forall i :: 0 <= i < |s| ==> IsDigit(s[i])
  }

  // Reading a code, most significant digit first.
  function Decode(s: string): nat
    requires AllDigits(s)
  {
    if s == "" then 0 else 36 * Decode(s[..|s| - 1]) + DigitValue(s[|s| - 1])
  }

  function Digits(n: nat): (s: string)
    ensures AllDigits(s)
  {
    if n == 0 then "" else Digits(n / 36) + [Alphabet(n % 36)]
  }

  lemma {:induction false} DigitsRead(n: nat)
    ensures Decode(Digits(n)) == n
  {
    if n > 0 {
      DigitsRead(n / 36);
      assert Digits(n)[..|Digits(n)| - 1] == Digits(n / 36);
    }
  }

  lemma {:induction false} DigitsStart(n: nat)
    requires n > 0
    ensures Digits(n) != "" && Digits(n)[0] != '0'
  {
    if n >= 36 {
      DigitsStart(n / 36);
    }
  }

  lemma {:induction false} DigitsFit(n: nat, k: nat)
    requires n < Power36(k)
    ensures |Digits(n)| <= k
  {
    if n > 0 {
      DigitsFit(n / 36, k - 1);
    }
  }

  lemma ThirteenSuffice(n: nat)
    requires n < INT64
    ensures |Digits(n)| <= BUFFER
  {
    assert Power36(3) == 46656 && Power36(6) == 36 * (36 * (36 * Power36(3)));
    DigitsFit(n, BUFFER);
  }

  lemma PutInFront(left: nat, s: string, written: string)
    requires left > 0 && s != "" && s[0] == Alphabet(left % 36) && s[1..] == written
    ensures Digits(left / 36) + s == Digits(left) + written
  {
    assert s == [s[0]] + written;
  }

  // The buffer is filled from its end; 13 places are enough for any positive 64-bit value.
  method EncodeBase36(value: int) returns (code: string)
    requires -INT64 <= value < INT64
    ensures AllDigits(code) && 0 < |code| <= BUFFER
    ensures Decode(code) == if value <= 0 then 0 else value
    ensures if value <= 0 then code == "0" else code == Digits(value) && code[0] != '0'
  {
    if value <= 0 {
      return "0";
    }
    var left: nat := value;
    var buf := new char[BUFFER](_ => '\0');
    var i := buf.Length;
    ThirteenSuffice(value);
    DigitsRead(value);
    DigitsStart(value);
    while left > 0
      invariant 0 <= i <= BUFFER && Digits(left) + buf[i..] == Digits(value)
    {
      ghost var written := buf[i..];
      i := i - 1;
      buf[i] := Alphabet(left % 36);
      PutInFront(left, buf[i..], written);
      left := left / 36;
    }
    assert Digits(left) + buf[i..] == buf[i..];
    return buf[i..];
  }

  // The digits are the ten numerals and then the letters: 13878 is a reserved word.
  lemma KnownCode()
    ensures Digits(13878) == "api"
  {
    assert Digits(10) == "a" && Digits(385) == "ap";
  }

  // Different sequence values never share a code.
  lemma CodesDiffer(m: nat, n: nat)
    requires m != n
    ensures Digits(m) != Digits(n)
  {
    DigitsRead(m);
    DigitsRead(n);
  }
}
