// Time-based one-time codes: RFC 4226 truncation and the RFC 6238 window around now.
module Totp {
  import opened Common
  import opened Decimal
  import Text

  type Key = seq<Byte>
  type Mac = m: seq<Byte> | |m| == 20 witness seq(20, _ => 0)

  // HMAC-SHA-1 and base32 decoding are somebody else's.
  datatype Crypto = Crypto(hmac: (Key, seq<Byte>) -> Mac, decode: string -> Option<Key>)

  const PERIOD := 30
  const DIGITS := 6
  const SKEW := 1
  const UINT32 := 0x1_0000_0000

  function BigEndian(n: nat, width: nat): (bytes: seq<Byte>)
    ensures |bytes| == width
  {
    if width == 0 then [] else BigEndian(n / 256, width - 1) + [n % 256]
  }

  function ReadBigEndian(bytes: seq<Byte>): nat {
    if bytes == [] then 0 else 256 * ReadBigEndian(bytes[..|bytes| - 1]) + bytes[|bytes| - 1]
  }

  function Power256(k: nat): nat {
    if k == 0 then 1 else 256 * Power256(k - 1)
  }

  // Different steps are different messages.
  lemma {:induction false} BigEndianReads(n: nat, width: nat)
    requires n < Power256(width)
    ensures ReadBigEndian(BigEndian(n, width)) == n
  {
    if width > 0 {
      BigEndianReads(n / 256, width - 1);
      assert BigEndian(n, width)[..width - 1] == BigEndian(n / 256, width - 1);
    }
  }

  function Truncated(mac: Mac): nat {
    var offset := mac[19] % 16;
    ReadBigEndian(mac[offset..offset + 4]) % 0x8000_0000
  }

  // Section 5.3 of RFC 4226 builds the same number byte by byte, masking the top bit of the first.
  lemma TruncatedByBytes(mac: Mac)
    ensures var o := mac[19] % 16;
      var b0: int, b1: int, b2: int, b3: int := mac[o], mac[o + 1], mac[o + 2], mac[o + 3];
      Truncated(mac) == (b0 % 128) * 0x100_0000 + b1 * 0x1_0000 + b2 * 0x100 + b3
  {
    var o := mac[19] % 16;
    var b0: int, b1: int, b2: int, b3: int := mac[o], mac[o + 1], mac[o + 2], mac[o + 3];
    var p := mac[o..o + 4];
    assert p[..3][..2][..1][..0] == [];
    assert ReadBigEndian(p[..1]) == b0;
    assert p[..2][..1] == p[..1] && ReadBigEndian(p[..2]) == 256 * b0 + b1;
    assert p[..3][..2] == p[..2] && ReadBigEndian(p[..3]) == 256 * (256 * b0 + b1) + b2;
    assert p[..3] == p[..|p| - 1] && ReadBigEndian(p) == b0 * 0x100_0000 + b1 * 0x1_0000 + b2 * 0x100 + b3;
  }

  function Code(c: Crypto, key: Key, step: nat): string {
    Pad(Truncated(c.hmac(key, BigEndian(step, 8))) % Power10(DIGITS), DIGITS)
  }

  lemma CodeIsSixDigits(c: Crypto, key: Key, step: nat)
    ensures var code := Code(c, key, step);
      |code| == DIGITS && AllDigits(code) && Atoi(code) == Truncated(c.hmac(key, BigEndian(step, 8))) % 1_000_000
  {
    assert Power10(DIGITS) == 1_000_000;
    PadExact(Truncated(c.hmac(key, BigEndian(step, 8))) % Power10(DIGITS), DIGITS);
    PadReads(Truncated(c.hmac(key, BigEndian(step, 8))) % Power10(DIGITS), DIGITS);
  }

  lemma {:induction false} MultiplesVanish(q: nat, r: nat)
    ensures (q * UINT32 + r) % UINT32 == r % UINT32
    decreases q
  {
    if q > 0 {
      MultiplesVanish(q - 1, r + UINT32);
      assert (q - 1) * UINT32 + (r + UINT32) == q * UINT32 + r;
    }
  }

  lemma ProductsWrap(a: nat)
    ensures (a % UINT32) * 10 % UINT32 == a * 10 % UINT32
  {
    MultiplesVanish(10 * (a / UINT32), (a % UINT32) * 10);
  }

  lemma {:induction false} PowersGrow(i: nat, j: nat)
    requires i <= j
    ensures Power10(i) <= Power10(j)
    decreases j
  {
    if i < j {
      PowersGrow(i, j - 1);
    } else if i > 0 {
      PowersGrow(i - 1, j - 1);
    }
  }

  lemma SmallPowersFit(digits: nat)
    requires digits <= 9
    ensures Power10(digits) % UINT32 == Power10(digits)
  {
    PowersGrow(digits, 9);
    assert Power10(9) == 1_000_000_000;
  }

  // The modulus is built up in 32 bits, which hold every power of ten up to the ninth; from the
  // tenth on it wraps.
  method Modulo(digits: nat) returns (modulo: nat)
    ensures modulo == Power10(digits) % UINT32
    ensures digits <= 9 ==> modulo == Power10(digits)
  {
    modulo := 1;
    for i := 0 to digits
      invariant modulo == Power10(i) % UINT32
    {
      ProductsWrap(Power10(i));
      modulo := modulo * 10 % UINT32;
    }
    if digits <= 9 {
      SmallPowersFit(digits);
    }
  }

  // Where the modulus has wrapped to zero the division is a run-time panic.
  method Hotp(c: Crypto, key: Key, counter: nat, digits: nat) returns (code: Option<string>)
    ensures code.Some? <==> Power10(digits) % UINT32 != 0
    ensures code.Some? ==>
              code.value == Pad(Truncated(c.hmac(key, BigEndian(counter, 8))) % (Power10(digits) % UINT32), digits)
    ensures digits == DIGITS ==> code == Some(Code(c, key, counter))
  {
    var sum := c.hmac(key, BigEndian(counter, 8));
    var offset := sum[|sum| - 1] % 16;
    var value := ReadBigEndian(sum[offset..offset + 4]) % 0x8000_0000;
    var modulo := Modulo(digits);
    if modulo == 0 {
      return None;
    }
    code := Some(Pad(value % modulo, digits));
  }

  // Go's integer division truncates toward zero.
  function CounterAt(at: int): int {
    if at >= 0 then at / PERIOD else -(-at / PERIOD)
  }

  predicate Accepts(c: Crypto, key: Key, candidate: string, at: int) {
    CodeAmong(c, key, candidate, CounterAt(at) - SKEW, CounterAt(at) + SKEW)
  }

  predicate CodeAmong(c: Crypto, key: Key, candidate: string, first: int, last: int) {
    exists step: nat :: first <= step <= last && candidate == Code(c, key, step)
  }

  lemma OneMoreStep(c: Crypto, key: Key, candidate: string, first: int, last: int)
    requires first <= last
    ensures CodeAmong(c, key, candidate, first, last) <==>
            CodeAmong(c, key, candidate, first, last - 1) || (last >= 0 && candidate == Code(c, key, last))
  {
  }

  // The step's half minute is the present one, the one before or the one after.
  predicate InWindow(step: nat, at: int) {
    if at >= 0 then 30 * step - 30 <= at < 30 * step + 60 else 30 * step - 60 < at
  }

  lemma AcceptsWithinTheWindow(c: Crypto, key: Key, candidate: string, at: int)
    ensures Accepts(c, key, candidate, at) <==>
            exists step: nat :: InWindow(step, at) && candidate == Code(c, key, step)
  {
    forall step: nat
      ensures CounterAt(at) - SKEW <= step <= CounterAt(at) + SKEW <==> InWindow(step, at)
    {
    }
  }

  function NoSpaces(s: string): string {
    if s == [] then [] else (if s[0] == ' ' then [] else [s[0]]) + NoSpaces(s[1..])
  }

  // A code is good exactly when it is that of one of the steps, not before the epoch, within one
  // of now.
  method VerifyTOTP(c: Crypto, space: char -> bool, secret: string, code: string, at: int) returns (matched: bool)
    ensures var candidate := NoSpaces(Text.Trim(space, code));
      matched <==> |candidate| == 6 && c.decode(secret).Some? &&
                   exists step: nat :: InWindow(step, at) && candidate == Code(c, c.decode(secret).value, step)
  {
    var candidate := NoSpaces(Text.Trim(space, code));
    if |candidate| != DIGITS || c.decode(secret) == None {
      return false;
    }
    var key, base := c.decode(secret).value, CounterAt(at);
    AcceptsWithinTheWindow(c, key, candidate, at);
    matched := false;
    for offset := -SKEW to SKEW + 1
      invariant matched <==> CodeAmong(c, key, candidate, base - SKEW, base + offset - 1)
    {
      var step := base + offset;
      OneMoreStep(c, key, candidate, base - SKEW, step);
      if step >= 0 {
        var expected := Hotp(c, key, step, DIGITS);
        if expected == Some(candidate) {
          matched := true;
        }
      }
    }
  }

  lemma {:induction false} DigitsHaveNoSpaces(s: string)
    requires AllDigits(s)
    ensures NoSpaces(s) == s
  {
    if s != [] {
      DigitsHaveNoSpaces(s[1..]);
    }
  }

  // The code of the half minute that a moment falls in is accepted at every moment within half a
  // minute of it.
  lemma FreshCodesAreAccepted(c: Crypto, space: char -> bool, key: Key, step: nat, made: nat, at: nat)
    requires 30 * step <= made < 30 * step + 30 && -30 <= at - made <= 30
    requires forall d: char :: IsDigit(d) ==> !space(d)
    ensures var code := Code(c, key, step);
      NoSpaces(Text.Trim(space, code)) == code && |code| == 6 && InWindow(step, at)
  {
    var code := Code(c, key, step);
    CodeIsSixDigits(c, key, step);
    Text.TrimmedStays(space, code);
    DigitsHaveNoSpaces(code);
  }

  // A minute away from its making, its step is no longer one that is looked at.
  lemma OldStepsAreOut(step: nat, made: nat, at: nat)
    requires 30 * step <= made < 30 * step + 30 && (at - made >= 60 || made - at >= 60)
    ensures !InWindow(step, at)
  {
  }

  // Blanks inside a typed code do not matter, and nothing else is dropped.
  lemma {:induction false} OnlySpacesGo(s: string, t: string)
    ensures NoSpaces(s + " " + t) == NoSpaces(s) + NoSpaces(t)
    ensures ' ' !in s ==> NoSpaces(s) == s
  {
    if s == [] {
      assert [] + " " + t == " " + t && (" " + t)[1..] == t;
    } else {
      OnlySpacesGo(s[1..], t);
      assert (s + " " + t)[1..] == s[1..] + " " + t;
    }
  }
}
