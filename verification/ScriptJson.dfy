// Strings written into an inline script: JSON.stringify and the five replacements after it.
module ScriptJson {
  import opened Common

  // JavaScript strings are sequences of UTF-16 code units.
  type Unit = x: int | 0 <= x < 0x1_0000
  type Text = seq<Unit>

  const QUOTE: Unit := 0x22
  const BACKSLASH: Unit := 0x5c
  const U: Unit := 0x75
  const UNSAFE: seq<Unit> := [0x3c, 0x3e, 0x26, 0x2028, 0x2029]

  function HexDigit(d: int): Unit
    requires 0 <= d < 16
  {
    if d < 10 then 0x30 + d else 0x61 + d - 10
  }

  function HexValue(c: Unit): Option<nat> {
    if 0x30 <= c <= 0x39 then Some(c - 0x30)
    else if 0x41 <= c <= 0x46 then Some(c - 0x41 + 10)
    else if 0x61 <= c <= 0x66 then Some(c - 0x61 + 10)
    else None
  }

  function UnicodeEscape(c: Unit): Text {
    [BACKSLASH, U, HexDigit(c / 4096), HexDigit(c / 256 % 16), HexDigit(c / 16 % 16), HexDigit(c % 16)]
  }

  // ---- JSON.stringify ----

  predicate Lead(c: Unit) {
    0xd800 <= c <= 0xdbff
  }

  predicate Trail(c: Unit) {
    0xdc00 <= c <= 0xdfff
  }

  function Short(c: Unit): Option<Unit> {
    if c == 8 then Some(0x62) else if c == 9 then Some(0x74) else if c == 10 then Some(0x6e)
    else if c == 12 then Some(0x66) else if c == 13 then Some(0x72)
    else if c == QUOTE || c == BACKSLASH then Some(c) else None
  }

  // One code unit that is not half of a surrogate pair.
  function Escaped(c: Unit): Text {
    if Short(c).Some? then [BACKSLASH, Short(c).value]
    else if c < 0x20 || Lead(c) || Trail(c) then UnicodeEscape(c)
    else [c]
  }

  function Quote(s: Text): Text {
    if s == [] then []
    else if |s| > 1 && Lead(s[0]) && Trail(s[1]) then [s[0], s[1]] + Quote(s[2..])
    else Escaped(s[0]) + Quote(s[1..])
  }

  function Stringify(s: Text): Text {
    [QUOTE] + Quote(s) + [QUOTE]
  }

  // ---- replacements ----

  function ReplaceAll(s: Text, c: Unit, sub: Text): Text {
    if s == [] then [] else ReplaceUnit(s[0], c, sub) + ReplaceAll(s[1..], c, sub)
  }

  function ReplaceUnit(u: Unit, c: Unit, sub: Text): Text {
    if u == c then sub else [u]
  }

  function Replacements(s: Text, k: nat): Text
    requires k <= |UNSAFE|
  {
    if k == 0 then s else ReplaceAll(Replacements(s, k - 1), UNSAFE[k - 1], UnicodeEscape(UNSAFE[k - 1]))
  }

  function JsonForScript(value: Text): Text {
    Replacements(Stringify(value), |UNSAFE|)
  }

  // ---- reading a JSON string: section 7 of RFC 8259 ----

  function Unescape(c: Unit): Option<Unit> {
    if c == QUOTE || c == BACKSLASH || c == 0x2f then Some(c)
    else if c == 0x62 then Some(8) else if c == 0x74 then Some(9) else if c == 0x6e then Some(10)
    else if c == 0x66 then Some(12) else if c == 0x72 then Some(13) else None
  }

  function FourHex(s: Text): Option<Unit> {
    if |s| < 4 then None
    else match (HexValue(s[0]), HexValue(s[1]), HexValue(s[2]), HexValue(s[3]))
      case (Some(a), Some(b), Some(c), Some(d)) =>
        if a < 16 && b < 16 && c < 16 && d < 16 then Some(4096 * a + 256 * b + 16 * c + d) else None
      case _ => None
  }

  function Prepend(c: Unit, r: Option<Text>): Option<Text> {
    if r == None then None else Some([c] + r.value)
  }

  // What follows the opening quotation mark, to the closing one and not beyond.
  function ParseRest(s: Text): Option<Text> {
    if s == [] then None
    else if s[0] == QUOTE then (if |s| == 1 then Some([]) else None)
    else if s[0] < 0x20 then None
    else if s[0] != BACKSLASH then Prepend(s[0], ParseRest(s[1..]))
    else if |s| < 2 then None
    else if s[1] == U then
      if FourHex(s[2..]) == None then None else Prepend(FourHex(s[2..]).value, ParseRest(s[6..]))
    else if Unescape(s[1]) == None then None
    else Prepend(Unescape(s[1]).value, ParseRest(s[2..]))
  }

  function Parse(s: Text): Option<Text> {
    if s == [] || s[0] != QUOTE then None else ParseRest(s[1..])
  }

  // ---- proofs ----

  predicate Free(s: Text, c: Unit) {
    forall i :: 0 <= i < |s| ==> s[i] != c
  }

  predicate Safe(s: Text) {
    forall i :: 0 <= i < |UNSAFE| ==> Free(s, UNSAFE[i])
  }

  lemma Regroup(x: Text, y: Text, z: Text)
    ensures x + (y + z) == (x + y) + z
  {
  }

  lemma {:induction false} ReplaceSplits(a: Text, b: Text, c: Unit, sub: Text)
    ensures ReplaceAll(a + b, c, sub) == ReplaceAll(a, c, sub) + ReplaceAll(b, c, sub)
  {
    if a == [] {
      assert a + b == b;
    } else {
      ReplaceSplits(a[1..], b, c, sub);
      assert (a + b)[1..] == a[1..] + b;
      Regroup(ReplaceUnit(a[0], c, sub), ReplaceAll(a[1..], c, sub), ReplaceAll(b, c, sub));
    }
  }

  lemma {:induction false} ReplacementsSplit(a: Text, b: Text, k: nat)
    requires k <= |UNSAFE|
    ensures Replacements(a + b, k) == Replacements(a, k) + Replacements(b, k)
  {
    if k > 0 {
      ReplacementsSplit(a, b, k - 1);
      ReplaceSplits(Replacements(a, k - 1), Replacements(b, k - 1), UNSAFE[k - 1], UnicodeEscape(UNSAFE[k - 1]));
    }
  }

  lemma {:induction false} NothingToReplace(s: Text, c: Unit, sub: Text)
    requires Free(s, c)
    ensures ReplaceAll(s, c, sub) == s
  {
    if s != [] {
      NothingToReplace(s[1..], c, sub);
    }
  }

  lemma {:induction false} SafeTextStays(s: Text, k: nat)
    requires Safe(s) && k <= |UNSAFE|
    ensures Replacements(s, k) == s
  {
    if k > 0 {
      SafeTextStays(s, k - 1);
      NothingToReplace(s, UNSAFE[k - 1], UnicodeEscape(UNSAFE[k - 1]));
    }
  }

  lemma UnicodeEscapeIsSafe(c: Unit)
    ensures Safe(UnicodeEscape(c))
  {
  }

  lemma ReplaceOne(c: Unit, d: Unit, sub: Text)
    ensures ReplaceAll([c], d, sub) == if c == d then sub else [c]
  {
    assert ReplaceAll([c][1..], d, sub) == [];
    assert sub + [] == sub;
  }

  lemma UnsafeAreDistinct(i: nat, j: nat)
    requires i < |UNSAFE| && j < |UNSAFE| && i != j
    ensures UNSAFE[i] != UNSAFE[j]
  {
  }

  // An unsafe character on its own becomes its escape, whichever replacement gets to it.
  lemma {:induction false} UnsafeBecomesEscape(j: nat, k: nat)
    requires j < |UNSAFE| && k <= |UNSAFE|
    ensures Replacements([UNSAFE[j]], k) == if j < k then UnicodeEscape(UNSAFE[j]) else [UNSAFE[j]]
  {
    if k > 0 {
      UnsafeBecomesEscape(j, k - 1);
      var c, sub := UNSAFE[k - 1], UnicodeEscape(UNSAFE[k - 1]);
      if j < k - 1 {
        UnicodeEscapeIsSafe(UNSAFE[j]);
        NothingToReplace(UnicodeEscape(UNSAFE[j]), c, sub);
      } else {
        ReplaceOne(UNSAFE[j], c, sub);
        if j != k - 1 {
          UnsafeAreDistinct(j, k - 1);
        }
      }
    }
  }

  lemma {:induction false} ReplacedIsFree(s: Text, c: Unit, sub: Text, d: Unit)
    requires Free(sub, d) && (c == d || Free(s, d))
    ensures Free(ReplaceAll(s, c, sub), d)
  {
    if s != [] {
      ReplacedIsFree(s[1..], c, sub, d);
    }
  }

  lemma {:induction false} ReplacementsRemove(s: Text, j: nat, k: nat)
    requires j < k <= |UNSAFE|
    ensures Free(Replacements(s, k), UNSAFE[j])
  {
    UnicodeEscapeIsSafe(UNSAFE[k - 1]);
    if j < k - 1 {
      ReplacementsRemove(s, j, k - 1);
    }
    ReplacedIsFree(Replacements(s, k - 1), UNSAFE[k - 1], UnicodeEscape(UNSAFE[k - 1]), UNSAFE[j]);
  }

  lemma NothingUnsafe(value: Text)
    ensures Safe(JsonForScript(value))
  {
    forall i | 0 <= i < |UNSAFE|
      ensures Free(JsonForScript(value), UNSAFE[i])
    {
      ReplacementsRemove(Stringify(value), i, |UNSAFE|);
    }
  }

  // Nothing in the output can end the script element or a line of it: no "<", ">" or "&", and
  // neither of the two line separators.
  lemma OutputIsSafe(value: Text)
    ensures forall u <- JsonForScript(value) ::
              u != 0x3c && u != 0x3e && u != 0x26 && u != 0x2028 && u != 0x2029
  {
    NothingUnsafe(value);
    assert UNSAFE[0] == 0x3c && UNSAFE[1] == 0x3e && UNSAFE[2] == 0x26 && UNSAFE[3] == 0x2028 && UNSAFE[4] == 0x2029;
    var out := JsonForScript(value);
    assert Free(out, UNSAFE[0]) && Free(out, UNSAFE[1]) && Free(out, UNSAFE[2]);
    assert Free(out, UNSAFE[3]) && Free(out, UNSAFE[4]);
  }

  // No half of a surrogate pair on its own.
  predicate Paired(s: Text) {
    s == [] ||
    if Lead(s[0]) then |s| > 1 && Trail(s[1]) && Paired(s[2..]) else !Trail(s[0]) && Paired(s[1..])
  }

  lemma {:induction false} PairedJoin(a: Text, b: Text)
    requires Paired(a) && Paired(b)
    ensures Paired(a + b)
  {
    if a == [] {
      assert a + b == b;
    } else {
      var n := if Lead(a[0]) then 2 else 1;
      PairedJoin(a[n..], b);
      assert (a + b)[n..] == a[n..] + b;
    }
  }

  lemma {:induction false} PlainIsPaired(s: Text)
    requires forall i :: 0 <= i < |s| ==> !Lead(s[i]) && !Trail(s[i])
    ensures Paired(s)
  {
    if s != [] {
      PlainIsPaired(s[1..]);
    }
  }

  lemma EscapedIsPaired(c: Unit)
    ensures Paired(Escaped(c))
  {
    PlainIsPaired(Escaped(c));
  }

  lemma {:induction false} QuoteIsPaired(s: Text)
    ensures Paired(Quote(s))
  {
    if |s| > 1 && Lead(s[0]) && Trail(s[1]) {
      QuoteIsPaired(s[2..]);
      assert Quote(s)[2..] == Quote(s[2..]);
    } else if s != [] {
      QuoteIsPaired(s[1..]);
      EscapedIsPaired(s[0]);
      PairedJoin(Escaped(s[0]), Quote(s[1..]));
    }
  }

  lemma {:induction false} ReplacedIsPaired(s: Text, c: Unit, sub: Text)
    requires Paired(s) && Paired(sub) && !Lead(c) && !Trail(c)
    ensures Paired(ReplaceAll(s, c, sub))
  {
    if s != [] {
      var n := if Lead(s[0]) then 2 else 1;
      ReplacedIsPaired(s[n..], c, sub);
      var more := ReplaceAll(s[n..], c, sub);
      if n == 2 {
        assert ReplaceAll(s[1..], c, sub) == ReplaceUnit(s[1], c, sub) + ReplaceAll(s[1..][1..], c, sub);
        assert s[1..][1..] == s[2..];
        PairedJoin(s[..2], more);
        assert ReplaceAll(s, c, sub) == s[..2] + more;
      } else {
        PairedJoin(ReplaceUnit(s[0], c, sub), more);
      }
    }
  }

  lemma {:induction false} ReplacementsArePaired(s: Text, k: nat)
    requires Paired(s) && k <= |UNSAFE|
    ensures Paired(Replacements(s, k))
  {
    if k > 0 {
      ReplacementsArePaired(s, k - 1);
      PlainIsPaired(UnicodeEscape(UNSAFE[k - 1]));
      ReplacedIsPaired(Replacements(s, k - 1), UNSAFE[k - 1], UnicodeEscape(UNSAFE[k - 1]));
    }
  }

  // The unit at i is no half of a surrogate pair, or the other half is beside it.
  predicate Whole(s: Text, i: nat)
    requires i < |s|
  {
    && (0xd800 <= s[i] <= 0xdbff ==> i + 1 < |s| && 0xdc00 <= s[i + 1] <= 0xdfff)
    && (0xdc00 <= s[i] <= 0xdfff ==> i > 0 && 0xd800 <= s[i - 1] <= 0xdbff)
  }

  lemma {:induction false} PairedIsWhole(s: Text, i: nat)
    requires Paired(s) && i < |s|
    ensures Whole(s, i)
  {
    var n := if Lead(s[0]) then 2 else 1;
    if i >= n {
      PairedIsWhole(s[n..], i - n);
    }
  }

  // Whatever the value holds, the output is text an encoder accepts: no half of a surrogate pair
  // stands alone in it.
  lemma OutputIsWellFormed(value: Text)
    ensures var out := JsonForScript(value); forall i: nat :: i < |out| ==> Whole(out, i)
  {
    QuoteIsPaired(value);
    PlainIsPaired([QUOTE]);
    PairedJoin([QUOTE], Quote(value));
    PairedJoin([QUOTE] + Quote(value), [QUOTE]);
    ReplacementsArePaired(Stringify(value), |UNSAFE|);
    var out := JsonForScript(value);
    forall i: nat | i < |out|
      ensures Whole(out, i)
    {
      PairedIsWhole(out, i);
    }
  }

  lemma Nibbles(c: int)
    requires 0 <= c < 0x1_0000
    ensures 4096 * (c / 4096) + 256 * (c / 256 % 16) + 16 * (c / 16 % 16) + c % 16 == c
    ensures 0 <= c / 4096 < 16
  {
    assert c / 256 == (c / 16) / 16 && c / 4096 == (c / 256) / 16;
  }

  lemma FourHexReads(a: int, b: int, c: int, d: int)
    requires 0 <= a < 16 && 0 <= b < 16 && 0 <= c < 16 && 0 <= d < 16
    ensures FourHex([HexDigit(a), HexDigit(b), HexDigit(c), HexDigit(d)]) == Some(4096 * a + 256 * b + 16 * c + d)
  {
    HexReads(a);
    HexReads(b);
    HexReads(c);
    HexReads(d);
  }

  lemma FourHexLooksAtFour(s: Text)
    requires |s| >= 4
    ensures FourHex(s) == FourHex([s[0], s[1], s[2], s[3]])
  {
  }

  lemma EscapeReads(c: Unit, tail: Text)
    ensures ParseRest(UnicodeEscape(c) + tail) == Prepend(c, ParseRest(tail))
  {
    var s := UnicodeEscape(c) + tail;
    assert s[6..] == tail;
    FourHexLooksAtFour(s[2..]);
    Nibbles(c);
    FourHexReads(c / 4096, c / 256 % 16, c / 16 % 16, c % 16);
  }

  lemma HexReads(d: int)
    requires 0 <= d < 16
    ensures HexValue(HexDigit(d)) == Some(d)
  {
  }

  lemma EscapedIsSafe(c: Unit)
    requires c !in UNSAFE
    ensures Safe(Escaped(c))
  {
    UnicodeEscapeIsSafe(c);
  }

  // One unit's share of the output reads back as that unit, whatever comes after it.
  lemma UnitReads(c: Unit, tail: Text)
    ensures ParseRest(Replacements(Escaped(c), |UNSAFE|) + tail) == Prepend(c, ParseRest(tail))
  {
    if j :| 0 <= j < |UNSAFE| && UNSAFE[j] == c {
      UnsafeReads(j, tail);
    } else {
      EscapedIsSafe(c);
      SafeTextStays(Escaped(c), |UNSAFE|);
      EscapedReads(c, tail);
    }
  }

  lemma UnsafeReads(j: nat, tail: Text)
    requires j < |UNSAFE|
    ensures ParseRest(Replacements(Escaped(UNSAFE[j]), |UNSAFE|) + tail) == Prepend(UNSAFE[j], ParseRest(tail))
  {
    assert Escaped(UNSAFE[j]) == [UNSAFE[j]];
    UnsafeBecomesEscape(j, |UNSAFE|);
    EscapeReads(UNSAFE[j], tail);
  }

  lemma EscapedReads(c: Unit, tail: Text)
    ensures ParseRest(Escaped(c) + tail) == Prepend(c, ParseRest(tail))
  {
    if Short(c).Some? {
      assert (Escaped(c) + tail)[2..] == tail;
    } else if c < 0x20 || Lead(c) || Trail(c) {
      EscapeReads(c, tail);
    } else {
      assert ([c] + tail)[1..] == tail;
    }
  }

  lemma PairReads(a: Unit, b: Unit, tail: Text)
    requires Lead(a) && Trail(b)
    ensures ParseRest(Replacements([a, b], |UNSAFE|) + tail) == Prepend(a, Prepend(b, ParseRest(tail)))
  {
    SafeTextStays([a, b], |UNSAFE|);
    assert ([a, b] + tail)[1..] == [b] + tail && ([b] + tail)[1..] == tail;
  }

  lemma PieceByPiece(piece: Text, more: Text)
    ensures var k := |UNSAFE|;
      Replacements(piece + more, k) + [QUOTE] == Replacements(piece, k) + (Replacements(more, k) + [QUOTE])
  {
    ReplacementsSplit(piece, more, |UNSAFE|);
  }

  predicate Reads(s: Text) {
    ParseRest(Replacements(Quote(s), |UNSAFE|) + [QUOTE]) == Some(s)
  }

  lemma PairFirst(s: Text)
    requires |s| > 1 && Lead(s[0]) && Trail(s[1]) && Reads(s[2..])
    ensures Reads(s)
  {
    PieceByPiece([s[0], s[1]], Quote(s[2..]));
    PairReads(s[0], s[1], Replacements(Quote(s[2..]), |UNSAFE|) + [QUOTE]);
    assert [s[0]] + ([s[1]] + s[2..]) == s;
  }

  lemma UnitFirst(s: Text)
    requires s != [] && !(|s| > 1 && Lead(s[0]) && Trail(s[1])) && Reads(s[1..])
    ensures Reads(s)
  {
    PieceByPiece(Escaped(s[0]), Quote(s[1..]));
    UnitReads(s[0], Replacements(Quote(s[1..]), |UNSAFE|) + [QUOTE]);
    assert [s[0]] + s[1..] == s;
  }

  lemma {:induction false} QuoteReads(s: Text)
    ensures Reads(s)
  {
    if s == [] {
      SafeTextStays([], |UNSAFE|);
      assert [] + [QUOTE] == [QUOTE];
    } else if |s| > 1 && Lead(s[0]) && Trail(s[1]) {
      QuoteReads(s[2..]);
      PairFirst(s);
    } else {
      QuoteReads(s[1..]);
      UnitFirst(s);
    }
  }

  lemma QuotesStay(value: Text)
    ensures JsonForScript(value) == [QUOTE] + (Replacements(Quote(value), |UNSAFE|) + [QUOTE])
  {
    var k := |UNSAFE|;
    SafeTextStays([QUOTE], k);
    ReplacementsSplit([QUOTE] + Quote(value), [QUOTE], k);
    ReplacementsSplit([QUOTE], Quote(value), k);
    Regroup([QUOTE], Replacements(Quote(value), k), [QUOTE]);
  }

  // The script sees exactly the string that was given, lone surrogates and all.
  lemma RoundTrip(value: Text)
    ensures Parse(JsonForScript(value)) == Some(value)
  {
    var inner := Replacements(Quote(value), |UNSAFE|) + [QUOTE];
    QuotesStay(value);
    QuoteReads(value);
    assert ([QUOTE] + inner)[1..] == inner;
  }
}
