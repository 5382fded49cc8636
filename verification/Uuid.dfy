/** UUID version 7 text (section 5.7 of RFC 9562;
    modules/audit/infrastructure/persistence/uuidv7-audit-event-id-source.ts). */
module Uuid {
  import opened Results
  import opened IntegerMath
  import opened DecimalText
  import opened Strings

  datatype UuidError = NotEnoughRandomBytes

  const TWO_TO_THE_48 := 0x1_0000_0000_0000

  function Pow256(n: nat): (p: nat)
    ensures p > 0
  {
    if n == 0 then 1 else 256 * Pow256(n - 1)
  }

  // ---------------------------------------------------------------------
  // Bytes
  // ---------------------------------------------------------------------

  type byte = x: int | 0 <= x < 256

  /** Byte i of the 48-bit big-endian timestamp: (ms >> 8*(5-i)) & 0xff. */
  function TimestampByte(ms: int, i: nat): byte
    requires i < 6
  {
    (ms / Pow256(5 - i)) % 256
  }

  /** a & b and a | b, bit by bit. */
  function BitAnd(a: nat, b: nat): nat {
    if a == 0 || b == 0 then 0 else (if a % 2 == 1 && b % 2 == 1 then 1 else 0) + 2 * BitAnd(a / 2, b / 2)
  }

  function BitOr(a: nat, b: nat): nat {
    if a == 0 then b else if b == 0 then a
    else (if a % 2 == 1 || b % 2 == 1 then 1 else 0) + 2 * BitOr(a / 2, b / 2)
  }

  lemma AndOdd(a: nat, m: nat)
    ensures BitAnd(a, 2 * m + 1) == a % 2 + 2 * BitAnd(a / 2, m)
  {
    assert (2 * m + 1) / 2 == m && (2 * m + 1) % 2 == 1;
  }

  lemma OrEven(a: nat, m: nat)
    ensures BitOr(a, 2 * m) == a % 2 + 2 * BitOr(a / 2, m)
  {
    assert (2 * m) / 2 == m && (2 * m) % 2 == 0;
  }

  /** A mask of ones keeps the low bits. */
  lemma AndLowBits(a: nat)
    ensures BitAnd(a, 15) == a % 16 && BitAnd(a, 63) == a % 64
  {
    And15(a);
    And63(a);
  }

  lemma And63(a: nat)
    ensures BitAnd(a, 63) == a % 64
  {
    AndOdd(a, 31);
    AndOdd(a / 2, 15);
    And15(a / 2 / 2);
    Mod64(a);
  }

  lemma Mod64(a: nat)
    ensures a % 2 + 2 * (a / 2 % 2 + 2 * (a / 2 / 2 % 16)) == a % 64
  {
  }

  lemma And15(a: nat)
    ensures BitAnd(a, 15) == a % 16
  {
    AndOdd(a, 7);
    AndOdd(a / 2, 3);
    AndOdd(a / 4, 1);
    AndOdd(a / 8, 0);
    assert a / 2 / 2 == a / 4 && a / 4 / 2 == a / 8;
  }

  /** Setting bits above a number adds them. */
  lemma OrHighBits(a: nat)
    ensures a < 16 ==> BitOr(a, 0x70) == a + 0x70
    ensures a < 64 ==> BitOr(a, 0x80) == a + 0x80
  {
    if a < 16 {
      OrFour(a, 7);
    }
    if a < 64 {
      OrEven(a, 64);
      OrEven(a / 2, 32);
      OrFour(a / 4, 2);
      assert a / 2 / 2 == a / 4;
    }
  }

  lemma OrTwo(a: nat, m: nat)
    requires a < 4
    ensures BitOr(a, 4 * m) == a + 4 * m
  {
    OrEven(a, 2 * m);
    OrEven(a / 2, m);
    assert a / 2 / 2 == 0;
  }

  lemma OrFour(a: nat, m: nat)
    requires a < 16
    ensures BitOr(a, 16 * m) == a + 16 * m
  {
    OrEven(a, 8 * m);
    OrEven(a / 2, 4 * m);
    OrTwo(a / 2 / 2, m);
  }

  /** The high four bits become 0111; the low four stay. */
  function WithVersion(b: byte): (v: byte)
    ensures v == 0x70 + b % 16
  {
    AndLowBits(b);
    OrHighBits(b % 16);
    BitOr(BitAnd(b, 0x0f), 0x70)
  }

  /** The high two bits become 10; the low six stay. */
  function WithVariant(b: byte): (v: byte)
    ensures v == 0x80 + b % 64
  {
    AndLowBits(b);
    OrHighBits(b % 64);
    BitOr(BitAnd(b, 0x3f), 0x80)
  }

  function UuidByte(ms: int, random: seq<byte>, i: nat): byte
    requires |random| >= 10 && i < 16
  {
    if i < 6 then TimestampByte(ms, i)
    else if i == 6 then WithVersion(random[0])
    else if i == 8 then WithVariant(random[2])
    else random[i - 6]
  }

  function UuidBytes(ms: int, random: seq<byte>): (b: seq<byte>)
    requires |random| >= 10
    ensures |b| == 16
  {
    seq(16, i requires 0 <= i < 16 => UuidByte(ms, random, i))
  }

  // ---------------------------------------------------------------------
  // Text
  // ---------------------------------------------------------------------

  function HexDigit(d: nat): char
    requires d < 16
  {
    "0123456789abcdef"[d]
  }

  predicate IsHex(c: char) { '0' <= c <= '9' || 'a' <= c <= 'f' }

  function HexValue(c: char): nat
    requires IsHex(c)
  {
    if c <= '9' then c as int - '0' as int else c as int - 'a' as int + 10
  }

  /** n.toString(16) */
  function ToString16(n: nat): string {
    if n < 16 then [HexDigit(n)] else ToString16(n / 16) + [HexDigit(n % 16)]
  }

  /** b.toString(16).padStart(2, '0') */
  function ByteText(b: byte): string {
    PadStart(ToString16(b), 2)
  }

  function HexText(bytes: seq<byte>): string {
    if |bytes| == 0 then "" else HexText(bytes[..|bytes| - 1]) + ByteText(bytes[|bytes| - 1])
  }

  function Dashed(hex: string): string
    requires |hex| == 32
  {
    hex[..8] + "-" + hex[8..12] + "-" + hex[12..16] + "-" + hex[16..20] + "-" + hex[20..]
  }

  predicate IsDash(i: nat) { i == 8 || i == 13 || i == 18 || i == 23 }

  /** Which hexadecimal digit stands at position i of the dashed text. */
  function DigitIndex(i: nat): (j: nat)
    requires i < 36
    ensures !IsDash(i) ==> j < 32
  {
    if i <= 8 then i else if i <= 13 then i - 1 else if i <= 18 then i - 2 else if i <= 23 then i - 3 else i - 4
  }

  /** isUuid: shape only, either case, no version pinned. */
  predicate IsUuidShaped(s: string) {
    |s| == 36 && forall i :: 0 <= i < 36 ==> if IsDash(i) then s[i] == '-' else IsHex(s[i]) || 'A' <= s[i] <= 'F'
  }

  /** Hexadecimal digits of either case. */
  predicate HexGroup(s: string, width: nat) {
    |s| == width && forall i :: 0 <= i < |s| ==> s[i] in "0123456789abcdefABCDEF"
  }

  /** A shaped text is exactly five groups of 8, 4, 4, 4 and 12 hexadecimal digits between
      dashes. */
  lemma ShapeIsFiveGroups(s: string)
    ensures IsUuidShaped(s)
       <==> && |s| == 36 && s[8] == '-' && s[13] == '-' && s[18] == '-' && s[23] == '-'
            && HexGroup(s[..8], 8) && HexGroup(s[9..13], 4) && HexGroup(s[14..18], 4) && HexGroup(s[19..23], 4)
            && HexGroup(s[24..], 12)
  {
    forall c: char ensures c in "0123456789abcdefABCDEF" <==> IsHex(c) || 'A' <= c <= 'F' {
      HexLetters(c);
    }
    if |s| == 36 {
      if HexGroup(s[..8], 8) && HexGroup(s[9..13], 4) && HexGroup(s[14..18], 4) && HexGroup(s[19..23], 4)
          && HexGroup(s[24..], 12) {
        forall i | 0 <= i < 36 && !IsDash(i) ensures s[i] in "0123456789abcdefABCDEF" {
          assert i < 8 ==> s[i] == s[..8][i];
          assert 9 <= i < 13 ==> s[i] == s[9..13][i - 9];
          assert 14 <= i < 18 ==> s[i] == s[14..18][i - 14];
          assert 19 <= i < 23 ==> s[i] == s[19..23][i - 19];
          assert 24 <= i ==> s[i] == s[24..][i - 24];
        }
      }
    }
  }

  lemma HexLetters(c: char)
    ensures c in "0123456789abcdefABCDEF" <==> IsHex(c) || 'A' <= c <= 'F'
  {
    if IsHex(c) {
      assert "0123456789abcdefABCDEF"[HexValue(c)] == c;
    } else if 'A' <= c <= 'F' {
      assert "0123456789abcdefABCDEF"[c as int - 'A' as int + 16] == c;
    }
  }

  lemma DashedPositions(hex: string)
    requires |hex| == 32
    ensures |Dashed(hex)| == 36
    ensures forall i :: 0 <= i < 36 ==> Dashed(hex)[i] == if IsDash(i) then '-' else hex[DigitIndex(i)]
  {}

  method Uuidv7(now: int, random: seq<byte>) returns (result: Result<string, UuidError>)
    ensures result.Err? <==> |random| < 10
    ensures result.Ok? ==> result.value == UuidText(now, random)
  {
    if |random| < 10 {
      return Err(NotEnoughRandomBytes);
    }
    var bytes := new byte[16](_ => 0);
    for i := 0 to 6
      invariant forall k :: 0 <= k < i ==> bytes[k] == TimestampByte(now, k)
    {
      bytes[i] := (now / Pow256(5 - i)) % 256;
    }
    for i := 0 to 10
      invariant forall k :: 0 <= k < 6 ==> bytes[k] == TimestampByte(now, k)
      invariant forall k :: 0 <= k < i ==> bytes[6 + k] == random[k]
    {
      bytes[6 + i] := random[i];
    }
    assert bytes[6] == random[0] && bytes[8] == random[2] by {
      assert bytes[6 + 0] == random[0] && bytes[6 + 2] == random[2];
    }
    bytes[6] := WithVersion(bytes[6]);
    bytes[8] := WithVariant(bytes[8]);
    forall k | 0 <= k < 16 ensures bytes[k] == UuidByte(now, random, k) {
      if k >= 6 && k != 6 && k != 8 {
        assert bytes[6 + (k - 6)] == random[k - 6];
      }
    }
    assert bytes[..] == UuidBytes(now, random);
    var hex := "";
    for i := 0 to 16
      invariant bytes[..] == UuidBytes(now, random)
      invariant hex == HexText(bytes[..i]) && |hex| == 2 * i
    {
      assert bytes[..i + 1][..i] == bytes[..i];
      ByteTextDigits(bytes[i]);
      hex := hex + ByteText(bytes[i]);
    }
    assert bytes[..16] == bytes[..];
    return Ok(hex[..8] + "-" + hex[8..12] + "-" + hex[12..16] + "-" + hex[16..20] + "-" + hex[20..]);
  }

  /** Two digits, the high one first. */
  lemma ByteTextDigits(b: byte)
    ensures ByteText(b) == [HexDigit(b / 16), HexDigit(b % 16)]
  {
    if b < 16 {
      assert Zeros(1) == "0";
    } else {
      assert ToString16(b / 16) == [HexDigit(b / 16)];
    }
  }

  /** Digit j of the text of some bytes. */
  function HexDigitAt(bytes: seq<byte>, j: nat): char
    requires j < 2 * |bytes|
  {
    HexDigit(if j % 2 == 0 then bytes[j / 2] / 16 else bytes[j / 2] % 16)
  }

  lemma {:induction false} HexTextDigits(bytes: seq<byte>)
    ensures |HexText(bytes)| == 2 * |bytes|
    ensures forall j :: 0 <= j < 2 * |bytes| ==> HexText(bytes)[j] == HexDigitAt(bytes, j)
  {
    if |bytes| > 0 {
      var init := bytes[..|bytes| - 1];
      HexTextDigits(init);
      ByteTextDigits(bytes[|bytes| - 1]);
      forall j | 0 <= j < 2 * |bytes| ensures HexText(bytes)[j] == HexDigitAt(bytes, j) {
        if j < 2 * |init| {
          assert HexDigitAt(init, j) == HexDigitAt(bytes, j);
        }
      }
    }
  }

  lemma HexTextIsHex(bytes: seq<byte>)
    ensures AllHex(HexText(bytes))
  {
    HexTextDigits(bytes);
  }

  function UuidText(ms: int, random: seq<byte>): (text: string)
    requires |random| >= 10
    ensures |text| == 36
  {
    HexTextDigits(UuidBytes(ms, random));
    Dashed(HexText(UuidBytes(ms, random)))
  }

  // ---------------------------------------------------------------------
  // The timestamp can be read back
  // ---------------------------------------------------------------------

  predicate AllHex(s: string) { forall i :: 0 <= i < |s| ==> IsHex(s[i]) }

  /** The number a hexadecimal text denotes. */
  function HexNumber(s: string): nat
    requires AllHex(s)
  {
    if |s| == 0 then 0 else 16 * HexNumber(s[..|s| - 1]) + HexValue(s[|s| - 1])
  }

  /** The timestamp's twelve digits, without the dash between them. */
  function TimestampDigits(text: string): (s: string)
    requires |text| == 36
    ensures |s| == 12
  {
    text[..8] + text[9..13]
  }

  lemma HexNumberSnoc(s: string, d: nat)
    requires AllHex(s) && d < 16
    ensures AllHex(s + [HexDigit(d)]) && HexNumber(s + [HexDigit(d)]) == 16 * HexNumber(s) + d
  {
    assert (s + [HexDigit(d)])[..|s|] == s;
  }

  lemma HexNumberOfByte(bytes: seq<byte>, b: byte)
    ensures AllHex(HexText(bytes)) && AllHex(HexText(bytes + [b]))
    ensures HexNumber(HexText(bytes + [b])) == 256 * HexNumber(HexText(bytes)) + b
  {
    HexTextIsHex(bytes);
    assert (bytes + [b])[..|bytes|] == bytes;
    ByteTextDigits(b);
    var s := HexText(bytes) + [HexDigit(b / 16)];
    HexNumberSnoc(HexText(bytes), b / 16);
    HexNumberSnoc(s, b % 16);
    assert HexText(bytes + [b]) == s + [HexDigit(b % 16)];
  }

  /** n bytes from the top of the timestamp are its quotient by the rest. */
  lemma {:induction false} HexNumberOfTimestamp(ms: int, n: nat)
    requires 0 <= ms < TWO_TO_THE_48 && n <= 6
    ensures AllHex(HexText(TimestampBytes(ms)[..n]))
    ensures HexNumber(HexText(TimestampBytes(ms)[..n])) == ms / Pow256(6 - n)
  {
    assert Pow256(6) == TWO_TO_THE_48;
    if n == 0 {
      assert HexText(TimestampBytes(ms)[..0]) == "";
    } else {
      HexNumberOfTimestamp(ms, n - 1);
      assert TimestampBytes(ms)[..n] == TimestampBytes(ms)[..n - 1] + [TimestampByte(ms, n - 1)];
      AppendByte(TimestampBytes(ms)[..n - 1], TimestampByte(ms, n - 1), ms, Pow256(6 - n));
    }
  }

  lemma AppendByte(front: seq<byte>, b: byte, ms: int, d: int)
    requires 0 <= ms && d > 0 && b == (ms / d) % 256
    requires AllHex(HexText(front)) && HexNumber(HexText(front)) == ms / (256 * d)
    ensures AllHex(HexText(front + [b])) && HexNumber(HexText(front + [b])) == ms / d
  {
    HexNumberOfByte(front, b);
    QuotientStep(ms, d);
  }

  function TimestampBytes(ms: int): (b: seq<byte>)
    ensures |b| == 6
  {
    seq(6, i requires 0 <= i < 6 => TimestampByte(ms, i))
  }

  lemma QuotientStep(n: int, d: int)
    requires d > 0
    ensures 256 * (n / (256 * d)) + (n / d) % 256 == n / d
  {
    var q, r := n / d, n % d;
    DivisionIdentity(n, d);
    var q', r' := q / 256, q % 256;
    assert q == 256 * q' + r';
    NestedDivision(n, d, q', r', r);
  }

  lemma NestedDivision(n: int, d: int, q: int, r: int, s: int)
    requires d > 0 && 0 <= r < 256 && 0 <= s < d && n == d * (256 * q + r) + s
    ensures n / (256 * d) == q
  {
    assert n == q * (256 * d) + (d * r + s);
    Products(r, 255, d);
    Products(0, r, d);
    FloorDivision(n, 256 * d, q, d * r + s);
  }

  lemma TimestampWraps(ms: int)
    ensures TimestampBytes(ms) == TimestampBytes(ms % TWO_TO_THE_48)
  {
    forall i | 0 <= i < 6 ensures TimestampByte(ms, i) == TimestampByte(ms % TWO_TO_THE_48, i) {
      Pow256Splits(5 - i);
      ByteWraps(ms, Pow256(5 - i), Pow256(i));
    }
  }

  lemma Pow256Splits(n: nat)
    requires n <= 5
    ensures Pow256(n) * Pow256(5 - n) * 256 == TWO_TO_THE_48
  {
    assert Pow256(1) == 0x100 && Pow256(2) == 0x1_0000;
    assert Pow256(3) == 0x100_0000 && Pow256(4) == 0x1_0000_0000 && Pow256(5) == 0x100_0000_0000;
  }

  lemma ByteWraps(ms: int, d: int, e: int)
    requires d > 0 && d * e * 256 == TWO_TO_THE_48
    ensures (ms / d) % 256 == ((ms % TWO_TO_THE_48) / d) % 256
  {
    var q, t := ms / TWO_TO_THE_48, ms % TWO_TO_THE_48;
    var x, r := t / d, t % d;
    DivisionIdentity(t, d);
    var k := q * e;
    assert ms == q * TWO_TO_THE_48 + t;
    RegroupFactors(q, d, e, k, x, r);
    FloorDivision(ms, d, k * 256 + x, r);
    assert (k * 256 + x) % 256 == x % 256;
  }

  lemma RegroupFactors(q: int, d: int, e: int, k: int, x: int, r: int)
    requires k == q * e
    ensures q * (d * e * 256) + (d * x + r) == (k * 256 + x) * d + r
  {}

  lemma FirstDigitsAreTimestamp(ms: int, random: seq<byte>)
    requires |random| >= 10
    ensures TimestampDigits(UuidText(ms, random)) == HexText(TimestampBytes(ms))
  {
    var bytes, front := UuidBytes(ms, random), TimestampBytes(ms);
    HexTextDigits(bytes);
    HexTextDigits(front);
    var digits := TimestampDigits(UuidText(ms, random));
    forall k | 0 <= k < 12 ensures digits[k] == HexText(front)[k] {
      assert HexDigitAt(bytes, k) == HexDigitAt(front, k);
    }
  }

  /** The first 48 bits of the text are the timestamp. */
  lemma TimestampDecodes(ms: int, random: seq<byte>)
    requires |random| >= 10
    ensures var digits := TimestampDigits(UuidText(ms, random));
            && AllHex(digits)
            && HexNumber(digits) == ms % TWO_TO_THE_48
  {
    var front := TimestampBytes(ms);
    FirstDigitsAreTimestamp(ms, random);
    HexTextDigits(front);
    TimestampWraps(ms);
    HexNumberOfTimestamp(ms % TWO_TO_THE_48, 6);
    assert front[..6] == front;
    assert Pow256(0) == 1;
  }

  // ---------------------------------------------------------------------
  // Time order, fixed bits, injectivity
  // ---------------------------------------------------------------------

  /** Texts of one length denoting different numbers first differ at a smaller digit. */
  lemma {:induction false} SmallerNumberFirstDifference(s: string, t: string) returns (k: nat)
    requires AllHex(s) && AllHex(t) && |s| == |t| && HexNumber(s) < HexNumber(t)
    ensures k < |s| && s[..k] == t[..k] && s[k] < t[k]
  {
    var last := |s| - 1;
    var s', t' := s[..last], t[..last];
    if HexNumber(s') < HexNumber(t') {
      k := SmallerNumberFirstDifference(s', t');
      assert s[..k] == s'[..k] && t[..k] == t'[..k];
    } else {
      SameNumberSameText(s', t');
      k := last;
    }
  }

  lemma {:induction false} SameNumberSameText(s: string, t: string)
    requires AllHex(s) && AllHex(t) && |s| == |t| && HexNumber(s) == HexNumber(t)
    ensures s == t
  {
    if |s| > 0 {
      var last := |s| - 1;
      SameNumberSameText(s[..last], t[..last]);
      assert s == s[..last] + [s[last]] && t == t[..last] + [t[last]];
    }
  }

  /** The fixed parts: dashes, the version digit 7 and a variant digit 8, 9, a or b. */
  lemma FixedPositions(ms: int, random: seq<byte>)
    requires |random| >= 10
    ensures var text := UuidText(ms, random);
            && (forall i :: 0 <= i < 36 ==> if IsDash(i) then text[i] == '-' else IsHex(text[i]))
            && text[14] == '7'
            && text[19] in "89ab"
  {
    var bytes := UuidBytes(ms, random);
    HexTextDigits(bytes);
    HexTextIsHex(bytes);
    DashedPositions(HexText(bytes));
    assert HexText(bytes)[12] == HexDigitAt(bytes, 12);
    assert HexText(bytes)[16] == HexDigitAt(bytes, 16);
    assert bytes[6] == WithVersion(random[0]) && bytes[8] == WithVariant(random[2]);
    VariantDigit(bytes[8]);
  }

  lemma VariantDigit(b: byte)
    requires 0x80 <= b < 0xc0
    ensures HexDigit(b / 16) in "89ab"
  {
    var d := b / 16;
    assert d == 8 || d == 9 || d == 10 || d == 11;
  }

  /** Identifiers sort by time: a later millisecond gives a lexicographically
      larger text, whatever the random bytes. */
  lemma TextKeepsTimeOrder(ms1: int, random1: seq<byte>, ms2: int, random2: seq<byte>)
    requires 0 <= ms1 < ms2 < TWO_TO_THE_48
    requires |random1| >= 10 && |random2| >= 10
    ensures Less(UuidText(ms1, random1), UuidText(ms2, random2))
  {
    var s, t := UuidText(ms1, random1), UuidText(ms2, random2);
    TimestampDecodes(ms1, random1);
    TimestampDecodes(ms2, random2);
    var k := SmallerNumberFirstDifference(TimestampDigits(s), TimestampDigits(t));
    var at := if k < 8 then k else k + 1;
    FixedPositions(ms1, random1);
    FixedPositions(ms2, random2);
    forall i | 0 <= i < at ensures s[i] == t[i] {
      if i != 8 {
        var j := if i < 8 then i else i - 1;
        assert TimestampDigits(s)[..k][j] == TimestampDigits(t)[..k][j];
        assert s[i] == TimestampDigits(s)[j] && t[i] == TimestampDigits(t)[j];
      }
    }
    assert s[..at] == t[..at];
    FirstDifferenceDecides(s, t, at);
  }

  /** The 74 random bits that the version and variant masks leave alone. */
  predicate SameRandomBits(r: seq<byte>, s: seq<byte>)
    requires |r| >= 10 && |s| >= 10
  {
    && r[0] % 16 == s[0] % 16 && r[1] == s[1] && r[2] % 64 == s[2] % 64
    && (forall i :: 3 <= i < 10 ==> r[i] == s[i])
  }

  lemma DashedIsInjective(a: string, b: string)
    requires |a| == |b| == 32 && Dashed(a) == Dashed(b)
    ensures a == b
  {
    DashedPositions(a);
    DashedPositions(b);
    forall j | 0 <= j < 32 ensures a[j] == b[j] {
      var i := if j < 8 then j else if j < 12 then j + 1 else if j < 16 then j + 2 else if j < 20 then j + 3 else j + 4;
      assert DigitIndex(i) == j && !IsDash(i);
    }
  }

  lemma HexTextIsInjective(a: seq<byte>, b: seq<byte>)
    requires |a| == |b| && HexText(a) == HexText(b)
    ensures a == b
  {
    HexTextDigits(a);
    HexTextDigits(b);
    forall i | 0 <= i < |a| ensures a[i] == b[i] {
      DigitsOfByte(a, i);
      DigitsOfByte(b, i);
      SameByte(a[i], b[i]);
    }
  }

  lemma DigitsOfByte(a: seq<byte>, i: nat)
    requires i < |a|
    ensures HexDigitAt(a, 2 * i) == HexDigit(a[i] / 16) && HexDigitAt(a, 2 * i + 1) == HexDigit(a[i] % 16)
  {
    assert (2 * i) / 2 == i && (2 * i) % 2 == 0 && (2 * i + 1) / 2 == i && (2 * i + 1) % 2 == 1;
  }

  lemma SameByte(a: byte, b: byte)
    requires HexDigit(a / 16) == HexDigit(b / 16)
    requires HexDigit(a % 16) == HexDigit(b % 16)
    ensures a == b
  {
    HexDigitIsInjective(a / 16, b / 16);
    HexDigitIsInjective(a % 16, b % 16);
  }

  lemma HexDigitIsInjective(d: nat, e: nat)
    requires d < 16 && e < 16 && HexDigit(d) == HexDigit(e)
    ensures d == e
  {
    assert HexValue(HexDigit(d)) == d && HexValue(HexDigit(e)) == e;
  }

  /** Two identifiers collide exactly when they agree on the 48 timestamp bits and
      on all 74 random bits. */
  lemma TextIsInjective(ms1: int, random1: seq<byte>, ms2: int, random2: seq<byte>)
    requires |random1| >= 10 && |random2| >= 10
    ensures UuidText(ms1, random1) == UuidText(ms2, random2)
       <==> ms1 % TWO_TO_THE_48 == ms2 % TWO_TO_THE_48 && SameRandomBits(random1, random2)
  {
    var a, b := UuidBytes(ms1, random1), UuidBytes(ms2, random2);
    if UuidText(ms1, random1) == UuidText(ms2, random2) {
      TimestampDecodes(ms1, random1);
      TimestampDecodes(ms2, random2);
      HexTextDigits(a);
      HexTextDigits(b);
      DashedIsInjective(HexText(a), HexText(b));
      HexTextIsInjective(a, b);
      assert a[6] == b[6] && a[7] == b[7] && a[8] == b[8];
      forall i | 3 <= i < 10 ensures random1[i] == random2[i] {
        assert a[i + 6] == b[i + 6];
      }
    }
    if ms1 % TWO_TO_THE_48 == ms2 % TWO_TO_THE_48 && SameRandomBits(random1, random2) {
      TimestampWraps(ms1);
      TimestampWraps(ms2);
      forall i | 0 <= i < 16 ensures a[i] == b[i] {
        if i < 6 {
          assert TimestampBytes(ms1)[i] == TimestampBytes(ms2)[i];
        }
      }
      assert a == b;
    }
  }
}
