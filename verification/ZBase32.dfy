/**
The text form of package checksums: the base-32 digits, least significant first, of the number that
the digest's bytes spell in little-endian order.
*/
module ZBase32 {

  type Byte = n: nat | n < 256

  function Alphabet(): (symbols: string)
    ensures |symbols| == 32
  {
    "ybndrfg8ejkmcpqxot1uwisza345h769"
  }

  /** The symbol of the five lowest bits. */
  function Symbol(value: nat): char {
    Alphabet()[value % 32]
  }

  // ---------------------------------------------------------------- the encoding as arithmetic

  /** The number with these digits, least significant first. */
  function Number(radix: nat, digits: seq<nat>): nat {
    if digits == [] then 0 else digits[0] + radix * Number(radix, digits[1..])
  }

  function Digit(n: nat, i: nat): (d: nat)
    ensures d < 32
  {
    if i == 0 then n % 32 else Digit(n / 32, i - 1)
  }

  function DigitCount(bytes: nat): nat {
    (8 * bytes + 4) / 5
  }

  function Encode(digest: seq<Byte>): string {
    seq(DigitCount(|digest|), i requires 0 <= i => Symbol(Digit(Number(256, digest), i)))
  }

  // ---------------------------------------------------------------- numbers and their digits

  function Power(radix: nat, n: nat): nat {
    if n == 0 then 1 else radix * Power(radix, n - 1)
  }

  lemma {:induction false} NumberOfMore(radix: nat, digits: seq<nat>, d: nat)
    ensures Number(radix, digits + [d]) == Number(radix, digits) + d * Power(radix, |digits|)
  {
    if digits != [] {
      var rest := digits[1..];
      NumberOfMore(radix, rest, d);
      assert (digits + [d])[1..] == rest + [d];
      Distribute(radix, Number(radix, rest), d, Power(radix, |rest|));
    } else {
      assert [d][1..] == [];
    }
  }

  lemma Distribute(r: nat, a: nat, d: nat, p: nat)
    ensures r * (a + d * p) == r * a + d * (r * p)
  {
  }

  ghost predicate IsDigits(radix: nat, digits: seq<nat>) {
    forall i :: 0 <= i < |digits| ==> digits[i] < radix
  }

  lemma {:induction false} DigitsOfNumber(digits: seq<nat>, i: nat)
    requires IsDigits(32, digits) && i < |digits|
    ensures Digit(Number(32, digits), i) == digits[i]
    decreases i
  {
    if i > 0 {
      DigitsOfNumber(digits[1..], i - 1);
    }
  }

  /** A number determines its digits, in any radix, once their count is known. */
  lemma {:induction false} NumberIsInjective(radix: nat, a: seq<nat>, b: seq<nat>)
    requires radix > 0 && IsDigits(radix, a) && IsDigits(radix, b) && |a| == |b|
    requires Number(radix, a) == Number(radix, b)
    ensures a == b
  {
    if a != [] {
      var x, y := Number(radix, a[1..]), Number(radix, b[1..]);
      LowDigit(radix, a[0], x, b[0], y);
      NumberIsInjective(radix, a[1..], b[1..]);
      assert a == [a[0]] + a[1..] && b == [b[0]] + b[1..];
    }
  }

  lemma LowDigit(radix: nat, d: nat, x: nat, e: nat, y: nat)
    requires d < radix && e < radix && d + radix * x == e + radix * y
    ensures d == e && x == y
  {
    Below(radix, d, x, y);
    Below(radix, e, y, x);
  }

  lemma Below(radix: nat, d: nat, x: nat, y: nat)
    requires d < radix
    ensures x < y ==> d + radix * x < radix * y
  {
    if x < y {
      assert radix * (x + 1) == radix * x + radix;
      Monotone(radix, x + 1, y);
    }
  }

  lemma {:induction false} Monotone(radix: nat, x: nat, y: nat)
    requires x <= y
    ensures radix * x <= radix * y
    decreases y
  {
    if x < y {
      Monotone(radix, x, y - 1);
      assert radix * y == radix * (y - 1) + radix;
    }
  }

  // ---------------------------------------------------------------- the encoder

  /** Bitwise or. */
  function Or(a: nat, b: nat): nat {
    if a == 0 && b == 0 then 0
    else (if a % 2 == 1 || b % 2 == 1 then 1 else 0) + 2 * Or(a / 2, b / 2)
  }

  lemma {:induction false} OrWithZero(b: nat)
    ensures Or(0, b) == b
  {
    if b > 0 {
      OrWithZero(b / 2);
    }
  }

  /** Or adds when no bit is set on both sides. */
  lemma {:induction false} OrAdds(k: nat, low: nat, high: nat)
    requires low < Power(2, k)
    ensures Or(low, high * Power(2, k)) == low + high * Power(2, k)
    decreases k
  {
    if k == 0 {
      OrWithZero(high);
    } else {
      var p := Power(2, k - 1);
      assert high * Power(2, k) == 2 * (high * p);
      OrAdds(k - 1, low / 2, high);
    }
  }

  /** What a value with so many carried bits means: the digits so far, and the carry above them. */
  ghost predicate Spells(digest: seq<Byte>, i: nat, digits: seq<nat>, remain: int, carried: nat) {
    && i <= |digest| && IsDigits(32, digits)
    && 0 <= remain < carried
    && Power(256, i) == Power(32, |digits|) * carried
    && Number(256, digest[..i]) == Number(32, digits) + remain * Power(32, |digits|)
  }

  /** One more byte above the carry, and the lowest digit moved to the output. */
  lemma SpellsByte(digest: seq<Byte>, i: nat, digits: seq<nat>, remain: nat, carried: nat)
    requires Spells(digest, i, digits, remain, carried) && i < |digest|
    ensures var value := remain + digest[i] * carried;
      Spells(digest, i + 1, digits + [value % 32], value / 32, 8 * carried)
  {
    var next := 8 * carried;
    var value := remain + digest[i] * carried;
    var p := Power(32, |digits|);
    assert digest[..i + 1] == digest[..i] + [digest[i]];
    NumberOfMore(256, digest[..i], digest[i]);
    NumberOfMore(32, digits, value % 32);
    OneStep(remain, digest[i], carried, p, value, next);
    assert Power(256, i + 1) == 256 * (p * carried);
    PowersStep(p, carried, next);
    Bound(remain, carried, digest[i], next);
  }

  lemma OneStep(remain: nat, b: nat, carried: nat, p: nat, value: nat, next: nat)
    requires value == remain + b * carried
    ensures remain * p + b * (p * carried) == value % 32 * p + value / 32 * (32 * p)
  {
    assert b * (p * carried) == b * carried * p;
    assert remain * p + b * carried * p == value * p;
    assert value == value % 32 + 32 * (value / 32);
    var q := value / 32;
    assert (value % 32 + 32 * q) * p == value % 32 * p + q * (32 * p);
  }

  lemma PowersStep(p: nat, carried: nat, next: nat)
    requires 32 * next == 256 * carried
    ensures 256 * (p * carried) == 32 * p * next
  {
    assert 256 * (p * carried) == p * (256 * carried);
    assert 32 * p * next == p * (32 * next);
  }

  lemma Bound(remain: nat, carried: nat, b: nat, next: nat)
    requires remain < carried && b < 256 && 32 * next == 256 * carried
    ensures (remain + b * carried) / 32 < next
  {
    assert b * carried <= 255 * carried;
  }

  /** A digit moved from the carry to the output. */
  lemma SpellsShift(digest: seq<Byte>, i: nat, digits: seq<nat>, remain: nat, carried: nat, next: nat)
    requires Spells(digest, i, digits, remain, carried) && carried == 32 * next
    ensures Spells(digest, i, digits + [remain % 32], remain / 32, next)
  {
    var p := Power(32, |digits|);
    NumberOfMore(32, digits, remain % 32);
    OneStep(remain, 0, carried, p, remain, next);
    assert p * (32 * next) == 32 * p * next;
  }

  /** One more than the largest carry after so many bytes of a group of five. */
  function Carried(position: nat): nat {
    match position case 0 => 1 case 1 => 8 case 2 => 2 case 3 => 16 case _ => 4
  }

  /** How many places the next byte is shifted above the carry. */
  lemma OrShifted(remain: nat, byte: Byte)
    ensures remain < 8 ==> Or(remain, byte * 8) == remain + byte * 8
    ensures remain < 2 ==> Or(remain, byte * 2) == remain + byte * 2
    ensures remain < 16 ==> Or(remain, byte * 16) == remain + byte * 16
    ensures remain < 4 ==> Or(remain, byte * 4) == remain + byte * 4
  {
    hide Or;
    assert Power(2, 0) == 1 && Power(2, 1) == 2 && Power(2, 2) == 4 && Power(2, 3) == 8 && Power(2, 4) == 16;
    if remain < 8 { OrAdds(3, remain, byte); }
    if remain < 2 { OrAdds(1, remain, byte); }
    if remain < 16 { OrAdds(4, remain, byte); }
    if remain < 4 { OrAdds(2, remain, byte); }
  }

  /** Whether byte i adds a single digit; otherwise it adds two. */
  predicate FillsOne(i: nat) {
    i % 5 == 0 || i % 5 == 2
  }

  /** The digits after one more byte of the group, and the carry they leave. */
  lemma SpellsGroup(digest: seq<Byte>, i: nat, digits: seq<nat>, remain: nat, value: nat)
    requires i < |digest| && Spells(digest, i, digits, remain, Carried(i % 5))
    requires value == remain + digest[i] * Carried(i % 5)
    ensures FillsOne(i) ==> Spells(digest, i + 1, digits + [value % 32], value / 32, Carried((i + 1) % 5))
    ensures !FillsOne(i) ==>
      Spells(digest, i + 1, digits + [value % 32] + [value / 32 % 32], value / 32 / 32, Carried((i + 1) % 5))
  {
    SpellsByte(digest, i, digits, remain, Carried(i % 5));
    hide Spells;
    if !FillsOne(i) {
      SpellsShift(digest, i + 1, digits + [value % 32], value / 32, 8 * Carried(i % 5), Carried((i + 1) % 5));
    }
  }

  lemma CarryBound(digest: seq<Byte>, i: nat, digits: seq<nat>, remain: nat)
    requires Spells(digest, i, digits, remain, Carried(i % 5))
    ensures remain < Carried(i % 5)
  {
  }

  lemma CarryBounds()
    ensures Carried(0) == 1 && Carried(1) == 8 && Carried(2) == 2 && Carried(3) == 16 && Carried(4) == 4
  {
  }

  lemma SpellsNothing(digest: seq<Byte>)
    ensures Spells(digest, 0, [], 0, Carried(0)) && Writes([], [])
  {
    assert digest[..0] == [];
  }

  /** The digits that so many bytes fill completely. */
  function Filled(bytes: nat): nat {
    8 * bytes / 5
  }

  lemma FilledInGroups(q: nat, r: nat)
    requires r < 5
    ensures Filled(5 * q + r) == 8 * q + 8 * r / 5
    ensures DigitCount(5 * q + r) == 8 * q + (8 * r + 4) / 5
  {
    assert 8 * (5 * q + r) == 5 * (8 * q) + 8 * r;
  }

  lemma CountDigits(bytes: nat)
    ensures DigitCount(bytes) == Filled(bytes) + if bytes % 5 == 0 then 0 else 1
    ensures Filled(bytes + 1) == Filled(bytes) + if FillsOne(bytes) then 1 else 2
  {
    hide Filled, DigitCount;
    var q, r := bytes / 5, bytes % 5;
    assert bytes == 5 * q + r;
    FilledInGroups(q, r);
    if r < 4 {
      FilledInGroups(q, r + 1);
    } else {
      FilledInGroups(q + 1, 0);
    }
  }

  lemma EncodeIsDigits(digest: seq<Byte>, digits: seq<nat>, text: string)
    requires IsDigits(32, digits) && |digits| == DigitCount(|digest|) && Number(32, digits) == Number(256, digest)
    requires |text| == |digits| && forall k :: 0 <= k < |digits| ==> text[k] == Symbol(digits[k])
    ensures text == Encode(digest)
  {
    hide Number, Digit, Symbol;
    forall k | 0 <= k < |digits|
      ensures text[k] == Encode(digest)[k]
    {
      DigitsOfNumber(digits, k);
    }
  }

  /** After the last byte, the digits and a last carry are the whole encoding. */
  lemma SpellsAll(digest: seq<Byte>, digits: seq<nat>, remain: nat, output: string)
    requires Spells(digest, |digest|, digits, remain, Carried(|digest| % 5)) && Writes(output, digits)
    requires |digits| == Filled(|digest|)
    ensures (if |digest| % 5 == 0 then output else output + [Symbol(remain)]) == Encode(digest)
  {
    assert digest[..|digest|] == digest;
    hide Number, Power, Symbol;
    CountDigits(|digest|);
    if |digest| % 5 == 0 {
      EncodeIsDigits(digest, digits, output);
    } else {
      NumberOfMore(32, digits, remain);
      EncodeIsDigits(digest, digits + [remain], output + [Symbol(remain)]);
    }
  }

  ghost predicate Writes(output: string, digits: seq<nat>) {
    |output| == |digits| && forall k :: 0 <= k < |digits| ==> output[k] == Symbol(digits[k])
  }

  lemma DivideTwice(value: nat)
    ensures value / 32 / 32 == value / 1024
  {
  }

  lemma WritesMore(output: string, digits: seq<nat>, value: nat)
    requires Writes(output, digits)
    ensures Writes(output + [Symbol(value)], digits + [value % 32])
    ensures Writes(output + [Symbol(value), Symbol(value / 32)], digits + [value % 32] + [value / 32 % 32])
  {
    assert Symbol(value % 32) == Symbol(value) && Symbol(value / 32 % 32) == Symbol(value / 32) by {
      SymbolOfDigit(value);
      SymbolOfDigit(value / 32);
    }
    hide Symbol;
    var one := output + [Symbol(value)];
    assert Writes(one, digits + [value % 32]);
    assert output + [Symbol(value), Symbol(value / 32)] == one + [Symbol(value / 32)];
  }

  lemma SymbolOfDigit(value: nat)
    ensures Symbol(value % 32) == Symbol(value)
  {
    hide Alphabet;
  }

  /** The output so far and the carry, minus one between groups, mean the bytes read so far. */
  ghost predicate Encodes(digest: seq<Byte>, i: nat, output: string, remain: int) {
    exists digits: seq<nat>, carry: nat :: EncodesAs(digest, i, output, remain, digits, carry)
  }

  ghost predicate EncodesAs(digest: seq<Byte>, i: nat, output: string, remain: int, digits: seq<nat>, carry: nat) {
    && (if i % 5 == 0 then remain == -1 && carry == 0 else remain == carry)
    && Spells(digest, i, digits, carry, Carried(i % 5))
    && Writes(output, digits) && |digits| == Filled(i)
  }

  /** What one byte adds: one digit or two, and the carry that is left. */
  lemma EncodesByte(digest: seq<Byte>, i: nat, output: string, remain: int) returns (value: nat)
    requires i < |digest| && Encodes(digest, i, output, remain)
    ensures i % 5 != 0 ==> 0 <= remain < Carried(i % 5)
    ensures value == (if i % 5 == 0 then 0 else remain) + digest[i] * Carried(i % 5)
    ensures FillsOne(i) ==> Encodes(digest, i + 1, output + [Symbol(value)], value / 32)
    ensures !FillsOne(i) ==>
      Encodes(digest, i + 1, output + [Symbol(value), Symbol(value / 32)], if i % 5 == 4 then -1 else value / 1024)
    ensures i % 5 == 3 ==> value / 1024 < 4
  {
    hide Spells, Writes, Symbol, Carried, Filled;
    var digits: seq<nat>, carry: nat :| EncodesAs(digest, i, output, remain, digits, carry);
    value := carry + digest[i] * Carried(i % 5);
    CarryBound(digest, i, digits, carry);
    SpellsGroup(digest, i, digits, carry, value);
    WritesMore(output, digits, value);
    CountDigits(i);
    if FillsOne(i) {
      EncodesOne(digest, i, output + [Symbol(value)], digits + [value % 32], value / 32);
    } else {
      DivideTwice(value);
      EncodesTwo(digest, i, output + [Symbol(value), Symbol(value / 32)],
                 digits + [value % 32] + [value / 32 % 32], value / 1024);
    }
  }

  lemma EncodesOne(digest: seq<Byte>, i: nat, output: string, digits: seq<nat>, carry: nat)
    requires FillsOne(i) && Spells(digest, i + 1, digits, carry, Carried((i + 1) % 5))
    requires Writes(output, digits) && |digits| == Filled(i + 1)
    ensures Encodes(digest, i + 1, output, carry)
  {
    hide Spells, Writes, Filled, Carried;
    assert EncodesAs(digest, i + 1, output, carry, digits, carry);
  }

  lemma EncodesTwo(digest: seq<Byte>, i: nat, output: string, digits: seq<nat>, carry: nat)
    requires !FillsOne(i) && Spells(digest, i + 1, digits, carry, Carried((i + 1) % 5))
    requires Writes(output, digits) && |digits| == Filled(i + 1)
    ensures Encodes(digest, i + 1, output, if i % 5 == 4 then -1 else carry)
    ensures i % 5 == 3 ==> carry < 4
  {
    CarryBound(digest, i + 1, digits, carry);
    CarryBounds();
    hide Spells, Writes, Filled, Carried;
    assert EncodesAs(digest, i + 1, output, if i % 5 == 4 then -1 else carry, digits, carry);
  }

  lemma EncodesAll(digest: seq<Byte>, output: string, remain: int)
    requires Encodes(digest, |digest|, output, remain)
    ensures remain >= 0 <==> |digest| % 5 != 0
    ensures (if remain < 0 then output else output + [Symbol(remain)]) == Encode(digest)
  {
    hide Spells, Writes, Symbol, Carried, Filled;
    var digits: seq<nat>, carry: nat :| EncodesAs(digest, |digest|, output, remain, digits, carry);
    SpellsAll(digest, digits, carry, output);
  }

  method Zbase32(digest: seq<Byte>) returns (text: string)
    ensures text == Encode(digest)
  {
    hide Encodes, Or, Symbol, Encode;
    var output: string := [];
    var remain: int := -1;
    EncodesNothing(digest);
    for index := 0 to |digest|
      invariant Encodes(digest, index, output, remain)
    {
      var byte: nat := digest[index];
      var position := index % 5;
      ghost var whole := EncodesByte(digest, index, output, remain);
      OrShifted(if position == 0 then 0 else remain, byte);
      if position == 0 {
        var value: nat := byte;
        remain := byte / 32;
        output := output + [Symbol(value)];
      } else if position == 1 {
        var value: nat := Or(remain, byte * 8);
        output := output + [Symbol(value), Symbol(value / 32)];
        remain := value / 1024;
      } else if position == 2 {
        var value: nat := Or(remain, byte * 2);
        output := output + [Symbol(value)];
        remain := value / 32;
      } else if position == 3 {
        var value: nat := Or(remain, byte * 16);
        output := output + [Symbol(value), Symbol(value / 32)];
        remain := value / 1024 % 4;
      } else {
        var value: nat := Or(remain, byte * 4);
        output := output + [Symbol(value), Symbol(value / 32)];
        remain := -1;
      }
    }
    EncodesAll(digest, output, remain);
    if remain >= 0 {
      output := output + [Symbol(remain)];
    }
    text := output;
  }

  lemma EncodesNothing(digest: seq<Byte>)
    ensures Encodes(digest, 0, [], -1)
  {
    SpellsNothing(digest);
    assert Filled(0) == 0 by { FilledInGroups(0, 0); }
    assert EncodesAs(digest, 0, [], -1, [], 0);
  }

  // ---------------------------------------------------------------- the way back

  /** The digit that a symbol stands for. */
  function Rank(symbol: char): nat {
    match symbol
    case 'y' => 0 case 'b' => 1 case 'n' => 2 case 'd' => 3
    case 'r' => 4 case 'f' => 5 case 'g' => 6 case '8' => 7
    case 'e' => 8 case 'j' => 9 case 'k' => 10 case 'm' => 11
    case 'c' => 12 case 'p' => 13 case 'q' => 14 case 'x' => 15
    case 'o' => 16 case 't' => 17 case '1' => 18 case 'u' => 19
    case 'w' => 20 case 'i' => 21 case 's' => 22 case 'z' => 23
    case 'a' => 24 case '3' => 25 case '4' => 26 case '5' => 27
    case 'h' => 28 case '7' => 29 case '6' => 30 case _ => 31
  }

  lemma RankOfSymbol(digit: nat)
    requires digit < 32
    ensures Rank(Symbol(digit)) == digit
  {
  }

  function Values(text: string): seq<nat> {
    seq(|text|, i requires 0 <= i < |text| => Rank(text[i]))
  }

  function Bytes(n: nat, count: nat): seq<Byte> {
    if count == 0 then [] else [n % 256] + Bytes(n / 256, count - 1)
  }

  /** The bytes that a text stands for. */
  function Decode(text: string): seq<Byte> {
    Bytes(Number(32, Values(text)), 5 * |text| / 8)
  }

  lemma {:induction false} BytesOfNumber(digest: seq<Byte>)
    ensures Bytes(Number(256, digest), |digest|) == digest
  {
    if digest != [] {
      BytesOfNumber(digest[1..]);
    }
  }

  lemma {:induction false} DigitsUpTo(digest: seq<Byte>, i: nat) returns (digits: seq<nat>, carry: nat)
    requires i <= |digest|
    ensures Spells(digest, i, digits, carry, Carried(i % 5)) && |digits| == Filled(i)
    decreases i
  {
    hide Spells, Carried, Filled, FillsOne;
    if i == 0 {
      digits, carry := [], 0;
      SpellsNothing(digest);
      FilledInGroups(0, 0);
    } else {
      digits, carry := DigitsUpTo(digest, i - 1);
      var value := carry + digest[i - 1] * Carried((i - 1) % 5);
      SpellsGroup(digest, i - 1, digits, carry, value);
      CountDigits(i - 1);
      if FillsOne(i - 1) {
        digits, carry := digits + [value % 32], value / 32;
      } else {
        digits, carry := digits + [value % 32] + [value / 32 % 32], value / 32 / 32;
      }
    }
  }

  lemma DigitsOf(digest: seq<Byte>) returns (digits: seq<nat>)
    ensures IsDigits(32, digits) && |digits| == DigitCount(|digest|) && Number(32, digits) == Number(256, digest)
  {
    var front, carry := DigitsUpTo(digest, |digest|);
    hide Number, Filled, Power;
    assert digest[..|digest|] == digest;
    CountDigits(|digest|);
    NumberOfMore(32, front, carry);
    digits := if |digest| % 5 == 0 then front else front + [carry];
  }

  /** The encoded digits spell the number of the bytes, with none missing. */
  lemma EncodedValues(digest: seq<Byte>)
    ensures |Encode(digest)| == DigitCount(|digest|)
    ensures Number(32, Values(Encode(digest))) == Number(256, digest)
  {
    var digits := DigitsOf(digest);
    hide Number, Digit, Rank, Symbol, DigitCount;
    forall i | 0 <= i < |digits|
      ensures Values(Encode(digest))[i] == digits[i]
    {
      DigitsOfNumber(digits, i);
      RankOfSymbol(digits[i]);
    }
    assert Values(Encode(digest)) == digits;
  }

  /** The encoding loses nothing: the text alone gives the bytes back. */
  lemma DecodeEncode(digest: seq<Byte>)
    ensures Decode(Encode(digest)) == digest
  {
    hide Number, Encode, Bytes, Values;
    EncodedValues(digest);
    BytesOfNumber(digest);
    assert 5 * DigitCount(|digest|) / 8 == |digest|;
  }

  lemma EncodeIsInjective(a: seq<Byte>, b: seq<Byte>)
    ensures Encode(a) == Encode(b) ==> a == b
  {
    DecodeEncode(a);
    DecodeEncode(b);
  }
}

/** Package checksums of a signed catalogue: their syntax, and that a digest's own text always has it. */
module Checksums {
  import opened Hex
  import opened Wrappers
  import opened ZBase32

  datatype Failure = InvalidChecksum

  function Position(symbols: string, c: char): nat {
    if symbols == "" || symbols[0] == c then 0 else 1 + Position(symbols[1..], c)
  }

  function Count(text: string, c: char): nat {
    if text == "" then 0 else (if text[0] == c then 1 else 0) + Count(text[1..], c)
  }

  function Length(checksumType: nat): nat
    requires checksumType in {0, 1, 2, 5}
  {
    if checksumType == 1 then 64 else if checksumType == 2 then 103 else 52
  }

  /** The type and the digest text of a checksum; without a type it is a legacy SHA-256. */
  function ParseChecksum(value: string): Result<(nat, string), Failure> {
    if '$' !in value then
      if |value| == 64 && IsHex(value) then Ok((1, value)) else Err(InvalidChecksum)
    else if Count(value, '$') != 1 then Err(InvalidChecksum)
    else
      var at := Position(value, '$');
      if at >= |value| then Err(InvalidChecksum) else
      var typeText, digest := value[..at], value[at + 1..];
      if typeText !in ["0", "1", "2", "5"] then Err(InvalidChecksum) else
      var checksumType := typeText[0] as nat - '0' as nat;
      if checksumType !in {0, 1, 2, 5} || |digest| != Length(checksumType) then Err(InvalidChecksum)
      else if checksumType == 1 then
        if IsHex(digest) then Ok((1, digest)) else Err(InvalidChecksum)
      else if exists i :: 0 <= i < |digest| && digest[i] !in Alphabet() then Err(InvalidChecksum)
      else Ok((checksumType, digest))
  }

  /** The hash that a checksum type names gives so many bytes. */
  function HashLength(checksumType: nat): nat {
    if checksumType == 2 then 64 else 32
  }

  function TypeText(checksumType: nat): string
    requires checksumType < 10
  {
    [(checksumType + '0' as nat) as char]
  }

  lemma {:induction false} CountOfNone(text: string, c: char)
    requires c !in text
    ensures Count(text, c) == 0
  {
    if text != "" {
      CountOfNone(text[1..], c);
    }
  }

  lemma EncodedSymbols(digest: seq<Byte>)
    ensures forall i :: 0 <= i < |Encode(digest)| ==> Encode(digest)[i] in Alphabet()
    ensures '$' !in Encode(digest)
  {
    hide Number, Digit;
    assert '$' !in Alphabet();
  }

  /** The text that the encoder gives for a digest of any non-hexadecimal type parses as that type and that text. */
  lemma EncodedChecksumParses(checksumType: nat, digest: seq<Byte>)
    requires checksumType in {0, 2, 5} && |digest| == HashLength(checksumType)
    ensures ParseChecksum(TypeText(checksumType) + "$" + Encode(digest)) == Ok((checksumType, Encode(digest)))
  {
    EncodedSymbols(digest);
    assert |Encode(digest)| == Length(checksumType);
    hide Encode, Alphabet;
    var value := TypeText(checksumType) + "$" + Encode(digest);
    CountOfNone(Encode(digest), '$');
    assert value[1..][1..] == Encode(digest);
    assert value[1] == '$';
    assert value[0] != '$';
    assert Count(value, '$') == 1;
    assert Position(value, '$') == 1;
    assert value[..1] == TypeText(checksumType);
    assert value[2..] == Encode(digest);
  }

  /** A download passes against a recorded digest exactly when it has that digest. */
  lemma ChecksumIdentifies(checksumType: nat, expected: seq<Byte>, actual: seq<Byte>)
    requires checksumType in {0, 2, 5} && |expected| == HashLength(checksumType)
    ensures var parsed := ParseChecksum(TypeText(checksumType) + "$" + Encode(expected));
      parsed.Ok? && (parsed.value.1 == Encode(actual) <==> actual == expected)
  {
    hide Encode, ParseChecksum, TypeText;
    EncodedChecksumParses(checksumType, expected);
    EncodeIsInjective(expected, actual);
  }

  /** A legacy hexadecimal digest on its own, or a type and a digest of its length and alphabet around a dollar sign. */
  predicate Records(value: string, checksumType: nat, digest: string) {
    || (checksumType == 1 && value == digest && |digest| == 64 && IsHex(digest))
    || (checksumType in {0, 1, 2, 5} && value == TypeText(checksumType) + "$" + digest
        && |digest| == (if checksumType == 1 then 64 else if checksumType == 2 then 103 else 52)
        && if checksumType == 1 then IsHex(digest)
           else forall c :: c in digest ==> c in "ybndrfg8ejkmcpqxot1uwisza345h769")
  }

  /** A checksum parses as a type and a digest exactly when it records them. */
  lemma ParsesExactly(value: string, checksumType: nat, digest: string)
    ensures ParseChecksum(value) == Ok((checksumType, digest)) <==> Records(value, checksumType, digest)
  {
    hide IsHex, Count, Position, ParseChecksum, Records, Alphabet;
    if '$' !in value {
      LegacyParses(value, checksumType, digest);
    } else if Count(value, '$') == 1 {
      CountOfOne(value, '$');
      var at := Position(value, '$');
      assert value == value[..at] + "$" + value[at + 1..];
      TypedParses(value[..at], value[at + 1..], checksumType, digest);
    } else {
      CrowdedIsRefused(value, checksumType, digest);
    }
  }

  lemma LegacyParses(value: string, checksumType: nat, digest: string)
    requires '$' !in value
    ensures ParseChecksum(value) == Ok((checksumType, digest)) <==> Records(value, checksumType, digest)
  {
    hide IsHex, Count, Position;
    assert forall t: nat :: t < 10 ==> (TypeText(t) + "$" + digest)[1] == '$';
  }

  lemma CrowdedIsRefused(value: string, checksumType: nat, digest: string)
    requires '$' in value && Count(value, '$') != 1
    ensures ParseChecksum(value).Err? && !Records(value, checksumType, digest)
  {
    hide IsHex, Count, Position;
    HexHasNoDollar(digest);
    if Records(value, checksumType, digest) && '$' !in digest {
      RecordedOnce(TypeText(checksumType), digest);
    }
  }

  lemma TypedParses(a: string, b: string, checksumType: nat, digest: string)
    requires '$' !in a && '$' !in b
    ensures var value := a + "$" + b;
      ParseChecksum(value) == Ok((checksumType, digest)) <==> Records(value, checksumType, digest)
  {
    hide IsHex, Count, Position, TypeText;
    var value := a + "$" + b;
    RecordedOnce(a, b);
    PositionOfFirst(a, b);
    assert value[..|a|] == a && value[|a| + 1..] == b && '$' == value[|a|];
    TypesExactly(a);
    HexHasNoDollar(value);
    if checksumType in {0, 1, 2, 5} && value == TypeText(checksumType) + "$" + digest {
      PositionOfFirst(TypeText(checksumType), digest);
      assert value[..1] == TypeText(checksumType) && value[2..] == digest;
    }
    assert forall i :: 0 <= i < |b| ==> b[i] in b;
  }

  lemma {:induction false} PositionOfFirst(a: string, b: string)
    requires '$' !in a
    ensures Position(a + "$" + b, '$') == |a|
  {
    if a == "" {
      assert (a + "$" + b)[0] == '$';
    } else {
      assert (a + "$" + b)[1..] == a[1..] + "$" + b;
      PositionOfFirst(a[1..], b);
    }
  }

  lemma HexHasNoDollar(text: string)
    ensures IsHex(text) ==> '$' !in text
  {
  }

  lemma TypesExactly(text: string)
    ensures text in ["0", "1", "2", "5"] ==>
      text[0] as nat - '0' as nat in {0, 1, 2, 5} && TypeText(text[0] as nat - '0' as nat) == text
    ensures forall t: nat :: t in {0, 1, 2, 5} ==>
      TypeText(t) in ["0", "1", "2", "5"] && TypeText(t)[0] as nat - '0' as nat == t
    ensures forall t: nat :: t < 10 ==> |TypeText(t)| == 1 && '$' !in TypeText(t)
  {
    assert TypeText(0) == "0" && TypeText(1) == "1" && TypeText(2) == "2" && TypeText(5) == "5";
    assert ["0", "1", "2", "5"][0] == "0" && ["0", "1", "2", "5"][1] == "1"
        && ["0", "1", "2", "5"][2] == "2" && ["0", "1", "2", "5"][3] == "5";
  }

  lemma {:induction false} CountOfOne(text: string, c: char)
    requires Count(text, c) == 1
    ensures var at := Position(text, c);
      at < |text| && text[at] == c && c !in text[..at] && c !in text[at + 1..]
  {
    if text[0] == c {
      NoneLeft(text[1..], c);
    } else {
      CountOfOne(text[1..], c);
      var at := Position(text[1..], c);
      assert text[..at + 1] == [text[0]] + text[1..][..at] && text[1..][at + 1..] == text[at + 2..];
    }
  }

  lemma {:induction false} NoneLeft(text: string, c: char)
    requires Count(text, c) == 0
    ensures c !in text
  {
    if text != "" {
      NoneLeft(text[1..], c);
    }
  }

  lemma {:induction false} RecordedOnce(a: string, b: string)
    requires '$' !in a && '$' !in b
    ensures Count(a + "$" + b, '$') == 1
  {
    if a == "" {
      assert (a + "$" + b)[1..] == b;
      CountOfNone(b, '$');
    } else {
      assert (a + "$" + b)[1..] == a[1..] + "$" + b;
      RecordedOnce(a[1..], b);
    }
  }
}
