/** Cluster identifiers: 16 bytes, written as 32 hexadecimal or 26 base32hex digits (sections 8 and 7 of RFC 4648). */
module Uuid {
  import opened Options
  import opened Radix

  type Byte = b: nat | b < 256

  type Id = bytes: seq<Byte> | |bytes| == 16 witness seq(16, _ => 0)

  // ----- digits -----

  /** Both alphabets start with the decimal digits and go on with the letters in order. */
  function UpperDigit(d: nat): (c: char)
    requires d < 32
    ensures '0' <= c <= '9' || 'A' <= c <= 'V'
  {
    if d < 10 then '0' + d as char else 'A' + (d - 10) as char
  }

  function ToLowerChar(c: char): char {
    if 'A' <= c <= 'Z' then 'a' + (c - 'A') else c
  }

  function ToUpperChar(c: char): char {
    if 'a' <= c <= 'z' then 'A' + (c - 'a') else c
  }

  function ToLower(s: string): (r: string)
    ensures |r| == |s| && forall i | 0 <= i < |s| :: r[i] == ToLowerChar(s[i])
  {
    seq(|s|, i requires 0 <= i < |s| => ToLowerChar(s[i]))
  }

  function ToUpper(s: string): (r: string)
    ensures |r| == |s| && forall i | 0 <= i < |s| :: r[i] == ToUpperChar(s[i])
  {
    seq(|s|, i requires 0 <= i < |s| => ToUpperChar(s[i]))
  }

  /** The digit below `radix` that the character stands for, in upper case. */
  function UpperDigitValue(c: char, radix: nat): (v: Option<nat>)
    requires radix <= 32
    ensures v.Some? ==> v.value < radix && UpperDigit(v.value) == c
  {
    var v := if '0' <= c <= '9' then (c - '0') as nat else if 'A' <= c <= 'V' then (c - 'A') as nat + 10 else radix;
    if v < radix then Some(v) else None
  }

  lemma DigitRoundTrip(d: nat, radix: nat)
    requires d < radix <= 32
    ensures UpperDigitValue(UpperDigit(d), radix) == Some(d)
    ensures ToUpperChar(UpperDigit(d)) == UpperDigit(d)
    ensures ToUpperChar(ToLowerChar(UpperDigit(d))) == UpperDigit(d)
    ensures ToLowerChar(UpperDigit(d)) != '_'
  {
  }

  function UpperDigits(values: seq<nat>): (s: string)
    requires forall v | v in values :: v < 32
    ensures |s| == |values| && forall i | 0 <= i < |s| :: values[i] in values && s[i] == UpperDigit(values[i])
  {
    assert forall i | 0 <= i < |values| :: values[i] in values;
    seq(|values|, i requires 0 <= i < |values| && values[i] < 32 => UpperDigit(values[i]))
  }

  ghost predicate AllDigits(s: string, radix: nat)
    requires radix <= 32
  {
    forall i | 0 <= i < |s| :: UpperDigitValue(s[i], radix).Some?
  }

  /** The values of the digits, or None if some character is no digit. */
  function DigitValues(s: string, radix: nat): (r: Option<seq<nat>>)
    requires radix <= 32
    ensures r.Some? <==> AllDigits(s, radix)
    ensures r.Some? ==> |r.value| == |s| && forall i | 0 <= i < |s| :: Some(r.value[i]) == UpperDigitValue(s[i], radix)
  {
    if s == [] then Some([])
    else
      var rest := DigitValues(s[..|s| - 1], radix);
      var last := UpperDigitValue(s[|s| - 1], radix);
      if rest.None? || last.None? then
        assert s[..|s| - 1] + [s[|s| - 1]] == s;
        None
      else Some(rest.value + [last.value])
  }

  // ----- encodings -----

  /** Padding to whole groups: hexadecimal digits hold 4 bits and base32hex digits 5. */
  function PadBits(bits: seq<bool>, width: nat): (r: seq<bool>)
    requires width == 4 || width == 5
    ensures if width == 4 then |r| % 4 == 0 else |r| % 5 == 0
    ensures bits <= r && |r| < |bits| + width
  {
    var over := if width == 4 then |bits| % 4 else |bits| % 5;
    if over == 0 then bits else bits + seq(width - over, _ => false)
  }

  /** The text digits of the bytes, `width` bits each. */
  function Encode(bytes: seq<Byte>, width: nat): seq<nat>
    requires width == 4 || width == 5
  {
    Gather(PadBits(Spread(bytes, 8), width), width)
  }

  function Decode(digits: seq<nat>, width: nat): (r: seq<nat>)
    ensures forall b | b in r :: b < 256
  {
    assert Pow2(8) == 256;
    Gather(Spread(digits, width), 8)
  }

  /** Decoding inverts encoding. */
  lemma EncodeRoundTrip(bytes: seq<Byte>, width: nat)
    requires width == 4 || width == 5
    ensures Decode(Encode(bytes, width), width) == bytes
    ensures forall d | d in Encode(bytes, width) :: d < Pow2(width)
  {
    var bits := Spread(bytes, 8);
    var padded := PadBits(bits, width);
    SpreadGather(padded, width, if width == 4 then |padded| / 4 else |padded| / 5);
    var rest := padded[|bits|..];
    assert padded == bits + rest;
    assert Pow2(8) == 256;
    GatherSpread(bytes, 8, rest);
  }

  lemma EncodeLength(bytes: seq<Byte>, width: nat)
    requires |bytes| == 16 && (width == 4 || width == 5)
    ensures |Encode(bytes, width)| == if width == 4 then 32 else 26
    ensures forall d | d in Encode(bytes, width) :: d < if width == 4 then 16 else 32
  {
    var padded := PadBits(Spread(bytes, 8), width);
    assert |padded| == if width == 4 then 128 else 130;
    SpreadGather(padded, width, if width == 4 then 32 else 26);
    assert Pow2(4) == 16 && Pow2(5) == 32;
  }

  // ----- the two forms -----

  function HexString(id: Id): (s: string)
    ensures |s| == 32
  {
    EncodeLength(id, 4);
    ToLower(UpperDigits(Encode(id, 4)))
  }

  function ShortString(id: Id): (s: string)
    ensures |s| == 26
  {
    EncodeLength(id, 5);
    ToLower(UpperDigits(Encode(id, 5)))
  }

  function DecodeText(s: string, radix: nat, width: nat): Option<seq<nat>>
    requires radix <= 32
  {
    var digits := DigitValues(ToUpper(s), radix);
    if digits.None? then None else Some(Decode(digits.value, width))
  }

  /** 16 decoded bytes as an identifier. */
  function ToId(bytes: Option<seq<nat>>): Option<Id> {
    if bytes.Some? && |bytes.value| == 16 && forall i | 0 <= i < |bytes.value| :: bytes.value[i] < 256 then
      var id: seq<Byte> := bytes.value;
      Some(id)
    else None
  }

  /** The length decides which form is expected. */
  function ParseId(s: string): Option<Id> {
    if |s| == 32 then ToId(DecodeText(s, 16, 4))
    else if |s| == 26 then ToId(DecodeText(s, 32, 5))
    else None
  }

  lemma DigitsRoundTrip(values: seq<nat>, radix: nat)
    requires radix <= 32 && forall v | v in values :: v < radix
    ensures DigitValues(ToUpper(ToLower(UpperDigits(values))), radix) == Some(values)
    ensures DigitValues(ToUpper(UpperDigits(values)), radix) == Some(values)
    ensures '_' !in ToLower(UpperDigits(values))
  {
    var lower := ToLower(UpperDigits(values));
    forall i | 0 <= i < |values|
      ensures UpperDigitValue(ToUpper(lower)[i], radix) == Some(values[i])
      ensures UpperDigitValue(ToUpper(UpperDigits(values))[i], radix) == Some(values[i])
      ensures lower[i] != '_'
    {
      assert values[i] in values;
      DigitRoundTrip(values[i], radix);
    }
    assert AllDigits(ToUpper(lower), radix) && AllDigits(ToUpper(UpperDigits(values)), radix);
    assert DigitValues(ToUpper(lower), radix).value == values;
    assert DigitValues(ToUpper(UpperDigits(values)), radix).value == values;
  }

  /** Both forms of an identifier parse to it, the short one in either case. */
  lemma FormsRoundTrip(id: Id)
    ensures ParseId(HexString(id)) == Some(id)
    ensures ParseId(ShortString(id)) == Some(id)
    ensures ParseId(ToUpper(ShortString(id))) == Some(id)
    ensures '_' !in ShortString(id)
  {
    EncodeLength(id, 4);
    EncodeLength(id, 5);
    EncodeRoundTrip(id, 4);
    EncodeRoundTrip(id, 5);
    DigitsRoundTrip(Encode(id, 4), 16);
    DigitsRoundTrip(Encode(id, 5), 32);
    var short := ShortString(id);
    assert ToUpper(ToUpper(short)) == ToUpper(short);
  }

  /** Different identifiers have different names. */
  lemma ShortStringInjective(a: Id, b: Id)
    ensures ShortString(a) == ShortString(b) <==> a == b
    ensures HexString(a) == HexString(b) <==> a == b
  {
    FormsRoundTrip(a);
    FormsRoundTrip(b);
  }

  /** Exactly these texts parse: 32 hexadecimal digits, or 26 base32hex digits; letters in either case. */
  lemma ParseIdAccepts(s: string)
    ensures ParseId(s).Some? <==> (|s| == 32 && AllDigits(ToUpper(s), 16)) || (|s| == 26 && AllDigits(ToUpper(s), 32))
  {
    var radix, width := if |s| == 32 then 16 else 32, if |s| == 32 then 4 else 5;
    var digits := DigitValues(ToUpper(s), radix);
    if digits.Some? && (|s| == 32 || |s| == 26) {
      var bits := Spread(digits.value, width);
      assert |bits| == if |s| == 32 then 128 else 130;
      GatherLength(bits, 8, 16);
      var bytes := Decode(digits.value, width);
      assert forall i | 0 <= i < |bytes| :: bytes[i] in bytes;
    }
  }

  lemma {:induction false} GatherLength(bits: seq<bool>, width: nat, count: nat)
    requires width > 0 && count * width <= |bits| < (count + 1) * width
    ensures |Gather(bits, width)| == count
    decreases count
  {
    if count > 0 {
      assert count * width == width + (count - 1) * width;
      GatherLength(bits[width..], width, count - 1);
    }
  }

  // ----- what the texts say -----

  /** The character stands for the digit: the decimal digits, then the letters in order, in either case. */
  ghost predicate Shows(c: char, d: nat) {
    if d < 10 then c as int == '0' as int + d else c as int - 'a' as int == d - 10 || c as int - 'A' as int == d - 10
  }

  ghost predicate Spells(s: string, digits: seq<nat>, radix: nat) {
    |s| == |digits| && forall i | 0 <= i < |s| :: digits[i] < radix && Shows(s[i], digits[i])
  }

  lemma CharShows(c: char, d: nat, radix: nat)
    requires radix <= 32
    ensures UpperDigitValue(ToUpperChar(c), radix) == Some(d) <==> d < radix && Shows(c, d)
  {
  }

  lemma TextSpells(s: string, digits: seq<nat>, radix: nat)
    requires radix <= 32
    ensures DigitValues(ToUpper(s), radix) == Some(digits) <==> Spells(s, digits, radix)
  {
    var r := DigitValues(ToUpper(s), radix);
    if r == Some(digits) {
      forall i | 0 <= i < |s| ensures digits[i] < radix && Shows(s[i], digits[i]) {
        CharShows(s[i], digits[i], radix);
      }
    }
    if Spells(s, digits, radix) {
      forall i | 0 <= i < |s| ensures UpperDigitValue(ToUpper(s)[i], radix) == Some(digits[i]) {
        CharShows(s[i], digits[i], radix);
      }
      assert AllDigits(ToUpper(s), radix);
      assert r.value == digits;
    }
  }

  /** Dropping the bits of an incomplete group is an integer division. */
  lemma GatheredNumber(bits: seq<bool>)
    requires 128 <= |bits| < 136
    ensures |Gather(bits, 8)| == 16
    ensures Number(Gather(bits, 8), 256) == Value(bits) / Pow2(|bits| - 128)
  {
    var whole, rest := bits[..128], bits[128..];
    GatherWhole(bits, 8, 16);
    SpreadGather(whole, 8, 16);
    assert Pow2(8) == 256;
    SpreadIsNumber(Gather(whole, 8), 8);
    assert bits == whole + rest;
    ValueConcat(whole, rest);
    Quotient(Value(whole), Pow2(|rest|), Value(rest));
  }

  lemma Quotient(q: nat, d: nat, r: nat)
    requires r < d
    ensures (q * d + r) / d == q
  {
    var x := (q * d + r) / d;
    assert q * d + r == x * d + (q * d + r) % d;
    if x < q { NextMultiple(x, q, d); }
    if q < x { NextMultiple(q, x, d); }
  }

  lemma SmallPowers()
    ensures Pow2(0) == 1 && Pow2(2) == 4 && Pow2(4) == 16 && Pow2(5) == 32 && Pow2(8) == 256
  {
  }

  lemma DecodedNumber(digits: seq<nat>)
    ensures |digits| == 32 && (forall d | d in digits :: d < 16) ==>
              |Decode(digits, 4)| == 16 && Number(Decode(digits, 4), 256) == Number(digits, 16)
    ensures |digits| == 26 && (forall d | d in digits :: d < 32) ==>
              |Decode(digits, 5)| == 16 && Number(Decode(digits, 5), 256) == Number(digits, 32) / 4
  {
    SmallPowers();
    if |digits| == 32 && forall d | d in digits :: d < 16 {
      SpreadIsNumber(digits, 4);
      GatheredNumber(Spread(digits, 4));
    }
    if |digits| == 26 && forall d | d in digits :: d < 32 {
      SpreadIsNumber(digits, 5);
      GatheredNumber(Spread(digits, 5));
    }
  }

  lemma SpelledDigits(s: string, digits: seq<nat>, radix: nat)
    requires Spells(s, digits, radix)
    ensures forall d | d in digits :: d < radix
  {
  }

  /** The texts that stand for an identifier: 32 hexadecimal digits denote the number that its bytes denote, 26
      base32hex digits four times this number, and the two bits too many are ignored. */
  ghost predicate StandsFor(s: string, digits: seq<nat>, id: Id) {
    || (|s| == 32 && Spells(s, digits, 16) && Number(digits, 16) == Number(id, 256))
    || (|s| == 26 && Spells(s, digits, 32) && Number(digits, 32) / 4 == Number(id, 256))
  }

  lemma ParsedStandsFor(s: string, id: Id) returns (digits: seq<nat>)
    requires ParseId(s) == Some(id)
    ensures StandsFor(s, digits, id)
  {
    var radix, width := if |s| == 32 then 16 else 32, if |s| == 32 then 4 else 5;
    digits := DigitValues(ToUpper(s), radix).value;
    TextSpells(s, digits, radix);
    SpelledDigits(s, digits, radix);
    DecodedNumber(digits);
  }

  lemma StandingForParses(s: string, digits: seq<nat>, id: Id)
    requires StandsFor(s, digits, id)
    ensures ParseId(s) == Some(id)
  {
    var radix, width := if |s| == 32 then 16 else 32, if |s| == 32 then 4 else 5;
    TextSpells(s, digits, radix);
    SpelledDigits(s, digits, radix);
    DecodedNumber(digits);
    NumberInjective(Decode(digits, width), id, 256);
  }

  /** Exactly these texts parse, and to this identifier. */
  lemma ParseIdExactly(s: string, id: Id)
    ensures ParseId(s) == Some(id) <==> exists digits :: StandsFor(s, digits, id)
  {
    if ParseId(s) == Some(id) {
      var digits := ParsedStandsFor(s, id);
    }
    if digits :| StandsFor(s, digits, id) {
      StandingForParses(s, digits, id);
    }
  }

  lemma GroupsNumber(bits: seq<bool>, width: nat, count: nat)
    requires width > 0 && |bits| == count * width
    ensures Number(Gather(bits, width), Pow2(width)) == Value(bits)
  {
    SpreadGather(bits, width, count);
    SpreadIsNumber(Gather(bits, width), width);
  }

  lemma EncodedHex(id: Id)
    ensures Number(Encode(id, 4), 16) == Number(id, 256)
  {
    SmallPowers();
    SpreadIsNumber(id, 8);
    GroupsNumber(Spread(id, 8), 4, 32);
  }

  lemma TwoBitsMore(bits: seq<bool>)
    ensures Value(bits + [false, false]) == 4 * Value(bits)
  {
    assert bits + [false, false] == bits + [false] + [false];
    ValueOfOneMore(bits, false);
    ValueOfOneMore(bits + [false], false);
  }

  lemma EncodedBase32(id: Id)
    ensures Number(Encode(id, 5), 32) == 4 * Number(id, 256)
  {
    SmallPowers();
    SpreadIsNumber(id, 8);
    var bits := Spread(id, 8);
    assert PadBits(bits, 5) == bits + [false, false];
    GroupsNumber(bits + [false, false], 5, 26);
    TwoBitsMore(bits);
  }

  ghost predicate LowerCase(s: string) {
    forall c | c in s :: '0' <= c <= '9' || 'a' <= c <= 'v'
  }

  lemma LowerDigitsShow(values: seq<nat>, radix: nat)
    requires radix <= 32 && forall v | v in values :: v < radix
    ensures Spells(ToLower(UpperDigits(values)), values, radix) && LowerCase(ToLower(UpperDigits(values)))
  {
  }

  /** What is printed: the hexadecimal digits of the identifier, or the base32hex digits of four times its number, in
      lower case. */
  lemma FormsShow(id: Id) returns (hex: seq<nat>, short: seq<nat>)
    ensures Spells(HexString(id), hex, 16) && |hex| == 32 && LowerCase(HexString(id))
    ensures Number(hex, 16) == Number(id, 256)
    ensures Spells(ShortString(id), short, 32) && |short| == 26 && LowerCase(ShortString(id))
    ensures Number(short, 32) == 4 * Number(id, 256)
  {
    EncodeLength(id, 4);
    EncodeLength(id, 5);
    EncodedHex(id);
    EncodedBase32(id);
    hex, short := Encode(id, 4), Encode(id, 5);
    LowerDigitsShow(hex, 16);
    LowerDigitsShow(short, 32);
  }
}
