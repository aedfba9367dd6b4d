/** Regrouping bits: the arithmetic behind hexadecimal and base32 text. */
module Radix {

  function Pow2(n: nat): (r: nat)
    ensures r >= 1
  {
    if n == 0 then 1 else 2 * Pow2(n - 1)
  }

  /** The `width` low bits of a number, most significant first. */
  function Bits(v: nat, width: nat): (r: seq<bool>)
    ensures |r| == width
  {
    if width == 0 then [] else Bits(v / 2, width - 1) + [v % 2 == 1]
  }

  function Value(bits: seq<bool>): (r: nat)
    ensures r < Pow2(|bits|)
  {
    if bits == [] then 0 else 2 * Value(bits[..|bits| - 1]) + if bits[|bits| - 1] then 1 else 0
  }

  lemma {:induction false} ValueOfBits(v: nat, width: nat)
    requires v < Pow2(width)
    ensures Value(Bits(v, width)) == v
  {
    if width > 0 {
      ValueOfBits(v / 2, width - 1);
      assert Bits(v, width)[..width - 1] == Bits(v / 2, width - 1);
    }
  }

  lemma {:induction false} BitsOfValue(bits: seq<bool>)
    ensures Bits(Value(bits), |bits|) == bits
  {
    if bits != [] {
      var k := |bits| - 1;
      BitsOfValue(bits[..k]);
      assert Value(bits) / 2 == Value(bits[..k]);
      assert bits == bits[..k] + [bits[k]];
    }
  }

  /** All numbers written side by side with `width` bits each. */
  function Spread(numbers: seq<nat>, width: nat): (r: seq<bool>)
    ensures |r| == |numbers| * width
  {
    if numbers == [] then []
    else
      var rest := Spread(numbers[1..], width);
      assert |numbers| * width == width + (|numbers| - 1) * width;
      Bits(numbers[0], width) + rest
  }

  /** Reads `width` bits at a time; an incomplete group at the end is dropped. */
  function Gather(bits: seq<bool>, width: nat): (r: seq<nat>)
    requires width > 0
    ensures forall v | v in r :: v < Pow2(width)
    decreases |bits|
  {
    if |bits| < width then [] else [Value(bits[..width])] + Gather(bits[width..], width)
  }

  /** Reading back what was written, whatever short rest follows. */
  lemma {:induction false} GatherSpread(numbers: seq<nat>, width: nat, rest: seq<bool>)
    requires width > 0 && |rest| < width && forall v | v in numbers :: v < Pow2(width)
    ensures Gather(Spread(numbers, width) + rest, width) == numbers
  {
    if numbers == [] {
      assert Spread(numbers, width) + rest == rest;
    } else {
      var all := Spread(numbers, width) + rest;
      var tail := Spread(numbers[1..], width) + rest;
      assert all == Bits(numbers[0], width) + tail;
      assert all[..width] == Bits(numbers[0], width) && all[width..] == tail;
      assert numbers[0] in numbers && forall v | v in numbers[1..] :: v in numbers;
      ValueOfBits(numbers[0], width);
      GatherSpread(numbers[1..], width, rest);
    }
  }

  lemma SpreadOneMore(number: nat, numbers: seq<nat>, width: nat)
    ensures Spread([number] + numbers, width) == Bits(number, width) + Spread(numbers, width)
  {
  }

  lemma OneGroupLess(count: nat, width: nat)
    requires count > 0
    ensures count * width == width + (count - 1) * width && (count - 1) * width >= 0
  {
  }

  /** Writing back what was read, if nothing was dropped. */
  lemma {:induction false} SpreadGather(bits: seq<bool>, width: nat, count: nat)
    requires width > 0 && |bits| == count * width
    ensures Spread(Gather(bits, width), width) == bits
    ensures |Gather(bits, width)| == count
    decreases count
  {
    if count == 0 {
      assert bits == [];
    } else {
      OneGroupLess(count, width);
      var first, rest := bits[..width], bits[width..];
      assert bits == first + rest;
      BitsOfValue(first);
      SpreadGather(rest, width, count - 1);
      var others := Gather(rest, width);
      assert Gather(bits, width) == [Value(first)] + others;
      SpreadOneMore(Value(first), others, width);
    }
  }

  // ----- the number that digits denote -----

  /** Positional notation, the most significant digit first. */
  ghost function Number(digits: seq<nat>, radix: nat): nat {
    if digits == [] then 0 else radix * Number(digits[..|digits| - 1], radix) + digits[|digits| - 1]
  }

  /** A number has one form with a given number of digits. */
  lemma {:induction false} NumberInjective(a: seq<nat>, b: seq<nat>, radix: nat)
    requires |a| == |b| && (forall d | d in a :: d < radix) && (forall d | d in b :: d < radix)
    requires Number(a, radix) == Number(b, radix)
    ensures a == b
  {
    if a != [] {
      var k := |a| - 1;
      assert a[k] in a && b[k] in b && (forall d | d in a[..k] :: d in a) && forall d | d in b[..k] :: d in b;
      LastDigit(Number(a[..k], radix), a[k], Number(b[..k], radix), b[k], radix);
      NumberInjective(a[..k], b[..k], radix);
      assert a == a[..k] + [a[k]] && b == b[..k] + [b[k]];
    }
  }

  lemma LastDigit(x: nat, d: nat, y: nat, e: nat, radix: nat)
    requires d < radix && e < radix && radix * x + d == radix * y + e
    ensures x == y && d == e
  {
    if x < y { NextMultiple(x, y, radix); }
    if y < x { NextMultiple(y, x, radix); }
  }

  lemma NextMultiple(x: nat, y: nat, radix: nat)
    requires x < y
    ensures radix * x + radix <= radix * y
  {
    assert radix * y == radix * (x + 1) + radix * (y - x - 1);
  }

  lemma Doubled(x: nat, y: nat, z: nat)
    ensures 2 * (x * y + z) == x * (2 * y) + 2 * z
  {
  }

  lemma ValueOfOneMore(bits: seq<bool>, bit: bool)
    ensures Value(bits + [bit]) == 2 * Value(bits) + if bit then 1 else 0
  {
    assert (bits + [bit])[..|bits|] == bits;
  }

  lemma {:induction false} ValueConcat(a: seq<bool>, b: seq<bool>)
    ensures Value(a + b) == Value(a) * Pow2(|b|) + Value(b)
  {
    if b == [] {
      assert a + b == a;
    } else {
      var front, last := b[..|b| - 1], b[|b| - 1];
      assert b == front + [last] && a + b == (a + front) + [last];
      ValueConcat(a, front);
      ValueOfOneMore(a + front, last);
      ValueOfOneMore(front, last);
      Doubled(Value(a), Pow2(|front|), Value(front));
    }
  }

  lemma {:induction false} SpreadConcat(a: seq<nat>, b: seq<nat>, width: nat)
    ensures Spread(a + b, width) == Spread(a, width) + Spread(b, width)
  {
    if a == [] {
      assert a + b == b;
    } else {
      assert (a + b)[1..] == a[1..] + b;
      SpreadConcat(a[1..], b, width);
    }
  }

  /** The bits of all digits, read as one number, are the number that the digits denote. */
  lemma {:induction false} SpreadIsNumber(digits: seq<nat>, width: nat)
    requires forall d | d in digits :: d < Pow2(width)
    ensures Value(Spread(digits, width)) == Number(digits, Pow2(width))
  {
    if digits != [] {
      var k := |digits| - 1;
      var front, last := digits[..k], digits[k];
      assert digits == front + [last];
      assert last in digits && forall d | d in front :: d in digits;
      SpreadIsNumber(front, width);
      SpreadConcat(front, [last], width);
      SpreadOneMore(last, [], width);
      assert Spread([last], width) == Bits(last, width);
      ValueConcat(Spread(front, width), Bits(last, width));
      ValueOfBits(last, width);
    }
  }

  /** An incomplete group at the end does not matter. */
  lemma {:induction false} GatherWhole(bits: seq<bool>, width: nat, count: nat)
    requires width > 0 && count * width <= |bits| < (count + 1) * width
    ensures Gather(bits, width) == Gather(bits[..count * width], width)
    decreases count
  {
    if count > 0 {
      OneGroupLess(count, width);
      OneGroupLess(count + 1, width);
      GatherWhole(bits[width..], width, count - 1);
      assert bits[..count * width][width..] == bits[width..][..(count - 1) * width];
      assert bits[..count * width][..width] == bits[..width];
    }
  }
}
