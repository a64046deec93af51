/** Little-endian conversions between bit lists and integers (plus_k_gate.py, bits_to_val and
  * val_to_bits), and Python's int.bit_length, which the carry gates compare against len(k). */
module Bits {
  import opened Wrappers

  function Pow2(n: nat): (r: nat)
    ensures r >= 1
  {
    if n == 0 then 1 else 2 * Pow2(n - 1)
  }

  predicate IsBit(t: int) { t == 0 || t == 1 }

  predicate AllBits(s: seq<int>) { forall i :: 0 <= i < |s| ==> IsBit(s[i]) }

  /** The number a bit list stands for, bits[0] being the least significant bit. */
  function Value(bits: seq<int>): nat
    requires AllBits(bits)
  {
    if bits == [] then 0 else bits[0] + 2 * Value(bits[1..])
  }

  /** Booleans as the integers 0 and 1, as Python's arithmetic reads them. */
  function BoolBits(k: seq<bool>): (r: seq<int>)
    ensures |r| == |k| && AllBits(r)
    ensures forall i :: 0 <= i < |k| ==> (r[i] == 1 <==> k[i])
  {
    if k == [] then [] else [if k[0] then 1 else 0] + BoolBits(k[1..])
  }

  /** bits_to_val: the empty list reads as 0; otherwise the list, reversed, is parsed as a base-2
    * numeral, which raises ValueError as soon as one entry is not a binary digit. */
  function BitsToVal(bits: seq<int>): (r: Result<nat>)
    ensures r.Ok? <==> AllBits(bits)
    ensures r.Err? ==> r.error == ValueError
    ensures r.Ok? ==> r.value == Value(bits) && r.value < Pow2(|bits|)
  {
    if !AllBits(bits) then Err(ValueError)
    else
      ValueBound(bits);
      Ok(Value(bits))
  }

  lemma {:induction false} ValueBound(bits: seq<int>)
    requires AllBits(bits)
    ensures Value(bits) < Pow2(|bits|)
  {
    if bits != [] {
      assert AllBits(bits[1..]) by {
        forall i | 0 <= i < |bits[1..]| ensures IsBit(bits[1..][i]) { assert bits[1..][i] == bits[i + 1]; }
      }
      ValueBound(bits[1..]);
    }
  }

  /** The n low bits of v, least significant first. */
  function LowBits(v: nat, n: nat): (r: seq<int>)
    ensures |r| == n && AllBits(r)
  {
    if n == 0 then [] else [v % 2] + LowBits(v / 2, n - 1)
  }

  /** val_to_bits as it is written: the value is masked to its num_bits low bits (Python's
    * and-with-complement is the remainder modulo 2^num_bits, also for negative values), then
    * printed in binary padded to num_bits digits. A zero-width field still prints the digit 0, so
    * for num_bits == 0 the result has one entry. */
  function ValToBitsAsWritten(val: int, numBits: nat): seq<int>
  {
    if numBits == 0 then [0] else LowBits(val % Pow2(numBits), numBits)
  }

  /** val_to_bits as its callers use it: exactly num_bits bits of val modulo 2^num_bits. */
  function ValToBits(val: int, numBits: nat): (r: seq<int>)
    ensures |r| == numBits && AllBits(r)
    ensures Value(r) == val % Pow2(numBits)
  {
    LowBitsValue(val % Pow2(numBits), numBits);
    LowBits(val % Pow2(numBits), numBits)
  }

  lemma {:induction false} LowBitsValue(v: nat, n: nat)
    requires v < Pow2(n)
    ensures Value(LowBits(v, n)) == v
  {
    if n > 0 {
      LowBitsValue(v / 2, n - 1);
      assert LowBits(v, n)[1..] == LowBits(v / 2, n - 1);
    }
  }

  /** The two agree on every width but zero. */
  lemma ValToBitsAgree(val: int, numBits: nat)
    requires numBits > 0
    ensures ValToBitsAsWritten(val, numBits) == ValToBits(val, numBits)
  {
  }

  /** The zero-width case breaks the round trip through bits_to_val: the empty list reads as 0,
    * but writing 0 back into zero bits gives a one-entry list. */
  lemma ValToBitsZeroWidth()
    ensures BitsToVal([]) == Ok(0)
    ensures ValToBitsAsWritten(0, 0) == [0] != []
    ensures ValToBits(0, 0) == []
  {
  }

  /** Reading bits back gives the value modulo 2^n. */
  lemma RoundTripValue(val: int, numBits: nat)
    ensures BitsToVal(ValToBits(val, numBits)) == Ok(val % Pow2(numBits))
  {
  }

  /** Writing a bit list's value back into as many bits gives the same list. */
  lemma {:induction false} RoundTripBits(bits: seq<int>)
    requires AllBits(bits)
    ensures ValToBits(Value(bits), |bits|) == bits
  {
    ValueBound(bits);
    var v, n := Value(bits), |bits|;
    ModSmall(v, Pow2(n));
    assert ValToBits(v, n) == LowBits(v, n);
    LowBitsOfValue(bits);
  }

  lemma ModSmall(v: nat, m: nat)
    requires v < m
    ensures v % m == v
  {
  }

  lemma {:induction false} LowBitsOfValue(bits: seq<int>)
    requires AllBits(bits)
    ensures LowBits(Value(bits), |bits|) == bits
  {
    if bits != [] {
      var rest := bits[1..];
      assert AllBits(rest) by {
        forall i | 0 <= i < |rest| ensures IsBit(rest[i]) { assert rest[i] == bits[i + 1]; }
      }
      LowBitsOfValue(rest);
      assert Value(bits) % 2 == bits[0];
      assert Value(bits) / 2 == Value(rest);
    }
  }

  /** Python's int.bit_length for a non-negative integer. */
  function BitLength(x: nat): nat
  {
    if x == 0 then 0 else 1 + BitLength(x / 2)
  }

  /** The carry gates test bit_length() > n; for non-negative values that is x >= 2^n. */
  lemma {:induction false} BitLengthExceeds(x: nat, n: nat)
    ensures BitLength(x) > n <==> x >= Pow2(n)
  {
    if x != 0 && n != 0 {
      BitLengthExceeds(x / 2, n - 1);
    }
  }
}
