/** PlusKGate and its helper gates: adding a classical constant k to a binary register of qutrits,
  * the carry and uncarry gates of its decomposition, the upward AND ladders, the OR-AND gate and
  * the planning check for the ancilla the carry network needs. */
module PlusKGate {
  import opened Wrappers
  import opened Bits
  import opened Gates
  import AncillaGenerationGate
  import opened SeqFacts

  function Plus(b: bool): int { if b then 1 else 0 }

  /** Python's trits[:-1]. */
  function DropLast(t: seq<int>): (r: seq<int>)
    ensures |r| == if t == [] then 0 else |t| - 1
  {
    if t == [] then [] else t[..|t| - 1]
  }

  /** Python's trits[1:-1]. */
  function Middle(t: seq<int>): (r: seq<int>)
    ensures |r| == if |t| <= 2 then 0 else |t| - 2
  {
    if |t| <= 2 then [] else t[1..|t| - 1]
  }

  function KValue(k: seq<bool>): nat { Value(BoolBits(k)) }

  // ---- PlusKGate ----

  /** PlusKGate.applied_to_trits: the register, read as a little-endian number, plus k (minus k
    * when inverted), written back as len(trits) bits. */
  function PlusKApplied(k: seq<bool>, inverted: bool, trits: seq<int>): Result<seq<int>>
  {
    match BitsToVal(trits)
    case Err(e) => Err(e)
    case Ok(reg) =>
      var v := if inverted then reg - KValue(k) else reg + KValue(k);
      Ok(ValToBits(v, |trits|))
  }

  /** The same, with val_to_bits exactly as written. */
  function PlusKAppliedAsWritten(k: seq<bool>, inverted: bool, trits: seq<int>): Result<seq<int>>
  {
    match BitsToVal(trits)
    case Err(e) => Err(e)
    case Ok(reg) =>
      var v := if inverted then reg - KValue(k) else reg + KValue(k);
      Ok(ValToBitsAsWritten(v, |trits|))
  }

  /** validate_trits: one trit per bit of k. */
  predicate PlusKValid(k: seq<bool>, trits: seq<int>) { ValidTrits(trits) && |trits| == |k| }

  /** The gate adds k modulo 2^n to an n-bit register and fails on any non-binary trit. */
  lemma PlusKAdds(k: seq<bool>, inverted: bool, trits: seq<int>)
    ensures PlusKApplied(k, inverted, trits).Ok? <==> AllBits(trits)
    ensures PlusKApplied(k, inverted, trits).Err? ==> PlusKApplied(k, inverted, trits).error == ValueError
    ensures AllBits(trits) ==>
      |PlusKApplied(k, inverted, trits).value| == |trits| && AllBits(PlusKApplied(k, inverted, trits).value)
    ensures AllBits(trits) ==>
      Value(PlusKApplied(k, inverted, trits).value) ==
      (if inverted then Value(trits) as int - KValue(k) else Value(trits) + KValue(k)) % Pow2(|trits|)
  {
  }

  lemma AddSubMod(v: int, c: int, m: nat)
    requires 0 <= v < m
    ensures ((v + c) % m - c) % m == v && ((v - c) % m + c) % m == v
  {
    var a := (v + c) % m;
    assert (v + c) == m * ((v + c) / m) + a;
    assert a - c == v + m * (-((v + c) / m));
    ModShift(v, -((v + c) / m), m);
    var b := (v - c) % m;
    assert (v - c) == m * ((v - c) / m) + b;
    assert b + c == v + m * (-((v - c) / m));
    ModShift(v, -((v - c) / m), m);
  }

  lemma ModShift(v: int, q: int, m: nat)
    requires 0 <= v < m
    ensures (v + m * q) % m == v
  {
    var r := (v + m * q) % m;
    var d := (v + m * q) / m;
    assert v + m * q == m * d + r;
    assert m * (q - d) == r - v;
    if q - d >= 1 { MulAtLeast(m, q - d); }
    if q - d <= -1 { MulAtLeast(m, d - q); }
  }

  lemma MulAtLeast(m: nat, x: int)
    requires x >= 1
    ensures m * x >= m
  {
  }

  /** inverse() toggles _inverted, and the inverted gate undoes the gate on every binary register. */
  lemma PlusKInverse(k: seq<bool>, inverted: bool, trits: seq<int>)
    requires AllBits(trits)
    ensures Inverse(PlusK(k, inverted)) == Some(PlusK(k, !inverted))
    ensures PlusKApplied(k, !inverted, PlusKApplied(k, inverted, trits).value) == Ok(trits)
  {
    var m := Pow2(|trits|);
    var kv := KValue(k);
    var v: int := Value(trits);
    PlusKAdds(k, inverted, trits);
    var out := PlusKApplied(k, inverted, trits).value;
    PlusKAdds(k, !inverted, out);
    var back := PlusKApplied(k, !inverted, out).value;
    ValueBound(trits);
    AddSubMod(v, kv, m);
    if inverted {
      assert Value(out) == (v - kv) % m;
      assert Value(back) == (Value(out) + kv) % m;
    } else {
      assert Value(out) == (v + kv) % m;
      assert Value(back) == (Value(out) - kv) % m;
    }
    LowBitsOfValue(back);
    LowBitsOfValue(trits);
  }

  /** As written, a zero-width gate turns the empty register into one trit, which the length check
    * of apply_to_ternary_state then rejects although validate_trits accepted the input. */
  lemma PlusKZeroWidthAsWritten()
    ensures PlusKValid([], [])
    ensures PlusKAppliedAsWritten([], false, []) == Ok([0])
    ensures PlusKApplied([], false, []) == Ok([])
  {
    ValToBitsZeroWidth();
  }

  /** For every register of at least one trit the two versions agree. */
  lemma PlusKAsWrittenAgrees(k: seq<bool>, inverted: bool, trits: seq<int>)
    requires trits != []
    ensures PlusKAppliedAsWritten(k, inverted, trits) == PlusKApplied(k, inverted, trits)
  {
    if AllBits(trits) {
      var reg := Value(trits);
      var v := if inverted then reg - KValue(k) else reg + KValue(k);
      ValToBitsAgree(v, |trits|);
    }
  }

  // ---- The register read by PlusKCarryGate and PlusKUncarryAddGate ----

  /** k_val and reg_val of the carry gates, with the register as its little-endian bits. Without
    * carry_in the register is every trit but the last. With carry_in its low bit is the incoming
    * carry (trit 0 is 2, or trit 0 is 1 and k's low bit is set), its other bits are trits[1:-1],
    * and k's low bit is forced on. */
  function Register(k: seq<bool>, carryIn: bool, t: seq<int>): (r: Result<(nat, seq<int>)>)
    ensures r.Ok? ==> AllBits(r.value.1)
    ensures r.Ok? ==> |r.value.1| == if carryIn then 1 + |Middle(t)| else |DropLast(t)|
  {
    if carryIn then
      match BitsToVal(Middle(t))
      case Err(e) => Err(e)
      case Ok(_) =>
        if t == [] || (t[0] == 1 && k == []) then Err(IndexError)
        else
          var carry := t[0] == 2 || (t[0] == 1 && k[0]);
          var kv := KValue(k);
          Ok((if kv % 2 == 0 then kv + 1 else kv, [Plus(carry)] + Middle(t)))
    else
      match BitsToVal(DropLast(t))
      case Err(e) => Err(e)
      case Ok(_) => Ok((KValue(k), DropLast(t)))
  }

  /** The register with every bit but the lowest inverted: reg ^ (~(~0 << (m - 2)) << 1) for a
    * register of m - 1 bits. */
  function FlipAllButFirst(bits: seq<int>): (r: seq<int>)
    requires bits != [] && AllBits(bits)
    ensures |r| == |bits| && AllBits(r) && r[0] == bits[0]
  {
    [bits[0]] + Complement(bits[1..])
  }

  function Complement(bits: seq<int>): (r: seq<int>)
    ensures |r| == |bits|
    ensures forall i :: 0 <= i < |bits| ==> r[i] == 1 - bits[i]
  {
    if bits == [] then [] else [1 - bits[0]] + Complement(bits[1..])
  }

  lemma {:induction false} ComplementValue(bits: seq<int>)
    requires AllBits(bits)
    ensures AllBits(Complement(bits)) && Value(Complement(bits)) == Pow2(|bits|) - 1 - Value(bits)
  {
    if bits != [] {
      var rest := bits[1..];
      assert AllBits(rest) by { forall i | 0 <= i < |rest| ensures IsBit(rest[i]) { assert rest[i] == bits[i + 1]; } }
      ComplementValue(rest);
      assert Complement(bits)[1..] == Complement(rest);
    }
  }

  /** XOR with the mask of bits 1 .. n - 1 keeps the low bit and complements the rest. */
  lemma FlipValue(bits: seq<int>)
    requires bits != [] && AllBits(bits)
    ensures Value(FlipAllButFirst(bits)) == bits[0] + (Pow2(|bits|) - 2) - (Value(bits) - bits[0])
  {
    var rest := bits[1..];
    assert AllBits(rest) by { forall i | 0 <= i < |rest| ensures IsBit(rest[i]) { assert rest[i] == bits[i + 1]; } }
    ComplementValue(rest);
    assert FlipAllButFirst(bits)[1..] == Complement(rest);
  }

  // ---- PlusKCarryGate ----

  /** PlusKCarryGate.applied_to_trits: a top ancilla trit is set aside; the last trit moves by +1
    * (+2 when inverted) modulo 3 when k_val + reg_val needs more than len(k) bits. */
  function CarryApplied(k: seq<bool>, carryIn: bool, topAncilla: bool, inverted: bool, trits: seq<int>)
    : Result<seq<int>>
  {
    if topAncilla && trits == [] then Err(IndexError)
    else
      var anc := if topAncilla then trits[..1] else [];
      var t := if topAncilla then trits[1..] else trits;
      match Register(k, carryIn, t)
      case Err(e) => Err(e)
      case Ok((kv, reg)) =>
        if BitLength(kv + Value(reg)) > |k| then
          if t == [] then Err(IndexError)
          else Ok(anc + t[|t| - 1 := (t[|t| - 1] + 1 + Plus(inverted)) % 3])
        else Ok(anc + t)
  }

  /** validate_trits of both carry gates: the register, the target and the optional ancilla. */
  predicate CarryValid(k: seq<bool>, topAncilla: bool, trits: seq<int>)
  {
    ValidTrits(trits) && |trits| == |k| + 1 + Plus(topAncilla)
  }

  /** Whether the sum of k and the register does not fit in len(k) bits. */
  predicate Overflows(k: seq<bool>, carryIn: bool, t: seq<int>)
    requires Register(k, carryIn, t).Ok?
  {
    var (kv, reg) := Register(k, carryIn, t).value;
    kv + Value(reg) >= Pow2(|k|)
  }

  function Target(topAncilla: bool, trits: seq<int>): seq<int>
    requires topAncilla ==> trits != []
  {
    if topAncilla then trits[1..] else trits
  }

  /** Only the last trit can change; the ancilla trit is passed through. */
  lemma CarryKeepsInit(k: seq<bool>, carryIn: bool, topAncilla: bool, inverted: bool, trits: seq<int>)
    requires CarryApplied(k, carryIn, topAncilla, inverted, trits).Ok?
    ensures (topAncilla ==> trits != []) && Register(k, carryIn, Target(topAncilla, trits)).Ok?
    ensures |CarryApplied(k, carryIn, topAncilla, inverted, trits).value| == |trits|
    ensures DropLast(CarryApplied(k, carryIn, topAncilla, inverted, trits).value) == DropLast(trits)
    ensures Overflows(k, carryIn, Target(topAncilla, trits)) ==> Target(topAncilla, trits) != []
  {
    var t := Target(topAncilla, trits);
    var (kv, reg) := Register(k, carryIn, t).value;
    BitLengthExceeds(kv + Value(reg), |k|);
    if topAncilla { assert trits == trits[..1] + trits[1..]; }
  }

  /** The last trit changes exactly when the addition overflows, and then by +1 (+2 when
    * inverted) modulo 3. */
  lemma CarryLast(k: seq<bool>, carryIn: bool, topAncilla: bool, inverted: bool, trits: seq<int>)
    requires CarryApplied(k, carryIn, topAncilla, inverted, trits).Ok? && trits != []
    ensures (topAncilla ==> trits != []) && Register(k, carryIn, Target(topAncilla, trits)).Ok?
    ensures var out := CarryApplied(k, carryIn, topAncilla, inverted, trits).value;
      |out| == |trits| &&
      out[|out| - 1] == if Overflows(k, carryIn, Target(topAncilla, trits))
                        then (trits[|trits| - 1] + 1 + Plus(inverted)) % 3
                        else trits[|trits| - 1]
  {
    var t := Target(topAncilla, trits);
    var (kv, reg) := Register(k, carryIn, t).value;
    BitLengthExceeds(kv + Value(reg), |k|);
  }

  lemma ShiftBack(x: int, inverted: bool)
    requires IsTrit(x)
    ensures ((x + 1 + Plus(inverted)) % 3 + 1 + Plus(!inverted)) % 3 == x
  {
  }

  /** The carry gate leaves the register as it found it, so the inverted gate reads the same
    * register and sees the same overflow. */
  lemma CarrySameRegister(k: seq<bool>, carryIn: bool, topAncilla: bool, inverted: bool, trits: seq<int>)
    requires CarryApplied(k, carryIn, topAncilla, inverted, trits).Ok? && trits != []
    requires carryIn ==> |trits| >= 2 + Plus(topAncilla)
    ensures var out := CarryApplied(k, carryIn, topAncilla, inverted, trits).value;
      (topAncilla ==> out != []) && Register(k, carryIn, Target(topAncilla, trits)).Ok? &&
      Register(k, carryIn, Target(topAncilla, out)) == Register(k, carryIn, Target(topAncilla, trits)) &&
      |Target(topAncilla, out)| == |Target(topAncilla, trits)|
  {
    var out := CarryApplied(k, carryIn, topAncilla, inverted, trits).value;
    CarryKeepsInit(k, carryIn, topAncilla, inverted, trits);
    TargetsShareInit(topAncilla, trits, out);
    RegisterOfSameControls(k, carryIn, Target(topAncilla, trits), Target(topAncilla, out));
  }

  /** A carry gate whose register reads Ok succeeds on a non-empty target. */
  lemma CarryOkOfRegister(k: seq<bool>, carryIn: bool, topAncilla: bool, inverted: bool, trits: seq<int>)
    requires trits != [] && Register(k, carryIn, Target(topAncilla, trits)).Ok?
    requires Overflows(k, carryIn, Target(topAncilla, trits)) ==> Target(topAncilla, trits) != []
    ensures CarryApplied(k, carryIn, topAncilla, inverted, trits).Ok?
  {
    var t := Target(topAncilla, trits);
    var (kv, reg) := Register(k, carryIn, t).value;
    BitLengthExceeds(kv + Value(reg), |k|);
  }

  /** Without trits, k alone never overflows len(k) bits. */
  lemma CarryNoTrits(k: seq<bool>, inverted: bool)
    ensures CarryApplied(k, false, false, inverted, []) == Ok([])
  {
    assert Register(k, false, []) == Ok((KValue(k), []));
    ValueBound(BoolBits(k));
    BitLengthExceeds(KValue(k), |k|);
    var none: seq<int> := [];
    assert CarryApplied(k, false, false, inverted, []) == Ok(none + none);
    assert none + none == [];
  }

  /** The inverted carry gate undoes the carry gate whenever the last trit is a trit. */
  lemma CarryInverse(k: seq<bool>, carryIn: bool, topAncilla: bool, inverted: bool, trits: seq<int>)
    requires CarryApplied(k, carryIn, topAncilla, inverted, trits).Ok?
    requires trits != [] ==> IsTrit(trits[|trits| - 1])
    requires carryIn ==> |trits| >= 2 + Plus(topAncilla)
    ensures Inverse(PlusKCarry(k, carryIn, topAncilla, inverted)) == Some(PlusKCarry(k, carryIn, topAncilla, !inverted))
    ensures CarryApplied(k, carryIn, topAncilla, !inverted, CarryApplied(k, carryIn, topAncilla, inverted, trits).value)
      == Ok(trits)
  {
    CarryInverseGate(k, carryIn, topAncilla, inverted);
    if trits == [] {
      CarryNoTrits(k, inverted);
      CarryNoTrits(k, !inverted);
    } else {
      CarryInverseSomeTrits(k, carryIn, topAncilla, inverted, trits);
    }
  }

  lemma CarryInverseGate(k: seq<bool>, carryIn: bool, topAncilla: bool, inverted: bool)
    ensures Inverse(PlusKCarry(k, carryIn, topAncilla, inverted)) == Some(PlusKCarry(k, carryIn, topAncilla, !inverted))
  {
  }

  lemma CarryInverseSomeTrits(k: seq<bool>, carryIn: bool, topAncilla: bool, inverted: bool, trits: seq<int>)
    requires CarryApplied(k, carryIn, topAncilla, inverted, trits).Ok?
    requires trits != [] && IsTrit(trits[|trits| - 1])
    requires carryIn ==> |trits| >= 2 + Plus(topAncilla)
    ensures CarryApplied(k, carryIn, topAncilla, !inverted, CarryApplied(k, carryIn, topAncilla, inverted, trits).value)
      == Ok(trits)
  {
    var out := CarryApplied(k, carryIn, topAncilla, inverted, trits).value;
    CarryKeepsInit(k, carryIn, topAncilla, inverted, trits);
    CarryLast(k, carryIn, topAncilla, inverted, trits);
    CarrySameRegister(k, carryIn, topAncilla, inverted, trits);
    CarryOkOfRegister(k, carryIn, topAncilla, !inverted, out);
    CarryKeepsInit(k, carryIn, topAncilla, !inverted, out);
    CarryLast(k, carryIn, topAncilla, !inverted, out);
    var back := CarryApplied(k, carryIn, topAncilla, !inverted, out).value;
    if Overflows(k, carryIn, Target(topAncilla, trits)) { ShiftBack(trits[|trits| - 1], inverted); }
    SameInitAndLast(back, trits);
  }

  lemma TargetsShareInit(topAncilla: bool, a: seq<int>, b: seq<int>)
    requires a != [] && |a| == |b| && DropLast(a) == DropLast(b)
    requires topAncilla ==> |a| >= 1
    ensures |Target(topAncilla, a)| == |Target(topAncilla, b)|
    ensures DropLast(Target(topAncilla, a)) == DropLast(Target(topAncilla, b))
  {
    if topAncilla && |a| >= 2 {
      assert DropLast(a[1..]) == DropLast(a)[1..];
      assert DropLast(b[1..]) == DropLast(b)[1..];
    }
  }

  lemma SameInitAndLast(a: seq<int>, b: seq<int>)
    requires a != [] && |a| == |b| && DropLast(a) == DropLast(b) && a[|a| - 1] == b[|b| - 1]
    ensures a == b
  {
    assert a == DropLast(a) + [a[|a| - 1]];
    assert b == DropLast(b) + [b[|b| - 1]];
  }

  /** The register does not read the last trit, except as trit 0 of a one-trit target. */
  lemma RegisterOfSameControls(k: seq<bool>, carryIn: bool, t: seq<int>, t2: seq<int>)
    requires |t| == |t2| && DropLast(t) == DropLast(t2)
    requires |t| == 1 && carryIn ==> t[0] == t2[0]
    ensures Register(k, carryIn, t) == Register(k, carryIn, t2)
  {
    if |t| >= 2 {
      assert t[0] == DropLast(t)[0] && t2[0] == DropLast(t2)[0];
      assert Middle(t) == DropLast(t)[1..] && Middle(t2) == DropLast(t2)[1..];
    }
  }

  // ---- PlusKUncarryAddGate ----

  /** F02 on a trit: (2t - 1) mod 3, which swaps 0 and 2. */
  function SwapZeroTwo(t: int): int { (t * 2 - 1) % 3 }

  /** PlusKUncarryAddGate.applied_to_trits: the register of the carry gate with every bit but
    * its lowest inverted; the last trit gets F02 when k_val plus that register needs more than
    * len(k) bits. The mask shifts by len(trits) - 2, which Python rejects with ValueError for a
    * target of fewer than two trits. */
  function UncarryApplied(k: seq<bool>, carryIn: bool, topAncilla: bool, trits: seq<int>): Result<seq<int>>
  {
    if topAncilla && trits == [] then Err(IndexError)
    else
      var anc := if topAncilla then trits[..1] else [];
      var t := if topAncilla then trits[1..] else trits;
      match Register(k, carryIn, t)
      case Err(e) => Err(e)
      case Ok((kv, reg)) =>
        if |t| < 2 then Err(ValueError)
        else if BitLength(kv + Value(FlipAllButFirst(reg))) > |k| then
          Ok(anc + t[|t| - 1 := SwapZeroTwo(t[|t| - 1])])
        else Ok(anc + t)
  }

  /** Whether k plus the register with its upper bits inverted does not fit in len(k) bits. */
  predicate UncarryFires(k: seq<bool>, carryIn: bool, t: seq<int>)
    requires Register(k, carryIn, t).Ok? && |t| >= 2
  {
    var (kv, reg) := Register(k, carryIn, t).value;
    kv + Value(FlipAllButFirst(reg)) >= Pow2(|k|)
  }

  /** The gate fails exactly where its source raises, and otherwise changes at most the last trit,
    * applying F02 to it exactly when the inverted register overflows. */
  lemma UncarryShape(k: seq<bool>, carryIn: bool, topAncilla: bool, trits: seq<int>)
    ensures UncarryApplied(k, carryIn, topAncilla, trits).Ok? <==>
      (!topAncilla || trits != []) && Register(k, carryIn, Target(topAncilla, trits)).Ok? &&
      |Target(topAncilla, trits)| >= 2
    ensures UncarryApplied(k, carryIn, topAncilla, trits).Ok? ==>
      var out := UncarryApplied(k, carryIn, topAncilla, trits).value;
      |out| == |trits| && DropLast(out) == DropLast(trits) &&
      out[|out| - 1] == if UncarryFires(k, carryIn, Target(topAncilla, trits))
                        then SwapZeroTwo(trits[|trits| - 1]) else trits[|trits| - 1]
  {
    UncarryOkWhen(k, carryIn, topAncilla, trits);
    if UncarryApplied(k, carryIn, topAncilla, trits).Ok? {
      UncarryOut(k, carryIn, topAncilla, trits);
    }
  }

  lemma UncarryOut(k: seq<bool>, carryIn: bool, topAncilla: bool, trits: seq<int>)
    requires (!topAncilla || trits != []) && Register(k, carryIn, Target(topAncilla, trits)).Ok? &&
      |Target(topAncilla, trits)| >= 2
    ensures UncarryApplied(k, carryIn, topAncilla, trits).Ok?
    ensures var out := UncarryApplied(k, carryIn, topAncilla, trits).value;
      |out| == |trits| && DropLast(out) == DropLast(trits) &&
      out[|out| - 1] == if UncarryFires(k, carryIn, Target(topAncilla, trits))
                        then SwapZeroTwo(trits[|trits| - 1]) else trits[|trits| - 1]
  {
    {
      var t := Target(topAncilla, trits);
      var anc: seq<int> := if topAncilla then trits[..1] else [];
      assert anc + t == trits by {
        if topAncilla { assert trits == trits[..1] + trits[1..]; }
      }
      AtRight(anc, t, |t| - 1);
      var last := trits[|trits| - 1];
      assert t[|t| - 1] == last;
      var v := if UncarryFires(k, carryIn, t) then SwapZeroTwo(last) else last;
      UncarryValue(k, carryIn, topAncilla, trits);
      LastReplaced(anc, t, v);
    }
  }

  lemma UncarryOkWhen(k: seq<bool>, carryIn: bool, topAncilla: bool, trits: seq<int>)
    ensures UncarryApplied(k, carryIn, topAncilla, trits).Ok? <==>
      (!topAncilla || trits != []) && Register(k, carryIn, Target(topAncilla, trits)).Ok? &&
      |Target(topAncilla, trits)| >= 2
  {
  }

  lemma UncarryValue(k: seq<bool>, carryIn: bool, topAncilla: bool, trits: seq<int>)
    requires !(topAncilla && trits == [])
    requires Register(k, carryIn, Target(topAncilla, trits)).Ok? && |Target(topAncilla, trits)| >= 2
    ensures var t := Target(topAncilla, trits);
      var v := if UncarryFires(k, carryIn, t) then SwapZeroTwo(t[|t| - 1]) else t[|t| - 1];
      UncarryApplied(k, carryIn, topAncilla, trits) == Ok((if topAncilla then trits[..1] else []) + t[|t| - 1 := v])
  {
    var t := Target(topAncilla, trits);
    var (kv, reg) := Register(k, carryIn, t).value;
    BitLengthExceeds(kv + Value(FlipAllButFirst(reg)), |k|);
    if !UncarryFires(k, carryIn, t) {
      assert t[|t| - 1 := t[|t| - 1]] == t;
    }
  }

  /** Replacing the last trit after a prefix keeps everything before it. */
  lemma LastReplaced(anc: seq<int>, t: seq<int>, v: int)
    requires t != []
    ensures var out := anc + t[|t| - 1 := v];
      |out| == |anc| + |t| && DropLast(out) == DropLast(anc + t) && out[|out| - 1] == v
  {
    var out := anc + t[|t| - 1 := v];
    assert DropLast(out) == anc + t[..|t| - 1];
    assert DropLast(anc + t) == anc + t[..|t| - 1];
  }

  /** With a register of len(k) bits the gate fires exactly when the register, its low bit
    * doubled, stays two below k: k + (2^n - 2 - (reg - r0)) + r0 >= 2^n. */
  lemma UncarryFiresMeaning(k: seq<bool>, carryIn: bool, t: seq<int>)
    requires Register(k, carryIn, t).Ok? && |t| >= 2
    requires |Register(k, carryIn, t).value.1| == |k|
    ensures var (kv, reg) := Register(k, carryIn, t).value;
      UncarryFires(k, carryIn, t) <==> Value(reg) + 2 <= kv + 2 * reg[0]
  {
    var (kv, reg) := Register(k, carryIn, t).value;
    FlipValue(reg);
  }

  /** F02 is its own inverse on trits. */
  lemma SwapZeroTwoInvolution(x: int)
    requires IsTrit(x)
    ensures IsTrit(SwapZeroTwo(x)) && SwapZeroTwo(SwapZeroTwo(x)) == x
  {
  }

  /** inverse() returns the gate itself, and applying it twice restores every input whose last trit
    * is a trit. */
  lemma UncarryInverse(k: seq<bool>, carryIn: bool, topAncilla: bool, trits: seq<int>)
    requires UncarryApplied(k, carryIn, topAncilla, trits).Ok?
    requires trits != [] ==> IsTrit(trits[|trits| - 1])
    ensures Inverse(PlusKUncarryAdd(k, carryIn, topAncilla)) == Some(PlusKUncarryAdd(k, carryIn, topAncilla))
    ensures UncarryApplied(k, carryIn, topAncilla, UncarryApplied(k, carryIn, topAncilla, trits).value) == Ok(trits)
  {
    UncarryInverseGate(k, carryIn, topAncilla);
    var out := UncarryApplied(k, carryIn, topAncilla, trits).value;
    UncarrySameRegister(k, carryIn, topAncilla, trits);
    var t := Target(topAncilla, trits);
    UncarryShape(k, carryIn, topAncilla, out);
    var back := UncarryApplied(k, carryIn, topAncilla, out).value;
    var x := trits[|trits| - 1];
    assert back[|back| - 1] == x by {
      if UncarryFires(k, carryIn, t) { SwapZeroTwoInvolution(x); }
    }
    SameInitAndLast(back, trits);
    OkValue(UncarryApplied(k, carryIn, topAncilla, out), trits);
  }

  lemma UncarryInverseGate(k: seq<bool>, carryIn: bool, topAncilla: bool)
    ensures Inverse(PlusKUncarryAdd(k, carryIn, topAncilla)) == Some(PlusKUncarryAdd(k, carryIn, topAncilla))
  {
  }

  lemma OkValue<T>(r: Result<T>, v: T)
    requires r.Ok? && r.value == v
    ensures r == Ok(v)
  {
  }

  /** The uncarry gate leaves the register as it found it. */
  lemma UncarrySameRegister(k: seq<bool>, carryIn: bool, topAncilla: bool, trits: seq<int>)
    requires UncarryApplied(k, carryIn, topAncilla, trits).Ok?
    ensures var out := UncarryApplied(k, carryIn, topAncilla, trits).value;
      UncarryApplied(k, carryIn, topAncilla, out).Ok? &&
      |out| == |trits| && DropLast(out) == DropLast(trits) &&
      (topAncilla ==> trits != []) && Register(k, carryIn, Target(topAncilla, trits)).Ok? &&
      |Target(topAncilla, trits)| >= 2 &&
      out[|out| - 1] == (if UncarryFires(k, carryIn, Target(topAncilla, trits))
                         then SwapZeroTwo(trits[|trits| - 1]) else trits[|trits| - 1]) &&
      Register(k, carryIn, Target(topAncilla, out)) == Register(k, carryIn, Target(topAncilla, trits)) &&
      |Target(topAncilla, out)| == |Target(topAncilla, trits)|
  {
    var out := UncarryApplied(k, carryIn, topAncilla, trits).value;
    UncarryShape(k, carryIn, topAncilla, trits);
    TargetsShareInit(topAncilla, trits, out);
    RegisterOfSameControls(k, carryIn, Target(topAncilla, trits), Target(topAncilla, out));
    UncarryShape(k, carryIn, topAncilla, out);
  }
}
