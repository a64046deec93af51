/** SmallPlusKCarry: the linear-depth fallback for the carry gates. It applies u to the last qutrit
  * when adding the constant k to the register in the other qutrits overflows len(k) bits; with a
  * carry in, qutrit 0 holding 2 stands for a carried one. */
module SmallPlusKCarryGate {
  import opened Wrappers
  import opened Gates
  import opened Bits
  import opened PlusKGate
  import CommonGates

  /** The low bit of k forced on (bin_k |= 1). */
  function OrOne(v: nat): nat { if v % 2 == 0 then v + 1 else v }

  /** bin_k + bin_input. With a carry in and trits[0] == 2, bit 0 of the register is read as 1
    * and k's low bit set; int('', 2) on an empty k or an empty register, and any digit other than
    * 0 and 1, is a ValueError. */
  function Sum(k: seq<bool>, carryIn: bool, trits: seq<int>): Result<nat>
  {
    if carryIn && trits == [] then Err(IndexError)
    else if k == [] then Err(ValueError)
    else
      var carry := carryIn && trits[0] == 2;
      var bits := if carry then trits[0 := 1] else trits;
      var kv := if carry then OrOne(KValue(k)) else KValue(k);
      var low := DropLast(bits);
      if low == [] || !AllBits(low) then Err(ValueError)
      else Ok(kv + Value(low))
  }

  /** applied_to_trits: the last trit is handed to u when the sum needs more than len(k) bits. */
  function Applied(k: seq<bool>, carryIn: bool, u: seq<int> -> Result<seq<int>>, trits: seq<int>)
    : (r: Result<seq<int>>)
    ensures carryIn && trits == [] ==> r == Err(IndexError)
    ensures !(carryIn && trits == []) && k == [] ==> r == Err(ValueError)
    ensures r.Ok? ==>
      |k| >= 1 && |trits| >= 2 && |r.value| >= |trits| - 1 &&
      r.value[..|trits| - 1] == trits[..|trits| - 1]
    ensures r.Ok? ==> r.value == trits || u(trits[|trits| - 1..]) == Ok(r.value[|trits| - 1..])
  {
    match Sum(k, carryIn, trits)
    case Err(e) => Err(e)
    case Ok(sum) =>
      if BitLength(sum) > |k| then
        var n := |trits|;
        match u(trits[n - 1..])
        case Err(e) => Err(e)
        case Ok(v) =>
          assert (trits[..n - 1] + v)[..n - 1] == trits[..n - 1];
          Ok(trits[..n - 1] + v)
      else Ok(trits)
  }

  /** validate_trits: in range, one qutrit per bit of k plus the target, and at least two. */
  predicate Valid(k: seq<bool>, trits: seq<int>)
  {
    ValidTrits(trits) && |trits| == |k| + 1 && |trits| >= 2
  }

  /** The register bits the carry gates read: trits[1:-1] with a carry in, trits[:-1] without. */
  predicate BinaryRegister(carryIn: bool, trits: seq<int>)
  {
    if carryIn then AllBits(Middle(trits)) else AllBits(DropLast(trits))
  }

  /** With u = +1 or -1 the fallback is the gate it stands in for: PlusKCarryGate without a top
    * ancilla, inverted for -1. The two read the carry qutrit differently — here a 1 in qutrit 0
    * is an ordinary register bit, there it carries only when k's low bit is set — but the sums
    * they compare differ only by one on an even number, and never across 2^len(k). */
  lemma AgreesWithCarry(k: seq<bool>, carryIn: bool, inverted: bool, trits: seq<int>)
    requires Valid(k, trits) && BinaryRegister(carryIn, trits)
    ensures var u := if inverted then MinusOne else PlusOne;
      Applied(k, carryIn, t => CommonGates.Applied(u, t), trits) == CarryApplied(k, carryIn, false, inverted, trits)
  {
    var u := if inverted then MinusOne else PlusOne;
    var n := |trits|;
    var sum := SameOverflow(k, carryIn, trits);
    var x := trits[n - 1];
    var fired := trits[n - 1 := (x + 1 + Plus(inverted)) % 3];
    CarryNoAncilla(k, carryIn, inverted, trits);
    assert CommonGates.Step(u, x) == (x + 1 + Plus(inverted)) % 3;
    SmallOnBase(k, carryIn, u, trits, sum);
  }

  /** The fallback with a base gate u changes the last trit to u's image exactly when the sum
    * overflows. */
  lemma SmallOnBase(k: seq<bool>, carryIn: bool, u: Gate, trits: seq<int>, sum: nat)
    requires IsBaseGate(u) && |trits| >= 2 && Sum(k, carryIn, trits) == Ok(sum)
    ensures var n := |trits|;
      Applied(k, carryIn, t => CommonGates.Applied(u, t), trits) ==
      Ok(if BitLength(sum) > |k| then trits[n - 1 := CommonGates.Step(u, trits[n - 1])] else trits)
  {
    var n := |trits|;
    assert trits[n - 1..] == [trits[n - 1]];
    assert trits[..n - 1] + [CommonGates.Step(u, trits[n - 1])] == trits[n - 1 := CommonGates.Step(u, trits[n - 1])];
  }

  /** PlusKCarryGate without a top ancilla, on a binary register. */
  lemma CarryNoAncilla(k: seq<bool>, carryIn: bool, inverted: bool, trits: seq<int>)
    requires Valid(k, trits) && BinaryRegister(carryIn, trits)
    ensures Register(k, carryIn, trits).Ok?
    ensures var n := |trits|;
      CarryApplied(k, carryIn, false, inverted, trits) ==
      Ok(if Overflows(k, carryIn, trits) then trits[n - 1 := (trits[n - 1] + 1 + Plus(inverted)) % 3] else trits)
  {
    assert carryIn ==> BitsToVal(Middle(trits)).Ok?;
    assert !carryIn ==> BitsToVal(DropLast(trits)).Ok?;
    var (kv, r) := Register(k, carryIn, trits).value;
    BitLengthExceeds(kv + Value(r), |k|);
    assert [] + trits == trits;
    var n := |trits|;
    assert [] + trits[n - 1 := (trits[n - 1] + 1 + Plus(inverted)) % 3] == trits[n - 1 := (trits[n - 1] + 1 + Plus(inverted)) % 3];
  }

  /** The fallback's sum overflows len(k) bits exactly when the carry gate's does. */
  lemma SameOverflow(k: seq<bool>, carryIn: bool, trits: seq<int>) returns (sum: nat)
    requires Valid(k, trits) && BinaryRegister(carryIn, trits)
    ensures Register(k, carryIn, trits).Ok? && Sum(k, carryIn, trits) == Ok(sum)
    ensures BitLength(sum) > |k| <==> Overflows(k, carryIn, trits)
  {
    assert carryIn ==> BitsToVal(Middle(trits)).Ok?;
    assert !carryIn ==> BitsToVal(DropLast(trits)).Ok?;
    var (kv, r) := Register(k, carryIn, trits).value;
    var carry := carryIn && trits[0] == 2;
    var bits := if carry then trits[0 := 1] else trits;
    var skv := if carry then OrOne(KValue(k)) else KValue(k);
    var low := DropLast(bits);
    LowBitsAreBits(carryIn, trits, carry, bits);
    sum := skv + Value(low);
    SumsOverflowTogether(k, carryIn, trits, skv, low, kv, r);
    BitLengthExceeds(kv + Value(r), |k|);
  }

  lemma LowBitsAreBits(carryIn: bool, trits: seq<int>, carry: bool, bits: seq<int>)
    requires |trits| >= 2 && ValidTrits(trits) && BinaryRegister(carryIn, trits)
    requires carry == (carryIn && trits[0] == 2) && bits == if carry then trits[0 := 1] else trits
    ensures DropLast(bits) == [bits[0]] + Middle(trits) && AllBits(DropLast(bits))
  {
    var n := |trits|;
    assert DropLast(bits) == bits[..n - 1];
    assert Middle(trits) == trits[1..n - 1];
    assert bits[..n - 1] == [bits[0]] + trits[1..n - 1];
    if !carryIn {
      assert DropLast(trits) == trits[..n - 1];
      assert IsBit(trits[0]) by { assert trits[..n - 1][0] == trits[0]; }
    }
  }

  /** The two sums exceed len(k) bits together. */
  lemma SumsOverflowTogether(k: seq<bool>, carryIn: bool, trits: seq<int>, skv: nat, low: seq<int>,
                             kv: nat, r: seq<int>)
    requires |k| >= 1 && |trits| == |k| + 1 && ValidTrits(trits) && BinaryRegister(carryIn, trits)
    requires Register(k, carryIn, trits) == Ok((kv, r))
    requires skv == if carryIn && trits[0] == 2 then OrOne(KValue(k)) else KValue(k)
    requires low == DropLast(if carryIn && trits[0] == 2 then trits[0 := 1] else trits)
    requires AllBits(low) && low == [low[0]] + Middle(trits)
    ensures BitLength(skv + Value(low)) > |k| <==> BitLength(kv + Value(r)) > |k|
  {
    BitLengthExceeds(skv + Value(low), |k|);
    BitLengthExceeds(kv + Value(r), |k|);
    if carryIn {
      var m := Middle(trits);
      var kk := KValue(k);
      KValueParity(k);
      assert Value(low) == low[0] + 2 * Value(m) by { assert low[1..] == m; }
      assert Value(r) == r[0] + 2 * Value(m) by { assert r == [r[0]] + m; assert r[1..] == m; }
      if trits[0] != 2 && !k[0] && trits[0] != 1 {
        // Both sums are even plus 0 or 1, and 2^len(k) is even.
        assert skv + Value(low) + 1 == kv + Value(r);
        Pow2Even(|k|);
      }
    }
  }

  lemma KValueParity(k: seq<bool>)
    requires |k| >= 1
    ensures KValue(k) % 2 == Plus(k[0])
  {
    assert BoolBits(k)[0] == Plus(k[0]);
  }

  lemma Pow2Even(n: nat)
    requires n >= 1
    ensures Pow2(n) % 2 == 0
  {
  }

  /** A zero low bit of k can never start a carry, so without a carry in the gate on k and
    * trits is the gate on k[1:] and trits[1:] with trits[0] kept: the trimming the decomposition
    * does. */
  lemma TrimPreservesGate(k: seq<bool>, u: seq<int> -> Result<seq<int>>, trits: seq<int>)
    requires |k| >= 2 && !k[0] && |trits| == |k| + 1 && IsBit(trits[0])
    ensures Applied(k, false, u, trits) == Prepend(trits[0], Applied(k[1..], false, u, trits[1..]))
  {
    var n := |trits|;
    TrimSum(k, trits);
    var sum := Sum(k[1..], false, trits[1..]);
    if sum.Ok? && BitLength(sum.value) > |k| - 1 {
      TrimFired(k, u, trits);
    } else if sum.Ok? {
      TrimIdle(k, u, trits);
    }
  }

  lemma TrimFired(k: seq<bool>, u: seq<int> -> Result<seq<int>>, trits: seq<int>)
    requires |k| >= 2 && |trits| == |k| + 1
    requires Sum(k[1..], false, trits[1..]).Ok? && BitLength(Sum(k[1..], false, trits[1..]).value) > |k| - 1
    requires Sum(k, false, trits).Ok? && BitLength(Sum(k, false, trits).value) > |k|
    ensures Applied(k, false, u, trits) == Prepend(trits[0], Applied(k[1..], false, u, trits[1..]))
  {
    var n := |trits|;
    var rest := trits[1..];
    assert rest[n - 2..] == trits[n - 1..];
    match u(trits[n - 1..])
    case Ok(w) =>
      assert [trits[0]] + (rest[..n - 2] + w) == trits[..n - 1] + w;
    case Err(_) =>
  }

  lemma TrimIdle(k: seq<bool>, u: seq<int> -> Result<seq<int>>, trits: seq<int>)
    requires |k| >= 2 && |trits| == |k| + 1
    requires Sum(k[1..], false, trits[1..]).Ok? && BitLength(Sum(k[1..], false, trits[1..]).value) <= |k| - 1
    requires Sum(k, false, trits).Ok? && BitLength(Sum(k, false, trits).value) <= |k|
    ensures Applied(k, false, u, trits) == Prepend(trits[0], Applied(k[1..], false, u, trits[1..]))
  {
    assert [trits[0]] + trits[1..] == trits;
  }

  function Prepend(x: int, r: Result<seq<int>>): Result<seq<int>>
  {
    match r
    case Ok(v) => Ok([x] + v)
    case Err(e) => Err(e)
  }

  /** Dropping a zero low bit of k and the register's low bit halves the sum, and the sum
    * overflows len(k) bits exactly when the halved one overflows len(k) - 1. */
  lemma TrimSum(k: seq<bool>, trits: seq<int>)
    requires |k| >= 2 && !k[0] && |trits| == |k| + 1 && IsBit(trits[0])
    ensures Sum(k, false, trits).Ok? <==> Sum(k[1..], false, trits[1..]).Ok?
    ensures Sum(k, false, trits).Err? ==> Sum(k, false, trits) == Sum(k[1..], false, trits[1..])
    ensures Sum(k, false, trits).Ok? ==>
      (BitLength(Sum(k, false, trits).value) > |k| <==> BitLength(Sum(k[1..], false, trits[1..]).value) > |k| - 1)
  {
    var low := DropLast(trits);
    var low' := DropLast(trits[1..]);
    TrimLow(trits);
    TrimK(k);
    assert Sum(k, false, trits) == if AllBits(low) then Ok(KValue(k) + Value(low)) else Err(ValueError);
    assert Sum(k[1..], false, trits[1..]) ==
      if AllBits(low') then Ok(KValue(k[1..]) + Value(low')) else Err(ValueError);
    if AllBits(low) {
      var s := KValue(k) + Value(low);
      var s' := KValue(k[1..]) + Value(low');
      assert s == trits[0] + 2 * s';
      BitLengthExceeds(s, |k|);
      BitLengthExceeds(s', |k| - 1);
      assert Pow2(|k|) == 2 * Pow2(|k| - 1);
    }
  }

  /** The register without its low bit: the bits after it, worth half once that bit is taken off. */
  lemma TrimLow(trits: seq<int>)
    requires |trits| >= 3 && IsBit(trits[0])
    ensures var low, low' := DropLast(trits), DropLast(trits[1..]);
      low != [] && low' != [] && (AllBits(low) <==> AllBits(low')) &&
      (AllBits(low) ==> Value(low) == trits[0] + 2 * Value(low'))
  {
    var n := |trits|;
    var low := DropLast(trits);
    var low' := DropLast(trits[1..]);
    assert low[1..] == low' by { assert low' == trits[1..n - 1]; }
    if AllBits(low') {
      forall i | 0 <= i < |low| ensures IsBit(low[i]) { if i > 0 { assert low[i] == low'[i - 1]; } }
    }
    if AllBits(low) {
      forall i | 0 <= i < |low'| ensures IsBit(low'[i]) { assert low'[i] == low[i + 1]; }
    }
  }

  /** A zero low bit of k halves its value once dropped. */
  lemma TrimK(k: seq<bool>)
    requires |k| >= 1 && !k[0]
    ensures KValue(k) == 2 * KValue(k[1..])
  {
    assert BoolBits(k)[1..] == BoolBits(k[1..]);
  }

  // ---- default_decompose ----

  /** The loop dropping the leading zero bits of k and as many leading qubits; a k with no one bit
    * runs off its end, an IndexError. */
  method TrimLeadingZeros(k: seq<bool>, qubits: seq<Qubit>) returns (r: Result<(seq<bool>, seq<Qubit>)>)
    ensures r.Err? <==> forall i :: 0 <= i < |k| ==> !k[i]
    ensures r.Err? ==> r.error == IndexError
    ensures r.Ok? ==> exists z :: 0 <= z < |k| && (forall i :: 0 <= i < z ==> !k[i]) && k[z] &&
                               r.value == (k[z..], if z <= |qubits| then qubits[z..] else [])
  {
    var kk := k;
    var qs := qubits;
    var z := 0;
    while kk != [] && !kk[0]
      invariant 0 <= z <= |k| && kk == k[z..]
      invariant qs == if z <= |qubits| then qubits[z..] else []
      invariant forall i :: 0 <= i < z ==> !k[i]
      decreases |kk|
    {
      kk := kk[1..];
      qs := if qs == [] then [] else qs[1..];
      z := z + 1;
    }
    if kk == [] {
      return Err(IndexError);
    }
    return Ok((kk, qs));
  }

  /** The control set of the single remaining bit: 1 when it is set, 2 with a carry in. */
  function SingleControl(k0: bool, carryIn: bool): seq<int>
  {
    (if k0 then [1] else []) + (if carryIn then [2] else [])
  }

  /** gen_forward_circuit: the first pair of qutrits, then one or two gates per later bit, chosen
    * by the bit and the bit above it. */
  function ForwardCircuit(carryIn: bool, k: seq<bool>, qubits: seq<Qubit>): (r: seq<TernaryOp>)
    requires 2 <= |k| <= |qubits|
  {
    var q0, q1 := qubits[0], qubits[1];
    var first :=
      if carryIn then
        if !k[1] then
          if k[0] then [TernaryOp(Controlled(PlusOne, [[1, 2]]), [q0, q1])]
          else [TernaryOp(Controlled(PlusOne, [[2]]), [q0, q1])]
        else
          [TernaryOp(Flip01, [q1]),
           if k[0] then TernaryOp(Controlled(PlusOne, [[0]]), [q0, q1])
           else TernaryOp(Controlled(PlusOne, [[0, 1]]), [q0, q1])]
      else if !k[1] then [TernaryOp(Controlled(PlusOne, [[1]]), [q0, q1])]
      else [TernaryOp(Flip01, [q0]), TernaryOp(Flip01, [q1]), TernaryOp(Controlled(PlusOne, [[1]]), [q0, q1])];
    first + Chain(k, qubits, 1)
  }

  /** The loop over i in 1 .. len(k) - 2. */
  function Chain(k: seq<bool>, qubits: seq<Qubit>, i: nat): seq<TernaryOp>
    requires 1 <= i && 2 <= |k| <= |qubits|
    decreases |k| - i
  {
    if i >= |k| - 1 then []
    else
      var a, b := qubits[i], qubits[i + 1];
      var here :=
        if k[i + 1] && k[i] then [TernaryOp(Flip01, [b]), TernaryOp(Controlled(PlusOne, [[2]]), [a, b])]
        else if k[i + 1] then [TernaryOp(Flip02, [b]), TernaryOp(Controlled(MinusOne, [[2]]), [a, b])]
        else if k[i] then [TernaryOp(PlusOne, [b]), TernaryOp(Controlled(MinusOne, [[2]]), [a, b])]
        else [TernaryOp(Controlled(PlusOne, [[2]]), [a, b])];
      here + Chain(k, qubits, i + 1)
  }

  /** The gates after trimming: for one bit, u controlled by SingleControl (nothing when that set is
    * empty); for more, the forward circuit, u on the target controlled by the top register qutrit
    * ((0, 1) when k's top bit is set, (2,) otherwise), and the forward circuit undone. */
  function DecomposeTrimmed(k: seq<bool>, carryIn: bool, u: Gate, qubits: seq<Qubit>): seq<TernaryOp>
    requires Reversible(u)
    requires |k| >= 1 && |qubits| == |k| + 1
  {
    if |k| == 1 then
      var cont := SingleControl(k[0], carryIn);
      if cont == [] then [] else [TernaryOp(Controlled(u, [cont]), [qubits[0], qubits[1]])]
    else
      var fwd := ForwardCircuit(carryIn, k, qubits);
      ForwardReversible(carryIn, k, qubits);
      var cu := TernaryOp(Controlled(u, [if k[|k| - 1] then [0, 1] else [2]]), [qubits[|k| - 1], qubits[|k|]]);
      fwd + [cu] + InverseOps(fwd).value
  }

  /** Every forward gate is a base gate or a controlled base gate, so the list can be inverted. */
  lemma ForwardReversible(carryIn: bool, k: seq<bool>, qubits: seq<Qubit>)
    requires 2 <= |k| <= |qubits|
    ensures forall i :: 0 <= i < |ForwardCircuit(carryIn, k, qubits)| ==> Reversible(ForwardCircuit(carryIn, k, qubits)[i].gate)
  {
    ChainTouches(k, qubits, 1);
  }

  /** The chain from bit i only touches qubits i .. len(k) - 1, with reversible gates. */
  lemma {:induction false} ChainTouches(k: seq<bool>, qubits: seq<Qubit>, i: nat)
    requires 1 <= i && 2 <= |k| <= |qubits|
    ensures forall j :: 0 <= j < |Chain(k, qubits, i)| ==>
      Reversible(Chain(k, qubits, i)[j].gate) && forall q :: q in Chain(k, qubits, i)[j].qubits ==> exists p :: i <= p < |k| && q == qubits[p]
    decreases |k| - i
  {
    if i < |k| - 1 {
      ChainTouches(k, qubits, i + 1);
      var c := Chain(k, qubits, i);
      var rest := Chain(k, qubits, i + 1);
      var h := |c| - |rest|;
      assert c[h..] == rest;
      forall j | 0 <= j < |c|
        ensures Reversible(c[j].gate) && forall q :: q in c[j].qubits ==> exists p :: i <= p < |k| && q == qubits[p]
      {
        if j >= h {
          assert c[j] == rest[j - h];
        } else {
          forall q | q in c[j].qubits ensures exists p :: i <= p < |k| && q == qubits[p] {
            if q == qubits[i] { assert i <= i < |k|; } else { assert q == qubits[i + 1]; }
          }
        }
      }
    }
  }

  /** The forward circuit never touches the target qutrit qubits[len(k)], so only the controlled u
    * in the middle can change it. */
  lemma ForwardAvoidsTarget(carryIn: bool, k: seq<bool>, qubits: seq<Qubit>)
    requires 2 <= |k| && |qubits| == |k| + 1
    requires forall a, b :: 0 <= a < b < |qubits| ==> qubits[a] != qubits[b]
    ensures forall j :: 0 <= j < |ForwardCircuit(carryIn, k, qubits)| ==>
      qubits[|k|] !in ForwardCircuit(carryIn, k, qubits)[j].qubits
  {
    ChainTouches(k, qubits, 1);
    var fwd := ForwardCircuit(carryIn, k, qubits);
    var rest := Chain(k, qubits, 1);
    var h := |fwd| - |rest|;
    assert fwd[h..] == rest;
    forall j | 0 <= j < |fwd| ensures qubits[|k|] !in fwd[j].qubits {
      if j >= h {
        assert fwd[j] == rest[j - h];
        forall q | q in fwd[j].qubits ensures q != qubits[|k|] {
          var p :| 1 <= p < |k| && q == qubits[p];
        }
      } else {
        assert forall q :: q in fwd[j].qubits ==> q == qubits[0] || q == qubits[1];
      }
    }
  }

  /** default_decompose: the trimming (skipped with a carry in), then the gates after it. */
  method Decompose(k: seq<bool>, carryIn: bool, u: Gate, qubits: seq<Qubit>) returns (r: Result<seq<TernaryOp>>)
    requires Reversible(u)
    requires |k| >= 1 && |qubits| == |k| + 1
    ensures carryIn ==> r == Ok(DecomposeTrimmed(k, carryIn, u, qubits))
    ensures !carryIn ==> (r.Err? <==> forall i :: 0 <= i < |k| ==> !k[i])
    ensures !carryIn && r.Ok? ==> exists z :: 0 <= z < |k| && (forall i :: 0 <= i < z ==> !k[i]) && k[z] &&
                                           r.value == DecomposeTrimmed(k[z..], false, u, qubits[z..])
  {
    if carryIn {
      return Ok(DecomposeTrimmed(k, carryIn, u, qubits));
    }
    var t := TrimLeadingZeros(k, qubits);
    match t {
      case Err(e) => return Err(e);
      case Ok((kk, qs)) =>
        ghost var z :| 0 <= z < |k| && (forall i :: 0 <= i < z ==> !k[i]) && k[z] &&
          (kk, qs) == (k[z..], if z <= |qubits| then qubits[z..] else []);
        return Ok(DecomposeTrimmed(kk, false, u, qs));
    }
  }

  /** The middle gate of a decomposition with two or more bits is u on the target, and the gates
    * after it invert the ones before it. */
  lemma DecomposeMirrors(k: seq<bool>, carryIn: bool, u: Gate, qubits: seq<Qubit>)
    requires Reversible(u) && |k| >= 2 && |qubits| == |k| + 1
    ensures var ops := DecomposeTrimmed(k, carryIn, u, qubits);
      var f := |ForwardCircuit(carryIn, k, qubits)|;
      |ops| == 2 * f + 1 && ops[f].gate.Controlled? && ops[f].gate.base == u &&
      ops[f].qubits[1] == qubits[|k|] && InverseOps(ops[..f]) == Some(ops[f + 1..])
  {
    var fwd := ForwardCircuit(carryIn, k, qubits);
    ForwardReversible(carryIn, k, qubits);
    var ops := DecomposeTrimmed(k, carryIn, u, qubits);
    assert ops[..|fwd|] == fwd;
  }
}
