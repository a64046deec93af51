/** The ternary logic gates of the qutrit package as one closed variant, with the structural part
  * of their behaviour: which gate each gate's inverse() returns. What a gate does to trits is in
  * GateLibrary. */
module Gates {
  import opened Wrappers

  datatype Gate =
    | PlusOne
    | MinusOne
    | Flip01
    | Flip02
    | Flip12
      /** Applies base to the trits after the controls when control i's trit is in controls[i]. */
    | Controlled(base: Gate, controls: seq<seq<int>>)
    | AncillaGen(inverted: bool)
    | PlusK(k: seq<bool>, inverted: bool)
    | PlusKCarry(k: seq<bool>, carryIn: bool, topAncilla: bool, inverted: bool)
    | PlusKUncarryAdd(k: seq<bool>, carryIn: bool, topAncilla: bool)
    | UpwardMultiAnd(inverted: bool)
    | UpwardMultiControlPlusOne(bottomControl2: bool, inverted: bool)
    | MultiOrAnd(lastTrueVal: int, inverted: bool)
    | SmallPlusKCarry(k: seq<bool>, carryIn: bool, u: Gate)
    | BTBCnU(u: Gate)

  /** A gate applied to qutrits (TernaryLogicGateOperation). */
  datatype TernaryOp = TernaryOp(gate: Gate, qubits: seq<Qubit>)

  predicate IsTrit(t: int) { 0 <= t < 3 }

  /** TernaryLogicGate.validate_trits: every trit is 0, 1 or 2. */
  predicate ValidTrits(trits: seq<int>) { forall i :: 0 <= i < |trits| ==> IsTrit(trits[i]) }

  /** The five single-qutrit permutations. */
  predicate IsBaseGate(g: Gate) { g.PlusOne? || g.MinusOne? || g.Flip01? || g.Flip02? || g.Flip12? }

  /** inverse() of every gate class; None for SmallPlusKCarry, which is not reversible, and for a
    * wrapper around such a gate. MultiOrAnd keeps its last_true_val (the source drops it; see
    * PlusKLogicGates.MultiOrAndInverseAsWritten). */
  function Inverse(g: Gate): (r: Option<Gate>)
    ensures r.None? <==> !Reversible(g)
  {
    match g
    case PlusOne => Some(MinusOne)
    case MinusOne => Some(PlusOne)
    case Flip01 => Some(Flip01)
    case Flip02 => Some(Flip02)
    case Flip12 => Some(Flip12)
    case Controlled(base, cv) =>
      (match Inverse(base) case None => None case Some(b) => Some(Controlled(b, cv)))
    case AncillaGen(inv) => Some(AncillaGen(!inv))
    case PlusK(k, inv) => Some(PlusK(k, !inv))
    case PlusKCarry(k, c, t, inv) => Some(PlusKCarry(k, c, t, !inv))
    case PlusKUncarryAdd(k, c, t) => Some(g)
    case UpwardMultiAnd(inv) => Some(UpwardMultiAnd(!inv))
    case UpwardMultiControlPlusOne(b2, inv) => Some(UpwardMultiControlPlusOne(b2, !inv))
    case MultiOrAnd(ltv, inv) => Some(MultiOrAnd(ltv, !inv))
    case SmallPlusKCarry(_, _, _) => None
    case BTBCnU(u) => (match Inverse(u) case None => None case Some(v) => Some(BTBCnU(v)))
  }

  /** A gate has an inverse unless it is, or wraps, a SmallPlusKCarry. */
  predicate Reversible(g: Gate)
  {
    match g
    case SmallPlusKCarry(_, _, _) => false
    case Controlled(base, _) => Reversible(base)
    case BTBCnU(u) => Reversible(u)
    case _ => true
  }

  /** Inverting twice gives the gate back. */
  lemma {:induction false} InverseInvolution(g: Gate)
    requires Reversible(g)
    ensures Inverse(g).Some? && Reversible(Inverse(g).value) && Inverse(Inverse(g).value) == Some(g)
  {
    match g
    case Controlled(base, cv) => InverseInvolution(base);
    case BTBCnU(u) => InverseInvolution(u);
    case _ =>
  }

  /** ops.inverse on a list of operations: the operations in reverse order, each inverted; None
    * when one of them cannot be inverted. */
  function InverseOps(ops: seq<TernaryOp>): (r: Option<seq<TernaryOp>>)
    ensures r.Some? <==> forall i :: 0 <= i < |ops| ==> Reversible(ops[i].gate)
    ensures r.Some? ==> |r.value| == |ops| && forall i :: 0 <= i < |ops| ==>
      r.value[i] == TernaryOp(Inverse(ops[|ops| - 1 - i].gate).value, ops[|ops| - 1 - i].qubits)
  {
    if ops == [] then Some([])
    else
      match (InverseOps(ops[1..]), Inverse(ops[0].gate))
      case (Some(rest), Some(g)) => Some(rest + [TernaryOp(g, ops[0].qubits)])
      case _ =>
        assert forall i :: 1 <= i < |ops| ==> ops[1..][i - 1] == ops[i];
        None
  }

  /** Inverting a list of operations twice gives the list back. */
  lemma {:induction false} InverseOpsInvolution(ops: seq<TernaryOp>)
    requires forall i :: 0 <= i < |ops| ==> Reversible(ops[i].gate)
    ensures InverseOps(ops).Some? && InverseOps(InverseOps(ops).value) == Some(ops)
  {
    var inv := InverseOps(ops).value;
    InvertedUndo(ops, inv);
    var back := InverseOps(inv).value;
    BackIsOps(ops, inv, back);
  }

  /** Each inverted operation inverts back to the operation it came from. */
  lemma InvertedUndo(ops: seq<TernaryOp>, inv: seq<TernaryOp>)
    requires forall i :: 0 <= i < |ops| ==> Reversible(ops[i].gate)
    requires InverseOps(ops) == Some(inv)
    ensures |inv| == |ops|
    ensures forall i :: 0 <= i < |ops| ==>
      Reversible(inv[i].gate) && Inverse(inv[i].gate) == Some(ops[|ops| - 1 - i].gate) &&
      inv[i].qubits == ops[|ops| - 1 - i].qubits
  {
    var n := |ops|;
    forall i | 0 <= i < n
      ensures Reversible(inv[i].gate) && Inverse(inv[i].gate) == Some(ops[n - 1 - i].gate)
    {
      var g := ops[n - 1 - i].gate;
      InverseInvolution(g);
      assert inv[i].gate == Inverse(g).value;
    }
  }

  lemma BackIsOps(ops: seq<TernaryOp>, inv: seq<TernaryOp>, back: seq<TernaryOp>)
    requires |inv| == |ops| && |back| == |inv|
    requires forall i :: 0 <= i < |ops| ==>
      Inverse(inv[i].gate) == Some(ops[|ops| - 1 - i].gate) && inv[i].qubits == ops[|ops| - 1 - i].qubits
    requires forall i :: 0 <= i < |inv| ==>
      back[i] == TernaryOp(Inverse(inv[|inv| - 1 - i].gate).value, inv[|inv| - 1 - i].qubits)
    ensures back == ops
  {
    var n := |ops|;
    forall i | 0 <= i < n ensures back[i] == ops[i] {
      var j := n - 1 - i;
      assert n - 1 - j == i;
    }
  }
}
