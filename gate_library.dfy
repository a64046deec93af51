/** GateLibrary: applied_to_trits and validate_trits of every gate, dispatched on the gate's class,
  * and the property the repository's verify_gate_inverse checks at run time: a gate followed by
  * the gate its inverse() returns gives every valid input back. */
module GateLibrary {
  import opened Wrappers
  import opened Gates
  import opened Bits
  import CommonGates
  import ControlledTernaryGate
  import AncillaGenerationGate
  import opened PlusKGate
  import opened PlusKLogicGates
  import SmallPlusKCarryGate
  import BtbCnuGate

  /** gate.applied_to_trits(trits). A wrapped gate (the base of a controlled gate, the u of the
    * carry fallback and of BTBCnU) is applied through this same dispatch. */
  function Apply(g: Gate, trits: seq<int>): Result<seq<int>>
    decreases g
  {
    match g
    case PlusOne => CommonGates.Applied(g, trits)
    case MinusOne => CommonGates.Applied(g, trits)
    case Flip01 => CommonGates.Applied(g, trits)
    case Flip02 => CommonGates.Applied(g, trits)
    case Flip12 => CommonGates.Applied(g, trits)
    case Controlled(base, cv) => ControlledTernaryGate.Applied(cv, trits, t => Apply(base, t))
    case AncillaGen(_) => Ok(AncillaGenerationGate.Applied(trits))
    case PlusK(k, inv) => PlusKApplied(k, inv, trits)
    case PlusKCarry(k, c, top, inv) => CarryApplied(k, c, top, inv, trits)
    case PlusKUncarryAdd(k, c, top) => UncarryApplied(k, c, top, trits)
    case UpwardMultiAnd(inv) => Ok(UpwardAndApplied(inv, trits))
    case UpwardMultiControlPlusOne(b2, inv) => UpwardControlApplied(b2, inv, trits)
    case MultiOrAnd(ltv, inv) => MultiOrAndApplied(ltv, inv, trits)
    case SmallPlusKCarry(k, c, u) => SmallPlusKCarryGate.Applied(k, c, t => Apply(u, t), trits)
    case BTBCnU(u) => BtbCnuGate.Applied(t => Apply(u, t), trits)
  }

  /** gate.validate_trits(trits): the controlled gate also validates its base on the trits after
    * the controls (none when the list is shorter). */
  predicate Valid(g: Gate, trits: seq<int>)
    decreases g
  {
    match g
    case Controlled(base, cv) =>
      ValidTrits(trits) && Valid(base, trits[ControlledTernaryGate.Min(|cv|, |trits|)..])
    case AncillaGen(_) => AncillaGenerationGate.Valid(trits)
    case PlusK(k, _) => PlusKValid(k, trits)
    case PlusKCarry(k, _, top, _) => CarryValid(k, top, trits)
    case PlusKUncarryAdd(k, _, top) => CarryValid(k, top, trits)
    case UpwardMultiAnd(_) => ValidTrits(trits)
    case UpwardMultiControlPlusOne(_, _) => UpwardControlValid(trits)
    case MultiOrAnd(_, _) => MultiOrAndValid(trits)
    case SmallPlusKCarry(k, _, _) => SmallPlusKCarryGate.Valid(k, trits)
    case BTBCnU(_) => BtbCnuGate.Valid(trits)
    case _ => CommonGates.Valid(trits)
  }

  /** The gates on n qutrits whose inverse restores every valid input: all but the carry fallback
    * (which has no inverse), the carry gate with a carry-in but no register bit, the MultiOrAnd
    * gate on five or more qutrits (whose forward pass overwrites an ancilla it does not restore),
    * and BTBCnU around anything but a single-qutrit gate. Reading the gate from its inverted side
    * is left to the inverse's own entry. */
  predicate RoundTrip(g: Gate, n: nat)
    decreases g
  {
    match g
    case Controlled(base, cv) => n >= |cv| && RoundTrip(base, n - |cv|)
    case PlusKCarry(k, c, top, _) => c ==> n >= 2 + Plus(top)
    case MultiOrAnd(_, inv) => !inv && n <= 4
    case SmallPlusKCarry(_, _, _) => false
    case BTBCnU(u) => IsBaseGate(u)
    case _ => true
  }

  lemma {:induction false} RoundTripReversible(g: Gate, n: nat)
    requires RoundTrip(g, n)
    ensures Reversible(g)
    decreases g
  {
    match g
    case Controlled(base, cv) => RoundTripReversible(base, n - |cv|);
    case _ =>
  }

  /** A BTBCnU gate around a single-qutrit gate reads its u exactly as the base-gate table does. */
  lemma BtbBase(u: Gate, trits: seq<int>)
    requires IsBaseGate(u)
    ensures Apply(BTBCnU(u), trits) == BtbCnuGate.Applied(t => CommonGates.Applied(u, t), trits)
  {
    if trits != [] && BtbCnuGate.Triggered(trits) {
      var n := |trits|;
      assert Apply(u, trits[n - 1..]) == CommonGates.Applied(u, trits[n - 1..]);
    }
  }

  /** verify_gate_inverse's check: on valid trits a round-trip gate changes no length and its
    * inverse gives the input back. */
  lemma {:induction false} InverseRestores(g: Gate, trits: seq<int>)
    requires RoundTrip(g, |trits|) && Valid(g, trits) && Apply(g, trits).Ok?
    ensures Inverse(g).Some?
    ensures |Apply(g, trits).value| == |trits|
    ensures Apply(Inverse(g).value, Apply(g, trits).value) == Ok(trits)
    decreases g, 1
  {
    match g
    case Controlled(base, cv) => ControlledRestores(base, cv, trits);
    case BTBCnU(u) => BtbRestores(u, trits);
    case PlusK(_, _) => RegisterRestores(g, trits);
    case PlusKCarry(_, _, _, _) => RegisterRestores(g, trits);
    case PlusKUncarryAdd(_, _, _) => RegisterRestores(g, trits);
    case _ => if IsBaseGate(g) { BaseRestores(g, trits); } else { LogicRestores(g, trits); }
  }

  lemma BaseRestores(g: Gate, trits: seq<int>)
    requires IsBaseGate(g) && Valid(g, trits)
    ensures Inverse(g).Some? && Apply(g, trits).Ok? && |Apply(g, trits).value| == |trits|
    ensures Apply(Inverse(g).value, Apply(g, trits).value) == Ok(trits)
  {
    CommonGates.InverseUndoes(g, trits[0]);
    assert trits == [trits[0]];
  }

  /** The gates on a binary register: PlusK and the two carry gates. */
  lemma RegisterRestores(g: Gate, trits: seq<int>)
    requires g.PlusK? || g.PlusKCarry? || g.PlusKUncarryAdd?
    requires RoundTrip(g, |trits|) && Valid(g, trits) && Apply(g, trits).Ok?
    ensures Inverse(g).Some? && |Apply(g, trits).value| == |trits|
    ensures Apply(Inverse(g).value, Apply(g, trits).value) == Ok(trits)
  {
    match g
    case PlusK(k, inv) =>
      PlusKAdds(k, inv, trits);
      PlusKInverse(k, inv, trits);
    case PlusKCarry(k, c, top, inv) =>
      CarryKeepsInit(k, c, top, inv, trits);
      CarryInverse(k, c, top, inv, trits);
    case PlusKUncarryAdd(k, c, top) =>
      UncarryShape(k, c, top, trits);
      UncarryInverse(k, c, top, trits);
  }

  /** The ancilla generation gate and the logic gates of the carry network. */
  lemma LogicRestores(g: Gate, trits: seq<int>)
    requires g.AncillaGen? || g.UpwardMultiAnd? || g.UpwardMultiControlPlusOne? || g.MultiOrAnd?
    requires RoundTrip(g, |trits|) && Valid(g, trits) && Apply(g, trits).Ok?
    ensures Inverse(g).Some? && |Apply(g, trits).value| == |trits|
    ensures Apply(Inverse(g).value, Apply(g, trits).value) == Ok(trits)
  {
    match g
    case AncillaGen(_) => AncillaGenerationGate.Involution(trits);
    case UpwardMultiAnd(inv) => UpwardAndInverse(inv, trits);
    case UpwardMultiControlPlusOne(b2, inv) =>
      UpwardControlShape(b2, inv, trits);
      UpwardControlInverse(b2, inv, trits);
    case MultiOrAnd(ltv, inv) => MultiOrAndInverse(ltv, trits);
  }

  lemma {:induction false} ControlledRestores(base: Gate, cv: seq<seq<int>>, trits: seq<int>)
    requires RoundTrip(Controlled(base, cv), |trits|) && Valid(Controlled(base, cv), trits)
    requires Apply(Controlled(base, cv), trits).Ok?
    ensures Inverse(Controlled(base, cv)).Some?
    ensures |Apply(Controlled(base, cv), trits).value| == |trits|
    ensures Apply(Inverse(Controlled(base, cv)).value, Apply(Controlled(base, cv), trits).value) == Ok(trits)
    decreases Controlled(base, cv), 0
  {
    RoundTripReversible(base, |trits| - |cv|);
    var inv := Inverse(base).value;
    var m := |cv|;
    var suffix := trits[m..];
    if Apply(base, suffix).Ok? {
      InverseRestores(base, suffix);
    }
    ControlledTernaryGate.ControlledInverse(cv, trits, t => Apply(base, t), t => Apply(inv, t));
    if ControlledTernaryGate.ControlActive(cv, trits) {
      assert |Apply(Controlled(base, cv), trits).value| == m + |Apply(base, suffix).value|;
    }
  }

  lemma BtbRestores(u: Gate, trits: seq<int>)
    requires IsBaseGate(u) && BtbCnuGate.Valid(trits)
    ensures Inverse(BTBCnU(u)).Some?
    ensures Apply(BTBCnU(u), trits).Ok? && |Apply(BTBCnU(u), trits).value| == |trits|
    ensures Apply(Inverse(BTBCnU(u)).value, Apply(BTBCnU(u), trits).value) == Ok(trits)
  {
    var v := Inverse(u).value;
    BtbCnuGate.InverseUndoes(u, trits);
    BtbCnuGate.AppliedBase(u, trits);
    BtbBase(u, trits);
    var mid := Apply(BTBCnU(u), trits).value;
    BtbBase(v, mid);
  }
}
