/** The classical evaluator of ternary circuits and the two run-time checks built on it:
  * verify_gate (a gate agrees with its decomposition on every binary input) and
  * verify_gate_inverse (a gate followed by its inverse restores every binary input). */
module Evaluate {
  import opened Wrappers
  import opened Gates
  import opened Bits
  import GateLibrary
  import opened RawTypes
  import ControlledTernaryGate

  /** default_ternary_state: every given qutrit at 0. */
  function DefaultState(qubits: seq<Qubit>): (r: map<Qubit, int>)
    ensures forall q :: q in r <==> q in qubits
    ensures forall q :: q in r ==> r[q] == 0
  {
    map q | q in qubits :: 0
  }

  /** trit_list_to_state: the default state updated with zip(qubits, trit_values), which stops at
    * the shorter of the two lists. */
  function TritListToState(qubits: seq<Qubit>, values: seq<int>): map<Qubit, int>
  {
    var m := ControlledTernaryGate.Min(|qubits|, |values|);
    Written(DefaultState(qubits), qubits[..m], values[..m])
  }

  /** With distinct qutrits, qutrit i holds value i, and 0 when the value list is shorter. */
  lemma TritListPositions(qubits: seq<Qubit>, values: seq<int>)
    requires Distinct(qubits)
    ensures var s := TritListToState(qubits, values);
      && (forall q :: q in s <==> q in qubits)
      && (forall i :: 0 <= i < |qubits| ==> s[qubits[i]] == if i < |values| then values[i] else 0)
  {
    var m := ControlledTernaryGate.Min(|qubits|, |values|);
    var d := DefaultState(qubits);
    var pre := qubits[..m];
    assert AllIn(pre, d);
    WrittenFrame(d, pre, values[..m], 0);
    forall i | 0 <= i < |qubits|
      ensures qubits[i] in Written(d, pre, values[..m])
      ensures Written(d, pre, values[..m])[qubits[i]] == if i < |values| then values[i] else 0
    {
      if i < m {
        assert Distinct(pre);
        WrittenHolds(d, pre, values[..m], i);
      } else {
        assert forall j :: 0 <= j < m ==> pre[j] != qubits[i];
        WrittenFrame(d, pre, values[..m], qubits[i]);
      }
    }
  }

  // ---- Running operations ----

  /** An operation of a circuit as the evaluator sees it: a ternary operation it applies, or an
    * operation without apply_to_ternary_state that it replaces by its default_decompose(). */
  datatype CircuitOp = Ternary(op: TernaryOp) | Decomposed(parts: seq<CircuitOp>)

  /** _evaluate_ternary_circuit: the operations in order, each on the state the previous one left;
    * the first exception stops the run with what was written so far. */
  function RunOps(ops: seq<CircuitOp>, s: map<Qubit, int>): Outcome
    decreases ops
  {
    if ops == [] then Outcome(None, s)
    else
      var first := match ops[0]
        case Ternary(op) => Effect(op, s)
        case Decomposed(parts) => RunOps(parts, s);
      if first.error.Some? then first else RunOps(ops[1..], first.state)
  }

  /** A flat list of ternary operations applied in order. */
  function RunSeq(ops: seq<TernaryOp>, s: map<Qubit, int>): Outcome
  {
    if ops == [] then Outcome(None, s)
    else
      var first := Effect(ops[0], s);
      if first.error.Some? then first else RunSeq(ops[1..], first.state)
  }

  /** The ternary operations a circuit comes to once every decomposition is expanded, in order. */
  function Flatten(ops: seq<CircuitOp>): seq<TernaryOp>
    decreases ops
  {
    if ops == [] then []
    else
      match ops[0]
      case Ternary(op) => [op] + Flatten(ops[1..])
      case Decomposed(parts) => Flatten(parts) + Flatten(ops[1..])
  }

  /** Running a list stops at the first failure or runs the second list on what the first left. */
  lemma {:induction false} RunSeqAppend(a: seq<TernaryOp>, b: seq<TernaryOp>, s: map<Qubit, int>)
    ensures RunSeq(a + b, s) ==
      if RunSeq(a, s).error.Some? then RunSeq(a, s) else RunSeq(b, RunSeq(a, s).state)
  {
    if a == [] {
      assert a + b == b;
    } else {
      assert (a + b)[1..] == a[1..] + b;
      var first := Effect(a[0], s);
      if first.error.None? {
        RunSeqAppend(a[1..], b, first.state);
      }
    }
  }

  /** Replacing an operation by its decomposition, recursively, is the same as running the
    * flattened list of ternary operations. */
  lemma {:induction false} RunOpsFlattens(ops: seq<CircuitOp>, s: map<Qubit, int>)
    ensures RunOps(ops, s) == RunSeq(Flatten(ops), s)
    decreases ops
  {
    if ops != [] {
      match ops[0]
      case Ternary(op) =>
        assert Flatten(ops) == [op] + Flatten(ops[1..]);
        var first := Effect(op, s);
        if first.error.None? {
          RunOpsFlattens(ops[1..], first.state);
        }
      case Decomposed(parts) =>
        RunOpsFlattens(parts, s);
        RunSeqAppend(Flatten(parts), Flatten(ops[1..]), s);
        var first := RunOps(parts, s);
        if first.error.None? {
          RunOpsFlattens(ops[1..], first.state);
        }
    }
  }

  /** _evaluate_ternary_circuit(ops, state): apply_to_ternary_state for a ternary operation, the
    * recursive evaluation of its decomposition for any other. */
  method EvaluateOps(ops: seq<CircuitOp>, state: TernaryState) returns (error: Option<Error>)
    modifies state
    ensures Outcome(error, state.trits) == RunOps(ops, old(state.trits))
    decreases ops
  {
    var i := 0;
    while i < |ops|
      invariant 0 <= i <= |ops|
      invariant RunOps(ops, old(state.trits)) == RunOps(ops[i..], state.trits)
      decreases |ops| - i
    {
      assert ops[i..][1..] == ops[i + 1..];
      match ops[i] {
        case Ternary(op) =>
          error := state.ApplyOp(op);
        case Decomposed(parts) =>
          error := EvaluateOps(parts, state);
      }
      if error.Some? {
        return;
      }
      i := i + 1;
    }
    return None;
  }

  /** evaluate_ternary_circuit with the state it evidently means to return: a copy of the input,
    * or the default state of the circuit's qutrits when there is no input. */
  function Evaluated(ops: seq<CircuitOp>, qubits: seq<Qubit>, input: Option<map<Qubit, int>>)
    : Result<map<Qubit, int>>
  {
    var start := if input.Some? then input.value else DefaultState(qubits);
    var out := RunOps(ops, start);
    if out.error.Some? then Err(out.error.value) else Ok(out.state)
  }

  /** evaluate_ternary_circuit as written: without an input the default state goes to input_state
    * and the local state is never bound, so the call reads an unbound local. */
  function EvaluatedAsWritten(ops: seq<CircuitOp>, qubits: seq<Qubit>, input: Option<map<Qubit, int>>)
    : Result<map<Qubit, int>>
  {
    if input.None? then Err(UnboundLocalError) else Evaluated(ops, qubits, input)
  }

  /** Without an input the function as written always fails, where the evident intent evaluates
    * the circuit on the all-zero state; with an input the two agree. */
  lemma EvaluatedAsWrittenFails(ops: seq<CircuitOp>, qubits: seq<Qubit>, input: Option<map<Qubit, int>>)
    ensures input.None? ==> EvaluatedAsWritten(ops, qubits, input) == Err(UnboundLocalError)
    ensures input.Some? ==> EvaluatedAsWritten(ops, qubits, input) == Evaluated(ops, qubits, input)
    ensures Evaluated([], qubits, None) == Ok(DefaultState(qubits))
  {
  }

  /** evaluate_ternary_circuit(circuit, input_state): evaluates a fresh copy of the input (or of the
    * default state) and returns it; the caller's state is not touched. */
  method EvaluateTernaryCircuit(ops: seq<CircuitOp>, qubits: seq<Qubit>, input: TernaryState?)
    returns (r: Result<TernaryState>)
    ensures input != null ==> unchanged(input)
    ensures var expected := Evaluated(ops, qubits, if input == null then None else Some(input.trits));
      && (r.Ok? <==> expected.Ok?)
      && (r.Ok? ==> fresh(r.value) && r.value.trits == expected.value)
      && (r.Err? ==> r.error == expected.error)
  {
    var state: TernaryState;
    if input == null {
      state := new TernaryState(DefaultState(qubits));
    } else {
      state := input.Copy();
    }
    var error := EvaluateOps(ops, state);
    if error.Some? {
      return Err(error.value);
    }
    return Ok(state);
  }

  // ---- verify_gate and verify_gate_inverse ----

  /** cirq.LineQubit.range(n). */
  function LineQubits(n: nat): (r: seq<Qubit>)
    ensures |r| == n && Distinct(r) && forall i :: 0 <= i < n ==> r[i] == i
  {
    seq(n, i => i)
  }

  /** The test input for i: the digits of '{:0{n}b}'.format(i, n), reversed. */
  function InputBits(i: nat, n: nat): seq<int>
  {
    ValToBitsAsWritten(i, n)
  }

  /** The number of inputs range(min(2**num_qubits, max_test_value)) runs through: a negative
    * max_test_value gives an empty range. The callers' default max_test_value is 2**14. */
  function TestCount(n: nat, maxTest: int): nat
  {
    if Pow2(n) <= maxTest then Pow2(n) else if maxTest < 0 then 0 else maxTest
  }

  /** verify_gate on input i: the gate and, on a copy of the state, its decomposition; an exception
    * of either is raised as it is, a disagreement is a RuntimeError. */
  function DecompositionCheck(op: TernaryOp, subOps: seq<TernaryOp>, n: nat, i: nat): Option<Error>
  {
    var s := TritListToState(LineQubits(n), InputBits(i, n));
    var direct := Effect(op, s);
    if direct.error.Some? then direct.error
    else
      var decomposed := RunSeq(subOps, s);
      if decomposed.error.Some? then decomposed.error
      else if direct.state != decomposed.state then Some(RuntimeError)
      else None
  }

  /** The exception of the first failing input from i on, when the loop runs over i < count. */
  function FirstFailure(check: nat -> Option<Error>, i: nat, count: nat): Option<Error>
    decreases count - i
  {
    if i >= count then None
    else if check(i).Some? then check(i)
    else FirstFailure(check, i + 1, count)
  }

  /** The first failure is the check of some checked input all of whose predecessors pass, and no
    * failure means every checked input passes. */
  lemma {:induction false} FirstFailureFirst(check: nat -> Option<Error>, i: nat, count: nat)
    ensures FirstFailure(check, i, count).None? <==> forall j :: i <= j < count ==> check(j).None?
    ensures FirstFailure(check, i, count).Some? ==>
      exists j :: i <= j < count && check(j) == FirstFailure(check, i, count) &&
        forall k :: i <= k < j ==> check(k).None?
    decreases count - i
  {
    if i < count && check(i).None? {
      FirstFailureFirst(check, i + 1, count);
      if FirstFailure(check, i, count).Some? {
        var j :| i + 1 <= j < count && check(j) == FirstFailure(check, i + 1, count) &&
          forall k :: i + 1 <= k < j ==> check(k).None?;
        assert forall k :: i <= k < j ==> check(k).None?;
      }
    }
  }

  /** What verify_gate raises, if anything: the gate's validate_args when the operation is built,
    * an exception of default_decompose, or the first failing input. */
  function VerifyGateResult(g: Gate, n: nat, maxTest: int, decomposition: Result<seq<TernaryOp>>)
    : Option<Error>
  {
    var qubits := LineQubits(n);
    if ValidateArgs(g, qubits).Some? then ValidateArgs(g, qubits)
    else if decomposition.Err? then Some(decomposition.error)
    else FirstFailure((j: nat) => DecompositionCheck(TernaryOp(g, qubits), decomposition.value, n, j), 0, TestCount(n, maxTest))
  }

  /** sub_op.apply_to_ternary_state(state) for each operation of a flat list. */
  method ApplyAll(ops: seq<TernaryOp>, state: TernaryState) returns (error: Option<Error>)
    modifies state
    ensures Outcome(error, state.trits) == RunSeq(ops, old(state.trits))
  {
    var i := 0;
    while i < |ops|
      invariant 0 <= i <= |ops|
      invariant RunSeq(ops, old(state.trits)) == RunSeq(ops[i..], state.trits)
    {
      assert ops[i..][1..] == ops[i + 1..];
      error := state.ApplyOp(ops[i]);
      if error.Some? {
        return;
      }
      i := i + 1;
    }
    return None;
  }

  /** verify_gate(gate, num_qubits, max_test_value), with the gate's default_decompose() given. */
  method VerifyGate(g: Gate, n: nat, maxTest: int, decomposition: Result<seq<TernaryOp>>)
    returns (error: Option<Error>)
    ensures error == VerifyGateResult(g, n, maxTest, decomposition)
  {
    var qubits := LineQubits(n);
    error := ValidateArgs(g, qubits);
    if error.Some? {
      return;
    }
    if decomposition.Err? {
      return Some(decomposition.error);
    }
    var op := TernaryOp(g, qubits);
    var subOps := decomposition.value;
    var count := TestCount(n, maxTest);
    ghost var check := (j: nat) => DecompositionCheck(op, subOps, n, j);
    for i := 0 to count
      invariant FirstFailure(check, 0, count) == FirstFailure(check, i, count)
    {
      var state := new TernaryState(TritListToState(qubits, InputBits(i, n)));
      var state2 := state.Copy();
      error := state.ApplyOp(op);
      if error.Some? {
        return;
      }
      error := ApplyAll(subOps, state2);
      if error.Some? {
        return;
      }
      if state.trits != state2.trits {
        return Some(RuntimeError);
      }
    }
    return None;
  }

  /** verify_gate_inverse on input i: the gate, then its inverse, on the same state; the qutrits
    * must then read back as the input bits. */
  function InverseCheck(op: TernaryOp, opInv: TernaryOp, n: nat, i: nat): Option<Error>
  {
    var qubits := LineQubits(n);
    var bits := InputBits(i, n);
    var first := Effect(op, TritListToState(qubits, bits));
    if first.error.Some? then first.error
    else
      var second := Effect(opInv, first.state);
      if second.error.Some? then second.error
      else if !AllIn(qubits, second.state) then Some(KeyError)
      else if Read(second.state, qubits) != bits then Some(RuntimeError)
      else None
  }

  /** What verify_gate_inverse raises, if anything. A gate without inverse() makes op.inverse()
    * fail; cirq's GateOperation.inverse is not part of this model and is taken to raise
    * TypeError. */
  function VerifyInverseResult(g: Gate, n: nat, maxTest: int): Option<Error>
  {
    var qubits := LineQubits(n);
    if ValidateArgs(g, qubits).Some? then ValidateArgs(g, qubits)
    else if Inverse(g).None? then Some(TypeError)
    else FirstFailure((j: nat) => InverseCheck(TernaryOp(g, qubits), TernaryOp(Inverse(g).value, qubits), n, j), 0, TestCount(n, maxTest))
  }

  /** verify_gate_inverse(gate, num_qubits, max_test_value). */
  method VerifyGateInverse(g: Gate, n: nat, maxTest: int) returns (error: Option<Error>)
    ensures error == VerifyInverseResult(g, n, maxTest)
  {
    var qubits := LineQubits(n);
    error := ValidateArgs(g, qubits);
    if error.Some? {
      return;
    }
    var inv := Inverse(g);
    if inv.None? {
      return Some(TypeError);
    }
    var op := TernaryOp(g, qubits);
    var opInv := TernaryOp(inv.value, qubits);
    var count := TestCount(n, maxTest);
    ghost var check := (j: nat) => InverseCheck(op, opInv, n, j);
    for i := 0 to count
      invariant FirstFailure(check, 0, count) == FirstFailure(check, i, count)
    {
      var bits := InputBits(i, n);
      var state := new TernaryState(TritListToState(qubits, bits));
      error := state.ApplyOp(op);
      if error.Some? {
        return;
      }
      error := state.ApplyOp(opInv);
      if error.Some? {
        return;
      }
      if !AllIn(qubits, state.trits) {
        return Some(KeyError);
      }
      if Read(state.trits, qubits) != bits {
        return Some(RuntimeError);
      }
    }
    return None;
  }

  // ---- What verify_gate_inverse establishes ----

  /** Every gate's validate_trits depends only on the number of trits once they are in range. */
  lemma {:induction false} ValidByLength(g: Gate, t: seq<int>, u: seq<int>)
    requires |t| == |u| && ValidTrits(t) && ValidTrits(u)
    ensures GateLibrary.Valid(g, t) <==> GateLibrary.Valid(g, u)
    decreases g
  {
    match g
    case Controlled(base, cv) =>
      var m := ControlledTernaryGate.Min(|cv|, |t|);
      var tSuffix, uSuffix := t[m..], u[m..];
      assert ValidTrits(tSuffix) by {
        forall j | 0 <= j < |tSuffix| ensures IsTrit(tSuffix[j]) { assert tSuffix[j] == t[m + j]; }
      }
      assert ValidTrits(uSuffix) by {
        forall j | 0 <= j < |uSuffix| ensures IsTrit(uSuffix[j]) { assert uSuffix[j] == u[m + j]; }
      }
      ValidByLength(base, tSuffix, uSuffix);
    case _ =>
  }

  /** The state a test input starts from holds the input bits on the line qutrits. */
  lemma StartState(n: nat, i: nat)
    requires n >= 1 && i < Pow2(n)
    ensures var s := TritListToState(LineQubits(n), InputBits(i, n));
      && |InputBits(i, n)| == n && AllBits(InputBits(i, n))
      && AllIn(LineQubits(n), s) && Read(s, LineQubits(n)) == InputBits(i, n)
  {
    var qubits := LineQubits(n);
    var bits := InputBits(i, n);
    TritListPositions(qubits, bits);
  }

  /** A round-trip gate that applies cleanly to a binary input passes verify_gate_inverse's check
    * on that input: the inverse restores the bits it read. */
  lemma InverseCheckPasses(g: Gate, n: nat, i: nat)
    requires n >= 1 && i < Pow2(n)
    requires GateLibrary.RoundTrip(g, n) && ValidateArgs(g, LineQubits(n)).None?
    requires Effect(TernaryOp(g, LineQubits(n)), TritListToState(LineQubits(n), InputBits(i, n))).error.None?
    ensures Inverse(g).Some?
    ensures InverseCheck(TernaryOp(g, LineQubits(n)), TernaryOp(Inverse(g).value, LineQubits(n)), n, i).None?
  {
    var qubits := LineQubits(n);
    var bits := InputBits(i, n);
    var s := TritListToState(qubits, bits);
    var op := TernaryOp(g, qubits);
    StartState(n, i);
    ValidByLength(g, bits, Zeros(n));
    GateLibrary.InverseRestores(g, bits);
    EffectWrites(op, s);
    var out := GateLibrary.Apply(g, bits).value;
    EffectReadsBack(op, s, out);
    var first := Effect(op, s);
    var opInv := TernaryOp(Inverse(g).value, qubits);
    assert ValidTrits(bits);
    EffectReadsBack(opInv, first.state, bits);
  }

  /** An operation whose gate maps what it reads to valid trits of the right length applies
    * cleanly, and its qutrits then read back as that image. */
  lemma EffectReadsBack(op: TernaryOp, s: map<Qubit, int>, image: seq<int>)
    requires Distinct(op.qubits) && AllIn(op.qubits, s)
    requires GateLibrary.Apply(op.gate, Read(s, op.qubits)) == Ok(image)
    requires |image| == |op.qubits| && ValidTrits(image)
    ensures Effect(op, s).error.None?
    ensures AllIn(op.qubits, Effect(op, s).state) && Read(Effect(op, s).state, op.qubits) == image
  {
    EffectWrites(op, s);
  }

  /** The guarantee verify_gate_inverse is meant to give: it raises nothing for a round-trip gate of
    * n >= 1 qutrits that validates and applies without an exception to every checked input. */
  lemma VerifyInverseSucceeds(g: Gate, n: nat, maxTest: int)
    requires n >= 1 && GateLibrary.RoundTrip(g, n) && ValidateArgs(g, LineQubits(n)).None?
    requires forall j :: 0 <= j < TestCount(n, maxTest) ==>
      Effect(TernaryOp(g, LineQubits(n)), TritListToState(LineQubits(n), InputBits(j, n))).error.None?
    ensures VerifyInverseResult(g, n, maxTest) == None
  {
    GateLibrary.RoundTripReversible(g, n);
    var qubits := LineQubits(n);
    var op, opInv := TernaryOp(g, qubits), TernaryOp(Inverse(g).value, qubits);
    var check := (j: nat) => InverseCheck(op, opInv, n, j);
    forall j | 0 <= j < TestCount(n, maxTest) ensures check(j).None? {
      InverseCheckPasses(g, n, j);
    }
    FirstFailureFirst(check, 0, TestCount(n, maxTest));
  }

  /** On zero qutrits the check compares the empty read-back with the one-digit input '0', so a gate
    * that accepts no qutrits, such as the upward AND ladder, always fails it. */
  lemma VerifyInverseZeroQubits(maxTest: int)
    requires maxTest >= 1
    ensures VerifyInverseResult(UpwardMultiAnd(false), 0, maxTest) == Some(RuntimeError)
  {
    assert InputBits(0, 0) == [0];
    assert TestCount(0, maxTest) == 1;
  }
}
