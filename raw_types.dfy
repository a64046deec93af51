/** TernaryLogicGateOperation.apply_to_ternary_state: a gate applied to the trits of a classical
  * ternary state, a dict from qutrit to trit, which the operation updates in place; and
  * TernaryLogicGate.validate_args. */
module RawTypes {
  import opened Wrappers
  import opened Gates
  import GateLibrary
  import ControlledTernaryGate

  /** len(qubits) == len(set(qubits)). */
  predicate Distinct(qs: seq<Qubit>) { forall i, j :: 0 <= i < j < |qs| ==> qs[i] != qs[j] }

  predicate AllIn(qs: seq<Qubit>, s: map<Qubit, int>) { forall i :: 0 <= i < |qs| ==> qs[i] in s }

  /** [state[q] for q in qubits]. */
  function Read(s: map<Qubit, int>, qs: seq<Qubit>): (r: seq<int>)
    requires AllIn(qs, s)
    ensures |r| == |qs| && forall i :: 0 <= i < |qs| ==> r[i] == s[qs[i]]
  {
    seq(|qs|, i requires 0 <= i < |qs| => s[qs[i]])
  }

  /** The state after state[q] = trit for the pairs of zip(qubits, trits), in order. */
  function Written(s: map<Qubit, int>, qs: seq<Qubit>, out: seq<int>): map<Qubit, int>
    requires |out| == |qs|
  {
    if qs == [] then s
    else Written(s, qs[..|qs| - 1], out[..|out| - 1])[qs[|qs| - 1] := out[|out| - 1]]
  }

  /** The position of the first trit out of range(3), or the length when there is none. */
  function FirstBad(out: seq<int>): (j: nat)
    ensures j <= |out| && ValidTrits(out[..j]) && (j < |out| ==> !IsTrit(out[j]))
  {
    if out == [] then 0
    else if !IsTrit(out[0]) then 0
    else
      var j := 1 + FirstBad(out[1..]);
      assert forall i :: 0 <= i < j ==> out[..j][i] == out[i] && (i > 0 ==> out[i] == out[1..][i - 1]);
      j
  }

  /** What an operation did: the exception it raised, if any, and the state it left, including the
    * trits it wrote before one out of range stopped it. */
  datatype Outcome = Outcome(error: Option<Error>, state: map<Qubit, int>)

  /** The write-back loop: state[q] = trit for each pair of zip(qubits, new_trits), stopped by the
    * assert at the first output trit out of range. */
  function Landed(s: map<Qubit, int>, qs: seq<Qubit>, out: seq<int>): Outcome
    requires |out| == |qs|
  {
    var j := FirstBad(out);
    Outcome(if j < |out| then Some(AssertionError) else None, Written(s, qs[..j], out[..j]))
  }

  /** What follows the gate's applied_to_trits: its exception, the length assert, the write-back. */
  function Finish(s: map<Qubit, int>, qs: seq<Qubit>, applied: Result<seq<int>>): Outcome
  {
    match applied
    case Err(e) => Outcome(Some(e), s)
    case Ok(out) => if |out| != |qs| then Outcome(Some(AssertionError), s) else Landed(s, qs, out)
  }

  /** apply_to_ternary_state on a state, as a function of the state before: the distinctness
    * assert, the reads (KeyError for a qutrit the state lacks), then the gate and the write-back. */
  function Effect(op: TernaryOp, s: map<Qubit, int>): Outcome
  {
    var qs := op.qubits;
    if !Distinct(qs) then Outcome(Some(AssertionError), s)
    else if !AllIn(qs, s) then Outcome(Some(KeyError), s)
    else Finish(s, qs, GateLibrary.Apply(op.gate, Read(s, qs)))
  }

  /** The classical state of a circuit's qutrits. */
  class TernaryState {
    var trits: map<Qubit, int>

    constructor (initial: map<Qubit, int>)
      ensures trits == initial
    {
      trits := initial;
    }

    /** state.copy(). */
    method Copy() returns (r: TernaryState)
      ensures fresh(r) && r.trits == trits
    {
      r := new TernaryState(trits);
    }

    /** op.apply_to_ternary_state(state): read the operation's trits, apply the gate, and write the
      * output back qutrit by qutrit, failing at the first output trit out of range. */
    method ApplyOp(op: TernaryOp) returns (error: Option<Error>)
      modifies this
      ensures Outcome(error, trits) == Effect(op, old(trits))
    {
      var qs := op.qubits;
      if !Distinct(qs) {
        return Some(AssertionError);
      }
      var read: seq<int> := [];
      var i := 0;
      while i < |qs|
        invariant 0 <= i <= |qs| && AllIn(qs[..i], trits) && read == Read(trits, qs[..i])
      {
        if qs[i] !in trits {
          return Some(KeyError);
        }
        assert qs[..i + 1] == qs[..i] + [qs[i]];
        read := read + [trits[qs[i]]];
        i := i + 1;
      }
      assert qs[..i] == qs;
      var applied := GateLibrary.Apply(op.gate, read);
      if applied.Err? {
        return Some(applied.error);
      }
      if |applied.value| != |qs| {
        return Some(AssertionError);
      }
      error := WriteBack(qs, applied.value);
    }

    /** The loop that writes the gate's output back, one qutrit at a time. */
    method WriteBack(qs: seq<Qubit>, out: seq<int>) returns (error: Option<Error>)
      requires |out| == |qs|
      modifies this
      ensures Outcome(error, trits) == Landed(old(trits), qs, out)
    {
      var i := 0;
      while i < |out|
        invariant 0 <= i <= |out| && i <= FirstBad(out)
        invariant trits == Written(old(trits), qs[..i], out[..i])
      {
        if !IsTrit(out[i]) {
          return Some(AssertionError);
        }
        assert qs[..i + 1][..i] == qs[..i] && out[..i + 1][..i] == out[..i];
        trits := trits[qs[i] := out[i]];
        FirstBadAfter(out, i);
        i := i + 1;
      }
      assert qs[..i] == qs && out[..i] == out;
      return None;
    }
  }

  lemma FirstBadAfter(out: seq<int>, i: nat)
    requires i <= FirstBad(out) && i < |out| && IsTrit(out[i])
    ensures i + 1 <= FirstBad(out)
  {
    if i == FirstBad(out) {
    }
  }

  /** The qutrits the operation does not name keep their trits, and no qutrit is added or removed. */
  lemma {:induction false} WrittenFrame(s: map<Qubit, int>, qs: seq<Qubit>, out: seq<int>, q: Qubit)
    requires |out| == |qs| && AllIn(qs, s)
    ensures Written(s, qs, out).Keys == s.Keys
    ensures q in s && (forall i :: 0 <= i < |qs| ==> qs[i] != q) ==> Written(s, qs, out)[q] == s[q]
  {
    if qs != [] {
      WrittenFrame(s, qs[..|qs| - 1], out[..|out| - 1], q);
    }
  }

  /** Each named qutrit holds its output trit: with all qutrits distinct no later write covers an
    * earlier one. */
  lemma {:induction false} WrittenHolds(s: map<Qubit, int>, qs: seq<Qubit>, out: seq<int>, i: nat)
    requires |out| == |qs| && Distinct(qs) && i < |qs|
    ensures qs[i] in Written(s, qs, out) && Written(s, qs, out)[qs[i]] == out[i]
  {
    var n := |qs|;
    if i < n - 1 {
      WrittenHolds(s, qs[..n - 1], out[..n - 1], i);
    }
  }

  /** Writing back the trits a state already holds leaves it as it was. */
  lemma {:induction false} WrittenSame(s: map<Qubit, int>, qs: seq<Qubit>)
    requires AllIn(qs, s)
    ensures Written(s, qs, Read(s, qs)) == s
  {
    if qs != [] {
      var n := |qs|;
      assert Read(s, qs)[..n - 1] == Read(s, qs[..n - 1]);
      WrittenSame(s, qs[..n - 1]);
    }
  }

  /** The write-back succeeds exactly when every output trit is in range, and then leaves every
    * named qutrit at its output trit and every other qutrit as it was. */
  lemma LandedWrites(s: map<Qubit, int>, qs: seq<Qubit>, out: seq<int>)
    requires |out| == |qs| && Distinct(qs) && AllIn(qs, s)
    ensures Landed(s, qs, out).error.None? <==> ValidTrits(out)
    ensures ValidTrits(out) ==>
      var t := Landed(s, qs, out).state;
      && t.Keys == s.Keys
      && (forall i :: 0 <= i < |qs| ==> t[qs[i]] == out[i])
      && (forall q :: q in s && q !in qs ==> t[q] == s[q])
  {
    if ValidTrits(out) {
      assert qs[..|qs|] == qs && out[..|out|] == out;
      WrittenFrame(s, qs, out, 0);
      forall i | 0 <= i < |qs| ensures qs[i] in Written(s, qs, out) && Written(s, qs, out)[qs[i]] == out[i] {
        WrittenHolds(s, qs, out, i);
      }
      forall q | q in s ensures q in Written(s, qs, out) && (q !in qs ==> Written(s, qs, out)[q] == s[q]) {
        WrittenFrame(s, qs, out, q);
      }
    }
  }

  /** A write-back stopped early has written only a prefix of the named qutrits. */
  lemma LandedFrame(s: map<Qubit, int>, qs: seq<Qubit>, out: seq<int>)
    requires |out| == |qs| && AllIn(qs, s)
    ensures var t := Landed(s, qs, out).state;
      t.Keys == s.Keys && forall q :: q in s && q !in qs ==> t[q] == s[q]
  {
    var j := FirstBad(out);
    var pre := qs[..j];
    assert forall i :: 0 <= i < j ==> pre[i] == qs[i];
    WrittenFrame(s, pre, out[..j], 0);
    forall q | q in s ensures q in Written(s, pre, out[..j]) && (q !in qs ==> Written(s, pre, out[..j])[q] == s[q]) {
      WrittenFrame(s, pre, out[..j], q);
    }
  }

  /** The run-time asserts: the operation succeeds exactly when its qutrits are distinct and in the
    * state, the gate succeeds, and its output has one trit in range per qutrit; it then changes only
    * its qutrits, which hold the gate's output in qutrit order. */
  lemma EffectWrites(op: TernaryOp, s: map<Qubit, int>)
    ensures Effect(op, s).error.None? <==>
      Distinct(op.qubits) && AllIn(op.qubits, s) &&
      var applied := GateLibrary.Apply(op.gate, Read(s, op.qubits));
      applied.Ok? && |applied.value| == |op.qubits| && ValidTrits(applied.value)
    ensures Effect(op, s).error.None? ==>
      var out := GateLibrary.Apply(op.gate, Read(s, op.qubits)).value;
      var t := Effect(op, s).state;
      && t.Keys == s.Keys
      && (forall i :: 0 <= i < |op.qubits| ==> t[op.qubits[i]] == out[i])
      && (forall q :: q in s && q !in op.qubits ==> t[q] == s[q])
  {
    var qs := op.qubits;
    if Distinct(qs) && AllIn(qs, s) {
      var applied := GateLibrary.Apply(op.gate, Read(s, qs));
      if applied.Ok? && |applied.value| == |qs| {
        LandedWrites(s, qs, applied.value);
      }
    }
  }

  /** A failing operation leaves the qutrits it does not name alone, and it changes nothing at all
    * unless it failed in the write-back's range assert. */
  lemma EffectFails(op: TernaryOp, s: map<Qubit, int>)
    requires Effect(op, s).error.Some?
    ensures var t := Effect(op, s).state;
      && t.Keys == s.Keys
      && (forall q :: q in s && q !in op.qubits ==> t[q] == s[q])
      && (Effect(op, s).error != Some(AssertionError) ==> t == s)
  {
    var qs := op.qubits;
    if Distinct(qs) && AllIn(qs, s) {
      var applied := GateLibrary.Apply(op.gate, Read(s, qs));
      if applied.Ok? && |applied.value| == |qs| {
        LandedFrame(s, qs, applied.value);
      }
    }
  }

  /** Every trit a state holds stays in range(3) after the operation, whether it fails or not. */
  lemma EffectKeepsTrits(op: TernaryOp, s: map<Qubit, int>)
    requires forall q :: q in s ==> IsTrit(s[q])
    ensures forall q :: q in Effect(op, s).state ==> IsTrit(Effect(op, s).state[q])
  {
    var qs := op.qubits;
    if Distinct(qs) && AllIn(qs, s) {
      var applied := GateLibrary.Apply(op.gate, Read(s, qs));
      if applied.Ok? && |applied.value| == |qs| {
        var j := FirstBad(applied.value);
        WrittenTrits(s, qs[..j], applied.value[..j]);
      }
    }
  }

  lemma {:induction false} WrittenTrits(s: map<Qubit, int>, qs: seq<Qubit>, out: seq<int>)
    requires |out| == |qs| && ValidTrits(out) && forall q :: q in s ==> IsTrit(s[q])
    ensures forall q :: q in Written(s, qs, out) ==> IsTrit(Written(s, qs, out)[q])
  {
    if qs != [] {
      var n := |qs|;
      var init := out[..n - 1];
      assert ValidTrits(init) by {
        forall i | 0 <= i < n - 1 ensures IsTrit(init[i]) { assert init[i] == out[i]; }
      }
      WrittenTrits(s, qs[..n - 1], out[..n - 1]);
    }
  }

  /** [0] * n. */
  function Zeros(n: nat): (r: seq<int>)
    ensures |r| == n && ValidTrits(r) && forall i :: 0 <= i < n ==> r[i] == 0
  {
    seq(n, _ => 0)
  }

  /** TernaryLogicGate.validate_args: the gate's validate_trits on one 0 per qutrit; its asserts
    * raise AssertionError. The base class check (ops.Gate.validate_args) is not part of this
    * model and taken to accept every qutrit list. */
  function ValidateArgs(g: Gate, qubits: seq<Qubit>): Option<Error>
  {
    if GateLibrary.Valid(g, Zeros(|qubits|)) then None else Some(AssertionError)
  }

  /** How many qutrits each gate accepts from validate_args. */
  lemma ValidateArgsArity(g: Gate, qubits: seq<Qubit>)
    ensures IsBaseGate(g) ==> (ValidateArgs(g, qubits).None? <==> |qubits| == 1)
    ensures g.Controlled? && IsBaseGate(g.base) ==>
      (ValidateArgs(g, qubits).None? <==> |qubits| == |g.controls| + 1)
    ensures g.AncillaGen? ==> (ValidateArgs(g, qubits).None? <==> |qubits| == 3)
    ensures g.PlusK? ==> (ValidateArgs(g, qubits).None? <==> |qubits| == |g.k|)
    ensures g.PlusKCarry? ==>
      (ValidateArgs(g, qubits).None? <==> |qubits| == |g.k| + 1 + (if g.topAncilla then 1 else 0))
    ensures g.UpwardMultiAnd? ==> ValidateArgs(g, qubits).None?
    ensures g.UpwardMultiControlPlusOne? || g.BTBCnU? ==> (ValidateArgs(g, qubits).None? <==> |qubits| > 0)
    ensures g.MultiOrAnd? ==> (ValidateArgs(g, qubits).None? <==> |qubits| >= 2)
    ensures g.SmallPlusKCarry? ==> (ValidateArgs(g, qubits).None? <==> |qubits| == |g.k| + 1 >= 2)
  {
    if g.Controlled? {
      var z := Zeros(|qubits|);
      var m := ControlledTernaryGate.Min(|g.controls|, |qubits|);
      assert |z[m..]| == |qubits| - m;
      var suffix := z[m..];
      assert ValidTrits(suffix) by {
        forall i | 0 <= i < |suffix| ensures IsTrit(suffix[i]) { assert suffix[i] == z[m + i]; }
      }
      assert GateLibrary.Valid(g, z) <==> GateLibrary.Valid(g.base, suffix);
      if IsBaseGate(g.base) {
        assert GateLibrary.Valid(g.base, suffix) <==> |suffix| == 1;
      }
    }
  }
}
