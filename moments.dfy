/** Moments: operations and moments at the meaning cirq's circuit code relies on. moment.py and
  * the device classes are not part of this model; an operation is a gate on a list of qubits, a
  * moment is a list of operations no two of which act on a common qubit, and a device is the
  * single question the circuit asks it: may this operation join this moment? */
module Moments {
  import opened Wrappers

  /** What the circuit code asks of an operation's gate: a known unitary matrix (an abstract
    * payload), a default decomposition, a measurement with its invert mask, or none of these. */
  datatype Gate =
    | Unitary(matrix: nat)
    | Composite(decomposition: seq<Operation>)
    | Measurement(invertMask: seq<bool>)
    | Opaque(id: nat)

  datatype Operation = Operation(gate: Gate, qubits: seq<Qubit>)

  predicate IsMeasurement(op: Operation) { op.gate.Measurement? }

  function QubitSet(qs: seq<Qubit>): set<Qubit> { set q | q in qs }

  predicate Touches(op: Operation, qubits: set<Qubit>) { exists q :: q in op.qubits && q in qubits }

  predicate Overlap(a: Operation, b: Operation) { exists q :: q in a.qubits && q in b.qubits }

  predicate DistinctQubits(op: Operation)
  {
    forall i, j :: 0 <= i < j < |op.qubits| ==> op.qubits[i] != op.qubits[j]
  }

  /** The Moment constructor's check: no qubit is named twice by the listed operations. */
  predicate WellFormed(ops: seq<Operation>)
  {
    (forall i :: 0 <= i < |ops| ==> DistinctQubits(ops[i])) &&
    (forall i, j :: 0 <= i < j < |ops| ==> !Overlap(ops[i], ops[j]))
  }

  datatype Moment = Moment(operations: seq<Operation>)

  const EmptyMoment := Moment([])

  predicate ValidMoment(m: Moment) { WellFormed(m.operations) }

  predicate ValidMoments(ms: seq<Moment>) { forall i :: 0 <= i < |ms| ==> ValidMoment(ms[i]) }

  /** moment.operates_on(qubits). */
  predicate OperatesOn(m: Moment, qubits: set<Qubit>)
  {
    exists i :: 0 <= i < |m.operations| && Touches(m.operations[i], qubits)
  }

  /** Moment(operations): the moment, or ValueError when two operations overlap. */
  function MakeMoment(ops: seq<Operation>): (r: Result<Moment>)
    ensures r.Ok? <==> WellFormed(ops)
    ensures r.Ok? ==> r.value.operations == ops
    ensures r.Err? ==> r.error == ValueError
  {
    if WellFormed(ops) then Ok(Moment(ops)) else Err(ValueError)
  }

  /** moment.with_operation(op): the moment with op added at the end. */
  function WithOperation(m: Moment, op: Operation): Result<Moment>
  {
    MakeMoment(m.operations + [op])
  }

  /** A valid moment accepts exactly the operations that name distinct qubits none of which it
    * already acts on, and then holds its old operations followed by the new one. */
  lemma WithOperationMeaning(m: Moment, op: Operation)
    requires ValidMoment(m)
    ensures WithOperation(m, op).Ok? <==> DistinctQubits(op) && !OperatesOn(m, QubitSet(op.qubits))
    ensures WithOperation(m, op).Ok? ==> WithOperation(m, op).value.operations == m.operations + [op]
  {
    var ops := m.operations + [op];
    var n := |m.operations|;
    if DistinctQubits(op) && !OperatesOn(m, QubitSet(op.qubits)) {
      forall i, j | 0 <= i < j < |ops|
        ensures !Overlap(ops[i], ops[j])
      {
        if j == n {
          assert ops[i] == m.operations[i] && ops[j] == op;
          assert !Touches(m.operations[i], QubitSet(op.qubits));
        } else {
          assert ops[i] == m.operations[i] && ops[j] == m.operations[j];
        }
      }
      assert WellFormed(ops);
    }
    if WellFormed(ops) {
      assert ops[n] == op;
      if OperatesOn(m, QubitSet(op.qubits)) {
        var i :| 0 <= i < n && Touches(m.operations[i], QubitSet(op.qubits));
        var q :| q in m.operations[i].qubits && q in QubitSet(op.qubits);
        assert ops[i] == m.operations[i];
        assert Overlap(ops[i], ops[n]);
      }
    }
  }

  /** The operations of ops that touch none of qubits, in their order. */
  function Untouched(ops: seq<Operation>, qubits: set<Qubit>): (r: seq<Operation>)
    ensures |r| <= |ops|
    ensures forall op :: op in r <==> op in ops && !Touches(op, qubits)
  {
    if ops == [] then []
    else if Touches(ops[|ops| - 1], qubits) then Untouched(ops[..|ops| - 1], qubits)
    else Untouched(ops[..|ops| - 1], qubits) + [ops[|ops| - 1]]
  }

  /** moment.without_operations_touching(qubits). */
  function WithoutOperationsTouching(m: Moment, qubits: set<Qubit>): Moment
  {
    Moment(Untouched(m.operations, qubits))
  }

  /** Dropping operations keeps a moment valid, and the result no longer acts on the qubits. */
  lemma {:induction false} UntouchedWellFormed(ops: seq<Operation>, qubits: set<Qubit>)
    requires WellFormed(ops)
    ensures WellFormed(Untouched(ops, qubits))
    decreases |ops|
  {
    if ops != [] {
      var init := ops[..|ops| - 1];
      var last := ops[|ops| - 1];
      assert WellFormed(init) by {
        forall i, j | 0 <= i < j < |init| ensures !Overlap(init[i], init[j]) {
          assert init[i] == ops[i] && init[j] == ops[j];
        }
      }
      UntouchedWellFormed(init, qubits);
      var u := Untouched(init, qubits);
      if !Touches(last, qubits) {
        var r := u + [last];
        forall i, j | 0 <= i < j < |r| ensures !Overlap(r[i], r[j]) {
          if j == |u| {
            assert r[i] in init;
            var k :| 0 <= k < |init| && init[k] == r[i];
            assert ops[k] == r[i] && ops[|ops| - 1] == r[j];
          } else {
            assert r[i] == u[i] && r[j] == u[j];
          }
        }
        forall i | 0 <= i < |r| ensures DistinctQubits(r[i]) {
          if i < |u| {
            assert r[i] == u[i] && u[i] in u;
            var k :| 0 <= k < |init| && init[k] == r[i];
            assert ops[k] == r[i];
          } else {
            assert r[i] == ops[|ops| - 1];
          }
        }
      }
    }
  }

  lemma WithoutTouchingMeaning(m: Moment, qubits: set<Qubit>)
    requires ValidMoment(m)
    ensures ValidMoment(WithoutOperationsTouching(m, qubits))
    ensures !OperatesOn(WithoutOperationsTouching(m, qubits), qubits)
  {
    UntouchedWellFormed(m.operations, qubits);
    var r := WithoutOperationsTouching(m, qubits);
    forall i | 0 <= i < |r.operations| ensures !Touches(r.operations[i], qubits) {
      assert r.operations[i] in r.operations;
    }
  }

  /** A device's can_add_operation_into_moment. */
  type Device = (Operation, Moment) -> bool

  /** The unconstrained device admits an operation into any moment that does not act on its
    * qubits. */
  function Unconstrained(): Device
  {
    (op: Operation, m: Moment) => !OperatesOn(m, QubitSet(op.qubits))
  }

  /** A device that never admits an operation into a moment already acting on one of its qubits. */
  ghost predicate Sound(canAdd: Device)
  {
    forall op, m :: canAdd(op, m) ==> !OperatesOn(m, QubitSet(op.qubits))
  }

  /** circuit.all_operations(): moment by moment, each moment's operations in order. */
  function AllOps(ms: seq<Moment>): seq<Operation>
  {
    if ms == [] then [] else AllOps(ms[..|ms| - 1]) + ms[|ms| - 1].operations
  }

  function Empties(n: nat): (r: seq<Moment>)
    ensures |r| == n && forall i :: 0 <= i < n ==> r[i] == EmptyMoment
  {
    if n == 0 then [] else Empties(n - 1) + [EmptyMoment]
  }

  lemma {:induction false} AllOpsAppend(a: seq<Moment>, b: seq<Moment>)
    ensures AllOps(a + b) == AllOps(a) + AllOps(b)
    decreases |b|
  {
    if b == [] {
      assert a + b == a;
    } else {
      var b0 := b[..|b| - 1];
      assert (a + b)[..|a + b| - 1] == a + b0;
      AllOpsAppend(a, b0);
    }
  }

  lemma {:induction false} AllOpsEmpties(n: nat)
    ensures AllOps(Empties(n)) == []
  {
    if n > 0 {
      assert Empties(n)[..n - 1] == Empties(n - 1);
      AllOpsEmpties(n - 1);
    }
  }

  /** Splicing empty moments into a circuit adds no operation. */
  lemma SpliceEmpties(ms: seq<Moment>, at: nat, n: nat)
    requires at <= |ms|
    ensures AllOps(ms[..at] + Empties(n) + ms[at..]) == AllOps(ms)
  {
    var pre, post, e := ms[..at], ms[at..], Empties(n);
    calc {
      AllOps(pre + e + post);
      { AllOpsAppend(pre + e, post); }
      AllOps(pre + e) + AllOps(post);
      { AllOpsAppend(pre, e); AllOpsEmpties(n); }
      AllOps(pre) + AllOps(post);
      { AllOpsAppend(pre, post); assert pre + post == ms; }
      AllOps(ms);
    }
  }

  /** Splicing empty moments into valid moments keeps them valid. */
  lemma SpliceEmptiesValid(ms: seq<Moment>, at: nat, n: nat)
    requires at <= |ms| && ValidMoments(ms)
    ensures ValidMoments(ms[..at] + Empties(n) + ms[at..])
  {
    var r := ms[..at] + Empties(n) + ms[at..];
    forall j | 0 <= j < |r| ensures ValidMoment(r[j]) {
      if j < at {
        assert r[j] == ms[j];
      } else if j >= at + n {
        assert r[j] == ms[j - n];
      } else {
        assert r[j] == EmptyMoment;
      }
    }
  }

  /** The circuit's operations are those before a moment, the moment's own, and those after it. */
  lemma OpsAround(ms: seq<Moment>, p: nat)
    requires p < |ms|
    ensures AllOps(ms) == AllOps(ms[..p]) + ms[p].operations + AllOps(ms[p + 1..])
  {
    var mid, post := ms[..p + 1], ms[p + 1..];
    assert mid + post == ms;
    AllOpsAppend(mid, post);
    assert mid[..p] == ms[..p];
  }

  /** Adding an operation at the end of one moment adds it to the circuit and keeps the rest. */
  lemma AddToMoment(ms: seq<Moment>, p: nat, op: Operation, m: Moment)
    requires p < |ms| && m.operations == ms[p].operations + [op]
    ensures multiset(AllOps(ms[p := m])) == multiset(AllOps(ms)) + multiset([op])
  {
    var r := ms[p := m];
    OpsAround(ms, p);
    OpsAround(r, p);
    assert r[..p] == ms[..p] && r[p + 1..] == ms[p + 1..];
    var a, b, c := AllOps(ms[..p]), ms[p].operations, AllOps(ms[p + 1..]);
    assert AllOps(r) == a + b + [op] + c;
    assert multiset(a + b + [op] + c) == multiset(a) + multiset(b) + multiset([op]) + multiset(c);
  }

  /** Replacing one moment by a valid moment keeps the moments valid. */
  lemma UpdateValid(ms: seq<Moment>, p: nat, m: Moment)
    requires p < |ms| && ValidMoments(ms) && ValidMoment(m)
    ensures ValidMoments(ms[p := m])
  {
    var r := ms[p := m];
    forall i | 0 <= i < |r| ensures ValidMoment(r[i]) {
      if i != p {
        assert r[i] == ms[i];
      }
    }
  }
}
