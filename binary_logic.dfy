/** The classical reading of cirq's X, CNOT and CCX gates on bits: the semantics under which the
  * borrowed-bit constructions of cnx_borrowed_bit_gate.py and incrementer_borrowedbit_gate.py are
  * checked on every pure input. A qubit is its position in the gate's qubit list. */
module BinaryLogic {

  datatype BinaryOp =
    | Not(target: nat)
    | Cnot(control: nat, target: nat)
    | Toffoli(control1: nat, control2: nat, target: nat)

  /** The gate names qubits of an n-qubit register, none of them twice. */
  predicate Fits(op: BinaryOp, n: nat)
  {
    match op
    case Not(t) => t < n
    case Cnot(c, t) => c < n && t < n && c != t
    case Toffoli(a, b, t) => a < n && b < n && t < n && a != b && a != t && b != t
  }

  predicate AllFit(ops: seq<BinaryOp>, n: nat)
  {
    forall i :: 0 <= i < |ops| ==> Fits(ops[i], n)
  }

  /** The gate on one basis state: its target flips when its controls are all set. */
  function Apply(op: BinaryOp, s: seq<bool>): (r: seq<bool>)
    requires Fits(op, |s|)
    ensures |r| == |s|
    ensures forall k :: 0 <= k < |s| && k != op.target ==> r[k] == s[k]
  {
    match op
    case Not(t) => s[t := !s[t]]
    case Cnot(c, t) => s[t := s[t] != s[c]]
    case Toffoli(a, b, t) => s[t := s[t] != (s[a] && s[b])]
  }

  /** The gates applied in order. */
  function Run(ops: seq<BinaryOp>, s: seq<bool>): (r: seq<bool>)
    requires AllFit(ops, |s|)
    ensures |r| == |s|
    decreases |ops|
  {
    if ops == [] then s else Run(ops[1..], Apply(ops[0], s))
  }

  lemma AllFitAppend(a: seq<BinaryOp>, b: seq<BinaryOp>, n: nat)
    ensures AllFit(a + b, n) <==> AllFit(a, n) && AllFit(b, n)
  {
    if AllFit(a, n) && AllFit(b, n) {
      forall i | 0 <= i < |a + b| ensures Fits((a + b)[i], n) {
        if i >= |a| {
          assert (a + b)[i] == b[i - |a|];
        }
      }
    }
    if AllFit(a + b, n) {
      forall i | 0 <= i < |a| ensures Fits(a[i], n) {
        assert (a + b)[i] == a[i];
      }
      forall i | 0 <= i < |b| ensures Fits(b[i], n) {
        assert (a + b)[|a| + i] == b[i];
      }
    }
  }

  lemma {:induction false} RunAppend(a: seq<BinaryOp>, b: seq<BinaryOp>, s: seq<bool>)
    requires AllFit(a, |s|) && AllFit(b, |s|)
    ensures AllFit(a + b, |s|)
    ensures Run(a + b, s) == Run(b, Run(a, s))
    decreases |a|
  {
    AllFitAppend(a, b, |s|);
    if a == [] {
      assert a + b == b;
    } else {
      assert (a + b)[0] == a[0] && (a + b)[1..] == a[1..] + b;
      RunAppend(a[1..], b, Apply(a[0], s));
    }
  }

  /** One gate, then the rest. */
  lemma RunCons(op: BinaryOp, rest: seq<BinaryOp>, s: seq<bool>)
    requires Fits(op, |s|) && AllFit(rest, |s|)
    ensures AllFit([op] + rest, |s|) && Run([op] + rest, s) == Run(rest, Apply(op, s))
  {
    AllFitAppend([op], rest, |s|);
    assert ([op] + rest)[1..] == rest;
  }

  /** A gate between two gate lists. */
  lemma RunAround(a: seq<BinaryOp>, op: BinaryOp, b: seq<BinaryOp>, s: seq<bool>)
    requires AllFit(a, |s|) && Fits(op, |s|) && AllFit(b, |s|)
    ensures AllFit(a + [op] + b, |s|)
    ensures Run(a + [op] + b, s) == Run(b, Apply(op, Run(a, s)))
  {
    assert AllFit([op], |s|);
    RunAppend(a, [op], s);
    assert Run([op], Run(a, s)) == Apply(op, Run(a, s)) by { assert [op][1..] == []; }
    RunAppend(a + [op], b, s);
  }

  /** Each gate undoes itself. */
  lemma ApplyTwice(op: BinaryOp, s: seq<bool>)
    requires Fits(op, |s|)
    ensures Apply(op, Apply(op, s)) == s
  {
  }

  function Reversed(ops: seq<BinaryOp>): (r: seq<BinaryOp>)
    ensures |r| == |ops| && forall i :: 0 <= i < |ops| ==> r[i] == ops[|ops| - 1 - i]
  {
    if ops == [] then [] else Reversed(ops[1..]) + [ops[0]]
  }

  /** A gate list followed by its reversal is the identity on every basis state. */
  lemma {:induction false} RunReversed(ops: seq<BinaryOp>, s: seq<bool>)
    requires AllFit(ops, |s|)
    ensures AllFit(Reversed(ops), |s|)
    ensures Run(Reversed(ops), Run(ops, s)) == s
    decreases |ops|
  {
    var r := Reversed(ops);
    assert AllFit(r, |s|) by {
      forall i | 0 <= i < |r| ensures Fits(r[i], |s|) {
        assert r[i] == ops[|ops| - 1 - i];
      }
    }
    if ops != [] {
      var t := ops[1..];
      var u := Apply(ops[0], s);
      assert AllFit(t, |s|) by {
        forall i | 0 <= i < |t| ensures Fits(t[i], |s|) { assert t[i] == ops[i + 1]; }
      }
      RunReversed(t, u);
      assert AllFit([ops[0]], |s|);
      RunAppend(Reversed(t), [ops[0]], Run(t, u));
      assert [ops[0]][1..] == [];
      ApplyTwice(ops[0], s);
    }
  }
}
