/** BTBCnUGate: u on the last qutrit when every other qutrit is 1, decomposed into a tree of
  * Toffoli-like ternary gates that mark a qutrit 2 when a whole group of controls is 1. */
module BtbCnuGate {
  import opened Wrappers
  import opened Gates
  import CommonGates
  import opened SeqFacts

  /** all(trit == 1 for trit in trits[:-1]). */
  predicate Triggered(trits: seq<int>)
  {
    forall i :: 0 <= i < |trits| - 1 ==> trits[i] == 1
  }

  /** applied_to_trits as written: trits[-1] of an empty list is an IndexError, and a triggered
    * gate hands u the bare last trit where every gate's applied_to_trits indexes a list, a
    * TypeError. */
  function AppliedAsWritten(trits: seq<int>): (r: Result<seq<int>>)
    ensures r.Err? <==> trits == [] || Triggered(trits)
  {
    if trits == [] then Err(IndexError)
    else if Triggered(trits) then Err(TypeError)
    else Ok(trits)
  }

  /** applied_to_trits with u given the one-trit list trits[-1:], whose result replaces it. */
  function Applied(u: seq<int> -> Result<seq<int>>, trits: seq<int>): (r: Result<seq<int>>)
    ensures trits == [] ==> r == Err(IndexError)
    ensures trits != [] && !Triggered(trits) ==> r == Ok(trits)
    ensures r.Ok? ==> |r.value| >= |trits| - 1 && r.value[..|trits| - 1] == trits[..|trits| - 1]
  {
    if trits == [] then Err(IndexError)
    else if !Triggered(trits) then Ok(trits)
    else
      var n := |trits|;
      match u(trits[n - 1..])
      case Err(e) => Err(e)
      case Ok(v) =>
        assert (trits[..n - 1] + v)[..n - 1] == trits[..n - 1];
        Ok(trits[..n - 1] + v)
  }

  /** validate_trits: in range and at least one qutrit. */
  predicate Valid(trits: seq<int>) { ValidTrits(trits) && |trits| > 0 }

  /** With a base gate u the last trit takes u's image exactly when the gate is triggered. */
  lemma AppliedBase(u: Gate, trits: seq<int>)
    requires IsBaseGate(u) && trits != []
    ensures var n := |trits|;
      Applied(t => CommonGates.Applied(u, t), trits) ==
      Ok(if Triggered(trits) then trits[n - 1 := CommonGates.Step(u, trits[n - 1])] else trits)
  {
    var n := |trits|;
    assert trits[n - 1..] == [trits[n - 1]];
    assert trits[..n - 1] + [CommonGates.Step(u, trits[n - 1])] == trits[n - 1 := CommonGates.Step(u, trits[n - 1])];
  }

  /** inverse() wraps u's inverse, and the wrapped inverse undoes the gate: the controls are never
    * changed, so the second gate is triggered exactly when the first was. */
  lemma InverseUndoes(u: Gate, trits: seq<int>)
    requires IsBaseGate(u) && Valid(trits)
    ensures Inverse(BTBCnU(u)).Some? && Inverse(BTBCnU(u)).value.u == Inverse(u).value
    ensures var v := Inverse(u).value;
      Applied(t => CommonGates.Applied(v, t), Applied(t => CommonGates.Applied(u, t), trits).value) == Ok(trits)
  {
    var n := |trits|;
    var v := Inverse(u).value;
    CommonGates.InverseUndoes(u, trits[n - 1]);
    AppliedBase(u, trits);
    var mid := Applied(t => CommonGates.Applied(u, t), trits).value;
    assert mid[..n - 1] == trits[..n - 1];
    assert Triggered(mid) <==> Triggered(trits) by {
      assert forall i :: 0 <= i < n - 1 ==> mid[i] == trits[..n - 1][i] == trits[i];
    }
    AppliedBase(v, mid);
    if Triggered(trits) {
      assert CommonGates.Applied(v, [CommonGates.Step(u, trits[n - 1])]) == Ok([trits[n - 1]]);
      assert CommonGates.Step(v, mid[n - 1]) == trits[n - 1];
      assert mid[n - 1 := CommonGates.Step(v, mid[n - 1])] == trits;
    }
  }

  /** As written, the default u = F01 on [1, 0] raises a TypeError; the gate that stores u's list
    * back flips the target to 1. */
  lemma AppliedAsWrittenFails()
    ensures AppliedAsWritten([1, 0]) == Err(TypeError)
    ensures Applied(t => CommonGates.Applied(Flip01, t), [1, 0]) == Ok([1, 1])
  {
    AppliedBase(Flip01, [1, 0]);
    assert [1, 0][1 := 1] == [1, 1];
  }

  // ---- default_decompose ----

  /** The two layer kinds: the first layer marks with +1 (-1 when uncomputing) controlled on 1s;
    * the middle layers mark with +1 controlled on 2s and leave a lone leftover qutrit as it is. */
  datatype Layer = First(op: Gate) | Middle

  function TripleGate(kind: Layer): Gate
  {
    match kind
    case First(op) => Controlled(op, [[1], [1]])
    case Middle => Controlled(PlusOne, [[2], [2]])
  }

  function PairGate(kind: Layer): Gate
  {
    match kind
    case First(op) => Controlled(op, [[1]])
    case Middle => Controlled(PlusOne, [[2]])
  }

  /** After the last block, with rem = len(qutrits) - i for the loop variable i's final value: a
    * lone qutrit is marked by op in the first layer and kept as it is in the middle layers, a
    * pair is combined by a singly controlled gate, and nothing else remains. */
  function Leftover(q: seq<Qubit>, kind: Layer, rem: int): (r: (seq<TernaryOp>, seq<Qubit>))
    requires rem == 5 ==> |q| >= 1
    requires rem == 6 ==> |q| >= 2
  {
    var n := |q|;
    if rem == 5 then ((if kind.First? then [TernaryOp(kind.op, [q[n - 1]])] else []), [q[n - 1]])
    else if rem == 6 then ([TernaryOp(PairGate(kind), [q[n - 2], q[n - 1]])], [q[n - 1]])
    else ([], [])
  }

  function BlockOp(q: seq<Qubit>, kind: Layer, i: nat): TernaryOp
    requires i + 2 < |q|
  {
    TernaryOp(TripleGate(kind), [q[i], q[i + 2], q[i + 1]])
  }

  function BlockKept(q: seq<Qubit>, i: nat): seq<Qubit>
    requires i + 2 < |q|
  {
    [q[i + 1]] + (if i + 3 < |q| then [q[i + 3]] else [])
  }

  /** The gates and the kept qutrits of one layer from loop index i on: each block of four marks
    * q[i+1] from q[i] and q[i+2] and keeps q[i+1] and q[i+3]. A loop that never runs leaves i at
    * -4, so the leftover of a list of one or two qutrits is handled as the end of a block. */
  function LayerFrom(q: seq<Qubit>, kind: Layer, i: nat): (r: (seq<TernaryOp>, seq<Qubit>))
    decreases |q| - i
  {
    if i + 2 >= |q| then Leftover(q, kind, |q| - i + 4)
    else
      var rest := LayerFrom(q, kind, i + 4);
      ([BlockOp(q, kind, i)] + rest.0, BlockKept(q, i) + rest.1)
  }

  /** The qutrits a layer keeps are at most half their number, rounded up, and at least one. */
  lemma {:induction false} LayerKeeps(q: seq<Qubit>, kind: Layer, i: nat)
    requires i <= |q| + 1
    ensures 2 * |LayerFrom(q, kind, i).1| <= |q| - i + 1
    ensures i + 2 <= |q| + 1 ==> |LayerFrom(q, kind, i).1| >= 1
    decreases |q| - i
  {
    if i + 2 < |q| {
      LayerKeeps(q, kind, i + 4);
    }
  }

  /** The loop of _decompose_first_layer and of _decompose_middle_layers, with its leftover. */
  method RunLayer(q: seq<Qubit>, kind: Layer) returns (ops: seq<TernaryOp>, kept: seq<Qubit>)
    ensures (ops, kept) == LayerFrom(q, kind, 0)
  {
    ops := [];
    kept := [];
    var i: int := -4;
    var j: nat := 0;
    assert [] + LayerFrom(q, kind, 0).0 == LayerFrom(q, kind, 0).0;
    assert [] + LayerFrom(q, kind, 0).1 == LayerFrom(q, kind, 0).1;
    while j + 2 < |q|
      invariant i == j - 4
      invariant LayerFrom(q, kind, 0).0 == ops + LayerFrom(q, kind, j).0
      invariant LayerFrom(q, kind, 0).1 == kept + LayerFrom(q, kind, j).1
      decreases |q| - j
    {
      LayerStep(q, kind, j, ops, kept);
      ghost var before := kept;
      ops := ops + [TernaryOp(TripleGate(kind), [q[j], q[j + 2], q[j + 1]])];
      kept := kept + [q[j + 1]];
      if j + 3 < |q| {
        Assoc(before, [q[j + 1]], [q[j + 3]]);
        kept := kept + [q[j + 3]];
      }
      assert kept == before + BlockKept(q, j);
      i := j;
      j := j + 4;
    }
    assert LayerFrom(q, kind, j) == Leftover(q, kind, |q| - i);
    var extraOps, extraKept := RunLeftover(q, kind, i);
    ops := ops + extraOps;
    kept := kept + extraKept;
  }

  /** The two tests after the loop, on the loop variable's final value i. */
  method RunLeftover(q: seq<Qubit>, kind: Layer, i: int) returns (ops: seq<TernaryOp>, kept: seq<Qubit>)
    requires |q| - i == 5 ==> |q| >= 1
    requires |q| - i == 6 ==> |q| >= 2
    ensures (ops, kept) == Leftover(q, kind, |q| - i)
  {
    var n := |q|;
    ops, kept := [], [];
    if n - i == 5 {
      if kind.First? {
        ops := [TernaryOp(kind.op, [q[n - 1]])];
      }
      kept := [q[n - 1]];
    } else if n - i == 6 {
      ops := [TernaryOp(PairGate(kind), [q[n - 2], q[n - 1]])];
      kept := [q[n - 1]];
    }
  }

  lemma LayerStep(q: seq<Qubit>, kind: Layer, j: nat, ops: seq<TernaryOp>, kept: seq<Qubit>)
    requires j + 2 < |q|
    ensures ops + LayerFrom(q, kind, j).0 == (ops + [BlockOp(q, kind, j)]) + LayerFrom(q, kind, j + 4).0
    ensures kept + LayerFrom(q, kind, j).1 == (kept + BlockKept(q, j)) + LayerFrom(q, kind, j + 4).1
  {
    var rest := LayerFrom(q, kind, j + 4);
    Assoc(ops, [BlockOp(q, kind, j)], rest.0);
    Assoc(kept, BlockKept(q, j), rest.1);
  }

  /** _decompose_first_layer's loop as written: with at most two controls the loop never runs and
    * the leftover test reads the unbound loop variable, an UnboundLocalError. */
  function FirstLayerAsWritten(controls: seq<Qubit>, op: Gate): (r: Result<(seq<TernaryOp>, seq<Qubit>)>)
    ensures r.Err? <==> |controls| <= 2
    ensures r.Ok? ==> r.value == LayerFrom(controls, First(op), 0)
  {
    if |controls| <= 2 then Err(UnboundLocalError) else Ok(LayerFrom(controls, First(op), 0))
  }

  /** _decompose_middle_layers: one or two qutrits go to last; more are combined by a middle layer
    * and the kept qutrits recursed on. The result is the gates and what is appended to last. */
  function MiddleLayers(q: seq<Qubit>): (r: (seq<TernaryOp>, seq<Qubit>))
    decreases |q|
  {
    if |q| == 1 || |q| == 2 then ([], q)
    else
      var layer := LayerFrom(q, Middle, 0);
      if |layer.1| > 0 then
        LayerKeeps(q, Middle, 0);
        var deeper := MiddleLayers(layer.1);
        (layer.0 + deeper.0, deeper.1)
      else (layer.0, [])
  }

  /** The recursion over the middle layers, appending to the out-parameter list last. */
  method RunMiddleLayers(q: seq<Qubit>, last: seq<Qubit>) returns (ops: seq<TernaryOp>, last': seq<Qubit>)
    ensures ops == MiddleLayers(q).0 && last' == last + MiddleLayers(q).1
    decreases |q|
  {
    if |q| == 1 || |q| == 2 {
      return [], last + q;
    }
    var kept;
    ops, kept := RunLayer(q, Middle);
    last' := last;
    if |kept| > 0 {
      LayerKeeps(q, Middle, 0);
      var deeper;
      deeper, last' := RunMiddleLayers(kept, last);
      ops := ops + deeper;
    } else {
      assert last + [] == last;
    }
  }

  /** One or more qutrits always leave one or two in last, so the controlled u is always emitted. */
  lemma {:induction false} MiddleEndsSmall(q: seq<Qubit>)
    requires |q| >= 1
    ensures 1 <= |MiddleLayers(q).1| <= 2
    decreases |q|
  {
    if |q| > 2 {
      LayerKeeps(q, Middle, 0);
      MiddleEndsSmall(LayerFrom(q, Middle, 0).1);
    }
  }

  /** Every middle-layer gate is +1 controlled on 2s, so the list can be inverted. */
  lemma {:induction false} MiddleGates(q: seq<Qubit>)
    ensures forall j :: 0 <= j < |MiddleLayers(q).0| ==>
      MiddleLayers(q).0[j].gate in {Controlled(PlusOne, [[2], [2]]), Controlled(PlusOne, [[2]])}
    decreases |q|
  {
    if |q| > 2 {
      LayerGates(q, Middle, 0);
      var layer := LayerFrom(q, Middle, 0);
      if |layer.1| > 0 {
        LayerKeeps(q, Middle, 0);
        MiddleGates(layer.1);
      }
    }
  }

  lemma {:induction false} LayerGates(q: seq<Qubit>, kind: Layer, i: nat)
    ensures forall j :: 0 <= j < |LayerFrom(q, kind, i).0| ==>
      var g := LayerFrom(q, kind, i).0[j].gate;
      g == TripleGate(kind) || g == PairGate(kind) || (kind.First? && g == kind.op)
    decreases |q| - i
  {
    if i + 2 < |q| {
      LayerGates(q, kind, i + 4);
      var rest := LayerFrom(q, kind, i + 4).0;
      assert forall j :: 1 <= j < 1 + |rest| ==> LayerFrom(q, kind, i).0[j] == rest[j - 1];
    }
  }

  /** The controlled u at the end of the compute pass: controlled on 2 from one qutrit, on 2 and
    * 1 from two. */
  function FinalGate(u: Gate, last: seq<Qubit>, target: Qubit): seq<TernaryOp>
  {
    if |last| == 1 then [TernaryOp(Controlled(u, [[2]]), [last[0], target])]
    else if |last| == 2 then [TernaryOp(Controlled(u, [[2], [1]]), [last[0], last[1], target])]
    else []
  }

  /** default_decompose: the compute pass (first layer with +1, the middle layers, the controlled
    * u, the middle layers undone) and then the first layer again with -1. With no controls the
    * gate is u itself on the target, as applied_to_trits has it. */
  function Decomposition(u: Gate, qutrits: seq<Qubit>): (r: Result<seq<TernaryOp>>)
    ensures r.Err? <==> qutrits == []
  {
    if qutrits == [] then Err(IndexError)
    else if |qutrits| == 1 then Ok([TernaryOp(u, qutrits)])
    else
      var n := |qutrits|;
      var controls := qutrits[..n - 1];
      var first := LayerFrom(controls, First(PlusOne), 0);
      var middle := MiddleLayers(first.1);
      MiddleInvertible(first.1);
      var undo := LayerFrom(controls, First(MinusOne), 0);
      Ok(first.0 + middle.0 + FinalGate(u, middle.1, qutrits[n - 1]) + InverseOps(middle.0).value + undo.0)
  }

  lemma MiddleInvertible(q: seq<Qubit>)
    ensures InverseOps(MiddleLayers(q).0).Some?
  {
    MiddleGates(q);
  }

  /** default_decompose as written fails whenever there are at most two controls. */
  function DecompositionAsWritten(u: Gate, qutrits: seq<Qubit>): Result<seq<TernaryOp>>
  {
    if qutrits == [] then Err(IndexError)
    else if |qutrits| <= 3 then Err(UnboundLocalError)
    else Decomposition(u, qutrits)
  }

  /** With CCX-like gates on three controls and a target the decomposition works as written, but
    * on two controls it fails; handled as the end of a block, two controls are combined by one
    * singly controlled +1 and undone by the matching -1. */
  lemma DecompositionAsWrittenFails(u: Gate, a: Qubit, b: Qubit, t: Qubit)
    ensures DecompositionAsWritten(u, [a, b, t]) == Err(UnboundLocalError)
    ensures Decomposition(u, [a, b, t]) == Ok([
      TernaryOp(Controlled(PlusOne, [[1]]), [a, b]),
      TernaryOp(Controlled(u, [[2]]), [b, t]),
      TernaryOp(Controlled(MinusOne, [[1]]), [a, b])])
  {
    var controls := [a, b, t][..2];
    assert controls == [a, b];
    var first := LayerFrom(controls, First(PlusOne), 0);
    assert first == ([TernaryOp(Controlled(PlusOne, [[1]]), [a, b])], [b]);
    var middle := MiddleLayers(first.1);
    assert middle == ([], [b]);
    var undo := LayerFrom(controls, First(MinusOne), 0);
    assert undo == ([TernaryOp(Controlled(MinusOne, [[1]]), [a, b])], [b]);
    assert InverseOps(middle.0) == Some([]);
    assert FinalGate(u, middle.1, t) == [TernaryOp(Controlled(u, [[2]]), [b, t])];
    assert Decomposition(u, [a, b, t]) ==
      Ok(first.0 + middle.0 + FinalGate(u, middle.1, t) + InverseOps(middle.0).value + undo.0);
    assert first.0 + middle.0 + FinalGate(u, middle.1, t) + InverseOps(middle.0).value + undo.0 == [
      TernaryOp(Controlled(PlusOne, [[1]]), [a, b]),
      TernaryOp(Controlled(u, [[2]]), [b, t]),
      TernaryOp(Controlled(MinusOne, [[1]]), [a, b])];
  }

  /** The uncompute pass is the first layer with every gate inverted, and the first layer's gates
    * act on pairwise disjoint qutrits, so running it after the first layer gives the controls
    * back. */
  lemma UncomputeInvertsFirstLayer(controls: seq<Qubit>)
    requires forall a, b :: 0 <= a < b < |controls| ==> controls[a] != controls[b]
    ensures var f := LayerFrom(controls, First(PlusOne), 0).0;
      var g := LayerFrom(controls, First(MinusOne), 0).0;
      |f| == |g| &&
      (forall j :: 0 <= j < |f| ==> Inverse(f[j].gate) == Some(g[j].gate) && f[j].qubits == g[j].qubits) &&
      forall j1, j2 :: 0 <= j1 < j2 < |f| ==> forall x :: x in f[j1].qubits ==> x !in f[j2].qubits
  {
    FirstLayerInverse(controls, 0);
    var f := LayerFrom(controls, First(PlusOne), 0).0;
    forall j1, j2, x | 0 <= j1 < j2 < |f| && x in f[j1].qubits ensures x !in f[j2].qubits {
      LayerWithin(controls, First(PlusOne), 0, j1);
      LayerWithin(controls, First(PlusOne), 0, j2);
      var p1 :| 4 * j1 <= p1 <= 4 * j1 + 2 && 0 <= p1 < |controls| && x == controls[p1];
      forall y | y in f[j2].qubits ensures y != x {
        var p2 :| 4 * j2 <= p2 <= 4 * j2 + 2 && 0 <= p2 < |controls| && y == controls[p2];
        assert p1 < p2;
      }
    }
  }

  lemma {:induction false} FirstLayerInverse(q: seq<Qubit>, i: nat)
    ensures var f := LayerFrom(q, First(PlusOne), i).0;
      var g := LayerFrom(q, First(MinusOne), i).0;
      |f| == |g| && forall j :: 0 <= j < |f| ==> Inverse(f[j].gate) == Some(g[j].gate) && f[j].qubits == g[j].qubits
    decreases |q| - i
  {
    if i + 2 < |q| {
      FirstLayerInverse(q, i + 4);
      var f := LayerFrom(q, First(PlusOne), i).0;
      var g := LayerFrom(q, First(MinusOne), i).0;
      var f' := LayerFrom(q, First(PlusOne), i + 4).0;
      var g' := LayerFrom(q, First(MinusOne), i + 4).0;
      assert forall j :: 1 <= j < |f| ==> f[j] == f'[j - 1] && g[j] == g'[j - 1];
    }
  }

  /** Every qutrit of op is one of q[lo], q[lo + 1], q[lo + 2]. */
  predicate Within(op: TernaryOp, q: seq<Qubit>, lo: int)
  {
    forall x :: x in op.qubits ==> exists p :: lo <= p <= lo + 2 && 0 <= p < |q| && x == q[p]
  }

  /** Gate j of a layer started at i touches only qutrits i + 4j .. i + 4j + 2. */
  lemma {:induction false} LayerWithin(q: seq<Qubit>, kind: Layer, i: nat, j: nat)
    requires j < |LayerFrom(q, kind, i).0|
    ensures Within(LayerFrom(q, kind, i).0[j], q, i + 4 * j)
    decreases |q| - i
  {
    var f := LayerFrom(q, kind, i).0;
    var n := |q|;
    if i + 2 < n && j > 0 {
      LayerWithin(q, kind, i + 4, j - 1);
      assert f[j] == LayerFrom(q, kind, i + 4).0[j - 1];
    } else if i + 2 < n {
      forall x | x in f[0].qubits ensures exists p :: i <= p <= i + 2 && 0 <= p < n && x == q[p] {
        if x == q[i] { assert i <= i <= i + 2; }
        else if x == q[i + 1] { assert i <= i + 1 <= i + 2; }
        else { assert x == q[i + 2]; }
      }
    } else if n - i + 4 == 5 {
      assert f == [TernaryOp(kind.op, [q[n - 1]])];
      forall x | x in f[0].qubits ensures exists p :: i <= p <= i + 2 && 0 <= p < n && x == q[p] {
        assert x == q[n - 1];
      }
    } else {
      assert f == [TernaryOp(PairGate(kind), [q[n - 2], q[n - 1]])];
      forall x | x in f[0].qubits ensures exists p :: i <= p <= i + 2 && 0 <= p < n && x == q[p] {
        if x == q[n - 2] { assert i <= n - 2; } else { assert x == q[n - 1]; }
      }
    }
  }

  /** Every decomposition applies u exactly once: with no controls it is u alone on the target,
    * and with at least one control the compute pass holds exactly one gate that can change the
    * target, the controlled u, built from the one or two qutrits the middle layers leave. */
  lemma DecompositionHasOneU(u: Gate, qutrits: seq<Qubit>)
    requires |qutrits| >= 1
    ensures |qutrits| == 1 ==> Decomposition(u, qutrits) == Ok([TernaryOp(u, qutrits)])
    ensures |qutrits| >= 2 ==> var n := |qutrits|;
      var first := LayerFrom(qutrits[..n - 1], First(PlusOne), 0);
      var last := MiddleLayers(first.1).1;
      1 <= |last| <= 2 && |FinalGate(u, last, qutrits[n - 1])| == 1 &&
      FinalGate(u, last, qutrits[n - 1])[0].gate.base == u
  {
    var n := |qutrits|;
    if n >= 2 {
      LayerKeeps(qutrits[..n - 1], First(PlusOne), 0);
      MiddleEndsSmall(LayerFrom(qutrits[..n - 1], First(PlusOne), 0).1);
    }
  }
}
