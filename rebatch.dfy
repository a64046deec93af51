/** The flatten-and-rebatch pipeline of circuit.py: _extract_unitaries expands operations into
  * (matrix, qubits) pairs, and reconstruct_moments regroups such pairs into moments greedily. A
  * matrix is an abstract payload. */
module Rebatching {
  import opened Wrappers
  import opened Moments
  import opened SeqFacts

  /** A (matrix, qubits) pair. */
  type Item = (nat, seq<Qubit>)

  /** The payload standing for protocols.unitary(ops.X). */
  const XMatrix: nat := 0

  predicate Share(a: Item, b: Item) { exists q :: q in a.1 && q in b.1 }

  predicate Avoids(a: Item, blocked: set<Qubit>) { forall q :: q in a.1 ==> q !in blocked }

  // ---------------------------------------------------------------------------------------------
  // reconstruct_moments

  /** One pass of the while loop over the remaining items: an item joins the moment when none of
    * its qubits is blocked and is put off otherwise, and in both cases its qubits become blocked. */
  function Round(list: seq<Item>, blocked: set<Qubit>): (r: (seq<Item>, seq<Item>))
    ensures |r.0| + |r.1| == |list|
    ensures list != [] && Avoids(list[0], blocked) ==> r.0 != [] && r.0[0] == list[0]
    decreases |list|
  {
    if list == [] then ([], [])
    else
      var x := list[0];
      var rest := Round(list[1..], blocked + QubitSet(x.1));
      if exists q :: q in x.1 && q in blocked then (rest.0, [x] + rest.1)
      else ([x] + rest.0, rest.1)
  }

  /** A round splits the items it is given: it neither loses nor invents any. */
  lemma {:induction false} RoundSplits(list: seq<Item>, blocked: set<Qubit>)
    ensures multiset(Round(list, blocked).0) + multiset(Round(list, blocked).1) == multiset(list)
    decreases |list|
  {
    if list != [] {
      var x := list[0];
      RoundSplits(list[1..], blocked + QubitSet(x.1));
      assert list == [x] + list[1..];
    }
  }

  lemma RoundMembers(list: seq<Item>, blocked: set<Qubit>)
    ensures forall x :: x in Round(list, blocked).0 ==> x in list
    ensures forall x :: x in Round(list, blocked).1 ==> x in list
  {
    RoundSplits(list, blocked);
    var r := Round(list, blocked);
    forall x | x in r.0 ensures x in list {
      assert x in multiset(r.0);
    }
    forall x | x in r.1 ensures x in list {
      assert x in multiset(r.1);
    }
  }

  /** What a round admits avoids the qubits blocked before it, and its items are pairwise
    * disjoint. */
  lemma {:induction false} RoundDisjoint(list: seq<Item>, blocked: set<Qubit>)
    ensures forall x :: x in Round(list, blocked).0 ==> Avoids(x, blocked)
    ensures forall i, j :: 0 <= i < j < |Round(list, blocked).0| ==> !Share(Round(list, blocked).0[i], Round(list, blocked).0[j])
    decreases |list|
  {
    if list != [] {
      var x := list[0];
      var b' := blocked + QubitSet(x.1);
      RoundDisjoint(list[1..], b');
      var rest := Round(list[1..], b');
      if !exists q :: q in x.1 && q in blocked {
        var m := [x] + rest.0;
        forall i, j | 0 <= i < j < |m| ensures !Share(m[i], m[j]) {
          if i == 0 {
            assert m[j] in rest.0 && Avoids(m[j], b');
          } else {
            assert m[i] == rest.0[i - 1] && m[j] == rest.0[j - 1];
          }
        }
      }
    }
  }

  /** Two items of one round's moment that share a qubit are the same item. */
  lemma RoundShareSame(list: seq<Item>, blocked: set<Qubit>)
    ensures forall x, y :: x in Round(list, blocked).0 && y in Round(list, blocked).0 && Share(x, y) ==> x == y
  {
    RoundDisjoint(list, blocked);
    var m := Round(list, blocked).0;
    forall x, y | x in m && y in m && Share(x, y) ensures x == y {
      var i :| 0 <= i < |m| && m[i] == x;
      var j :| 0 <= j < |m| && m[j] == y;
    }
  }

  /** The moments reconstruct_moments returns: a round's moment, then the moments of what it put
    * off. */
  function Rebatched(list: seq<Item>): (r: seq<seq<Item>>)
    decreases |list|
  {
    if list == [] then []
    else
      var (moment, later) := Round(list, {});
      [moment] + Rebatched(later)
  }

  function Flatten(batches: seq<seq<Item>>): seq<Item>
  {
    if batches == [] then [] else batches[0] + Flatten(batches[1..])
  }

  /** One step of the inner loop. */
  lemma RoundStep(list: seq<Item>, t: nat, blocked: set<Qubit>)
    requires t < |list|
    ensures var x, rest := list[t], Round(list[t + 1..], blocked + QubitSet(list[t].1));
      Round(list[t..], blocked) ==
        if exists q :: q in x.1 && q in blocked then (rest.0, [x] + rest.1) else ([x] + rest.0, rest.1)
  {
    DropOne(list, t);
  }

  /** One pass of reconstruct_moments' while loop over the remaining items. */
  method RunRound(list: seq<Item>) returns (moment: seq<Item>, next: seq<Item>)
    ensures (moment, next) == Round(list, {})
  {
    var blocked: set<Qubit> := {};
    moment, next := [], [];
    assert list[0..] == list;
    for t := 0 to |list|
      invariant moment + Round(list[t..], blocked).0 == Round(list, {}).0
      invariant next + Round(list[t..], blocked).1 == Round(list, {}).1
    {
      RoundStep(list, t, blocked);
      ghost var rest := Round(list[t + 1..], blocked + QubitSet(list[t].1));
      var (mat, qs) := list[t];
      if exists q :: q in qs && q in blocked {
        blocked := blocked + QubitSet(qs);
        assert next + ([(mat, qs)] + rest.1) == next + [(mat, qs)] + rest.1;
        next := next + [(mat, qs)];
      } else {
        moment := moment + [(mat, qs)];
        blocked := blocked + QubitSet(qs);
      }
    }
    assert list[|list|..] == [] && Round([], blocked) == ([], []);
    assert moment + [] == moment && next + [] == next;
  }

  /** reconstruct_moments(mat_and_qs_list). */
  method ReconstructMoments(input: seq<Item>) returns (moments: seq<seq<Item>>)
    ensures moments == Rebatched(input)
  {
    var list := input;
    moments := [];
    while |list| > 0
      invariant moments + Rebatched(list) == Rebatched(input)
      decreases |list|
    {
      var moment, next := RunRound(list);
      assert Rebatched(list) == [moment] + Rebatched(next);
      assert moments + Rebatched(list) == (moments + [moment]) + Rebatched(next);
      list := next;
      moments := moments + [moment];
    }
  }

  /** No two items of a reconstructed moment act on a common qubit. */
  lemma {:induction false} RebatchedDisjoint(list: seq<Item>)
    ensures forall b, i, j :: 0 <= b < |Rebatched(list)| && 0 <= i < j < |Rebatched(list)[b]| ==>
              !Share(Rebatched(list)[b][i], Rebatched(list)[b][j])
    decreases |list|
  {
    if list != [] {
      RoundDisjoint(list, {});
      RebatchedDisjoint(Round(list, {}).1);
    }
  }

  /** Every round admits the first remaining item, so no moment is empty and there are at most as
    * many moments as items. */
  lemma {:induction false} RebatchedProgress(list: seq<Item>)
    ensures |Rebatched(list)| <= |list|
    ensures list != [] ==> Rebatched(list)[0] != [] && Rebatched(list)[0][0] == list[0]
    ensures forall b :: 0 <= b < |Rebatched(list)| ==> Rebatched(list)[b] != []
    decreases |list|
  {
    if list != [] {
      RebatchedProgress(Round(list, {}).1);
    }
  }

  lemma FlattenAppend(a: seq<Item>, rest: seq<seq<Item>>)
    ensures Flatten([a] + rest) == a + Flatten(rest)
  {
    assert ([a] + rest)[1..] == rest;
  }

  /** The moments hold exactly the input items, each as often as the input. */
  lemma {:induction false} RebatchedPermutation(list: seq<Item>)
    ensures multiset(Flatten(Rebatched(list))) == multiset(list)
    decreases |list|
  {
    if list != [] {
      var (moment, later) := Round(list, {});
      RoundSplits(list, {});
      RebatchedPermutation(later);
      FlattenAppend(moment, Rebatched(later));
    }
  }

  /** Items whose payloads increase along the list, such as items tagged with their positions. */
  predicate Increasing(list: seq<Item>)
  {
    forall i, j :: 0 <= i < j < |list| ==> list[i].0 < list[j].0
  }

  lemma IncreasingTail(list: seq<Item>)
    requires Increasing(list) && list != []
    ensures Increasing(list[1..])
    ensures forall y :: y in list[1..] ==> list[0].0 < y.0
  {
    var t := list[1..];
    forall y | y in t ensures list[0].0 < y.0 {
      var k :| 0 <= k < |t| && t[k] == y;
      assert list[k + 1] == y;
    }
  }

  /** Each part of a round keeps the input order. */
  lemma {:induction false} RoundIncreasing(list: seq<Item>, blocked: set<Qubit>)
    requires Increasing(list)
    ensures Increasing(Round(list, blocked).0) && Increasing(Round(list, blocked).1)
    decreases |list|
  {
    if list != [] {
      var x := list[0];
      var b' := blocked + QubitSet(x.1);
      IncreasingTail(list);
      RoundIncreasing(list[1..], b');
      RoundMembers(list[1..], b');
      var rest := Round(list[1..], b');
      PrependIncreasing(x, rest.0);
      PrependIncreasing(x, rest.1);
    }
  }

  lemma PrependIncreasing(x: Item, s: seq<Item>)
    requires Increasing(s) && forall y :: y in s ==> x.0 < y.0
    ensures Increasing([x] + s)
  {
    var r := [x] + s;
    forall i, j | 0 <= i < j < |r| ensures r[i].0 < r[j].0 {
      assert r[j] == s[j - 1];
      if i > 0 {
        assert r[i] == s[i - 1];
      }
    }
  }

  /** No item a round admits shares a qubit with an earlier item that it puts off. */
  lemma {:induction false} RoundRespects(list: seq<Item>, blocked: set<Qubit>)
    requires Increasing(list)
    ensures forall x, y :: x in Round(list, blocked).1 && y in Round(list, blocked).0 && Share(x, y) ==> y.0 < x.0
    decreases |list|
  {
    if list != [] {
      var x := list[0];
      var b' := blocked + QubitSet(x.1);
      IncreasingTail(list);
      RoundRespects(list[1..], b');
      RoundMembers(list[1..], b');
      RoundDisjoint(list[1..], b');
      forall y | y in Round(list[1..], b').0 ensures !Share(x, y) {
        assert Avoids(y, b');
      }
    }
  }

  lemma {:induction false} RebatchedMembers(list: seq<Item>, b: nat, x: Item)
    requires b < |Rebatched(list)| && x in Rebatched(list)[b]
    ensures x in list
    decreases |list|
  {
    var (moment, later) := Round(list, {});
    RoundMembers(list, {});
    if b > 0 {
      RebatchedMembers(later, b - 1, x);
    }
  }

  /** Of two items sharing a qubit, the one with the smaller payload is in an earlier moment. */
  predicate SharersOrdered(moments: seq<seq<Item>>)
  {
    forall a, b, x, y ::
      0 <= a < |moments| && 0 <= b < |moments| && x in moments[a] && y in moments[b] && x.0 < y.0 && Share(x, y)
      ==> a < b
  }

  /** Every item of every later moment is an item of the list. */
  lemma AllRebatchedMembers(list: seq<Item>)
    ensures forall b, x :: 0 <= b < |Rebatched(list)| && x in Rebatched(list)[b] ==> x in list
  {
    forall b, x | 0 <= b < |Rebatched(list)| && x in Rebatched(list)[b] ensures x in list {
      RebatchedMembers(list, b, x);
    }
  }

  /** A first moment whose items share no qubit, in front of ordered later moments whose items it
    * never puts after a sharer, gives ordered moments. */
  lemma OrderedCons(moment: seq<Item>, later: seq<Item>, rest: seq<seq<Item>>)
    requires SharersOrdered(rest)
    requires forall b, x :: 0 <= b < |rest| && x in rest[b] ==> x in later
    requires forall x, y :: x in moment && y in moment && Share(x, y) ==> x == y
    requires forall x, y :: x in later && y in moment && Share(x, y) ==> y.0 < x.0
    ensures SharersOrdered([moment] + rest)
  {
    var B := [moment] + rest;
    forall a: int, b: int, x: Item, y: Item | 0 <= a < |B| && 0 <= b < |B| && x in B[a] && y in B[b] && x.0 < y.0 && Share(x, y)
      ensures a < b
    {
      if a > 0 {
        assert x in rest[a - 1];
        if b > 0 {
          assert y in rest[b - 1];
        }
      }
    }
  }

  /** Items sharing a qubit keep their input order: on items tagged with increasing positions,
    * an item goes into a strictly later moment than every earlier item it shares a qubit with. */
  lemma {:induction false} RebatchedOrder(list: seq<Item>)
    requires Increasing(list)
    ensures SharersOrdered(Rebatched(list))
    decreases |list|
  {
    if list != [] {
      var (moment, later) := Round(list, {});
      assert Rebatched(list) == [moment] + Rebatched(later);
      RoundIncreasing(list, {});
      RoundRespects(list, {});
      RoundShareSame(list, {});
      RebatchedOrder(later);
      AllRebatchedMembers(later);
      OrderedCons(moment, later, Rebatched(later));
    }
  }

  /** The items with each payload mapped by f. */
  function Relabel(f: nat -> nat, list: seq<Item>): (r: seq<Item>)
    ensures |r| == |list| && forall i :: 0 <= i < |list| ==> r[i] == (f(list[i].0), list[i].1)
  {
    seq(|list|, i requires 0 <= i < |list| => (f(list[i].0), list[i].1))
  }

  /** The items, each tagged with its position instead of its matrix. */
  function Tagged(list: seq<Item>): (r: seq<Item>)
    ensures |r| == |list| && Increasing(r)
    ensures forall i :: 0 <= i < |list| ==> r[i] == (i, list[i].1)
  {
    seq(|list|, i requires 0 <= i < |list| => (i, list[i].1))
  }

  lemma {:induction false} RoundRelabel(f: nat -> nat, list: seq<Item>, blocked: set<Qubit>)
    ensures Round(Relabel(f, list), blocked) == (Relabel(f, Round(list, blocked).0), Relabel(f, Round(list, blocked).1))
    decreases |list|
  {
    if list != [] {
      var x := list[0];
      assert Relabel(f, list)[1..] == Relabel(f, list[1..]);
      RoundRelabel(f, list[1..], blocked + QubitSet(x.1));
      var rest := Round(list[1..], blocked + QubitSet(x.1));
      assert Relabel(f, [x] + rest.0) == [(f(x.0), x.1)] + Relabel(f, rest.0);
      assert Relabel(f, [x] + rest.1) == [(f(x.0), x.1)] + Relabel(f, rest.1);
    }
  }

  /** Batching looks only at the qubits: relabelling the payloads relabels the moments. */
  lemma {:induction false} RebatchedRelabel(f: nat -> nat, list: seq<Item>)
    ensures |Rebatched(Relabel(f, list))| == |Rebatched(list)|
    ensures forall b :: 0 <= b < |Rebatched(list)| ==> Rebatched(Relabel(f, list))[b] == Relabel(f, Rebatched(list)[b])
    decreases |list|
  {
    if list != [] {
      RoundRelabel(f, list, {});
      RebatchedRelabel(f, Round(list, {}).1);
    }
  }

  /** The moments of any input are those of its position-tagged copy with the matrices put back,
    * so the order property of the tagged copy holds for every input. */
  lemma RebatchedTagged(list: seq<Item>)
    ensures var tagged := Rebatched(Tagged(list));
      var back := (k: nat) => if k < |list| then list[k].0 else 0;
      |tagged| == |Rebatched(list)| &&
      forall b :: 0 <= b < |tagged| ==> Relabel(back, tagged[b]) == Rebatched(list)[b]
  {
    var back := (k: nat) => if k < |list| then list[k].0 else 0;
    assert Relabel(back, Tagged(list)) == list;
    RebatchedRelabel(back, Tagged(list));
  }

  // ---------------------------------------------------------------------------------------------
  // _extract_unitaries

  /** _extract_unitaries(operations): the operations' (matrix, qubits) pairs in order; a composite
    * contributes those of its decomposition, a measurement an X on each inverted qubit, and any
    * other operation raises TypeError. The first error raised is the result. */
  function ExtractUnitaries(ops: seq<Operation>): (r: Result<seq<Item>>)
    ensures r.Err? ==> r.error == TypeError || r.error == IndexError
    decreases ops
  {
    if ops == [] then Ok([])
    else
      match ExtractOne(ops[0])
      case Err(e) => Err(e)
      case Ok(a) =>
        match ExtractUnitaries(ops[1..])
        case Err(e) => Err(e)
        case Ok(b) => Ok(a + b)
  }

  /** One operation of the loop. */
  function ExtractOne(op: Operation): (r: Result<seq<Item>>)
    ensures r.Err? ==> r.error == TypeError || r.error == IndexError
    decreases op
  {
    match op.gate
    case Unitary(m) => Ok([(m, op.qubits)])
    case Composite(d) => ExtractUnitaries(d)
    case Measurement(mask) => Flips(mask, op.qubits, 0)
    case Opaque(_) => Err(TypeError)
  }

  /** for i, b in enumerate(gate.invert_mask) from position i on: an X on op.qubits[i] for each
    * set bit, IndexError for a set bit past the qubits. */
  function Flips(mask: seq<bool>, qs: seq<Qubit>, i: nat): (r: Result<seq<Item>>)
    ensures r.Err? ==> r.error == IndexError
    decreases |mask| - i
  {
    if i >= |mask| then Ok([])
    else if !mask[i] then Flips(mask, qs, i + 1)
    else if i >= |qs| then Err(IndexError)
    else
      match Flips(mask, qs, i + 1)
      case Err(e) => Err(e)
      case Ok(rest) => Ok([(XMatrix, [qs[i]])] + rest)
  }

  /** The positions of the set bits of the mask from i on, in order. */
  function SetBits(mask: seq<bool>, i: nat): (r: seq<nat>)
    ensures forall a :: 0 <= a < |r| ==> i <= r[a] < |mask| && mask[r[a]]
    ensures forall k :: i <= k < |mask| && mask[k] ==> k in r
    ensures forall a, b :: 0 <= a < b < |r| ==> r[a] < r[b]
    decreases |mask| - i
  {
    if i >= |mask| then []
    else if mask[i] then [i] + SetBits(mask, i + 1)
    else SetBits(mask, i + 1)
  }

  /** A measurement fails exactly when a set bit of its invert mask has no qubit. */
  lemma {:induction false} FlipsOk(mask: seq<bool>, qs: seq<Qubit>, i: nat)
    ensures Flips(mask, qs, i).Ok? <==> forall k :: i <= k < |mask| && mask[k] ==> k < |qs|
    decreases |mask| - i
  {
    if i < |mask| {
      FlipsOk(mask, qs, i + 1);
    }
  }

  /** A measurement that expands yields an X on the qubit of each set bit, in order. */
  lemma {:induction false} FlipsValue(mask: seq<bool>, qs: seq<Qubit>, i: nat)
    requires Flips(mask, qs, i).Ok?
    ensures var r, bits := Flips(mask, qs, i).value, SetBits(mask, i);
      |r| == |bits| && forall k :: 0 <= k < |bits| ==> bits[k] < |qs| && r[k] == (XMatrix, [qs[bits[k]]])
    decreases |mask| - i
  {
    if i < |mask| {
      FlipsValue(mask, qs, i + 1);
      if mask[i] {
        var bits := SetBits(mask, i + 1);
        var rest := Flips(mask, qs, i + 1).value;
        assert SetBits(mask, i) == [i] + bits;
        assert Flips(mask, qs, i).value == [(XMatrix, [qs[i]])] + rest;
      }
    }
  }

  /** Either both lists expand, and the expansion of their concatenation is the concatenation,
    * or the first error raised is the result. */
  function Then(a: Result<seq<Item>>, b: Result<seq<Item>>): Result<seq<Item>>
  {
    match a
    case Err(e) => Err(e)
    case Ok(x) => match b case Err(e) => Err(e) case Ok(y) => Ok(x + y)
  }

  lemma {:induction false} ExtractAppend(a: seq<Operation>, b: seq<Operation>)
    ensures ExtractUnitaries(a + b) == Then(ExtractUnitaries(a), ExtractUnitaries(b))
    decreases |a|
  {
    if a == [] {
      assert a + b == b;
      if ExtractUnitaries(b).Ok? {
        assert [] + ExtractUnitaries(b).value == ExtractUnitaries(b).value;
      }
    } else {
      assert (a + b)[0] == a[0] && (a + b)[1..] == a[1..] + b;
      ExtractAppend(a[1..], b);
      match ExtractOne(a[0])
      case Err(_) =>
      case Ok(x) =>
        match ExtractUnitaries(a[1..])
        case Err(_) =>
        case Ok(y) =>
          if ExtractUnitaries(b).Ok? {
            assert x + (y + ExtractUnitaries(b).value) == (x + y) + ExtractUnitaries(b).value;
          }
    }
  }

  /** The operation tree flattened: every composite replaced, recursively, by its decomposition. */
  function Leaves(ops: seq<Operation>): (r: seq<Operation>)
    ensures forall i :: 0 <= i < |r| ==> !r[i].gate.Composite?
    decreases ops
  {
    if ops == [] then []
    else LeavesOf(ops[0]) + Leaves(ops[1..])
  }

  function LeavesOf(op: Operation): (r: seq<Operation>)
    ensures forall i :: 0 <= i < |r| ==> !r[i].gate.Composite?
    decreases op
  {
    if op.gate.Composite? then Leaves(op.gate.decomposition) else [op]
  }

  lemma {:induction false} ExtractSingle(op: Operation)
    ensures ExtractUnitaries([op]) == ExtractOne(op)
  {
    assert [op][1..] == [];
    if ExtractOne(op).Ok? {
      assert ExtractOne(op).value + [] == ExtractOne(op).value;
    }
  }

  /** The recursion into decompositions is the expansion of the flattened operation tree. */
  lemma {:induction false} ExtractLeaves(ops: seq<Operation>)
    ensures ExtractUnitaries(ops) == ExtractUnitaries(Leaves(ops))
    decreases ops, 1
  {
    if ops != [] {
      ExtractLeavesOf(ops[0]);
      ExtractLeaves(ops[1..]);
      ExtractAppend(LeavesOf(ops[0]), Leaves(ops[1..]));
    }
  }

  lemma {:induction false} ExtractLeavesOf(op: Operation)
    ensures ExtractOne(op) == ExtractUnitaries(LeavesOf(op))
    decreases op, 0
  {
    if op.gate.Composite? {
      ExtractLeaves(op.gate.decomposition);
    } else {
      ExtractSingle(op);
    }
  }

  /** A list expands exactly when each of its operations does. */
  lemma {:induction false} ExtractOkIff(ops: seq<Operation>)
    ensures ExtractUnitaries(ops).Ok? <==> forall i :: 0 <= i < |ops| ==> ExtractOne(ops[i]).Ok?
    decreases |ops|
  {
    if ops != [] {
      ExtractOkIff(ops[1..]);
      assert forall i :: 1 <= i < |ops| ==> ops[i] == ops[1..][i - 1];
    }
  }

  /** An operation that is not composite expands exactly when it is not opaque and, for a
    * measurement, every set bit of its invert mask has a qubit. */
  lemma LeafOk(op: Operation)
    requires !op.gate.Composite?
    ensures ExtractOne(op).Ok? <==>
      !op.gate.Opaque? &&
      (op.gate.Measurement? ==> forall k :: 0 <= k < |op.gate.invertMask| && op.gate.invertMask[k] ==> k < |op.qubits|)
  {
    if op.gate.Measurement? {
      FlipsOk(op.gate.invertMask, op.qubits, 0);
    }
  }

  /** Operations with known matrices come back one pair each, in order. */
  lemma {:induction false} ExtractUnitaryOnly(ops: seq<Operation>)
    requires forall i :: 0 <= i < |ops| ==> ops[i].gate.Unitary?
    ensures var r := ExtractUnitaries(ops);
      r.Ok? && |r.value| == |ops| && forall i :: 0 <= i < |ops| ==> r.value[i] == (ops[i].gate.matrix, ops[i].qubits)
    decreases |ops|
  {
    if ops != [] {
      ExtractUnitaryOnly(ops[1..]);
      var t := ExtractUnitaries(ops[1..]).value;
      assert ExtractOne(ops[0]) == Ok([(ops[0].gate.matrix, ops[0].qubits)]);
      assert ExtractUnitaries(ops).value == [(ops[0].gate.matrix, ops[0].qubits)] + t;
      assert forall i :: 1 <= i < |ops| ==> ops[i] == ops[1..][i - 1];
    }
  }
}
