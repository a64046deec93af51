/** AncillaGenerationGate: a three-qutrit permutation that turns the binary state of two qutrits
  * into a ternary value so that the third qutrit comes out as a clean 0 ancilla. The forward and
  * the inverted gate both look the input up in one table holding the map and its inverse. */
module AncillaGenerationGate {
  import opened Wrappers
  import opened Gates

  type Triple = (int, int, int)

  /** _map. */
  const Map: map<Triple, Triple> := map[
    (0, 0, 0) := (0, 0, 0),
    (0, 0, 1) := (0, 2, 0),
    (0, 1, 0) := (0, 1, 0),
    (0, 1, 1) := (1, 2, 0),
    (1, 0, 0) := (1, 0, 0),
    (1, 0, 1) := (2, 1, 0),
    (1, 1, 0) := (1, 1, 0),
    (1, 1, 1) := (2, 2, 0)
  ]

  /** _inv_map, written out. */
  const InvMap: map<Triple, Triple> := map[
    (0, 0, 0) := (0, 0, 0),
    (0, 2, 0) := (0, 0, 1),
    (0, 1, 0) := (0, 1, 0),
    (1, 2, 0) := (0, 1, 1),
    (1, 0, 0) := (1, 0, 0),
    (2, 1, 0) := (1, 0, 1),
    (1, 1, 0) := (1, 1, 0),
    (2, 2, 0) := (1, 1, 1)
  ]

  /** InvMap is the dict comprehension {v: k for k, v in _map.items()}: _map turned around, with
    * no two keys of _map sharing a value (the class-level size check). */
  lemma InvMapIsInverse()
    ensures forall k :: k in Map ==> Map[k] in InvMap && InvMap[Map[k]] == k
    ensures forall v :: v in InvMap ==> InvMap[v] in Map && Map[InvMap[v]] == v
    ensures forall k1, k2 :: k1 in Map && k2 in Map && Map[k1] == Map[k2] ==> k1 == k2
  {
  }

  /** _all_map: dict(_map) updated with _inv_map. */
  const AllMap: map<Triple, Triple> := Map + InvMap

  function AsSeq(t: Triple): seq<int> { [t.0, t.1, t.2] }

  /** applied_to_trits, for the gate and for its inverse alike: the table entry for the tuple of
    * the trits, or the trits themselves when the table has none. */
  function Applied(trits: seq<int>): (r: seq<int>)
    ensures |r| == |trits|
    ensures |trits| != 3 ==> r == trits
  {
    if |trits| != 3 then trits
    else
      var key := (trits[0], trits[1], trits[2]);
      if key in AllMap then AsSeq(AllMap[key]) else trits
  }

  /** validate_trits: exactly three trits in range. */
  predicate Valid(trits: seq<int>) { ValidTrits(trits) && |trits| == 3 }

  /** The class-level check that _all_map agrees with _map on every key of _map holds. */
  lemma AllMapAgrees()
    ensures forall k :: k in Map ==> k in AllMap && AllMap[k] == Map[k]
  {
    forall k | k in Map ensures k in AllMap && AllMap[k] == Map[k] {
      if k in InvMap {
        assert InvMap[k] == Map[k] by { SharedKeys(k); }
      }
    }
  }

  /** The four keys _map and _inv_map share are the fixed points of both. */
  lemma SharedKeys(k: Triple)
    requires k in Map && k in InvMap
    ensures Map[k] == k && InvMap[k] == k
  {
  }

  /** Inputs whose tuple is no key of the table come back unchanged. */
  lemma OutsideTableUnchanged(trits: seq<int>)
    requires forall k :: k in AllMap ==> AsSeq(k) != trits
    ensures Applied(trits) == trits
  {
    if |trits| == 3 {
      var key := (trits[0], trits[1], trits[2]);
      assert AsSeq(key) == trits;
    }
  }

  /** Applying the gate twice gives every input back, which is why the inverted gate can reuse the
    * same table. */
  lemma Involution(trits: seq<int>)
    ensures Applied(Applied(trits)) == trits
  {
    if |trits| == 3 {
      var key := (trits[0], trits[1], trits[2]);
      assert AsSeq(key) == trits;
      if key in AllMap {
        var out := AllMap[key];
        AllMapInvolution(key);
        assert Applied(trits) == AsSeq(out);
      }
    }
  }

  /** _all_map maps each of its entries' values back to the key. */
  lemma AllMapInvolution(key: Triple)
    requires key in AllMap
    ensures AllMap[key] in AllMap && AllMap[AllMap[key]] == key
  {
    InvMapIsInverse();
    if key in InvMap {
      var k := InvMap[key];
      if k in InvMap {
        SharedKeys(k);
      }
    } else {
      var v := Map[key];
      if v in Map {
        SharedKeys(v);
      }
    }
  }

  /** Every binary input leaves the third qutrit at 0. */
  lemma BinaryInputFreesAncilla(trits: seq<int>)
    requires |trits| == 3 && forall i :: 0 <= i < 3 ==> trits[i] == 0 || trits[i] == 1
    ensures |Applied(trits)| == 3 && Applied(trits)[2] == 0
  {
    var key := (trits[0], trits[1], trits[2]);
    assert key in Map;
    AllMapAgrees();
  }

  /** On the 27 trit triples the gate is a permutation of trit triples. */
  lemma TritTriples(trits: seq<int>)
    requires Valid(trits)
    ensures Valid(Applied(trits))
  {
    var key := (trits[0], trits[1], trits[2]);
    if key in AllMap {
      TableInRange(key);
    }
  }

  lemma TableInRange(key: Triple)
    requires key in AllMap
    ensures IsTrit(AllMap[key].0) && IsTrit(AllMap[key].1) && IsTrit(AllMap[key].2)
  {
  }

  /** default_decompose: nine controlled +1/-1 gates on q0, q1, q2; the inverted gate returns
    * their inverse list. Unpacking anything but three qubits is a ValueError. */
  function Decomposition(qubits: seq<Qubit>, inverted: bool): (r: Result<seq<TernaryOp>>)
    ensures r.Err? <==> |qubits| != 3
    ensures r.Ok? ==> |r.value| == 9
  {
    if |qubits| != 3 then Err(ValueError)
    else
      var q0, q1, q2 := qubits[0], qubits[1], qubits[2];
      var ops := [
        TernaryOp(Controlled(PlusOne, [[1]]), [q2, q1]),
        TernaryOp(Controlled(PlusOne, [[1]]), [q2, q0]),
        TernaryOp(Controlled(PlusOne, [[1], [1]]), [q0, q1, q2]),
        TernaryOp(Controlled(PlusOne, [[2]]), [q2, q1]),
        TernaryOp(Controlled(MinusOne, [[2]]), [q2, q0]),
        TernaryOp(Controlled(MinusOne, [[0], [2]]), [q0, q1, q2]),
        TernaryOp(Controlled(MinusOne, [[1], [1]]), [q0, q1, q2]),
        TernaryOp(Controlled(PlusOne, [[0, 1], [0, 1]]), [q0, q1, q2]),
        TernaryOp(MinusOne, [q2])
      ];
      if inverted then
        match InverseOps(ops)
        case Some(inv) => Ok(inv)
        case None => assert false; Err(ValueError)
      else Ok(ops)
  }

  /** The inverted gate's decomposition undoes the forward one: it is the forward list reversed,
    * each gate inverted. */
  lemma DecompositionInverted(qubits: seq<Qubit>)
    requires |qubits| == 3
    ensures InverseOps(Decomposition(qubits, false).value) == Some(Decomposition(qubits, true).value)
    ensures InverseOps(Decomposition(qubits, true).value) == Some(Decomposition(qubits, false).value)
  {
    var ops := Decomposition(qubits, false).value;
    InverseOpsInvolution(ops);
  }
}
