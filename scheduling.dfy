/** Scheduling: the circuit's read-only queries and the placement rules of insert and
  * insert_into_range, as functions of the moment list. The Circuit class's methods carry out the
  * same steps in place and are proved to leave the moment list these functions compute. */
module Scheduling {
  import opened Wrappers
  import opened Moments
  import opened SeqFacts

  function Max(a: int, b: int): int { if a < b then b else a }
  function Min(a: int, b: int): int { if a < b then a else b }

  /** _has_op_at: a moment index inside the circuit whose moment acts on one of the qubits. */
  predicate HasOpAt(ms: seq<Moment>, i: int, qubits: set<Qubit>)
  {
    0 <= i < |ms| && OperatesOn(ms[i], qubits)
  }

  /** _first_moment_operating_on over range(lo, hi): the first index, scanning upwards. */
  function FirstForward(ms: seq<Moment>, qubits: set<Qubit>, lo: int, hi: int): (r: Option<int>)
    decreases hi - lo
    ensures r.Some? ==> lo <= r.value < hi && HasOpAt(ms, r.value, qubits)
    ensures r.Some? ==> forall j :: lo <= j < r.value ==> !HasOpAt(ms, j, qubits)
    ensures r.None? ==> forall j :: lo <= j < hi ==> !HasOpAt(ms, j, qubits)
  {
    if lo >= hi then None
    else if HasOpAt(ms, lo, qubits) then Some(lo)
    else FirstForward(ms, qubits, lo + 1, hi)
  }

  /** _first_moment_operating_on over end-1, end-2, ..., end-count: the first index, scanning
    * downwards. */
  function FirstBackward(ms: seq<Moment>, qubits: set<Qubit>, end: int, count: nat): (r: Option<int>)
    ensures r.Some? ==> end - count <= r.value < end && HasOpAt(ms, r.value, qubits)
    ensures r.Some? ==> forall j :: r.value < j < end ==> !HasOpAt(ms, j, qubits)
    ensures r.None? ==> forall j :: end - count <= j < end ==> !HasOpAt(ms, j, qubits)
    decreases count
  {
    if count == 0 then None
    else if HasOpAt(ms, end - 1, qubits) then Some(end - 1)
    else FirstBackward(ms, qubits, end - 1, count - 1)
  }

  /** next_moment_operating_on(qubits, start, max_distance). */
  function NextMomentOperatingOn(ms: seq<Moment>, qubits: set<Qubit>, start: int, maxDistance: Option<int>)
    : (r: Result<Option<int>>)
    ensures r.Err? <==> maxDistance.Some? && maxDistance.value < 0
    ensures r.Err? ==> r.error == ValueError
    ensures r.Ok? && r.value.Some? ==>
      var j := r.value.value;
      0 <= j && start <= j < |ms| && OperatesOn(ms[j], qubits) &&
      (maxDistance.Some? ==> j < start + maxDistance.value) &&
      forall i :: start <= i < j ==> !HasOpAt(ms, i, qubits)
    ensures r.Ok? && r.value.None? ==>
      forall j :: start <= j && (maxDistance.None? || j < start + maxDistance.value) ==>
        !HasOpAt(ms, j, qubits)
  {
    var reach := |ms| - start;
    match maxDistance
    case None => Ok(FirstForward(ms, qubits, start, start + reach))
    case Some(d) =>
      if d < 0 then Err(ValueError) else Ok(FirstForward(ms, qubits, start, start + Min(d, reach)))
  }

  /** next_moments_operating_on(qubits, start): per qubit, its next moment, or the circuit's
    * length when none follows. */
  function NextMoments(ms: seq<Moment>, qubits: set<Qubit>, start: int): (r: map<Qubit, nat>)
    ensures r.Keys == qubits
    ensures forall q :: q in qubits ==> start <= r[q] <= |ms| || r[q] == |ms|
    ensures forall q :: q in qubits ==> forall j :: start <= j < r[q] ==> !HasOpAt(ms, j, {q})
    ensures forall q :: q in qubits && r[q] < |ms| ==> OperatesOn(ms[r[q]], {q})
  {
    map q | q in qubits ::
      match NextMomentOperatingOn(ms, {q}, start, None)
      case Ok(Some(j)) => j
      case _ => |ms|
  }

  /** prev_moment_operating_on(qubits, end, max_distance), as written: the default distance is
    * the circuit's length, and it is cut back by however far end lies past the last moment. */
  function PrevMomentOperatingOn(ms: seq<Moment>, qubits: set<Qubit>, end: Option<int>, maxDistance: Option<int>)
    : (r: Result<Option<int>>)
    ensures r.Err? <==> maxDistance.Some? && maxDistance.value < 0
  {
    var e := if end.None? then |ms| else end.value;
    if maxDistance.Some? && maxDistance.value < 0 then Err(ValueError)
    else
      var d := if maxDistance.None? then |ms| else Min(e, maxDistance.value);
      var e', d' := if e > |ms| then |ms| else e, if e > |ms| then d - (e - |ms|) else d;
      if d' <= 0 then Ok(None) else Ok(FirstBackward(ms, qubits, e', d'))
  }

  /** With a distance given, the search covers the max_distance moments just before end (those
    * that exist) and finds the latest one acting on the qubits. */
  lemma PrevMomentWithin(ms: seq<Moment>, qubits: set<Qubit>, end: int, d: nat)
    ensures var r := PrevMomentOperatingOn(ms, qubits, Some(end), Some(d));
      r.Ok? &&
      (r.value.Some? ==> var j := r.value.value;
        end - d <= j < end && j < |ms| && HasOpAt(ms, j, qubits) &&
        forall i :: j < i < end ==> !HasOpAt(ms, i, qubits)) &&
      (r.value.None? ==> forall i :: end - d <= i < end ==> !HasOpAt(ms, i, qubits))
  {
  }

  /** prev_moment_operating_on with max_distance defaulting to no limit, as its documentation
    * says: every moment before end is searched. */
  function PrevMomentUnlimited(ms: seq<Moment>, qubits: set<Qubit>, end: Option<int>): (r: Option<int>)
    ensures var e := if end.None? then |ms| else end.value;
      (r.Some? ==> (0 <= r.value < e && HasOpAt(ms, r.value, qubits) &&
        forall i :: r.value < i < e ==> !HasOpAt(ms, i, qubits))) &&
      (r.None? ==> forall i :: 0 <= i < e ==> !HasOpAt(ms, i, qubits))
  {
    var e := if end.None? then |ms| else end.value;
    var e' := Min(e, |ms|);
    if e' <= 0 then None else FirstBackward(ms, qubits, e', e')
  }

  /** The default distance, as written, misses a matching moment when end lies past the last
    * moment: in three moments of which only the first acts on qubit 0, searching back from 5
    * finds nothing, while the unlimited search finds moment 0. */
  lemma PrevMomentDefaultMisses()
    ensures var op := Operation(Opaque(0), [0]);
      var ms := [Moment([op]), EmptyMoment, EmptyMoment];
      PrevMomentOperatingOn(ms, {0}, Some(5), None) == Ok(None) &&
      PrevMomentUnlimited(ms, {0}, Some(5)) == Some(0)
  {
    var op := Operation(Opaque(0), [0]);
    var ms := [Moment([op]), EmptyMoment, EmptyMoment];
    assert !HasOpAt(ms, 2, {0});
    assert !HasOpAt(ms, 1, {0});
    assert Touches(ms[0].operations[0], {0});
    assert HasOpAt(ms, 0, {0});
  }

  /** With end inside the circuit (or left to default), the default distance as written searches
    * every moment before end, so it finds the latest matching moment the documentation promises. */
  lemma DefaultIsUnlimited(ms: seq<Moment>, qubits: set<Qubit>, end: Option<int>)
    requires end.None? || end.value <= |ms|
    ensures PrevMomentOperatingOn(ms, qubits, end, None) == Ok(PrevMomentUnlimited(ms, qubits, end))
  {
    var r := PrevMomentOperatingOn(ms, qubits, end, None);
    var u := PrevMomentUnlimited(ms, qubits, end);
    assert r.Ok?;
    if r.value.Some? {
      assert HasOpAt(ms, r.value.value, qubits);
    }
    if u.Some? {
      assert HasOpAt(ms, u.value, qubits);
    }
  }

  /** The first operation of ops acting on qubit. */
  function FirstOn(ops: seq<Operation>, qubit: Qubit): (r: Option<Operation>)
    ensures r.Some? ==> r.value in ops && qubit in r.value.qubits
    ensures r.None? ==> forall i :: 0 <= i < |ops| ==> !Touches(ops[i], {qubit})
  {
    if ops == [] then None
    else if qubit in ops[0].qubits then Some(ops[0])
    else FirstOn(ops[1..], qubit)
  }

  /** operation_at(qubit, moment_index): the operation on the qubit in that moment, if the moment
    * exists and has one. */
  function OperationAt(ms: seq<Moment>, qubit: Qubit, index: int): (r: Option<Operation>)
    ensures r.Some? ==> 0 <= index < |ms| && r.value in ms[index].operations && qubit in r.value.qubits
    ensures r.None? && 0 <= index < |ms| ==> !OperatesOn(ms[index], {qubit})
  {
    if !(0 <= index < |ms|) then None
    else FirstOn(ms[index].operations, qubit)
  }

  /** findall_operations(predicate): (moment index, operation) pairs in moment order, then in the
    * order the moment lists them. */
  function FindAll(ms: seq<Moment>, pred: Operation -> bool): (r: seq<(nat, Operation)>)
    ensures forall a :: 0 <= a < |r| ==> r[a].0 < |ms|
    ensures forall a, b :: 0 <= a < b < |r| ==> r[a].0 <= r[b].0
  {
    if ms == [] then []
    else
      var n := |ms| - 1;
      FindAll(ms[..n], pred) + Found(n, ms[n].operations, pred)
  }

  /** findall_operations yields exactly the pairs whose operation is in that moment and satisfies
    * the predicate. */
  lemma {:induction false} FindAllMembers(ms: seq<Moment>, pred: Operation -> bool)
    ensures forall i: nat, op: Operation :: (i, op) in FindAll(ms, pred) <==>
      i < |ms| && op in ms[i].operations && pred(op)
  {
    if ms != [] {
      var n := |ms| - 1;
      FindAllMembers(ms[..n], pred);
      var init, here := FindAll(ms[..n], pred), Found(n, ms[n].operations, pred);
      assert FindAll(ms, pred) == init + here;
      forall i: nat, op: Operation
        ensures (i, op) in FindAll(ms, pred) <==> i < |ms| && op in ms[i].operations && pred(op)
      {
        assert (i, op) in init + here <==> (i, op) in init || (i, op) in here;
        if i < n {
          assert ms[..n][i] == ms[i];
        }
      }
    }
  }

  /** The pairs (i, op) for the operations of ops that satisfy pred. */
  function Found(i: nat, ops: seq<Operation>, pred: Operation -> bool): (r: seq<(nat, Operation)>)
    ensures forall j, op :: (j, op) in r <==> j == i && op in ops && pred(op)
    ensures forall a :: 0 <= a < |r| ==> r[a].0 == i
  {
    if ops == [] then []
    else (if pred(ops[0]) then [(i, ops[0])] else []) + Found(i, ops[1..], pred)
  }

  /** The positions from k on of ops whose operation satisfies pred, ascending. */
  function PositionsFrom(ops: seq<Operation>, pred: Operation -> bool, k: nat): (r: seq<nat>)
    ensures forall a :: 0 <= a < |r| ==> k <= r[a] < |ops|
    ensures forall a, b :: 0 <= a < b < |r| ==> r[a] < r[b]
    ensures forall p: nat :: p in r <==> k <= p < |ops| && pred(ops[p])
    decreases |ops| - k
  {
    if k >= |ops| then []
    else (if pred(ops[k]) then [k] else []) + PositionsFrom(ops, pred, k + 1)
  }

  /** The positions of ops whose operation satisfies pred, ascending, each once. */
  function Positions(ops: seq<Operation>, pred: Operation -> bool): (r: seq<nat>)
    ensures forall a, b :: 0 <= a < b < |r| ==> r[a] < r[b]
    ensures forall p: nat :: p in r <==> p < |ops| && pred(ops[p])
  {
    PositionsFrom(ops, pred, 0)
  }

  lemma {:induction false} FoundFrom(i: nat, ops: seq<Operation>, pred: Operation -> bool, k: nat)
    requires k <= |ops|
    ensures var r, ps := Found(i, ops[k..], pred), PositionsFrom(ops, pred, k);
      |r| == |ps| && forall a :: 0 <= a < |r| ==> r[a] == (i, ops[ps[a]])
    decreases |ops| - k
  {
    if k < |ops| {
      FoundFrom(i, ops, pred, k + 1);
      assert ops[k..][0] == ops[k] && ops[k..][1..] == ops[k + 1..];
    }
  }

  /** The pairs one moment contributes are its satisfying operations in the moment's order, each
    * occurrence once: pair a is the operation at the a-th satisfying position. */
  lemma FoundInOrder(i: nat, ops: seq<Operation>, pred: Operation -> bool)
    ensures var r, ps := Found(i, ops, pred), Positions(ops, pred);
      |r| == |ps| && forall a :: 0 <= a < |r| ==> r[a] == (i, ops[ps[a]])
  {
    FoundFrom(i, ops, pred, 0);
    assert ops[0..] == ops;
  }

  /** The pairs with every moment index moved up by d. */
  function Shift(r: seq<(nat, Operation)>, d: nat): (s: seq<(nat, Operation)>)
    ensures |s| == |r| && forall a :: 0 <= a < |r| ==> s[a] == (r[a].0 + d, r[a].1)
  {
    seq(|r|, a requires 0 <= a < |r| => (r[a].0 + d, r[a].1))
  }

  lemma ShiftAppend(x: seq<(nat, Operation)>, y: seq<(nat, Operation)>, d: nat)
    ensures Shift(x + y, d) == Shift(x, d) + Shift(y, d)
  {
  }

  lemma FoundShift(i: nat, d: nat, ops: seq<Operation>, pred: Operation -> bool)
    ensures Shift(Found(i, ops, pred), d) == Found(i + d, ops, pred)
  {
    FoundInOrder(i, ops, pred);
    FoundInOrder(i + d, ops, pred);
  }

  lemma Regroup<T>(whole: seq<T>, init: seq<T>, last: seq<T>, first: seq<T>, mid: seq<T>, tail: seq<T>, shifted: seq<T>)
    requires whole == init + last && init == first + mid && last == tail && shifted == mid + tail
    ensures whole == first + shifted
  {
  }

  lemma FindAllSnoc(ms: seq<Moment>, pred: Operation -> bool)
    requires ms != []
    ensures FindAll(ms, pred) == FindAll(ms[..|ms| - 1], pred) + Found(|ms| - 1, ms[|ms| - 1].operations, pred)
  {
  }

  lemma FindAllSnocAppend(a: seq<Moment>, b: seq<Moment>, pred: Operation -> bool)
    requires b != []
    ensures FindAll(a + b, pred) ==
      FindAll(a + b[..|b| - 1], pred) + Found(|a| + (|b| - 1), b[|b| - 1].operations, pred)
  {
    var ab := a + b;
    assert ab[..|ab| - 1] == a + b[..|b| - 1];
    assert ab[|ab| - 1] == b[|b| - 1];
    FindAllSnoc(ab, pred);
  }

  /** Searching two moment lists one after the other is searching the second with its indices
    * moved past the first: together with FoundInOrder, the pairs come grouped by moment in
    * moment order, and within one moment in the moment's own order. */
  lemma {:induction false} FindAllAppend(a: seq<Moment>, b: seq<Moment>, pred: Operation -> bool)
    ensures FindAll(a + b, pred) == FindAll(a, pred) + Shift(FindAll(b, pred), |a|)
    decreases |b|
  {
    if b == [] {
      assert a + b == a;
    } else {
      var n := |b| - 1;
      var ab := a + b;
      FindAllSnocAppend(a, b, pred);
      FindAllSnoc(b, pred);
      FindAllAppend(a, b[..n], pred);
      var x, y := FindAll(b[..n], pred), Found(n, b[n].operations, pred);
      ShiftAppend(x, y, |a|);
      FoundShift(n, |a|, b[n].operations, pred);
      Regroup(FindAll(ab, pred), FindAll(a + b[..n], pred), Found(|a| + n, b[n].operations, pred),
        FindAll(a, pred), Shift(x, |a|), Shift(y, |a|), Shift(FindAll(b, pred), |a|));
    }
  }

  /** One moment alone gives the pairs FoundInOrder describes, at index 0. */
  lemma FindAllOne(m: Moment, pred: Operation -> bool)
    ensures FindAll([m], pred) == Found(0, m.operations, pred)
  {
    assert [m][..0] == [];
  }

  /** are_all_measurements_terminal(). */
  predicate AllMeasurementsTerminal(ms: seq<Moment>)
  {
    forall f :: f in FindAll(ms, IsMeasurement) ==>
      NextMomentOperatingOn(ms, QubitSet(f.1.qubits), f.0 + 1, None) == Ok(None)
  }

  /** Every measurement is terminal exactly when no later moment acts on any of its qubits. */
  lemma TerminalMeaning(ms: seq<Moment>)
    ensures AllMeasurementsTerminal(ms) <==>
      forall i, j, op :: 0 <= i < j < |ms| && op in ms[i].operations && IsMeasurement(op) ==>
        !OperatesOn(ms[j], QubitSet(op.qubits))
  {
    var found := FindAll(ms, IsMeasurement);
    FindAllMembers(ms, IsMeasurement);
    if AllMeasurementsTerminal(ms) {
      forall i, j, op | 0 <= i < j < |ms| && op in ms[i].operations && IsMeasurement(op)
        ensures !OperatesOn(ms[j], QubitSet(op.qubits))
      {
        assert (i, op) in found;
        assert NextMomentOperatingOn(ms, QubitSet(op.qubits), i + 1, None) == Ok(None);
        assert !HasOpAt(ms, j, QubitSet(op.qubits));
      }
    } else {
      var f :| f in found && NextMomentOperatingOn(ms, QubitSet(f.1.qubits), f.0 + 1, None) != Ok(None);
      var r := NextMomentOperatingOn(ms, QubitSet(f.1.qubits), f.0 + 1, None);
      var j := r.value.value;
      assert f.0 < j < |ms| && f.1 in ms[f.0].operations && OperatesOn(ms[j], QubitSet(f.1.qubits));
    }
  }

  // ---------------------------------------------------------------------------------------------
  // insert

  /** InsertStrategy. */
  datatype Strategy = New | Inline | Earliest | NewThenInline

  /** _can_add_op_at: indices outside the circuit accept anything, others ask the device. */
  predicate CanAddAt(ms: seq<Moment>, i: int, op: Operation, canAdd: Device)
  {
    !(0 <= i < |ms|) || canAdd(op, ms[i])
  }

  /** _can_commute_past. */
  predicate CanCommutePast(ms: seq<Moment>, i: nat, op: Operation)
    requires i < |ms|
  {
    !OperatesOn(ms[i], QubitSet(op.qubits))
  }

  /** _prev_moment_available's loop, from moment k down, with the lowest accepting moment found
    * so far in last. */
  function PrevAvailable(ms: seq<Moment>, op: Operation, canAdd: Device, k: nat, last: nat): (r: nat)
    requires k <= |ms|
    ensures r == last || r < k
  {
    if k == 0 then last
    else if !CanCommutePast(ms, k - 1, op) then last
    else PrevAvailable(ms, op, canAdd, k - 1, if CanAddAt(ms, k - 1, op, canAdd) then k - 1 else last)
  }

  /** The moment _prev_moment_available(op, end) picks is the earliest accepting moment in the
    * stretch just before end that the operation commutes back through, or end itself. */
  lemma PrevAvailableMeaning(ms: seq<Moment>, op: Operation, canAdd: Device, end: nat)
    requires end <= |ms|
    ensures var r := PrevAvailable(ms, op, canAdd, end, end);
      r <= end &&
      (forall j :: r <= j < end ==> CanCommutePast(ms, j, op)) &&
      (r == end || canAdd(op, ms[r])) &&
      (forall j :: 0 <= j < r && (forall i :: j <= i < end ==> CanCommutePast(ms, i, op)) ==>
        !canAdd(op, ms[j]))
  {
    PrevAvailableWalk(ms, op, canAdd, end, end, end);
  }

  lemma {:induction false} PrevAvailableWalk(ms: seq<Moment>, op: Operation, canAdd: Device, k: nat, last: nat, end: nat)
    requires k <= last <= end <= |ms|
    requires forall i :: k <= i < end ==> CanCommutePast(ms, i, op)
    requires last == end || canAdd(op, ms[last])
    requires forall j :: k <= j < last ==> !canAdd(op, ms[j])
    ensures var r := PrevAvailable(ms, op, canAdd, k, last);
      r <= end &&
      (forall j :: r <= j < end ==> CanCommutePast(ms, j, op)) &&
      (r == end || canAdd(op, ms[r])) &&
      (forall j :: 0 <= j < r && (forall i :: j <= i < end ==> CanCommutePast(ms, i, op)) ==>
        !canAdd(op, ms[j]))
    decreases k
  {
    if k == 0 {
    } else if !CanCommutePast(ms, k - 1, op) {
    } else {
      var last' := if CanAddAt(ms, k - 1, op, canAdd) then k - 1 else last;
      PrevAvailableWalk(ms, op, canAdd, k - 1, last', end);
    }
  }

  function Rank(s: Strategy): nat
  {
    match s
    case Earliest => 2
    case Inline => 1
    case _ => 0
  }

  function Splice(ms: seq<Moment>, at: nat): seq<Moment>
    requires at <= |ms|
  {
    ms[..at] + [EmptyMoment] + ms[at..]
  }

  /** A spliced-in empty moment adds no operation and keeps the moments valid. */
  lemma SpliceShape(ms: seq<Moment>, at: nat)
    requires at <= |ms|
    ensures var r := Splice(ms, at);
      |r| == |ms| + 1 && r[at] == EmptyMoment && r[at + 1..] == ms[at..] &&
      AllOps(r) == AllOps(ms) && (ValidMoments(ms) ==> ValidMoments(r))
  {
    var r := Splice(ms, at);
    assert r == ms[..at] + Empties(1) + ms[at..];
    SpliceEmpties(ms, at, 1);
    if ValidMoments(ms) {
      forall i | 0 <= i < |r| ensures ValidMoment(r[i]) {
        if i < at {
          assert r[i] == ms[i];
        } else if i > at {
          assert r[i] == ms[i - 1];
        }
      }
    }
  }

  lemma AppendEmptyShape(ms: seq<Moment>)
    ensures AllOps(ms + [EmptyMoment]) == AllOps(ms)
    ensures ValidMoments(ms) ==> ValidMoments(ms + [EmptyMoment])
  {
    assert ms + [EmptyMoment] == ms[..|ms|] + Empties(1) + ms[|ms|..];
    SpliceEmpties(ms, |ms|, 1);
    if ValidMoments(ms) {
      forall i | 0 <= i < |ms| + 1 ensures ValidMoment((ms + [EmptyMoment])[i]) {
        if i < |ms| {
          assert (ms + [EmptyMoment])[i] == ms[i];
        }
      }
    }
  }

  /** _pick_or_create_inserted_op_moment_index(splitter, op, strategy): the moment list after any
    * splice, and the index the operation goes to. */
  function Pick(ms: seq<Moment>, splitter: nat, op: Operation, strategy: Strategy, canAdd: Device)
    : (r: (seq<Moment>, nat))
    requires splitter <= |ms|
    ensures r.1 <= |r.0| && |ms| <= |r.0|
    decreases Rank(strategy)
  {
    match strategy
    case New => (Splice(ms, splitter), splitter)
    case NewThenInline => (Splice(ms, splitter), splitter)
    case Inline =>
      if 0 <= splitter - 1 < |ms| && CanAddAt(ms, splitter - 1, op, canAdd) then (ms, splitter - 1)
      else Pick(ms, splitter, op, New, canAdd)
    case Earliest =>
      if CanAddAt(ms, splitter, op, canAdd) then (ms, PrevAvailable(ms, op, canAdd, splitter, splitter))
      else Pick(ms, splitter, op, Inline, canAdd)
  }

  /** The strategy rules. Every pick either keeps the moment list and chooses an accepting moment
    * at or before the splitter, or splices an empty moment in at the splitter and chooses it.
    * NEW and NEW_THEN_INLINE always splice; INLINE takes the moment just before the splitter
    * exactly when it exists and accepts the operation; EARLIEST, when the splitter accepts the
    * operation, walks back only across moments not acting on its qubits and otherwise behaves as
    * INLINE. */
  lemma PickRules(ms: seq<Moment>, s: nat, op: Operation, strategy: Strategy, canAdd: Device)
    requires s <= |ms|
    ensures var r := Pick(ms, s, op, strategy, canAdd);
      ((r.0 == ms && r.1 <= s && CanAddAt(ms, r.1, op, canAdd)) ||
       (r.0 == Splice(ms, s) && r.1 == s))
    ensures strategy == New || strategy == NewThenInline ==>
      Pick(ms, s, op, strategy, canAdd) == (Splice(ms, s), s)
    ensures strategy == Inline ==>
      (Pick(ms, s, op, strategy, canAdd) == (ms, s - 1) <==> 1 <= s && canAdd(op, ms[s - 1]))
    ensures strategy == Inline && !(1 <= s && canAdd(op, ms[s - 1])) ==>
      Pick(ms, s, op, strategy, canAdd) == (Splice(ms, s), s)
    ensures strategy == Earliest && !CanAddAt(ms, s, op, canAdd) ==>
      Pick(ms, s, op, strategy, canAdd) == Pick(ms, s, op, Inline, canAdd)
    ensures strategy == Earliest && CanAddAt(ms, s, op, canAdd) ==>
      var r := Pick(ms, s, op, strategy, canAdd);
      r.0 == ms && r.1 <= s &&
      (forall j :: r.1 <= j < s ==> CanCommutePast(ms, j, op)) &&
      (r.1 == s || canAdd(op, ms[r.1]))
    decreases Rank(strategy)
  {
    if strategy == Inline {
      if !(1 <= s && canAdd(op, ms[s - 1])) {
        assert Splice(ms, s) != ms by { assert |Splice(ms, s)| == |ms| + 1; }
      }
    }
    if strategy == Earliest {
      if CanAddAt(ms, s, op, canAdd) {
        PrevAvailableMeaning(ms, op, canAdd, s);
      } else {
        PickRules(ms, s, op, Inline, canAdd);
      }
    }
  }

  /** An index at or past the end gets as many empty moments appended as it needs. */
  function Pad(ms: seq<Moment>, p: nat): (r: seq<Moment>)
    requires p <= |ms|
    ensures p < |r|
  {
    if p < |ms| then ms else ms + [EmptyMoment]
  }

  /** NEW_THEN_INLINE turns into INLINE after the first operation. */
  function NextStrategy(s: Strategy): Strategy
  {
    if s == NewThenInline then Inline else s
  }

  /** The moment list once the pick (and any splice) and the appending of empty moments are done,
    * and the index the operation goes to. */
  function Padded(ms: seq<Moment>, k: nat, op: Operation, strategy: Strategy, canAdd: Device)
    : (r: (seq<Moment>, nat))
    requires k <= |ms|
    ensures r.1 < |r.0| && |ms| <= |r.0|
  {
    var picked := Pick(ms, k, op, strategy, canAdd);
    (Pad(picked.0, picked.1), picked.1)
  }

  /** The outcome of placing one operation: the exception with_operation raised, if any, the moment
    * list, and the moment the operation went to. */
  datatype Placed = Placed(error: Option<Error>, moments: seq<Moment>, at: nat)

  /** One round of insert's loop: pick, append empty moments up to the index, with_operation. */
  function Place(ms: seq<Moment>, k: nat, op: Operation, strategy: Strategy, canAdd: Device)
    : (r: Placed)
    requires k <= |ms|
    ensures r.error.Some? ==> r.error == Some(ValueError)
    ensures r.at < |r.moments| && k <= |r.moments|
  {
    var padded := Padded(ms, k, op, strategy, canAdd);
    var p := padded.1;
    match WithOperation(padded.0[p], op)
    case Err(e) => Placed(Some(e), padded.0, p)
    case Ok(m) => Placed(None, padded.0[p := m], p)
  }

  /** The outcome of an insertion: the exception raised (the moment list then holds the moments
    * written so far), the moment list, and the index returned. */
  datatype Inserted = Inserted(error: Option<Error>, moments: seq<Moment>, next: int)

  /** insert's loop from insertion index k. */
  function InsertLoop(ms: seq<Moment>, k: nat, ops: seq<Operation>, strategy: Strategy, canAdd: Device)
    : (r: Inserted)
    requires k <= |ms|
    ensures r.error.Some? ==> r.error == Some(ValueError)
    decreases |ops|
  {
    if ops == [] then Inserted(None, ms, k)
    else
      var s := Place(ms, k, ops[0], strategy, canAdd);
      if s.error.Some? then Inserted(s.error, s.moments, k)
      else InsertLoop(s.moments, Max(k, s.at + 1), ops[1..], NextStrategy(strategy), canAdd)
  }

  /** insert(index, operations, strategy), the operation tree already flattened. */
  function Insert(ms: seq<Moment>, index: int, ops: seq<Operation>, strategy: Strategy, canAdd: Device)
    : (r: Inserted)
    ensures r.error == Some(IndexError) <==> !(0 <= index <= |ms|)
    ensures r.error == Some(IndexError) ==> r.moments == ms
  {
    if !(0 <= index <= |ms|) then Inserted(Some(IndexError), ms, index)
    else InsertLoop(ms, index, ops, strategy, canAdd)
  }

  /** insert(index, moment): list.insert's clamping of the index, and index + 1 returned. */
  function InsertMoment(ms: seq<Moment>, index: int, m: Moment): (r: (seq<Moment>, int))
    ensures |r.0| == |ms| + 1 && r.1 == index + 1
    ensures 0 <= index <= |ms| ==> r.0 == ms[..index] + [m] + ms[index..]
    ensures index > |ms| ==> r.0 == ms + [m]
  {
    var at := if index < 0 then Max(0, |ms| + index) else Min(index, |ms|);
    (ms[..at] + [m] + ms[at..], index + 1)
  }

  /** The padded list moves the moments from the next insertion index k' on up by the d <= 1
    * moments it added. */
  predicate PadShifts(ms: seq<Moment>, k: nat, padded: seq<Moment>, p: nat)
  {
    var d := |padded| - |ms|;
    var k' := Max(k, p + 1);
    d <= 1 && k + d <= k' <= |padded| && 0 <= k' - d <= |ms| && padded[k'..] == ms[k' - d..]
  }

  /** After the pick and the padding, the moments from the next insertion index on are the old
    * ones from the matching position, moved up by the one moment spliced or appended, if any. */
  lemma PaddedFrame(ms: seq<Moment>, k: nat, op: Operation, strategy: Strategy, canAdd: Device)
    requires k <= |ms|
    ensures var padded := Padded(ms, k, op, strategy, canAdd); PadShifts(ms, k, padded.0, padded.1)
  {
    PaddedCases(ms, k, op, strategy, canAdd);
    var padded := Padded(ms, k, op, strategy, canAdd);
    CaseFrame(ms, padded.0, padded.1, k);
  }

  /** PaddedFrame for each of the shapes PaddedCases lists. */
  lemma CaseFrame(ms: seq<Moment>, padded: seq<Moment>, p: nat, k: nat)
    requires k <= |ms|
    requires (padded == ms && p < k) || (padded == ms && p == k < |ms|) ||
      (padded == ms + [EmptyMoment] && p == k == |ms|) || (padded == Splice(ms, k) && p == k)
    requires Splice(ms, k)[k + 1..] == ms[k..]
    ensures PadShifts(ms, k, padded, p)
  {
    if padded == Splice(ms, k) && p == k {
      assert |padded| == |ms| + 1;
    }
  }

  /** The pick and the padding add no operation and keep the moments valid. */
  lemma PaddedKeeps(ms: seq<Moment>, k: nat, op: Operation, strategy: Strategy, canAdd: Device)
    requires k <= |ms|
    ensures var padded := Padded(ms, k, op, strategy, canAdd);
      AllOps(padded.0) == AllOps(ms) && (ValidMoments(ms) ==> ValidMoments(padded.0))
  {
    PaddedCases(ms, k, op, strategy, canAdd);
  }

  /** The chosen moment is a fresh empty one or an old one the device accepts the operation into. */
  lemma PaddedTarget(ms: seq<Moment>, k: nat, op: Operation, strategy: Strategy, canAdd: Device)
    requires k <= |ms|
    ensures var padded := Padded(ms, k, op, strategy, canAdd);
      var p := padded.1;
      padded.0[p] == EmptyMoment || (p < |ms| && padded.0 == ms && canAdd(op, ms[p]))
  {
    PaddedCases(ms, k, op, strategy, canAdd);
  }

  /** The three shapes a padded pick takes: an old accepting moment, an empty moment appended at
    * the end, or an empty moment spliced in at the insertion index. */
  lemma PaddedCases(ms: seq<Moment>, k: nat, op: Operation, strategy: Strategy, canAdd: Device)
    requires k <= |ms|
    ensures var padded := Padded(ms, k, op, strategy, canAdd);
      var p := padded.1;
      (padded.0 == ms && p < k && canAdd(op, ms[p])) ||
      (padded.0 == ms && p == k < |ms| && canAdd(op, ms[p])) ||
      (padded.0 == ms + [EmptyMoment] && p == k == |ms|) ||
      (padded.0 == Splice(ms, k) && p == k)
    ensures var padded := Padded(ms, k, op, strategy, canAdd);
      AllOps(padded.0) == AllOps(ms) && (ValidMoments(ms) ==> ValidMoments(padded.0))
    ensures Splice(ms, k)[k] == EmptyMoment && Splice(ms, k)[k + 1..] == ms[k..]
  {
    PickRules(ms, k, op, strategy, canAdd);
    SpliceShape(ms, k);
    var picked := Pick(ms, k, op, strategy, canAdd);
    var p := picked.1;
    if picked.0 == ms && p <= k && CanAddAt(ms, p, op, canAdd) {
      if p == |ms| {
        AppendEmptyShape(ms);
      }
    }
  }

  /** A round that left moments with the operation at index at moves the moments from the next
    * insertion index on up by the d <= 1 moments it added, and no further. */
  predicate RoundShifts(ms: seq<Moment>, k: nat, moments: seq<Moment>, at: nat)
  {
    var d := |moments| - |ms|;
    var k' := Max(k, at + 1);
    d <= 1 && k + d <= k' && TailKept(ms, moments, k')
  }

  /** One round of insert's loop moves the moments from the next insertion index on up by the
    * moments it adds, and no further. */
  lemma PlaceFrame(ms: seq<Moment>, k: nat, op: Operation, strategy: Strategy, canAdd: Device)
    requires k <= |ms|
    ensures var s := Place(ms, k, op, strategy, canAdd); RoundShifts(ms, k, s.moments, s.at)
  {
    PaddedFrame(ms, k, op, strategy, canAdd);
    PlaceShape(ms, k, op, strategy, canAdd);
    var padded := Padded(ms, k, op, strategy, canAdd);
    PlacedFrame(ms, k, padded.0, padded.1, Place(ms, k, op, strategy, canAdd).moments);
  }

  /** Placing changes at most the picked moment of the padded list. */
  lemma PlaceShape(ms: seq<Moment>, k: nat, op: Operation, strategy: Strategy, canAdd: Device)
    requires k <= |ms|
    ensures var padded := Padded(ms, k, op, strategy, canAdd);
      var s := Place(ms, k, op, strategy, canAdd);
      s.at == padded.1 && |s.moments| == |padded.0| &&
      forall j :: 0 <= j < |s.moments| && j != s.at ==> s.moments[j] == padded.0[j]
  {
  }

  /** The frame of one round, for any moment list that agrees with the padded one after p. */
  lemma PlacedFrame(ms: seq<Moment>, k: nat, padded: seq<Moment>, p: nat, after: seq<Moment>)
    requires PadShifts(ms, k, padded, p) && |ms| <= |padded| && |after| == |padded|
    requires forall j :: 0 <= j < |after| && j != p ==> after[j] == padded[j]
    ensures RoundShifts(ms, k, after, p)
  {
    var k' := Max(k, p + 1);
    assert after[k'..] == padded[k'..];
  }

  lemma PlaceNext(ms: seq<Moment>, k: nat, op: Operation, strategy: Strategy, canAdd: Device)
    requires k <= |ms|
    ensures var s := Place(ms, k, op, strategy, canAdd); Max(k, s.at + 1) <= |s.moments|
  {
    PlaceFrame(ms, k, op, strategy, canAdd);
  }

  lemma PlaceValid(ms: seq<Moment>, k: nat, op: Operation, strategy: Strategy, canAdd: Device)
    requires k <= |ms| && ValidMoments(ms)
    ensures ValidMoments(Place(ms, k, op, strategy, canAdd).moments)
  {
    PaddedKeeps(ms, k, op, strategy, canAdd);
    var padded := Padded(ms, k, op, strategy, canAdd);
    var p := padded.1;
    var w := WithOperation(padded.0[p], op);
    if w.Ok? {
      UpdateValid(padded.0, p, w.value);
    }
  }

  /** One round of insert's loop keeps the moments valid; when with_operation succeeds the circuit
    * gains exactly the operation. */
  lemma PlaceKeeps(ms: seq<Moment>, k: nat, op: Operation, strategy: Strategy, canAdd: Device)
    requires k <= |ms|
    ensures var s := Place(ms, k, op, strategy, canAdd);
      (ValidMoments(ms) ==> ValidMoments(s.moments)) &&
      (s.error.None? ==> multiset(AllOps(s.moments)) == multiset(AllOps(ms)) + multiset([op]))
  {
    if ValidMoments(ms) {
      PlaceValid(ms, k, op, strategy, canAdd);
    }
    PlaceOps(ms, k, op, strategy, canAdd);
  }

  lemma PlaceOps(ms: seq<Moment>, k: nat, op: Operation, strategy: Strategy, canAdd: Device)
    requires k <= |ms|
    ensures var s := Place(ms, k, op, strategy, canAdd);
      s.error.None? ==> multiset(AllOps(s.moments)) == multiset(AllOps(ms)) + multiset{op}
  {
    PaddedKeeps(ms, k, op, strategy, canAdd);
    var padded := Padded(ms, k, op, strategy, canAdd);
    var p := padded.1;
    var w := WithOperation(padded.0[p], op);
    if w.Ok? {
      AddToMoment(padded.0, p, op, w.value);
      assert multiset([op]) == multiset{op};
    }
  }

  /** With a sound device, with_operation never fails in insert's loop on a valid circuit and an
    * operation naming distinct qubits. */
  lemma PlaceSucceeds(ms: seq<Moment>, k: nat, op: Operation, strategy: Strategy, canAdd: Device)
    requires k <= |ms| && Sound(canAdd) && ValidMoments(ms) && DistinctQubits(op)
    ensures Place(ms, k, op, strategy, canAdd).error.None?
  {
    PaddedTarget(ms, k, op, strategy, canAdd);
    PaddedKeeps(ms, k, op, strategy, canAdd);
    var padded := Padded(ms, k, op, strategy, canAdd);
    var p := padded.1;
    WithOperationMeaning(padded.0[p], op);
    if padded.0[p] == EmptyMoment {
      assert !OperatesOn(padded.0[p], QubitSet(op.qubits));
    }
  }

  /** What insert's loop promises once it finishes without an exception: the returned index is at
    * least the insertion index, and every moment at or after it is an old moment moved up by the
    * number of moments added. */
  lemma {:induction false} InsertLoopFrame(ms: seq<Moment>, k: nat, ops: seq<Operation>, strategy: Strategy, canAdd: Device)
    requires k <= |ms|
    ensures var r := InsertLoop(ms, k, ops, strategy, canAdd);
      |ms| <= |r.moments| &&
      (r.error.None? ==>
        var d := |r.moments| - |ms|;
        k + d <= r.next && TailKept(ms, r.moments, r.next))
    decreases |ops|
  {
    if ops != [] {
      var op := ops[0];
      PlaceFrame(ms, k, op, strategy, canAdd);
      var s := Place(ms, k, op, strategy, canAdd);
      InsertLoopPlaced(ms, k, ops, strategy, canAdd, s);
      if s.error.None? {
        var k' := Max(k, s.at + 1);
        InsertLoopFrame(s.moments, k', ops[1..], NextStrategy(strategy), canAdd);
        var r := InsertLoop(s.moments, k', ops[1..], NextStrategy(strategy), canAdd);
        assert InsertLoop(ms, k, ops, strategy, canAdd) == r;
        if r.error.None? {
          TailShift(ms, s.moments, r.moments, k', r.next);
        }
      }
    } else {
      assert TailKept(ms, ms, k);
    }
  }

  /** One round of insert's loop, when with_operation succeeds, hands the rest of the operations
    * to the next round from the moment after the one used (or the same insertion index). */
  lemma InsertLoopStep(ms: seq<Moment>, k: nat, ops: seq<Operation>, strategy: Strategy, canAdd: Device)
    requires k <= |ms| && ops != []
    ensures var s := Place(ms, k, ops[0], strategy, canAdd);
      Max(k, s.at + 1) <= |s.moments| &&
      InsertLoop(ms, k, ops, strategy, canAdd) ==
        if s.error.Some? then Inserted(s.error, s.moments, k)
        else InsertLoop(s.moments, Max(k, s.at + 1), ops[1..], NextStrategy(strategy), canAdd)
  {
    PlaceNext(ms, k, ops[0], strategy, canAdd);
  }

  /** InsertLoopStep for a given outcome of the first placement. */
  lemma InsertLoopPlaced(ms: seq<Moment>, k: nat, ops: seq<Operation>, strategy: Strategy, canAdd: Device,
                         placed: Placed)
    requires k <= |ms| && ops != [] && placed == Place(ms, k, ops[0], strategy, canAdd)
    ensures placed.error.Some? ==> InsertLoop(ms, k, ops, strategy, canAdd) == Inserted(placed.error, placed.moments, k)
    ensures placed.error.None? ==> Max(k, placed.at + 1) <= |placed.moments|
    ensures placed.error.None? ==>
      InsertLoop(ms, k, ops, strategy, canAdd) ==
      InsertLoop(placed.moments, Max(k, placed.at + 1), ops[1..], NextStrategy(strategy), canAdd)
  {
    InsertLoopStep(ms, k, ops, strategy, canAdd);
  }

  /** The moments of b from index from on are those of a from the matching index, moved up by the
    * |b| - |a| moments b gained before them. */
  predicate TailKept(a: seq<Moment>, b: seq<Moment>, from: int)
  {
    |a| <= |b| && |b| - |a| <= from <= |b| && b[from..] == a[from - (|b| - |a|)..]
  }

  /** Two shifts of a tail compose. */
  lemma TailShift(a: seq<Moment>, b: seq<Moment>, c: seq<Moment>, i: nat, j: nat)
    requires TailKept(a, b, i) && TailKept(b, c, j) && i + (|c| - |b|) <= j
    ensures TailKept(a, c, j)
  {
    var x := j - (|c| - |b|) - i;
    assert b[j - (|c| - |b|)..] == b[i..][x..];
    assert a[j - (|c| - |a|)..] == a[i - (|b| - |a|)..][x..];
  }

  /** insert keeps the moments valid whether or not an exception interrupts it, and once it
    * finishes the circuit holds its old operations plus the inserted ones. */
  lemma InsertLoopContents(ms: seq<Moment>, k: nat, ops: seq<Operation>, strategy: Strategy, canAdd: Device)
    requires k <= |ms|
    ensures var r := InsertLoop(ms, k, ops, strategy, canAdd);
      (ValidMoments(ms) ==> ValidMoments(r.moments)) &&
      (r.error.None? ==> multiset(AllOps(r.moments)) == multiset(AllOps(ms)) + multiset(ops))
  {
    if ValidMoments(ms) {
      InsertLoopValid(ms, k, ops, strategy, canAdd);
    }
    InsertLoopOps(ms, k, ops, strategy, canAdd);
  }

  lemma {:induction false} InsertLoopValid(ms: seq<Moment>, k: nat, ops: seq<Operation>, strategy: Strategy, canAdd: Device)
    requires k <= |ms| && ValidMoments(ms)
    ensures ValidMoments(InsertLoop(ms, k, ops, strategy, canAdd).moments)
    decreases |ops|
  {
    if ops != [] {
      PlaceValid(ms, k, ops[0], strategy, canAdd);
      var s := Place(ms, k, ops[0], strategy, canAdd);
      InsertLoopPlaced(ms, k, ops, strategy, canAdd, s);
      if s.error.None? {
        InsertLoopValid(s.moments, Max(k, s.at + 1), ops[1..], NextStrategy(strategy), canAdd);
      }
    }
  }

  lemma {:induction false} InsertLoopOps(ms: seq<Moment>, k: nat, ops: seq<Operation>, strategy: Strategy, canAdd: Device)
    requires k <= |ms|
    ensures var r := InsertLoop(ms, k, ops, strategy, canAdd);
      r.error.None? ==> multiset(AllOps(r.moments)) == multiset(AllOps(ms)) + multiset(ops)
    decreases |ops|
  {
    if ops != [] {
      var op := ops[0];
      var s := Place(ms, k, op, strategy, canAdd);
      PlaceOps(ms, k, op, strategy, canAdd);
      InsertLoopPlaced(ms, k, ops, strategy, canAdd, s);
      if s.error.None? {
        var k' := Max(k, s.at + 1);
        var r := InsertLoop(s.moments, k', ops[1..], NextStrategy(strategy), canAdd);
        assert InsertLoop(ms, k, ops, strategy, canAdd) == r;
        InsertLoopOps(s.moments, k', ops[1..], NextStrategy(strategy), canAdd);
        if r.error.None? {
          MultisetCons(ops);
          AddInTwoSteps(multiset(AllOps(ms)), multiset(AllOps(s.moments)), multiset(AllOps(r.moments)),
            multiset{op}, multiset(ops[1..]), multiset(ops));
        }
      }
    }
  }

  /** With a device that never admits an operation into a moment acting on its qubits, insert
    * raises nothing for operations that name distinct qubits. */
  lemma {:induction false} InsertLoopSucceeds(ms: seq<Moment>, k: nat, ops: seq<Operation>, strategy: Strategy, canAdd: Device)
    requires k <= |ms| && Sound(canAdd) && ValidMoments(ms)
    requires forall i :: 0 <= i < |ops| ==> DistinctQubits(ops[i])
    ensures InsertLoop(ms, k, ops, strategy, canAdd).error.None?
    decreases |ops|
  {
    if ops != [] {
      var op := ops[0];
      PlaceSucceeds(ms, k, op, strategy, canAdd);
      PlaceValid(ms, k, op, strategy, canAdd);
      var s := Place(ms, k, op, strategy, canAdd);
      InsertLoopPlaced(ms, k, ops, strategy, canAdd, s);
      InsertLoopSucceeds(s.moments, Max(k, s.at + 1), ops[1..], NextStrategy(strategy), canAdd);
    }
  }

  /** NEW places an operation alone in an empty moment spliced in at the insertion index. */
  lemma PlaceNew(ms: seq<Moment>, k: nat, op: Operation, canAdd: Device)
    requires k <= |ms| && DistinctQubits(op)
    ensures Place(ms, k, op, New, canAdd) == Placed(None, ms[..k] + [Moment([op])] + ms[k..], k)
  {
    var spliced := Splice(ms, k);
    assert Padded(ms, k, op, New, canAdd) == (spliced, k);
    assert spliced[k] == EmptyMoment;
    WithOperationMeaning(EmptyMoment, op);
    assert EmptyMoment.operations + [op] == [op];
    assert WithOperation(spliced[k], op) == Ok(Moment([op]));
    assert spliced[k := Moment([op])] == ms[..k] + [Moment([op])] + ms[k..];
  }

  lemma InsertNewStep(ms: seq<Moment>, k: nat, ops: seq<Operation>, canAdd: Device)
    requires k <= |ms| && ops != [] && DistinctQubits(ops[0])
    ensures InsertLoop(ms, k, ops, New, canAdd) ==
      InsertLoop(ms[..k] + [Moment([ops[0]])] + ms[k..], k + 1, ops[1..], New, canAdd)
  {
    PlaceNew(ms, k, ops[0], canAdd);
    InsertLoopStep(ms, k, ops, New, canAdd);
  }

  /** r is what NEW leaves: every operation in a moment of its own from k on, the moments before
    * k kept, those from k moved up past them, and the next index just after the last one. */
  predicate NewStacks(ms: seq<Moment>, k: nat, ops: seq<Operation>, r: Inserted)
    requires k <= |ms|
  {
    r.error.None? && r.next == k + |ops| && |r.moments| == |ms| + |ops| &&
    r.moments[..k] == ms[..k] && r.moments[k + |ops|..] == ms[k..] &&
    forall i :: 0 <= i < |ops| ==> r.moments[k + i] == Moment([ops[i]])
  }

  lemma StackGlue(ms: seq<Moment>, k: nat, ops: seq<Operation>, r: Inserted)
    requires ops != [] && k <= |ms|
    requires NewStacks(ms[..k] + [Moment([ops[0]])] + ms[k..], k + 1, ops[1..], r)
    ensures NewStacks(ms, k, ops, r)
  {
    var next := ms[..k] + [Moment([ops[0]])] + ms[k..];
    var m := r.moments;
    assert m[..k] == m[..k + 1][..k];
    assert m[k] == m[..k + 1][k];
    assert next[k + 1..] == ms[k..];
    forall i | 1 <= i < |ops| ensures m[k + i] == Moment([ops[i]]) {
      assert m[k + 1 + (i - 1)] == Moment([ops[1..][i - 1]]);
    }
  }

  /** NEW puts every operation in a fresh moment of its own at the insertion index, in order. */
  lemma {:induction false} InsertNewStacks(ms: seq<Moment>, k: nat, ops: seq<Operation>, canAdd: Device)
    requires k <= |ms|
    requires forall i :: 0 <= i < |ops| ==> DistinctQubits(ops[i])
    ensures NewStacks(ms, k, ops, InsertLoop(ms, k, ops, New, canAdd))
    decreases |ops|
  {
    if ops != [] {
      var next := ms[..k] + [Moment([ops[0]])] + ms[k..];
      InsertNewStep(ms, k, ops, canAdd);
      InsertNewStacks(next, k + 1, ops[1..], canAdd);
      StackGlue(ms, k, ops, InsertLoop(next, k + 1, ops[1..], New, canAdd));
    }
  }

  // ---------------------------------------------------------------------------------------------
  // insert_into_range

  /** The outcome of insert_into_range's scan: the exception (if any), the moment list, and the
    * moment each placed operation went into, in input order. */
  datatype Filled = Filled(error: Option<Error>, moments: seq<Moment>, positions: seq<nat>)

  /** insert_into_range's scan from moment i, with end the end of the range. */
  function Fill(ms: seq<Moment>, i: nat, end: nat, ops: seq<Operation>, canAdd: Device): (r: Filled)
    requires i <= end <= |ms|
    ensures |r.moments| == |ms| && |r.positions| <= |ops|
    ensures r.error.Some? ==> r.error == Some(ValueError)
    decreases |ops|, end - i
  {
    if ops == [] || i >= end then Filled(None, ms, [])
    else if !canAdd(ops[0], ms[i]) then Fill(ms, i + 1, end, ops, canAdd)
    else
      match WithOperation(ms[i], ops[0])
      case Err(e) => Filled(Some(e), ms, [])
      case Ok(m) =>
        var r := Fill(ms[i := m], i, end, ops[1..], canAdd);
        Filled(r.error, r.moments, [i] + r.positions)
  }

  /** The scan places operations in input order at a moment index that never moves back, only inside
    * the range, and only by appending to moments. */
  lemma {:induction false} FillPlaces(ms: seq<Moment>, i: nat, end: nat, ops: seq<Operation>, canAdd: Device)
    requires i <= end <= |ms|
    ensures var r := Fill(ms, i, end, ops, canAdd);
      var n := |r.positions|;
      (forall j :: 0 <= j < |ms| && !(i <= j < end) ==> r.moments[j] == ms[j]) &&
      (forall j :: 0 <= j < |ms| ==> ms[j].operations <= r.moments[j].operations) &&
      (forall a :: 0 <= a < n ==> i <= r.positions[a] < end) &&
      (forall a, b :: 0 <= a < b < n ==> r.positions[a] <= r.positions[b]) &&
      (forall a :: 0 <= a < n ==> ops[a] in r.moments[r.positions[a]].operations)
    decreases |ops|, end - i
  {
    if ops == [] || i >= end {
    } else if !canAdd(ops[0], ms[i]) {
      FillPlaces(ms, i + 1, end, ops, canAdd);
    } else {
      match WithOperation(ms[i], ops[0])
      case Err(e) =>
      case Ok(m) =>
        var next := ms[i := m];
        FillPlaces(next, i, end, ops[1..], canAdd);
        var r := Fill(next, i, end, ops[1..], canAdd);
        var pos := [i] + r.positions;
        assert ops[0] in r.moments[i].operations by {
          assert ops[0] in m.operations;
          assert next[i].operations <= r.moments[i].operations;
        }
        forall a | 0 < a < |pos| ensures ops[a] in r.moments[pos[a]].operations {
          assert ops[a] == ops[1..][a - 1] && pos[a] == r.positions[a - 1];
        }
        forall j | 0 <= j < |ms| ensures ms[j].operations <= r.moments[j].operations {
          if j == i {
            assert ms[j].operations <= m.operations;
          } else {
            assert next[j] == ms[j];
          }
        }
    }
  }

  /** The scan keeps the moments valid whether or not with_operation raises. */
  lemma {:induction false} FillValid(ms: seq<Moment>, i: nat, end: nat, ops: seq<Operation>, canAdd: Device)
    requires i <= end <= |ms| && ValidMoments(ms)
    ensures ValidMoments(Fill(ms, i, end, ops, canAdd).moments)
    decreases |ops|, end - i
  {
    if ops == [] || i >= end {
    } else if !canAdd(ops[0], ms[i]) {
      FillValid(ms, i + 1, end, ops, canAdd);
    } else {
      match WithOperation(ms[i], ops[0])
      case Err(e) =>
      case Ok(m) =>
        UpdateValid(ms, i, m);
        FillValid(ms[i := m], i, end, ops[1..], canAdd);
    }
  }

  /** One step of the scan: a moment that does not accept the next operation is passed over; one
    * that does receives it, and the scan goes on from the same moment with the rest. */
  lemma FillStep(ms: seq<Moment>, i: nat, end: nat, ops: seq<Operation>, canAdd: Device)
    requires i < end <= |ms| && ops != []
    ensures !canAdd(ops[0], ms[i]) ==> Fill(ms, i, end, ops, canAdd) == Fill(ms, i + 1, end, ops, canAdd)
    ensures canAdd(ops[0], ms[i]) && WithOperation(ms[i], ops[0]).Ok? ==>
      var r := Fill(ms[i := WithOperation(ms[i], ops[0]).value], i, end, ops[1..], canAdd);
      Fill(ms, i, end, ops, canAdd) == Filled(r.error, r.moments, [i] + r.positions)
    ensures canAdd(ops[0], ms[i]) && WithOperation(ms[i], ops[0]).Err? ==>
      Fill(ms, i, end, ops, canAdd).error.Some?
  {
  }

  /** Without an exception the circuit gains exactly the operations the scan placed. */
  lemma {:induction false} FillOps(ms: seq<Moment>, i: nat, end: nat, ops: seq<Operation>, canAdd: Device)
    requires i <= end <= |ms|
    ensures var r := Fill(ms, i, end, ops, canAdd);
      r.error.None? ==> multiset(AllOps(r.moments)) == multiset(AllOps(ms)) + multiset(ops[..|r.positions|])
    decreases |ops|, end - i
  {
    var whole := Fill(ms, i, end, ops, canAdd);
    if ops == [] || i >= end {
      assert whole.moments == ms && ops[..|whole.positions|] == [];
    } else {
      FillStep(ms, i, end, ops, canAdd);
      var w := WithOperation(ms[i], ops[0]);
      if !canAdd(ops[0], ms[i]) {
        FillOps(ms, i + 1, end, ops, canAdd);
      } else if w.Ok? {
        var m := w.value;
        var next := ms[i := m];
        FillOps(next, i, end, ops[1..], canAdd);
        var r := Fill(next, i, end, ops[1..], canAdd);
        assert whole == Filled(r.error, r.moments, [i] + r.positions);
        if r.error.None? {
          AddToMoment(ms, i, ops[0], m);
          var n := |r.positions| + 1;
          assert |whole.positions| == n;
          assert multiset([ops[0]]) == multiset{ops[0]};
          MultisetPrefixCons(ops, n);
          AddInTwoSteps(multiset(AllOps(ms)), multiset(AllOps(next)), multiset(AllOps(r.moments)),
            multiset{ops[0]}, multiset(ops[1..][..n - 1]), multiset(ops[..n]));
        }
      }
    }
  }

  /** When the scan stops short without an exception, the next operation fits in no moment from
    * the last position used (or the start) to the end of the range. */
  lemma {:induction false} FillStops(ms: seq<Moment>, i: nat, end: nat, ops: seq<Operation>, canAdd: Device)
    requires i <= end <= |ms|
    ensures var r := Fill(ms, i, end, ops, canAdd);
      var n := |r.positions|;
      r.error.None? && n < |ops| ==>
        forall j :: (if n == 0 then i else r.positions[n - 1]) <= j < end ==>
          !canAdd(ops[n], r.moments[j])
    decreases |ops|, end - i
  {
    if ops == [] || i >= end {
    } else if !canAdd(ops[0], ms[i]) {
      FillStops(ms, i + 1, end, ops, canAdd);
      FillPlaces(ms, i + 1, end, ops, canAdd);
    } else {
      match WithOperation(ms[i], ops[0])
      case Err(e) =>
      case Ok(m) =>
        var next := ms[i := m];
        FillStops(next, i, end, ops[1..], canAdd);
        var r := Fill(next, i, end, ops[1..], canAdd);
        var n := |r.positions| + 1;
        if r.error.None? && n < |ops| {
          assert ops[n] == ops[1..][n - 1];
        }
    }
  }

  /** insert_into_range(operations, start, end). */
  function InsertIntoRange(ms: seq<Moment>, ops: seq<Operation>, start: int, end: int, canAdd: Device)
    : (r: Inserted)
    ensures r.error == Some(IndexError) <==> !(0 <= start <= end <= |ms|)
  {
    if !(0 <= start <= end <= |ms|) then Inserted(Some(IndexError), ms, 0)
    else
      var f := Fill(ms, start, end, ops, canAdd);
      if f.error.Some? then
        Inserted(f.error, f.moments, 0)
      else if |f.positions| >= |ops| then
        Inserted(None, f.moments, end)
      else
        Insert(f.moments, end, ops[|f.positions|..], NewThenInline, canAdd)
  }

  /** When every operation fits inside the range, end is returned and the moment list is the scan's,
    * of the same length. */
  lemma InsertIntoRangeFits(ms: seq<Moment>, ops: seq<Operation>, start: nat, end: nat, canAdd: Device)
    requires start <= end <= |ms|
    ensures var f := Fill(ms, start, end, ops, canAdd);
      var r := InsertIntoRange(ms, ops, start, end, canAdd);
      f.error.None? && |f.positions| == |ops| ==>
        r.error.None? && r.next == end && r.moments == f.moments && |r.moments| == |ms|
  {
  }

  /** The scan leaves the moments from the end of the range on as they were. */
  lemma FillTail(ms: seq<Moment>, ops: seq<Operation>, start: nat, end: nat, canAdd: Device)
    requires start <= end <= |ms|
    ensures TailKept(ms, Fill(ms, start, end, ops, canAdd).moments, end)
  {
    FillPlaces(ms, start, end, ops, canAdd);
    var f := Fill(ms, start, end, ops, canAdd);
    assert f.moments[end..] == ms[end..];
  }

  /** On success, every moment from the returned index on is an old moment moved up by the
    * moments insert added past the range, and the returned index is at least end plus that. */
  lemma InsertIntoRangeFrame(ms: seq<Moment>, ops: seq<Operation>, start: nat, end: nat, canAdd: Device)
    requires start <= end <= |ms|
    ensures var r := InsertIntoRange(ms, ops, start, end, canAdd);
      r.error.None? ==> end + (|r.moments| - |ms|) <= r.next && TailKept(ms, r.moments, r.next)
  {
    FillTail(ms, ops, start, end, canAdd);
    var f := Fill(ms, start, end, ops, canAdd);
    var n := |f.positions|;
    if f.error.None? && n < |ops| {
      InsertLoopFrame(f.moments, end, ops[n..], NewThenInline, canAdd);
      var r := InsertLoop(f.moments, end, ops[n..], NewThenInline, canAdd);
      if r.error.None? {
        TailShift(ms, f.moments, r.moments, end, r.next);
      }
    }
  }

  /** On success the circuit holds its old operations and all the inserted ones. */
  lemma InsertIntoRangeContents(ms: seq<Moment>, ops: seq<Operation>, start: nat, end: nat, canAdd: Device)
    requires start <= end <= |ms|
    ensures var r := InsertIntoRange(ms, ops, start, end, canAdd);
      r.error.None? ==> multiset(AllOps(r.moments)) == multiset(AllOps(ms)) + multiset(ops)
  {
    FillOps(ms, start, end, ops, canAdd);
    var f := Fill(ms, start, end, ops, canAdd);
    var n := |f.positions|;
    if f.error.None? && n < |ops| {
      InsertLoopOps(f.moments, end, ops[n..], NewThenInline, canAdd);
      var r := InsertLoop(f.moments, end, ops[n..], NewThenInline, canAdd);
      if r.error.None? {
        MultisetSplit(ops, n);
        AddInTwoSteps(multiset(AllOps(ms)), multiset(AllOps(f.moments)), multiset(AllOps(r.moments)),
          multiset(ops[..n]), multiset(ops[n..]), multiset(ops));
      }
    } else if f.error.None? {
      assert ops[..n] == ops;
    }
  }

  /** insert_into_range keeps the moments valid, whether or not it raises. */
  lemma InsertIntoRangeValid(ms: seq<Moment>, ops: seq<Operation>, start: nat, end: nat, canAdd: Device)
    requires start <= end <= |ms| && ValidMoments(ms)
    ensures ValidMoments(InsertIntoRange(ms, ops, start, end, canAdd).moments)
  {
    FillValid(ms, start, end, ops, canAdd);
    var f := Fill(ms, start, end, ops, canAdd);
    var n := |f.positions|;
    if f.error.None? && n < |ops| {
      InsertLoopContents(f.moments, end, ops[n..], NewThenInline, canAdd);
    }
  }

  // ---------------------------------------------------------------------------------------------
  // clear_operations_touching

  /** clear_operations_touching(qubits, moment_indices): indices outside the circuit are ignored. */
  function Cleared(ms: seq<Moment>, qubits: set<Qubit>, indices: seq<int>): seq<Moment>
    decreases |indices|
  {
    if indices == [] then ms
    else
      var k := indices[0];
      var ms' := if 0 <= k < |ms| then ms[k := WithoutOperationsTouching(ms[k], qubits)] else ms;
      Cleared(ms', qubits, indices[1..])
  }

  lemma {:induction false} UntouchedIdempotent(ops: seq<Operation>, qubits: set<Qubit>)
    ensures Untouched(Untouched(ops, qubits), qubits) == Untouched(ops, qubits)
    decreases |ops|
  {
    if ops != [] {
      var init := ops[..|ops| - 1];
      UntouchedIdempotent(init, qubits);
      var u := Untouched(init, qubits);
      if !Touches(ops[|ops| - 1], qubits) {
        assert (u + [ops[|ops| - 1]])[..|u|] == u;
      }
    }
  }

  /** Exactly the listed moments inside the circuit lose their operations touching the qubits;
    * every other moment is unchanged and no moment is added or removed. Clearing a moment twice
    * is clearing it once. */
  lemma {:induction false} ClearedMeaning(ms: seq<Moment>, qubits: set<Qubit>, indices: seq<int>)
    ensures var r := Cleared(ms, qubits, indices);
      |r| == |ms| &&
      forall j :: 0 <= j < |ms| ==>
        r[j] == (if j in indices then WithoutOperationsTouching(ms[j], qubits) else ms[j])
    decreases |indices|
  {
    if indices != [] {
      var k := indices[0];
      var ms' := if 0 <= k < |ms| then ms[k := WithoutOperationsTouching(ms[k], qubits)] else ms;
      ClearedMeaning(ms', qubits, indices[1..]);
      if 0 <= k < |ms| {
        UntouchedIdempotent(ms[k].operations, qubits);
      }
      forall j | 0 <= j < |ms|
        ensures Cleared(ms, qubits, indices)[j] ==
          (if j in indices then WithoutOperationsTouching(ms[j], qubits) else ms[j])
      {
        assert j in indices <==> j == k || j in indices[1..];
      }
    }
  }
}
