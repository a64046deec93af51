/** The batched edits of cirq's Circuit (batch_remove, batch_insert_into, batch_insert) as
  * functions of the moment list. Each works on a copy, so an exception leaves the circuit as it
  * was; the class in circuit.dfy commits a result only when it is Ok. */
module Batches {
  import opened Wrappers
  import opened Moments
  import opened Scheduling
  import opened SeqFacts

  /** Python's list indexing: an index in -n..-1 counts from the end, and one outside -n..n-1
    * raises IndexError. */
  function PyIndex(n: nat, i: int): (r: Option<nat>)
    ensures r.Some? <==> -(n as int) <= i < n
    ensures r.Some? ==> r.value < n && (if i < 0 then r.value == i + n else r.value == i)
  {
    if 0 <= i < n then Some(i) else if -(n as int) <= i < 0 then Some((i + n) as nat) else None
  }

  // ---------------------------------------------------------------------------------------------
  // batch_remove

  /** The operations of ops not in gone, in their order. */
  function Remove(ops: seq<Operation>, gone: set<Operation>): (r: seq<Operation>)
    ensures forall x :: x in r <==> x in ops && x !in gone
  {
    if ops == [] then []
    else if ops[|ops| - 1] in gone then Remove(ops[..|ops| - 1], gone)
    else Remove(ops[..|ops| - 1], gone) + [ops[|ops| - 1]]
  }

  /** Removing one set and then another removes their union. */
  lemma {:induction false} RemoveTwice(ops: seq<Operation>, a: set<Operation>, b: set<Operation>)
    ensures Remove(Remove(ops, a), b) == Remove(ops, a + b)
    decreases |ops|
  {
    if ops != [] {
      var init, last := ops[..|ops| - 1], ops[|ops| - 1];
      RemoveTwice(init, a, b);
      var u := Remove(init, a);
      if last !in a {
        assert (u + [last])[..|u|] == u;
      }
    }
  }

  /** Dropping operations keeps a moment's operations on pairwise disjoint, distinct qubits. */
  lemma {:induction false} RemoveWellFormed(ops: seq<Operation>, gone: set<Operation>)
    requires WellFormed(ops)
    ensures WellFormed(Remove(ops, gone))
    decreases |ops|
  {
    if ops != [] {
      var init, last := ops[..|ops| - 1], ops[|ops| - 1];
      assert WellFormed(init) by {
        forall i, j | 0 <= i < j < |init| ensures !Overlap(init[i], init[j]) {
          assert init[i] == ops[i] && init[j] == ops[j];
        }
      }
      RemoveWellFormed(init, gone);
      var u := Remove(init, gone);
      if last !in gone {
        var r := u + [last];
        forall i, j | 0 <= i < j < |r| ensures !Overlap(r[i], r[j]) {
          if j == |u| {
            assert r[i] in init;
            var k :| 0 <= k < |init| && init[k] == r[i];
            assert ops[k] == r[i] && ops[|ops| - 1] == r[j];
          } else {
            assert r[i] == u[i] && r[j] == u[j];
          }
        }
        forall i | 0 <= i < |r| ensures DistinctQubits(r[i]) {
          if i < |u| {
            assert r[i] == u[i] && u[i] in u;
            var k :| 0 <= k < |init| && init[k] == r[i];
            assert ops[k] == r[i];
          } else {
            assert r[i] == ops[|ops| - 1];
          }
        }
      }
    }
  }

  /** batch_remove's loop over (moment_index, operation) pairs: IndexError for an index outside
    * the circuit, ValueError for an operation that is not (or no longer) in its moment;
    * otherwise every equal copy of the operation leaves the moment. */
  function RemoveLoop(ms: seq<Moment>, removals: seq<(int, Operation)>): (r: Result<seq<Moment>>)
    ensures r.Ok? ==> |r.value| == |ms|
    ensures r.Err? ==> r.error == IndexError || r.error == ValueError
    decreases |removals|
  {
    if removals == [] then Ok(ms)
    else
      var (i, op) := removals[0];
      match PyIndex(|ms|, i)
      case None => Err(IndexError)
      case Some(k) =>
        if op !in ms[k].operations then Err(ValueError)
        else RemoveLoop(ms[k := Moment(Remove(ms[k].operations, {op}))], removals[1..])
  }

  /** The operations the removals name for moment j. */
  function RemovedAt(n: nat, removals: seq<(int, Operation)>, j: nat): set<Operation>
  {
    set t | 0 <= t < |removals| && PyIndex(n, removals[t].0) == Some(j) :: removals[t].1
  }

  /** When batch_remove succeeds: every index lies inside the circuit, every named operation is
    * in the moment it names, and no pair is named twice (the second would find it gone). */
  predicate Removable(ms: seq<Moment>, removals: seq<(int, Operation)>)
  {
    (forall t :: 0 <= t < |removals| ==>
      PyIndex(|ms|, removals[t].0).Some? &&
      removals[t].1 in ms[PyIndex(|ms|, removals[t].0).value].operations) &&
    (forall s, t :: 0 <= s < t < |removals| && PyIndex(|ms|, removals[s].0) == PyIndex(|ms|, removals[t].0) ==>
      removals[s].1 != removals[t].1)
  }

  /** The removals after the first, seen from the moments the first one leaves. */
  lemma RemovableStep(ms: seq<Moment>, removals: seq<(int, Operation)>, k: nat)
    requires removals != [] && PyIndex(|ms|, removals[0].0) == Some(k)
    requires removals[0].1 in ms[k].operations
    ensures var op := removals[0].1;
      Removable(ms, removals) <==>
      Removable(ms[k := Moment(Remove(ms[k].operations, {op}))], removals[1..])
  {
    var op, rest := removals[0].1, removals[1..];
    var ms' := ms[k := Moment(Remove(ms[k].operations, {op}))];
    if Removable(ms, removals) {
      forall t | 0 <= t < |rest|
        ensures PyIndex(|ms'|, rest[t].0).Some? && rest[t].1 in ms'[PyIndex(|ms'|, rest[t].0).value].operations
      {
        assert rest[t] == removals[t + 1];
      }
      forall s, t | 0 <= s < t < |rest| && PyIndex(|ms'|, rest[s].0) == PyIndex(|ms'|, rest[t].0)
        ensures rest[s].1 != rest[t].1
      {
        assert rest[s] == removals[s + 1] && rest[t] == removals[t + 1];
      }
    }
    if Removable(ms', rest) {
      forall t | 0 <= t < |removals|
        ensures PyIndex(|ms|, removals[t].0).Some? && removals[t].1 in ms[PyIndex(|ms|, removals[t].0).value].operations
      {
        if t > 0 {
          assert removals[t] == rest[t - 1];
        }
      }
      forall s, t | 0 <= s < t < |removals| && PyIndex(|ms|, removals[s].0) == PyIndex(|ms|, removals[t].0)
        ensures removals[s].1 != removals[t].1
      {
        assert removals[t] == rest[t - 1];
        if s > 0 {
          assert removals[s] == rest[s - 1];
        }
      }
    }
  }

  /** The names for each moment grow by the first removal's operation at its own moment. */
  lemma RemovedAtStep(n: nat, removals: seq<(int, Operation)>, k: nat, j: nat)
    requires removals != [] && PyIndex(n, removals[0].0) == Some(k)
    ensures RemovedAt(n, removals, j) ==
      (if j == k then {removals[0].1} + RemovedAt(n, removals[1..], j) else RemovedAt(n, removals[1..], j))
  {
    var rest := removals[1..];
    forall x | x in RemovedAt(n, removals, j)
      ensures x in (if j == k then {removals[0].1} + RemovedAt(n, rest, j) else RemovedAt(n, rest, j))
    {
      var t :| 0 <= t < |removals| && PyIndex(n, removals[t].0) == Some(j) && removals[t].1 == x;
      if t > 0 {
        assert removals[t] == rest[t - 1];
      }
    }
    forall x | x in RemovedAt(n, rest, j) ensures x in RemovedAt(n, removals, j) {
      var t :| 0 <= t < |rest| && PyIndex(n, rest[t].0) == Some(j) && rest[t].1 == x;
      assert rest[t] == removals[t + 1];
    }
  }

  /** batch_remove succeeds exactly when the removals are removable, and then each moment keeps,
    * in order, its operations that no removal names for it. */
  lemma {:induction false} RemoveLoopMeaning(ms: seq<Moment>, removals: seq<(int, Operation)>)
    ensures RemoveLoop(ms, removals).Ok? <==> Removable(ms, removals)
    ensures RemoveLoop(ms, removals).Ok? ==>
      forall j :: 0 <= j < |ms| ==>
        RemoveLoop(ms, removals).value[j] == Moment(Remove(ms[j].operations, RemovedAt(|ms|, removals, j)))
    decreases |removals|
  {
    if removals == [] {
      forall j | 0 <= j < |ms| ensures Remove(ms[j].operations, RemovedAt(|ms|, removals, j)) == ms[j].operations {
        assert RemovedAt(|ms|, removals, j) == {};
        RemoveNone(ms[j].operations);
      }
    } else {
      var (i, op) := removals[0];
      match PyIndex(|ms|, i)
      case None =>
      case Some(k) =>
        if op in ms[k].operations {
          var ms' := ms[k := Moment(Remove(ms[k].operations, {op}))];
          var rest := removals[1..];
          RemovableStep(ms, removals, k);
          RemoveLoopMeaning(ms', rest);
          if RemoveLoop(ms', rest).Ok? {
            var r := RemoveLoop(ms', rest).value;
            forall j | 0 <= j < |ms|
              ensures r[j] == Moment(Remove(ms[j].operations, RemovedAt(|ms|, removals, j)))
            {
              RemovedAtStep(|ms|, removals, k, j);
              if j == k {
                RemoveTwice(ms[k].operations, {op}, RemovedAt(|ms|, rest, j));
              }
            }
          }
        }
    }
  }

  lemma {:induction false} RemoveNone(ops: seq<Operation>)
    ensures Remove(ops, {}) == ops
    decreases |ops|
  {
    if ops != [] {
      RemoveNone(ops[..|ops| - 1]);
    }
  }

  /** batch_remove keeps the moments valid: the Moment constructor it calls on the remaining
    * operations never raises. */
  lemma RemoveLoopValid(ms: seq<Moment>, removals: seq<(int, Operation)>)
    requires ValidMoments(ms)
    ensures RemoveLoop(ms, removals).Ok? ==> ValidMoments(RemoveLoop(ms, removals).value)
  {
    RemoveLoopMeaning(ms, removals);
    if RemoveLoop(ms, removals).Ok? {
      forall j | 0 <= j < |ms| ensures ValidMoment(RemoveLoop(ms, removals).value[j]) {
        RemoveWellFormed(ms[j].operations, RemovedAt(|ms|, removals, j));
      }
    }
  }

  // ---------------------------------------------------------------------------------------------
  // batch_insert_into

  /** batch_insert_into's loop over (moment_index, operation) pairs: IndexError for an index
    * outside the circuit, with_operation's ValueError for a collision. */
  function InsertIntoLoop(ms: seq<Moment>, insertIntos: seq<(int, Operation)>): (r: Result<seq<Moment>>)
    ensures r.Ok? ==> |r.value| == |ms|
    ensures r.Err? ==> r.error == IndexError || r.error == ValueError
    decreases |insertIntos|
  {
    if insertIntos == [] then Ok(ms)
    else
      var (i, op) := insertIntos[0];
      match PyIndex(|ms|, i)
      case None => Err(IndexError)
      case Some(k) =>
        match WithOperation(ms[k], op)
        case Err(e) => Err(e)
        case Ok(m) => InsertIntoLoop(ms[k := m], insertIntos[1..])
  }

  /** The operations the pairs send to moment j, in their order. */
  function SentTo(n: nat, insertIntos: seq<(int, Operation)>, j: nat): (r: seq<Operation>)
    ensures forall op :: op in r ==> exists t :: 0 <= t < |insertIntos| && insertIntos[t].1 == op
    decreases |insertIntos|
  {
    if insertIntos == [] then []
    else
      var rest := SentTo(n, insertIntos[1..], j);
      assert forall t :: 0 <= t < |insertIntos[1..]| ==> insertIntos[1..][t] == insertIntos[t + 1];
      if PyIndex(n, insertIntos[0].0) == Some(j) then [insertIntos[0].1] + rest else rest
  }

  /** The operations of all the pairs, in their order. */
  function SentOps(insertIntos: seq<(int, Operation)>): (r: seq<Operation>)
    ensures |r| == |insertIntos| && forall t :: 0 <= t < |r| ==> r[t] == insertIntos[t].1
  {
    if insertIntos == [] then [] else [insertIntos[0].1] + SentOps(insertIntos[1..])
  }

  lemma WellFormedPrefix(a: seq<Operation>, b: seq<Operation>)
    requires WellFormed(a + b)
    ensures WellFormed(a)
  {
    forall i, j | 0 <= i < j < |a| ensures !Overlap(a[i], a[j]) {
      assert (a + b)[i] == a[i] && (a + b)[j] == a[j];
    }
    forall i | 0 <= i < |a| ensures DistinctQubits(a[i]) {
      assert (a + b)[i] == a[i];
    }
  }

  /** batch_insert_into into valid moments succeeds exactly when every index lies inside the
    * circuit and every moment's operations together with those sent to it act on pairwise
    * disjoint, distinct qubits; then each moment holds its old operations followed by those
    * sent to it, in order. */
  lemma {:induction false} InsertIntoMeaning(ms: seq<Moment>, insertIntos: seq<(int, Operation)>)
    requires ValidMoments(ms)
    ensures var r := InsertIntoLoop(ms, insertIntos);
      r.Ok? <==>
        (forall t :: 0 <= t < |insertIntos| ==> PyIndex(|ms|, insertIntos[t].0).Some?) &&
        forall j :: 0 <= j < |ms| ==> WellFormed(ms[j].operations + SentTo(|ms|, insertIntos, j))
    ensures var r := InsertIntoLoop(ms, insertIntos);
      r.Ok? ==> forall j :: 0 <= j < |ms| ==> r.value[j].operations == ms[j].operations + SentTo(|ms|, insertIntos, j)
    decreases |insertIntos|
  {
    var n := |ms|;
    if insertIntos == [] {
      forall j | 0 <= j < n ensures ms[j].operations + SentTo(n, insertIntos, j) == ms[j].operations {
      }
    } else {
      var (i, op) := insertIntos[0];
      var rest := insertIntos[1..];
      assert forall t :: 0 <= t < |rest| ==> rest[t] == insertIntos[t + 1];
      match PyIndex(n, i)
      case None =>
      case Some(k) =>
        var base := ms[k].operations;
        assert SentTo(n, insertIntos, k) == [op] + SentTo(n, rest, k);
        assert base + SentTo(n, insertIntos, k) == base + [op] + SentTo(n, rest, k);
        match WithOperation(ms[k], op)
        case Err(e) =>
          if WellFormed(base + SentTo(n, insertIntos, k)) {
            WellFormedPrefix(base + [op], SentTo(n, rest, k));
          }
        case Ok(m) =>
          var ms' := ms[k := m];
          UpdateValid(ms, k, m);
          InsertIntoMeaning(ms', rest);
          forall j | 0 <= j < n
            ensures ms'[j].operations + SentTo(n, rest, j) == ms[j].operations + SentTo(n, insertIntos, j)
          {
            if j != k {
              assert SentTo(n, insertIntos, j) == SentTo(n, rest, j);
            }
          }
    }
  }

  /** batch_insert_into adds exactly the sent operations to the circuit. */
  lemma {:induction false} InsertIntoOps(ms: seq<Moment>, insertIntos: seq<(int, Operation)>)
    ensures var r := InsertIntoLoop(ms, insertIntos);
      r.Ok? ==> multiset(AllOps(r.value)) == multiset(AllOps(ms)) + multiset(SentOps(insertIntos))
    decreases |insertIntos|
  {
    if insertIntos != [] {
      var (i, op) := insertIntos[0];
      var rest := insertIntos[1..];
      match PyIndex(|ms|, i)
      case None =>
      case Some(k) =>
        match WithOperation(ms[k], op)
        case Err(e) =>
        case Ok(m) =>
          AddToMoment(ms, k, op, m);
          InsertIntoOps(ms[k := m], rest);
          assert SentOps(insertIntos) == [op] + SentOps(rest);
    }
  }

  // ---------------------------------------------------------------------------------------------
  // batch_insert

  /** sorted(insertions, key=lambda e: e[0]): Python's stable sort by index, here as insertion
    * sort. */
  function SortByIndex<T>(s: seq<(int, T)>): (r: seq<(int, T)>)
    ensures |r| == |s|
    decreases |s|
  {
    if s == [] then [] else InsertByIndex(s[0], SortByIndex(s[1..]))
  }

  /** x placed before the first element whose index is at least its own. */
  function InsertByIndex<T>(x: (int, T), s: seq<(int, T)>): (r: seq<(int, T)>)
    ensures |r| == |s| + 1
    decreases |s|
  {
    if s == [] || x.0 <= s[0].0 then [x] + s else [s[0]] + InsertByIndex(x, s[1..])
  }

  predicate SortedByIndex<T>(s: seq<(int, T)>)
  {
    forall a, b :: 0 <= a < b < |s| ==> s[a].0 <= s[b].0
  }

  /** The elements of s with index k, in their order. */
  function WithIndex<T>(s: seq<(int, T)>, k: int): seq<(int, T)>
    decreases |s|
  {
    if s == [] then [] else (if s[0].0 == k then [s[0]] else []) + WithIndex(s[1..], k)
  }

  /** Every element of s has index at least lo. */
  predicate AtLeast<T>(s: seq<(int, T)>, lo: int)
  {
    forall a :: 0 <= a < |s| ==> lo <= s[a].0
  }

  lemma {:induction false} InsertByIndexAtLeast<T>(x: (int, T), s: seq<(int, T)>, lo: int)
    requires AtLeast(s, lo) && lo <= x.0
    ensures AtLeast(InsertByIndex(x, s), lo)
    decreases |s|
  {
    if !(s == [] || x.0 <= s[0].0) {
      var t := s[1..];
      assert AtLeast(t, lo) by {
        forall a | 0 <= a < |t| ensures lo <= t[a].0 {
          assert t[a] == s[a + 1];
        }
      }
      InsertByIndexAtLeast(x, t, lo);
      var r := InsertByIndex(x, s);
      forall a | 0 <= a < |r| ensures lo <= r[a].0 {
        if a > 0 {
          assert r[a] == InsertByIndex(x, t)[a - 1];
        }
      }
    }
  }

  /** A head no larger than any index of a sorted tail makes a sorted sequence. */
  lemma ConsSorted<T>(h: (int, T), u: seq<(int, T)>)
    requires SortedByIndex(u) && AtLeast(u, h.0)
    ensures SortedByIndex([h] + u)
  {
    var r := [h] + u;
    forall a, b | 0 <= a < b < |r| ensures r[a].0 <= r[b].0 {
      assert r[b] == u[b - 1];
      if a > 0 {
        assert r[a] == u[a - 1];
      }
    }
  }

  /** The tail of a sorted sequence is sorted and bounded below by its head. */
  lemma SortedTail<T>(s: seq<(int, T)>)
    requires SortedByIndex(s) && s != []
    ensures SortedByIndex(s[1..]) && AtLeast(s[1..], s[0].0)
  {
    var t := s[1..];
    forall a, b | 0 <= a < b < |t| ensures t[a].0 <= t[b].0 {
      assert t[a] == s[a + 1] && t[b] == s[b + 1];
    }
    forall a | 0 <= a < |t| ensures s[0].0 <= t[a].0 {
      assert t[a] == s[a + 1];
    }
  }

  lemma {:induction false} InsertByIndexSorted<T>(x: (int, T), s: seq<(int, T)>)
    requires SortedByIndex(s)
    ensures SortedByIndex(InsertByIndex(x, s))
    decreases |s|
  {
    if s == [] || x.0 <= s[0].0 {
      if s != [] {
        SortedTail(s);
        assert AtLeast(s, x.0) by {
          forall a | 0 <= a < |s| ensures x.0 <= s[a].0 {
            if a > 0 {
              assert s[a] == s[1..][a - 1];
            }
          }
        }
      }
      ConsSorted(x, s);
    } else {
      var t := s[1..];
      SortedTail(s);
      InsertByIndexSorted(x, t);
      InsertByIndexAtLeast(x, t, s[0].0);
      ConsSorted(s[0], InsertByIndex(x, t));
    }
  }

  lemma {:induction false} InsertByIndexElements<T>(x: (int, T), s: seq<(int, T)>)
    ensures multiset(InsertByIndex(x, s)) == multiset(s) + multiset{x}
    decreases |s|
  {
    if !(s == [] || x.0 <= s[0].0) {
      InsertByIndexElements(x, s[1..]);
      assert s == [s[0]] + s[1..];
    }
  }

  lemma {:induction false} InsertByIndexStable<T>(x: (int, T), s: seq<(int, T)>, k: int)
    ensures WithIndex(InsertByIndex(x, s), k) == (if x.0 == k then [x] else []) + WithIndex(s, k)
    decreases |s|
  {
    var mine: seq<(int, T)> := if x.0 == k then [x] else [];
    if s == [] || x.0 <= s[0].0 {
      assert ([x] + s)[1..] == s;
    } else {
      var t := s[1..];
      var first: seq<(int, T)> := if s[0].0 == k then [s[0]] else [];
      var r := InsertByIndex(x, t);
      InsertByIndexStable(x, t, k);
      assert ([s[0]] + r)[1..] == r;
      assert WithIndex(InsertByIndex(x, s), k) == first + (mine + WithIndex(t, k));
      assert WithIndex(s, k) == first + WithIndex(t, k);
      assert first == [] || mine == [];
    }
  }

  /** The sort orders by index and keeps every element. */
  lemma {:induction false} SortByIndexSorted<T>(s: seq<(int, T)>)
    ensures SortedByIndex(SortByIndex(s)) && multiset(SortByIndex(s)) == multiset(s)
    decreases |s|
  {
    if s != [] {
      SortByIndexSorted(s[1..]);
      InsertByIndexSorted(s[0], SortByIndex(s[1..]));
      InsertByIndexElements(s[0], SortByIndex(s[1..]));
      assert s == [s[0]] + s[1..];
    }
  }

  /** The sort keeps the order of the elements sharing an index. */
  lemma {:induction false} SortByIndexStable<T>(s: seq<(int, T)>, k: int)
    ensures WithIndex(SortByIndex(s), k) == WithIndex(s, k)
    decreases |s|
  {
    if s != [] {
      SortByIndexStable(s[1..], k);
      InsertByIndexStable(s[0], SortByIndex(s[1..]), k);
    }
  }

  /** How the loop advances shift after each single-operation insert. As written it adds one
    * whenever the returned index exceeds the group's unshifted index; the docstring's intent is
    * to count the moments the insert created. */
  datatype ShiftRule = AsWritten | CountNewMoments

  function NextShift(rule: ShiftRule, shift: int, i: int, before: seq<Moment>, after: Inserted): int
  {
    match rule
    case AsWritten => if after.next > i then shift + 1 else shift
    case CountNewMoments => shift + (|after.moments| - |before|)
  }

  /** The inner loop: each operation of one group inserted with EARLIEST at i + shift. */
  function InsertGroup(ms: seq<Moment>, i: int, shift: int, ops: seq<Operation>, rule: ShiftRule, canAdd: Device)
    : (r: Result<(seq<Moment>, int)>)
    decreases |ops|
  {
    if ops == [] then Ok((ms, shift))
    else
      var ins := Insert(ms, i + shift, [ops[0]], Earliest, canAdd);
      if ins.error.Some? then Err(ins.error.value)
      else InsertGroup(ins.moments, i, NextShift(rule, shift, i, ms, ins), ops[1..], rule, canAdd)
  }

  /** The outer loop over the sorted (index, operations) groups. */
  function InsertGroups(ms: seq<Moment>, groups: seq<(int, seq<Operation>)>, shift: int, rule: ShiftRule, canAdd: Device)
    : (r: Result<seq<Moment>>)
    decreases |groups|
  {
    if groups == [] then Ok(ms)
    else
      match InsertGroup(ms, groups[0].0, shift, groups[0].1, rule, canAdd)
      case Err(e) => Err(e)
      case Ok(p) => InsertGroups(p.0, groups[1..], p.1, rule, canAdd)
  }

  /** batch_insert(insertions) as written. */
  function BatchInsertAsWritten(ms: seq<Moment>, insertions: seq<(int, seq<Operation>)>, canAdd: Device)
    : (r: Result<seq<Moment>>)
  {
    InsertGroups(ms, SortByIndex(insertions), 0, AsWritten, canAdd)
  }

  /** batch_insert(insertions) with shift counting the moments created, as its docstring says. */
  function BatchInsert(ms: seq<Moment>, insertions: seq<(int, seq<Operation>)>, canAdd: Device)
    : (r: Result<seq<Moment>>)
  {
    InsertGroups(ms, SortByIndex(insertions), 0, CountNewMoments, canAdd)
  }

  /** All the operations of the groups, group by group. */
  function GroupOps(groups: seq<(int, seq<Operation>)>): seq<Operation>
  {
    if groups == [] then [] else groups[0].1 + GroupOps(groups[1..])
  }

  predicate DistinctEach(ops: seq<Operation>)
  {
    forall t :: 0 <= t < |ops| ==> DistinctQubits(ops[t])
  }

  /** With shift counting new moments, every insertion index of a group whose index lies inside
    * the original circuit stays inside the current one, so insert never raises IndexError; with
    * a sound device it raises nothing, and the operations all arrive. */
  lemma {:induction false} InsertGroupSucceeds(ms: seq<Moment>, n0: nat, i: int, shift: int, ops: seq<Operation>, canAdd: Device)
    requires ValidMoments(ms) && Sound(canAdd) && DistinctEach(ops)
    requires 0 <= i <= n0 && 0 <= shift && |ms| == n0 + shift
    ensures var r := InsertGroup(ms, i, shift, ops, CountNewMoments, canAdd);
      r.Ok? && ValidMoments(r.value.0) && 0 <= r.value.1 && |r.value.0| == n0 + r.value.1 &&
      multiset(AllOps(r.value.0)) == multiset(AllOps(ms)) + multiset(ops)
    decreases |ops|
  {
    if ops != [] {
      var k := i + shift;
      var op := ops[0];
      InsertOne(ms, k, op, canAdd);
      var ins := Insert(ms, k, [op], Earliest, canAdd);
      var shift' := NextShift(CountNewMoments, shift, i, ms, ins);
      var rest := ops[1..];
      assert DistinctEach(rest) by {
        forall t | 0 <= t < |rest| ensures DistinctQubits(rest[t]) { assert rest[t] == ops[t + 1]; }
      }
      InsertGroupSucceeds(ins.moments, n0, i, shift', rest, canAdd);
      var r := InsertGroup(ins.moments, i, shift', rest, CountNewMoments, canAdd);
      assert InsertGroup(ms, i, shift, ops, CountNewMoments, canAdd) == r;
      MultisetCons(ops);
      AddInTwoSteps(multiset(AllOps(ms)), multiset(AllOps(ins.moments)), multiset(AllOps(r.value.0)),
        multiset{op}, multiset(rest), multiset(ops));
    }
  }

  /** One insert of a single operation with EARLIEST succeeds, keeps the moments valid, adds the
    * operation and removes no moment. */
  lemma InsertOne(ms: seq<Moment>, k: int, op: Operation, canAdd: Device)
    requires ValidMoments(ms) && Sound(canAdd) && DistinctQubits(op) && 0 <= k <= |ms|
    ensures var ins := Insert(ms, k, [op], Earliest, canAdd);
      ins.error.None? && ValidMoments(ins.moments) && |ms| <= |ins.moments| &&
      multiset(AllOps(ins.moments)) == multiset(AllOps(ms)) + multiset{op}
  {
    InsertLoopSucceeds(ms, k, [op], Earliest, canAdd);
    InsertLoopContents(ms, k, [op], Earliest, canAdd);
    InsertLoopFrame(ms, k, [op], Earliest, canAdd);
    assert Insert(ms, k, [op], Earliest, canAdd) == InsertLoop(ms, k, [op], Earliest, canAdd);
    assert multiset([op]) == multiset{op};
  }

  lemma {:induction false} InsertGroupsSucceed(ms: seq<Moment>, n0: nat, groups: seq<(int, seq<Operation>)>, shift: int, canAdd: Device)
    requires ValidMoments(ms) && Sound(canAdd)
    requires forall t :: 0 <= t < |groups| ==> 0 <= groups[t].0 <= n0 && DistinctEach(groups[t].1)
    requires 0 <= shift && |ms| == n0 + shift
    ensures var r := InsertGroups(ms, groups, shift, CountNewMoments, canAdd);
      r.Ok? && ValidMoments(r.value) && multiset(AllOps(r.value)) == multiset(AllOps(ms)) + multiset(GroupOps(groups))
    decreases |groups|
  {
    if groups != [] {
      assert 0 <= groups[0].0 <= n0 && DistinctEach(groups[0].1);
      InsertGroupSucceeds(ms, n0, groups[0].0, shift, groups[0].1, canAdd);
      var p := InsertGroup(ms, groups[0].0, shift, groups[0].1, CountNewMoments, canAdd).value;
      var rest := groups[1..];
      assert forall t :: 0 <= t < |rest| ==> rest[t] == groups[t + 1];
      InsertGroupsSucceed(p.0, n0, rest, p.1, canAdd);
      assert multiset(GroupOps(groups)) == multiset(groups[0].1) + multiset(GroupOps(rest));
    }
  }

  lemma {:induction false} InsertByIndexOps(x: (int, seq<Operation>), s: seq<(int, seq<Operation>)>)
    ensures multiset(GroupOps(InsertByIndex(x, s))) == multiset(x.1) + multiset(GroupOps(s))
    decreases |s|
  {
    if s == [] || x.0 <= s[0].0 {
      assert ([x] + s)[1..] == s;
    } else {
      InsertByIndexOps(x, s[1..]);
      assert ([s[0]] + InsertByIndex(x, s[1..]))[1..] == InsertByIndex(x, s[1..]);
    }
  }

  /** Sorting the groups keeps their operations, as a multiset. */
  lemma {:induction false} SortByIndexOps(s: seq<(int, seq<Operation>)>)
    ensures multiset(GroupOps(SortByIndex(s))) == multiset(GroupOps(s))
    decreases |s|
  {
    if s != [] {
      SortByIndexOps(s[1..]);
      InsertByIndexOps(s[0], SortByIndex(s[1..]));
    }
  }

  /** batch_insert with shift counting new moments, given indices inside the circuit, a sound
    * device and operations each on distinct qubits: it raises nothing, keeps the moments valid
    * and adds exactly the given operations. */
  lemma BatchInsertSucceeds(ms: seq<Moment>, insertions: seq<(int, seq<Operation>)>, canAdd: Device)
    requires ValidMoments(ms) && Sound(canAdd)
    requires forall t :: 0 <= t < |insertions| ==> 0 <= insertions[t].0 <= |ms| && DistinctEach(insertions[t].1)
    ensures var r := BatchInsert(ms, insertions, canAdd);
      r.Ok? && ValidMoments(r.value) && multiset(AllOps(r.value)) == multiset(AllOps(ms)) + multiset(GroupOps(insertions))
  {
    var sorted := SortByIndex(insertions);
    SortByIndexSorted(insertions);
    forall t | 0 <= t < |sorted| ensures 0 <= sorted[t].0 <= |ms| && DistinctEach(sorted[t].1) {
      assert sorted[t] in multiset(insertions);
    }
    InsertGroupsSucceed(ms, |ms|, sorted, 0, canAdd);
    SortByIndexOps(insertions);
  }

  /** A: moment 0 of [X] acts on qubit 0, so EARLIEST falls back to a new moment at 0. */
  lemma OvershiftFirst(x: Operation, a: Operation)
    requires x == Operation(Opaque(0), [0]) && a == Operation(Opaque(1), [0])
    ensures Insert([Moment([x])], 0, [a], Earliest, Unconstrained()) ==
      Inserted(None, [Moment([a]), Moment([x])], 1)
  {
    var ms, canAdd := [Moment([x])], Unconstrained();
    assert Touches(ms[0].operations[0], QubitSet(a.qubits)) by {
      assert 0 in ms[0].operations[0].qubits && 0 in QubitSet(a.qubits);
    }
    assert !CanAddAt(ms, 0, a, canAdd);
    var spliced := [EmptyMoment, Moment([x])];
    assert Splice(ms, 0) == spliced;
    assert Pick(ms, 0, a, Earliest, canAdd) == (spliced, 0);
    assert Padded(ms, 0, a, Earliest, canAdd) == (spliced, 0);
    assert EmptyMoment.operations + [a] == [a];
    assert WellFormed([a]);
    assert WithOperation(EmptyMoment, a) == Ok(Moment([a]));
    var m1 := [Moment([a]), Moment([x])];
    assert Place(ms, 0, a, Earliest, canAdd) == Placed(None, m1, 0);
    assert [a][1..] == [];
    assert InsertLoop(m1, 1, [], Earliest, canAdd) == Inserted(None, m1, 1);
  }

  /** B: moment 1 of [A], [X] does not act on qubit 1, and B commutes back into moment 0. */
  lemma OvershiftSecond(x: Operation, a: Operation, b: Operation)
    requires x == Operation(Opaque(0), [0]) && a == Operation(Opaque(1), [0]) && b == Operation(Opaque(2), [1])
    ensures Insert([Moment([a]), Moment([x])], 1, [b], Earliest, Unconstrained()) ==
      Inserted(None, [Moment([a, b]), Moment([x])], 1)
  {
    var m1, canAdd := [Moment([a]), Moment([x])], Unconstrained();
    assert !OperatesOn(m1[1], QubitSet(b.qubits)) by {
      assert !Touches(m1[1].operations[0], QubitSet(b.qubits));
    }
    assert !OperatesOn(m1[0], QubitSet(b.qubits)) by {
      assert !Touches(m1[0].operations[0], QubitSet(b.qubits));
    }
    assert CanAddAt(m1, 1, b, canAdd) && CanAddAt(m1, 0, b, canAdd);
    assert PrevAvailable(m1, b, canAdd, 1, 1) == 0;
    assert Padded(m1, 1, b, Earliest, canAdd) == (m1, 0);
    WithOperationMeaning(m1[0], b);
    assert m1[0].operations + [b] == [a, b];
    assert WithOperation(m1[0], b) == Ok(Moment([a, b]));
    var m2 := [Moment([a, b]), Moment([x])];
    assert Place(m1, 1, b, Earliest, canAdd) == Placed(None, m2, 0);
    assert [b][1..] == [];
    assert InsertLoop(m2, 1, [], Earliest, canAdd) == Inserted(None, m2, 1);
  }

  /** As written, batch_insert counts a shift for an operation placed into an existing moment:
    * on one moment with X on qubit 0, inserting A on qubit 0 at 0, B on qubit 1 at 0 and C on
    * qubit 2 at 1 creates one moment but shifts twice, so C is inserted at 3 of 2 moments and
    * IndexError is raised, while counting new moments inserts all three. */
  lemma BatchInsertOvershifts()
    ensures var x, a, b, c := Operation(Opaque(0), [0]), Operation(Opaque(1), [0]),
                              Operation(Opaque(2), [1]), Operation(Opaque(3), [2]);
      var ms := [Moment([x])];
      var insertions := [(0, [a]), (0, [b]), (1, [c])];
      BatchInsertAsWritten(ms, insertions, Unconstrained()) == Err(IndexError) &&
      BatchInsert(ms, insertions, Unconstrained()).Ok?
  {
    var x, a, b, c := Operation(Opaque(0), [0]), Operation(Opaque(1), [0]),
                      Operation(Opaque(2), [1]), Operation(Opaque(3), [2]);
    var ms, canAdd := [Moment([x])], Unconstrained();
    var insertions := [(0, [a]), (0, [b]), (1, [c])];
    assert SortByIndex(insertions[2..]) == insertions[2..];
    assert SortByIndex(insertions[1..]) == insertions[1..];
    assert SortByIndex(insertions) == insertions;
    OvershiftFirst(x, a);
    OvershiftSecond(x, a, b);
    var m1, m2 := [Moment([a]), Moment([x])], [Moment([a, b]), Moment([x])];
    assert InsertGroup(ms, 0, 0, [a], AsWritten, canAdd) == Ok((m1, 1));
    assert InsertGroup(m1, 0, 1, [b], AsWritten, canAdd) == Ok((m2, 2));
    assert InsertGroup(m2, 1, 2, [c], AsWritten, canAdd) == Err(IndexError);
    assert insertions[1..][1..] == [(1, [c])];
    assert InsertGroups(m2, [(1, [c])], 2, AsWritten, canAdd) == Err(IndexError);
    assert InsertGroups(m1, insertions[1..], 1, AsWritten, canAdd) == Err(IndexError);
    assert Sound(canAdd);
    forall t | 0 <= t < |insertions| ensures 0 <= insertions[t].0 <= |ms| && DistinctEach(insertions[t].1) {
    }
    BatchInsertSucceeds(ms, insertions, canAdd);
  }
}
