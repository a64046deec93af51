/** The Circuit class of circuit.py: a moment list updated in place, and a device asked whether an
  * operation may join a moment. Each method carries out the source's loops step by step and is
  * proved to leave the moment list (and return the values) that the functions of Scheduling,
  * Frontiers and Batches compute; the properties of those functions are proved beside them. */
module Circuits {
  import opened Wrappers
  import opened Moments
  import opened Scheduling
  import opened Frontiers
  import opened Batches
  import opened SeqFacts

  class Circuit {
    var moments: seq<Moment>
    const canAdd: Device

    constructor (device: Device, initial: seq<Moment>)
      ensures moments == initial && canAdd == device
    {
      moments := initial;
      canAdd := device;
    }

    /** next_moment_operating_on(qubits, start_moment_index, max_distance): the distance is
      * checked and capped, then _first_moment_operating_on scans the range upwards. */
    method NextMomentOperatingOn(qubits: set<Qubit>, start: int, maxDistance: Option<int>) returns (r: Result<Option<int>>)
      ensures r == Scheduling.NextMomentOperatingOn(moments, qubits, start, maxDistance)
    {
      var reach := |moments| - start;
      var d := reach;
      if maxDistance.Some? {
        if maxDistance.value < 0 {
          return Err(ValueError);
        }
        d := Min(maxDistance.value, reach);
      }
      var m := start;
      while m < start + d
        invariant start <= m || start + d <= start
        invariant FirstForward(moments, qubits, m, start + d) == FirstForward(moments, qubits, start, start + d)
        decreases start + d - m
      {
        if HasOpAt(moments, m, qubits) {
          return Ok(Some(m));
        }
        m := m + 1;
      }
      return Ok(None);
    }

    /** next_moments_operating_on(qubits, start_moment_index): one search per qubit, the
      * circuit's length standing in for none. */
    method NextMomentsOperatingOn(qubits: set<Qubit>, start: int) returns (next: map<Qubit, nat>)
      ensures next == NextMoments(moments, qubits, start)
    {
      next := map[];
      var rest := qubits;
      while rest != {}
        invariant rest <= qubits && next.Keys == qubits - rest
        invariant forall q :: q in next ==> next[q] == NextMoments(moments, qubits, start)[q]
        decreases rest
      {
        var q :| q in rest;
        var found := NextMomentOperatingOn({q}, start, None);
        next := next[q := if found.Ok? && found.value.Some? && found.value.value >= 0 then found.value.value else |moments|];
        rest := rest - {q};
      }
    }

    /** prev_moment_operating_on(qubits, end_moment_index, max_distance), as written: the default
      * distance is the circuit's length; the search scans downwards from end - 1. */
    method PrevMomentOperatingOn(qubits: set<Qubit>, end: Option<int>, maxDistance: Option<int>) returns (r: Result<Option<int>>)
      ensures r == Scheduling.PrevMomentOperatingOn(moments, qubits, end, maxDistance)
    {
      var e := if end.None? then |moments| else end.value;
      if maxDistance.Some? && maxDistance.value < 0 {
        return Err(ValueError);
      }
      var d := if maxDistance.None? then |moments| else Min(e, maxDistance.value);
      if e > |moments| {
        var over := e - |moments|;
        e := e - over;
        d := d - over;
      }
      assert Scheduling.PrevMomentOperatingOn(moments, qubits, end, maxDistance)
        == if d <= 0 then Ok(None) else Ok(FirstBackward(moments, qubits, e, d));
      if d <= 0 {
        return Ok(None);
      }
      var found := ScanBackward(qubits, e, d);
      return Ok(found);
    }

    /** The loop of prev_moment_operating_on: the moments before end, nearest first, at most count
      * of them. */
    method ScanBackward(qubits: set<Qubit>, end: int, count: nat) returns (r: Option<int>)
      ensures r == FirstBackward(moments, qubits, end, count)
    {
      var k: nat := 0;
      while k < count
        invariant k <= count
        invariant FirstBackward(moments, qubits, end - k, count - k) == FirstBackward(moments, qubits, end, count)
      {
        assert FirstBackward(moments, qubits, end - k, count - k) ==
          if HasOpAt(moments, end - k - 1, qubits) then Some(end - k - 1)
          else FirstBackward(moments, qubits, end - k - 1, count - k - 1);
        if HasOpAt(moments, end - k - 1, qubits) {
          return Some(end - k - 1);
        }
        k := k + 1;
      }
      return None;
    }

    /** _prev_moment_available(op, end_moment_index). */
    method PrevMomentAvailable(op: Operation, end: nat) returns (r: nat)
      requires end <= |moments|
      ensures r == PrevAvailable(moments, op, canAdd, end, end)
    {
      var last := end;
      var k: nat := end;
      while k > 0
        invariant k <= last <= end
        invariant PrevAvailable(moments, op, canAdd, k, last) == PrevAvailable(moments, op, canAdd, end, end)
      {
        k := k - 1;
        if !CanCommutePast(moments, k, op) {
          return last;
        }
        if CanAddAt(moments, k, op, canAdd) {
          last := k;
        }
      }
      return last;
    }

    /** _pick_or_create_inserted_op_moment_index(splitter_index, op, strategy). */
    method PickOrCreate(splitter: nat, op: Operation, strategy: Strategy) returns (p: nat)
      requires splitter <= |moments|
      modifies this
      ensures (moments, p) == Pick(old(moments), splitter, op, strategy, canAdd)
      decreases Rank(strategy)
    {
      match strategy
      case New =>
        moments := Splice(moments, splitter);
        p := splitter;
      case NewThenInline =>
        moments := Splice(moments, splitter);
        p := splitter;
      case Inline =>
        if 0 <= splitter - 1 < |moments| && CanAddAt(moments, splitter - 1, op, canAdd) {
          p := splitter - 1;
        } else {
          p := PickOrCreate(splitter, op, New);
        }
      case Earliest =>
        if CanAddAt(moments, splitter, op, canAdd) {
          p := PrevMomentAvailable(op, splitter);
        } else {
          p := PickOrCreate(splitter, op, Inline);
        }
    }

    /** One round of insert's loop: pick (or create) the moment, append empty moments until it
      * exists, and add the operation to it with with_operation. */
    method PlaceOp(k: nat, op: Operation, strategy: Strategy) returns (p: nat, error: Option<Error>)
      requires k <= |moments|
      modifies this
      ensures Placed(error, moments, p) == Place(old(moments), k, op, strategy, canAdd)
    {
      p := PickOrCreate(k, op, strategy);
      ghost var picked := moments;
      while p >= |moments|
        invariant p <= |moments| && (moments == picked || (moments == picked + [EmptyMoment] && p == |picked|))
        decreases p + 1 - |moments|
      {
        moments := moments + [EmptyMoment];
      }
      assert (moments, p) == Padded(old(moments), k, op, strategy, canAdd);
      match WithOperation(moments[p], op)
      case Err(e) =>
        error := Some(e);
      case Ok(m) =>
        moments := moments[p := m];
        error := None;
    }

    /** insert(index, operations, strategy), the operation tree already flattened: IndexError
      * for an index outside 0..len, then each operation placed in turn. */
    method Insert(index: int, ops: seq<Operation>, strategy: Strategy) returns (next: int, error: Option<Error>)
      modifies this
      ensures Inserted(error, moments, next) == Scheduling.Insert(old(moments), index, ops, strategy, canAdd)
    {
      if !(0 <= index <= |moments|) {
        return index, Some(IndexError);
      }
      var k: nat := index;
      var s := strategy;
      var i := 0;
      ghost var goal := InsertLoop(moments, k, ops, s, canAdd);
      assert goal == Scheduling.Insert(old(moments), index, ops, strategy, canAdd);
      assert ops[i..] == ops;
      while i < |ops|
        invariant 0 <= i <= |ops| && k <= |moments|
        invariant InsertLoop(moments, k, ops[i..], s, canAdd) == goal
      {
        ghost var cur, rest := moments, ops[i..];
        assert rest[0] == ops[i] && rest[1..] == ops[i + 1..];
        var p, e := PlaceOp(k, ops[i], s);
        if e.Some? {
          InsertLoopPlaced(cur, k, rest, s, canAdd, Placed(e, moments, p));
          return k, e;
        }
        InsertLoopPlaced(cur, k, rest, s, canAdd, Placed(e, moments, p));
        k := Max(k, p + 1);
        s := NextStrategy(s);
        i := i + 1;
        assert ops[i..] == rest[1..];
      }
      return k, None;
    }

    /** insert(index, moment): the moment goes in where list.insert puts it, and index + 1 is
      * returned. */
    method InsertMoment(index: int, m: Moment) returns (next: int)
      modifies this
      ensures (moments, next) == Scheduling.InsertMoment(old(moments), index, m)
    {
      var at := if index < 0 then Max(0, |moments| + index) else Min(index, |moments|);
      moments := moments[..at] + [m] + moments[at..];
      return index + 1;
    }

    /** append(operations, strategy): insert at the end. */
    method Append(ops: seq<Operation>, strategy: Strategy) returns (error: Option<Error>)
      modifies this
      ensures Inserted(error, moments, |old(moments)|).error == Scheduling.Insert(old(moments), |old(moments)|, ops, strategy, canAdd).error
      ensures moments == Scheduling.Insert(old(moments), |old(moments)|, ops, strategy, canAdd).moments
    {
      var _, e := Insert(|moments|, ops, strategy);
      error := e;
    }

    /** insert_into_range(operations, start, end): the scan over the range, then insert(end, ...)
      * with the default strategy for the operations that did not fit. */
    method InsertIntoRange(ops: seq<Operation>, start: int, end: int) returns (next: int, error: Option<Error>)
      modifies this
      ensures Inserted(error, moments, next) == Scheduling.InsertIntoRange(old(moments), ops, start, end, canAdd)
    {
      if !(0 <= start <= end <= |moments|) {
        return 0, Some(IndexError);
      }
      var i: nat := start;
      var opIndex := 0;
      ghost var pos: seq<nat> := [];
      ghost var goal := Fill(moments, start, end, ops, canAdd);
      assert ops[opIndex..] == ops;
      while opIndex < |ops|
        invariant start <= i <= end <= |moments| && opIndex <= |ops| && |pos| == opIndex
        invariant var r := Fill(moments, i, end, ops[opIndex..], canAdd);
          goal == Filled(r.error, r.moments, pos + r.positions)
      {
        var op := ops[opIndex];
        DropOne(ops, opIndex);
        ghost var cur := moments;
        while i < end && !canAdd(op, moments[i])
          invariant start <= i <= end && moments == cur
          invariant var r := Fill(moments, i, end, ops[opIndex..], canAdd);
            goal == Filled(r.error, r.moments, pos + r.positions)
        {
          FillStep(moments, i, end, ops[opIndex..], canAdd);
          i := i + 1;
        }
        if i >= end {
          break;
        }
        FillStep(moments, i, end, ops[opIndex..], canAdd);
        match WithOperation(moments[i], op)
        case Err(e) =>
          assert goal.error == Some(e) && goal.moments == moments;
          return 0, Some(e);
        case Ok(m) =>
          moments := moments[i := m];
        pos := pos + [i];
        opIndex := opIndex + 1;
      }
      assert Fill(moments, i, end, ops[opIndex..], canAdd) == Filled(None, moments, []);
      assert pos + [] == pos;
      assert goal.error.None? && goal.moments == moments && |goal.positions| == opIndex;
      if opIndex >= |ops| {
        return end, None;
      }
      next, error := Insert(end, ops[opIndex..], NewThenInline);
    }

    /** max(frontier[q] for q in op.qubits): the largest read, and attained. */
    static method LatestFrontier(f: Frontier, qs: seq<Qubit>) returns (latest: nat)
      requires qs != []
      ensures IsMaxOf(f, qs, latest)
    {
      latest := Get(f, qs[0]);
      for j := 1 to |qs|
        invariant forall t :: 0 <= t < j ==> Get(f, qs[t]) <= latest
        invariant exists t :: 0 <= t < j && latest == Get(f, qs[t])
      {
        latest := NatMax(latest, Get(f, qs[j]));
      }
    }

    /** for q in op.qubits: frontier[q] = max(frontier[q], v). */
    static method Advance(f: Frontier, qs: seq<Qubit>, v: nat) returns (g: Frontier)
      ensures g.Keys == f.Keys + QubitSet(qs)
      ensures forall q :: Get(g, q) == if q in qs then NatMax(Get(f, q), v) else Get(f, q)
    {
      g := f;
      for j := 0 to |qs|
        invariant g.Keys == f.Keys + QubitSet(qs[..j])
        invariant forall q :: Get(g, q) == if q in qs[..j] then NatMax(Get(f, q), v) else Get(f, q)
      {
        assert qs[..j + 1] == qs[..j] + [qs[j]];
        g := g[qs[j] := NatMax(Get(g, qs[j]), v)];
      }
      assert qs[..|qs|] == qs;
    }

    /** _pick_inserted_ops_moment_indices(operations, start, frontier): each operation goes to the
      * later of start and its qubits' latest frontier, which then moves past it. A frontier read
      * is a Get; every qubit read is also written, so the keys come out as the defaultdict's. */
    static method PickInsertedOpsMomentIndices(ops: seq<Operation>, start: int, frontier: Frontier)
      returns (indices: seq<nat>, f: Frontier, error: Option<Error>)
      ensures error.Some? <==> PickIndices(ops, start, frontier).Err?
      ensures error.Some? ==> error == Some(ValueError)
      ensures error.None? ==> Picked(indices, f) == PickIndices(ops, start, frontier).value
    {
      f := frontier;
      indices := [];
      var i := 0;
      while i < |ops|
        invariant i <= |ops| && HasQubits(ops, i)
        invariant indices == Indices(ops, start, frontier, i)
        invariant Tracks(ops, start, frontier, i, f)
      {
        var qs := ops[i].qubits;
        if qs == [] {
          return indices, f, Some(ValueError);
        }
        var latest := LatestFrontier(f, qs);
        LatestIs(ops, start, frontier, i, f, latest);
        var opStart: nat := Max(start, latest);
        var g := Advance(f, qs, opStart + 1);
        TracksStep(ops, start, frontier, i, f, opStart + 1, g);
        f := g;
        indices := indices + [opStart];
        i := i + 1;
      }
      AfterIs(ops, start, frontier, f);
      error := None;
    }

    /** max(early_frontier.get(q, 0) - late_frontier[q] for q in late_frontier), 0 for no keys. */
    static method Overrun(early: Frontier, late: map<Qubit, nat>, keys: seq<Qubit>) returns (n: int)
      requires forall q :: q in late <==> q in keys
      ensures n == if keys == [] then 0 else MaxGap(early, late, keys)
    {
      n := 0;
      if keys != [] {
        n := Get(early, keys[0]) - late[keys[0]];
        for j := 1 to |keys|
          invariant forall t :: 0 <= t < j ==> Get(early, keys[t]) - late[keys[t]] <= n
          invariant exists t :: 0 <= t < j && n == Get(early, keys[t]) - late[keys[t]]
        {
          n := Max(n, Get(early, keys[j]) - late[keys[j]]);
        }
        GapIs(early, late, keys, n);
      }
    }

    /** min(late_frontier.values()). */
    static method LeastLate(late: map<Qubit, nat>, keys: seq<Qubit>) returns (least: nat)
      requires keys != [] && forall q :: q in late <==> q in keys
      ensures least == MinLate(late, keys)
    {
      least := late[keys[0]];
      for j := 1 to |keys|
        invariant forall t :: 0 <= t < j ==> least <= late[keys[t]]
        invariant exists t :: 0 <= t < j && least == late[keys[t]]
      {
        if late[keys[j]] < least {
          least := late[keys[j]];
        }
      }
      LeastIs(late, keys, least);
    }

    /** for q in update_qubits: if early_frontier.get(q, 0) > insert_index: add n, the update
      * qubits being the early frontier's qubits the late one lacks, visited in any order. */
    static method ShiftEarly(early: Frontier, late: map<Qubit, nat>, at: nat, n: nat) returns (f: Frontier)
      ensures f == map q | q in early :: if q !in late && early[q] > at then early[q] + n else early[q]
    {
      f := early;
      var rest := early.Keys - late.Keys;
      while rest != {}
        invariant rest <= early.Keys - late.Keys && f.Keys == early.Keys
        invariant forall q :: q in early ==>
          f[q] == if q !in late && q !in rest && early[q] > at then early[q] + n else early[q]
        decreases rest
      {
        var q :| q in rest;
        if Get(f, q) > at {
          f := f[q := f[q] + n];
        }
        rest := rest - {q};
      }
    }

    /** _push_frontier(early_frontier, late_frontier) with update_qubits left to default, the late
      * frontier's qubits listed in keys. */
    method PushFrontier(early: Frontier, late: map<Qubit, nat>, keys: seq<Qubit>) returns (f: Frontier, at: nat, count: nat)
      requires forall q :: q in late <==> q in keys
      modifies this
      ensures Pushed(moments, f, at, count) == Frontiers.PushFrontier(old(moments), early, late, keys)
    {
      var n := Overrun(early, late, keys);
      if n <= 0 {
        PushSplit(moments, early, late, keys, n, 0);
        return early, 0, 0;
      }
      var least := LeastLate(late, keys);
      PushSplit(moments, early, late, keys, n, least);
      var cut := Min(least, |moments|);
      moments := moments[..cut] + Empties(n) + moments[cut..];
      f := ShiftEarly(early, late, least, n);
      return f, least, n;
    }

    /** The moments grown with empty ones until the largest index exists. */
    method Grow(idx: seq<nat>)
      requires idx != []
      modifies this
      ensures moments == Grown(old(moments), idx)
    {
      var top := idx[0];
      for j := 1 to |idx|
        invariant top in idx[..j] && forall t :: 0 <= t < j ==> idx[t] <= top
      {
        top := NatMax(top, idx[j]);
      }
      assert idx[..|idx|] == idx;
      assert top == MaxIndex(idx);
      if 1 + top > |moments| {
        moments := moments + Empties(1 + top - |moments|);
      } else {
        assert moments + Empties(0) == moments;
      }
    }

    /** moment_to_ops = defaultdict(list) filled in one pass; order lists its keys as the dict
      * does, by first appearance. */
    static method GroupByMoment(ops: seq<Operation>, idx: seq<nat>) returns (groups: map<nat, seq<Operation>>, order: seq<nat>)
      requires |ops| == |idx|
      ensures order == Dedup(idx)
      ensures forall m :: m in groups <==> m in idx
      ensures forall m :: m in groups ==> groups[m] == Group(ops, idx, m)
    {
      groups := map[];
      order := [];
      for k := 0 to |idx|
        invariant Grouped(ops, idx, k, groups, order)
      {
        ghost var (g0, o0) := (groups, order);
        var m := idx[k];
        if m !in groups {
          order := order + [m];
        }
        groups := groups[m := if m in groups then groups[m] + [ops[k]] else [ops[k]]];
        GroupedStep(ops, idx, k, g0, o0, groups, order);
      }
      GroupedAll(ops, idx, groups, order);
    }

    /** for moment_index, new_ops in moment_to_ops.items(): Moment(old operations + new_ops). */
    method WriteGroups(ops: seq<Operation>, idx: seq<nat>, groups: map<nat, seq<Operation>>, order: seq<nat>) returns (error: Option<Error>)
      requires |ops| == |idx| && forall k :: 0 <= k < |order| ==> order[k] < |moments| && order[k] in groups
      requires forall m :: m in groups ==> groups[m] == Group(ops, idx, m)
      modifies this
      ensures Written(error, moments) == Frontiers.WriteGroups(old(moments), ops, idx, order)
    {
      for t := 0 to |order|
        invariant |moments| == |old(moments)|
        invariant Frontiers.WriteGroups(moments, ops, idx, order[t..]) == Frontiers.WriteGroups(old(moments), ops, idx, order)
      {
        DropOne(order, t);
        var m := order[t];
        match MakeMoment(moments[m].operations + groups[m])
        case Err(e) =>
          return Some(e);
        case Ok(mo) =>
          moments := moments[m := mo];
      }
      return None;
    }

    /** _insert_operations(operations, insertion_indices). */
    method InsertOperations(ops: seq<Operation>, idx: seq<nat>) returns (error: Option<Error>)
      modifies this
      ensures Written(error, moments) == Frontiers.InsertOperations(old(moments), ops, idx)
    {
      if |ops| != |idx| || idx == [] {
        return Some(ValueError);
      }
      Grow(idx);
      var groups, order := GroupByMoment(ops, idx);
      forall k | 0 <= k < |order| ensures order[k] < |moments| {
        assert order[k] in idx;
      }
      error := WriteGroups(ops, idx, groups, order);
    }

    /** insert_at_frontier(operations, start, frontier) on a flattened list: the frontier check,
      * the next moments acting on the operations' qubits, the greedy indices, the push, and the
      * writes. The frontier is passed and returned by value. */
    method InsertAtFrontier(ops: seq<Operation>, start: nat, frontier: Frontier) returns (f: Frontier, error: Option<Error>)
      modifies this
      ensures FrontierInserted(error, moments, f) == Frontiers.InsertAtFrontier(old(moments), ops, start, frontier)
    {
      if ops == [] {
        return frontier, None;
      }
      var keys := OpQubits(ops);
      if exists q :: q in keys && Get(frontier, q) > start {
        return frontier, Some(ValueError);
      }
      var late := NextMomentsOperatingOn(QubitSet(keys), start);
      var indices, picked, e := PickInsertedOpsMomentIndices(ops, start, frontier);
      if e.Some? {
        return frontier, e;
      }
      InsertAtFrontierSteps(moments, ops, start, frontier);
      var at, count;
      f, at, count := PushFrontier(picked, late, keys);
      error := InsertOperations(ops, indices);
    }

    /** batch_remove(removals): each removal on a copy, IndexError for a moment index outside the
      * list (negative indices count from the end), ValueError for an operation the moment lacks;
      * the moments are replaced only once every removal went through. */
    method BatchRemove(removals: seq<(int, Operation)>) returns (error: Option<Error>)
      modifies this
      ensures var r := RemoveLoop(old(moments), removals);
        if r.Ok? then error.None? && moments == r.value else error == Some(r.error) && moments == old(moments)
    {
      var copy := moments;
      for t := 0 to |removals|
        invariant RemoveLoop(copy, removals[t..]) == RemoveLoop(moments, removals)
      {
        assert removals[t..][0] == removals[t] && removals[t..][1..] == removals[t + 1..];
        var (i, op) := removals[t];
        match PyIndex(|copy|, i)
        case None =>
          return Some(IndexError);
        case Some(k) =>
          if op !in copy[k].operations {
            return Some(ValueError);
          }
          copy := copy[k := Moment(Remove(copy[k].operations, {op}))];
      }
      moments := copy;
      return None;
    }

    /** batch_insert_into(insert_intos): with_operation on a copy for each pair, IndexError for
      * a moment index outside the list and the ValueError of a clash passed on; the moments are
      * replaced only once every insertion went through. */
    method BatchInsertInto(insertIntos: seq<(int, Operation)>) returns (error: Option<Error>)
      modifies this
      ensures var r := InsertIntoLoop(old(moments), insertIntos);
        if r.Ok? then error.None? && moments == r.value else error == Some(r.error) && moments == old(moments)
    {
      var copy := moments;
      for t := 0 to |insertIntos|
        invariant InsertIntoLoop(copy, insertIntos[t..]) == InsertIntoLoop(moments, insertIntos)
      {
        assert insertIntos[t..][0] == insertIntos[t] && insertIntos[t..][1..] == insertIntos[t + 1..];
        var (i, op) := insertIntos[t];
        match PyIndex(|copy|, i)
        case None =>
          return Some(IndexError);
        case Some(k) =>
          match WithOperation(copy[k], op)
          case Err(e) =>
            return Some(e);
          case Ok(m) =>
            copy := copy[k := m];
      }
      moments := copy;
      return None;
    }

    /** The inner loop of batch_insert for one (index, operations) pair, the shift counting the
      * moments each insertion added. */
    method InsertGroup(i: int, shift: int, ops: seq<Operation>) returns (shifted: int, error: Option<Error>)
      modifies this
      ensures var r := Batches.InsertGroup(old(moments), i, shift, ops, CountNewMoments, canAdd);
        if r.Ok? then error.None? && (moments, shifted) == r.value else error == Some(r.error)
    {
      shifted := shift;
      ghost var goal := Batches.InsertGroup(moments, i, shift, ops, CountNewMoments, canAdd);
      assert ops[0..] == ops;
      for t := 0 to |ops|
        invariant Batches.InsertGroup(moments, i, shifted, ops[t..], CountNewMoments, canAdd) == goal
      {
        ghost var cur := moments;
        var before := |moments|;
        var next, e := Insert(i + shifted, [ops[t]], Earliest);
        var nextShift := shifted + (|moments| - before);
        InsertGroupStep(cur, i, shifted, ops, t, canAdd, Inserted(e, moments, next), nextShift);
        if e.Some? {
          return shifted, e;
        }
        shifted := nextShift;
      }
      return shifted, None;
    }

    /** batch_insert(insertions) with the shift counting the moments each insertion added: the
      * insertions sorted stably by index and each operation inserted with EARLIEST, on a copy,
      * at its index plus the shift; the moments are replaced only once all went in. */
    method BatchInsert(insertions: seq<(int, seq<Operation>)>) returns (error: Option<Error>)
      modifies this
      ensures var r := Batches.BatchInsert(old(moments), insertions, canAdd);
        if r.Ok? then error.None? && moments == r.value else error == Some(r.error) && moments == old(moments)
    {
      var copy := new Circuit(canAdd, moments);
      var shift := 0;
      var sorted := SortByIndex(insertions);
      for g := 0 to |sorted|
        invariant fresh(copy) && copy.canAdd == canAdd && moments == old(moments)
        invariant InsertGroups(copy.moments, sorted[g..], shift, CountNewMoments, canAdd) == Batches.BatchInsert(moments, insertions, canAdd)
      {
        DropOne(sorted, g);
        var (i, ops) := sorted[g];
        var e;
        shift, e := copy.InsertGroup(i, shift, ops);
        if e.Some? {
          return e;
        }
      }
      moments := copy.moments;
      return None;
    }

    /** clear_operations_touching(qubits, moment_indices). */
    method ClearOperationsTouching(qubits: set<Qubit>, indices: seq<int>)
      modifies this
      ensures moments == Cleared(old(moments), qubits, indices)
    {
      for t := 0 to |indices|
        invariant Cleared(moments, qubits, indices[t..]) == Cleared(old(moments), qubits, indices)
      {
        DropOne(indices, t);
        var k := indices[t];
        if 0 <= k < |moments| {
          moments := moments[k := WithoutOperationsTouching(moments[k], qubits)];
        }
      }
    }
  }

  /** The frontier f reads, for every qubit, what the frontier reads once ops[..i] are placed,
    * and lists the same qubits. */
  ghost predicate Tracks(ops: seq<Operation>, start: int, f0: Frontier, i: nat, f: Frontier)
    requires i <= |ops| && HasQubits(ops, i)
  {
    f.Keys == KeysAfter(ops, f0, i) && forall q :: Get(f, q) == FrontierOf(ops, start, f0, i, q)
  }

  /** The largest of given reads over qs, and attained. */
  ghost predicate IsMaxOf(f: Frontier, qs: seq<Qubit>, latest: nat)
  {
    (forall t :: 0 <= t < |qs| ==> Get(f, qs[t]) <= latest) &&
    exists t :: 0 <= t < |qs| && latest == Get(f, qs[t])
  }

  /** One insertion of batch_insert's inner loop. */
  lemma InsertGroupStep(ms: seq<Moment>, i: int, shift: int, ops: seq<Operation>, t: nat, canAdd: Device, ins: Inserted,
                        nextShift: int)
    requires t < |ops| && ins == Scheduling.Insert(ms, i + shift, [ops[t]], Earliest, canAdd)
    requires nextShift == shift + (|ins.moments| - |ms|)
    ensures Batches.InsertGroup(ms, i, shift, ops[t..], CountNewMoments, canAdd) ==
      if ins.error.Some? then Err(ins.error.value)
      else Batches.InsertGroup(ins.moments, i, nextShift, ops[t + 1..], CountNewMoments, canAdd)
  {
    DropOne(ops, t);
  }

  /** The running maximum of the frontier over ops[i]'s qubits is LatestOf, so ops[i] goes to
    * At. */
  lemma LatestIs(ops: seq<Operation>, start: int, f0: Frontier, i: nat, f: Frontier, latest: nat)
    requires i < |ops| && HasQubits(ops, i) && ops[i].qubits != [] && Tracks(ops, start, f0, i, f)
    requires IsMaxOf(f, ops[i].qubits, latest)
    ensures HasQubits(ops, i + 1) && Max(start, latest) == At(ops, start, f0, i)
  {
    var qs := ops[i].qubits;
    assert HasQubits(ops, i + 1);
    var best := LatestOf(ops, start, f0, i, qs);
    var t :| 0 <= t < |qs| && latest == Get(f, qs[t]);
    assert qs[t] in qs;
    assert Get(f, qs[t]) == FrontierOf(ops, start, f0, i, qs[t]);
    assert latest <= best;
    var q :| q in qs && best == FrontierOf(ops, start, f0, i, q);
    var u :| 0 <= u < |qs| && qs[u] == q;
    assert Get(f, qs[u]) == FrontierOf(ops, start, f0, i, qs[u]);
    assert Get(f, qs[u]) <= latest;
  }

  /** Advancing the frontier of ops[i]'s qubits past At gives the frontier after ops[i]. */
  lemma TracksStep(ops: seq<Operation>, start: int, f0: Frontier, i: nat, f: Frontier, v: nat, g: Frontier)
    requires i < |ops| && HasQubits(ops, i + 1) && Tracks(ops, start, f0, i, f) && v == At(ops, start, f0, i) + 1
    requires g.Keys == f.Keys + QubitSet(ops[i].qubits)
    requires forall q :: Get(g, q) == if q in ops[i].qubits then NatMax(Get(f, q), v) else Get(f, q)
    ensures Tracks(ops, start, f0, i + 1, g)
  {
    KeysAfterStep(ops, f0, i);
    forall q ensures Get(g, q) == FrontierOf(ops, start, f0, i + 1, q) {
      assert Get(f, q) == FrontierOf(ops, start, f0, i, q);
    }
  }

  lemma KeysAfterStep(ops: seq<Operation>, f: Frontier, i: nat)
    requires i < |ops|
    ensures KeysAfter(ops, f, i + 1) == KeysAfter(ops, f, i) + QubitSet(ops[i].qubits)
  {
  }

  /** A frontier tracking the whole loop is the frontier After computes. */
  lemma AfterIs(ops: seq<Operation>, start: int, f0: Frontier, f: Frontier)
    requires HasQubits(ops, |ops|) && Tracks(ops, start, f0, |ops|, f)
    ensures f == After(ops, start, f0, |ops|)
  {
  }

  /** _push_frontier's two outcomes, given the overrun and the least late index. */
  lemma PushSplit(ms: seq<Moment>, early: Frontier, late: map<Qubit, nat>, keys: seq<Qubit>, n: int, least: nat)
    requires forall q :: q in late <==> q in keys
    requires n == if keys == [] then 0 else MaxGap(early, late, keys)
    requires n > 0 ==> keys != [] && least == MinLate(late, keys)
    ensures n <= 0 ==> Frontiers.PushFrontier(ms, early, late, keys) == Pushed(ms, early, 0, 0)
    ensures n > 0 ==>
              Frontiers.PushFrontier(ms, early, late, keys) ==
              Pushed(ms[..Min(least, |ms|)] + Empties(n) + ms[Min(least, |ms|)..],
                     map q | q in early :: if q !in late && early[q] > least then early[q] + n else early[q], least, n)
  {
  }

  lemma GapIs(early: Frontier, late: map<Qubit, nat>, keys: seq<Qubit>, n: int)
    requires |keys| > 0 && forall q :: q in keys ==> q in late
    requires forall t :: 0 <= t < |keys| ==> Get(early, keys[t]) - late[keys[t]] <= n
    requires exists t :: 0 <= t < |keys| && n == Get(early, keys[t]) - late[keys[t]]
    ensures n == MaxGap(early, late, keys)
  {
    var best := MaxGap(early, late, keys);
    var t :| 0 <= t < |keys| && n == Get(early, keys[t]) - late[keys[t]];
    assert keys[t] in keys;
    var q :| q in keys && best == Get(early, q) - late[q];
    var u :| 0 <= u < |keys| && keys[u] == q;
  }

  lemma LeastIs(late: map<Qubit, nat>, keys: seq<Qubit>, least: nat)
    requires |keys| > 0 && forall q :: q in keys ==> q in late
    requires forall t :: 0 <= t < |keys| ==> least <= late[keys[t]]
    requires exists t :: 0 <= t < |keys| && least == late[keys[t]]
    ensures least == MinLate(late, keys)
  {
    var best := MinLate(late, keys);
    var t :| 0 <= t < |keys| && least == late[keys[t]];
    assert keys[t] in keys;
    var q :| q in keys && best == late[q];
    var u :| 0 <= u < |keys| && keys[u] == q;
  }

  /** moment_to_ops and its key order once idx[..k] is visited. */
  ghost predicate Grouped(ops: seq<Operation>, idx: seq<nat>, k: nat, groups: map<nat, seq<Operation>>, order: seq<nat>)
    requires |ops| == |idx| && k <= |idx|
  {
    order == Dedup(idx[..k]) && GroupsOf(ops, idx, k, groups)
  }

  ghost predicate GroupsOf(ops: seq<Operation>, idx: seq<nat>, k: nat, groups: map<nat, seq<Operation>>)
    requires |ops| == |idx| && k <= |idx|
  {
    (forall m :: m in groups <==> m in idx[..k]) &&
    forall m :: m in groups ==> groups[m] == Group(ops[..k], idx[..k], m)
  }

  lemma DedupStep(idx: seq<nat>, k: nat)
    requires k < |idx|
    ensures Dedup(idx[..k + 1]) == if idx[k] in idx[..k] then Dedup(idx[..k]) else Dedup(idx[..k]) + [idx[k]]
  {
    assert idx[..k + 1][..k] == idx[..k];
  }

  lemma GroupsStep(ops: seq<Operation>, idx: seq<nat>, k: nat, g0: map<nat, seq<Operation>>, groups: map<nat, seq<Operation>>)
    requires |ops| == |idx| && k < |idx| && GroupsOf(ops, idx, k, g0)
    requires groups == g0[idx[k] := if idx[k] in g0 then g0[idx[k]] + [ops[k]] else [ops[k]]]
    ensures GroupsOf(ops, idx, k + 1, groups)
  {
    GroupStep(ops, idx, k);
    assert idx[..k + 1] == idx[..k] + [idx[k]];
    if idx[k] !in g0 {
      GroupEmpty(ops[..k], idx[..k], idx[k]);
    }
  }

  lemma GroupedStep(ops: seq<Operation>, idx: seq<nat>, k: nat, g0: map<nat, seq<Operation>>, o0: seq<nat>,
                    groups: map<nat, seq<Operation>>, order: seq<nat>)
    requires |ops| == |idx| && k < |idx| && Grouped(ops, idx, k, g0, o0)
    requires order == if idx[k] in g0 then o0 else o0 + [idx[k]]
    requires groups == g0[idx[k] := if idx[k] in g0 then g0[idx[k]] + [ops[k]] else [ops[k]]]
    ensures Grouped(ops, idx, k + 1, groups, order)
  {
    DedupStep(idx, k);
    GroupsStep(ops, idx, k, g0, groups);
  }

  lemma GroupedAll(ops: seq<Operation>, idx: seq<nat>, groups: map<nat, seq<Operation>>, order: seq<nat>)
    requires |ops| == |idx| && Grouped(ops, idx, |idx|, groups, order)
    ensures order == Dedup(idx)
    ensures forall m :: m in groups <==> m in idx
    ensures forall m :: m in groups ==> groups[m] == Group(ops, idx, m)
  {
    assert ops[..|ops|] == ops && idx[..|idx|] == idx;
  }

  lemma {:induction false} GroupSnoc(ops: seq<Operation>, idx: seq<nat>, o: Operation, i: nat, m: nat)
    requires |ops| == |idx|
    ensures Group(ops + [o], idx + [i], m) == Group(ops, idx, m) + (if i == m then [o] else [])
    decreases |ops|
  {
    if ops == [] {
      assert [o][1..] == [] && [i][1..] == [];
      assert ops + [o] == [o] && idx + [i] == [i];
    } else {
      assert (ops + [o])[1..] == ops[1..] + [o];
      assert (idx + [i])[1..] == idx[1..] + [i];
      GroupSnoc(ops[1..], idx[1..], o, i, m);
    }
  }

  /** One more index adds its operation to its own moment's group and to no other. */
  lemma GroupStep(ops: seq<Operation>, idx: seq<nat>, k: nat)
    requires |ops| == |idx| && k < |idx|
    ensures forall m :: Group(ops[..k + 1], idx[..k + 1], m) ==
                        Group(ops[..k], idx[..k], m) + (if idx[k] == m then [ops[k]] else [])
  {
    assert ops[..k + 1] == ops[..k] + [ops[k]] && idx[..k + 1] == idx[..k] + [idx[k]];
    forall m ensures Group(ops[..k + 1], idx[..k + 1], m) ==
      Group(ops[..k], idx[..k], m) + (if idx[k] == m then [ops[k]] else [])
    {
      GroupSnoc(ops[..k], idx[..k], ops[k], idx[k], m);
    }
  }
}
