/** Frontiers: the pieces of circuit.py behind insert_at_frontier. A frontier maps each qubit to the
  * first moment an operation on it may go into; it is a defaultdict, so a qubit it does not list
  * reads as 0. */
module Frontiers {
  import opened Wrappers
  import opened Moments
  import opened Scheduling

  type Frontier = map<Qubit, nat>

  /** frontier[q] on the defaultdict. */
  function Get(f: Frontier, q: Qubit): nat { if q in f then f[q] else 0 }

  function NatMax(a: nat, b: nat): nat { if a < b then b else a }

  // ---------------------------------------------------------------------------------------------
  // _pick_inserted_ops_moment_indices

  /** The first n operations each act on some qubit, so max() over their qubits is defined. */
  predicate HasQubits(ops: seq<Operation>, n: nat)
  {
    forall k :: 0 <= k < n && k < |ops| ==> ops[k].qubits != []
  }

  /** frontier[q] once the loop has placed ops[..n]: each placed operation on q lifts it to at
    * least one past the operation's moment. */
  function FrontierOf(ops: seq<Operation>, start: int, f: Frontier, n: nat, q: Qubit): nat
    requires n <= |ops| && HasQubits(ops, n)
    decreases n, 0, 0
  {
    if n == 0 then Get(f, q)
    else if q in ops[n - 1].qubits then NatMax(FrontierOf(ops, start, f, n - 1, q), At(ops, start, f, n - 1) + 1)
    else FrontierOf(ops, start, f, n - 1, q)
  }

  /** max(frontier[q] for q in qs) once the loop has placed ops[..i]: the largest, and attained. */
  function LatestOf(ops: seq<Operation>, start: int, f: Frontier, i: nat, qs: seq<Qubit>): (r: nat)
    requires i <= |ops| && HasQubits(ops, i) && |qs| > 0
    ensures forall q :: q in qs ==> FrontierOf(ops, start, f, i, q) <= r
    ensures exists q :: q in qs && r == FrontierOf(ops, start, f, i, q)
    decreases i, 1, |qs|
  {
    if |qs| == 1 then FrontierOf(ops, start, f, i, qs[0])
    else
      var rest := LatestOf(ops, start, f, i, qs[1..]);
      assert forall q :: q in qs[1..] ==> q in qs;
      NatMax(FrontierOf(ops, start, f, i, qs[0]), rest)
  }

  /** The moment ops[i] is assigned: the later of start and the frontier of its qubits. */
  function At(ops: seq<Operation>, start: int, f: Frontier, i: nat): (r: nat)
    requires i < |ops| && HasQubits(ops, i + 1)
    ensures start <= r && forall q :: q in ops[i].qubits ==> FrontierOf(ops, start, f, i, q) <= r
    ensures r == start || exists q :: q in ops[i].qubits && r == FrontierOf(ops, start, f, i, q)
    decreases i, 2, 0
  {
    Max(start, LatestOf(ops, start, f, i, ops[i].qubits))
  }

  /** The indices the loop has appended once it has placed ops[..n]. */
  function Indices(ops: seq<Operation>, start: int, f: Frontier, n: nat): (r: seq<nat>)
    requires n <= |ops| && HasQubits(ops, n)
    ensures |r| == n && forall i :: 0 <= i < n ==> r[i] == At(ops, start, f, i)
  {
    if n == 0 then [] else Indices(ops, start, f, n - 1) + [At(ops, start, f, n - 1)]
  }

  /** The qubits listed in the frontier once the loop has placed ops[..n]: reading frontier[q]
    * and assigning it lists q. */
  function KeysAfter(ops: seq<Operation>, f: Frontier, n: nat): set<Qubit>
    requires n <= |ops|
  {
    f.Keys + set j, q | 0 <= j < n && q in ops[j].qubits :: q
  }

  /** The frontier once the loop has placed ops[..n]. */
  function After(ops: seq<Operation>, start: int, f: Frontier, n: nat): (r: Frontier)
    requires n <= |ops| && HasQubits(ops, n)
    ensures r.Keys == KeysAfter(ops, f, n)
  {
    map q | q in KeysAfter(ops, f, n) :: FrontierOf(ops, start, f, n, q)
  }

  /** A qubit the frontier does not list reads 0, as it did at the start. */
  lemma {:induction false} AfterGet(ops: seq<Operation>, start: int, f: Frontier, n: nat, q: Qubit)
    requires n <= |ops| && HasQubits(ops, n)
    ensures Get(After(ops, start, f, n), q) == FrontierOf(ops, start, f, n, q)
  {
    if q !in KeysAfter(ops, f, n) {
      Untouched(ops, start, f, n, q);
    }
  }

  /** A qubit no placed operation acts on keeps the frontier it was given. */
  lemma {:induction false} Untouched(ops: seq<Operation>, start: int, f: Frontier, n: nat, q: Qubit)
    requires n <= |ops| && HasQubits(ops, n)
    requires forall j :: 0 <= j < n ==> q !in ops[j].qubits
    ensures FrontierOf(ops, start, f, n, q) == Get(f, q)
  {
    if n > 0 {
      Untouched(ops, start, f, n - 1, q);
    }
  }

  /** The indices picked for the operations, and the frontier after them. */
  datatype Picked = Picked(indices: seq<nat>, frontier: Frontier)

  /** _pick_inserted_ops_moment_indices(operations, start, frontier). An operation on no qubits
    * makes max() raise ValueError. */
  function PickIndices(ops: seq<Operation>, start: int, f: Frontier): (r: Result<Picked>)
    ensures r.Err? <==> !HasQubits(ops, |ops|)
    ensures r.Err? ==> r.error == ValueError
    ensures r.Ok? ==> |r.value.indices| == |ops|
  {
    if !HasQubits(ops, |ops|) then Err(ValueError)
    else Ok(Picked(Indices(ops, start, f, |ops|), After(ops, start, f, |ops|)))
  }

  /** The frontier never moves back as operations are placed. */
  lemma {:induction false} AfterGrows(ops: seq<Operation>, start: int, f: Frontier, m: nat, n: nat, q: Qubit)
    requires m <= n <= |ops| && HasQubits(ops, n)
    ensures FrontierOf(ops, start, f, m, q) <= FrontierOf(ops, start, f, n, q)
    decreases n
  {
    if m < n {
      AfterGrows(ops, start, f, m, n - 1, q);
    }
  }

  /** Every operation goes at or after start and at or after the frontier it was given for each
    * of its qubits. */
  lemma {:induction false} PickBounds(ops: seq<Operation>, start: int, f: Frontier, i: nat, q: Qubit)
    requires i < |ops| && HasQubits(ops, i + 1) && q in ops[i].qubits
    ensures start <= At(ops, start, f, i) && Get(f, q) <= At(ops, start, f, i)
  {
    AfterGrows(ops, start, f, 0, i, q);
  }

  /** Once an operation is placed, the frontier of each of its qubits lies past its moment. */
  lemma {:induction false} PlacedBefore(ops: seq<Operation>, start: int, f: Frontier, i: nat, n: nat, q: Qubit)
    requires i < n <= |ops| && HasQubits(ops, n) && q in ops[i].qubits
    ensures At(ops, start, f, i) < FrontierOf(ops, start, f, n, q)
  {
    AfterGrows(ops, start, f, i + 1, n, q);
  }

  /** Two operations sharing a qubit go to strictly increasing moments, in input order. */
  lemma {:induction false} PickOrder(ops: seq<Operation>, start: int, f: Frontier, i: nat, j: nat)
    requires i < j < |ops| && HasQubits(ops, |ops|) && Overlap(ops[i], ops[j])
    ensures At(ops, start, f, i) < At(ops, start, f, j)
  {
    var q :| q in ops[i].qubits && q in ops[j].qubits;
    PlacedBefore(ops, start, f, i, j, q);
  }

  /** A qubit's frontier after n operations is the one it was given, or one past the moment of an
    * operation on it among the first n. */
  lemma {:induction false} AfterSource(ops: seq<Operation>, start: int, f: Frontier, n: nat, q: Qubit)
    requires n <= |ops| && HasQubits(ops, n)
    ensures FrontierOf(ops, start, f, n, q) == Get(f, q) ||
      exists j :: 0 <= j < n && q in ops[j].qubits && FrontierOf(ops, start, f, n, q) == At(ops, start, f, j) + 1
    decreases n
  {
    if n > 0 {
      AfterSource(ops, start, f, n - 1, q);
    }
  }

  /** The pick is greedy: each operation goes to start, to the frontier it was given for one of
    * its qubits, or to the moment just after an earlier operation sharing a qubit with it. */
  lemma {:induction false} PickEarliest(ops: seq<Operation>, start: int, f: Frontier, i: nat)
    requires i < |ops| && HasQubits(ops, |ops|)
    ensures var at := At(ops, start, f, i);
      at == start ||
      (exists q :: q in ops[i].qubits && at == Get(f, q)) ||
      (exists j :: 0 <= j < i && Overlap(ops[j], ops[i]) && at == At(ops, start, f, j) + 1)
  {
    var at := At(ops, start, f, i);
    if at != start {
      var q :| q in ops[i].qubits && at == FrontierOf(ops, start, f, i, q);
      AfterSource(ops, start, f, i, q);
    }
  }

  // ---------------------------------------------------------------------------------------------
  // _push_frontier

  /** max(early_frontier.get(q, 0) - late_frontier[q] for q in late_frontier), the late frontier's
    * qubits listed in keys: the largest gap, and attained. */
  function MaxGap(early: Frontier, late: map<Qubit, nat>, keys: seq<Qubit>): (r: int)
    requires |keys| > 0 && forall q :: q in keys ==> q in late
    ensures forall q :: q in keys ==> Get(early, q) - late[q] <= r
    ensures exists q :: q in keys && r == Get(early, q) - late[q]
  {
    var here := Get(early, keys[0]) - late[keys[0]];
    if |keys| == 1 then here
    else
      var rest := MaxGap(early, late, keys[1..]);
      assert forall q :: q in keys[1..] ==> q in keys;
      Max(here, rest)
  }

  /** min(late_frontier.values()): the least late index, and attained. */
  function MinLate(late: map<Qubit, nat>, keys: seq<Qubit>): (r: nat)
    requires |keys| > 0 && forall q :: q in keys ==> q in late
    ensures forall q :: q in keys ==> r <= late[q]
    ensures exists q :: q in keys && r == late[q]
  {
    if |keys| == 1 then late[keys[0]]
    else
      var rest := MinLate(late, keys[1..]);
      assert forall q :: q in keys[1..] ==> q in keys;
      if late[keys[0]] < rest then late[keys[0]] else rest
  }

  /** The outcome of _push_frontier: the moments, the updated early frontier, the index the new
    * moments went to and how many there are; (0, 0) when none were needed. */
  datatype Pushed = Pushed(moments: seq<Moment>, frontier: Frontier, at: nat, count: nat)

  /** _push_frontier(early_frontier, late_frontier) with update_qubits left to default, keys
    * listing the late frontier's qubits in the dict's order: as many empty moments as the early
    * frontier overruns the late one by at most go in at the least late index (slicing past the end
    * appends), and the early frontier of each qubit the late one does not list moves up by that
    * many when it lies past that index. */
  function PushFrontier(ms: seq<Moment>, early: Frontier, late: map<Qubit, nat>, keys: seq<Qubit>): (r: Pushed)
    requires forall q :: q in late <==> q in keys
    ensures r.count == 0 ==> r == Pushed(ms, early, 0, 0)
    ensures forall q :: q in late ==> Get(early, q) - late[q] <= r.count
    ensures r.count > 0 ==> exists q :: q in late && Get(early, q) - late[q] == r.count
    ensures r.count > 0 ==> forall q :: q in late ==> r.at <= late[q]
    ensures r.count > 0 ==> exists q :: q in late && r.at == late[q]
    ensures r.moments == ms[..Min(r.at, |ms|)] + Empties(r.count) + ms[Min(r.at, |ms|)..]
    ensures r.frontier.Keys == early.Keys
    ensures forall q :: q in early ==>
      r.frontier[q] == if q !in late && early[q] > r.at then early[q] + r.count else early[q]
  {
    var n := if keys == [] then 0 else MaxGap(early, late, keys);
    if n > 0 then
      var at := MinLate(late, keys);
      var cut := Min(at, |ms|);
      var shifted := map q | q in early :: if q !in late && early[q] > at then early[q] + n else early[q];
      Pushed(ms[..cut] + Empties(n) + ms[cut..], shifted, at, n)
    else
      assert ms[..0] + Empties(0) + ms[0..] == ms;
      Pushed(ms, early, 0, 0)
  }

  /** The promise of _push_frontier's documentation: afterwards no qubit's early frontier runs past
    * its late frontier moved up by the new moments. The late frontier's qubits keep their early
    * frontier. */
  lemma PushSeparates(ms: seq<Moment>, early: Frontier, late: map<Qubit, nat>, keys: seq<Qubit>)
    requires forall q :: q in late <==> q in keys
    ensures var r := PushFrontier(ms, early, late, keys);
      forall q :: q in late ==> Get(r.frontier, q) == Get(early, q) && Get(r.frontier, q) <= late[q] + r.count
  {
  }

  /** The new moments are empty moments spliced in at the insertion index (or appended), so the
    * circuit keeps its operations and its validity. */
  lemma {:induction false} PushKeeps(ms: seq<Moment>, early: Frontier, late: map<Qubit, nat>, keys: seq<Qubit>)
    requires forall q :: q in late <==> q in keys
    ensures var r := PushFrontier(ms, early, late, keys);
      AllOps(r.moments) == AllOps(ms) && (ValidMoments(ms) ==> ValidMoments(r.moments))
  {
    var r := PushFrontier(ms, early, late, keys);
    var cut := Min(r.at, |ms|);
    SpliceEmpties(ms, cut, r.count);
    if ValidMoments(ms) {
      SpliceEmptiesValid(ms, cut, r.count);
    }
  }

  /** The other promise: for each qubit the late frontier does not list, the moment just before
    * its early frontier is, after the insertion, the same moment as before. */
  lemma PushTracks(ms: seq<Moment>, early: Frontier, late: map<Qubit, nat>, keys: seq<Qubit>, q: Qubit)
    requires forall q :: q in late <==> q in keys
    requires q in early && q !in late && 0 < early[q] <= |ms|
    ensures var r := PushFrontier(ms, early, late, keys);
      q in r.frontier && 0 < r.frontier[q] <= |r.moments| && r.moments[r.frontier[q] - 1] == ms[early[q] - 1]
  {
    var r := PushFrontier(ms, early, late, keys);
    var cut := Min(r.at, |ms|);
    var e := early[q];
    if r.count > 0 {
      if e > r.at {
        assert r.moments[e - 1 + r.count] == ms[e - 1];
      } else {
        assert r.moments[e - 1] == ms[e - 1];
      }
    }
  }

  // ---------------------------------------------------------------------------------------------
  // _insert_operations

  /** moment_to_ops[m]: the operations assigned moment m, in input order. */
  function Group(ops: seq<Operation>, idx: seq<nat>, m: nat): (r: seq<Operation>)
    requires |ops| == |idx|
    ensures |r| <= |ops|
    decreases |ops|
  {
    if ops == [] then [] else (if idx[0] == m then [ops[0]] else []) + Group(ops[1..], idx[1..], m)
  }

  /** Every operation in a group was assigned that moment. */
  lemma {:induction false} GroupSource(ops: seq<Operation>, idx: seq<nat>, m: nat, k: nat)
    requires |ops| == |idx| && k < |Group(ops, idx, m)|
    ensures exists i :: 0 <= i < |ops| && idx[i] == m && Group(ops, idx, m)[k] == ops[i]
    decreases |ops|
  {
    var rest := Group(ops[1..], idx[1..], m);
    if idx[0] == m && k == 0 {
      assert idx[0] == m && Group(ops, idx, m)[0] == ops[0];
    } else {
      var k' := if idx[0] == m then k - 1 else k;
      assert Group(ops, idx, m)[k] == rest[k'];
      GroupSource(ops[1..], idx[1..], m, k');
      var i :| 0 <= i < |ops| - 1 && idx[1..][i] == m && rest[k'] == ops[1..][i];
      assert idx[i + 1] == m && rest[k'] == ops[i + 1];
    }
  }

  /** Each operation is in the group of the moment it is assigned. */
  lemma {:induction false} GroupHas(ops: seq<Operation>, idx: seq<nat>, i: nat)
    requires |ops| == |idx| && i < |ops|
    ensures ops[i] in Group(ops, idx, idx[i])
    decreases i
  {
    if i > 0 {
      GroupHas(ops[1..], idx[1..], i - 1);
    }
  }

  /** No operation is assigned a moment that is not among the indices. */
  lemma {:induction false} GroupEmpty(ops: seq<Operation>, idx: seq<nat>, m: nat)
    requires |ops| == |idx| && m !in idx
    ensures Group(ops, idx, m) == []
    decreases |ops|
  {
    if ops != [] {
      assert m !in idx[1..];
      GroupEmpty(ops[1..], idx[1..], m);
    }
  }

  /** Two lists of operations that are each well formed and share no qubit form a well-formed
    * list together. */
  lemma ConcatWellFormed(a: seq<Operation>, b: seq<Operation>)
    requires WellFormed(a) && WellFormed(b)
    requires forall i, j :: 0 <= i < |a| && 0 <= j < |b| ==> !Overlap(a[i], b[j])
    ensures WellFormed(a + b)
  {
    var c := a + b;
    forall i | 0 <= i < |c| ensures DistinctQubits(c[i]) {
      if i >= |a| {
        assert c[i] == b[i - |a|];
      }
    }
    forall i, j | 0 <= i < j < |c| ensures !Overlap(c[i], c[j]) {
      if j < |a| {
        assert c[i] == a[i] && c[j] == a[j];
      } else if i >= |a| {
        assert c[i] == b[i - |a|] && c[j] == b[j - |a|];
      } else {
        assert c[i] == a[i] && c[j] == b[j - |a|];
      }
    }
  }

  /** The operations assigned one moment form a well-formed list when each names distinct qubits
    * and no two of them share a qubit. */
  lemma {:induction false} GroupWellFormed(ops: seq<Operation>, idx: seq<nat>, m: nat)
    requires |ops| == |idx|
    requires forall i :: 0 <= i < |ops| ==> DistinctQubits(ops[i])
    requires forall i, j :: 0 <= i < j < |ops| && idx[i] == m && idx[j] == m ==> !Overlap(ops[i], ops[j])
    ensures WellFormed(Group(ops, idx, m))
    decreases |ops|
  {
    if ops != [] {
      var tops, tidx := ops[1..], idx[1..];
      forall i, j | 0 <= i < j < |tops| && tidx[i] == m && tidx[j] == m ensures !Overlap(tops[i], tops[j]) {
        assert tops[i] == ops[i + 1] && tops[j] == ops[j + 1];
      }
      forall i | 0 <= i < |tops| ensures DistinctQubits(tops[i]) {
        assert tops[i] == ops[i + 1];
      }
      GroupWellFormed(tops, tidx, m);
      var rest := Group(tops, tidx, m);
      if idx[0] == m {
        assert WellFormed([ops[0]]);
        forall j | 0 <= j < |rest| ensures !Overlap([ops[0]][0], rest[j]) {
          GroupSource(tops, tidx, m, j);
          var i :| 0 <= i < |tops| && tidx[i] == m && rest[j] == tops[i];
          assert tops[i] == ops[i + 1] && idx[i + 1] == m;
        }
        ConcatWellFormed([ops[0]], rest);
      } else {
        assert Group(ops, idx, m) == [] + rest;
      }
    }
  }

  /** The distinct values of s in order of first appearance: the keys of moment_to_ops, in the
    * order the dict lists them. */
  function Dedup(s: seq<nat>): (r: seq<nat>)
    ensures forall x :: x in r <==> x in s
    ensures forall i, j :: 0 <= i < j < |r| ==> r[i] != r[j]
  {
    if s == [] then []
    else
      var d := Dedup(s[..|s| - 1]);
      assert s == s[..|s| - 1] + [s[|s| - 1]];
      if s[|s| - 1] in d then d else d + [s[|s| - 1]]
  }

  /** max(insertion_indices): the largest, and attained. */
  function MaxIndex(s: seq<nat>): (r: nat)
    requires s != []
    ensures r in s && forall x :: x in s ==> x <= r
  {
    if |s| == 1 then s[0]
    else
      var rest := MaxIndex(s[1..]);
      assert s == [s[0]] + s[1..];
      NatMax(s[0], rest)
  }

  /** The moments once enough empty ones are appended for the largest index to exist. */
  function Grown(ms: seq<Moment>, idx: seq<nat>): (r: seq<Moment>)
    requires idx != []
    ensures |r| == NatMax(|ms|, 1 + MaxIndex(idx)) && r[..|ms|] == ms
    ensures forall i :: 0 <= i < |idx| ==> idx[i] < |r|
    ensures forall j :: |ms| <= j < |r| ==> r[j] == EmptyMoment
  {
    var extra: nat := if 1 + MaxIndex(idx) > |ms| then 1 + MaxIndex(idx) - |ms| else 0;
    assert forall i :: 0 <= i < |idx| ==> idx[i] in idx;
    ms + Empties(extra)
  }

  lemma GrownStays(ms: seq<Moment>, idx: seq<nat>)
    requires idx != [] && ValidMoments(ms)
    ensures ValidMoments(Grown(ms, idx))
    ensures forall j :: 0 <= j < |ms| ==> Grown(ms, idx)[j] == ms[j]
  {
    var g := Grown(ms, idx);
    forall j | 0 <= j < |ms| ensures g[j] == ms[j] {
      assert g[..|ms|][j] == g[j];
    }
    forall j | 0 <= j < |g| ensures ValidMoment(g[j]) {
      if j >= |ms| {
        assert g[j] == EmptyMoment;
      }
    }
  }

  /** The state the loop over moment_to_ops leaves, and the error a Moment constructor raised. */
  datatype Written = Written(error: Option<Error>, moments: seq<Moment>)

  /** for moment_index, new_ops in moment_to_ops.items(), the moment indices listed in order: each
    * moment becomes its operations followed by its group; a clash raises ValueError and leaves
    * the moments written so far. */
  function WriteGroups(ms: seq<Moment>, ops: seq<Operation>, idx: seq<nat>, order: seq<nat>): (r: Written)
    requires |ops| == |idx| && forall k :: 0 <= k < |order| ==> order[k] < |ms|
    ensures |r.moments| == |ms|
    ensures r.error.Some? ==> r.error == Some(ValueError)
    decreases |order|
  {
    if order == [] then Written(None, ms)
    else
      var m := order[0];
      match MakeMoment(ms[m].operations + Group(ops, idx, m))
      case Err(e) => Written(Some(e), ms)
      case Ok(mo) => WriteGroups(ms[m := mo], ops, idx, order[1..])
  }

  /** Whatever happens, every moment stays valid. */
  lemma {:induction false} WriteGroupsValid(ms: seq<Moment>, ops: seq<Operation>, idx: seq<nat>, order: seq<nat>)
    requires |ops| == |idx| && forall k :: 0 <= k < |order| ==> order[k] < |ms|
    requires ValidMoments(ms)
    ensures ValidMoments(WriteGroups(ms, ops, idx, order).moments)
    decreases |order|
  {
    if order != [] {
      var m := order[0];
      var w := MakeMoment(ms[m].operations + Group(ops, idx, m));
      if w.Ok? {
        UpdateValid(ms, m, w.value);
        WriteGroupsValid(ms[m := w.value], ops, idx, order[1..]);
      }
    }
  }

  /** With each moment listed once, the writing succeeds exactly when every listed moment's
    * operations and group together are well formed, and then each listed moment holds its old
    * operations followed by its group and every other moment is as it was. */
  lemma {:induction false} WriteGroupsMeaning(ms: seq<Moment>, ops: seq<Operation>, idx: seq<nat>, order: seq<nat>)
    requires |ops| == |idx| && forall k :: 0 <= k < |order| ==> order[k] < |ms|
    requires forall i, j :: 0 <= i < j < |order| ==> order[i] != order[j]
    ensures var r := WriteGroups(ms, ops, idx, order);
      r.error.None? <==> forall k :: 0 <= k < |order| ==> WellFormed(ms[order[k]].operations + Group(ops, idx, order[k]))
    ensures var r := WriteGroups(ms, ops, idx, order);
      r.error.None? ==> forall j :: 0 <= j < |ms| ==>
        r.moments[j].operations == ms[j].operations + (if j in order then Group(ops, idx, j) else [])
    decreases |order|
  {
    if order == [] {
      forall j | 0 <= j < |ms| ensures ms[j].operations == ms[j].operations + [] { }
    } else {
      var m := order[0];
      var w := MakeMoment(ms[m].operations + Group(ops, idx, m));
      if w.Ok? {
        var ms' := ms[m := w.value];
        var rest := order[1..];
        forall i, j | 0 <= i < j < |rest| ensures rest[i] != rest[j] {
          assert rest[i] == order[i + 1] && rest[j] == order[j + 1];
        }
        WriteGroupsMeaning(ms', ops, idx, rest);
        forall k | 0 <= k < |rest| ensures ms'[rest[k]] == ms[rest[k]] {
          assert rest[k] == order[k + 1];
        }
        assert forall k :: 1 <= k < |order| ==> order[k] == rest[k - 1];
        var r := WriteGroups(ms', ops, idx, rest);
        if r.error.None? {
          forall j | 0 <= j < |ms|
            ensures r.moments[j].operations == ms[j].operations + (if j in order then Group(ops, idx, j) else [])
          {
            if j == m {
              assert forall k :: 0 <= k < |rest| ==> rest[k] != m;
            } else {
              assert (j in order) == (j in rest);
            }
          }
        }
      }
    }
  }

  /** _insert_operations(operations, insertion_indices): ValueError when the lengths differ, and
    * from max() when there are no indices; otherwise empty moments are appended until the largest
    * index exists and the groups are written in order of first appearance. */
  function InsertOperations(ms: seq<Moment>, ops: seq<Operation>, idx: seq<nat>): (r: Written)
    ensures |ops| != |idx| || idx == [] ==> r == Written(Some(ValueError), ms)
  {
    if |ops| != |idx| || idx == [] then Written(Some(ValueError), ms)
    else
      var g := Grown(ms, idx);
      var order := Dedup(idx);
      assert forall k :: 0 <= k < |order| ==> order[k] < |g| by {
        forall k | 0 <= k < |order| ensures order[k] < |g| {
          assert order[k] in idx;
        }
      }
      WriteGroups(g, ops, idx, order)
  }

  /** The insertion succeeds exactly when every operation's group is well formed together with the
    * moment it goes into; then every moment holds its old operations followed by the ones assigned
    * it, in input order, and the moments stay valid in every case. */
  lemma {:induction false} InsertOperationsMeaning(ms: seq<Moment>, ops: seq<Operation>, idx: seq<nat>)
    requires |ops| == |idx| && idx != [] && ValidMoments(ms)
    ensures var r, g := InsertOperations(ms, ops, idx), Grown(ms, idx);
      ValidMoments(r.moments) &&
      (r.error.None? <==> forall i :: 0 <= i < |ops| ==> WellFormed(g[idx[i]].operations + Group(ops, idx, idx[i])))
    ensures var r, g := InsertOperations(ms, ops, idx), Grown(ms, idx);
      r.error.None? ==> |r.moments| == |g| && forall j :: 0 <= j < |g| ==> r.moments[j].operations == g[j].operations + Group(ops, idx, j)
  {
    var g := Grown(ms, idx);
    var order := Dedup(idx);
    GrownStays(ms, idx);
    forall k | 0 <= k < |order| ensures order[k] < |g| {
      assert order[k] in idx;
    }
    WriteGroupsValid(g, ops, idx, order);
    WriteGroupsMeaning(g, ops, idx, order);
    var r := InsertOperations(ms, ops, idx);
    assert r == WriteGroups(g, ops, idx, order);
    forall i | 0 <= i < |ops| ensures idx[i] in order {
      assert idx[i] in idx;
    }
    if forall i :: 0 <= i < |ops| ==> WellFormed(g[idx[i]].operations + Group(ops, idx, idx[i])) {
      forall k | 0 <= k < |order| ensures WellFormed(g[order[k]].operations + Group(ops, idx, order[k])) {
        assert order[k] in idx;
        var i :| 0 <= i < |idx| && idx[i] == order[k];
      }
    }
    if r.error.None? {
      forall j | 0 <= j < |g| ensures r.moments[j].operations == g[j].operations + Group(ops, idx, j) {
        if j !in order {
          GroupEmpty(ops, idx, j);
        }
      }
    }
  }

  // ---------------------------------------------------------------------------------------------
  // insert_at_frontier

  /** q for op in operations for q in op.qubits. */
  function OpQubits(ops: seq<Operation>): (r: seq<Qubit>)
    ensures forall i, q :: 0 <= i < |ops| && q in ops[i].qubits ==> q in r
    ensures forall q :: q in r ==> exists i :: 0 <= i < |ops| && q in ops[i].qubits
  {
    if ops == [] then []
    else
      var init := ops[..|ops| - 1];
      var rest := OpQubits(init);
      assert forall i :: 0 <= i < |init| ==> init[i] == ops[i];
      rest + ops[|ops| - 1].qubits
  }

  /** The error insert_at_frontier raised, the moments it left, and the frontier it returns. */
  datatype FrontierInserted = FrontierInserted(error: Option<Error>, moments: seq<Moment>, frontier: Frontier)

  /** insert_at_frontier(operations, start, frontier) on an already flattened list: nothing to do
    * for no operations; ValueError when the frontier of a qubit the operations act on lies past
    * start, or from max() for an operation on no qubits; otherwise the operations are assigned
    * moments greedily, the moments from the next ones acting on their qubits on are pushed back
    * far enough, and the operations are written in. */
  function InsertAtFrontier(ms: seq<Moment>, ops: seq<Operation>, start: nat, f: Frontier): (r: FrontierInserted)
    ensures ops == [] ==> r == FrontierInserted(None, ms, f)
    ensures ops != [] && (exists i, q :: 0 <= i < |ops| && q in ops[i].qubits && Get(f, q) > start) ==>
      r == FrontierInserted(Some(ValueError), ms, f)
    ensures ops != [] && !HasQubits(ops, |ops|) ==> r.error == Some(ValueError)
    ensures r.error.Some? ==> r.error == Some(ValueError)
  {
    if ops == [] then FrontierInserted(None, ms, f)
    else
      var keys := OpQubits(ops);
      if exists q :: q in keys && Get(f, q) > start then FrontierInserted(Some(ValueError), ms, f)
      else
        var late := NextMoments(ms, QubitSet(keys), start);
        match PickIndices(ops, start, f)
        case Err(e) => FrontierInserted(Some(e), ms, f)
        case Ok(p) =>
          var pushed := PushFrontier(ms, p.frontier, late, keys);
          var w := InsertOperations(pushed.moments, ops, p.indices);
          FrontierInserted(w.error, w.moments, pushed.frontier)
  }

  /** No operation of moment m acts on q. */
  predicate Clear(m: Moment, q: Qubit)
  {
    forall k :: 0 <= k < |m.operations| ==> q !in m.operations[k].qubits
  }

  /** A moment index a of the pushed moments is clear of q when it lies at or after start and
    * before q's next moment l plus the n moments pushed in at cut: it is then an untouched moment
    * before cut, a pushed empty moment, or a moment from before l moved up by n. */
  lemma {:induction false} ClearSlot(ms: seq<Moment>, P: seq<Moment>, start: nat, cut: nat, n: nat, l: nat, a: nat, q: Qubit)
    requires cut <= |ms| && P == ms[..cut] + Empties(n) + ms[cut..]
    requires start <= a < l + n && l <= |ms|
    requires n > 0 ==> cut <= l && (start <= cut || cut == |ms|)
    requires forall j :: start <= j < l && j < |ms| ==> Clear(ms[j], q)
    ensures a < |P| && Clear(P[a], q)
  {
    if a < cut {
      assert P[a] == ms[a];
    } else if a < cut + n {
      assert P[a] == EmptyMoment;
    } else {
      assert P[a] == ms[a - n];
      assert start <= a - n;
    }
  }

  /** After the push, a moment index at or after start and before q's early frontier is clear of
    * q, for a qubit q the late frontier lists whose next moment acting on q the late frontier
    * records. */
  lemma PushedSlot(ms: seq<Moment>, early: Frontier, late: map<Qubit, nat>, keys: seq<Qubit>, start: nat, a: nat, q: Qubit)
    requires forall q :: q in late <==> q in keys
    requires forall q :: q in late ==> start <= late[q] <= |ms| || late[q] == |ms|
    requires q in late && start <= a < Get(early, q)
    requires forall j :: start <= j < late[q] && j < |ms| ==> Clear(ms[j], q)
    ensures var P := PushFrontier(ms, early, late, keys).moments; a < |P| && Clear(P[a], q)
  {
    var r := PushFrontier(ms, early, late, keys);
    var cut := Min(r.at, |ms|);
    if r.count > 0 {
      var q0 :| q0 in late && r.at == late[q0];
    }
    ClearSlot(ms, r.moments, start, cut, r.count, late[q], a, q);
  }

  /** Each operation's moment lies before the frontier the pick leaves for each of its qubits. */
  lemma {:induction false} PickedBefore(ops: seq<Operation>, start: int, f: Frontier, i: nat, q: Qubit)
    requires i < |ops| && HasQubits(ops, |ops|) && q in ops[i].qubits
    ensures At(ops, start, f, i) < Get(After(ops, start, f, |ops|), q)
  {
    AfterGet(ops, start, f, |ops|, q);
    PlacedBefore(ops, start, f, i, |ops|, q);
  }

  /** The operations assigned moment m fit into a valid moment clear of all their qubits, when each
    * names distinct qubits and no two of them share one. */
  lemma {:induction false} GroupFits(ops: seq<Operation>, idx: seq<nat>, mo: Moment, m: nat)
    requires |ops| == |idx| && ValidMoment(mo)
    requires forall i :: 0 <= i < |ops| ==> DistinctQubits(ops[i])
    requires forall i, j :: 0 <= i < j < |ops| && idx[i] == m && idx[j] == m ==> !Overlap(ops[i], ops[j])
    requires forall i, q :: 0 <= i < |ops| && idx[i] == m && q in ops[i].qubits ==> Clear(mo, q)
    ensures WellFormed(mo.operations + Group(ops, idx, m))
  {
    GroupWellFormed(ops, idx, m);
    var grp := Group(ops, idx, m);
    var base := mo.operations;
    forall k, j | 0 <= k < |base| && 0 <= j < |grp| ensures !Overlap(base[k], grp[j]) {
      GroupSource(ops, idx, m, j);
      var i :| 0 <= i < |ops| && idx[i] == m && grp[j] == ops[i];
      assert forall q :: q in ops[i].qubits ==> Clear(mo, q);
    }
    ConcatWellFormed(base, grp);
  }

  /** For indices at or after start that lie before the early frontier of each of their
    * operation's qubits, and a late frontier that lists every qubit the operations act on with the
    * next moment acting on it, the moment each operation is assigned is, once the frontier is
    * pushed, clear of its qubits. */
  lemma {:induction false} SlotsClear(ms: seq<Moment>, ops: seq<Operation>, idx: seq<nat>, start: nat, early: Frontier,
                                      late: map<Qubit, nat>, keys: seq<Qubit>)
    requires |idx| == |ops|
    requires forall i :: 0 <= i < |ops| ==> start <= idx[i]
    requires forall i, q :: 0 <= i < |ops| && q in ops[i].qubits ==> q in late && idx[i] < Get(early, q)
    requires forall q :: q in late <==> q in keys
    requires forall q :: q in late ==> start <= late[q] <= |ms| || late[q] == |ms|
    requires forall q, j :: q in late && start <= j < late[q] && j < |ms| ==> Clear(ms[j], q)
    ensures var P := PushFrontier(ms, early, late, keys).moments;
      forall i, q :: 0 <= i < |ops| && q in ops[i].qubits ==> idx[i] < |P| && Clear(P[idx[i]], q)
  {
    forall i, q | 0 <= i < |ops| && q in ops[i].qubits
      ensures var P := PushFrontier(ms, early, late, keys).moments; idx[i] < |P| && Clear(P[idx[i]], q)
    {
      PushedSlot(ms, early, late, keys, start, idx[i], q);
    }
  }

  /** Operations each on distinct qubits, assigned indices strictly increasing along operations
    * sharing a qubit, each into a moment of valid moments clear of its qubits, fit there together
    * with the other operations assigned the same moment. */
  lemma {:induction false} GroupsFit(ops: seq<Operation>, idx: seq<nat>, P: seq<Moment>)
    requires ValidMoments(P) && |idx| == |ops|
    requires forall i :: 0 <= i < |ops| ==> ops[i].qubits != [] && DistinctQubits(ops[i])
    requires forall i, j :: 0 <= i < j < |ops| && Overlap(ops[i], ops[j]) ==> idx[i] < idx[j]
    requires forall i, q :: 0 <= i < |ops| && q in ops[i].qubits ==> idx[i] < |P| && Clear(P[idx[i]], q)
    ensures forall i :: 0 <= i < |ops| ==> idx[i] < |P| && WellFormed(P[idx[i]].operations + Group(ops, idx, idx[i]))
  {
    forall i | 0 <= i < |ops| ensures idx[i] < |P| && WellFormed(P[idx[i]].operations + Group(ops, idx, idx[i])) {
      assert ops[i].qubits[0] in ops[i].qubits;
      GroupFits(ops, idx, P[idx[i]], idx[i]);
    }
  }

  /** With every index inside the moments and every group fitting the moment it goes into, the
    * insertion raises nothing, keeps the moments valid and their number, and leaves every moment
    * holding its old operations followed by the ones assigned it. */
  lemma {:induction false} WrittenIn(P: seq<Moment>, ops: seq<Operation>, idx: seq<nat>)
    requires ValidMoments(P) && |idx| == |ops| && idx != []
    requires forall i :: 0 <= i < |ops| ==> idx[i] < |P| && WellFormed(P[idx[i]].operations + Group(ops, idx, idx[i]))
    ensures var w := InsertOperations(P, ops, idx);
      w.error.None? && ValidMoments(w.moments) && |w.moments| == |P| &&
      (forall j :: 0 <= j < |P| ==> w.moments[j].operations == P[j].operations + Group(ops, idx, j)) &&
      forall i :: 0 <= i < |ops| ==> ops[i] in w.moments[idx[i]].operations
  {
    var g := Grown(P, idx);
    GrownStays(P, idx);
    assert |g| == |P| by {
      assert MaxIndex(idx) in idx;
    }
    InsertOperationsMeaning(P, ops, idx);
    forall i | 0 <= i < |ops| ensures ops[i] in Group(ops, idx, idx[i]) {
      GroupHas(ops, idx, i);
    }
  }

  /** No moment from start up to the next moment acting on q acts on q. */
  lemma LateClear(ms: seq<Moment>, qubits: set<Qubit>, start: nat)
    ensures var late := NextMoments(ms, qubits, start);
      forall q, j :: q in qubits && start <= j < late[q] && j < |ms| ==> Clear(ms[j], q)
  {
    var late := NextMoments(ms, qubits, start);
    forall q, j | q in qubits && start <= j < late[q] && j < |ms| ensures Clear(ms[j], q) {
      assert !HasOpAt(ms, j, {q});
      forall k | 0 <= k < |ms[j].operations| ensures q !in ms[j].operations[k].qubits {
        assert !Touches(ms[j].operations[k], {q});
      }
    }
  }

  /** What the greedy pick guarantees the later steps. */
  lemma {:induction false} PickFacts(ops: seq<Operation>, start: nat, f: Frontier)
    requires HasQubits(ops, |ops|)
    ensures var idx, early := Indices(ops, start, f, |ops|), After(ops, start, f, |ops|);
      (forall i :: 0 <= i < |ops| ==> start <= idx[i]) &&
      (forall i, j :: 0 <= i < j < |ops| && Overlap(ops[i], ops[j]) ==> idx[i] < idx[j]) &&
      (forall i, q :: 0 <= i < |ops| && q in ops[i].qubits ==> idx[i] < Get(early, q))
  {
    forall i, j | 0 <= i < j < |ops| && Overlap(ops[i], ops[j])
      ensures At(ops, start, f, i) < At(ops, start, f, j)
    {
      PickOrder(ops, start, f, i, j);
    }
    forall i, q | 0 <= i < |ops| && q in ops[i].qubits
      ensures At(ops, start, f, i) < Get(After(ops, start, f, |ops|), q)
    {
      PickedBefore(ops, start, f, i, q);
    }
  }

  /** What the pick and the next moments tell the later steps: each index lies at or after start,
    * indices increase strictly along operations sharing a qubit, each lies before the early
    * frontier of its operation's qubits, and the late frontier lists those qubits with the moments
    * up to the next one acting on each clear of it. */
  lemma {:induction false} Plan(ms: seq<Moment>, ops: seq<Operation>, start: nat, f: Frontier, keys: seq<Qubit>,
                                late: map<Qubit, nat>, idx: seq<nat>, early: Frontier)
    requires HasQubits(ops, |ops|)
    requires keys == OpQubits(ops) && late == NextMoments(ms, QubitSet(keys), start)
    requires idx == Indices(ops, start, f, |ops|) && early == After(ops, start, f, |ops|)
    ensures |idx| == |ops|
    ensures forall i :: 0 <= i < |ops| ==> start <= idx[i]
    ensures forall i, j :: 0 <= i < j < |ops| && Overlap(ops[i], ops[j]) ==> idx[i] < idx[j]
    ensures forall i, q :: 0 <= i < |ops| && q in ops[i].qubits ==> q in late && idx[i] < Get(early, q)
    ensures forall q :: q in late <==> q in keys
    ensures forall q :: q in late ==> start <= late[q] <= |ms| || late[q] == |ms|
    ensures forall q, j :: q in late && start <= j < late[q] && j < |ms| ==> Clear(ms[j], q)
  {
    PickFacts(ops, start, f);
    LateClear(ms, QubitSet(keys), start);
    forall i, q | 0 <= i < |ops| && q in ops[i].qubits ensures q in late && idx[i] < Get(early, q) {
      assert q in keys && q in QubitSet(keys);
    }
  }

  /** Pushing the frontier leaves the frontier of every qubit the late frontier lists where it was,
    * so it still lies past the moments assigned the operations on it. */
  lemma {:induction false} FrontierPast(ms: seq<Moment>, ops: seq<Operation>, idx: seq<nat>, early: Frontier,
                                        late: map<Qubit, nat>, keys: seq<Qubit>)
    requires |idx| == |ops| && forall q :: q in late <==> q in keys
    requires forall i, q :: 0 <= i < |ops| && q in ops[i].qubits ==> q in late && idx[i] < Get(early, q)
    ensures var r := PushFrontier(ms, early, late, keys);
      forall i, q :: 0 <= i < |ops| && q in ops[i].qubits ==> idx[i] < Get(r.frontier, q)
  {
    PushSeparates(ms, early, late, keys);
  }

  /** What the pick, the next moments and the push tell the insertion: every operation goes into a
    * moment of the pushed moments that is clear of its qubits, and indices increase strictly along
    * operations sharing a qubit. */
  lemma {:induction false} PlanClear(ms: seq<Moment>, ops: seq<Operation>, start: nat, f: Frontier, keys: seq<Qubit>,
                                     late: map<Qubit, nat>, idx: seq<nat>, early: Frontier)
    requires HasQubits(ops, |ops|)
    requires keys == OpQubits(ops) && late == NextMoments(ms, QubitSet(keys), start)
    requires idx == Indices(ops, start, f, |ops|) && early == After(ops, start, f, |ops|)
    ensures |idx| == |ops|
    ensures forall i, j :: 0 <= i < j < |ops| && Overlap(ops[i], ops[j]) ==> idx[i] < idx[j]
    ensures var P := PushFrontier(ms, early, late, keys).moments;
      forall i, q :: 0 <= i < |ops| && q in ops[i].qubits ==> idx[i] < |P| && Clear(P[idx[i]], q)
    ensures var r := PushFrontier(ms, early, late, keys);
      forall i, q :: 0 <= i < |ops| && q in ops[i].qubits ==> idx[i] < Get(r.frontier, q)
  {
    Plan(ms, ops, start, f, keys, late, idx, early);
    SlotsClear(ms, ops, idx, start, early, late, keys);
    FrontierPast(ms, ops, idx, early, late, keys);
  }

  /** The insertion itself, into valid moments each clear of the qubits of the operations assigned
    * it, with indices increasing strictly along operations sharing a qubit: it raises nothing,
    * keeps the moments valid and puts each operation into the moment it was assigned. */
  lemma {:induction false} WriteSucceeds(P: seq<Moment>, ops: seq<Operation>, idx: seq<nat>)
    requires ValidMoments(P) && ops != [] && |idx| == |ops|
    requires forall i :: 0 <= i < |ops| ==> ops[i].qubits != [] && DistinctQubits(ops[i])
    requires forall i, j :: 0 <= i < j < |ops| && Overlap(ops[i], ops[j]) ==> idx[i] < idx[j]
    requires forall i, q :: 0 <= i < |ops| && q in ops[i].qubits ==> idx[i] < |P| && Clear(P[idx[i]], q)
    ensures var w := InsertOperations(P, ops, idx);
      w.error.None? && ValidMoments(w.moments) &&
      forall i :: 0 <= i < |ops| ==> idx[i] < |w.moments| && ops[i] in w.moments[idx[i]].operations
  {
    GroupsFit(ops, idx, P);
    WrittenIn(P, ops, idx);
  }

  /** With the frontier checks passed, insert_at_frontier is the pick, the push of the moments
    * at the next ones acting on the operations' qubits, and the insertion. */
  lemma {:induction false} InsertAtFrontierSteps(ms: seq<Moment>, ops: seq<Operation>, start: nat, f: Frontier)
    requires ops != [] && HasQubits(ops, |ops|)
    requires forall q :: q in OpQubits(ops) ==> Get(f, q) <= start
    ensures var keys := OpQubits(ops);
      var pushed := PushFrontier(ms, After(ops, start, f, |ops|), NextMoments(ms, QubitSet(keys), start), keys);
      var w := InsertOperations(pushed.moments, ops, Indices(ops, start, f, |ops|));
      InsertAtFrontier(ms, ops, start, f) == FrontierInserted(w.error, w.moments, pushed.frontier)
  {
  }

  /** The pick, the push and the insertion together, for operations each on distinct qubits: the
    * insertion raises nothing, keeps the moments valid and puts each operation into the moment it
    * was picked for, and the pushed frontier of each of its qubits lies past that moment. */
  lemma {:induction false} StepsSucceed(ms: seq<Moment>, ops: seq<Operation>, start: nat, f: Frontier)
    requires ValidMoments(ms) && ops != []
    requires forall i :: 0 <= i < |ops| ==> ops[i].qubits != [] && DistinctQubits(ops[i])
    ensures HasQubits(ops, |ops|)
    ensures var keys := OpQubits(ops);
      var idx := Indices(ops, start, f, |ops|);
      var pushed := PushFrontier(ms, After(ops, start, f, |ops|), NextMoments(ms, QubitSet(keys), start), keys);
      var w := InsertOperations(pushed.moments, ops, idx);
      w.error.None? && ValidMoments(w.moments) &&
      forall i :: 0 <= i < |ops| ==>
        idx[i] < |w.moments| && ops[i] in w.moments[idx[i]].operations &&
        forall q :: q in ops[i].qubits ==> idx[i] < Get(pushed.frontier, q)
  {
    assert HasQubits(ops, |ops|);
    var keys := OpQubits(ops);
    var late := NextMoments(ms, QubitSet(keys), start);
    var idx := Indices(ops, start, f, |ops|);
    var early := After(ops, start, f, |ops|);
    PlanClear(ms, ops, start, f, keys, late, idx, early);
    PushKeeps(ms, early, late, keys);
    WriteSucceeds(PushFrontier(ms, early, late, keys).moments, ops, idx);
  }

  /** insert_at_frontier's contract: with a frontier no later than start on the qubits the
    * operations act on, and operations each on distinct qubits, nothing is raised, the moments stay
    * valid, each operation lands in the moment the greedy pick chose for it, and the returned
    * frontier of each of its qubits lies past that moment. */
  lemma {:induction false} InsertAtFrontierSucceeds(ms: seq<Moment>, ops: seq<Operation>, start: nat, f: Frontier)
    requires ValidMoments(ms) && ops != []
    requires forall i :: 0 <= i < |ops| ==> ops[i].qubits != [] && DistinctQubits(ops[i])
    requires forall i, q :: 0 <= i < |ops| && q in ops[i].qubits ==> Get(f, q) <= start
    ensures var r := InsertAtFrontier(ms, ops, start, f);
      r.error.None? && ValidMoments(r.moments) &&
      var idx := Indices(ops, start, f, |ops|);
      forall i :: 0 <= i < |ops| ==>
        idx[i] < |r.moments| && ops[i] in r.moments[idx[i]].operations &&
        forall q :: q in ops[i].qubits ==> idx[i] < Get(r.frontier, q)
  {
    StepsSucceed(ms, ops, start, f);
    InsertAtFrontierSteps(ms, ops, start, f);
  }
}
