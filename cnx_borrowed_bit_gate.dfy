/** CnXLinearBorrowedBitGate (cirq/ops/cnx_borrowed_bit_gate.py): an X on qubit n-2 controlled by
  * qubits 0..n-3, decomposed into CNOT and CCX gates that borrow the last qubit (and, inside each
  * half, the other half's qubits) without disturbing them. A qubit is its position in the gate's
  * qubit list. */
module CnxBorrowedBitGate {
  import opened BinaryLogic
  import opened BorrowedLadder

  /** The gate's meaning on one basis state: qubit n-2 flips when qubits 0..n-3 are all set, and
    * every other qubit, the borrowed last one included, is unchanged. */
  function CnX(s: seq<bool>): (r: seq<bool>)
    requires |s| >= 2
    ensures |r| == |s|
  {
    s[|s| - 2 := s[|s| - 2] != forall i :: 0 <= i < |s| - 2 ==> s[i]]
  }

  // ---------------------------------------------------------------------------------------------
  // _decompose_half

  /** for i in range(i, lo, -2): CCX(qs[i-2], qs[i-1], qs[i]). */
  function Down(qs: seq<nat>, i: int, lo: int): seq<BinaryOp>
    requires i < |qs| && lo >= 0 && (i - lo) % 2 == 0
    decreases i
  {
    if i <= lo then [] else [Toffoli(qs[i - 2], qs[i - 1], qs[i])] + Down(qs, i - 2, lo)
  }

  /** for i in range(i, hi, 2): CCX(qs[i-2], qs[i-1], qs[i]). */
  function Up(qs: seq<nat>, i: int, hi: int): seq<BinaryOp>
    requires i >= 2 && hi <= |qs|
    decreases hi - i
  {
    if i >= hi then [] else [Toffoli(qs[i - 2], qs[i - 1], qs[i])] + Up(qs, i + 2, hi)
  }

  /** _decompose_half(qs): on an odd list [A, B, x1, C, x2, ..., Z, T] the ladder fed by CCX(A, B,
    * x1); on an even list [A, x1, B, x2, ..., Z, T] the ladder fed by CNOT(A, x1); each run twice. */
  function DecomposeHalf(qs: seq<nat>): seq<BinaryOp>
    requires |qs| % 2 == 0 ==> |qs| >= 2
  {
    if |qs| % 2 != 0 then
      var p := Down(qs, |qs| - 1, 0) + Up(qs, 4, |qs| - 2);
      p + p
    else
      var p := Down(qs, |qs| - 1, 1) + [Cnot(qs[0], qs[1])] + Up(qs, 3, |qs| - 2);
      p + p
  }

  /** The positions of a half's list that control its target. */
  predicate IsControl(qs: seq<nat>, j: int)
  {
    0 <= j < |qs| - 1 && if |qs| % 2 == 1 then j == 0 || j % 2 == 1 else j % 2 == 0
  }

  predicate ControlsOn(s: seq<bool>, qs: seq<nat>)
    requires forall j :: 0 <= j < |qs| ==> qs[j] < |s|
  {
    forall j :: 0 <= j < |qs| && IsControl(qs, j) ==> s[qs[j]]
  }

  predicate Distinct(qs: seq<nat>) { forall i, j :: 0 <= i < j < |qs| ==> qs[i] != qs[j] }

  /** A list _decompose_half handles: distinct qubits of the register, at least four of them. */
  predicate HalfOk(qs: seq<nat>, n: nat)
  {
    |qs| >= 4 && Distinct(qs) && forall j :: 0 <= j < |qs| ==> qs[j] < n
  }

  function Offset(qs: seq<nat>): nat { if |qs| % 2 == 1 then 1 else 0 }

  function Rungs(qs: seq<nat>): nat
    requires |qs| >= 4
  {
    (|qs| - 2 - Offset(qs)) / 2
  }

  /** The half's ladder registers: its borrowed bits, then its target. */
  function HalfRegs(qs: seq<nat>): (r: seq<nat>)
    requires |qs| >= 4
    ensures |r| == Rungs(qs) + 1
  {
    seq(Rungs(qs) + 1, i requires 0 <= i <= Rungs(qs) => qs[2 * i + 1 + Offset(qs)])
  }

  function HalfCtls(qs: seq<nat>): (r: seq<nat>)
    requires |qs| >= 4
    ensures |r| == Rungs(qs)
  {
    seq(Rungs(qs), i requires 0 <= i < Rungs(qs) => qs[2 * i + 2 + Offset(qs)])
  }

  function HalfFeed(qs: seq<nat>): BinaryOp
    requires |qs| >= 4
  {
    if |qs| % 2 == 1 then Toffoli(qs[0], qs[1], qs[2]) else Cnot(qs[0], qs[1])
  }

  /** R and C are the half's registers and controls, taken every other position from 1 + o. */
  predicate LadderOf(qs: seq<nat>, R: seq<nat>, C: seq<nat>, o: nat)
  {
    o <= 1 && |R| == |C| + 1 && 2 * |C| + 2 + o == |qs| &&
    (forall i :: 0 <= i < |R| ==> R[i] == qs[2 * i + 1 + o]) &&
    (forall i :: 0 <= i < |C| ==> C[i] == qs[2 * i + 2 + o])
  }

  lemma HalfLadderOf(qs: seq<nat>)
    requires |qs| >= 4
    ensures LadderOf(qs, HalfRegs(qs), HalfCtls(qs), Offset(qs))
  {
    assert 2 * Rungs(qs) + 2 + Offset(qs) == |qs|;
  }

  /** The last gate of a downward range. */
  lemma {:induction false} DownSplit(qs: seq<nat>, i: int, lo: nat)
    requires i < |qs| && (i - lo) % 2 == 0 && i >= lo + 2
    ensures Down(qs, i, lo) == Down(qs, i, lo + 2) + [Toffoli(qs[lo], qs[lo + 1], qs[lo + 2])]
    decreases i
  {
    var last := Toffoli(qs[lo], qs[lo + 1], qs[lo + 2]);
    if i == lo + 2 {
      assert Down(qs, lo, lo) == [] && Down(qs, lo + 2, lo + 2) == [];
    } else {
      DownSplit(qs, i - 2, lo);
      var g := Toffoli(qs[i - 2], qs[i - 1], qs[i]);
      assert [g] + (Down(qs, i - 2, lo + 2) + [last]) == ([g] + Down(qs, i - 2, lo + 2)) + [last];
    }
  }

  lemma {:induction false} DownLadder(qs: seq<nat>, R: seq<nat>, C: seq<nat>, o: nat, j: nat)
    requires LadderOf(qs, R, C, o) && j <= |C|
    ensures Down(qs, 2 * j + 1 + o, 1 + o) == LadderDown(R, C, j)
  {
    if j > 0 {
      var i := 2 * j + 1 + o;
      DownLadder(qs, R, C, o, j - 1);
      assert Down(qs, i, 1 + o) == [Toffoli(qs[i - 2], qs[i - 1], qs[i])] + Down(qs, i - 2, 1 + o);
      assert Step(R, C, j - 1) == Toffoli(qs[i - 2], qs[i - 1], qs[i]);
    }
  }

  lemma {:induction false} UpLadder(qs: seq<nat>, R: seq<nat>, C: seq<nat>, o: nat, a: nat)
    requires LadderOf(qs, R, C, o) && a + 1 <= |C|
    ensures Up(qs, 2 * a + 3 + o, |qs| - 2) == LadderUp(R, C, a, |C| - 1)
    decreases |C| - a
  {
    var i := 2 * a + 3 + o;
    if a + 1 < |C| {
      UpLadder(qs, R, C, o, a + 1);
      assert Up(qs, i, |qs| - 2) == [Toffoli(qs[i - 2], qs[i - 1], qs[i])] + Up(qs, i + 2, |qs| - 2);
      assert Step(R, C, a) == Toffoli(qs[i - 2], qs[i - 1], qs[i]);
    } else {
      assert Up(qs, i, |qs| - 2) == [];
    }
  }

  lemma PassOfOddHalf(qs: seq<nat>, R: seq<nat>, C: seq<nat>)
    requires LadderOf(qs, R, C, 1) && |C| >= 1
    ensures var p := Pass(R, C, Toffoli(qs[0], qs[1], qs[2])); DecomposeHalf(qs) == p + p
  {
    var d, u := Down(qs, |qs| - 1, 0), Up(qs, 4, |qs| - 2);
    assert |qs| % 2 == 1;
    assert DecomposeHalf(qs) == (d + u) + (d + u);
    OddHalfPieces(qs, R, C);
  }

  lemma OddHalfPieces(qs: seq<nat>, R: seq<nat>, C: seq<nat>)
    requires LadderOf(qs, R, C, 1) && |C| >= 1
    ensures Down(qs, |qs| - 1, 0) == LadderDown(R, C, |C|) + [Toffoli(qs[0], qs[1], qs[2])]
    ensures Up(qs, 4, |qs| - 2) == LadderUp(R, C, 0, |C| - 1)
  {
    DownLadder(qs, R, C, 1, |C|);
    DownSplit(qs, |qs| - 1, 0);
    UpLadder(qs, R, C, 1, 0);
  }

  lemma PassOfEvenHalf(qs: seq<nat>, R: seq<nat>, C: seq<nat>)
    requires LadderOf(qs, R, C, 0) && |C| >= 1
    ensures var p := Pass(R, C, Cnot(qs[0], qs[1])); DecomposeHalf(qs) == p + p
  {
    var F := Cnot(qs[0], qs[1]);
    var d, u := Down(qs, |qs| - 1, 1), Up(qs, 3, |qs| - 2);
    assert |qs| % 2 == 0;
    assert DecomposeHalf(qs) == (d + [F] + u) + (d + [F] + u);
    DownLadder(qs, R, C, 0, |C|);
    assert d == LadderDown(R, C, |C|);
    UpLadder(qs, R, C, 0, 0);
    assert u == LadderUp(R, C, 0, |C| - 1);
  }

  /** _decompose_half is two passes of its ladder. */
  lemma HalfIsLadder(qs: seq<nat>)
    requires |qs| >= 4
    ensures var p := Pass(HalfRegs(qs), HalfCtls(qs), HalfFeed(qs)); DecomposeHalf(qs) == p + p
  {
    HalfLadderOf(qs);
    if |qs| % 2 == 1 {
      PassOfOddHalf(qs, HalfRegs(qs), HalfCtls(qs));
    } else {
      PassOfEvenHalf(qs, HalfRegs(qs), HalfCtls(qs));
    }
  }

  lemma HalfLayout(qs: seq<nat>, n: nat)
    requires HalfOk(qs, n)
    ensures Layout(HalfRegs(qs), HalfCtls(qs), n) && FeedOk(HalfFeed(qs), HalfRegs(qs), n) && |HalfCtls(qs)| >= 1
  {
    var R, C, o := HalfRegs(qs), HalfCtls(qs), Offset(qs);
    forall i, j | 0 <= i < j < |R| ensures R[i] != R[j] {
      assert R[i] == qs[2 * i + 1 + o] && R[j] == qs[2 * j + 1 + o];
    }
  }

  /** The half's controls all set make the ladder's feed and controls all set. */
  lemma HalfControlsIf(qs: seq<nat>, s: seq<bool>)
    requires HalfOk(qs, |s|) && ControlsOn(s, qs)
    ensures Prefix(ValuesAt(s, HalfCtls(qs)), FeedValue(HalfFeed(qs), s), Rungs(qs))
  {
    var C, o, K := HalfCtls(qs), Offset(qs), Rungs(qs);
    var c := ValuesAt(s, C);
    PrefixMeaning(c, FeedValue(HalfFeed(qs), s), K);
    forall i | 0 <= i < K ensures c[i] {
      assert IsControl(qs, 2 * i + 2 + o);
    }
    assert IsControl(qs, 0);
    if o == 1 {
      assert IsControl(qs, 1);
    }
  }

  /** ... and conversely. */
  lemma HalfControlsOnlyIf(qs: seq<nat>, s: seq<bool>)
    requires HalfOk(qs, |s|) && Prefix(ValuesAt(s, HalfCtls(qs)), FeedValue(HalfFeed(qs), s), Rungs(qs))
    ensures ControlsOn(s, qs)
  {
    var C, o, K := HalfCtls(qs), Offset(qs), Rungs(qs);
    var c := ValuesAt(s, C);
    PrefixMeaning(c, FeedValue(HalfFeed(qs), s), K);
    forall j | 0 <= j < |qs| && IsControl(qs, j) ensures s[qs[j]] {
      if j >= 2 + o {
        var i := (j - 2 - o) / 2;
        assert 2 * i == j - 2 - o;
        assert 0 <= i < K && C[i] == qs[j];
        assert c[i];
      } else if j == 1 {
        assert o == 1;
      }
    }
  }

  /** _decompose_half flips its last qubit exactly when its controls are all set, and leaves
    * every other qubit, its borrowed bits included, unchanged. */
  lemma HalfFlips(qs: seq<nat>, s: seq<bool>)
    requires HalfOk(qs, |s|)
    ensures AllFit(DecomposeHalf(qs), |s|)
    ensures Run(DecomposeHalf(qs), s) == s[qs[|qs| - 1] := s[qs[|qs| - 1]] != ControlsOn(s, qs)]
  {
    var R, C, F := HalfRegs(qs), HalfCtls(qs), HalfFeed(qs);
    HalfIsLadder(qs);
    HalfLayout(qs, |s|);
    LadderTwice(R, C, F, s);
    if ControlsOn(s, qs) {
      HalfControlsIf(qs, s);
    } else if Prefix(ValuesAt(s, C), FeedValue(F, s), Rungs(qs)) {
      HalfControlsOnlyIf(qs, s);
    }
    assert R[|C|] == qs[|qs| - 1];
  }

  // ---------------------------------------------------------------------------------------------
  // The index list of _decompose for an even number of qubits

  /** Element j of the list [1, 3, 0, 5, 2, 7, 4, ...]. */
  function ShiftIndex(j: nat): (r: nat)
    ensures r + 2 >= j
  {
    if j == 0 then 1 else if j == 1 then 3 else if j % 2 == 0 then j - 2 else j + 2
  }

  /** Every element from the fourth on is the one two places before it plus 2. */
  lemma ShiftStep(j: nat)
    requires j >= 3
    ensures ShiftIndex(j) == ShiftIndex(j - 2) + 2
  {
  }

  predicate Shifted(l: seq<nat>)
  {
    forall j :: 0 <= j < |l| ==> l[j] == ShiftIndex(j)
  }

  /** The length at which the loop stops: the first length whose next element would exceed n-2. */
  function StopLength(len: nat, n: int): (r: nat)
    requires len >= 3
    ensures r >= len
    decreases n + 3 - len
  {
    if ShiftIndex(len) > n - 2 then len else StopLength(len + 1, n)
  }

  /** The list l that _decompose builds. */
  function IndexList(n: int): (r: seq<nat>)
    ensures |r| == StopLength(3, n) && Shifted(r)
  {
    seq(StopLength(3, n), j requires 0 <= j => ShiftIndex(j))
  }

  lemma {:induction false} StopLengthPast(len: nat, n: int, j: nat)
    requires 3 <= len <= j < StopLength(len, n)
    ensures ShiftIndex(j) <= n - 2
    decreases n + 3 - len
  {
    if len < j {
      StopLengthPast(len + 1, n, j);
    }
  }

  lemma {:induction false} StopLengthStops(len: nat, n: int)
    requires len >= 3
    ensures ShiftIndex(StopLength(len, n)) > n - 2
    decreases n + 3 - len
  {
    if ShiftIndex(len) <= n - 2 {
      StopLengthStops(len + 1, n);
    }
  }

  /** The list starts [1, 3, 0]; every later element is the one two places before it plus 2 and is
    * at most n-2; the element after the last would exceed n-2. */
  lemma IndexListShape(n: int)
    ensures var l := IndexList(n);
      l[..3] == [1, 3, 0] &&
      (forall j :: 3 <= j < |l| ==> l[j] == l[j - 2] + 2 && l[j] <= n - 2) &&
      l[|l| - 2] + 2 > n - 2
  {
    var l := IndexList(n);
    forall j | 3 <= j < |l| ensures l[j] == l[j - 2] + 2 && l[j] <= n - 2 {
      ShiftStep(j);
      StopLengthPast(3, n, j);
    }
    StopLengthStops(3, n);
    ShiftStep(|l|);
    assert l[0] == 1 && l[1] == 3 && l[2] == 0;
  }

  /** l = [1, 3, 0]; while True: stop once l[-2] + 2 > n - 2, else append l[-2] + 2. */
  method ShiftedIndices(n: int) returns (l: seq<nat>)
    ensures l == IndexList(n)
  {
    l := [1, 3, 0];
    while true
      invariant 3 <= |l| <= StopLength(3, n) && Shifted(l) && StopLength(|l|, n) == StopLength(3, n)
      decreases n + 3 - |l|
    {
      ShiftStep(|l|);
      if l[|l| - 2] + 2 > n - 2 {
        break;
      }
      l := l + [l[|l| - 2] + 2];
    }
    assert |l| == StopLength(3, n);
  }

  /** For an even number n >= 6 of qubits the list has n-3 elements. */
  lemma {:induction false} StopLengthEven(len: nat, n: nat)
    requires n >= 6 && n % 2 == 0 && 3 <= len <= n - 3
    ensures StopLength(len, n) == n - 3
    decreases n - len
  {
    if len < n - 3 {
      StopLengthEven(len + 1, n);
    }
  }

  // ---------------------------------------------------------------------------------------------
  // default_decompose and _decompose

  function Range(lo: nat, hi: nat): (r: seq<nat>)
    ensures |r| == if lo <= hi then hi - lo else 0
    ensures forall i :: 0 <= i < |r| ==> r[i] == lo + i
    decreases hi - lo
  {
    if lo >= hi then [] else [lo] + Range(lo + 1, hi)
  }

  /** The two lists _decompose hands to _decompose_half. */
  function FirstHalf(n: nat): seq<nat>
    requires n >= 6
  {
    if n % 2 == 0 then Range(0, n - 3) + [n - 1] else [0] + Range(2, n - 2) + [n - 1]
  }

  function SecondHalf(n: nat): seq<nat>
    requires n >= 6
  {
    if n % 2 == 0 then IndexList(n) + [n - 1, n - 2] else [1] + Range(3, n - 2) + [n - 1, n - 2]
  }

  /** _decompose(qubits). */
  function Halves(n: nat): seq<BinaryOp>
    requires n >= 6
  {
    var h1, h2 := DecomposeHalf(FirstHalf(n)), DecomposeHalf(SecondHalf(n));
    h1 + h2 + h1 + h2
  }

  /** default_decompose(qubits) on qubits 0..n-1: q(n-2) is the target and q(n-1) is borrowed. */
  function Decompose(n: nat): seq<BinaryOp>
    requires n >= 3
  {
    if n == 4 then [Toffoli(0, 1, 2)]
    else if n == 3 then [Cnot(0, 1)]
    else if n == 5 then FiveGates
    else Halves(n)
  }

  /** The circuit default_decompose gives for five qubits. */
  const FiveGates: seq<BinaryOp> := [Toffoli(0, 1, 4), Toffoli(2, 4, 3), Toffoli(0, 1, 4), Toffoli(2, 4, 3)]

  // ---------------------------------------------------------------------------------------------
  // Correctness

  /** Controls of the second half other than the first half's target. */
  predicate OthersOn(s: seq<bool>, qs: seq<nat>, y: nat)
    requires forall j :: 0 <= j < |qs| ==> qs[j] < |s|
  {
    forall j :: 0 <= j < |qs| && IsControl(qs, j) && qs[j] != y ==> s[qs[j]]
  }

  /** Changing a qubit that is not a control of a half leaves its controls as they were. */
  lemma ControlsAway(qs: seq<nat>, s: seq<bool>, k: nat, v: bool)
    requires (forall j :: 0 <= j < |qs| ==> qs[j] < |s|) && k < |s|
    requires forall j :: 0 <= j < |qs| && IsControl(qs, j) ==> qs[j] != k
    ensures ControlsOn(s[k := v], qs) == ControlsOn(s, qs)
  {
  }

  lemma OthersAway(qs: seq<nat>, s: seq<bool>, y: nat, k: nat, v: bool)
    requires (forall j :: 0 <= j < |qs| ==> qs[j] < |s|) && k < |s|
    requires forall j :: 0 <= j < |qs| && IsControl(qs, j) && qs[j] != y ==> qs[j] != k
    ensures OthersOn(s[k := v], qs, y) == OthersOn(s, qs, y)
  {
  }

  lemma ControlsSplit(qs: seq<nat>, s: seq<bool>, y: nat, j0: nat)
    requires forall j :: 0 <= j < |qs| ==> qs[j] < |s|
    requires j0 < |qs| && IsControl(qs, j0) && qs[j0] == y
    ensures ControlsOn(s, qs) == (OthersOn(s, qs, y) && s[y])
  {
  }

  lemma RunFour(h1: seq<BinaryOp>, h2: seq<BinaryOp>, s: seq<bool>)
    requires AllFit(h1, |s|) && AllFit(h2, |s|)
    ensures AllFit(h1 + h2 + h1 + h2, |s|)
    ensures Run(h1 + h2 + h1 + h2, s) == Run(h2, Run(h1, Run(h2, Run(h1, s))))
  {
    RunAppend(h1, h2, s);
    RunAppend(h1 + h2, h1, s);
    RunAppend(h1 + h2 + h1, h2, s);
  }

  /** Two halves: the first flips the second's control y by its own controls, then the second
    * flips the target t by its other controls and the new y. */
  lemma PairStep(a: seq<nat>, b: seq<nat>, u: seq<bool>, j0: nat)
    requires HalfOk(a, |u|) && HalfOk(b, |u|)
    requires a[|a| - 1] != b[|b| - 1] && b[|b| - 1] !in a
    requires j0 < |b| && IsControl(b, j0) && b[j0] == a[|a| - 1]
    ensures AllFit(DecomposeHalf(a), |u|) && AllFit(DecomposeHalf(b), |u|)
    ensures var y, t := a[|a| - 1], b[|b| - 1];
      var fy := u[y] != ControlsOn(u, a);
      Run(DecomposeHalf(b), Run(DecomposeHalf(a), u)) == u[y := fy][t := u[t] != (OthersOn(u, b, y) && fy)]
  {
    var y, t := a[|a| - 1], b[|b| - 1];
    var fy := u[y] != ControlsOn(u, a);
    HalfFlips(a, u);
    var u1 := Run(DecomposeHalf(a), u);
    assert u1 == u[y := fy];
    ControlsSplit(b, u1, y, j0);
    OthersAway(b, u, y, y, fy);
    HalfFlips(b, u1);
  }

  /** Four halves: the target t flips by the first's controls and the second's other controls;
    * everything else, y included, ends as it started. */
  lemma FourHalves(a: seq<nat>, b: seq<nat>, s: seq<bool>, j0: nat)
    requires HalfOk(a, |s|) && HalfOk(b, |s|)
    requires a[|a| - 1] != b[|b| - 1] && b[|b| - 1] !in a
    requires j0 < |b| && IsControl(b, j0) && b[j0] == a[|a| - 1]
    ensures var h1, h2 := DecomposeHalf(a), DecomposeHalf(b);
      AllFit(h1 + h2 + h1 + h2, |s|) &&
      Run(h1 + h2 + h1 + h2, s) == s[b[|b| - 1] := s[b[|b| - 1]] != (ControlsOn(s, a) && OthersOn(s, b, a[|a| - 1]))]
  {
    var h1, h2 := DecomposeHalf(a), DecomposeHalf(b);
    var y, t := a[|a| - 1], b[|b| - 1];
    var ca, ob := ControlsOn(s, a), OthersOn(s, b, y);
    PairStep(a, b, s, j0);
    var fy := s[y] != ca;
    var c1 := ob && fy;
    var v := s[y := fy][t := s[t] != c1];
    assert ControlsOn(v, a) == ca by {
      ControlsAway(a, s, y, fy);
      ControlsAway(a, s[y := fy], t, s[t] != c1);
    }
    assert OthersOn(v, b, y) == ob by {
      OthersAway(b, s, y, y, fy);
      OthersAway(b, s[y := fy], y, t, s[t] != c1);
    }
    PairStep(a, b, v, j0);
    FourStates(s, y, t, ca, ob);
    RunFour(h1, h2, s);
  }

  /** The state algebra of FourHalves: y is flipped twice by the same value, and t picks up
    * ob && (y != ca) and then ob && y, whose difference is ca && ob. */
  lemma FourStates(s: seq<bool>, y: nat, t: nat, ca: bool, ob: bool)
    requires y < |s| && t < |s| && y != t
    ensures var fy := s[y] != ca;
      var v := s[y := fy][t := s[t] != (ob && fy)];
      v[y := v[y] != ca][t := v[t] != (ob && (v[y] != ca))] == s[t := s[t] != (ca && ob)]
  {
  }

  lemma IndexListEven(n: nat)
    requires n >= 6 && n % 2 == 0
    ensures |IndexList(n)| == n - 3
  {
    StopLengthEven(3, n);
  }

  /** The values ShiftIndex takes below n-3 are distinct and at most n-3. */
  lemma ShiftValues(n: nat, i: nat, j: nat)
    requires n >= 6 && n % 2 == 0 && i < j < n - 3
    ensures ShiftIndex(i) != ShiftIndex(j) && ShiftIndex(j) <= n - 3
  {
  }

  /** The two lists for an even n: [0, 1, ..., n-4, n-1] and [1, 3, 0, 5, 2, ..., n-1, n-2]. */
  predicate EvenShape(n: nat, a: seq<nat>, b: seq<nat>)
    requires n >= 6
  {
    |a| == n - 2 && (forall j :: 0 <= j < n - 3 ==> a[j] == j) && a[n - 3] == n - 1 &&
    |b| == n - 1 && (forall j :: 0 <= j < n - 3 ==> b[j] == ShiftIndex(j)) &&
    b[n - 3] == n - 1 && b[n - 2] == n - 2
  }

  /** The two lists for an odd n: [0, 2, 3, ..., n-3, n-1] and [1, 3, 4, ..., n-3, n-1, n-2]. */
  predicate OddShape(n: nat, a: seq<nat>, b: seq<nat>)
    requires n >= 5
  {
    |a| == n - 2 && a[0] == 0 && (forall j :: 1 <= j <= n - 4 ==> a[j] == j + 1) && a[n - 3] == n - 1 &&
    |b| == n - 2 && b[0] == 1 && (forall j :: 1 <= j <= n - 5 ==> b[j] == j + 2) &&
    b[n - 4] == n - 1 && b[n - 3] == n - 2
  }

  lemma HalvesShapeEven(n: nat)
    requires n >= 6 && n % 2 == 0
    ensures EvenShape(n, FirstHalf(n), SecondHalf(n))
  {
    IndexListEven(n);
  }

  lemma HalvesShapeOdd(n: nat)
    requires n >= 7 && n % 2 == 1
    ensures OddShape(n, FirstHalf(n), SecondHalf(n))
  {
  }

  /** The properties FourHalves needs of the two lists. */
  predicate PairOk(n: nat, a: seq<nat>, b: seq<nat>)
  {
    HalfOk(a, n) && HalfOk(b, n) && a[|a| - 1] == n - 1 && b[|b| - 2] == n - 1 && b[|b| - 1] == n - 2 &&
    n - 2 !in a && IsControl(b, |b| - 2)
  }

  lemma EvenPairOk(n: nat, a: seq<nat>, b: seq<nat>)
    requires n >= 6 && n % 2 == 0 && EvenShape(n, a, b)
    ensures PairOk(n, a, b)
  {
    assert Distinct(b) by {
      forall i, j | 0 <= i < j < |b| ensures b[i] != b[j] {
        if j < n - 3 {
          ShiftValues(n, i, j);
        } else if i < n - 3 {
          if i > 0 {
            ShiftValues(n, i - 1, i);
          } else {
            assert b[0] == 1;
          }
        }
      }
    }
    assert forall j :: 0 <= j < |b| ==> b[j] < n by {
      forall j | 0 <= j < n - 3 ensures b[j] < n {
        if j > 0 {
          ShiftValues(n, j - 1, j);
        }
      }
    }
    assert Distinct(a);
  }

  lemma OddPairOk(n: nat, a: seq<nat>, b: seq<nat>)
    requires n >= 7 && n % 2 == 1 && OddShape(n, a, b)
    ensures PairOk(n, a, b)
  {
    assert Distinct(a) && Distinct(b);
  }

  /** For n >= 6 both lists are valid halves that fit together as FourHalves needs. */
  lemma HalvesOk(n: nat)
    requires n >= 6
    ensures PairOk(n, FirstHalf(n), SecondHalf(n))
  {
    if n % 2 == 0 {
      HalvesShapeEven(n);
      EvenPairOk(n, FirstHalf(n), SecondHalf(n));
    } else {
      HalvesShapeOdd(n);
      OddPairOk(n, FirstHalf(n), SecondHalf(n));
    }
  }

  /** For n >= 6 the first list's controls with the second list's other controls are 0..n-3. */
  lemma HalvesCover(n: nat, s: seq<bool>)
    requires n >= 6 && |s| == n
    ensures PairOk(n, FirstHalf(n), SecondHalf(n))
    ensures (ControlsOn(s, FirstHalf(n)) && OthersOn(s, SecondHalf(n), n - 1)) <==> forall i :: 0 <= i < n - 2 ==> s[i]
  {
    var a, b := FirstHalf(n), SecondHalf(n);
    HalvesOk(n);
    if n % 2 == 0 {
      HalvesShapeEven(n);
      EvenCoverIf(n, a, b, s);
      EvenCoverOnlyIf(n, a, b, s);
    } else {
      HalvesShapeOdd(n);
      OddCoverIf(n, a, b, s);
      OddCoverOnlyIf(n, a, b, s);
    }
  }

  lemma EvenCoverIf(n: nat, a: seq<nat>, b: seq<nat>, s: seq<bool>)
    requires n >= 6 && n % 2 == 0 && |s| == n && EvenShape(n, a, b) && PairOk(n, a, b)
    ensures (forall i :: 0 <= i < n - 2 ==> s[i]) ==> ControlsOn(s, a) && OthersOn(s, b, n - 1)
  {
    if forall i :: 0 <= i < n - 2 ==> s[i] {
      forall j | 0 <= j < |b| && IsControl(b, j) && b[j] != n - 1 ensures s[b[j]] {
        if j > 0 {
          ShiftValues(n, j - 1, j);
        }
      }
    }
  }

  lemma OddCoverIf(n: nat, a: seq<nat>, b: seq<nat>, s: seq<bool>)
    requires n >= 7 && n % 2 == 1 && |s| == n && OddShape(n, a, b) && PairOk(n, a, b)
    ensures (forall i :: 0 <= i < n - 2 ==> s[i]) ==> ControlsOn(s, a) && OthersOn(s, b, n - 1)
  {
  }

  lemma EvenCoverOnlyIf(n: nat, a: seq<nat>, b: seq<nat>, s: seq<bool>)
    requires n >= 6 && n % 2 == 0 && |s| == n && EvenShape(n, a, b) && PairOk(n, a, b)
    ensures ControlsOn(s, a) && OthersOn(s, b, n - 1) ==> forall i :: 0 <= i < n - 2 ==> s[i]
  {
    if ControlsOn(s, a) && OthersOn(s, b, n - 1) {
      forall i | 0 <= i < n - 2 ensures s[i] {
        if i % 2 == 0 {
          assert IsControl(a, i) && a[i] == i;
        } else if i == 1 {
          assert IsControl(b, 0) && b[0] == 1;
        } else if i == 3 {
          assert IsControl(b, 1) && b[1] == 3;
        } else {
          assert IsControl(b, i - 2) && b[i - 2] == i;
        }
      }
    }
  }

  lemma OddCoverOnlyIf(n: nat, a: seq<nat>, b: seq<nat>, s: seq<bool>)
    requires n >= 7 && n % 2 == 1 && |s| == n && OddShape(n, a, b) && PairOk(n, a, b)
    ensures ControlsOn(s, a) && OthersOn(s, b, n - 1) ==> forall i :: 0 <= i < n - 2 ==> s[i]
  {
    if ControlsOn(s, a) && OthersOn(s, b, n - 1) {
      forall i | 0 <= i < n - 2 ensures s[i] {
        if i == 0 {
          assert IsControl(a, 0) && a[0] == 0;
        } else if i % 2 == 0 {
          assert IsControl(a, i - 1) && a[i - 1] == i;
        } else if i == 1 {
          assert IsControl(b, 0) && b[0] == 1;
        } else {
          assert IsControl(b, i - 2) && b[i - 2] == i;
        }
      }
    }
  }

  /** Two lists that fit together and whose controls cover 0..n-3 make the four halves a CnX. */
  lemma PairIsCnX(n: nat, a: seq<nat>, b: seq<nat>, s: seq<bool>)
    requires n >= 6 && |s| == n && PairOk(n, a, b)
    requires (ControlsOn(s, a) && OthersOn(s, b, n - 1)) <==> forall i :: 0 <= i < n - 2 ==> s[i]
    ensures var h1, h2 := DecomposeHalf(a), DecomposeHalf(b);
      AllFit(h1 + h2 + h1 + h2, n) && Run(h1 + h2 + h1 + h2, s) == CnX(s)
  {
    FourHalves(a, b, s, |b| - 2);
  }

  /** _decompose implements CnX for n >= 6 qubits. */
  lemma HalvesIsCnX(n: nat, s: seq<bool>)
    requires n >= 6 && |s| == n
    ensures AllFit(Halves(n), n) && Run(Halves(n), s) == CnX(s)
  {
    HalvesCover(n, s);
    PairIsCnX(n, FirstHalf(n), SecondHalf(n), s);
  }

  /** The 5-qubit circuit CCX(0,1,4) CCX(2,4,3) CCX(0,1,4) CCX(2,4,3) on one basis state. */
  lemma FiveValue(s: seq<bool>)
    requires |s| == 5
    ensures var t1, t2 := Toffoli(0, 1, 4), Toffoli(2, 4, 3);
      Apply(t2, Apply(t1, Apply(t2, Apply(t1, s)))) == CnX(s)
  {
    assert (forall i :: 0 <= i < 3 ==> s[i]) == (s[0] && s[1] && s[2]);
  }

  lemma FiveIsCnX(s: seq<bool>)
    requires |s| == 5
    ensures AllFit(FiveGates, 5) && Run(FiveGates, s) == CnX(s)
  {
    var t1, t2 := Toffoli(0, 1, 4), Toffoli(2, 4, 3);
    var u1 := Apply(t1, s);
    var u2 := Apply(t2, u1);
    var u3 := Apply(t1, u2);
    RunCons(t2, [], u3);
    assert [t2] + [] == [t2];
    RunCons(t1, [t2], u2);
    assert [t1] + [t2] == [t1, t2];
    RunCons(t2, [t1, t2], u1);
    assert [t2] + [t1, t2] == [t2, t1, t2];
    RunCons(t1, [t2, t1, t2], s);
    assert [t1] + [t2, t1, t2] == FiveGates;
    FiveValue(s);
  }

  /** The decomposition implements CnX on every basis state, for every number n >= 3 of qubits. */
  lemma DecomposeIsCnX(n: nat, s: seq<bool>)
    requires n >= 3 && |s| == n
    ensures AllFit(Decompose(n), n)
    ensures Run(Decompose(n), s) == CnX(s)
  {
    if n == 3 {
      assert [Cnot(0, 1)][1..] == [];
      assert (forall i :: 0 <= i < 1 ==> s[i]) == s[0];
    } else if n == 4 {
      assert [Toffoli(0, 1, 2)][1..] == [];
      assert (forall i :: 0 <= i < 2 ==> s[i]) == (s[0] && s[1]);
    } else if n == 5 {
      FiveIsCnX(s);
    } else {
      HalvesIsCnX(n, s);
    }
  }

  /** inverse returns the gate itself: the decomposition undoes itself on every basis state. */
  lemma SelfInverse(n: nat, s: seq<bool>)
    requires n >= 3 && |s| == n
    ensures AllFit(Decompose(n), n)
    ensures Run(Decompose(n), Run(Decompose(n), s)) == s
  {
    DecomposeIsCnX(n, s);
    var u := Run(Decompose(n), s);
    DecomposeIsCnX(n, u);
    CnXTwice(s);
  }

  lemma CnXTwice(s: seq<bool>)
    requires |s| >= 2
    ensures CnX(CnX(s)) == s
  {
    assert forall i :: 0 <= i < |s| - 2 ==> CnX(s)[i] == s[i];
  }
}
