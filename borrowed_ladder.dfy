/** The Toffoli ladder behind the borrowed-bit constructions of cnx_borrowed_bit_gate.py: registers
  * R[0..K] (borrowed bits, then the target R[K]), controls C[0..K-1], and a feed gate that flips
  * R[0] by a value of qubits outside the ladder. Step j flips R[j+1] when R[j] and C[j] are set.
  * A pass runs the steps downwards, the feed, then the inner steps upwards; two passes flip the
  * target by the feed value and all the controls and leave every borrowed bit as it was. */
module BorrowedLadder {
  import opened BinaryLogic

  // ---------------------------------------------------------------------------------------------
  // The ladder on register values

  function StepV(v: seq<bool>, c: seq<bool>, j: nat): (r: seq<bool>)
    requires j + 1 < |v| && j < |c|
    ensures |r| == |v|
  {
    v[j + 1 := v[j + 1] != (v[j] && c[j])]
  }

  /** Steps j-1 down to 0. */
  function DownV(v: seq<bool>, c: seq<bool>, j: nat): (r: seq<bool>)
    requires j < |v| && j <= |c|
    ensures |r| == |v|
    decreases j
  {
    if j == 0 then v else DownV(StepV(v, c, j - 1), c, j - 1)
  }

  /** Steps a up to b-1. */
  function UpV(v: seq<bool>, c: seq<bool>, a: nat, b: nat): (r: seq<bool>)
    requires b < |v| && b <= |c|
    ensures |r| == |v|
    decreases b - a
  {
    if a >= b then v else UpV(StepV(v, c, a), c, a + 1, b)
  }

  /** The feed value and the first i controls, all set. */
  function Prefix(c: seq<bool>, f: bool, i: nat): bool
    requires i <= |c|
  {
    if i == 0 then f else Prefix(c, f, i - 1) && c[i - 1]
  }

  lemma {:induction false} PrefixMeaning(c: seq<bool>, f: bool, i: nat)
    requires i <= |c|
    ensures Prefix(c, f, i) <==> f && forall j :: 0 <= j < i ==> c[j]
  {
    if i > 0 {
      PrefixMeaning(c, f, i - 1);
    }
  }

  /** One pass on register values: the steps down, the feed, the inner steps up. */
  function PassV(v: seq<bool>, c: seq<bool>, f: bool): (r: seq<bool>)
    requires |v| == |c| + 1 && |c| >= 1
    ensures |r| == |v|
  {
    var d := DownV(v, c, |c|);
    UpV(d[0 := d[0] != f], c, 0, |c| - 1)
  }

  /** Going down, each step reads registers the later steps have not touched yet. */
  lemma {:induction false} DownVMeaning(v: seq<bool>, c: seq<bool>, j: nat)
    requires j < |v| && j <= |c|
    ensures forall i {:trigger DownV(v, c, j)[i]} :: 0 <= i < |v| ==>
              DownV(v, c, j)[i] == if 1 <= i <= j then v[i] != (v[i - 1] && c[i - 1]) else v[i]
    decreases j
  {
    if j > 0 {
      DownVMeaning(StepV(v, c, j - 1), c, j - 1);
    }
  }

  /** Going up after the feed, each inner register ends flipped by its prefix of controls. */
  lemma {:induction false} UpVMeaning(v: seq<bool>, c: seq<bool>, f: bool, w: seq<bool>, a: nat)
    requires |v| == |c| + 1 && |c| >= 1 && |w| == |v| && a <= |c| - 1
    requires forall i :: 0 <= i <= a ==> w[i] == (v[i] != Prefix(c, f, i))
    requires forall i :: a < i < |v| ==> w[i] == (v[i] != (v[i - 1] && c[i - 1]))
    ensures forall i :: 0 <= i < |c| ==> UpV(w, c, a, |c| - 1)[i] == (v[i] != Prefix(c, f, i))
    ensures UpV(w, c, a, |c| - 1)[|c|] == (v[|c|] != (v[|c| - 1] && c[|c| - 1]))
    decreases |c| - 1 - a
  {
    if a < |c| - 1 {
      var w' := StepV(w, c, a);
      assert w'[a + 1] == (v[a + 1] != Prefix(c, f, a + 1));
      UpVMeaning(v, c, f, w', a + 1);
    }
  }

  /** After one pass: every borrowed register is flipped by its prefix of controls, and the
    * target by its left neighbour's old value and its own control. */
  lemma PassVMeaning(v: seq<bool>, c: seq<bool>, f: bool)
    requires |v| == |c| + 1 && |c| >= 1
    ensures forall i :: 0 <= i < |c| ==> PassV(v, c, f)[i] == (v[i] != Prefix(c, f, i))
    ensures PassV(v, c, f)[|c|] == (v[|c|] != (v[|c| - 1] && c[|c| - 1]))
  {
    var d := DownV(v, c, |c|);
    DownVMeaning(v, c, |c|);
    assert d[0] == v[0];
    var w := d[0 := d[0] != f];
    assert w[0] == (v[0] != Prefix(c, f, 0));
    forall i | 0 < i < |v| ensures w[i] == (v[i] != (v[i - 1] && c[i - 1])) {
      assert w[i] == d[i];
    }
    UpVMeaning(v, c, f, w, 0);
  }

  /** Two passes restore every borrowed register and flip the target by the feed value and all the
    * controls. */
  lemma PassTwice(v: seq<bool>, c: seq<bool>, f: bool)
    requires |v| == |c| + 1 && |c| >= 1
    ensures PassV(PassV(v, c, f), c, f) == v[|c| := v[|c|] != Prefix(c, f, |c|)]
  {
    var w := PassV(v, c, f);
    PassVMeaning(v, c, f);
    PassVMeaning(w, c, f);
  }

  // ---------------------------------------------------------------------------------------------
  // The ladder as gates

  function Step(R: seq<nat>, C: seq<nat>, j: nat): BinaryOp
    requires j + 1 < |R| && j < |C|
  {
    Toffoli(R[j], C[j], R[j + 1])
  }

  function LadderDown(R: seq<nat>, C: seq<nat>, j: nat): seq<BinaryOp>
    requires j < |R| && j <= |C|
    decreases j
  {
    if j == 0 then [] else [Step(R, C, j - 1)] + LadderDown(R, C, j - 1)
  }

  function LadderUp(R: seq<nat>, C: seq<nat>, a: nat, b: nat): seq<BinaryOp>
    requires b < |R| && b <= |C|
    decreases b - a
  {
    if a >= b then [] else [Step(R, C, a)] + LadderUp(R, C, a + 1, b)
  }

  /** Distinct registers, and controls that are never registers, all within n qubits. */
  predicate Layout(R: seq<nat>, C: seq<nat>, n: nat)
  {
    |R| == |C| + 1 &&
    (forall i :: 0 <= i < |R| ==> R[i] < n) &&
    (forall i :: 0 <= i < |C| ==> C[i] < n && C[i] !in R) &&
    (forall i, j :: 0 <= i < j < |R| ==> R[i] != R[j])
  }

  /** A feed gate: R[0] flipped by a CNOT or CCX whose controls lie outside the registers. */
  predicate FeedOk(F: BinaryOp, R: seq<nat>, n: nat)
  {
    |R| > 0 && Fits(F, n) && !F.Not? && F.target == R[0] &&
    (F.Cnot? ==> F.control !in R) &&
    (F.Toffoli? ==> F.control1 !in R && F.control2 !in R)
  }

  function FeedValue(F: BinaryOp, s: seq<bool>): bool
    requires Fits(F, |s|) && !F.Not?
  {
    if F.Cnot? then s[F.control] else s[F.control1] && s[F.control2]
  }

  function ValuesAt(s: seq<bool>, L: seq<nat>): (r: seq<bool>)
    requires forall i :: 0 <= i < |L| ==> L[i] < |s|
    ensures |r| == |L| && forall i :: 0 <= i < |L| ==> r[i] == s[L[i]]
  {
    seq(|L|, i requires 0 <= i < |L| => s[L[i]])
  }

  /** u is s with the registers holding the values v. */
  predicate Shape(u: seq<bool>, s: seq<bool>, R: seq<nat>, v: seq<bool>)
  {
    |u| == |s| && |v| == |R| &&
    (forall i :: 0 <= i < |R| ==> R[i] < |u| && u[R[i]] == v[i]) &&
    (forall k :: 0 <= k < |s| && k !in R ==> u[k] == s[k])
  }

  lemma StepShape(R: seq<nat>, C: seq<nat>, u: seq<bool>, s: seq<bool>, v: seq<bool>, j: nat)
    requires Layout(R, C, |s|) && Shape(u, s, R, v) && j < |C|
    ensures Fits(Step(R, C, j), |u|)
    ensures Shape(Apply(Step(R, C, j), u), s, R, StepV(v, ValuesAt(s, C), j))
  {
    var u' := Apply(Step(R, C, j), u);
    var v' := StepV(v, ValuesAt(s, C), j);
    assert u[C[j]] == s[C[j]];
    forall i | 0 <= i < |R| ensures u'[R[i]] == v'[i] {
      if i != j + 1 {
        assert R[i] != R[j + 1];
      }
    }
  }

  /** Where qubit k sits among the registers. */
  function Find(R: seq<nat>, k: nat): (i: nat)
    requires k in R
    ensures i < |R| && R[i] == k
  {
    if R[0] == k then 0 else 1 + Find(R[1..], k)
  }

  /** s with register R[i] holding v[i]. */
  function Overlay(s: seq<bool>, R: seq<nat>, v: seq<bool>): (r: seq<bool>)
    requires |v| == |R| && forall i :: 0 <= i < |R| ==> R[i] < |s|
    ensures |r| == |s|
  {
    seq(|s|, k requires 0 <= k < |s| => if k in R then v[Find(R, k)] else s[k])
  }

  lemma OverlayShape(s: seq<bool>, R: seq<nat>, v: seq<bool>)
    requires |v| == |R| && forall i :: 0 <= i < |R| ==> R[i] < |s|
    requires forall i, j :: 0 <= i < j < |R| ==> R[i] != R[j]
    ensures Shape(Overlay(s, R, v), s, R, v)
  {
    var o := Overlay(s, R, v);
    forall i | 0 <= i < |R| ensures o[R[i]] == v[i] {
      var m := Find(R, R[i]);
      assert R[m] == R[i];
    }
  }

  lemma ShapeOverlay(u: seq<bool>, s: seq<bool>, R: seq<nat>, v: seq<bool>)
    requires Shape(u, s, R, v)
    ensures u == Overlay(s, R, v)
  {
    var o := Overlay(s, R, v);
    forall k | 0 <= k < |s| ensures u[k] == o[k] {
      if k in R {
        var m := Find(R, k);
        assert u[R[m]] == v[m];
      }
    }
  }

  lemma StepOverlay(R: seq<nat>, C: seq<nat>, s: seq<bool>, v: seq<bool>, j: nat)
    requires Layout(R, C, |s|) && |v| == |R| && j < |C|
    ensures Fits(Step(R, C, j), |s|)
    ensures Apply(Step(R, C, j), Overlay(s, R, v)) == Overlay(s, R, StepV(v, ValuesAt(s, C), j))
  {
    var o := Overlay(s, R, v);
    OverlayShape(s, R, v);
    StepShape(R, C, o, s, v, j);
    ShapeOverlay(Apply(Step(R, C, j), o), s, R, StepV(v, ValuesAt(s, C), j));
  }

  lemma {:induction false} DownOverlay(R: seq<nat>, C: seq<nat>, s: seq<bool>, v: seq<bool>, j: nat)
    requires Layout(R, C, |s|) && |v| == |R| && j <= |C|
    ensures AllFit(LadderDown(R, C, j), |s|)
    ensures Run(LadderDown(R, C, j), Overlay(s, R, v)) == Overlay(s, R, DownV(v, ValuesAt(s, C), j))
    decreases j
  {
    if j > 0 {
      var c := ValuesAt(s, C);
      StepOverlay(R, C, s, v, j - 1);
      DownOverlay(R, C, s, StepV(v, c, j - 1), j - 1);
      RunCons(Step(R, C, j - 1), LadderDown(R, C, j - 1), Overlay(s, R, v));
      assert LadderDown(R, C, j) == [Step(R, C, j - 1)] + LadderDown(R, C, j - 1);
      assert DownV(v, c, j) == DownV(StepV(v, c, j - 1), c, j - 1);
    }
  }

  lemma {:induction false} UpOverlay(R: seq<nat>, C: seq<nat>, s: seq<bool>, v: seq<bool>, a: nat, b: nat)
    requires Layout(R, C, |s|) && |v| == |R| && b <= |C|
    ensures AllFit(LadderUp(R, C, a, b), |s|)
    ensures Run(LadderUp(R, C, a, b), Overlay(s, R, v)) == Overlay(s, R, UpV(v, ValuesAt(s, C), a, b))
    decreases b - a
  {
    if a < b {
      var c := ValuesAt(s, C);
      StepOverlay(R, C, s, v, a);
      UpOverlay(R, C, s, StepV(v, c, a), a + 1, b);
      RunCons(Step(R, C, a), LadderUp(R, C, a + 1, b), Overlay(s, R, v));
      assert LadderUp(R, C, a, b) == [Step(R, C, a)] + LadderUp(R, C, a + 1, b);
      assert UpV(v, c, a, b) == UpV(StepV(v, c, a), c, a + 1, b);
    }
  }

  lemma FeedShape(F: BinaryOp, R: seq<nat>, u: seq<bool>, s: seq<bool>, v: seq<bool>)
    requires FeedOk(F, R, |s|) && Shape(u, s, R, v)
    requires forall i, j :: 0 <= i < j < |R| ==> R[i] != R[j]
    ensures Fits(F, |u|)
    ensures Shape(Apply(F, u), s, R, v[0 := v[0] != FeedValue(F, s)])
  {
    var u' := Apply(F, u);
    var v' := v[0 := v[0] != FeedValue(F, s)];
    forall i | 0 <= i < |R| ensures u'[R[i]] == v'[i] {
      if i != 0 {
        assert R[i] != R[0];
      }
    }
  }

  lemma FeedOverlay(F: BinaryOp, R: seq<nat>, C: seq<nat>, s: seq<bool>, v: seq<bool>)
    requires Layout(R, C, |s|) && FeedOk(F, R, |s|) && |v| == |R|
    ensures Fits(F, |s|)
    ensures Apply(F, Overlay(s, R, v)) == Overlay(s, R, v[0 := v[0] != FeedValue(F, s)])
  {
    var o := Overlay(s, R, v);
    OverlayShape(s, R, v);
    FeedShape(F, R, o, s, v);
    ShapeOverlay(Apply(F, o), s, R, v[0 := v[0] != FeedValue(F, s)]);
  }

  /** One pass: the steps down, the feed, the inner steps up. */
  function Pass(R: seq<nat>, C: seq<nat>, F: BinaryOp): seq<BinaryOp>
    requires |R| == |C| + 1 && |C| >= 1
  {
    LadderDown(R, C, |C|) + [F] + LadderUp(R, C, 0, |C| - 1)
  }

  /** A pass moves the registers as PassV says and touches no other qubit. */
  lemma PassOverlay(R: seq<nat>, C: seq<nat>, F: BinaryOp, s: seq<bool>, v: seq<bool>)
    requires Layout(R, C, |s|) && FeedOk(F, R, |s|) && |C| >= 1 && |v| == |R|
    ensures AllFit(Pass(R, C, F), |s|)
    ensures Run(Pass(R, C, F), Overlay(s, R, v)) == Overlay(s, R, PassV(v, ValuesAt(s, C), FeedValue(F, s)))
  {
    var c, f := ValuesAt(s, C), FeedValue(F, s);
    var down, up := LadderDown(R, C, |C|), LadderUp(R, C, 0, |C| - 1);
    var v1 := DownV(v, c, |C|);
    var v2 := v1[0 := v1[0] != f];
    DownOverlay(R, C, s, v, |C|);
    FeedOverlay(F, R, C, s, v1);
    UpOverlay(R, C, s, v2, 0, |C| - 1);
    RunAround(down, F, up, Overlay(s, R, v));
  }

  /** Two passes of the ladder flip the target exactly when the feed value and every control are
    * set, and leave every other qubit, borrowed bits included, as it was. */
  lemma LadderTwice(R: seq<nat>, C: seq<nat>, F: BinaryOp, s: seq<bool>)
    requires Layout(R, C, |s|) && FeedOk(F, R, |s|) && |C| >= 1
    ensures AllFit(Pass(R, C, F) + Pass(R, C, F), |s|)
    ensures Run(Pass(R, C, F) + Pass(R, C, F), s) ==
      s[R[|C|] := s[R[|C|]] != Prefix(ValuesAt(s, C), FeedValue(F, s), |C|)]
  {
    var c, f := ValuesAt(s, C), FeedValue(F, s);
    var p := Pass(R, C, F);
    var v := ValuesAt(s, R);
    assert Shape(s, s, R, v);
    ShapeOverlay(s, s, R, v);
    PassOverlay(R, C, F, s, v);
    PassOverlay(R, C, F, s, PassV(v, c, f));
    RunAppend(p, p, s);
    PassTwice(v, c, f);
    var want := s[R[|C|] := s[R[|C|]] != Prefix(c, f, |C|)];
    var w := v[|C| := v[|C|] != Prefix(c, f, |C|)];
    assert Shape(want, s, R, w) by {
      forall i | 0 <= i < |R| ensures want[R[i]] == w[i] {
        if i != |C| {
          assert R[i] != R[|C|];
        }
      }
    }
    ShapeOverlay(want, s, R, w);
  }
}
