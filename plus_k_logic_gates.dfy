/** The logic gates plus_k_gate.py builds its carry network from: the upward AND ladder, the
  * multi-controlled +1 at the top of a ladder, and the OR-AND gate over a group of one bits. */
module PlusKLogicGates {
  import opened Wrappers
  import opened Gates
  import opened PlusKGate
  import AncillaGenerationGate
  import opened Bits

  /** Python's all(t == v for t in s). */
  predicate AllEqual(s: seq<int>, v: int) { forall j :: 0 <= j < |s| ==> s[j] == v }

  lemma AllEqualCons(s: seq<int>, i: nat, v: int)
    requires i < |s|
    ensures AllEqual(s[i..], v) <==> s[i] == v && AllEqual(s[i + 1..], v)
  {
    var tail, rest := s[i + 1..], s[i..];
    if AllEqual(rest, v) {
      forall j | 0 <= j < |tail| ensures tail[j] == v { assert tail[j] == rest[j + 1]; }
    }
    if s[i] == v && AllEqual(tail, v) {
      forall j | 0 <= j < |rest| ensures rest[j] == v { if j > 0 { assert rest[j] == tail[j - 1]; } }
    }
  }

  /** The trit value a control must hold: 1, or 2 for the inverted gate (1 + _inverted). */
  function Want(inverted: bool): int { if inverted then 2 else 1 }

  /** The shift the gate applies: +1, or -1 for the inverted gate. */
  function Shift(inverted: bool): int { if inverted then -1 else 1 }

  // ---- UpwardMultiAndGate ----

  /** UpwardMultiAndGate.applied_to_trits: trit i moves by the shift, modulo 3, exactly when every
    * later trit holds the wanted value; the last trit, having no later trits, always moves. */
  function UpwardAndApplied(inverted: bool, trits: seq<int>): (r: seq<int>)
    ensures |r| == |trits|
  {
    seq(|trits|, i requires 0 <= i < |trits| =>
      (trits[i] + (if AllEqual(trits[i + 1..], Want(inverted)) then Shift(inverted) else 0)) % 3)
  }

  /** A suffix of the output is all 2 (all 1 for the inverted gate) exactly when the same suffix of
    * the input was all 1 (all 2): after the gate the inverted gate sees the same controls. */
  lemma {:induction false} UpwardAndSuffix(inverted: bool, trits: seq<int>, i: nat)
    requires ValidTrits(trits) && i <= |trits|
    ensures AllEqual(UpwardAndApplied(inverted, trits)[i..], Want(!inverted)) <==> AllEqual(trits[i..], Want(inverted))
    decreases |trits| - i
  {
    var out := UpwardAndApplied(inverted, trits);
    if i < |trits| {
      UpwardAndSuffix(inverted, trits, i + 1);
      AllEqualCons(out, i, Want(!inverted));
      AllEqualCons(trits, i, Want(inverted));
    }
  }

  /** inverse() toggles _inverted; on valid trits the output is again valid and the inverted gate
    * restores the input. */
  lemma UpwardAndInverse(inverted: bool, trits: seq<int>)
    requires ValidTrits(trits)
    ensures Inverse(UpwardMultiAnd(inverted)) == Some(UpwardMultiAnd(!inverted))
    ensures ValidTrits(UpwardAndApplied(inverted, trits))
    ensures UpwardAndApplied(!inverted, UpwardAndApplied(inverted, trits)) == trits
  {
    var out := UpwardAndApplied(inverted, trits);
    var back := UpwardAndApplied(!inverted, out);
    forall i | 0 <= i < |trits| ensures back[i] == trits[i] {
      UpwardAndSuffix(inverted, trits, i + 1);
    }
  }

  // ---- UpwardMultiControlPlusOneGate ----

  /** Python's trits[-1:]. */
  function LastOne(t: seq<int>): (r: seq<int>)
    ensures |r| == if t == [] then 0 else 1
  {
    if t == [] then [] else [t[|t| - 1]]
  }

  /** The value the bottom control must hold: 1, or 2 with bottom_control_2. */
  function Bottom(bottomControl2: bool): int { if bottomControl2 then 2 else 1 }

  /** control_triggered as written: trits[1:-1] all 1 and trits[-1:] all equal to the bottom value.
    * On a single trit, trits[-1:] is the target trit itself. */
  predicate UpwardControlTriggeredAsWritten(bottomControl2: bool, trits: seq<int>)
  {
    AllEqual(Middle(trits), 1) && AllEqual(LastOne(trits), Bottom(bottomControl2))
  }

  /** UpwardMultiControlPlusOneGate.applied_to_trits as written: trit 0 moves by +1 (-1 when
    * inverted) modulo 3 when the controls are triggered; an empty list triggers and raises
    * IndexError on trits[0]. */
  function UpwardControlAppliedAsWritten(bottomControl2: bool, inverted: bool, trits: seq<int>)
    : Result<seq<int>>
  {
    if UpwardControlTriggeredAsWritten(bottomControl2, trits) then
      if trits == [] then Err(IndexError)
      else Ok(trits[0 := (trits[0] + Shift(inverted)) % 3])
    else Ok(trits)
  }

  /** The controls are the trits after the target: a single trit has none, and the gate is then an
    * unconditional +1, as its decomposition emits. */
  predicate UpwardControlTriggered(bottomControl2: bool, trits: seq<int>)
  {
    AllEqual(Middle(trits), 1) && (|trits| >= 2 ==> trits[|trits| - 1] == Bottom(bottomControl2))
  }

  /** applied_to_trits with the controls read from trits[1:] only. */
  function UpwardControlApplied(bottomControl2: bool, inverted: bool, trits: seq<int>): Result<seq<int>>
  {
    if trits == [] then Err(IndexError)
    else if UpwardControlTriggered(bottomControl2, trits) then Ok(trits[0 := (trits[0] + Shift(inverted)) % 3])
    else Ok(trits)
  }

  /** validate_trits: one or more trits in range. */
  predicate UpwardControlValid(trits: seq<int>) { ValidTrits(trits) && |trits| > 0 }

  /** Only trit 0 can change, and it changes by the shift exactly when the trits after it are
    * triggered; the empty list is the error case. */
  lemma UpwardControlShape(bottomControl2: bool, inverted: bool, trits: seq<int>)
    ensures UpwardControlApplied(bottomControl2, inverted, trits).Ok? <==> trits != []
    ensures trits != [] ==>
      var out := UpwardControlApplied(bottomControl2, inverted, trits).value;
      |out| == |trits| && out[1..] == trits[1..] &&
      (out[0] != trits[0] <==> UpwardControlTriggered(bottomControl2, trits))
  {
  }

  /** The trigger reads no trit but trits[1:], so changing trit 0 leaves it as it was. */
  lemma UpwardControlIgnoresTarget(bottomControl2: bool, trits: seq<int>, x: int)
    requires trits != []
    ensures UpwardControlTriggered(bottomControl2, trits[0 := x]) == UpwardControlTriggered(bottomControl2, trits)
  {
    if |trits| > 2 {
      assert Middle(trits[0 := x]) == Middle(trits);
    }
  }

  /** inverse() toggles _inverted and keeps bottom_control_2, and the inverted gate restores every
    * input whose first trit is in range. */
  lemma UpwardControlInverse(bottomControl2: bool, inverted: bool, trits: seq<int>)
    requires trits != [] && IsTrit(trits[0])
    ensures Inverse(UpwardMultiControlPlusOne(bottomControl2, inverted))
      == Some(UpwardMultiControlPlusOne(bottomControl2, !inverted))
    ensures UpwardControlApplied(bottomControl2, !inverted, UpwardControlApplied(bottomControl2, inverted, trits).value)
      == Ok(trits)
  {
    var out := UpwardControlApplied(bottomControl2, inverted, trits).value;
    UpwardControlIgnoresTarget(bottomControl2, trits, out[0]);
    assert out == trits[0 := out[0]];
    if UpwardControlTriggered(bottomControl2, trits) {
      var back := out[0 := (out[0] + Shift(!inverted)) % 3];
      assert back[0] == trits[0];
      assert back == trits;
    }
  }

  /** On two or more trits the code as written and the corrected gate agree. */
  lemma UpwardControlAsWrittenAgrees(bottomControl2: bool, inverted: bool, trits: seq<int>)
    requires |trits| != 1
    ensures UpwardControlAppliedAsWritten(bottomControl2, inverted, trits)
      == UpwardControlApplied(bottomControl2, inverted, trits)
  {
  }

  /** As written, the one-trit gate reads its target as its own control: +1 takes [1] to [2], and
    * the inverse gate leaves [2] alone, so the pair does not restore [1]. */
  lemma UpwardControlAsWrittenNotInverse()
    ensures UpwardControlAppliedAsWritten(false, false, [1]) == Ok([2])
    ensures UpwardControlAppliedAsWritten(false, true, [2]) == Ok([2])
    ensures UpwardControlApplied(false, false, [1]) == Ok([2])
    ensures UpwardControlApplied(false, true, [2]) == Ok([1])
  {
    assert Middle([1]) == [] && LastOne([1]) == [1];
    assert Middle([2]) == [] && LastOne([2]) == [2];
    assert [1][0 := 2] == [2];
    assert [2][0 := 1] == [1];
  }

  // ---- MultiOrAndGate ----

  /** One line of the two- to four-trit code: trits[target] moves by delta, modulo 3, when
    * trits[control] == value. */
  datatype CondStep = CondStep(target: nat, control: nat, value: int, delta: int)

  /** A step reads and writes two different positions of an n-trit list. */
  predicate StepFits(s: CondStep, n: nat) { s.target < n && s.control < n && s.target != s.control }

  predicate StepsFit(steps: seq<CondStep>, n: nat) { forall i :: 0 <= i < |steps| ==> StepFits(steps[i], n) }

  function ApplyStep(s: CondStep, t: seq<int>): (r: seq<int>)
    requires s.target < |t| && s.control < |t|
    ensures |r| == |t|
  {
    t[s.target := (t[s.target] + (if t[s.control] == s.value then s.delta else 0)) % 3]
  }

  function RunSteps(steps: seq<CondStep>, t: seq<int>): (r: seq<int>)
    requires StepsFit(steps, |t|)
    ensures |r| == |t|
  {
    if steps == [] then t else RunSteps(steps[1..], ApplyStep(steps[0], t))
  }

  /** The same step list, last step first, each shift negated. */
  function Undo(steps: seq<CondStep>): (r: seq<CondStep>)
    ensures |r| == |steps|
    ensures forall i :: 0 <= i < |steps| ==>
      r[i] == steps[|steps| - 1 - i].(delta := -steps[|steps| - 1 - i].delta)
  {
    if steps == [] then [] else Undo(steps[1..]) + [steps[0].(delta := -steps[0].delta)]
  }

  /** The forward code for two, three and four trits, line by line. */
  function OrAndForward(n: nat, ltv: int): seq<CondStep>
  {
    if n == 2 then [CondStep(0, 1, ltv, 1)]
    else if n == 3 then
      [CondStep(0, 2, ltv, 1), CondStep(1, 2, ltv, 1), CondStep(0, 1, 2, -1), CondStep(1, 0, 2, 1)]
    else if n == 4 then
      [CondStep(0, 3, ltv, 1), CondStep(1, 3, ltv, 1), CondStep(2, 3, ltv, 1),
       CondStep(0, 2, 2, -1), CondStep(1, 2, 2, -1), CondStep(0, 1, 2, -1),
       CondStep(2, 0, 2, 1), CondStep(2, 1, 2, 1)]
    else []
  }

  /** The inverted code for two, three and four trits, line by line. */
  function OrAndInverted(n: nat, ltv: int): seq<CondStep>
  {
    if n == 2 then [CondStep(0, 1, ltv, -1)]
    else if n == 3 then
      [CondStep(1, 0, 2, -1), CondStep(0, 1, 2, 1), CondStep(1, 2, ltv, -1), CondStep(0, 2, ltv, -1)]
    else if n == 4 then
      [CondStep(2, 1, 2, -1), CondStep(2, 0, 2, -1), CondStep(0, 1, 2, 1),
       CondStep(1, 2, 2, 1), CondStep(0, 2, 2, 1),
       CondStep(2, 3, ltv, -1), CondStep(1, 3, ltv, -1), CondStep(0, 3, ltv, -1)]
    else []
  }

  /** The forward code of five or more trits: F01 and an all-zero +1 on trits[-2], the ancilla
    * generation gate on trits[-5:-2], the result as 0 or 1 in trits[-3], then trits[-3] and
    * trits[-2] swapped. */
  function OrAndLargeForward(trits: seq<int>, result: bool): (r: seq<int>)
    requires |trits| >= 5
    ensures |r| == |trits|
  {
    var n := |trits|;
    var a := trits[n - 2 := (trits[n - 2] * 2 + 1) % 3];
    var b := a[n - 2 := (a[n - 2] + (if AllEqual(a[..n - 2], 0) then 1 else 0)) % 3];
    var c := b[..n - 5] + AncillaGenerationGate.Applied(b[n - 5..n - 2]) + b[n - 2..];
    var d := c[n - 3 := Plus(result)];
    d[n - 3 := d[n - 2]][n - 2 := d[n - 3]]
  }

  /** The inverted code of five or more trits: the same steps undone in reverse order. */
  function OrAndLargeInverted(trits: seq<int>): (r: seq<int>)
    requires |trits| >= 5
    ensures |r| == |trits|
  {
    var n := |trits|;
    var a := trits[n - 3 := trits[n - 2]][n - 2 := trits[n - 3]];
    var b := a[..n - 5] + AncillaGenerationGate.Applied(a[n - 5..n - 2]) + a[n - 2..];
    var c := b[n - 2 := (b[n - 2] - (if AllEqual(b[..n - 2], 0) then 1 else 0)) % 3];
    c[n - 2 := (c[n - 2] * 2 + 1) % 3]
  }

  /** MultiOrAndGate.applied_to_trits with the forward result given: the inverted gate reads
    * trits[-2] first (IndexError below two trits); the forward gate of two or more trits asserts
    * that trits[-2] holds the result (2 for up to four trits, 1 above), and leaves fewer than two
    * trits alone. */
  function MultiOrAndSteps(ltv: int, inverted: bool, trits: seq<int>, result: bool): Result<seq<int>>
  {
    var n := |trits|;
    if inverted then
      if n < 2 then Err(IndexError)
      else if n >= 5 then Ok(OrAndLargeInverted(trits))
      else Ok(RunSteps(OrAndInverted(n, ltv), trits))
    else if n >= 5 then
      var out := OrAndLargeForward(trits, result);
      if (out[n - 2] == 1) == result then Ok(out) else Err(AssertionError)
    else if n >= 2 then
      var out := RunSteps(OrAndForward(n, ltv), trits);
      if (out[n - 2] == 2) == result then Ok(out) else Err(AssertionError)
    else Ok(trits)
  }

  /** Python's any(t == v for t in s). */
  predicate AnyEqual(s: seq<int>, v: int) { exists j :: 0 <= j < |s| && s[j] == v }

  /** The forward result as written: some trit before the last is 1 and the last trit is 1. */
  predicate OrAndResultAsWritten(trits: seq<int>)
  {
    AnyEqual(DropLast(trits), 1) && trits[|trits| - 1] == 1
  }

  /** The forward result as the decompositions compute it: the last trit is last_true_val. */
  predicate OrAndResult(ltv: int, trits: seq<int>)
  {
    AnyEqual(DropLast(trits), 1) && trits[|trits| - 1] == ltv
  }

  function MultiOrAndAppliedAsWritten(ltv: int, inverted: bool, trits: seq<int>): Result<seq<int>>
  {
    MultiOrAndSteps(ltv, inverted, trits, OrAndResultAsWritten(trits))
  }

  function MultiOrAndApplied(ltv: int, inverted: bool, trits: seq<int>): Result<seq<int>>
  {
    MultiOrAndSteps(ltv, inverted, trits, OrAndResult(ltv, trits))
  }

  /** validate_trits: two or more trits in range. */
  predicate MultiOrAndValid(trits: seq<int>) { ValidTrits(trits) && |trits| >= 2 }

  /** inverse() as written: a fresh gate with the default last_true_val of 2. */
  function MultiOrAndInverseAsWritten(ltv: int, inverted: bool): Gate
  {
    MultiOrAnd(2, !inverted)
  }

  /** The inverted code is the forward code undone line by line. */
  lemma OrAndStepsUndo(n: nat, ltv: int)
    requires 2 <= n <= 4
    ensures StepsFit(OrAndForward(n, ltv), n)
    ensures OrAndInverted(n, ltv) == Undo(OrAndForward(n, ltv))
  {
  }

  /** A step whose control is not its target is undone by the step with the opposite shift. */
  lemma StepUndo(s: CondStep, t: seq<int>)
    requires s.target < |t| && s.control < |t| && s.target != s.control && IsTrit(t[s.target])
    ensures IsTrit(ApplyStep(s, t)[s.target])
    ensures ApplyStep(s.(delta := -s.delta), ApplyStep(s, t)) == t
  {
    var out := ApplyStep(s, t);
    var back := ApplyStep(s.(delta := -s.delta), out);
    var d := if t[s.control] == s.value then s.delta else 0;
    assert out[s.control] == t[s.control];
    ModShiftBack(t[s.target], d);
    assert back == t;
  }

  lemma ModShiftBack(x: int, d: int)
    requires IsTrit(x)
    ensures IsTrit((x + d) % 3) && ((x + d) % 3 - d) % 3 == x
  {
    AddSubMod(x, d, 3);
  }

  lemma {:induction false} RunAppend(a: seq<CondStep>, b: seq<CondStep>, t: seq<int>)
    requires StepsFit(a, |t|) && StepsFit(b, |t|)
    ensures StepsFit(a + b, |t|) && RunSteps(a + b, t) == RunSteps(b, RunSteps(a, t))
  {
    assert forall i :: 0 <= i < |a + b| ==> (a + b)[i] == if i < |a| then a[i] else b[i - |a|];
    if a != [] {
      assert (a + b)[1..] == a[1..] + b;
      RunAppend(a[1..], b, ApplyStep(a[0], t));
    } else {
      assert a + b == b;
    }
  }

  /** Running a fitting step list and then its undo restores any valid trits. */
  lemma {:induction false} RunUndo(steps: seq<CondStep>, t: seq<int>)
    requires StepsFit(steps, |t|) && ValidTrits(t)
    ensures ValidTrits(RunSteps(steps, t))
    ensures StepsFit(Undo(steps), |t|) && RunSteps(Undo(steps), RunSteps(steps, t)) == t
  {
    if steps != [] {
      var s := steps[0];
      var t1 := ApplyStep(s, t);
      StepUndo(s, t);
      assert ValidTrits(t1) by {
        forall i | 0 <= i < |t1| ensures IsTrit(t1[i]) { if i != s.target { assert t1[i] == t[i]; } }
      }
      RunUndo(steps[1..], t1);
      var mid := RunSteps(steps[1..], t1);
      var last := [s.(delta := -s.delta)];
      assert Undo(steps) == Undo(steps[1..]) + last;
      RunAppend(Undo(steps[1..]), last, mid);
    }
  }

  /** inverse() toggles _inverted (this model keeps last_true_val), and on two to four valid trits
    * the inverted gate restores whatever the forward gate accepted. */
  lemma MultiOrAndInverse(ltv: int, trits: seq<int>)
    requires MultiOrAndValid(trits) && |trits| <= 4
    requires MultiOrAndApplied(ltv, false, trits).Ok?
    ensures Inverse(MultiOrAnd(ltv, false)) == Some(MultiOrAnd(ltv, true))
    ensures MultiOrAndApplied(ltv, true, MultiOrAndApplied(ltv, false, trits).value) == Ok(trits)
  {
    var n := |trits|;
    OrAndStepsUndo(n, ltv);
    RunUndo(OrAndForward(n, ltv), trits);
  }

  /** Running a list of steps is running its first step and then the others. */
  lemma RunCons(steps: seq<CondStep>, t: seq<int>)
    requires steps != [] && StepsFit(steps, |t|)
    ensures RunSteps(steps, t) == RunSteps(steps[1..], ApplyStep(steps[0], t))
  {
  }

  /** On two to four trits whose controls are binary the forward gate's assertion holds: trits[-2]
    * ends as 2 exactly when some control is 1 and the last trit is last_true_val, and the last
    * trit is never changed. */
  lemma MultiOrAndSmall(ltv: int, trits: seq<int>)
    requires 2 <= |trits| <= 4
    requires forall i :: 0 <= i < |trits| - 1 ==> IsBit(trits[i])
    ensures MultiOrAndApplied(ltv, false, trits).Ok?
    ensures var out := MultiOrAndApplied(ltv, false, trits).value;
      |out| == |trits| && out[|out| - 1] == trits[|trits| - 1] &&
      (out[|out| - 2] == 2 <==> OrAndResult(ltv, trits))
  {
    var n := |trits|;
    assert DropLast(trits) == trits[..n - 1];
    if n == 2 {
      assert AnyEqual(DropLast(trits), 1) <==> trits[0] == 1;
      OrAndTwo(ltv, trits);
    } else if n == 3 {
      assert AnyEqual(DropLast(trits), 1) <==> trits[0] == 1 || trits[1] == 1;
      OrAndThree(ltv, trits);
    } else {
      assert AnyEqual(DropLast(trits), 1) <==> trits[0] == 1 || trits[1] == 1 || trits[2] == 1;
      OrAndFour(ltv, trits);
    }
  }

  lemma OrAndTwo(ltv: int, trits: seq<int>)
    requires |trits| == 2 && IsBit(trits[0])
    ensures var out := RunSteps(OrAndForward(2, ltv), trits);
      out[1] == trits[1] && (out[0] == 2 <==> trits[0] == 1 && trits[1] == ltv)
  {
    var steps := OrAndForward(2, ltv);
    RunCons(steps, trits);
  }

  /** Four steps run one after the other. */
  lemma {:induction false} RunFour(s0: CondStep, s1: CondStep, s2: CondStep, s3: CondStep, t: seq<int>)
    requires StepFits(s0, |t|) && StepFits(s1, |t|) && StepFits(s2, |t|) && StepFits(s3, |t|)
    ensures StepsFit([s0, s1, s2, s3], |t|)
    ensures RunSteps([s0, s1, s2, s3], t) == ApplyStep(s3, ApplyStep(s2, ApplyStep(s1, ApplyStep(s0, t))))
  {
    var t1 := ApplyStep(s0, t);
    var t2 := ApplyStep(s1, t1);
    var t3 := ApplyStep(s2, t2);
    RunOne(s3, t3);
    RunPrepend(s2, [s3], t2);
    RunPrepend(s1, [s2, s3], t1);
    RunPrepend(s0, [s1, s2, s3], t);
  }

  lemma RunOne(s: CondStep, t: seq<int>)
    requires StepFits(s, |t|)
    ensures StepsFit([s], |t|) && RunSteps([s], t) == ApplyStep(s, t)
  {
    assert [s][1..] == [];
  }

  lemma RunPrepend(s: CondStep, rest: seq<CondStep>, t: seq<int>)
    requires StepFits(s, |t|) && StepsFit(rest, |t|)
    ensures StepsFit([s] + rest, |t|) && RunSteps([s] + rest, t) == RunSteps(rest, ApplyStep(s, t))
  {
    assert ([s] + rest)[1..] == rest;
    assert forall i :: 0 <= i < |[s] + rest| ==> ([s] + rest)[i] == if i == 0 then s else rest[i - 1];
  }

  lemma OrAndThree(ltv: int, trits: seq<int>)
    requires |trits| == 3 && IsBit(trits[0]) && IsBit(trits[1])
    ensures var out := RunSteps(OrAndForward(3, ltv), trits);
      out[2] == trits[2] && (out[1] == 2 <==> (trits[0] == 1 || trits[1] == 1) && trits[2] == ltv)
  {
    var steps := OrAndForward(3, ltv);
    RunFour(steps[0], steps[1], steps[2], steps[3], trits);
    assert steps == [steps[0], steps[1], steps[2], steps[3]];
    var out := RunSteps(steps, trits);
    var t1 := ApplyStep(steps[0], trits);
    var t2 := ApplyStep(steps[1], t1);
    var t3 := ApplyStep(steps[2], t2);
    assert out == ApplyStep(steps[3], t3);
    if trits[2] == ltv {
      assert t2 == [(trits[0] + 1) % 3, (trits[1] + 1) % 3, trits[2]];
    } else {
      assert t2 == trits;
    }
  }

  lemma OrAndFour(ltv: int, trits: seq<int>)
    requires |trits| == 4 && IsBit(trits[0]) && IsBit(trits[1]) && IsBit(trits[2])
    ensures var out := RunSteps(OrAndForward(4, ltv), trits);
      out[3] == trits[3] &&
      (out[2] == 2 <==> (trits[0] == 1 || trits[1] == 1 || trits[2] == 1) && trits[3] == ltv)
  {
    OrAndFourSplit(ltv, trits);
    OrAndFourRaise(ltv, trits);
    var x := ApplyStep(CondStep(2, 3, ltv, 1), ApplyStep(CondStep(1, 3, ltv, 1), ApplyStep(CondStep(0, 3, ltv, 1), trits)));
    OrAndFourTail(x);
  }

  /** The first three lines of the four-trit code raise every control by 1 when the last trit is
    * last_true_val. */
  lemma OrAndFourRaise(ltv: int, trits: seq<int>)
    requires |trits| == 4 && IsBit(trits[0]) && IsBit(trits[1]) && IsBit(trits[2])
    ensures var x := ApplyStep(CondStep(2, 3, ltv, 1), ApplyStep(CondStep(1, 3, ltv, 1), ApplyStep(CondStep(0, 3, ltv, 1), trits)));
      x == if trits[3] == ltv then [trits[0] + 1, trits[1] + 1, trits[2] + 1, trits[3]] else trits
  {
    var x1 := ApplyStep(CondStep(0, 3, ltv, 1), trits);
    var x2 := ApplyStep(CondStep(1, 3, ltv, 1), x1);
    if trits[3] != ltv {
      StepIdle(CondStep(0, 3, ltv, 1), trits);
      StepIdle(CondStep(1, 3, ltv, 1), x1);
      StepIdle(CondStep(2, 3, ltv, 1), x2);
    }
  }

  /** A step whose control does not hold its value leaves valid trits alone. */
  lemma StepIdle(s: CondStep, t: seq<int>)
    requires s.target < |t| && s.control < |t| && t[s.control] != s.value && IsTrit(t[s.target])
    ensures ApplyStep(s, t) == t
  {
  }

  /** Eight steps run one after the other. */
  lemma {:induction false} RunEight(s0: CondStep, s1: CondStep, s2: CondStep, s3: CondStep,
                 s4: CondStep, s5: CondStep, s6: CondStep, s7: CondStep, t: seq<int>)
    requires StepFits(s0, |t|) && StepFits(s1, |t|) && StepFits(s2, |t|) && StepFits(s3, |t|)
    requires StepFits(s4, |t|) && StepFits(s5, |t|) && StepFits(s6, |t|) && StepFits(s7, |t|)
    ensures StepsFit([s0, s1, s2, s3, s4, s5, s6, s7], |t|) && StepsFit([s4, s5, s6, s7], |t|)
    ensures RunSteps([s0, s1, s2, s3, s4, s5, s6, s7], t) ==
      RunSteps([s4, s5, s6, s7], ApplyStep(s3, ApplyStep(s2, ApplyStep(s1, ApplyStep(s0, t)))))
  {
    var tail := [s4, s5, s6, s7];
    var t1 := ApplyStep(s0, t);
    var t2 := ApplyStep(s1, t1);
    var t3 := ApplyStep(s2, t2);
    RunFour(s4, s5, s6, s7, t);
    RunPrepend(s3, tail, t3);
    RunPrepend(s2, [s3] + tail, t2);
    RunPrepend(s1, [s2] + ([s3] + tail), t1);
    RunPrepend(s0, [s1] + ([s2] + ([s3] + tail)), t);
    assert [s0] + ([s1] + ([s2] + ([s3] + tail))) == [s0, s1, s2, s3, s4, s5, s6, s7];
  }

  /** The four-trit forward code: its first four lines, then the other four. */
  lemma OrAndFourSplit(ltv: int, trits: seq<int>)
    requires |trits| == 4
    ensures var x := ApplyStep(CondStep(2, 3, ltv, 1), ApplyStep(CondStep(1, 3, ltv, 1), ApplyStep(CondStep(0, 3, ltv, 1), trits)));
      RunSteps(OrAndForward(4, ltv), trits) ==
      RunSteps([CondStep(1, 2, 2, -1), CondStep(0, 1, 2, -1), CondStep(2, 0, 2, 1), CondStep(2, 1, 2, 1)],
               ApplyStep(CondStep(0, 2, 2, -1), x))
  {
    RunEight(CondStep(0, 3, ltv, 1), CondStep(1, 3, ltv, 1), CondStep(2, 3, ltv, 1), CondStep(0, 2, 2, -1),
             CondStep(1, 2, 2, -1), CondStep(0, 1, 2, -1), CondStep(2, 0, 2, 1), CondStep(2, 1, 2, 1), trits);
  }

  /** The last five lines of the four-trit code, on controls that are all 0 or 1 or all 1 or 2:
    * trits[2] ends as 2 exactly when some control is 2. */
  lemma OrAndFourTail(x: seq<int>)
    requires |x| == 4
    requires (IsBit(x[0]) && IsBit(x[1]) && IsBit(x[2])) || (1 <= x[0] <= 2 && 1 <= x[1] <= 2 && 1 <= x[2] <= 2)
    ensures var out := RunSteps([CondStep(1, 2, 2, -1), CondStep(0, 1, 2, -1), CondStep(2, 0, 2, 1), CondStep(2, 1, 2, 1)],
                                ApplyStep(CondStep(0, 2, 2, -1), x));
      out[3] == x[3] && (out[2] == 2 <==> x[0] == 2 || x[1] == 2 || x[2] == 2)
  {
    RunFour(CondStep(1, 2, 2, -1), CondStep(0, 1, 2, -1), CondStep(2, 0, 2, 1), CondStep(2, 1, 2, 1),
            ApplyStep(CondStep(0, 2, 2, -1), x));
    if x[0] == 0 || x[0] == 1 {
    } else if x[1] == 1 {
    } else {
    }
  }


  /** On five or more trits the forward gate's assertion always holds: the result is stored as 0 or
    * 1 in trits[-2], and trits[-1] and everything before trits[-5] are left alone. */
  lemma MultiOrAndLarge(ltv: int, trits: seq<int>)
    requires |trits| >= 5
    ensures MultiOrAndApplied(ltv, false, trits).Ok?
    ensures var out := MultiOrAndApplied(ltv, false, trits).value;
      var n := |trits|;
      |out| == n && out[n - 2] == Plus(OrAndResult(ltv, trits)) && out[n - 1] == trits[n - 1] &&
      out[..n - 5] == trits[..n - 5]
  {
    var n := |trits|;
    var res := OrAndResult(ltv, trits);
    var out := OrAndLargeForward(trits, res);
    assert out[n - 2] == Plus(res);
    assert out[n - 1] == trits[n - 1];
    assert out[..n - 5] == trits[..n - 5];
  }

  /** As written, the default last_true_val of 2 breaks the forward assertion: on [1, 2] the code
    * writes 2 to trits[-2] but computes the result from trits[-1] == 1. Reading the result from
    * last_true_val, as the decompositions do, the same input passes. */
  lemma MultiOrAndAsWrittenFails()
    ensures MultiOrAndAppliedAsWritten(2, false, [1, 2]) == Err(AssertionError)
    ensures MultiOrAndApplied(2, false, [1, 2]) == Ok([2, 2])
  {
    var steps := OrAndForward(2, 2);
    RunOne(steps[0], [1, 2]);
    assert [1, 2][0 := 2] == [2, 2];
    assert DropLast([1, 2]) == [1];
    assert AnyEqual([1], 1);
  }

  /** With last_true_val 1 the code as written computes the same gate. */
  lemma MultiOrAndAsWrittenLtvOne(inverted: bool, trits: seq<int>)
    ensures MultiOrAndAppliedAsWritten(1, inverted, trits) == MultiOrAndApplied(1, inverted, trits)
  {
  }

  /** inverse() as written forgets last_true_val: the gate with last_true_val 1 takes [0, 1] to
    * [1, 1], the inverse built with the default 2 leaves [1, 1] alone, and the inverse that keeps
    * last_true_val restores [0, 1]. */
  lemma MultiOrAndInverseDropsLtv()
    ensures MultiOrAndInverseAsWritten(1, false) == MultiOrAnd(2, true)
    ensures Inverse(MultiOrAnd(1, false)) == Some(MultiOrAnd(1, true))
    ensures MultiOrAndApplied(1, false, [0, 1]) == Ok([1, 1])
    ensures MultiOrAndApplied(2, true, [1, 1]) == Ok([1, 1])
    ensures MultiOrAndApplied(1, true, [1, 1]) == Ok([0, 1])
  {
    RunOne(OrAndForward(2, 1)[0], [0, 1]);
    assert [0, 1][0 := 1] == [1, 1];
    assert DropLast([0, 1]) == [0];
    assert !AnyEqual([0], 1);
    RunOne(OrAndInverted(2, 2)[0], [1, 1]);
    assert [1, 1][0 := 1] == [1, 1];
    RunOne(OrAndInverted(2, 1)[0], [1, 1]);
    assert [1, 1][0 := 0] == [0, 1];
  }

  /** The decomposition for two, three and four qubits (decompose_2/3/4). */
  function OrAndDecomposeSmall(ltv: int, qubits: seq<Qubit>): seq<TernaryOp>
    requires 2 <= |qubits| <= 4
  {
    var q := qubits;
    var cl := [[ltv]];
    if |q| == 2 then [TernaryOp(Controlled(PlusOne, cl), [q[1], q[0]])]
    else if |q| == 3 then
      [TernaryOp(Controlled(PlusOne, cl), [q[2], q[0]]),
       TernaryOp(Controlled(PlusOne, cl), [q[2], q[1]]),
       TernaryOp(Controlled(MinusOne, [[2]]), [q[1], q[0]]),
       TernaryOp(Controlled(PlusOne, [[2]]), [q[0], q[1]])]
    else
      [TernaryOp(Controlled(PlusOne, cl), [q[3], q[0]]),
       TernaryOp(Controlled(PlusOne, cl), [q[3], q[1]]),
       TernaryOp(Controlled(PlusOne, cl), [q[3], q[2]]),
       TernaryOp(Controlled(MinusOne, [[2]]), [q[2], q[0]]),
       TernaryOp(Controlled(MinusOne, [[2]]), [q[2], q[1]]),
       TernaryOp(Controlled(MinusOne, [[2]]), [q[1], q[0]]),
       TernaryOp(Controlled(PlusOne, [[2]]), [q[0], q[2]]),
       TernaryOp(Controlled(PlusOne, [[2]]), [q[1], q[2]])]
  }

  /** The gate a step stands for: +1 or -1 on the target, controlled by the control trit holding
    * the step's value. */
  function StepOp(s: CondStep, qubits: seq<Qubit>): TernaryOp
    requires s.target < |qubits| && s.control < |qubits|
  {
    TernaryOp(Controlled(if s.delta > 0 then PlusOne else MinusOne, [[s.value]]), [qubits[s.control], qubits[s.target]])
  }

  /** Each gate of the small decompositions is the controlled gate of the matching line of
    * applied_to_trits, in the same order. */
  lemma OrAndDecomposeFollowsSteps(ltv: int, qubits: seq<Qubit>)
    requires 2 <= |qubits| <= 4
    ensures StepsFit(OrAndForward(|qubits|, ltv), |qubits|)
    ensures var steps := OrAndForward(|qubits|, ltv);
      |OrAndDecomposeSmall(ltv, qubits)| == |steps| &&
      forall i :: 0 <= i < |steps| ==> OrAndDecomposeSmall(ltv, qubits)[i] == StepOp(steps[i], qubits)
  {
    OrAndStepsUndo(|qubits|, ltv);
  }
}
