/** What makes a rule fire. The evaluator's visits are listed with the place of each comparison in
    the condition, which tells the alternative that decided and whether the explanation shows it. */
module RuleTrigger {
  import opened RuleText
  import opened RuleCondition

  /** A comparison and whether it evaluates, without error, to true. */
  datatype Verdict = Verdict(leaf: string, holds: bool)

  /** The verdicts of one alternative. */
  type Clause = seq<Verdict>

  /** One comparison evaluated: the alternative and the conjunct it stands at, and its text. */
  datatype Visit = Visit(alternative: nat, conjunct: nat, leaf: string)

  predicate AllHold(c: Clause) {
    forall j | 0 <= j < |c| :: c[j].holds
  }

  /** The conjuncts of alternative `i` from number `j` on, up to the first that does not hold. */
  function ClauseVisits(c: Clause, i: nat, j: nat): seq<Visit> {
    if c == [] then []
    else [Visit(i, j, c[0].leaf)] + if c[0].holds then ClauseVisits(c[1..], i, j + 1) else []
  }

  /** The alternatives from number `i` on, up to the first that holds. */
  function AlternativeVisits(cs: seq<Clause>, i: nat): seq<Visit> {
    if cs == [] then []
    else ClauseVisits(cs[0], i, 0) + if AllHold(cs[0]) then [] else AlternativeVisits(cs[1..], i + 1)
  }

  function VerdictOf(piece: string, m: RuleMetrics, calib: CalibrationTable): Verdict {
    Verdict(Trim(piece), EvalLeaf(Trim(piece), m, calib) == Ok(true))
  }

  function Verdicts(pieces: seq<string>, m: RuleMetrics, calib: CalibrationTable): (r: Clause)
    ensures |r| == |pieces| && forall j | 0 <= j < |r| :: r[j] == VerdictOf(pieces[j], m, calib)
  {
    seq(|pieces|, j requires 0 <= j < |pieces| => VerdictOf(pieces[j], m, calib))
  }

  function ClauseOf(part: string, m: RuleMetrics, calib: CalibrationTable): Clause {
    Verdicts(Split(part, "&&"), m, calib)
  }

  function ClausesOf(parts: seq<string>, m: RuleMetrics, calib: CalibrationTable): (r: seq<Clause>)
    ensures |r| == |parts| && forall i | 0 <= i < |r| :: r[i] == ClauseOf(parts[i], m, calib)
  {
    seq(|parts|, i requires 0 <= i < |parts| => ClauseOf(parts[i], m, calib))
  }

  function Alternatives(text: string, m: RuleMetrics, calib: CalibrationTable): seq<Clause> {
    ClausesOf(Split(text, "||"), m, calib)
  }

  function Visits(text: string, m: RuleMetrics, calib: CalibrationTable): seq<Visit> {
    AlternativeVisits(Alternatives(text, m, calib), 0)
  }

  function Leaves(visits: seq<Visit>): (r: seq<string>) {
    if visits == [] then [] else [visits[0].leaf] + Leaves(visits[1..])
  }

  lemma {:induction false} LeavesConcat(a: seq<Visit>, b: seq<Visit>)
    ensures Leaves(a + b) == Leaves(a) + Leaves(b)
  {
    if a == [] {
      assert a + b == b;
    } else {
      assert (a + b)[1..] == a[1..] + b;
      LeavesConcat(a[1..], b);
    }
  }

  /** The same without the places. */
  function ClauseLeaves(c: Clause): seq<string> {
    if c == [] then [] else [c[0].leaf] + if c[0].holds then ClauseLeaves(c[1..]) else []
  }

  function AlternativeLeaves(cs: seq<Clause>): seq<string> {
    if cs == [] then [] else ClauseLeaves(cs[0]) + if AllHold(cs[0]) then [] else AlternativeLeaves(cs[1..])
  }

  lemma {:induction false} LeavesOfClause(c: Clause, i: nat, j: nat)
    ensures Leaves(ClauseVisits(c, i, j)) == ClauseLeaves(c)
  {
    if c != [] {
      LeavesOfClause(c[1..], i, j + 1);
      LeavesConcat([Visit(i, j, c[0].leaf)], ClauseVisits(c[1..], i, j + 1));
    }
  }

  lemma {:induction false} LeavesOfAlternatives(cs: seq<Clause>, i: nat)
    ensures Leaves(AlternativeVisits(cs, i)) == AlternativeLeaves(cs)
  {
    if cs != [] {
      var first := ClauseVisits(cs[0], i, 0);
      LeavesOfClause(cs[0], i, 0);
      LeavesOfAlternatives(cs[1..], i + 1);
      LeavesConcat(first, AlternativeVisits(cs[1..], i + 1));
      assert first + [] == first;
      assert ClauseLeaves(cs[0]) + [] == ClauseLeaves(cs[0]);
    }
  }

  lemma ClauseHoldsIff(part: string, m: RuleMetrics, calib: CalibrationTable)
    ensures AllHold(ClauseOf(part, m, calib)) == ClauseHolds(part, m, calib)
  {
    var c, pieces := ClauseOf(part, m, calib), Split(part, "&&");
    assert forall j | 0 <= j < |c| :: c[j] == VerdictOf(pieces[j], m, calib);
  }

  // ---------------------------------------------------------------- the visits are the evaluator's

  lemma ClauseOfTrimmed(part: string, m: RuleMetrics, calib: CalibrationTable)
    ensures ClauseOf(Trim(part), m, calib) == ClauseOf(part, m, calib)
  {
    SplitOfTrim(part, "&&");
  }

  lemma AlternativesOfTrimmed(text: string, m: RuleMetrics, calib: CalibrationTable)
    ensures Alternatives(Trim(text), m, calib) == Alternatives(text, m, calib)
  {
    SplitOfTrim(text, "||");
    var a, b := Split(Trim(text), "||"), Split(text, "||");
    forall i | 0 <= i < |a| ensures ClauseOf(a[i], m, calib) == ClauseOf(b[i], m, calib) {
      ClauseOfTrimmed(a[i], m, calib);
      ClauseOfTrimmed(b[i], m, calib);
    }
  }

  lemma TraceOfLeaf(piece: string, m: RuleMetrics, calib: CalibrationTable)
    requires !Contains(piece, "||") && !Contains(piece, "&&")
    ensures EvalTrace(Trim(piece), m, calib) == (VerdictOf(piece, m, calib).holds, [Trim(piece)])
  {
    TrimIdempotent(piece);
    TrimContains(piece, "||");
    TrimContains(piece, "&&");
  }

  /** A piece whose evaluation comes to value and visits. */
  predicate Traced(piece: string, holds: bool, leaves: seq<string>, m: RuleMetrics, calib: CalibrationTable) {
    EvalTrace(Trim(piece), m, calib) == (holds, leaves)
  }

  lemma TraceAllStep(pieces: seq<string>, bound: nat, holds: bool, leaves: seq<string>, m: RuleMetrics, calib: CalibrationTable)
    requires forall k | 0 <= k < |pieces| :: |pieces[k]| < bound
    requires pieces != [] && Traced(pieces[0], holds, leaves, m, calib)
    ensures TraceAll(pieces, bound, m, calib).1 == leaves + if holds then TraceAll(pieces[1..], bound, m, calib).1 else []
  {}

  lemma TraceAnyStep(parts: seq<string>, bound: nat, holds: bool, leaves: seq<string>, m: RuleMetrics, calib: CalibrationTable)
    requires forall k | 0 <= k < |parts| :: |parts[k]| < bound
    requires parts != [] && Traced(parts[0], holds, leaves, m, calib)
    ensures TraceAny(parts, bound, m, calib).1 == leaves + if holds then [] else TraceAny(parts[1..], bound, m, calib).1
  {}

  lemma {:induction false} TraceOfPieces(pieces: seq<string>, c: Clause, bound: nat, m: RuleMetrics, calib: CalibrationTable)
    requires forall k | 0 <= k < |pieces| :: |pieces[k]| < bound
    requires |c| == |pieces| && forall k | 0 <= k < |c| :: Traced(pieces[k], c[k].holds, [c[k].leaf], m, calib)
    ensures TraceAll(pieces, bound, m, calib).1 == ClauseLeaves(c)
    decreases |pieces|
  {
    if pieces != [] {
      TraceAllStep(pieces, bound, c[0].holds, [c[0].leaf], m, calib);
      TraceOfPieces(pieces[1..], c[1..], bound, m, calib);
    }
  }

  lemma TraceOfClause(text: string, m: RuleMetrics, calib: CalibrationTable)
    requires !Contains(Trim(text), "||")
    ensures EvalTrace(text, m, calib).1 == ClauseLeaves(ClauseOf(text, m, calib))
  {
    var s := Trim(text);
    ClauseOfTrimmed(text, m, calib);
    if Contains(s, "&&") {
      var pieces, c := Split(s, "&&"), ClauseOf(s, m, calib);
      forall k | 0 <= k < |c| ensures Traced(pieces[k], c[k].holds, [c[k].leaf], m, calib) {
        SplitFree(s, "&&", k);
        SplitLacks(s, "&&", k, "||");
        TraceOfLeaf(pieces[k], m, calib);
      }
      TraceOfPieces(pieces, c, |text|, m, calib);
    } else {
      assert Split(s, "&&") == [s];
      TrimIdempotent(text);
      OnlyLeaf(ClauseOf(s, m, calib), s);
    }
  }

  lemma OnlyLeaf(c: Clause, leaf: string)
    requires |c| == 1 && c[0].leaf == leaf
    ensures ClauseLeaves(c) == [leaf]
  {}

  lemma TraceOfAlternative(part: string, m: RuleMetrics, calib: CalibrationTable)
    requires !Contains(part, "||")
    ensures TracedAsClause(part, ClauseOf(part, m, calib), m, calib)
  {
    TrimContains(part, "||");
    TrimIdempotent(part);
    TraceAgrees(Trim(part), m, calib);
    EvalOfClauseText(Trim(part), m, calib);
    ClauseHoldsIff(Trim(part), m, calib);
    ClauseOfTrimmed(part, m, calib);
    TraceOfClause(Trim(part), m, calib);
  }

  predicate TracedAsClause(part: string, c: Clause, m: RuleMetrics, calib: CalibrationTable) {
    Traced(part, AllHold(c), ClauseLeaves(c), m, calib)
  }

  lemma {:induction false} TraceOfParts(parts: seq<string>, cs: seq<Clause>, bound: nat, m: RuleMetrics, calib: CalibrationTable)
    requires forall k | 0 <= k < |parts| :: |parts[k]| < bound
    requires |cs| == |parts| && forall k | 0 <= k < |cs| :: TracedAsClause(parts[k], cs[k], m, calib)
    ensures TraceAny(parts, bound, m, calib).1 == AlternativeLeaves(cs)
    decreases |parts|
  {
    if parts != [] {
      TraceAnyStep(parts, bound, AllHold(cs[0]), ClauseLeaves(cs[0]), m, calib);
      TraceOfParts(parts[1..], cs[1..], bound, m, calib);
    }
  }

  lemma TraceOfAlternatives(text: string, m: RuleMetrics, calib: CalibrationTable)
    requires Contains(Trim(text), "||")
    ensures EvalTrace(text, m, calib).1 == AlternativeLeaves(Alternatives(Trim(text), m, calib))
  {
    var parts, cs := Split(Trim(text), "||"), Alternatives(Trim(text), m, calib);
    forall k | 0 <= k < |cs| ensures TracedAsClause(parts[k], cs[k], m, calib) {
      SplitFree(Trim(text), "||", k);
      TraceOfAlternative(parts[k], m, calib);
    }
    TraceOfParts(parts, cs, |text|, m, calib);
  }

  lemma OnlyAlternative(cs: seq<Clause>, c: Clause)
    requires cs == [c]
    ensures AlternativeLeaves(cs) == ClauseLeaves(c)
  {
    assert cs[1..] == [];
  }

  /** For every string, the visits in order are the leaves that the recursive evaluator evaluates. */
  lemma VisitsAreTheTrace(text: string, m: RuleMetrics, calib: CalibrationTable)
    ensures EvalTrace(text, m, calib).1 == Leaves(Visits(text, m, calib))
  {
    AlternativesOfTrimmed(text, m, calib);
    LeavesOfAlternatives(Alternatives(text, m, calib), 0);
    if Contains(Trim(text), "||") {
      TraceOfAlternatives(text, m, calib);
    } else {
      assert Split(Trim(text), "||") == [Trim(text)];
      TraceOfClause(text, m, calib);
      ClauseOfTrimmed(text, m, calib);
      OnlyAlternative(Alternatives(Trim(text), m, calib), ClauseOf(Trim(text), m, calib));
    }
  }

  // ---------------------------------------------------------------- the alternative that decides

  lemma {:induction false} ClauseVisitsStayIn(c: Clause, i: nat, j: nat)
    ensures c != [] ==> ClauseVisits(c, i, j) != []
    ensures forall k | 0 <= k < |ClauseVisits(c, i, j)| :: ClauseVisits(c, i, j)[k].alternative == i
  {
    if c != [] {
      ClauseVisitsStayIn(c[1..], i, j + 1);
    }
  }

  /** `d` is the first alternative that holds. */
  predicate Decides(cs: seq<Clause>, d: nat) {
    d < |cs| && AllHold(cs[d]) && forall k | 0 <= k < d :: !AllHold(cs[k])
  }

  /** The alternative of the last visit. */
  function LastAlternative(vs: seq<Visit>): nat {
    if vs == [] then 0 else vs[|vs| - 1].alternative
  }

  lemma {:induction false} LastVisitDecides(cs: seq<Clause>, i: nat)
    requires forall k | 0 <= k < |cs| :: cs[k] != []
    requires exists k :: 0 <= k < |cs| && AllHold(cs[k])
    ensures var vs := AlternativeVisits(cs, i);
            && vs != [] && vs[0].alternative == i
            && LastAlternative(vs) >= i && Decides(cs, LastAlternative(vs) - i)
  {
    var first := ClauseVisits(cs[0], i, 0);
    ClauseVisitsStayIn(cs[0], i, 0);
    if AllHold(cs[0]) {
      assert AlternativeVisits(cs, i) == first;
    } else {
      var k :| 0 <= k < |cs| && AllHold(cs[k]);
      assert cs[1..][k - 1] == cs[k];
      LastVisitDecides(cs[1..], i + 1);
      var rest := AlternativeVisits(cs[1..], i + 1);
      assert LastAlternative(first + rest) == LastAlternative(rest);
      var d := LastAlternative(rest) - i;
      assert cs[1..][d - 1] == cs[d];
      forall n | 0 <= n < d ensures !AllHold(cs[n]) {
        if n > 0 {
          assert cs[1..][n - 1] == cs[n];
        }
      }
    }
  }

  /** The alternative at which the evaluator stopped. */
  function Decided(text: string, m: RuleMetrics, calib: CalibrationTable): nat {
    LastAlternative(Visits(text, m, calib))
  }

  lemma SomeAlternativeHolds(text: string, m: RuleMetrics, calib: CalibrationTable)
    requires EvalCondition(text, m, calib)
    ensures var cs := Alternatives(text, m, calib);
            exists k :: 0 <= k < |cs| && AllHold(cs[k])
  {
    var parts := Split(text, "||");
    EvalIsOrOfAnds(text, m, calib);
    var k :| 0 <= k < |parts| && ClauseHolds(parts[k], m, calib);
    ClauseHoldsIff(parts[k], m, calib);
    assert AllHold(Alternatives(text, m, calib)[k]);
  }

  /** For every condition that holds, the evaluator stopped at the first alternative that holds. */
  lemma DecidedIsTheFirstThatHolds(text: string, m: RuleMetrics, calib: CalibrationTable)
    requires EvalCondition(text, m, calib)
    ensures Decides(Alternatives(text, m, calib), Decided(text, m, calib))
    ensures Visits(text, m, calib) != [] && Visits(text, m, calib)[0].alternative == 0
  {
    SomeAlternativeHolds(text, m, calib);
    LastVisitDecides(Alternatives(text, m, calib), 0);
  }

  /** For every string: a fired rule is explained by a comparison of the alternative that made it
      fire if and only if its first alternative holds. The comparison is then true as well. */
  lemma ExplanationShowsTheTriggerExactlyWhen(text: string, m: RuleMetrics, calib: CalibrationTable)
    requires EvalCondition(text, m, calib)
    ensures Visits(text, m, calib) != []
    ensures var shown := Visits(text, m, calib)[0];
            && shown.leaf == FirstLeaf(text)
            && (shown.alternative == Decided(text, m, calib) <==> ClauseHolds(Split(text, "||")[0], m, calib))
            && (shown.alternative == Decided(text, m, calib) ==>
                  && EvalLeaf(shown.leaf, m, calib) == Ok(true)
                  && ExplanationFor(text, m, calib).metricId != METRIC_NONE)
  {
    var d := Decided(text, m, calib);
    var vs := Visits(text, m, calib);
    DecidedIsTheFirstThatHolds(text, m, calib);
    VisitsAreTheTrace(text, m, calib);
    FirstLeafIsVisitedFirst(text, m, calib);
    ClauseHoldsIff(Split(text, "||")[0], m, calib);
    assert Leaves(vs)[0] == vs[0].leaf;
    if d == 0 {
      FirstLeafIsFirstPiece(text);
      LeafParsersAgree(FirstLeaf(text), OPS, m, calib);
    }
  }

  /** The same for a written formula: the shown comparison comes from the deciding clause if and
      only if the first clause holds, which is more than that the shown comparison is true. */
  lemma ExplanationOfFormulaShowsTheTriggerExactlyWhen(f: Formula, m: RuleMetrics, calib: CalibrationTable)
    requires WellFormed(f) && FormulaHolds(f, m, calib)
    ensures EvalCondition(FormulaText(f), m, calib) && Visits(FormulaText(f), m, calib) != []
    ensures Visits(FormulaText(f), m, calib)[0].alternative == Decided(FormulaText(f), m, calib)
            <==> ConjunctionHolds(f[0], m, calib)
  {
    FormulaMeaning(f, m, calib);
    ExplanationShowsTheTriggerExactlyWhen(FormulaText(f), m, calib);
    FirstClauseText(f, m, calib);
  }

  lemma FirstClauseText(f: Formula, m: RuleMetrics, calib: CalibrationTable)
    requires WellFormed(f)
    ensures ClauseHolds(Split(FormulaText(f), "||")[0], m, calib) == ConjunctionHolds(f[0], m, calib)
  {
    var texts := ClauseTexts(f);
    forall i | 0 <= i < |f| ensures '|' !in texts[i] {
      ClauseMeaning(f[i], m, calib);
    }
    SplitJoin(texts, '|');
    assert Split(FormulaText(f), "||") == texts;
    ClauseMeaning(f[0], m, calib);
  }

  /** Any rule `a && c || b` with `a` and `b` true and `c` not fires by `b` while the explanation
      shows `a`, which is true and has not made it fire. */
  lemma ShownComparisonNeedNotTrigger(a: Leaf, c: Leaf, b: Leaf, m: RuleMetrics, calib: CalibrationTable)
    requires a.Valid() && c.Valid() && b.Valid()
    requires a.Holds(m, calib) && !c.Holds(m, calib) && b.Holds(m, calib)
    ensures var f := [[a, c], [b]];
            && WellFormed(f) && EvalCondition(FormulaText(f), m, calib)
            && Visits(FormulaText(f), m, calib) != []
            && Decided(FormulaText(f), m, calib) == 1 && Visits(FormulaText(f), m, calib)[0].alternative == 0
            && var e := ExplanationFor(FormulaText(f), m, calib);
               && e.currentValue == MetricValue(a.metric, m)
               && Compare(a.op, e.currentValue, e.thresholdValue)
  {
    var f := [[a, c], [b]];
    assert f[0] == [a, c] && f[1] == [b] && f[0][0] == a && f[0][1] == c && f[1][0] == b;
    assert ConjunctionHolds(f[1], m, calib) && !ConjunctionHolds(f[0], m, calib);
    ExplanationOfFormulaShowsTheTriggerExactlyWhen(f, m, calib);
    ExplanationOfFormula(f, m, calib);
    AlternativesOfFormula(f);
    DecidedIsTheFirstThatHolds(FormulaText(f), m, calib);
  }

  lemma AlternativesOfFormula(f: Formula)
    requires WellFormed(f)
    ensures |Split(FormulaText(f), "||")| == |f|
  {
    var texts := ClauseTexts(f);
    forall i | 0 <= i < |f| ensures '|' !in texts[i] {
      ClauseMeaning(f[i], RuleMetrics(0, 0, 0, 0, 0, 0, 0, 0), map[]);
    }
    SplitJoin(texts, '|');
  }

  /** A concrete case: `gpu_temp_c>50&&cpu_load_pct>90||memory_usage_pct>80` at 60 degrees, 10 and
      90 percent fires by its memory, and the explanation shows the temperature. */
  lemma TemperatureShownMemoryTriggered() returns (a: Leaf, c: Leaf, b: Leaf, m: RuleMetrics)
    ensures a.Valid() && a.metric == Metric.GpuTempC && a.op == Gt && a.literal == 50 && m.gpuTempC == 60
    ensures c.Valid() && c.metric == Metric.CpuLoadPct && c.op == Gt && c.literal == 90 && m.cpuLoadPct == 10
    ensures b.Valid() && b.metric == Metric.MemoryUsagePct && b.op == Gt && b.literal == 80 && m.memoryUsagePct == 90
    ensures var f := [[a, c], [b]];
            && WellFormed(f) && EvalCondition(FormulaText(f), m, map[])
            && Visits(FormulaText(f), m, map[]) != []
            && Visits(FormulaText(f), m, map[])[0].alternative == 0 && Decided(FormulaText(f), m, map[]) == 1
            && ExplanationFor(FormulaText(f), m, map[]).currentValue == 60
  {
    var n50 := Numeral(50);
    var n90 := Numeral(90);
    var n80 := Numeral(80);
    a := Leaf(Metric.GpuTempC, Gt, 50, n50, "", "", "", "");
    c := Leaf(Metric.CpuLoadPct, Gt, 90, n90, "", "", "", "");
    b := Leaf(Metric.MemoryUsagePct, Gt, 80, n80, "", "", "", "");
    m := RuleMetrics(0, 60, 0, 90, 10, 0, 0, 0);
    ShownComparisonNeedNotTrigger(a, c, b, m, map[]);
  }
}
