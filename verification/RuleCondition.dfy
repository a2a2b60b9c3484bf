/** Rule conditions: an "or" of "and"s of `metric op literal`, evaluated by splitting the
    text, with a second pass over the same text that explains a fired rule. */
module RuleCondition {
  import opened Basics
  import opened RuleText

  datatype RuleMetrics = RuleMetrics(
    frameDropPct: u32,
    gpuTempC: i16,
    cpuTempC: i16,
    memoryUsagePct: u32,
    cpuLoadPct: u32,
    gpuLoadPct: u32,
    networkRttMs: u16,
    networkLossPct: u8)

  /** Metric name to the threshold learnt at run time. */
  type CalibrationTable = map<string, i32>

  const METRIC_NONE: u32 := 8

  /** The cast of an unsigned 32-bit value to a signed one: the upper half wraps. */
  function AsI32(x: u32): i32 {
    if x <= I32_MAX then x else x - 0x1_0000_0000
  }

  /** Current value and identifier of a metric, by the name a condition uses. */
  function MetricValueAndId(name: string, m: RuleMetrics): (r: Option<(i32, u32)>)
    ensures r.Some? ==> r.value.1 < METRIC_NONE
  {
    match name
    case "frame_drop_pct" => Some((AsI32(m.frameDropPct), 0))
    case "gpu_temp_c" => Some((m.gpuTempC, 1))
    case "cpu_temp_c" => Some((m.cpuTempC, 2))
    case "memory_usage_pct" => Some((AsI32(m.memoryUsagePct), 3))
    case "cpu_load_pct" => Some((AsI32(m.cpuLoadPct), 4))
    case "gpu_load_pct" => Some((AsI32(m.gpuLoadPct), 5))
    case "network_rtt_ms" => Some((m.networkRttMs, 6))
    case "network_loss_pct" => Some((m.networkLossPct, 7))
    case _ => None
  }

  function EffectiveThreshold(name: string, literal: i32, calib: CalibrationTable): (i32, bool) {
    if name in calib then (calib[name], true) else (literal, false)
  }

  datatype Op = Ge | Le | Gt | Lt | Eq

  function OpText(op: Op): string {
    match op
    case Ge => ">="
    case Le => "<="
    case Gt => ">"
    case Lt => "<"
    case Eq => "=="
  }

  predicate Compare(op: Op, value: int, threshold: int) {
    match op
    case Gt => value > threshold
    case Lt => value < threshold
    case Ge => value >= threshold
    case Le => value <= threshold
    case Eq => value == threshold
  }

  /** The order in which operators are looked for; longer ones come before their prefixes. */
  const OPS: seq<Op> := [Ge, Le, Gt, Lt, Eq]

  datatype LeafError = InvalidThreshold(text: string) | UnknownMetric(name: string) | CannotParse(cond: string)
  datatype LeafResult = Ok(value: bool) | Err(error: LeafError)

  // ---------------------------------------------------------------- evaluation

  function EvalLeafFrom(cond: string, ops: seq<Op>, m: RuleMetrics, calib: CalibrationTable): LeafResult {
    if ops == [] then Err(CannotParse(cond))
    else
      match Find(cond, OpText(ops[0]))
      case None => EvalLeafFrom(cond, ops[1..], m, calib)
      case Some(idx) =>
        EvalComparison(ops[0], Trim(cond[..idx]), Trim(cond[idx + |OpText(ops[0])|..]), m, calib)
  }

  function EvalComparison(op: Op, name: string, text: string, m: RuleMetrics, calib: CalibrationTable): LeafResult {
    match ParseI32(text)
    case None => Err(InvalidThreshold(text))
    case Some(literal) =>
      match MetricValueAndId(name, m)
      case None => Err(UnknownMetric(name))
      case Some((value, _)) => Ok(Compare(op, value, EffectiveThreshold(name, literal, calib).0))
  }

  function EvalLeaf(cond: string, m: RuleMetrics, calib: CalibrationTable): LeafResult {
    EvalLeafFrom(cond, OPS, m, calib)
  }

  predicate EvalCondition(condition: string, m: RuleMetrics, calib: CalibrationTable)
    decreases |condition|, 1, 0
  {
    var c := Trim(condition);
    if Contains(c, "||") then AnyPart(Split(c, "||"), |condition|, m, calib)
    else if Contains(c, "&&") then AllParts(Split(c, "&&"), |condition|, m, calib)
    else EvalLeaf(c, m, calib) == Ok(true)
  }

  /** The loop over the alternatives: stops at the first true one. */
  predicate AnyPart(parts: seq<string>, bound: nat, m: RuleMetrics, calib: CalibrationTable)
    requires forall i | 0 <= i < |parts| :: |parts[i]| < bound
    decreases bound, 0, |parts|
  {
    parts != [] && (EvalCondition(Trim(parts[0]), m, calib) || AnyPart(parts[1..], bound, m, calib))
  }

  /** The loop over the conjuncts: stops at the first false one. */
  predicate AllParts(parts: seq<string>, bound: nat, m: RuleMetrics, calib: CalibrationTable)
    requires forall i | 0 <= i < |parts| :: |parts[i]| < bound
    decreases bound, 0, |parts|
  {
    parts == [] || (EvalCondition(Trim(parts[0]), m, calib) && AllParts(parts[1..], bound, m, calib))
  }

  lemma {:induction false} AnyPartExists(parts: seq<string>, bound: nat, m: RuleMetrics, calib: CalibrationTable)
    requires forall i | 0 <= i < |parts| :: |parts[i]| < bound
    ensures AnyPart(parts, bound, m, calib)
       <==> exists i | 0 <= i < |parts| :: EvalCondition(Trim(parts[i]), m, calib)
  {
    if parts != [] {
      AnyPartExists(parts[1..], bound, m, calib);
      if exists i | 0 <= i < |parts| :: EvalCondition(Trim(parts[i]), m, calib) {
        var i :| 0 <= i < |parts| && EvalCondition(Trim(parts[i]), m, calib);
        if i > 0 {
          assert parts[1..][i - 1] == parts[i];
        }
      }
    }
  }

  lemma {:induction false} AllPartsForall(parts: seq<string>, bound: nat, m: RuleMetrics, calib: CalibrationTable)
    requires forall i | 0 <= i < |parts| :: |parts[i]| < bound
    ensures AllParts(parts, bound, m, calib)
       <==> forall i | 0 <= i < |parts| :: EvalCondition(Trim(parts[i]), m, calib)
  {
    if parts != [] {
      AllPartsForall(parts[1..], bound, m, calib);
      if AllParts(parts, bound, m, calib) {
        forall i | 0 <= i < |parts|
          ensures EvalCondition(Trim(parts[i]), m, calib)
        {
          if i > 0 {
            assert parts[1..][i - 1] == parts[i];
          }
        }
      }
    }
  }

  // ---------------------------------------------------------------- meaning of any text

  /** Every `&&`-piece is a leaf that evaluates without error to true. */
  predicate ClauseHolds(clause: string, m: RuleMetrics, calib: CalibrationTable) {
    forall j | 0 <= j < |Split(clause, "&&")| :: EvalLeaf(Trim(Split(clause, "&&")[j]), m, calib) == Ok(true)
  }

  /** Some `||`-piece is a clause that holds. */
  predicate TextHolds(text: string, m: RuleMetrics, calib: CalibrationTable) {
    exists i | 0 <= i < |Split(text, "||")| :: ClauseHolds(Split(text, "||")[i], m, calib)
  }

  lemma ClauseOfTrim(clause: string, m: RuleMetrics, calib: CalibrationTable)
    ensures ClauseHolds(Trim(clause), m, calib) == ClauseHolds(clause, m, calib)
  {
    SplitOfTrim(clause, "&&");
    var a, b := Split(Trim(clause), "&&"), Split(clause, "&&");
    assert forall j | 0 <= j < |a| :: Trim(a[j]) == Trim(b[j]);
  }

  lemma TextOfTrim(text: string, m: RuleMetrics, calib: CalibrationTable)
    ensures TextHolds(Trim(text), m, calib) == TextHolds(text, m, calib)
  {
    SplitOfTrim(text, "||");
    var a, b := Split(Trim(text), "||"), Split(text, "||");
    forall i | 0 <= i < |a|
      ensures ClauseHolds(a[i], m, calib) == ClauseHolds(b[i], m, calib)
    {
      ClauseOfTrim(a[i], m, calib);
      ClauseOfTrim(b[i], m, calib);
    }
  }

  lemma EvalOfLeafText(text: string, m: RuleMetrics, calib: CalibrationTable)
    requires !Contains(text, "||") && !Contains(text, "&&")
    ensures EvalCondition(Trim(text), m, calib) <==> EvalLeaf(Trim(text), m, calib) == Ok(true)
  {
    TrimIdempotent(text);
    TrimContains(text, "||");
    TrimContains(text, "&&");
  }

  lemma EvalOfClauseText(text: string, m: RuleMetrics, calib: CalibrationTable)
    requires !Contains(Trim(text), "||")
    ensures EvalCondition(text, m, calib) == ClauseHolds(text, m, calib)
  {
    var c := Trim(text);
    ClauseOfTrim(text, m, calib);
    if Contains(c, "&&") {
      var parts := Split(c, "&&");
      AllPartsForall(parts, |text|, m, calib);
      forall i | 0 <= i < |parts|
        ensures EvalCondition(Trim(parts[i]), m, calib) <==> EvalLeaf(Trim(parts[i]), m, calib) == Ok(true)
      {
        SplitFree(c, "&&", i);
        SplitLacks(c, "&&", i, "||");
        EvalOfLeafText(parts[i], m, calib);
      }
    } else {
      assert Split(c, "&&") == [c];
      TrimIdempotent(text);
      assert ClauseHolds(c, m, calib) <==> EvalLeaf(Trim(Split(c, "&&")[0]), m, calib) == Ok(true);
    }
  }

  /** For every string, well formed or not, the recursive evaluator computes the
      or-of-ands of the trimmed pieces; a piece in error counts as false. */
  lemma EvalIsOrOfAnds(text: string, m: RuleMetrics, calib: CalibrationTable)
    ensures EvalCondition(text, m, calib) == TextHolds(text, m, calib)
  {
    var c := Trim(text);
    TextOfTrim(text, m, calib);
    if Contains(c, "||") {
      var parts := Split(c, "||");
      AnyPartExists(parts, |text|, m, calib);
      forall i | 0 <= i < |parts|
        ensures EvalCondition(Trim(parts[i]), m, calib) == ClauseHolds(parts[i], m, calib)
      {
        SplitFree(c, "||", i);
        TrimContains(parts[i], "||");
        TrimIdempotent(parts[i]);
        EvalOfClauseText(Trim(parts[i]), m, calib);
        ClauseOfTrim(parts[i], m, calib);
      }
    } else {
      assert Split(c, "||") == [c];
      EvalOfClauseText(text, m, calib);
      ClauseOfTrim(text, m, calib);
      assert TextHolds(c, m, calib) <==> ClauseHolds(Split(c, "||")[0], m, calib);
    }
  }

  // ---------------------------------------------------------------- meaning of printed formulas

  datatype Metric =
    | FrameDropPct | GpuTempC | CpuTempC | MemoryUsagePct
    | CpuLoadPct | GpuLoadPct | NetworkRttMs | NetworkLossPct

  function MetricName(metric: Metric): string {
    match metric
    case FrameDropPct => "frame_drop_pct"
    case GpuTempC => "gpu_temp_c"
    case CpuTempC => "cpu_temp_c"
    case MemoryUsagePct => "memory_usage_pct"
    case CpuLoadPct => "cpu_load_pct"
    case GpuLoadPct => "gpu_load_pct"
    case NetworkRttMs => "network_rtt_ms"
    case NetworkLossPct => "network_loss_pct"
  }

  /** The number by which the user interface knows a metric. */
  function MetricNumber(metric: Metric): nat {
    match metric
    case FrameDropPct => 0
    case GpuTempC => 1
    case CpuTempC => 2
    case MemoryUsagePct => 3
    case CpuLoadPct => 4
    case GpuLoadPct => 5
    case NetworkRttMs => 6
    case NetworkLossPct => 7
  }

  /** The reading of a metric. */
  function Reading(metric: Metric, m: RuleMetrics): (x: int)
    ensures -0x8000 <= x < 0x1_0000_0000
  {
    match metric
    case FrameDropPct => m.frameDropPct
    case GpuTempC => m.gpuTempC
    case CpuTempC => m.cpuTempC
    case MemoryUsagePct => m.memoryUsagePct
    case CpuLoadPct => m.cpuLoadPct
    case GpuLoadPct => m.gpuLoadPct
    case NetworkRttMs => m.networkRttMs
    case NetworkLossPct => m.networkLossPct
  }

  /** What is compared: the reading itself, or 2^32 less where it does not fit 32 signed bits. */
  function MetricValue(metric: Metric, m: RuleMetrics): i32 {
    var x := Reading(metric, m);
    if x <= 0x7FFF_FFFF then x else x - 0x1_0000_0000
  }

  /** A comparison together with one way of writing it: a numeral that reads as the literal
      and the blank text around the three tokens. */
  datatype Leaf = Leaf(
    metric: Metric, op: Op, literal: i32,
    numeral: string, before: string, afterMetric: string, afterOp: string, after: string)
  {
    predicate Valid() {
      && ParseI32(numeral) == Some(literal)
      && AllSpace(before) && AllSpace(afterMetric) && AllSpace(afterOp) && AllSpace(after)
    }

    function Left(): string { MetricName(metric) + afterMetric }

    function Right(): string { afterOp + numeral }

    /** The operator as a rule's author writes it. */
    function Symbol(): string {
      match op
      case Gt => ">"
      case Lt => "<"
      case Eq => "=="
      case Ge => ">="
      case Le => "<="
    }

    function Text(): string { before + (Left() + Symbol() + Right()) + after }

    /** The threshold in force: the table's for a calibrated metric, else the literal. */
    function Threshold(calib: CalibrationTable): i32 {
      if MetricName(metric) in calib then calib[MetricName(metric)] else literal
    }

    /** What the comparison says, operator by operator. */
    predicate Holds(m: RuleMetrics, calib: CalibrationTable) {
      var v, t := MetricValue(metric, m), Threshold(calib);
      || (op == Gt && t < v)
      || (op == Lt && v < t)
      || (op == Ge && !(v < t))
      || (op == Le && !(t < v))
      || (op == Eq && v == t)
    }
  }

  type Clause = seq<Leaf>
  type Formula = seq<Clause>

  predicate WellFormed(f: Formula) {
    && f != []
    && (forall i | 0 <= i < |f| :: f[i] != [])
    && forall i, j | 0 <= i < |f| && 0 <= j < |f[i]| :: f[i][j].Valid()
  }

  function LeafTexts(c: Clause): (r: seq<string>)
    ensures |r| == |c| && forall j | 0 <= j < |c| :: r[j] == c[j].Text()
  {
    seq(|c|, j requires 0 <= j < |c| => c[j].Text())
  }

  function ClauseText(c: Clause): string
    requires c != []
  {
    Join(LeafTexts(c), "&&")
  }

  function ClauseTexts(f: Formula): (r: seq<string>)
    requires forall i | 0 <= i < |f| :: f[i] != []
    ensures |r| == |f| && forall i | 0 <= i < |f| :: r[i] == ClauseText(f[i])
  {
    seq(|f|, i requires 0 <= i < |f| => ClauseText(f[i]))
  }

  function FormulaText(f: Formula): string
    requires WellFormed(f)
  {
    Join(ClauseTexts(f), "||")
  }

  lemma MetricOfName(metric: Metric, m: RuleMetrics)
    ensures MetricValueAndId(MetricName(metric), m) == Some((MetricValue(metric, m), MetricNumber(metric)))
  {}

  lemma SymbolIsSearchedFor(leaf: Leaf)
    ensures leaf.Symbol() == OpText(leaf.op)
  {}

  /** The characters operators and connectives are made of. */
  predicate IsMark(c: char) {
    c == '<' || c == '>' || c == '=' || c == '|' || c == '&'
  }

  predicate Unmarked(s: string) {
    forall i | 0 <= i < |s| :: !IsMark(s[i])
  }

  lemma MetricNameChars(metric: Metric)
    ensures MetricName(metric) != "" && NoSpace(MetricName(metric)) && Unmarked(MetricName(metric))
  {
    NameCharsArePlain(MetricName(metric));
  }

  predicate NameChars(s: string) {
    forall i | 0 <= i < |s| :: 'a' <= s[i] <= 'z' || s[i] == '_'
  }

  lemma NameCharsArePlain(s: string)
    requires NameChars(s)
    ensures NoSpace(s) && Unmarked(s)
  {}

  lemma NumeralChars(s: string)
    requires ParseI32(s).Some?
    ensures s != "" && NoSpace(s) && Unmarked(s)
  {
    forall i | 0 <= i < |s|
      ensures !IsSpace(s[i]) && !IsMark(s[i])
    {
      assert s[i] in s;
    }
  }

  lemma OpChars(op: Op)
    ensures OpText(op) != "" && NoSpace(OpText(op))
    ensures '|' !in OpText(op) && '&' !in OpText(op)
  {}

  /** In a printed leaf the operator that was printed is the first one the search order
      finds, and it is found where it was printed. */
  lemma FindInLeaf(left: string, op: Op, right: string, o: Op)
    requires Unmarked(left) && Unmarked(right)
    ensures var s := left + OpText(op) + right;
            && Find(s, OpText(op)) == Some(|left|)
            && (o in {Ge, Le} && o != op ==> Find(s, OpText(o)) == None)
            && (op in {Eq, Lt} && o == Gt ==> Find(s, OpText(o)) == None)
            && (op == Eq && o == Lt ==> Find(s, OpText(o)) == None)
  {
    var s := left + OpText(op) + right;
    assert OccursAt(s, OpText(op), |left|);
    forall j: nat | j < |left|
      ensures !OccursAt(s, OpText(op), j)
    {
      assert s[j + 0] == left[j];
      assert IsMark(OpText(op)[0]);
    }
    FindIs(s, OpText(op), |left|);
    if Find(s, OpText(o)).Some? {
      var i := Find(s, OpText(o)).value;
      FindSound(s, OpText(o));
      assert s[i + 0] == OpText(o)[0];
      assert |OpText(o)| == 2 ==> s[i + 1] == OpText(o)[1];
      assert IsMark(s[i]);
      assert |left| <= i < |left| + |OpText(op)|;
      assert s[i] == OpText(op)[i - |left|];
      assert |OpText(o)| == 2 ==> IsMark(s[i + 1]);
    }
  }

  lemma UnmarkedConcat(a: string, b: string)
    requires Unmarked(a) && Unmarked(b)
    ensures Unmarked(a + b)
  {}

  lemma BlankUnmarked(s: string)
    requires AllSpace(s)
    ensures Unmarked(s)
  {}

  /** Operators that do not occur are passed over. */
  lemma {:induction false} SkipOps(s: string, ops: seq<Op>, k: nat, m: RuleMetrics, calib: CalibrationTable)
    requires k <= |ops| && forall i | 0 <= i < k :: Find(s, OpText(ops[i])) == None
    ensures EvalLeafFrom(s, ops, m, calib) == EvalLeafFrom(s, ops[k..], m, calib)
  {
    if k == 0 {
      assert ops[0..] == ops;
    } else {
      SkipOps(s, ops[1..], k - 1, m, calib);
      assert ops[1..][k - 1..] == ops[k..];
    }
  }

  function OpIndex(op: Op): (k: nat)
    ensures k < |OPS| && OPS[k] == op
  {
    match op case Ge => 0 case Le => 1 case Gt => 2 case Lt => 3 case Eq => 4
  }

  /** In a printed leaf the operator search settles on the printed operator. */
  lemma SearchSettles(left: string, op: Op, right: string)
    requires Unmarked(left) && Unmarked(right)
    ensures var s := left + OpText(op) + right;
            && Find(s, OpText(op)) == Some(|left|)
            && s[..|left|] == left && s[|left| + |OpText(op)|..] == right
            && forall i | 0 <= i < OpIndex(op) :: Find(s, OpText(OPS[i])) == None
  {
    forall i | 0 <= i < OpIndex(op)
      ensures Find(left + OpText(op) + right, OpText(OPS[i])) == None
    {
      FindInLeaf(left, op, right, OPS[i]);
    }
    FindInLeaf(left, op, right, op);
  }

  lemma LeftSide(leaf: Leaf)
    requires leaf.Valid()
    ensures Trim(leaf.Left()) == MetricName(leaf.metric)
    ensures Unmarked(leaf.Left()) && leaf.Left() != "" && !IsSpace(leaf.Left()[0])
  {
    var name := MetricName(leaf.metric);
    MetricNameChars(leaf.metric);
    BlankUnmarked(leaf.afterMetric);
    UnmarkedConcat(name, leaf.afterMetric);
    assert "" + name + leaf.afterMetric == leaf.Left();
    TrimPad("", name, leaf.afterMetric);
    assert leaf.Left()[0] == name[0];
  }

  lemma RightSide(leaf: Leaf)
    requires leaf.Valid()
    ensures Trim(leaf.Right()) == leaf.numeral
    ensures Unmarked(leaf.Right()) && leaf.Right() != "" && !IsSpace(leaf.Right()[|leaf.Right()| - 1])
  {
    NumeralChars(leaf.numeral);
    BlankUnmarked(leaf.afterOp);
    UnmarkedConcat(leaf.afterOp, leaf.numeral);
    assert leaf.afterOp + leaf.numeral + "" == leaf.Right();
    TrimPad(leaf.afterOp, leaf.numeral, "");
    assert leaf.Right()[|leaf.Right()| - 1] == leaf.numeral[|leaf.numeral| - 1];
  }

  /** What trimming leaves of a printed leaf and of the two sides of its operator. */
  lemma LeafTrims(leaf: Leaf)
    requires leaf.Valid()
    ensures Trim(leaf.Text()) == leaf.Left() + OpText(leaf.op) + leaf.Right()
    ensures Trim(leaf.Left()) == MetricName(leaf.metric)
    ensures Trim(leaf.Right()) == leaf.numeral
    ensures Unmarked(leaf.Left()) && Unmarked(leaf.Right())
  {
    LeftSide(leaf);
    RightSide(leaf);
    SymbolIsSearchedFor(leaf);
    TrimPad(leaf.before, leaf.Left() + OpText(leaf.op) + leaf.Right(), leaf.after);
  }

  lemma EvalAtOperator(s: string, ops: seq<Op>, idx: nat, m: RuleMetrics, calib: CalibrationTable)
    requires ops != [] && Find(s, OpText(ops[0])) == Some(idx)
    ensures EvalLeafFrom(s, ops, m, calib)
         == EvalComparison(ops[0], Trim(s[..idx]), Trim(s[idx + |OpText(ops[0])|..]), m, calib)
  {}

  /** A printed leaf evaluates, without error, to its meaning. */
  lemma LeafMeaning(leaf: Leaf, m: RuleMetrics, calib: CalibrationTable)
    requires leaf.Valid()
    ensures EvalLeaf(Trim(leaf.Text()), m, calib) == Ok(leaf.Holds(m, calib))
  {
    var left, right, op := leaf.Left(), leaf.Right(), leaf.op;
    var s := left + OpText(op) + right;
    LeafTrims(leaf);
    SearchSettles(left, op, right);
    SkipOps(s, OPS, OpIndex(op), m, calib);
    MetricOfName(leaf.metric, m);
    EvalAtOperator(s, OPS[OpIndex(op)..], |left|, m, calib);
    CompareIsMeaning(leaf, m, calib);
  }

  lemma CompareIsMeaning(leaf: Leaf, m: RuleMetrics, calib: CalibrationTable)
    ensures Compare(leaf.op, MetricValue(leaf.metric, m), EffectiveThreshold(MetricName(leaf.metric), leaf.literal, calib).0)
            == leaf.Holds(m, calib)
  {}

  /** Written out: a valid comparison of a reading `v` that fits 32 signed bits with the threshold `t`
      in force evaluates to what its operator says of the two. */
  lemma LeafDecides(leaf: Leaf, m: RuleMetrics, calib: CalibrationTable, v: int, t: int)
    requires leaf.Valid() && v == Reading(leaf.metric, m) && v <= 0x7FFF_FFFF
    requires t == if MetricName(leaf.metric) in calib then calib[MetricName(leaf.metric)] else leaf.literal
    ensures leaf.op == Gt ==> EvalLeaf(Trim(leaf.Text()), m, calib) == Ok(v > t)
    ensures leaf.op == Lt ==> EvalLeaf(Trim(leaf.Text()), m, calib) == Ok(v < t)
    ensures leaf.op == Ge ==> EvalLeaf(Trim(leaf.Text()), m, calib) == Ok(v >= t)
    ensures leaf.op == Le ==> EvalLeaf(Trim(leaf.Text()), m, calib) == Ok(v <= t)
    ensures leaf.op == Eq ==> EvalLeaf(Trim(leaf.Text()), m, calib) == Ok(v == t)
  {
    LeafMeaning(leaf, m, calib);
  }

  lemma LeafTextPlain(leaf: Leaf)
    requires leaf.Valid()
    ensures '|' !in leaf.Text() && '&' !in leaf.Text()
  {
    MetricNameChars(leaf.metric);
    NumeralChars(leaf.numeral);
    OpChars(leaf.op);
    SymbolIsSearchedFor(leaf);
  }

  lemma {:induction false} JoinWithout(parts: seq<string>, sep: string, c: char)
    requires parts != [] && c !in sep && forall i | 0 <= i < |parts| :: c !in parts[i]
    ensures c !in Join(parts, sep)
    decreases |parts|
  {
    if |parts| > 1 {
      JoinWithout(parts[1..], sep, c);
    }
  }

  lemma ClauseMeaning(c: Clause, m: RuleMetrics, calib: CalibrationTable)
    requires c != [] && forall j | 0 <= j < |c| :: c[j].Valid()
    ensures '|' !in ClauseText(c)
    ensures ClauseHolds(ClauseText(c), m, calib) == ConjunctionHolds(c, m, calib)
  {
    var texts := LeafTexts(c);
    forall j | 0 <= j < |c|
      ensures '|' !in texts[j] && '&' !in texts[j]
      ensures EvalLeaf(Trim(texts[j]), m, calib) == Ok(c[j].Holds(m, calib))
    {
      LeafTextPlain(c[j]);
      LeafMeaning(c[j], m, calib);
    }
    JoinWithout(texts, "&&", '|');
    SplitJoin(texts, '&');
    assert Split(ClauseText(c), "&&") == texts;
  }

  predicate ConjunctionHolds(c: Clause, m: RuleMetrics, calib: CalibrationTable) {
    forall j | 0 <= j < |c| :: c[j].Holds(m, calib)
  }

  predicate FormulaHolds(f: Formula, m: RuleMetrics, calib: CalibrationTable) {
    exists i | 0 <= i < |f| :: ConjunctionHolds(f[i], m, calib)
  }

  /** Evaluating the text of a formula, with any spacing and any spelling of its literals,
      gives the formula's meaning, calibrated metrics using the table's threshold. */
  lemma FormulaMeaning(f: Formula, m: RuleMetrics, calib: CalibrationTable)
    requires WellFormed(f)
    ensures EvalCondition(FormulaText(f), m, calib) == FormulaHolds(f, m, calib)
  {
    var texts := ClauseTexts(f);
    forall i | 0 <= i < |f|
      ensures '|' !in texts[i]
      ensures ClauseHolds(texts[i], m, calib) == ConjunctionHolds(f[i], m, calib)
    {
      ClauseMeaning(f[i], m, calib);
    }
    SplitJoin(texts, '|');
    assert Split(FormulaText(f), "||") == texts;
    EvalIsOrOfAnds(FormulaText(f), m, calib);
    assert TextHolds(FormulaText(f), m, calib) <==> exists i | 0 <= i < |texts| :: ClauseHolds(texts[i], m, calib);
  }

  // ---------------------------------------------------------------- explanation

  datatype Explanation = Explanation(metricId: u32, currentValue: i32, thresholdValue: i32, calibrated: bool)

  const NO_EXPLANATION := Explanation(METRIC_NONE, 0, 0, false)

  /** The second parser: metric name and literal of a leaf. */
  function ParseLeafFrom(cond: string, ops: seq<Op>): Option<(string, i32)> {
    if ops == [] then None
    else
      match Find(cond, OpText(ops[0]))
      case None => ParseLeafFrom(cond, ops[1..])
      case Some(idx) =>
        match ParseI32(Trim(cond[idx + |OpText(ops[0])|..]))
        case None => None
        case Some(literal) => Some((Trim(cond[..idx]), literal))
  }

  function ParseLeaf(cond: string): Option<(string, i32)> {
    ParseLeafFrom(cond, OPS)
  }

  function FirstLeaf(condition: string): string
    decreases |condition|
  {
    var c := Trim(condition);
    if Contains(c, "||") then FirstLeaf(c[..Find(c, "||").value])
    else if Contains(c, "&&") then FirstLeaf(c[..Find(c, "&&").value])
    else c
  }

  function ExplanationFor(condition: string, m: RuleMetrics, calib: CalibrationTable): Explanation {
    match ParseLeaf(FirstLeaf(condition))
    case None => NO_EXPLANATION
    case Some((name, literal)) =>
      match MetricValueAndId(name, m)
      case None => NO_EXPLANATION
      case Some((value, id)) =>
        var (threshold, calibrated) := EffectiveThreshold(name, literal, calib);
        Explanation(id, value, threshold, calibrated)
  }

  /** The evaluator again, also listing the leaves it evaluates in the order it reaches them;
      a loop that stops early reaches no further leaf. */
  function EvalTrace(condition: string, m: RuleMetrics, calib: CalibrationTable): (bool, seq<string>)
    decreases |condition|, 1, 0
  {
    var c := Trim(condition);
    if Contains(c, "||") then TraceAny(Split(c, "||"), |condition|, m, calib)
    else if Contains(c, "&&") then TraceAll(Split(c, "&&"), |condition|, m, calib)
    else (EvalLeaf(c, m, calib) == Ok(true), [c])
  }

  function TraceAny(parts: seq<string>, bound: nat, m: RuleMetrics, calib: CalibrationTable): (bool, seq<string>)
    requires forall i | 0 <= i < |parts| :: |parts[i]| < bound
    decreases bound, 0, |parts|
  {
    if parts == [] then (false, [])
    else
      var (value, leaves) := EvalTrace(Trim(parts[0]), m, calib);
      if value then (true, leaves)
      else
        var (rest, more) := TraceAny(parts[1..], bound, m, calib);
        (rest, leaves + more)
  }

  function TraceAll(parts: seq<string>, bound: nat, m: RuleMetrics, calib: CalibrationTable): (bool, seq<string>)
    requires forall i | 0 <= i < |parts| :: |parts[i]| < bound
    decreases bound, 0, |parts|
  {
    if parts == [] then (true, [])
    else
      var (value, leaves) := EvalTrace(Trim(parts[0]), m, calib);
      if !value then (false, leaves)
      else
        var (rest, more) := TraceAll(parts[1..], bound, m, calib);
        (rest, leaves + more)
  }

  lemma {:induction false} TraceAgrees(condition: string, m: RuleMetrics, calib: CalibrationTable)
    ensures EvalTrace(condition, m, calib).0 == EvalCondition(condition, m, calib)
    decreases |condition|, 1, 0
  {
    var c := Trim(condition);
    if Contains(c, "||") {
      TraceAnyAgrees(Split(c, "||"), |condition|, m, calib);
    } else if Contains(c, "&&") {
      TraceAllAgrees(Split(c, "&&"), |condition|, m, calib);
    }
  }

  lemma {:induction false} TraceAnyAgrees(parts: seq<string>, bound: nat, m: RuleMetrics, calib: CalibrationTable)
    requires forall i | 0 <= i < |parts| :: |parts[i]| < bound
    ensures TraceAny(parts, bound, m, calib).0 == AnyPart(parts, bound, m, calib)
    decreases bound, 0, |parts|
  {
    if parts != [] {
      TraceAgrees(Trim(parts[0]), m, calib);
      TraceAnyAgrees(parts[1..], bound, m, calib);
    }
  }

  lemma {:induction false} TraceAllAgrees(parts: seq<string>, bound: nat, m: RuleMetrics, calib: CalibrationTable)
    requires forall i | 0 <= i < |parts| :: |parts[i]| < bound
    ensures TraceAll(parts, bound, m, calib).0 == AllParts(parts, bound, m, calib)
    decreases bound, 0, |parts|
  {
    if parts != [] {
      TraceAgrees(Trim(parts[0]), m, calib);
      TraceAllAgrees(parts[1..], bound, m, calib);
    }
  }

  /** For every string, the leaf chosen for the explanation is the first leaf the evaluator reaches. */
  lemma {:induction false} FirstLeafIsVisitedFirst(condition: string, m: RuleMetrics, calib: CalibrationTable)
    ensures var leaves := EvalTrace(condition, m, calib).1;
            leaves != [] && leaves[0] == FirstLeaf(condition)
    decreases |condition|
  {
    var c := Trim(condition);
    if Contains(c, "||") {
      var head := c[..Find(c, "||").value];
      assert Split(c, "||")[0] == head;
      FirstLeafIsVisitedFirst(Trim(head), m, calib);
      TrimIdempotent(head);
    } else if Contains(c, "&&") {
      var head := c[..Find(c, "&&").value];
      assert Split(c, "&&")[0] == head;
      FirstLeafIsVisitedFirst(Trim(head), m, calib);
      TrimIdempotent(head);
    }
  }

  /** The operator both parsers settle on. */
  function LeafOp(cond: string, ops: seq<Op>): Option<Op> {
    if ops == [] then None
    else if Contains(cond, OpText(ops[0])) then Some(ops[0])
    else LeafOp(cond, ops[1..])
  }

  /** The two leaf parsers agree on every string: the explaining one yields a known metric
      exactly when the evaluating one does not err, and then both see the same comparison. */
  lemma {:induction false} LeafParsersAgree(cond: string, ops: seq<Op>, m: RuleMetrics, calib: CalibrationTable)
    ensures var p := ParseLeafFrom(cond, ops);
            var known := p.Some? && MetricValueAndId(p.value.0, m).Some?;
            && (known <==> EvalLeafFrom(cond, ops, m, calib).Ok?)
            && (known ==>
                  && LeafOp(cond, ops).Some?
                  && EvalLeafFrom(cond, ops, m, calib)
                     == Ok(Compare(LeafOp(cond, ops).value,
                                   MetricValueAndId(p.value.0, m).value.0,
                                   EffectiveThreshold(p.value.0, p.value.1, calib).0)))
    decreases |ops|
  {
    if ops != [] && Find(cond, OpText(ops[0])).None? {
      LeafParsersAgree(cond, ops[1..], m, calib);
    }
  }

  /** For every string: no explanation exactly when the first leaf visited errs; otherwise the
      explained value and threshold are the two sides of the comparison the evaluator makes
      there, for the metric the leaf names, and the calibrated mark says whether the table
      overrides it. */
  lemma ExplanationAgrees(condition: string, m: RuleMetrics, calib: CalibrationTable)
    ensures EvalTrace(condition, m, calib).1 != []
    ensures var e := ExplanationFor(condition, m, calib);
            var leaf := EvalTrace(condition, m, calib).1[0];
            && (e.metricId == METRIC_NONE <==> EvalLeaf(leaf, m, calib).Err?)
            && (e.metricId == METRIC_NONE ==> e == NO_EXPLANATION)
            && (e.metricId != METRIC_NONE ==>
                  && ParseLeaf(leaf).Some? && LeafOp(leaf, OPS).Some?
                  && MetricValueAndId(ParseLeaf(leaf).value.0, m) == Some((e.currentValue, e.metricId))
                  && EvalLeaf(leaf, m, calib) == Ok(Compare(LeafOp(leaf, OPS).value, e.currentValue, e.thresholdValue))
                  && (e.calibrated <==> ParseLeaf(leaf).value.0 in calib)
                  && (!e.calibrated ==> e.thresholdValue == ParseLeaf(leaf).value.1)
                  && (e.calibrated ==> e.thresholdValue == calib[ParseLeaf(leaf).value.0]))
  {
    FirstLeafIsVisitedFirst(condition, m, calib);
    LeafParsersAgree(FirstLeaf(condition), OPS, m, calib);
  }

  /** A condition without `||` that holds is explained by a comparison that is true. */
  lemma ExplanationOfConjunctionIsTrue(condition: string, m: RuleMetrics, calib: CalibrationTable)
    requires !Contains(Trim(condition), "||") && EvalCondition(condition, m, calib)
    ensures EvalLeaf(FirstLeaf(condition), m, calib) == Ok(true)
    ensures ExplanationFor(condition, m, calib).metricId != METRIC_NONE
  {
    var c := Trim(condition);
    if Contains(c, "&&") {
      var parts := Split(c, "&&");
      var head := parts[0];
      SplitFree(c, "&&", 0);
      SplitLacks(c, "&&", 0, "||");
      TrimContains(head, "||");
      TrimContains(head, "&&");
      TrimIdempotent(head);
      assert EvalCondition(Trim(head), m, calib);
      assert FirstLeaf(condition) == FirstLeaf(head) == Trim(head);
    }
    FirstLeafIsVisitedFirst(condition, m, calib);
    LeafParsersAgree(FirstLeaf(condition), OPS, m, calib);
  }

  lemma FirstLeafOfClause(text: string)
    requires !Contains(Trim(text), "||")
    ensures FirstLeaf(text) == Trim(Split(text, "&&")[0])
  {
    var c := Trim(text);
    SplitOfTrim(text, "&&");
    if Contains(c, "&&") {
      var head := Split(c, "&&")[0];
      SplitFree(c, "&&", 0);
      SplitLacks(c, "&&", 0, "||");
      TrimContains(head, "||");
      TrimContains(head, "&&");
      assert FirstLeaf(text) == FirstLeaf(head);
    } else {
      TrimIdempotent(text);
      assert Split(c, "&&")[0] == c;
    }
  }

  /** The descent to the first leaf takes the first piece of the first piece, for every string. */
  lemma FirstLeafIsFirstPiece(text: string)
    ensures FirstLeaf(text) == Trim(Split(Split(text, "||")[0], "&&")[0])
  {
    var c := Trim(text);
    var head, first := Split(c, "||")[0], Split(text, "||")[0];
    SplitOfTrim(text, "||");
    SplitOfTrim(head, "&&");
    SplitOfTrim(first, "&&");
    assert Trim(Split(head, "&&")[0]) == Trim(Split(Trim(head), "&&")[0]);
    assert Trim(Split(first, "&&")[0]) == Trim(Split(Trim(first), "&&")[0]);
    if Contains(c, "||") {
      SplitFree(c, "||", 0);
      TrimContains(head, "||");
      FirstLeafOfClause(head);
    } else {
      assert head == c;
      TrimIdempotent(text);
      FirstLeafOfClause(text);
      SplitOfTrim(text, "&&");
    }
  }

  lemma FirstLeafOfFormula(f: Formula)
    requires WellFormed(f)
    ensures FirstLeaf(FormulaText(f)) == Trim(f[0][0].Text())
  {
    var texts, leaves := ClauseTexts(f), LeafTexts(f[0]);
    forall i | 0 <= i < |f|
      ensures '|' !in texts[i]
    {
      ClauseMeaning(f[i], RuleMetrics(0, 0, 0, 0, 0, 0, 0, 0), map[]);
    }
    forall j | 0 <= j < |leaves|
      ensures '&' !in leaves[j]
    {
      LeafTextPlain(f[0][j]);
    }
    SplitJoin(texts, '|');
    SplitJoin(leaves, '&');
    FirstLeafIsFirstPiece(FormulaText(f));
    assert Split(FormulaText(f), "||") == texts;
    assert Split(texts[0], "&&") == leaves;
  }

  /** A well-formed rule that fires is explained by a true comparison if and only if its
      first comparison is true: an alternative after the first may be the one that fired. */
  lemma ExplanationOfFormula(f: Formula, m: RuleMetrics, calib: CalibrationTable)
    requires WellFormed(f)
    ensures var e := ExplanationFor(FormulaText(f), m, calib);
            && e.metricId == MetricNumber(f[0][0].metric) < METRIC_NONE
            && e.currentValue == MetricValue(f[0][0].metric, m)
            && e.thresholdValue == f[0][0].Threshold(calib)
            && (Compare(f[0][0].op, e.currentValue, e.thresholdValue) <==> f[0][0].Holds(m, calib))
            && (e.calibrated <==> MetricName(f[0][0].metric) in calib)
  {
    var leaf := f[0][0];
    var s := leaf.Left() + OpText(leaf.op) + leaf.Right();
    assert leaf.Valid();
    FirstLeafOfFormula(f);
    LeafTrims(leaf);
    LeafMeaning(leaf, m, calib);
    LeafParsersAgree(s, OPS, m, calib);
    PrintedLeafParses(leaf);
    MetricOfName(leaf.metric, m);
    CompareIsMeaning(leaf, m, calib);
  }

  lemma {:induction false} SkipOpsParsing(s: string, ops: seq<Op>, k: nat)
    requires k <= |ops| && forall i | 0 <= i < k :: Find(s, OpText(ops[i])) == None
    ensures ParseLeafFrom(s, ops) == ParseLeafFrom(s, ops[k..])
  {
    if k == 0 {
      assert ops[0..] == ops;
    } else {
      SkipOpsParsing(s, ops[1..], k - 1);
      assert ops[1..][k - 1..] == ops[k..];
    }
  }

  lemma ParseAtOperator(s: string, ops: seq<Op>, idx: nat, literal: i32)
    requires ops != [] && Find(s, OpText(ops[0])) == Some(idx)
    requires ParseI32(Trim(s[idx + |OpText(ops[0])|..])) == Some(literal)
    ensures ParseLeafFrom(s, ops) == Some((Trim(s[..idx]), literal))
  {}

  lemma PrintedLeafParses(leaf: Leaf)
    requires leaf.Valid()
    ensures ParseLeaf(leaf.Left() + OpText(leaf.op) + leaf.Right()) == Some((MetricName(leaf.metric), leaf.literal))
  {
    var left, right, op := leaf.Left(), leaf.Right(), leaf.op;
    var s := left + OpText(op) + right;
    LeafTrims(leaf);
    SearchSettles(left, op, right);
    SkipOpsParsing(s, OPS, OpIndex(op));
    ParseAtOperator(s, OPS[OpIndex(op)..], |left|, leaf.literal);
  }

  /** Any rule `a || b` fires on `b` alone while it is explained by the untrue comparison `a`. */
  lemma FiresOnSecondAlternative(a: Leaf, b: Leaf, m: RuleMetrics, calib: CalibrationTable)
    requires a.Valid() && b.Valid() && !a.Holds(m, calib) && b.Holds(m, calib)
    ensures WellFormed([[a], [b]]) && EvalCondition(FormulaText([[a], [b]]), m, calib)
    ensures var e := ExplanationFor(FormulaText([[a], [b]]), m, calib);
            e.metricId != METRIC_NONE && !Compare(a.op, e.currentValue, e.thresholdValue)
  {
    var f := [[a], [b]];
    assert f[0][0] == a && f[1][0] == b;
    assert ConjunctionHolds(f[1], m, calib);
    FormulaMeaning(f, m, calib);
    ExplanationOfFormula(f, m, calib);
  }

  /** A concrete case: `gpu_temp_c>85||cpu_load_pct>90` at 60 degrees and 95 percent. */
  lemma ExplanationMayShowAnUntrueComparison() returns (a: Leaf, b: Leaf, m: RuleMetrics)
    ensures a.Valid() && a.metric == Metric.GpuTempC && a.op == Gt && a.literal == 85 && m.gpuTempC == 60
    ensures b.Valid() && b.metric == Metric.CpuLoadPct && b.op == Gt && b.literal == 90 && m.cpuLoadPct == 95
    ensures WellFormed([[a], [b]]) && EvalCondition(FormulaText([[a], [b]]), m, map[])
    ensures var e := ExplanationFor(FormulaText([[a], [b]]), m, map[]);
            e.metricId != METRIC_NONE && !Compare(Gt, e.currentValue, e.thresholdValue)
  {
    var n85 := Numeral(85);
    var n90 := Numeral(90);
    a := Leaf(Metric.GpuTempC, Gt, 85, n85, "", "", "", "");
    b := Leaf(Metric.CpuLoadPct, Gt, 90, n90, "", "", "", "");
    m := RuleMetrics(0, 60, 0, 0, 95, 0, 0, 0);
    FiresOnSecondAlternative(a, b, m, map[]);
  }
}
