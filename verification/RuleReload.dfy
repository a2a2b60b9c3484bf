/** The rule file: decoding and validation, and the reload that replaces the rules in memory
    only when a changed file loads completely. */
module RuleReload {
  import opened Basics
  import opened RuleFiring
  import opened RuleDecision

  const RELOAD_THROTTLE_MILLIS: nat := 1000

  /** The outside world's decoding of a file into rules and a hysteresis, by JSON or TOML. */
  type Decoder = string -> Option<(seq<Rule>, nat)>

  datatype ParsedRules = ParsedRules(rules: seq<Rule>, hysteresisMs: nat)

  predicate RuleComplete(rule: Rule) {
    rule.id != "" && rule.condition != "" && rule.action != "" && ActionTypeFromStr(rule.action).Some?
  }

  /** Decoding after a byte-order mark, then validation of every rule. */
  function ParseRulesContent(decode: Decoder, content: string): (r: Option<ParsedRules>)
    ensures r.Some? ==> forall i | 0 <= i < |r.value.rules| :: RuleComplete(r.value.rules[i])
  {
    var body := if content != "" && content[0] == '\U{FEFF}' then content[1..] else content;
    match decode(body)
    case None => None
    case Some((rules, h)) =>
      if forall i | 0 <= i < |rules| :: RuleComplete(rules[i]) then Some(ParsedRules(rules, h)) else None
  }

  /** What makes a decoded rule usable. */
  predicate Usable(rule: Rule) {
    rule.id != "" && rule.condition != "" && KnownAction(rule.action)
  }

  lemma UsableIsComplete(rule: Rule)
    ensures Usable(rule) <==> RuleComplete(rule)
  {
    KnownActionsHaveTypes(rule.action);
  }

  /** A file is accepted exactly when it can be decoded and all its rules are usable, and then it is
      kept as it was decoded; a byte-order mark before it makes no difference. */
  lemma ParseDecides(decode: Decoder, body: string, rules: seq<Rule>, h: nat)
    ensures ParseRulesContent(decode, ['\U{FEFF}'] + body) == Some(ParsedRules(rules, h)) <==>
              decode(body) == Some((rules, h)) && forall i | 0 <= i < |rules| :: Usable(rules[i])
    ensures body == "" || body[0] != '\U{FEFF}' ==>
              ParseRulesContent(decode, body) == ParseRulesContent(decode, ['\U{FEFF}'] + body)
  {
    assert (['\U{FEFF}'] + body)[1..] == body;
    forall rule ensures Usable(rule) <==> RuleComplete(rule) {
      UsableIsComplete(rule);
    }
  }

  type Mtime = nat

  /** What the file system answers: a modification time (absent when the system has none) if
      the file can be inspected, and the content if it can be read. */
  datatype FileView = FileView(stat: Option<Option<Mtime>>, content: Option<string>)

  datatype ReloadError = CannotStat | CannotRead | CannotParse
  datatype ReloadOutcome = Reloaded | SkippedThrottled | SkippedUnchanged | Failed(error: ReloadError)

  datatype Store = Store(rules: seq<Rule>, hysteresisMs: nat, lastReload: int, lastMtime: Option<Mtime>)

  /** One reload; `lastReload` may lie before the clock's zero, as it does for a new engine. */
  function HotReload(s: Store, decode: Decoder, now: Instant, file: FileView): (Store, ReloadOutcome) {
    if (if now >= s.lastReload then (now - s.lastReload) / NANOS_PER_MILLI else 0) < RELOAD_THROTTLE_MILLIS then
      (s, SkippedThrottled)
    else
      var t := s.(lastReload := now);
      match file.stat
      case None => (t, Failed(CannotStat))
      case Some(mtime) =>
        if mtime == t.lastMtime then (t, SkippedUnchanged)
        else
          match file.content
          case None => (t, Failed(CannotRead))
          case Some(content) =>
            match ParseRulesContent(decode, content)
            case None => (t, Failed(CannotParse))
            case Some(p) =>
              (t.(rules := p.rules, hysteresisMs := p.hysteresisMs, lastMtime := mtime), Reloaded)
  }

  /** The reload, case by case: within a second of the last attempt nothing is done; then each obstacle
      gives its own answer and leaves the rules alone; otherwise the whole content replaces them. */
  lemma ReloadDecides(s: Store, decode: Decoder, now: Instant, file: FileView)
    ensures var (v, outcome) := HotReload(s, decode, now, file);
            var kept := s.(lastReload := now);
            if now - s.lastReload < 1_000_000_000 then (v, outcome) == (s, SkippedThrottled)
            else if file.stat.None? then (v, outcome) == (kept, Failed(CannotStat))
            else if file.stat.value == s.lastMtime then (v, outcome) == (kept, SkippedUnchanged)
            else if file.content.None? then (v, outcome) == (kept, Failed(CannotRead))
            else if ParseRulesContent(decode, file.content.value).None? then (v, outcome) == (kept, Failed(CannotParse))
            else outcome == Reloaded && v.lastReload == now && v.lastMtime == file.stat.value
                 && ParseRulesContent(decode, file.content.value) == Some(ParsedRules(v.rules, v.hysteresisMs))
  {}

  function NewStore(now: Instant): Store {
    Store([], 0, now - 2000 * NANOS_PER_MILLI, None)
  }

  /** A new engine that reports success holds parsed rules if and only if the file system
      reported a modification time; otherwise it is left with no rules and no error. */
  lemma NewEngineLoads(decode: Decoder, now: Instant, file: FileView)
    ensures var (s, outcome) := HotReload(NewStore(now), decode, now, file);
            && !outcome.SkippedThrottled?
            && (!outcome.Failed? ==> (outcome.Reloaded? <==> file.stat.value.Some?))
            && (outcome.Reloaded? ==>
                  ParseRulesContent(decode, file.content.value) == Some(ParsedRules(s.rules, s.hysteresisMs)))
            && (outcome.SkippedUnchanged? ==> s.rules == [] && s.hysteresisMs == 0)
  {}

  /** The file: its content and its modification time, absent when the file system keeps none. */
  datatype Disk = Disk(content: string, mtime: Option<Mtime>)

  datatype DiskEvent =
    | Edit(newContent: string, newMtime: Option<Mtime>)
    /** A reload whose inspection sees the file now, and whose reading sees it after `meanwhile`. */
    | Reload(now: Instant, canStat: bool, canRead: bool, meanwhile: seq<Disk>)

  /** The file after any number of edits. */
  function EditAll(d: Disk, edits: seq<Disk>): Disk {
    if edits == [] then d else edits[|edits| - 1]
  }

  function ViewFor(d: Disk, ev: DiskEvent): FileView
    requires ev.Reload?
  {
    FileView(if ev.canStat then Some(d.mtime) else None,
             if ev.canRead then Some(EditAll(d, ev.meanwhile).content) else None)
  }

  function DiskStep(decode: Decoder, d: Disk, s: Store, ev: DiskEvent): (Disk, Store) {
    match ev
    case Edit(content, mtime) => (Disk(content, mtime), s)
    case Reload(now, _, _, meanwhile) => (EditAll(d, meanwhile), HotReload(s, decode, now, ViewFor(d, ev)).0)
  }

  function DiskRun(decode: Decoder, d: Disk, s: Store, events: seq<DiskEvent>): (Disk, Store)
    decreases |events|
  {
    if events == [] then (d, s)
    else
      var (d1, s1) := DiskStep(decode, d, s, events[0]);
      DiskRun(decode, d1, s1, events[1..])
  }

  predicate Loaded(decode: Decoder, s: Store, content: string) {
    ParseRulesContent(decode, content) == Some(ParsedRules(s.rules, s.hysteresisMs))
  }

  // ---------------------------------------------------------------- where the rules come from

  /** The contents the file has during one event. */
  function HeldDuring(d: Disk, ev: DiskEvent): seq<string> {
    match ev
    case Edit(content, _) => [d.content, content]
    case Reload(_, _, _, meanwhile) => [d.content] + seq(|meanwhile|, k requires 0 <= k < |meanwhile| => meanwhile[k].content)
  }

  /** The contents the file has during a run. */
  function HeldOver(decode: Decoder, d: Disk, s: Store, events: seq<DiskEvent>): seq<string>
    decreases |events|
  {
    if events == [] then [d.content]
    else
      var (d1, s1) := DiskStep(decode, d, s, events[0]);
      HeldDuring(d, events[0]) + HeldOver(decode, d1, s1, events[1..])
  }

  /** Memory is the parse of one of the contents. */
  predicate LoadedFrom(decode: Decoder, s: Store, contents: seq<string>) {
    exists k :: 0 <= k < |contents| && Loaded(decode, s, contents[k])
  }

  predicate SameMemory(s: Store, v: Store) {
    v.rules == s.rules && v.hysteresisMs == s.hysteresisMs && v.lastMtime == s.lastMtime
  }

  /** Rules and hysteresis alone count. */
  lemma LoadedElsewhere(decode: Decoder, s: Store, v: Store)
    requires v.rules == s.rules && v.hysteresisMs == s.hysteresisMs
    ensures forall content :: Loaded(decode, v, content) == Loaded(decode, s, content)
  {}

  lemma LoadedFromMore(decode: Decoder, s: Store, a: seq<string>, b: seq<string>)
    requires LoadedFrom(decode, s, a) || LoadedFrom(decode, s, b)
    ensures LoadedFrom(decode, s, a + b)
  {
    if k :| 0 <= k < |a| && Loaded(decode, s, a[k]) {
      assert (a + b)[k] == a[k];
    } else {
      var k :| 0 <= k < |b| && Loaded(decode, s, b[k]);
      assert (a + b)[|a| + k] == b[k];
    }
  }

  lemma StepLoadsWhatTheFileHeld(decode: Decoder, d: Disk, s: Store, ev: DiskEvent)
    ensures var s1 := DiskStep(decode, d, s, ev).1;
            SameMemory(s, s1) || LoadedFrom(decode, s1, HeldDuring(d, ev))
  {
    if ev.Reload? && HotReload(s, decode, ev.now, ViewFor(d, ev)).1.Reloaded? {
      var held := HeldDuring(d, ev);
      assert held[|ev.meanwhile|] == EditAll(d, ev.meanwhile).content;
    }
  }

  /** Over every run, however the modification times fall, memory is either what it was before or
      the parse of a content that the file held during the run, edits amid a reload included. */
  lemma {:induction false} MemoryComesFromTheFile(decode: Decoder, d: Disk, s: Store, events: seq<DiskEvent>)
    ensures var s1 := DiskRun(decode, d, s, events).1;
            SameMemory(s, s1) || LoadedFrom(decode, s1, HeldOver(decode, d, s, events))
    decreases |events|
  {
    if events != [] {
      var (d1, s1) := DiskStep(decode, d, s, events[0]);
      var s2 := DiskRun(decode, d1, s1, events[1..]).1;
      MemoryComesFromTheFile(decode, d1, s1, events[1..]);
      StepLoadsWhatTheFileHeld(decode, d, s, events[0]);
      if LoadedFrom(decode, s2, HeldOver(decode, d1, s1, events[1..])) {
        LoadedFromMore(decode, s2, HeldDuring(d, events[0]), HeldOver(decode, d1, s1, events[1..]));
      } else if !SameMemory(s, s1) {
        LoadedElsewhere(decode, s1, s2);
        LoadedFromMore(decode, s2, HeldDuring(d, events[0]), HeldOver(decode, d1, s1, events[1..]));
      }
    }
  }

  predicate AllComplete(rules: seq<Rule>) {
    forall i | 0 <= i < |rules| :: RuleComplete(rules[i])
  }

  /** So no run brings an incomplete rule, or one with an unknown action, into memory. */
  lemma RulesStayComplete(decode: Decoder, d: Disk, s: Store, events: seq<DiskEvent>)
    requires AllComplete(s.rules)
    ensures AllComplete(DiskRun(decode, d, s, events).1.rules)
  {
    MemoryComesFromTheFile(decode, d, s, events);
  }

  // ---------------------------------------------------------------- when a skip is right

  /** Memory and file agree when their modification times do. */
  predicate Agrees(decode: Decoder, d: Disk, s: Store) {
    s.lastMtime == d.mtime ==> Loaded(decode, s, d.content)
  }

  predicate SkipIsRight(decode: Decoder, d: Disk, s: Store, now: Instant, content: Option<string>) {
    HotReload(s, decode, now, FileView(Some(d.mtime), content)).1.SkippedUnchanged? ==> Loaded(decode, s, d.content)
  }

  /** Agreement is what makes every skip right, and without it the next attempt past the throttle
      skips wrongly. */
  lemma SkipsAreRightExactlyWhen(decode: Decoder, d: Disk, s: Store)
    ensures Agrees(decode, d, s) <==> forall now, content :: SkipIsRight(decode, d, s, now, content)
  {
    if !Agrees(decode, d, s) {
      var now: Instant := (if s.lastReload < 0 then 0 else s.lastReload) + RELOAD_THROTTLE_MILLIS * NANOS_PER_MILLI;
      assert (now - s.lastReload) / NANOS_PER_MILLI >= RELOAD_THROTTLE_MILLIS;
      assert !SkipIsRight(decode, d, s, now, None);
    }
  }

  /** An edit that does not hide behind the stored modification time: it brings another one, or
      rules that are in memory already. */
  predicate Visible(decode: Decoder, s: Store, edited: Disk) {
    edited.mtime != s.lastMtime || Loaded(decode, s, edited.content)
  }

  /** For a reload that loads, edits in the meantime do no harm; otherwise the last one counts. */
  predicate VisibleEvent(decode: Decoder, d: Disk, s: Store, ev: DiskEvent) {
    match ev
    case Edit(content, mtime) => Visible(decode, s, Disk(content, mtime))
    case Reload(now, _, _, meanwhile) =>
      meanwhile == [] || HotReload(s, decode, now, ViewFor(d, ev)).1.Reloaded?
      || Visible(decode, s, meanwhile[|meanwhile| - 1])
  }

  /** From agreement a step leads to agreement exactly when its edits are visible. */
  lemma AgreementIsKeptExactlyWhen(decode: Decoder, d: Disk, s: Store, ev: DiskEvent)
    requires Agrees(decode, d, s)
    ensures var (d1, s1) := DiskStep(decode, d, s, ev);
            Agrees(decode, d1, s1) <==> VisibleEvent(decode, d, s, ev)
  {
    if ev.Reload? {
      var (s1, outcome) := HotReload(s, decode, ev.now, ViewFor(d, ev));
      if !outcome.Reloaded? {
        LoadedElsewhere(decode, s, s1);
      }
    }
  }

  /** Every edit of the run is visible at its moment. */
  predicate VisibleRun(decode: Decoder, d: Disk, s: Store, events: seq<DiskEvent>)
    decreases |events|
  {
    events == []
    || (&& VisibleEvent(decode, d, s, events[0])
        && var (d1, s1) := DiskStep(decode, d, s, events[0]);
           VisibleRun(decode, d1, s1, events[1..]))
  }

  /** At every moment of the run a skip would be right. */
  ghost predicate SkipsRightThroughout(decode: Decoder, d: Disk, s: Store, events: seq<DiskEvent>)
    decreases |events|
  {
    && (forall now, content :: SkipIsRight(decode, d, s, now, content))
    && (events != [] ==>
          var (d1, s1) := DiskStep(decode, d, s, events[0]);
          SkipsRightThroughout(decode, d1, s1, events[1..]))
  }

  /** Over any run that begins in agreement, skips as unchanged are right at every moment exactly
      when every edit brings a modification time other than the stored one or rules that are in
      memory already. Times that were in use before and come back do no harm otherwise. */
  lemma {:induction false} ReloadIsACacheExactlyWhen(decode: Decoder, d: Disk, s: Store, events: seq<DiskEvent>)
    requires Agrees(decode, d, s)
    ensures SkipsRightThroughout(decode, d, s, events) <==> VisibleRun(decode, d, s, events)
    decreases |events|
  {
    SkipsAreRightExactlyWhen(decode, d, s);
    if events != [] {
      var (d1, s1) := DiskStep(decode, d, s, events[0]);
      AgreementIsKeptExactlyWhen(decode, d, s, events[0]);
      if VisibleEvent(decode, d, s, events[0]) {
        ReloadIsACacheExactlyWhen(decode, d1, s1, events[1..]);
      } else {
        SkipsAreRightExactlyWhen(decode, d1, s1);
      }
    }
  }

  /** A new engine begins in agreement exactly when the file has a modification time, or holds no
      rules and no hysteresis, which is what the engine starts with. */
  lemma NewEngineAgreesExactlyWhen(decode: Decoder, d: Disk, now: Instant)
    ensures Agrees(decode, d, NewStore(now))
            <==> d.mtime.Some? || ParseRulesContent(decode, d.content) == Some(ParsedRules([], 0))
  {}

  /** A failed reload leaves rules, hysteresis and stored time alone, so the same broken file
      fails again, with the same error, on every later attempt that is not throttled. */
  lemma BrokenFileKeepsFailing(decode: Decoder, s: Store, now: Instant, later: Instant, file: FileView)
    requires HotReload(s, decode, now, file).1.Failed?
    requires later >= now + 1_000_000_000
    ensures var (s1, outcome) := HotReload(s, decode, now, file);
            && s1 == s.(lastReload := now)
            && HotReload(s1, decode, later, file) == (s.(lastReload := later), outcome)
  {}

  /** A concrete case: a new engine loads a file; the file is edited without a new time; the next
      reload past the throttle reports it unchanged, with the old rules in memory. */
  lemma EditBehindTheStoredTime(old_: string, new_: string, mtime: Mtime) returns (decode: Decoder, events: seq<DiskEvent>)
    requires old_ != new_ && old_ != "" && old_[0] != '\U{FEFF}' && (new_ != "" ==> new_[0] != '\U{FEFF}')
    ensures var d := Disk(old_, Some(mtime));
            && Agrees(decode, d, NewStore(0))
            && var (d1, s1) := DiskRun(decode, d, NewStore(0), events);
               && d1 == Disk(new_, Some(mtime))
               && Loaded(decode, s1, old_) && !Loaded(decode, s1, new_)
               && HotReload(s1, decode, RELOAD_THROTTLE_MILLIS * NANOS_PER_MILLI, FileView(Some(d1.mtime), Some(d1.content))).1
                  == SkippedUnchanged
  {
    decode := content => Some(([], if content == old_ then 1 else 2));
    var load, edit := Reload(0, true, true, []), Edit(new_, Some(mtime));
    events := [load, edit];
    var d := Disk(old_, Some(mtime));
    var s1 := HotReload(NewStore(0), decode, 0, ViewFor(d, load)).0;
    assert events[1..] == [edit] && [edit][1..] == [];
    assert ParseRulesContent(decode, old_) == Some(ParsedRules([], 1));
    assert ParseRulesContent(decode, new_) == Some(ParsedRules([], 2));
    assert DiskStep(decode, d, NewStore(0), load) == (d, s1);
    assert DiskRun(decode, d, s1, [edit]) == DiskRun(decode, Disk(new_, Some(mtime)), s1, []);
  }
}
