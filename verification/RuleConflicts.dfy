/** Actions produced by rules, and the pass that removes contradictory ones and orders the
    rest by priority. */
module RuleConflicts {
  import opened Basics
  import opened RuleCondition

  datatype ActionType =
    | BitrateReduce | BitrateRecover | ScaleResolution | RestoreResolution | CapFps | RestoreFps | LogOnly

  datatype Action = Action(
    ruleId: string,
    actionType: ActionType,
    param1: i32,
    param2: i32,
    createdAt: nat,
    requireApproval: bool,
    logOnly: bool,
    isCritical: bool,
    explanation: Explanation)

  function Priority(t: ActionType): nat {
    match t
    case BitrateReduce => 0
    case CapFps => 1
    case ScaleResolution => 2
    case BitrateRecover => 3
    case RestoreFps => 4
    case RestoreResolution => 5
    case LogOnly => 6
  }

  /** The action type that an action of type `t` gives way to. */
  function Opposite(t: ActionType): Option<ActionType> {
    match t
    case BitrateRecover => Some(BitrateReduce)
    case RestoreFps => Some(CapFps)
    case RestoreResolution => Some(ScaleResolution)
    case _ => None
  }

  predicate Has(actions: seq<Action>, t: ActionType) {
    exists i | 0 <= i < |actions| :: actions[i].actionType == t
  }

  function DropOpposed(actions: seq<Action>, hasReduce: bool, hasCapFps: bool, hasScale: bool): seq<Action> {
    if actions == [] then []
    else
      var rest := DropOpposed(actions[1..], hasReduce, hasCapFps, hasScale);
      match actions[0].actionType
      case BitrateRecover => if hasReduce then rest else [actions[0]] + rest
      case RestoreFps => if hasCapFps then rest else [actions[0]] + rest
      case RestoreResolution => if hasScale then rest else [actions[0]] + rest
      case _ => [actions[0]] + rest
  }

  /** Stable insertion: in front of the first element that does not have a smaller priority number. */
  function Insert(a: Action, sorted: seq<Action>): seq<Action> {
    if sorted == [] || Priority(a.actionType) <= Priority(sorted[0].actionType) then [a] + sorted
    else [sorted[0]] + Insert(a, sorted[1..])
  }

  function StableSort(actions: seq<Action>): seq<Action> {
    if actions == [] then [] else Insert(actions[0], StableSort(actions[1..]))
  }

  function ResolveConflicts(actions: seq<Action>): seq<Action> {
    StableSort(DropOpposed(actions,
                           Has(actions, BitrateReduce), Has(actions, CapFps), Has(actions, ScaleResolution)))
  }

  // ---------------------------------------------------------------- what the result is

  predicate Sorted(s: seq<Action>) {
    forall i, j | 0 <= i < j < |s| :: Priority(s[i].actionType) <= Priority(s[j].actionType)
  }

  /** The actions of one type, in order. */
  function OfType(s: seq<Action>, t: ActionType): (r: seq<Action>)
    ensures forall i | 0 <= i < |r| :: r[i].actionType == t
  {
    if s == [] then []
    else if s[0].actionType == t then [s[0]] + OfType(s[1..], t)
    else OfType(s[1..], t)
  }

  lemma {:induction false} OfTypeMembers(s: seq<Action>, t: ActionType)
    ensures OfType(s, t) == [] <==> !Has(s, t)
    ensures forall i | 0 <= i < |OfType(s, t)| :: OfType(s, t)[i] in s
  {
    if s != [] {
      OfTypeMembers(s[1..], t);
      if Has(s, t) && s[0].actionType != t {
        var i :| 0 <= i < |s| && s[i].actionType == t;
        assert s[1..][i - 1].actionType == t;
      }
    }
  }

  lemma {:induction false} InsertMembers(a: Action, s: seq<Action>)
    ensures forall x | x in Insert(a, s) :: x == a || x in s
  {
    if s != [] {
      InsertMembers(a, s[1..]);
    }
  }

  lemma {:induction false} InsertSorted(a: Action, s: seq<Action>)
    requires Sorted(s)
    ensures Sorted(Insert(a, s))
  {
    if !(s == [] || Priority(a.actionType) <= Priority(s[0].actionType)) {
      InsertSorted(a, s[1..]);
      InsertMembers(a, s[1..]);
      var r := Insert(a, s[1..]);
      forall j | 0 <= j < |r|
        ensures Priority(s[0].actionType) <= Priority(r[j].actionType)
      {
        assert r[j] in r;
      }
    }
  }

  lemma {:induction false} InsertKeeps(a: Action, s: seq<Action>, t: ActionType)
    requires Sorted(s)
    ensures OfType(Insert(a, s), t) == OfType([a] + s, t)
  {
    assert ([a] + s)[1..] == s;
    if !(s == [] || Priority(a.actionType) <= Priority(s[0].actionType)) {
      InsertKeeps(a, s[1..], t);
      var r := Insert(a, s[1..]);
      assert ([s[0]] + r)[1..] == r;
      assert ([a] + s[1..])[1..] == s[1..];
    }
  }

  /** Sorting orders by priority and keeps every type's actions, each once and in input order. */
  lemma {:induction false} SortSpec(s: seq<Action>, t: ActionType)
    ensures Sorted(StableSort(s))
    ensures OfType(StableSort(s), t) == OfType(s, t)
  {
    if s != [] {
      SortSpec(s[1..], t);
      InsertSorted(s[0], StableSort(s[1..]));
      InsertKeeps(s[0], StableSort(s[1..]), t);
      var r := StableSort(s[1..]);
      assert ([s[0]] + r)[1..] == r;
    }
  }

  lemma {:induction false} DropSpec(s: seq<Action>, r: bool, c: bool, z: bool, t: ActionType)
    ensures OfType(DropOpposed(s, r, c, z), t)
         == if (t == BitrateRecover && r) || (t == RestoreFps && c) || (t == RestoreResolution && z)
            then [] else OfType(s, t)
  {
    if s != [] {
      DropSpec(s[1..], r, c, z, t);
      var rest := DropOpposed(s[1..], r, c, z);
      assert ([s[0]] + rest)[1..] == rest;
    }
  }

  /** A type is suppressed when it is a recovery whose opposite is among the actions. */
  predicate Suppressed(actions: seq<Action>, t: ActionType) {
    Opposite(t).Some? && Has(actions, Opposite(t).value)
  }

  /** The result is priority-sorted, and per type it is the input's actions in input order,
      all of them or, exactly for a suppressed type, none. */
  lemma ResolveSpec(actions: seq<Action>, t: ActionType)
    ensures Sorted(ResolveConflicts(actions))
    ensures OfType(ResolveConflicts(actions), t) == if Suppressed(actions, t) then [] else OfType(actions, t)
  {
    var kept := DropOpposed(actions, Has(actions, BitrateReduce), Has(actions, CapFps), Has(actions, ScaleResolution));
    DropSpec(actions, Has(actions, BitrateReduce), Has(actions, CapFps), Has(actions, ScaleResolution), t);
    SortSpec(kept, t);
  }

  function Joined(lists: seq<seq<Action>>): seq<Action> {
    if lists == [] then [] else lists[0] + Joined(lists[1..])
  }

  /** The actions of each type, in the order in which the types are to be carried out. */
  function ByType(s: seq<Action>): (lists: seq<seq<Action>>)
    ensures |lists| == 7
  {
    [OfType(s, BitrateReduce), OfType(s, CapFps), OfType(s, ScaleResolution), OfType(s, BitrateRecover),
     OfType(s, RestoreFps), OfType(s, RestoreResolution), OfType(s, LogOnly)]
  }

  lemma {:induction false} JoinedHead(h: Action, lists: seq<seq<Action>>, k: nat)
    requires k < |lists| && forall j | 0 <= j < k :: lists[j] == []
    ensures Joined(lists[k := [h] + lists[k]]) == [h] + Joined(lists)
  {
    var more := lists[k := [h] + lists[k]];
    if k == 0 {
      assert more[1..] == lists[1..];
      assert ([h] + lists[0]) + Joined(lists[1..]) == [h] + (lists[0] + Joined(lists[1..]));
    } else {
      JoinedHead(h, lists[1..], k - 1);
      assert more[1..] == lists[1..][k - 1 := [h] + lists[1..][k - 1]];
      assert lists[0] == [] && more[0] == [];
    }
  }

  lemma NoneBelowHead(s: seq<Action>, j: nat)
    requires s != [] && Sorted(s) && j < Priority(s[0].actionType)
    ensures ByType(s)[j] == []
  {
    var t :=
      if j == 0 then BitrateReduce else if j == 1 then CapFps else if j == 2 then ScaleResolution
      else if j == 3 then BitrateRecover else if j == 4 then RestoreFps else RestoreResolution;
    assert ByType(s)[j] == OfType(s, t);
    OfTypeMembers(s, t);
  }

  lemma SplitHead(s: seq<Action>)
    requires s != []
    ensures var k := Priority(s[0].actionType);
            k < 7 && ByType(s) == ByType(s[1..])[k := [s[0]] + ByType(s[1..])[k]]
  {}

  lemma {:induction false} SortedIsByType(s: seq<Action>)
    requires Sorted(s)
    ensures s == Joined(ByType(s))
  {
    if s != [] {
      var k, rest := Priority(s[0].actionType), s[1..];
      SortedIsByType(rest);
      SplitHead(s);
      forall j | 0 <= j < k ensures ByType(rest)[j] == [] {
        NoneBelowHead(s, j);
      }
      JoinedHead(s[0], ByType(rest), k);
      assert s == [s[0]] + rest;
    } else {
      JoinedNothing(ByType(s));
    }
  }

  lemma {:induction false} JoinedNothing(lists: seq<seq<Action>>)
    requires forall j | 0 <= j < |lists| :: lists[j] == []
    ensures Joined(lists) == []
  {
    if lists != [] {
      JoinedNothing(lists[1..]);
    }
  }

  lemma ResolvedType(s: seq<Action>, t: ActionType)
    ensures Sorted(ResolveConflicts(s))
    ensures OfType(ResolveConflicts(s), t)
            == if Opposite(t).Some? && OfType(s, Opposite(t).value) != [] then [] else OfType(s, t)
  {
    ResolveSpec(s, t);
    if Opposite(t).Some? {
      OfTypeMembers(s, Opposite(t).value);
    }
  }

  /** Resolved, the actions come as listed here, each type in input order; a recovery is left out
      exactly when its opposite is among them. */
  lemma ResolvedInOrder(s: seq<Action>)
    ensures ResolveConflicts(s)
         == Joined([OfType(s, BitrateReduce), OfType(s, CapFps), OfType(s, ScaleResolution),
                    if OfType(s, BitrateReduce) == [] then OfType(s, BitrateRecover) else [],
                    if OfType(s, CapFps) == [] then OfType(s, RestoreFps) else [],
                    if OfType(s, ScaleResolution) == [] then OfType(s, RestoreResolution) else [],
                    OfType(s, LogOnly)])
  {
    ResolvedType(s, BitrateReduce);
    ResolvedType(s, CapFps);
    ResolvedType(s, ScaleResolution);
    ResolvedType(s, BitrateRecover);
    ResolvedType(s, RestoreFps);
    ResolvedType(s, RestoreResolution);
    ResolvedType(s, LogOnly);
    SortedIsByType(ResolveConflicts(s));
  }

  lemma SortedHead(s: seq<Action>, t: ActionType)
    requires s != [] && Sorted(s) && Has(s, t)
    ensures Priority(s[0].actionType) <= Priority(t)
  {}

  lemma PriorityInjective(a: ActionType, b: ActionType)
    requires Priority(a) == Priority(b)
    ensures a == b
  {}

  /** Those two facts determine the list: no other list has them. */
  lemma {:induction false} SortedListIsUnique(a: seq<Action>, b: seq<Action>)
    requires Sorted(a) && Sorted(b) && forall t :: OfType(a, t) == OfType(b, t)
    ensures a == b
  {
    forall t
      ensures Has(a, t) == Has(b, t)
    {
      assert OfType(a, t) == OfType(b, t);
      OfTypeMembers(a, t);
      OfTypeMembers(b, t);
    }
    if a == [] {
      if b != [] {
        assert Has(b, b[0].actionType);
      }
    } else {
      assert Has(a, a[0].actionType);
      assert b != [];
      assert Has(b, b[0].actionType);
      SortedHead(a, b[0].actionType);
      SortedHead(b, a[0].actionType);
      PriorityInjective(a[0].actionType, b[0].actionType);
      assert OfType(a, a[0].actionType)[0] == a[0];
      assert OfType(b, a[0].actionType)[0] == b[0];
      assert a[0] == b[0];
      forall t
        ensures OfType(a[1..], t) == OfType(b[1..], t)
      {
        assert OfType(a, t) == OfType(b, t);
        if t == a[0].actionType {
          assert OfType(a[1..], t) == OfType(a, t)[1..];
        }
      }
      SortedListIsUnique(a[1..], b[1..]);
      assert a == [a[0]] + a[1..];
    }
  }

  /** No recovery is left beside its opposite. */
  lemma NoOpposingPair(actions: seq<Action>, t: ActionType)
    requires Opposite(t).Some?
    ensures !(Has(ResolveConflicts(actions), t) && Has(ResolveConflicts(actions), Opposite(t).value))
  {
    var r := ResolveConflicts(actions);
    ResolveSpec(actions, t);
    ResolveSpec(actions, Opposite(t).value);
    OfTypeMembers(r, t);
    OfTypeMembers(r, Opposite(t).value);
    OfTypeMembers(actions, Opposite(t).value);
  }

  /** Resolving an already resolved list changes nothing. */
  lemma ResolveIdempotent(actions: seq<Action>)
    ensures ResolveConflicts(ResolveConflicts(actions)) == ResolveConflicts(actions)
  {
    var r := ResolveConflicts(actions);
    ResolveSpec(actions, LogOnly);
    ResolveSpec(r, LogOnly);
    forall t
      ensures OfType(ResolveConflicts(r), t) == OfType(r, t)
    {
      ResolveSpec(r, t);
      if Opposite(t).Some? {
        NoOpposingPair(actions, t);
        OfTypeMembers(r, t);
      }
    }
    SortedListIsUnique(ResolveConflicts(r), r);
  }
}
