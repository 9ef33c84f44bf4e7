/** Dependency groups (PEP 735): include expansion with cycle detection. */
module DependencyGroups {
  import opened Wrappers
  import opened Reachability
  import Names

  /** An entry of a group: a requirement, an include, or anything the format does not allow. */
  datatype Item = Plain(requirement: string) | Include(group: string) | Malformed

  datatype Group = Items(items: seq<Item>) | NotAList

  type Groups = map<string, Group>

  datatype Error = CyclicInclude | NotFound | Invalid

  ghost function Past(past: seq<string>): set<string> { set g | g in past }

  lemma {:induction false} PastGrows(groups: Groups, past: seq<string>, group: string)
    requires group in groups && group !in past
    ensures |groups.Keys - Past(past + [group])| == |groups.Keys - Past(past)| - 1
  {
    assert Past(past + [group]) == Past(past) + {group};
    assert groups.Keys - Past(past) == (groups.Keys - Past(past + [group])) + {group};
  }

  ghost function Resolve(groups: Groups, group: string, past: seq<string>): Result<seq<string>, Error>
    decreases |groups.Keys - Past(past)|, 0
  {
    if group in past then Failure(CyclicInclude)
    else if group !in groups then Failure(NotFound)
    else if groups[group].NotAList? then Failure(Invalid)
    else
      PastGrows(groups, past, group);
      ResolveItems(groups, groups[group].items, past + [group])
  }

  ghost function ResolveItems(groups: Groups, items: seq<Item>, past: seq<string>): Result<seq<string>, Error>
    decreases |groups.Keys - Past(past)|, |items| + 1
  {
    if items == [] then Success([])
    else
      var before := ResolveItems(groups, items[..|items| - 1], past);
      if before.Failure? then before
      else
        match items[|items| - 1]
        case Plain(r) => Success(before.value + [r])
        case Malformed => Failure(Invalid)
        case Include(g) =>
          var inner := Resolve(groups, Names.Canonical(g), past);
          if inner.Failure? then inner else Success(before.value + inner.value)
  }

  lemma {:induction false} ResolveStarts(groups: Groups, group: string, past: seq<string>)
    requires group !in past && group in groups && groups[group].Items?
    ensures Resolve(groups, group, past) == ResolveItems(groups, groups[group].items, past + [group])
    ensures |groups.Keys - Past(past + [group])| < |groups.Keys - Past(past)|
  {
    PastGrows(groups, past, group);
  }

  /** The resolver itself: it recurses on includes and collects the realised group in a loop. */
  method ResolveDependencyGroup(groups: Groups, group: string, past: seq<string>)
    returns (result: Result<seq<string>, Error>)
    ensures result == Resolve(groups, group, past)
    decreases |groups.Keys - Past(past)|
  {
    if group in past {
      return Failure(CyclicInclude);
    }
    if group !in groups {
      return Failure(NotFound);
    }
    if groups[group].NotAList? {
      return Failure(Invalid);
    }
    ResolveStarts(groups, group, past);
    var items := groups[group].items;
    var realized := [];
    for i := 0 to |items|
      invariant ResolveItems(groups, items[..i], past + [group]) == Success(realized)
    {
      assert items[..i + 1][..i] == items[..i];
      match items[i] {
        case Plain(r) =>
          realized := realized + [r];
        case Include(g) =>
          var inner := ResolveDependencyGroup(groups, Names.Canonical(g), past + [group]);
          if inner.Failure? {
            FailureStays(groups, items, past + [group], i + 1);
            return inner;
          }
          realized := realized + inner.value;
        case Malformed =>
          FailureStays(groups, items, past + [group], i + 1);
          return Failure(Invalid);
      }
    }
    assert items[..|items|] == items;
    result := Success(realized);
  }

  lemma {:induction false} FailureStays(groups: Groups, items: seq<Item>, past: seq<string>, i: nat)
    requires i <= |items| && ResolveItems(groups, items[..i], past).Failure?
    ensures ResolveItems(groups, items, past) == ResolveItems(groups, items[..i], past)
    decreases |items|
  {
    if i < |items| {
      assert items[..|items| - 1][..i] == items[..i];
      FailureStays(groups, items[..|items| - 1], past, i);
    } else {
      assert items[..i] == items;
    }
  }

  // ----- reference 1: in-order expansion, cut off at a depth -----

  ghost function Expand(groups: Groups, group: string, depth: nat): Option<seq<string>>
    decreases depth, 0
  {
    if depth == 0 || group !in groups || groups[group].NotAList? then None
    else ExpandItems(groups, groups[group].items, depth - 1)
  }

  ghost function ExpandItems(groups: Groups, items: seq<Item>, depth: nat): Option<seq<string>>
    decreases depth, |items| + 1
  {
    if items == [] then Some([])
    else
      var before := ExpandItems(groups, items[..|items| - 1], depth);
      if before.None? then None
      else
        match items[|items| - 1]
        case Plain(r) => Some(before.value + [r])
        case Malformed => None
        case Include(g) =>
          var inner := Expand(groups, Names.Canonical(g), depth);
          if inner.None? then None else Some(before.value + inner.value)
  }

  lemma {:induction false} DeeperIsSame(groups: Groups, group: string, depth: nat, more: nat)
    requires depth <= more && Expand(groups, group, depth).Some?
    ensures Expand(groups, group, more) == Expand(groups, group, depth)
    decreases depth, 0
  {
    DeeperItems(groups, groups[group].items, depth - 1, more - 1);
  }

  lemma {:induction false} DeeperItems(groups: Groups, items: seq<Item>, depth: nat, more: nat)
    requires depth <= more && ExpandItems(groups, items, depth).Some?
    ensures ExpandItems(groups, items, more) == ExpandItems(groups, items, depth)
    decreases depth, |items| + 1
  {
    if items != [] {
      DeeperItems(groups, items[..|items| - 1], depth, more);
      if items[|items| - 1].Include? {
        DeeperIsSame(groups, Names.Canonical(items[|items| - 1].group), depth, more);
      }
    }
  }

  /** A resolved group is its expansion, no deeper than the number of groups not yet on the path. */
  lemma {:induction false} ResolvedIsExpansion(groups: Groups, group: string, past: seq<string>)
    requires Resolve(groups, group, past).Success?
    ensures Expand(groups, group, |groups.Keys - Past(past)|) == Some(Resolve(groups, group, past).value)
    decreases |groups.Keys - Past(past)|, 0
  {
    PastGrows(groups, past, group);
    ResolvedItemsAreExpansion(groups, groups[group].items, past + [group]);
  }

  lemma {:induction false} ResolvedItemsAreExpansion(groups: Groups, items: seq<Item>, past: seq<string>)
    requires ResolveItems(groups, items, past).Success?
    ensures ExpandItems(groups, items, |groups.Keys - Past(past)|) == Some(ResolveItems(groups, items, past).value)
    decreases |groups.Keys - Past(past)|, |items| + 1
  {
    if items != [] {
      ResolvedItemsAreExpansion(groups, items[..|items| - 1], past);
      if items[|items| - 1].Include? {
        ResolvedIsExpansion(groups, Names.Canonical(items[|items| - 1].group), past);
      }
    }
  }

  /** An expandable group resolves, if nothing on the path is expandable at this depth. */
  lemma {:induction false} ExpansionIsResolved(groups: Groups, group: string, depth: nat, past: seq<string>)
    requires Expand(groups, group, depth).Some?
    requires forall p :: p in past ==> Expand(groups, p, depth).None?
    ensures Resolve(groups, group, past) == Success(Expand(groups, group, depth).value)
    decreases depth, 0
  {
    if Expand(groups, group, depth - 1).Some? {
      DeeperIsSame(groups, group, depth - 1, depth);
      ShallowerIsNone(groups, past, depth);
      ExpansionIsResolved(groups, group, depth - 1, past);
    } else {
      ShallowerIsNone(groups, past, depth);
      ExpandedItemsAreResolved(groups, groups[group].items, depth - 1, past + [group]);
    }
  }

  lemma {:induction false} ShallowerIsNone(groups: Groups, past: seq<string>, depth: nat)
    requires depth > 0 && forall p :: p in past ==> Expand(groups, p, depth).None?
    ensures forall p :: p in past ==> Expand(groups, p, depth - 1).None?
  {
    forall p | p in past
      ensures Expand(groups, p, depth - 1).None?
    {
      if Expand(groups, p, depth - 1).Some? {
        DeeperIsSame(groups, p, depth - 1, depth);
        assert false;
      }
    }
  }

  lemma {:induction false} ExpandedItemsAreResolved(groups: Groups, items: seq<Item>, depth: nat, past: seq<string>)
    requires ExpandItems(groups, items, depth).Some?
    requires forall p :: p in past ==> Expand(groups, p, depth).None?
    ensures ResolveItems(groups, items, past) == Success(ExpandItems(groups, items, depth).value)
    decreases depth, |items| + 1
  {
    if items != [] {
      ExpandedItemsAreResolved(groups, items[..|items| - 1], depth, past);
      if items[|items| - 1].Include? {
        ExpansionIsResolved(groups, Names.Canonical(items[|items| - 1].group), depth, past);
      }
    }
  }

  /** Resolution succeeds with a list exactly when that list is the in-order expansion of the group. */
  lemma {:induction false} ResolutionIsExpansion(groups: Groups, group: string, out: seq<string>)
    ensures Resolve(groups, group, []) == Success(out) <==> exists depth: nat :: Expand(groups, group, depth) == Some(out)
  {
    if Resolve(groups, group, []).Success? {
      ResolvedIsExpansion(groups, group, []);
    }
    if depth: nat :| Expand(groups, group, depth) == Some(out) {
      ExpansionIsResolved(groups, group, depth, []);
    }
  }

  // ----- reference 2: the include graph -----

  function Includes(items: seq<Item>): seq<string> {
    if items == [] then []
    else
      Includes(items[..|items| - 1])
      + if items[|items| - 1].Include? then [Names.Canonical(items[|items| - 1].group)] else []
  }

  predicate WellFormed(groups: Groups, group: string) {
    group in groups && groups[group].Items? && Malformed !in groups[group].items
  }

  ghost function Graph(groups: Groups): string -> seq<string> {
    (g: string) => if g in groups && groups[g].Items? then Includes(groups[g].items) else []
  }

  ghost predicate Reaches(groups: Groups, from: string, to: string) { Reachable([from], Graph(groups), to) }

  /** A nonempty path of includes leads from the group back to itself. */
  ghost predicate OnCycle(groups: Groups, group: string) {
    exists h :: h in Graph(groups)(group) && Reaches(groups, h, group)
  }

  ghost predicate Sound(groups: Groups, root: string) {
    forall h :: Reaches(groups, root, h) ==> WellFormed(groups, h) && !OnCycle(groups, h)
  }

  lemma {:induction false} ExpandedIsWellFormed(groups: Groups, g: string, depth: nat)
    requires Expand(groups, g, depth).Some?
    ensures depth > 0 && WellFormed(groups, g)
  {
    IncludesExpand(groups, groups[g].items, depth - 1);
  }

  lemma {:induction false} EdgeUsesDepth(groups: Groups, g: string, x: string, depth: nat)
    requires Expand(groups, g, depth).Some? && x in Graph(groups)(g)
    ensures depth > 1 && Expand(groups, x, depth - 1).Some?
  {
    IncludesExpand(groups, groups[g].items, depth - 1);
  }

  /** Along an edge the target expands at a smaller depth. */
  ghost predicate UsesDepth(groups: Groups, next: string -> seq<string>) {
    forall y, x, d: nat :: Expand(groups, y, d).Some? && x in next(y) ==> d > 1 && Expand(groups, x, d - 1).Some?
  }

  lemma {:induction false} GraphUsesDepth(groups: Groups)
    ensures UsesDepth(groups, Graph(groups))
  {
    forall y, x, d: nat | Expand(groups, y, d).Some? && x in Graph(groups)(y)
      ensures d > 1 && Expand(groups, x, d - 1).Some?
    {
      EdgeUsesDepth(groups, y, x, d);
    }
  }

  lemma {:induction false} ExpandedSteps(
    groups: Groups, next: string -> seq<string>, g: string, x: string, n: nat, depth: nat)
    requires UsesDepth(groups, next)
    requires Expand(groups, g, depth).Some? && ReachableIn([g], next, x, n)
    ensures n <= depth && Expand(groups, x, depth - n).Some?
    decreases n
  {
    if n == 0 {
      assert x == g;
    } else {
      var y := LastStep([g], next, x, n);
      ExpandedSteps(groups, next, g, y, n - 1, depth);
      assert Expand(groups, y, depth - (n - 1)).Some? && x in next(y);
    }
  }

  lemma {:induction false} IncludesExpand(groups: Groups, items: seq<Item>, depth: nat)
    requires ExpandItems(groups, items, depth).Some?
    ensures Malformed !in items
    ensures forall h :: h in Includes(items) ==> Expand(groups, h, depth).Some?
    decreases |items|
  {
    if items != [] {
      IncludesExpand(groups, items[..|items| - 1], depth);
      assert items == items[..|items| - 1] + [items[|items| - 1]];
    }
  }

  lemma {:induction false} NoLoop(groups: Groups, next: string -> seq<string>, g: string, m: nat, depth: nat)
    requires UsesDepth(groups, next) && m > 0
    requires ReachableIn([g], next, g, m)
    ensures Expand(groups, g, depth).None?
  {
    if Expand(groups, g, depth).Some? {
      ExpandedSteps(groups, next, g, g, m, depth);
      NoLoop(groups, next, g, m, depth - m);
    }
  }

  lemma {:induction false} CycleBlocks(groups: Groups, next: string -> seq<string>, g: string, h: string, depth: nat)
    requires UsesDepth(groups, next)
    requires h in next(g) && Reachable([h], next, g)
    ensures Expand(groups, g, depth).None?
  {
    var n: nat :| ReachableIn([h], next, g, n);
    PrependStep(next, g, h, g, n);
    NoLoop(groups, next, g, n + 1, depth);
  }

  lemma {:induction false} ExpandableIsAcyclic(groups: Groups, g: string, depth: nat)
    requires Expand(groups, g, depth).Some?
    ensures !OnCycle(groups, g)
  {
    if OnCycle(groups, g) {
      var h :| h in Graph(groups)(g) && Reaches(groups, h, g);
      GraphUsesDepth(groups);
      CycleBlocks(groups, Graph(groups), g, h, depth);
    }
  }

  lemma {:induction false} ConcatSteps(groups: Groups, a: string, b: string, c: string)
    requires Reaches(groups, a, b) && c in Graph(groups)(b)
    ensures Reaches(groups, a, c)
  {
    StepReachable([a], Graph(groups), b, c);
  }

  /** Every group on the path has an include that leads to the current one. */
  ghost predicate PathLeadsTo(groups: Groups, past: seq<string>, group: string) {
    forall p :: p in past ==> exists h :: h in Graph(groups)(p) && Reaches(groups, h, group)
  }

  lemma {:induction false} PathExtends(groups: Groups, past: seq<string>, group: string, next: string)
    requires PathLeadsTo(groups, past, group) && next in Graph(groups)(group)
    ensures PathLeadsTo(groups, past + [group], next)
  {
    forall p | p in past + [group]
      ensures exists h :: h in Graph(groups)(p) && Reaches(groups, h, next)
    {
      if p in past {
        var h :| h in Graph(groups)(p) && Reaches(groups, h, group);
        ConcatSteps(groups, h, group, next);
      } else {
        RootReachable([next], Graph(groups), next);
      }
    }
  }

  lemma {:induction false} ResolveUnfolds(groups: Groups, group: string, past: seq<string>)
    requires group in groups && groups[group].Items? && group !in past
    ensures Resolve(groups, group, past) ==
            ResolveItems(groups, groups[group].items[..|groups[group].items|], past + [group])
  {
    var items := groups[group].items;
    assert items[..|items|] == items;
  }

  lemma {:induction false} NotOnPath(groups: Groups, root: string, group: string, past: seq<string>)
    requires Sound(groups, root) && Reaches(groups, root, group) && PathLeadsTo(groups, past, group)
    ensures WellFormed(groups, group) && group !in past
  {
    if group in past {
      assert OnCycle(groups, group);
    }
  }

  lemma {:induction false} SoundResolves(groups: Groups, root: string, group: string, past: seq<string>)
    requires Sound(groups, root) && Reaches(groups, root, group) && PathLeadsTo(groups, past, group)
    ensures Resolve(groups, group, past).Success?
    decreases |groups.Keys - Past(past)|, 0
  {
    NotOnPath(groups, root, group, past);
    PastGrows(groups, past, group);
    SoundItemsResolve(groups, root, group, past, |groups[group].items|);
    ResolveUnfolds(groups, group, past);
  }

  lemma {:induction false} OneMoreItem(groups: Groups, items: seq<Item>, past: seq<string>, i: nat)
    requires 0 < i <= |items| && ResolveItems(groups, items[..i - 1], past).Success? && items[i - 1] != Malformed
    requires items[i - 1].Include? ==> Resolve(groups, Names.Canonical(items[i - 1].group), past).Success?
    ensures ResolveItems(groups, items[..i], past).Success?
  {
    assert items[..i][..i - 1] == items[..i - 1];
  }

  /** An included group is one step further on the way. */
  lemma {:induction false} IncludedIsReached(
    groups: Groups, root: string, group: string, past: seq<string>, i: nat)
    requires Reaches(groups, root, group) && PathLeadsTo(groups, past, group)
    requires group in groups && groups[group].Items? && i < |groups[group].items| && groups[group].items[i].Include?
    ensures var next := Names.Canonical(groups[group].items[i].group);
            Reaches(groups, root, next) && PathLeadsTo(groups, past + [group], next)
  {
    var next := Names.Canonical(groups[group].items[i].group);
    IncludedIsEdge(groups[group].items, i);
    PathExtends(groups, past, group, next);
    ConcatSteps(groups, root, group, next);
  }

  lemma {:induction false} SoundItemsResolve(groups: Groups, root: string, group: string, past: seq<string>, i: nat)
    requires Sound(groups, root) && Reaches(groups, root, group) && PathLeadsTo(groups, past, group)
    requires WellFormed(groups, group) && i <= |groups[group].items| && group !in past
    ensures ResolveItems(groups, groups[group].items[..i], past + [group]).Success?
    decreases |groups.Keys - Past(past + [group])|, i + 1
  {
    var items := groups[group].items;
    if i > 0 {
      SoundItemsResolve(groups, root, group, past, i - 1);
      assert items[i - 1] in items;
      if items[i - 1].Include? {
        IncludedIsReached(groups, root, group, past, i - 1);
        SoundResolves(groups, root, Names.Canonical(items[i - 1].group), past + [group]);
      }
      OneMoreItem(groups, items, past + [group], i);
    }
  }

  lemma {:induction false} IncludedIsEdge(items: seq<Item>, i: nat)
    requires i < |items| && items[i].Include?
    ensures Names.Canonical(items[i].group) in Includes(items)
  {
    if i < |items| - 1 {
      IncludedIsEdge(items[..|items| - 1], i);
    }
  }

  lemma {:induction false} ExpandedIsSound(groups: Groups, group: string, depth: nat)
    requires Expand(groups, group, depth).Some?
    ensures Sound(groups, group)
  {
    var next := Graph(groups);
    GraphUsesDepth(groups);
    forall h, n: nat | ReachableIn([group], next, h, n)
      ensures WellFormed(groups, h) && !OnCycle(groups, h)
    {
      ExpandedSteps(groups, next, group, h, n, depth);
      ExpandedIsFine(groups, h, depth - n);
    }
  }

  lemma {:induction false} ExpandedIsFine(groups: Groups, group: string, depth: nat)
    requires Expand(groups, group, depth).Some?
    ensures WellFormed(groups, group) && !OnCycle(groups, group)
  {
    ExpandedIsWellFormed(groups, group, depth);
    ExpandableIsAcyclic(groups, group, depth);
  }

  /**
   * Resolution succeeds exactly when every group reachable through includes exists and is well formed,
   * and none of them lies on a cycle.
   */
  lemma {:induction false} ResolutionSucceedsExactly(groups: Groups, group: string)
    ensures Resolve(groups, group, []).Success? <==> Sound(groups, group)
  {
    if Resolve(groups, group, []).Success? {
      ResolvedIsExpansion(groups, group, []);
      ExpandedIsSound(groups, group, |groups.Keys - Past([])|);
    }
    if Sound(groups, group) {
      RootReachable([group], Graph(groups), group);
      SoundResolves(groups, group, group, []);
    }
  }

  // ----- why a resolution fails -----

  /** A group on the way that the failure is about. */
  ghost predicate Explains(groups: Groups, root: string, h: string, e: Error) {
    Reaches(groups, root, h) &&
    match e
    case NotFound => h !in groups
    case Invalid => h in groups && (groups[h].NotAList? || Malformed in groups[h].items)
    case CyclicInclude => OnCycle(groups, h)
  }

  /** Some reachable group is the cause of the error. */
  ghost predicate Explained(groups: Groups, root: string, e: Error) { exists h :: Explains(groups, root, h, e) }

  /** What makes resolving a list of items fail: an earlier item, an include, or what the format does not allow. */
  lemma {:induction false} LastItemFails(groups: Groups, init: seq<Item>, last: Item, past: seq<string>)
    requires ResolveItems(groups, init + [last], past).Failure?
    ensures var r, before := ResolveItems(groups, init + [last], past), ResolveItems(groups, init, past);
            && (before.Failure? ==> r == before)
            && (before.Success? && last.Include? ==> r == Resolve(groups, Names.Canonical(last.group), past))
            && (before.Success? && !last.Include? ==> last == Malformed && r.error == Invalid)
  {
    assert (init + [last])[..|init|] == init;
  }

  lemma {:induction false} FailsAtOnce(groups: Groups, root: string, group: string, past: seq<string>)
    requires group in past || group !in groups || groups[group].NotAList?
    requires Reaches(groups, root, group) && PathLeadsTo(groups, past, group)
    ensures Resolve(groups, group, past).Failure? && Explained(groups, root, Resolve(groups, group, past).error)
  {
    assert Explains(groups, root, group, Resolve(groups, group, past).error);
  }

  lemma {:induction false} FailureExplained(groups: Groups, root: string, group: string, past: seq<string>)
    requires Resolve(groups, group, past).Failure? && Reaches(groups, root, group) && PathLeadsTo(groups, past, group)
    ensures Explained(groups, root, Resolve(groups, group, past).error)
    decreases |groups.Keys - Past(past)|, 0
  {
    if group in past || group !in groups || groups[group].NotAList? {
      FailsAtOnce(groups, root, group, past);
    } else {
      PastGrows(groups, past, group);
      ResolveUnfolds(groups, group, past);
      ItemFailureExplained(groups, root, group, past, |groups[group].items|);
    }
  }

  lemma {:induction false} ItemFailureExplained(groups: Groups, root: string, group: string, past: seq<string>, i: nat)
    requires group in groups && groups[group].Items? && i <= |groups[group].items| && group !in past
    requires Reaches(groups, root, group) && PathLeadsTo(groups, past, group)
    requires ResolveItems(groups, groups[group].items[..i], past + [group]).Failure?
    ensures Explained(groups, root, ResolveItems(groups, groups[group].items[..i], past + [group]).error)
    decreases |groups.Keys - Past(past + [group])|, i + 1
  {
    var items := groups[group].items;
    assert i > 0 && items[..i] == items[..i - 1] + [items[i - 1]];
    LastItemFails(groups, items[..i - 1], items[i - 1], past + [group]);
    if ResolveItems(groups, items[..i - 1], past + [group]).Failure? {
      ItemFailureExplained(groups, root, group, past, i - 1);
    } else if items[i - 1].Include? {
      IncludedIsReached(groups, root, group, past, i - 1);
      FailureExplained(groups, root, Names.Canonical(items[i - 1].group), past + [group]);
    } else {
      assert items[i - 1] in items;
      assert Explains(groups, root, group, Invalid);
    }
  }

  /** A failure names its cause: a reachable group that is missing, is not well formed, or lies on a cycle. */
  lemma {:induction false} FailureHasItsCause(groups: Groups, group: string)
    requires Resolve(groups, group, []).Failure?
    ensures Explained(groups, group, Resolve(groups, group, []).error)
  {
    RootReachable([group], Graph(groups), group);
    FailureExplained(groups, group, group, []);
  }
}
