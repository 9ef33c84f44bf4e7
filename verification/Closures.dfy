/** Plain graph reachability, the reference against which the lockfile worklists are proved. */
module Reachability {
  /** `x` is the end of a path of `n` steps that starts at a root. */
  ghost predicate ReachableIn<T(!new)>(roots: seq<T>, next: T -> seq<T>, x: T, n: nat) {
    if n == 0 then x in roots else exists y :: ReachableIn(roots, next, y, n - 1) && x in next(y)
  }

  ghost predicate Reachable<T(!new)>(roots: seq<T>, next: T -> seq<T>, x: T) {
    exists n: nat :: ReachableIn(roots, next, x, n)
  }

  lemma {:induction false} RootReachable<T(!new)>(roots: seq<T>, next: T -> seq<T>, x: T)
    requires x in roots
    ensures Reachable(roots, next, x)
  {
    assert ReachableIn(roots, next, x, 0);
  }

  lemma {:induction false} StepReachable<T(!new)>(roots: seq<T>, next: T -> seq<T>, x: T, y: T)
    requires Reachable(roots, next, x) && y in next(x)
    ensures Reachable(roots, next, y)
  {
    var n: nat :| ReachableIn(roots, next, x, n);
    assert ReachableIn(roots, next, y, n + 1);
  }

  lemma {:induction false} LastStep<T(!new)>(roots: seq<T>, next: T -> seq<T>, x: T, n: nat) returns (y: T)
    requires n > 0 && ReachableIn(roots, next, x, n)
    ensures ReachableIn(roots, next, y, n - 1) && x in next(y)
  {
    y :| ReachableIn(roots, next, y, n - 1) && x in next(y);
  }

  lemma {:induction false} PrependStep<T(!new)>(next: T -> seq<T>, g: T, h: T, x: T, n: nat)
    requires h in next(g) && ReachableIn([h], next, x, n)
    ensures ReachableIn([g], next, x, n + 1)
  {
    if n == 0 {
      assert ReachableIn([g], next, g, 0);
    } else {
      var y := LastStep([h], next, x, n);
      PrependStep(next, g, h, y, n - 1);
    }
  }

  /** A set that holds the roots and is closed under the step relation holds everything reachable. */
  lemma {:induction false} ClosedCovers<T(!new)>(roots: seq<T>, next: T -> seq<T>, S: set<T>, x: T)
    requires forall r :: r in roots ==> r in S
    requires forall y, z :: y in S && z in next(y) ==> z in S
    requires Reachable(roots, next, x)
    ensures x in S
  {
    var n: nat :| ReachableIn(roots, next, x, n);
    StepsStay(roots, next, S, x, n);
  }

  lemma {:induction false} OnlyRootsReached<T(!new)>(next: T -> seq<T>, a: T, b: T, x: T)
    requires next(a) == [] && next(b) == []
    ensures Reachable([a, b], next, x) <==> x == a || x == b
  {
    if x in [a, b] {
      RootReachable([a, b], next, x);
    } else if Reachable([a, b], next, x) {
      ClosedCovers([a, b], next, {a, b}, x);
    }
  }

  lemma {:induction false} StepsStay<T(!new)>(roots: seq<T>, next: T -> seq<T>, S: set<T>, x: T, n: nat)
    requires forall r :: r in roots ==> r in S
    requires forall y, z :: y in S && z in next(y) ==> z in S
    requires ReachableIn(roots, next, x, n)
    ensures x in S
  {
    if n > 0 {
      var y :| ReachableIn(roots, next, y, n - 1) && x in next(y);
      StepsStay(roots, next, S, y, n - 1);
    }
  }
}

/**
 * The bookkeeping shared by the lockfile worklists: a queue of items, a set of visited keys, and the
 * values collected so far. An item whose key was visited is dropped without being expanded.
 */
module Worklist {
  import opened Wrappers
  import opened Reachability

  /** What a resolvable item contributes and leads to. */
  datatype Expansion<T, V> = Expansion(values: set<V>, items: seq<T>)

  ghost function NextOf<T, V>(resolve: T -> Option<Expansion<T, V>>): T -> seq<T> {
    (x: T) => if resolve(x).Some? then resolve(x).value.items else []
  }

  /** Items with the same key resolve alike, so expanding one of them is enough. */
  ghost predicate Determined<T(!new), K, V>(roots: seq<T>, key: T -> K, resolve: T -> Option<Expansion<T, V>>) {
    forall i, j :: Reachable(roots, NextOf(resolve), i) && Reachable(roots, NextOf(resolve), j) && key(i) == key(j)
      ==> resolve(i) == resolve(j)
  }

  ghost predicate AllReached<T(!new), V>(
    roots: seq<T>, resolve: T -> Option<Expansion<T, V>>, queue: seq<T>, done: set<T>)
  {
    forall i :: i in queue || i in done ==> Reachable(roots, NextOf(resolve), i)
  }

  ghost predicate Pending<T(!new), V>(
    roots: seq<T>, resolve: T -> Option<Expansion<T, V>>, queue: seq<T>, done: set<T>, expanded: set<T>)
  {
    && (forall r :: r in roots ==> r in queue || r in done)
    && (forall e :: e in expanded ==> e in done && resolve(e).Some?)
    && (forall e, c :: e in expanded && c in resolve(e).value.items ==> c in queue || c in done)
  }

  ghost predicate Marked<T(!new), K>(key: T -> K, done: set<T>, expanded: set<T>, visited: set<K>) {
    && (forall i :: i in done ==> key(i) in visited)
    && (forall k :: k in visited ==> exists e :: e in expanded && key(e) == k)
    && expanded <= done && OnePerKey(key, expanded)
  }

  ghost predicate OnePerKey<T(!new), K>(key: T -> K, chosen: set<T>) {
    forall e, f :: e in chosen && f in chosen && key(e) == key(f) ==> e == f
  }

  ghost predicate HasKey<T(!new), K>(key: T -> K, chosen: set<T>, k: K) { exists e :: e in chosen && key(e) == k }

  /**
   * The values of one reachable item for each key that is met on the way from the roots through the chosen
   * items: all that a run yields when items with the same key may differ.
   */
  ghost predicate Selection<T(!new), K, V>(
    roots: seq<T>, key: T -> K, resolve: T -> Option<Expansion<T, V>>, chosen: set<T>, found: set<V>)
  {
    && (forall e :: e in chosen ==> Reachable(roots, NextOf(resolve), e) && resolve(e).Some?)
    && OnePerKey(key, chosen)
    && (forall r :: r in roots ==> HasKey(key, chosen, key(r)))
    && (forall e, c :: e in chosen && c in resolve(e).value.items ==> HasKey(key, chosen, key(c)))
    && Collected(resolve, chosen, found)
  }

  ghost predicate Collected<T(!new), V>(resolve: T -> Option<Expansion<T, V>>, expanded: set<T>, found: set<V>)
    requires forall e :: e in expanded ==> resolve(e).Some?
  {
    && (forall e, x :: e in expanded && x in resolve(e).value.values ==> x in found)
    && (forall x :: x in found ==> exists e :: e in expanded && x in resolve(e).value.values)
  }

  /** `done` holds the items taken off the queue, `expanded` those whose successors were queued. */
  ghost predicate Progress<T(!new), K, V>(
    roots: seq<T>, key: T -> K, resolve: T -> Option<Expansion<T, V>>,
    queue: seq<T>, done: set<T>, expanded: set<T>, visited: set<K>, found: set<V>)
  {
    && AllReached(roots, resolve, queue, done)
    && Pending(roots, resolve, queue, done, expanded)
    && Marked(key, done, expanded, visited)
    && Collected(resolve, expanded, found)
  }

  lemma {:induction false} Skip<T(!new), K, V>(
    roots: seq<T>, key: T -> K, resolve: T -> Option<Expansion<T, V>>,
    queue: seq<T>, item: T, done: set<T>, expanded: set<T>, visited: set<K>, found: set<V>)
    requires Progress(roots, key, resolve, queue + [item], done, expanded, visited, found)
    requires key(item) in visited
    ensures Progress(roots, key, resolve, queue, done + {item}, expanded, visited, found)
  {
    assert forall i :: i in queue + [item] <==> i in queue || i == item;
  }

  lemma {:induction false} VisitReaches<T(!new), V>(
    roots: seq<T>, resolve: T -> Option<Expansion<T, V>>, queue: seq<T>, item: T, done: set<T>, items: seq<T>)
    requires AllReached(roots, resolve, queue + [item], done)
    requires resolve(item).Some? && items == resolve(item).value.items
    ensures AllReached(roots, resolve, queue + items, done + {item})
  {
    assert item in queue + [item];
    forall c | c in items
      ensures Reachable(roots, NextOf(resolve), c)
    {
      StepReachable(roots, NextOf(resolve), item, c);
    }
    forall i | i in queue
      ensures Reachable(roots, NextOf(resolve), i)
    {
      assert i in queue + [item];
    }
  }

  lemma {:induction false} VisitQueues<T(!new), V>(
    roots: seq<T>, resolve: T -> Option<Expansion<T, V>>,
    queue: seq<T>, item: T, done: set<T>, expanded: set<T>, items: seq<T>)
    requires Pending(roots, resolve, queue + [item], done, expanded)
    requires resolve(item).Some? && items == resolve(item).value.items
    ensures Pending(roots, resolve, queue + items, done + {item}, expanded + {item})
  {
    assert forall i :: i in queue + [item] <==> i in queue || i == item;
    assert forall i :: i in queue + items <==> i in queue || i in items;
  }

  lemma {:induction false} VisitMarks<T(!new), K>(key: T -> K, item: T, done: set<T>, expanded: set<T>, visited: set<K>)
    requires Marked(key, done, expanded, visited) && key(item) !in visited
    ensures Marked(key, done + {item}, expanded + {item}, visited + {key(item)})
  {
    forall k | k in visited + {key(item)}
      ensures exists e :: e in expanded + {item} && key(e) == k
    {
      if k == key(item) {
        assert item in expanded + {item};
      } else {
        var e :| e in expanded && key(e) == k;
        assert e in expanded + {item};
      }
    }
  }

  lemma {:induction false} VisitCollects<T(!new), V>(
    resolve: T -> Option<Expansion<T, V>>, item: T, expanded: set<T>, found: set<V>, values: set<V>)
    requires forall e :: e in expanded ==> resolve(e).Some?
    requires Collected(resolve, expanded, found) && resolve(item).Some? && values == resolve(item).value.values
    ensures Collected(resolve, expanded + {item}, found + values)
  {
    forall x | x in found + values
      ensures exists e :: e in expanded + {item} && x in resolve(e).value.values
    {
      if x in values {
        assert item in expanded + {item};
      } else {
        var e :| e in expanded && x in resolve(e).value.values;
        assert e in expanded + {item};
      }
    }
  }

  lemma {:induction false} Visit<T(!new), K, V>(
    roots: seq<T>, key: T -> K, resolve: T -> Option<Expansion<T, V>>,
    queue: seq<T>, item: T, done: set<T>, expanded: set<T>, visited: set<K>, found: set<V>, next: Expansion<T, V>)
    requires Progress(roots, key, resolve, queue + [item], done, expanded, visited, found)
    requires resolve(item) == Some(next) && key(item) !in visited
    ensures Progress(roots, key, resolve, queue + next.items, done + {item}, expanded + {item},
                     visited + {key(item)}, found + next.values)
  {
    VisitReaches(roots, resolve, queue, item, done, next.items);
    VisitQueues(roots, resolve, queue, item, done, expanded, next.items);
    VisitMarks(key, item, done, expanded, visited);
    VisitCollects(resolve, item, expanded, found, next.values);
  }

  lemma {:induction false} QueuedIsReached<T(!new), K, V>(
    roots: seq<T>, key: T -> K, resolve: T -> Option<Expansion<T, V>>,
    queue: seq<T>, item: T, done: set<T>, expanded: set<T>, visited: set<K>, found: set<V>)
    requires Progress(roots, key, resolve, queue + [item], done, expanded, visited, found)
    ensures Reachable(roots, NextOf(resolve), item)
  {
    assert item in queue + [item];
  }

  lemma {:induction false} SplitLast<T>(s: seq<T>)
    requires s != []
    ensures s == s[..|s| - 1] + [s[|s| - 1]]
  {
  }

  lemma {:induction false} VisitShrinks<K>(keys: set<K>, before: set<K>, k: K)
    requires k in keys && k !in before
    ensures |keys - (before + {k})| < |keys - before|
  {
    assert keys - before == (keys - (before + {k})) + {k};
  }

  lemma {:induction false} DoneResolvesAlike<T(!new), K, V>(
    roots: seq<T>, key: T -> K, resolve: T -> Option<Expansion<T, V>>, done: set<T>, expanded: set<T>, visited: set<K>, i: T)
    returns (e: T)
    requires AllReached(roots, resolve, [], done) && Pending(roots, resolve, [], done, expanded)
    requires Marked(key, done, expanded, visited)
    requires Determined(roots, key, resolve) && i in done
    ensures e in expanded && resolve(e) == resolve(i)
  {
    e :| e in expanded && key(e) == key(i);
    assert e in done;
  }

  lemma {:induction false} DoneIsClosed<T(!new), K, V>(
    roots: seq<T>, key: T -> K, resolve: T -> Option<Expansion<T, V>>, done: set<T>, expanded: set<T>, visited: set<K>,
    y: T, z: T)
    requires AllReached(roots, resolve, [], done) && Pending(roots, resolve, [], done, expanded)
    requires Marked(key, done, expanded, visited)
    requires Determined(roots, key, resolve) && y in done && z in NextOf(resolve)(y)
    ensures z in done
  {
    var e := DoneResolvesAlike(roots, key, resolve, done, expanded, visited, y);
    assert z in resolve(e).value.items;
  }

  lemma {:induction false} ReachedIsDone<T(!new), K, V>(
    roots: seq<T>, key: T -> K, resolve: T -> Option<Expansion<T, V>>, done: set<T>, expanded: set<T>, visited: set<K>, i: T)
    requires AllReached(roots, resolve, [], done) && Pending(roots, resolve, [], done, expanded)
    requires Marked(key, done, expanded, visited)
    requires Determined(roots, key, resolve) && Reachable(roots, NextOf(resolve), i)
    ensures i in done
  {
    var next := NextOf(resolve);
    forall y, z | y in done && z in next(y)
      ensures z in done
    {
      DoneIsClosed(roots, key, resolve, done, expanded, visited, y, z);
    }
    ClosedCovers(roots, next, done, i);
  }

  /** A finished worklist has found exactly what the reachable items contribute, and all of them resolve. */
  lemma {:induction false} Finish<T(!new), K, V>(
    roots: seq<T>, key: T -> K, resolve: T -> Option<Expansion<T, V>>,
    done: set<T>, expanded: set<T>, visited: set<K>, found: set<V>)
    requires Progress(roots, key, resolve, [], done, expanded, visited, found)
    requires Determined(roots, key, resolve)
    ensures forall i :: Reachable(roots, NextOf(resolve), i) ==> resolve(i).Some? && resolve(i).value.values <= found
  {
    forall i | Reachable(roots, NextOf(resolve), i)
      ensures resolve(i).Some? && resolve(i).value.values <= found
    {
      ReachedIsDone(roots, key, resolve, done, expanded, visited, i);
      var e := DoneResolvesAlike(roots, key, resolve, done, expanded, visited, i);
    }
  }

  /** A finished worklist has chosen one item for each key it met. */
  lemma {:induction false} FinishSelects<T(!new), K, V>(
    roots: seq<T>, key: T -> K, resolve: T -> Option<Expansion<T, V>>,
    done: set<T>, expanded: set<T>, visited: set<K>, found: set<V>)
    requires Progress(roots, key, resolve, [], done, expanded, visited, found)
    ensures Selection(roots, key, resolve, expanded, found)
  {
    forall i | i in done
      ensures HasKey(key, expanded, key(i))
    {
      var e :| e in expanded && key(e) == key(i);
    }
  }

  /** Of two items with one key, each with a value of its own, a selection misses one value. */
  lemma {:induction false} SharedKeyLosesOne<T(!new), K, V>(
    roots: seq<T>, key: T -> K, resolve: T -> Option<Expansion<T, V>>, chosen: set<T>, found: set<V>, i: T, j: T, x: V, y: V)
    requires Selection(roots, key, resolve, chosen, found) && i != j && key(i) == key(j)
    requires forall e :: Reachable(roots, NextOf(resolve), e) && resolve(e).Some? && x in resolve(e).value.values ==> e == i
    requires forall e :: Reachable(roots, NextOf(resolve), e) && resolve(e).Some? && y in resolve(e).value.values ==> e == j
    ensures x !in found || y !in found
  {
  }

  /** Nothing is found that no reachable item contributes. */
  lemma {:induction false} NothingInvented<T(!new), K, V>(
    roots: seq<T>, key: T -> K, resolve: T -> Option<Expansion<T, V>>,
    queue: seq<T>, done: set<T>, expanded: set<T>, visited: set<K>, found: set<V>)
    requires Progress(roots, key, resolve, queue, done, expanded, visited, found)
    ensures forall x :: x in found ==>
              exists i :: Reachable(roots, NextOf(resolve), i) && resolve(i).Some? && x in resolve(i).value.values
  {
    forall x | x in found
      ensures exists i :: Reachable(roots, NextOf(resolve), i) && resolve(i).Some? && x in resolve(i).value.values
    {
      var e :| e in expanded && x in resolve(e).value.values;
      assert e in done;
    }
  }
}

/** Small string helpers with Python's meaning. */
module Text {
  import opened Wrappers

  predicate StartsWith(s: string, prefix: string) { prefix <= s }

  predicate OccursAt(s: string, sub: string, i: nat) {
    i + |sub| <= |s| && s[i..i + |sub|] == sub
  }

  /** Index of the first occurrence at or after `from`. */
  function FindFrom(s: string, sub: string, from: nat): (r: Option<nat>)
    requires from <= |s|
    ensures r.Some? ==> from <= r.value && OccursAt(s, sub, r.value)
    ensures forall j :: from <= j < (if r.Some? then r.value else |s| + 1) ==> !OccursAt(s, sub, j)
    decreases |s| - from
  {
    if OccursAt(s, sub, from) then Some(from)
    else if from == |s| then None
    else FindFrom(s, sub, from + 1)
  }

  /** Index of the last occurrence of a character. */
  function LastIndex(s: string, c: char): (r: Option<nat>)
    ensures r.Some? ==> r.value < |s| && s[r.value] == c && forall j :: r.value < j < |s| ==> s[j] != c
    ensures r.None? ==> c !in s
  {
    if s == [] then None
    else if s[|s| - 1] == c then Some(|s| - 1)
    else LastIndex(s[..|s| - 1], c)
  }
}

/** The bundled packages of a Yarn lockfile: a worklist with resolution overrides and fallback lookups. */
module YarnClosure {
  import opened Wrappers
  import opened Reachability
  import opened Worklist
  import opened Text

  type Dependency = (string, string)

  /** A package table: dependencies in file order, and the fields that may be missing. */
  datatype Package = Package(
    dependencies: seq<Dependency>,
    optionalDependencies: seq<Dependency>,
    version: Option<string>,
    resolution: Option<string>)

  /** A lockfile entry: the descriptors of its key and its package. */
  datatype Entry = Entry(descriptors: seq<string>, package: Package)

  datatype Project = Project(
    rootName: string,
    root: Package,
    resolutions: seq<(string, string)>,
    workspaces: map<string, Package>,
    entries: seq<Entry>)

  datatype Item = Item(parent: string, name: string, reference: string)

  function Dependencies(p: Package): seq<Dependency> { p.dependencies + p.optionalDependencies }

  function Items(parent: string, deps: seq<Dependency>): (items: seq<Item>)
    ensures |items| == |deps|
    ensures forall i :: 0 <= i < |deps| ==> items[i] == Item(parent, deps[i].0, deps[i].1)
  {
    seq(|deps|, i requires 0 <= i < |deps| => Item(parent, deps[i].0, deps[i].1))
  }

  /** The part of a descriptor before its protocol, empty when it has none of the known ones. */
  function DescriptorName(d: string): string {
    if FindFrom(d, "@npm:", 0).Some? then d[..FindFrom(d, "@npm:", 0).value]
    else if FindFrom(d, "@patch:", 0).Some? then d[..FindFrom(d, "@patch:", 0).value]
    else if FindFrom(d, "@portal:", 0).Some? then d[..FindFrom(d, "@portal:", 0).value]
    else if FindFrom(d, "@file:", 0).Some? then d[..FindFrom(d, "@file:", 0).value]
    else ""
  }

  // ----- the two indexes -----

  function AddDescriptors(m: map<string, Package>, ds: seq<string>, p: Package): map<string, Package> {
    if ds == [] then m else AddDescriptors(m, ds[..|ds| - 1], p)[ds[|ds| - 1] := p]
  }

  function Descriptors(entries: seq<Entry>): map<string, Package> {
    if entries == [] then map[]
    else
      var last := entries[|entries| - 1];
      AddDescriptors(Descriptors(entries[..|entries| - 1]), last.descriptors, last.package)
  }

  function Lookup(m: map<string, seq<Package>>, name: string): seq<Package> {
    if name in m then m[name] else []
  }

  function AddNames(m: map<string, seq<Package>>, ds: seq<string>, p: Package): map<string, seq<Package>> {
    if ds == [] then m
    else
      var before := AddNames(m, ds[..|ds| - 1], p);
      var name := DescriptorName(ds[|ds| - 1]);
      if name == "" then before else before[name := Lookup(before, name) + [p]]
  }

  function ByName(entries: seq<Entry>): map<string, seq<Package>> {
    if entries == [] then map[]
    else
      var last := entries[|entries| - 1];
      AddNames(ByName(entries[..|entries| - 1]), last.descriptors, last.package)
  }

  ghost predicate Listed(entries: seq<Entry>, p: Package) {
    exists i :: 0 <= i < |entries| && entries[i].package == p
  }

  lemma {:induction false} IndexedAreListed(entries: seq<Entry>)
    ensures forall d :: d in Descriptors(entries) ==> Listed(entries, Descriptors(entries)[d])
    ensures forall n, p :: n in ByName(entries) && p in ByName(entries)[n] ==> Listed(entries, p)
  {
    if entries != [] {
      var init, last := entries[..|entries| - 1], entries[|entries| - 1];
      IndexedAreListed(init);
      AddedAreListed(Descriptors(init), ByName(init), last.descriptors, last.package);
      assert entries[|entries| - 1].package == last.package;
      assert forall p :: Listed(init, p) ==> Listed(entries, p) by {
        forall p | Listed(init, p)
          ensures Listed(entries, p)
        {
          var i :| 0 <= i < |init| && init[i].package == p;
          assert entries[i].package == p;
        }
      }
    }
  }

  lemma {:induction false} AddedAreListed(m: map<string, Package>, n: map<string, seq<Package>>, ds: seq<string>, p: Package)
    ensures forall d :: d in AddDescriptors(m, ds, p) ==>
              AddDescriptors(m, ds, p)[d] == p || (d in m && m[d] == AddDescriptors(m, ds, p)[d])
    ensures forall k, q :: k in AddNames(n, ds, p) && q in AddNames(n, ds, p)[k] ==> q == p || (k in n && q in n[k])
  {
    if ds != [] {
      AddedAreListed(m, n, ds[..|ds| - 1], p);
    }
  }

  // ----- resolution of one item -----

  function RemoveNpm(r: string): string { if StartsWith(r, "npm:") then r[4..] else r }

  predicate Matches(pattern: string, item: Item) {
    || pattern == item.name
    || pattern == item.name + "@" + item.reference
    || pattern == item.name + "@" + RemoveNpm(item.reference)
    || pattern == item.name + "@npm:" + item.reference
    || pattern == item.parent + "/" + item.name
  }

  function OverrideValues(resolutions: seq<(string, string)>, item: Item): (vs: seq<string>)
    ensures forall v :: v in vs ==> exists i :: 0 <= i < |resolutions| && resolutions[i].1 == v
  {
    if resolutions == [] then []
    else
      var (pattern, value) := resolutions[|resolutions| - 1];
      OverrideValues(resolutions[..|resolutions| - 1], item) + if Matches(pattern, item) then [value] else []
  }

  predicate AllEqual(vs: seq<string>) { vs != [] && forall v :: v in vs ==> v == vs[0] }

  /** The reference after overrides; contradicting overrides count as none. */
  function Redirected(p: Project, item: Item): string {
    var vs := OverrideValues(p.resolutions, item);
    if AllEqual(vs) then vs[0] else item.reference
  }

  predicate HasProtocol(r: string) {
    StartsWith(r, "npm:") || StartsWith(r, "patch:") || StartsWith(r, "portal:") || StartsWith(r, "file:")
  }

  /** The descriptor that is looked up last, and the one remembered as visited. */
  function FinalDescriptor(p: Project, item: Item): string {
    var r := Redirected(p, item);
    if item.name + "@" + r !in Descriptors(p.entries) && !HasProtocol(r) then item.name + "@npm:" + r
    else item.name + "@" + r
  }

  function Locators(m: map<string, Package>, descriptor: string): set<string> {
    set d | d in m && StartsWith(d, descriptor + "::")
  }

  function Resolutions(candidates: seq<Package>): set<Option<string>> {
    set c | c in candidates :: c.resolution
  }

  /** Exact descriptor, else the only locator of it, else the only resolution under its name. */
  ghost function FindPackage(p: Project, name: string, descriptor: string): Option<Package> {
    var m := Descriptors(p.entries);
    var candidates := Lookup(ByName(p.entries), name);
    assert candidates == [] ==> Resolutions(candidates) == {};
    if descriptor in m then Some(m[descriptor])
    else if exists d :: Locators(m, descriptor) == {d} then
      var d :| Locators(m, descriptor) == {d};
      assert d in Locators(m, descriptor);
      Some(m[d])
    else if |Resolutions(candidates)| == 1 then
      Some(candidates[0])
    else None
  }

  predicate IsWorkspace(item: Item) { StartsWith(item.reference, "workspace:") }

  function ResolvedName(name: string, package: Package): string {
    var resolution := if package.resolution.Some? then package.resolution.value else "";
    if DescriptorName(resolution) != "" then DescriptorName(resolution) else name
  }

  type Found = Expansion<Item, (string, string)>

  function Expand(name: string, package: Package): Found {
    var resolved := ResolvedName(name, package);
    Expansion(if package.version.Some? && package.version.value != "" then {(resolved, package.version.value)} else {},
              Items(resolved, Dependencies(package)))
  }

  ghost function Resolve(p: Project, item: Item): Option<Found> {
    if IsWorkspace(item) then
      if item.name in p.workspaces then Some(Expansion({}, Items(item.name, Dependencies(p.workspaces[item.name]))))
      else None
    else
      var found := FindPackage(p, item.name, FinalDescriptor(p, item));
      if found.None? then None else Some(Expand(item.name, found.value))
  }

  function Roots(p: Project): seq<Item> { Items(p.rootName, Dependencies(p.root)) }

  ghost function Resolver(p: Project): Item -> Option<Found> { (item: Item) => Resolve(p, item) }

  ghost function Keyed(p: Project): Item -> Key { (item: Item) => KeyOf(p, item) }

  ghost predicate Reached(p: Project, item: Item) { Reachable(Roots(p), NextOf(Resolver(p)), item) }

  datatype Key = WorkspaceKey(name: string) | DescriptorKey(descriptor: string)

  function KeyOf(p: Project, item: Item): Key {
    if IsWorkspace(item) then WorkspaceKey(item.name) else DescriptorKey(FinalDescriptor(p, item))
  }

  /** No descriptor is reached under two different names. */
  ghost predicate Unambiguous(p: Project) {
    forall i, j :: Reached(p, i) && Reached(p, j) && KeyOf(p, i) == KeyOf(p, j) ==> i.name == j.name
  }

  /** Skipping an item whose key was seen loses nothing: the key and the name decide everything. */
  lemma {:induction false} SameKeySameResult(p: Project, i: Item, j: Item)
    requires KeyOf(p, i) == KeyOf(p, j) && i.name == j.name
    ensures Resolve(p, i) == Resolve(p, j)
  {
  }

  // ----- names as npm allows them -----

  predicate IsNpmName(n: string) { n != "" && forall i :: 1 <= i < |n| ==> n[i] != '@' }

  predicate GoodNames(deps: seq<Dependency>) { forall i :: 0 <= i < |deps| ==> IsNpmName(deps[i].0) }

  ghost predicate WellNamed(p: Project) {
    && GoodNames(Dependencies(p.root))
    && (forall w :: w in p.workspaces ==> GoodNames(Dependencies(p.workspaces[w])))
    && (forall i :: 0 <= i < |p.entries| ==> GoodNames(Dependencies(p.entries[i].package)))
  }

  lemma {:induction false} SplitAtSign(n: string, r: string, m: string, q: string)
    requires IsNpmName(n) && IsNpmName(m)
    requires n + "@" + r == m + "@" + q
    ensures n == m
  {
    var s := n + "@" + r;
    assert s[|n|] == '@' && s[|m|] == '@';
    assert s[..|n|] == n && s[..|m|] == m;
    assert forall i :: 1 <= i < |n| ==> s[i] == n[i];
    assert forall i :: 1 <= i < |m| ==> s[i] == m[i];
  }

  lemma {:induction false} FinalStartsWithName(p: Project, item: Item) returns (rest: string)
    ensures FinalDescriptor(p, item) == item.name + "@" + rest
  {
    var r := Redirected(p, item);
    assert item.name + "@npm:" + r == item.name + "@" + ("npm:" + r);
    if FinalDescriptor(p, item) == item.name + "@" + r {
      rest := r;
    } else {
      rest := "npm:" + r;
    }
  }

  lemma {:induction false} FoundIsListed(p: Project, name: string, descriptor: string)
    ensures var f := FindPackage(p, name, descriptor); f.Some? ==> Listed(p.entries, f.value)
  {
    IndexedAreListed(p.entries);
    var m := Descriptors(p.entries);
    if descriptor !in m && exists d :: Locators(m, descriptor) == {d} {
      var d :| Locators(m, descriptor) == {d} && FindPackage(p, name, descriptor) == Some(m[d]);
    }
  }

  /** Everything on the way is one of the dependencies written somewhere in the project. */
  predicate From(deps: seq<Dependency>, item: Item) { (item.name, item.reference) in deps }

  ghost predicate Written(p: Project, item: Item) {
    || From(Dependencies(p.root), item)
    || (exists w :: w in p.workspaces && From(Dependencies(p.workspaces[w]), item))
    || (exists i :: 0 <= i < |p.entries| && From(Dependencies(p.entries[i].package), item))
  }

  lemma {:induction false} ItemsWritten(parent: string, deps: seq<Dependency>, item: Item)
    requires item in Items(parent, deps)
    ensures From(deps, item)
  {
    var i :| 0 <= i < |deps| && Items(parent, deps)[i] == item;
    assert deps[i] == (item.name, item.reference);
  }

  lemma {:induction false} NextWritten(p: Project, item: Item, child: Item)
    requires child in NextOf(Resolver(p))(item)
    ensures Written(p, child)
  {
    if IsWorkspace(item) {
      ItemsWritten(item.name, Dependencies(p.workspaces[item.name]), child);
    } else {
      FoundIsListed(p, item.name, FinalDescriptor(p, item));
      var package := FindPackage(p, item.name, FinalDescriptor(p, item)).value;
      ItemsWritten(ResolvedName(item.name, package), Dependencies(package), child);
      var i :| 0 <= i < |p.entries| && p.entries[i].package == package;
      assert From(Dependencies(p.entries[i].package), child);
    }
  }

  lemma {:induction false} ReachedWritten(p: Project, item: Item)
    requires Reached(p, item)
    ensures Written(p, item)
  {
    var n: nat :| ReachableIn(Roots(p), NextOf(Resolver(p)), item, n);
    if n == 0 {
      ItemsWritten(p.rootName, Dependencies(p.root), item);
    } else {
      var before :| ReachableIn(Roots(p), NextOf(Resolver(p)), before, n - 1) && item in NextOf(Resolver(p))(before);
      NextWritten(p, before, item);
    }
  }

  /** npm names carry no `@` after their first character, so a descriptor shows its name. */
  lemma {:induction false} NpmNamesAreUnambiguous(p: Project)
    requires WellNamed(p)
    ensures Unambiguous(p)
  {
    forall i, j | Reached(p, i) && Reached(p, j) && KeyOf(p, i) == KeyOf(p, j)
      ensures i.name == j.name
    {
      ReachedWritten(p, i);
      ReachedWritten(p, j);
      WrittenIsNamed(p, i);
      WrittenIsNamed(p, j);
      if !IsWorkspace(i) {
        var r := FinalStartsWithName(p, i);
        var q := FinalStartsWithName(p, j);
        SplitAtSign(i.name, r, j.name, q);
      }
    }
  }

  lemma {:induction false} WrittenIsNamed(p: Project, item: Item)
    requires WellNamed(p) && Written(p, item)
    ensures IsNpmName(item.name)
  {
    assert forall deps: seq<Dependency>, i :: GoodNames(deps) && 0 <= i < |deps| ==> IsNpmName(deps[i].0);
  }

  // ----- the finite universe that bounds the worklist -----

  ghost function Universe(p: Project): set<Item> {
    var deps := set d | d in Dependencies(p.root);
    var fromWorkspaces := set w, d | w in p.workspaces && d in Dependencies(p.workspaces[w]) :: d;
    var fromEntries := set i, d | 0 <= i < |p.entries| && d in Dependencies(p.entries[i].package) :: d;
    set d | d in deps + fromWorkspaces + fromEntries :: Item("", d.0, d.1)
  }

  lemma {:induction false} WrittenInUniverse(p: Project, item: Item)
    requires Written(p, item)
    ensures Item("", item.name, item.reference) in Universe(p)
  {
    var d := (item.name, item.reference);
    assert d.0 == item.name && d.1 == item.reference;
    if From(Dependencies(p.root), item) {
    } else if w :| w in p.workspaces && From(Dependencies(p.workspaces[w]), item) {
      assert d in Dependencies(p.workspaces[w]);
    } else {
      var i :| 0 <= i < |p.entries| && From(Dependencies(p.entries[i].package), item);
      assert d in Dependencies(p.entries[i].package);
    }
  }

  /** Every reference an item can end up with: its own or an override value. */
  ghost function References(p: Project): set<string> {
    (set u | u in Universe(p) :: u.reference) + (set i | 0 <= i < |p.resolutions| :: p.resolutions[i].1)
  }

  function KeysFor(name: string, reference: string): set<Key> {
    {WorkspaceKey(name), DescriptorKey(name + "@" + reference), DescriptorKey(name + "@npm:" + reference)}
  }

  ghost function Keys(p: Project): set<Key> {
    set u, r, k | u in Universe(p) && r in References(p) && k in KeysFor(u.name, r) :: k
  }

  lemma {:induction false} KeyInKeys(p: Project, item: Item)
    requires Written(p, item)
    ensures KeyOf(p, item) in Keys(p)
  {
    WrittenInUniverse(p, item);
    var u := Item("", item.name, item.reference);
    assert u in Universe(p) && u.name == item.name && u.reference == item.reference;
    assert item.reference in References(p);
    var r := Redirected(p, item);
    var vs := OverrideValues(p.resolutions, item);
    if AllEqual(vs) {
      assert vs[0] in vs;
      var i :| 0 <= i < |p.resolutions| && p.resolutions[i].1 == vs[0];
    }
    assert KeyOf(p, item) in KeysFor(u.name, r);
  }

  /** A finite set of keys that bounds how often an item can be expanded. */
  lemma {:induction false} KeysExist(p: Project) returns (keys: set<Key>)
    ensures forall i :: Reached(p, i) ==> KeyOf(p, i) in keys
  {
    keys := Keys(p);
    forall i | Reached(p, i)
      ensures KeyOf(p, i) in keys
    {
      ReachedWritten(p, i);
      KeyInKeys(p, i);
    }
  }

  // ----- the worklist -----

  method BuildIndexes(entries: seq<Entry>) returns (m: map<string, Package>, n: map<string, seq<Package>>)
    ensures m == Descriptors(entries) && n == ByName(entries)
  {
    m, n := map[], map[];
    for i := 0 to |entries|
      invariant m == Descriptors(entries[..i]) && n == ByName(entries[..i])
    {
      var ds, package := entries[i].descriptors, entries[i].package;
      ghost var m0, n0 := m, n;
      for j := 0 to |ds|
        invariant m == AddDescriptors(m0, ds[..j], package) && n == AddNames(n0, ds[..j], package)
      {
        assert ds[..j + 1][..j] == ds[..j];
        m := m[ds[j] := package];
        var name := DescriptorName(ds[j]);
        if name != "" {
          n := n[name := (if name in n then n[name] else []) + [package]];
        }
      }
      assert ds[..|ds|] == ds;
      assert entries[..i + 1][..i] == entries[..i];
    }
    assert entries[..|entries|] == entries;
  }

  lemma {:induction false} SingletonOf<T>(s: set<T>, x: T)
    requires x in s && |s| == 1
    ensures s == {x}
  {
    assert |s - {x}| == 0;
  }

  method FindInLock(
    p: Project, m: map<string, Package>, n: map<string, seq<Package>>, name: string, first: string, reference: string)
    returns (descriptor: string, package: Option<Package>)
    requires m == Descriptors(p.entries) && n == ByName(p.entries) && first == name + "@" + reference
    ensures descriptor == if first !in m && !HasProtocol(reference) then name + "@npm:" + reference else first
    ensures package == FindPackage(p, name, descriptor)
  {
    descriptor := first;
    package := if descriptor in m then Some(m[descriptor]) else None;
    if package.None? && !HasProtocol(reference) {
      descriptor := name + "@npm:" + reference;
      package := if descriptor in m then Some(m[descriptor]) else None;
    }
    if package.None? {
      var matches := set d | d in m && StartsWith(d, descriptor + "::");
      assert matches == Locators(m, descriptor);
      if |matches| == 1 {
        var d :| d in matches;
        SingletonOf(matches, d);
        return descriptor, Some(m[d]);
      }
      forall d
        ensures Locators(m, descriptor) != {d}
      {
        assert |{d}| == 1;
      }
    }
    if package.None? {
      var candidates := if name in n then n[name] else [];
      var resolutions := set c | c in candidates :: c.resolution;
      assert resolutions == Resolutions(candidates);
      assert candidates == [] ==> resolutions == {};
      if |resolutions| == 1 {
        package := Some(candidates[0]);
      }
    }
  }

  method Overrides(resolutions: seq<(string, string)>, item: Item) returns (values: seq<string>)
    ensures values == OverrideValues(resolutions, item)
  {
    values := [];
    for i := 0 to |resolutions|
      invariant values == OverrideValues(resolutions[..i], item)
    {
      assert resolutions[..i + 1][..i] == resolutions[..i];
      var (pattern, value) := resolutions[i];
      if pattern in [item.name, item.name + "@" + item.reference, item.name + "@" + RemoveNpm(item.reference),
                     item.name + "@npm:" + item.reference]
         || pattern == item.parent + "/" + item.name {
        values := values + [value];
      }
    }
    assert resolutions[..|resolutions|] == resolutions;
  }

  ghost function Visited(descriptors: set<string>, workspaces: set<string>): set<Key> {
    (set d | d in descriptors :: DescriptorKey(d)) + (set w | w in workspaces :: WorkspaceKey(w))
  }

  lemma {:induction false} VisitDescriptor(descriptors: set<string>, workspaces: set<string>, d: string)
    ensures DescriptorKey(d) in Visited(descriptors, workspaces) <==> d in descriptors
    ensures Visited(descriptors + {d}, workspaces) == Visited(descriptors, workspaces) + {DescriptorKey(d)}
  {
  }

  lemma {:induction false} VisitWorkspace(descriptors: set<string>, workspaces: set<string>, w: string)
    ensures WorkspaceKey(w) in Visited(descriptors, workspaces) <==> w in workspaces
    ensures Visited(descriptors, workspaces + {w}) == Visited(descriptors, workspaces) + {WorkspaceKey(w)}
  {
  }

  /** One name per descriptor is all that skipping needs. */
  lemma {:induction false} UnambiguousIsDetermined(p: Project)
    requires Unambiguous(p)
    ensures Determined(Roots(p), Keyed(p), Resolver(p))
  {
    forall i, j | Reached(p, i) && Reached(p, j) && Keyed(p)(i) == Keyed(p)(j)
      ensures Resolver(p)(i) == Resolver(p)(j)
    {
      SameKeySameResult(p, i, j);
    }
  }

  method LookUp(p: Project, m: map<string, Package>, n: map<string, seq<Package>>, item: Item)
    returns (descriptor: string, package: Option<Package>)
    requires m == Descriptors(p.entries) && n == ByName(p.entries)
    ensures descriptor == FinalDescriptor(p, item)
    ensures package == FindPackage(p, item.name, descriptor)
  {
    var values := Overrides(p.resolutions, item);
    var reference := if AllEqual(values) then values[0] else item.reference;
    descriptor, package := FindInLock(p, m, n, item.name, item.name + "@" + reference, reference);
  }

  /** What the finished worklist has found. */
  lemma {:induction false} YarnFinished(
    p: Project, done: set<Item>, expanded: set<Item>, visited: set<Key>, bundled: set<(string, string)>)
    requires Progress(Roots(p), Keyed(p), Resolver(p), [], done, expanded, visited, bundled)
    ensures Chosen(p, expanded, bundled)
    ensures forall x :: x in bundled ==>
              exists i :: Reached(p, i) && Resolver(p)(i).Some? && x in Resolver(p)(i).value.values
    ensures Determined(Roots(p), Keyed(p), Resolver(p)) ==>
              forall i :: Reached(p, i) ==> Resolver(p)(i).Some? && Resolver(p)(i).value.values <= bundled
  {
    FinishSelects(Roots(p), Keyed(p), Resolver(p), done, expanded, visited, bundled);
    NothingInvented(Roots(p), Keyed(p), Resolver(p), [], done, expanded, visited, bundled);
    if Determined(Roots(p), Keyed(p), Resolver(p)) {
      Finish(Roots(p), Keyed(p), Resolver(p), done, expanded, visited, bundled);
    }
  }

  ghost predicate Chosen(p: Project, chosen: set<Item>, found: set<(string, string)>) {
    Selection(Roots(p), Keyed(p), Resolver(p), chosen, found)
  }

  /**
   * The worklist returns the values of one item for each key on the way. Where items with the same key resolve
   * alike, this is exactly what the reachable items provide, and it raises exactly when one of them cannot be
   * resolved. In every case it invents nothing and never raises wrongly.
   */
  method YarnPackages(p: Project) returns (result: Result<set<(string, string)>, string>)
    ensures result.Failure? ==> exists i :: Reached(p, i) && Resolver(p)(i).None?
    ensures result.Success? ==>
              forall x :: x in result.value ==>
                exists i :: Reached(p, i) && Resolver(p)(i).Some? && x in Resolver(p)(i).value.values
    ensures result.Success? ==> exists chosen :: Chosen(p, chosen, result.value)
    ensures Determined(Roots(p), Keyed(p), Resolver(p)) && result.Success? ==>
              forall i :: Reached(p, i) ==> Resolver(p)(i).Some? && Resolver(p)(i).value.values <= result.value
  {
    var m, n := BuildIndexes(p.entries);
    var bundled: set<(string, string)> := {};
    var queue := Items(p.rootName, Dependencies(p.root));
    var visitedDescriptors: set<string> := {};
    var visitedWorkspaces: set<string> := {};
    ghost var roots, key, resolve := Roots(p), Keyed(p), Resolver(p);
    ghost var keys := KeysExist(p);
    ghost var done: set<Item>, expanded: set<Item>, visited: set<Key> := {}, {}, {};
    forall i | i in queue
      ensures Reachable(roots, NextOf(resolve), i)
    {
      RootReachable(roots, NextOf(resolve), i);
    }
    while queue != []
      invariant Progress(roots, key, resolve, queue, done, expanded, visited, bundled)
      invariant visited == Visited(visitedDescriptors, visitedWorkspaces)
      decreases |keys - visited|, |queue|
    {
      var item := queue[|queue| - 1];
      SplitLast(queue);
      queue := queue[..|queue| - 1];
      QueuedIsReached(roots, key, resolve, queue, item, done, expanded, visited, bundled);
      var next: Found;
      if StartsWith(item.reference, "workspace:") {
        assert key(item) == WorkspaceKey(item.name);
        VisitWorkspace(visitedDescriptors, visitedWorkspaces, item.name);
        if item.name in visitedWorkspaces {
          Skip(roots, key, resolve, queue, item, done, expanded, visited, bundled);
          done := done + {item};
          continue;
        }
        visitedWorkspaces := visitedWorkspaces + {item.name};
        if item.name !in p.workspaces {
          assert resolve(item).None?;
          return Failure("Yarn workspace not found: " + item.name);
        }
        next := Expansion({}, Items(item.name, Dependencies(p.workspaces[item.name])));
      } else {
        var descriptor, package := LookUp(p, m, n, item);
        assert key(item) == DescriptorKey(descriptor);
        if package.None? {
          assert resolve(item).None?;
          return Failure("Yarn descriptor not found: " + descriptor);
        }
        VisitDescriptor(visitedDescriptors, visitedWorkspaces, descriptor);
        if descriptor in visitedDescriptors {
          Skip(roots, key, resolve, queue, item, done, expanded, visited, bundled);
          done := done + {item};
          continue;
        }
        visitedDescriptors := visitedDescriptors + {descriptor};
        next := Expand(item.name, package.value);
      }
      assert resolve(item) == Some(next);
      Visit(roots, key, resolve, queue, item, done, expanded, visited, bundled, next);
      VisitShrinks(keys, visited, key(item));
      bundled := bundled + next.values;
      queue := queue + next.items;
      done, expanded, visited := done + {item}, expanded + {item}, visited + {key(item)};
    }
    YarnFinished(p, done, expanded, visited, bundled);
    result := Success(bundled);
  }

  // ----- edges and values, read off the tables -----

  /** One of the two tables of the package lists the item's name and reference. */
  predicate Lists(package: Package, item: Item) {
    (item.name, item.reference) in package.dependencies || (item.name, item.reference) in package.optionalDependencies
  }

  /** A dependency that the root lists. */
  predicate IsRoot(p: Project, item: Item) { item.parent == p.rootName && Lists(p.root, item) }

  /** A dependency that the workspace of `from` lists. */
  predicate FromWorkspace(p: Project, from: Item, item: Item) {
    && StartsWith(from.reference, "workspace:") && from.name in p.workspaces
    && item.parent == from.name && Lists(p.workspaces[from.name], item)
  }

  /** A dependency that the package found for `from` lists, under the name that it resolves to. */
  ghost predicate FromPackage(p: Project, from: Item, item: Item) {
    && !StartsWith(from.reference, "workspace:")
    && var found := FindPackage(p, from.name, FinalDescriptor(p, from));
       found.Some? && item.parent == ResolvedName(from.name, found.value) && Lists(found.value, item)
  }

  ghost predicate Follows(p: Project, from: Item, item: Item) {
    FromWorkspace(p, from, item) || FromPackage(p, from, item)
  }

  lemma {:induction false} ItemsAreListed(parent: string, package: Package, item: Item)
    ensures item in Items(parent, Dependencies(package)) <==> item.parent == parent && Lists(package, item)
  {
    var deps := Dependencies(package);
    if item.parent == parent && Lists(package, item) {
      assert (item.name, item.reference) in deps;
      var i :| 0 <= i < |deps| && deps[i] == (item.name, item.reference);
      assert Items(parent, deps)[i] == item;
    }
  }

  lemma {:induction false} RootsExactly(p: Project, item: Item)
    ensures item in Roots(p) <==> IsRoot(p, item)
  {
    ItemsAreListed(p.rootName, p.root, item);
  }

  lemma {:induction false} StepsExactly(p: Project, from: Item, item: Item)
    ensures item in NextOf(Resolver(p))(from) <==> Follows(p, from, item)
  {
    if IsWorkspace(from) {
      if from.name in p.workspaces {
        ItemsAreListed(from.name, p.workspaces[from.name], item);
      }
    } else {
      var found := FindPackage(p, from.name, FinalDescriptor(p, from));
      if found.Some? {
        ItemsAreListed(ResolvedName(from.name, found.value), found.value, item);
      }
    }
  }

  /** Every set that holds what the root lists, and with an item what its workspace or package lists. */
  ghost predicate HoldsListed(p: Project, items: set<Item>) {
    && (forall i :: IsRoot(p, i) ==> i in items)
    && forall from, i :: from in items && Follows(p, from, i) ==> i in items
  }

  /**
   * What is reached is exactly what the root lists, or the workspace or package of something reached, in either
   * table and with the right parent; and nothing is reached that such a set of items could do without.
   */
  lemma {:induction false} ReachedExactly(p: Project, item: Item, items: set<Item>)
    ensures Reached(p, item) <==>
            IsRoot(p, item) || exists from :: Reached(p, from) && Follows(p, from, item)
    ensures HoldsListed(p, items) && Reached(p, item) ==> item in items
  {
    if IsRoot(p, item) {
      RootIsReached(p, item);
    }
    if from :| Reached(p, from) && Follows(p, from, item) {
      StepsExactly(p, from, item);
      StepReachable(Roots(p), NextOf(Resolver(p)), from, item);
    }
    if Reached(p, item) && !IsRoot(p, item) {
      CameFrom(p, item);
    }
    if HoldsListed(p, items) && Reached(p, item) {
      ListedCovers(p, item, items);
    }
  }

  lemma {:induction false} RootIsReached(p: Project, item: Item)
    requires IsRoot(p, item)
    ensures Reached(p, item)
  {
    RootsExactly(p, item);
    RootReachable(Roots(p), NextOf(Resolver(p)), item);
  }

  lemma {:induction false} CameFrom(p: Project, item: Item)
    requires Reached(p, item) && !IsRoot(p, item)
    ensures exists from :: Reached(p, from) && Follows(p, from, item)
  {
    var roots, next := Roots(p), NextOf(Resolver(p));
    var n: nat :| ReachableIn(roots, next, item, n);
    RootsExactly(p, item);
    var from :| ReachableIn(roots, next, from, n - 1) && item in next(from);
    StepsExactly(p, from, item);
    assert Reached(p, from);
  }

  lemma {:induction false} ListedCovers(p: Project, item: Item, items: set<Item>)
    requires HoldsListed(p, items) && Reached(p, item)
    ensures item in items
  {
    var roots, next := Roots(p), NextOf(Resolver(p));
    forall r | r in roots
      ensures r in items
    {
      RootsExactly(p, r);
    }
    forall y, z | y in items && z in next(y)
      ensures z in items
    {
      StepsExactly(p, y, z);
    }
    ClosedCovers(roots, next, items, item);
  }

  /** The values of an item: the resolved name and the version of its package, if it has one. */
  lemma {:induction false} ValuesExactly(p: Project, item: Item, x: (string, string))
    requires Resolver(p)(item).Some?
    ensures x in Resolver(p)(item).value.values <==>
            && !StartsWith(item.reference, "workspace:")
            && var package := FindPackage(p, item.name, FinalDescriptor(p, item)).value;
               package.version == Some(x.1) && x.1 != "" && x.0 == ResolvedName(item.name, package)
  {
  }

  // ----- what an item resolves to -----

  /** The name in front of a protocol, when no protocol of those known comes earlier. */
  lemma {:induction false} NpmDescriptorName(name: string, reference: string)
    requires '@' !in name && name != ""
    ensures DescriptorName(name + "@npm:" + reference) == name
  {
    var d := name + "@npm:" + reference;
    forall j | 0 <= j < |name|
      ensures !OccursAt(d, "@npm:", j)
    {
      assert j + 5 <= |d| ==> d[j..j + 5][0] == name[j];
    }
    assert OccursAt(d, "@npm:", |name|);
    assert d[..|name|] == name;
  }

  /** Without overrides, a descriptor that an entry lists resolves to the last entry that lists it. */
  lemma {:induction false} ListedDescriptorWins(p: Project, item: Item, i: nat)
    requires OverrideValues(p.resolutions, item) == []
    requires i < |p.entries| && item.name + "@" + item.reference in p.entries[i].descriptors
    requires forall j :: i < j < |p.entries| ==> item.name + "@" + item.reference !in p.entries[j].descriptors
    ensures FinalDescriptor(p, item) == item.name + "@" + item.reference
    ensures FindPackage(p, item.name, FinalDescriptor(p, item)) == Some(p.entries[i].package)
  {
    LastEntryWins(p.entries, item.name + "@" + item.reference, i);
  }

  /** One that only an entry with `npm:` in front of the reference lists resolves to that one. */
  lemma {:induction false} NpmDescriptorIsTried(p: Project, item: Item, i: nat)
    requires OverrideValues(p.resolutions, item) == [] && !HasProtocol(item.reference)
    requires forall j :: 0 <= j < |p.entries| ==> item.name + "@" + item.reference !in p.entries[j].descriptors
    requires i < |p.entries| && item.name + "@npm:" + item.reference in p.entries[i].descriptors
    requires forall j :: i < j < |p.entries| ==> item.name + "@npm:" + item.reference !in p.entries[j].descriptors
    ensures FindPackage(p, item.name, FinalDescriptor(p, item)) == Some(p.entries[i].package)
  {
    NotListed(p.entries, item.name + "@" + item.reference);
    LastEntryWins(p.entries, item.name + "@npm:" + item.reference, i);
  }

  /** A single override sends the item to the descriptor of its value. */
  lemma {:induction false} OverrideRedirects(p: Project, item: Item, value: string, i: nat)
    requires OverrideValues(p.resolutions, item) == [value]
    requires i < |p.entries| && item.name + "@" + value in p.entries[i].descriptors
    requires forall j :: i < j < |p.entries| ==> item.name + "@" + value !in p.entries[j].descriptors
    ensures FindPackage(p, item.name, FinalDescriptor(p, item)) == Some(p.entries[i].package)
  {
    LastEntryWins(p.entries, item.name + "@" + value, i);
  }

  /** Overrides that contradict each other count as none. */
  lemma {:induction false} ContradictionIsIgnored(p: Project, item: Item, i: nat, j: nat)
    requires i < |OverrideValues(p.resolutions, item)| && j < |OverrideValues(p.resolutions, item)|
    requires OverrideValues(p.resolutions, item)[i] != OverrideValues(p.resolutions, item)[j]
    ensures Redirected(p, item) == item.reference
  {
    var vs := OverrideValues(p.resolutions, item);
    assert vs[i] in vs && vs[j] in vs;
  }

  /** The values that count are those of the patterns that name the item, alone, with its reference, or below its parent. */
  lemma {:induction false} OverridesExactly(resolutions: seq<(string, string)>, item: Item, value: string)
    ensures value in OverrideValues(resolutions, item) <==>
            exists i :: 0 <= i < |resolutions| && resolutions[i].1 == value && Matches(resolutions[i].0, item)
  {
    if resolutions != [] {
      var init := resolutions[..|resolutions| - 1];
      OverridesExactly(init, item, value);
      assert forall i :: 0 <= i < |init| ==> init[i] == resolutions[i];
    }
  }

  /** The forms of a pattern, for a reference with or without `npm:` in front. */
  lemma {:induction false} PatternForms(parent: string, name: string, version: string)
    requires !StartsWith(version, "npm:")
    ensures var plain, npm := Item(parent, name, version), Item(parent, name, "npm:" + version);
            && Matches(name, plain) && Matches(name, npm)
            && Matches(name + "@" + version, plain) && Matches(name + "@" + version, npm)
            && Matches(name + "@npm:" + version, plain) && Matches(name + "@npm:" + version, npm)
            && Matches(parent + "/" + name, plain) && Matches(parent + "/" + name, npm)
  {
    assert ("npm:" + version)[4..] == version;
    assert name + "@npm:" + version == name + "@" + ("npm:" + version);
  }

  /** Without its descriptor, an item resolves to the only locator that begins with it. */
  lemma {:induction false} LocatorIsTried(p: Project, name: string, descriptor: string, locator: string)
    requires var m := Descriptors(p.entries);
             descriptor !in m && locator in m && descriptor + "::" <= locator
             && forall d :: d in m && descriptor + "::" <= d ==> d == locator
    ensures FindPackage(p, name, descriptor) == Some(Descriptors(p.entries)[locator])
  {
    var m := Descriptors(p.entries);
    assert Locators(m, descriptor) == {locator};
    forall d | Locators(m, descriptor) == {d}
      ensures d == locator
    {
      assert d in Locators(m, descriptor);
    }
  }

  /** Without any of them, to the packages under its name if they all are resolved alike. */
  lemma {:induction false} NameIsTried(p: Project, name: string, descriptor: string, i: nat)
    requires var m := Descriptors(p.entries);
             descriptor !in m && forall d :: d in m ==> !(descriptor + "::" <= d)
    requires var candidates := Lookup(ByName(p.entries), name);
             && i < |candidates| && forall c :: c in candidates ==> c.resolution == candidates[i].resolution
    ensures FindPackage(p, name, descriptor) == Some(Lookup(ByName(p.entries), name)[0])
  {
    var m, candidates := Descriptors(p.entries), Lookup(ByName(p.entries), name);
    assert Locators(m, descriptor) == {};
    forall d
      ensures Locators(m, descriptor) != {d}
    {
      assert d in {d};
    }
    assert candidates[i] in candidates;
    assert Resolutions(candidates) == {candidates[i].resolution};
  }

  lemma {:induction false} AddedDescriptors(m: map<string, Package>, ds: seq<string>, p: Package, d: string)
    ensures d in AddDescriptors(m, ds, p) <==> d in ds || d in m
    ensures d in ds ==> AddDescriptors(m, ds, p)[d] == p
    ensures d !in ds && d in m ==> AddDescriptors(m, ds, p)[d] == m[d]
  {
    if ds != [] {
      AddedDescriptors(m, ds[..|ds| - 1], p, d);
      assert ds == ds[..|ds| - 1] + [ds[|ds| - 1]];
    }
  }

  lemma {:induction false} NotListed(entries: seq<Entry>, d: string)
    requires forall j :: 0 <= j < |entries| ==> d !in entries[j].descriptors
    ensures d !in Descriptors(entries)
  {
    if entries != [] {
      var init, last := entries[..|entries| - 1], entries[|entries| - 1];
      NotListed(init, d);
      AddedDescriptors(Descriptors(init), last.descriptors, last.package, d);
    }
  }

  lemma {:induction false} LastEntryWins(entries: seq<Entry>, d: string, i: nat)
    requires i < |entries| && d in entries[i].descriptors
    requires forall j :: i < j < |entries| ==> d !in entries[j].descriptors
    ensures d in Descriptors(entries) && Descriptors(entries)[d] == entries[i].package
  {
    var init, last := entries[..|entries| - 1], entries[|entries| - 1];
    AddedDescriptors(Descriptors(init), last.descriptors, last.package, d);
    if i < |init| {
      LastEntryWins(init, d, i);
    }
  }

  // ----- a project with an ambiguous descriptor -----

  /** Two dependencies, `a` at `x@npm:1` and `a@x` at `npm:1`, share the descriptor `a@x@npm:1` of the only entry. */
  function Ambiguous(): Project {
    var deps := [("a", "x@npm:1"), ("a@x", "npm:1")];
    var entry := Entry(["a@x@npm:1"], Package([], [], Some("1"), None));
    Project("root", Package(deps, [], None, None), [], map[], [entry])
  }

  function First(): Item { Item("root", "a", "x@npm:1") }

  function Second(): Item { Item("root", "a@x", "npm:1") }

  lemma {:induction false} AmbiguousKeys(item: Item)
    requires item == First() || item == Second()
    ensures KeyOf(Ambiguous(), item) == DescriptorKey("a@x@npm:1")
    ensures Resolve(Ambiguous(), item) == Some(Expansion({(item.name, "1")}, []))
  {
    var p := Ambiguous();
    var package := Package([], [], Some("1"), None);
    assert OverrideValues(p.resolutions, item) == [];
    assert "a" + "@" + "x@npm:1" == "a@x@npm:1" == "a@x" + "@" + "npm:1";
    assert p.entries[..0] == [] && ["a@x@npm:1"][..0] == [];
    assert AddDescriptors(map[], ["a@x@npm:1"], package) == map["a@x@npm:1" := package];
    assert Descriptors(p.entries) == map["a@x@npm:1" := package];
    assert item.reference[0] == 'x' || item.reference[0] == 'n';
    assert "workspace:"[0] == 'w';
    assert FinalDescriptor(p, item) == "a@x@npm:1";
    NoNameInNothing();
    assert Expand(item.name, package) == Expansion({(item.name, "1")}, Items(item.name, []));
    assert Items(item.name, []) == [];
  }

  lemma {:induction false} NoNameInNothing()
    ensures DescriptorName("") == ""
  {
  }

  lemma {:induction false} AmbiguousRoots()
    ensures Roots(Ambiguous()) == [First(), Second()]
  {
    var deps := [("a", "x@npm:1"), ("a@x", "npm:1")];
    assert deps + [] == deps;
  }

  lemma {:induction false} AmbiguousReached(item: Item)
    ensures Reached(Ambiguous(), item) <==> item == First() || item == Second()
  {
    AmbiguousRoots();
    AmbiguousKeys(First());
    AmbiguousKeys(Second());
    OnlyRootsReached(NextOf(Resolver(Ambiguous())), First(), Second(), item);
  }

  /** Both are reached and both resolve, but every result that a run can have misses one of them. */
  lemma {:induction false} AmbiguousLosesOne(chosen: set<Item>, found: set<(string, string)>)
    requires Chosen(Ambiguous(), chosen, found)
    ensures Reached(Ambiguous(), First()) && Reached(Ambiguous(), Second())
    ensures Resolve(Ambiguous(), First()) == Some(Expansion({("a", "1")}, []))
    ensures Resolve(Ambiguous(), Second()) == Some(Expansion({("a@x", "1")}, []))
    ensures ("a", "1") !in found || ("a@x", "1") !in found
  {
    var roots, key, resolve := Roots(Ambiguous()), Keyed(Ambiguous()), Resolver(Ambiguous());
    AmbiguousReached(First());
    AmbiguousReached(Second());
    AmbiguousKeys(First());
    AmbiguousKeys(Second());
    forall e | Reachable(roots, NextOf(resolve), e) && resolve(e).Some?
      ensures ("a", "1") in resolve(e).value.values ==> e == First()
      ensures ("a@x", "1") in resolve(e).value.values ==> e == Second()
    {
      OnlyOneHas(e);
    }
    SharedKeyLosesOne(roots, key, resolve, chosen, found, First(), Second(), ("a", "1"), ("a@x", "1"));
  }

  lemma {:induction false} OnlyOneHas(e: Item)
    requires Reached(Ambiguous(), e) && Resolver(Ambiguous())(e).Some?
    ensures ("a", "1") in Resolver(Ambiguous())(e).value.values ==> e == First()
    ensures ("a@x", "1") in Resolver(Ambiguous())(e).value.values ==> e == Second()
  {
    AmbiguousReached(e);
    AmbiguousKeys(e);
    assert |"a"| == 1 && |"a@x"| == 3;
  }
}

/** The production packages of a pnpm lockfile, by a worklist over snapshot keys. */
module PnpmClosure {
  import opened Wrappers
  import opened Reachability
  import opened Worklist
  import opened Text

  /** A dependency of an importer or snapshot; its reference is absent when it is not a string. */
  datatype Dependency = Dependency(name: string, reference: Option<string>)

  /** The two sections of an importer or a snapshot. */
  datatype Tables = Tables(dependencies: seq<Dependency>, optionalDependencies: seq<Dependency>)

  datatype Lock = Lock(importers: seq<Tables>, snapshots: map<string, Tables>)

  function Both(t: Tables): seq<Dependency> { t.dependencies + t.optionalDependencies }

  predicate IsLocal(reference: string) {
    StartsWith(reference, "link:") || StartsWith(reference, "workspace:") || StartsWith(reference, "file:")
  }

  /** The snapshot key a dependency points to, nothing for local ones, an error for a broken alias. */
  function Reference(d: Dependency): Result<Option<string>, string> {
    if d.reference.None? || IsLocal(d.reference.value) then Success(None)
    else
      var r := d.reference.value;
      if StartsWith(r, "npm:") then
        var alias := r[4..];
        var k := LastIndex(alias, '@');
        if k.None? then Failure("unsupported pnpm alias: " + r)
        else Success(Some(alias[..k.value] + "@" + alias[k.value + 1..]))
      else Success(Some(d.name + "@" + r))
  }

  function References(deps: seq<Dependency>): Result<seq<string>, string> {
    if deps == [] then Success([])
    else
      var before := References(deps[..|deps| - 1]);
      if before.Failure? then before
      else
        match Reference(deps[|deps| - 1])
        case Failure(e) => Failure(e)
        case Success(None) => before
        case Success(Some(key)) => Success(before.value + [key])
  }

  /** `@scope/name` or `name`, with no further `/` or `@`. */
  predicate IsPackageName(n: string) {
    if n != "" && n[0] == '@' then
      var slash := FindFrom(n, "/", 0);
      && slash.Some? && 1 < slash.value < |n| - 1
      && '@' !in n[1..slash.value]
      && '/' !in n[slash.value + 1..] && '@' !in n[slash.value + 1..]
    else n != "" && '/' !in n && '@' !in n
  }

  /** Name and version of a key, without its peer suffix in parentheses. */
  function ParseKey(key: string): Option<(string, string)> {
    var paren := FindFrom(key, "(", 0);
    var packageKey := if paren.Some? then key[..paren.value] else key;
    var k := LastIndex(packageKey, '@');
    if k.None? then None
    else
      var name, version := packageKey[..k.value], packageKey[k.value + 1..];
      if IsPackageName(name) && version != "" then Some((name, version)) else None
  }

  type Found = Expansion<string, (string, string)>

  function Resolve(lock: Lock, key: string): Option<Found> {
    var parsed := ParseKey(key);
    if parsed.None? || key !in lock.snapshots || References(Both(lock.snapshots[key])).Failure? then None
    else Some(Expansion({parsed.value}, References(Both(lock.snapshots[key])).value))
  }

  function Flatten(importers: seq<Tables>): seq<Dependency> {
    if importers == [] then [] else Flatten(importers[..|importers| - 1]) + Both(importers[|importers| - 1])
  }

  function RootKeys(lock: Lock): Result<seq<string>, string> { References(Flatten(lock.importers)) }

  ghost function Resolver(lock: Lock): string -> Option<Found> { (key: string) => Resolve(lock, key) }

  ghost function Same(): string -> string { (key: string) => key }

  ghost predicate Reached(lock: Lock, key: string) {
    RootKeys(lock).Success? && Reachable(RootKeys(lock).value, NextOf(Resolver(lock)), key)
  }

  method QueueReferences(deps: seq<Dependency>) returns (keys: Result<seq<string>, string>)
    ensures keys == References(deps)
  {
    var queue := [];
    for i := 0 to |deps|
      invariant References(deps[..i]) == Success(queue)
    {
      assert deps[..i + 1][..i] == deps[..i];
      match Reference(deps[i]) {
        case Failure(e) =>
          FailureStays(deps, i + 1);
          return Failure(e);
        case Success(None) =>
        case Success(Some(key)) =>
          queue := queue + [key];
      }
    }
    assert deps[..|deps|] == deps;
    keys := Success(queue);
  }

  lemma {:induction false} FailureStays(deps: seq<Dependency>, i: nat)
    requires i <= |deps| && References(deps[..i]).Failure?
    ensures References(deps) == References(deps[..i])
    decreases |deps|
  {
    if i < |deps| {
      assert deps[..|deps| - 1][..i] == deps[..i];
      FailureStays(deps[..|deps| - 1], i);
    } else {
      assert deps[..i] == deps;
    }
  }

  lemma {:induction false} KeysExist(lock: Lock) returns (keys: set<string>)
    ensures forall k :: Reached(lock, k) ==> k in keys
  {
    var roots := if RootKeys(lock).Success? then RootKeys(lock).value else [];
    keys := (set k | k in roots)
      + (set s, k | s in lock.snapshots && References(Both(lock.snapshots[s])).Success?
                    && k in References(Both(lock.snapshots[s])).value :: k);
    forall k | Reached(lock, k)
      ensures k in keys
    {
      ClosedCovers(roots, NextOf(Resolver(lock)), keys, k);
    }
  }

  /**
   * The result is the set of name and version pairs of all reachable snapshots. The call raises exactly
   * when an importer or a reachable key is broken, or when there is nothing to start from.
   */
  method LockfileProvides(lock: Lock) returns (result: Result<set<(string, string)>, string>)
    ensures result.Success? <==>
              (RootKeys(lock).Success? && RootKeys(lock).value != []
               && forall k :: Reached(lock, k) ==> Resolve(lock, k).Some?)
    ensures result.Success? ==>
              forall x :: x in result.value <==> exists k :: Reached(lock, k) && ParseKey(k) == Some(x)
  {
    var deps: seq<Dependency> := [];
    for i := 0 to |lock.importers|
      invariant deps == Flatten(lock.importers[..i])
    {
      assert lock.importers[..i + 1][..i] == lock.importers[..i];
      deps := deps + (lock.importers[i].dependencies + lock.importers[i].optionalDependencies);
    }
    assert lock.importers[..|lock.importers|] == lock.importers;
    var start := QueueReferences(deps);
    if start.Failure? {
      return Failure(start.error);
    }
    result := Traverse(lock, start.value);
  }

  method Traverse(lock: Lock, start: seq<string>) returns (result: Result<set<(string, string)>, string>)
    requires RootKeys(lock) == Success(start)
    ensures result.Success? <==> start != [] && forall k :: Reached(lock, k) ==> Resolve(lock, k).Some?
    ensures result.Success? ==>
              forall x :: x in result.value <==> exists k :: Reached(lock, k) && ParseKey(k) == Some(x)
  {
    var queue := start;
    var visited: set<string> := {};
    var bundled: set<(string, string)> := {};
    ghost var key, resolve := Same(), Resolver(lock);
    ghost var keys := KeysExist(lock);
    ghost var done: set<string>, expanded: set<string> := {}, {};
    forall i | i in queue
      ensures Reachable(start, NextOf(resolve), i)
    {
      RootReachable(start, NextOf(resolve), i);
    }
    while queue != []
      invariant Progress(start, key, resolve, queue, done, expanded, visited, bundled)
      decreases |keys - visited|, |queue|
    {
      var item := queue[|queue| - 1];
      SplitLast(queue);
      queue := queue[..|queue| - 1];
      QueuedIsReached(start, key, resolve, queue, item, done, expanded, visited, bundled);
      assert Reached(lock, item) && key(item) == item;
      if item in visited {
        Skip(start, key, resolve, queue, item, done, expanded, visited, bundled);
        done := done + {item};
        continue;
      }
      VisitShrinks(keys, visited, item);
      var parsed := ParseKey(item);
      if parsed.None? {
        return Failure("unsupported pnpm package key: " + item);
      }
      if item !in lock.snapshots {
        return Failure("pnpm snapshot not found: " + item);
      }
      var next := QueueReferences(lock.snapshots[item].dependencies + lock.snapshots[item].optionalDependencies);
      if next.Failure? {
        return Failure(next.error);
      }
      Visit(start, key, resolve, queue, item, done, expanded, visited, bundled, Expansion({parsed.value}, next.value));
      visited := visited + {item};
      bundled := bundled + {parsed.value};
      queue := queue + next.value;
      done, expanded := done + {item}, expanded + {item};
    }
    TraversalIsExact(lock, start, done, expanded, visited, bundled);
    if bundled == {} {
      return Failure("pnpm production dependency closure is empty");
    }
    result := Success(bundled);
  }

  /** The emptied queue leaves exactly the pairs of the reachable snapshots. */
  lemma {:induction false} TraversalIsExact(
    lock: Lock, start: seq<string>, done: set<string>, expanded: set<string>, visited: set<string>,
    bundled: set<(string, string)>)
    requires RootKeys(lock) == Success(start)
    requires Progress(start, Same(), Resolver(lock), [], done, expanded, visited, bundled)
    ensures forall k :: Reached(lock, k) ==> Resolve(lock, k).Some?
    ensures forall x :: x in bundled <==> exists k :: Reached(lock, k) && ParseKey(k) == Some(x)
    ensures bundled == {} <==> start == []
  {
    var key, resolve := Same(), Resolver(lock);
    Finish(start, key, resolve, done, expanded, visited, bundled);
    NothingInvented(start, key, resolve, [], done, expanded, visited, bundled);
    BundledAreParsed(lock, start, bundled);
    EmptyExactlyWithoutStart(lock, start, bundled);
  }

  lemma {:induction false} EmptyExactlyWithoutStart(lock: Lock, start: seq<string>, bundled: set<(string, string)>)
    requires RootKeys(lock) == Success(start)
    requires forall k :: Reached(lock, k) ==> Resolve(lock, k).Some?
    requires forall x :: x in bundled <==> exists k :: Reached(lock, k) && ParseKey(k) == Some(x)
    ensures bundled == {} <==> start == []
  {
    if start == [] {
      NothingReachable(lock, start);
    } else {
      RootReachable(start, NextOf(Resolver(lock)), start[0]);
      assert Reached(lock, start[0]);
      assert ParseKey(start[0]).value in bundled;
    }
  }

  lemma {:induction false} BundledAreParsed(lock: Lock, start: seq<string>, bundled: set<(string, string)>)
    requires RootKeys(lock) == Success(start)
    requires forall k :: Reachable(start, NextOf(Resolver(lock)), k) ==>
               Resolver(lock)(k).Some? && Resolver(lock)(k).value.values <= bundled
    requires forall x :: x in bundled ==>
               exists k :: Reachable(start, NextOf(Resolver(lock)), k) && Resolver(lock)(k).Some? && x in Resolver(lock)(k).value.values
    ensures forall k :: Reached(lock, k) ==> Resolve(lock, k).Some?
    ensures forall x :: x in bundled <==> exists k :: Reached(lock, k) && ParseKey(k) == Some(x)
  {
    forall x | x in bundled
      ensures exists k :: Reached(lock, k) && ParseKey(k) == Some(x)
    {
      var k :| Reachable(start, NextOf(Resolver(lock)), k) && Resolver(lock)(k).Some? && x in Resolver(lock)(k).value.values;
      assert Reached(lock, k);
    }
    forall k, x | Reached(lock, k) && ParseKey(k) == Some(x)
      ensures x in bundled
    {
      assert Resolver(lock)(k) == Resolve(lock, k);
    }
  }

  lemma {:induction false} NothingReachable(lock: Lock, start: seq<string>)
    requires start == []
    ensures forall k :: !Reachable(start, NextOf(Resolver(lock)), k)
  {
    forall k | Reachable(start, NextOf(Resolver(lock)), k)
      ensures false
    {
      ClosedCovers(start, NextOf(Resolver(lock)), {}, k);
    }
  }

  // ----- keys and references, by how they are written -----

  predicate IsPart(s: string) { s != "" && '/' !in s && '@' !in s }

  /** `scope` is empty for a name without one. */
  function Named(scope: string, base: string): string { if scope == "" then base else "@" + scope + "/" + base }

  lemma {:induction false} PackageNameExactly(n: string)
    ensures IsPackageName(n) <==>
            exists scope, base :: (scope == "" || IsPart(scope)) && IsPart(base) && n == Named(scope, base)
  {
    if IsPackageName(n) {
      if n[0] == '@' {
        var k := FindFrom(n, "/", 0).value;
        SlashAt(n, k);
        assert n == "@" + n[1..k] + "/" + n[k + 1..];
        assert n == Named(n[1..k], n[k + 1..]);
      } else {
        assert n == Named("", n);
      }
    }
    if scope, base :| (scope == "" || IsPart(scope)) && IsPart(base) && n == Named(scope, base) {
      NamedIsPackageName(scope, base);
    }
  }

  lemma {:induction false} SlashAt(n: string, k: nat)
    requires FindFrom(n, "/", 0) == Some(k)
    ensures k < |n| && n[k] == '/' && '/' !in n[..k]
  {
    assert n[k..k + 1] == "/";
    forall j | 0 <= j < k
      ensures n[j] != '/'
    {
      assert !OccursAt(n, "/", j);
      assert n[j..j + 1] == [n[j]];
    }
  }

  lemma {:induction false} FirstSlash(a: string, b: string)
    requires '/' !in a
    ensures FindFrom(a + "/" + b, "/", 0) == Some(|a|)
  {
    var n := a + "/" + b;
    forall j | 0 <= j < |a|
      ensures !OccursAt(n, "/", j)
    {
      assert n[j..j + 1] == [a[j]];
    }
    assert n[|a|..|a| + 1] == "/" && OccursAt(n, "/", |a|);
  }

  lemma {:induction false} NamedIsPackageName(scope: string, base: string)
    requires (scope == "" || IsPart(scope)) && IsPart(base)
    ensures IsPackageName(Named(scope, base))
  {
    if scope != "" {
      var n := "@" + scope + "/" + base;
      FirstSlash("@" + scope, base);
      assert n[1..|scope| + 1] == scope && n[|scope| + 2..] == base;
    }
  }

  /** What may stand behind the version: the peer suffix, which begins with a parenthesis. */
  predicate IsPeers(s: string) { s == "" || s[0] == '(' }

  /** The key spells the name and the version, with or without peers. */
  ghost predicate Spells(key: string, name: string, version: string) {
    && IsPackageName(name) && version != "" && '@' !in version && '(' !in name && '(' !in version
    && exists peers :: IsPeers(peers) && key == name + "@" + version + peers
  }

  /** A key is read as a name and a version exactly when it is a package name, an `@`, the version and any peers. */
  lemma {:induction false} ParseKeyExactly(key: string, name: string, version: string)
    ensures ParseKey(key) == Some((name, version)) <==> Spells(key, name, version)
  {
    if ParseKey(key) == Some((name, version)) {
      ParsedIsSpelled(key, name, version);
    }
    if Spells(key, name, version) {
      var peers :| IsPeers(peers) && key == name + "@" + version + peers;
      SpelledIsParsed(name, version, peers);
    }
  }

  lemma {:induction false} NoParen(s: string)
    ensures FindFrom(s, "(", 0).None? <==> '(' !in s
    ensures FindFrom(s, "(", 0).Some? ==>
              var k := FindFrom(s, "(", 0).value; k < |s| && s[k] == '(' && '(' !in s[..k]
  {
    var r := FindFrom(s, "(", 0);
    forall j | 0 <= j < |s|
      ensures OccursAt(s, "(", j) <==> s[j] == '('
    {
      assert s[j..j + 1] == [s[j]];
    }
  }

  lemma {:induction false} CutAtParen(key: string) returns (packageKey: string, peers: string)
    ensures key == packageKey + peers && '(' !in packageKey && IsPeers(peers)
    ensures packageKey == if FindFrom(key, "(", 0).Some? then key[..FindFrom(key, "(", 0).value] else key
  {
    NoParen(key);
    var paren := FindFrom(key, "(", 0);
    if paren.Some? {
      packageKey, peers := key[..paren.value], key[paren.value..];
    } else {
      packageKey, peers := key, "";
    }
  }

  lemma {:induction false} SplitAtLast(s: string, k: nat)
    requires LastIndex(s, '@') == Some(k)
    ensures k < |s| && s == s[..k] + "@" + s[k + 1..] && '@' !in s[k + 1..]
  {
  }

  lemma {:induction false} ParsedIsSpelled(key: string, name: string, version: string)
    requires ParseKey(key) == Some((name, version))
    ensures Spells(key, name, version)
  {
    var packageKey, peers := CutAtParen(key);
    var k := LastIndex(packageKey, '@').value;
    SplitAtLast(packageKey, k);
    assert name == packageKey[..k] && version == packageKey[k + 1..];
    assert key == name + "@" + version + peers;
  }

  lemma {:induction false} SpelledIsParsed(name: string, version: string, peers: string)
    requires IsPackageName(name) && version != "" && '@' !in version && '(' !in name && '(' !in version && IsPeers(peers)
    ensures ParseKey(name + "@" + version + peers) == Some((name, version))
  {
    var packageKey := name + "@" + version;
    var key := packageKey + peers;
    NoParen(key);
    assert forall i :: 0 <= i < |packageKey| ==> key[i] == packageKey[i] && packageKey[i] != '(';
    assert peers != "" ==> key[|packageKey|] == '(';
    assert key[..|packageKey|] == packageKey;
    if peers == "" {
      assert key == packageKey;
    }
    LastAt(name, version);
  }

  lemma {:induction false} LastAt(name: string, version: string)
    requires '@' !in version
    ensures var s := name + "@" + version;
            LastIndex(s, '@') == Some(|name|) && s[..|name|] == name && s[|name| + 1..] == version
  {
    var s := name + "@" + version;
    assert s[|name|] == '@';
    assert forall j :: |name| < j < |s| ==> s[j] == version[j - |name| - 1];
  }

  /** A dependency points nowhere exactly when its reference is no string or is local. */
  lemma {:induction false} LocalExactly(d: Dependency)
    ensures Reference(d) == Success(None) <==>
            d.reference.None? || "link:" <= d.reference.value || "workspace:" <= d.reference.value || "file:" <= d.reference.value
  {
  }

  /** A plain reference is a version of the package that is named, an alias names another package and its version. */
  lemma {:induction false} ReferencePoints(name: string, other: string, version: string)
    requires '@' !in version
    ensures Reference(Dependency(name, Some("npm:" + (other + "@" + version)))) == Success(Some(other + "@" + version))
    ensures !IsLocal(version) && !("npm:" <= version) ==>
              Reference(Dependency(name, Some(version))) == Success(Some(name + "@" + version))
    ensures Reference(Dependency(name, Some("npm:" + version))).Failure?
  {
    var alias := other + "@" + version;
    LastAt(other, version);
    assert ("npm:" + alias)[4..] == alias && ("npm:" + alias)[0] == 'n';
    assert ("npm:" + version)[4..] == version && ("npm:" + version)[0] == 'n';
    assert "link:"[0] == 'l' && "workspace:"[0] == 'w' && "file:"[0] == 'f';
  }

  // ----- edges, read off the two sections -----

  /** A dependency of one of the sections points to the key. */
  predicate PointsTo(t: Tables, key: string) {
    || (exists i :: 0 <= i < |t.dependencies| && Reference(t.dependencies[i]) == Success(Some(key)))
    || (exists i :: 0 <= i < |t.optionalDependencies| && Reference(t.optionalDependencies[i]) == Success(Some(key)))
  }

  lemma {:induction false} ReferencesExactly(deps: seq<Dependency>, key: string)
    requires References(deps).Success?
    ensures key in References(deps).value <==> exists i :: 0 <= i < |deps| && Reference(deps[i]) == Success(Some(key))
  {
    if deps != [] {
      var init := deps[..|deps| - 1];
      ReferencesExactly(init, key);
      assert forall i :: 0 <= i < |init| ==> init[i] == deps[i];
    }
  }

  lemma {:induction false} PointsToExactly(t: Tables, key: string)
    requires References(Both(t)).Success?
    ensures key in References(Both(t)).value <==> PointsTo(t, key)
  {
    var all := Both(t);
    ReferencesExactly(all, key);
    assert forall i :: 0 <= i < |t.dependencies| ==> all[i] == t.dependencies[i];
    assert forall i :: 0 <= i < |t.optionalDependencies| ==> all[|t.dependencies| + i] == t.optionalDependencies[i];
  }

  ghost predicate IsRoot(lock: Lock, key: string) {
    exists i :: 0 <= i < |lock.importers| && PointsTo(lock.importers[i], key)
  }

  lemma {:induction false} RootsExactly(lock: Lock, key: string)
    requires RootKeys(lock).Success?
    ensures key in RootKeys(lock).value <==> IsRoot(lock, key)
  {
    FlattenExactly(lock.importers, key);
  }

  lemma {:induction false} ReferencesConcat(a: seq<Dependency>, b: seq<Dependency>)
    requires References(a + b).Success?
    ensures References(a).Success? && References(b).Success?
    ensures References(a + b).value == References(a).value + References(b).value
  {
    if b == [] {
      assert a + b == a;
    } else {
      var init := b[..|b| - 1];
      assert (a + b)[..|a + b| - 1] == a + init;
      ReferencesConcat(a, init);
    }
  }

  lemma {:induction false} FlattenExactly(importers: seq<Tables>, key: string)
    requires References(Flatten(importers)).Success?
    ensures key in References(Flatten(importers)).value <==>
            exists i :: 0 <= i < |importers| && PointsTo(importers[i], key)
  {
    if importers != [] {
      var init, last := importers[..|importers| - 1], importers[|importers| - 1];
      ReferencesConcat(Flatten(init), Both(last));
      FlattenExactly(init, key);
      PointsToExactly(last, key);
      assert forall i :: 0 <= i < |init| ==> init[i] == importers[i];
    }
  }

  /** One reached snapshot that resolves points to the key. */
  ghost predicate Follows(lock: Lock, from: string, key: string) {
    Resolve(lock, from).Some? && PointsTo(lock.snapshots[from], key)
  }

  lemma {:induction false} StepsExactly(lock: Lock, from: string, key: string)
    ensures key in NextOf(Resolver(lock))(from) <==> Follows(lock, from, key)
  {
    if Resolve(lock, from).Some? {
      PointsToExactly(lock.snapshots[from], key);
    }
  }

  ghost predicate HoldsListed(lock: Lock, keys: set<string>) {
    && (forall k :: IsRoot(lock, k) ==> k in keys)
    && forall from, k :: from in keys && Follows(lock, from, k) ==> k in keys
  }

  /**
   * What is reached is exactly what an importer or a reached snapshot points to in either section, and nothing
   * that such a set of keys could do without.
   */
  lemma {:induction false} ReachedExactly(lock: Lock, key: string, keys: set<string>)
    requires RootKeys(lock).Success?
    ensures Reached(lock, key) <==> IsRoot(lock, key) || exists from :: Reached(lock, from) && Follows(lock, from, key)
    ensures HoldsListed(lock, keys) && Reached(lock, key) ==> key in keys
  {
    if IsRoot(lock, key) {
      RootsExactly(lock, key);
      RootReachable(RootKeys(lock).value, NextOf(Resolver(lock)), key);
    }
    if from :| Reached(lock, from) && Follows(lock, from, key) {
      StepsExactly(lock, from, key);
      StepReachable(RootKeys(lock).value, NextOf(Resolver(lock)), from, key);
    }
    if Reached(lock, key) && !IsRoot(lock, key) {
      CameFrom(lock, key);
    }
    if HoldsListed(lock, keys) && Reached(lock, key) {
      ListedCovers(lock, key, keys);
    }
  }

  lemma {:induction false} CameFrom(lock: Lock, key: string)
    requires Reached(lock, key) && !IsRoot(lock, key)
    ensures exists from :: Reached(lock, from) && Follows(lock, from, key)
  {
    var roots, next := RootKeys(lock).value, NextOf(Resolver(lock));
    var n: nat :| ReachableIn(roots, next, key, n);
    RootsExactly(lock, key);
    var from :| ReachableIn(roots, next, from, n - 1) && key in next(from);
    StepsExactly(lock, from, key);
    assert Reached(lock, from);
  }

  lemma {:induction false} ListedCovers(lock: Lock, key: string, keys: set<string>)
    requires HoldsListed(lock, keys) && Reached(lock, key)
    ensures key in keys
  {
    var roots, next := RootKeys(lock).value, NextOf(Resolver(lock));
    forall r | r in roots
      ensures r in keys
    {
      RootsExactly(lock, r);
    }
    forall y, z | y in keys && z in next(y)
      ensures z in keys
    {
      StepsExactly(lock, y, z);
    }
    ClosedCovers(roots, next, keys, key);
  }
}
