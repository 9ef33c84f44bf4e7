/**
 * The requirement gatherer: requirements hidden behind extras are set aside and re-added whenever a
 * self-reference of the package switches more extras on.
 */
module Requirements {
  import opened Wrappers
  import opened Pep440
  import opened Overrides
  import Convert
  import Names
  import RpmSpelling

  /** Environment markers. Everything but `extra` is fixed in one run, so it is just true or false. */
  datatype Marker =
    | Fixed(holds: bool)
    | ExtraIs(name: string)
    | ExtraIsNot(name: string)
    | And(left: Marker, right: Marker)
    | Or(left: Marker, right: Marker)

  predicate Eval(m: Marker, extra: string) {
    match m
    case Fixed(b) => b
    case ExtraIs(e) => Names.Canonical(e) == Names.Canonical(extra)
    case ExtraIsNot(e) => Names.Canonical(e) != Names.Canonical(extra)
    case And(l, r) => Eval(l, extra) && Eval(r, extra)
    case Or(l, r) => Eval(l, extra) || Eval(r, extra)
  }

  datatype RawRequirement =
    Requirement(name: string, extras: set<string>, marker: Option<Marker>, specs: set<Specifier>)

  type Requirement = r: RawRequirement | AllValid(r.specs)
    witness RawRequirement.Requirement("", {}, None, {})

  /** What stays fixed while requirements are gathered. */
  datatype Config = Config(
    package: Option<string>,
    overrides: map<string, seq<Action>>,
    installed: map<string, Version>,
    generateExtras: bool)

  /** One emitted requirement: a line for the distribution and one for each of `extraDists`. */
  datatype Entry = Entry(dist: string, extraDists: set<string>, specs: set<Specifier>)

  function Dist(r: Requirement): string { Names.Canonical(r.name) }

  predicate Dropped(cfg: Config, r: Requirement) {
    Dist(r) in cfg.overrides && Ignore in cfg.overrides[Dist(r)]
  }

  predicate IsSelf(cfg: Config, r: Requirement) {
    cfg.package == Some(Dist(r)) && Dist(r) != ""
  }

  /** A marker is tried once per requested extra, or with an empty extra when there are none. */
  predicate Active(r: Requirement, extras: set<string>) {
    r.marker.None? || (if extras == {} then Eval(r.marker.value, "") else exists e :: e in extras && Eval(r.marker.value, e))
  }

  function Norms(extras: set<string>): set<string> {
    set e | e in extras && Names.Strip(e) != "" :: Names.Norm(e)
  }

  function WithExtra(r: Requirement, extra: Option<string>): Requirement {
    if extra.None? then r
    else if r.marker.None? then r.(marker := Some(ExtraIs(extra.value)))
    else r.(marker := Some(And(r.marker.value, ExtraIs(extra.value))))
  }

  function Overridden(cfg: Config, r: Requirement): (specs: set<Specifier>)
    ensures AllValid(specs)
  {
    if Dist(r) !in cfg.overrides then r.specs
    else
      var actions := cfg.overrides[Dist(r)];
      NormalValid(HasDrop(actions), LastUpper(actions), LastLower(actions), r.specs);
      Normal(HasDrop(actions), LastUpper(actions), LastLower(actions), r.specs)
  }

  function Lowered(s: string): string {
    seq(|s|, i requires 0 <= i < |s| => Names.Lower(s[i]))
  }

  function ExtraDists(generateExtras: bool, dist: string, extras: set<string>): set<string> {
    if generateExtras then set e | e in extras :: dist + "[" + Lowered(e) + "]" else {}
  }

  function EntryOf(cfg: Config, r: Requirement): Entry {
    Entry(Dist(r), ExtraDists(cfg.generateExtras, Dist(r), r.extras), Overridden(cfg, r))
  }

  predicate Satisfied(cfg: Config, r: Requirement) {
    r.name in cfg.installed && AdmitsAll(Overridden(cfg, r), cfg.installed[r.name])
  }

  /** An epoch is written with `!`, which the generator refuses to print. */
  predicate Printable(cfg: Config, r: Requirement) {
    forall s :: s in Overridden(cfg, r) ==> s.version.epoch == 0
  }

  function Entries(cfg: Config, rs: seq<Requirement>): (es: seq<Entry>)
    ensures |es| == |rs|
  {
    if rs == [] then [] else Entries(cfg, rs[..|rs| - 1]) + [EntryOf(cfg, rs[|rs| - 1])]
  }

  // ----- the run as a function -----

  /** Where every requirement handled so far has gone. */
  datatype State = State(
    extras: set<string>,
    ignored: seq<Requirement>,
    emitted: seq<Requirement>,
    selfRefs: seq<Requirement>,
    dropped: seq<Requirement>)

  /** Whether a self-reference asks for something new, judged on its extras as written. */
  predicate Widens(r: Requirement, extras: set<string>) {
    r.extras != {} && !(r.extras <= extras)
  }

  /**
   * Adding one requirement. Each re-adding run is paid for by the self-reference that starts it, which
   * is not set aside again: this is why the recursion ends for every input.
   */
  function AddOne(cfg: Config, st: State, r: Requirement): (next: State)
    ensures |next.ignored| <= |st.ignored| + 1
    decreases |st.ignored| + 1, 0
  {
    if Dropped(cfg, r) then st.(dropped := st.dropped + [r])
    else if !Active(r, st.extras) then st.(ignored := st.ignored + [r])
    else if IsSelf(cfg, r) then
      var noted := st.(selfRefs := st.selfRefs + [r]);
      if Widens(r, st.extras) then
        AddAll(cfg, noted.(extras := st.extras + Norms(r.extras), ignored := []), st.ignored)
      else noted
    else st.(emitted := st.emitted + [r])
  }

  function AddAll(cfg: Config, st: State, rs: seq<Requirement>): (next: State)
    ensures |next.ignored| <= |st.ignored| + |rs|
    decreases |st.ignored| + |rs|, |rs|
  {
    if rs == [] then st
    else AddOne(cfg, AddAll(cfg, st, rs[..|rs| - 1]), rs[|rs| - 1])
  }

  function Start(extras: set<string>): State { State(extras, [], [], [], []) }

  function Effective(rs: seq<Requirement>, extra: Option<string>): (es: seq<Requirement>)
    ensures |es| == |rs|
    ensures forall i :: 0 <= i < |rs| ==> es[i] == WithExtra(rs[i], extra)
  {
    seq(|rs|, i requires 0 <= i < |rs| => WithExtra(rs[i], extra))
  }

  lemma {:induction false} EmittedGrowsOne(cfg: Config, st: State, r: Requirement)
    ensures st.emitted <= AddOne(cfg, st, r).emitted
    decreases |st.ignored| + 1, 0
  {
    if !Dropped(cfg, r) && Active(r, st.extras) && IsSelf(cfg, r) && Widens(r, st.extras) {
      var noted := st.(selfRefs := st.selfRefs + [r]);
      EmittedGrows(cfg, noted.(extras := st.extras + Norms(r.extras), ignored := []), st.ignored);
    }
  }

  lemma {:induction false} EmittedGrows(cfg: Config, st: State, rs: seq<Requirement>)
    ensures st.emitted <= AddAll(cfg, st, rs).emitted
    decreases |st.ignored| + |rs|, |rs|
  {
    if rs != [] {
      EmittedGrows(cfg, st, rs[..|rs| - 1]);
      EmittedGrowsOne(cfg, AddAll(cfg, st, rs[..|rs| - 1]), rs[|rs| - 1]);
    }
  }

  lemma {:induction false} AddAllStep(cfg: Config, st: State, rs: seq<Requirement>, i: nat)
    requires i < |rs|
    ensures AddAll(cfg, st, rs[..i + 1]) == AddOne(cfg, AddAll(cfg, st, rs[..i]), rs[i])
  {
    assert rs[..i + 1][..i] == rs[..i];
  }

  predicate AllPrintable(cfg: Config, rs: seq<Requirement>) {
    forall r :: r in rs ==> Printable(cfg, r)
  }

  /** The state after one more requirement; emissions are never taken back, so an unprintable one stays to the end. */
  lemma {:induction false} AddOneMore(cfg: Config, start: State, rs: seq<Requirement>, i: nat, st: State) returns (next: State)
    requires i < |rs| && st == AddAll(cfg, start, rs[..i])
    ensures next == AddOne(cfg, st, rs[i]) && next == AddAll(cfg, start, rs[..i + 1])
    ensures |next.ignored| <= |st.ignored| + 1
    ensures !AllPrintable(cfg, next.emitted) ==> !AllPrintable(cfg, AddAll(cfg, start, rs).emitted)
  {
    AddAllStep(cfg, start, rs, i);
    LaterEmissions(cfg, start, rs, i + 1);
    next := AddOne(cfg, st, rs[i]);
  }

  // ----- the gatherer -----

  /** The printed lines and the flag say exactly what the emitted requirements call for. */
  ghost predicate Consistent(cfg: Config, emitted: seq<Requirement>, lines: seq<Entry>, missing: bool) {
    && lines == Entries(cfg, emitted)
    && AllPrintable(cfg, emitted)
    && (missing <==> exists r :: r in emitted && !Satisfied(cfg, r))
  }

  lemma {:induction false} ConsistentStep(
    cfg: Config, emitted: seq<Requirement>, lines: seq<Entry>, missing: bool, r: Requirement, entry: Entry, satisfied: bool)
    requires Consistent(cfg, emitted, lines, missing) && Printable(cfg, r)
    requires entry == EntryOf(cfg, r) && satisfied == Satisfied(cfg, r)
    ensures Consistent(cfg, emitted + [r], lines + [entry], missing || !satisfied)
  {
    assert (emitted + [r])[..|emitted|] == emitted;
    assert forall q :: q in emitted + [r] <==> q in emitted || q == r;
  }

  lemma {:induction false} EmissionsPrintable(cfg: Config, emitted: seq<Requirement>, r: Requirement)
    ensures AllPrintable(cfg, emitted + [r]) <==> AllPrintable(cfg, emitted) && Printable(cfg, r)
  {
    assert forall q :: q in emitted + [r] <==> q in emitted || q == r;
  }

  class Gatherer {
    const overrides: map<string, seq<Action>>
    const installed: map<string, Version>
    const generateExtras: bool
    var package: Option<string>
    var extras: set<string>
    var ignoredAliens: seq<Requirement>
    var outputLines: seq<Entry>
    var missing: bool
    ghost var emitted: seq<Requirement>
    ghost var selfRefs: seq<Requirement>
    ghost var dropped: seq<Requirement>

    ghost function Cfg(): Config
      reads this`package
    {
      Config(package, overrides, installed, generateExtras)
    }

    ghost function Content(): State
      reads this
    {
      State(extras, ignoredAliens, emitted, selfRefs, dropped)
    }

    ghost predicate Valid()
      reads this
    {
      Consistent(Cfg(), emitted, outputLines, missing)
    }

    constructor (startExtras: set<string>, overrides: map<string, seq<Action>>, installed: map<string, Version>,
                 generateExtras: bool, package: Option<string>)
      ensures Valid() && Cfg() == Config(package, overrides, installed, generateExtras)
      ensures Content() == State(Norms(startExtras), [], [], [], [])
    {
      this.overrides, this.installed, this.generateExtras := overrides, installed, generateExtras;
      this.package := package;
      extras := Norms(startExtras);
      ignoredAliens, outputLines, missing := [], [], false;
      emitted, selfRefs, dropped := [], [], [];
    }

    /** Fails, as the source raises, exactly when a requirement that becomes active cannot be printed. */
    method Add(requirement: Requirement, extra: Option<string>) returns (ok: bool)
      requires Valid()
      modifies this
      ensures Cfg() == old(Cfg())
      ensures ok ==> Valid() && Content() == AddOne(Cfg(), old(Content()), WithExtra(requirement, extra))
      ensures ok <==> AllPrintable(Cfg(), AddOne(Cfg(), old(Content()), WithExtra(requirement, extra)).emitted)
      decreases |ignoredAliens| + 1, 0, 2
    {
      ok := true;
      var name := Names.Canonical(requirement.name);
      var r := WithExtra(requirement, extra);
      assert Dist(r) == name;
      if name in overrides && Ignore in overrides[name] {
        dropped := dropped + [r];
        return;
      }
      if r.marker.Some? {
        var active := EvaluateAllEnvironments(r);
        if !active {
          ignoredAliens := ignoredAliens + [r];
          return;
        }
      }
      ok := AddActive(r);
    }

    /** A requirement whose marker holds: a self-reference, or one to emit. */
    method AddActive(r: Requirement) returns (ok: bool)
      requires Valid() && !Dropped(Cfg(), r) && Active(r, extras)
      modifies this
      ensures Cfg() == old(Cfg())
      ensures ok ==> Valid() && Content() == AddOne(Cfg(), old(Content()), r)
      ensures ok <==> AllPrintable(Cfg(), AddOne(Cfg(), old(Content()), r).emitted)
      decreases |ignoredAliens| + 1, 0, 1
    {
      if package.Some? && package.value != "" && package.value == Names.Canonical(r.name) {
        ok := AddSelfReference(r);
        return;
      }
      EmissionsPrintable(Cfg(), emitted, r);
      ok := Emit(r);
    }

    /** The package refers to itself: new extras may bring requirements set aside earlier back to life. */
    method AddSelfReference(r: Requirement) returns (ok: bool)
      requires Valid() && !Dropped(Cfg(), r) && Active(r, extras) && IsSelf(Cfg(), r)
      modifies this
      ensures Cfg() == old(Cfg())
      ensures ok ==> Valid() && Content() == AddOne(Cfg(), old(Content()), r)
      ensures ok <==> AllPrintable(Cfg(), AddOne(Cfg(), old(Content()), r).emitted)
      decreases |ignoredAliens| + 1, 0, 0
    {
      ok := true;
      ghost var st := Content();
      selfRefs := selfRefs + [r];
      if r.extras != {} {
        if !(r.extras <= extras) {
          extras := extras + Norms(r.extras);
          ghost var wider := st.(selfRefs := st.selfRefs + [r], extras := st.extras + Norms(r.extras));
          assert Content() == wider;
          assert AddOne(Cfg(), st, r) == AddAll(Cfg(), wider.(ignored := []), st.ignored);
          ok := ReaddIgnoredAliens();
        }
      }
    }

    method EvaluateAllEnvironments(r: Requirement) returns (active: bool)
      requires r.marker.Some?
      ensures active == Active(r, extras)
    {
      if extras == {} {
        return Eval(r.marker.value, "");
      }
      var rest := extras;
      while rest != {}
        invariant rest <= extras
        invariant forall e :: e in extras - rest ==> !Eval(r.marker.value, e)
        decreases rest
      {
        var e :| e in rest;
        if Eval(r.marker.value, e) {
          return true;
        }
        rest := rest - {e};
      }
      active := false;
    }

    method OverriddenSpecs(r: Requirement, name: string) returns (specs: set<Specifier>)
      requires name == Dist(r)
      ensures specs == Overridden(Cfg(), r)
    {
      specs := r.specs;
      if name in overrides {
        var list := Enumerate(r.specs);
        var kept := ApplyOverrides(list, overrides[name]);
        specs := Elems(kept);
      }
    }

    method Emit(r: Requirement) returns (ok: bool)
      requires Valid()
      modifies this`outputLines, this`missing, this`emitted
      ensures ok <==> Printable(Cfg(), r)
      ensures ok ==> Valid() && emitted == old(emitted) + [r]
    {
      var name := Names.Canonical(r.name);
      var specs := OverriddenSpecs(r, name);
      ok := forall s :: s in specs ==> s.version.epoch == 0;
      var satisfied := r.name in installed && AdmitsAll(specs, installed[r.name]);
      ghost var cfg := Cfg();
      if ok {
        var entry := Entry(name, ExtraDists(generateExtras, name, r.extras), specs);
        ConsistentStep(cfg, emitted, outputLines, missing, r, entry, satisfied);
        outputLines := outputLines + [entry];
        emitted := emitted + [r];
      }
      if !satisfied {
        missing := true;
      }
      assert Consistent(cfg, emitted, outputLines, missing) || !ok;
    }

    method Extend(requirements: seq<Requirement>, extra: Option<string>) returns (ok: bool)
      requires Valid()
      modifies this
      ensures Cfg() == old(Cfg())
      ensures ok ==> Valid() && Content() == AddAll(Cfg(), old(Content()), Effective(requirements, extra))
      ensures ok <==> AllPrintable(Cfg(), AddAll(Cfg(), old(Content()), Effective(requirements, extra)).emitted)
      decreases |ignoredAliens| + |requirements|, |requirements|, 0
    {
      ok := true;
      ghost var all := Effective(requirements, extra);
      ghost var cfg, start := Cfg(), Content();
      assert all[..|requirements|] == all;
      ghost var st := start;
      for i := 0 to |requirements|
        invariant Cfg() == cfg && Valid()
        invariant Content() == st && st == AddAll(cfg, start, all[..i])
        invariant |ignoredAliens| <= |old(ignoredAliens)| + i
      {
        assert WithExtra(requirements[i], extra) == all[i];
        st := AddOneMore(cfg, start, all, i, st);
        ok := Add(requirements[i], extra);
        if !ok {
          return;
        }
      }
    }

    method ReaddIgnoredAliens() returns (ok: bool)
      requires Valid()
      modifies this
      ensures Cfg() == old(Cfg())
      ensures ok ==> Valid() && Content() == AddAll(Cfg(), old(Content()).(ignored := []), old(ignoredAliens))
      ensures ok <==> AllPrintable(Cfg(), AddAll(Cfg(), old(Content()).(ignored := []), old(ignoredAliens)).emitted)
      decreases |ignoredAliens|, |ignoredAliens| + 1, 0
    {
      var requirements := ignoredAliens;
      ignoredAliens := [];
      assert Effective(requirements, None) == requirements;
      ok := Extend(requirements, None);
    }
  }

  /** Emissions are never taken back, so an unprintable one early on stays one at the end. */
  lemma {:induction false} LaterEmissions(cfg: Config, st: State, rs: seq<Requirement>, i: nat)
    requires i <= |rs|
    ensures AddAll(cfg, st, rs[..i]).emitted <= AddAll(cfg, st, rs).emitted
    decreases |rs|
  {
    if i < |rs| {
      LaterEmissions(cfg, st, rs[..|rs| - 1], i);
      assert rs[..|rs| - 1][..i] == rs[..i];
      EmittedGrowsOne(cfg, AddAll(cfg, st, rs[..|rs| - 1]), rs[|rs| - 1]);
    } else {
      assert rs[..i] == rs;
    }
  }

  // ----- the fixpoint theorem -----

  /** Markers that only ever ask for a named extra: more extras never switch them off. */
  predicate Positive(m: Marker) {
    match m
    case Fixed(_) => true
    case ExtraIs(e) => Names.Canonical(e) != ""
    case ExtraIsNot(_) => false
    case And(l, r) => Positive(l) && Positive(r)
    case Or(l, r) => Positive(l) && Positive(r)
  }

  ghost predicate AllPositive(rs: multiset<Requirement>) {
    forall r :: r in rs && r.marker.Some? ==> Positive(r.marker.value)
  }

  predicate IsExtra(e: string) { Names.Norm(e) == e && e != "" }

  predicate Normalised(extras: set<string>) { forall e :: e in extras ==> IsExtra(e) }

  /** More extras never switch the requirement off. */
  ghost predicate Monotone(r: Requirement) {
    forall small, big :: small <= big && Normalised(big) && Active(r, small) ==> Active(r, big)
  }

  ghost predicate AllMonotone(cfg: Config, rs: multiset<Requirement>) {
    forall r :: r in rs ==> Dropped(cfg, r) || Monotone(r)
  }

  /** What is active under normalised extras within `X` is active under `X`. */
  ghost predicate MonotoneUpTo(cfg: Config, rs: multiset<Requirement>, X: set<string>) {
    forall r, small :: r in rs && !Dropped(cfg, r) && small <= X && Normalised(small) && Active(r, small) ==> Active(r, X)
  }

  /** The package's own requirements that name extras; `X` is closed when the active ones add nothing. */
  ghost predicate Closed(cfg: Config, rs: multiset<Requirement>, X: set<string>) {
    forall r :: r in rs && !Dropped(cfg, r) && IsSelf(cfg, r) && Active(r, X) ==> Norms(r.extras) <= X
  }

  lemma {:induction false} EmptyExtraIsWeakest(m: Marker, extra: string)
    requires Positive(m) && Eval(m, "")
    ensures Eval(m, extra)
  {
    match m
    case Fixed(_) =>
    case ExtraIs(_) =>
    case And(l, r) =>
      EmptyExtraIsWeakest(l, extra);
      EmptyExtraIsWeakest(r, extra);
    case Or(l, r) =>
      if Eval(l, "") {
        EmptyExtraIsWeakest(l, extra);
      } else {
        EmptyExtraIsWeakest(r, extra);
      }
  }

  lemma {:induction false} ActiveMonotone(r: Requirement, small: set<string>, big: set<string>)
    requires r.marker.Some? ==> Positive(r.marker.value)
    requires small <= big && Active(r, small)
    ensures Active(r, big)
  {
    if r.marker.Some? && small == {} && big != {} {
      var e :| e in big;
      EmptyExtraIsWeakest(r.marker.value, e);
    }
  }

  /** Positive markers are the syntactic case of monotone ones. */
  lemma {:induction false} PositiveIsMonotone(cfg: Config, rs: multiset<Requirement>)
    requires AllPositive(rs)
    ensures AllMonotone(cfg, rs) && forall X :: MonotoneUpTo(cfg, rs, X)
  {
    forall r, small, big | r in rs && small <= big && Active(r, small)
      ensures Active(r, big)
    {
      ActiveMonotone(r, small, big);
    }
  }

  /** Exactly: a marker that holds without extras must hold under every single one. */
  lemma {:induction false} MonotoneExactly(r: Requirement)
    ensures Monotone(r) <==>
            (r.marker.Some? && Eval(r.marker.value, "") ==> forall e :: IsExtra(e) ==> Eval(r.marker.value, e))
  {
    if r.marker.Some? && Eval(r.marker.value, "") {
      assert Active(r, {});
      if Monotone(r) {
        forall e | IsExtra(e)
          ensures Eval(r.marker.value, e)
        {
          assert {} <= {e} && Normalised({e}) && Active(r, {e});
        }
      }
    }
  }

  lemma {:induction false} NormsNormalised(extras: set<string>)
    ensures Normalised(Norms(extras))
  {
    forall n | n in Norms(extras)
      ensures Names.Norm(n) == n && n != ""
    {
      var e :| e in extras && Names.Strip(e) != "" && Names.Norm(e) == n;
      Names.NormIdempotent(e);
    }
  }

  lemma {:induction false} NormsOfNormalised(small: set<string>, big: set<string>)
    requires small <= big && Normalised(big)
    ensures Norms(small) <= big
  {
  }

  function Everything(st: State): multiset<Requirement> {
    multiset(st.ignored) + multiset(st.emitted) + multiset(st.selfRefs) + multiset(st.dropped)
  }

  ghost predicate RightHeadings(cfg: Config, st: State) {
    && (forall r :: r in st.ignored ==> !Dropped(cfg, r) && !Active(r, st.extras))
    && (forall r :: r in st.emitted ==> !Dropped(cfg, r) && Active(r, st.extras) && !IsSelf(cfg, r))
    && (forall r :: r in st.selfRefs ==>
          !Dropped(cfg, r) && Active(r, st.extras) && IsSelf(cfg, r) && Norms(r.extras) <= st.extras)
    && (forall r :: r in st.dropped ==> Dropped(cfg, r))
  }

  /** Everything handled is filed under exactly one heading, and correctly so for the current extras. */
  ghost predicate Filed(cfg: Config, st: State, done: multiset<Requirement>) {
    Normalised(st.extras) && Everything(st) == done && RightHeadings(cfg, st)
  }

  lemma {:induction false} FiledAfterWidening(cfg: Config, st: State, done: multiset<Requirement>, r: Requirement, noted: State)
    requires Filed(cfg, st, done) && AllMonotone(cfg, done + multiset{r})
    requires !Dropped(cfg, r) && Active(r, st.extras) && IsSelf(cfg, r)
    requires noted == st.(selfRefs := st.selfRefs + [r], extras := st.extras + Norms(r.extras), ignored := [])
    ensures Filed(cfg, noted, done + multiset{r} - multiset(st.ignored))
    ensures done + multiset{r} - multiset(st.ignored) + multiset(st.ignored) == done + multiset{r}
  {
    NormsNormalised(r.extras);
    assert multiset(noted.selfRefs) == multiset(st.selfRefs) + multiset{r};
    assert Everything(noted) == done + multiset{r} - multiset(st.ignored);
    HeadingsAfterWidening(cfg, st, done, r, noted);
  }

  lemma {:induction false} HeadingsAfterWidening(
    cfg: Config, st: State, done: multiset<Requirement>, r: Requirement, noted: State)
    requires Filed(cfg, st, done) && AllMonotone(cfg, done + multiset{r})
    requires !Dropped(cfg, r) && Active(r, st.extras) && IsSelf(cfg, r)
    requires noted == st.(selfRefs := st.selfRefs + [r], extras := st.extras + Norms(r.extras), ignored := [])
    ensures RightHeadings(cfg, noted)
  {
    NormsNormalised(r.extras);
    forall q | q in st.emitted || q in st.selfRefs || q == r
      ensures Active(q, noted.extras)
    {
      assert q in multiset(st.emitted) || q in multiset(st.selfRefs) || q == r;
      assert q in done + multiset{r};
      assert st.extras <= noted.extras;
    }
  }

  function FiledUnder(cfg: Config, st: State, r: Requirement): State {
    if Dropped(cfg, r) then st.(dropped := st.dropped + [r])
    else if !Active(r, st.extras) then st.(ignored := st.ignored + [r])
    else if IsSelf(cfg, r) then st.(selfRefs := st.selfRefs + [r])
    else st.(emitted := st.emitted + [r])
  }

  lemma {:induction false} OneMoreOfEverything(cfg: Config, st: State, r: Requirement)
    ensures Everything(FiledUnder(cfg, st, r)) == Everything(st) + multiset{r}
  {
    if Dropped(cfg, r) {
      assert multiset(st.dropped + [r]) == multiset(st.dropped) + multiset{r};
    } else if !Active(r, st.extras) {
      assert multiset(st.ignored + [r]) == multiset(st.ignored) + multiset{r};
    } else if IsSelf(cfg, r) {
      assert multiset(st.selfRefs + [r]) == multiset(st.selfRefs) + multiset{r};
    } else {
      assert multiset(st.emitted + [r]) == multiset(st.emitted) + multiset{r};
    }
  }

  /** A requirement that starts no re-adding goes to the end of one list. */
  lemma {:induction false} FiledUnderOneHeading(cfg: Config, st: State, done: multiset<Requirement>, r: Requirement)
    requires Filed(cfg, st, done)
    requires Dropped(cfg, r) || !Active(r, st.extras) || !IsSelf(cfg, r) || Norms(r.extras) <= st.extras
    ensures Filed(cfg, FiledUnder(cfg, st, r), done + multiset{r})
  {
    OneMoreOfEverything(cfg, st, r);
  }

  lemma {:induction false} AddOneFiles(cfg: Config, st: State, done: multiset<Requirement>, r: Requirement)
    requires Filed(cfg, st, done) && AllMonotone(cfg, done + multiset{r})
    ensures Filed(cfg, AddOne(cfg, st, r), done + multiset{r})
    decreases |st.ignored| + 1, 0
  {
    if !Dropped(cfg, r) && Active(r, st.extras) && IsSelf(cfg, r) && Widens(r, st.extras) {
      var noted := st.(selfRefs := st.selfRefs + [r], extras := st.extras + Norms(r.extras), ignored := []);
      FiledAfterWidening(cfg, st, done, r, noted);
      var rest := done + multiset{r} - multiset(st.ignored);
      AddAllFiles(cfg, noted, rest, st.ignored);
    } else {
      if r.extras <= st.extras {
        NormsOfNormalised(r.extras, st.extras);
      }
      FiledUnderOneHeading(cfg, st, done, r);
    }
  }

  lemma {:induction false} SplitDone(done: multiset<Requirement>, rs: seq<Requirement>)
    requires rs != []
    ensures var init, last := rs[..|rs| - 1], rs[|rs| - 1];
            && done + multiset(init) + multiset{last} == done + multiset(rs)
            && done + multiset(init) <= done + multiset(rs)
  {
    var init, last := rs[..|rs| - 1], rs[|rs| - 1];
    assert rs == init + [last];
    assert multiset(rs) == multiset(init) + multiset{last};
  }

  lemma {:induction false} FewerMonotone(cfg: Config, few: multiset<Requirement>, all: multiset<Requirement>)
    requires few <= all && AllMonotone(cfg, all)
    ensures AllMonotone(cfg, few)
  {
    assert forall r :: r in few ==> r in all;
  }

  lemma {:induction false} FewerBounded(cfg: Config, few: multiset<Requirement>, all: multiset<Requirement>, X: set<string>)
    requires few <= all && AllMonotone(cfg, all) && Closed(cfg, all, X) && MonotoneUpTo(cfg, all, X)
    ensures AllMonotone(cfg, few) && Closed(cfg, few, X) && MonotoneUpTo(cfg, few, X)
  {
    assert forall r :: r in few ==> r in all;
  }

  lemma {:induction false} AddAllFiles(cfg: Config, st: State, done: multiset<Requirement>, rs: seq<Requirement>)
    requires Filed(cfg, st, done) && AllMonotone(cfg, done + multiset(rs))
    ensures Filed(cfg, AddAll(cfg, st, rs), done + multiset(rs))
    decreases |st.ignored| + |rs|, |rs|
  {
    if rs != [] {
      var init, last := rs[..|rs| - 1], rs[|rs| - 1];
      SplitDone(done, rs);
      FewerMonotone(cfg, done + multiset(init), done + multiset(rs));
      AddAllFiles(cfg, st, done, init);
      AddOneFiles(cfg, AddAll(cfg, st, init), done + multiset(init), last);
    }
  }

  lemma {:induction false} WideningBelow(cfg: Config, st: State, done: multiset<Requirement>, r: Requirement, X: set<string>)
    requires MonotoneUpTo(cfg, done + multiset{r}, X) && st.extras <= X && Closed(cfg, done + multiset{r}, X)
    requires Normalised(st.extras) && !Dropped(cfg, r) && Active(r, st.extras) && IsSelf(cfg, r)
    ensures st.extras + Norms(r.extras) <= X
  {
    assert r in done + multiset{r};
    assert Active(r, X);
  }

  lemma {:induction false} AddOneBelow(cfg: Config, st: State, done: multiset<Requirement>, r: Requirement, X: set<string>)
    requires Filed(cfg, st, done) && AllMonotone(cfg, done + multiset{r})
    requires st.extras <= X && Closed(cfg, done + multiset{r}, X) && MonotoneUpTo(cfg, done + multiset{r}, X)
    ensures AddOne(cfg, st, r).extras <= X
    decreases |st.ignored| + 1, 0
  {
    if !Dropped(cfg, r) && Active(r, st.extras) && IsSelf(cfg, r) && Widens(r, st.extras) {
      WideningBelow(cfg, st, done, r, X);
      var noted := st.(selfRefs := st.selfRefs + [r], extras := st.extras + Norms(r.extras), ignored := []);
      FiledAfterWidening(cfg, st, done, r, noted);
      var rest := done + multiset{r} - multiset(st.ignored);
      AddAllBelow(cfg, noted, rest, st.ignored, X);
    }
  }

  lemma {:induction false} AddAllBelow(
    cfg: Config, st: State, done: multiset<Requirement>, rs: seq<Requirement>, X: set<string>)
    requires Filed(cfg, st, done) && AllMonotone(cfg, done + multiset(rs))
    requires st.extras <= X && Closed(cfg, done + multiset(rs), X) && MonotoneUpTo(cfg, done + multiset(rs), X)
    ensures AddAll(cfg, st, rs).extras <= X
    decreases |st.ignored| + |rs|, |rs|
  {
    if rs != [] {
      var init, last := rs[..|rs| - 1], rs[|rs| - 1];
      SplitDone(done, rs);
      FewerBounded(cfg, done + multiset(init), done + multiset(rs), X);
      AddAllFiles(cfg, st, done, init);
      AddAllBelow(cfg, st, done, init, X);
      AddOneBelow(cfg, AddAll(cfg, st, init), done + multiset(init), last, X);
    }
  }

  predicate Emits(cfg: Config, r: Requirement, extras: set<string>) {
    !Dropped(cfg, r) && Active(r, extras) && !IsSelf(cfg, r)
  }

  predicate StaysAlien(cfg: Config, r: Requirement, extras: set<string>) {
    !Dropped(cfg, r) && !Active(r, extras)
  }

  /** `E` is the least closed set of extras above the starting ones. */
  ghost predicate LeastFixpoint(cfg: Config, start: set<string>, rs: multiset<Requirement>, E: set<string>) {
    && start <= E
    && Normalised(E)
    && Closed(cfg, rs, E)
    && (forall X :: start <= X && Normalised(X) && Closed(cfg, rs, X) ==> E <= X)
  }

  /** The extras are the least fixpoint, and each requirement is where that fixpoint puts it. */
  ghost predicate Outcome(cfg: Config, start: set<string>, rs: multiset<Requirement>, st: State) {
    && LeastFixpoint(cfg, start, rs, st.extras)
    && (forall r :: multiset(st.emitted)[r] == if Emits(cfg, r, st.extras) then rs[r] else 0)
    && (forall r :: multiset(st.ignored)[r] == if StaysAlien(cfg, r, st.extras) then rs[r] else 0)
  }

  lemma {:induction false} OutcomeIsUnique(cfg: Config, start: set<string>, rs: multiset<Requirement>, a: State, b: State)
    requires Outcome(cfg, start, rs, a) && Outcome(cfg, start, rs, b)
    ensures a.extras == b.extras
    ensures multiset(a.emitted) == multiset(b.emitted) && multiset(a.ignored) == multiset(b.ignored)
  {
    assert a.extras <= b.extras && b.extras <= a.extras;
    forall r
      ensures multiset(a.emitted)[r] == multiset(b.emitted)[r] && multiset(a.ignored)[r] == multiset(b.ignored)[r]
    {
    }
  }

  /** No closed set above the starting extras, normalised or not, is smaller than what positive markers end with. */
  lemma {:induction false} PositiveExtrasAreLeast(cfg: Config, start: set<string>, rs: seq<Requirement>, X: set<string>)
    requires Normalised(start) && AllPositive(multiset(rs)) && start <= X && Closed(cfg, multiset(rs), X)
    ensures AddAll(cfg, Start(start), rs).extras <= X
  {
    var none: multiset<Requirement> := multiset{};
    PositiveIsMonotone(cfg, multiset(rs));
    assert Filed(cfg, Start(start), none);
    assert none + multiset(rs) == multiset(rs);
    AddAllBelow(cfg, Start(start), none, rs, X);
  }

  /**
   * For any starting extras and any sequence of requirements with monotone markers, the final extras are
   * the least fixpoint of what active self-references ask for; exactly the other requirements active
   * under that fixpoint are emitted, each as often as it was given; the rest stay set aside.
   */
  lemma {:induction false} GatheringIsLeastFixpoint(cfg: Config, start: set<string>, rs: seq<Requirement>)
    requires Normalised(start) && AllMonotone(cfg, multiset(rs))
    ensures Outcome(cfg, start, multiset(rs), AddAll(cfg, Start(start), rs))
  {
    var st := AddAll(cfg, Start(start), rs);
    var none: multiset<Requirement> := multiset{};
    assert Filed(cfg, Start(start), none);
    assert none + multiset(rs) == multiset(rs);
    AddAllFiles(cfg, Start(start), none, rs);
    ExtrasGrow(cfg, Start(start), rs);
    forall X | start <= X && Normalised(X) && Closed(cfg, multiset(rs), X)
      ensures st.extras <= X
    {
      AddAllBelow(cfg, Start(start), none, rs, X);
    }
    var parts := multiset(st.ignored) + multiset(st.emitted) + multiset(st.selfRefs) + multiset(st.dropped);
    assert parts == multiset(rs);
    forall r
      ensures multiset(st.emitted)[r] == if Emits(cfg, r, st.extras) then multiset(rs)[r] else 0
      ensures multiset(st.ignored)[r] == if StaysAlien(cfg, r, st.extras) then multiset(rs)[r] else 0
    {
      assert multiset(rs)[r] ==
             multiset(st.ignored)[r] + multiset(st.emitted)[r] + multiset(st.selfRefs)[r] + multiset(st.dropped)[r];
      assert r in multiset(st.emitted) <==> r in st.emitted;
      assert r in multiset(st.ignored) <==> r in st.ignored;
      assert r in multiset(st.selfRefs) <==> r in st.selfRefs;
      assert r in multiset(st.dropped) <==> r in st.dropped;
    }
    assert Closed(cfg, multiset(rs), st.extras) by {
      forall r | r in multiset(rs) && !Dropped(cfg, r) && IsSelf(cfg, r) && Active(r, st.extras)
        ensures Norms(r.extras) <= st.extras
      {
        assert r in parts;
        assert r in st.ignored || r in st.emitted || r in st.selfRefs || r in st.dropped;
      }
    }
  }

  lemma {:induction false} ExtrasGrowOne(cfg: Config, st: State, r: Requirement)
    ensures st.extras <= AddOne(cfg, st, r).extras
    decreases |st.ignored| + 1, 0
  {
    if !Dropped(cfg, r) && Active(r, st.extras) && IsSelf(cfg, r) && Widens(r, st.extras) {
      var noted := st.(selfRefs := st.selfRefs + [r]);
      ExtrasGrow(cfg, noted.(extras := st.extras + Norms(r.extras), ignored := []), st.ignored);
    }
  }

  lemma {:induction false} ExtrasGrow(cfg: Config, st: State, rs: seq<Requirement>)
    ensures st.extras <= AddAll(cfg, st, rs).extras
    decreases |st.ignored| + |rs|, |rs|
  {
    if rs != [] {
      ExtrasGrow(cfg, st, rs[..|rs| - 1]);
      ExtrasGrowOne(cfg, AddAll(cfg, st, rs[..|rs| - 1]), rs[|rs| - 1]);
    }
  }

  // ----- one list after the other -----

  /** Two runs in a row are one run over both lists. */
  lemma {:induction false} AddAllConcat(cfg: Config, st: State, a: seq<Requirement>, b: seq<Requirement>)
    ensures AddAll(cfg, AddAll(cfg, st, a), b) == AddAll(cfg, st, a + b)
    decreases |b|
  {
    if b == [] {
      assert a + b == a;
    } else {
      AddAllConcat(cfg, st, a, b[..|b| - 1]);
      assert (a + b)[..|a + b| - 1] == a + b[..|b| - 1];
    }
  }

  /** What one source of requirements gives: a file, the build system, the metadata, tox or a dependency group. */
  type Batch = (seq<Requirement>, Option<string>)

  function AllEffective(batches: seq<Batch>): seq<Requirement> {
    if batches == [] then []
    else AllEffective(batches[..|batches| - 1]) + Effective(batches[|batches| - 1].0, batches[|batches| - 1].1)
  }

  /** The run over one more batch, and what an emission that cannot be printed means for the whole. */
  lemma {:induction false} OneMoreBatch(cfg: Config, st: State, batches: seq<Batch>, i: nat)
    requires i < |batches|
    ensures AddAll(cfg, AddAll(cfg, st, AllEffective(batches[..i])), Effective(batches[i].0, batches[i].1))
            == AddAll(cfg, st, AllEffective(batches[..i + 1]))
    ensures AddAll(cfg, st, AllEffective(batches[..i + 1])).emitted <= AddAll(cfg, st, AllEffective(batches)).emitted
    decreases |batches| - i
  {
    assert batches[..i + 1][..i] == batches[..i];
    AddAllConcat(cfg, st, AllEffective(batches[..i]), Effective(batches[i].0, batches[i].1));
    if i + 1 == |batches| {
      assert batches[..i + 1] == batches;
    } else {
      OneMoreBatch(cfg, st, batches, i + 1);
      EmittedGrows(cfg, AddAll(cfg, st, AllEffective(batches[..i + 1])), Effective(batches[i + 1].0, batches[i + 1].1));
    }
  }

  /** The outcome does not depend on the order in which the requirements arrive. */
  lemma {:induction false} OrderDoesNotMatter(cfg: Config, start: set<string>, rs: seq<Requirement>, qs: seq<Requirement>)
    requires Normalised(start) && AllMonotone(cfg, multiset(rs)) && multiset(rs) == multiset(qs)
    ensures var a, b := AddAll(cfg, Start(start), rs), AddAll(cfg, Start(start), qs);
            && a.extras == b.extras
            && multiset(a.emitted) == multiset(b.emitted)
            && multiset(a.ignored) == multiset(b.ignored)
            && (AllPrintable(cfg, a.emitted) <==> AllPrintable(cfg, b.emitted))
            && multiset(Entries(cfg, a.emitted)) == multiset(Entries(cfg, b.emitted))
  {
    var a, b := AddAll(cfg, Start(start), rs), AddAll(cfg, Start(start), qs);
    GatheringIsLeastFixpoint(cfg, start, rs);
    GatheringIsLeastFixpoint(cfg, start, qs);
    OutcomeIsUnique(cfg, start, multiset(rs), a, b);
    SamePrinted(cfg, a.emitted, b.emitted);
  }

  lemma {:induction false} SamePrinted(cfg: Config, a: seq<Requirement>, b: seq<Requirement>)
    requires multiset(a) == multiset(b)
    ensures AllPrintable(cfg, a) <==> AllPrintable(cfg, b)
    ensures multiset(Entries(cfg, a)) == multiset(Entries(cfg, b))
  {
    assert forall r :: r in a <==> r in multiset(a);
    assert forall r :: r in b <==> r in multiset(b);
    EntriesOfPermutation(cfg, a, b);
  }

  lemma {:induction false} EntriesConcat(cfg: Config, a: seq<Requirement>, b: seq<Requirement>)
    ensures Entries(cfg, a + b) == Entries(cfg, a) + Entries(cfg, b)
  {
    if b == [] {
      assert a + b == a;
    } else {
      EntriesConcat(cfg, a, b[..|b| - 1]);
      assert (a + b)[..|a + b| - 1] == a + b[..|b| - 1];
    }
  }

  lemma {:induction false} MiddleMultiset<T>(left: seq<T>, x: T, right: seq<T>)
    ensures multiset(left + ([x] + right)) == multiset(left + right) + multiset{x}
  {
    assert multiset(left + ([x] + right)) == multiset(left) + multiset([x] + right);
    assert multiset([x] + right) == multiset{x} + multiset(right);
    assert multiset(left + right) == multiset(left) + multiset(right);
  }

  lemma {:induction false} SplitAround<T>(s: seq<T>, x: T) returns (left: seq<T>, right: seq<T>)
    requires x in s
    ensures s == left + ([x] + right)
  {
    var k :| 0 <= k < |s| && s[k] == x;
    left, right := s[..k], s[k + 1..];
  }

  lemma {:induction false} SameWithoutMiddle<T>(init: seq<T>, x: T, left: seq<T>, right: seq<T>)
    requires multiset(init + ([x] + [])) == multiset(left + ([x] + right))
    ensures multiset(init) == multiset(left + right)
  {
    MiddleMultiset(init, x, []);
    MiddleMultiset(left, x, right);
    assert init + [] == init;
    assert multiset(init) == multiset(init) + multiset{x} - multiset{x};
    assert multiset(left + right) == multiset(left + right) + multiset{x} - multiset{x};
  }

  lemma {:induction false} EntriesOfPermutation(cfg: Config, a: seq<Requirement>, b: seq<Requirement>)
    requires multiset(a) == multiset(b)
    ensures multiset(Entries(cfg, a)) == multiset(Entries(cfg, b))
    decreases |a|
  {
    if a == [] {
      assert |multiset(b)| == 0;
    } else {
      var init, last := a[..|a| - 1], a[|a| - 1];
      assert a == init + ([last] + []);
      assert last in multiset(b);
      var left, right := SplitAround(b, last);
      SameWithoutMiddle(init, last, left, right);
      EntriesOfPermutation(cfg, init, left + right);
      EntriesOfMiddle(cfg, left, last, right);
      EntriesOfMiddle(cfg, init, last, []);
      assert init + [] == init;
    }
  }

  lemma {:induction false} EntriesOfMiddle(cfg: Config, left: seq<Requirement>, x: Requirement, right: seq<Requirement>)
    ensures multiset(Entries(cfg, left + ([x] + right))) == multiset(Entries(cfg, left + right)) + multiset{EntryOf(cfg, x)}
  {
    EntriesConcat(cfg, left, right);
    EntriesConcat(cfg, left, [x] + right);
    EntriesConcat(cfg, [x], right);
    assert Entries(cfg, [x]) == [EntryOf(cfg, x)] by {
      assert [x][..0] == [];
    }
    MiddleMultiset(Entries(cfg, left), EntryOf(cfg, x), Entries(cfg, right));
  }

  /**
   * Overrides and the package itself are found under the canonical name, in whatever spelling a requirement
   * writes it.
   */
  lemma {:induction false} NamesDecide(cfg: Config, r: Requirement, name: string)
    requires Names.IsCanonical(name) && Names.SameSpelling(r.name, name)
    ensures Dropped(cfg, r) <==> name in cfg.overrides && Ignore in cfg.overrides[name]
    ensures IsSelf(cfg, r) <==> cfg.package == Some(name) && name != ""
    ensures Overridden(cfg, r) ==
            if name !in cfg.overrides then r.specs
            else var actions := cfg.overrides[name]; Normal(HasDrop(actions), LastUpper(actions), LastLower(actions), r.specs)
  {
    Names.SpellingsAgree(r.name, name);
    Names.CanonicalFixed(name);
  }

  /** A marker does not look at how an extra is spelled. */
  lemma {:induction false} MarkersIgnoreSpelling(m: Marker, e: string, f: string)
    requires Names.SameSpelling(e, f)
    ensures Eval(m, e) <==> Eval(m, f)
  {
    Names.SpellingsAgree(e, f);
    match m
    case And(l, r) =>
      MarkersIgnoreSpelling(l, e, f);
      MarkersIgnoreSpelling(r, e, f);
    case Or(l, r) =>
      MarkersIgnoreSpelling(l, e, f);
      MarkersIgnoreSpelling(r, e, f);
    case _ =>
  }

  // ----- in terms of what was given -----

  /** A requirement as it was given, with the extra it was given under. */
  type Given = (Requirement, Option<string>)

  function Spread(batch: Batch): (given: seq<Given>)
    ensures |given| == |batch.0| && forall i :: 0 <= i < |given| ==> given[i] == (batch.0[i], batch.1)
  {
    seq(|batch.0|, i requires 0 <= i < |batch.0| => (batch.0[i], batch.1))
  }

  function AllGiven(batches: seq<Batch>): seq<Given> {
    if batches == [] then [] else AllGiven(batches[..|batches| - 1]) + Spread(batches[|batches| - 1])
  }

  /** The extras that a marker is tried with. */
  function Tried(extras: set<string>): set<string> { if extras == {} then {""} else extras }

  /** The extra meets the requirement's own marker and is, in any spelling, the one it was given under. */
  predicate MetBy(g: Given, e: string) {
    && (g.0.marker.Some? ==> Eval(g.0.marker.value, e))
    && (g.1.Some? ==> Names.Canonical(g.1.value) == Names.Canonical(e))
  }

  ghost predicate Wants(g: Given, extras: set<string>) { exists e :: e in Tried(extras) && MetBy(g, e) }

  lemma {:induction false} EvalWithExtra(g: Given, e: string)
    ensures var r := WithExtra(g.0, g.1); MetBy(g, e) <==> (r.marker.Some? ==> Eval(r.marker.value, e))
  {
  }

  /** Given under an extra, a requirement is active exactly when it is wanted; all else about it is kept. */
  lemma {:induction false} ActiveWhenWanted(g: Given, extras: set<string>)
    ensures var r := WithExtra(g.0, g.1);
            && (Active(r, extras) <==> Wants(g, extras))
            && r.name == g.0.name && r.extras == g.0.extras && r.specs == g.0.specs
  {
    var r := WithExtra(g.0, g.1);
    forall e
      ensures MetBy(g, e) <==> (r.marker.Some? ==> Eval(r.marker.value, e))
    {
      EvalWithExtra(g, e);
    }
    var tried :| tried in Tried(extras);
    if r.marker.None? {
      assert MetBy(g, tried);
    } else if extras == {} {
      assert Active(r, extras) <==> MetBy(g, "");
    } else {
      assert Active(r, extras) <==> exists e :: e in extras && MetBy(g, e);
    }
  }

  function EffectiveOf(given: seq<Given>): (rs: seq<Requirement>)
    ensures |rs| == |given| && forall i :: 0 <= i < |rs| ==> rs[i] == WithExtra(given[i].0, given[i].1)
  {
    seq(|given|, i requires 0 <= i < |given| => WithExtra(given[i].0, given[i].1))
  }

  lemma {:induction false} EffectiveIsGiven(batches: seq<Batch>)
    ensures AllEffective(batches) == EffectiveOf(AllGiven(batches))
  {
    if batches != [] {
      var init, last := batches[..|batches| - 1], batches[|batches| - 1];
      EffectiveIsGiven(init);
      assert Effective(last.0, last.1) == EffectiveOf(Spread(last));
      assert EffectiveOf(AllGiven(init) + Spread(last)) == EffectiveOf(AllGiven(init)) + EffectiveOf(Spread(last));
    }
  }

  /** The package's own wanted requirements add no extra to `X`. */
  ghost predicate GivenClosed(cfg: Config, given: seq<Given>, X: set<string>) {
    forall g :: g in given && !Dropped(cfg, g.0) && IsSelf(cfg, g.0) && Wants(g, X) ==> Norms(g.0.extras) <= X
  }

  ghost predicate GivenFixpoint(cfg: Config, start: set<string>, given: seq<Given>, E: set<string>) {
    && start <= E && Normalised(E) && GivenClosed(cfg, given, E)
    && forall X :: start <= X && Normalised(X) && GivenClosed(cfg, given, X) ==> E <= X
  }

  /** Neither ignored nor about the package itself, and wanted. */
  ghost predicate IsAsked(cfg: Config, g: Given, extras: set<string>) {
    !Dropped(cfg, g.0) && !IsSelf(cfg, g.0) && Wants(g, extras)
  }

  /** The entries of what is asked for, in the order given. */
  ghost function AskedEntries(cfg: Config, given: seq<Given>, extras: set<string>): seq<Entry> {
    if given == [] then []
    else
      var g := given[|given| - 1];
      AskedEntries(cfg, given[..|given| - 1], extras) + if IsAsked(cfg, g, extras) then [EntryOf(cfg, g.0)] else []
  }

  /** No installed version of that name meets every specifier that the overrides leave. */
  predicate Lacks(cfg: Config, r: Requirement) {
    r.name !in cfg.installed || exists s :: s in Overridden(cfg, r) && !Admits(s, cfg.installed[r.name])
  }

  ghost predicate SomeLacking(cfg: Config, given: seq<Given>, extras: set<string>) {
    exists g :: g in given && IsAsked(cfg, g, extras) && Lacks(cfg, g.0)
  }

  /** The extras, the printed entries and the flag of a run, told from what was given. */
  ghost predicate GivenOutcome(
    cfg: Config, start: set<string>, given: seq<Given>, extras: set<string>, lines: seq<Entry>, missing: bool)
  {
    && GivenFixpoint(cfg, start, given, extras)
    && multiset(lines) == multiset(AskedEntries(cfg, given, extras))
    && (missing <==> SomeLacking(cfg, given, extras))
  }

  /** The requirement as the gatherer keeps it. */
  ghost predicate Keeps(given: seq<Given>, r: Requirement, g: Given) { g in given && r == WithExtra(g.0, g.1) }

  lemma {:induction false} EffectiveHasSource(given: seq<Given>, r: Requirement)
    ensures r in EffectiveOf(given) <==> exists g :: Keeps(given, r, g)
  {
    var rs := EffectiveOf(given);
    if r in rs {
      var i :| 0 <= i < |rs| && rs[i] == r;
      assert Keeps(given, r, given[i]);
    }
    if g :| Keeps(given, r, g) {
      var i :| 0 <= i < |given| && given[i] == g;
      assert rs[i] == r;
    }
  }

  lemma {:induction false} WantedAddsNothing(cfg: Config, given: seq<Given>, X: set<string>, g: Given)
    requires Closed(cfg, multiset(EffectiveOf(given)), X)
    requires g in given && !Dropped(cfg, g.0) && IsSelf(cfg, g.0) && Wants(g, X)
    ensures Norms(g.0.extras) <= X
  {
    var r := WithExtra(g.0, g.1);
    assert Keeps(given, r, g);
    EffectiveHasSource(given, r);
    ActiveWhenWanted(g, X);
    assert r in multiset(EffectiveOf(given));
  }

  lemma {:induction false} ActiveAddsNothing(cfg: Config, given: seq<Given>, X: set<string>, r: Requirement)
    requires GivenClosed(cfg, given, X)
    requires r in EffectiveOf(given) && !Dropped(cfg, r) && IsSelf(cfg, r) && Active(r, X)
    ensures Norms(r.extras) <= X
  {
    EffectiveHasSource(given, r);
    var g :| Keeps(given, r, g);
    ActiveWhenWanted(g, X);
  }

  lemma {:induction false} ClosedIsGiven(cfg: Config, given: seq<Given>, X: set<string>)
    ensures Closed(cfg, multiset(EffectiveOf(given)), X) <==> GivenClosed(cfg, given, X)
  {
    if Closed(cfg, multiset(EffectiveOf(given)), X) {
      forall g | g in given && !Dropped(cfg, g.0) && IsSelf(cfg, g.0) && Wants(g, X)
        ensures Norms(g.0.extras) <= X
      {
        WantedAddsNothing(cfg, given, X, g);
      }
    }
    if GivenClosed(cfg, given, X) {
      forall r | r in multiset(EffectiveOf(given)) && !Dropped(cfg, r) && IsSelf(cfg, r) && Active(r, X)
        ensures Norms(r.extras) <= X
      {
        ActiveAddsNothing(cfg, given, X, r);
      }
    }
  }

  lemma {:induction false} FixpointIsGiven(cfg: Config, start: set<string>, given: seq<Given>, E: set<string>)
    requires LeastFixpoint(cfg, start, multiset(EffectiveOf(given)), E)
    ensures GivenFixpoint(cfg, start, given, E)
  {
    ClosedIsGiven(cfg, given, E);
    forall X | start <= X && Normalised(X) && GivenClosed(cfg, given, X)
      ensures E <= X
    {
      ClosedIsGiven(cfg, given, X);
    }
  }

  /** The requirements that are emitted under the extras, in order. */
  function Emittable(cfg: Config, rs: seq<Requirement>, extras: set<string>): seq<Requirement> {
    if rs == [] then []
    else
      Emittable(cfg, rs[..|rs| - 1], extras) + if Emits(cfg, rs[|rs| - 1], extras) then [rs[|rs| - 1]] else []
  }

  lemma {:induction false} EmittableCount(cfg: Config, rs: seq<Requirement>, extras: set<string>, r: Requirement)
    ensures multiset(Emittable(cfg, rs, extras))[r] == if Emits(cfg, r, extras) then multiset(rs)[r] else 0
  {
    if rs != [] {
      var init, last := rs[..|rs| - 1], rs[|rs| - 1];
      EmittableCount(cfg, init, extras, r);
      assert rs == init + [last];
      assert multiset(rs) == multiset(init) + multiset{last};
    }
  }

  lemma {:induction false} EntryWithExtra(cfg: Config, g: Given, extras: set<string>)
    ensures var r := WithExtra(g.0, g.1);
            EntryOf(cfg, r) == EntryOf(cfg, g.0) && (Emits(cfg, r, extras) <==> IsAsked(cfg, g, extras))
  {
    ActiveWhenWanted(g, extras);
  }

  lemma {:induction false} OneMoreEntry(cfg: Config, rs: seq<Requirement>, r: Requirement)
    ensures Entries(cfg, rs + [r]) == Entries(cfg, rs) + [EntryOf(cfg, r)] && Entries(cfg, rs + []) == Entries(cfg, rs)
  {
    assert (rs + [r])[..|rs|] == rs && rs + [] == rs;
  }

  lemma {:induction false} OneMoreEmittable(cfg: Config, rs: seq<Requirement>, r: Requirement, extras: set<string>)
    ensures Emittable(cfg, rs + [r], extras) == Emittable(cfg, rs, extras) + if Emits(cfg, r, extras) then [r] else []
  {
    assert (rs + [r])[..|rs|] == rs;
  }

  lemma {:induction false} OneMoreAsked(cfg: Config, given: seq<Given>, g: Given, extras: set<string>)
    ensures AskedEntries(cfg, given + [g], extras) ==
              AskedEntries(cfg, given, extras) + if IsAsked(cfg, g, extras) then [EntryOf(cfg, g.0)] else []
  {
    assert (given + [g])[..|given|] == given;
  }

  lemma {:induction false} OneMoreEffective(given: seq<Given>, g: Given)
    ensures EffectiveOf(given + [g]) == EffectiveOf(given) + [WithExtra(g.0, g.1)]
  {
  }

  lemma {:induction false} EmittableIsAsked(cfg: Config, given: seq<Given>, extras: set<string>)
    ensures Entries(cfg, Emittable(cfg, EffectiveOf(given), extras)) == AskedEntries(cfg, given, extras)
  {
    if given != [] {
      var init, g := given[..|given| - 1], given[|given| - 1];
      assert given == init + [g];
      EmittableIsAsked(cfg, init, extras);
      EntryWithExtra(cfg, g, extras);
      OneMoreEffective(init, g);
      OneMoreEmittable(cfg, EffectiveOf(init), WithExtra(g.0, g.1), extras);
      OneMoreAsked(cfg, init, g, extras);
      OneMoreEntry(cfg, Emittable(cfg, EffectiveOf(init), extras), WithExtra(g.0, g.1));
    }
  }

  lemma {:induction false} EmittedIsEmittable(cfg: Config, rs: seq<Requirement>, st: State)
    requires forall r :: multiset(st.emitted)[r] == if Emits(cfg, r, st.extras) then multiset(rs)[r] else 0
    ensures multiset(st.emitted) == multiset(Emittable(cfg, rs, st.extras))
  {
    forall r
      ensures multiset(st.emitted)[r] == multiset(Emittable(cfg, rs, st.extras))[r]
    {
      EmittableCount(cfg, rs, st.extras, r);
    }
  }

  lemma {:induction false} EmittedEntries(cfg: Config, start: set<string>, given: seq<Given>, st: State)
    requires Outcome(cfg, start, multiset(EffectiveOf(given)), st)
    ensures multiset(Entries(cfg, st.emitted)) == multiset(AskedEntries(cfg, given, st.extras))
  {
    var rs := EffectiveOf(given);
    EmittedIsEmittable(cfg, rs, st);
    SamePrinted(cfg, st.emitted, Emittable(cfg, rs, st.extras));
    EmittableIsAsked(cfg, given, st.extras);
  }

  lemma {:induction false} SatisfiedUnlessLacking(cfg: Config, g: Given)
    ensures Satisfied(cfg, WithExtra(g.0, g.1)) <==> !Lacks(cfg, g.0)
  {
    ActiveWhenWanted(g, {});
  }

  lemma {:induction false} EmittedExactly(
    cfg: Config, start: set<string>, given: seq<Given>, st: State, r: Requirement)
    requires Outcome(cfg, start, multiset(EffectiveOf(given)), st)
    ensures r in st.emitted <==> r in EffectiveOf(given) && Emits(cfg, r, st.extras)
  {
    assert r in st.emitted <==> multiset(st.emitted)[r] > 0;
    assert r in EffectiveOf(given) <==> multiset(EffectiveOf(given))[r] > 0;
  }

  lemma {:induction false} MissingIsLacking(cfg: Config, start: set<string>, given: seq<Given>, st: State)
    requires Outcome(cfg, start, multiset(EffectiveOf(given)), st)
    ensures (exists r :: r in st.emitted && !Satisfied(cfg, r)) <==> SomeLacking(cfg, given, st.extras)
  {
    if r :| r in st.emitted && !Satisfied(cfg, r) {
      EmittedExactly(cfg, start, given, st, r);
      EffectiveHasSource(given, r);
      var g :| Keeps(given, r, g);
      EntryWithExtra(cfg, g, st.extras);
      SatisfiedUnlessLacking(cfg, g);
      assert SomeLacking(cfg, given, st.extras);
    }
    if g :| g in given && IsAsked(cfg, g, st.extras) && Lacks(cfg, g.0) {
      var r := WithExtra(g.0, g.1);
      assert Keeps(given, r, g);
      EffectiveHasSource(given, r);
      EntryWithExtra(cfg, g, st.extras);
      SatisfiedUnlessLacking(cfg, g);
      EmittedExactly(cfg, start, given, st, r);
    }
  }

  /**
   * With monotone markers, the final extras, the printed entries and the missing flag are told by what was
   * given and under which extra, without looking at any combined marker.
   */
  lemma {:induction false} OutcomeIsGiven(
    cfg: Config, start: set<string>, given: seq<Given>, st: State, lines: seq<Entry>, missing: bool)
    requires Outcome(cfg, start, multiset(EffectiveOf(given)), st) && Consistent(cfg, st.emitted, lines, missing)
    ensures GivenOutcome(cfg, start, given, st.extras, lines, missing)
  {
    FixpointIsGiven(cfg, start, given, st.extras);
    EmittedEntries(cfg, start, given, st);
    MissingIsLacking(cfg, start, given, st);
  }

  // ----- whatever the markers are -----

  /** What is emitted was given or set aside before, and was active under extras that are all kept. */
  ghost predicate WasActive(st: State, rs: seq<Requirement>, after: State, q: Requirement) {
    q in st.emitted || ((q in rs || q in st.ignored) && exists X :: X <= after.extras && Active(q, X))
  }

  /** What is set aside was given or set aside before. */
  predicate WasGiven(st: State, rs: seq<Requirement>, q: Requirement) { q in rs || q in st.ignored }

  lemma {:induction false} OneWasActive(cfg: Config, st: State, r: Requirement, q: Requirement)
    ensures var after := AddOne(cfg, st, r);
            && (q in after.emitted ==> WasActive(st, [r], after, q))
            && (q in after.ignored ==> WasGiven(st, [r], q))
    decreases |st.ignored| + 1, 0
  {
    var after := AddOne(cfg, st, r);
    if !Dropped(cfg, r) && Active(r, st.extras) {
      if IsSelf(cfg, r) && Widens(r, st.extras) {
        var wider := st.(selfRefs := st.selfRefs + [r], extras := st.extras + Norms(r.extras), ignored := []);
        AllWereActive(cfg, wider, st.ignored, q);
      } else if !IsSelf(cfg, r) {
        assert st.extras <= after.extras;
      }
    }
  }

  lemma {:induction false} AllWereActive(cfg: Config, st: State, rs: seq<Requirement>, q: Requirement)
    ensures var after := AddAll(cfg, st, rs);
            && (q in after.emitted ==> WasActive(st, rs, after, q))
            && (q in after.ignored ==> WasGiven(st, rs, q))
    decreases |st.ignored| + |rs|, |rs|
  {
    if rs != [] {
      var init, last := rs[..|rs| - 1], rs[|rs| - 1];
      var before := AddAll(cfg, st, init);
      assert rs == init + [last];
      AllWereActive(cfg, st, init, q);
      OneWasActive(cfg, before, last, q);
      ExtrasGrowOne(cfg, before, last);
      ActiveThrough(st, init, before, last, AddOne(cfg, before, last), q);
    }
  }

  lemma {:induction false} ActiveThrough(
    st: State, init: seq<Requirement>, before: State, last: Requirement, after: State, q: Requirement)
    requires before.extras <= after.extras
    requires q in before.emitted ==> WasActive(st, init, before, q)
    requires q in before.ignored ==> WasGiven(st, init, q)
    ensures WasActive(before, [last], after, q) ==> WasActive(st, init + [last], after, q)
    ensures WasGiven(before, [last], q) ==> WasGiven(st, init + [last], q)
  {
    assert forall r :: r in init ==> r in init + [last];
    assert last in init + [last];
  }

  /** No extra, or one that is among the extras in some spelling; an extra with an empty name counts as asked for. */
  ghost predicate ExtraAsked(extra: Option<string>, extras: set<string>) {
    extra.Some? ==> Names.Canonical(extra.value) == "" ||
                    exists e :: e in extras && Names.Canonical(e) == Names.Canonical(extra.value)
  }

  /** Each entry is that of a given requirement, and none was given under an extra that is not asked for. */
  ghost predicate NothingUnasked(cfg: Config, given: seq<Given>, extras: set<string>, lines: seq<Entry>) {
    forall line :: line in lines ==>
      exists g :: g in given && ExtraAsked(g.1, extras) && line == EntryOf(cfg, g.0)
  }

  lemma {:induction false} EntryHasSource(cfg: Config, rs: seq<Requirement>, line: Entry)
    requires line in Entries(cfg, rs)
    ensures exists r :: r in rs && line == EntryOf(cfg, r)
  {
    var init, last := rs[..|rs| - 1], rs[|rs| - 1];
    if line in Entries(cfg, init) {
      EntryHasSource(cfg, init, line);
    }
  }

  lemma {:induction false} ActiveIsAsked(g: Given, X: set<string>, extras: set<string>)
    requires X <= extras && Active(WithExtra(g.0, g.1), X)
    ensures ExtraAsked(g.1, extras)
  {
    ActiveWhenWanted(g, X);
    assert Names.Canonical("") == "";
  }

  /** Whatever the markers are, nothing is printed for an extra that is not among the final ones. */
  lemma {:induction false} NothingUnaskedIsPrinted(cfg: Config, start: set<string>, given: seq<Given>)
    ensures var st := AddAll(cfg, Start(start), EffectiveOf(given));
            NothingUnasked(cfg, given, st.extras, Entries(cfg, st.emitted))
  {
    var rs := EffectiveOf(given);
    var st := AddAll(cfg, Start(start), rs);
    forall line | line in Entries(cfg, st.emitted)
      ensures exists g :: g in given && ExtraAsked(g.1, st.extras) && line == EntryOf(cfg, g.0)
    {
      EntryHasSource(cfg, st.emitted, line);
      var q :| q in st.emitted && line == EntryOf(cfg, q);
      AllWereActive(cfg, Start(start), rs, q);
      var X :| X <= st.extras && Active(q, X);
      EffectiveHasSource(given, q);
      var g :| Keeps(given, q, g);
      ActiveIsAsked(g, X, st.extras);
      EntryWithExtra(cfg, g, X);
    }
  }

  /**
   * A new gatherer and all batches in turn: the run over all their requirements, and with monotone markers the
   * least fixpoint of the whole, however the requirements are spread over the batches.
   */
  method Gather(startExtras: set<string>, overrides: map<string, seq<Action>>, installed: map<string, Version>,
                generateExtras: bool, package: Option<string>, batches: seq<Batch>)
    returns (g: Gatherer, ok: bool)
    ensures g.Cfg() == Config(package, overrides, installed, generateExtras)
    ensures ok ==> g.Valid() && g.Content() == AddAll(g.Cfg(), Start(Norms(startExtras)), AllEffective(batches))
    ensures ok <==> AllPrintable(g.Cfg(), AddAll(g.Cfg(), Start(Norms(startExtras)), AllEffective(batches)).emitted)
    ensures ok ==> NothingUnasked(g.Cfg(), AllGiven(batches), g.extras, g.outputLines)
    ensures ok && AllMonotone(g.Cfg(), multiset(AllEffective(batches))) ==>
              && Outcome(g.Cfg(), Norms(startExtras), multiset(AllEffective(batches)), g.Content())
              && GivenOutcome(g.Cfg(), Norms(startExtras), AllGiven(batches), g.extras, g.outputLines, g.missing)
  {
    ghost var cfg, start := Config(package, overrides, installed, generateExtras), Start(Norms(startExtras));
    g := new Gatherer(startExtras, overrides, installed, generateExtras, package);
    ok := true;
    for i := 0 to |batches|
      invariant fresh(g) && g.Cfg() == cfg && g.Valid()
      invariant g.Content() == AddAll(cfg, start, AllEffective(batches[..i]))
    {
      OneMoreBatch(cfg, start, batches, i);
      ok := g.Extend(batches[i].0, batches[i].1);
      if !ok {
        return;
      }
    }
    assert batches[..|batches|] == batches;
    NormsNormalised(startExtras);
    EffectiveIsGiven(batches);
    NothingUnaskedIsPrinted(cfg, Norms(startExtras), AllGiven(batches));
    if AllMonotone(cfg, multiset(AllEffective(batches))) {
      GatheringIsLeastFixpoint(cfg, Norms(startExtras), AllEffective(batches));
      OutcomeIsGiven(cfg, Norms(startExtras), AllGiven(batches), g.Content(), g.outputLines, g.missing);
    }
  }

  lemma {:induction false} AddTwo(cfg: Config, st: State, r: Requirement, q: Requirement)
    ensures AddAll(cfg, st, [r, q]) == AddOne(cfg, AddOne(cfg, st, r), q)
  {
    assert [r, q][..1] == [r] && [r][..0] == [];
    assert AddAll(cfg, st, [r]) == AddOne(cfg, AddAll(cfg, st, []), r);
  }

  /**
   * Negated markers are outside the theorem for a reason: when a requirement is active without extras
   * but not once the self-reference has added one, the order decides whether it is emitted.
   */
  lemma {:induction false} NegatedMarkerDependsOnOrder(cfg: Config, r: Requirement, self: Requirement)
    requires !Dropped(cfg, r) && !Dropped(cfg, self) && !IsSelf(cfg, r) && IsSelf(cfg, self)
    requires self.marker.None? && Norms(self.extras) != {} && !Active(r, Norms(self.extras)) && Active(r, {})
    ensures r in AddAll(cfg, Start({}), [r, self]).emitted
    ensures AddAll(cfg, Start({}), [self, r]).emitted == []
  {
    AddTwo(cfg, Start({}), r, self);
    AddTwo(cfg, Start({}), self, r);
    var first := AddOne(cfg, Start({}), r);
    assert first == Start({}).(emitted := [r]);
    EmittedGrowsOne(cfg, first, self);
    var noted := State(Norms(self.extras), [], [], [self], []);
    assert {} + Norms(self.extras) == Norms(self.extras);
    assert AddOne(cfg, Start({}), self) == AddAll(cfg, noted, []) == noted;
  }

  ghost predicate SameOutcome(a: State, b: State) {
    && a.extras == b.extras
    && multiset(a.emitted) == multiset(b.emitted)
    && multiset(a.ignored) == multiset(b.ignored)
  }

  /** Among monotone requirements, however often it is given, the requirement never makes the order count. */
  ghost predicate OrderNeverDecides(cfg: Config, r: Requirement) {
    forall start, rs: seq<Requirement>, qs: seq<Requirement> ::
      Normalised(start) && multiset(rs) == multiset(qs) && (forall q :: q in rs && q != r ==> Monotone(q)) ==>
        SameOutcome(AddAll(cfg, Start(start), rs), AddAll(cfg, Start(start), qs))
  }

  /** The package has a name under which requirements on itself are not ignored. */
  predicate CanReferToItself(cfg: Config) {
    && cfg.package.Some? && cfg.package.value != "" && Names.Canonical(cfg.package.value) == cfg.package.value
    && !(cfg.package.value in cfg.overrides && Ignore in cfg.overrides[cfg.package.value])
  }

  function SelfReference(package: string, extra: string): Requirement {
    RawRequirement.Requirement(package, {extra}, None, {})
  }

  /** A requirement that one extra switches off is told apart by whether the self-reference comes first or second. */
  lemma {:induction false} OrderDecides(cfg: Config, r: Requirement, e: string)
    requires CanReferToItself(cfg) && !Dropped(cfg, r) && IsExtra(e)
    requires r.marker.Some? && Eval(r.marker.value, "") && !Eval(r.marker.value, e)
    ensures var self := SelfReference(cfg.package.value, e);
            && !SameOutcome(AddAll(cfg, Start({}), [r, self]), AddAll(cfg, Start({}), [self, r]))
            && Monotone(self)
  {
    var self := SelfReference(cfg.package.value, e);
    AddTwo(cfg, Start({}), r, self);
    AddTwo(cfg, Start({}), self, r);
    NothingSetAside(cfg, Start({}), r);
    NothingSetAside(cfg, AddOne(cfg, Start({}), r), self);
    SetAsideAfterSelf(cfg, self, e, r);
    assert multiset([r])[r] == 1;
  }

  lemma {:induction false} NothingSetAside(cfg: Config, st: State, r: Requirement)
    requires st.ignored == [] && !Dropped(cfg, r) && Active(r, st.extras)
    ensures AddOne(cfg, st, r).ignored == []
  {
  }

  lemma {:induction false} NormsOfOne(e: string)
    requires IsExtra(e)
    ensures Norms({e}) == {e}
  {
    assert Names.Canonical("") == "";
    assert Names.Strip(e) != "" && Names.Norm(e) == e;
  }

  lemma {:induction false} SelfReferenceFirst(cfg: Config, self: Requirement)
    requires self.marker.None? && !Dropped(cfg, self) && IsSelf(cfg, self) && self.extras != {}
    ensures AddOne(cfg, Start({}), self) == State(Norms(self.extras), [], [], [self], [])
  {
    var noted := State(Norms(self.extras), [], [], [self], []);
    assert {} + Norms(self.extras) == Norms(self.extras);
    assert AddOne(cfg, Start({}), self) == AddAll(cfg, noted, []);
    assert AddAll(cfg, noted, []) == noted;
  }

  lemma {:induction false} InactiveIsSetAside(cfg: Config, st: State, r: Requirement)
    requires !Dropped(cfg, r) && !Active(r, st.extras) && st.ignored == []
    ensures AddOne(cfg, st, r).ignored == [r]
  {
  }

  lemma {:induction false} SetAsideAfterSelf(cfg: Config, self: Requirement, e: string, r: Requirement)
    requires IsExtra(e) && self.extras == {e} && self.marker.None? && !Dropped(cfg, self) && IsSelf(cfg, self)
    requires !Dropped(cfg, r) && !Active(r, {e})
    ensures AddOne(cfg, AddOne(cfg, Start({}), self), r).ignored == [r]
  {
    NormsOfOne(e);
    SelfReferenceFirst(cfg, self);
    InactiveIsSetAside(cfg, State({e}, [], [], [self], []), r);
  }

  lemma {:induction false} OrderDoesNotDecide(cfg: Config, r: Requirement)
    requires Monotone(r) || Dropped(cfg, r)
    ensures OrderNeverDecides(cfg, r)
  {
    forall start, rs: seq<Requirement>, qs: seq<Requirement> |
      Normalised(start) && multiset(rs) == multiset(qs) && (forall q :: q in rs && q != r ==> Monotone(q))
      ensures SameOutcome(AddAll(cfg, Start(start), rs), AddAll(cfg, Start(start), qs))
    {
      assert forall q :: q in multiset(rs) ==> q in rs;
      OrderDoesNotMatter(cfg, start, rs, qs);
    }
  }

  /** The order of requirements never decides about a requirement exactly when it is monotone or ignored anyway. */
  lemma {:induction false} OrderNeverDecidesExactly(cfg: Config, r: Requirement)
    requires CanReferToItself(cfg)
    ensures OrderNeverDecides(cfg, r) <==> Monotone(r) || Dropped(cfg, r)
  {
    if Monotone(r) || Dropped(cfg, r) {
      OrderDoesNotDecide(cfg, r);
    } else {
      MonotoneExactly(r);
      var e :| IsExtra(e) && !Eval(r.marker.value, e);
      OrderDecides(cfg, r, e);
      SwappedPair(cfg, r, SelfReference(cfg.package.value, e));
    }
  }

  lemma {:induction false} SwappedPair(cfg: Config, r: Requirement, self: Requirement)
    requires Monotone(self)
    requires !SameOutcome(AddAll(cfg, Start({}), [r, self]), AddAll(cfg, Start({}), [self, r]))
    ensures !OrderNeverDecides(cfg, r)
  {
    var rs, qs := [r, self], [self, r];
    assert multiset(rs) == multiset{r, self} == multiset(qs);
    assert forall q :: q in rs ==> q == r || q == self;
    assert Normalised({});
  }

  /** The name on the line is canonical, canonical names stay as they are, and all spellings of a name give one line. */
  lemma {:induction false} EntryNamesAreCanonical(cfg: Config, r: Requirement, q: Requirement)
    ensures var e := EntryOf(cfg, r);
            && Names.IsCanonical(e.dist)
            && (Names.IsCanonical(r.name) ==> e.dist == r.name)
            && (Names.SameSpelling(r.name, q.name) ==> e.dist == EntryOf(cfg, q).dist)
  {
    Names.CanonicalIsCanonical(r.name);
    if Names.IsCanonical(r.name) {
      Names.CanonicalFixed(r.name);
    }
    if Names.SameSpelling(r.name, q.name) {
      Names.SpellingsAgree(r.name, q.name);
    }
  }

  /** The specifiers on the line are what the overrides of the package, if there are any, make of those given. */
  lemma {:induction false} EntrySpecsAreOverridden(cfg: Config, r: Requirement, list: seq<Specifier>)
    requires Elems(list) == r.specs
    ensures EntryOf(cfg, r).specs ==
            if Dist(r) in cfg.overrides then Elems(Apply(cfg.overrides[Dist(r)], list)) else r.specs
  {
    if Dist(r) in cfg.overrides {
      NormalForm(cfg.overrides[Dist(r)], list);
    }
  }

  /** The line for an extra is the name, and the extra without capitals in brackets. */
  ghost predicate IsExtraLine(dist: string, e: string, line: string) {
    && |line| >= |dist| + 2 && line[..|dist|] == dist && line[|dist|] == '[' && line[|line| - 1] == ']'
    && AlikeUpToCase(e, line[|dist| + 1..|line| - 1])
  }

  lemma {:induction false} ExtraLine(dist: string, e: string)
    ensures IsExtraLine(dist, e, dist + "[" + Lowered(e) + "]")
  {
    var line := dist + "[" + Lowered(e) + "]";
    assert line[|dist| + 1..|line| - 1] == Lowered(e);
  }

  lemma {:induction false} OneExtraLine(dist: string, e: string, line: string)
    requires IsExtraLine(dist, e, line)
    ensures line == dist + "[" + Lowered(e) + "]"
  {
    var inner := line[|dist| + 1..|line| - 1];
    assert line == dist + "[" + inner + "]";
    assert inner == Lowered(e);
  }

  /** With the option on there is such a line for each extra of the requirement and no other; with it off there is none. */
  lemma {:induction false} ExtraLinesExactly(cfg: Config, r: Requirement, line: string)
    ensures line in EntryOf(cfg, r).extraDists <==>
            cfg.generateExtras && exists e :: e in r.extras && IsExtraLine(EntryOf(cfg, r).dist, e, line)
  {
    var dist := EntryOf(cfg, r).dist;
    if line in EntryOf(cfg, r).extraDists {
      var e :| e in r.extras && line == dist + "[" + Lowered(e) + "]";
      ExtraLine(dist, e);
    }
    if cfg.generateExtras {
      if e :| e in r.extras && IsExtraLine(dist, e, line) {
        OneExtraLine(dist, e, line);
      }
    }
  }

  /** The same letters, the second time without capitals. */
  predicate AlikeUpToCase(x: string, y: string) {
    && |x| == |y| && (forall i :: 0 <= i < |y| ==> !('A' <= y[i] <= 'Z'))
    && forall i :: 0 <= i < |x| ==>
         y[i] == x[i] || ('A' <= x[i] <= 'Z' && 'a' <= y[i] <= 'z' && y[i] as int - 'a' as int == x[i] as int - 'A' as int)
  }

  /**
   * What an emitted line means to RPM: a package version is accepted exactly when it meets every
   * specifier left after the overrides, as long as none of them is a diverging pair.
   */
  lemma {:induction false} EntryMeaning(cfg: Config, r: Requirement, c: Version)
    requires RpmSpelling.Representable(c)
    requires forall s :: s in Overridden(cfg, r) ==> RpmSpelling.Representable(s.version) && !Convert.Diverges(s, c)
    ensures var e := EntryOf(cfg, r);
            (forall s :: s in e.specs ==> Convert.RpmAdmits(e.dist, s, c)) <==> AdmitsAll(Overridden(cfg, r), c)
  {
    var e := EntryOf(cfg, r);
    forall s | s in e.specs
      ensures Convert.RpmAdmits(e.dist, s, c) <==> Admits(s, c)
    {
      Convert.ConversionMeaning(e.dist, s, c);
    }
  }
}
