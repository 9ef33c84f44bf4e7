/** Dependency overrides: a rewriting system on specifier lists, its normal form and its meaning. */
module Overrides {
  import opened Wrappers
  import opened Ordering
  import opened Pep440
  import RpmSpelling

  datatype Action =
    | DropUpper | DropLower | SetUpper(bound: Version) | SetLower(bound: Version)
    | DropConstraints | Ignore

  function AtLeastSpec(v: Version): Specifier { Specifier(Ge, v, false) }

  function AtMostSpec(v: Version): Specifier { Specifier(Le, v, false) }

  function BelowSpec(v: Version): Specifier { Specifier(Lt, v, false) }

  /** What is left of a specifier without its upper bound, if anything. */
  function LowerHalf(s: Specifier): Option<Specifier> {
    if s.op !in {Lt, Le, Eq, ArbitraryEq, Compatible} then Some(s)
    else if s.op == Compatible || (s.op == Eq && !s.wildcard) then Some(AtLeastSpec(s.version))
    else None
  }

  /** What is left of a specifier without its lower bound, if anything. */
  function UpperHalf(s: Specifier): Option<Specifier> {
    if s.op !in {Gt, Ge, Eq, ArbitraryEq, Compatible} then Some(s)
    else if s.op == Eq && !s.wildcard then Some(AtMostSpec(s.version))
    else None
  }

  function Kept(half: Specifier -> Option<Specifier>, specs: seq<Specifier>): seq<Specifier> {
    if specs == [] then []
    else
      var last := half(specs[|specs| - 1]);
      Kept(half, specs[..|specs| - 1]) + if last.Some? then [last.value] else []
  }

  function ApplyAction(a: Action, specs: seq<Specifier>): seq<Specifier> {
    match a
    case Ignore => specs
    case DropConstraints => []
    case DropUpper => Kept(LowerHalf, specs)
    case DropLower => Kept(UpperHalf, specs)
    case SetUpper(v) => Kept(LowerHalf, specs) + [BelowSpec(v)]
    case SetLower(v) => Kept(UpperHalf, specs) + [AtLeastSpec(v)]
  }

  function Apply(actions: seq<Action>, specs: seq<Specifier>): seq<Specifier> {
    if actions == [] then specs
    else ApplyAction(actions[|actions| - 1], Apply(actions[..|actions| - 1], specs))
  }

  method RemoveUpperBounds(specs: seq<Specifier>) returns (result: seq<Specifier>)
    ensures result == Kept(LowerHalf, specs)
  {
    result := [];
    for i := 0 to |specs|
      invariant result == Kept(LowerHalf, specs[..i])
    {
      var s := specs[i];
      assert specs[..i + 1][..i] == specs[..i];
      if s.op !in {Lt, Le, Eq, ArbitraryEq, Compatible} {
        result := result + [s];
      } else if s.op == Compatible {
        result := result + [AtLeastSpec(s.version)];
      } else if s.op == Eq && !s.wildcard {
        result := result + [AtLeastSpec(s.version)];
      }
    }
    assert specs[..|specs|] == specs;
  }

  method RemoveLowerBounds(specs: seq<Specifier>) returns (result: seq<Specifier>)
    ensures result == Kept(UpperHalf, specs)
  {
    result := [];
    for i := 0 to |specs|
      invariant result == Kept(UpperHalf, specs[..i])
    {
      var s := specs[i];
      assert specs[..i + 1][..i] == specs[..i];
      if s.op !in {Gt, Ge, Eq, ArbitraryEq, Compatible} {
        result := result + [s];
      } else if s.op == Eq && !s.wildcard {
        result := result + [AtMostSpec(s.version)];
      }
    }
    assert specs[..|specs|] == specs;
  }

  method ApplyOverrides(specs: seq<Specifier>, actions: seq<Action>) returns (result: seq<Specifier>)
    ensures result == Apply(actions, specs)
    ensures Elems(result) == Normal(HasDrop(actions), LastUpper(actions), LastLower(actions), Elems(specs))
  {
    result := specs;
    for i := 0 to |actions|
      invariant result == Apply(actions[..i], specs)
    {
      assert actions[..i + 1][..i] == actions[..i];
      match actions[i] {
        case Ignore =>
        case DropConstraints =>
          result := [];
        case DropUpper =>
          result := RemoveUpperBounds(result);
        case DropLower =>
          result := RemoveLowerBounds(result);
        case SetUpper(v) =>
          result := RemoveUpperBounds(result);
          result := result + [BelowSpec(v)];
        case SetLower(v) =>
          result := RemoveLowerBounds(result);
          result := result + [AtLeastSpec(v)];
      }
    }
    assert actions[..|actions|] == actions;
    NormalForm(actions, specs);
  }

  /** Some order in which the elements of a specifier set are enumerated. */
  method Enumerate(specs: set<Specifier>) returns (list: seq<Specifier>)
    ensures Elems(list) == specs
  {
    list := [];
    var rest := specs;
    while rest != {}
      invariant rest + Elems(list) == specs
      decreases rest
    {
      var s :| s in rest;
      rest := rest - {s};
      list := list + [s];
    }
  }

  // ----- normal form -----

  function Elems(specs: seq<Specifier>): set<Specifier> { set s | s in specs }

  function KeptSet(half: Specifier -> Option<Specifier>, specs: set<Specifier>): set<Specifier> {
    set s | s in specs && half(s).Some? :: half(s).value
  }

  /** What a run of overrides has last decided about one side of the bounds. */
  datatype Side = Untouched | Removed | Replaced(bound: Version)

  predicate HasDrop(actions: seq<Action>) { DropConstraints in actions }

  /** The last upper action after the last `drop_constraints`. */
  function LastUpper(actions: seq<Action>): Side {
    if actions == [] then Untouched
    else
      match actions[|actions| - 1]
      case DropUpper => Removed
      case SetUpper(v) => Replaced(v)
      case DropConstraints => Untouched
      case _ => LastUpper(actions[..|actions| - 1])
  }

  function LastLower(actions: seq<Action>): Side {
    if actions == [] then Untouched
    else
      match actions[|actions| - 1]
      case DropLower => Removed
      case SetLower(v) => Replaced(v)
      case DropConstraints => Untouched
      case _ => LastLower(actions[..|actions| - 1])
  }

  function WithUpper(side: Side, specs: set<Specifier>): set<Specifier> {
    match side
    case Untouched => specs
    case Removed => KeptSet(LowerHalf, specs)
    case Replaced(v) => KeptSet(LowerHalf, specs) + {BelowSpec(v)}
  }

  function WithLower(side: Side, specs: set<Specifier>): set<Specifier> {
    match side
    case Untouched => specs
    case Removed => KeptSet(UpperHalf, specs)
    case Replaced(v) => KeptSet(UpperHalf, specs) + {AtLeastSpec(v)}
  }

  /** Clear everything or nothing, then one upper and one lower decision. */
  function Normal(dropped: bool, upper: Side, lower: Side, specs: set<Specifier>): set<Specifier> {
    WithLower(lower, WithUpper(upper, if dropped then {} else specs))
  }

  lemma {:induction false} KeptElems(half: Specifier -> Option<Specifier>, specs: seq<Specifier>)
    ensures Elems(Kept(half, specs)) == KeptSet(half, Elems(specs))
  {
    if specs != [] {
      var init, last := specs[..|specs| - 1], specs[|specs| - 1];
      KeptElems(half, init);
      assert specs == init + [last];
      assert Elems(specs) == Elems(init) + {last};
      var tail := if half(last).Some? then [half(last).value] else [];
      assert Elems(Kept(half, specs)) == Elems(Kept(half, init)) + Elems(tail);
    }
  }

  /** Removing the upper bounds twice is removing them once, and a new bound is itself removed. */
  lemma {:induction false} UpperOverUpper(first: Side, second: Side, specs: set<Specifier>)
    requires second != Untouched
    ensures WithUpper(second, WithUpper(first, specs)) == WithUpper(second, specs)
  {
    var kept := KeptSet(LowerHalf, specs);
    assert forall s :: LowerHalf(s).Some? ==> LowerHalf(LowerHalf(s).value) == LowerHalf(s);
    assert KeptSet(LowerHalf, kept) == kept by {
      forall s | s in kept
        ensures s in KeptSet(LowerHalf, kept)
      {
        assert LowerHalf(s) == Some(s);
      }
    }
    if first.Replaced? {
      assert LowerHalf(BelowSpec(first.bound)) == None;
      assert KeptSet(LowerHalf, kept + {BelowSpec(first.bound)}) == KeptSet(LowerHalf, kept);
    }
  }

  lemma {:induction false} LowerOverLower(first: Side, second: Side, specs: set<Specifier>)
    requires second != Untouched
    ensures WithLower(second, WithLower(first, specs)) == WithLower(second, specs)
  {
    var kept := KeptSet(UpperHalf, specs);
    assert forall s :: UpperHalf(s).Some? ==> UpperHalf(UpperHalf(s).value) == UpperHalf(s);
    assert KeptSet(UpperHalf, kept) == kept by {
      forall s | s in kept
        ensures s in KeptSet(UpperHalf, kept)
      {
        assert UpperHalf(s) == Some(s);
      }
    }
    if first.Replaced? {
      assert UpperHalf(AtLeastSpec(first.bound)) == None;
      assert KeptSet(UpperHalf, kept + {AtLeastSpec(first.bound)}) == KeptSet(UpperHalf, kept);
    }
  }

  /** What survives both removals is the same in either order. */
  lemma {:induction false} HalvesCommute(specs: set<Specifier>)
    ensures KeptSet(LowerHalf, KeptSet(UpperHalf, specs)) == KeptSet(UpperHalf, KeptSet(LowerHalf, specs))
  {
    var both := set s | s in specs && s.op == Ne;
    forall s | s in both
      ensures s in KeptSet(LowerHalf, KeptSet(UpperHalf, specs)) && s in KeptSet(UpperHalf, KeptSet(LowerHalf, specs))
    {
      assert UpperHalf(s) == Some(s) && LowerHalf(s) == Some(s);
      assert s in KeptSet(UpperHalf, specs) && s in KeptSet(LowerHalf, specs);
    }
    assert forall s :: UpperHalf(s).Some? ==> (LowerHalf(UpperHalf(s).value).Some? <==> s.op == Ne);
    assert forall s :: LowerHalf(s).Some? ==> (UpperHalf(LowerHalf(s).value).Some? <==> s.op == Ne);
    assert KeptSet(LowerHalf, KeptSet(UpperHalf, specs)) == both;
    assert KeptSet(UpperHalf, KeptSet(LowerHalf, specs)) == both;
  }

  /** Upper and lower decisions commute: each keeps the bound the other one sets. */
  lemma {:induction false} SidesCommute(upper: Side, lower: Side, specs: set<Specifier>)
    ensures WithUpper(upper, WithLower(lower, specs)) == WithLower(lower, WithUpper(upper, specs))
  {
    HalvesCommute(specs);
    if upper != Untouched && lower.Replaced? {
      var b := AtLeastSpec(lower.bound);
      assert LowerHalf(b) == Some(b);
      assert KeptSet(LowerHalf, KeptSet(UpperHalf, specs) + {b}) == KeptSet(LowerHalf, KeptSet(UpperHalf, specs)) + {b};
    }
    if lower != Untouched && upper.Replaced? {
      var b := BelowSpec(upper.bound);
      assert UpperHalf(b) == Some(b);
      assert KeptSet(UpperHalf, KeptSet(LowerHalf, specs) + {b}) == KeptSet(UpperHalf, KeptSet(LowerHalf, specs)) + {b};
    }
  }

  /**
   * Every override list has a normal form: as a set, its effect is decided by whether it clears all
   * constraints and by the last upper and the last lower action after that.
   */
  lemma {:induction false} NormalForm(actions: seq<Action>, specs: seq<Specifier>)
    ensures Elems(Apply(actions, specs)) ==
            Normal(HasDrop(actions), LastUpper(actions), LastLower(actions), Elems(specs))
  {
    if actions != [] {
      var init, last := actions[..|actions| - 1], actions[|actions| - 1];
      NormalForm(init, specs);
      assert actions == init + [last];
      var before := Apply(init, specs);
      var base := if HasDrop(init) then {} else Elems(specs);
      var upper, lower := LastUpper(init), LastLower(init);
      assert Elems(before) == WithLower(lower, WithUpper(upper, base));
      match last {
        case Ignore =>
        case DropConstraints =>
        case DropUpper => UpperStep(Removed, init, before, base);
        case SetUpper(v) => UpperStep(Replaced(v), init, before, base);
        case DropLower => LowerStep(Removed, init, before, base);
        case SetLower(v) => LowerStep(Replaced(v), init, before, base);
      }
    }
  }

  lemma {:induction false} UpperStep(side: Side, init: seq<Action>, before: seq<Specifier>, base: set<Specifier>)
    requires side != Untouched
    requires Elems(before) == WithLower(LastLower(init), WithUpper(LastUpper(init), base))
    ensures WithUpper(side, Elems(before)) == WithLower(LastLower(init), WithUpper(side, base))
    ensures Elems(Kept(LowerHalf, before)) == KeptSet(LowerHalf, Elems(before))
  {
    KeptElems(LowerHalf, before);
    SidesCommute(side, LastLower(init), WithUpper(LastUpper(init), base));
    UpperOverUpper(LastUpper(init), side, base);
  }

  lemma {:induction false} LowerStep(side: Side, init: seq<Action>, before: seq<Specifier>, base: set<Specifier>)
    requires side != Untouched
    requires Elems(before) == WithLower(LastLower(init), WithUpper(LastUpper(init), base))
    ensures WithLower(side, Elems(before)) == WithLower(side, WithUpper(LastUpper(init), base))
    ensures Elems(Kept(UpperHalf, before)) == KeptSet(UpperHalf, Elems(before))
  {
    KeptElems(UpperHalf, before);
    LowerOverLower(LastLower(init), side, WithUpper(LastUpper(init), base));
  }

  lemma {:induction false} NormalIdempotent(dropped: bool, upper: Side, lower: Side, specs: set<Specifier>)
    ensures Normal(dropped, upper, lower, Normal(dropped, upper, lower, specs)) == Normal(dropped, upper, lower, specs)
  {
    if !dropped {
      var once := WithUpper(upper, specs);
      SidesCommute(upper, lower, once);
      if upper != Untouched {
        UpperOverUpper(upper, upper, specs);
      }
      if lower != Untouched {
        LowerOverLower(lower, lower, once);
      }
    }
  }

  /** Applying an override list twice gives the same set of specifiers as applying it once. */
  lemma {:induction false} ApplyIdempotent(actions: seq<Action>, specs: seq<Specifier>)
    ensures Elems(Apply(actions, Apply(actions, specs))) == Elems(Apply(actions, specs))
  {
    NormalForm(actions, specs);
    NormalForm(actions, Apply(actions, specs));
    NormalIdempotent(HasDrop(actions), LastUpper(actions), LastLower(actions), Elems(specs));
  }

  // ----- meaning: which versions are admitted -----

  predicate AllValid(specs: set<Specifier>) { forall s :: s in specs ==> ValidSpecifier(s) }

  predicate AdmitsAll(specs: set<Specifier>, c: Version)
    requires AllValid(specs)
  {
    forall s :: s in specs ==> Admits(s, c)
  }

  /** Removing bounds keeps specifiers valid and only widens what is admitted. */
  lemma {:induction false} RemovalWidens(specs: set<Specifier>, c: Version)
    requires AllValid(specs)
    ensures AllValid(KeptSet(LowerHalf, specs)) && AllValid(KeptSet(UpperHalf, specs))
    ensures AdmitsAll(specs, c) ==> AdmitsAll(KeptSet(LowerHalf, specs), c)
    ensures AdmitsAll(specs, c) ==> AdmitsAll(KeptSet(UpperHalf, specs), c)
  {
    assert forall s :: ValidSpecifier(s) && Admits(s, c) && LowerHalf(s).Some? ==> Admits(LowerHalf(s).value, c);
    assert forall s :: ValidSpecifier(s) && Admits(s, c) && UpperHalf(s).Some? ==> Admits(UpperHalf(s).value, c);
  }

  lemma {:induction false} NormalValid(dropped: bool, upper: Side, lower: Side, specs: set<Specifier>)
    requires AllValid(specs)
    ensures AllValid(Normal(dropped, upper, lower, specs))
  {
  }

  // ----- what is admitted after a removal, candidate by candidate -----

  /** The candidate meets every `!=`. */
  predicate MeetsExclusions(specs: set<Specifier>, c: Version)
    requires AllValid(specs)
  {
    forall s :: s in specs && s.op == Ne ==> Admits(s, c)
  }

  /** It meets every `>` and `>=`, and is at least the `V` of every `== V` and `~= V`. */
  predicate MeetsLower(specs: set<Specifier>, c: Version)
    requires AllValid(specs)
  {
    && (forall s :: s in specs && s.op in {Gt, Ge} ==> Admits(s, c))
    && (forall s :: s in specs && (s.op == Compatible || (s.op == Eq && !s.wildcard)) ==> AtLeast(c, s.version))
  }

  /** It meets every `<` and `<=`, and is at most the `V` of every `== V`. */
  predicate MeetsUpper(specs: set<Specifier>, c: Version)
    requires AllValid(specs)
  {
    && (forall s :: s in specs && s.op in {Lt, Le} ==> Admits(s, c))
    && (forall s :: s in specs && s.op == Eq && !s.wildcard ==> AtMost(c, s.version))
  }

  lemma {:induction false} LowerHalfMeaning(s: Specifier, c: Version)
    requires ValidSpecifier(s)
    ensures LowerHalf(s).Some? ==> ValidSpecifier(LowerHalf(s).value) && LowerHalf(s).value.op in {Ne, Gt, Ge}
    ensures s.op in {Ne, Gt, Ge} ==> LowerHalf(s) == Some(s)
    ensures LowerHalf(s).Some? && LowerHalf(s).value.op == Ne ==> LowerHalf(s) == Some(s)
    ensures LowerHalf(s).Some? && s.op !in {Ne, Gt, Ge} ==>
              (Admits(LowerHalf(s).value, c) <==> AtLeast(c, s.version))
    ensures LowerHalf(s).Some? <==> s.op in {Ne, Gt, Ge, Compatible} || (s.op == Eq && !s.wildcard)
  {
  }

  lemma {:induction false} UpperHalfMeaning(s: Specifier, c: Version)
    requires ValidSpecifier(s)
    ensures UpperHalf(s).Some? ==> ValidSpecifier(UpperHalf(s).value) && UpperHalf(s).value.op in {Ne, Lt, Le}
    ensures s.op in {Ne, Lt, Le} ==> UpperHalf(s) == Some(s)
    ensures UpperHalf(s).Some? && UpperHalf(s).value.op == Ne ==> UpperHalf(s) == Some(s)
    ensures UpperHalf(s).Some? && s.op !in {Ne, Lt, Le} ==>
              (Admits(UpperHalf(s).value, c) <==> AtMost(c, s.version))
    ensures UpperHalf(s).Some? <==> s.op in {Ne, Lt, Le} || (s.op == Eq && !s.wildcard)
  {
  }

  /** Without upper bounds, a version is admitted exactly when it meets the exclusions and the lower sides. */
  lemma {:induction false} WithoutUpperMeaning(specs: set<Specifier>, c: Version)
    requires AllValid(specs)
    ensures var kept := KeptSet(LowerHalf, specs);
            && AllValid(kept)
            && (AdmitsAll(kept, c) <==> MeetsExclusions(specs, c) && MeetsLower(specs, c))
            && (MeetsExclusions(kept, c) <==> MeetsExclusions(specs, c)) && MeetsUpper(kept, c)
  {
    var kept := KeptSet(LowerHalf, specs);
    forall s | s in specs
      ensures LowerHalf(s).Some? ==> LowerHalf(s).value in kept && ValidSpecifier(LowerHalf(s).value)
      ensures s.op in {Ne, Gt, Ge} ==> s in kept
      ensures s.op == Compatible || (s.op == Eq && !s.wildcard) ==>
                LowerHalf(s).Some? && (Admits(LowerHalf(s).value, c) <==> AtLeast(c, s.version))
    {
      LowerHalfMeaning(s, c);
    }
    forall k | k in kept
      ensures ValidSpecifier(k) && k.op in {Ne, Gt, Ge}
      ensures MeetsExclusions(specs, c) && MeetsLower(specs, c) ==> Admits(k, c)
      ensures k.op == Ne ==> k in specs
    {
      var s :| s in specs && LowerHalf(s) == Some(k);
      LowerHalfMeaning(s, c);
    }
  }

  /** Without lower bounds, when it meets the exclusions and the upper sides. */
  lemma {:induction false} WithoutLowerMeaning(specs: set<Specifier>, c: Version)
    requires AllValid(specs)
    ensures var kept := KeptSet(UpperHalf, specs);
            && AllValid(kept)
            && (AdmitsAll(kept, c) <==> MeetsExclusions(specs, c) && MeetsUpper(specs, c))
  {
    var kept := KeptSet(UpperHalf, specs);
    forall s | s in specs
      ensures UpperHalf(s).Some? ==> UpperHalf(s).value in kept && ValidSpecifier(UpperHalf(s).value)
      ensures s.op in {Ne, Lt, Le} ==> s in kept
      ensures s.op == Eq && !s.wildcard ==>
                UpperHalf(s).Some? && (Admits(UpperHalf(s).value, c) <==> AtMost(c, s.version))
    {
      UpperHalfMeaning(s, c);
    }
    forall k | k in kept
      ensures ValidSpecifier(k) && k.op in {Ne, Lt, Le}
      ensures MeetsExclusions(specs, c) && MeetsUpper(specs, c) ==> Admits(k, c)
    {
      var s :| s in specs && UpperHalf(s) == Some(k);
      UpperHalfMeaning(s, c);
    }
  }

  /** The part of the meaning that the last decision on one side adds. */
  predicate WithinUpper(side: Side, c: Version) {
    side.Replaced? ==> Admits(Specifier(Lt, side.bound, false), c)
  }

  predicate WithinLower(side: Side, c: Version) {
    side.Replaced? ==> AtLeast(c, side.bound)
  }

  /** What a list of overrides leaves admitted, told from the original specifiers and the last decisions. */
  predicate AdmittedAfter(dropped: bool, upper: Side, lower: Side, specs: set<Specifier>, c: Version)
    requires AllValid(specs)
  {
    && WithinUpper(upper, c) && WithinLower(lower, c)
    && (!dropped ==>
          && (upper == Untouched && lower == Untouched ==> AdmitsAll(specs, c))
          && (upper != Untouched || lower != Untouched ==> MeetsExclusions(specs, c))
          && (upper != Untouched && lower == Untouched ==> MeetsLower(specs, c))
          && (upper == Untouched && lower != Untouched ==> MeetsUpper(specs, c)))
  }

  lemma {:induction false} WithUpperMeaning(side: Side, specs: set<Specifier>, c: Version)
    requires AllValid(specs) && side != Untouched
    ensures var after := WithUpper(side, specs);
            && AllValid(after)
            && (AdmitsAll(after, c) <==> MeetsExclusions(specs, c) && MeetsLower(specs, c) && WithinUpper(side, c))
            && (MeetsExclusions(after, c) <==> MeetsExclusions(specs, c))
            && (MeetsUpper(after, c) <==> WithinUpper(side, c))
  {
    WithoutUpperMeaning(specs, c);
  }

  lemma {:induction false} WithLowerMeaning(side: Side, specs: set<Specifier>, c: Version)
    requires AllValid(specs) && side != Untouched
    ensures var after := WithLower(side, specs);
            && AllValid(after)
            && (AdmitsAll(after, c) <==> MeetsExclusions(specs, c) && MeetsUpper(specs, c) && WithinLower(side, c))
  {
    WithoutLowerMeaning(specs, c);
  }

  lemma {:induction false} NormalMeaning(dropped: bool, upper: Side, lower: Side, specs: set<Specifier>, c: Version)
    requires AllValid(specs)
    ensures var after := Normal(dropped, upper, lower, specs);
            AllValid(after) && (AdmitsAll(after, c) <==> AdmittedAfter(dropped, upper, lower, specs, c))
  {
    var base := if dropped then {} else specs;
    if upper != Untouched {
      WithUpperMeaning(upper, base, c);
    }
    if lower != Untouched {
      WithLowerMeaning(lower, WithUpper(upper, base), c);
    }
  }

  /**
   * What any list of overrides leaves admitted, candidate by candidate: the exclusions always count unless
   * everything was dropped; a side that was touched is given by its last decision, one that was not by the
   * original bounds, where `== V` and `~= V` only keep the half that is left.
   */
  lemma {:induction false} OverridesMeaning(actions: seq<Action>, specs: seq<Specifier>, c: Version)
    requires AllValid(Elems(specs))
    ensures var after := Elems(Apply(actions, specs));
            && AllValid(after)
            && (AdmitsAll(after, c) <==>
                AdmittedAfter(HasDrop(actions), LastUpper(actions), LastLower(actions), Elems(specs), c))
  {
    NormalForm(actions, specs);
    NormalMeaning(HasDrop(actions), LastUpper(actions), LastLower(actions), Elems(specs), c);
  }

  /** `drop_upper` and `drop_lower`, on the list as it is written. */
  lemma {:induction false} RemovalMeaning(specs: seq<Specifier>, c: Version)
    requires AllValid(Elems(specs))
    ensures AllValid(Elems(Apply([DropUpper], specs))) && AllValid(Elems(Apply([DropLower], specs)))
    ensures AdmitsAll(Elems(Apply([DropUpper], specs)), c) <==>
            && (forall s :: s in specs && s.op in {Ne, Gt, Ge} ==> Admits(s, c))
            && (forall s :: s in specs && s.op == Compatible ==> AtLeast(c, s.version))
            && (forall s :: s in specs && s.op == Eq && !s.wildcard ==> AtLeast(c, s.version))
    ensures AdmitsAll(Elems(Apply([DropLower], specs)), c) <==>
            && (forall s :: s in specs && s.op in {Ne, Lt, Le} ==> Admits(s, c))
            && (forall s :: s in specs && s.op == Eq && !s.wildcard ==> AtMost(c, s.version))
  {
    OverridesMeaning([DropUpper], specs, c);
    OverridesMeaning([DropLower], specs, c);
  }

  /** Exclusions survive every list of overrides that does not drop everything, and none is made up. */
  lemma {:induction false} ExclusionsSurvive(actions: seq<Action>, specs: seq<Specifier>, s: Specifier)
    requires s.op == Ne
    ensures s in Apply(actions, specs) <==> s in specs && !HasDrop(actions)
  {
    if actions != [] {
      var init, last := actions[..|actions| - 1], actions[|actions| - 1];
      assert actions == init + [last];
      ExclusionsSurvive(init, specs, s);
      ExclusionKept(Apply(init, specs), s);
    }
  }

  lemma {:induction false} ExclusionKept(specs: seq<Specifier>, s: Specifier)
    requires s.op == Ne
    ensures s in Kept(LowerHalf, specs) <==> s in specs
    ensures s in Kept(UpperHalf, specs) <==> s in specs
  {
    if specs != [] {
      var init, last := specs[..|specs| - 1], specs[|specs| - 1];
      assert specs == init + [last];
      ExclusionKept(init, s);
    }
  }

  /** `set_upper v` admits exactly what `drop_upper` admits and lies under `< v`; likewise for lower bounds. */
  lemma {:induction false} SettingABound(specs: seq<Specifier>, v: Version, c: Version)
    requires AllValid(Elems(specs))
    ensures AllValid(Elems(Apply([DropUpper], specs))) && AllValid(Elems(Apply([SetUpper(v)], specs)))
    ensures AllValid(Elems(Apply([DropLower], specs))) && AllValid(Elems(Apply([SetLower(v)], specs)))
    ensures AdmitsAll(Elems(Apply([SetUpper(v)], specs)), c) <==>
            AdmitsAll(Elems(Apply([DropUpper], specs)), c) && Admits(BelowSpec(v), c)
    ensures AdmitsAll(Elems(Apply([SetLower(v)], specs)), c) <==>
            AdmitsAll(Elems(Apply([DropLower], specs)), c) && Admits(AtLeastSpec(v), c)
  {
    RemovalWidens(Elems(specs), c);
    NormalForm([DropUpper], specs);
    NormalForm([SetUpper(v)], specs);
    NormalForm([DropLower], specs);
    NormalForm([SetLower(v)], specs);
  }

  /** The two halves of `== V` and of `~= V` are exactly as strong as the whole. */
  lemma {:induction false} HalvesOfPinnedSpecifiers(s: Specifier, c: Version)
    requires ValidSpecifier(s) && !s.wildcard && s.op in {Eq, Compatible}
    ensures LowerHalf(s).Some? && ValidSpecifier(LowerHalf(s).value)
    ensures s.op == Eq ==> UpperHalf(s).Some? && ValidSpecifier(UpperHalf(s).value)
    ensures s.op == Eq ==> (Admits(s, c) <==> Admits(LowerHalf(s).value, c) && Admits(UpperHalf(s).value, c))
    ensures s.op == Compatible ==>
              (Admits(s, c) <==>
                (Admits(LowerHalf(s).value, c)
                 && PrefixMatch(s.version.epoch, s.version.release[..|s.version.release| - 1], c)))
  {
  }

  function Bounds(specs: set<Specifier>): set<Specifier> { set s | s in specs && s.op != Ne }

  ghost predicate UpwardClosed(specs: set<Specifier>)
    requires AllValid(specs)
  {
    forall c: Version, d: Version :: AdmitsAll(specs, c) && AtMost(c, d) ==> AdmitsAll(specs, d)
  }

  ghost predicate DownwardClosed(specs: set<Specifier>)
    requires AllValid(specs)
  {
    forall c: Version, d: Version :: AdmitsAll(specs, c) && AtMost(d, c) ==> AdmitsAll(specs, d)
  }

  /** Comparable versions around a common base share that base. */
  lemma {:induction false} Sandwich(u: Version, c: Version, w: Version)
    requires AtMost(u, c) && AtMost(c, w) && SameBase(u, w)
    ensures SameBase(u, c) && SameBase(c, w)
  {
    var x, y, z := StripZeros(u.release), StripZeros(c.release), StripZeros(w.release);
    CmpSeqTransitive(x, y, z);
  }

  lemma {:induction false} NonPostNotAboveFinal(c: Version, f: Version)
    requires !IsPostrelease(c) && IsFinal(f) && SameBase(c, f)
    ensures AtMost(c, f)
  {
    RpmSpelling.KeyOrder(c, f);
  }

  lemma {:induction false} NonPreNotBelowFinal(c: Version, f: Version)
    requires !IsPrerelease(c) && IsFinal(f) && SameBase(c, f)
    ensures AtLeast(c, f)
  {
    RpmSpelling.KeyOrder(c, f);
  }

  lemma {:induction false} SameBaseAsBase(v: Version, c: Version)
    ensures SameBase(v, Base(v))
    ensures SameBase(v, c) ==> SameBase(c, v) && SameBase(c, Base(v))
  {
    CmpSeqEqual(StripZeros(v.release), StripZeros(v.release));
    CmpSeqFlip(StripZeros(v.release), StripZeros(c.release));
  }

  /** A `>` bound whose post-releases are excluded although its final release is admitted. */
  ghost predicate UpperGap(specs: set<Specifier>, s: Specifier)
    requires AllValid(specs)
  {
    s in specs && s.op == Gt && IsPrerelease(s.version) && !IsPostrelease(s.version) && AdmitsAll(specs, Base(s.version))
  }

  /** A `<` bound whose pre-releases are excluded although its final release is admitted. */
  ghost predicate LowerGap(specs: set<Specifier>, s: Specifier)
    requires AllValid(specs)
  {
    s in specs && s.op == Lt && IsPostrelease(s.version) && !IsPrerelease(s.version) && AdmitsAll(specs, Base(s.version))
  }

  /** Without a gap, going up from an admitted version never leaves one lower bound. */
  lemma {:induction false} UpStep(specs: set<Specifier>, s: Specifier, c: Version, d: Version)
    requires AllValid(specs) && (forall t :: t in specs ==> t.op in {Gt, Ge})
    requires s in specs && AdmitsAll(specs, c) && AtMost(c, d)
    ensures Admits(s, d) || UpperGap(specs, s)
  {
    var v := s.version;
    CmpVersionFlip(v, c);
    CmpVersionFlip(v, d);
    CmpVersionTransitive(v, c, d);
    if !Admits(s, d) {
      assert s.op == Gt && !IsPostrelease(v) && IsPostrelease(d) && SameBase(d, v);
      SameBaseAsBase(d, v);
      Sandwich(v, c, d);
      SameBaseAsBase(v, c);
      var f := Base(v);
      NonPostNotAboveFinal(c, f);
      if IsFinal(v) {
        NonPostNotAboveFinal(c, v);
        assert false;
      }
      forall t | t in specs
        ensures Admits(t, f)
      {
        var w := t.version;
        CmpVersionFlip(w, c);
        CmpVersionFlip(w, f);
        CmpVersionTransitive(w, c, f);
      }
    }
  }

  lemma {:induction false} DownStep(specs: set<Specifier>, s: Specifier, c: Version, d: Version)
    requires AllValid(specs) && (forall t :: t in specs ==> t.op in {Lt, Le})
    requires s in specs && AdmitsAll(specs, c) && AtMost(d, c)
    ensures Admits(s, d) || LowerGap(specs, s)
  {
    var v := s.version;
    CmpVersionTransitive(d, c, v);
    if !Admits(s, d) {
      assert s.op == Lt && !IsPrerelease(v) && IsPrerelease(d) && SameBase(d, v);
      Sandwich(d, c, v);
      SameBaseAsBase(c, v);
      SameBaseAsBase(v, c);
      var f := Base(v);
      NonPreNotBelowFinal(c, f);
      CmpVersionFlip(c, f);
      if IsFinal(v) {
        NonPreNotBelowFinal(c, v);
        assert false;
      }
      forall t | t in specs
        ensures Admits(t, f)
      {
        CmpVersionTransitive(f, c, t.version);
      }
    }
  }

  /**
   * After removing the upper bounds, the remaining bounds admit an upward closed set exactly when no
   * `> V` with a pre-release `V` leaves `V`'s own final release admitted: such a bound admits the final
   * release but none of its post-releases.
   */
  lemma {:induction false} UpwardClosedExactly(all: set<Specifier>)
    requires AllValid(all)
    ensures var specs := Bounds(KeptSet(LowerHalf, all));
            AllValid(specs) && (UpwardClosed(specs) <==> !exists s :: UpperGap(specs, s))
  {
    var specs := Bounds(KeptSet(LowerHalf, all));
    assert forall t :: t in specs ==> t.op in {Gt, Ge};
    assert AllValid(specs);
    if s :| UpperGap(specs, s) {
      var c := Base(s.version);
      var d: Version := c.(post := Some(0));
      RpmSpelling.KeyOrder(c, d);
      RpmSpelling.KeyOrder(d, s.version);
      SameBaseAsBase(s.version, s.version);
      CmpSeqEqual(StripZeros(c.release), StripZeros(c.release));
      assert AtMost(c, d) && !Admits(s, d);
    } else {
      forall c: Version, d: Version, s | AdmitsAll(specs, c) && AtMost(c, d) && s in specs
        ensures Admits(s, d)
      {
        UpStep(specs, s, c, d);
      }
    }
  }

  /** The mirror statement for removed lower bounds, with `< V` and a post-release `V`. */
  lemma {:induction false} DownwardClosedExactly(all: set<Specifier>)
    requires AllValid(all)
    ensures var specs := Bounds(KeptSet(UpperHalf, all));
            AllValid(specs) && (DownwardClosed(specs) <==> !exists s :: LowerGap(specs, s))
  {
    var specs := Bounds(KeptSet(UpperHalf, all));
    assert forall t :: t in specs ==> t.op in {Lt, Le};
    assert AllValid(specs);
    if s :| LowerGap(specs, s) {
      var c := Base(s.version);
      var d: Version := c.(dev := Some(0));
      RpmSpelling.KeyOrder(d, c);
      RpmSpelling.KeyOrder(d, s.version);
      SameBaseAsBase(s.version, s.version);
      CmpSeqEqual(StripZeros(c.release), StripZeros(c.release));
      assert AtMost(d, c) && !Admits(s, d);
    } else {
      forall c: Version, d: Version, s | AdmitsAll(specs, c) && AtMost(d, c) && s in specs
        ensures Admits(s, d)
      {
        DownStep(specs, s, c, d);
      }
    }
  }

  lemma {:induction false} AloneAmongBounds(s: Specifier)
    requires s.op in {Gt, Ge, Lt, Le}
    ensures s.op in {Gt, Ge} ==> Bounds(KeptSet(LowerHalf, {s})) == {s}
    ensures s.op in {Lt, Le} ==> Bounds(KeptSet(UpperHalf, {s})) == {s}
  {
    if s.op in {Gt, Ge} {
      assert LowerHalf(s) == Some(s);
      assert KeptSet(LowerHalf, {s}) == {s};
    } else {
      assert UpperHalf(s) == Some(s);
      assert KeptSet(UpperHalf, {s}) == {s};
    }
  }

  /** A strict bound with a suffix on its own side admits its own final release. */
  lemma {:induction false} StrictBoundAdmitsFinal(s: Specifier)
    requires !s.wildcard
    requires || (s.op == Gt && IsPrerelease(s.version) && !IsPostrelease(s.version))
             || (s.op == Lt && IsPostrelease(s.version) && !IsPrerelease(s.version))
    ensures AllValid({s}) && AdmitsAll({s}, Base(s.version))
  {
    var v := s.version;
    CmpSeqEqual(StripZeros(v.release), StripZeros(v.release));
    RpmSpelling.KeyOrder(Base(v), v);
    assert Admits(s, Base(v));
  }

  /** Every `> V` with a pre-release `V` is a gap on its own: `> 1.0a1` admits `1.0` but not `1.0.post0`. */
  lemma {:induction false} PrereleaseBoundIsAGap(v: Version)
    requires IsPrerelease(v) && !IsPostrelease(v)
    ensures var s := Specifier(Gt, v, false);
            var specs := Bounds(KeptSet(LowerHalf, {s}));
            AllValid({s}) && AllValid(specs) && UpperGap(specs, s) && !UpwardClosed(specs)
  {
    var s := Specifier(Gt, v, false);
    AloneAmongBounds(s);
    StrictBoundAdmitsFinal(s);
    assert UpperGap({s}, s);
    UpwardClosedExactly({s});
  }

  /** Every `< V` with a post-release `V` is one as well: `< 1.0.post1` admits `1.0` but not `1.0.dev0`. */
  lemma {:induction false} PostreleaseBoundIsAGap(v: Version)
    requires IsPostrelease(v) && !IsPrerelease(v)
    ensures var s := Specifier(Lt, v, false);
            var specs := Bounds(KeptSet(UpperHalf, {s}));
            AllValid({s}) && AllValid(specs) && LowerGap(specs, s) && !DownwardClosed(specs)
  {
    var s := Specifier(Lt, v, false);
    AloneAmongBounds(s);
    StrictBoundAdmitsFinal(s);
    assert LowerGap({s}, s);
    DownwardClosedExactly({s});
  }
}

/** Rewriting the `Requires-Dist` lines of an installed METADATA file. */
module PatchMetadata {
  import opened Wrappers
  import opened Pep440
  import opened Overrides
  import Names

  /** A requirement: name, constraints, and the extras, marker or URL that overrides leave alone. */
  datatype Requirement = Requirement(name: string, specs: set<Specifier>, rest: string)

  /**
   * A line of the file. `Dist` is a `Requires-Dist` line that parses; `printed` says its text is the
   * one printing the requirement would produce. Any other line is only text.
   */
  datatype Line = Text(text: string) | Dist(req: Requirement, printed: bool)

  type OverrideTable = map<string, seq<Action>>

  function Rewrite(actions: seq<Action>, req: Requirement): Requirement {
    req.(specs := Normal(HasDrop(actions), LastUpper(actions), LastLower(actions), req.specs))
  }

  predicate Targeted(table: OverrideTable, line: Line) { line.Dist? && Names.Canonical(line.req.name) in table }

  function PatchLine(table: OverrideTable, line: Line): seq<Line> {
    if line.Text? || Names.Canonical(line.req.name) !in table then [line]
    else
      var actions := table[Names.Canonical(line.req.name)];
      if Ignore in actions then [] else [Dist(Rewrite(actions, line.req), true)]
  }

  function Patched(table: OverrideTable, lines: seq<Line>): seq<Line> {
    if lines == [] then []
    else Patched(table, lines[..|lines| - 1]) + PatchLine(table, lines[|lines| - 1])
  }

  /** The requirement with its overrides applied, or nothing when one of them is to ignore it. */
  method OverrideRequirement(req: Requirement, actions: seq<Action>) returns (result: Option<Requirement>)
    ensures result == if Ignore in actions then None else Some(Rewrite(actions, req))
  {
    if Ignore in actions {
      return None;
    }
    var list := Enumerate(req.specs);
    var specs := ApplyOverrides(list, actions);
    return Some(req.(specs := Elems(specs)));
  }

  /** The contents of the file after the call, and whether it was written: it is exactly when some line changed. */
  method Patch(lines: seq<Line>, table: OverrideTable) returns (file: seq<Line>, written: bool)
    ensures file == Patched(table, lines)
    ensures written <==> file != lines
  {
    if table == map[] {
      NoOverrides(table, lines);
      return lines, false;
    }
    var newLines := [];
    var patched := false;
    for i := 0 to |lines|
      invariant PatchedUpTo(table, lines[..i], newLines, patched)
    {
      var line := lines[i];
      PatchedStep(table, lines, i, newLines, patched);
      if line.Dist? && Names.Canonical(line.req.name) in table {
        var result := OverrideRequirement(line.req, table[Names.Canonical(line.req.name)]);
        if result.None? {
          patched := true;
        } else {
          var newLine := Dist(result.value, true);
          if newLine != line {
            patched := true;
          }
          newLines := newLines + [newLine];
        }
      } else {
        newLines := newLines + [line];
      }
    }
    assert lines[..|lines|] == lines;
    file := if patched then newLines else lines;
    written := patched;
  }

  /** The loop of `Patch` over the lines read so far: a removed line is never made up for, so the flag tells. */
  predicate PatchedUpTo(table: OverrideTable, read: seq<Line>, newLines: seq<Line>, patched: bool) {
    newLines == Patched(table, read) && |newLines| <= |read| && (patched <==> newLines != read)
  }

  /** One line of the loop: removed, rewritten or kept. */
  lemma {:induction false} PatchedStep(table: OverrideTable, lines: seq<Line>, i: nat, newLines: seq<Line>, patched: bool)
    requires i < |lines| && PatchedUpTo(table, lines[..i], newLines, patched)
    ensures !Targeted(table, lines[i]) ==> PatchedUpTo(table, lines[..i + 1], newLines + [lines[i]], patched)
    ensures Targeted(table, lines[i]) ==>
              var req, read := lines[i].req, lines[..i + 1];
              var actions := table[Names.Canonical(req.name)];
              var line := Dist(Rewrite(actions, req), true);
              if Ignore in actions then PatchedUpTo(table, read, newLines, true)
              else PatchedUpTo(table, read, newLines + [line], patched || line != lines[i])
  {
    var line := lines[i];
    assert lines[..i + 1] == lines[..i] + [line];
    if PatchLine(table, line) == [] {
      PatchedAway(table, lines[..i], newLines, patched, line);
    } else {
      PatchedInto(table, lines[..i], newLines, patched, line, PatchLine(table, line)[0]);
    }
  }

  lemma {:induction false} PatchedAway(table: OverrideTable, read: seq<Line>, newLines: seq<Line>, patched: bool, line: Line)
    requires PatchedUpTo(table, read, newLines, patched) && PatchLine(table, line) == []
    ensures PatchedUpTo(table, read + [line], newLines, true)
  {
    PatchedMore(table, read, line);
    assert newLines + [] == newLines;
  }

  lemma {:induction false} PatchedInto(
    table: OverrideTable, read: seq<Line>, newLines: seq<Line>, patched: bool, line: Line, out: Line)
    requires PatchedUpTo(table, read, newLines, patched) && PatchLine(table, line) == [out]
    ensures PatchedUpTo(table, read + [line], newLines + [out], patched || out != line)
  {
    PatchedMore(table, read, line);
    AppendsDiffer(newLines, out, read, line);
  }

  lemma {:induction false} AppendsDiffer(a: seq<Line>, x: Line, b: seq<Line>, y: Line)
    ensures a + [x] == b + [y] <==> a == b && x == y
  {
    if a + [x] == b + [y] {
      assert (a + [x])[..|a|] == a && (b + [y])[..|b|] == b;
      assert (a + [x])[|a|] == x && (b + [y])[|b|] == y;
    }
  }

  /** The line passes through unchanged. */
  predicate Stable(table: OverrideTable, line: Line) {
    PatchLine(table, line) == [line]
  }

  lemma {:induction false} PatchedMore(table: OverrideTable, lines: seq<Line>, last: Line)
    ensures Patched(table, lines + [last]) == Patched(table, lines) + PatchLine(table, last)
  {
    assert (lines + [last])[..|lines|] == lines;
  }

  lemma {:induction false} Unmatched(table: OverrideTable, lines: seq<Line>)
    requires forall l :: l in lines ==> Stable(table, l)
    ensures Patched(table, lines) == lines
  {
    if lines != [] {
      var init, last := lines[..|lines| - 1], lines[|lines| - 1];
      assert lines == init + [last];
      Unmatched(table, init);
      PatchedMore(table, init, last);
      assert Stable(table, last);
    }
  }

  lemma {:induction false} NoOverrides(table: OverrideTable, lines: seq<Line>)
    requires table == map[]
    ensures Patched(table, lines) == lines
  {
    Unmatched(table, lines);
  }

  lemma {:induction false} PatchLineIdempotent(table: OverrideTable, line: Line, l: Line)
    requires l in PatchLine(table, line)
    ensures Stable(table, l)
  {
    if line.Dist? && Names.Canonical(line.req.name) in table {
      var actions := table[Names.Canonical(line.req.name)];
      NormalIdempotent(HasDrop(actions), LastUpper(actions), LastLower(actions), line.req.specs);
    }
  }

  lemma {:induction false} PatchedLinesAreFixed(table: OverrideTable, lines: seq<Line>)
    ensures forall l :: l in Patched(table, lines) ==> Stable(table, l)
  {
    if lines != [] {
      PatchedLinesAreFixed(table, lines[..|lines| - 1]);
      forall l | l in PatchLine(table, lines[|lines| - 1])
        ensures Stable(table, l)
      {
        PatchLineIdempotent(table, lines[|lines| - 1], l);
      }
    }
  }

  /** The lines that no `ignore` takes out. */
  function NotIgnored(table: OverrideTable, lines: seq<Line>): seq<Line> {
    if lines == [] then []
    else
      var last := lines[|lines| - 1];
      NotIgnored(table, lines[..|lines| - 1])
      + if Targeted(table, last) && Ignore in table[Names.Canonical(last.req.name)] then [] else [last]
  }

  /** A rewritten line keeps its name, extras and marker, and its specifiers are what the overrides make of them. */
  ghost predicate IsRewritten(table: OverrideTable, line: Line, after: Line) {
    if !Targeted(table, line) then after == line
    else
      && after.Dist? && after.printed && after.req.name == line.req.name && after.req.rest == line.req.rest
      && forall list: seq<Specifier> :: Elems(list) == line.req.specs ==>
           after.req.specs == Elems(Apply(table[Names.Canonical(line.req.name)], list))
  }

  lemma {:induction false} PatchedLineIsRewritten(table: OverrideTable, line: Line)
    ensures var out := PatchLine(table, line);
            if Targeted(table, line) && Ignore in table[Names.Canonical(line.req.name)] then out == []
            else |out| == 1 && IsRewritten(table, line, out[0])
  {
    if Targeted(table, line) {
      var actions := table[Names.Canonical(line.req.name)];
      forall list: seq<Specifier> | Elems(list) == line.req.specs
        ensures Normal(HasDrop(actions), LastUpper(actions), LastLower(actions), line.req.specs)
                == Elems(Apply(actions, list))
      {
        NormalForm(actions, list);
      }
    }
  }

  /** Patching takes out exactly the ignored lines and rewrites the targeted ones, line by line and in order. */
  lemma {:induction false} PatchRewritesLineByLine(table: OverrideTable, lines: seq<Line>)
    ensures var kept, after := NotIgnored(table, lines), Patched(table, lines);
            |after| == |kept| && forall i :: 0 <= i < |kept| ==> IsRewritten(table, kept[i], after[i])
  {
    if lines != [] {
      PatchRewritesLineByLine(table, lines[..|lines| - 1]);
      PatchedLineIsRewritten(table, lines[|lines| - 1]);
    }
  }

  /** Patching an already patched file changes nothing. */
  lemma {:induction false} PatchIdempotent(table: OverrideTable, lines: seq<Line>)
    ensures Patched(table, Patched(table, lines)) == Patched(table, lines)
  {
    PatchedLinesAreFixed(table, lines);
    Unmatched(table, Patched(table, lines));
  }

  /** The lines that no override is about. */
  function Untargeted(table: OverrideTable, lines: seq<Line>): seq<Line> {
    if lines == [] then []
    else
      Untargeted(table, lines[..|lines| - 1])
      + if Targeted(table, lines[|lines| - 1]) then [] else [lines[|lines| - 1]]
  }

  lemma {:induction false} UntargetedMore(table: OverrideTable, lines: seq<Line>, l: Line)
    ensures Untargeted(table, lines + [l]) == Untargeted(table, lines) + if Targeted(table, l) then [] else [l]
  {
    assert (lines + [l])[..|lines|] == lines;
  }

  /** Patching keeps every line that no override is about, in order, and turns no other line into one. */
  lemma {:induction false} PatchKeepsTheRest(table: OverrideTable, lines: seq<Line>)
    ensures Untargeted(table, Patched(table, lines)) == Untargeted(table, lines)
  {
    if lines != [] {
      var init, last := lines[..|lines| - 1], lines[|lines| - 1];
      PatchKeepsTheRest(table, init);
      var out := PatchLine(table, last);
      if out == [] {
        assert Patched(table, init) + [] == Patched(table, init);
      } else {
        assert out == [out[0]];
        UntargetedMore(table, Patched(table, init), out[0]);
      }
    }
  }
}
