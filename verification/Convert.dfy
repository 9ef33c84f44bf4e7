/** PEP 440 specifiers compiled to RPM rich dependencies, and when the meaning survives. */
module Convert {
  import opened Wrappers
  import opened Ordering
  import opened Pep440
  import opened RpmVersions
  import opened RpmSpelling

  datatype RpmOp = Below | NotAbove | Same | NotBelow | Above

  /** `name op bound`, `(a with b)`, `(a or b)`, or the text `Invalid version`. */
  datatype RichDep<B> =
    | Clause(name: string, op: RpmOp, bound: B)
    | With(left: RichDep<B>, right: RichDep<B>)
    | Or(left: RichDep<B>, right: RichDep<B>)
    | InvalidVersion

  /** The three forms of version text the converter writes: `V`, `V~~` and `V.0`. */
  datatype Bound = At(v: Version) | BeforeAll(v: Version) | AfterPosts(v: Version)

  function BoundText(b: Bound): string {
    match b
    case At(v) => RpmText(v)
    case BeforeAll(v) => RpmText(v) + "~~"
    case AfterPosts(v) => RpmText(v) + ".0"
  }

  function Print(dep: RichDep<Bound>): RichDep<string> {
    match dep
    case Clause(name, op, bound) => Clause(name, op, BoundText(bound))
    case With(l, r) => With(Print(l), Print(r))
    case Or(l, r) => Or(Print(l), Print(r))
    case InvalidVersion => InvalidVersion
  }

  predicate OpHolds(op: RpmOp, o: Order) {
    match op
    case Below => o == Less
    case NotAbove => o != Greater
    case Same => o == Equal
    case NotBelow => o != Less
    case Above => o == Greater
  }

  /** Whether one package providing `name = evr` satisfies the dependency. */
  predicate SatisfiedBy(dep: RichDep<string>, name: string, evr: string) {
    match dep
    case Clause(n, op, bound) => n == name && OpHolds(op, CmpEvr(evr, bound))
    case With(l, r) => SatisfiedBy(l, name, evr) && SatisfiedBy(r, name, evr)
    case Or(l, r) => SatisfiedBy(l, name, evr) || SatisfiedBy(r, name, evr)
    case InvalidVersion => false
  }

  /** No suffix is printed: the tests for absent `pre`, `dev` and `post` treat zero as absent. */
  predicate Bare(v: Version) {
    v.pre.None? && (v.dev.None? || v.dev.value == 0) && (v.post.None? || v.post.value == 0)
  }

  /** The upper bound of `~= v`: last segment popped, the next one incremented, suffixes dropped. */
  function UpperVersion(v: Version): Version
    requires |v.release| > 1
  {
    RawVersion.Version(v.epoch, NextPrefix(v.release[..|v.release| - 1]), None, None, None)
  }

  function NextVersion(v: Version): Version {
    RawVersion.Version(v.epoch, NextPrefix(v.release), None, None, None)
  }

  function CompatibleDep(name: string, v: Version, wildcard: bool): RichDep<Bound> {
    if wildcard || |v.release| == 1 then InvalidVersion
    else With(Clause(name, NotBelow, At(v)), Clause(name, Below, At(UpperVersion(v))))
  }

  function OrderedDep(name: string, op: Op, v: Version, wildcard: bool): RichDep<Bound>
    requires op in {Le, Ge, Lt, Gt}
  {
    var strict := op == Lt || (wildcard && op == Le);
    var above := op == Gt && !wildcard;
    if strict then Clause(name, Below, if Bare(v) then BeforeAll(v) else At(v))
    else if above then Clause(name, Above, if Bare(v) then AfterPosts(v) else At(v))
    else Clause(name, if op == Le then NotAbove else NotBelow, At(v))
  }

  function ConvertDep(name: string, s: Specifier): RichDep<Bound> {
    var v := s.version;
    match s.op
    case Compatible => CompatibleDep(name, v, s.wildcard)
    case Eq =>
      if s.wildcard then CompatibleDep(name, v.(release := v.release + [0]), false)
      else Clause(name, Same, At(v))
    case ArbitraryEq => if s.wildcard then InvalidVersion else Clause(name, Same, At(v))
    case Ne =>
      if s.wildcard then
        Or(Clause(name, Below, BeforeAll(v)), Clause(name, NotBelow, At(NextVersion(v))))
      else Or(Clause(name, Below, At(v)), Clause(name, Above, At(v)))
    case Le => OrderedDep(name, Le, v, s.wildcard)
    case Ge => OrderedDep(name, Ge, v, s.wildcard)
    case Lt => OrderedDep(name, Lt, v, s.wildcard)
    case Gt => OrderedDep(name, Gt, v, s.wildcard)
  }

  // ----- the converters themselves, over mutable RpmVersion objects -----

  method ConvertCompatible(name: string, v: Version, wildcard: bool) returns (dep: RichDep<string>)
    ensures dep == Print(CompatibleDep(name, v, wildcard))
  {
    if wildcard {
      return InvalidVersion;
    }
    var version := new RpmVersion(v);
    if |version.version| == 1 {
      return InvalidVersion;
    }
    var upper := new RpmVersion(v);
    upper.Pop();
    upper.Increment();
    var low := version.ToString();
    var high := upper.ToString();
    dep := With(Clause(name, NotBelow, low), Clause(name, Below, high));
  }

  method ConvertEqual(name: string, v: Version, wildcard: bool) returns (dep: RichDep<string>)
    ensures dep == Print(ConvertDep(name, Specifier(Eq, v, wildcard)))
  {
    if wildcard {
      dep := ConvertCompatible(name, v.(release := v.release + [0]), false);
      return;
    }
    var version := new RpmVersion(v);
    var text := version.ToString();
    dep := Clause(name, Same, text);
  }

  method ConvertNotEqual(name: string, v: Version, wildcard: bool) returns (dep: RichDep<string>)
    ensures dep == Print(ConvertDep(name, Specifier(Ne, v, wildcard)))
  {
    var version := new RpmVersion(v);
    if wildcard {
      var next := new RpmVersion(v);
      next.Increment();
      var low := version.ToString();
      var high := next.ToString();
      dep := Or(Clause(name, Below, low + "~~"), Clause(name, NotBelow, high));
    } else {
      // the same object is printed twice; its second printing starts from the stripped release
      var low := version.ToString();
      var high := version.ToString();
      PrintedTwice(v.release);
      dep := Or(Clause(name, Below, low), Clause(name, Above, high));
    }
  }

  method ConvertOrdered(name: string, op: Op, v: Version, wildcard: bool) returns (dep: RichDep<string>)
    requires op in {Le, Ge, Lt, Gt}
    ensures dep == Print(OrderedDep(name, op, v, wildcard))
  {
    var operator := op;
    var version := new RpmVersion(v);
    if wildcard {
      if operator == Gt {
        operator := Ge;
      }
      if operator == Le {
        operator := Lt;
      }
    }
    var plain := version.pre.None? && (version.dev.None? || version.dev.value == 0)
                 && (version.post.None? || version.post.value == 0);
    var text := version.ToString();
    if operator == Lt && plain {
      text := text + "~~";
    }
    if operator == Gt && plain {
      text := text + ".0";
    }
    var printed := match operator { case Lt => Below case Le => NotAbove case Ge => NotBelow case _ => Above };
    dep := Clause(name, printed, text);
  }

  lemma {:induction false} PrintedTwice(release: seq<nat>)
    ensures PrintedRelease(PrintedRelease(release)) == PrintedRelease(release)
  {
    StripEndsNonzero(release);
    PrintedFixed(PrintedRelease(release));
  }

  // ----- meaning -----

  function CmpBase(v: Version, w: Version): Order {
    CmpInt(v.epoch, w.epoch).Then(CmpRelease(v.release, w.release))
  }

  /** Where a candidate sits relative to a final release of the same base. */
  lemma {:induction false} SuffixAgainstFinal(c: Version, w: Version)
    requires Representable(c) && IsFinal(w)
    ensures CmpSeq(SuffixKey(c), SuffixKey(w)) ==
            if IsPrerelease(c) then Less else if IsPostrelease(c) then Greater else Equal
  {
    KeyOrder(c, w);
  }

  lemma {:induction false} PrefixMatchIsInterval(epoch: nat, prefix: seq<nat>, c: Version, low: Version, high: Version)
    requires prefix != []
    requires low.epoch == high.epoch == epoch
    requires CmpRelease(low.release, prefix) == Equal && high.release == NextPrefix(prefix)
    ensures PrefixMatch(epoch, prefix, c) <==> CmpBase(c, low) != Less && CmpBase(c, high) == Less
  {
    PrefixIsInterval(c.release, prefix);
    CmpSeqEqual(StripZeros(low.release), StripZeros(prefix));
  }

  lemma {:induction false} NotBeforeTildes(c: Version)
    requires Representable(c)
    ensures CmpTokens(SuffixTokens(c), [Tilde, Tilde]) == Greater
  {
    var s, t := SuffixTokens(c), [Tilde, Tilde];
    if Starts(s, Tilde) {
      assert t[1..] == [Tilde];
      if Starts(s[1..], Tilde) {
        assert t[1..][1..] == [];
        assert s[1..][1..] == [Word("dev"), Num(c.dev.value)];
        assert CmpTokens(s[1..][1..], []) == Greater;
      }
    }
  }

  lemma {:induction false} TildeTokens()
    ensures Tokens("~~") == [Tilde, Tilde]
  {
    assert "~~"[1..] == "~" && "~"[1..] == "";
  }

  /** `V~~` looks at the release only: no suffix of V itself gets below it. */
  lemma {:induction false} AgainstTildes(c: Version, v: Version)
    requires Representable(c) && Bare(v)
    ensures CmpEvr(RpmText(c), RpmText(v) + "~~") == if CmpBase(c, v) == Less then Less else Greater
  {
    var s, t := SuffixTokens(c), [Tilde, Tilde];
    ReadPlain(c);
    TildeTokens();
    ReadBare(v, "~~");
    CmpReleaseThenSuffix(PrintedRelease(c.release), PrintedRelease(v.release), s, t);
    CmpPrinted(c.release, v.release);
    NotBeforeTildes(c);
  }

  lemma {:induction false} ReadPlain(c: Version)
    ensures Epoch(RpmText(c)) == c.epoch
    ensures Tokens(WithoutEpoch(RpmText(c))) == Nums(PrintedRelease(c.release)) + SuffixTokens(c)
  {
    ReadRpmText(c, "");
    assert RpmText(c) + "" == RpmText(c);
    assert SuffixTokens(c) + Tokens("") == SuffixTokens(c);
  }

  lemma {:induction false} ReadBare(v: Version, extra: string)
    requires Bare(v) && extra != "" && !Decimal.IsDigit(extra[0]) && extra[0] != ':'
    ensures Epoch(RpmText(v) + extra) == v.epoch
    ensures Tokens(WithoutEpoch(RpmText(v) + extra)) == Nums(PrintedRelease(v.release)) + Tokens(extra)
  {
    ReadRpmText(v, extra);
    assert SuffixTokens(v) + Tokens(extra) == Tokens(extra);
  }

  /** A sequence with a nonzero end is above the single zero, the empty one is below it. */
  lemma {:induction false} AboveZero(t: seq<nat>)
    requires t == [] || t[|t| - 1] != 0
    ensures CmpSeq(t, [0]) == if t == [] then Less else Greater
    ensures CmpSeq(t, []) == if t == [] then Equal else Greater
  {
    assert [0][1..] == [];
    if t != [] {
      assert CmpSeq(t, [0]) == CmpInt(t[0], 0).Then(CmpSeq(t[1..], []));
      assert |t| > 1 ==> CmpSeq(t[1..], []) == Greater;
    }
  }

  lemma {:induction false} CmpWithZero(p: seq<nat>, q: seq<nat>)
    requires p == [] || |p| == 1 || p[|p| - 1] != 0
    requires q != []
    ensures CmpSeq(p, q + [0]) == if CmpSeq(p, q) == Greater then Greater else Less
  {
    if p == [] {
    } else {
      assert (q + [0])[1..] == q[1..] + [0];
      if |q| == 1 {
        assert q[1..] + [0] == [0];
        AboveZero(p[1..]);
      } else if |p| > 1 {
        CmpWithZero(p[1..], q[1..]);
      }
    }
  }

  lemma {:induction false} ZeroTokens()
    ensures Tokens(".0") == [Num(0)]
  {
    assert ".0" == "." + "0";
    SeparatorSkipped("0");
    assert Decimal.NatToString(0) + "" == "0";
    NumeralToken(0, "");
  }

  lemma {:induction false} ReadWithZero(v: Version)
    requires Bare(v)
    ensures Epoch(RpmText(v) + ".0") == v.epoch
    ensures Tokens(WithoutEpoch(RpmText(v) + ".0")) == Nums(PrintedRelease(v.release) + [0])
  {
    ZeroTokens();
    ReadBare(v, ".0");
    NumsAppend(PrintedRelease(v.release), 0);
  }

  lemma {:induction false} ReleaseAgainstZero(r: seq<nat>, q: seq<nat>, s: seq<Token>)
    requires SuffixLike(s)
    ensures CmpTokens(Nums(PrintedRelease(r)) + s, Nums(PrintedRelease(q) + [0]))
         == if CmpRelease(r, q) == Greater then Greater else Less
  {
    var nums := Nums(PrintedRelease(q) + [0]);
    assert nums + [] == nums;
    CmpReleaseThenSuffix(PrintedRelease(r), PrintedRelease(q) + [0], s, []);
    StripEndsNonzero(r);
    CmpWithZero(PrintedRelease(r), PrintedRelease(q));
    CmpPrinted(r, q);
  }

  /** `V.0` looks at the release only: a post-release of V stays below it, a longer release does not. */
  lemma {:induction false} AgainstZero(c: Version, v: Version)
    requires Representable(c) && Bare(v)
    ensures CmpEvr(RpmText(c), RpmText(v) + ".0") == if CmpBase(c, v) == Greater then Greater else Less
  {
    ReadPlain(c);
    ReadWithZero(v);
    ReleaseAgainstZero(c.release, v.release, SuffixTokens(c));
  }

  lemma {:induction false} NumsAppend(q: seq<nat>, n: nat)
    ensures Nums(q + [n]) == Nums(q) + [Num(n)]
  {
    if q == [] {
      assert [n][1..] == [];
      assert q + [n] == [n];
    } else {
      assert (q + [n])[1..] == q[1..] + [n];
      NumsAppend(q[1..], n);
    }
  }

  /**
   * The candidates on which an RPM dependency and its specifier disagree: a pre-release of one of the
   * two ends of a prefix interval, a pre-release of `V` under `< V.postN`, a post-release of `V` under
   * `> V` with a pre-release `V`, and a differently zero-padded spelling under `===`.
   */
  predicate Diverges(s: Specifier, c: Version)
    requires ValidSpecifier(s)
  {
    var v := s.version;
    match s.op
    case Compatible => IsPrerelease(c) && SameBase(c, UpperVersion(v))
    case Eq => s.wildcard && IsPrerelease(c) && (SameBase(c, v) || SameBase(c, NextVersion(v)))
    case ArbitraryEq => CmpVersion(c, v) == Equal && c != v
    case Ne => s.wildcard && IsPrerelease(c) && SameBase(c, NextVersion(v))
    case Le => false
    case Ge => false
    case Lt => IsPostrelease(v) && IsPrerelease(c) && SameBase(c, v)
    case Gt => IsPrerelease(v) && IsPostrelease(c) && SameBase(c, v)
  }

  /** Whether the RPM package of version `c` satisfies the dependency compiled from `s`. */
  predicate RpmAdmits(name: string, s: Specifier, c: Version) {
    SatisfiedBy(Print(ConvertDep(name, s)), name, RpmText(c))
  }

  /** How a candidate compares with a bound, without looking at any text. */
  function BoundOrder(c: Version, b: Bound): Order {
    match b
    case At(v) => CmpVersion(c, v)
    case BeforeAll(v) => if CmpBase(c, v) == Less then Less else Greater
    case AfterPosts(v) => if CmpBase(c, v) == Greater then Greater else Less
  }

  predicate Meets(dep: RichDep<Bound>, name: string, c: Version) {
    match dep
    case Clause(n, op, b) => n == name && OpHolds(op, BoundOrder(c, b))
    case With(l, r) => Meets(l, name, c) && Meets(r, name, c)
    case Or(l, r) => Meets(l, name, c) || Meets(r, name, c)
    case InvalidVersion => false
  }

  predicate ReadableBounds(dep: RichDep<Bound>) {
    match dep
    case Clause(n, op, b) => if b.At? then Representable(b.v) else Bare(b.v)
    case With(l, r) => ReadableBounds(l) && ReadableBounds(r)
    case Or(l, r) => ReadableBounds(l) && ReadableBounds(r)
    case InvalidVersion => true
  }

  /** RPM, reading the printed texts, decides like the comparison of the versions behind them. */
  lemma {:induction false} TextMeansBound(dep: RichDep<Bound>, name: string, c: Version)
    requires Representable(c) && ReadableBounds(dep)
    ensures SatisfiedBy(Print(dep), name, RpmText(c)) <==> Meets(dep, name, c)
  {
    match dep
    case Clause(n, op, b) =>
      match b {
        case At(v) => OrderEmbedding(c, v);
        case BeforeAll(v) => AgainstTildes(c, v);
        case AfterPosts(v) => AgainstZero(c, v);
      }
    case With(l, r) =>
      TextMeansBound(l, name, c);
      TextMeansBound(r, name, c);
    case Or(l, r) =>
      TextMeansBound(l, name, c);
      TextMeansBound(r, name, c);
    case InvalidVersion =>
  }

  lemma {:induction false} CompatibleMeaning(name: string, v: Version, c: Version)
    requires Representable(v) && Representable(c) && |v.release| > 1
    ensures Meets(CompatibleDep(name, v, false), name, c)
            <==> AtLeast(c, v) && (PrefixMatch(v.epoch, v.release[..|v.release| - 1], c)
                                   || (IsPrerelease(c) && SameBase(c, UpperVersion(v))))
  {
    var prefix := v.release[..|v.release| - 1];
    var high := UpperVersion(v);
    var low := RawVersion.Version(v.epoch, prefix, None, None, None);
    CmpSeqEqual(StripZeros(prefix), StripZeros(prefix));
    PrefixMatchIsInterval(v.epoch, prefix, c, low, high);
    SuffixAgainstFinal(c, high);
    if AtLeast(c, v) {
      // the release of v is at least its own prefix, hence so is the release of c
      assert v.release == prefix + [v.release[|prefix|]];
      AtLeastPrefix(v.release, prefix);
      assert CmpBase(c, v) != Less;
      BaseChain(c, v, low);
    }
  }

  lemma {:induction false} AtLeastPrefix(release: seq<nat>, prefix: seq<nat>)
    requires prefix <= release
    ensures CmpRelease(release, prefix) != Less
  {
    StrippedIsPadded(release, prefix);
    PaddedAtLeast(release, prefix);
  }

  lemma {:induction false} PaddedAtLeast(release: seq<nat>, prefix: seq<nat>)
    requires prefix <= release
    ensures CmpPadded(release, prefix) != Less
    decreases |release|
  {
    if prefix == [] {
      EmptyIsLeast(release);
    } else {
      PaddedAtLeast(release[1..], prefix[1..]);
    }
  }

  lemma {:induction false} BaseChain(c: Version, v: Version, w: Version)
    requires CmpBase(c, v) != Less && CmpBase(v, w) != Less
    ensures CmpBase(c, w) != Less
  {
    var r, q, p := StripZeros(c.release), StripZeros(v.release), StripZeros(w.release);
    CmpSeqFlip(r, q);
    CmpSeqFlip(q, p);
    CmpSeqFlip(r, p);
    if c.epoch == v.epoch == w.epoch {
      CmpSeqTransitive(p, q, r);
    }
  }

  lemma {:induction false} WildcardEqMeaning(name: string, s: Specifier, c: Version)
    requires ValidSpecifier(s) && s.op == Eq && s.wildcard && Representable(c)
    ensures Meets(ConvertDep(name, s), name, c) <==>
            (Admits(s, c) && !(IsPrerelease(c) && SameBase(c, s.version)))
            || (IsPrerelease(c) && SameBase(c, NextVersion(s.version)))
  {
    var v := s.version;
    var low, high := v.(release := v.release + [0]), NextVersion(v);
    assert low.release[..|low.release| - 1] == v.release;
    assert UpperVersion(low) == high;
    DropZero(low.release);
    CompatibleMeaning(name, low, c);
    CmpSeqEqual(StripZeros(v.release), StripZeros(low.release));
    CmpSeqEqual(StripZeros(v.release), StripZeros(v.release));
    PrefixMatchIsInterval(v.epoch, v.release, c, v, high);
    SuffixAgainstFinal(c, v);
    SuffixAgainstFinal(c, low);
    assert v.release + [] == v.release;
    NextPrefixGreater(v.release, []);
    CmpSeqFlip(StripZeros(v.release), StripZeros(high.release));
    CmpSeqEqual(StripZeros(c.release), StripZeros(high.release));
  }

  lemma {:induction false} WildcardNeMeaning(name: string, s: Specifier, c: Version)
    requires ValidSpecifier(s) && s.op == Ne && s.wildcard && Representable(c)
    ensures Meets(ConvertDep(name, s), name, c) <==>
            Admits(s, c) && !(IsPrerelease(c) && SameBase(c, NextVersion(s.version)))
  {
    var v := s.version;
    var high := NextVersion(v);
    CmpSeqEqual(StripZeros(v.release), StripZeros(v.release));
    PrefixMatchIsInterval(v.epoch, v.release, c, v, high);
    SuffixAgainstFinal(c, high);
    assert v.release + [] == v.release;
    NextPrefixGreater(v.release, []);
    CmpSeqFlip(StripZeros(v.release), StripZeros(high.release));
    CmpSeqEqual(StripZeros(c.release), StripZeros(high.release));
  }

  lemma {:induction false} StrictFinal(name: string, s: Specifier, c: Version)
    requires ValidSpecifier(s) && s.op in {Lt, Gt} && IsFinal(s.version) && Representable(c)
    ensures Meets(ConvertDep(name, s), name, c) <==> Admits(s, c)
  {
    SuffixAgainstFinal(c, s.version);
  }

  lemma {:induction false} StrictSuffixed(name: string, s: Specifier, c: Version)
    requires ValidSpecifier(s) && s.op in {Lt, Gt} && !IsFinal(s.version) && Representable(s.version)
    ensures Meets(ConvertDep(name, s), name, c) <==> CmpVersion(c, s.version) == if s.op == Lt then Less else Greater
  {
  }

  /** What PEP 440 excludes under a strict bound although it compares right. */
  lemma {:induction false} StrictExclusion(s: Specifier, c: Version)
    requires s.op in {Lt, Gt} && !IsFinal(s.version) && Representable(s.version) && Representable(c) && SameBase(c, s.version)
    ensures IsPostrelease(s.version) && IsPrerelease(c) ==> CmpVersion(c, s.version) == Less
    ensures IsPrerelease(s.version) && IsPostrelease(c) ==> CmpVersion(c, s.version) == Greater
  {
    KeyOrder(c, s.version);
  }

  lemma {:induction false} StrictMeaning(name: string, s: Specifier, c: Version)
    requires ValidSpecifier(s) && s.op in {Lt, Gt} && Representable(s.version) && Representable(c)
    ensures (Meets(ConvertDep(name, s), name, c) <==> Admits(s, c)) <==> !Diverges(s, c)
  {
    if IsFinal(s.version) {
      StrictFinal(name, s, c);
    } else {
      StrictSuffixed(name, s, c);
      if SameBase(c, s.version) {
        StrictExclusion(s, c);
      }
    }
  }

  lemma {:induction false} BoundMeaning(name: string, s: Specifier, c: Version)
    requires ValidSpecifier(s) && Representable(s.version) && Representable(c)
    ensures (Meets(ConvertDep(name, s), name, c) <==> Admits(s, c)) <==> !Diverges(s, c)
  {
    var v := s.version;
    match s.op
    case Compatible =>
      CompatibleMeaning(name, v, c);
      var high := UpperVersion(v);
      var prefix := v.release[..|v.release| - 1];
      if IsPrerelease(c) && SameBase(c, high) {
        assert v.release == prefix + [v.release[|prefix|]];
        NextPrefixGreater(prefix, [v.release[|prefix|]]);
        CmpSeqEqual(StripZeros(c.release), StripZeros(high.release));
        CmpSeqFlip(StripZeros(v.release), StripZeros(high.release));
        PrefixIsInterval(c.release, prefix);
      }
    case Eq =>
      if s.wildcard {
        WildcardEqMeaning(name, s, c);
        EndsOfInterval(v, c);
      }
    case Ne =>
      if s.wildcard {
        WildcardNeMeaning(name, s, c);
        EndsOfInterval(v, c);
      }
    case ArbitraryEq =>
      CmpSeqEqual(StripZeros(v.release), StripZeros(v.release));
      CmpSeqEqual(SuffixKey(v), SuffixKey(v));
    case Le =>
    case Ge =>
    case Lt => StrictMeaning(name, s, c);
    case Gt => StrictMeaning(name, s, c);
  }

  /**
   * For every valid specifier, representable operand and representable candidate, the compiled RPM
   * dependency admits the candidate exactly when PEP 440 does, unless the pair diverges; and on
   * every diverging pair the two really differ.
   */
  lemma {:induction false} ConversionMeaning(name: string, s: Specifier, c: Version)
    requires ValidSpecifier(s) && Representable(s.version) && Representable(c)
    ensures (RpmAdmits(name, s, c) <==> Admits(s, c)) <==> !Diverges(s, c)
  {
    TextMeansBound(ConvertDep(name, s), name, c);
    BoundMeaning(name, s, c);
  }

  /** The lower end of a prefix interval matches the prefix, the upper end does not. */
  lemma {:induction false} EndsOfInterval(v: Version, c: Version)
    ensures SameBase(c, v) ==> PrefixMatch(v.epoch, v.release, c)
    ensures SameBase(c, NextVersion(v)) ==> !PrefixMatch(v.epoch, v.release, c)
  {
    var high := NextVersion(v);
    PrefixIsInterval(c.release, v.release);
    assert v.release + [] == v.release;
    NextPrefixGreater(v.release, []);
    CmpSeqEqual(StripZeros(c.release), StripZeros(v.release));
  }

  /** No final release ever diverges, and neither does anything under a strict bound that is final. */
  lemma {:induction false} FinalCandidatesNeverDiverge(s: Specifier, c: Version)
    requires ValidSpecifier(s)
    requires (IsFinal(c) && s.op != ArbitraryEq) || (s.op in {Lt, Gt} && IsFinal(s.version))
    ensures !Diverges(s, c)
  {
  }

  /** `~= 1.2` against the pre-release `2.0a1`: RPM sorts it below `2`, PEP 440 does not match it. */
  lemma {:induction false} CompatibleDiverges(name: string)
    ensures var s := Specifier(Compatible, RawVersion.Version(0, [1, 2], None, None, None), false);
            var c := RawVersion.Version(0, [2, 0], Some(Pre(Alpha, 1)), None, None);
            ValidSpecifier(s) && Representable(c) && Diverges(s, c) && RpmAdmits(name, s, c) && !Admits(s, c)
  {
    var s := Specifier(Compatible, RawVersion.Version(0, [1, 2], None, None, None), false);
    var c := RawVersion.Version(0, [2, 0], Some(Pre(Alpha, 1)), None, None);
    assert [1, 2][..1] == [1] && NextPrefix([1]) == [2];
    assert StripZeros([0]) == [] && [2, 0][1..] == [0] && StripZeros([2, 0]) == [2] && StripZeros([2]) == [2];
    CmpSeqEqual([2], [2]);
    EndsOfInterval(RawVersion.Version(0, [1], None, None, None), c);
    ConversionMeaning(name, s, c);
  }

  /** Every `> V` with a pre-release `V` against a post-release of the same base. */
  lemma {:induction false} StrictDiverges(name: string, v: Version, n: nat)
    requires Representable(v) && IsPrerelease(v) && n > 0
    ensures var s, c := Specifier(Gt, v, false), Base(v).(post := Some(n));
            Representable(c) && Diverges(s, c) && (RpmAdmits(name, s, c) <==> !Admits(s, c))
  {
    CmpSeqEqual(StripZeros(v.release), StripZeros(v.release));
    ConversionMeaning(name, Specifier(Gt, v, false), Base(v).(post := Some(n)));
  }
}
