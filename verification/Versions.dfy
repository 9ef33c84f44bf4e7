/** PEP 440 public versions and their order ("Summary of permitted suffixes and relative ordering"). */
module Pep440 {
  import opened Wrappers
  import opened Ordering

  datatype PreKind = Alpha | Beta | Candidate

  datatype Pre = Pre(kind: PreKind, number: nat)

  datatype RawVersion =
    Version(epoch: nat, release: seq<nat>, pre: Option<Pre>, post: Option<nat>, dev: Option<nat>)

  type Version = v: RawVersion | |v.release| > 0 witness RawVersion.Version(0, [0], None, None, None)

  predicate IsPrerelease(v: Version) { v.pre.Some? || v.dev.Some? }

  predicate IsPostrelease(v: Version) { v.post.Some? }

  predicate IsFinal(v: Version) { v.pre.None? && v.post.None? && v.dev.None? }

  /** The version with its suffixes removed. */
  function Base(v: Version): Version {
    v.(pre := None, post := None, dev := None)
  }

  /** Release segments without trailing zeros: `1.0` and `1` are the same release. */
  function StripZeros(release: seq<nat>): (r: seq<nat>)
    ensures |r| <= |release|
  {
    if release == [] then []
    else
      var rest := StripZeros(release[1..]);
      if rest == [] && release[0] == 0 then [] else [release[0]] + rest
  }

  function PreRank(kind: PreKind): int {
    match kind
    case Alpha => 1
    case Beta => 2
    case Candidate => 3
  }

  /**
   * Sort key of the suffixes. A development release with neither pre nor post sorts before every
   * pre-release, no pre-release sorts after all of them, no post-release before all of them, and
   * no development release after all of them.
   */
  function SuffixKey(v: Version): seq<int> {
    (match v.pre
     case Some(p) => [PreRank(p.kind), p.number]
     case None => if v.post.None? && v.dev.Some? then [0, 0] else [4, 0])
    + (match v.post case Some(n) => [1, n] case None => [0, 0])
    + (match v.dev case Some(n) => [0, n] case None => [1, 0])
  }

  function CmpRelease(a: seq<nat>, b: seq<nat>): Order {
    CmpSeq(StripZeros(a), StripZeros(b))
  }

  function CmpVersion(v: Version, w: Version): Order {
    CmpInt(v.epoch, w.epoch).Then(CmpRelease(v.release, w.release).Then(CmpSeq(SuffixKey(v), SuffixKey(w))))
  }

  predicate SameBase(v: Version, w: Version) {
    v.epoch == w.epoch && CmpRelease(v.release, w.release) == Equal
  }

  lemma {:induction false} CmpVersionFlip(v: Version, w: Version)
    ensures CmpVersion(w, v) == CmpVersion(v, w).Flip()
  {
    CmpSeqFlip(StripZeros(v.release), StripZeros(w.release));
    CmpSeqFlip(SuffixKey(v), SuffixKey(w));
  }

  lemma {:induction false} CmpVersionTransitive(u: Version, v: Version, w: Version)
    requires CmpVersion(u, v) != Greater && CmpVersion(v, w) != Greater
    ensures CmpVersion(u, w) == CmpVersion(u, v).Then(CmpVersion(v, w))
  {
    if u.epoch == v.epoch == w.epoch {
      CmpSeqTransitive(StripZeros(u.release), StripZeros(v.release), StripZeros(w.release));
      CmpSeqEqual(StripZeros(u.release), StripZeros(v.release));
      CmpSeqEqual(StripZeros(v.release), StripZeros(w.release));
      if CmpRelease(u.release, v.release) == Equal == CmpRelease(v.release, w.release) {
        CmpSeqTransitive(SuffixKey(u), SuffixKey(v), SuffixKey(w));
      }
    }
  }

  // ----- comparison with zero padding, the form in which prefixes are easy to reason about -----

  function Head(r: seq<nat>): nat { if r == [] then 0 else r[0] }

  function Tail(r: seq<nat>): seq<nat> { if r == [] then [] else r[1..] }

  function CmpPadded(a: seq<nat>, b: seq<nat>): Order
    decreases |a| + |b|
  {
    if a == [] && b == [] then Equal
    else CmpInt(Head(a), Head(b)).Then(CmpPadded(Tail(a), Tail(b)))
  }

  lemma {:induction false} StrippedIsPadded(a: seq<nat>, b: seq<nat>)
    ensures CmpRelease(a, b) == CmpPadded(a, b)
    decreases |a| + |b|
  {
    if a == [] && b == [] {
    } else {
      StrippedIsPadded(Tail(a), Tail(b));
      var s, t := StripZeros(Tail(a)), StripZeros(Tail(b));
      assert CmpSeq(s, t) == CmpPadded(Tail(a), Tail(b));
      assert a != [] ==> StripZeros(a) == if s == [] && a[0] == 0 then [] else [a[0]] + s;
      assert b != [] ==> StripZeros(b) == if t == [] && b[0] == 0 then [] else [b[0]] + t;
    }
  }

  lemma {:induction false} PaddedFlip(a: seq<nat>, b: seq<nat>)
    ensures CmpPadded(b, a) == CmpPadded(a, b).Flip()
    decreases |a| + |b|
  {
    if a == [] && b == [] {
    } else {
      PaddedFlip(Tail(a), Tail(b));
    }
  }

  /** The first `n` release segments, missing ones read as zero. */
  function Padded(release: seq<nat>, n: nat): (r: seq<nat>)
    ensures |r| == n
  {
    if n == 0 then [] else [Head(release)] + Padded(Tail(release), n - 1)
  }

  /** `== P.*` of PEP 440: same epoch, and the release starts with `P` after zero padding. */
  predicate PrefixMatch(epoch: nat, prefix: seq<nat>, v: Version) {
    v.epoch == epoch && Padded(v.release, |prefix|) == prefix
  }

  /** The prefix with its last segment incremented: the first release after all that match. */
  function NextPrefix(prefix: seq<nat>): seq<nat>
    requires prefix != []
  {
    prefix[..|prefix| - 1] + [prefix[|prefix| - 1] + 1]
  }

  /** A release matches a prefix exactly when it lies in the half-open interval up to the next prefix. */
  lemma {:induction false} PrefixIsInterval(release: seq<nat>, prefix: seq<nat>)
    requires prefix != []
    ensures Padded(release, |prefix|) == prefix <==>
            CmpRelease(release, prefix) != Less && CmpRelease(release, NextPrefix(prefix)) == Less
  {
    StrippedIsPadded(release, prefix);
    StrippedIsPadded(release, NextPrefix(prefix));
    PrefixIsPaddedInterval(release, prefix);
  }

  lemma {:induction false} PrefixIsPaddedInterval(release: seq<nat>, prefix: seq<nat>)
    requires prefix != []
    ensures Padded(release, |prefix|) == prefix <==>
            CmpPadded(release, prefix) != Less && CmpPadded(release, NextPrefix(prefix)) == Less
    decreases |prefix|
  {
    var rest := prefix[1..];
    assert prefix == [prefix[0]] + rest;
    assert Padded(release, |prefix|) == [Head(release)] + Padded(Tail(release), |rest|);
    if rest == [] {
      assert NextPrefix(prefix) == [prefix[0] + 1];
      EmptyIsLeast(Tail(release));
    } else {
      PrefixIsPaddedInterval(Tail(release), rest);
      assert NextPrefix(prefix) == [prefix[0]] + NextPrefix(rest);
    }
  }

  lemma {:induction false} EmptyIsLeast(release: seq<nat>)
    ensures CmpPadded(release, []) != Less
    decreases |release|
  {
    if release != [] {
      EmptyIsLeast(Tail(release));
    }
  }

  /** The next prefix sorts strictly after the prefix, also when the prefix continues. */
  lemma {:induction false} NextPrefixGreater(prefix: seq<nat>, more: seq<nat>)
    requires prefix != []
    ensures CmpRelease(prefix + more, NextPrefix(prefix)) == Less
  {
    StrippedIsPadded(prefix + more, NextPrefix(prefix));
    PaddedNextGreater(prefix, more);
  }

  lemma {:induction false} PaddedNextGreater(prefix: seq<nat>, more: seq<nat>)
    requires prefix != []
    ensures CmpPadded(prefix + more, NextPrefix(prefix)) == Less
    decreases |prefix|
  {
    var rest := prefix[1..];
    assert Tail(prefix + more) == rest + more;
    if rest == [] {
      assert NextPrefix(prefix) == [prefix[0] + 1];
    } else {
      assert NextPrefix(prefix) == [prefix[0]] + NextPrefix(rest);
      PaddedNextGreater(rest, more);
    }
  }

  // ----- version specifiers -----

  datatype Op = Compatible | Eq | ArbitraryEq | Ne | Le | Ge | Lt | Gt

  /** `op version`, or `op version.*` when `wildcard` is set. */
  datatype Specifier = Specifier(op: Op, version: Version, wildcard: bool)

  /** What the packaging library accepts: `.*` only with `==`/`!=` and a bare release, `~=` with two segments. */
  predicate ValidSpecifier(s: Specifier) {
    && (s.wildcard ==> (s.op == Eq || s.op == Ne) && IsFinal(s.version))
    && (s.op == Compatible ==> |s.version.release| >= 2)
  }

  predicate AtLeast(c: Version, v: Version) { CmpVersion(c, v) != Less }

  predicate AtMost(c: Version, v: Version) { CmpVersion(c, v) != Greater }

  /** "Version specifiers" of PEP 440, with pre-releases accepted as candidates. */
  predicate Admits(s: Specifier, c: Version)
    requires ValidSpecifier(s)
  {
    var v := s.version;
    match s.op
    case Compatible => AtLeast(c, v) && PrefixMatch(v.epoch, v.release[..|v.release| - 1], c)
    case Eq => if s.wildcard then PrefixMatch(v.epoch, v.release, c) else CmpVersion(c, v) == Equal
    case ArbitraryEq => c == v
    case Ne => if s.wildcard then !PrefixMatch(v.epoch, v.release, c) else CmpVersion(c, v) != Equal
    case Le => AtMost(c, v)
    case Ge => AtLeast(c, v)
    case Lt => CmpVersion(c, v) == Less && !(!IsPrerelease(v) && IsPrerelease(c) && SameBase(c, v))
    case Gt => CmpVersion(c, v) == Greater && !(!IsPostrelease(v) && IsPostrelease(c) && SameBase(c, v))
  }
}

/** The order of RPM versions, as rpm-version(7) describes it, on version strings. */
module RpmVersions {
  import opened Ordering
  import opened Decimal

  datatype Token = Num(n: nat) | Word(s: string) | Tilde | Caret

  predicate IsLetter(c: char) { 'a' <= c <= 'z' || 'A' <= c <= 'Z' }

  /** Length of the longest prefix made of digits. */
  function DigitRun(s: string): (k: nat)
    ensures k <= |s| && AllDigits(s[..k])
    ensures k < |s| ==> !IsDigit(s[k])
  {
    if s == [] || !IsDigit(s[0]) then 0 else 1 + DigitRun(s[1..])
  }

  function LetterRun(s: string): (k: nat)
    ensures k <= |s| && (forall i :: 0 <= i < k ==> IsLetter(s[i]))
    ensures k < |s| ==> !IsLetter(s[k])
  {
    if s == [] || !IsLetter(s[0]) then 0 else 1 + LetterRun(s[1..])
  }

  /** Maximal digit and letter runs, tildes and carets; everything else only separates. */
  function Tokens(s: string): seq<Token>
    decreases |s|
  {
    if s == [] then []
    else if s[0] == '~' then [Tilde] + Tokens(s[1..])
    else if s[0] == '^' then [Caret] + Tokens(s[1..])
    else if IsDigit(s[0]) then
      var k := DigitRun(s);
      [Num(Value(s[..k]))] + Tokens(s[k..])
    else if IsLetter(s[0]) then
      var k := LetterRun(s);
      [Word(s[..k])] + Tokens(s[k..])
    else Tokens(s[1..])
  }

  function Codes(s: string): seq<int> {
    seq(|s|, i requires 0 <= i < |s| => s[i] as int)
  }

  predicate Starts(ts: seq<Token>, t: Token) { ts != [] && ts[0] == t }

  /**
   * Segment-wise comparison: `~` sorts before everything, even the end; `^` sorts after the end but
   * before any further segment; numbers beat words; otherwise the longer version wins.
   */
  function CmpTokens(a: seq<Token>, b: seq<Token>): Order
    decreases |a| + |b|
  {
    if Starts(a, Tilde) || Starts(b, Tilde) then
      if !Starts(a, Tilde) then Greater
      else if !Starts(b, Tilde) then Less
      else CmpTokens(a[1..], b[1..])
    else if Starts(a, Caret) || Starts(b, Caret) then
      if a == [] then Less
      else if b == [] then Greater
      else if !Starts(a, Caret) then Greater
      else if !Starts(b, Caret) then Less
      else CmpTokens(a[1..], b[1..])
    else if a == [] && b == [] then Equal
    else if a == [] then Less
    else if b == [] then Greater
    else if a[0].Num? && b[0].Num? then CmpInt(a[0].n, b[0].n).Then(CmpTokens(a[1..], b[1..]))
    else if a[0].Num? then Greater
    else if b[0].Num? then Less
    else CmpSeq(Codes(a[0].s), Codes(b[0].s)).Then(CmpTokens(a[1..], b[1..]))
  }

  /** The epoch before a colon, zero when there is none. */
  function Epoch(s: string): nat {
    var k := DigitRun(s);
    if 0 < k < |s| && s[k] == ':' then Value(s[..k]) else 0
  }

  function WithoutEpoch(s: string): string {
    var k := DigitRun(s);
    if 0 < k < |s| && s[k] == ':' then s[k + 1..] else s
  }

  function CmpEvr(a: string, b: string): Order {
    CmpInt(Epoch(a), Epoch(b)).Then(CmpTokens(Tokens(WithoutEpoch(a)), Tokens(WithoutEpoch(b))))
  }

  lemma {:induction false} DigitRunIs(d: string, rest: string)
    requires AllDigits(d)
    requires rest == [] || !IsDigit(rest[0])
    ensures DigitRun(d + rest) == |d|
  {
    if d == [] {
      assert d + rest == rest;
    } else {
      assert (d + rest)[1..] == d[1..] + rest;
      DigitRunIs(d[1..], rest);
    }
  }

  lemma {:induction false} LetterRunIs(w: string, rest: string)
    requires forall i :: 0 <= i < |w| ==> IsLetter(w[i])
    requires rest == [] || !IsLetter(rest[0])
    ensures LetterRun(w + rest) == |w|
  {
    if w == [] {
      assert w + rest == rest;
    } else {
      assert (w + rest)[1..] == w[1..] + rest;
      LetterRunIs(w[1..], rest);
    }
  }

  lemma {:induction false} NumeralToken(n: nat, rest: string)
    requires rest == [] || !IsDigit(rest[0])
    ensures Tokens(NatToString(n) + rest) == [Num(n)] + Tokens(rest)
  {
    var d := NatToString(n);
    DigitRunIs(d, rest);
    ValueOfNumeral(n);
    assert (d + rest)[0] == d[0];
    assert (d + rest)[..|d|] == d && (d + rest)[|d|..] == rest;
  }

  lemma {:induction false} WordToken(w: string, rest: string)
    requires w != [] && forall i :: 0 <= i < |w| ==> IsLetter(w[i])
    requires rest == [] || !IsLetter(rest[0])
    ensures Tokens(w + rest) == [Word(w)] + Tokens(rest)
  {
    LetterRunIs(w, rest);
    assert (w + rest)[0] == w[0];
    assert (w + rest)[..|w|] == w && (w + rest)[|w|..] == rest;
  }
}

/** `RpmVersion`: the RPM spelling of a PEP 440 version, and why it sorts the same way. */
module RpmSpelling {
  import opened Wrappers
  import opened Ordering
  import opened Decimal
  import opened Pep440
  import opened RpmVersions

  /** Release segments without trailing zeros, but never empty: what `str(RpmVersion)` prints. */
  function PrintedRelease(release: seq<nat>): (r: seq<nat>)
    ensures r != []
  {
    if StripZeros(release) == [] then [0] else StripZeros(release)
  }

  function Dotted(release: seq<nat>): string
    requires release != []
  {
    NatToString(release[0]) + if |release| == 1 then "" else "." + Dotted(release[1..])
  }

  function PreWord(kind: PreKind): string {
    match kind
    case Alpha => "a"
    case Beta => "b"
    case Candidate => "rc"
  }

  /** Only one suffix is printed, and a zero `dev` or `post` counts as absent. */
  function Suffix(v: Version): string {
    if v.pre.Some? then "~" + (PreWord(v.pre.value.kind) + NatToString(v.pre.value.number))
    else if v.dev.Some? && v.dev.value != 0 then "~" + ("~" + ("dev" + NatToString(v.dev.value)))
    else if v.post.Some? && v.post.value != 0 then "^" + ("post" + NatToString(v.post.value))
    else ""
  }

  function RpmText(v: Version): string {
    (if v.epoch != 0 then NatToString(v.epoch) + ":" else "") + (Dotted(PrintedRelease(v.release)) + Suffix(v))
  }

  /** The object the converter builds; printing and incrementing change its release list. */
  class RpmVersion {
    var epoch: nat
    var version: seq<nat>
    var pre: Option<Pre>
    var dev: Option<nat>
    var post: Option<nat>

    ghost predicate Valid()
      reads this
    {
      version != []
    }

    /** The PEP 440 version the object stands for. */
    ghost function Content(): Version
      reads this
      requires Valid()
    {
      RawVersion.Version(epoch, version, pre, post, dev)
    }

    constructor (v: Version)
      ensures Valid() && Content() == v
    {
      epoch, version, pre, dev, post := v.epoch, v.release, v.pre, v.dev, v.post;
    }

    /** Drops the last release segment, as the caller does with `version.pop()`. */
    method Pop()
      requires Valid() && |version| > 1
      modifies this`version
      ensures Valid() && Content() == old(Content()).(release := old(version)[..|old(version)| - 1])
    {
      version := version[..|version| - 1];
    }

    method Increment()
      requires Valid()
      modifies this
      ensures Valid()
      ensures Content() == RawVersion.Version(old(epoch), NextPrefix(old(version)), None, None, None)
    {
      version := version[|version| - 1 := version[|version| - 1] + 1];
      pre, dev, post := None, None, None;
      assert version == NextPrefix(old(version));
    }

    /** Printing pops trailing zeros off the stored release, which leaves the meaning unchanged. */
    method ToString() returns (s: string)
      requires Valid()
      modifies this`version
      ensures Valid() && s == RpmText(old(Content()))
      ensures Content() == old(Content()).(release := PrintedRelease(old(version)))
    {
      var prefix := if epoch != 0 then NatToString(epoch) + ":" else "";
      while |version| > 1 && version[|version| - 1] == 0
        invariant version != []
        invariant PrintedRelease(version) == PrintedRelease(old(version))
        decreases |version|
      {
        DropZero(version);
        version := version[..|version| - 1];
      }
      PrintedFixed(version);
      var release := Dotted(version);
      if pre.Some? {
        s := prefix + (release + ("~" + (PreWord(pre.value.kind) + NatToString(pre.value.number))));
      } else if dev.Some? && dev.value != 0 {
        s := prefix + (release + ("~" + ("~" + ("dev" + NatToString(dev.value)))));
      } else if post.Some? && post.value != 0 {
        s := prefix + (release + ("^" + ("post" + NatToString(post.value))));
      } else {
        s := prefix + (release + "");
      }
    }
  }

  lemma {:induction false} DropZero(r: seq<nat>)
    requires |r| > 1 && r[|r| - 1] == 0
    ensures StripZeros(r) == StripZeros(r[..|r| - 1])
  {
    if |r| == 2 {
      assert r == [r[0], r[1]] && r[1..] == [0] && r[..1] == [r[0]];
      assert StripZeros(r[1..]) == [] by { assert r[1..][1..] == []; }
      assert r[..1][1..] == [];
    } else {
      DropZero(r[1..]);
      assert r[1..][..|r| - 2] == r[..|r| - 1][1..];
    }
  }

  lemma {:induction false} PrintedFixed(r: seq<nat>)
    requires r != [] && (|r| == 1 || r[|r| - 1] != 0)
    ensures PrintedRelease(r) == r
  {
    if |r| == 1 {
      assert r[1..] == [];
    } else {
      LastNonzero(r);
    }
  }

  lemma {:induction false} LastNonzero(r: seq<nat>)
    requires r != [] && r[|r| - 1] != 0
    ensures StripZeros(r) == r
  {
    if |r| > 1 {
      LastNonzero(r[1..]);
    }
    assert r == [r[0]] + r[1..];
  }

  // ----- the token view of the spelling -----

  function Nums(release: seq<nat>): (ts: seq<Token>)
    ensures |ts| == |release|
  {
    if release == [] then [] else [Num(release[0])] + Nums(release[1..])
  }

  function SuffixTokens(v: Version): seq<Token> {
    if v.pre.Some? then [Tilde, Word(PreWord(v.pre.value.kind)), Num(v.pre.value.number)]
    else if v.dev.Some? && v.dev.value != 0 then [Tilde, Tilde, Word("dev"), Num(v.dev.value)]
    else if v.post.Some? && v.post.value != 0 then [Caret, Word("post"), Num(v.post.value)]
    else []
  }

  lemma {:induction false} TokensOfWordNumber(w: string, n: nat)
    requires w != [] && forall i :: 0 <= i < |w| ==> IsLetter(w[i])
    ensures Tokens(w + NatToString(n)) == [Word(w), Num(n)]
  {
    WordToken(w, NatToString(n));
    NumeralToken(n, "");
    assert NatToString(n) + "" == NatToString(n);
  }

  lemma {:induction false} TokensOfSuffix(v: Version)
    ensures Tokens(Suffix(v)) == SuffixTokens(v)
  {
    if v.pre.Some? {
      TokensOfWordNumber(PreWord(v.pre.value.kind), v.pre.value.number);
    } else if v.dev.Some? && v.dev.value != 0 {
      TokensOfWordNumber("dev", v.dev.value);
      var tail := "dev" + NatToString(v.dev.value);
      assert ("~" + tail)[1..] == tail;
      assert ("~" + ("~" + tail))[1..] == "~" + tail;
    } else if v.post.Some? && v.post.value != 0 {
      TokensOfWordNumber("post", v.post.value);
      var tail := "post" + NatToString(v.post.value);
      assert ("^" + tail)[1..] == tail;
    }
  }

  lemma {:induction false} SeparatorSkipped(tail: string)
    ensures Tokens("." + tail) == Tokens(tail)
  {
    assert ("." + tail)[1..] == tail;
  }

  lemma {:induction false} Regroup(a: string, b: string, c: string, rest: string)
    ensures (a + (b + c)) + rest == a + (b + (c + rest))
  {
  }

  lemma {:induction false} TokensOfDotted(release: seq<nat>, rest: string)
    requires release != []
    requires rest == [] || !IsDigit(rest[0])
    ensures Tokens(Dotted(release) + rest) == Nums(release) + Tokens(rest)
  {
    var d := NatToString(release[0]);
    if |release| == 1 {
      NumeralToken(release[0], rest);
      assert Dotted(release) == d + "" == d;
      assert Nums(release) == [Num(release[0])];
    } else {
      var more := Dotted(release[1..]);
      Regroup(d, ".", more, rest);
      calc {
        Tokens(Dotted(release) + rest);
        { assert Dotted(release) == d + ("." + more); }
        Tokens(d + ("." + (more + rest)));
        { NumeralToken(release[0], "." + (more + rest)); }
        [Num(release[0])] + Tokens("." + (more + rest));
        { SeparatorSkipped(more + rest); TokensOfDotted(release[1..], rest); }
        [Num(release[0])] + (Nums(release[1..]) + Tokens(rest));
        Nums(release) + Tokens(rest);
      }
    }
  }

  lemma {:induction false} DottedStart(release: seq<nat>, rest: string)
    requires release != []
    requires rest == [] || (!IsDigit(rest[0]) && rest[0] != ':')
    ensures var body := Dotted(release) + rest; Epoch(body) == 0 && WithoutEpoch(body) == body
  {
    var d := NatToString(release[0]);
    var after := (if |release| == 1 then "" else "." + Dotted(release[1..])) + rest;
    assert Dotted(release) + rest == d + after;
    DigitRunIs(d, after);
    assert after != [] ==> (d + after)[|d|] == after[0];
  }

  lemma {:induction false} EpochPrefix(epoch: nat, body: string)
    ensures var s := NatToString(epoch) + ":" + body; Epoch(s) == epoch && WithoutEpoch(s) == body
  {
    var e := NatToString(epoch);
    var s := e + ":" + body;
    assert s == e + (":" + body);
    DigitRunIs(e, ":" + body);
    ValueOfNumeral(epoch);
    assert s[..|e|] == e && s[|e| + 1..] == body;
  }

  lemma {:induction false} TextWithExtra(v: Version, extra: string)
    ensures var body := Dotted(PrintedRelease(v.release)) + (Suffix(v) + extra);
            RpmText(v) + extra == if v.epoch != 0 then NatToString(v.epoch) + ":" + body else body
  {
  }

  lemma {:induction false} TokensOfSuffixAndExtra(v: Version, extra: string)
    requires extra == [] || Suffix(v) == []
    ensures Tokens(Suffix(v) + extra) == SuffixTokens(v) + Tokens(extra)
  {
    TokensOfSuffix(v);
    if extra == [] {
      assert Suffix(v) + extra == Suffix(v);
      assert Tokens(extra) == [];
    } else {
      assert Suffix(v) + extra == extra;
    }
  }

  lemma {:induction false} SuffixStart(v: Version)
    ensures var s := Suffix(v); s == [] || s[0] == '~' || s[0] == '^'
  {
  }

  /** Epoch and tokens of a printed version, with any further suffix text appended. */
  lemma {:induction false} ReadRpmText(v: Version, extra: string)
    requires extra == [] || (!IsDigit(extra[0]) && extra[0] != ':')
    requires extra == [] || Suffix(v) == []
    ensures Epoch(RpmText(v) + extra) == v.epoch
    ensures Tokens(WithoutEpoch(RpmText(v) + extra)) ==
            Nums(PrintedRelease(v.release)) + (SuffixTokens(v) + Tokens(extra))
  {
    var rest := Suffix(v) + extra;
    var release := PrintedRelease(v.release);
    SuffixStart(v);
    assert rest == [] || (!IsDigit(rest[0]) && rest[0] != ':');
    TextWithExtra(v, extra);
    TokensOfSuffixAndExtra(v, extra);
    TokensOfDotted(release, rest);
    if v.epoch != 0 {
      EpochPrefix(v.epoch, Dotted(release) + rest);
    } else {
      DottedStart(release, rest);
    }
  }

  // ----- the spelling embeds the order -----

  /** Token lists that can follow a release: empty, or starting with a tilde or a caret. */
  predicate SuffixLike(ts: seq<Token>) {
    ts == [] || ts[0] == Tilde || ts[0] == Caret
  }

  /** Releases decide first; only equal releases leave the decision to what follows. */
  lemma {:induction false} CmpReleaseThenSuffix(r: seq<nat>, q: seq<nat>, s: seq<Token>, t: seq<Token>)
    requires SuffixLike(s) && SuffixLike(t)
    ensures CmpTokens(Nums(r) + s, Nums(q) + t) == CmpSeq(r, q).Then(CmpTokens(s, t))
  {
    var a, b := Nums(r) + s, Nums(q) + t;
    if r == [] && q == [] {
      assert a == s && b == t;
    } else if r == [] {
      assert a == s && b[0] == Num(q[0]);
    } else if q == [] {
      assert b == t && a[0] == Num(r[0]);
    } else {
      assert a[0] == Num(r[0]) && b[0] == Num(q[0]);
      assert a[1..] == Nums(r[1..]) + s && b[1..] == Nums(q[1..]) + t;
      CmpReleaseThenSuffix(r[1..], q[1..], s, t);
    }
  }

  lemma {:induction false} StripEndsNonzero(release: seq<nat>)
    ensures var s := StripZeros(release); s == [] || s[|s| - 1] != 0
  {
    if release != [] {
      StripEndsNonzero(release[1..]);
    }
  }

  /** Printing `0` for an all-zero release instead of nothing changes no comparison. */
  lemma {:induction false} CmpPrinted(a: seq<nat>, b: seq<nat>)
    ensures CmpSeq(PrintedRelease(a), PrintedRelease(b)) == CmpRelease(a, b)
  {
    StripEndsNonzero(a);
    StripEndsNonzero(b);
    var s, t := StripZeros(a), StripZeros(b);
    assert s == [] && t != [] ==> CmpSeq([0], t) == Less by { assert [0][1..] == []; }
    assert s != [] && t == [] ==> CmpSeq(s, [0]) == Greater by { assert [0][1..] == []; }
  }

  /** The versions whose RPM spelling loses nothing: at most one suffix, `dev` and `post` nonzero. */
  predicate Representable(v: Version) {
    && v.dev != Some(0) && v.post != Some(0)
    && (v.pre.Some? ==> v.dev.None? && v.post.None?)
    && (v.dev.Some? ==> v.post.None?)
  }

  lemma {:induction false} CmpNumTail(n: nat, m: nat)
    ensures CmpTokens([Num(n)], [Num(m)]) == CmpInt(n, m)
  {
    assert [Num(n)][1..] == [] && [Num(m)][1..] == [];
    assert CmpTokens([], []) == Equal;
  }

  lemma {:induction false} CmpWordNum(w: string, n: nat, x: string, m: nat)
    ensures CmpTokens([Word(w), Num(n)], [Word(x), Num(m)]) == CmpSeq(Codes(w), Codes(x)).Then(CmpInt(n, m))
  {
    assert [Word(w), Num(n)][1..] == [Num(n)] && [Word(x), Num(m)][1..] == [Num(m)];
    CmpNumTail(n, m);
  }

  lemma {:induction false} CmpPreWords(k: PreKind, l: PreKind)
    ensures CmpSeq(Codes(PreWord(k)), Codes(PreWord(l))) == CmpInt(PreRank(k), PreRank(l))
  {
    CmpSeqEqual(Codes(PreWord(k)), Codes(PreWord(k)));
  }

  function Visible(v: Version): (w: Version)
    ensures Representable(w)
  {
    if v.pre.Some? then v.(dev := None, post := None)
    else if v.dev.Some? && v.dev.value != 0 then v.(post := None)
    else if v.post.Some? && v.post.value != 0 then v.(dev := None)
    else v.(dev := None, post := None)
  }

  /** The rank of the visible suffix: `~~` before `~` before nothing before `^`. */
  function SuffixClass(v: Version): int {
    if v.pre.Some? then 1 else if v.dev.Some? then 0 else if v.post.Some? then 3 else 2
  }

  lemma {:induction false} CmpSuffixKeys(v: Version, w: Version)
    requires Representable(v) && Representable(w)
    ensures CmpTokens(SuffixTokens(v), SuffixTokens(w)) == CmpSeq(SuffixKey(v), SuffixKey(w))
  {
    var s, t := SuffixTokens(v), SuffixTokens(w);
    if SuffixClass(v) != SuffixClass(w) {
      DifferentSuffixes(v, w);
    } else if v.pre.Some? {
      assert s[1..] == [Word(PreWord(v.pre.value.kind)), Num(v.pre.value.number)];
      assert t[1..] == [Word(PreWord(w.pre.value.kind)), Num(w.pre.value.number)];
      CmpWordNum(PreWord(v.pre.value.kind), v.pre.value.number, PreWord(w.pre.value.kind), w.pre.value.number);
      CmpPreWords(v.pre.value.kind, w.pre.value.kind);
      KeyOrder(v, w);
    } else if v.dev.Some? {
      assert s[1..][1..] == [Word("dev"), Num(v.dev.value)] && t[1..][1..] == [Word("dev"), Num(w.dev.value)];
      assert Starts(s[1..], Tilde) && Starts(t[1..], Tilde);
      CmpWordNum("dev", v.dev.value, "dev", w.dev.value);
      CmpSeqEqual(Codes("dev"), Codes("dev"));
      KeyOrder(v, w);
    } else if v.post.Some? {
      assert s[1..] == [Word("post"), Num(v.post.value)] && t[1..] == [Word("post"), Num(w.post.value)];
      CmpWordNum("post", v.post.value, "post", w.post.value);
      CmpSeqEqual(Codes("post"), Codes("post"));
      KeyOrder(v, w);
    } else {
      CmpSeqEqual(SuffixKey(v), SuffixKey(w));
    }
  }

  lemma {:induction false} DifferentSuffixes(v: Version, w: Version)
    requires Representable(v) && Representable(w) && SuffixClass(v) != SuffixClass(w)
    ensures CmpTokens(SuffixTokens(v), SuffixTokens(w)) == CmpInt(SuffixClass(v), SuffixClass(w))
    ensures CmpSeq(SuffixKey(v), SuffixKey(w)) == CmpInt(SuffixClass(v), SuffixClass(w))
  {
    KeyOrder(v, w);
    var s, t := SuffixTokens(v), SuffixTokens(w);
    assert SuffixClass(v) == 0 ==> Starts(s[1..], Tilde);
    assert SuffixClass(w) == 0 ==> Starts(t[1..], Tilde);
  }

  /** The six key components compared one after the other. */
  lemma {:induction false} KeyOrder(v: Version, w: Version)
    ensures var a, b := SuffixKey(v), SuffixKey(w);
            && |a| == |b| == 6
            && CmpSeq(a, b) == CmpInt(a[0], b[0]).Then(CmpInt(a[1], b[1]).Then(CmpInt(a[2], b[2]).Then(
                               CmpInt(a[3], b[3]).Then(CmpInt(a[4], b[4]).Then(CmpInt(a[5], b[5]))))))
  {
    CmpSix(SuffixKey(v), SuffixKey(w));
  }

  lemma {:induction false} CmpSix(a: seq<int>, b: seq<int>)
    requires |a| == |b| == 6
    ensures CmpSeq(a, b) == CmpInt(a[0], b[0]).Then(CmpInt(a[1], b[1]).Then(CmpInt(a[2], b[2]).Then(
                            CmpInt(a[3], b[3]).Then(CmpInt(a[4], b[4]).Then(CmpInt(a[5], b[5]))))))
  {
    assert CmpSeq(a, b) == CmpInt(a[0], b[0]).Then(CmpSeq(a[1..], b[1..]));
    assert CmpSeq(a[1..], b[1..]) == CmpInt(a[1], b[1]).Then(CmpSeq(a[2..], b[2..])) by {
      assert a[1..][1..] == a[2..] && b[1..][1..] == b[2..];
    }
    assert CmpSeq(a[2..], b[2..]) == CmpInt(a[2], b[2]).Then(CmpSeq(a[3..], b[3..])) by {
      assert a[2..][1..] == a[3..] && b[2..][1..] == b[3..];
    }
    assert CmpSeq(a[3..], b[3..]) == CmpInt(a[3], b[3]).Then(CmpSeq(a[4..], b[4..])) by {
      assert a[3..][1..] == a[4..] && b[3..][1..] == b[4..];
    }
    assert CmpSeq(a[4..], b[4..]) == CmpInt(a[4], b[4]).Then(CmpSeq(a[5..], b[5..])) by {
      assert a[4..][1..] == a[5..] && b[4..][1..] == b[5..];
    }
    assert CmpSeq(a[5..], b[5..]) == CmpInt(a[5], b[5]) by {
      assert a[5..][1..] == [] && b[5..][1..] == [];
    }
  }

  /** On representable versions RPM sorts the spellings exactly as PEP 440 sorts the versions. */
  lemma {:induction false} OrderEmbedding(v: Version, w: Version)
    requires Representable(v) && Representable(w)
    ensures CmpEvr(RpmText(v), RpmText(w)) == CmpVersion(v, w)
  {
    ReadRpmText(v, "");
    ReadRpmText(w, "");
    assert RpmText(v) + "" == RpmText(v) && RpmText(w) + "" == RpmText(w);
    assert SuffixTokens(v) + Tokens("") == SuffixTokens(v) && SuffixTokens(w) + Tokens("") == SuffixTokens(w);
    CmpReleaseThenSuffix(PrintedRelease(v.release), PrintedRelease(w.release), SuffixTokens(v), SuffixTokens(w));
    CmpPrinted(v.release, w.release);
    CmpSuffixKeys(v, w);
  }

  lemma {:induction false} VisibleText(v: Version)
    ensures RpmText(v) == RpmText(Visible(v))
    ensures CmpVersion(v, Visible(v)) == Equal <==> Representable(v)
  {
    CmpSeqEqual(StripZeros(v.release), StripZeros(v.release));
    CmpSeqEqual(SuffixKey(v), SuffixKey(Visible(v)));
    if !Representable(v) {
      assert SuffixKey(v) != SuffixKey(Visible(v)) by {
        KeyOrder(v, Visible(v));
        var a, b := SuffixKey(v), SuffixKey(Visible(v));
        assert a[0] != b[0] || a[2] != b[2] || a[3] != b[3] || a[4] != b[4] || a[5] != b[5];
      }
    }
  }

  /**
   * The condition is exact: a version keeps its place among all representable versions if and only
   * if it is representable. Any other version prints like its visible part, which PEP 440 tells apart.
   */
  lemma {:induction false} PlaceIsKeptExactly(v: Version)
    ensures (forall w: Version :: Representable(w) ==> CmpEvr(RpmText(v), RpmText(w)) == CmpVersion(v, w))
            <==> Representable(v)
  {
    if Representable(v) {
      forall w: Version | Representable(w)
        ensures CmpEvr(RpmText(v), RpmText(w)) == CmpVersion(v, w)
      {
        OrderEmbedding(v, w);
      }
    } else {
      var w := Visible(v);
      VisibleText(v);
      OrderEmbedding(w, w);
      CmpVersionFlip(w, w);
      assert CmpEvr(RpmText(v), RpmText(w)) == Equal != CmpVersion(v, w);
    }
  }
}
