/** The text of an RPM version, read back piece by piece: epoch, release, and the one suffix that is written. */
module VersionText {
  import opened Wrappers
  import opened Decimal
  import opened Pep440
  import opened RpmVersions
  import opened RpmSpelling
  import opened Convert

  // ----- a reader of its own -----

  /** The number of characters in front of the first `c`. */
  function UpTo(s: string, c: char): (k: nat)
    ensures k <= |s| && (k < |s| ==> s[k] == c) && c !in s[..k]
  {
    if s == "" || s[0] == c then 0
    else
      assert s[..1 + UpTo(s[1..], c)] == [s[0]] + s[1..][..UpTo(s[1..], c)];
      1 + UpTo(s[1..], c)
  }

  function Number(s: string): Option<nat> { if s != "" && AllDigits(s) then Some(Value(s)) else None }

  /** `s.split('.')`, each part a number. */
  function Numbers(s: string): Option<seq<nat>>
    decreases |s|
  {
    var k := UpTo(s, '.');
    var first := Number(s[..k]);
    if first.None? then None
    else if k == |s| then Some([first.value])
    else
      var rest := Numbers(s[k + 1..]);
      if rest.None? then None else Some([first.value] + rest.value)
  }

  datatype Marks = Marks(pre: Option<Pre>, post: Option<nat>, dev: Option<nat>)

  function ReadPre(kind: PreKind, s: string): Option<Marks> {
    var n := Number(s);
    if n.None? then None else Some(Marks(Some(Pre(kind, n.value)), None, None))
  }

  /** `~a`, `~b`, `~rc`, `~~dev` or `^post` with its number, or nothing. */
  function ReadMarks(s: string): Option<Marks> {
    if s == "" then Some(Marks(None, None, None))
    else if "~~dev" <= s then
      var n := Number(s[5..]);
      if n.None? then None else Some(Marks(None, None, n))
    else if "^post" <= s then
      var n := Number(s[5..]);
      if n.None? then None else Some(Marks(None, n, None))
    else if "~rc" <= s then ReadPre(Candidate, s[3..])
    else if "~a" <= s then ReadPre(Alpha, s[2..])
    else if "~b" <= s then ReadPre(Beta, s[2..])
    else None
  }

  /** Up to the first tilde or caret, whichever comes first. */
  function UpToMark(s: string): (k: nat)
    ensures k <= |s|
  {
    if UpTo(s, '~') <= UpTo(s, '^') then UpTo(s, '~') else UpTo(s, '^')
  }

  function ReadBody(epoch: nat, s: string): Option<RawVersion> {
    var k := UpToMark(s);
    var release, marks := Numbers(s[..k]), ReadMarks(s[k..]);
    if release.None? || marks.None? then None
    else Some(RawVersion.Version(epoch, release.value, marks.value.pre, marks.value.post, marks.value.dev))
  }

  /** The epoch in front of a colon, if there is one, and the rest. */
  function ReadVersion(s: string): Option<RawVersion> {
    var k := UpTo(s, ':');
    if k == |s| then ReadBody(0, s)
    else
      var epoch := Number(s[..k]);
      if epoch.None? then None else ReadBody(epoch.value, s[k + 1..])
  }

  // ----- reading what is printed -----

  lemma {:induction false} UpToIs(a: string, c: char, rest: string)
    requires c !in a && (rest == "" || rest[0] == c)
    ensures UpTo(a + rest, c) == |a|
  {
    if a == "" {
      assert a + rest == rest;
    } else {
      assert (a + rest)[1..] == a[1..] + rest;
      UpToIs(a[1..], c, rest);
    }
  }

  lemma {:induction false} AtLeastUpTo(a: string, c: char, rest: string)
    requires c !in a
    ensures UpTo(a + rest, c) >= |a|
  {
    if a != "" {
      assert (a + rest)[1..] == a[1..] + rest;
      AtLeastUpTo(a[1..], c, rest);
    }
  }

  lemma {:induction false} NumberOf(n: nat)
    ensures Number(NatToString(n)) == Some(n)
  {
    ValueOfNumeral(n);
  }

  predicate IsDotted(s: string) { forall i :: 0 <= i < |s| ==> IsDigit(s[i]) || s[i] == '.' }

  lemma {:induction false} DottedIsDotted(release: seq<nat>)
    requires release != []
    ensures IsDotted(Dotted(release)) && Dotted(release) != ""
  {
    if |release| > 1 {
      DottedIsDotted(release[1..]);
    }
  }

  lemma {:induction false} LastNumber(n: nat)
    ensures Numbers(NatToString(n)) == Some([n])
  {
    var d := NatToString(n);
    NumberOf(n);
    UpToIs(d, '.', "");
    assert d + "" == d && d[..|d|] == d;
  }

  lemma {:induction false} OneMoreNumber(n: nat, more: string)
    requires Numbers(more).Some?
    ensures Numbers(NatToString(n) + ("." + more)) == Some([n] + Numbers(more).value)
  {
    var d := NatToString(n);
    var s := d + ("." + more);
    NumberOf(n);
    UpToIs(d, '.', "." + more);
    assert s[..|d|] == d && s[|d| + 1..] == more;
  }

  lemma {:induction false} NumbersOf(release: seq<nat>)
    requires release != []
    ensures Numbers(Dotted(release)) == Some(release)
  {
    if |release| == 1 {
      LastNumber(release[0]);
      assert NatToString(release[0]) + "" == NatToString(release[0]);
      assert release == [release[0]];
    } else {
      NumbersOf(release[1..]);
      OneMoreNumber(release[0], Dotted(release[1..]));
      assert release == [release[0]] + release[1..];
    }
  }

  /** Behind its first characters a text is what follows them. */
  lemma {:induction false} Behind(a: string, b: string)
    ensures a <= a + b && (a + b)[|a|..] == b
  {
  }

  lemma {:induction false} ReadPreOf(kind: PreKind, n: nat)
    ensures ReadMarks("~" + (PreWord(kind) + NatToString(n))) == Some(Marks(Some(Pre(kind, n)), None, None))
  {
    var d := NatToString(n);
    var s := "~" + (PreWord(kind) + d);
    NumberOf(n);
    assert s[0] == '~' && s[1] == PreWord(kind)[0];
    assert "~~dev"[1] == '~' && "^post"[0] == '^' && "~rc"[1] == 'r' && "~a"[1] == 'a' && "~b"[1] == 'b';
    match kind {
      case Alpha =>
        assert s == "~a" + d;
        Behind("~a", d);
      case Beta =>
        assert s == "~b" + d;
        Behind("~b", d);
      case Candidate =>
        assert s == "~rc" + d;
        Behind("~rc", d);
    }
  }

  lemma {:induction false} ReadMarksOf(v: Version)
    ensures ReadMarks(Suffix(v)) == Some(Marks(Visible(v).pre, Visible(v).post, Visible(v).dev))
  {
    if v.pre.Some? {
      ReadPreOf(v.pre.value.kind, v.pre.value.number);
    } else if v.dev.Some? && v.dev.value != 0 {
      var d := NatToString(v.dev.value);
      NumberOf(v.dev.value);
      assert "~" + ("~" + ("dev" + d)) == "~~dev" + d;
      Behind("~~dev", d);
    } else if v.post.Some? && v.post.value != 0 {
      var d := NatToString(v.post.value);
      NumberOf(v.post.value);
      assert "^" + ("post" + d) == "^post" + d;
      assert ("^post" + d)[0] == '^' && "~~dev"[0] == '~';
      Behind("^post", d);
    }
  }

  predicate IsMarked(s: string) {
    (s == "" || s[0] == '~' || s[0] == '^') && forall i :: 0 <= i < |s| ==> s[i] != ':' && s[i] != '-'
  }

  lemma {:induction false} SuffixIsMarked(v: Version)
    ensures IsMarked(Suffix(v))
  {
  }

  lemma {:induction false} MarkAfter(a: string, s: string)
    requires IsDotted(a) && IsMarked(s)
    ensures UpToMark(a + s) == |a|
  {
    AtLeastUpTo(a, '~', s);
    AtLeastUpTo(a, '^', s);
    if s == "" || s[0] == '~' {
      UpToIs(a, '~', s);
    }
    if s == "" || s[0] == '^' {
      UpToIs(a, '^', s);
    }
  }

  lemma {:induction false} BodyReadsBack(epoch: nat, release: seq<nat>, v: Version)
    requires release != []
    ensures ReadBody(epoch, Dotted(release) + Suffix(v)) ==
            Some(RawVersion.Version(epoch, release, Visible(v).pre, Visible(v).post, Visible(v).dev))
  {
    var a, s := Dotted(release), Suffix(v);
    DottedIsDotted(release);
    SuffixIsMarked(v);
    MarkAfter(a, s);
    NumbersOf(release);
    ReadMarksOf(v);
    assert (a + s)[..|a|] == a;
    Behind(a, s);
  }

  /** The first segments of the release, of which only zeros are left out. */
  predicate WithoutZeros(release: seq<nat>, printed: seq<nat>) {
    && printed != [] && printed <= release && (|printed| > 1 ==> printed[|printed| - 1] != 0)
    && forall i :: |printed| <= i < |release| ==> release[i] == 0
  }

  lemma {:induction false} StripKeepsPrefix(release: seq<nat>)
    ensures var s := StripZeros(release);
            s <= release && (s != [] ==> s[|s| - 1] != 0) && forall i :: |s| <= i < |release| ==> release[i] == 0
  {
    if release != [] {
      StripKeepsPrefix(release[1..]);
      assert release == [release[0]] + release[1..];
    }
  }

  lemma {:induction false} PrintedIsPrefix(release: seq<nat>)
    requires release != []
    ensures WithoutZeros(release, PrintedRelease(release))
  {
    StripKeepsPrefix(release);
  }

  lemma {:induction false} NoColon(release: seq<nat>, v: Version)
    requires release != []
    ensures ':' !in Dotted(release) + Suffix(v)
  {
    DottedIsDotted(release);
    SuffixIsMarked(v);
  }

  lemma {:induction false} NoEpoch(body: string)
    requires ':' !in body
    ensures ReadVersion(body) == ReadBody(0, body)
  {
    UpToIs(body, ':', "");
    assert body + "" == body;
  }

  lemma {:induction false} EpochReadsBack(epoch: nat, body: string)
    ensures ReadVersion(NatToString(epoch) + ":" + body) == ReadBody(epoch, body)
  {
    var e := NatToString(epoch);
    var s := e + (":" + body);
    NumberOf(epoch);
    assert e + ":" + body == s;
    UpToIs(e, ':', ":" + body);
    assert s[..|e|] == e && s[|e| + 1..] == body;
  }

  lemma {:induction false} TextReadsBack(epoch: nat, body: string)
    requires ':' !in body
    ensures ReadVersion((if epoch != 0 then NatToString(epoch) + ":" else "") + body) == ReadBody(epoch, body)
  {
    if epoch == 0 {
      NoEpoch(body);
      assert "" + body == body;
    } else {
      EpochReadsBack(epoch, body);
    }
  }

  /**
   * Every printed version is read back as its epoch, its release without the zeros at its end, and the one
   * suffix that is visible, with its number.
   */
  lemma {:induction false} VersionReadsBack(v: Version)
    ensures var w := ReadVersion(RpmText(v));
            w.Some? && w.value == Visible(v).(release := w.value.release) && WithoutZeros(v.release, w.value.release)
  {
    var release := PrintedRelease(v.release);
    BodyReadsBack(v.epoch, release, v);
    PrintedIsPrefix(v.release);
    NoColon(release, v);
    TextReadsBack(v.epoch, Dotted(release) + Suffix(v));
  }

  /** Numerals are read with their tens: the spelling of a few of them. */
  lemma {:induction false} NumeralsAreDecimal()
    ensures NatToString(0) == "0" && NatToString(7) == "7" && NatToString(10) == "10" && NatToString(427) == "427"
  {
    assert NatToString(42) == "42";
  }

  // ----- which characters occur -----

  /** What RPM takes for part of a version; a dash would begin the release. */
  predicate IsVersionChar(c: char) { IsDigit(c) || IsLetter(c) || c == '.' || c == ':' || c == '~' || c == '^' }

  predicate IsVersionText(s: string) { s != "" && forall i :: 0 <= i < |s| ==> IsVersionChar(s[i]) }

  lemma {:induction false} TextIsVersionText(v: Version)
    ensures IsVersionText(RpmText(v))
  {
    DottedIsDotted(PrintedRelease(v.release));
    SuffixChars(v);
  }

  lemma {:induction false} SuffixChars(v: Version)
    ensures forall i :: 0 <= i < |Suffix(v)| ==> IsVersionChar(Suffix(v)[i])
  {
  }

  predicate AllVersionTexts(dep: RichDep<string>) {
    match dep
    case Clause(_, _, bound) => IsVersionText(bound)
    case With(l, r) => AllVersionTexts(l) && AllVersionTexts(r)
    case Or(l, r) => AllVersionTexts(l) && AllVersionTexts(r)
    case InvalidVersion => true
  }

  /** Every dependency that is written compares with version texts only, never with a release behind a dash. */
  lemma {:induction false} DependenciesAreVersionTexts(dep: RichDep<Bound>)
    ensures AllVersionTexts(Print(dep))
  {
    match dep
    case Clause(_, _, bound) =>
      TextIsVersionText(bound.v);
    case With(l, r) =>
      DependenciesAreVersionTexts(l);
      DependenciesAreVersionTexts(r);
    case Or(l, r) =>
      DependenciesAreVersionTexts(l);
      DependenciesAreVersionTexts(r);
    case InvalidVersion =>
  }

  /** The marks behind a bound are `~~`, behind which nothing is older, and `.0`, one more segment. */
  lemma {:induction false} BoundsReadBack(b: Bound)
    ensures var text := BoundText(b);
            match b
            case At(v) => ReadVersion(text) == ReadVersion(RpmText(v))
            case BeforeAll(v) =>
              |text| > 2 && text[|text| - 2..] == "~~" && ReadVersion(text[..|text| - 2]) == ReadVersion(RpmText(v))
            case AfterPosts(v) =>
              |text| > 2 && text[|text| - 2..] == ".0" && ReadVersion(text[..|text| - 2]) == ReadVersion(RpmText(v))
  {
    TextIsVersionText(b.v);
    var t, text := RpmText(b.v), BoundText(b);
    if !b.At? {
      assert text[..|text| - 2] == t;
    }
  }
}
