/** The Option and Result types shared by all modules. */
module Wrappers {
  datatype Option<+T> = None | Some(value: T)

  datatype Result<+R, +E> = Success(value: R) | Failure(error: E)
}

/** Three-way comparisons and the lexicographic order on integer sequences. */
module Ordering {
  datatype Order = Less | Equal | Greater {
    function Flip(): Order {
      match this
      case Less => Greater
      case Equal => Equal
      case Greater => Less
    }

    /** Lexicographic composition: the second comparison decides only a tie. */
    function Then(next: Order): Order {
      if this == Equal then next else this
    }
  }

  function CmpInt(a: int, b: int): Order {
    if a < b then Less else if a == b then Equal else Greater
  }

  function CmpSeq(a: seq<int>, b: seq<int>): Order {
    if a == [] && b == [] then Equal
    else if a == [] then Less
    else if b == [] then Greater
    else CmpInt(a[0], b[0]).Then(CmpSeq(a[1..], b[1..]))
  }

  lemma {:induction false} CmpSeqEqual(a: seq<int>, b: seq<int>)
    ensures CmpSeq(a, b) == Equal <==> a == b
  {
    if a == [] || b == [] {
    } else {
      CmpSeqEqual(a[1..], b[1..]);
      assert a == [a[0]] + a[1..] && b == [b[0]] + b[1..];
    }
  }

  lemma {:induction false} CmpSeqFlip(a: seq<int>, b: seq<int>)
    ensures CmpSeq(b, a) == CmpSeq(a, b).Flip()
  {
    if a == [] || b == [] {
    } else {
      CmpSeqFlip(a[1..], b[1..]);
    }
  }

  lemma {:induction false} CmpSeqTransitive(a: seq<int>, b: seq<int>, c: seq<int>)
    requires CmpSeq(a, b) != Greater && CmpSeq(b, c) != Greater
    ensures CmpSeq(a, c) == CmpSeq(a, b).Then(CmpSeq(b, c))
  {
    if a == [] || b == [] || c == [] {
    } else if a[0] == b[0] == c[0] {
      CmpSeqTransitive(a[1..], b[1..], c[1..]);
    }
  }
}

/** Decimal numerals, as printed by Python's `str` and `%d`. */
module Decimal {
  predicate IsDigit(c: char) {
    '0' <= c <= '9'
  }

  predicate AllDigits(s: string) {
    forall i :: 0 <= i < |s| ==> IsDigit(s[i])
  }

  function DigitChar(d: nat): (c: char)
    requires d < 10
    ensures IsDigit(c) && DigitValue(c) == d
  {
    ('0' as int + d) as char
  }

  function DigitValue(c: char): (d: nat)
    requires IsDigit(c)
  {
    c as int - '0' as int
  }

  function NatToString(n: nat): (s: string)
    ensures |s| > 0 && AllDigits(s)
  {
    if n < 10 then [DigitChar(n)] else NatToString(n / 10) + [DigitChar(n % 10)]
  }

  function Value(s: string): nat
    requires AllDigits(s)
  {
    if s == [] then 0 else Value(s[..|s| - 1]) * 10 + DigitValue(s[|s| - 1])
  }

  /** Reading a printed numeral gives the number back, so distinct numbers print differently. */
  lemma {:induction false} ValueOfNumeral(n: nat)
    ensures Value(NatToString(n)) == n
  {
    var s := NatToString(n);
    if n < 10 {
      assert s[..|s| - 1] == [];
    } else {
      ValueOfNumeral(n / 10);
      assert s[..|s| - 1] == NatToString(n / 10);
    }
  }
}

/** Name canonicalisation (PEP 503) and whitespace stripping, on ASCII text. */
module Names {
  predicate IsSpace(c: char) {
    c == ' ' || c == '\t' || c == '\n' || c == '\r'
  }

  function LStrip(s: string): (r: string)
    ensures r == [] || !IsSpace(r[0])
  {
    if s != [] && IsSpace(s[0]) then LStrip(s[1..]) else s
  }

  function RStrip(s: string): (r: string)
    ensures r <= s
    ensures r == [] || !IsSpace(r[|r| - 1])
  {
    if s != [] && IsSpace(s[|s| - 1]) then RStrip(s[..|s| - 1]) else s
  }

  /** Python's `str.strip()`. */
  function Strip(s: string): (r: string)
    ensures r == [] || (!IsSpace(r[0]) && !IsSpace(r[|r| - 1]))
  {
    var l := LStrip(s);
    assert RStrip(l) <= l;
    RStrip(l)
  }

  predicate Stripped(s: string) {
    s == [] || (!IsSpace(s[0]) && !IsSpace(s[|s| - 1]))
  }

  predicate IsSeparator(c: char) {
    c == '-' || c == '_' || c == '.'
  }

  function Lower(c: char): char {
    if 'A' <= c <= 'Z' then (c as int + 32) as char else c
  }

  /** `re.sub(r"[-_.]+", "-", name).lower()`: each run of separators becomes one dash. */
  function Canonical(s: string): (r: string)
    ensures |r| <= |s|
    ensures s != [] ==> r != []
  {
    if s == [] then []
    else if IsSeparator(s[0]) then
      var rest := Canonical(s[1..]);
      if rest != [] && rest[0] == '-' then rest else ['-'] + rest
    else [Lower(s[0])] + Canonical(s[1..])
  }

  /** The normal form an extra gets before it enters a set of extras. */
  function Norm(s: string): string {
    Canonical(Strip(s))
  }

  predicate IsCanonical(s: string) {
    && (forall i :: 0 <= i < |s| ==> Lower(s[i]) == s[i] && s[i] != '_' && s[i] != '.')
    && (forall i :: 0 <= i < |s| - 1 ==> !(s[i] == '-' && s[i + 1] == '-'))
  }

  lemma {:induction false} CanonicalIsCanonical(s: string)
    ensures IsCanonical(Canonical(s))
  {
    if s == [] {
    } else {
      CanonicalIsCanonical(s[1..]);
    }
  }

  lemma {:induction false} CanonicalFixed(s: string)
    requires IsCanonical(s)
    ensures Canonical(s) == s
  {
    if s == [] {
    } else {
      assert IsCanonical(s[1..]);
      CanonicalFixed(s[1..]);
      assert s == [s[0]] + s[1..];
    }
  }

  /** Two spellings of one name: runs of separators for runs of separators, capitals or not for each letter. */
  predicate SameSpelling(a: string, b: string)
    decreases |a| + |b|
  {
    if a == [] || b == [] then a == b
    else if IsSeparator(a[0]) && IsSeparator(b[0]) then
      || SameSpelling(a[1..], b[1..])
      || (|a| > 1 && IsSeparator(a[1]) && SameSpelling(a[1..], b))
      || (|b| > 1 && IsSeparator(b[1]) && SameSpelling(a, b[1..]))
    else AlikeLetters(a[0], b[0]) && SameSpelling(a[1..], b[1..])
  }

  predicate AlikeLetters(c: char, d: char) {
    c == d || ('A' <= c <= 'Z' && d as int == c as int + 32) || ('A' <= d <= 'Z' && c as int == d as int + 32)
  }

  lemma {:induction false} RunIsOne(s: string)
    requires |s| > 1 && IsSeparator(s[0]) && IsSeparator(s[1])
    ensures Canonical(s) == Canonical(s[1..])
  {
    assert Canonical(s[1..]) != [] && Canonical(s[1..])[0] == '-';
  }

  lemma {:induction false} SpellingsAgree(a: string, b: string)
    requires SameSpelling(a, b)
    ensures Canonical(a) == Canonical(b)
    decreases |a| + |b|
  {
    if a != [] && b != [] {
      if IsSeparator(a[0]) && IsSeparator(b[0]) {
        if SameSpelling(a[1..], b[1..]) {
          SpellingsAgree(a[1..], b[1..]);
        } else if |a| > 1 && IsSeparator(a[1]) && SameSpelling(a[1..], b) {
          RunIsOne(a);
          SpellingsAgree(a[1..], b);
        } else {
          RunIsOne(b);
          SpellingsAgree(a, b[1..]);
        }
      } else {
        SpellingsAgree(a[1..], b[1..]);
      }
    }
  }

  lemma {:induction false} CanonicalKeepsEdges(s: string)
    requires s != [] && !IsSpace(s[0]) && !IsSpace(s[|s| - 1])
    ensures var r := Canonical(s); r != [] && !IsSpace(r[0]) && !IsSpace(r[|r| - 1])
  {
    CanonicalLast(s);
  }

  lemma {:induction false} CanonicalLast(s: string)
    requires s != [] && !IsSpace(s[|s| - 1])
    ensures var r := Canonical(s); r != [] && !IsSpace(r[|r| - 1])
  {
    if |s| > 1 {
      CanonicalLast(s[1..]);
    }
  }

  lemma {:induction false} StripFixed(s: string)
    requires Stripped(s)
    ensures Strip(s) == s
  {
  }

  /** Normalising an extra twice is normalising it once. */
  lemma {:induction false} NormIdempotent(s: string)
    ensures Norm(Norm(s)) == Norm(s)
  {
    var t := Strip(s);
    CanonicalIsCanonical(t);
    if t != [] {
      CanonicalKeepsEdges(t);
    }
    StripFixed(Canonical(t));
    CanonicalFixed(Canonical(t));
  }
}
