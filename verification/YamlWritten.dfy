/** The written YAML file, read again: when every block of it is what was asked for. */
module YamlWritten {
  import opened Wrappers
  import opened YamlBlocks
  import Names

  /** The lines with a line break behind the last one. */
  function WithBreak(lines: seq<Line>): seq<Line> {
    if Terminated(lines) then lines else lines[|lines| - 1 := lines[|lines| - 1] + "\n"]
  }

  /** Every block holds what it held and its line once for each listing, up to a line break at the end of the file. */
  ghost predicate IsRight(lines: seq<Line>, written: seq<Line>, packages: seq<string>, line: Line) {
    forall key :: Holds(WithBreak(lines), WithBreak(written), key, line, Count(packages, key))
  }

  /**
   * The new lines go right behind an unended last line: the block is the last one and does not end in a blank
   * line, or there is no such block, no greater key, and no empty line is put in between.
   */
  ghost predicate Glues(lines: seq<Line>, key: string) {
    !Terminated(lines) && BehindLast(lines, key) && (HasKey(lines, key) || Gap(lines) == [])
  }

  // ----- lines that differ behind their last character -----

  lemma {:induction false} LStripBlank(s: string)
    ensures Names.LStrip(s) == "" <==> forall i :: 0 <= i < |s| ==> Names.IsSpace(s[i])
    ensures Names.LStrip(s) != "" ==> !Names.IsSpace(Names.LStrip(s)[0])
  {
    if s != "" {
      LStripBlank(s[1..]);
      assert forall i :: 1 <= i < |s| ==> s[i] == s[1..][i - 1];
    }
  }

  lemma {:induction false} BlankExactly(s: string)
    ensures Blank(s) <==> forall i :: 0 <= i < |s| ==> Names.IsSpace(s[i])
  {
    LStripBlank(s);
    if Names.LStrip(s) != "" {
      RStripKeepsFirst(Names.LStrip(s));
    }
  }

  lemma {:induction false} PrefixStays(s: string, more: string)
    requires more != "" && !IsKeyChar(more[0])
    ensures KeyPrefix(s + more) == KeyPrefix(s)
  {
    if s == "" {
      assert s + more == more;
    } else {
      PrefixStays(s[1..], more);
      assert (s + more)[1..] == s[1..] + more;
    }
  }

  /** Alike to every search: the same key, and blank or indented alike. */
  predicate AlikeLine(x: Line, y: Line) {
    KeyOf(x) == KeyOf(y) && (Blank(x) <==> Blank(y)) && (Continues(x) <==> Continues(y))
  }

  lemma {:induction false} LongerKey(x: Line, more: string)
    requires x != "" && more != "" && !IsKeyChar(more[0]) && more[0] != ':'
    ensures KeyOf(x + more) == KeyOf(x)
  {
    PrefixStays(x, more);
    KeyPrefixIsPrefix(x);
    assert forall i :: 0 <= i < |x| ==> (x + more)[i] == x[i];
    assert (x + more)[|x|] == more[0];
  }

  lemma {:induction false} LongerIsAlike(x: Line, more: string)
    requires x != "" && more != "" && !IsKeyChar(more[0]) && more[0] != ':' && (!Blank(x) || Blank(more))
    ensures AlikeLine(x, x + more)
  {
    LongerKey(x, more);
    BlankExactly(x);
    BlankExactly(more);
    BlankExactly(x + more);
    assert forall i :: 0 <= i < |x| ==> (x + more)[i] == x[i];
    assert forall i :: 0 <= i < |more| ==> (x + more)[|x| + i] == more[i];
    assert (x + more)[0] == x[0];
  }

  predicate Alike(a: seq<Line>, b: seq<Line>) { |a| == |b| && forall i :: 0 <= i < |a| ==> AlikeLine(a[i], b[i]) }

  lemma {:induction false} AlikeFirst(a: seq<Line>, b: seq<Line>, key: string)
    requires Alike(a, b)
    ensures FirstKey(a, key, 0) == FirstKey(b, key, 0)
  {
    var i, j := FirstKey(a, key, 0), FirstKey(b, key, 0);
    assert i < |a| ==> AlikeLine(a[i], b[i]);
    assert j < |b| ==> AlikeLine(a[j], b[j]);
  }

  lemma {:induction false} AlikeEnd(a: seq<Line>, b: seq<Line>, from: nat)
    requires Alike(a, b) && from <= |a|
    ensures EndFrom(a, from) == EndFrom(b, from)
  {
    var i, j := EndFrom(a, from), EndFrom(b, from);
    assert i < |a| ==> AlikeLine(a[i], b[i]);
    assert j < |b| ==> AlikeLine(a[j], b[j]);
  }

  lemma {:induction false} SameFound(a: seq<Line>, b: seq<Line>, key: string, i: nat)
    requires |a| == |b| && i <= |a| && FirstKey(a, key, 0) == i && FirstKey(b, key, 0) == i
    requires i < |a| ==> EndFrom(a, i + 1) == EndFrom(b, i + 1)
    ensures Found(a, key) == Found(b, key)
  {
  }

  lemma {:induction false} AlikeFound(a: seq<Line>, b: seq<Line>, key: string)
    requires Alike(a, b)
    ensures Found(a, key) == Found(b, key)
  {
    var i := FirstKey(a, key, 0);
    AlikeFirst(a, b, key);
    if i < |a| {
      AlikeEnd(a, b, i + 1);
    }
    SameFound(a, b, key, i);
  }

  lemma {:induction false} AlikePlace(a: seq<Line>, b: seq<Line>, key: string)
    requires Alike(a, b)
    ensures Place(a, key, 0) == Place(b, key, 0)
  {
    PlaceUnique(b, key, Place(a, key, 0));
  }

  lemma {:induction false} AlikeBlanks(a: seq<Line>, b: seq<Line>, s: nat, e: nat)
    requires Alike(a, b) && s < e <= |a|
    ensures BeforeBlanks(a, s, e) == BeforeBlanks(b, s, e)
    decreases e
  {
    if e > s + 1 && Blank(a[e - 1]) {
      AlikeBlanks(a, b, s, e - 1);
    }
  }

  /** The lines of a package go to the same place in lines that are alike. */
  lemma {:induction false} AlikePlaces(a: seq<Line>, b: seq<Line>, key: string, line: Line)
    requires Alike(a, b)
    ensures PlaceOfLine(a, key) == PlaceOfLine(b, key) && NewLines(a, key, line) == NewLines(b, key, line)
  {
    AlikeFound(a, b, key);
    AlikePlace(a, b, key);
    var r := Found(a, key);
    if r.Some? {
      AlikeBlanks(a, b, r.value.0, r.value.1);
    }
  }

  lemma {:induction false} AlikeContinuation(a: seq<Line>, b: seq<Line>)
    requires Alike(a, b)
    ensures |Continuation(a)| == |Continuation(b)|
  {
    if a != [] {
      AlikeContinuation(a[1..], b[1..]);
    }
  }

  lemma {:induction false} AlikeBlocks(a: seq<Line>, b: seq<Line>, key: string)
    requires Alike(a, b)
    ensures Open(a, key) <==> Open(b, key)
    ensures BlockOf(a, key).Some? <==> BlockOf(b, key).Some?
    ensures BlockOf(a, key).Some? ==> |BlockOf(a, key).value| == |BlockOf(b, key).value|
  {
    if a != [] {
      AlikeContinuation(a[1..], b[1..]);
      AlikeBlocks(a[1..], b[1..], key);
    }
  }

  // ----- one line replaced by a line alike -----

  function Spliced(lines: seq<Line>, at: nat, m: seq<Line>): seq<Line>
    requires at <= |lines|
  {
    lines[..at] + (m + lines[at..])
  }

  /** Where the line at `p` is once lines are put in. */
  function Moved(p: nat, at: nat, m: seq<Line>): nat { if at <= p then p + |m| else p }

  lemma {:induction false} SplicedReplaced(lines: seq<Line>, at: nat, m: seq<Line>, p: nat, y: Line)
    requires at <= |lines| && p < |lines|
    ensures var q := Moved(p, at, m);
            && q < |Spliced(lines, at, m)| && Spliced(lines, at, m)[q] == lines[p]
            && Spliced(lines[p := y], at, m) == Spliced(lines, at, m)[q := y]
  {
  }

  /** An assignment goes the same way whether or not the line has its break. */
  lemma {:induction false} AssignedReplaced(cur: seq<Line>, p: nat, y: Line, key: string, line: Line)
    requires p < |cur| && AlikeLine(cur[p], y)
    ensures var at, m := PlaceOfLine(cur, key), NewLines(cur, key, line);
            && Assigned(cur, key, line) == Spliced(cur, at, m)
            && Moved(p, at, m) < |Spliced(cur, at, m)|
            && Assigned(cur[p := y], key, line) == Spliced(cur, at, m)[Moved(p, at, m) := y]
  {
    var at, m := PlaceOfLine(cur, key), NewLines(cur, key, line);
    AssignedIsSplice(cur, key, line);
    AssignedIsSplice(cur[p := y], key, line);
    AlikePlaces(cur, cur[p := y], key, line);
    SplicedReplaced(cur, at, m, p, y);
  }

  // ----- where lines can go -----

  /** Lines go in front of a line that starts something, or of a blank one at the end of a found block. */
  lemma {:induction false} PlacedBeforeBreak(lines: seq<Line>, key: string)
    requires PlaceOfLine(lines, key) < |lines|
    ensures var at := PlaceOfLine(lines, key);
            !Continues(lines[at]) || (Found(lines, key).Some? && Blank(lines[at]))
  {
    var r := Found(lines, key);
    if r.None? {
      KeyLineStarts(lines[PlaceOfLine(lines, key)]);
    } else if BeforeBlanks(lines, r.value.0, r.value.1) == r.value.1 {
      EndStarts(lines, key);
    }
  }

  lemma {:induction false} EndStarts(lines: seq<Line>, key: string)
    requires Found(lines, key).Some? && Found(lines, key).value.1 < |lines|
    ensures !Continues(lines[Found(lines, key).value.1])
  {
  }

  /** In front of a line that starts something. */
  lemma {:induction false} OpenBeforeStart(a: seq<Line>, m: seq<Line>, b: seq<Line>, key: string)
    requires b != [] && !Continues(b[0]) && (BlockOf(m, key).Some? ==> BlockOf(b, key).None?)
    ensures Open(a + (m + b), key) <==> Open(a + b, key)
  {
    OpenConcat(a, b, key);
    OpenConcat(a, m + b, key);
    OpenConcat(m, b, key);
    ContinuationConcat(m, b);
    OpenHasKey(b, key);
  }

  /** Lines that continue what is in front of them, in front of a line that may do so as well. */
  lemma {:induction false} OpenBeforeBlank(a: seq<Line>, m: seq<Line>, b: seq<Line>, key: string)
    requires forall i :: 0 <= i < |m| ==> Continues(m[i])
    ensures Open(a + (m + b), key) <==> Open(a + b, key)
  {
    OpenConcat(a, b, key);
    OpenConcat(a, m + b, key);
    OpenConcat(m, b, key);
    ContinuationConcat(m, b);
    AllContinue(m);
    forall i | 0 <= i < |m|
      ensures KeyOf(m[i]).None?
    {
      if KeyOf(m[i]).Some? {
        KeyLineStarts(m[i]);
      }
    }
    NoKeyNoBlock(m, key);
  }

  /** Lines put in front of such a place leave it to the same blocks to reach the end. */
  lemma {:induction false} OpenSpliced(q: seq<Line>, at: nat, m: seq<Line>, key: string)
    requires at < |q|
    requires !Continues(q[at]) || (forall i :: 0 <= i < |m| ==> Continues(m[i]))
    requires BlockOf(m, key).Some? ==> BlockOf(q[at..], key).None?
    ensures Open(Spliced(q, at, m), key) <==> Open(q, key)
  {
    Parts(q, at);
    if Continues(q[at]) {
      OpenBeforeBlank(q[..at], m, q[at..], key);
    } else {
      OpenBeforeStart(q[..at], m, q[at..], key);
    }
  }

  lemma {:induction false} OpenHasKey(lines: seq<Line>, key: string)
    ensures Open(lines, key) ==> BlockOf(lines, key).Some?
  {
    if lines != [] {
      OpenHasKey(lines[1..], key);
    }
  }

  // ----- the text of lines of which one misses its break -----

  /** Only the line at `p` misses its break. */
  predicate Tailed(cur: seq<Line>, p: nat, x: Line) {
    && p < |cur| && cur[p] == x && OneLine(x) && !Ended(x)
    && forall j :: 0 <= j < |cur| && j != p ==> Ended(cur[j])
  }

  lemma {:induction false} JoinedConcat(a: seq<Line>, b: seq<Line>)
    ensures Joined(a + b) == Joined(a) + Joined(b)
  {
    if b == [] {
      assert a + b == a;
    } else {
      var init := b[..|b| - 1];
      assert (a + b)[..|a + b| - 1] == a + init;
      JoinedConcat(a, init);
      Assoc(Joined(a), Joined(init), b[|b| - 1]);
    }
  }

  lemma {:induction false} UnendedHasNoBreak(x: Line)
    requires OneLine(x) && !Ended(x)
    ensures '\n' !in x && !Blank(x + "\n") == !Blank(x) && AlikeLine(x, x + "\n") && Ended(x + "\n")
  {
    NewlineIsBlank();
    LongerIsAlike(x, "\n");
  }

  lemma {:induction false} JoinedGlued(a: seq<Line>, x: Line, y: Line, b: seq<Line>)
    ensures Joined(a + ([x] + ([y] + b))) == Joined(a + ([x + y] + b))
  {
    JoinedConcat(a, [x] + ([y] + b));
    JoinedConcat(a, [x + y] + b);
    JoinedFirst(x, [y] + b);
    JoinedFirst(y, b);
    JoinedFirst(x + y, b);
    Assoc(x, y, Joined(b));
  }

  lemma {:induction false} EndedIsAsRead(lines: seq<Line>)
    requires forall j :: 0 <= j < |lines| ==> Ended(lines[j])
    ensures SplitLines(Joined(lines)) == lines && Terminated(lines)
  {
    AsReadSplitsBack(lines);
  }

  /** The line that misses its break is written as one line with the next. */
  lemma {:induction false} WrittenGlued(a: seq<Line>, x: Line, y: Line, b: seq<Line>)
    requires Tailed(a + ([x] + ([y] + b)), |a|, x)
    ensures var written := a + ([x + y] + b);
            SplitLines(Joined(a + ([x] + ([y] + b)))) == written && Terminated(written)
  {
    var cur, written := a + ([x] + ([y] + b)), a + ([x + y] + b);
    UnendedHasNoBreak(x);
    assert cur[|a| + 1] == y;
    GluedLine(x, y);
    forall j | 0 <= j < |written|
      ensures Ended(written[j])
    {
      assert j < |a| ==> written[j] == cur[j];
      assert j > |a| ==> written[j] == cur[j + 1];
    }
    JoinedGlued(a, x, y, b);
    EndedIsAsRead(written);
  }

  lemma {:induction false} FourParts(cur: seq<Line>, p: nat)
    requires p + 1 < |cur|
    ensures cur == cur[..p] + ([cur[p]] + ([cur[p + 1]] + cur[p + 2..]))
    ensures forall y :: cur[p := y] == cur[..p] + ([y] + ([cur[p + 1]] + cur[p + 2..]))
  {
  }

  // ----- what the blocks of the written file are -----

  lemma {:induction false} TrimmedSuffix(x: seq<Line>, rest: seq<Line>, y: seq<Line>)
    requires x != [] && !Blank(x[|x| - 1]) && y != [] && !Blank(y[|y| - 1])
    ensures |Trimmed(x + rest)| - |x| == |Trimmed(y + rest)| - |y|
  {
    if rest == [] {
      assert x + rest == x && y + rest == y;
    } else {
      var init, last := rest[..|rest| - 1], rest[|rest| - 1];
      assert x + rest == (x + init) + [last] && y + rest == (y + init) + [last];
      if Blank(last) {
        TrimmedBlank(x + init, last);
        TrimmedBlank(y + init, last);
        TrimmedSuffix(x, init, y);
      }
    }
  }

  lemma {:induction false} OpenBlockEnds(lines: seq<Line>, key: string)
    requires Open(lines, key)
    ensures BlockOf(lines, key).Some?
    ensures var block := BlockOf(lines, key).value; block[|block| - 1] == lines[|lines| - 1]
  {
    if KeyOf(lines[0]) == Some(key) {
      ContinuationConcat(lines[1..], []);
      assert lines[1..] + [] == lines[1..];
    } else {
      OpenBlockEnds(lines[1..], key);
    }
  }

  /** A block that loses its line to the unended one above it is shorter than it should be. */
  lemma {:induction false} GluedBlockIsShorter(a: seq<Line>, b: seq<Line>, line: Line, rest: seq<Line>, key: string)
    requires Alike(a, b) && Open(a, key) && !Blank(a[|a| - 1]) && IsEntry(line)
    ensures Body(a + ([line] + rest), key).Some? && Body(b + rest, key).Some?
    ensures |Body(a + ([line] + rest), key).value| == |Body(b + rest, key).value| + 1
  {
    AlikeBlocks(a, b, key);
    OpenBlockEnds(a, key);
    OpenBlockEnds(b, key);
    BlockConcat(a, [line] + rest, key);
    BlockConcat(b, rest, key);
    var x, y, more := BlockOf(a, key).value, BlockOf(b, key).value, Continuation(rest);
    assert ([line] + rest)[1..] == rest;
    assert Continuation([line] + rest) == [line] + more;
    Assoc(x, [line], more);
    TrimmedSuffix(x + [line], more, y);
  }

  /** An empty line in front of a line that starts something adds to no body. */
  lemma {:induction false} EmptyLineAddsNothing(a: seq<Line>, b: seq<Line>, key: string)
    requires b != [] && !Continues(b[0])
    ensures Body(a + (["\n"] + b), key) == Body(a + b, key)
  {
    NewlineIsBlank();
    assert (["\n"] + b)[1..] == b && (["\n"] + b)[0] == "\n";
    BlockConcat(a, ["\n"] + b, key);
    BlockConcat(a, b, key);
    if BlockOf(a, key).Some? && Open(a, key) {
      var block := BlockOf(a, key).value;
      assert Continuation(["\n"] + b) == ["\n"] + Continuation(b) == ["\n"];
      assert block + [] == block;
      TrimmedBlank(block, "\n");
    }
  }

  // ----- putting lines around the unended one -----

  lemma {:induction false} TailedSpliced(cur: seq<Line>, p: nat, x: Line, at: nat, m: seq<Line>)
    requires Tailed(cur, p, x) && at <= |cur| && forall i :: 0 <= i < |m| ==> Ended(m[i])
    ensures Tailed(Spliced(cur, at, m), Moved(p, at, m), x)
  {
    var after, q := Spliced(cur, at, m), Moved(p, at, m);
    SplicedLines(cur, at, m);
    assert after[q] == cur[p];
  }

  lemma {:induction false} SplicedInFront(cur: seq<Line>, p: nat, at: nat, m: seq<Line>)
    requires at <= p < |cur|
    ensures var after, q := Spliced(cur, at, m), p + |m|;
            && q < |after| && after[..q + 1] == Spliced(cur[..p + 1], at, m)
            && |after| == |cur| + |m| && forall j :: p < j < |cur| ==> after[j + |m|] == cur[j]
  {
  }

  lemma {:induction false} SplicedBehind(cur: seq<Line>, p: nat, at: nat, m: seq<Line>)
    requires p < at <= |cur|
    ensures var after := Spliced(cur, at, m);
            && |after| == |cur| + |m| && after[..p + 1] == cur[..p + 1]
            && (forall j :: 0 <= j < at ==> after[j] == cur[j])
            && (forall j :: 0 <= j < |m| ==> after[at + j] == m[j])
  {
  }

  /** The only key among the lines of a package is its own, where it had no block. */
  lemma {:induction false} NewLinesKey(cur: seq<Line>, k: string, line: Line, i: nat)
    requires IsKey(k) && IsEntry(line) && i < |NewLines(cur, k, line)| && KeyOf(NewLines(cur, k, line)[i]).Some?
    ensures Found(cur, k).None? && KeyOf(NewLines(cur, k, line)[i]) == Some(k)
  {
    NewlineIsBlank();
    KeyOfKeyLine(k, "\n");
    if KeyOf(line).Some? {
      KeyLineStarts(line);
    }
  }

  lemma {:induction false} NewLinesBlocks(cur: seq<Line>, k: string, line: Line, from: nat, key: string)
    requires IsKey(k) && IsEntry(line) && from <= |cur| && BlockOf(NewLines(cur, k, line), key).Some?
    ensures BlockOf(cur[from..], key).None?
  {
    var m := NewLines(cur, k, line);
    if forall i :: 0 <= i < |m| ==> KeyOf(m[i]) != Some(key) {
      NoKeyNoBlock(m, key);
      assert false;
    }
    var i :| 0 <= i < |m| && KeyOf(m[i]) == Some(key);
    NewLinesKey(cur, k, line, i);
    FoundIsBlock(cur, k);
    NoBlockNoKey(cur, k);
    NoKeyNoBlock(cur[from..], key);
  }

  /** Lines put in front of the unended line do not change which blocks reach it. */
  lemma {:induction false} OpenInFront(cur: seq<Line>, p: nat, k: string, line: Line, key: string)
    requires p < |cur| && IsKey(k) && IsEntry(line) && PlaceOfLine(cur, k) <= p
    ensures var at, m := PlaceOfLine(cur, k), NewLines(cur, k, line);
            Open(Spliced(cur[..p + 1], at, m), key) <==> Open(cur[..p + 1], key)
  {
    var at, m, q := PlaceOfLine(cur, k), NewLines(cur, k, line), cur[..p + 1];
    PlacedBeforeBreak(cur, k);
    if BlockOf(m, key).Some? {
      NewLinesBlocks(cur, k, line, at, key);
      NoBlockNoKey(cur[at..], key);
      assert forall j :: 0 <= j < |q[at..]| ==> q[at..][j] == cur[at..][j];
      NoKeyNoBlock(q[at..], key);
    }
    OpenSpliced(q, at, m, key);
  }

  // ----- an unended last line that is not blank -----

  /** The file ends with the line, or an empty line and something new follow. */
  predicate Loose(cur: seq<Line>, p: nat) {
    p + 1 == |cur| || (p + 2 < |cur| && cur[p + 1] == "\n" && !Continues(cur[p + 2]))
  }

  predicate Stuck(cur: seq<Line>, p: nat, line: Line) { p + 1 < |cur| && cur[p + 1] == line }

  /** A block that reaches the end starts at the first line with its key and is continued from there. */
  lemma {:induction false} OpenFrom(q: seq<Line>, key: string) returns (s: nat)
    requires Open(q, key)
    ensures s < |q| && KeyOf(q[s]) == Some(key) && forall j :: 0 <= j < s ==> KeyOf(q[j]) != Some(key)
    ensures forall j :: s < j < |q| ==> Continues(q[j])
  {
    OpenHasKey(q, key);
    FoundIsBlock(q, key);
    var e;
    s, e := Found(q, key).value.0, Found(q, key).value.1;
    OpenRange(q, key, s, e);
  }

  lemma {:induction false} BlanksBehind(cur: seq<Line>, s: nat, p: nat)
    requires s <= p && p + 1 < |cur| && Blank(cur[p + 1]) && (s == p || !Blank(cur[p]))
    ensures BeforeBlanks(cur, s, p + 2) == p + 1
  {
    assert BeforeBlanks(cur, s, p + 1) == p + 1;
  }

  lemma {:induction false} FoundInside(cur: seq<Line>, p: nat, key: string)
    requires p + 2 < |cur| && cur[p + 1] == "\n" && !Continues(cur[p + 2]) && !Blank(cur[p])
    requires Open(cur[..p + 1], key)
    ensures Found(cur, key).Some? && PlaceOfLine(cur, key) == p + 1
  {
    var q := cur[..p + 1];
    var s := OpenFrom(q, key);
    NewlineIsBlank();
    assert forall j :: 0 <= j <= p ==> q[j] == cur[j];
    FirstKeyAt(cur, key, s);
    EndAt(cur, s + 1, p + 2);
    BlanksBehind(cur, s, p);
  }

  lemma {:induction false} OpenAt(q: seq<Line>, key: string, s: nat)
    requires s < |q| && KeyOf(q[s]) == Some(key) && forall j :: 0 <= j < s ==> KeyOf(q[j]) != Some(key)
    requires forall j :: s < j < |q| ==> Continues(q[j])
    ensures Open(q, key)
  {
    FirstKeyAt(q, key, s);
    EndAt(q, s + 1, |q|);
    FoundIsBlock(q, key);
    OpenRange(q, key, s, |q|);
  }

  lemma {:induction false} PlacedIsOpen(cur: seq<Line>, p: nat, key: string)
    requires p < |cur| && Found(cur, key).Some? && PlaceOfLine(cur, key) == p + 1
    ensures Open(cur[..p + 1], key)
  {
    var q, s := cur[..p + 1], Found(cur, key).value.0;
    assert forall j :: 0 <= j <= p ==> q[j] == cur[j];
    OpenAt(q, key, s);
  }

  /** The line of a package with a block goes right behind the unended line exactly when its block reaches it. */
  lemma {:induction false} PlacedExactly(cur: seq<Line>, p: nat, key: string)
    requires p < |cur| && Loose(cur, p) && !Blank(cur[p])
    ensures Found(cur, key).Some? && PlaceOfLine(cur, key) == p + 1 <==> Open(cur[..p + 1], key)
  {
    if Found(cur, key).Some? && PlaceOfLine(cur, key) == p + 1 {
      PlacedIsOpen(cur, p, key);
    }
    if Open(cur[..p + 1], key) {
      if p + 1 < |cur| {
        FoundInside(cur, p, key);
      } else {
        assert cur[..p + 1] == cur;
        OpenHasKey(cur, key);
        FoundIsBlock(cur, key);
        BehindFound(cur, key, Found(cur, key).value.0, Found(cur, key).value.1);
      }
    }
  }

  ghost predicate OneReaches(lines: seq<Line>, packages: seq<string>) {
    exists i :: 0 <= i < |packages| && Open(lines, packages[i])
  }

  ghost predicate SameReach(lines: seq<Line>, cur: seq<Line>, p: nat) {
    p < |cur| && forall key :: Open(cur[..p + 1], key) <==> Open(lines, key)
  }

  /** The loop behind an unended line that is not blank. */
  ghost predicate NonblankState(lines: seq<Line>, packages: seq<string>, cur: seq<Line>, p: nat, x: Line, line: Line) {
    && Tailed(cur, p, x) && !Blank(x) && SameReach(lines, cur, p)
    && if OneReaches(lines, packages) then Stuck(cur, p, line) else Loose(cur, p)
  }

  lemma {:induction false} ReachKept(lines: seq<Line>, cur: seq<Line>, p: nat, k: string, line: Line)
    requires SameReach(lines, cur, p) && IsKey(k) && IsEntry(line)
    ensures var at, m := PlaceOfLine(cur, k), NewLines(cur, k, line);
            SameReach(lines, Spliced(cur, at, m), Moved(p, at, m))
  {
    var at, m := PlaceOfLine(cur, k), NewLines(cur, k, line);
    if at <= p {
      SplicedInFront(cur, p, at, m);
      var before, after := cur[..p + 1], Spliced(cur[..p + 1], at, m);
      forall key
        ensures Open(after, key) <==> Open(before, key)
      {
        OpenInFront(cur, p, k, line, key);
      }
    } else {
      SplicedBehind(cur, p, at, m);
    }
  }

  lemma {:induction false} StuckKept(cur: seq<Line>, p: nat, k: string, line: Line)
    requires p < |cur| && Stuck(cur, p, line) && IsEntry(line)
    ensures var at, m := PlaceOfLine(cur, k), NewLines(cur, k, line);
            Stuck(Spliced(cur, at, m), Moved(p, at, m), line)
  {
    var at, m := PlaceOfLine(cur, k), NewLines(cur, k, line);
    if at <= p {
      SplicedInFront(cur, p, at, m);
    } else {
      if at == p + 1 {
        PlacedBeforeBreak(cur, k);
        assert false;
      }
      SplicedBehind(cur, p, at, m);
    }
  }

  /** A package without a block, at the end of the file: an empty line comes first. */
  lemma {:induction false} LooseAtEnd(cur: seq<Line>, k: string, line: Line)
    requires cur != [] && !Blank(cur[|cur| - 1]) && IsKey(k) && Found(cur, k).None? && PlaceOfLine(cur, k) == |cur|
    ensures Loose(Spliced(cur, |cur|, NewLines(cur, k, line)), |cur| - 1)
  {
    var m := NewLines(cur, k, line);
    KeyOfKeyLine(k, "\n");
    KeyLineStarts(k + ":" + "\n");
    assert m == ["\n", k + ":" + "\n", line];
    SplicedBehind(cur, |cur| - 1, |cur|, m);
  }

  /** Behind the empty line: only a new block can go there. */
  lemma {:induction false} LooseBehind(cur: seq<Line>, p: nat, k: string, line: Line)
    requires p + 2 < |cur| && cur[p + 1] == "\n" && !Continues(cur[p + 2]) && IsKey(k) && PlaceOfLine(cur, k) > p + 1
    ensures Loose(Spliced(cur, PlaceOfLine(cur, k), NewLines(cur, k, line)), p)
  {
    var at, m := PlaceOfLine(cur, k), NewLines(cur, k, line);
    NewlineIsBlank();
    SplicedBehind(cur, p, at, m);
    if at == p + 2 {
      assert Found(cur, k).None?;
      KeyOfKeyLine(k, "\n");
      KeyLineStarts(k + ":" + "\n");
    }
  }

  lemma {:induction false} LooseInFront(cur: seq<Line>, p: nat, at: nat, m: seq<Line>)
    requires at <= p < |cur| && Loose(cur, p)
    ensures Loose(Spliced(cur, at, m), p + |m|)
  {
    SplicedInFront(cur, p, at, m);
  }

  lemma {:induction false} StuckBehind(cur: seq<Line>, p: nat, k: string, line: Line)
    requires p < |cur| && Found(cur, k).Some? && PlaceOfLine(cur, k) == p + 1
    ensures Stuck(Spliced(cur, p + 1, NewLines(cur, k, line)), p, line)
  {
    assert NewLines(cur, k, line) == [line];
    SplicedBehind(cur, p, p + 1, [line]);
  }

  lemma {:induction false} EmptyLineHasNoPlace(cur: seq<Line>, p: nat, k: string)
    requires p + 1 < |cur| && cur[p + 1] == "\n" && Found(cur, k).None?
    ensures PlaceOfLine(cur, k) != p + 1
  {
    NewlineIsBlank();
  }

  lemma {:induction false} LooseStep(cur: seq<Line>, p: nat, k: string, line: Line)
    requires p < |cur| && Loose(cur, p) && !Blank(cur[p]) && IsKey(k) && IsEntry(line)
    ensures var at, m := PlaceOfLine(cur, k), NewLines(cur, k, line);
            var after, q := Spliced(cur, at, m), Moved(p, at, m);
            if Open(cur[..p + 1], k) then Stuck(after, q, line) else Loose(after, q)
  {
    var at, m := PlaceOfLine(cur, k), NewLines(cur, k, line);
    PlacedExactly(cur, p, k);
    if Open(cur[..p + 1], k) {
      StuckBehind(cur, p, k, line);
    } else if at <= p {
      LooseInFront(cur, p, at, m);
    } else if p + 1 == |cur| {
      LooseAtEnd(cur, k, line);
    } else {
      if Found(cur, k).None? {
        EmptyLineHasNoPlace(cur, p, k);
      }
      LooseBehind(cur, p, k, line);
    }
  }

  lemma {:induction false} NonblankStep(
    lines: seq<Line>, packages: seq<string>, cur: seq<Line>, p: nat, x: Line, k: string, line: Line)
    requires NonblankState(lines, packages, cur, p, x, line) && IsKey(k) && IsEntry(line) && Ended(line)
    ensures var at, m := PlaceOfLine(cur, k), NewLines(cur, k, line);
            NonblankState(lines, packages + [k], Spliced(cur, at, m), Moved(p, at, m), x, line)
  {
    var at, m := PlaceOfLine(cur, k), NewLines(cur, k, line);
    NewLinesAreEnded(cur, k, line);
    TailedSpliced(cur, p, x, at, m);
    ReachKept(lines, cur, p, k, line);
    OneMoreReaches(lines, packages, k);
    if OneReaches(lines, packages) {
      StuckKept(cur, p, k, line);
    } else {
      LooseStep(cur, p, k, line);
    }
  }

  lemma {:induction false} OneMoreReaches(lines: seq<Line>, packages: seq<string>, k: string)
    ensures OneReaches(lines, packages + [k]) <==> OneReaches(lines, packages) || Open(lines, k)
  {
    var all := packages + [k];
    assert forall i :: 0 <= i < |packages| ==> all[i] == packages[i];
    assert all[|packages|] == k;
  }

  // ----- an unended last line that is blank -----

  ghost predicate OneBehind(lines: seq<Line>, packages: seq<string>) {
    exists i :: 0 <= i < |packages| && BehindLast(lines, packages[i])
  }

  ghost predicate SameBehind(lines: seq<Line>, cur: seq<Line>) {
    forall key :: BehindLast(cur, key) <==> BehindLast(lines, key)
  }

  /** The only line with the key. */
  predicate OnlyKeyAt(cur: seq<Line>, i: nat, key: string) {
    && i < |cur| && KeyOf(cur[i]) == Some(key)
    && forall j :: 0 <= j < |cur| && j != i ==> KeyOf(cur[j]) != Some(key)
  }

  /** A listed package's key line is right behind the unended line. */
  ghost predicate Lost(cur: seq<Line>, p: nat, packages: seq<string>) {
    exists key :: key in packages && OnlyKeyAt(cur, p + 1, key)
  }

  /** The loop behind an unended line that is blank. */
  ghost predicate BlankState(lines: seq<Line>, packages: seq<string>, cur: seq<Line>, p: nat, x: Line) {
    && Tailed(cur, p, x) && Blank(x)
    && if OneBehind(lines, packages) then Lost(cur, p, packages) else p + 1 == |cur| && SameBehind(lines, cur)
  }

  lemma {:induction false} BlankContinues(x: Line)
    requires Blank(x)
    ensures Continues(x) && KeyOf(x).None?
  {
    if KeyOf(x).Some? {
      KeyLineStarts(x);
    }
  }

  /** Behind an unended blank line only a new block can be put. */
  lemma {:induction false} NothingFoundBehindBlank(cur: seq<Line>, p: nat, k: string)
    requires p < |cur| && Blank(cur[p]) && PlaceOfLine(cur, k) == p + 1
    ensures Found(cur, k).None?
  {
    BlankContinues(cur[p]);
  }

  lemma {:induction false} OnlyKeyInserted(cur: seq<Line>, p: nat, k: string, line: Line)
    requires p < |cur| && Blank(cur[p]) && IsKey(k) && IsEntry(line) && PlaceOfLine(cur, k) == p + 1
    ensures OnlyKeyAt(Spliced(cur, p + 1, NewLines(cur, k, line)), p + 1, k)
  {
    var m := NewLines(cur, k, line);
    NothingFoundBehindBlank(cur, p, k);
    FoundIsBlock(cur, k);
    NoBlockNoKey(cur, k);
    KeyOfKeyLine(k, "\n");
    NewlineIsBlank();
    BlankContinues("\n");
    EntryHasNoKey(line);
    SplicedLines(cur, p + 1, m);
    assert m[0] == k + ":" + "\n" && m[1] == line;
  }

  lemma {:induction false} EntryHasNoKey(line: Line)
    requires IsEntry(line)
    ensures KeyOf(line).None?
  {
    if KeyOf(line).Some? {
      KeyLineStarts(line);
    }
  }

  lemma {:induction false} NewLinesLack(cur: seq<Line>, i: nat, key: string, k: string, line: Line, j: nat)
    requires i < |cur| && KeyOf(cur[i]) == Some(key) && IsKey(k) && IsEntry(line) && j < |NewLines(cur, k, line)|
    ensures KeyOf(NewLines(cur, k, line)[j]) != Some(key)
  {
    if KeyOf(NewLines(cur, k, line)[j]) == Some(key) {
      NewLinesKey(cur, k, line, j);
      FoundIsBlock(cur, k);
      NoBlockNoKey(cur, k);
      assert false;
    }
  }

  lemma {:induction false} OnlyKeySpliced(cur: seq<Line>, i: nat, key: string, at: nat, m: seq<Line>)
    requires OnlyKeyAt(cur, i, key) && at <= |cur| && forall j :: 0 <= j < |m| ==> KeyOf(m[j]) != Some(key)
    ensures OnlyKeyAt(Spliced(cur, at, m), Moved(i, at, m), key)
  {
    SplicedLines(cur, at, m);
  }

  lemma {:induction false} OnlyKeyKept(cur: seq<Line>, i: nat, key: string, k: string, line: Line)
    requires OnlyKeyAt(cur, i, key) && IsKey(k) && IsEntry(line)
    ensures var at, m := PlaceOfLine(cur, k), NewLines(cur, k, line);
            OnlyKeyAt(Spliced(cur, at, m), Moved(i, at, m), key)
  {
    var at, m := PlaceOfLine(cur, k), NewLines(cur, k, line);
    forall j | 0 <= j < |m|
      ensures KeyOf(m[j]) != Some(key)
    {
      NewLinesLack(cur, i, key, k, line, j);
    }
    OnlyKeySpliced(cur, i, key, at, m);
  }

  lemma {:induction false} IsLost(cur: seq<Line>, p: nat, packages: seq<string>, k: string, key: string)
    requires OnlyKeyAt(cur, p + 1, key) && (key == k || key in packages)
    ensures Lost(cur, p, packages + [k])
  {
    assert key in packages + [k];
  }

  lemma {:induction false} LostStep(cur: seq<Line>, p: nat, packages: seq<string>, k: string, line: Line)
    requires p < |cur| && Blank(cur[p]) && Lost(cur, p, packages) && IsKey(k) && IsEntry(line)
    ensures var at, m := PlaceOfLine(cur, k), NewLines(cur, k, line);
            Lost(Spliced(cur, at, m), Moved(p, at, m), packages + [k])
  {
    var at, m := PlaceOfLine(cur, k), NewLines(cur, k, line);
    if at == p + 1 {
      OnlyKeyInserted(cur, p, k, line);
      IsLost(Spliced(cur, at, m), p, packages, k, k);
    } else {
      var key :| key in packages && OnlyKeyAt(cur, p + 1, key);
      OnlyKeyKept(cur, p + 1, key, k, line);
      IsLost(Spliced(cur, at, m), Moved(p, at, m), packages, k, key);
    }
  }

  lemma {:induction false} NotYetLostStep(lines: seq<Line>, cur: seq<Line>, x: Line, packages: seq<string>, k: string, line: Line)
    requires cur != [] && Tailed(cur, |cur| - 1, x) && Blank(x) && SameBehind(lines, cur)
    requires IsKey(k) && IsEntry(line) && Ended(line)
    ensures var at, m := PlaceOfLine(cur, k), NewLines(cur, k, line);
            var after, q := Spliced(cur, at, m), Moved(|cur| - 1, at, m);
            if BehindLast(lines, k) then Lost(after, q, packages + [k]) else q + 1 == |after| && SameBehind(lines, after)
  {
    var at, m := PlaceOfLine(cur, k), NewLines(cur, k, line);
    if BehindLast(lines, k) {
      assert BehindLast(cur, k);
      OnlyKeyInserted(cur, |cur| - 1, k, line);
      IsLost(Spliced(cur, at, m), |cur| - 1, packages, k, k);
    } else {
      SplicedInFront(cur, |cur| - 1, at, m);
      AssignedIsSplice(cur, k, line);
      forall key
        ensures BehindLast(Assigned(cur, k, line), key) <==> BehindLast(cur, key)
      {
        BehindStays(cur, k, line, key);
      }
    }
  }

  lemma {:induction false} OneMoreIsBehind(lines: seq<Line>, packages: seq<string>, k: string)
    ensures OneBehind(lines, packages + [k]) <==> OneBehind(lines, packages) || BehindLast(lines, k)
  {
    var all := packages + [k];
    assert forall i :: 0 <= i < |packages| ==> all[i] == packages[i];
    assert all[|packages|] == k;
  }

  lemma {:induction false} BlankStep(
    lines: seq<Line>, packages: seq<string>, cur: seq<Line>, p: nat, x: Line, k: string, line: Line)
    requires BlankState(lines, packages, cur, p, x) && IsKey(k) && IsEntry(line) && Ended(line)
    ensures var at, m := PlaceOfLine(cur, k), NewLines(cur, k, line);
            BlankState(lines, packages + [k], Spliced(cur, at, m), Moved(p, at, m), x)
  {
    var at, m := PlaceOfLine(cur, k), NewLines(cur, k, line);
    NewLinesAreEnded(cur, k, line);
    TailedSpliced(cur, p, x, at, m);
    OneMoreIsBehind(lines, packages, k);
    if OneBehind(lines, packages) {
      LostStep(cur, p, packages, k, line);
    } else {
      NotYetLostStep(lines, cur, x, packages, k, line);
    }
  }

  // ----- the whole loop -----

  /** The loop on the file as it is, beside the loop on the file with a line break at its end. */
  ghost predicate LoopAt(
    lines: seq<Line>, packages: seq<string>, cur: seq<Line>, broken: seq<Line>, p: nat, x: Line, line: Line)
  {
    && p < |cur| && broken == cur[p := x + "\n"]
    && if Blank(x) then BlankState(lines, packages, cur, p, x) else NonblankState(lines, packages, cur, p, x, line)
  }

  ghost predicate LoopEnd(lines: seq<Line>, packages: seq<string>, line: Line, p: nat)
    requires lines != []
  {
    LoopAt(lines, packages, AllAssigned(lines, packages, line), AllAssigned(WithBreak(lines), packages, line), p,
           lines[|lines| - 1], line)
  }

  lemma {:induction false} LoopStep(
    lines: seq<Line>, packages: seq<string>, cur: seq<Line>, broken: seq<Line>, p: nat, x: Line, k: string, line: Line,
    more: seq<string>, after: seq<Line>, broken': seq<Line>) returns (q: nat)
    requires LoopAt(lines, packages, cur, broken, p, x, line) && IsKey(k) && IsEntry(line) && Ended(line)
    requires more == packages + [k] && after == Assigned(cur, k, line) && broken' == Assigned(broken, k, line)
    ensures LoopAt(lines, more, after, broken', q, x, line)
  {
    UnendedHasNoBreak(x);
    AssignedReplaced(cur, p, x + "\n", k, line);
    q := Moved(p, PlaceOfLine(cur, k), NewLines(cur, k, line));
    if Blank(x) {
      BlankStep(lines, packages, cur, p, x, k, line);
    } else {
      NonblankStep(lines, packages, cur, p, x, k, line);
    }
  }

  lemma {:induction false} LoopStart(lines: seq<Line>, line: Line)
    requires AsRead(lines) && !Terminated(lines)
    ensures LoopEnd(lines, [], line, |lines| - 1)
  {
    assert lines[..|lines|] == lines;
  }

  lemma {:induction false} SplitLast<T>(s: seq<T>)
    requires s != []
    ensures s == s[..|s| - 1] + [s[|s| - 1]]
  {
  }

  lemma {:induction false} LoopMore(lines: seq<Line>, packages: seq<string>, line: Line, p: nat) returns (q: nat)
    requires !Terminated(lines) && packages != [] && IsKey(packages[|packages| - 1]) && IsEntry(line) && Ended(line)
    requires LoopEnd(lines, packages[..|packages| - 1], line, p)
    ensures LoopEnd(lines, packages, line, q)
  {
    var init, k := packages[..|packages| - 1], packages[|packages| - 1];
    SplitLast(packages);
    q := LoopStep(lines, init, AllAssigned(lines, init, line), AllAssigned(WithBreak(lines), init, line), p,
                  lines[|lines| - 1], k, line,
                  packages, AllAssigned(lines, packages, line), AllAssigned(WithBreak(lines), packages, line));
  }

  lemma {:induction false} LoopEnds(lines: seq<Line>, packages: seq<string>, line: Line) returns (p: nat)
    requires AsRead(lines) && !Terminated(lines) && IsEntry(line) && Ended(line)
    requires forall i :: 0 <= i < |packages| ==> IsKey(packages[i])
    ensures LoopEnd(lines, packages, line, p)
  {
    if packages == [] {
      LoopStart(lines, line);
      p := |lines| - 1;
    } else {
      p := LoopEnds(lines, packages[..|packages| - 1], line);
      p := LoopMore(lines, packages, line, p);
    }
  }

  // ----- what is written -----

  ghost predicate OneGlues(lines: seq<Line>, packages: seq<string>) {
    exists i :: 0 <= i < |packages| && Glues(lines, packages[i])
  }

  lemma {:induction false} GluesIsReach(lines: seq<Line>, key: string)
    requires !Terminated(lines) && !Blank(lines[|lines| - 1])
    ensures Glues(lines, key) <==> Open(lines, key)
  {
    OpenHasKey(lines, key);
    BehindLastExactly(lines, key);
  }

  lemma {:induction false} GluesIsBehind(lines: seq<Line>, key: string)
    requires !Terminated(lines) && Blank(lines[|lines| - 1])
    ensures Glues(lines, key) <==> BehindLast(lines, key)
  {
  }

  /** The written lines when nothing follows the unended line. */
  lemma {:induction false} WrittenAlone(cur: seq<Line>, x: Line)
    requires cur != [] && Tailed(cur, |cur| - 1, x)
    ensures SplitLines(Joined(cur)) == cur && WithBreak(cur) == cur[|cur| - 1 := x + "\n"]
  {
    AsReadSplitsBack(cur);
  }

  lemma {:induction false} WrittenLoose(cur: seq<Line>, p: nat, x: Line, key: string)
    requires Tailed(cur, p, x) && !Blank(x) && Loose(cur, p)
    ensures Body(WithBreak(SplitLines(Joined(cur))), key) == Body(cur[p := x + "\n"], key)
  {
    if p + 1 == |cur| {
      WrittenAlone(cur, x);
    } else {
      var a, b := cur[..p], cur[p + 2..];
      FourParts(cur, p);
      WrittenGlued(a, x, "\n", b);
      EmptyLineAddsNothing(a + [x + "\n"], b, key);
      Assoc(a, [x + "\n"], ["\n"] + b);
      Assoc(a, [x + "\n"], b);
    }
  }

  lemma {:induction false} StuckIsShorter(a: seq<Line>, x: Line, line: Line, b: seq<Line>, key: string)
    requires OneLine(x) && !Ended(x) && !Blank(x) && IsEntry(line) && Open(a + [x], key)
    ensures Body((a + [x + line]) + b, key) != Body((a + [x + "\n"]) + ([line] + b), key)
  {
    UnendedHasNoBreak(x);
    EntryStart(line);
    LongerIsAlike(x, line);
    LastAlike(a, x, x + "\n");
    LastAlike(a, x + "\n", x + line);
    AlikeBlocks(a + [x], a + [x + "\n"], key);
    GluedBlockIsShorter(a + [x + "\n"], a + [x + line], line, b, key);
  }

  lemma {:induction false} LastAlike(a: seq<Line>, x: Line, y: Line)
    requires AlikeLine(x, y)
    ensures Alike(a + [x], a + [y])
  {
  }

  lemma {:induction false} WrittenStuck(cur: seq<Line>, p: nat, x: Line, line: Line, key: string)
    requires Tailed(cur, p, x) && !Blank(x) && Stuck(cur, p, line) && IsEntry(line) && Open(cur[..p + 1], key)
    ensures Body(WithBreak(SplitLines(Joined(cur))), key) != Body(cur[p := x + "\n"], key)
  {
    var a, b := cur[..p], cur[p + 2..];
    FourParts(cur, p);
    WrittenGlued(a, x, line, b);
    assert cur[..p + 1] == a + [x];
    StuckIsShorter(a, x, line, b, key);
    Assoc(a, [x + "\n"], [line] + b);
    Assoc(a, [x + line], b);
  }

  lemma {:induction false} EntryStart(line: Line)
    requires IsEntry(line)
    ensures line != "" && !IsKeyChar(line[0]) && line[0] != ':'
  {
  }

  lemma {:induction false} WrittenLost(cur: seq<Line>, p: nat, x: Line, key: string)
    requires Tailed(cur, p, x) && Blank(x) && OnlyKeyAt(cur, p + 1, key)
    ensures Body(WithBreak(SplitLines(Joined(cur))), key).None?
  {
    var a, y, b := cur[..p], cur[p + 1], cur[p + 2..];
    FourParts(cur, p);
    WrittenGlued(a, x, y, b);
    var written := a + ([x + y] + b);
    SpaceHasNoKey(x, y);
    forall j | 0 <= j < |written|
      ensures KeyOf(written[j]) != Some(key)
    {
      assert j < p ==> written[j] == cur[j];
      assert j > p ==> written[j] == cur[j + 1];
    }
    NoKeyNoBlock(written, key);
  }

  lemma {:induction false} SpaceHasNoKey(x: Line, y: Line)
    requires Blank(x) && x != ""
    ensures KeyOf(x + y).None?
  {
    BlankStart(x);
    assert (x + y)[0] == x[0];
  }

  lemma {:induction false} RightWhenLoose(lines: seq<Line>, packages: seq<string>, line: Line, p: nat)
    requires AsRead(lines) && !Terminated(lines) && IsEntry(line) && LoopEnd(lines, packages, line, p)
    requires forall i :: 0 <= i < |packages| ==> IsKey(packages[i])
    requires !OneGlues(lines, packages)
    ensures IsRight(lines, SplitLines(Joined(AllAssigned(lines, packages, line))), packages, line)
  {
    var x, cur := lines[|lines| - 1], AllAssigned(lines, packages, line);
    forall key
      ensures Holds(WithBreak(lines), WithBreak(SplitLines(Joined(cur))), key, line, Count(packages, key))
    {
      AssignmentHolds(WithBreak(lines), packages, line, key);
      if Blank(x) {
        NobodyGluesBlank(lines, packages);
        WrittenAlone(cur, x);
      } else {
        NobodyGluesNonblank(lines, packages);
        WrittenLoose(cur, p, x, key);
      }
    }
  }

  lemma {:induction false} NobodyGluesBlank(lines: seq<Line>, packages: seq<string>)
    requires !Terminated(lines) && Blank(lines[|lines| - 1])
    ensures OneBehind(lines, packages) <==> OneGlues(lines, packages)
  {
    forall i | 0 <= i < |packages|
      ensures Glues(lines, packages[i]) <==> BehindLast(lines, packages[i])
    {
      GluesIsBehind(lines, packages[i]);
    }
  }

  lemma {:induction false} NobodyGluesNonblank(lines: seq<Line>, packages: seq<string>)
    requires !Terminated(lines) && !Blank(lines[|lines| - 1])
    ensures OneReaches(lines, packages) <==> OneGlues(lines, packages)
  {
    forall i | 0 <= i < |packages|
      ensures Glues(lines, packages[i]) <==> Open(lines, packages[i])
    {
      GluesIsReach(lines, packages[i]);
    }
  }

  lemma {:induction false} WrongWhenGlued(lines: seq<Line>, packages: seq<string>, line: Line, p: nat)
    requires AsRead(lines) && !Terminated(lines) && IsEntry(line) && LoopEnd(lines, packages, line, p)
    requires forall i :: 0 <= i < |packages| ==> IsKey(packages[i])
    requires OneGlues(lines, packages)
    ensures !IsRight(lines, SplitLines(Joined(AllAssigned(lines, packages, line))), packages, line)
  {
    var x, cur := lines[|lines| - 1], AllAssigned(lines, packages, line);
    var key: string;
    if Blank(x) {
      NobodyGluesBlank(lines, packages);
      key :| key in packages && OnlyKeyAt(cur, p + 1, key);
      WrittenLost(cur, p, x, key);
      Counted(packages, key);
    } else {
      NobodyGluesNonblank(lines, packages);
      var i :| 0 <= i < |packages| && Open(lines, packages[i]);
      key := packages[i];
      WrittenStuck(cur, p, x, line, key);
      AssignmentHolds(WithBreak(lines), packages, line, key);
    }
    assert !Holds(WithBreak(lines), WithBreak(SplitLines(Joined(cur))), key, line, Count(packages, key));
  }

  /**
   * The written file is right exactly when its last line had its line break, or no listed package's lines are
   * put right behind that line: those of another package, in front of which goes an empty line, do no harm.
   */
  lemma {:induction false} WrittenFileIsRightExactly(text: string, packages: seq<string>, product: string)
    requires '\n' !in product && forall i :: 0 <= i < |packages| ==> IsKey(packages[i])
    ensures var lines, line := SplitLines(text), ProductLine(product);
            IsRight(lines, SplitLines(Joined(AllAssigned(lines, packages, line))), packages, line)
            <==> !OneGlues(lines, packages)
  {
    var lines, line := SplitLines(text), ProductLine(product);
    SplitIsAsRead(text);
    ProductLineIsEntry(product);
    ProductLineIsEnded(product);
    if Terminated(lines) {
      RightWhenTerminated(lines, packages, line);
    } else {
      var p := LoopEnds(lines, packages, line);
      if OneGlues(lines, packages) {
        WrongWhenGlued(lines, packages, line, p);
      } else {
        RightWhenLoose(lines, packages, line, p);
      }
    }
  }

  lemma {:induction false} RightWhenTerminated(lines: seq<Line>, packages: seq<string>, line: Line)
    requires AsRead(lines) && Terminated(lines) && IsEntry(line) && Ended(line)
    requires forall i :: 0 <= i < |packages| ==> IsKey(packages[i])
    ensures IsRight(lines, SplitLines(Joined(AllAssigned(lines, packages, line))), packages, line)
  {
    WrittenIsReadBackExactly(lines, packages, line);
    WrittenStays(lines, packages, line);
    forall key
      ensures Holds(lines, AllAssigned(lines, packages, line), key, line, Count(packages, key))
    {
      AssignmentHolds(lines, packages, line, key);
    }
  }

  lemma {:induction false} KeysOfOne(x: Line)
    ensures Keys([x]) == if KeyOf(x).Some? then [KeyOf(x).value] else []
  {
    assert [x][..0] == [];
  }

  lemma {:induction false} KeysOfFirst(a: seq<Line>, x: Line, b: seq<Line>)
    ensures Keys(a + ([x] + b)) == Keys(a) + (Keys([x]) + Keys(b))
  {
    KeysConcat(a, [x] + b);
    KeysConcat([x], b);
  }

  lemma {:induction false} KeysGlued(a: seq<Line>, x: Line, y: Line, b: seq<Line>)
    requires KeyOf(x + y) == KeyOf(x) && KeyOf(y).None?
    ensures Keys(a + ([x] + ([y] + b))) == Keys(a + ([x + y] + b))
  {
    KeysOfFirst(a, x, [y] + b);
    KeysOfFirst(a, x + y, b);
    KeysConcat([y], b);
    KeysOfOne(x);
    KeysOfOne(y);
    KeysOfOne(x + y);
    assert [] + Keys(b) == Keys(b);
  }

  lemma {:induction false} WrittenKeys(cur: seq<Line>, p: nat, x: Line)
    requires Tailed(cur, p, x) && (p + 1 == |cur| || (Loose(cur, p) && !Blank(x)))
    ensures Keys(SplitLines(Joined(cur))) == Keys(cur)
  {
    if p + 1 == |cur| {
      WrittenAlone(cur, x);
    } else {
      var a, b := cur[..p], cur[p + 2..];
      FourParts(cur, p);
      WrittenGlued(a, x, "\n", b);
      UnendedHasNoBreak(x);
      NewlineIsBlank();
      KeysGlued(a, x, "\n", b);
    }
  }

  lemma {:induction false} WrittenKeysStaySorted(lines: seq<Line>, packages: seq<string>, line: Line)
    requires AsRead(lines) && Sorted(Keys(lines)) && IsEntry(line) && Ended(line) && !OneGlues(lines, packages)
    requires forall i :: 0 <= i < |packages| ==> IsKey(packages[i])
    ensures Sorted(Keys(SplitLines(Joined(AllAssigned(lines, packages, line)))))
  {
    AssignmentKeepsKeysSorted(lines, packages, line);
    if Terminated(lines) {
      WrittenIsReadBackExactly(lines, packages, line);
    } else {
      var p := LoopEnds(lines, packages, line);
      if Blank(lines[|lines| - 1]) {
        NobodyGluesBlank(lines, packages);
      } else {
        NobodyGluesNonblank(lines, packages);
      }
      WrittenKeys(AllAssigned(lines, packages, line), p, lines[|lines| - 1]);
    }
  }

  /** Then every listed package's block holds its line behind what it held, and sorted keys stay sorted. */
  lemma {:induction false} WrittenFileHasTheProducts(text: string, packages: seq<string>, product: string, key: string)
    requires '\n' !in product && Sorted(Keys(SplitLines(text))) && !OneGlues(SplitLines(text), packages)
    requires forall i :: 0 <= i < |packages| ==> IsKey(packages[i])
    ensures var lines := SplitLines(text);
            var after := SplitLines(Joined(AllAssigned(lines, packages, ProductLine(product))));
            && Sorted(Keys(after))
            && (key in packages ==>
                  && Body(WithBreak(after), key).Some? && ProductLine(product) in Body(WithBreak(after), key).value
                  && Base(WithBreak(lines), key) <= Body(WithBreak(after), key).value)
            && (key !in packages ==> Body(WithBreak(after), key) == Body(WithBreak(lines), key))
  {
    var lines, line, n := SplitLines(text), ProductLine(product), Count(packages, key);
    WrittenFileIsRightExactly(text, packages, product);
    assert Holds(WithBreak(lines), WithBreak(SplitLines(Joined(AllAssigned(lines, packages, line)))), key, line, n);
    SplitIsAsRead(text);
    ProductLineIsEntry(product);
    ProductLineIsEnded(product);
    WrittenKeysStaySorted(lines, packages, line);
    Counted(packages, key);
    if n > 0 {
      var body := Base(WithBreak(lines), key) + Repeated(line, n);
      assert body[|body| - 1] == line;
    }
  }

  /** A file of one unended blank line: the key of any package is glued to it and its block is lost. */
  lemma {:induction false} BlankLineLosesTheBlock(key: string, product: string)
    requires IsKey(key) && '\n' !in product
    ensures var lines, line := SplitLines(" "), ProductLine(product);
            !IsRight(lines, SplitLines(Joined(AllAssigned(lines, [key], line))), [key], line)
  {
    var lines := SplitLines(" ");
    FirstLineIs(" ", "");
    assert " " + "" == " " && lines == [" "];
    BlankExactly(" ");
    BlankContinues(" ");
    NoKeyNoBlock(lines, key);
    BehindLastExactly(lines, key);
    assert !Terminated(lines) && Glues(lines, [key][0]);
    WrittenFileIsRightExactly(" ", [key], product);
  }

  /** A missing package behind an unended line that is not blank does no harm: that line only gets its break. */
  lemma {:induction false} MissingPackageDoesNoHarm(lines: seq<Line>, key: string)
    requires !Terminated(lines) && !Blank(lines[|lines| - 1]) && !HasKey(lines, key)
    ensures !Glues(lines, key)
  {
  }
}
