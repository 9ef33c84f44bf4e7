/** Editing the top-level blocks of a flat YAML file by line indices. */
module YamlBlocks {
  import opened Wrappers
  import opened Ordering
  import Names

  type Line = string

  function IsKeyChar(c: char): bool {
    'A' <= c <= 'Z' || 'a' <= c <= 'z' || '0' <= c <= '9' || c == '_' || c == '.' || c == '+' || c == '-'
  }

  function KeyPrefix(s: string): string {
    if s == "" || !IsKeyChar(s[0]) then "" else [s[0]] + KeyPrefix(s[1..])
  }

  lemma {:induction false} KeyPrefixIsPrefix(s: string)
    ensures KeyPrefix(s) <= s
  {
    if s != "" && IsKeyChar(s[0]) {
      KeyPrefixIsPrefix(s[1..]);
      assert s == [s[0]] + s[1..];
    }
  }

  /** The key of a top-level line: key characters from its very start, followed by a colon. */
  function KeyOf(line: Line): Option<string> {
    var k := KeyPrefix(line);
    KeyPrefixIsPrefix(line);
    if k != "" && |k| < |line| && line[|k|] == ':' then Some(k) else None
  }

  predicate IsKey(s: string) { s != "" && forall i :: 0 <= i < |s| ==> IsKeyChar(s[i]) }

  lemma {:induction false} KeyOfKeyLine(key: string, rest: string)
    requires IsKey(key)
    ensures KeyOf(key + ":" + rest) == Some(key)
  {
    KeyPrefixOf(key, ":" + rest);
    assert key + ":" + rest == key + (":" + rest);
  }

  lemma {:induction false} KeyPrefixOf(key: string, rest: string)
    requires forall i :: 0 <= i < |key| ==> IsKeyChar(key[i])
    requires rest != "" && !IsKeyChar(rest[0])
    ensures KeyPrefix(key + rest) == key
  {
    if key == "" {
      assert key + rest == rest;
    } else {
      KeyPrefixOf(key[1..], rest);
      assert (key + rest)[1..] == key[1..] + rest;
    }
  }

  /** A line has a key exactly when it begins with key characters and a colon behind them. */
  lemma {:induction false} KeyOfExactly(line: Line, key: string)
    ensures KeyOf(line) == Some(key) <==> IsKey(key) && key + ":" <= line
  {
    KeyPrefixIsPrefix(line);
    if KeyOf(line) == Some(key) {
      KeyCharsOnly(line);
      assert line[..|key| + 1] == key + ":";
    }
    if IsKey(key) && key + ":" <= line {
      KeyOfKeyLine(key, line[|key| + 1..]);
      assert line == key + ":" + line[|key| + 1..];
    }
  }

  lemma {:induction false} KeyCharsOnly(s: string)
    ensures forall i :: 0 <= i < |KeyPrefix(s)| ==> IsKeyChar(KeyPrefix(s)[i])
  {
    if s != "" && IsKeyChar(s[0]) {
      KeyCharsOnly(s[1..]);
    }
  }

  predicate Blank(line: Line) { Names.Strip(line) == "" }

  /** A line that continues the block above it: blank, or indented. */
  predicate Continues(line: Line) { Blank(line) || (line != "" && (line[0] == ' ' || line[0] == '\t')) }

  lemma {:induction false} BlankStart(line: Line)
    requires Blank(line) && line != ""
    ensures Names.IsSpace(line[0])
  {
    if !Names.IsSpace(line[0]) {
      assert Names.LStrip(line) == line;
      RStripKeepsFirst(line);
    }
  }

  lemma {:induction false} RStripKeepsFirst(s: string)
    requires s != "" && !Names.IsSpace(s[0])
    ensures Names.RStrip(s) != ""
  {
    if |s| > 1 && Names.IsSpace(s[|s| - 1]) {
      RStripKeepsFirst(s[..|s| - 1]);
    }
  }

  lemma {:induction false} KeyLineStarts(line: Line)
    requires KeyOf(line).Some?
    ensures !Continues(line)
  {
    assert line != "" && IsKeyChar(line[0]);
    if Blank(line) {
      BlankStart(line);
    }
  }

  function Codes(s: string): (c: seq<int>)
    ensures |c| == |s| && forall i :: 0 <= i < |s| ==> c[i] == s[i] as int
  {
    seq(|s|, i requires 0 <= i < |s| => s[i] as int)
  }

  lemma {:induction false} CodesInjective(a: string, b: string)
    requires Codes(a) == Codes(b)
    ensures a == b
  {
    assert |a| == |b|;
    assert forall i :: 0 <= i < |a| ==> a[i] as int == Codes(a)[i] == Codes(b)[i] == b[i] as int;
  }

  /** Python's order of strings, by code point. */
  predicate KeyLess(a: string, b: string) { CmpSeq(Codes(a), Codes(b)) == Less }

  lemma {:induction false} KeyOrder(a: string, b: string)
    ensures a == b || KeyLess(a, b) || KeyLess(b, a)
    ensures !(KeyLess(a, b) && KeyLess(b, a)) && !KeyLess(a, a)
  {
    CmpSeqEqual(Codes(a), Codes(b));
    CmpSeqEqual(Codes(a), Codes(a));
    CmpSeqFlip(Codes(a), Codes(b));
    if Codes(a) == Codes(b) {
      CodesInjective(a, b);
    }
  }

  lemma {:induction false} KeyLessTransitive(a: string, b: string, c: string)
    requires KeyLess(a, b) && KeyLess(b, c)
    ensures KeyLess(a, c)
  {
    CmpSeqTransitive(Codes(a), Codes(b), Codes(c));
  }

  // ----- blocks -----

  function FirstKey(lines: seq<Line>, key: string, from: nat): (i: nat)
    requires from <= |lines|
    ensures from <= i <= |lines| && (i < |lines| ==> KeyOf(lines[i]) == Some(key))
    ensures forall j :: from <= j < i ==> KeyOf(lines[j]) != Some(key)
    decreases |lines| - from
  {
    if from == |lines| || KeyOf(lines[from]) == Some(key) then from else FirstKey(lines, key, from + 1)
  }

  function EndFrom(lines: seq<Line>, from: nat): (i: nat)
    requires from <= |lines|
    ensures from <= i <= |lines| && (i < |lines| ==> !Continues(lines[i]))
    ensures forall j :: from <= j < i ==> Continues(lines[j])
    decreases |lines| - from
  {
    if from == |lines| || !Continues(lines[from]) then from else EndFrom(lines, from + 1)
  }

  /** The range of lines of a block: from the first line with its key to the next line that does not continue it. */
  function Found(lines: seq<Line>, key: string): (r: Option<(nat, nat)>)
    ensures r.Some? ==> r.value.0 < r.value.1 <= |lines|
  {
    var i := FirstKey(lines, key, 0);
    if i == |lines| then None else Some((i, EndFrom(lines, i + 1)))
  }

  method FindTopLevelYamlBlock(lines: seq<Line>, key: string) returns (r: Option<(nat, nat)>)
    ensures r == Found(lines, key)
  {
    var start := 0;
    while start < |lines| && KeyOf(lines[start]) != Some(key)
      invariant start <= |lines| && forall j :: 0 <= j < start ==> KeyOf(lines[j]) != Some(key)
    {
      start := start + 1;
    }
    if start == |lines| {
      return None;
    }
    var end := start + 1;
    while end < |lines| && Continues(lines[end])
      invariant start < end <= |lines| && forall j :: start < j < end ==> Continues(lines[j])
    {
      end := end + 1;
    }
    r := Some((start, end));
  }

  /** A new block, led by its key and continued to its end. */
  predicate IsBlock(block: seq<Line>, key: string) {
    block != [] && KeyOf(block[0]) == Some(key) && forall i :: 1 <= i < |block| ==> Continues(block[i])
  }

  /** Where a key belongs: before the first greater key. */
  function Place(lines: seq<Line>, key: string, from: nat): (i: nat)
    requires from <= |lines|
    ensures from <= i <= |lines| && (i < |lines| ==> KeyOf(lines[i]).Some? && KeyLess(key, KeyOf(lines[i]).value))
    ensures forall j :: from <= j < i && KeyOf(lines[j]).Some? ==> !KeyLess(key, KeyOf(lines[j]).value)
    decreases |lines| - from
  {
    if from == |lines| || (KeyOf(lines[from]).Some? && KeyLess(key, KeyOf(lines[from]).value)) then from
    else Place(lines, key, from + 1)
  }

  /** What is put in front of a block at the end of the file: an empty line, unless one is there. */
  function Gap(lines: seq<Line>): seq<Line> {
    if lines != [] && !Blank(lines[|lines| - 1]) then ["\n"] else []
  }

  function Inserted(lines: seq<Line>, key: string, block: seq<Line>): seq<Line> {
    var at := Place(lines, key, 0);
    if at == |lines| then lines + Gap(lines) + block else lines[..at] + ((block + ["\n"]) + lines[at..])
  }

  method InsertTopLevelYamlBlock(lines: seq<Line>, key: string, block: seq<Line>) returns (r: seq<Line>)
    ensures r == Inserted(lines, key, block)
  {
    var insertAt, i, n := |lines|, 0, |lines|;
    var searching := true;
    while i < n && searching
      invariant i <= n
      invariant forall j :: 0 <= j < i && KeyOf(lines[j]).Some? ==> !KeyLess(key, KeyOf(lines[j]).value)
      invariant searching ==> insertAt == n
      invariant !searching ==> insertAt == i < n && KeyOf(lines[i]).Some? && KeyLess(key, KeyOf(lines[i]).value)
      decreases n - i, searching
    {
      var m := KeyOf(lines[i]);
      if m.None? {
        i := i + 1;
        continue;
      }
      if KeyLess(key, m.value) {
        insertAt := i;
        searching := false;
        continue;
      }
      i := i + 1;
      while i < n && Continues(lines[i])
        invariant i <= n
        invariant forall j :: 0 <= j < i && KeyOf(lines[j]).Some? ==> !KeyLess(key, KeyOf(lines[j]).value)
      {
        if KeyOf(lines[i]).Some? {
          KeyLineStarts(lines[i]);
        }
        i := i + 1;
      }
    }
    PlaceUnique(lines, key, insertAt);
    if insertAt == |lines| {
      if lines != [] && !Blank(lines[|lines| - 1]) {
        return lines + ["\n"] + block;
      }
      assert lines + [] == lines;
      return lines + block;
    }
    r := lines[..insertAt] + ((block + ["\n"]) + lines[insertAt..]);
  }

  lemma {:induction false} PlaceUnique(lines: seq<Line>, key: string, i: nat)
    requires i <= |lines| && (i < |lines| ==> KeyOf(lines[i]).Some? && KeyLess(key, KeyOf(lines[i]).value))
    requires forall j :: 0 <= j < i && KeyOf(lines[j]).Some? ==> !KeyLess(key, KeyOf(lines[j]).value)
    ensures Place(lines, key, 0) == i
  {
  }

  /** Back over the blank lines at the end of a block, but not over its first line. */
  function BeforeBlanks(lines: seq<Line>, start: nat, end: nat): (i: nat)
    requires start < end <= |lines|
    ensures start < i <= end && (i > start + 1 ==> !Blank(lines[i - 1]))
    ensures forall j :: i <= j < end ==> Blank(lines[j])
  {
    if end > start + 1 && Blank(lines[end - 1]) then BeforeBlanks(lines, start, end - 1) else end
  }

  function WithLine(lines: seq<Line>, start: nat, end: nat, line: Line): seq<Line>
    requires start < end <= |lines|
  {
    var at := BeforeBlanks(lines, start, end);
    lines[..at] + [line] + lines[at..]
  }

  method AppendKeyToYamlBlock(lines: seq<Line>, start: nat, end: nat, line: Line) returns (r: seq<Line>)
    requires start < end <= |lines|
    ensures r == WithLine(lines, start, end, line)
  {
    var at := end;
    while at > start + 1 && Blank(lines[at - 1])
      invariant start < at <= end && BeforeBlanks(lines, start, at) == BeforeBlanks(lines, start, end)
    {
      at := at - 1;
    }
    r := lines[..at] + [line] + lines[at..];
  }

  // ----- blocks as contents -----

  /** The lines at the front that continue whatever comes before. */
  function Continuation(lines: seq<Line>): seq<Line> {
    if lines == [] || !Continues(lines[0]) then [] else [lines[0]] + Continuation(lines[1..])
  }

  /** The lines of the block with the key: the first line that has it, and what continues it. */
  function BlockOf(lines: seq<Line>, key: string): (block: Option<seq<Line>>)
    ensures block.Some? ==> block.value != []
  {
    if lines == [] then None
    else if KeyOf(lines[0]) == Some(key) then Some([lines[0]] + Continuation(lines[1..]))
    else BlockOf(lines[1..], key)
  }

  predicate HasKey(lines: seq<Line>, key: string) { BlockOf(lines, key).Some? }

  function Trimmed(block: seq<Line>): seq<Line> {
    if block != [] && Blank(block[|block| - 1]) then Trimmed(block[..|block| - 1]) else block
  }

  /** The lines of the block, without the blank ones at its end. */
  function Body(lines: seq<Line>, key: string): Option<seq<Line>> {
    var b := BlockOf(lines, key);
    if b.None? then None else Some(Trimmed(b.value))
  }

  lemma {:induction false} ContinuationConcat(a: seq<Line>, b: seq<Line>)
    ensures |Continuation(a)| <= |a|
    ensures Continuation(a + b) == if |Continuation(a)| == |a| then a + Continuation(b) else Continuation(a)
  {
    if a == [] {
      assert a + b == b;
    } else if Continues(a[0]) {
      ContinuationConcat(a[1..], b);
      assert (a + b)[1..] == a[1..] + b;
      assert a == [a[0]] + a[1..];
      Assoc([a[0]], a[1..], Continuation(b));
    }
  }

  lemma {:induction false} Assoc<T>(a: seq<T>, b: seq<T>, c: seq<T>)
    ensures (a + b) + c == a + (b + c)
  {
  }

  /** Whether the block reaches the end of the lines. */
  predicate Open(lines: seq<Line>, key: string) {
    lines != [] &&
    if KeyOf(lines[0]) == Some(key) then |Continuation(lines[1..])| == |lines| - 1 else Open(lines[1..], key)
  }

  lemma {:induction false} BlockConcat(a: seq<Line>, b: seq<Line>, key: string)
    ensures BlockOf(a + b, key) ==
            if BlockOf(a, key).None? then BlockOf(b, key)
            else if Open(a, key) then Some(BlockOf(a, key).value + Continuation(b))
            else BlockOf(a, key)
  {
    if a == [] {
      assert a + b == b;
    } else {
      assert (a + b)[1..] == a[1..] + b;
      if KeyOf(a[0]) == Some(key) {
        ContinuationConcat(a[1..], b);
        ContinuationConcat(a[1..], []);
        assert a[1..] + [] == a[1..];
        Assoc([a[0]], Continuation(a[1..]), Continuation(b));
      } else {
        BlockConcat(a[1..], b, key);
      }
    }
  }

  lemma {:induction false} NoContinuation(block: seq<Line>, key: string, rest: seq<Line>)
    requires IsBlock(block, key)
    ensures Continuation(block + rest) == []
  {
    KeyLineStarts(block[0]);
    assert (block + rest)[0] == block[0];
  }

  /** What follows a line of its own is the same whatever stands in between, as long as it has no such key. */
  lemma {:induction false} BlockBeyond(a: seq<Line>, b: seq<Line>, b': seq<Line>, key: string)
    requires Continuation(b) == [] && Continuation(b') == [] && BlockOf(b, key) == BlockOf(b', key)
    ensures BlockOf(a + b, key) == BlockOf(a + b', key)
  {
    BlockConcat(a, b, key);
    BlockConcat(a, b', key);
    if BlockOf(a, key).Some? {
      assert BlockOf(a, key).value + [] == BlockOf(a, key).value;
    }
  }

  lemma {:induction false} AllContinue(lines: seq<Line>)
    requires forall i :: 0 <= i < |lines| ==> Continues(lines[i])
    ensures Continuation(lines) == lines
  {
    if lines != [] {
      AllContinue(lines[1..]);
      assert lines == [lines[0]] + lines[1..];
    }
  }

  lemma {:induction false} NoKeyNoBlock(lines: seq<Line>, key: string)
    requires forall i :: 0 <= i < |lines| ==> KeyOf(lines[i]) != Some(key)
    ensures BlockOf(lines, key).None?
  {
    if lines != [] {
      assert forall i :: 0 <= i < |lines| - 1 ==> lines[1..][i] == lines[i + 1];
      NoKeyNoBlock(lines[1..], key);
    }
  }

  /** A block and what continues it is the block with its key, and no other block starts in it. */
  lemma {:induction false} BlockItself(block: seq<Line>, key: string, other: string)
    requires IsBlock(block, key)
    ensures BlockOf(block, key) == Some(block) && Open(block, key)
    ensures other != key ==> BlockOf(block, other).None?
  {
    var tail := block[1..];
    AllContinue(tail);
    assert block == [block[0]] + tail;
    forall i | 0 <= i < |tail|
      ensures KeyOf(tail[i]).None?
    {
      if KeyOf(tail[i]).Some? {
        KeyLineStarts(tail[i]);
      }
    }
    if other != key {
      NoKeyNoBlock(tail, other);
    }
  }

  /** A block between lines without its key and lines that do not continue it is found whole. */
  lemma {:induction false} BlockBetween(a: seq<Line>, block: seq<Line>, b: seq<Line>, key: string)
    requires BlockOf(a, key).None? && IsBlock(block, key) && Continuation(b) == []
    ensures BlockOf(a + (block + b), key) == Some(block)
  {
    BlockItself(block, key, key);
    BlockConcat(a, block + b, key);
    BlockConcat(block, b, key);
    assert block + [] == block;
  }

  /** It changes no other block. */
  lemma {:induction false} OtherBlocksBetween(
    a: seq<Line>, block: seq<Line>, block': seq<Line>, b: seq<Line>, key: string, other: string)
    requires IsBlock(block, key) && IsBlock(block', key) && other != key
    ensures BlockOf(a + (block + b), other) == BlockOf(a + (block' + b), other)
  {
    BlockItself(block, key, other);
    BlockItself(block', key, other);
    BlockConcat(block, b, other);
    BlockConcat(block', b, other);
    NoContinuation(block, key, b);
    NoContinuation(block', key, b);
    BlockBeyond(a, block + b, block' + b, other);
  }

  lemma {:induction false} Parts<T>(s: seq<T>, at: nat)
    requires at <= |s|
    ensures s[..at] + s[at..] == s
  {
  }

  lemma {:induction false} ThreeParts<T>(s: seq<T>, i: nat, j: nat)
    requires i <= j <= |s|
    ensures s == s[..i] + (s[i..j] + s[j..])
  {
  }

  /** The block with the key is the range of lines, with no such key before it and nothing of it behind. */
  ghost predicate Around(lines: seq<Line>, key: string, s: nat, e: nat) {
    && s < e <= |lines|
    && BlockOf(lines[..s], key).None? && IsBlock(lines[s..e], key) && Continuation(lines[e..]) == []
    && lines == lines[..s] + (lines[s..e] + lines[e..])
    && BlockOf(lines, key) == Some(lines[s..e])
  }

  lemma {:induction false} RangeIsBlock(lines: seq<Line>, key: string, s: nat, e: nat)
    requires s < e <= |lines| && KeyOf(lines[s]) == Some(key) && BlockOf(lines[..s], key).None?
    requires (forall k :: s < k < e ==> Continues(lines[k])) && (e < |lines| ==> !Continues(lines[e]))
    ensures Around(lines, key, s, e)
  {
    ThreeParts(lines, s, e);
    var block := lines[s..e];
    assert forall k :: 1 <= k < e - s ==> block[k] == lines[s + k];
    assert e < |lines| ==> lines[e..][0] == lines[e];
    BlockBetween(lines[..s], block, lines[e..], key);
  }

  /** The search finds the block, and finds nothing exactly when there is none. */
  lemma {:induction false} FoundIsBlock(lines: seq<Line>, key: string)
    ensures var r := Found(lines, key);
            if r.Some? then Around(lines, key, r.value.0, r.value.1) else BlockOf(lines, key).None?
  {
    var s := FirstKey(lines, key, 0);
    NoKeyNoBlock(lines[..s], key);
    if s == |lines| {
      assert lines[..s] == lines;
    } else {
      RangeIsBlock(lines, key, s, EndFrom(lines, s + 1));
    }
  }

  lemma {:induction false} TrimmedBlank(block: seq<Line>, line: Line)
    requires Blank(line)
    ensures Trimmed(block + [line]) == Trimmed(block)
  {
    assert (block + [line])[..|block|] == block;
  }

  lemma {:induction false} NewlineIsBlank()
    ensures Blank("\n") && Continues("\n") && KeyOf("\n").None?
    ensures Continuation(["\n"]) == ["\n"]
  {
    assert "\n"[1..] == "";
    assert Names.LStrip("\n") == "";
    assert ["\n"][1..] == [];
  }

  // ----- inserting -----

  lemma {:induction false} OtherBodyAtEnd(lines: seq<Line>, gap: seq<Line>, block: seq<Line>, key: string, other: string)
    requires (gap == [] || gap == ["\n"]) && IsBlock(block, key) && other != key
    ensures Body(lines + gap + block, other) == Body(lines, other)
  {
    NewlineIsBlank();
    BlockItself(block, key, other);
    NoContinuation(block, key, []);
    assert block + [] == block;
    BlockConcat(lines + gap, block, other);
    BlockConcat(lines, gap, other);
    if gap == ["\n"] {
      NoKeyNoBlock(gap, other);
    } else {
      assert lines + gap == lines;
    }
    if BlockOf(lines, other).Some? {
      var b := BlockOf(lines, other).value;
      TrimmedBlank(b, "\n");
      assert b + [] == b && (b + gap) + [] == b + gap;
    }
  }

  /** Inserting a block changes no other block, up to blank lines at its end. */
  lemma {:induction false} InsertingKeepsOtherBlocks(lines: seq<Line>, key: string, block: seq<Line>, other: string)
    requires IsBlock(block, key) && other != key
    ensures Body(Inserted(lines, key, block), other) == Body(lines, other)
  {
    var at := Place(lines, key, 0);
    if at == |lines| {
      OtherBodyAtEnd(lines, Gap(lines), block, key, other);
    } else {
      var a, b, m := lines[..at], lines[at..], block + ["\n"];
      KeyLineStarts(lines[at]);
      NewlineIsBlank();
      assert IsBlock(m, key);
      BlockItself(m, key, other);
      BlockConcat(m, b, other);
      NoContinuation(m, key, b);
      BlockBeyond(a, b, m + b, other);
      Parts(lines, at);
    }
  }

  lemma {:induction false} NoBlockBefore(lines: seq<Line>, gap: seq<Line>, at: nat, key: string)
    requires !HasKey(lines, key) && at <= |lines| && (gap == [] || gap == ["\n"])
    ensures BlockOf(lines[..at], key).None? && BlockOf(lines + gap, key).None?
  {
    NewlineIsBlank();
    BlockConcat(lines[..at], lines[at..], key);
    Parts(lines, at);
    BlockConcat(lines, gap, key);
    NoKeyNoBlock(gap, key);
  }

  /** The body of the new block is the text that was asked for. */
  lemma {:induction false} InsertedBody(lines: seq<Line>, key: string, block: seq<Line>)
    requires IsBlock(block, key) && !HasKey(lines, key)
    ensures Body(Inserted(lines, key, block), key) == Some(Trimmed(block))
  {
    var at := Place(lines, key, 0);
    NoBlockBefore(lines, Gap(lines), at, key);
    if at == |lines| {
      BlockBetween(lines + Gap(lines), block, [], key);
      assert block + [] == block;
    } else {
      KeyLineStarts(lines[at]);
      NewlineIsBlank();
      BlockBetween(lines[..at], block + ["\n"], lines[at..], key);
      TrimmedBlank(block, "\n");
    }
  }

  /** A block between lines without its key and lines that do not continue it is where the search finds it. */
  lemma {:induction false} FoundBetween(a: seq<Line>, block: seq<Line>, b: seq<Line>, key: string)
    requires BlockOf(a, key).None? && IsBlock(block, key) && Continuation(b) == []
    ensures Found(a + (block + b), key) == Some((|a|, |a| + |block|))
  {
    var lines := a + (block + b);
    NoBlockNoKey(a, key);
    assert forall j :: 0 <= j < |a| ==> lines[j] == a[j];
    assert forall j :: 0 <= j < |block| ==> lines[|a| + j] == block[j];
    assert b != [] ==> lines[|a| + |block|] == b[0];
    FirstKeyAt(lines, key, |a|);
    EndAt(lines, |a| + 1, |a| + |block|);
  }

  lemma {:induction false} FirstKeyAt(lines: seq<Line>, key: string, i: nat)
    requires i < |lines| && KeyOf(lines[i]) == Some(key) && forall j :: 0 <= j < i ==> KeyOf(lines[j]) != Some(key)
    ensures FirstKey(lines, key, 0) == i
  {
  }

  lemma {:induction false} EndAt(lines: seq<Line>, from: nat, e: nat)
    requires from <= e <= |lines| && (forall j :: from <= j < e ==> Continues(lines[j]))
    requires e < |lines| ==> !Continues(lines[e])
    ensures EndFrom(lines, from) == e
  {
  }

  lemma {:induction false} NoBlockNoKey(lines: seq<Line>, key: string)
    requires BlockOf(lines, key).None?
    ensures forall i :: 0 <= i < |lines| ==> KeyOf(lines[i]) != Some(key)
  {
    if lines != [] {
      NoBlockNoKey(lines[1..], key);
      forall i | 0 <= i < |lines|
        ensures KeyOf(lines[i]) != Some(key)
      {
        assert i > 0 ==> lines[i] == lines[1..][i - 1];
      }
    }
  }

  ghost predicate IsAt(after: seq<Line>, key: string, block: seq<Line>, s: nat, e: nat) {
    Found(after, key) == Some((s, e)) && s + |block| <= e <= |after| && after[s..s + |block|] == block
  }

  /** Taking the lines of a range out leaves the other file. */
  ghost predicate WithoutRange(after: seq<Line>, s: nat, e: nat, lines: seq<Line>) {
    s <= e <= |after| && after[..s] + after[e..] == lines
  }

  lemma {:induction false} FoundAtEnd(a: seq<Line>, block: seq<Line>, key: string)
    requires BlockOf(a, key).None? && IsBlock(block, key)
    ensures var after := a + block; IsAt(after, key, block, |a|, |after|) && after[..|a|] == a
  {
    FoundBetween(a, block, [], key);
    CutOut(a, block, []);
    assert block + [] == block;
  }

  /** A block put at the end is found there, behind the lines that were there and at most one empty line. */
  lemma {:induction false} InsertedIsFoundAtEnd(lines: seq<Line>, key: string, block: seq<Line>)
    requires IsBlock(block, key) && !HasKey(lines, key) && Place(lines, key, 0) == |lines|
    ensures var after, before := Inserted(lines, key, block), lines + Gap(lines);
            IsAt(after, key, block, |before|, |after|) && after[..|before|] == before
  {
    NoBlockBefore(lines, Gap(lines), |lines|, key);
    FoundAtEnd(lines + Gap(lines), block, key);
  }

  /** A block put between others is found at its place, with the empty line that separates it from the next one. */
  lemma {:induction false} InsertedIsFoundInside(lines: seq<Line>, key: string, block: seq<Line>)
    requires IsBlock(block, key) && !HasKey(lines, key) && Place(lines, key, 0) < |lines|
    ensures var at := Place(lines, key, 0);
            Found(Inserted(lines, key, block), key) == Some((at, at + |block| + 1))
  {
    var at := Place(lines, key, 0);
    FoundFromParts(lines, key, block, at, Inserted(lines, key, block));
  }

  lemma {:induction false} FoundFromParts(lines: seq<Line>, key: string, block: seq<Line>, at: nat, after: seq<Line>)
    requires IsBlock(block, key) && !HasKey(lines, key) && at < |lines| && KeyOf(lines[at]).Some?
    requires after == lines[..at] + ((block + ["\n"]) + lines[at..])
    ensures Found(after, key) == Some((at, at + |block| + 1))
  {
    InsideParts(lines, key, block, at);
    FoundBetween(lines[..at], block + ["\n"], lines[at..], key);
  }

  /** Its lines are the ones asked for, and taking them out again gives the file back. */
  lemma {:induction false} TakingOutRestores(lines: seq<Line>, key: string, block: seq<Line>)
    requires Place(lines, key, 0) < |lines|
    ensures var at, after := Place(lines, key, 0), Inserted(lines, key, block);
            WithoutRange(after, at, at + |block| + 1, lines) && after[at..at + |block|] == block
  {
    var at := Place(lines, key, 0);
    Parts(lines, at);
    CutOut(lines[..at], block + ["\n"], lines[at..]);
    assert (block + ["\n"])[..|block|] == block;
  }

  lemma {:induction false} InsideParts(lines: seq<Line>, key: string, block: seq<Line>, at: nat)
    requires IsBlock(block, key) && !HasKey(lines, key) && at < |lines| && KeyOf(lines[at]).Some?
    ensures BlockOf(lines[..at], key).None? && IsBlock(block + ["\n"], key) && Continuation(lines[at..]) == []
    ensures |lines[..at]| == at && lines == lines[..at] + lines[at..]
  {
    NoBlockBefore(lines, [], at, key);
    KeyLineStarts(lines[at]);
    NewlineIsBlank();
    Parts(lines, at);
  }

  lemma {:induction false} CutOut<T>(a: seq<T>, m: seq<T>, b: seq<T>)
    ensures var s := a + (m + b);
            && s[..|a|] == a && s[|a| + |m|..] == b
            && forall k :: 0 <= k <= |m| ==> s[|a|..|a| + k] == m[..k]
  {
  }

  // ----- sorted keys -----

  function Keys(lines: seq<Line>): seq<string> {
    if lines == [] then []
    else
      var k := KeyOf(lines[|lines| - 1]);
      Keys(lines[..|lines| - 1]) + if k.Some? then [k.value] else []
  }

  predicate Sorted(keys: seq<string>) { forall i, j :: 0 <= i < j < |keys| ==> KeyLess(keys[i], keys[j]) }

  lemma {:induction false} KeysConcat(a: seq<Line>, b: seq<Line>)
    ensures Keys(a + b) == Keys(a) + Keys(b)
  {
    if b == [] {
      assert a + b == a;
    } else {
      assert (a + b)[..|a + b| - 1] == a + b[..|b| - 1];
      KeysConcat(a, b[..|b| - 1]);
    }
  }

  lemma {:induction false} KeysOfContinuation(lines: seq<Line>)
    requires forall i :: 0 <= i < |lines| ==> KeyOf(lines[i]).None?
    ensures Keys(lines) == []
  {
    if lines != [] {
      KeysOfContinuation(lines[..|lines| - 1]);
    }
  }

  lemma {:induction false} KeysOfBlock(block: seq<Line>, key: string)
    requires IsBlock(block, key)
    ensures Keys(block) == [key]
  {
    var tail := block[1..];
    forall i | 0 <= i < |tail|
      ensures KeyOf(tail[i]).None?
    {
      if KeyOf(tail[i]).Some? {
        KeyLineStarts(tail[i]);
      }
    }
    KeysOfContinuation(tail);
    KeysConcat([block[0]], tail);
    assert block == [block[0]] + tail;
    assert [block[0]][..0] == [];
    assert Keys([block[0]]) == [key];
  }

  /** Every key of some lines is the key of one of them. */
  lemma {:induction false} KeyHasLine(lines: seq<Line>, i: nat)
    requires i < |Keys(lines)|
    ensures exists j :: 0 <= j < |lines| && KeyOf(lines[j]) == Some(Keys(lines)[i])
    decreases |lines|
  {
    var init := lines[..|lines| - 1];
    if i < |Keys(init)| {
      KeyHasLine(init, i);
      var j :| 0 <= j < |init| && KeyOf(init[j]) == Some(Keys(init)[i]);
      assert KeyOf(lines[j]) == Some(Keys(lines)[i]);
    } else {
      assert KeyOf(lines[|lines| - 1]) == Some(Keys(lines)[i]);
    }
  }

  /** The keys after an insertion: the keys in front of the place, the new key, the keys behind it. */
  lemma {:induction false} InsertedKeys(lines: seq<Line>, key: string, block: seq<Line>)
    requires IsBlock(block, key)
    ensures var at := Place(lines, key, 0);
            Keys(Inserted(lines, key, block)) == Keys(lines[..at]) + [key] + Keys(lines[at..])
  {
    var at := Place(lines, key, 0);
    KeysOfBlock(block, key);
    if at == |lines| {
      KeysOfGap(Gap(lines));
      KeysConcat(lines, Gap(lines));
      KeysConcat(lines + Gap(lines), block);
      assert lines[..at] == lines && lines[at..] == [];
    } else {
      KeysOfGap(["\n"]);
      KeysOfThree(lines[..at], block, ["\n"], lines[at..]);
    }
  }

  lemma {:induction false} KeysOfGap(gap: seq<Line>)
    requires gap == [] || gap == ["\n"]
    ensures Keys(gap) == []
  {
    NewlineIsBlank();
    assert ["\n"][..0] == [];
  }

  lemma {:induction false} KeysOfThree(a: seq<Line>, block: seq<Line>, gap: seq<Line>, b: seq<Line>)
    requires Keys(gap) == []
    ensures Keys(a + ((block + gap) + b)) == Keys(a) + Keys(block) + Keys(b)
  {
    KeysConcat(block, gap);
    KeysConcat(block + gap, b);
    KeysConcat(a, (block + gap) + b);
    assert Keys(block) + [] == Keys(block);
    Assoc(Keys(a), Keys(block), Keys(b));
  }

  /** Inserting a missing key keeps sorted unique keys sorted and unique. */
  lemma {:induction false} InsertingKeepsKeysSorted(lines: seq<Line>, key: string, block: seq<Line>)
    requires IsBlock(block, key) && Sorted(Keys(lines)) && !HasKey(lines, key)
    ensures Sorted(Keys(Inserted(lines, key, block)))
  {
    InsertedKeys(lines, key, block);
    var at := Place(lines, key, 0);
    KeysConcat(lines[..at], lines[at..]);
    Parts(lines, at);
    SortedParts(Keys(lines[..at]), Keys(lines[at..]));
    NoBlockNoKey(lines, key);
    AllBefore(lines, key, at);
    if Keys(lines[at..]) != [] {
      FirstAfter(lines, key, at);
    }
    SortedWith(Keys(lines[..at]), key, Keys(lines[at..]));
  }

  lemma {:induction false} AllBefore(lines: seq<Line>, key: string, at: nat)
    requires at <= |lines| && forall j :: 0 <= j < |lines| ==> KeyOf(lines[j]) != Some(key)
    requires forall j :: 0 <= j < at && KeyOf(lines[j]).Some? ==> !KeyLess(key, KeyOf(lines[j]).value)
    ensures var before := Keys(lines[..at]); forall i :: 0 <= i < |before| ==> KeyLess(before[i], key)
  {
    var before := Keys(lines[..at]);
    forall i | 0 <= i < |before|
      ensures KeyLess(before[i], key)
    {
      KeyHasLine(lines[..at], i);
      var j :| 0 <= j < at && KeyOf(lines[..at][j]) == Some(before[i]);
      assert KeyOf(lines[j]) == Some(before[i]);
      KeyOrder(before[i], key);
    }
  }

  lemma {:induction false} SortedParts(a: seq<string>, b: seq<string>)
    requires Sorted(a + b)
    ensures Sorted(a) && Sorted(b) && forall i, j :: 0 <= i < |a| && 0 <= j < |b| ==> KeyLess(a[i], b[j])
  {
    var c := a + b;
    assert forall i :: 0 <= i < |a| ==> c[i] == a[i];
    assert forall j :: 0 <= j < |b| ==> c[j + |a|] == b[j];
  }

  lemma {:induction false} FirstAfter(lines: seq<Line>, key: string, at: nat)
    requires at == Place(lines, key, 0) && Keys(lines[at..]) != []
    ensures KeyLess(key, Keys(lines[at..])[0])
  {
    var rest := lines[at..];
    assert rest != [] && at < |lines|;
    KeysConcat([rest[0]], rest[1..]);
    assert rest == [rest[0]] + rest[1..];
    assert [rest[0]][..0] == [] && Keys([rest[0]]) == [KeyOf(rest[0]).value];
  }

  lemma {:induction false} SortedWith(a: seq<string>, key: string, b: seq<string>)
    requires Sorted(a) && Sorted(b) && (forall i :: 0 <= i < |a| ==> KeyLess(a[i], key))
    requires b != [] ==> KeyLess(key, b[0])
    ensures Sorted(a + [key] + b)
  {
    forall j | 0 <= j < |b|
      ensures KeyLess(key, b[j])
    {
      if j > 0 {
        KeyLessTransitive(key, b[0], b[j]);
      }
    }
    forall i, j | 0 <= i < |a| && 0 <= j < |b|
      ensures KeyLess(a[i], b[j])
    {
      KeyLessTransitive(a[i], key, b[j]);
    }
  }

  // ----- appending to a block -----

  /** An indented line that is not blank. */
  predicate IsEntry(line: Line) { Continues(line) && !Blank(line) }

  lemma {:induction false} TrimmedAllBlank(block: seq<Line>, blanks: seq<Line>)
    requires forall i :: 0 <= i < |blanks| ==> Blank(blanks[i])
    requires block != [] && !Blank(block[|block| - 1])
    ensures Trimmed(block + blanks) == block
  {
    if blanks == [] {
      assert block + blanks == block;
    } else {
      var init := blanks[..|blanks| - 1];
      TrimmedAllBlank(block, init);
      assert block + blanks == (block + init) + [blanks[|blanks| - 1]];
      TrimmedBlank(block + init, blanks[|blanks| - 1]);
    }
  }

  /** The file around a block: a line is appended inside it, before its trailing blank lines. */
  lemma {:induction false} WithLineParts(lines: seq<Line>, s: nat, e: nat, line: Line)
    requires s < e <= |lines|
    ensures var at := BeforeBlanks(lines, s, e);
            && lines[s..e] == lines[s..at] + lines[at..e]
            && WithLine(lines, s, e, line) == lines[..s] + ((lines[s..at] + [line] + lines[at..e]) + lines[e..])
  {
    var at := BeforeBlanks(lines, s, e);
    assert lines[..at] == lines[..s] + lines[s..at];
    assert lines[at..] == lines[at..e] + lines[e..];
    Regrouped(lines[..s], lines[s..at], [line], lines[at..e], lines[e..]);
  }

  lemma {:induction false} Regrouped<T>(a: seq<T>, b: seq<T>, c: seq<T>, d: seq<T>, e: seq<T>)
    ensures (a + b) + c + (d + e) == a + ((b + c + d) + e)
  {
  }

  /** Between the first line and the trailing blank lines, a block takes any line that continues it. */
  lemma {:induction false} LongerBlock(lines: seq<Line>, s: nat, e: nat, key: string, line: Line)
    requires s < e <= |lines| && IsBlock(lines[s..e], key) && IsEntry(line)
    ensures var at := BeforeBlanks(lines, s, e);
            var longer := lines[s..at] + [line] + lines[at..e];
            && IsBlock(longer, key)
            && Trimmed(lines[s..e]) == lines[s..at] && Trimmed(longer) == lines[s..at] + [line]
  {
    var at := BeforeBlanks(lines, s, e);
    WithLineParts(lines, s, e, line);
    KeyLineStarts(lines[s..e][0]);
    assert lines[s..e][0] == lines[s];
    assert !Blank(lines[at - 1]);
    BlanksAreTrimmed(lines, s, at, e, line);
    LongerIsBlock(lines[s..at], line, lines[at..e], key);
  }

  lemma {:induction false} BlanksAreTrimmed(lines: seq<Line>, s: nat, at: nat, e: nat, line: Line)
    requires s < at <= e <= |lines| && !Blank(lines[at - 1]) && !Blank(line)
    requires forall j :: at <= j < e ==> Blank(lines[j])
    requires lines[s..e] == lines[s..at] + lines[at..e]
    ensures Trimmed(lines[s..e]) == lines[s..at]
    ensures Trimmed(lines[s..at] + [line] + lines[at..e]) == lines[s..at] + [line]
  {
    TrimmedAllBlank(lines[s..at], lines[at..e]);
    TrimmedAllBlank(lines[s..at] + [line], lines[at..e]);
  }

  lemma {:induction false} LongerIsBlock(core: seq<Line>, line: Line, blanks: seq<Line>, key: string)
    requires core != [] && IsBlock(core + blanks, key) && Continues(line)
    ensures IsBlock(core + [line] + blanks, key)
  {
    var block, longer := core + blanks, core + [line] + blanks;
    assert longer[0] == block[0];
    forall i | 1 <= i < |longer|
      ensures Continues(longer[i])
    {
      assert i < |core| ==> longer[i] == block[i];
      assert i > |core| ==> longer[i] == block[i - 1];
    }
  }

  /** The appended line becomes the last line of the body of its block. */
  lemma {:induction false} AppendedBody(lines: seq<Line>, key: string, line: Line, s: nat, e: nat)
    requires Found(lines, key) == Some((s, e)) && IsEntry(line)
    ensures HasKey(lines, key)
    ensures Body(WithLine(lines, s, e, line), key) == Some(Body(lines, key).value + [line])
  {
    FoundIsBlock(lines, key);
    WithLineParts(lines, s, e, line);
    LongerBlock(lines, s, e, key, line);
    var at := BeforeBlanks(lines, s, e);
    BlockBetween(lines[..s], lines[s..at] + [line] + lines[at..e], lines[e..], key);
  }

  /** Appending to a block leaves every other block as it was. */
  lemma {:induction false} AppendingKeepsOtherBlocks(
    lines: seq<Line>, key: string, line: Line, other: string, s: nat, e: nat)
    requires Found(lines, key) == Some((s, e)) && IsEntry(line) && other != key
    ensures BlockOf(WithLine(lines, s, e, line), other) == BlockOf(lines, other)
  {
    FoundIsBlock(lines, key);
    WithLineParts(lines, s, e, line);
    LongerBlock(lines, s, e, key, line);
    var at := BeforeBlanks(lines, s, e);
    OtherBlocksBetween(lines[..s], lines[s..e], lines[s..at] + [line] + lines[at..e], lines[e..], key, other);
  }

  lemma {:induction false} AppendingKeepsKeys(lines: seq<Line>, s: nat, e: nat, line: Line)
    requires s < e <= |lines| && IsEntry(line)
    ensures Keys(WithLine(lines, s, e, line)) == Keys(lines)
  {
    var at := BeforeBlanks(lines, s, e);
    if KeyOf(line).Some? {
      KeyLineStarts(line);
    }
    assert [line][..0] == [] && Keys([line]) == [];
    KeysConcat(lines[..at], [line]);
    KeysConcat(lines[..at] + [line], lines[at..]);
    KeysConcat(lines[..at], lines[at..]);
    Parts(lines, at);
  }

  // ----- the loop over the packages -----

  function ProductLine(product: string): Line { "  private_product: " + product + "\n" }

  function NewBlock(key: string, line: Line): seq<Line> { [key + ":" + "\n", line] }

  /** One package: the line goes into its block, which is made when there is none. */
  function Assigned(lines: seq<Line>, key: string, line: Line): seq<Line> {
    var r := Found(lines, key);
    if r.None? then Inserted(lines, key, NewBlock(key, line))
    else WithLine(lines, r.value.0, r.value.1, line)
  }

  function AllAssigned(lines: seq<Line>, packages: seq<string>, line: Line): seq<Line> {
    if packages == [] then lines
    else Assigned(AllAssigned(lines, packages[..|packages| - 1], line), packages[|packages| - 1], line)
  }

  method AssignPackages(lines: seq<Line>, packages: seq<string>, product: string) returns (r: seq<Line>)
    ensures r == AllAssigned(lines, packages, ProductLine(product))
  {
    r := lines;
    for i := 0 to |packages|
      invariant r == AllAssigned(lines, packages[..i], ProductLine(product))
    {
      assert packages[..i + 1][..i] == packages[..i];
      var block := FindTopLevelYamlBlock(r, packages[i]);
      if block.None? {
        r := InsertTopLevelYamlBlock(r, packages[i], NewBlock(packages[i], ProductLine(product)));
      } else {
        r := AppendKeyToYamlBlock(r, block.value.0, block.value.1, ProductLine(product));
      }
    }
    assert packages[..|packages|] == packages;
  }

  lemma {:induction false} ProductLineIsEntry(product: string)
    ensures IsEntry(ProductLine(product))
  {
    var line := ProductLine(product);
    assert line[0] == ' ' && line[1] == ' ' && line[2] == 'p';
    assert Names.LStrip(line) == Names.LStrip(line[1..]);
    assert line[1..][0] == ' ' && line[1..][1..] == line[2..];
    assert Names.LStrip(line[1..]) == Names.LStrip(line[2..]) == line[2..];
    RStripKeepsFirst(line[2..]);
  }

  lemma {:induction false} NewBlockIsBlock(key: string, line: Line)
    requires IsKey(key) && IsEntry(line)
    ensures IsBlock(NewBlock(key, line), key) && Trimmed(NewBlock(key, line)) == NewBlock(key, line)
  {
    KeyOfKeyLine(key, "\n");
  }

  /** What a block holds before any line is assigned to it: its body, or only the line with its key. */
  function Base(lines: seq<Line>, key: string): seq<Line> {
    var b := Body(lines, key);
    if b.Some? then b.value else [key + ":" + "\n"]
  }

  /** One assignment: the block of the package holds what it held and then the new line; nothing else changes. */
  lemma {:induction false} AssignedBodies(lines: seq<Line>, key: string, line: Line, other: string)
    requires IsKey(key) && IsEntry(line)
    ensures Body(Assigned(lines, key, line), key) == Some(Base(lines, key) + [line])
    ensures other != key ==> Body(Assigned(lines, key, line), other) == Body(lines, other)
  {
    FoundIsBlock(lines, key);
    var r := Found(lines, key);
    if r.Some? {
      AppendedBody(lines, key, line, r.value.0, r.value.1);
      if other != key {
        AppendingKeepsOtherBlocks(lines, key, line, other, r.value.0, r.value.1);
      }
    } else {
      NewBlockIsBlock(key, line);
      InsertedBody(lines, key, NewBlock(key, line));
      assert NewBlock(key, line) == [key + ":" + "\n"] + [line];
      if other != key {
        InsertingKeepsOtherBlocks(lines, key, NewBlock(key, line), other);
      }
    }
  }

  lemma {:induction false} AssignedKeepsKeysSorted(lines: seq<Line>, key: string, line: Line)
    requires IsKey(key) && IsEntry(line) && Sorted(Keys(lines))
    ensures Sorted(Keys(Assigned(lines, key, line)))
  {
    FoundIsBlock(lines, key);
    var r := Found(lines, key);
    if r.Some? {
      AppendingKeepsKeys(lines, r.value.0, r.value.1, line);
    } else {
      NewBlockIsBlock(key, line);
      InsertingKeepsKeysSorted(lines, key, NewBlock(key, line));
    }
  }

  function Count(packages: seq<string>, key: string): nat {
    if packages == [] then 0
    else Count(packages[..|packages| - 1], key) + if packages[|packages| - 1] == key then 1 else 0
  }

  function Repeated(line: Line, n: nat): seq<Line> { if n == 0 then [] else Repeated(line, n - 1) + [line] }

  /** The block holds what it held before, and the line as many times as its package was listed. */
  ghost predicate Holds(lines: seq<Line>, after: seq<Line>, key: string, line: Line, n: nat) {
    Body(after, key) ==
    if n == 0 then Body(lines, key) else Some(Base(lines, key) + Repeated(line, n))
  }

  lemma {:induction false} HoldsOneMore(
    b: Option<seq<Line>>, lines: seq<Line>, before: seq<Line>, key: string, line: Line, n: nat)
    requires b == Some(Base(before, key) + [line]) && Holds(lines, before, key, line, n)
    ensures b == Some(Base(lines, key) + Repeated(line, n + 1))
  {
    if n == 0 {
      assert Repeated(line, 1) == Repeated(line, 0) + [line] == [line];
    } else {
      Assoc(Base(lines, key), Repeated(line, n), [line]);
    }
  }

  lemma {:induction false} HoldsStep(
    lines: seq<Line>, before: seq<Line>, after: seq<Line>, last: string, key: string, line: Line, n: nat, m: nat)
    requires IsKey(last) && IsEntry(line) && Holds(lines, before, key, line, n)
    requires after == Assigned(before, last, line) && m == if last == key then n + 1 else n
    ensures Holds(lines, after, key, line, m)
  {
    AssignedBodies(before, last, line, key);
    if last == key {
      HoldsOneMore(Body(after, key), lines, before, key, line, n);
    }
  }

  /** After the loop every block is what it was plus one line for each time its package was listed. */
  lemma {:induction false} AssignmentHolds(lines: seq<Line>, packages: seq<string>, line: Line, key: string)
    requires IsEntry(line) && forall i :: 0 <= i < |packages| ==> IsKey(packages[i])
    ensures Holds(lines, AllAssigned(lines, packages, line), key, line, Count(packages, key))
  {
    if packages != [] {
      var init, last := packages[..|packages| - 1], packages[|packages| - 1];
      var before := AllAssigned(lines, init, line);
      AssignmentHolds(lines, init, line, key);
      HoldsStep(lines, before, AllAssigned(lines, packages, line), last, key, line, Count(init, key), Count(packages, key));
    }
  }

  lemma {:induction false} AssignmentKeepsKeysSorted(lines: seq<Line>, packages: seq<string>, line: Line)
    requires IsEntry(line) && Sorted(Keys(lines)) && forall i :: 0 <= i < |packages| ==> IsKey(packages[i])
    ensures Sorted(Keys(AllAssigned(lines, packages, line)))
  {
    if packages != [] {
      AssignmentKeepsKeysSorted(lines, packages[..|packages| - 1], line);
      AssignedKeepsKeysSorted(AllAssigned(lines, packages[..|packages| - 1], line), packages[|packages| - 1], line);
    }
  }

  /**
   * After the loop over the packages every block, up to blank lines at its end, is what it was plus one line for
   * each time its package was listed, and keys that were sorted and unique still are.
   */
  lemma {:induction false} AssignmentIsExact(lines: seq<Line>, packages: seq<string>, line: Line, key: string)
    requires IsEntry(line) && forall i :: 0 <= i < |packages| ==> IsKey(packages[i])
    ensures Sorted(Keys(lines)) ==> Sorted(Keys(AllAssigned(lines, packages, line)))
    ensures Holds(lines, AllAssigned(lines, packages, line), key, line, Count(packages, key))
  {
    AssignmentHolds(lines, packages, line, key);
    if Sorted(Keys(lines)) {
      AssignmentKeepsKeysSorted(lines, packages, line);
    }
  }

  /** Afterwards every listed package's block holds its product line behind what it held; the others are as they were. */
  lemma {:induction false} EveryPackageGetsItsProduct(
    lines: seq<Line>, packages: seq<string>, product: string, key: string)
    requires Sorted(Keys(lines)) && forall i :: 0 <= i < |packages| ==> IsKey(packages[i])
    ensures var after := AllAssigned(lines, packages, ProductLine(product));
            && Sorted(Keys(after))
            && (key in packages ==>
                  && Body(after, key).Some? && ProductLine(product) in Body(after, key).value
                  && Base(lines, key) <= Body(after, key).value)
            && (key !in packages ==> Body(after, key) == Body(lines, key))
  {
    var line, n := ProductLine(product), Count(packages, key);
    ProductLineIsEntry(product);
    AssignmentIsExact(lines, packages, line, key);
    Counted(packages, key);
    if n > 0 {
      var body := Base(lines, key) + Repeated(line, n);
      assert body[|body| - 1] == line;
    }
  }

  lemma {:induction false} Counted(packages: seq<string>, key: string)
    ensures Count(packages, key) > 0 <==> key in packages
  {
    if packages != [] {
      Counted(packages[..|packages| - 1], key);
      assert packages == packages[..|packages| - 1] + [packages[|packages| - 1]];
    }
  }

  // ----- renaming a block -----

  /** The key of a line replaced, with the rest of the line kept. */
  function Rekeyed(lines: seq<Line>, i: nat, key: string, name: string): seq<Line>
    requires i < |lines| && KeyOf(lines[i]) == Some(key)
  {
    KeyPrefixIsPrefix(lines[i]);
    lines[i := name + ":" + lines[i][|key| + 1..]]
  }

  method UpdatePackageOverrides(lines: seq<Line>, key: string, name: string) returns (r: seq<Line>)
    ensures r == if Found(lines, key).Some? then Rekeyed(lines, Found(lines, key).value.0, key, name) else lines
  {
    var block := FindTopLevelYamlBlock(lines, key);
    r := lines;
    if block.Some? {
      var start := block.value.0;
      KeyPrefixIsPrefix(lines[start]);
      var rest := lines[start][|key| + 1..];
      r := r[start := name + ":" + rest];
    }
  }

  /** A renamed block keeps all its lines but the first, under the new key; every other block is as it was. */
  lemma {:induction false} RenamingMovesOneBlock(
    lines: seq<Line>, key: string, name: string, other: string, s: nat, e: nat)
    requires Found(lines, key) == Some((s, e)) && !HasKey(lines, name) && IsKey(name) && other != key && other != name
    ensures HasKey(lines, key)
    ensures var after := Rekeyed(lines, s, key, name);
            && BlockOf(after, name) ==
               Some([name + ":" + lines[s][|key| + 1..]] + BlockOf(lines, key).value[1..])
            && BlockOf(after, other) == BlockOf(lines, other)
  {
    FoundIsBlock(lines, key);
    var after, head := Rekeyed(lines, s, key, name), name + ":" + lines[s][|key| + 1..];
    var block := [head] + lines[s..e][1..];
    KeyOfKeyLine(name, lines[s][|key| + 1..]);
    assert IsBlock(block, name);
    UpdatedParts(lines, s, e, head);
    NoBlockBefore(lines, [], s, name);
    BlockBetween(lines[..s], block, lines[e..], name);
    OthersUnderRenaming(lines[..s], lines[s..e], block, lines[e..], key, name, other);
  }

  lemma {:induction false} UpdatedParts(lines: seq<Line>, s: nat, e: nat, head: Line)
    requires s < e <= |lines|
    ensures lines[s := head] == lines[..s] + (([head] + lines[s..e][1..]) + lines[e..])
  {
  }

  lemma {:induction false} OthersUnderRenaming(
    a: seq<Line>, block: seq<Line>, block': seq<Line>, b: seq<Line>, key: string, name: string, other: string)
    requires IsBlock(block, key) && IsBlock(block', name) && other != key && other != name
    ensures BlockOf(a + (block + b), other) == BlockOf(a + (block' + b), other)
  {
    BlockItself(block, key, other);
    BlockItself(block', name, other);
    BlockConcat(block, b, other);
    BlockConcat(block', b, other);
    NoContinuation(block, key, b);
    NoContinuation(block', name, b);
    BlockBeyond(a, block + b, block' + b, other);
  }

  // ----- the file as text -----

  /** `splitlines(keepends=True)`. */
  function SplitLines(text: string): seq<Line>
    decreases |text|
  {
    if text == "" then []
    else
      var i := LineEnd(text, 0);
      [text[..i]] + SplitLines(text[i..])
  }

  /** Behind the first line break, or at the end of the text. */
  function LineEnd(text: string, from: nat): (i: nat)
    requires from < |text|
    ensures from < i <= |text| && (text[i - 1] == '\n' || i == |text|)
    ensures forall j :: from <= j < i - 1 ==> text[j] != '\n'
    decreases |text| - from
  {
    if text[from] == '\n' || from + 1 == |text| then from + 1 else LineEnd(text, from + 1)
  }

  /** `''.join(lines)`. */
  function Joined(lines: seq<Line>): string {
    if lines == [] then "" else Joined(lines[..|lines| - 1]) + lines[|lines| - 1]
  }

  method AddPrivateProduct(text: string, packages: seq<string>, product: string) returns (written: string)
    ensures written == Joined(AllAssigned(SplitLines(text), packages, ProductLine(product)))
  {
    var lines := AssignPackages(SplitLines(text), packages, product);
    written := "";
    for i := 0 to |lines|
      invariant written == Joined(lines[..i])
    {
      assert lines[..i + 1][..i] == lines[..i];
      written := written + lines[i];
    }
    assert lines[..|lines|] == lines;
  }

  predicate OneLine(l: Line) { l != "" && forall j :: 0 <= j < |l| - 1 ==> l[j] != '\n' }

  /** One line with its line break. */
  predicate Ended(l: Line) { OneLine(l) && l[|l| - 1] == '\n' }

  /** Lines as they are read from a text: only the last one can miss its line break. */
  predicate AsRead(lines: seq<Line>) {
    (forall i :: 0 <= i < |lines| ==> OneLine(lines[i])) && forall i :: 0 <= i < |lines| - 1 ==> Ended(lines[i])
  }

  predicate Terminated(lines: seq<Line>) { lines == [] || Ended(lines[|lines| - 1]) }

  lemma {:induction false} SplitIsAsRead(text: string)
    ensures AsRead(SplitLines(text)) && Joined(SplitLines(text)) == text
    decreases |text|
  {
    if text != "" {
      var i := LineEnd(text, 0);
      var head, rest := text[..i], SplitLines(text[i..]);
      SplitIsAsRead(text[i..]);
      JoinedFirst(head, rest);
      HeadIsLine(text, i);
      AsReadFirst(head, rest);
    }
  }

  lemma {:induction false} HeadIsLine(text: string, i: nat)
    requires text != "" && i == LineEnd(text, 0)
    ensures text == text[..i] + text[i..] && OneLine(text[..i]) && (SplitLines(text[i..]) != [] ==> Ended(text[..i]))
  {
    assert i == |text| ==> text[i..] == "";
  }

  lemma {:induction false} AsReadFirst(head: Line, rest: seq<Line>)
    requires OneLine(head) && (rest != [] ==> Ended(head)) && AsRead(rest)
    ensures AsRead([head] + rest)
  {
    var all := [head] + rest;
    assert forall i :: 1 <= i < |all| ==> all[i] == rest[i - 1];
  }

  lemma {:induction false} JoinedFirst(head: Line, rest: seq<Line>)
    ensures Joined([head] + rest) == head + Joined(rest)
  {
    var all := [head] + rest;
    if rest == [] {
      assert all[..0] == [] && all == [head];
      assert Joined(all) == Joined([]) + head;
    } else {
      assert all[..|all| - 1] == [head] + rest[..|rest| - 1];
      JoinedFirst(head, rest[..|rest| - 1]);
      Assoc(head, Joined(rest[..|rest| - 1]), rest[|rest| - 1]);
    }
  }

  lemma {:induction false} FirstLineIs(head: Line, rest: string)
    requires Ended(head) || (OneLine(head) && rest == "")
    ensures SplitLines(head + rest) == [head] + SplitLines(rest)
  {
    var text := head + rest;
    var i := LineEnd(text, 0);
    assert forall j :: 0 <= j < |head| ==> text[j] == head[j];
    assert i == |head|;
    assert text[..i] == head && text[i..] == rest;
  }

  lemma {:induction false} AsReadSplitsBack(lines: seq<Line>)
    requires AsRead(lines)
    ensures SplitLines(Joined(lines)) == lines
  {
    if lines != [] {
      var head, rest := lines[0], lines[1..];
      assert lines == [head] + rest;
      assert AsRead(rest) by {
        assert forall i :: 0 <= i < |rest| ==> rest[i] == lines[i + 1];
      }
      JoinedFirst(head, rest);
      AsReadSplitsBack(rest);
      FirstLineIs(head, Joined(rest));
    }
  }

  /** Lines are read back from the text they are written to exactly when only the last one can miss its line break. */
  lemma {:induction false} ReadsBackExactly(lines: seq<Line>)
    ensures SplitLines(Joined(lines)) == lines <==> AsRead(lines)
  {
    if AsRead(lines) {
      AsReadSplitsBack(lines);
    } else {
      SplitIsAsRead(Joined(lines));
    }
  }

  // ----- where lines are put -----

  function PlaceOfLine(lines: seq<Line>, key: string): (at: nat)
    ensures at <= |lines|
  {
    var r := Found(lines, key);
    if r.None? then Place(lines, key, 0) else BeforeBlanks(lines, r.value.0, r.value.1)
  }

  function NewLines(lines: seq<Line>, key: string, line: Line): seq<Line> {
    if Found(lines, key).Some? then [line]
    else if Place(lines, key, 0) == |lines| then Gap(lines) + NewBlock(key, line)
    else NewBlock(key, line) + ["\n"]
  }

  /** The new lines go behind the last line of the file. */
  predicate BehindLast(lines: seq<Line>, key: string) { PlaceOfLine(lines, key) == |lines| }

  lemma {:induction false} AssignedIsSplice(lines: seq<Line>, key: string, line: Line)
    ensures var at := PlaceOfLine(lines, key);
            Assigned(lines, key, line) == lines[..at] + (NewLines(lines, key, line) + lines[at..])
  {
    var at := PlaceOfLine(lines, key);
    if Found(lines, key).Some? {
      Assoc(lines[..at], [line], lines[at..]);
    } else if at == |lines| {
      Assoc(lines, Gap(lines), NewBlock(key, line));
      assert lines[..at] == lines && lines[at..] == [];
      assert NewLines(lines, key, line) + [] == NewLines(lines, key, line);
    }
  }

  lemma {:induction false} NewLinesAreEnded(lines: seq<Line>, key: string, line: Line)
    requires IsKey(key) && Ended(line)
    ensures NewLines(lines, key, line) != []
    ensures forall i :: 0 <= i < |NewLines(lines, key, line)| ==> Ended(NewLines(lines, key, line)[i])
  {
    var first := key + ":" + "\n";
    assert Ended(first) by {
      forall j | 0 <= j < |first| - 1
        ensures first[j] != '\n'
      {
        assert j < |key| ==> first[j] == key[j] && IsKeyChar(key[j]);
      }
    }
    assert Ended("\n");
  }

  /** Ended lines put into lines as read give lines as read exactly when they go before the last line or it is ended. */
  lemma {:induction false} SpliceIsAsReadExactly(lines: seq<Line>, at: nat, m: seq<Line>)
    requires at <= |lines| && m != [] && (forall i :: 0 <= i < |m| ==> Ended(m[i])) && AsRead(lines)
    ensures var after := lines[..at] + (m + lines[at..]);
            && (AsRead(after) <==> at < |lines| || Terminated(lines))
            && (Terminated(after) <==> at == |lines| || Terminated(lines))
            && (at < |lines| ==> after[|after| - 1] == lines[|lines| - 1])
  {
    var after := lines[..at] + (m + lines[at..]);
    SplicedLines(lines, at, m);
    if at == |lines| && lines != [] {
      assert after[|lines| - 1] == lines[|lines| - 1];
    }
  }

  lemma {:induction false} SplicedLines(lines: seq<Line>, at: nat, m: seq<Line>)
    requires at <= |lines|
    ensures var after := lines[..at] + (m + lines[at..]);
            && |after| == |lines| + |m|
            && (forall i :: 0 <= i < at ==> after[i] == lines[i])
            && (forall i :: at <= i < at + |m| ==> after[i] == m[i - at])
            && (forall i :: at + |m| <= i < |after| ==> after[i] == lines[i - |m|])
  {
  }

  /** A line without its break that is not the last stays one, wherever lines are put. */
  lemma {:induction false} BrokenStaysBroken(lines: seq<Line>, at: nat, m: seq<Line>)
    requires at <= |lines| && !AsRead(lines) && forall i :: 0 <= i < |lines| ==> OneLine(lines[i])
    ensures !AsRead(lines[..at] + (m + lines[at..]))
  {
    var after := lines[..at] + (m + lines[at..]);
    SplicedLines(lines, at, m);
    var i :| 0 <= i < |lines| - 1 && !Ended(lines[i]);
    assert after[if i < at then i else i + |m|] == lines[i];
  }

  lemma {:induction false} StillOneLine(lines: seq<Line>, at: nat, m: seq<Line>)
    requires at <= |lines| && (forall i :: 0 <= i < |m| ==> Ended(m[i]))
    requires forall i :: 0 <= i < |lines| ==> OneLine(lines[i])
    ensures var after := lines[..at] + (m + lines[at..]); forall i :: 0 <= i < |after| ==> OneLine(after[i])
  {
    SplicedLines(lines, at, m);
  }

  /** One assignment is read back exactly when the last line is ended or the new lines do not go behind it. */
  lemma {:induction false} AssignedReadsBackExactly(lines: seq<Line>, key: string, line: Line)
    requires AsRead(lines) && IsKey(key) && Ended(line)
    ensures var after := Assigned(lines, key, line);
            && (SplitLines(Joined(after)) == after <==> Terminated(lines) || !BehindLast(lines, key))
            && (Terminated(after) <==> Terminated(lines) || BehindLast(lines, key))
            && (!BehindLast(lines, key) ==> after != [] && lines != [] && after[|after| - 1] == lines[|lines| - 1])
  {
    AssignedIsSplice(lines, key, line);
    NewLinesAreEnded(lines, key, line);
    SpliceIsAsReadExactly(lines, PlaceOfLine(lines, key), NewLines(lines, key, line));
    ReadsBackExactly(Assigned(lines, key, line));
  }

  // ----- whether lines go behind the last one -----

  lemma {:induction false} OpenConcat(a: seq<Line>, b: seq<Line>, key: string)
    ensures Open(a + b, key) <==>
            if BlockOf(a, key).None? then Open(b, key) else Open(a, key) && |Continuation(b)| == |b|
  {
    if a == [] {
      assert a + b == b;
    } else {
      assert (a + b)[1..] == a[1..] + b;
      if KeyOf(a[0]) == Some(key) {
        ContinuationConcat(a[1..], b);
        ContinuationConcat(b, []);
      } else {
        OpenConcat(a[1..], b, key);
      }
    }
  }

  /** Some line has a key that belongs behind this one. */
  ghost predicate SomeGreater(lines: seq<Line>, key: string) {
    exists i :: 0 <= i < |lines| && KeyOf(lines[i]).Some? && KeyLess(key, KeyOf(lines[i]).value)
  }

  /** What decides: an open block with a last line that is not blank, or no block and no greater key. */
  ghost predicate GoesLast(lines: seq<Line>, key: string) {
    if HasKey(lines, key) then lines != [] && Open(lines, key) && !Blank(lines[|lines| - 1]) else !SomeGreater(lines, key)
  }

  lemma {:induction false} BehindLastExactly(lines: seq<Line>, key: string)
    ensures BehindLast(lines, key) <==> GoesLast(lines, key)
  {
    var r := Found(lines, key);
    if r.Some? {
      BehindFound(lines, key, r.value.0, r.value.1);
    } else {
      BehindMissing(lines, key);
    }
  }

  lemma {:induction false} BehindFound(lines: seq<Line>, key: string, s: nat, e: nat)
    requires Found(lines, key) == Some((s, e))
    ensures HasKey(lines, key) && lines != []
    ensures BehindLast(lines, key) <==> Open(lines, key) && !Blank(lines[|lines| - 1])
  {
    FoundIsBlock(lines, key);
    BehindRange(lines, key, s, e);
  }

  lemma {:induction false} BehindMissing(lines: seq<Line>, key: string)
    requires Found(lines, key).None?
    ensures !HasKey(lines, key) && (BehindLast(lines, key) <==> !SomeGreater(lines, key))
  {
    FoundIsBlock(lines, key);
    PlaceIsLast(lines, key);
  }

  lemma {:induction false} PlaceIsLast(lines: seq<Line>, key: string)
    ensures Place(lines, key, 0) == |lines| <==> !SomeGreater(lines, key)
  {
  }

  lemma {:induction false} BehindRange(lines: seq<Line>, key: string, s: nat, e: nat)
    requires Around(lines, key, s, e)
    ensures BeforeBlanks(lines, s, e) == |lines| <==> Open(lines, key) && !Blank(lines[|lines| - 1])
  {
    OpenRange(lines, key, s, e);
    KeyLineStarts(lines[s..e][0]);
    assert lines[s..e][0] == lines[s];
    LastOfRange(lines, s, e);
  }

  lemma {:induction false} LastOfRange(lines: seq<Line>, s: nat, e: nat)
    requires s < e <= |lines| && !Blank(lines[s])
    ensures BeforeBlanks(lines, s, e) == |lines| <==> e == |lines| && !Blank(lines[e - 1])
  {
  }

  lemma {:induction false} OpenRange(lines: seq<Line>, key: string, s: nat, e: nat)
    requires Around(lines, key, s, e)
    ensures Open(lines, key) <==> e == |lines|
  {
    BlockItself(lines[s..e], key, key);
    OpenConcat(lines[..s], lines[s..e] + lines[e..], key);
    OpenConcat(lines[s..e], lines[e..], key);
  }

  /** The block of another key reaches the end of the file behind one block as behind the other. */
  lemma {:induction false} OpenBeyond(a: seq<Line>, b: seq<Line>, b': seq<Line>, key: string)
    requires b != [] && b' != [] && Continuation(b) == [] && Continuation(b') == []
    requires Open(b, key) <==> Open(b', key)
    ensures Open(a + b, key) <==> Open(a + b', key)
  {
    OpenConcat(a, b, key);
    OpenConcat(a, b', key);
  }

  lemma {:induction false} GreaterInSplice(lines: seq<Line>, at: nat, m: seq<Line>, key: string)
    requires at <= |lines|
    ensures SomeGreater(lines[..at] + (m + lines[at..]), key) <==> SomeGreater(lines, key) || SomeGreater(m, key)
  {
    var after := lines[..at] + (m + lines[at..]);
    SplicedLines(lines, at, m);
    if SomeGreater(lines, key) {
      var i :| 0 <= i < |lines| && KeyOf(lines[i]).Some? && KeyLess(key, KeyOf(lines[i]).value);
      assert after[if i < at then i else i + |m|] == lines[i];
    }
    if SomeGreater(m, key) {
      var i :| 0 <= i < |m| && KeyOf(m[i]).Some? && KeyLess(key, KeyOf(m[i]).value);
      assert after[at + i] == m[i];
    }
  }

  /** What an assignment that is not behind the last line leaves: the last line, and whether there is a greater key. */
  lemma {:induction false} GreaterStays(lines: seq<Line>, k: string, line: Line, key: string)
    requires IsKey(k) && IsEntry(line) && !BehindLast(lines, k)
    ensures SomeGreater(Assigned(lines, k, line), key) <==> SomeGreater(lines, key)
  {
    AssignedIsSplice(lines, k, line);
    var at, m := PlaceOfLine(lines, k), NewLines(lines, k, line);
    GreaterInSplice(lines, at, m, key);
    if KeyOf(line).Some? {
      KeyLineStarts(line);
    }
    if Found(lines, k).None? && SomeGreater(m, key) {
      KeyOfKeyLine(k, "\n");
      NewlineIsBlank();
      assert m == [k + ":" + "\n", line, "\n"];
      KeyLessTransitive(key, k, KeyOf(lines[at]).value);
      assert SomeGreater(lines, key);
    }
  }

  lemma {:induction false} OpenAfterInsertion(a: seq<Line>, m: seq<Line>, b: seq<Line>, k: string, key: string)
    requires IsBlock(m, k) && b != [] && Continuation(b) == [] && BlockOf(a, k).None?
    ensures key != k ==> (Open(a + (m + b), key) <==> Open(a + b, key))
    ensures key == k ==> !Open(a + (m + b), key)
  {
    BlockItself(m, k, key);
    NoContinuation(m, k, b);
    OpenConcat(m, b, key);
    if key == k {
      OpenConcat(a, m + b, key);
    } else {
      OpenBeyond(a, m + b, b, key);
    }
  }

  lemma {:induction false} OpenAfterAppending(
    a: seq<Line>, block: seq<Line>, longer: seq<Line>, b: seq<Line>, k: string, key: string)
    requires IsBlock(block, k) && IsBlock(longer, k) && b != [] && Continuation(b) == [] && BlockOf(a, k).None?
    ensures Open(a + (longer + b), key) <==> Open(a + (block + b), key)
  {
    BlockItself(block, k, key);
    BlockItself(longer, k, key);
    NoContinuation(block, k, b);
    NoContinuation(longer, k, b);
    OpenConcat(block, b, key);
    OpenConcat(longer, b, key);
    if key == k {
      OpenConcat(a, block + b, key);
      OpenConcat(a, longer + b, key);
    } else {
      OpenBeyond(a, block + b, longer + b, key);
    }
  }

  lemma {:induction false} OpenStaysFound(lines: seq<Line>, k: string, line: Line, key: string, s: nat, e: nat)
    requires Found(lines, k) == Some((s, e)) && IsEntry(line) && e < |lines|
    ensures Open(Assigned(lines, k, line), key) <==> Open(lines, key)
  {
    FoundIsBlock(lines, k);
    WithLineParts(lines, s, e, line);
    LongerBlock(lines, s, e, k, line);
    var at := BeforeBlanks(lines, s, e);
    OpenAfterAppending(lines[..s], lines[s..e], lines[s..at] + [line] + lines[at..e], lines[e..], k, key);
  }

  lemma {:induction false} OpenStaysInserted(lines: seq<Line>, k: string, line: Line, key: string)
    requires Found(lines, k).None? && IsKey(k) && IsEntry(line) && Place(lines, k, 0) < |lines|
    ensures key != k ==> (Open(Assigned(lines, k, line), key) <==> Open(lines, key))
    ensures key == k ==> !Open(Assigned(lines, k, line), key)
  {
    var at, block := Place(lines, k, 0), NewBlock(k, line);
    FoundIsBlock(lines, k);
    NewBlockIsBlock(k, line);
    InsideParts(lines, k, block, at);
    OpenAfterInsertion(lines[..at], block + ["\n"], lines[at..], k, key);
  }

  /** Unless the lines go behind the last one, an assignment does not change which packages would. */
  lemma {:induction false} BehindStays(lines: seq<Line>, k: string, line: Line, key: string)
    requires IsKey(k) && IsEntry(line) && Ended(line) && AsRead(lines) && !BehindLast(lines, k)
    ensures BehindLast(Assigned(lines, k, line), key) <==> BehindLast(lines, key)
  {
    var after := Assigned(lines, k, line);
    BehindLastExactly(lines, key);
    BehindLastExactly(after, key);
    BehindLastExactly(lines, k);
    AssignedReadsBackExactly(lines, k, line);
    AssignedBodies(lines, k, line, key);
    GreaterStays(lines, k, line, key);
    FoundIsBlock(lines, k);
    assert key != k ==> (HasKey(after, key) <==> HasKey(lines, key));
    var r := Found(lines, k);
    if r.None? {
      OpenStaysInserted(lines, k, line, key);
    } else if r.value.1 < |lines| {
      OpenStaysFound(lines, k, line, key, r.value.0, r.value.1);
    } else {
      LastIsBlank(lines, r.value.0);
    }
  }

  lemma {:induction false} LastIsBlank(lines: seq<Line>, s: nat)
    requires s < |lines| && BeforeBlanks(lines, s, |lines|) < |lines|
    ensures Blank(lines[|lines| - 1])
  {
  }

  /**
   * What the loop over the packages writes is read back as its list of lines exactly when the last line of the
   * file was ended, or no package's line goes behind it.
   */
  lemma {:induction false} WrittenIsReadBackExactly(lines: seq<Line>, packages: seq<string>, line: Line)
    requires AsRead(lines) && IsEntry(line) && Ended(line) && forall i :: 0 <= i < |packages| ==> IsKey(packages[i])
    ensures var after := AllAssigned(lines, packages, line);
            SplitLines(Joined(after)) == after <==>
            Terminated(lines) || forall i :: 0 <= i < |packages| ==> !BehindLast(lines, packages[i])
  {
    WrittenStays(lines, packages, line);
    ReadsBackExactly(AllAssigned(lines, packages, line));
  }

  ghost predicate NobodyBehind(lines: seq<Line>, packages: seq<string>) {
    forall i :: 0 <= i < |packages| ==> !BehindLast(lines, packages[i])
  }

  /** The state of the loop: whether it is as read, and what later packages would do. */
  ghost predicate LoopState(lines: seq<Line>, packages: seq<string>, after: seq<Line>) {
    && (forall i :: 0 <= i < |after| ==> OneLine(after[i]))
    && (AsRead(after) <==> Terminated(lines) || NobodyBehind(lines, packages))
    && (Terminated(lines) ==> Terminated(after))
    && (!Terminated(lines) && NobodyBehind(lines, packages) ==>
          !Terminated(after) && forall key :: BehindLast(after, key) <==> BehindLast(lines, key))
  }

  lemma {:induction false} WrittenStays(lines: seq<Line>, packages: seq<string>, line: Line)
    requires AsRead(lines) && IsEntry(line) && Ended(line) && forall i :: 0 <= i < |packages| ==> IsKey(packages[i])
    ensures LoopState(lines, packages, AllAssigned(lines, packages, line))
  {
    if packages == [] {
      NothingWritten(lines);
    } else {
      var init, k := packages[..|packages| - 1], packages[|packages| - 1];
      WrittenStays(lines, init, line);
      OneMoreBehind(lines, packages);
      WrittenStep(lines, init, packages, AllAssigned(lines, init, line), k, line);
    }
  }

  lemma {:induction false} NothingWritten(lines: seq<Line>)
    requires AsRead(lines)
    ensures LoopState(lines, [], lines)
  {
  }

  lemma {:induction false} OneMoreBehind(lines: seq<Line>, packages: seq<string>)
    requires packages != []
    ensures NobodyBehind(lines, packages) <==>
            NobodyBehind(lines, packages[..|packages| - 1]) && !BehindLast(lines, packages[|packages| - 1])
  {
    var init := packages[..|packages| - 1];
    assert forall i :: 0 <= i < |init| ==> init[i] == packages[i];
  }

  lemma {:induction false} WrittenStep(
    lines: seq<Line>, init: seq<string>, packages: seq<string>, before: seq<Line>, k: string, line: Line)
    requires LoopState(lines, init, before) && IsKey(k) && IsEntry(line) && Ended(line)
    requires NobodyBehind(lines, packages) <==> NobodyBehind(lines, init) && !BehindLast(lines, k)
    ensures LoopState(lines, packages, Assigned(before, k, line))
  {
    var at, m := PlaceOfLine(before, k), NewLines(before, k, line);
    AssignedIsSplice(before, k, line);
    NewLinesAreEnded(before, k, line);
    StillOneLine(before, at, m);
    if AsRead(before) {
      SpliceIsAsReadExactly(before, at, m);
      if !BehindLast(before, k) {
        forall key
          ensures BehindLast(Assigned(before, k, line), key) <==> BehindLast(before, key)
        {
          BehindStays(before, k, line, key);
        }
      }
    } else {
      BrokenStaysBroken(before, at, m);
    }
  }

  lemma {:induction false} ProductLineIsEnded(product: string)
    requires '\n' !in product
    ensures Ended(ProductLine(product))
  {
    var line := ProductLine(product);
    assert forall j :: 19 <= j < |line| - 1 ==> line[j] == product[j - 19];
    assert forall j :: 0 <= j < 19 ==> line[j] == "  private_product: "[j];
  }

  lemma {:induction false} TwoLinesRead(first: Line, last: Line)
    requires Ended(first) && OneLine(last)
    ensures SplitLines(first + last) == [first, last]
  {
    FirstLineIs(first, last);
    assert last + "" == last;
    FirstLineIs(last, "");
    assert [first] + ([last] + []) == [first, last];
  }

  lemma {:induction false} ThreeLinesWritten(first: Line, last: Line, line: Line)
    requires Ended(first) && last != "" && '\n' !in last && Ended(line)
    ensures SplitLines(Joined([first, last, line])) == [first, last + line]
  {
    JoinedFirst(first, [last, line]);
    JoinedFirst(last, [line]);
    JoinedFirst(line, []);
    assert [first] + [last, line] == [first, last, line] && [last] + [line] == [last, line] && [line] + [] == [line];
    assert line + "" == line;
    GluedLine(last, line);
    TwoLinesRead(first, last + line);
  }

  lemma {:induction false} OneAssigned(lines: seq<Line>, key: string, line: Line)
    ensures AllAssigned(lines, [key], line) == Assigned(lines, key, line)
  {
    assert [key][..0] == [] && AllAssigned(lines, [], line) == lines;
  }

  /** Behind an unended last line, the line is glued to it: the block of `a` holds no product line in the written file. */
  lemma {:induction false} UnterminatedFileLosesTheProduct()
    ensures var lines, line := SplitLines("a:\n" + "  x: y"), ProductLine("p");
            var after := SplitLines(Joined(AllAssigned(lines, ["a"], line)));
            && lines == ["a:\n", "  x: y"] && BehindLast(lines, "a") && !Terminated(lines)
            && after == ["a:\n", "  x: y" + line] && line !in after
  {
    var first, last, line := "a:\n", "  x: y", ProductLine("p");
    ProductLineIsEnded("p");
    TwoLinesRead(first, last);
    FirstKeyAndEnd(first, last, line);
    OneAssigned([first, last], "a", line);
    ThreeLinesWritten(first, last, line);
    assert |line| > |first| && |last + line| > |line|;
  }

  lemma {:induction false} GluedLine(last: Line, line: Line)
    requires '\n' !in last && Ended(line)
    ensures Ended(last + line)
  {
  }

  lemma {:induction false} FirstKeyAndEnd(first: Line, last: Line, line: Line)
    requires first == "a:\n" && last == "  x: y"
    ensures Found([first, last], "a") == Some((0, 2)) && BehindLast([first, last], "a")
    ensures Assigned([first, last], "a", line) == [first, last, line]
  {
    assert first == "a" + ":" + "\n";
    KeyOfKeyLine("a", "\n");
    assert Continues(last) && !Blank(last) by {
      assert Names.LStrip(last) == Names.LStrip(last[1..]) && last[1..][1..] == last[2..];
      assert Names.LStrip(last[1..]) == Names.LStrip(last[2..]) == last[2..];
      RStripKeepsFirst(last[2..]);
    }
    assert FirstKey([first, last], "a", 0) == 0;
    assert EndFrom([first, last], 1) == 2;
    assert [first, last][..2] == [first, last] && [first, last][2..] == [];
  }
}
