/** Translation catalogues: reading `.po` text, printing it, swapping ids with strings, and appending. */
module PoCatalogue {
  import opened Wrappers
  import opened Text
  import Names

  type Line = string

  /** A message; its texts keep their quotes and the line breaks between quoted chunks. */
  datatype Message = Message(id: string, msg: string, refs: seq<string>)

  const EMPTY: string := "\"\""

  /** The constructor of a message strips both texts. */
  function Make(id: string, msg: string, refs: seq<string>): Message {
    Message(Names.Strip(id), Names.Strip(msg), refs)
  }

  // ----- printing -----

  function RefLines(refs: seq<string>): string {
    if refs == [] then "" else RefLines(refs[..|refs| - 1]) + (refs[|refs| - 1] + "\n")
  }

  /** `str(message)`: the references, then the two texts. */
  function MessageText(m: Message): string {
    RefLines(m.refs) + ("msgid " + m.id + "\n") + ("msgstr " + m.msg + "\n")
  }

  /** `str(file)`: every message followed by a blank line. */
  function FileText(msgs: seq<Message>): string {
    if msgs == [] then "" else FileText(msgs[..|msgs| - 1]) + (MessageText(msgs[|msgs| - 1]) + "\n")
  }

  // ----- reading -----

  /** `readlines`, without the line breaks. */
  function Lines(s: string): seq<Line>
    decreases |s|
  {
    if s == "" then []
    else
      var i := FindFrom(s, "\n", 0);
      if i.None? then [s] else [s[..i.value]] + Lines(s[i.value + 1..])
  }

  function Trimmed(lines: seq<Line>): (r: seq<Line>)
    ensures |r| == |lines|
    ensures forall i :: 0 <= i < |lines| ==> r[i] == Names.Strip(lines[i])
  {
    seq(|lines|, i requires 0 <= i < |lines| => Names.Strip(lines[i]))
  }

  function FirstIndex(s: string, c: char): (r: Option<nat>)
    ensures r.Some? ==> r.value < |s| && s[r.value] == c && forall j :: 0 <= j < r.value ==> s[j] != c
    ensures r.None? ==> c !in s
  {
    if s == [] then None
    else if s[0] == c then Some(0)
    else
      var r := FirstIndex(s[1..], c);
      if r.None? then None
      else
        assert forall j :: 1 <= j < |s| ==> s[j] == s[1..][j - 1];
        Some(r.value + 1)
  }

  /** From the first to the last quote of the line. */
  function Chunk(line: Line): Option<string> {
    var first, last := FirstIndex(line, '"'), LastIndex(line, '"');
    if first.None? || last.None? then None
    else Some(line[first.value..last.value + 1])
  }

  datatype Reader = Reader(
    inId: bool, inStr: bool, msgid: string, msgstr: string, refs: seq<string>, messages: seq<Message>)

  function Start(): Reader { Reader(false, false, "", "", [], []) }

  /** A leading pair of quotes is dropped when more text follows. */
  function Settled(text: string): string {
    if StartsWith(text, EMPTY) && |text| > 4 then text[2..] else text
  }

  function TakeRef(r: Reader, line: Line): Reader {
    if StartsWith(line, "#") then r.(refs := r.refs + [line]) else r
  }

  function TakeString(r: Reader, line: Line): Reader {
    var begun := if !r.inStr && StartsWith(line, "msgstr") then r.(msgstr := "", inStr := true, inId := false) else r;
    if !begun.inStr then begun
    else match Chunk(line)
      case Some(c) => begun.(msgstr := begun.msgstr + c + "\n")
      case None =>
        var m := Make(Settled(begun.msgid), Settled(begun.msgstr), begun.refs);
        begun.(inStr := false, messages := begun.messages + [m], msgstr := "", msgid := "", refs := [])
  }

  function TakeId(r: Reader, line: Line): Reader {
    var begun := if !r.inId && StartsWith(line, "msgid") then r.(msgid := "", inId := true) else r;
    if !begun.inId then begun
    else match Chunk(line)
      case Some(c) => begun.(msgid := begun.msgid + c + "\n")
      case None => begun.(inId := false)
  }

  function Step(r: Reader, line: Line): Reader {
    TakeId(TakeString(TakeRef(r, line), line), line)
  }

  function Steps(r: Reader, lines: seq<Line>): Reader {
    if lines == [] then r else Step(Steps(r, lines[..|lines| - 1]), lines[|lines| - 1])
  }

  /** A message still open at the end of the file is taken as it is, without dropping leading quotes. */
  function Closed(r: Reader): seq<Message> {
    if r.msgstr != "" && r.msgid != "" then r.messages + [Make(r.msgid, r.msgstr, r.refs)] else r.messages
  }

  function Read(text: string): seq<Message> {
    Closed(Steps(Start(), Trimmed(Lines(text))))
  }

  // ----- inverting and appending -----

  predicate KeepsHead(msgs: seq<Message>) { msgs != [] && msgs[0].id == EMPTY }

  function Swapped(m: Message): Message { Make(m.msg, m.id, m.refs) }

  function FindId(msgs: seq<Message>, from: nat, id: string): (r: Option<nat>)
    ensures r.Some? ==> from <= r.value < |msgs| && msgs[r.value].id == id
    ensures r.None? ==> forall i :: from <= i < |msgs| ==> msgs[i].id != id
  {
    if |msgs| <= from then None
    else if msgs[|msgs| - 1].id == id then Some(|msgs| - 1)
    else FindId(msgs[..|msgs| - 1], from, id)
  }

  function WithRefs(m: Message, refs: seq<string>): Message { m.(refs := m.refs + refs) }

  /** Swapped messages in order; one whose new id is already there only adds its references. */
  function Inverted(msgs: seq<Message>): seq<Message> {
    if msgs == [] then []
    else
      var before, m := Inverted(msgs[..|msgs| - 1]), msgs[|msgs| - 1];
      if m.id == EMPTY && before == [] then [Make(m.id, m.msg, m.refs)]
      else
        var found := FindId(before, if KeepsHead(msgs) then 1 else 0, Swapped(m).id);
        if found.None? then before + [Swapped(m)] else before[found.value := WithRefs(before[found.value], m.refs)]
  }

  /** `getMsgstr`: the string of the first message with the id. */
  function Translation(msgs: seq<Message>, id: string): Option<string> {
    if msgs == [] then None
    else
      var before := Translation(msgs[..|msgs| - 1], id);
      if before.Some? then before else if msgs[|msgs| - 1].id == id then Some(msgs[|msgs| - 1].msg) else None
  }

  /** The messages of `more` whose id has no nonempty string yet are added at the end. */
  function Appended(msgs: seq<Message>, more: seq<Message>): seq<Message> {
    if more == [] then msgs
    else
      var before, m := Appended(msgs, more[..|more| - 1]), more[|more| - 1];
      if Translation(before, m.id) in {None, Some("")} then before + [m] else before
  }

  predicate Clean(m: Message) { Names.Stripped(m.id) && Names.Stripped(m.msg) }

  predicate AllClean(msgs: seq<Message>) { forall i :: 0 <= i < |msgs| ==> Clean(msgs[i]) }

  /** A catalogue file; its message list grows in place. */
  class GTFile {
    var messages: seq<Message>

    /** Every message went through the constructor of messages. */
    ghost predicate Valid()
      reads this
    {
      AllClean(messages)
    }

    /** Reads the text of a file, line by line, with the two flags and the accumulators. */
    constructor (text: string)
      ensures Valid() && messages == Read(text)
    {
      messages := [];
      new;
      var msgid, msgstr, refs: seq<string> := "", "", [];
      var inId, inStr := false, false;
      var lines := Trimmed(Lines(text));
      for i := 0 to |lines|
        invariant Valid()
        invariant Steps(Start(), lines[..i]) == Reader(inId, inStr, msgid, msgstr, refs, messages)
      {
        OneMoreLine(lines, i);
        inId, inStr, msgid, msgstr, refs := ReadLine(lines[i], inId, inStr, msgid, msgstr, refs);
      }
      assert lines[..|lines|] == lines;
      if msgstr != "" && msgid != "" {
        messages := messages + [Make(msgid, msgstr, refs)];
      }
    }

    /** The body of the reader loop. */
    method ReadLine(line: Line, inId: bool, inStr: bool, msgid: string, msgstr: string, refs: seq<string>)
      returns (inId': bool, inStr': bool, msgid': string, msgstr': string, refs': seq<string>)
      requires Valid()
      modifies this
      ensures Valid()
      ensures Reader(inId', inStr', msgid', msgstr', refs', messages) ==
              Step(Reader(inId, inStr, msgid, msgstr, refs, old(messages)), line)
    {
      inId', inStr', msgid', msgstr', refs' := inId, inStr, msgid, msgstr, refs;
      var chunk := Chunk(line);
      if StartsWith(line, "#") {
        refs' := refs' + [line];
      }
      ghost var r1 := Reader(inId', inStr', msgid', msgstr', refs', messages);
      assert r1 == TakeRef(Reader(inId, inStr, msgid, msgstr, refs, messages), line);
      if !inStr' && StartsWith(line, "msgstr") {
        msgstr', inStr', inId' := "", true, false;
      }
      if inStr' {
        if chunk.None? {
          inStr' := false;
          msgid', msgstr' := Settled(msgid'), Settled(msgstr');
          messages := messages + [Make(msgid', msgstr', refs')];
          msgstr', msgid', refs' := "", "", [];
        } else {
          msgstr' := msgstr' + chunk.value + "\n";
        }
      }
      ghost var r2 := Reader(inId', inStr', msgid', msgstr', refs', messages);
      assert r2 == TakeString(r1, line);
      if !inId' && StartsWith(line, "msgid") {
        msgid', inId' := "", true;
      }
      if inId' {
        if chunk.None? {
          inId' := false;
        } else {
          msgid' := msgid' + chunk.value + "\n";
        }
      }
    }

    method ToString() returns (res: string)
      ensures res == FileText(messages)
    {
      res := Print(messages);
    }

    method GetMsgstr(id: string) returns (msg: Option<string>)
      ensures msg == Translation(messages, id)
    {
      for i := 0 to |messages|
        invariant Translation(messages[..i], id).None?
      {
        assert messages[..i + 1][..i] == messages[..i];
        if messages[i].id == id {
          TranslationStays(messages, i + 1, id);
          return Some(messages[i].msg);
        }
      }
      assert messages[..|messages|] == messages;
      msg := None;
    }

    /** Appends the messages of the other catalogue whose id has no string here. */
    method Append(more: seq<Message>)
      requires Valid() && AllClean(more)
      modifies this
      ensures Valid() && messages == Appended(old(messages), more)
    {
      for i := 0 to |more|
        invariant AllClean(messages) && messages == Appended(old(messages), more[..i])
      {
        assert more[..i + 1][..i] == more[..i];
        var msg := GetMsgstr(more[i].id);
        if msg.None? || msg.value == "" {
          messages := messages + [more[i]];
        }
      }
      assert more[..|more|] == more;
    }

    /** The text of the inverted catalogue. */
    method InvertedStrings() returns (res: string)
      ensures res == FileText(Inverted(messages))
    {
      var msgar := Invert(messages);
      res := Print(msgar);
    }
  }

  method Print(msgs: seq<Message>) returns (res: string)
    ensures res == FileText(msgs)
  {
    res := "";
    for i := 0 to |msgs|
      invariant res == FileText(msgs[..i])
    {
      assert msgs[..i + 1][..i] == msgs[..i];
      res := res + (MessageText(msgs[i]) + "\n");
    }
    assert msgs[..|msgs|] == msgs;
  }

  /** The inversion loop; the table maps each new id to the place of its message in the list. */
  method Invert(msgs: seq<Message>) returns (msgar: seq<Message>)
    ensures msgar == Inverted(msgs)
  {
    var msght: map<string, nat> := map[];
    msgar := [];
    for i := 0 to |msgs|
      invariant msgar == Inverted(msgs[..i])
      invariant msgar == [] <==> i == 0
      invariant IndexOf(msgar, if i > 0 && KeepsHead(msgs) then 1 else 0, msght)
    {
      var m := msgs[i];
      ghost var from := if KeepsHead(msgs) then 1 else 0;
      OneMoreInverted(msgs, i);
      if m.id == EMPTY && |msgar| == 0 {
        msgar := msgar + [Make(m.id, m.msg, m.refs)];
      } else {
        var msg := Make(m.msg, m.id, m.refs);
        IndexFinds(msgar, from, msght, msg.id);
        if msg.id !in msght {
          IndexGrows(msgar, from, msght, msg);
          msght := msght[msg.id := |msgar|];
          msgar := msgar + [msg];
        } else {
          var at := msght[msg.id];
          IndexKept(msgar, from, msght, at, msg.refs);
          msgar := msgar[at := WithRefs(msgar[at], msg.refs)];
        }
      }
    }
    assert msgs[..|msgs|] == msgs;
  }

  lemma {:induction false} OneMoreInverted(msgs: seq<Message>, i: nat)
    requires i < |msgs|
    ensures KeepsHead(msgs[..i + 1]) == KeepsHead(msgs)
    ensures var before, m := Inverted(msgs[..i]), msgs[i];
            Inverted(msgs[..i + 1]) ==
            if m.id == EMPTY && before == [] then [Make(m.id, m.msg, m.refs)]
            else
              var found := FindId(before, if KeepsHead(msgs) then 1 else 0, Swapped(m).id);
              if found.None? then before + [Swapped(m)] else before[found.value := WithRefs(before[found.value], m.refs)]
  {
    assert msgs[..i + 1][..i] == msgs[..i];
  }

  lemma {:induction false} IndexGrows(msgs: seq<Message>, from: nat, table: map<string, nat>, m: Message)
    requires from <= |msgs| && IndexOf(msgs, from, table) && m.id !in table
    ensures IndexOf(msgs + [m], from, table[m.id := |msgs|])
  {
  }

  lemma {:induction false} IndexKept(msgs: seq<Message>, from: nat, table: map<string, nat>, at: nat, refs: seq<string>)
    requires IndexOf(msgs, from, table) && at < |msgs|
    ensures IndexOf(msgs[at := WithRefs(msgs[at], refs)], from, table)
  {
  }

  lemma {:induction false} OneMoreLine(lines: seq<Line>, i: nat)
    requires i < |lines|
    ensures Steps(Start(), lines[..i + 1]) == Step(Steps(Start(), lines[..i]), lines[i])
  {
    assert lines[..i + 1][..i] == lines[..i];
  }

  lemma {:induction false} TranslationStays(msgs: seq<Message>, i: nat, id: string)
    requires i <= |msgs| && Translation(msgs[..i], id).Some?
    ensures Translation(msgs, id) == Translation(msgs[..i], id)
    decreases |msgs|
  {
    if i < |msgs| {
      assert msgs[..|msgs| - 1][..i] == msgs[..i];
      TranslationStays(msgs[..|msgs| - 1], i, id);
    } else {
      assert msgs[..i] == msgs;
    }
  }

  /** The table of new ids points to the entries from `from` on, each under its own id. */
  ghost predicate IndexOf(msgs: seq<Message>, from: nat, table: map<string, nat>) {
    && (forall id :: id in table ==> from <= table[id] < |msgs| && msgs[table[id]].id == id)
    && (forall i :: from <= i < |msgs| ==> msgs[i].id in table && table[msgs[i].id] == i)
  }

  lemma {:induction false} IndexFinds(msgs: seq<Message>, from: nat, table: map<string, nat>, id: string)
    requires IndexOf(msgs, from, table)
    ensures FindId(msgs, from, id) == if id in table then Some(table[id]) else None
  {
  }

  // ----- lines of printed text -----

  predicate OneLine(s: string) { '\n' !in s }

  lemma {:induction false} FirstBreak(a: string, rest: string)
    requires OneLine(a)
    ensures FindFrom(a + "\n" + rest, "\n", 0) == Some(|a|) && FindFrom(a, "\n", 0).None?
  {
    var s := a + "\n" + rest;
    forall j | 0 <= j < |a|
      ensures !OccursAt(s, "\n", j) && !OccursAt(a, "\n", j)
    {
      assert s[j..j + 1] == [a[j]] && a[j..j + 1] == [a[j]];
    }
    assert OccursAt(s, "\n", |a|);
  }

  lemma {:induction false} LinesOfLine(a: string, rest: string)
    requires OneLine(a)
    ensures Lines(a + "\n" + rest) == [a] + Lines(rest)
    ensures Lines(a) == if a == "" then [] else [a]
  {
    FirstBreak(a, rest);
    var s := a + "\n" + rest;
    assert s[..|a|] == a && s[|a| + 1..] == rest;
  }

  /** The first line of a text that has several. */
  lemma {:induction false} CutFirst(a: string) returns (head: string, tail: string)
    requires !OneLine(a)
    ensures OneLine(head) && a == head + "\n" + tail && |tail| < |a|
  {
    var i := FirstIndex(a, '\n').value;
    head, tail := a[..i], a[i + 1..];
  }

  lemma {:induction false} Assoc<T>(a: seq<T>, b: seq<T>, c: seq<T>)
    ensures (a + b) + c == a + (b + c)
  {
  }

  lemma {:induction false} Regroup(head: string, tail: string, rest: string)
    ensures (head + "\n" + tail) + "\n" + rest == head + "\n" + (tail + "\n" + rest)
  {
  }

  /** A text that does not end in a line break, followed by one. */
  lemma {:induction false} LinesSplit(a: string, rest: string)
    requires a != "" && a[|a| - 1] != '\n'
    ensures Lines(a + "\n" + rest) == Lines(a) + Lines(rest)
    decreases |a|
  {
    if OneLine(a) {
      LinesOfLine(a, rest);
    } else {
      var head, tail := CutFirst(a);
      assert tail != "" && tail[|tail| - 1] == a[|a| - 1];
      LinesSplit(tail, rest);
      LinesOfLine(head, tail);
      LinesOfLine(head, tail + "\n" + rest);
      Regroup(head, tail, rest);
      Assoc([head], Lines(tail), Lines(rest));
    }
  }

  lemma {:induction false} LinesPrefixed(p: string, a: string)
    requires OneLine(p) && a != ""
    ensures Lines(a) != [] && Lines(p + a) == [p + Lines(a)[0]] + Lines(a)[1..]
  {
    if OneLine(a) {
      LinesOfLine(a, "");
      LinesOfLine(p + a, "");
    } else {
      var head, tail := CutFirst(a);
      LinesOfLine(head, tail);
      LinesOfLine(p + head, tail);
      Prefixed(p, head, tail);
      assert ([head] + Lines(tail))[1..] == Lines(tail);
    }
  }

  lemma {:induction false} Prefixed(p: string, head: string, tail: string)
    ensures p + (head + "\n" + tail) == (p + head) + "\n" + tail
  {
  }

  function Joined(lines: seq<Line>): string {
    if lines == [] then "" else Joined(lines[..|lines| - 1]) + lines[|lines| - 1] + "\n"
  }

  lemma {:induction false} JoinedFirst(line: Line, lines: seq<Line>)
    ensures Joined([line] + lines) == line + "\n" + Joined(lines)
  {
    var all := [line] + lines;
    if lines == [] {
      assert all[..0] == [] && all == [line];
    } else {
      assert all[..|all| - 1] == [line] + lines[..|lines| - 1];
      JoinedFirst(line, lines[..|lines| - 1]);
    }
  }

  lemma {:induction false} JoinedLines(a: string)
    requires a != "" && a[|a| - 1] != '\n'
    ensures Joined(Lines(a)) == a + "\n"
    decreases |a|
  {
    if OneLine(a) {
      LinesOfLine(a, "");
      JoinedFirst(a, []);
      assert [a] + [] == [a];
    } else {
      var head, tail := CutFirst(a);
      assert tail != "" && tail[|tail| - 1] == a[|a| - 1];
      JoinedLines(tail);
      LinesOfLine(head, tail);
      JoinedFirst(head, Lines(tail));
    }
  }

  // ----- catalogues that can be printed -----

  predicate IsChunk(line: Line) { line != "" && line[0] == '"' && line[|line| - 1] == '"' }

  /** Quoted chunks, one a line. */
  predicate WellQuoted(text: string) {
    && text != "" && text[|text| - 1] == '"'
    && forall i :: 0 <= i < |Lines(text)| ==> IsChunk(Lines(text)[i])
  }

  predicate IsRef(line: Line) { OneLine(line) && StartsWith(line, "#") && Names.Stripped(line) }

  predicate Printable(m: Message) {
    && WellQuoted(m.id) && WellQuoted(m.msg)
    && forall i :: 0 <= i < |m.refs| ==> IsRef(m.refs[i])
  }

  predicate AllPrintable(msgs: seq<Message>) { forall i :: 0 <= i < |msgs| ==> Printable(msgs[i]) }

  /** The first chunk is not the empty one when anything follows. */
  predicate NormalText(text: string) { StartsWith(text, EMPTY) ==> |text| <= 3 }

  predicate Normal(m: Message) { NormalText(m.id) && NormalText(m.msg) }

  lemma {:induction false} FirstChunk(text: string)
    requires WellQuoted(text)
    ensures Lines(text) != [] && text[0] == '"'
  {
    LinesPrefixed("", text);
    if OneLine(text) {
      LinesOfLine(text, "");
    } else {
      var head, tail := CutFirst(text);
      LinesOfLine(head, tail);
      assert Lines(text)[0] == head;
    }
  }

  function TextLines(word: string, text: string): seq<Line> {
    if Lines(text) == [] then [] else [word + Lines(text)[0]] + Lines(text)[1..]
  }

  function MessageLines(m: Message): seq<Line> {
    m.refs + TextLines("msgid ", m.id) + TextLines("msgstr ", m.msg) + [""]
  }

  function FileLines(msgs: seq<Message>): seq<Line> {
    if msgs == [] then [] else FileLines(msgs[..|msgs| - 1]) + MessageLines(msgs[|msgs| - 1])
  }

  lemma {:induction false} RefsLines(refs: seq<string>, rest: string)
    requires forall i :: 0 <= i < |refs| ==> IsRef(refs[i])
    ensures Lines(RefLines(refs) + rest) == refs + Lines(rest)
  {
    if refs == [] {
      assert RefLines(refs) + rest == rest;
    } else {
      var init, last := refs[..|refs| - 1], refs[|refs| - 1];
      RefsLines(init, (last + "\n") + rest);
      LinesOfLine(last, rest);
      Assoc(RefLines(init), last + "\n", rest);
      Assoc(init, [last], Lines(rest));
      SplitLast(refs);
    }
  }

  lemma {:induction false} TextLinesPrinted(word: string, text: string, rest: string)
    requires OneLine(word) && WellQuoted(text)
    ensures Lines((word + text) + "\n" + rest) == TextLines(word, text) + Lines(rest)
  {
    LinesPrefixed(word, text);
    LinesSplit(word + text, rest);
  }

  lemma {:induction false} Nested(a: string, b: string, c: string, d: string)
    ensures ((a + b + c) + "\n") + d == a + (b + (c + ("" + "\n" + d)))
  {
  }

  lemma {:induction false} NestedLines(a: seq<Line>, b: seq<Line>, c: seq<Line>, d: seq<Line>)
    ensures (a + b + c + [""]) + d == a + (b + (c + ([""] + d)))
  {
  }

  lemma {:induction false} MessagePrinted(m: Message, rest: string)
    requires Printable(m)
    ensures Lines((MessageText(m) + "\n") + rest) == MessageLines(m) + Lines(rest)
  {
    var blank := "" + "\n" + rest;
    var str := ("msgstr " + m.msg + "\n") + blank;
    var id := ("msgid " + m.id + "\n") + str;
    LinesOfLine("", rest);
    TextLinesPrinted("msgstr ", m.msg, blank);
    TextLinesPrinted("msgid ", m.id, str);
    RefsLines(m.refs, id);
    Nested(RefLines(m.refs), "msgid " + m.id + "\n", "msgstr " + m.msg + "\n", rest);
    NestedLines(m.refs, TextLines("msgid ", m.id), TextLines("msgstr ", m.msg), Lines(rest));
  }

  lemma {:induction false} FilePrinted(msgs: seq<Message>, rest: string)
    requires AllPrintable(msgs)
    ensures Lines(FileText(msgs) + rest) == FileLines(msgs) + Lines(rest)
  {
    if msgs == [] {
      assert FileText(msgs) + rest == rest;
    } else {
      var init, last := msgs[..|msgs| - 1], msgs[|msgs| - 1];
      var text := MessageText(last) + "\n";
      FilePrinted(init, text + rest);
      MessagePrinted(last, rest);
      Assoc(FileText(init), text, rest);
      Assoc(FileLines(init), MessageLines(last), Lines(rest));
    }
  }

  predicate AllTrimmed(lines: seq<Line>) { forall i :: 0 <= i < |lines| ==> Names.Stripped(lines[i]) }

  lemma {:induction false} TrimmedConcat(a: seq<Line>, b: seq<Line>)
    requires AllTrimmed(a) && AllTrimmed(b)
    ensures AllTrimmed(a + b)
  {
  }

  lemma {:induction false} MessageLinesTrimmed(m: Message)
    requires Printable(m)
    ensures AllTrimmed(MessageLines(m))
  {
    var ids, strs := TextLines("msgid ", m.id), TextLines("msgstr ", m.msg);
    TextLinesTrimmed("msgid ", m.id);
    TextLinesTrimmed("msgstr ", m.msg);
    TrimmedConcat(m.refs, ids);
    TrimmedConcat(m.refs + ids, strs);
    TrimmedConcat(m.refs + ids + strs, [""]);
  }

  lemma {:induction false} LinesAreTrimmed(msgs: seq<Message>)
    requires AllPrintable(msgs)
    ensures AllTrimmed(FileLines(msgs))
  {
    if msgs != [] {
      var init, last := msgs[..|msgs| - 1], msgs[|msgs| - 1];
      LinesAreTrimmed(init);
      MessageLinesTrimmed(last);
      TrimmedConcat(FileLines(init), MessageLines(last));
    }
  }

  lemma {:induction false} TextLinesTrimmed(word: string, text: string)
    requires WellQuoted(text) && word != "" && !Names.IsSpace(word[0])
    ensures AllTrimmed(TextLines(word, text))
  {
    FirstChunk(text);
    var ls, all := Lines(text), TextLines(word, text);
    assert IsChunk(ls[0]);
    forall i | 1 <= i < |all|
      ensures Names.Stripped(all[i])
    {
      assert all[i] == ls[i] && IsChunk(ls[i]);
    }
  }

  lemma {:induction false} TrimmedFixed(lines: seq<Line>)
    requires AllTrimmed(lines)
    ensures Trimmed(lines) == lines
  {
    forall i | 0 <= i < |lines|
      ensures Trimmed(lines)[i] == lines[i]
    {
      Names.StripFixed(lines[i]);
    }
  }

  // ----- the reader over printed lines -----

  lemma {:induction false} StepsConcat(r: Reader, a: seq<Line>, b: seq<Line>)
    ensures Steps(r, a + b) == Steps(Steps(r, a), b)
  {
    if b == [] {
      assert a + b == a;
    } else {
      assert (a + b)[..|a + b| - 1] == a + b[..|b| - 1];
      StepsConcat(r, a, b[..|b| - 1]);
    }
  }

  lemma {:induction false} OneStep(r: Reader, line: Line)
    ensures Steps(r, [line]) == Step(r, line)
  {
    assert [line][..0] == [];
  }

  lemma {:induction false} ChunkOf(word: string, line: Line)
    requires IsChunk(line) && '"' !in word
    ensures Chunk(word + line) == Some(line)
  {
    var s := word + line;
    var first, last := FirstIndex(s, '"'), LastIndex(s, '"');
    assert s[|word|] == '"' && s[|s| - 1] == '"';
    assert first == Some(|word|) && last == Some(|s| - 1);
    assert s[|word|..|s|] == line;
  }

  lemma {:induction false} ReadRefs(r: Reader, lines: seq<Line>)
    requires !r.inId && !r.inStr && forall i :: 0 <= i < |lines| ==> IsRef(lines[i])
    ensures Steps(r, lines) == r.(refs := r.refs + lines)
  {
    if lines == [] {
      assert r.refs + lines == r.refs;
    } else {
      var init, last := lines[..|lines| - 1], lines[|lines| - 1];
      ReadRefs(r, init);
      assert (r.refs + init) + [last] == r.refs + lines;
      RefStep(r.(refs := r.refs + init), last);
    }
  }

  lemma {:induction false} RefStep(r: Reader, line: Line)
    requires !r.inId && !r.inStr && IsRef(line)
    ensures Step(r, line) == r.(refs := r.refs + [line])
  {
    assert line[0] == '#' && "msgid"[0] == 'm' && "msgstr"[0] == 'm';
  }

  /** A chunk line goes to the end of the text that is being read. */
  lemma {:induction false} ChunkStep(r: Reader, line: Line)
    requires r.inId != r.inStr && IsChunk(line)
    ensures Step(r, line) ==
            if r.inId then r.(msgid := r.msgid + line + "\n") else r.(msgstr := r.msgstr + line + "\n")
  {
    ChunkOf("", line);
    assert "" + line == line;
    assert line[0] == '"' && "msgid"[0] == 'm' && "msgstr"[0] == 'm' && "#"[0] == '#';
  }

  function AddText(r: Reader, text: string): Reader {
    if r.inId then r.(msgid := r.msgid + text) else r.(msgstr := r.msgstr + text)
  }

  lemma {:induction false} ReadChunks(r: Reader, lines: seq<Line>)
    requires r.inId != r.inStr && forall i :: 0 <= i < |lines| ==> IsChunk(lines[i])
    ensures Steps(r, lines) == AddText(r, Joined(lines))
  {
    if lines == [] {
      assert r.msgid + "" == r.msgid && r.msgstr + "" == r.msgstr;
    } else {
      var init, last := lines[..|lines| - 1], lines[|lines| - 1];
      ReadChunks(r, init);
      ChunkStep(AddText(r, Joined(init)), last);
      assert forall t: string :: t + Joined(init) + last + "\n" == t + (Joined(init) + last + "\n");
    }
  }

  lemma {:induction false} IdStep(r: Reader, line: Line)
    requires !r.inId && !r.inStr && IsChunk(line)
    ensures Step(r, "msgid " + line) == r.(inId := true, msgid := line + "\n")
  {
    ChunkOf("msgid ", line);
    var all := "msgid " + line;
    assert all[0] == 'm' && all[3] == 'i' && "msgstr"[3] == 's' && "#"[0] == '#';
    assert all[..5] == "msgid";
    assert "" + line == line;
  }

  lemma {:induction false} StrStep(r: Reader, line: Line)
    requires !r.inStr && IsChunk(line)
    ensures Step(r, "msgstr " + line) == r.(inId := false, inStr := true, msgstr := line + "\n")
  {
    ChunkOf("msgstr ", line);
    var all := "msgstr " + line;
    assert all[0] == 'm' && all[3] == 's' && "msgid"[3] == 'i' && "#"[0] == '#';
    assert all[..6] == "msgstr";
    assert "" + line == line;
  }

  lemma {:induction false} WholeText(text: string)
    requires WellQuoted(text)
    ensures Lines(text) != [] && IsChunk(Lines(text)[0])
    ensures Lines(text)[0] + "\n" + Joined(Lines(text)[1..]) == text + "\n"
  {
    FirstChunk(text);
    JoinedLines(text);
    JoinedFirst(Lines(text)[0], Lines(text)[1..]);
    assert [Lines(text)[0]] + Lines(text)[1..] == Lines(text);
  }

  lemma {:induction false} ReadId(r: Reader, text: string)
    requires !r.inId && !r.inStr && WellQuoted(text)
    ensures Steps(r, TextLines("msgid ", text)) == r.(inId := true, msgid := text + "\n")
  {
    WholeText(text);
    var head, tail := Lines(text)[0], Lines(text)[1..];
    StepsConcat(r, ["msgid " + head], tail);
    OneStep(r, "msgid " + head);
    IdStep(r, head);
    ReadChunks(r.(inId := true, msgid := head + "\n"), tail);
  }

  lemma {:induction false} ReadStr(r: Reader, text: string)
    requires !r.inStr && WellQuoted(text)
    ensures Steps(r, TextLines("msgstr ", text)) == r.(inId := false, inStr := true, msgstr := text + "\n")
  {
    WholeText(text);
    var head, tail := Lines(text)[0], Lines(text)[1..];
    StepsConcat(r, ["msgstr " + head], tail);
    OneStep(r, "msgstr " + head);
    StrStep(r, head);
    ReadChunks(r.(inId := false, inStr := true, msgstr := head + "\n"), tail);
  }

  /** A printed text as the reader takes it. */
  function Taken(text: string): string { Names.Strip(Settled(text + "\n")) }

  function TakenMessage(m: Message): Message { Message(Taken(m.id), Taken(m.msg), m.refs) }

  function AllTaken(msgs: seq<Message>): (r: seq<Message>)
    ensures |r| == |msgs| && forall i :: 0 <= i < |msgs| ==> r[i] == TakenMessage(msgs[i])
  {
    seq(|msgs|, i requires 0 <= i < |msgs| => TakenMessage(msgs[i]))
  }

  function Between(messages: seq<Message>): Reader { Start().(messages := messages) }

  lemma {:induction false} BlankStep(r: Reader)
    requires r.inStr && !r.inId
    ensures Step(r, "") == Between(r.messages + [Make(Settled(r.msgid), Settled(r.msgstr), r.refs)])
  {
  }

  lemma {:induction false} ReadMessage(messages: seq<Message>, m: Message)
    requires Printable(m)
    ensures Steps(Between(messages), MessageLines(m)) == Between(messages + [TakenMessage(m)])
  {
    var r0 := Between(messages);
    var ids, strs := TextLines("msgid ", m.id), TextLines("msgstr ", m.msg);
    ReadRefs(r0, m.refs);
    assert [] + m.refs == m.refs;
    var r1 := r0.(refs := m.refs);
    ReadId(r1, m.id);
    var r2 := r1.(inId := true, msgid := m.id + "\n");
    ReadStr(r2, m.msg);
    var r3 := r2.(inId := false, inStr := true, msgstr := m.msg + "\n");
    StepsConcat(r0, m.refs, ids);
    StepsConcat(r0, m.refs + ids, strs);
    StepsConcat(r0, m.refs + ids + strs, [""]);
    OneStep(r3, "");
    BlankStep(r3);
  }

  lemma {:induction false} ReadMessages(msgs: seq<Message>)
    requires AllPrintable(msgs)
    ensures Steps(Start(), FileLines(msgs)) == Between(AllTaken(msgs))
  {
    if msgs == [] {
      assert AllTaken(msgs) == [];
    } else {
      var init, last := msgs[..|msgs| - 1], msgs[|msgs| - 1];
      ReadMessages(init);
      StepsConcat(Start(), FileLines(init), MessageLines(last));
      ReadMessage(AllTaken(init), last);
      OneMoreTaken(msgs);
    }
  }

  lemma {:induction false} OneMoreTaken(msgs: seq<Message>)
    requires msgs != []
    ensures AllTaken(msgs) == AllTaken(msgs[..|msgs| - 1]) + [TakenMessage(msgs[|msgs| - 1])]
  {
  }

  /** Reading a printed catalogue gives every message, in order, as the reader takes its texts. */
  lemma {:induction false} PrintedIsRead(msgs: seq<Message>)
    requires AllPrintable(msgs)
    ensures Read(FileText(msgs)) == AllTaken(msgs)
  {
    FilePrinted(msgs, "");
    assert FileText(msgs) + "" == FileText(msgs) && FileLines(msgs) + Lines("") == FileLines(msgs);
    LinesAreTrimmed(msgs);
    TrimmedFixed(FileLines(msgs));
    ReadMessages(msgs);
  }

  lemma {:induction false} StripShortens(s: string)
    ensures |Names.Strip(s)| <= |s|
  {
    LStripShortens(s);
  }

  lemma {:induction false} LStripShortens(s: string)
    ensures |Names.LStrip(s)| <= |s|
  {
    if s != "" {
      LStripShortens(s[1..]);
    }
  }

  /** A quoted text survives exactly when it does not begin with an empty chunk that more text follows. */
  lemma {:induction false} TakenExactly(text: string)
    requires WellQuoted(text)
    ensures Taken(text) == text <==> NormalText(text)
  {
    var s := text + "\n";
    FirstChunk(text);
    if |text| >= 2 {
      assert s[..2] == text[..2];
    }
    if NormalText(text) {
      assert Settled(s) == s && s[..|s| - 1] == text;
      Names.StripFixed(text);
      assert Names.LStrip(s) == s;
    } else {
      assert Settled(s) == s[2..];
      StripShortens(s[2..]);
    }
  }

  /** Printing and reading back is the identity exactly on catalogues whose texts are all normal. */
  lemma {:induction false} CatalogueReadsBackExactly(msgs: seq<Message>)
    requires AllPrintable(msgs)
    ensures Read(FileText(msgs)) == msgs <==> forall i :: 0 <= i < |msgs| ==> Normal(msgs[i])
  {
    PrintedIsRead(msgs);
    var taken := AllTaken(msgs);
    forall i | 0 <= i < |msgs|
      ensures taken[i] == msgs[i] <==> Normal(msgs[i])
    {
      TakenExactly(msgs[i].id);
      TakenExactly(msgs[i].msg);
    }
    if forall i :: 0 <= i < |msgs| ==> Normal(msgs[i]) {
      assert taken == msgs;
    }
  }

  // ----- inverting twice -----

  predicate DistinctIds(msgs: seq<Message>, from: nat) {
    forall i, j :: from <= i < j < |msgs| ==> msgs[i].id != msgs[j].id
  }

  predicate DistinctStrings(msgs: seq<Message>, from: nat) {
    forall i, j :: from <= i < j < |msgs| ==> msgs[i].msg != msgs[j].msg
  }

  function Kept(msgs: seq<Message>): nat { if KeepsHead(msgs) then 1 else 0 }

  function Swap(m: Message): Message { Message(m.msg, m.id, m.refs) }

  lemma {:induction false} CleanSwap(m: Message)
    requires Clean(m)
    ensures Swapped(m) == Swap(m) && Make(m.id, m.msg, m.refs) == m
  {
    Names.StripFixed(m.id);
    Names.StripFixed(m.msg);
  }

  function Merged(before: seq<Message>, from: nat, m: Message): seq<Message> {
    var found := FindId(before, from, m.msg);
    if found.None? then before + [Swap(m)] else before[found.value := WithRefs(before[found.value], m.refs)]
  }

  /** One step of the inversion of a catalogue that is longer than one message. */
  lemma {:induction false} InvertedStep(msgs: seq<Message>)
    requires AllClean(msgs) && |msgs| > 1
    ensures Kept(msgs[..|msgs| - 1]) == Kept(msgs)
    ensures var before, m := Inverted(msgs[..|msgs| - 1]), msgs[|msgs| - 1];
            before != [] && Inverted(msgs) == Merged(before, Kept(msgs), m)
  {
    var init := msgs[..|msgs| - 1];
    CleanSwap(msgs[|msgs| - 1]);
    InvertedNotEmpty(init);
  }

  lemma {:induction false} InvertedNotEmpty(msgs: seq<Message>)
    requires msgs != []
    ensures Inverted(msgs) != []
  {
    if |msgs| > 1 {
      InvertedNotEmpty(msgs[..|msgs| - 1]);
    }
  }

  lemma {:induction false} InvertedOne(msgs: seq<Message>)
    requires AllClean(msgs) && |msgs| == 1
    ensures Inverted(msgs) == [if KeepsHead(msgs) then msgs[0] else Swap(msgs[0])]
  {
    CleanSwap(msgs[0]);
    assert msgs[..0] == [] && Inverted(msgs[..0]) == [];
    assert FindId([], Kept(msgs), msgs[0].msg).None?;
  }

  ghost predicate Shape(inv: seq<Message>, msgs: seq<Message>, from: nat) {
    && from <= |inv| <= |msgs| && AllClean(inv) && DistinctIds(inv, from)
    && (from > 0 ==> inv[0] == msgs[0])
  }

  lemma {:induction false} ShapeStep(before: seq<Message>, init: seq<Message>, from: nat, m: Message)
    requires Shape(before, init, from) && Clean(m)
    ensures Shape(Merged(before, from, m), init + [m], from)
  {
  }

  lemma {:induction false} SplitLast<T>(s: seq<T>)
    requires s != []
    ensures s == s[..|s| - 1] + [s[|s| - 1]]
  {
  }

  /** The head that is kept stays first, the new ids differ, and merging only makes the catalogue shorter. */
  lemma {:induction false} InvertedShape(msgs: seq<Message>)
    requires AllClean(msgs)
    ensures Shape(Inverted(msgs), msgs, Kept(msgs)) && (Inverted(msgs) == [] <==> msgs == [])
  {
    if |msgs| == 1 {
      InvertedOne(msgs);
    } else if msgs != [] {
      var init, m := msgs[..|msgs| - 1], msgs[|msgs| - 1];
      InvertedShape(init);
      InvertedStep(msgs);
      ShapeStep(Inverted(init), init, Kept(msgs), m);
      SplitLast(msgs);
      InvertedNotEmpty(msgs);
    }
  }

  ghost predicate IsSwappedFrom(inv: seq<Message>, msgs: seq<Message>, from: nat) {
    && |inv| == |msgs|
    && forall i :: 0 <= i < |msgs| ==> inv[i] == if i < from then msgs[i] else Swap(msgs[i])
  }

  ghost predicate IsSwapped(inv: seq<Message>, msgs: seq<Message>) { IsSwappedFrom(inv, msgs, Kept(msgs)) }

  lemma {:induction false} SwappedStep(init: seq<Message>, m: Message, before: seq<Message>, from: nat)
    requires |before| <= |init| && from <= |init|
    requires |before| == |init| <==> DistinctStrings(init, from)
    requires DistinctStrings(init, from) ==> IsSwappedFrom(before, init, from)
    ensures var after := Merged(before, from, m);
            && (|after| == |init| + 1 <==> DistinctStrings(init + [m], from))
            && (DistinctStrings(init + [m], from) ==> IsSwappedFrom(after, init + [m], from))
  {
    if DistinctStrings(init, from) {
      LastString(init, m, before, from);
    } else {
      var i, j :| from <= i < j < |init| && init[i].msg == init[j].msg;
      assert (init + [m])[i].msg == (init + [m])[j].msg;
    }
  }

  /** Nothing is merged exactly when the strings differ, and then every message but the kept one is swapped. */
  lemma {:induction false} InvertedIsSwappedExactly(msgs: seq<Message>)
    requires AllClean(msgs)
    ensures |Inverted(msgs)| == |msgs| <==> DistinctStrings(msgs, Kept(msgs))
    ensures DistinctStrings(msgs, Kept(msgs)) ==> IsSwapped(Inverted(msgs), msgs)
  {
    if |msgs| == 1 {
      InvertedOne(msgs);
    } else if msgs != [] {
      var init, m := msgs[..|msgs| - 1], msgs[|msgs| - 1];
      InvertedIsSwappedExactly(init);
      InvertedShape(init);
      InvertedStep(msgs);
      SwappedStep(init, m, Inverted(init), Kept(msgs));
      SplitLast(msgs);
    }
  }

  lemma {:induction false} LastString(init: seq<Message>, m: Message, before: seq<Message>, from: nat)
    requires |before| == |init| && forall i :: from <= i < |init| ==> before[i].id == init[i].msg
    requires DistinctStrings(init, from) && from <= |init|
    ensures FindId(before, from, m.msg).None? <==> DistinctStrings(init + [m], from)
  {
    var all := init + [m];
    var found := FindId(before, from, m.msg);
    if found.Some? {
      assert all[found.value].msg == all[|init|].msg;
    }
  }

  /**
   * Inverting twice restores a catalogue exactly when, outside a kept head, no two messages share their id
   * or their string, and the first message, when it is not kept, has a string to be found under.
   */
  lemma {:induction false} InvertTwiceExactly(msgs: seq<Message>)
    requires AllClean(msgs)
    ensures Inverted(Inverted(msgs)) == msgs <==>
            && DistinctStrings(msgs, Kept(msgs)) && DistinctIds(msgs, Kept(msgs))
            && (msgs != [] && !KeepsHead(msgs) ==> msgs[0].msg != EMPTY)
  {
    var once := Inverted(msgs);
    InvertedShape(msgs);
    InvertedShape(once);
    InvertedIsSwappedExactly(msgs);
    InvertedIsSwappedExactly(once);
    if DistinctStrings(msgs, Kept(msgs)) && msgs != [] {
      if KeepsHead(msgs) || msgs[0].msg != EMPTY {
        SwappedAgain(msgs, once);
      } else {
        HeadIsLost(msgs);
      }
    }
  }

  /** The empty string comes first as an id after one inversion, so that the second one does not swap it back. */
  lemma {:induction false} HeadIsLost(msgs: seq<Message>)
    requires AllClean(msgs) && msgs != [] && !KeepsHead(msgs) && msgs[0].msg == EMPTY
    requires DistinctStrings(msgs, 0)
    ensures Inverted(Inverted(msgs)) != msgs
  {
    var once := Inverted(msgs);
    InvertedIsSwappedExactly(msgs);
    InvertedShape(msgs);
    InvertedShape(once);
    assert KeepsHead(once) && Inverted(once)[0] == Swap(msgs[0]);
  }

  lemma {:induction false} SwappedAgain(msgs: seq<Message>, once: seq<Message>)
    requires IsSwapped(once, msgs) && msgs != [] && (KeepsHead(msgs) || msgs[0].msg != EMPTY)
    ensures Kept(once) == Kept(msgs)
    ensures DistinctStrings(once, Kept(msgs)) <==> DistinctIds(msgs, Kept(msgs))
    ensures forall twice: seq<Message> :: IsSwapped(twice, once) ==> twice == msgs
  {
  }

  // ----- what the inversion means -----

  function AllRefs(msgs: seq<Message>): multiset<string> {
    if msgs == [] then multiset{} else AllRefs(msgs[..|msgs| - 1]) + multiset(msgs[|msgs| - 1].refs)
  }

  lemma {:induction false} MergedRefs(msgs: seq<Message>, i: nat, refs: seq<string>)
    requires i < |msgs|
    ensures AllRefs(msgs[i := WithRefs(msgs[i], refs)]) == AllRefs(msgs) + multiset(refs)
  {
    var after := msgs[i := WithRefs(msgs[i], refs)];
    if i == |msgs| - 1 {
      assert after[..i] == msgs[..i];
    } else {
      assert after[..|msgs| - 1] == msgs[..|msgs| - 1][i := WithRefs(msgs[i], refs)];
      MergedRefs(msgs[..|msgs| - 1], i, refs);
    }
  }

  lemma {:induction false} OneMoreRefs(msgs: seq<Message>, m: Message)
    ensures AllRefs(msgs + [m]) == AllRefs(msgs) + multiset(m.refs)
  {
    assert (msgs + [m])[..|msgs|] == msgs;
  }

  /** No reference is lost or invented by the inversion, however many messages it merges. */
  lemma {:induction false} InversionKeepsRefs(msgs: seq<Message>)
    requires AllClean(msgs)
    ensures AllRefs(Inverted(msgs)) == AllRefs(msgs)
  {
    if |msgs| == 1 {
      InvertedOne(msgs);
      assert msgs == [msgs[0]];
      OneMoreRefs([], msgs[0]);
      OneMoreRefs([], Inverted(msgs)[0]);
      assert [] + [msgs[0]] == [msgs[0]] && [] + [Inverted(msgs)[0]] == [Inverted(msgs)[0]];
    } else if msgs != [] {
      var init, m := msgs[..|msgs| - 1], msgs[|msgs| - 1];
      var before := Inverted(init);
      InversionKeepsRefs(init);
      InvertedStep(msgs);
      var found := FindId(before, Kept(msgs), m.msg);
      if found.None? {
        OneMoreRefs(before, Swap(m));
      } else {
        MergedRefs(before, found.value, m.refs);
      }
    }
  }

  /** The id of the first message, from `from` on, with the string. */
  function FirstIdOf(msgs: seq<Message>, from: nat, str: string): Option<string> {
    if |msgs| <= from then None
    else
      var before := FirstIdOf(msgs[..|msgs| - 1], from, str);
      if before.Some? then before else if msgs[|msgs| - 1].msg == str then Some(msgs[|msgs| - 1].id) else None
  }

  ghost predicate SameAnswer(msgs: seq<Message>, inv: seq<Message>, from: nat, str: string) {
    var found := FindId(inv, from, str);
    FirstIdOf(msgs, from, str) == if found.None? then None else Some(inv[found.value].msg)
  }

  lemma {:induction false} AnswerStep(init: seq<Message>, m: Message, before: seq<Message>, from: nat, str: string)
    requires from <= |before| && from <= |init| && DistinctIds(before, from) && SameAnswer(init, before, from, str)
    ensures SameAnswer(init + [m], Merged(before, from, m), from, str)
  {
    assert (init + [m])[..|init|] == init;
    var after, found := Merged(before, from, m), FindId(before, from, str);
    assert forall i :: from <= i < |before| ==> after[i].id == before[i].id && after[i].msg == before[i].msg;
    if found.Some? {
      assert after[found.value].id == str;
    }
  }

  /** Looking a string up in the inverted catalogue gives the first id that had it as its translation. */
  lemma {:induction false} InversionLooksUpBackwards(msgs: seq<Message>, str: string)
    requires AllClean(msgs)
    ensures SameAnswer(msgs, Inverted(msgs), Kept(msgs), str)
  {
    if |msgs| == 1 {
      InvertedOne(msgs);
      assert FirstIdOf(msgs[..0], Kept(msgs), str).None?;
    } else if msgs != [] {
      var init, m := msgs[..|msgs| - 1], msgs[|msgs| - 1];
      InversionLooksUpBackwards(init, str);
      InvertedShape(init);
      InvertedStep(msgs);
      AnswerStep(init, m, Inverted(init), Kept(msgs), str);
      SplitLast(msgs);
    }
  }

  // ----- through the file -----

  lemma {:induction false} PrintableIsClean(msgs: seq<Message>)
    requires AllPrintable(msgs)
    ensures AllClean(msgs)
  {
    forall i | 0 <= i < |msgs|
      ensures Clean(msgs[i])
    {
      FirstChunk(msgs[i].id);
      FirstChunk(msgs[i].msg);
    }
  }

  predicate AllNormal(msgs: seq<Message>) { forall i :: 0 <= i < |msgs| ==> Normal(msgs[i]) }

  lemma {:induction false} MergedIsPrintable(before: seq<Message>, from: nat, m: Message)
    requires AllPrintable(before) && Printable(m)
    ensures AllPrintable(Merged(before, from, m))
    ensures AllNormal(before) && Normal(m) ==> AllNormal(Merged(before, from, m))
  {
  }

  lemma {:induction false} InvertedIsPrintable(msgs: seq<Message>)
    requires AllPrintable(msgs)
    ensures AllPrintable(Inverted(msgs)) && (AllNormal(msgs) ==> AllNormal(Inverted(msgs)))
  {
    PrintableIsClean(msgs);
    if |msgs| == 1 {
      InvertedOne(msgs);
    } else if msgs != [] {
      var init, m := msgs[..|msgs| - 1], msgs[|msgs| - 1];
      InvertedIsPrintable(init);
      InvertedStep(msgs);
      MergedIsPrintable(Inverted(init), Kept(msgs), m);
    }
  }

  /** The same through the files: printing the inverted catalogue, reading it, and inverting what was read. */
  lemma {:induction false} InvertTwiceThroughFiles(msgs: seq<Message>)
    requires AllPrintable(msgs) && AllNormal(msgs)
    ensures Read(FileText(Inverted(Read(FileText(Inverted(msgs)))))) == msgs <==>
            && DistinctStrings(msgs, Kept(msgs)) && DistinctIds(msgs, Kept(msgs))
            && (msgs != [] && !KeepsHead(msgs) ==> msgs[0].msg != EMPTY)
  {
    var once := Inverted(msgs);
    InvertedIsPrintable(msgs);
    CatalogueReadsBackExactly(once);
    InvertedIsPrintable(once);
    CatalogueReadsBackExactly(Inverted(once));
    PrintableIsClean(msgs);
    InvertTwiceExactly(msgs);
  }

  // ----- appending -----

  lemma {:induction false} TranslationOfMore(msgs: seq<Message>, m: Message, id: string)
    ensures Translation(msgs + [m], id) ==
            if Translation(msgs, id).Some? then Translation(msgs, id) else if m.id == id then Some(m.msg) else None
  {
    assert (msgs + [m])[..|msgs|] == msgs;
  }

  /** Appending never changes an existing entry, and looks an id up here first and then in the other catalogue. */
  lemma {:induction false} AppendedLooksUpBoth(msgs: seq<Message>, more: seq<Message>, id: string)
    ensures msgs <= Appended(msgs, more)
    ensures Translation(Appended(msgs, more), id) ==
            if Translation(msgs, id).Some? then Translation(msgs, id) else Translation(more, id)
  {
    if more != [] {
      var init, m := more[..|more| - 1], more[|more| - 1];
      AppendedLooksUpBoth(msgs, init, id);
      TranslationOfMore(Appended(msgs, init), m, id);
    }
  }

  /** No entry is missing a string. */
  predicate AllTranslated(msgs: seq<Message>) { forall i :: 0 <= i < |msgs| ==> msgs[i].msg != "" }

  lemma {:induction false} TranslationFound(msgs: seq<Message>, id: string)
    ensures Translation(msgs, id).Some? <==> exists i :: 0 <= i < |msgs| && msgs[i].id == id
    ensures Translation(msgs, id).Some? ==> exists i :: 0 <= i < |msgs| && msgs[i].msg == Translation(msgs, id).value
  {
    if msgs != [] {
      var init := msgs[..|msgs| - 1];
      TranslationFound(init, id);
      assert forall i :: 0 <= i < |init| ==> init[i] == msgs[i];
      if Translation(init, id).Some? {
        var i :| 0 <= i < |init| && init[i].id == id;
        assert msgs[i].id == id;
        var j :| 0 <= j < |init| && init[j].msg == Translation(init, id).value;
        assert msgs[j].msg == Translation(init, id).value;
      }
    }
  }

  /** With a string for every entry, appending keeps the ids distinct, whatever is repeated in the other catalogue. */
  lemma {:induction false} AppendingKeepsIdsDistinct(msgs: seq<Message>, more: seq<Message>)
    requires AllTranslated(msgs) && AllTranslated(more) && DistinctIds(msgs, 0)
    ensures AllTranslated(Appended(msgs, more)) && DistinctIds(Appended(msgs, more), 0)
  {
    if more != [] {
      var init, m := more[..|more| - 1], more[|more| - 1];
      AppendingKeepsIdsDistinct(msgs, init);
      TranslationFound(Appended(msgs, init), m.id);
    }
  }

  lemma {:induction false} AppendedGrows(msgs: seq<Message>, more: seq<Message>, i: nat)
    requires i < |more| && Translation(msgs, more[i].id) == Some("")
    ensures |Appended(msgs, more)| > |msgs|
    decreases |more|
  {
    var init, m := more[..|more| - 1], more[|more| - 1];
    AppendedLooksUpBoth(msgs, init, more[i].id);
    if i < |init| {
      assert init[i] == more[i];
      AppendedGrows(msgs, init, i);
    }
  }

  lemma {:induction false} NothingToAppend(msgs: seq<Message>, more: seq<Message>)
    requires forall i :: 0 <= i < |more| ==> Translation(msgs, more[i].id).Some? && Translation(msgs, more[i].id) != Some("")
    ensures Appended(msgs, more) == msgs
  {
    if more != [] {
      assert forall i :: 0 <= i < |more| - 1 ==> more[..|more| - 1][i] == more[i];
      NothingToAppend(msgs, more[..|more| - 1]);
    }
  }

  /** Appending a catalogue again adds nothing exactly when every one of its ids has a nonempty string by then. */
  lemma {:induction false} AppendTwiceExactly(msgs: seq<Message>, more: seq<Message>)
    ensures Appended(Appended(msgs, more), more) == Appended(msgs, more) <==>
            forall i :: 0 <= i < |more| ==>
              (if Translation(msgs, more[i].id).Some? then Translation(msgs, more[i].id)
               else Translation(more, more[i].id)) != Some("")
  {
    var once := Appended(msgs, more);
    forall i | 0 <= i < |more|
      ensures Translation(once, more[i].id).Some?
      ensures Translation(once, more[i].id) ==
              if Translation(msgs, more[i].id).Some? then Translation(msgs, more[i].id)
              else Translation(more, more[i].id)
    {
      AppendedLooksUpBoth(msgs, more, more[i].id);
      TranslationFound(more, more[i].id);
    }
    if forall i :: 0 <= i < |more| ==> Translation(once, more[i].id) != Some("") {
      NothingToAppend(once, more);
    } else {
      var i :| 0 <= i < |more| && Translation(once, more[i].id) == Some("");
      AppendedGrows(once, more, i);
    }
  }

  lemma {:induction false} EmptyChunkThen(chunk: Line)
    requires OneLine(chunk) && IsChunk(chunk)
    ensures WellQuoted(EMPTY + "\n" + chunk) && !NormalText(EMPTY + "\n" + chunk)
  {
    var text := EMPTY + "\n" + chunk;
    LinesOfLine(EMPTY, chunk);
    LinesOfLine(chunk, "");
    assert text[..2] == EMPTY;
  }

  /** An empty chunk before another one, the usual way to begin a long text, is lost when the file is read. */
  lemma {:induction false} EmptyFirstChunkIsLost(chunk: Line)
    requires OneLine(chunk) && IsChunk(chunk)
    ensures var text := EMPTY + "\n" + chunk;
            var m := Message(text, text, []);
            AllPrintable([m]) && Read(FileText([m])) != [m]
  {
    var text := EMPTY + "\n" + chunk;
    var m := Message(text, text, []);
    EmptyChunkThen(chunk);
    CatalogueReadsBackExactly([m]);
    assert !Normal([m][0]);
  }

  lemma {:induction false} BareLine(line: Line, r: Reader)
    requires line == "msgstr" && r.inId && !r.inStr
    ensures Step(r, line) == r.(inId := false, msgstr := "", msgid := "", refs := [],
                                messages := r.messages + [Make(Settled(r.msgid), "", r.refs)])
  {
    assert Names.Strip("") == "";
    assert line[..5] == "msgst" && line[0] == 'm';
    assert '"' !in line;
  }

  lemma {:induction false} BareWord(word: Line)
    requires IsChunk(word) && OneLine(word) && NormalText(word)
    ensures Make(Settled(word + "\n"), "", []) == Message(word, "", [])
  {
    LinesOfLine(word, "");
    TakenExactly(word);
    assert Names.Strip("") == "";
  }

  lemma {:induction false} BareLines(word: Line)
    requires IsChunk(word) && OneLine(word)
    ensures Trimmed(Lines("msgid " + word + "\n" + "msgstr")) == ["msgid " + word, "msgstr"]
  {
    var first, last: Line := "msgid " + word, "msgstr";
    BareTrimmed(word);
    LinesOfLine(first, last);
    LinesOfLine(last, "");
  }

  lemma {:induction false} BareTrimmed(word: Line)
    requires IsChunk(word) && OneLine(word)
    ensures OneLine("msgid " + word) && Names.Strip("msgid " + word) == "msgid " + word
    ensures OneLine("msgstr") && Names.Strip("msgstr") == "msgstr"
  {
    var first := "msgid " + word;
    assert first[0] == 'm' && first[|first| - 1] == '"' && '\n' !in "msgid ";
    Names.StripFixed(first);
    Names.StripFixed("msgstr");
  }

  /** A `msgstr` without quotes is read as the empty string. */
  lemma {:induction false} BareStringIsEmpty(word: Line)
    requires IsChunk(word) && OneLine(word) && NormalText(word)
    ensures Read("msgid " + word + "\n" + "msgstr") == [Message(word, "", [])]
  {
    var first, last: Line := "msgid " + word, "msgstr";
    BareLines(word);
    IdStep(Start(), word);
    BareLine(last, Step(Start(), first));
    BareWord(word);
    assert [first, last][..1] == [first];
    OneStep(Start(), first);
  }

  /** An entry with an empty string is appended again by every append. */
  lemma {:induction false} UntranslatedGrows(msgs: seq<Message>, m: Message)
    requires m.msg == "" && Translation(msgs, m.id).None?
    ensures Appended(Appended(msgs, [m]), [m]) != Appended(msgs, [m])
  {
    AppendTwiceExactly(msgs, [m]);
    assert [m][0] == m;
  }
}
