/** Certificate objects, their labels, and how a label is kept unique. */
module CertObjects {
  import opened Wrappers
  import opened Decimal

  type Byte = n: nat | n < 256

  /** A field holds text or bytes; `NoValue` is a text field written without a value. */
  datatype Value = Text(s: string) | Bytes(b: seq<Byte>) | NoValue

  /** An object with its comment lines; the comment is gone once the object has been deleted. */
  datatype Object = Object(comment: Option<seq<string>>, fields: map<string, Value>)

  /** The fields that every object in the list needs. */
  predicate Labelled(o: Object) {
    && "CKA_CLASS" in o.fields
    && "CKA_LABEL" in o.fields && o.fields["CKA_LABEL"].Text?
  }

  function Class(o: Object): Value
    requires Labelled(o)
  {
    o.fields["CKA_CLASS"]
  }

  function Label(o: Object): string
    requires Labelled(o)
  {
    o.fields["CKA_LABEL"].s
  }

  predicate AllLabelled(objs: seq<Object>) { forall i :: 0 <= i < |objs| ==> Labelled(objs[i]) }

  predicate Taken(objs: seq<Object>, kind: Value, name: string)
    requires AllLabelled(objs)
  {
    exists i :: 0 <= i < |objs| && Class(objs[i]) == kind && Label(objs[i]) == name
  }

  predicate UniqueLabels(objs: seq<Object>)
    requires AllLabelled(objs)
  {
    forall i, j :: 0 <= i < j < |objs| ==> Class(objs[i]) != Class(objs[j]) || Label(objs[i]) != Label(objs[j])
  }

  /** Without one quote at either end; fails, like indexing an empty string, when nothing is left. */
  function StripQuotes(name: string): Option<string> {
    var l := if name != "" && name[0] == '"' then name[1..] else name;
    if l == "" then None
    else if l[|l| - 1] == '"' then Some(l[..|l| - 1])
    else Some(l)
  }

  /** The labels tried one after the other: first without a number, then numbered. */
  function Candidate(base: string, n: nat): string {
    if n == 0 then "\"" + base + "\"" else "\"" + base + " " + NatToString(n) + "\""
  }

  lemma {:induction false} CandidatesDiffer(base: string, m: nat, n: nat)
    requires m != n
    ensures Candidate(base, m) != Candidate(base, n)
  {
    ValueOfNumeral(m);
    ValueOfNumeral(n);
    var a, b := Candidate(base, m), Candidate(base, n);
    if m == 0 {
      assert |b| > |a|;
    } else if n == 0 {
      assert |a| > |b|;
    } else {
      var k := |base| + 2;
      assert a[k..|a| - 1] == NatToString(m);
      assert b[k..|b| - 1] == NatToString(n);
    }
  }

  // ----- a free name always exists -----

  ghost function LabelsOf(objs: seq<Object>): (labels: set<string>)
    requires AllLabelled(objs)
  {
    set i | 0 <= i < |objs| :: Label(objs[i])
  }

  lemma {:induction false} FewLabels(objs: seq<Object>)
    requires AllLabelled(objs)
    ensures |LabelsOf(objs)| <= |objs|
  {
    if objs == [] {
      assert LabelsOf(objs) == {};
    } else {
      var init := objs[..|objs| - 1];
      FewLabels(init);
      assert LabelsOf(objs) == LabelsOf(init) + {Label(objs[|objs| - 1])};
    }
  }

  ghost function Candidates(base: string, first: nat, count: nat): set<string> {
    if count == 0 then {} else Candidates(base, first, count - 1) + {Candidate(base, first + count - 1)}
  }

  lemma {:induction false} ManyCandidates(base: string, first: nat, count: nat)
    ensures |Candidates(base, first, count)| == count
    ensures forall n: nat :: n >= first + count ==> Candidate(base, n) !in Candidates(base, first, count)
    ensures forall c :: c in Candidates(base, first, count) ==>
              exists n: nat :: first <= n < first + count && c == Candidate(base, n)
  {
    if count > 0 {
      ManyCandidates(base, first, count - 1);
      forall n: nat | n >= first + count
        ensures Candidate(base, n) !in Candidates(base, first, count)
      {
        CandidatesDiffer(base, n, first + count - 1);
      }
    }
  }

  lemma {:induction false} SubsetSize<T>(a: set<T>, b: set<T>)
    requires a <= b
    ensures |a| <= |b|
  {
    if a != {} {
      var x :| x in a;
      SubsetSize(a - {x}, b - {x});
    }
  }

  /** Pigeonhole: one of `|objs| + 1` pairwise distinct candidates is the label of no object. */
  lemma {:induction false} FreeCandidate(objs: seq<Object>, base: string, first: nat) returns (n: nat)
    requires AllLabelled(objs)
    ensures first <= n <= first + |objs| && forall kind :: !Taken(objs, kind, Candidate(base, n))
  {
    var tried, used := Candidates(base, first, |objs| + 1), LabelsOf(objs);
    ManyCandidates(base, first, |objs| + 1);
    FewLabels(objs);
    if tried <= used {
      SubsetSize(tried, used);
      assert false;
    }
    var c :| c in tried && c !in used;
    n :| first <= n < first + (|objs| + 1) && c == Candidate(base, n);
    assert forall i :: 0 <= i < |objs| ==> Label(objs[i]) in used;
  }

  // ----- adding an object -----

  /** Dropped, added under a label, or the error of a label that is only a quote. */
  datatype Added = Dropped | Added(objects: seq<Object>, name: string) | BadLabel

  function Relabelled(o: Object, name: string): Object {
    o.(fields := o.fields["CKA_LABEL" := Text(name)])
  }

  /** The count of the first candidate that is free. */
  ghost predicate FirstFree(objs: seq<Object>, kind: Value, base: string, first: nat, n: nat)
    requires AllLabelled(objs)
  {
    && first <= n && !Taken(objs, kind, Candidate(base, n))
    && forall m: nat :: first <= m < n ==> Taken(objs, kind, Candidate(base, m))
  }

  lemma {:induction false} LeastFree(
    objs: seq<Object>, kind: Value, base: string, first: nat, k: nat, bound: nat) returns (n: nat)
    requires AllLabelled(objs) && first <= k <= bound && !Taken(objs, kind, Candidate(base, bound))
    requires forall m: nat :: first <= m < k ==> Taken(objs, kind, Candidate(base, m))
    ensures FirstFree(objs, kind, base, first, n)
    decreases bound - k
  {
    if Taken(objs, kind, Candidate(base, k)) {
      n := LeastFree(objs, kind, base, first, k + 1, bound);
    } else {
      n := k;
    }
  }

  lemma {:induction false} NextFree(objs: seq<Object>, kind: Value, base: string, first: nat) returns (n: nat)
    requires AllLabelled(objs)
    ensures FirstFree(objs, kind, base, first, n)
  {
    var bound := FreeCandidate(objs, base, first);
    n := LeastFree(objs, kind, base, first, first, bound);
  }

  lemma {:induction false} FirstFreeExists(objs: seq<Object>, kind: Value, base: string, first: nat)
    requires AllLabelled(objs)
    ensures exists n: nat :: FirstFree(objs, kind, base, first, n)
  {
    var n := NextFree(objs, kind, base, first);
  }

  lemma {:induction false} FirstFreeUnique(objs: seq<Object>, kind: Value, base: string, first: nat, m: nat, n: nat)
    requires AllLabelled(objs)
    requires FirstFree(objs, kind, base, first, m) && FirstFree(objs, kind, base, first, n)
    ensures m == n
  {
  }

  ghost function FreeCount(objs: seq<Object>, kind: Value, base: string, first: nat): nat
    requires AllLabelled(objs)
  {
    FirstFreeExists(objs, kind, base, first);
    var n: nat :| FirstFree(objs, kind, base, first, n);
    n
  }

  /** It is the count of the first candidate that is free, and no other is. */
  lemma {:induction false} FreeCountIsFirst(objs: seq<Object>, kind: Value, base: string, first: nat, n: nat)
    requires AllLabelled(objs)
    ensures FirstFree(objs, kind, base, first, n) <==> n == FreeCount(objs, kind, base, first)
  {
    FirstFreeExists(objs, kind, base, first);
    if FirstFree(objs, kind, base, first, n) {
      FirstFreeUnique(objs, kind, base, first, n, FreeCount(objs, kind, base, first));
    }
  }

  /** What adding does: nothing if the label is taken and dropping is wanted, else the first free label. */
  ghost function AddedTo(objs: seq<Object>, o: Object, special: Option<string>, drop: bool): Added
    requires AllLabelled(objs) && Labelled(o)
  {
    var stripped := StripQuotes(Label(o));
    if stripped.None? then BadLabel
    else if !Taken(objs, Class(o), Label(o)) then Added(objs + [o], stripped.value)
    else if drop then Dropped
    else
      var base := if special.Some? then stripped.value + " " + special.value else stripped.value;
      var first := if special.Some? then 0 else 1;
      var n := FreeCount(objs, Class(o), base, first);
      CandidateStrips(base, n);
      Added(objs + [Relabelled(o, Candidate(base, n))], StripQuotes(Candidate(base, n)).value)
  }

  lemma {:induction false} SpecialComesFirst(objs: seq<Object>, kind: Value, base: string)
    requires AllLabelled(objs) && !Taken(objs, kind, "\"" + base + "\"")
    ensures FreeCount(objs, kind, base, 0) == 0 && Candidate(base, 0) == "\"" + base + "\""
    ensures StripQuotes(Candidate(base, 0)) == Some(base)
  {
    FreeCountIsFirst(objs, kind, base, 0, 0);
    CandidateStrips(base, 0);
    assert Candidate(base, 0)[1..|Candidate(base, 0)| - 1] == base;
  }

  lemma {:induction false} OneComesFirst(objs: seq<Object>, kind: Value, base: string)
    requires AllLabelled(objs) && !Taken(objs, kind, "\"" + base + " " + "1" + "\"")
    ensures FreeCount(objs, kind, base, 1) == 1 && Candidate(base, 1) == "\"" + base + " " + "1" + "\""
    ensures StripQuotes(Candidate(base, 1)) == Some(base + " " + "1")
  {
    assert NatToString(1) == "1";
    FreeCountIsFirst(objs, kind, base, 1, 1);
    CandidateStrips(base, 1);
    assert Candidate(base, 1)[1..|Candidate(base, 1)| - 1] == base + " " + "1";
  }

  /**
   * A taken label gets the special one behind it and a blank if that is free, or else the first free number; a
   * free label is kept, and a taken one is not added where that is asked for.
   */
  lemma {:induction false} AddedLabels(objs: seq<Object>, o: Object, special: Option<string>, drop: bool)
    requires AllLabelled(objs) && Labelled(o) && StripQuotes(Label(o)).Some?
    ensures var r, plain, taken := AddedTo(objs, o, special, drop), StripQuotes(Label(o)).value, Taken(objs, Class(o), Label(o));
            && (!taken ==> r == Added(objs + [o], plain))
            && (taken && drop ==> r == Dropped)
            && (taken && !drop && special.Some? && !Taken(objs, Class(o), "\"" + (plain + " " + special.value) + "\"") ==>
                  r == Added(objs + [Relabelled(o, "\"" + (plain + " " + special.value) + "\"")], plain + " " + special.value))
            && (taken && !drop && special.None? && !Taken(objs, Class(o), "\"" + plain + " " + "1" + "\"") ==>
                  r == Added(objs + [Relabelled(o, "\"" + plain + " " + "1" + "\"")], plain + " " + "1"))
  {
    var plain := StripQuotes(Label(o)).value;
    if special.Some? {
      var base := plain + " " + special.value;
      if !Taken(objs, Class(o), "\"" + base + "\"") {
        SpecialComesFirst(objs, Class(o), base);
      }
    } else if !Taken(objs, Class(o), "\"" + plain + " " + "1" + "\"") {
      OneComesFirst(objs, Class(o), plain);
    }
  }

  /** A new label never clashes, whether it was free from the start or found by renaming. */
  lemma {:induction false} AddingKeepsLabelsUnique(objs: seq<Object>, o: Object, special: Option<string>, drop: bool)
    requires AllLabelled(objs) && Labelled(o)
    ensures var r := AddedTo(objs, o, special, drop);
            r.Added? ==>
              && |r.objects| == |objs| + 1 && r.objects[..|objs|] == objs
              && AllLabelled(r.objects)
              && (UniqueLabels(objs) ==> UniqueLabels(r.objects))
  {
    var r := AddedTo(objs, o, special, drop);
    if r.Added? {
      var added := r.objects[|objs|];
      assert r.objects == objs + [added];
      assert Labelled(added) && !Taken(objs, Class(added), Label(added));
    }
  }

  method LabelExists(objs: seq<Object>, o: Object) returns (found: bool)
    requires AllLabelled(objs) && Labelled(o)
    ensures found == Taken(objs, Class(o), Label(o))
  {
    for i := 0 to |objs|
      invariant forall j :: 0 <= j < i ==> Class(objs[j]) != Class(o) || Label(objs[j]) != Label(o)
    {
      if Class(o) == Class(objs[i]) && Label(o) == Label(objs[i]) {
        return true;
      }
    }
    found := false;
  }

  lemma {:induction false} CandidateStrips(base: string, n: nat)
    ensures StripQuotes(Candidate(base, n)) == Some(Candidate(base, n)[1..|Candidate(base, n)| - 1])
  {
    var c := Candidate(base, n);
    var l := c[1..];
    assert l != "" && l[|l| - 1] == '"';
    assert l[..|l| - 1] == c[1..|c| - 1];
  }

  lemma {:induction false} RelabelledTwice(o: Object, first: string, second: string)
    ensures Relabelled(Relabelled(o, first), second) == Relabelled(o, second)
  {
    assert o.fields["CKA_LABEL" := Text(first)]["CKA_LABEL" := Text(second)] == o.fields["CKA_LABEL" := Text(second)];
  }

  lemma {:induction false} FreeAt(objs: seq<Object>, kind: Value, base: string, first: nat, count: nat)
    requires AllLabelled(objs)
    ensures var n := FreeCount(objs, kind, base, first);
            first <= n && (first <= count <= n ==> (Taken(objs, kind, Candidate(base, count)) <==> count < n))
  {
    FreeCountIsFirst(objs, kind, base, first, FreeCount(objs, kind, base, first));
  }

  ghost predicate IsRelabelled(o: Object, last: Object) { last == o || exists name :: last == Relabelled(o, name) }

  /** One turn of the renaming loop: the object under its next label, and whether that one is taken as well. */
  method TryLabel(objs: seq<Object>, ghost o: Object, last: Object, base: string, count: nat)
    returns (newObj: Object, taken: bool)
    requires AllLabelled(objs) && Labelled(o) && IsRelabelled(o, last)
    ensures newObj == Relabelled(o, Candidate(base, count)) && IsRelabelled(o, newObj)
    ensures taken == Taken(objs, Class(o), Candidate(base, count))
  {
    var tried := if count != 0 then "\"" + base + " " + NatToString(count) + "\"" else "\"" + base + "\"";
    if last != o {
      var name :| last == Relabelled(o, name);
      RelabelledTwice(o, name, tried);
    }
    newObj := Relabelled(last, tried);
    taken := LabelExists(objs, newObj);
  }

  /** The renaming loop: it ends because the candidates never repeat and one of them must be free. */
  method RenameUntilFree(objs: seq<Object>, o: Object, base: string, first: nat) returns (newObj: Object)
    requires AllLabelled(objs) && Labelled(o) && Taken(objs, Class(o), Label(o))
    ensures newObj == Relabelled(o, Candidate(base, FreeCount(objs, Class(o), base, first)))
  {
    ghost var n := FreeCount(objs, Class(o), base, first);
    FreeAt(objs, Class(o), base, first, first);
    var count := first;
    newObj := o;
    var taken := true;
    while taken
      invariant first <= count <= n + 1 && (taken ==> count <= n)
      invariant IsRelabelled(o, newObj) && (!taken ==> newObj == Relabelled(o, Candidate(base, n)))
      decreases n + 1 - count
    {
      FreeAt(objs, Class(o), base, first, count);
      newObj, taken := TryLabel(objs, o, newObj, base, count);
      assert !taken ==> count == n;
      count := count + 1;
    }
  }

  /** `addObj`: the list with the object appended under a label that no object of its class has. */
  method AddObj(objs: seq<Object>, o: Object, special: Option<string>, drop: bool) returns (result: Added)
    requires AllLabelled(objs) && Labelled(o)
    ensures result == AddedTo(objs, o, special, drop)
  {
    var stripped := StripQuotes(Label(o));
    if stripped.None? {
      return BadLabel;
    }
    var base := stripped.value;
    var count := 1;
    if special.Some? {
      count := 0;
      base := base + " " + special.value;
    }
    var taken := LabelExists(objs, o);
    if !taken {
      return Added(objs + [o], stripped.value);
    }
    if drop {
      return Dropped;
    }
    var newObj := RenameUntilFree(objs, o, base, count);
    CandidateStrips(base, FreeCount(objs, Class(o), base, count));
    result := Added(objs + [newObj], StripQuotes(Label(newObj)).value);
  }
}

/** The certdata text: dumping objects and reading them back. */
module Certdata {
  import opened Wrappers
  import opened CertObjects
  import opened Text
  import Names

  type Line = string

  datatype Kind = Plain(typeName: string) | Octal | Distrust

  datatype Attribute = Attribute(name: string, kind: Kind)

  /** A word of a line: nothing in it can be taken for a separator, a comment or a quote mark. */
  predicate IsWord(w: string) {
    w != "" && w[0] != '#' && forall i :: 0 <= i < |w| ==> !Names.IsSpace(w[i])
  }

  /** Only the first attribute starts an object; the others already differ from it in two letters. */
  predicate StartsObject(name: string) { name == "CKA_CLASS" }

  predicate GoodTable(table: seq<Attribute>) {
    && table != [] && StartsObject(table[0].name) && table[0].kind.Plain?
    && (forall i :: 0 <= i < |table| ==> IsWord(table[i].name) && |table[i].name| > 5)
    && (forall i :: 0 <= i < |table| && table[i].kind.Plain? ==>
          IsWord(table[i].kind.typeName) && table[i].kind.typeName != "MULTILINE_OCTAL")
    && (forall i :: 1 <= i < |table| ==> table[i].name[4] != 'C' || table[i].name[5] != 'L')
    && (forall i, j :: 0 <= i < j < |table| ==> table[i].name != table[j].name)
  }

  // ----- octal text -----

  function OctalDigit(d: nat): char
    requires d < 8
  {
    (d + '0' as int) as char
  }

  function IsOctal(c: char): bool { '0' <= c <= '7' }

  function OctalValue(c: char): (d: nat)
    requires IsOctal(c)
    ensures d < 8
  {
    c as int - '0' as int
  }

  /** A backslash and three octal digits. */
  function OctalByte(b: Byte): (s: string)
    ensures |s| == 4
  {
    ['\\', OctalDigit(b / 64), OctalDigit(b / 8 % 8), OctalDigit(b % 8)]
  }

  function OctalText(bytes: seq<Byte>): string {
    if bytes == [] then "" else OctalByte(bytes[0]) + OctalText(bytes[1..])
  }

  predicate IsEscape(s: string) {
    |s| >= 4 && s[0] == '\\' && '0' <= s[1] <= '3' && IsOctal(s[2]) && IsOctal(s[3])
  }

  /** Every escape found from left to right; anything else is skipped. */
  function ParseOctal(s: string): seq<Byte>
    decreases |s|
  {
    if s == "" then []
    else if IsEscape(s) then
      [OctalValue(s[1]) * 64 + OctalValue(s[2]) * 8 + OctalValue(s[3])] + ParseOctal(s[4..])
    else ParseOctal(s[1..])
  }

  lemma {:induction false} OctalByteReads(b: Byte, rest: string)
    ensures ParseOctal(OctalByte(b) + rest) == [b] + ParseOctal(rest)
  {
    var s := OctalByte(b) + rest;
    assert s[4..] == rest;
    assert s[0] == '\\' && s[1] == OctalDigit(b / 64) && s[2] == OctalDigit(b / 8 % 8) && s[3] == OctalDigit(b % 8);
    assert IsEscape(s);
    assert OctalValue(s[1]) * 64 + OctalValue(s[2]) * 8 + OctalValue(s[3]) == b;
  }

  lemma {:induction false} OctalReadsBack(bytes: seq<Byte>)
    ensures ParseOctal(OctalText(bytes)) == bytes
  {
    if bytes != [] {
      OctalByteReads(bytes[0], OctalText(bytes[1..]));
      OctalReadsBack(bytes[1..]);
    }
  }

  /** Sixteen bytes a line. */
  function OctalLines(bytes: seq<Byte>): seq<Line> {
    if bytes == [] then []
    else if |bytes| <= 16 then [OctalText(bytes)]
    else [OctalText(bytes[..16])] + OctalLines(bytes[16..])
  }

  lemma {:induction false} OctalTextAppend(bytes: seq<Byte>, b: Byte)
    ensures OctalText(bytes + [b]) == OctalText(bytes) + OctalByte(b)
  {
    if bytes == [] {
      assert [b][1..] == [];
    } else {
      assert (bytes + [b])[1..] == bytes[1..] + [b];
      OctalTextAppend(bytes[1..], b);
    }
  }

  lemma {:induction false} OctalOfOne(b: Byte)
    ensures OctalText([b]) == OctalByte(b) && OctalLines([] + [b]) == [OctalByte(b)]
  {
    assert [b][1..] == [] && [] + [b] == [b];
    assert OctalByte(b) + "" == OctalByte(b);
  }

  ghost function OneMore(lines: seq<Line>, count: nat, b: Byte): seq<Line>
    requires count % 16 != 0 ==> lines != []
  {
    if count % 16 == 0 then lines + [OctalByte(b)] else lines[..|lines| - 1] + [lines[|lines| - 1] + OctalByte(b)]
  }

  lemma {:induction false} OneMoreAfterHead(head: Line, lines: seq<Line>, count: nat, b: Byte)
    requires lines != []
    ensures OneMore([head] + lines, count, b) == [head] + OneMore(lines, count, b)
  {
    var all := [head] + lines;
    assert all[..|all| - 1] == [head] + lines[..|lines| - 1];
  }

  lemma {:induction false} SameRemainder(n: nat)
    requires n >= 16
    ensures n % 16 == (n - 16) % 16
  {
  }

  lemma {:induction false} FirstLine(bytes: seq<Byte>, b: Byte)
    requires |bytes| >= 16
    ensures OctalLines(bytes + [b]) == [OctalText(bytes[..16])] + OctalLines(bytes[16..] + [b])
  {
    assert (bytes + [b])[..16] == bytes[..16] && (bytes + [b])[16..] == bytes[16..] + [b];
  }

  /** One more byte either opens a line or goes to the end of the last one. */
  lemma {:induction false} OctalLinesAppend(bytes: seq<Byte>, b: Byte)
    ensures bytes != [] ==> OctalLines(bytes) != []
    ensures OctalLines(bytes + [b]) == OneMore(OctalLines(bytes), |bytes|, b)
  {
    if bytes == [] {
      OctalOfOne(b);
    } else if |bytes| < 16 {
      OctalTextAppend(bytes, b);
    } else {
      var head, rest := OctalText(bytes[..16]), bytes[16..];
      FirstLine(bytes, b);
      if rest == [] {
        OctalOfOne(b);
        assert bytes[..16] == bytes;
      } else {
        OctalLinesAppend(rest, b);
        OneMoreAfterHead(head, OctalLines(rest), |rest|, b);
        SameRemainder(|bytes|);
      }
    }
  }

  /** `dumpOctal`: a line break before every sixteenth byte, and a closing line. */
  method DumpOctal(value: seq<Byte>) returns (lines: seq<Line>)
    ensures lines == OctalLines(value) + ["END"]
  {
    lines := [];
    for i := 0 to |value|
      invariant lines == OctalLines(value[..i])
    {
      OctalLinesAppend(value[..i], value[i]);
      assert value[..i + 1] == value[..i] + [value[i]];
      if i % 16 == 0 {
        lines := lines + [OctalByte(value[i])];
      } else {
        lines := lines[..|lines| - 1] + [lines[|lines| - 1] + OctalByte(value[i])];
      }
    }
    assert value[..|value|] == value;
    lines := lines + ["END"];
  }

  // ----- dumping -----

  /** The type written for a value: a distrust field is a boolean only when it is exactly `CK_FALSE`. */
  function TypeName(kind: Kind, value: Value): string {
    match kind
    case Plain(name) => name
    case Octal => "MULTILINE_OCTAL"
    case Distrust => if value == Text("CK_FALSE") then "CK_BBOOL" else "MULTILINE_OCTAL"
  }

  function TextOf(value: Value): string {
    if value.Text? then value.s else "None"
  }

  /** The value fits the type under which it is written. */
  predicate Fits(kind: Kind, value: Value) {
    if TypeName(kind, value) == "MULTILINE_OCTAL" then value.Bytes? else !value.Bytes?
  }

  function FieldLines(a: Attribute, value: Value): seq<Line>
    requires Fits(a.kind, value)
  {
    var t := TypeName(a.kind, value);
    if t == "MULTILINE_OCTAL" then [a.name + " " + t] + OctalLines(value.b) + ["END"]
    else [a.name + " " + t + " " + TextOf(value)]
  }

  predicate AllFit(table: seq<Attribute>, fields: map<string, Value>) {
    forall i :: 0 <= i < |table| && table[i].name in fields ==> Fits(table[i].kind, fields[table[i].name])
  }

  function FieldsText(table: seq<Attribute>, fields: map<string, Value>): seq<Line>
    requires AllFit(table, fields)
  {
    if table == [] then []
    else
      var last := table[|table| - 1];
      FieldsText(table[..|table| - 1], fields)
      + if last.name in fields then FieldLines(last, fields[last.name]) else []
  }

  function ObjectLines(table: seq<Attribute>, o: Object): seq<Line>
    requires AllFit(table, o.fields)
  {
    if o.comment.None? then [] else o.comment.value + FieldsText(table, o.fields) + [""]
  }

  predicate Writable(table: seq<Attribute>, objs: seq<Object>) {
    forall i :: 0 <= i < |objs| ==> AllFit(table, objs[i].fields)
  }

  function Dumped(table: seq<Attribute>, objs: seq<Object>): seq<Line>
    requires Writable(table, objs)
  {
    if objs == [] then []
    else Dumped(table, objs[..|objs| - 1]) + ObjectLines(table, objs[|objs| - 1])
  }

  /** The inner dump loop, over the attribute table. */
  method DumpFields(table: seq<Attribute>, fields: map<string, Value>) returns (lines: seq<Line>)
    requires AllFit(table, fields)
    ensures lines == FieldsText(table, fields)
  {
    lines := [];
    for k := 0 to |table|
      invariant lines == FieldsText(table[..k], fields)
    {
      assert table[..k + 1][..k] == table[..k];
      var a := table[k];
      if a.name in fields {
        var value := fields[a.name];
        var t := TypeName(a.kind, value);
        if t == "MULTILINE_OCTAL" {
          var octal := DumpOctal(value.b);
          assert [a.name + " " + t] + octal == FieldLines(a, value);
          lines := lines + ([a.name + " " + t] + octal);
        } else {
          lines := lines + [a.name + " " + t + " " + TextOf(value)];
        }
      }
    }
    assert table[..|table|] == table;
  }

  lemma {:induction false} DumpedMore(table: seq<Attribute>, header: seq<Line>, objs: seq<Object>, i: nat)
    requires Writable(table, objs) && i < |objs|
    ensures header + Dumped(table, objs[..i + 1]) == header + Dumped(table, objs[..i]) + ObjectLines(table, objs[i])
  {
    assert objs[..i + 1][..i] == objs[..i];
  }

  /** The dump loop over the objects; a deleted object is left out. */
  method Dump(table: seq<Attribute>, header: seq<Line>, objs: seq<Object>) returns (file: seq<Line>)
    requires Writable(table, objs)
    ensures file == header + Dumped(table, objs)
  {
    file := header;
    for i := 0 to |objs|
      invariant file == header + Dumped(table, objs[..i])
    {
      DumpedMore(table, header, objs, i);
      var o := objs[i];
      if o.comment.Some? {
        var fields := DumpFields(table, o.fields);
        file := file + (o.comment.value + fields + [""]);
      }
    }
    assert objs[..|objs|] == objs;
  }

  // ----- reading -----

  /** Reading either plain lines or the octal lines of a field. */
  datatype Mode = PlainLines | OctalLinesOf(field: string, bytes: seq<Byte>)

  datatype State = State(
    inData: bool, inObject: bool, mode: Mode,
    header: seq<Line>, comment: seq<Line>,
    current: Object, objects: seq<Object>)

  function Start(): State {
    State(false, false, PlainLines, [], [], Object(None, map[]), [])
  }

  function StripLine(line: Line): string { Names.Strip(line) }

  /** `split(' ', 2)`: at most three parts, the third one verbatim. */
  function SplitWords(s: string): seq<string> {
    var i := FindFrom(s, " ", 0);
    if i.None? then [s]
    else
      var rest := s[i.value + 1..];
      var j := FindFrom(rest, " ", 0);
      if j.None? then [s[..i.value], rest] else [s[..i.value], rest[..j.value], rest[j.value + 1..]]
  }

  function WithField(o: Object, field: string, value: Value): Object {
    o.(fields := o.fields[field := value])
  }

  /** The list once the object is finished: its label is made unique and it is appended. */
  ghost function Finished(objects: seq<Object>, o: Object): Option<seq<Object>> {
    if !AllLabelled(objects) || !Labelled(o) then None
    else
      var r := AddedTo(objects, o, None, false);
      if r.Added? then Some(r.objects) else None
  }

  /** One line of input; a line or an object the reader cannot use ends the run. */
  ghost function Step(st: State, line: Line): Option<State> {
    if !st.inData then Some(st.(header := st.header + [line], inData := StartsWith(line, "BEGINDATA")))
    else if StartsWith(line, "#") then Some(st.(comment := st.comment + [line]))
    else if StripLine(line) == "" then
      if !st.inObject then Some(st)
      else if st.current.comment.None? then None
      else
        var objects := Finished(st.objects, st.current.(comment := Some(st.current.comment.value + st.comment)));
        if objects.None? then None
        else Some(st.(comment := [], current := Object(None, map[]), inObject := false, objects := objects.value))
    else if st.mode.OctalLinesOf? then
      if StartsWith(line, "END") then Some(st.(mode := PlainLines))
      else
        var bytes := st.mode.bytes + ParseOctal(StripLine(line));
        Some(st.(mode := OctalLinesOf(st.mode.field, bytes), current := WithField(st.current, st.mode.field, Bytes(bytes))))
    else
      var begun := if StartsWith(line, "CKA_CLASS") then
        st.(inObject := true, comment := [], current := st.current.(comment := Some(st.comment))) else st;
      var parts := SplitWords(StripLine(line));
      if |parts| < 2 then None
      else if parts[1] == "MULTILINE_OCTAL" then Some(begun.(mode := OctalLinesOf(parts[0], [])))
      else Some(begun.(current := WithField(begun.current, parts[0], if |parts| == 3 then Text(parts[2]) else NoValue)))
  }

  ghost function Steps(st: State, lines: seq<Line>): Option<State> {
    if lines == [] then Some(st)
    else
      var before := Steps(st, lines[..|lines| - 1]);
      if before.None? then None else Step(before.value, lines[|lines| - 1])
  }

  /** Header and objects of a whole file; an object still open at the end is finished too. */
  ghost function ReadAll(lines: seq<Line>): Option<(seq<Line>, seq<Object>)> {
    var st := Steps(Start(), lines);
    if st.None? then None
    else if st.value.current == Object(None, map[]) then Some((st.value.header, st.value.objects))
    else
      var objects := Finished(st.value.objects, st.value.current);
      if objects.None? then None else Some((st.value.header, objects.value))
  }

  method FinishObject(objects: seq<Object>, o: Object) returns (after: Option<seq<Object>>)
    requires AllLabelled(objects)
    ensures after == Finished(objects, o)
    ensures after.Some? ==> AllLabelled(after.value)
  {
    if !Labelled(o) {
      return None;
    }
    AddingKeepsLabelsUnique(objects, o, None, false);
    var r := AddObj(objects, o, None, false);
    after := if r.Added? then Some(r.objects) else None;
  }

  lemma {:induction false} NoneStays(st: State, lines: seq<Line>, i: nat)
    requires i <= |lines| && Steps(st, lines[..i]).None?
    ensures Steps(st, lines).None?
    decreases |lines|
  {
    if i < |lines| {
      assert lines[..|lines| - 1][..i] == lines[..i];
      NoneStays(st, lines[..|lines| - 1], i);
    } else {
      assert lines[..i] == lines;
    }
  }

  ghost predicate ReadsField(st: State, line: Line, comment: seq<Line>, current: Object, inObject: bool) {
    && st.inData && st.mode == PlainLines && st.comment == comment && st.current == current && st.inObject == inObject
    && !StartsWith(line, "#") && StripLine(line) != ""
  }

  /** The object part of the reader: one nonblank line outside comments and octal text. */
  method ReadField(line: Line, comment: seq<Line>, current: Object, inObject: bool)
    returns (ok: bool, comment': seq<Line>, current': Object, inObject': bool, octalField: Option<string>)
    ensures forall st: State | ReadsField(st, line, comment, current, inObject) ::
              Step(st, line) == if !ok then None else
                Some(st.(comment := comment', current := current', inObject := inObject',
                         mode := if octalField.Some? then OctalLinesOf(octalField.value, []) else PlainLines))
  {
    ok, comment', current', inObject', octalField := true, comment, current, inObject, None;
    if StartsWith(line, "CKA_CLASS") {
      inObject' := true;
      current' := current.(comment := Some(comment));
      comment' := [];
    }
    var parts := SplitWords(StripLine(line));
    if |parts| > 2 {
      if parts[1] == "MULTILINE_OCTAL" {
        octalField := Some(parts[0]);
      } else {
        current' := WithField(current', parts[0], Text(parts[2]));
      }
    } else if |parts| == 2 {
      if parts[1] == "MULTILINE_OCTAL" {
        octalField := Some(parts[0]);
      } else {
        current' := WithField(current', parts[0], NoValue);
      }
    } else {
      ok := false;
    }
  }

  /** The reader loop over the lines of the file, with its flags and accumulators. */
  method ReadCertdata(lines: seq<Line>) returns (result: Option<(seq<Line>, seq<Object>)>)
    ensures result == ReadAll(lines)
  {
    var inData, inMultiline, inObject := false, false, false;
    var field, binval: seq<Byte> := "", [];
    var current := Object(None, map[]);
    var header: seq<Line>, comment: seq<Line>, objects: seq<Object> := [], [], [];
    for i := 0 to |lines|
      invariant AllLabelled(objects)
      invariant Steps(Start(), lines[..i]) ==
        Some(State(inData, inObject, if inMultiline then OctalLinesOf(field, binval) else PlainLines,
                   header, comment, current, objects))
    {
      var line := lines[i];
      assert lines[..i + 1][..i] == lines[..i];
      ghost var st := Steps(Start(), lines[..i]).value;
      assert Steps(Start(), lines[..i + 1]) == Step(st, line);
      if !inData {
        header := header + [line];
        inData := StartsWith(line, "BEGINDATA");
        continue;
      }
      if StartsWith(line, "#") {
        comment := comment + [line];
        continue;
      }
      if inObject && StripLine(line) == "" {
        if current.comment.None? {
          NoneStays(Start(), lines, i + 1);
          return None;
        }
        current := current.(comment := Some(current.comment.value + comment));
        var after := FinishObject(objects, current);
        if after.None? {
          NoneStays(Start(), lines, i + 1);
          return None;
        }
        comment, objects, current, inObject := [], after.value, Object(None, map[]), false;
        continue;
      }
      if StripLine(line) == "" {
        continue;
      }
      if inMultiline {
        if !StartsWith(line, "END") {
          binval := binval + ParseOctal(StripLine(line));
          current := WithField(current, field, Bytes(binval));
        } else {
          inMultiline := false;
        }
        continue;
      }
      assert ReadsField(st, line, comment, current, inObject);
      var ok, octalField;
      ok, comment, current, inObject, octalField := ReadField(line, comment, current, inObject);
      if !ok {
        NoneStays(Start(), lines, i + 1);
        return None;
      }
      if octalField.Some? {
        inMultiline, field, binval := true, octalField.value, [];
      }
    }
    assert lines[..|lines|] == lines;
    if current != Object(None, map[]) {
      var after := FinishObject(objects, current);
      result := if after.Some? then Some((header, after.value)) else None;
    } else {
      result := Some((header, objects));
    }
  }

  lemma {:induction false} FinishKeepsLabelsUnique(objects: seq<Object>, o: Object)
    requires AllLabelled(objects) && UniqueLabels(objects)
    ensures var after := Finished(objects, o);
            after.Some? ==> AllLabelled(after.value) && UniqueLabels(after.value)
  {
    if Labelled(o) {
      AddingKeepsLabelsUnique(objects, o, None, false);
    }
  }

  lemma {:induction false} StepKeepsLabelsUnique(st: State, line: Line)
    requires AllLabelled(st.objects) && UniqueLabels(st.objects)
    ensures var r := Step(st, line); r.Some? ==> AllLabelled(r.value.objects) && UniqueLabels(r.value.objects)
  {
    if st.current.comment.Some? {
      FinishKeepsLabelsUnique(st.objects, st.current.(comment := Some(st.current.comment.value + st.comment)));
    }
  }

  lemma {:induction false} StepsKeepLabelsUnique(lines: seq<Line>)
    ensures var r := Steps(Start(), lines); r.Some? ==> AllLabelled(r.value.objects) && UniqueLabels(r.value.objects)
  {
    if lines != [] {
      StepsKeepLabelsUnique(lines[..|lines| - 1]);
      var before := Steps(Start(), lines[..|lines| - 1]);
      if before.Some? {
        StepKeepsLabelsUnique(before.value, lines[|lines| - 1]);
      }
    }
  }

  /** However the file looks, no two objects read from it share both class and label. */
  lemma {:induction false} ReadLabelsAreUnique(lines: seq<Line>)
    ensures var r := ReadAll(lines); r.Some? ==> AllLabelled(r.value.1) && UniqueLabels(r.value.1)
  {
    StepsKeepLabelsUnique(lines);
    var st := Steps(Start(), lines);
    if st.Some? {
      FinishKeepsLabelsUnique(st.value.objects, st.value.current);
    }
  }

  // ----- what is written can be read back -----

  /** Text that survives on one line: not empty and not ending in white space, which stripping would remove. */
  predicate LineSafe(s: string) { s != "" && !Names.IsSpace(s[|s| - 1]) }

  predicate Readable(kind: Kind, value: Value) {
    if TypeName(kind, value) == "MULTILINE_OCTAL" then value.Bytes? && value.b != []
    else value.Text? && LineSafe(value.s)
  }

  predicate Comments(lines: seq<Line>) { forall i :: 0 <= i < |lines| ==> StartsWith(lines[i], "#") }

  ghost predicate Named(table: seq<Attribute>, name: string) {
    exists i :: 0 <= i < |table| && table[i].name == name
  }

  /** The objects for which the round trip is promised. */
  ghost predicate Dumpable(table: seq<Attribute>, o: Object) {
    && Labelled(o) && StripQuotes(Label(o)).Some?
    && (o.comment.Some? ==> Comments(o.comment.value))
    && (forall f :: f in o.fields ==> Named(table, f))
    && (forall i :: 0 <= i < |table| && table[i].name in o.fields ==> Readable(table[i].kind, o.fields[table[i].name]))
  }

  lemma {:induction false} SpaceFound(w: string, rest: string)
    requires forall i :: 0 <= i < |w| ==> !Names.IsSpace(w[i])
    ensures FindFrom(w + " " + rest, " ", 0) == Some(|w|)
  {
    var s := w + " " + rest;
    var r := FindFrom(s, " ", 0);
    assert OccursAt(s, " ", |w|);
    forall j | 0 <= j < |w|
      ensures !OccursAt(s, " ", j)
    {
      assert s[j..j + 1] == [w[j]];
    }
  }

  lemma {:induction false} NoSpaceFound(w: string)
    requires forall i :: 0 <= i < |w| ==> !Names.IsSpace(w[i])
    ensures FindFrom(w, " ", 0).None?
  {
    forall j | 0 <= j < |w|
      ensures !OccursAt(w, " ", j)
    {
      assert w[j..j + 1] == [w[j]];
    }
  }

  lemma {:induction false} SplitThree(name: string, t: string, v: string)
    requires IsWord(name) && IsWord(t)
    ensures SplitWords(name + " " + t + " " + v) == [name, t, v]
  {
    var s := name + " " + t + " " + v;
    var rest := t + " " + v;
    assert s == name + " " + rest;
    SpaceFound(name, rest);
    assert s[..|name|] == name && s[|name| + 1..] == rest;
    SpaceFound(t, v);
    assert rest[..|t|] == t && rest[|t| + 1..] == v;
  }

  lemma {:induction false} SplitTwo(name: string, t: string)
    requires IsWord(name) && IsWord(t)
    ensures SplitWords(name + " " + t) == [name, t]
  {
    var s := name + " " + t;
    SpaceFound(name, t);
    assert s[..|name|] == name && s[|name| + 1..] == t;
    NoSpaceFound(t);
  }

  /**
   * A text value comes back from its line exactly when it is not empty and does not end in white space:
   * the line is stripped before it is split.
   */
  lemma {:induction false} TextLineReadsBackExactly(name: string, t: string, v: string)
    requires IsWord(name) && IsWord(t)
    ensures SplitWords(StripLine(name + " " + t + " " + v)) == [name, t, v] <==> LineSafe(v)
  {
    var line := name + " " + t + " " + v;
    assert line[0] == name[0];
    assert v != "" ==> line[|line| - 1] == v[|v| - 1];
    if LineSafe(v) {
      Names.StripFixed(line);
      SplitThree(name, t, v);
    } else {
      assert line[|line| - 1] == if v == "" then ' ' else v[|v| - 1];
      StrippedEnd(line);
      var stripped := StripLine(line);
      assert line == name + " " + (t + " " + v);
      if SplitWords(stripped) == [name, t, v] {
        JoinedBack(stripped, name, t, v);
        assert false;
      }
    }
  }

  lemma {:induction false} StrippedEnd(line: string)
    requires line != "" && Names.IsSpace(line[|line| - 1])
    ensures StripLine(line) != line
  {
  }

  lemma {:induction false} SplitAtSpace(s: string, i: nat)
    requires OccursAt(s, " ", i)
    ensures i < |s| && s == s[..i] + " " + s[i + 1..]
  {
    assert s[i..i + 1] == " " && s[i] == s[i..i + 1][0];
  }

  lemma {:induction false} JoinedBack(s: string, a: string, b: string, c: string)
    requires SplitWords(s) == [a, b, c]
    ensures s == a + " " + (b + " " + c)
  {
    var i := FindFrom(s, " ", 0);
    assert i.Some?;
    var rest := s[i.value + 1..];
    var j := FindFrom(rest, " ", 0);
    assert j.Some?;
    SplitAtSpace(s, i.value);
    SplitAtSpace(rest, j.value);
  }

  // ----- the reader over a dumped object -----

  lemma {:induction false} StepsConcat(st: State, a: seq<Line>, b: seq<Line>)
    ensures Steps(st, a + b) == if Steps(st, a).None? then None else Steps(Steps(st, a).value, b)
  {
    if b == [] {
      assert a + b == a;
    } else {
      assert (a + b)[..|a + b| - 1] == a + b[..|b| - 1];
      StepsConcat(st, a, b[..|b| - 1]);
    }
  }

  lemma {:induction false} OneStep(st: State, line: Line)
    ensures Steps(st, [line]) == Step(st, line)
  {
    assert [line][..0] == [];
  }

  lemma {:induction false} CommentsAccumulate(st: State, lines: seq<Line>)
    requires st.inData && Comments(lines)
    ensures Steps(st, lines) == Some(st.(comment := st.comment + lines))
  {
    if lines == [] {
      assert st.comment + lines == st.comment;
    } else {
      var init := lines[..|lines| - 1];
      CommentsAccumulate(st, init);
      assert st.comment + lines == (st.comment + init) + [lines[|lines| - 1]];
    }
  }

  function Between(header: seq<Line>, objects: seq<Object>): State {
    State(true, false, PlainLines, header, [], Object(None, map[]), objects)
  }

  function Inside(header: seq<Line>, objects: seq<Object>, comment: seq<Line>, fields: map<string, Value>): State {
    State(true, true, PlainLines, header, [], Object(Some(comment), fields), objects)
  }

  lemma {:induction false} OctalTextIsLine(bytes: seq<Byte>)
    requires bytes != []
    ensures var t := OctalText(bytes); t[0] == '\\' && StripLine(t) == t && ParseOctal(StripLine(t)) == bytes
  {
    OctalReadsBack(bytes);
    OctalEnds(bytes);
    Names.StripFixed(OctalText(bytes));
  }

  lemma {:induction false} OctalEnds(bytes: seq<Byte>)
    requires bytes != []
    ensures var t := OctalText(bytes); t != "" && t[0] == '\\' && !Names.IsSpace(t[|t| - 1])
  {
    if |bytes| == 1 {
      OctalOfOne(bytes[0]);
      assert bytes == [bytes[0]];
    } else {
      OctalEnds(bytes[1..]);
    }
  }

  /** The state once all the bytes of the open octal field so far are `all`. */
  function WithBytes(st: State, all: seq<Byte>): State
    requires st.mode.OctalLinesOf?
  {
    st.(mode := OctalLinesOf(st.mode.field, all), current := WithField(st.current, st.mode.field, Bytes(all)))
  }

  lemma {:induction false} WithBytesTwice(st: State, a: seq<Byte>, b: seq<Byte>)
    requires st.mode.OctalLinesOf?
    ensures WithBytes(WithBytes(st, a), b) == WithBytes(st, b)
  {
    var f := st.current.fields;
    assert f[st.mode.field := Bytes(a)][st.mode.field := Bytes(b)] == f[st.mode.field := Bytes(b)];
  }

  lemma {:induction false} OctalLineStep(st: State, bytes: seq<Byte>)
    requires st.inData && st.mode.OctalLinesOf? && bytes != []
    ensures Step(st, OctalText(bytes)) == Some(WithBytes(st, st.mode.bytes + bytes))
  {
    OctalTextIsLine(bytes);
  }

  lemma {:induction false} OctalLinesSteps(st: State, bytes: seq<Byte>)
    requires st.inData && st.mode.OctalLinesOf? && bytes != []
    ensures Steps(st, OctalLines(bytes)) == Some(WithBytes(st, st.mode.bytes + bytes))
    decreases |bytes|
  {
    if |bytes| <= 16 {
      OneStep(st, OctalText(bytes));
      OctalLineStep(st, bytes);
    } else {
      var head, rest := bytes[..16], bytes[16..];
      var mid := WithBytes(st, st.mode.bytes + head);
      OneStep(st, OctalText(head));
      OctalLineStep(st, head);
      StepsConcat(st, [OctalText(head)], OctalLines(rest));
      OctalLinesSteps(mid, rest);
      TwoParts(st.mode.bytes, bytes);
      WithBytesTwice(st, st.mode.bytes + head, st.mode.bytes + bytes);
    }
  }

  lemma {:induction false} TwoParts(before: seq<Byte>, bytes: seq<Byte>)
    requires |bytes| > 16
    ensures (before + bytes[..16]) + bytes[16..] == before + bytes
  {
  }

  /** The state in which the fields of an object are read: plain lines, after its class line or at it. */
  ghost predicate AtField(st: State, name: string) {
    st.inData && st.mode == PlainLines && (if StartsObject(name) then !st.inObject else st.inObject)
  }

  function Begun(st: State, name: string): State {
    if StartsObject(name) then st.(inObject := true, comment := [], current := st.current.(comment := Some(st.comment)))
    else st
  }

  predicate TableName(name: string) {
    IsWord(name) && |name| > 5 && (StartsObject(name) || name[4] != 'C' || name[5] != 'L')
  }

  lemma {:induction false} ClassLine(name: string, rest: string)
    requires TableName(name)
    ensures StartsWith(name + " " + rest, "CKA_CLASS") <==> StartsObject(name)
  {
    var line, c := name + " " + rest, "CKA_CLASS";
    assert |c| == 9 && c[4] == 'C' && c[5] == 'L';
    assert line[4] == name[4] && line[5] == name[5];
    if c <= line {
      assert line[4] == c[4] && line[5] == c[5];
    }
    if StartsObject(name) {
      assert line[..9] == name;
    }
  }

  lemma {:induction false} PlainStep(st: State, line: Line, name: string, parts: seq<string>)
    requires AtField(st, name) && !StartsWith(line, "#") && StripLine(line) != ""
    requires StartsWith(line, "CKA_CLASS") <==> StartsObject(name)
    requires SplitWords(StripLine(line)) == parts && |parts| > 1
    ensures Step(st, line) ==
            if parts[1] == "MULTILINE_OCTAL" then Some(Begun(st, name).(mode := OctalLinesOf(parts[0], [])))
            else Some(Begun(st, name).(current :=
              WithField(Begun(st, name).current, parts[0], if |parts| == 3 then Text(parts[2]) else NoValue)))
  {
  }

  lemma {:induction false} WordLine(name: string, rest: string)
    requires TableName(name) && LineSafe(rest)
    ensures var line := name + " " + rest;
            !StartsWith(line, "#") && StripLine(line) == line && line != ""
    ensures StartsWith(name + " " + rest, "CKA_CLASS") <==> StartsObject(name)
  {
    var line := name + " " + rest;
    ClassLine(name, rest);
    assert line[0] == name[0] && line[|line| - 1] == rest[|rest| - 1];
    Names.StripFixed(line);
  }

  lemma {:induction false} TextFieldStep(st: State, name: string, t: string, v: string)
    requires AtField(st, name) && TableName(name) && IsWord(t) && t != "MULTILINE_OCTAL" && LineSafe(v)
    ensures Step(st, name + " " + t + " " + v) ==
            Some(Begun(st, name).(current := WithField(Begun(st, name).current, name, Text(v))))
  {
    var rest := t + " " + v;
    assert rest[|rest| - 1] == v[|v| - 1];
    assert name + " " + t + " " + v == name + " " + rest;
    WordLine(name, rest);
    SplitThree(name, t, v);
    PlainStep(st, name + " " + rest, name, [name, t, v]);
  }

  lemma {:induction false} OctalHeaderStep(st: State, name: string)
    requires AtField(st, name) && TableName(name)
    ensures Step(st, name + " " + "MULTILINE_OCTAL") == Some(Begun(st, name).(mode := OctalLinesOf(name, [])))
  {
    var t := "MULTILINE_OCTAL";
    assert IsWord(t);
    WordLine(name, t);
    SplitTwo(name, t);
    PlainStep(st, name + " " + t, name, [name, t]);
  }

  lemma {:induction false} EndStep(st: State)
    requires st.inData && st.mode.OctalLinesOf?
    ensures Step(st, "END") == Some(st.(mode := PlainLines))
  {
    assert "END"[0] == 'E' && "END"[2] == 'D';
    Names.StripFixed("END");
  }

  lemma {:induction false} OctalFieldSteps(st: State, name: string, bytes: seq<Byte>)
    requires AtField(st, name) && TableName(name) && bytes != []
    ensures Steps(st, [name + " " + "MULTILINE_OCTAL"] + OctalLines(bytes) + ["END"]) ==
            Some(Begun(st, name).(current := WithField(Begun(st, name).current, name, Bytes(bytes))))
  {
    var head := [name + " " + "MULTILINE_OCTAL"];
    OneStep(st, head[0]);
    OctalHeaderStep(st, name);
    var begun := Begun(st, name).(mode := OctalLinesOf(name, []));
    StepsConcat(st, head, OctalLines(bytes));
    OctalLinesSteps(begun, bytes);
    assert [] + bytes == bytes;
    StepsConcat(st, head + OctalLines(bytes), ["END"]);
    var full := WithBytes(begun, bytes);
    OneStep(full, "END");
    EndStep(full);
  }

  /** An octal field without bytes leaves no trace: it is written, but reading its lines sets nothing. */
  lemma {:induction false} EmptyBytesAreLost(st: State, name: string)
    requires AtField(st, name) && TableName(name)
    ensures Steps(st, [name + " " + "MULTILINE_OCTAL"] + OctalLines([]) + ["END"]) == Some(Begun(st, name))
  {
    var head := [name + " " + "MULTILINE_OCTAL"];
    assert head + OctalLines([]) == head;
    OneStep(st, head[0]);
    OctalHeaderStep(st, name);
    StepsConcat(st, head, ["END"]);
    var begun := Begun(st, name).(mode := OctalLinesOf(name, []));
    OneStep(begun, "END");
    EndStep(begun);
  }

  lemma {:induction false} FieldSteps(st: State, a: Attribute, value: Value)
    requires AtField(st, a.name) && TableName(a.name) && Readable(a.kind, value)
    requires a.kind.Plain? ==> IsWord(a.kind.typeName)
    ensures Fits(a.kind, value)
    ensures Steps(st, FieldLines(a, value)) ==
            Some(Begun(st, a.name).(current := WithField(Begun(st, a.name).current, a.name, value)))
  {
    var t := TypeName(a.kind, value);
    if t == "MULTILINE_OCTAL" {
      OctalFieldSteps(st, a.name, value.b);
    } else {
      assert IsWord(t);
      OneStep(st, a.name + " " + t + " " + value.s);
      TextFieldStep(st, a.name, t, value.s);
    }
  }

  /** The part of the fields that the first `k` attributes of the table cover. */
  ghost function Covered(table: seq<Attribute>, fields: map<string, Value>, k: nat): map<string, Value>
    requires k <= |table|
  {
    map f | f in fields && Named(table[..k], f) :: fields[f]
  }

  lemma {:induction false} NamedStep(table: seq<Attribute>, k: nat, f: string)
    requires k < |table|
    ensures Named(table[..k + 1], f) <==> Named(table[..k], f) || f == table[k].name
  {
    if Named(table[..k], f) {
      var i :| 0 <= i < k && table[..k][i].name == f;
      assert table[..k + 1][i].name == f;
    }
    assert table[..k + 1][k].name == table[k].name;
    if Named(table[..k + 1], f) && f != table[k].name {
      var i :| 0 <= i < k + 1 && table[..k + 1][i].name == f;
      assert table[..k][i].name == f;
    }
  }

  lemma {:induction false} CoveredStep(table: seq<Attribute>, fields: map<string, Value>, k: nat)
    requires k < |table|
    ensures Covered(table, fields, k + 1) ==
            if table[k].name in fields then Covered(table, fields, k)[table[k].name := fields[table[k].name]]
            else Covered(table, fields, k)
  {
    forall f
      ensures Named(table[..k + 1], f) <==> Named(table[..k], f) || f == table[k].name
    {
      NamedStep(table, k, f);
    }
  }

  lemma {:induction false} NamesOfTable(table: seq<Attribute>, k: nat)
    requires GoodTable(table) && k < |table|
    ensures TableName(table[k].name) && (StartsObject(table[k].name) <==> k == 0)
  {
    assert k > 0 ==> table[0].name != table[k].name;
  }

  /** The lines of the first `k` attributes lead from the comment to the object with these fields. */
  ghost predicate FieldsAreRead(
    table: seq<Attribute>, header: seq<Line>, objects: seq<Object>, comment: seq<Line>, o: Object, k: nat)
    requires k <= |table|
  {
    && AllFit(table[..k], o.fields)
    && Steps(Between(header, objects).(comment := comment), FieldsText(table[..k], o.fields)) ==
       Some(Inside(header, objects, comment, Covered(table, o.fields, k)))
  }

  lemma {:induction false} FirstFieldRead(
    table: seq<Attribute>, header: seq<Line>, objects: seq<Object>, comment: seq<Line>, o: Object)
    requires GoodTable(table) && Dumpable(table, o)
    ensures FieldsAreRead(table, header, objects, comment, o, 1)
  {
    var start, a := Between(header, objects).(comment := comment), table[0];
    FirstAttribute(table, o);
    FirstCovered(table, o.fields);
    FirstState(header, objects, comment, a.name, o.fields[a.name]);
    FieldSteps(start, a, o.fields[a.name]);
    FirstText(table, o.fields);
  }

  lemma {:induction false} FirstAttribute(table: seq<Attribute>, o: Object)
    requires GoodTable(table) && Dumpable(table, o)
    ensures var a := table[0];
            && StartsObject(a.name) && TableName(a.name) && a.name in o.fields
            && Readable(a.kind, o.fields[a.name]) && a.kind.Plain? && IsWord(a.kind.typeName)
  {
    NamesOfTable(table, 0);
    assert table[0].name == "CKA_CLASS";
  }

  lemma {:induction false} FirstCovered(table: seq<Attribute>, fields: map<string, Value>)
    requires GoodTable(table) && table[0].name in fields
    ensures Covered(table, fields, 1) == map[][table[0].name := fields[table[0].name]]
  {
    CoveredStep(table, fields, 0);
    assert table[..0] == [] && Covered(table, fields, 0) == map[];
  }

  lemma {:induction false} FirstState(
    header: seq<Line>, objects: seq<Object>, comment: seq<Line>, name: string, value: Value)
    requires StartsObject(name)
    ensures var start := Between(header, objects).(comment := comment);
            AtField(start, name) &&
            Begun(start, name).(current := WithField(Begun(start, name).current, name, value))
            == Inside(header, objects, comment, map[][name := value])
  {
  }

  lemma {:induction false} FirstText(table: seq<Attribute>, fields: map<string, Value>)
    requires table != [] && table[0].name in fields && Fits(table[0].kind, fields[table[0].name])
    ensures AllFit(table[..1], fields)
    ensures FieldsText(table[..1], fields) == FieldLines(table[0], fields[table[0].name])
  {
    var one := table[..1];
    assert one[..0] == [] && FieldsText(one[..0], fields) == [];
    assert [] + FieldLines(one[0], fields[one[0].name]) == FieldLines(one[0], fields[one[0].name]);
  }

  lemma {:induction false} NextText(table: seq<Attribute>, fields: map<string, Value>, k: nat)
    requires k < |table| && AllFit(table[..k], fields)
    requires table[k].name in fields ==> Fits(table[k].kind, fields[table[k].name])
    ensures AllFit(table[..k + 1], fields)
    ensures FieldsText(table[..k + 1], fields) ==
            FieldsText(table[..k], fields)
            + if table[k].name in fields then FieldLines(table[k], fields[table[k].name]) else []
  {
    var next := table[..k + 1];
    assert next[..k] == table[..k];
    forall i | 0 <= i < k + 1 && next[i].name in fields
      ensures Fits(next[i].kind, fields[next[i].name])
    {
      assert i < k ==> next[i] == table[..k][i];
    }
  }

  /** Reading the fields of a dumped object, attribute by attribute. */
  lemma {:induction false} FieldsRead(
    table: seq<Attribute>, header: seq<Line>, objects: seq<Object>, comment: seq<Line>, o: Object, k: nat)
    requires GoodTable(table) && Dumpable(table, o) && 1 <= k <= |table|
    ensures FieldsAreRead(table, header, objects, comment, o, k)
  {
    if k == 1 {
      FirstFieldRead(table, header, objects, comment, o);
    } else {
      FieldsRead(table, header, objects, comment, o, k - 1);
      NextFieldRead(table, header, objects, comment, o, k - 1, k);
    }
  }

  lemma {:induction false} NextFieldRead(
    table: seq<Attribute>, header: seq<Line>, objects: seq<Object>, comment: seq<Line>, o: Object, j: nat, k: nat)
    requires GoodTable(table) && Dumpable(table, o) && 1 <= j < |table| && k == j + 1
    requires FieldsAreRead(table, header, objects, comment, o, j)
    ensures FieldsAreRead(table, header, objects, comment, o, k)
  {
    var start, a := Between(header, objects).(comment := comment), table[j];
    var mid := Inside(header, objects, comment, Covered(table, o.fields, j));
    NamesOfTable(table, j);
    CoveredStep(table, o.fields, j);
    if a.name in o.fields {
      FieldSteps(mid, a, o.fields[a.name]);
      StepsConcat(start, FieldsText(table[..j], o.fields), FieldLines(a, o.fields[a.name]));
      NextText(table, o.fields, j);
    } else {
      NextText(table, o.fields, j);
      assert FieldsText(table[..k], o.fields) == FieldsText(table[..j], o.fields);
    }
  }

  lemma {:induction false} ObjectReads(table: seq<Attribute>, header: seq<Line>, objects: seq<Object>, o: Object)
    requires GoodTable(table) && Dumpable(table, o) && o.comment.Some?
    requires AllLabelled(objects) && !Taken(objects, Class(o), Label(o))
    ensures AllFit(table, o.fields)
    ensures Steps(Between(header, objects), ObjectLines(table, o)) == Some(Between(header, objects + [o]))
  {
    var comment := o.comment.value;
    WholeTable(table, header, objects, comment, o);
    var start, fields := Between(header, objects), FieldsText(table, o.fields);
    var inside := Inside(header, objects, comment, o.fields);
    CommentsAccumulate(start, comment);
    assert [] + comment == comment;
    StepsConcat(start, comment, fields);
    StepsConcat(start, comment + fields, [""]);
    OneStep(inside, "");
    ObjectEnds(header, objects, comment, o);
  }

  lemma {:induction false} WholeTable(
    table: seq<Attribute>, header: seq<Line>, objects: seq<Object>, comment: seq<Line>, o: Object)
    requires GoodTable(table) && Dumpable(table, o)
    ensures AllFit(table, o.fields)
    ensures Steps(Between(header, objects).(comment := comment), FieldsText(table, o.fields)) ==
            Some(Inside(header, objects, comment, o.fields))
  {
    assert table[..|table|] == table;
    FieldsRead(table, header, objects, comment, o, |table|);
    assert Covered(table, o.fields, |table|) == o.fields;
  }

  lemma {:induction false} ObjectEnds(header: seq<Line>, objects: seq<Object>, comment: seq<Line>, o: Object)
    requires Labelled(o) && StripQuotes(Label(o)).Some? && o.comment == Some(comment)
    requires AllLabelled(objects) && !Taken(objects, Class(o), Label(o))
    ensures Step(Inside(header, objects, comment, o.fields), "") == Some(Between(header, objects + [o]))
  {
    assert comment + [] == comment;
    assert Object(Some(comment), o.fields) == o;
  }

  /** The objects that have not been deleted. */
  function Surviving(objs: seq<Object>): seq<Object> {
    if objs == [] then []
    else
      Surviving(objs[..|objs| - 1]) + if objs[|objs| - 1].comment.Some? then [objs[|objs| - 1]] else []
  }

  lemma {:induction false} SurvivingFrom(objs: seq<Object>, o: Object)
    requires o in Surviving(objs)
    ensures o in objs && o.comment.Some?
  {
    if o !in Surviving(objs[..|objs| - 1]) {
    } else {
      SurvivingFrom(objs[..|objs| - 1], o);
    }
  }

  lemma {:induction false} ObjectsRead(table: seq<Attribute>, header: seq<Line>, objs: seq<Object>)
    requires GoodTable(table) && Writable(table, objs)
    requires forall o :: o in Surviving(objs) ==> Dumpable(table, o)
    requires AllLabelled(Surviving(objs)) && UniqueLabels(Surviving(objs))
    ensures Steps(Between(header, []), Dumped(table, objs)) == Some(Between(header, Surviving(objs)))
  {
    if objs != [] {
      var init, o := objs[..|objs| - 1], objs[|objs| - 1];
      var before, after := Surviving(init), Surviving(objs);
      assert forall i :: 0 <= i < |before| ==> before[i] == after[i];
      ObjectsRead(table, header, init);
      StepsConcat(Between(header, []), Dumped(table, init), ObjectLines(table, o));
      if o.comment.Some? {
        assert after[|before|] == o && o in after;
        assert !Taken(before, Class(o), Label(o));
        ObjectReads(table, header, before, o);
      } else {
        assert Dumped(table, objs) == Dumped(table, init) + [] == Dumped(table, init);
        assert after == before + [] == before;
      }
    }
  }

  predicate GoodHeader(header: seq<Line>) {
    && header != [] && StartsWith(header[|header| - 1], "BEGINDATA")
    && forall i :: 0 <= i < |header| - 1 ==> !StartsWith(header[i], "BEGINDATA")
  }

  lemma {:induction false} HeaderStep(header: seq<Line>, line: Line)
    requires !StartsWith(line, "BEGINDATA")
    ensures Step(Start().(header := header), line) == Some(Start().(header := header + [line]))
  {
  }

  lemma {:induction false} HeaderReads(lines: seq<Line>)
    requires forall i :: 0 <= i < |lines| ==> !StartsWith(lines[i], "BEGINDATA")
    ensures Steps(Start(), lines) == Some(Start().(header := lines))
  {
    if lines != [] {
      var init, last := lines[..|lines| - 1], lines[|lines| - 1];
      HeaderReads(init);
      HeaderStep(init, last);
      assert init + [last] == lines;
    }
  }

  /**
   * Reading the dumped file gives back the header and exactly the objects not marked deleted, in order and
   * with their comments, for objects whose values survive their lines and whose labels are unique.
   */
  lemma {:induction false} DumpReadsBack(table: seq<Attribute>, header: seq<Line>, objs: seq<Object>)
    requires GoodTable(table) && GoodHeader(header) && Writable(table, objs)
    requires forall o :: o in Surviving(objs) ==> Dumpable(table, o)
    requires AllLabelled(Surviving(objs)) && UniqueLabels(Surviving(objs))
    ensures ReadAll(header + Dumped(table, objs)) == Some((header, Surviving(objs)))
  {
    var init, last := header[..|header| - 1], header[|header| - 1];
    assert header == init + [last];
    HeaderReads(init);
    StepsConcat(Start(), init, [last]);
    OneStep(Start().(header := init), last);
    StepsConcat(Start(), header, Dumped(table, objs));
    ObjectsRead(table, header, objs);
  }
}

/** The attribute table of the program, and that it is one the round trip holds for. */
module CertTable {
  import opened Certdata
  import Names

  const ATTRIBUTES: seq<Attribute> := [
    Attribute("CKA_CLASS", Plain("CK_OBJECT_CLASS")),
    Attribute("CKA_TOKEN", Plain("CK_BBOOL")),
    Attribute("CKA_PRIVATE", Plain("CK_BBOOL")),
    Attribute("CKA_MODIFIABLE", Plain("CK_BBOOL")),
    Attribute("CKA_LABEL", Plain("UTF8")),
    Attribute("CKA_CERTIFICATE_TYPE", Plain("CK_CERTIFICATE_TYPE")),
    Attribute("CKA_SUBJECT", Octal),
    Attribute("CKA_ID", Plain("UTF8")),
    Attribute("CKA_CERT_SHA1_HASH", Octal),
    Attribute("CKA_CERT_MD5_HASH", Octal),
    Attribute("CKA_ISSUER", Octal),
    Attribute("CKA_SERIAL_NUMBER", Octal),
    Attribute("CKA_VALUE", Octal),
    Attribute("CKA_NSS_MOZILLA_CA_POLICY", Plain("CK_BBOOL")),
    Attribute("CKA_NSS_SERVER_DISTRUST_AFTER", Distrust),
    Attribute("CKA_NSS_EMAIL_DISTRUST_AFTER", Distrust),
    Attribute("CKA_TRUST_SERVER_AUTH", Plain("CK_TRUST")),
    Attribute("CKA_TRUST_EMAIL_PROTECTION", Plain("CK_TRUST")),
    Attribute("CKA_TRUST_CODE_SIGNING", Plain("CK_TRUST")),
    Attribute("CKA_TRUST_STEP_UP_APPROVED", Plain("CK_BBOOL"))
  ]

  /** The index of an attribute, told from the length of its name and one letter, which shows the names distinct. */
  function IndexByShape(name: string): nat
    requires |name| > 5
  {
    var l, c := |name|, name[4];
    if l == 6 then 7 else if l == 9 then (if c == 'C' then 0 else if c == 'T' then 1 else if c == 'L' then 4 else 12)
    else if l == 10 then 10 else if l == 11 then (if c == 'P' then 2 else 6)
    else if l == 14 then 3 else if l == 17 then (if c == 'C' then 9 else 11)
    else if l == 18 then 8 else if l == 20 then 5 else if l == 21 then 16 else if l == 22 then 18
    else if l == 25 then 13 else if l == 26 then (if name[10] == 'E' then 17 else 19)
    else if l == 28 then 15 else 14
  }

  lemma {:induction false} ShapeGivesIndexBelow(i: nat)
    requires i < 10
    ensures |ATTRIBUTES[i].name| > 5 && IndexByShape(ATTRIBUTES[i].name) == i
  {
  }

  lemma {:induction false} ShapeGivesIndexAbove(i: nat)
    requires 10 <= i < |ATTRIBUTES|
    ensures |ATTRIBUTES[i].name| > 5 && IndexByShape(ATTRIBUTES[i].name) == i
  {
  }

  lemma {:induction false} ShapeGivesIndex(i: nat)
    requires i < |ATTRIBUTES|
    ensures |ATTRIBUTES[i].name| > 5 && IndexByShape(ATTRIBUTES[i].name) == i
  {
    if i < 10 {
      ShapeGivesIndexBelow(i);
    } else {
      ShapeGivesIndexAbove(i);
    }
  }

  lemma {:induction false} NamesDiffer()
    ensures forall i, j :: 0 <= i < j < |ATTRIBUTES| ==> ATTRIBUTES[i].name != ATTRIBUTES[j].name
  {
    var t := ATTRIBUTES;
    forall i, j | 0 <= i < j < |t|
      ensures t[i].name != t[j].name
    {
      ShapeGivesIndex(i);
      ShapeGivesIndex(j);
    }
  }

  lemma {:induction false} OnlyClassLooksLikeClass()
    ensures forall i :: 1 <= i < |ATTRIBUTES| ==>
              var name := ATTRIBUTES[i].name; |name| > 5 && (name[4] != 'C' || name[5] != 'L')
  {
  }

  predicate IsLongWord(name: string) { |name| > 5 && IsWord(name) }

  lemma {:induction false} ObjectNamesAreWords()
    ensures forall i :: 0 <= i < 5 ==> IsLongWord(ATTRIBUTES[i].name)
  {
    assert IsLongWord("CKA_CLASS") && IsLongWord("CKA_TOKEN") && IsLongWord("CKA_PRIVATE");
    assert IsLongWord("CKA_MODIFIABLE") && IsLongWord("CKA_LABEL");
  }

  lemma {:induction false} CertificateNamesAreWords()
    ensures forall i :: 5 <= i < 10 ==> IsLongWord(ATTRIBUTES[i].name)
  {
    assert IsLongWord("CKA_CERTIFICATE_TYPE") && IsLongWord("CKA_SUBJECT") && IsLongWord("CKA_ID");
    assert IsLongWord("CKA_CERT_SHA1_HASH") && IsLongWord("CKA_CERT_MD5_HASH");
  }

  lemma {:induction false} ContentNamesAreWords()
    ensures forall i :: 10 <= i < 13 ==> IsLongWord(ATTRIBUTES[i].name)
  {
    assert IsLongWord("CKA_ISSUER") && IsLongWord("CKA_SERIAL_NUMBER") && IsLongWord("CKA_VALUE");
  }

  lemma {:induction false} PolicyNameIsWord()
    ensures IsLongWord(ATTRIBUTES[13].name)
  {
    assert IsLongWord("CKA_NSS_MOZILLA_CA_POLICY");
  }

  lemma {:induction false} DistrustNamesAreWords()
    ensures IsLongWord(ATTRIBUTES[14].name) && IsLongWord(ATTRIBUTES[15].name)
  {
    assert IsLongWord("CKA_NSS_SERVER_DISTRUST_AFTER") && IsLongWord("CKA_NSS_EMAIL_DISTRUST_AFTER");
  }

  lemma {:induction false} PurposeNamesAreWords()
    ensures forall i :: 16 <= i < 18 ==> IsLongWord(ATTRIBUTES[i].name)
  {
    assert IsLongWord("CKA_TRUST_SERVER_AUTH") && IsLongWord("CKA_TRUST_EMAIL_PROTECTION");
  }

  lemma {:induction false} CodeNamesAreWords()
    ensures forall i :: 18 <= i < 20 ==> IsLongWord(ATTRIBUTES[i].name)
  {
    assert IsLongWord("CKA_TRUST_CODE_SIGNING") && IsLongWord("CKA_TRUST_STEP_UP_APPROVED");
  }

  lemma {:induction false} NamesAreWords()
    ensures forall i :: 0 <= i < |ATTRIBUTES| ==> IsLongWord(ATTRIBUTES[i].name)
  {
    ObjectNamesAreWords();
    CertificateNamesAreWords();
    ContentNamesAreWords();
    PolicyNameIsWord();
    DistrustNamesAreWords();
    PurposeNamesAreWords();
    CodeNamesAreWords();
  }

  predicate IsTypeWord(name: string) { IsWord(name) && name != "MULTILINE_OCTAL" }

  lemma {:induction false} TypeNamesAreWords()
    ensures IsTypeWord("CK_BBOOL") && IsTypeWord("UTF8") && IsTypeWord("CK_TRUST")
    ensures IsTypeWord("CK_OBJECT_CLASS") && IsTypeWord("CK_CERTIFICATE_TYPE")
  {
    assert |"CK_OBJECT_CLASS"| == |"MULTILINE_OCTAL"| && "CK_OBJECT_CLASS"[0] == 'C';
  }

  lemma {:induction false} TypesAreWords()
    ensures forall i :: 0 <= i < |ATTRIBUTES| && ATTRIBUTES[i].kind.Plain? ==> IsTypeWord(ATTRIBUTES[i].kind.typeName)
  {
    TypeNamesAreWords();
  }

  /** The program's own table meets the conditions of the round trip. */
  lemma {:induction false} TableIsGood()
    ensures GoodTable(ATTRIBUTES)
  {
    NamesDiffer();
    NamesAreWords();
    TypesAreWords();
    OnlyClassLooksLikeClass();
  }
}
