/** What is written, character by character, on small inputs, and the shape of what is written on all of them. */
module DependencySpelling {
  import opened Wrappers
  import opened Decimal
  import opened Pep440
  import opened RpmSpelling
  import opened Convert

  function Plain(release: seq<nat>): Version
    requires release != []
  {
    RawVersion.Version(0, release, None, None, None)
  }

  lemma {:induction false} Printed(a: nat, b: nat)
    requires 0 < a < 10 && 0 < b < 10
    ensures RpmText(Plain([a])) == [DigitChar(a)]
    ensures RpmText(Plain([a, 0])) == [DigitChar(a)]
    ensures RpmText(Plain([a, b])) == [DigitChar(a), '.', DigitChar(b)]
  {
    assert [a][1..] == [] && [a, 0][1..] == [0] && [0][1..] == [] && [a, b][1..] == [b] && [b][1..] == [];
    assert StripZeros([a]) == [a] && StripZeros([0]) == [] && StripZeros([a, 0]) == [a];
    assert StripZeros([b]) == [b] && StripZeros([a, b]) == [a, b];
    assert NatToString(a) == [DigitChar(a)] && NatToString(b) == [DigitChar(b)];
    assert Dotted([a]) == [DigitChar(a)] && Dotted([b]) == [DigitChar(b)];
    assert Dotted([a, b]) == [DigitChar(a)] + ("." + [DigitChar(b)]);
  }

  /** `~= 1.2` is written `n >= 1.2 with n < 2`. */
  lemma {:induction false} CompatibleText(n: string)
    ensures Print(ConvertDep(n, Specifier(Compatible, Plain([1, 2]), false))) ==
            With(Clause(n, NotBelow, "1.2"), Clause(n, Below, "2"))
  {
    Printed(1, 2);
    Printed(2, 1);
    assert [DigitChar(2)] == "2" && [DigitChar(1), '.', DigitChar(2)] == "1.2";
    assert [1, 2][..1] == [1] && UpperVersion(Plain([1, 2])) == Plain([2]);
  }

  /** `< 2` is `n < 2~~`, and `> 2` is `n > 2.0`. */
  lemma {:induction false} StrictTexts(n: string)
    ensures Print(ConvertDep(n, Specifier(Lt, Plain([2]), false))) == Clause(n, Below, "2~~")
    ensures Print(ConvertDep(n, Specifier(Gt, Plain([2]), false))) == Clause(n, Above, "2.0")
  {
    Printed(2, 1);
    assert [DigitChar(2)] == "2" && "2" + "~~" == "2~~" && "2" + ".0" == "2.0";
  }

  /** `== 1.2` is `n = 1.2`, and `>= 1.0` is `n >= 1`. */
  lemma {:induction false} PlainTexts(n: string)
    ensures Print(ConvertDep(n, Specifier(Eq, Plain([1, 2]), false))) == Clause(n, Same, "1.2")
    ensures Print(ConvertDep(n, Specifier(Ge, Plain([1, 0]), false))) == Clause(n, NotBelow, "1")
  {
    Printed(1, 2);
    assert [DigitChar(1)] == "1" && [DigitChar(1), '.', DigitChar(2)] == "1.2";
  }

  lemma {:induction false} OneSegment()
    ensures Dotted(PrintedRelease([1])) == "1" && NatToString(2) == "2" && NatToString(3) == "3"
  {
    assert [1][1..] == [] && StripZeros([1]) == [1];
    assert NatToString(1) == "1" && "1" + "" == "1";
  }

  /** The suffixes of `1rc3`, `1a3` and `1b3`. */
  lemma {:induction false} PreTexts()
    ensures RpmText(RawVersion.Version(0, [1], Some(Pre(Candidate, 3)), None, None)) == "1" + "~rc3"
    ensures RpmText(RawVersion.Version(0, [1], Some(Pre(Alpha, 3)), None, None)) == "1" + "~a3"
    ensures RpmText(RawVersion.Version(0, [1], Some(Pre(Beta, 3)), None, None)) == "1" + "~b3"
  {
    OneSegment();
    assert "~" + ("rc" + "3") == "~rc3" && "~" + ("a" + "3") == "~a3" && "~" + ("b" + "3") == "~b3";
  }

  /** Those of `1.dev3` and `1.post3`, and the epoch of `2!1`. */
  lemma {:induction false} OtherTexts()
    ensures RpmText(RawVersion.Version(0, [1], None, None, Some(3))) == "1" + "~~dev3"
    ensures RpmText(RawVersion.Version(0, [1], None, Some(3), None)) == "1" + "^post3"
    ensures RpmText(RawVersion.Version(2, [1], None, None, None)) == "2:" + "1"
  {
    OneSegment();
    assert "~" + ("~" + ("dev" + "3")) == "~~dev3" && "^" + ("post" + "3") == "^post3" && "2" + ":" == "2:";
    assert "1" + "" == "1";
  }
}

module CertdataSpelling {
  import opened Wrappers
  import opened Decimal
  import opened CertObjects
  import opened Certdata

  /** Escapes are three octal digits behind a backslash. */
  lemma {:induction false} Escapes()
    ensures OctalByte(0) == "\\000" && OctalByte(83) == "\\123" && OctalByte(255) == "\\377"
  {
  }

  function Concatenated(lines: seq<Line>): string {
    if lines == [] then "" else lines[0] + Concatenated(lines[1..])
  }

  lemma {:induction false} TextLength(bytes: seq<Byte>)
    ensures |OctalText(bytes)| == 4 * |bytes|
  {
    if bytes != [] {
      TextLength(bytes[1..]);
    }
  }

  lemma {:induction false} TextSplit(a: seq<Byte>, b: seq<Byte>)
    ensures OctalText(a + b) == OctalText(a) + OctalText(b)
  {
    if a == [] {
      assert a + b == b;
    } else {
      assert (a + b)[1..] == a[1..] + b;
      TextSplit(a[1..], b);
    }
  }

  /** Sixteen escapes on every line but the last, which has up to sixteen; together they are all the escapes. */
  lemma {:induction false} LinesOfSixteen(bytes: seq<Byte>)
    ensures var lines := OctalLines(bytes);
            && Concatenated(lines) == OctalText(bytes)
            && (forall i :: 0 <= i < |lines| - 1 ==> |lines[i]| == 64)
            && (lines != [] ==> 0 < |lines[|lines| - 1]| <= 64)
  {
    if bytes == [] {
    } else if |bytes| <= 16 {
      TextLength(bytes);
      assert [OctalText(bytes)][1..] == [] && OctalText(bytes) + "" == OctalText(bytes);
    } else {
      var head, rest := OctalText(bytes[..16]), bytes[16..];
      LinesOfSixteen(rest);
      TextLength(bytes[..16]);
      TextSplit(bytes[..16], rest);
      assert bytes == bytes[..16] + rest;
      SomeLines(rest);
      LongerBy(head, OctalLines(rest));
    }
  }

  lemma {:induction false} SomeLines(bytes: seq<Byte>)
    requires bytes != []
    ensures OctalLines(bytes) != []
  {
  }

  lemma {:induction false} LongerBy(head: Line, lines: seq<Line>)
    requires lines != []
    ensures var all := [head] + lines;
            && Concatenated(all) == head + Concatenated(lines) && all[|all| - 1] == lines[|lines| - 1]
            && forall i :: 1 <= i < |all| - 1 ==> all[i] == lines[i - 1]
  {
    assert ([head] + lines)[1..] == lines;
  }

  /** A field on one line. */
  lemma {:induction false} TokenText()
    ensures FieldLines(Attribute("CKA_TOKEN", Plain("CK_BBOOL")), Text("CK_TRUE")) == ["CKA_TOKEN CK_BBOOL CK_TRUE"]
  {
    assert "CK_BBOOL"[3] == 'B' && "MULTILINE_OCTAL"[3] == 'T';
    assert "CKA_TOKEN" + " " + "CK_BBOOL" + " " + "CK_TRUE" == "CKA_TOKEN CK_BBOOL CK_TRUE";
  }

  /** One byte of a certificate. */
  lemma {:induction false} ValueText()
    ensures FieldLines(Attribute("CKA_VALUE", Octal), Bytes([255])) == ["CKA_VALUE MULTILINE_OCTAL", "\\377", "END"]
  {
    assert "CKA_VALUE" + " " + "MULTILINE_OCTAL" == "CKA_VALUE MULTILINE_OCTAL";
    assert [255][1..] == [] && OctalText([255]) == OctalByte(255) + "" == "\\377";
    assert OctalLines([255]) == ["\\377"];
  }

  /** A distrust field that is not set is a boolean. */
  lemma {:induction false} DistrustText()
    ensures FieldLines(Attribute("CKA_DISTRUST", Distrust), Text("CK_FALSE")) == ["CKA_DISTRUST CK_BBOOL CK_FALSE"]
  {
    assert "CK_BBOOL"[3] == 'B' && "MULTILINE_OCTAL"[3] == 'T';
    assert "CKA_DISTRUST" + " " + "CK_BBOOL" + " " + "CK_FALSE" == "CKA_DISTRUST CK_BBOOL CK_FALSE";
  }

  /** The labels tried for a taken one: without its quotes the number stands behind it and a blank. */
  lemma {:induction false} CandidateTexts(base: string, n: nat)
    ensures StripQuotes(Candidate(base, n)) == Some(if n == 0 then base else base + " " + NatToString(n))
    ensures Candidate(base, n)[0] == '"' && Candidate(base, n)[|Candidate(base, n)| - 1] == '"'
  {
    CandidateStrips(base, n);
    var c := Candidate(base, n);
    var inner := if n == 0 then base else base + " " + NatToString(n);
    assert c == "\"" + inner + "\"";
    assert c[1..|c| - 1] == inner;
  }
}

module CatalogueSpelling {
  import opened PoCatalogue

  /** A message with one reference, and the empty line behind it. */
  lemma {:induction false} MessageTexts(m: Message)
    requires m == Message("\"a\"", "\"b\"", ["#: f"])
    ensures MessageText(m) == "#: f\n" + "msgid \"a\"\n" + "msgstr \"b\"\n"
    ensures FileText([m]) == MessageText(m) + "\n"
  {
    assert [m][..0] == [] && ["#: f"][..0] == [];
    assert RefLines(["#: f"]) == "" + ("#: f" + "\n");
    assert "" + ("#: f" + "\n") == "#: f\n";
    assert FileText([m]) == "" + (MessageText(m) + "\n");
  }
}

module YamlSpelling {
  import opened Wrappers
  import opened YamlBlocks

  /** The line and the block that a package gets. */
  lemma {:induction false} ProductTexts()
    ensures ProductLine("p") == "  private_product: p\n"
    ensures NewBlock("gcc", ProductLine("p")) == ["gcc:\n", "  private_product: p\n"]
  {
    assert "  private_product: " + "p" + "\n" == "  private_product: p\n";
    assert "gcc" + ":" + "\n" == "gcc:\n";
  }
}

module FileListSpelling {
  import opened Classification
  import opened FileListText
  import opened RpmEscape

  lemma {:induction false} TwoParts()
    ensures PathText(["usr", "a"]) == "/usr/a" && Escape("/usr/a") == "/usr/a"
  {
    assert ["usr", "a"][1..] == ["a"] && ["a"][1..] == [];
    assert Parts(["a"]) == "/" + "a" + "" == "/a";
    assert Parts(["usr", "a"]) == "/" + "usr" + "/a" == "/usr/a";
    EscapeKeeps("/usr/a");
  }

  /** The lines of the directory, the license and the catalogue `/usr/a`. */
  lemma {:induction false} LineTexts(pyver: string)
    ensures LineText(DirLine(["usr", "a"]), pyver) == "%dir " + "/usr/a"
    ensures LineText(LicenseLine(["usr", "a"]), pyver) == "%license " + "/usr/a"
    ensures LineText(LangLine("de", ["usr", "a"]), pyver) == "%lang(de) " + "/usr/a"
  {
    TwoParts();
    assert "/usr/a" + "" == "/usr/a";
    assert "%lang(" + "de" + ") " == "%lang(de) ";
  }

  /** A man page is listed with a star, whatever it is compressed with. */
  lemma {:induction false} ManPageText(pyver: string)
    ensures LineText(Plain(Compressed(["usr"], "a")), pyver) == "/usr/a" + "*"
  {
    TwoParts();
    assert ["usr"] + ["a"] == ["usr", "a"];
    assert "" + ("/usr/a" + "*") == "/usr/a" + "*";
  }

  /** A path without percent signs and special characters is written as it is. */
  lemma {:induction false} EscapeKeeps(s: string)
    requires forall i :: 0 <= i < |s| ==> s[i] != '%' && s[i] !in SPECIAL
    ensures Escape(s) == s
  {
    if s != "" {
      EscapeKeeps(s[1..]);
      EscapeFirst(s);
      assert s == [s[0]] + s[1..];
    }
  }

  /** The bytecode of `/a/b.py` for Python 3.11 is in the cache directory, in all its optimisation levels. */
  lemma {:induction false} BytecodeText()
    ensures ItemPath(Bytecode(["a", "b.py"]), "311") == ["a", "__pycache__", "b.cpython-311"]
    ensures Glob(Bytecode(["a", "b.py"])) == "{,.opt-?}.pyc"
  {
    DotAt("b", "py");
    assert "b" + "." + "py" == "b.py";
    assert ["a", "b.py"][..1] == ["a"];
    assert "b" + ".cpython-" + "311" == "b.cpython-311";
    assert ["a"] + ["__pycache__", "b.cpython-311"] == ["a", "__pycache__", "b.cpython-311"];
  }

  /** What separates paths, begins a glob or quotes in a file list. */
  predicate IsActive(c: char) {
    c == ' ' || c == '\n' || c == '\t' || c == '[' || c == ']' || c == '{' || c == '}'
    || c == '*' || c == '?' || c == '!' || c == '"'
  }

  /** Behind the expansion of the macros, no such character is without a backslash in front of it. */
  lemma {:induction false} NothingActiveIsBare(path: string, i: nat)
    requires i < |Expanded(Escape(path))| && IsActive(Expanded(Escape(path))[i])
    ensures i > 0 && Expanded(Escape(path))[i - 1] == '\\'
  {
    DoubledExpands(path, "");
    assert Escape(path) + "" == Escape(path) && Backslashed(path) + "" == Backslashed(path);
    BackslashInFront(path, i);
  }

  lemma {:induction false} BackslashInFront(s: string, i: nat)
    requires i < |Backslashed(s)| && IsActive(Backslashed(s)[i])
    ensures i > 0 && Backslashed(s)[i - 1] == '\\'
  {
    var rest := Backslashed(s[1..]);
    if s[0] in SPECIAL {
      assert Backslashed(s) == ['\\', s[0]] + rest;
      if i >= 2 {
        BackslashInFront(s[1..], i - 2);
      }
    } else {
      assert Backslashed(s) == [s[0]] + rest;
      if i >= 1 {
        BackslashInFront(s[1..], i - 1);
      }
    }
  }
}

module ZoneSpelling {
  import opened Wrappers
  import opened ZoneModel

  /** A record is kept under its time to live and its type, with its value. */
  lemma {:induction false} RecordTexts()
    ensures RecordOf(Call("@", "A", "60", "10.0.0.1")) == Record("60 A", "10.0.0.1")
  {
    assert "60" + " " + "A" == "60 A";
  }

  lemma {:induction false} OneCall(c: Call)
    requires Effective(c)
    ensures PutAll([c]) == [(c.name, [RecordOf(c)])]
  {
    assert [c][..0] == [] && PutAll([]) == [];
    assert [] + [RecordOf(c)] == [RecordOf(c)] && [RecordOf(c)] + [] == [RecordOf(c)];
    var entry := (c.name, [RecordOf(c)]);
    assert [] + [entry] == [entry] && [entry] + [] == [entry];
  }

  /** Of two calls for one name, an SOA record goes in front, anything else behind. */
  lemma {:induction false} TwoCalls(a: Call, b: Call)
    requires Effective(a) && Effective(b) && a.name == b.name
    ensures PutAll([a, b]) ==
            [(a.name, if b.kind == "SOA" then [RecordOf(b), RecordOf(a)] else [RecordOf(a), RecordOf(b)])]
  {
    OneCall(a);
    assert [a, b][..1] == [a];
    assert IndexOf(PutAll([a]), b.name) == Some(0);
    assert [RecordOf(b)] + [RecordOf(a)] == [RecordOf(b), RecordOf(a)];
    assert [RecordOf(a)] + [RecordOf(b)] == [RecordOf(a), RecordOf(b)];
  }
}
