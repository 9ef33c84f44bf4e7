/** Classifying the recorded files of a Python package, and the `%files` list made from the classes. */
module Classification {
  import opened Wrappers
  import opened Text

  /** The parts of an absolute path below the root. */
  type Path = seq<string>

  function Name(p: Path): string { if p == [] then "" else p[|p| - 1] }

  function Parent(p: Path): Path { if p == [] then [] else p[..|p| - 1] }

  /** `parent in path.parents`. */
  predicate Above(parent: Path, p: Path) { parent < p }

  /** Where the suffix of a file name begins: at its last dot, unless that is the first or the last character. */
  function Dot(name: string): (i: nat)
    ensures i <= |name|
  {
    var i := LastIndex(name, '.');
    if i.Some? && 0 < i.value < |name| - 1 then i.value else |name|
  }

  function Suffix(name: string): string { name[Dot(name)..] }

  function Stem(name: string): string { name[..Dot(name)] }

  datatype Kind = Extension | Stub | Script | Package

  /** A file line: one path, the bytecode of a script, or every file of a directory whose name begins alike. */
  datatype Item = Exact(path: Path) | Bytecode(script: Path) | Compressed(dir: Path, stem: string)

  datatype Module = Module(kind: Kind, files: set<Item>, dirs: set<Path>)

  type Modules = map<string, seq<Module>>

  type Langs = map<Option<string>, map<string, seq<Path>>>

  /** What the classification is given: dist-info, license files, site directories and man page directories. */
  datatype Config = Config(distinfo: Path, licenseFiles: seq<string>, sitedirs: seq<Path>, mandirs: set<Path>)

  datatype Sorted = Sorted(
    metadataFiles: seq<Path>, metadataDirs: seq<Path>, licenses: seq<Path>,
    lang: Langs, modules: Modules, other: seq<Item>)

  // ----- adding to modules -----

  datatype Addition = Files(files: set<Item>) | Dirs(dirs: set<Path>)

  function Grown(m: Module, a: Addition): Module {
    match a
    case Files(files) => m.(files := m.files + files)
    case Dirs(dirs) => m.(dirs := m.dirs + dirs)
  }

  function OfKind(ms: seq<Module>, kind: Kind): (i: Option<nat>)
    ensures i.Some? ==> i.value < |ms| && ms[i.value].kind == kind && forall j :: 0 <= j < i.value ==> ms[j].kind != kind
    ensures i.None? ==> forall j :: 0 <= j < |ms| ==> ms[j].kind != kind
  {
    if ms == [] then None
    else
      var before := OfKind(ms[..|ms| - 1], kind);
      assert forall j :: 0 <= j < |ms| - 1 ==> ms[..|ms| - 1][j] == ms[j];
      if before.Some? then before else if ms[|ms| - 1].kind == kind then Some(|ms| - 1) else None
  }

  /** The first module of the kind grows; there is one more module when none has the kind. */
  function AddTo(ms: seq<Module>, kind: Kind, a: Addition): seq<Module> {
    var i := OfKind(ms, kind);
    if i.Some? then ms[i.value := Grown(ms[i.value], a)] else ms + [Grown(Module(kind, {}, {}), a)]
  }

  function Get(modules: Modules, name: string): seq<Module> { if name in modules then modules[name] else [] }

  function AddToModule(modules: Modules, name: string, kind: Kind, a: Addition): Modules {
    modules[name := AddTo(Get(modules, name), kind, a)]
  }

  // ----- languages -----

  /** How many leading parts end in `LC_MESSAGES`, for the parent nearest to the file. */
  function MessagesAt(p: Path, n: nat): (k: nat)
    requires n <= |p|
    ensures k <= n && (k > 0 ==> p[k - 1] == "LC_MESSAGES")
    ensures forall j :: k <= j < n ==> p[j] != "LC_MESSAGES"
  {
    if n == 0 || p[n - 1] == "LC_MESSAGES" then n else MessagesAt(p, n - 1)
  }

  function BeforeUnderscore(s: string): string {
    var i := FindFrom(s, "_", 0);
    if i.None? then s else s[..i.value]
  }

  /** The language of a message catalogue: the directory above its `LC_MESSAGES`, without the country. */
  function LangCode(p: Path): Option<string> {
    var k := MessagesAt(p, |Parent(p)|);
    if k == 0 then None else Some(BeforeUnderscore(if k >= 2 then p[k - 2] else ""))
  }

  predicate IsCatalogue(p: Path) { Suffix(Name(p)) in {".mo", ".qm"} }

  function GetLang(lang: Langs, name: Option<string>, code: string): seq<Path> {
    if name in lang && code in lang[name] then lang[name][code] else []
  }

  function AddLang(lang: Langs, name: Option<string>, code: string, p: Path): Langs {
    var codes := if name in lang then lang[name] else map[];
    lang[name := codes[code := GetLang(lang, name, code) + [p]]]
  }

  // ----- one path -----

  function Slashed(parts: Path): string {
    if parts == [] then "." else if |parts| == 1 then parts[0] else Slashed(parts[..|parts| - 1]) + "/" + parts[|parts| - 1]
  }

  predicate IsLicenseIn(p: Path, dir: Path, files: seq<string>) { dir <= p && Slashed(p[|dir|..]) in files }

  predicate IsLicense(cfg: Config, p: Path) {
    IsLicenseIn(p, cfg.distinfo + ["licenses"], cfg.licenseFiles) || IsLicenseIn(p, cfg.distinfo, cfg.licenseFiles)
  }

  /** The first site directory that the path is below. */
  function Site(sitedirs: seq<Path>, p: Path): (s: Option<Path>)
    ensures s.Some? ==> s.value in sitedirs && Above(s.value, p)
    ensures s.None? ==> forall i :: 0 <= i < |sitedirs| ==> !Above(sitedirs[i], p)
  {
    if sitedirs == [] then None
    else if Above(sitedirs[0], p) then Some(sitedirs[0])
    else Site(sitedirs[1..], p)
  }

  const MANPAGE_EXTENSIONS := {".gz", ".Z", ".bz2", ".xz", ".lzma", ".zst", ".zstd"}

  /** A man page is listed without its extension, with a star. */
  function ManPage(cfg: Config, p: Path): Item {
    if Parent(p) in cfg.mandirs && Name(p) != "dir" then
      Compressed(Parent(p), if Suffix(Name(p)) in MANPAGE_EXTENSIONS then Stem(Name(p)) else Name(p))
    else Exact(p)
  }

  /** The name of an extension module, which can have two suffixes. */
  function ExtensionName(name: string): string { if Stem(name) == "." then "" else Stem(Stem(name)) }

  /** The one place a recorded path belongs to. */
  datatype Place =
    | Skipped
    | License
    | Metadata
    | InModule(name: string, kind: Kind)
    | Lang(module_: Option<string>, code: string)
    | Other

  function PlaceBelow(s: Path, p: Path): Place
    requires Above(s, p)
  {
    var suffix := Suffix(Name(p));
    if Parent(p) == s then
      if suffix == ".so" then InModule(ExtensionName(Name(p)), Extension)
      else if suffix == ".pyi" then InModule(Stem(Name(p)), Stub)
      else if suffix == ".py" then InModule(Stem(Name(p)), Script)
      else Other
    else if IsCatalogue(p) && LangCode(p).Some? then Lang(Some(p[|s|]), LangCode(p).value)
    else InModule(p[|s|], Package)
  }

  function PlaceOf(cfg: Config, p: Path): Place {
    if Suffix(Name(p)) == ".pyc" then Skipped
    else if Above(cfg.distinfo, p) then
      if Parent(p) == cfg.distinfo && Name(p) in {"RECORD", "REQUESTED"} then Skipped
      else if IsLicense(cfg, p) then License
      else Metadata
    else match Site(cfg.sitedirs, p)
      case Some(s) => PlaceBelow(s, p)
      case None => if IsCatalogue(p) && LangCode(p).Some? then Lang(None, LangCode(p).value) else Other
  }

  /** How a path among the other files is listed: man pages with a star, unless they are in a site directory. */
  function ItemOf(cfg: Config, p: Path): Item {
    if PlaceOf(cfg, p) == Other && Site(cfg.sitedirs, p).None? && !IsCatalogue(p) then ManPage(cfg, p) else Exact(p)
  }

  /** The directories between two lengths of a path. */
  function Prefixes(p: Path, lo: nat, hi: nat): set<Path>
    requires hi <= |p|
  {
    set n | lo <= n < hi :: p[..n]
  }

  /** The package that owns the directories of a path, when it is inside one. */
  function Owner(cfg: Config, p: Path): Option<(string, nat)> {
    var s := Site(cfg.sitedirs, p);
    if Suffix(Name(p)) == ".pyc" || Above(cfg.distinfo, p) || s.None? || Parent(p) == s.value then None
    else Some((p[|s.value|], |s.value|))
  }

  function PycacheDir(p: Path): Path { Parent(p) + ["__pycache__"] }

  function AddMissing(dirs: seq<Path>, p: Path, n: nat, lo: nat): seq<Path>
    requires n <= |p|
    decreases n
  {
    if n <= lo then dirs
    else
      var d := p[..n];
      AddMissing(if d in dirs then dirs else dirs + [d], p, n - 1, lo)
  }

  function AddScript(modules: Modules, name: string, kind: Kind, p: Path, withDir: bool): Modules {
    var added := AddToModule(modules, name, kind, Files({Exact(p), Bytecode(p)}));
    if withDir then AddToModule(added, name, kind, Dirs({PycacheDir(p)})) else added
  }

  function AfterMetadata(cfg: Config, st: Sorted, p: Path): Sorted
    requires Above(cfg.distinfo, p)
  {
    if Parent(p) == cfg.distinfo && Name(p) in {"RECORD", "REQUESTED"} then st
    else
      var listed := if IsLicense(cfg, p) then st.(licenses := st.licenses + [p])
                    else st.(metadataFiles := st.metadataFiles + [p]);
      listed.(metadataDirs := AddMissing(st.metadataDirs, p, |p| - 1, |cfg.distinfo|))
  }

  function AfterTopLevel(st: Sorted, p: Path): Sorted {
    var name, suffix := Name(p), Suffix(Name(p));
    if suffix == ".so" then
      st.(modules := AddToModule(st.modules, ExtensionName(name), Extension, Files({Exact(p)})))
    else if suffix == ".pyi" then st.(modules := AddToModule(st.modules, Stem(name), Stub, Files({Exact(p)})))
    else if suffix == ".py" then st.(modules := AddScript(st.modules, Stem(name), Script, p, false))
    else st.(other := st.other + [Exact(p)])
  }

  function AfterNested(st: Sorted, s: Path, p: Path): Sorted
    requires Above(s, p)
  {
    var name := p[|s|];
    NestedFile(st.(modules := WithDirs(st.modules, name, p, |s| + 1)), name, p)
  }

  /** The package once it owns the directories of the path from a length on. */
  function WithDirs(modules: Modules, name: string, p: Path, lo: nat): Modules {
    AddToModule(modules, name, Package, Dirs(Prefixes(p, lo, |p|)))
  }

  function NestedFile(st: Sorted, name: string, p: Path): Sorted {
    if IsCatalogue(p) && LangCode(p).Some? then st.(lang := AddLang(st.lang, Some(name), LangCode(p).value, p))
    else if Suffix(Name(p)) == ".py" then st.(modules := AddScript(st.modules, name, Package, p, true))
    else st.(modules := AddToModule(st.modules, name, Package, Files({Exact(p)})))
  }

  function AfterElsewhere(cfg: Config, st: Sorted, p: Path): Sorted {
    if IsCatalogue(p) then
      if LangCode(p).Some? then st.(lang := AddLang(st.lang, None, LangCode(p).value, p))
      else st.(other := st.other + [Exact(p)])
    else st.(other := st.other + [ManPage(cfg, p)])
  }

  function AfterPath(cfg: Config, st: Sorted, p: Path): Sorted {
    if Suffix(Name(p)) == ".pyc" then st
    else if Above(cfg.distinfo, p) then AfterMetadata(cfg, st, p)
    else match Site(cfg.sitedirs, p)
      case Some(s) => if Parent(p) == s then AfterTopLevel(st, p) else AfterNested(st, s, p)
      case None => AfterElsewhere(cfg, st, p)
  }

  function Empty(cfg: Config): Sorted { Sorted([], [cfg.distinfo], [], map[], map[], []) }

  function Classified(cfg: Config, record: seq<Path>): Sorted {
    if record == [] then Empty(cfg)
    else AfterPath(cfg, Classified(cfg, record[..|record| - 1]), record[|record| - 1])
  }

  // ----- the classification as it fills its lists -----

  class Paths {
    var metadataFiles: seq<Path>
    var metadataDirs: seq<Path>
    var licenses: seq<Path>
    var lang: Langs
    var modules: Modules
    var other: seq<Item>

    ghost function State(): Sorted
      reads this
    {
      Sorted(metadataFiles, metadataDirs, licenses, lang, modules, other)
    }

    /** `classify_paths`: every recorded path in turn. */
    constructor (cfg: Config, record: seq<Path>)
      ensures State() == Classified(cfg, record)
    {
      metadataFiles, metadataDirs, licenses, lang, modules, other := [], [cfg.distinfo], [], map[], map[], [];
      new;
      for i := 0 to |record|
        invariant State() == Classified(cfg, record[..i])
      {
        assert record[..i + 1][..i] == record[..i];
        Classify(cfg, record[i]);
      }
      assert record[..|record|] == record;
    }

    method AddFileToModule(name: string, kind: Kind, a: Addition)
      modifies this`modules
      ensures modules == AddToModule(old(modules), name, kind, a)
    {
      var ms := Get(modules, name);
      var i := 0;
      while i < |ms| && ms[i].kind != kind
        invariant i <= |ms| && forall j :: 0 <= j < i ==> ms[j].kind != kind
      {
        i := i + 1;
      }
      if i < |ms| {
        ms := ms[i := Grown(ms[i], a)];
      } else {
        ms := ms + [Grown(Module(kind, {}, {}), a)];
      }
      modules := modules[name := ms];
    }

    method AddPyFileToModule(name: string, kind: Kind, p: Path, includePycacheDir: bool)
      modifies this`modules
      ensures modules == AddScript(old(modules), name, kind, p, includePycacheDir)
    {
      AddFileToModule(name, kind, Files({Exact(p), Bytecode(p)}));
      if includePycacheDir {
        AddFileToModule(name, kind, Dirs({PycacheDir(p)}));
      }
    }

    method AddLangToModule(name: Option<string>, p: Path) returns (found: bool)
      modifies this`lang
      ensures found == LangCode(p).Some?
      ensures lang == if found then AddLang(old(lang), name, LangCode(p).value, p) else old(lang)
    {
      var k := |Parent(p)|;
      while k > 0 && p[k - 1] != "LC_MESSAGES"
        invariant 0 <= k <= |Parent(p)| && MessagesAt(p, k) == MessagesAt(p, |Parent(p)|)
      {
        k := k - 1;
      }
      if k == 0 {
        return false;
      }
      var country := if k >= 2 then p[k - 2] else "";
      lang := AddLang(lang, name, BeforeUnderscore(country), p);
      found := true;
    }

    /** The body of the loop over the record. */
    method Classify(cfg: Config, p: Path)
      modifies this
      ensures State() == AfterPath(cfg, old(State()), p)
    {
      if Suffix(Name(p)) == ".pyc" {
        return;
      }
      if Above(cfg.distinfo, p) {
        ClassifyMetadata(cfg, p);
        return;
      }
      var i := 0;
      while i < |cfg.sitedirs| && !Above(cfg.sitedirs[i], p)
        invariant i <= |cfg.sitedirs| && Site(cfg.sitedirs, p) == Site(cfg.sitedirs[i..], p)
      {
        i := i + 1;
      }
      if i < |cfg.sitedirs| {
        var sitedir := cfg.sitedirs[i];
        if Parent(p) == sitedir {
          ClassifyTopLevel(p);
        } else {
          ClassifyNested(sitedir, p);
        }
      } else {
        ClassifyElsewhere(cfg, p);
      }
    }

    method ClassifyMetadata(cfg: Config, p: Path)
      requires Above(cfg.distinfo, p)
      modifies this
      ensures State() == AfterMetadata(cfg, old(State()), p)
    {
      if Parent(p) == cfg.distinfo && Name(p) in {"RECORD", "REQUESTED"} {
        return;
      }
      if IsLicense(cfg, p) {
        licenses := licenses + [p];
      } else {
        metadataFiles := metadataFiles + [p];
      }
      AddMetadataDirs(p, |cfg.distinfo|);
    }

    /** The directories nested in dist-info, each once. */
    method AddMetadataDirs(p: Path, lo: nat)
      requires lo < |p|
      modifies this`metadataDirs
      ensures metadataDirs == AddMissing(old(metadataDirs), p, |p| - 1, lo)
    {
      var n := |p| - 1;
      while n > lo
        invariant lo <= n <= |p| - 1
        invariant AddMissing(metadataDirs, p, n, lo) == AddMissing(old(metadataDirs), p, |p| - 1, lo)
      {
        if p[..n] !in metadataDirs {
          metadataDirs := metadataDirs + [p[..n]];
        }
        n := n - 1;
      }
    }

    method ClassifyTopLevel(p: Path)
      modifies this
      ensures State() == AfterTopLevel(old(State()), p)
    {
      if Suffix(Name(p)) == ".so" {
        AddFileToModule(ExtensionName(Name(p)), Extension, Files({Exact(p)}));
      } else if Suffix(Name(p)) == ".pyi" {
        AddFileToModule(Stem(Name(p)), Stub, Files({Exact(p)}));
      } else if Suffix(Name(p)) == ".py" {
        AddPyFileToModule(Stem(Name(p)), Script, p, false);
      } else {
        other := other + [Exact(p)];
      }
    }

    method ClassifyNested(sitedir: Path, p: Path)
      requires Above(sitedir, p) && Parent(p) != sitedir
      modifies this
      ensures State() == AfterNested(old(State()), sitedir, p)
    {
      var name := p[|sitedir|];
      OwnDirectories(sitedir, p, name);
      AddNestedFile(name, p);
    }

    method AddNestedFile(name: string, p: Path)
      modifies this
      ensures State() == NestedFile(old(State()), name, p)
    {
      var isLang := false;
      if Suffix(Name(p)) == ".mo" || Suffix(Name(p)) == ".qm" {
        isLang := AddLangToModule(Some(name), p);
      }
      if !isLang {
        if Suffix(Name(p)) == ".py" {
          AddPyFileToModule(name, Package, p, true);
        } else {
          AddFileToModule(name, Package, Files({Exact(p)}));
        }
      }
    }

    /** All the directories upwards until the site directory. */
    method OwnDirectories(sitedir: Path, p: Path, name: string)
      requires Above(sitedir, p) && Parent(p) != sitedir
      modifies this`modules
      ensures modules == WithDirs(old(modules), name, p, |sitedir| + 1)
    {
      ParentBelow(sitedir, p);
      var n := |p| - 1;
      AddFileToModule(name, Package, Dirs({p[..n]}));
      FirstDir(old(modules), name, p, n);
      while n > |sitedir| + 1
        invariant |sitedir| + 1 <= n <= |p| - 1
        invariant modules == WithDirs(old(modules), name, p, n)
      {
        n := n - 1;
        OwnDirectory(p, name, n, old(modules));
      }
    }

    method OwnDirectory(p: Path, name: string, n: nat, ghost before: Modules)
      requires n < |p| && modules == WithDirs(before, name, p, n + 1)
      modifies this`modules
      ensures modules == WithDirs(before, name, p, n)
    {
      AddFileToModule(name, Package, Dirs({p[..n]}));
      OneDirMore(before, name, p, n);
    }

    method ClassifyElsewhere(cfg: Config, p: Path)
      modifies this
      ensures State() == AfterElsewhere(cfg, old(State()), p)
    {
      if Suffix(Name(p)) == ".mo" || Suffix(Name(p)) == ".qm" {
        var found := AddLangToModule(None, p);
        if !found {
          other := other + [Exact(p)];
        }
      } else {
        other := other + [ManPage(cfg, p)];
      }
    }
  }

  lemma {:induction false} ParentBelow(s: Path, p: Path)
    requires Above(s, p) && Parent(p) != s
    ensures |p| > |s| + 1
  {
    assert p[..|s|] == s;
  }

  lemma {:induction false} OnePrefixMore(p: Path, n: nat)
    requires n < |p|
    ensures Prefixes(p, n, |p|) == Prefixes(p, n + 1, |p|) + {p[..n]}
  {
  }

  lemma {:induction false} FirstDir(modules: Modules, name: string, p: Path, n: nat)
    requires n + 1 == |p|
    ensures AddToModule(modules, name, Package, Dirs({p[..n]})) == WithDirs(modules, name, p, n)
  {
    assert {p[..n]} == Prefixes(p, n, |p|);
  }

  lemma {:induction false} OneDirMore(modules: Modules, name: string, p: Path, n: nat)
    requires n < |p|
    ensures AddToModule(WithDirs(modules, name, p, n + 1), name, Package, Dirs({p[..n]})) == WithDirs(modules, name, p, n)
  {
    OnePrefixMore(p, n);
    AddDirsTwice(modules, name, Package, Prefixes(p, n + 1, |p|), {p[..n]});
  }

  lemma {:induction false} AddTwice(ms: seq<Module>, kind: Kind, a: set<Path>, b: set<Path>)
    ensures AddTo(AddTo(ms, kind, Dirs(a)), kind, Dirs(b)) == AddTo(ms, kind, Dirs(a + b))
  {
    var once := AddTo(ms, kind, Dirs(a));
    var i := OfKind(ms, kind);
    var k := if i.Some? then i.value else |ms|;
    assert once[k].kind == kind && forall j :: 0 <= j < k ==> once[j].kind != kind;
    assert OfKind(once, kind) == Some(k);
    assert Grown(Grown(once[k].(dirs := {}), Dirs(a)), Dirs(b)) == Grown(once[k].(dirs := {}), Dirs(a + b));
    if i.Some? {
      assert Grown(Grown(ms[k], Dirs(a)), Dirs(b)) == Grown(ms[k], Dirs(a + b)) by {
        assert ms[k].dirs + a + b == ms[k].dirs + (a + b);
      }
    } else {
      assert {} + a + b == {} + (a + b);
    }
  }

  lemma {:induction false} AddDirsTwice(modules: Modules, name: string, kind: Kind, a: set<Path>, b: set<Path>)
    ensures AddToModule(AddToModule(modules, name, kind, Dirs(a)), name, kind, Dirs(b))
         == AddToModule(modules, name, kind, Dirs(a + b))
  {
    AddTwice(Get(modules, name), kind, a, b);
  }

  // ----- what ends up in each module -----

  /** The item is among the files of a module of the kind. */
  predicate FileIn(ms: seq<Module>, kind: Kind, item: Item) {
    ms != [] && (FileIn(ms[..|ms| - 1], kind, item) || (ms[|ms| - 1].kind == kind && item in ms[|ms| - 1].files))
  }

  predicate DirIn(ms: seq<Module>, kind: Kind, d: Path) {
    ms != [] && (DirIn(ms[..|ms| - 1], kind, d) || (ms[|ms| - 1].kind == kind && d in ms[|ms| - 1].dirs))
  }

  predicate NewFile(a: Addition, item: Item) { a.Files? && item in a.files }

  predicate NewDir(a: Addition, d: Path) { a.Dirs? && d in a.dirs }

  lemma {:induction false} GrownViews(ms: seq<Module>, i: nat, a: Addition, kind: Kind, item: Item, d: Path)
    requires i < |ms|
    ensures var after := ms[i := Grown(ms[i], a)];
            && (FileIn(after, kind, item) <==> FileIn(ms, kind, item) || (ms[i].kind == kind && NewFile(a, item)))
            && (DirIn(after, kind, d) <==> DirIn(ms, kind, d) || (ms[i].kind == kind && NewDir(a, d)))
  {
    var after := ms[i := Grown(ms[i], a)];
    if i == |ms| - 1 {
      assert after[..i] == ms[..i];
    } else {
      assert after[..|ms| - 1] == ms[..|ms| - 1][i := Grown(ms[i], a)];
      GrownViews(ms[..|ms| - 1], i, a, kind, item, d);
    }
  }

  lemma {:induction false} AddToViews(ms: seq<Module>, at: Kind, a: Addition, kind: Kind, item: Item, d: Path)
    ensures var after := AddTo(ms, at, a);
            && (FileIn(after, kind, item) <==> FileIn(ms, kind, item) || (at == kind && NewFile(a, item)))
            && (DirIn(after, kind, d) <==> DirIn(ms, kind, d) || (at == kind && NewDir(a, d)))
  {
    var i := OfKind(ms, at);
    if i.Some? {
      GrownViews(ms, i.value, a, kind, item, d);
    } else {
      var m := Grown(Module(at, {}, {}), a);
      assert (ms + [m])[..|ms|] == ms;
    }
  }

  predicate HasFile(modules: Modules, name: string, kind: Kind, item: Item) { FileIn(Get(modules, name), kind, item) }

  predicate HasDir(modules: Modules, name: string, kind: Kind, d: Path) { DirIn(Get(modules, name), kind, d) }

  lemma {:induction false} ModuleViews(
    modules: Modules, at: string, k: Kind, a: Addition, name: string, kind: Kind, item: Item, d: Path)
    ensures var after, here := AddToModule(modules, at, k, a), at == name && k == kind;
            && (HasFile(after, name, kind, item) <==> HasFile(modules, name, kind, item) || (here && NewFile(a, item)))
            && (HasDir(after, name, kind, d) <==> HasDir(modules, name, kind, d) || (here && NewDir(a, d)))
  {
    GetAdded(modules, at, k, a, name);
    if at == name {
      AddToViews(Get(modules, at), k, a, kind, item, d);
    }
  }

  lemma {:induction false} GetAdded(modules: Modules, at: string, k: Kind, a: Addition, name: string)
    ensures Get(AddToModule(modules, at, k, a), name) ==
            if at == name then AddTo(Get(modules, at), k, a) else Get(modules, name)
  {
  }

  /** A path itself, with its bytecode when it is a Python file. */
  function ItemsFor(p: Path): set<Item> { if Suffix(Name(p)) == ".py" then {Exact(p), Bytecode(p)} else {Exact(p)} }

  /** What a path adds to the files of a module, by its place. */
  predicate GivesFile(place: Place, p: Path, name: string, kind: Kind, item: Item) {
    place == InModule(name, kind) && item in ItemsFor(p)
  }

  /** What a path inside a package adds to its directories. */
  predicate GivesDirAt(own: string, lo: nat, p: Path, name: string, kind: Kind, d: Path) {
    own == name && kind == Package && (d in Prefixes(p, lo + 1, |p|) || (Suffix(Name(p)) == ".py" && d == PycacheDir(p)))
  }

  predicate GivesDir(cfg: Config, p: Path, name: string, kind: Kind, d: Path) {
    var owner := Owner(cfg, p);
    owner.Some? && GivesDirAt(owner.value.0, owner.value.1, p, name, kind, d)
  }

  /** The files and directories of one module before and after, seen through one file and one directory. */
  ghost predicate Gains(
    before: Modules, after: Modules, name: string, kind: Kind, item: Item, d: Path, newFile: bool, newDir: bool)
  {
    && (HasFile(after, name, kind, item) <==> HasFile(before, name, kind, item) || newFile)
    && (HasDir(after, name, kind, d) <==> HasDir(before, name, kind, d) || newDir)
  }

  lemma {:induction false} TopLevelIsOneAddition(st: Sorted, s: Path, p: Path)
    requires Above(s, p) && Parent(p) == s
    ensures var place, after := PlaceBelow(s, p), AfterTopLevel(st, p).modules;
            if place.InModule? then after == AddToModule(st.modules, place.name, place.kind, Files(ItemsFor(p)))
            else after == st.modules
  {
  }

  lemma {:induction false} TopLevelGains(st: Sorted, s: Path, p: Path, name: string, kind: Kind, item: Item, d: Path)
    requires Above(s, p) && Parent(p) == s
    ensures Gains(st.modules, AfterTopLevel(st, p).modules, name, kind, item, d,
                  GivesFile(PlaceBelow(s, p), p, name, kind, item), false)
  {
    var place := PlaceBelow(s, p);
    TopLevelIsOneAddition(st, s, p);
    if place.InModule? {
      ModuleViews(st.modules, place.name, place.kind, Files(ItemsFor(p)), name, kind, item, d);
    }
  }

  /** The modules after a nested path: its directories, then itself unless it is a translation, then its cache. */
  lemma {:induction false} NestedIsAdditions(st: Sorted, s: Path, p: Path)
    requires Above(s, p) && Parent(p) != s
    ensures var own, after := p[|s|], AfterNested(st, s, p).modules;
            var owned := AddToModule(st.modules, own, Package, Dirs(Prefixes(p, |s| + 1, |p|)));
            var listed := AddToModule(owned, own, Package, Files(ItemsFor(p)));
            && (!PlaceBelow(s, p).InModule? ==> after == owned && Suffix(Name(p)) != ".py")
            && (PlaceBelow(s, p).InModule? ==>
                  && PlaceBelow(s, p) == InModule(own, Package)
                  && after == if Suffix(Name(p)) == ".py" then AddToModule(listed, own, Package, Dirs({PycacheDir(p)}))
                              else listed)
  {
  }

  lemma {:induction false} ListedGains(
    owned: Modules, own: string, p: Path, name: string, kind: Kind, item: Item, d: Path)
    ensures var listed, here := AddToModule(owned, own, Package, Files(ItemsFor(p))), own == name && kind == Package;
            var after := if Suffix(Name(p)) == ".py" then AddToModule(listed, own, Package, Dirs({PycacheDir(p)})) else listed;
            Gains(owned, after, name, kind, item, d,
                  here && item in ItemsFor(p), here && Suffix(Name(p)) == ".py" && d == PycacheDir(p))
  {
    var listed := AddToModule(owned, own, Package, Files(ItemsFor(p)));
    ModuleViews(owned, own, Package, Files(ItemsFor(p)), name, kind, item, d);
    ModuleViews(listed, own, Package, Dirs({PycacheDir(p)}), name, kind, item, d);
  }

  lemma {:induction false} NestedGains(st: Sorted, s: Path, p: Path, name: string, kind: Kind, item: Item, d: Path)
    requires Above(s, p) && Parent(p) != s
    ensures Gains(st.modules, AfterNested(st, s, p).modules, name, kind, item, d,
                  GivesFile(PlaceBelow(s, p), p, name, kind, item), GivesDirAt(p[|s|], |s|, p, name, kind, d))
  {
    var own, dirs := p[|s|], Dirs(Prefixes(p, |s| + 1, |p|));
    var owned := AddToModule(st.modules, own, Package, dirs);
    NestedIsAdditions(st, s, p);
    ModuleViews(st.modules, own, Package, dirs, name, kind, item, d);
    ListedGains(owned, own, p, name, kind, item, d);
  }

  lemma {:induction false} PlaceInSite(cfg: Config, s: Path, p: Path, name: string, kind: Kind, d: Path)
    requires Suffix(Name(p)) != ".pyc" && !Above(cfg.distinfo, p) && Site(cfg.sitedirs, p) == Some(s)
    ensures PlaceOf(cfg, p) == PlaceBelow(s, p)
    ensures GivesDir(cfg, p, name, kind, d) <==> Parent(p) != s && GivesDirAt(p[|s|], |s|, p, name, kind, d)
    ensures AfterPathIn(cfg, s, p)
  {
  }

  ghost predicate AfterPathIn(cfg: Config, s: Path, p: Path)
    requires Above(s, p)
  {
    forall st: Sorted :: AfterPath(cfg, st, p) == if Parent(p) == s then AfterTopLevel(st, p) else AfterNested(st, s, p)
  }

  /** A path outside every site directory, or one that is not classified there, touches no module. */
  lemma {:induction false} OutsideGains(cfg: Config, st: Sorted, p: Path)
    requires Suffix(Name(p)) == ".pyc" || Above(cfg.distinfo, p) || Site(cfg.sitedirs, p).None?
    ensures AfterPath(cfg, st, p).modules == st.modules && !PlaceOf(cfg, p).InModule? && Owner(cfg, p).None?
  {
    if Suffix(Name(p)) != ".pyc" {
      if Above(cfg.distinfo, p) {
        assert AfterPath(cfg, st, p) == AfterMetadata(cfg, st, p);
      } else {
        assert AfterPath(cfg, st, p) == AfterElsewhere(cfg, st, p);
      }
    }
  }

  lemma {:induction false} PathGains(cfg: Config, st: Sorted, p: Path, name: string, kind: Kind, item: Item, d: Path)
    ensures Gains(st.modules, AfterPath(cfg, st, p).modules, name, kind, item, d,
                  GivesFile(PlaceOf(cfg, p), p, name, kind, item), GivesDir(cfg, p, name, kind, d))
  {
    var site := Site(cfg.sitedirs, p);
    if Suffix(Name(p)) == ".pyc" || Above(cfg.distinfo, p) || site.None? {
      OutsideGains(cfg, st, p);
    } else {
      PlaceInSite(cfg, site.value, p, name, kind, d);
      if Parent(p) == site.value {
        TopLevelGains(st, site.value, p, name, kind, item, d);
      } else {
        NestedGains(st, site.value, p, name, kind, item, d);
      }
    }
  }

  /** A path of the record gives the item, or the directory, to the module. */
  ghost predicate SomeGivesFile(cfg: Config, record: seq<Path>, name: string, kind: Kind, item: Item) {
    exists p :: p in record && GivesFile(PlaceOf(cfg, p), p, name, kind, item)
  }

  ghost predicate SomeGivesDir(cfg: Config, record: seq<Path>, name: string, kind: Kind, d: Path) {
    exists p :: p in record && GivesDir(cfg, p, name, kind, d)
  }

  lemma {:induction false} SplitLast<T>(s: seq<T>, x: T)
    requires s != []
    ensures x in s <==> x in s[..|s| - 1] || x == s[|s| - 1]
  {
    assert s == s[..|s| - 1] + [s[|s| - 1]];
  }

  lemma {:induction false} SomeGivesMore(
    cfg: Config, record: seq<Path>, name: string, kind: Kind, item: Item, d: Path)
    requires record != []
    ensures var init, last := record[..|record| - 1], record[|record| - 1];
            && (SomeGivesFile(cfg, record, name, kind, item) <==>
                  SomeGivesFile(cfg, init, name, kind, item) || GivesFile(PlaceOf(cfg, last), last, name, kind, item))
            && (SomeGivesDir(cfg, record, name, kind, d) <==>
                  SomeGivesDir(cfg, init, name, kind, d) || GivesDir(cfg, last, name, kind, d))
  {
    forall p: Path
      ensures p in record <==> p in record[..|record| - 1] || p == record[|record| - 1]
    {
      SplitLast(record, p);
    }
  }

  /** A module holds exactly the files and the directories that some recorded path gives it. */
  lemma {:induction false} ModulesHoldWhatIsGiven(
    cfg: Config, record: seq<Path>, name: string, kind: Kind, item: Item, d: Path)
    ensures var modules := Classified(cfg, record).modules;
            && (HasFile(modules, name, kind, item) <==> SomeGivesFile(cfg, record, name, kind, item))
            && (HasDir(modules, name, kind, d) <==> SomeGivesDir(cfg, record, name, kind, d))
  {
    if record != [] {
      var init, last := record[..|record| - 1], record[|record| - 1];
      ModulesHoldWhatIsGiven(cfg, init, name, kind, item, d);
      PathGains(cfg, Classified(cfg, init), last, name, kind, item, d);
      SomeGivesMore(cfg, record, name, kind, item, d);
    }
  }

  lemma {:induction false} GivesItself(place: Place, q: Path, name: string, kind: Kind, p: Path)
    ensures GivesFile(place, q, name, kind, Exact(p)) <==> q == p && place == InModule(name, kind)
    ensures GivesFile(place, q, name, kind, Bytecode(p)) <==>
            q == p && place == InModule(name, kind) && Suffix(Name(p)) == ".py"
  {
  }

  lemma {:induction false} SomeGivesItself(cfg: Config, record: seq<Path>, name: string, kind: Kind, p: Path)
    ensures SomeGivesFile(cfg, record, name, kind, Exact(p)) <==> p in record && PlaceOf(cfg, p) == InModule(name, kind)
    ensures SomeGivesFile(cfg, record, name, kind, Bytecode(p)) <==>
            p in record && PlaceOf(cfg, p) == InModule(name, kind) && Suffix(Name(p)) == ".py"
  {
    GivesItself(PlaceOf(cfg, p), p, name, kind, p);
    forall q: Path
      ensures GivesFile(PlaceOf(cfg, q), q, name, kind, Exact(p)) ==> q == p
      ensures GivesFile(PlaceOf(cfg, q), q, name, kind, Bytecode(p)) ==> q == p
    {
      GivesItself(PlaceOf(cfg, q), q, name, kind, p);
    }
  }

  /** A module lists exactly the recorded paths whose place it is, and the bytecode of the Python files among them. */
  lemma {:induction false} ModulesHoldTheirFiles(cfg: Config, record: seq<Path>, name: string, kind: Kind, p: Path)
    ensures var modules := Classified(cfg, record).modules;
            && (HasFile(modules, name, kind, Exact(p)) <==> p in record && PlaceOf(cfg, p) == InModule(name, kind))
            && (HasFile(modules, name, kind, Bytecode(p)) <==>
                  p in record && PlaceOf(cfg, p) == InModule(name, kind) && Suffix(Name(p)) == ".py")
  {
    ModulesHoldWhatIsGiven(cfg, record, name, kind, Exact(p), []);
    ModulesHoldWhatIsGiven(cfg, record, name, kind, Bytecode(p), []);
    SomeGivesItself(cfg, record, name, kind, p);
  }

  /**
   * For a recorded file inside a package, every directory strictly between the site directory and the file is
   * owned by the package, which is also where the file or its translation went.
   */
  lemma {:induction false} AncestorsAreOwned(cfg: Config, record: seq<Path>, p: Path, n: nat)
    requires p in record && Owner(cfg, p).Some? && Owner(cfg, p).value.1 < n < |p|
    ensures var name := Owner(cfg, p).value.0;
            && HasDir(Classified(cfg, record).modules, name, Package, p[..n])
            && (PlaceOf(cfg, p) == InModule(name, Package) ||
                (LangCode(p).Some? && PlaceOf(cfg, p) == Lang(Some(name), LangCode(p).value)))
  {
    var owner := Owner(cfg, p).value;
    assert p[..n] in Prefixes(p, owner.1 + 1, |p|);
    assert GivesDir(cfg, p, owner.0, Package, p[..n]);
    ModulesHoldWhatIsGiven(cfg, record, owner.0, Package, Exact(p), p[..n]);
  }

  // ----- the lists -----

  function Filter(cfg: Config, record: seq<Path>, place: Place): seq<Path> {
    if record == [] then []
    else
      Filter(cfg, record[..|record| - 1], place)
      + if PlaceOf(cfg, record[|record| - 1]) == place then [record[|record| - 1]] else []
  }

  function Items(cfg: Config, paths: seq<Path>): (r: seq<Item>)
    ensures |r| == |paths| && forall i :: 0 <= i < |paths| ==> r[i] == ItemOf(cfg, paths[i])
  {
    seq(|paths|, i requires 0 <= i < |paths| => ItemOf(cfg, paths[i]))
  }

  lemma {:induction false} FilterHolds(cfg: Config, record: seq<Path>, place: Place, p: Path)
    ensures p in Filter(cfg, record, place) <==> p in record && PlaceOf(cfg, p) == place
  {
    if record != [] {
      FilterHolds(cfg, record[..|record| - 1], place, p);
      SplitLast(record, p);
    }
  }

  lemma {:induction false} LangViews(lang: Langs, at: Option<string>, c: string, p: Path, name: Option<string>, code: string)
    ensures GetLang(AddLang(lang, at, c, p), name, code) ==
            GetLang(lang, name, code) + if at == name && c == code then [p] else []
  {
    if !(at == name && c == code) {
      assert GetLang(lang, name, code) + [] == GetLang(lang, name, code);
    }
  }

  ghost predicate AddsLang(cfg: Config, before: Langs, after: Langs, p: Path, name: Option<string>, code: string) {
    GetLang(after, name, code) ==
    GetLang(before, name, code) + if PlaceOf(cfg, p) == Lang(name, code) then [p] else []
  }

  /** The languages after one path: one more path under the place of a translation, else nothing new. */
  lemma {:induction false} PathAddsOneLang(cfg: Config, st: Sorted, p: Path)
    ensures var place, after := PlaceOf(cfg, p), AfterPath(cfg, st, p).lang;
            after == if place.Lang? then AddLang(st.lang, place.module_, place.code, p) else st.lang
  {
    var site := Site(cfg.sitedirs, p);
    if Suffix(Name(p)) != ".pyc" && !Above(cfg.distinfo, p) && site.Some? {
      PlaceInSite(cfg, site.value, p, "", Package, []);
    }
  }

  lemma {:induction false} PathAddsLang(cfg: Config, st: Sorted, p: Path, name: Option<string>, code: string)
    ensures AddsLang(cfg, st.lang, AfterPath(cfg, st, p).lang, p, name, code)
  {
    var place := PlaceOf(cfg, p);
    assert GetLang(st.lang, name, code) + [] == GetLang(st.lang, name, code);
    PathAddsOneLang(cfg, st, p);
    if place.Lang? {
      LangViews(st.lang, place.module_, place.code, p, name, code);
    }
  }

  /** Translations are listed under their module and language, in the order of the record. */
  lemma {:induction false} LangsHoldTheirFiles(cfg: Config, record: seq<Path>, name: Option<string>, code: string)
    ensures GetLang(Classified(cfg, record).lang, name, code) == Filter(cfg, record, Lang(name, code))
  {
    if record != [] {
      var init, last := record[..|record| - 1], record[|record| - 1];
      LangsHoldTheirFiles(cfg, init, name, code);
      PathAddsLang(cfg, Classified(cfg, init), last, name, code);
    }
  }

  function OneIf<T>(b: bool, x: T): seq<T> { if b then [x] else [] }

  ghost predicate AddsToLists(before: Sorted, after: Sorted, place: Place, p: Path, item: Item) {
    && after.metadataFiles == before.metadataFiles + OneIf(place == Metadata, p)
    && after.licenses == before.licenses + OneIf(place == License, p)
    && after.other == before.other + OneIf(place == Other, item)
  }

  lemma {:induction false} NothingAdded(before: Sorted, after: Sorted, place: Place, p: Path, item: Item)
    requires place !in {Metadata, License, Other}
    requires after.metadataFiles == before.metadataFiles && after.licenses == before.licenses
    requires after.other == before.other
    ensures AddsToLists(before, after, place, p, item)
  {
  }

  lemma {:induction false} SiteAddsToLists(cfg: Config, st: Sorted, s: Path, p: Path)
    requires Above(s, p)
    ensures var after := if Parent(p) == s then AfterTopLevel(st, p) else AfterNested(st, s, p);
            AddsToLists(st, after, PlaceBelow(s, p), p, Exact(p))
  {
    if Parent(p) != s {
      NothingAdded(st, AfterNested(st, s, p), PlaceBelow(s, p), p, Exact(p));
    } else if PlaceBelow(s, p) != Other {
      NothingAdded(st, AfterTopLevel(st, p), PlaceBelow(s, p), p, Exact(p));
    }
  }

  lemma {:induction false} ElsewhereAddsToLists(cfg: Config, st: Sorted, p: Path)
    requires Suffix(Name(p)) != ".pyc" && !Above(cfg.distinfo, p) && Site(cfg.sitedirs, p).None?
    ensures AddsToLists(st, AfterElsewhere(cfg, st, p), PlaceOf(cfg, p), p, ItemOf(cfg, p))
  {
    if IsCatalogue(p) && LangCode(p).Some? {
      NothingAdded(st, AfterElsewhere(cfg, st, p), PlaceOf(cfg, p), p, ItemOf(cfg, p));
    } else {
      assert PlaceOf(cfg, p) == Other;
    }
  }

  lemma {:induction false} PathAddsToLists(cfg: Config, st: Sorted, p: Path)
    ensures AddsToLists(st, AfterPath(cfg, st, p), PlaceOf(cfg, p), p, ItemOf(cfg, p))
  {
    var site := Site(cfg.sitedirs, p);
    if Suffix(Name(p)) == ".pyc" {
      NothingAdded(st, st, PlaceOf(cfg, p), p, ItemOf(cfg, p));
    } else if Above(cfg.distinfo, p) {
      if PlaceOf(cfg, p) == Skipped {
        NothingAdded(st, st, PlaceOf(cfg, p), p, ItemOf(cfg, p));
      }
    } else if site.Some? {
      PlaceInSite(cfg, site.value, p, "", Package, []);
      SiteAddsToLists(cfg, st, site.value, p);
    } else {
      ElsewhereAddsToLists(cfg, st, p);
    }
  }

  /** The other lists hold the paths of their place in the order of the record, each as often as it is recorded. */
  lemma {:induction false} ListsHoldTheirFiles(cfg: Config, record: seq<Path>)
    ensures var st := Classified(cfg, record);
            && st.metadataFiles == Filter(cfg, record, Metadata)
            && st.licenses == Filter(cfg, record, License)
            && st.other == Items(cfg, Filter(cfg, record, Other))
  {
    if record == [] {
      assert Items(cfg, []) == [];
    } else {
      var init, last := record[..|record| - 1], record[|record| - 1];
      ListsHoldTheirFiles(cfg, init);
      PathAddsToLists(cfg, Classified(cfg, init), last);
      ItemsOfMore(cfg, Filter(cfg, init, Other), last, PlaceOf(cfg, last) == Other);
    }
  }

  lemma {:induction false} ItemsOfMore(cfg: Config, paths: seq<Path>, p: Path, b: bool)
    ensures Items(cfg, paths + OneIf(b, p)) == Items(cfg, paths) + OneIf(b, ItemOf(cfg, p))
  {
  }

  /** Whether a path is in the list that a place stands for. */
  ghost predicate InBucket(cfg: Config, st: Sorted, place: Place, p: Path) {
    match place
    case Skipped => false
    case License => p in st.licenses
    case Metadata => p in st.metadataFiles
    case InModule(name, kind) => HasFile(st.modules, name, kind, Exact(p))
    case Lang(name, code) => p in GetLang(st.lang, name, code)
    case Other => ItemOf(cfg, p) in st.other
  }

  lemma {:induction false} ItemIsOfOther(cfg: Config, paths: seq<Path>, p: Path)
    requires Exact(p) in Items(cfg, paths)
    ensures p in paths
  {
    var i :| 0 <= i < |paths| && ItemOf(cfg, paths[i]) == Exact(p);
    assert paths[i] == p;
  }

  /** Every recorded path that is not skipped is in the bucket of its place and in no other one. */
  lemma {:induction false} ExactlyOneBucket(cfg: Config, record: seq<Path>, p: Path, place: Place)
    requires p in record
    ensures InBucket(cfg, Classified(cfg, record), place, p) <==> place == PlaceOf(cfg, p) && place != Skipped
  {
    var st := Classified(cfg, record);
    ListsHoldTheirFiles(cfg, record);
    FilterHolds(cfg, record, place, p);
    match place
    case InModule(name, kind) => ModulesHoldTheirFiles(cfg, record, name, kind, p);
    case Lang(name, code) => LangsHoldTheirFiles(cfg, record, name, code);
    case Other =>
      var others := Filter(cfg, record, Other);
      if p in others {
        var i :| 0 <= i < |others| && others[i] == p;
        assert Items(cfg, others)[i] == ItemOf(cfg, p);
      } else if ItemOf(cfg, p) in st.other {
        assert ItemOf(cfg, p) == Exact(p);
        ItemIsOfOther(cfg, others, p);
        assert false;
      }
    case _ =>
  }

  // ----- places and languages, by how paths are written -----

  lemma {:induction false} UnderscoreAt(s: string)
    ensures var code := BeforeUnderscore(s); '_' !in code && (s == code || code + "_" <= s)
  {
    var i := FindFrom(s, "_", 0);
    forall j | 0 <= j < |s|
      ensures OccursAt(s, "_", j) <==> s[j] == '_'
    {
      assert s[j..j + 1] == [s[j]];
    }
    if i.Some? {
      assert s[..i.value] + "_" == s[..i.value + 1];
    }
  }

  /** The directory above the nearest `LC_MESSAGES` gives the language, up to its first underscore. */
  lemma {:induction false} LangCodeOfPath(above: Path, lang: string, rest: Path, file: string)
    requires "LC_MESSAGES" !in rest
    ensures var code := LangCode(above + [lang, "LC_MESSAGES"] + rest + [file]);
            code.Some? && '_' !in code.value && (lang == code.value || code.value + "_" <= lang)
  {
    var p := above + [lang, "LC_MESSAGES"] + rest + [file];
    var k := |above| + 2;
    assert p[k - 1] == "LC_MESSAGES" && p[k - 2] == lang;
    assert forall j :: k <= j < |p| - 1 ==> p[j] == rest[j - k];
    MessagesAre(p, |p| - 1, k);
    UnderscoreAt(lang);
  }

  lemma {:induction false} MessagesAre(p: Path, n: nat, k: nat)
    requires 0 < k <= n <= |p| && p[k - 1] == "LC_MESSAGES" && forall j :: k <= j < n ==> p[j] != "LC_MESSAGES"
    ensures MessagesAt(p, n) == k
  {
    if n > k {
      MessagesAre(p, n - 1, k);
    }
  }

  /** Without an `LC_MESSAGES` directory there is no language. */
  lemma {:induction false} NoLangCode(p: Path)
    requires "LC_MESSAGES" !in Parent(p)
    ensures LangCode(p).None?
  {
    assert forall i :: 0 <= i < |Parent(p)| ==> Parent(p)[i] == p[i];
  }

  lemma {:induction false} DotAt(stem: string, ext: string)
    requires stem != "" && ext != "" && '.' !in ext
    ensures var name := stem + "." + ext; Suffix(name) == "." + ext && Stem(name) == stem
  {
    var name := stem + "." + ext;
    assert name[|stem|] == '.' && forall j :: |stem| < j < |name| ==> name[j] == ext[j - |stem| - 1];
    assert LastIndex(name, '.') == Some(|stem|);
    assert name[..|stem|] == stem && name[|stem|..] == "." + ext;
  }

  /** The first site directory that the path is below, and the path is outside dist-info. */
  predicate InSite(cfg: Config, s: Path, p: Path) { !Above(cfg.distinfo, p) && Site(cfg.sitedirs, p) == Some(s) }

  /** A file directly in a site directory is a module by its extension, or it is other. */
  lemma {:induction false} TopLevelPlaces(cfg: Config, s: Path, stem: string, ext: string)
    requires stem != "" && ext != "" && '.' !in ext && InSite(cfg, s, s + [stem + "." + ext])
    ensures PlaceOf(cfg, s + [stem + "." + ext]) ==
            if ext == "pyc" then Skipped
            else if ext == "py" then InModule(stem, Script)
            else if ext == "pyi" then InModule(stem, Stub)
            else if ext == "so" then InModule(ExtensionName(stem + "." + ext), Extension)
            else Other
  {
    var p := s + [stem + "." + ext];
    DotAt(stem, ext);
    assert Parent(p) == s && Name(p) == stem + "." + ext;
    assert "." + ext == ".pyc" <==> ext == "pyc" by { SameTail(".", ext, "pyc"); }
    assert "." + ext == ".py" <==> ext == "py" by { SameTail(".", ext, "py"); }
    assert "." + ext == ".pyi" <==> ext == "pyi" by { SameTail(".", ext, "pyi"); }
    assert "." + ext == ".so" <==> ext == "so" by { SameTail(".", ext, "so"); }
  }

  lemma {:induction false} SameTail(a: string, b: string, c: string)
    ensures a + b == a + c <==> b == c
  {
    assert (a + b)[|a|..] == b && (a + c)[|a|..] == c;
  }

  /** An extension module is named without both of its suffixes, one of them saying the interpreter. */
  lemma {:induction false} ExtensionNames(stem: string, tag: string)
    requires stem != "" && '.' !in stem && tag != "" && '.' !in tag
    ensures ExtensionName(stem + "." + tag + ".so") == stem && ExtensionName(stem + ".so") == stem
  {
    var tagged := stem + "." + tag;
    DotAt(tagged, "so");
    assert tagged + "." + "so" == tagged + ".so" && stem + "." + "so" == stem + ".so";
    DotAt(stem, tag);
    DotAt(stem, "so");
    NoDot(stem);
    assert |tagged| > 1;
  }

  lemma {:induction false} NoDot(s: string)
    requires '.' !in s
    ensures Stem(s) == s && Suffix(s) == ""
  {
    assert LastIndex(s, '.').None?;
  }

  /** A file deeper in a site directory belongs to the package it is in, unless it is a catalogue with a language. */
  lemma {:induction false} NestedPlaces(cfg: Config, s: Path, package: string, dirs: Path, file: string)
    requires InSite(cfg, s, s + [package] + dirs + [file])
    ensures var p := s + [package] + dirs + [file];
            PlaceOf(cfg, p) ==
            if Suffix(file) == ".pyc" then Skipped
            else if Suffix(file) in {".mo", ".qm"} && LangCode(p).Some? then Lang(Some(package), LangCode(p).value)
            else InModule(package, Package)
  {
    var p := s + [package] + dirs + [file];
    assert Name(p) == file && p[|s|] == package && |Parent(p)| > |s|;
  }

  /** A license file that the metadata names is found in dist-info itself and in its `licenses` directory. */
  lemma {:induction false} LicensePlaces(cfg: Config, file: string)
    requires file !in {"RECORD", "REQUESTED"} && Suffix(file) != ".pyc"
    ensures PlaceOf(cfg, cfg.distinfo + [file]) ==
            if file in cfg.licenseFiles || (file == "licenses" && "." in cfg.licenseFiles) then License else Metadata
    ensures PlaceOf(cfg, cfg.distinfo + ["licenses", file]) ==
            if file in cfg.licenseFiles || "licenses/" + file in cfg.licenseFiles then License else Metadata
  {
    var here, below := cfg.distinfo + [file], cfg.distinfo + ["licenses", file];
    assert Parent(here) == cfg.distinfo && here[|cfg.distinfo|..] == [file];
    assert Parent(below) == cfg.distinfo + ["licenses"] && below[|cfg.distinfo|..] == ["licenses", file];
    assert below[|cfg.distinfo| + 1..] == [file];
    assert ["licenses", file][..1] == ["licenses"] && Slashed(["licenses", file]) == "licenses" + "/" + file;
    assert "licenses" + "/" + file == "licenses/" + file;
    LicenseHere(cfg, file);
  }

  /** The empty rest of a path is written as a dot, which only a file called `licenses` leaves. */
  lemma {:induction false} LicenseHere(cfg: Config, file: string)
    ensures IsLicense(cfg, cfg.distinfo + [file]) <==>
            file in cfg.licenseFiles || (file == "licenses" && "." in cfg.licenseFiles)
  {
    var here := cfg.distinfo + [file];
    assert here[|cfg.distinfo|..] == [file];
    if cfg.distinfo + ["licenses"] <= here {
      assert here[|cfg.distinfo|] == "licenses";
      assert here[|cfg.distinfo| + 1..] == [];
    }
  }

  /** Outside dist-info and every site directory. */
  predicate Elsewhere(cfg: Config, p: Path) { !Above(cfg.distinfo, p) && Site(cfg.sitedirs, p).None? }

  /** A man page is listed without the suffix of a compression, any other suffix stays; other files are listed as they are. */
  lemma {:induction false} ManPagePlaces(cfg: Config, dir: Path, stem: string, ext: string)
    requires stem != "" && ext != "" && '.' !in ext && ext !in {"mo", "qm", "pyc"}
    requires Elsewhere(cfg, dir + [stem + "." + ext])
    ensures ItemOf(cfg, dir + [stem + "." + ext]) ==
            if dir !in cfg.mandirs then Exact(dir + [stem + "." + ext])
            else if ext in {"gz", "Z", "bz2", "xz", "lzma", "zst", "zstd"} then Compressed(dir, stem)
            else Compressed(dir, stem + "." + ext)
  {
    var p := dir + [stem + "." + ext];
    DotAt(stem, ext);
    assert Parent(p) == dir && Name(p) == stem + "." + ext;
    assert (stem + "." + ext)[|stem|] == '.' && '.' !in "dir";
    ExtensionAmong(ext);
  }

  lemma {:induction false} ExtensionAmong(ext: string)
    ensures "." + ext in MANPAGE_EXTENSIONS <==> ext in {"gz", "Z", "bz2", "xz", "lzma", "zst", "zstd"}
    ensures "." + ext in {".mo", ".qm"} <==> ext in {"mo", "qm"}
    ensures "." + ext == ".pyc" <==> ext == "pyc"
  {
    SameTail(".", ext, "gz");
    SameTail(".", ext, "Z");
    SameTail(".", ext, "bz2");
    SameTail(".", ext, "xz");
    SameTail(".", ext, "lzma");
    SameTail(".", ext, "zst");
    SameTail(".", ext, "zstd");
    SameTail(".", ext, "mo");
    SameTail(".", ext, "qm");
    SameTail(".", ext, "pyc");
    assert "." + "gz" == ".gz" && "." + "Z" == ".Z" && "." + "bz2" == ".bz2" && "." + "xz" == ".xz";
    assert "." + "lzma" == ".lzma" && "." + "zst" == ".zst" && "." + "zstd" == ".zstd";
    assert "." + "mo" == ".mo" && "." + "qm" == ".qm" && "." + "pyc" == ".pyc";
  }

  /** Of several site directories above a path the first one counts. */
  lemma {:induction false} FirstSiteCounts(sitedirs: seq<Path>, p: Path, i: nat)
    requires i < |sitedirs| && Above(sitedirs[i], p) && forall j :: 0 <= j < i ==> !Above(sitedirs[j], p)
    ensures Site(sitedirs, p) == Some(sitedirs[i])
  {
    if i > 0 {
      FirstSiteCounts(sitedirs[1..], p, i - 1);
    }
  }

  /** The package owns the cache directory beside each of its Python files. */
  lemma {:induction false} CacheDirsAreOwned(cfg: Config, record: seq<Path>, p: Path)
    requires p in record && Owner(cfg, p).Some? && Suffix(Name(p)) == ".py"
    ensures HasDir(Classified(cfg, record).modules, Owner(cfg, p).value.0, Package, Parent(p) + ["__pycache__"])
  {
    var name := Owner(cfg, p).value.0;
    assert GivesDir(cfg, p, name, Package, PycacheDir(p));
    ModulesHoldWhatIsGiven(cfg, record, name, Package, Exact(p), PycacheDir(p));
  }

  /** Scripts, stubs and extension modules own no directory, in particular not the cache of the site directory. */
  lemma {:induction false} OnlyPackagesOwnDirs(cfg: Config, record: seq<Path>, name: string, kind: Kind, d: Path)
    requires kind != Package
    ensures !HasDir(Classified(cfg, record).modules, name, kind, d)
  {
    ModulesHoldWhatIsGiven(cfg, record, name, kind, Exact([]), d);
  }

  // ----- directories of dist-info -----

  lemma {:induction false} AddMissingExactly(dirs: seq<Path>, p: Path, n: nat, lo: nat, d: Path)
    requires n <= |p|
    ensures d in AddMissing(dirs, p, n, lo) <==> d in dirs || exists m :: lo < m <= n && d == p[..m]
    decreases n
  {
    if n > lo {
      var more := if p[..n] in dirs then dirs else dirs + [p[..n]];
      AddMissingExactly(more, p, n - 1, lo, d);
      assert d in more <==> d in dirs || d == p[..n];
    }
  }

  /** The path is recorded inside dist-info and is kept. */
  predicate IsMetadata(cfg: Config, p: Path) {
    && cfg.distinfo < p && Suffix(Name(p)) != ".pyc"
    && !(Parent(p) == cfg.distinfo && (Name(p) == "RECORD" || Name(p) == "REQUESTED"))
  }

  lemma {:induction false} NestedDirs(distinfo: Path, p: Path, d: Path)
    requires distinfo < p
    ensures (exists m :: |distinfo| < m <= |p| - 1 && d == p[..m]) <==> distinfo < d < p
  {
    if distinfo < d < p {
      assert d == p[..|d|];
    }
    if m :| |distinfo| < m <= |p| - 1 && d == p[..m] {
      assert p[..m][..|distinfo|] == p[..|distinfo|];
    }
  }

  lemma {:induction false} TopLevelKeepsDirs(st: Sorted, p: Path)
    ensures AfterTopLevel(st, p).metadataDirs == st.metadataDirs
  {
  }

  lemma {:induction false} NestedKeepsDirs(st: Sorted, s: Path, p: Path)
    requires Above(s, p)
    ensures AfterNested(st, s, p).metadataDirs == st.metadataDirs
  {
  }

  lemma {:induction false} ElsewhereKeepsDirs(cfg: Config, st: Sorted, p: Path)
    ensures AfterElsewhere(cfg, st, p).metadataDirs == st.metadataDirs
  {
  }

  lemma {:induction false} MetadataAddsDirs(cfg: Config, st: Sorted, p: Path)
    requires Above(cfg.distinfo, p) && Suffix(Name(p)) != ".pyc"
    ensures AfterMetadata(cfg, st, p).metadataDirs ==
            if IsMetadata(cfg, p) then AddMissing(st.metadataDirs, p, |p| - 1, |cfg.distinfo|) else st.metadataDirs
  {
  }

  lemma {:induction false} DirsAfter(cfg: Config, st: Sorted, p: Path)
    ensures AfterPath(cfg, st, p).metadataDirs ==
            if IsMetadata(cfg, p) then AddMissing(st.metadataDirs, p, |p| - 1, |cfg.distinfo|) else st.metadataDirs
  {
    if Suffix(Name(p)) == ".pyc" {
    } else if Above(cfg.distinfo, p) {
      MetadataAddsDirs(cfg, st, p);
    } else {
      match Site(cfg.sitedirs, p)
      case Some(s) =>
        TopLevelKeepsDirs(st, p);
        NestedKeepsDirs(st, s, p);
      case None => ElsewhereKeepsDirs(cfg, st, p);
    }
  }

  /** The directory lies between dist-info and a kept file of it. */
  predicate IsBetween(cfg: Config, p: Path, d: Path) { IsMetadata(cfg, p) && cfg.distinfo < d < p }

  lemma {:induction false} OneMoreDir(cfg: Config, dirs: seq<Path>, p: Path, d: Path)
    requires IsMetadata(cfg, p)
    ensures d in AddMissing(dirs, p, |p| - 1, |cfg.distinfo|) <==> d in dirs || IsBetween(cfg, p, d)
  {
    AddMissingExactly(dirs, p, |p| - 1, |cfg.distinfo|, d);
    NestedDirs(cfg.distinfo, p, d);
  }

  ghost predicate SomeBetween(cfg: Config, record: seq<Path>, d: Path) {
    exists i :: 0 <= i < |record| && IsBetween(cfg, record[i], d)
  }

  lemma {:induction false} SomeBetweenMore(cfg: Config, init: seq<Path>, p: Path, d: Path)
    ensures SomeBetween(cfg, init + [p], d) <==> SomeBetween(cfg, init, d) || IsBetween(cfg, p, d)
  {
    var all := init + [p];
    assert forall i :: 0 <= i < |init| ==> all[i] == init[i];
    assert all[|init|] == p;
  }

  lemma {:induction false} LastPath(record: seq<Path>)
    requires record != []
    ensures record == record[..|record| - 1] + [record[|record| - 1]]
  {
  }

  /** The directories listed for dist-info are itself and every one between it and a file that is kept. */
  lemma {:induction false} MetadataDirsExactly(cfg: Config, record: seq<Path>, d: Path)
    ensures d in Classified(cfg, record).metadataDirs <==> d == cfg.distinfo || SomeBetween(cfg, record, d)
  {
    if record != [] {
      var init, p := record[..|record| - 1], record[|record| - 1];
      var before := Classified(cfg, init);
      MetadataDirsExactly(cfg, init, d);
      DirsAfter(cfg, before, p);
      if IsMetadata(cfg, p) {
        OneMoreDir(cfg, before.metadataDirs, p, d);
      }
      LastPath(record);
      SomeBetweenMore(cfg, init, p, d);
    }
  }

  /** Each of them has its line, whatever is selected. */
  lemma {:induction false} MetadataDirsAreListed(cfg: Config, record: seq<Path>, d: Path, names: set<string>, others: bool)
    requires d in Classified(cfg, record).metadataDirs
    ensures DirLine(d) in FileList(Classified(cfg, record), names, others)
  {
    var dirs := Classified(cfg, record).metadataDirs;
    var i :| 0 <= i < |dirs| && dirs[i] == d;
    assert DirLine(d) in DirLines(dirs);
  }

  // ----- the file list -----

  /** A line of the `%files` list. */
  datatype Line = Plain(item: Item) | DirLine(path: Path) | LicenseLine(path: Path) | LangLine(code: string, path: Path)

  function PlainLines(items: seq<Item>): set<Line> { set i | 0 <= i < |items| :: Plain(items[i]) }

  function FileLines(paths: seq<Path>): set<Line> { set i | 0 <= i < |paths| :: Plain(Exact(paths[i])) }

  function DirLines(paths: seq<Path>): set<Line> { set i | 0 <= i < |paths| :: DirLine(paths[i]) }

  function LicenseLines(paths: seq<Path>): set<Line> { set i | 0 <= i < |paths| :: LicenseLine(paths[i]) }

  function CodeLines(code: string, paths: seq<Path>): set<Line> { set i | 0 <= i < |paths| :: LangLine(code, paths[i]) }

  /** The lines of all the languages of a module, or of no module. */
  function LangLines(lang: Langs, name: Option<string>): set<Line> {
    if name !in lang then {} else set code, l | code in lang[name] && l in CodeLines(code, lang[name][code]) :: l
  }

  function LinesOf(m: Module): set<Line> { (set d | d in m.dirs :: DirLine(d)) + (set f | f in m.files :: Plain(f)) }

  function AllLinesOf(ms: seq<Module>): set<Line> {
    if ms == [] then {} else AllLinesOf(ms[..|ms| - 1]) + LinesOf(ms[|ms| - 1])
  }

  function ModuleLines(st: Sorted, name: string): set<Line> {
    LangLines(st.lang, Some(name)) + AllLinesOf(Get(st.modules, name))
  }

  function SelectedLines(st: Sorted, names: set<string>): set<Line> {
    set name, l | name in names && l in ModuleLines(st, name) :: l
  }

  function CommonLines(st: Sorted, others: bool): set<Line> {
    (if others then PlainLines(st.other) + LangLines(st.lang, None) else {})
    + FileLines(st.metadataFiles) + DirLines(st.metadataDirs) + LicenseLines(st.licenses)
  }

  function FileList(st: Sorted, names: set<string>, others: bool): set<Line> {
    CommonLines(st, others) + SelectedLines(st, names)
  }

  /** The modules that some glob matches; which names a glob matches is given. */
  function Selected(names: seq<string>, globs: seq<string>, fits: (string, string) -> bool): set<string> {
    set i, j | 0 <= i < |names| && 0 <= j < |globs| && fits(names[i], globs[j]) :: names[i]
  }

  /** The globs that match no module; without any module a glob that matches the empty name will do. */
  function Missed(names: seq<string>, globs: seq<string>, fits: (string, string) -> bool): set<string> {
    set j | 0 <= j < |globs|
            && !(exists i :: 0 <= i < |names| && fits(names[i], globs[j]))
            && !(names == [] && fits("", globs[j])) :: globs[j]
  }

  lemma {:induction false} SelectedMore(st: Sorted, names: set<string>, name: string)
    ensures SelectedLines(st, names + {name}) == SelectedLines(st, names) + ModuleLines(st, name)
  {
  }

  /** One glob over the modules: the lines of those it matches that were not done yet. */
  method AddMatching(
    st: Sorted, names: seq<string>, glob: string, fits: (string, string) -> bool, done: set<string>, files: set<Line>)
    returns (done': set<string>, files': set<Line>, hit: bool)
    ensures done' == done + set i | 0 <= i < |names| && fits(names[i], glob) :: names[i]
    ensures files == SelectedLines(st, done) ==> files' == SelectedLines(st, done')
    ensures hit <==> exists i :: 0 <= i < |names| && fits(names[i], glob)
  {
    done', files', hit := done, files, false;
    for i := 0 to |names|
      invariant done' == done + set k | 0 <= k < i && fits(names[k], glob) :: names[k]
      invariant files == SelectedLines(st, done) ==> files' == SelectedLines(st, done')
      invariant hit <==> exists k :: 0 <= k < i && fits(names[k], glob)
    {
      if fits(names[i], glob) {
        if names[i] !in done' {
          SelectedMore(st, done', names[i]);
          files' := files' + ModuleLines(st, names[i]);
          done' := done' + {names[i]};
        }
        hit := true;
      }
    }
  }

  /** `generate_file_list`: the lines, or the globs that match no module. */
  method GenerateFileList(st: Sorted, names: seq<string>, globs: seq<string>, fits: (string, string) -> bool, others: bool)
    returns (lines: Option<set<Line>>)
    ensures lines == if Missed(names, globs, fits) != {} then None
                     else Some(FileList(st, Selected(names, globs, fits), others))
  {
    var done: set<string>, missed: set<string>, files := {}, {}, {};
    assert SelectedLines(st, {}) == {};
    for j := 0 to |globs|
      invariant done == Selected(names, globs[..j], fits)
      invariant files == SelectedLines(st, done)
      invariant missed == Missed(names, globs[..j], fits)
    {
      var hit;
      SelectedByMore(names, globs, j, fits);
      done, files, hit := AddMatching(st, names, globs[j], fits, done, files);
      MissedByMore(names, globs, j, fits);
      if !hit && !(names == [] && fits("", globs[j])) {
        missed := missed + {globs[j]};
      }
    }
    assert globs[..|globs|] == globs;
    lines := if missed != {} then None else Some(CommonLines(st, others) + files);
  }

  lemma {:induction false} SelectedByMore(names: seq<string>, globs: seq<string>, j: nat, fits: (string, string) -> bool)
    requires j < |globs|
    ensures Selected(names, globs[..j + 1], fits) ==
            Selected(names, globs[..j], fits) + set i | 0 <= i < |names| && fits(names[i], globs[j]) :: names[i]
  {
    var more := globs[..j + 1];
    forall n | n in Selected(names, globs[..j], fits)
      ensures n in Selected(names, more, fits)
    {
      var i, k :| 0 <= i < |names| && 0 <= k < j && fits(names[i], globs[..j][k]) && names[i] == n;
      assert fits(names[i], more[k]);
    }
    forall i | 0 <= i < |names| && fits(names[i], globs[j])
      ensures names[i] in Selected(names, more, fits)
    {
      assert fits(names[i], more[j]);
    }
    forall n | n in Selected(names, more, fits)
      ensures n in Selected(names, globs[..j], fits) ||
              exists i :: 0 <= i < |names| && fits(names[i], globs[j]) && names[i] == n
    {
      var i, k :| 0 <= i < |names| && 0 <= k < j + 1 && fits(names[i], more[k]) && names[i] == n;
      if k < j {
        assert fits(names[i], globs[..j][k]);
      }
    }
  }

  lemma {:induction false} MissedByMore(names: seq<string>, globs: seq<string>, j: nat, fits: (string, string) -> bool)
    requires j < |globs|
    ensures var hit := exists i :: 0 <= i < |names| && fits(names[i], globs[j]);
            Missed(names, globs[..j + 1], fits) ==
            Missed(names, globs[..j], fits) + if !hit && !(names == [] && fits("", globs[j])) then {globs[j]} else {}
  {
    var more := globs[..j + 1];
    assert more[j] == globs[j] && forall k :: 0 <= k < j ==> more[k] == globs[..j][k];
    forall g | g in Missed(names, globs[..j], fits)
      ensures g in Missed(names, more, fits)
    {
      var k :| 0 <= k < j && globs[..j][k] == g
               && !(exists i :: 0 <= i < |names| && fits(names[i], globs[..j][k]))
               && !(names == [] && fits("", globs[..j][k]));
      assert more[k] == g;
    }
  }

  // ----- which paths are listed -----

  lemma {:induction false} PlainInOne(m: Module, item: Item)
    ensures Plain(item) in LinesOf(m) <==> item in m.files
  {
  }

  /** The item is among the files of a module of some kind. */
  predicate InSomeKind(ms: seq<Module>, item: Item) {
    FileIn(ms, Extension, item) || FileIn(ms, Stub, item) || FileIn(ms, Script, item) || FileIn(ms, Package, item)
  }

  lemma {:induction false} SomeKind(ms: seq<Module>, kind: Kind, item: Item)
    requires FileIn(ms, kind, item)
    ensures InSomeKind(ms, item)
  {
    match kind
    case Extension =>
    case Stub =>
    case Script =>
    case Package =>
  }

  lemma {:induction false} PlainInModule(ms: seq<Module>, item: Item)
    ensures Plain(item) in AllLinesOf(ms) <==> InSomeKind(ms, item)
  {
    if ms != [] {
      var init, last := ms[..|ms| - 1], ms[|ms| - 1];
      PlainInModule(init, item);
      PlainInOne(last, item);
      assert AllLinesOf(ms) == AllLinesOf(init) + LinesOf(last);
      if item in last.files {
        assert FileIn(ms, last.kind, item);
        SomeKind(ms, last.kind, item);
      }
    }
  }

  lemma {:induction false} OnlyPlainAndDirs(ms: seq<Module>, l: Line)
    requires l in AllLinesOf(ms)
    ensures l.Plain? || l.DirLine?
  {
    if l in AllLinesOf(ms[..|ms| - 1]) {
      OnlyPlainAndDirs(ms[..|ms| - 1], l);
    }
  }

  lemma {:induction false} LangInModule(lang: Langs, name: Option<string>, code: string, p: Path)
    ensures LangLine(code, p) in LangLines(lang, name) <==> p in GetLang(lang, name, code)
    ensures forall l :: l in LangLines(lang, name) ==> l.LangLine?
  {
    if p in GetLang(lang, name, code) {
      var paths := lang[name][code];
      var i :| 0 <= i < |paths| && paths[i] == p;
      assert LangLine(code, paths[i]) in CodeLines(code, paths);
    }
  }

  /** A file line is there for the other files, for the metadata, or for the modules that were selected. */
  lemma {:induction false} PlainListed(st: Sorted, names: set<string>, others: bool, item: Item)
    ensures Plain(item) in FileList(st, names, others) <==>
            || (others && item in st.other)
            || (item.Exact? && item.path in st.metadataFiles)
            || exists name :: name in names && InSomeKind(Get(st.modules, name), item)
  {
    PlainCommon(st, others, item);
    forall name
      ensures Plain(item) in ModuleLines(st, name) <==> InSomeKind(Get(st.modules, name), item)
    {
      PlainInModule(Get(st.modules, name), item);
      LangInModule(st.lang, Some(name), "", []);
    }
  }

  lemma {:induction false} PlainCommon(st: Sorted, others: bool, item: Item)
    ensures Plain(item) in CommonLines(st, others) <==>
            (others && item in st.other) || (item.Exact? && item.path in st.metadataFiles)
  {
    LangInModule(st.lang, None, "", []);
    if item in st.other {
      var i :| 0 <= i < |st.other| && st.other[i] == item;
      assert Plain(st.other[i]) in PlainLines(st.other);
    }
    if item.Exact? && item.path in st.metadataFiles {
      var i :| 0 <= i < |st.metadataFiles| && st.metadataFiles[i] == item.path;
      assert Plain(Exact(st.metadataFiles[i])) in FileLines(st.metadataFiles);
    }
  }

  lemma {:induction false} LangListed(st: Sorted, names: set<string>, others: bool, code: string, p: Path)
    ensures LangLine(code, p) in FileList(st, names, others) <==>
            || (others && p in GetLang(st.lang, None, code))
            || exists name :: name in names && p in GetLang(st.lang, Some(name), code)
  {
    LangInModule(st.lang, None, code, p);
    forall name
      ensures LangLine(code, p) in ModuleLines(st, name) <==> p in GetLang(st.lang, Some(name), code)
    {
      LangInModule(st.lang, Some(name), code, p);
      if LangLine(code, p) in AllLinesOf(Get(st.modules, name)) {
        OnlyPlainAndDirs(Get(st.modules, name), LangLine(code, p));
      }
    }
  }

  lemma {:induction false} LicenseListed(st: Sorted, names: set<string>, others: bool, p: Path)
    requires p in st.licenses
    ensures LicenseLine(p) in FileList(st, names, others)
  {
    var i :| 0 <= i < |st.licenses| && st.licenses[i] == p;
    assert LicenseLine(st.licenses[i]) in LicenseLines(st.licenses);
  }

  /** The line that stands for a recorded path. */
  function LineOf(cfg: Config, p: Path): Line {
    match PlaceOf(cfg, p)
    case License => LicenseLine(p)
    case Lang(_, code) => LangLine(code, p)
    case _ => Plain(ItemOf(cfg, p))
  }

  /** Whether the list is to hold the path: metadata always, modules when selected, the rest when asked for. */
  predicate IsWanted(place: Place, names: set<string>, others: bool) {
    match place
    case Skipped => false
    case License => true
    case Metadata => true
    case InModule(name, _) => name in names
    case Lang(name, _) => if name.Some? then name.value in names else others
    case Other => others
  }

  lemma {:induction false} OtherListed(cfg: Config, record: seq<Path>, p: Path)
    requires p in record
    ensures ItemOf(cfg, p) in Classified(cfg, record).other <==> PlaceOf(cfg, p) == Other
    ensures PlaceOf(cfg, p) != Other ==> ItemOf(cfg, p) == Exact(p)
  {
    ExactlyOneBucket(cfg, record, p, Other);
  }

  lemma {:induction false} NoManPageInModule(cfg: Config, record: seq<Path>, name: string, kind: Kind, item: Item)
    requires item.Compressed?
    ensures !HasFile(Classified(cfg, record).modules, name, kind, item)
  {
    ModulesHoldWhatIsGiven(cfg, record, name, kind, item, []);
    forall q: Path
      ensures !GivesFile(PlaceOf(cfg, q), q, name, kind, item)
    {
      assert item !in ItemsFor(q);
    }
  }

  lemma {:induction false} ItemKinds(cfg: Config, p: Path)
    ensures ItemOf(cfg, p) == Exact(p) || (ItemOf(cfg, p).Compressed? && PlaceOf(cfg, p) == Other)
  {
  }

  lemma {:induction false} ModuleListed(cfg: Config, record: seq<Path>, p: Path, name: string, kind: Kind)
    requires p in record
    ensures HasFile(Classified(cfg, record).modules, name, kind, ItemOf(cfg, p)) <==>
            PlaceOf(cfg, p) == InModule(name, kind)
  {
    ItemKinds(cfg, p);
    var item := ItemOf(cfg, p);
    if item.Compressed? {
      NoManPageInModule(cfg, record, name, kind, item);
    } else {
      ModulesHoldTheirFiles(cfg, record, name, kind, p);
    }
  }

  lemma {:induction false} SomeKindExactly(ms: seq<Module>, item: Item, place: Place, name: string)
    requires forall kind: Kind :: FileIn(ms, kind, item) <==> place == InModule(name, kind)
    ensures InSomeKind(ms, item) <==> place.InModule? && place.name == name
  {
    if place.InModule? {
      assert FileIn(ms, place.kind, item) <==> place == InModule(name, place.kind);
    }
  }

  lemma {:induction false} ModulesListed(cfg: Config, record: seq<Path>, p: Path, name: string)
    requires p in record
    ensures InSomeKind(Get(Classified(cfg, record).modules, name), ItemOf(cfg, p)) <==>
            PlaceOf(cfg, p).InModule? && PlaceOf(cfg, p).name == name
  {
    var ms, item, place := Get(Classified(cfg, record).modules, name), ItemOf(cfg, p), PlaceOf(cfg, p);
    forall kind: Kind
      ensures FileIn(ms, kind, item) <==> place == InModule(name, kind)
    {
      ModuleListed(cfg, record, p, name, kind);
    }
    SomeKindExactly(ms, item, place, name);
  }

  lemma {:induction false} PlainIsListedExactly(cfg: Config, record: seq<Path>, names: set<string>, others: bool, p: Path)
    requires p in record && (PlaceOf(cfg, p) in {Metadata, Other} || PlaceOf(cfg, p).InModule?)
    ensures Plain(ItemOf(cfg, p)) in FileList(Classified(cfg, record), names, others) <==>
            IsWanted(PlaceOf(cfg, p), names, others)
  {
    var st, place, item := Classified(cfg, record), PlaceOf(cfg, p), ItemOf(cfg, p);
    OtherListed(cfg, record, p);
    MetadataListed(cfg, record, p);
    forall name
      ensures InSomeKind(Get(st.modules, name), item) <==> place.InModule? && place.name == name
    {
      ModulesListed(cfg, record, p, name);
    }
    PlainIsWanted(st, place, names, others, item);
  }

  lemma {:induction false} MetadataListed(cfg: Config, record: seq<Path>, p: Path)
    requires p in record
    ensures ItemOf(cfg, p).Exact? && ItemOf(cfg, p).path in Classified(cfg, record).metadataFiles <==>
            PlaceOf(cfg, p) == Metadata
  {
    ListsHoldTheirFiles(cfg, record);
    FilterHolds(cfg, record, Metadata, p);
  }

  lemma {:induction false} PlainIsWanted(st: Sorted, place: Place, names: set<string>, others: bool, item: Item)
    requires place in {Metadata, Other} || place.InModule?
    requires item in st.other <==> place == Other
    requires item.Exact? && item.path in st.metadataFiles <==> place == Metadata
    requires forall name :: InSomeKind(Get(st.modules, name), item) <==> place.InModule? && place.name == name
    ensures Plain(item) in FileList(st, names, others) <==> IsWanted(place, names, others)
  {
    PlainListed(st, names, others, item);
    if place.InModule? && place.name in names {
      assert InSomeKind(Get(st.modules, place.name), item);
    }
  }

  lemma {:induction false} LangIsListedExactly(cfg: Config, record: seq<Path>, names: set<string>, others: bool, p: Path)
    requires p in record && PlaceOf(cfg, p).Lang?
    ensures LineOf(cfg, p) in FileList(Classified(cfg, record), names, others) <==>
            IsWanted(PlaceOf(cfg, p), names, others)
  {
    var st, place := Classified(cfg, record), PlaceOf(cfg, p);
    LangListed(st, names, others, place.code, p);
    forall name: Option<string>
      ensures p in GetLang(st.lang, name, place.code) <==> place.module_ == name
    {
      LangsHoldTheirFiles(cfg, record, name, place.code);
      FilterHolds(cfg, record, Lang(name, place.code), p);
    }
  }

  /** The line of a recorded path is in the list exactly when its place asks for it. */
  lemma {:induction false} ListedExactly(cfg: Config, record: seq<Path>, names: set<string>, others: bool, p: Path)
    requires p in record && PlaceOf(cfg, p) != Skipped
    ensures LineOf(cfg, p) in FileList(Classified(cfg, record), names, others) <==>
            IsWanted(PlaceOf(cfg, p), names, others)
  {
    match PlaceOf(cfg, p)
    case License =>
      ListsHoldTheirFiles(cfg, record);
      FilterHolds(cfg, record, License, p);
      LicenseListed(Classified(cfg, record), names, others, p);
    case Lang(_, _) => LangIsListedExactly(cfg, record, names, others, p);
    case _ => PlainIsListedExactly(cfg, record, names, others, p);
  }

  /** Whether a line stands for the file: man pages are matched by the beginning of their name. */
  predicate Covers(l: Line, p: Path) {
    match l
    case Plain(Exact(q)) => q == p
    case Plain(Compressed(dir, stem)) => p != [] && Parent(p) == dir && stem <= Name(p)
    case Plain(Bytecode(_)) => false
    case DirLine(_) => false
    case LicenseLine(q) => q == p
    case LangLine(_, q) => q == p
  }

  lemma {:induction false} LineCovers(cfg: Config, p: Path)
    requires p != []
    ensures Covers(LineOf(cfg, p), p)
  {
  }

  /** A module with a file or a translation in it is one of the modules that globs are matched against. */
  lemma {:induction false} PlacesAreModules(cfg: Config, record: seq<Path>, p: Path)
    requires p in record
    ensures var place, modules := PlaceOf(cfg, p), Classified(cfg, record).modules;
            && (place.InModule? ==> place.name in modules)
            && (place.Lang? && place.module_.Some? ==> place.module_.value in modules)
  {
    var place := PlaceOf(cfg, p);
    if place.InModule? {
      ModulesHoldTheirFiles(cfg, record, place.name, place.kind, p);
    } else if place.Lang? && place.module_.Some? {
      var owner := Owner(cfg, p).value;
      ParentBelow(Site(cfg.sitedirs, p).value, p);
      AncestorsAreOwned(cfg, record, p, owner.1 + 1);
    }
  }

  /** With every module selected and the others included, every recorded file that is kept has its line. */
  lemma {:induction false} ListIsComplete(
    cfg: Config, record: seq<Path>, names: seq<string>, globs: seq<string>, fits: (string, string) -> bool, p: Path)
    requires p in record && p != [] && PlaceOf(cfg, p) != Skipped
    requires forall name :: name in Classified(cfg, record).modules ==> name in Selected(names, globs, fits)
    ensures exists l :: l in FileList(Classified(cfg, record), Selected(names, globs, fits), true) && Covers(l, p)
  {
    PlacesAreModules(cfg, record, p);
    ListedExactly(cfg, record, Selected(names, globs, fits), true, p);
    LineCovers(cfg, p);
  }
}

/** The escaping of a path in the file list, for RPM 4.19 and later. */
module RpmEscape {
  const SPECIAL: set<char> := {' ', '\n', '\t', '[', ']', '{', '}', '*', '?', '!', '"', '\\'}

  /** `path.replace("%", "%%")`. */
  function DoublePercent(s: string): string {
    if s == "" then "" else (if s[0] == '%' then "%%" else [s[0]]) + DoublePercent(s[1..])
  }

  /** A backslash in front of every special character. */
  function Backslashed(s: string): string {
    if s == "" then "" else (if s[0] in SPECIAL then ['\\', s[0]] else [s[0]]) + Backslashed(s[1..])
  }

  function Escape(path: string): string { Backslashed(DoublePercent(path)) }

  /** What the macro expansion makes of the line: a doubled percent sign is one. */
  function Expanded(s: string): string
    decreases |s|
  {
    if s == "" then ""
    else if |s| > 1 && s[0] == '%' && s[1] == '%' then "%" + Expanded(s[2..])
    else [s[0]] + Expanded(s[1..])
  }

  /** What the file list parser makes of it: a backslash stands for the character behind it. */
  function Unquoted(s: string): string
    decreases |s|
  {
    if s == "" then ""
    else if s[0] == '\\' && |s| > 1 then [s[1]] + Unquoted(s[2..])
    else [s[0]] + Unquoted(s[1..])
  }

  lemma {:induction false} NothingToExpand(s: string)
    requires '%' !in s
    ensures Expanded(s) == s
  {
    if s != "" {
      NothingToExpand(s[1..]);
      assert s == [s[0]] + s[1..];
    }
  }

  /** One character of the path, as it is written. */
  function Written(c: char): string { if c == '%' then "%%" else if c in SPECIAL then ['\\', c] else [c] }

  lemma {:induction false} DoubledExpands(path: string, glob: string)
    requires '%' !in glob
    ensures Expanded(Escape(path) + glob) == Backslashed(path) + glob
  {
    if path == "" {
      NothingToExpand(glob);
      assert "" + glob == glob;
    } else {
      var rest := path[1..];
      DoubledExpands(rest, glob);
      EscapeFirst(path);
      Assoc(Written(path[0]), Escape(rest), glob);
      WrittenExpands(path[0], Escape(rest) + glob);
      Assoc(if path[0] in SPECIAL then ['\\', path[0]] else [path[0]], Backslashed(rest), glob);
    }
  }

  lemma {:induction false} Assoc(a: string, b: string, c: string)
    ensures (a + b) + c == a + (b + c)
  {
  }

  lemma {:induction false} WrittenExpands(c: char, more: string)
    ensures Expanded(Written(c) + more) == (if c in SPECIAL then ['\\', c] else [c]) + Expanded(more)
  {
    if c == '%' {
      assert ("%%" + more)[2..] == more;
    } else {
      OneCharacterExpands(c, more);
    }
  }

  lemma {:induction false} BackslashedFirst(c: char, rest: string)
    ensures Backslashed([c] + rest) == (if c in SPECIAL then ['\\', c] else [c]) + Backslashed(rest)
  {
    assert ([c] + rest)[1..] == rest;
  }

  lemma {:induction false} EscapeFirst(path: string)
    requires path != ""
    ensures Escape(path) == Written(path[0]) + Escape(path[1..])
  {
    var rest := DoublePercent(path[1..]);
    if path[0] == '%' {
      assert DoublePercent(path) == ['%'] + (['%'] + rest);
      BackslashedFirst('%', ['%'] + rest);
      BackslashedFirst('%', rest);
    } else {
      BackslashedFirst(path[0], rest);
    }
  }

  lemma {:induction false} OneCharacterExpands(c: char, rest: string)
    requires c != '%'
    ensures Expanded([c] + rest) == [c] + Expanded(rest)
    ensures Expanded(['\\', c] + rest) == ['\\', c] + Expanded(rest)
  {
    assert ([c] + rest)[1..] == rest;
    assert (['\\', c] + rest)[1..] == [c] + rest;
  }

  lemma {:induction false} QuotedIsRead(s: string)
    ensures Unquoted(Backslashed(s)) == s
  {
    if s != "" {
      var rest := s[1..];
      QuotedIsRead(rest);
      var q := Backslashed(s);
      if s[0] in SPECIAL {
        assert q[2..] == Backslashed(rest);
      } else {
        assert q[1..] == Backslashed(rest);
      }
      assert s == [s[0]] + rest;
    }
  }

  /** The escaped path is read back as the path it was made from, so that no two paths share a line. */
  lemma {:induction false} EscapeReadsBack(path: string)
    ensures Unquoted(Expanded(Escape(path))) == path
  {
    DoubledExpands(path, "");
    assert Escape(path) + "" == Escape(path) && Backslashed(path) + "" == Backslashed(path);
    QuotedIsRead(path);
  }

  // ----- paths with a glob behind them -----

  /** A glob that may follow a path unescaped. */
  predicate IsGlob(glob: string) {
    '%' !in glob && (glob != "" ==> glob[0] in SPECIAL && glob[0] != '\\')
  }

  /** How many characters the file list parser takes literally: up to the first special one without a backslash. */
  function Literal(s: string): (k: nat)
    ensures k <= |s|
    decreases |s|
  {
    if s == "" then 0
    else if s[0] == '\\' then (if |s| > 1 then 2 + Literal(s[2..]) else 1)
    else if s[0] in SPECIAL then 0
    else 1 + Literal(s[1..])
  }

  lemma {:induction false} LiteralStep(c: char, rest: string)
    ensures var head := if c in SPECIAL then ['\\', c] else [c];
            Literal(head + rest) == |head| + Literal(rest)
  {
    assert (['\\', c] + rest)[2..] == rest && ([c] + rest)[1..] == rest;
  }

  lemma {:induction false} LiteralEnds(path: string, glob: string)
    requires IsGlob(glob)
    ensures Literal(Backslashed(path) + glob) == |Backslashed(path)|
  {
    if path == "" {
      assert "" + glob == glob;
    } else {
      LiteralEnds(path[1..], glob);
      LiteralStep(path[0], Backslashed(path[1..]) + glob);
      Assoc(if path[0] in SPECIAL then ['\\', path[0]] else [path[0]], Backslashed(path[1..]), glob);
    }
  }

  /** Path and glob are both read back, so that the escaped part never runs into the glob. */
  lemma {:induction false} GlobbedReadsBack(path: string, glob: string)
    requires IsGlob(glob)
    ensures var line := Expanded(Escape(path) + glob);
            Unquoted(line[..Literal(line)]) == path && line[Literal(line)..] == glob
  {
    DoubledExpands(path, glob);
    LiteralEnds(path, glob);
    QuotedIsRead(path);
    assert (Backslashed(path) + glob)[..|Backslashed(path)|] == Backslashed(path);
    assert (Backslashed(path) + glob)[|Backslashed(path)|..] == glob;
  }
}

/** The lines of the `%files` list as text. */
module FileListText {
  import opened Wrappers
  import opened Classification
  import opened RpmEscape

  const PYCACHED_SUFFIX: string := "{,.opt-?}.pyc"

  /** Every part with a slash in front of it. */
  function Parts(p: Path): string {
    if p == [] then "" else "/" + p[0] + Parts(p[1..])
  }

  function PathText(p: Path): string { if p == [] then "/" else Parts(p) }

  predicate GoodPath(p: Path) { forall i :: 0 <= i < |p| ==> p[i] != "" && '/' !in p[i] }

  /** The path a file line begins with, and the glob behind it. */
  function ItemPath(item: Item, pyver: string): Path {
    match item
    case Exact(p) => p
    case Bytecode(script) =>
      Parent(script) + ["__pycache__", Stem(Name(script)) + ".cpython-" + pyver]
    case Compressed(dir, stem) => dir + [stem]
  }

  function Glob(item: Item): string {
    match item
    case Exact(_) => ""
    case Bytecode(_) => PYCACHED_SUFFIX
    case Compressed(_, _) => "*"
  }

  function Macro(line: Line): string {
    match line
    case Plain(_) => ""
    case DirLine(_) => "%dir "
    case LicenseLine(_) => "%license "
    case LangLine(code, _) => "%lang(" + code + ") "
  }

  function LineItem(line: Line): Item {
    match line
    case Plain(item) => item
    case DirLine(p) => Exact(p)
    case LicenseLine(p) => Exact(p)
    case LangLine(_, p) => Exact(p)
  }

  function LineText(line: Line, pyver: string): string {
    var item := LineItem(line);
    Macro(line) + (Escape(PathText(ItemPath(item, pyver))) + Glob(item))
  }

  /** Only a Python file has bytecode, and neither a part of a path nor a language holds a slash. */
  predicate GoodLine(line: Line, pyver: string) {
    var item := LineItem(line);
    && GoodPath(ItemPath(item, pyver))
    && (line.LangLine? ==> '/' !in line.code)
    && (item.Bytecode? ==> item.script != [] && Suffix(Name(item.script)) == ".py")
  }

  /** Cutting at the first slash. */
  lemma {:induction false} CutAtSlash(x: string, r: string, y: string, s: string)
    requires x + r == y + s && '/' !in x && '/' !in y
    requires (r == "" || r[0] == '/') && (s == "" || s[0] == '/')
    ensures x == y && r == s
  {
    var t := x + r;
    assert r != "" ==> t[|x|] == '/';
    assert s != "" ==> t[|y|] == '/';
    assert forall k :: 0 <= k < |x| ==> t[k] == x[k];
    assert forall k :: 0 <= k < |y| ==> t[k] == y[k];
    assert |x| == |y|;
    assert t[..|x|] == x && t[..|y|] == y && t[|x|..] == r && t[|y|..] == s;
  }

  lemma {:induction false} PartsDiffer(p: Path, q: Path)
    requires GoodPath(p) && GoodPath(q) && Parts(p) == Parts(q)
    ensures p == q
  {
    if p != [] && q != [] {
      assert Parts(p)[1..] == p[0] + Parts(p[1..]) && Parts(q)[1..] == q[0] + Parts(q[1..]);
      CutAtSlash(p[0], Parts(p[1..]), q[0], Parts(q[1..]));
      PartsDiffer(p[1..], q[1..]);
      assert p == [p[0]] + p[1..] && q == [q[0]] + q[1..];
    }
  }

  lemma {:induction false} PathsDiffer(p: Path, q: Path)
    requires GoodPath(p) && GoodPath(q) && PathText(p) == PathText(q)
    ensures p == q
  {
    assert forall r: Path :: GoodPath(r) && r != [] ==> |Parts(r)| > 1;
    PartsDiffer(p, q);
  }

  lemma {:induction false} MacrosDiffer(a: Line, b: Line)
    requires Macro(a) == Macro(b)
    ensures match a
            case Plain(_) => b.Plain?
            case DirLine(_) => b.DirLine?
            case LicenseLine(_) => b.LicenseLine?
            case LangLine(code, _) => b.LangLine? && b.code == code
  {
    var m, n := Macro(a), Macro(b);
    assert a.DirLine? ==> m[1] == 'd';
    assert b.DirLine? ==> n[1] == 'd';
    assert a.LicenseLine? ==> m[1] == 'l' && m[2] == 'i';
    assert b.LicenseLine? ==> n[1] == 'l' && n[2] == 'i';
    assert a.LangLine? ==> m[1] == 'l' && m[2] == 'a' && m[6..|m| - 2] == a.code;
    assert b.LangLine? ==> n[1] == 'l' && n[2] == 'a' && n[6..|n| - 2] == b.code;
  }

  lemma {:induction false} StemAndSuffix(script: Path)
    requires script != [] && Suffix(Name(script)) == ".py"
    ensures script == Parent(script) + [Stem(Name(script)) + ".py"]
  {
    assert Name(script) == Stem(Name(script)) + Suffix(Name(script));
  }

  lemma {:induction false} LastTwo(a: Path, x: string, y: string, b: Path, v: string, w: string)
    requires a + [x, y] == b + [v, w]
    ensures a == b && y == w
  {
    assert (a + [x, y])[..|a|] == a && (b + [v, w])[..|b|] == b;
    assert (a + [x, y])[|a| + 1] == y && (b + [v, w])[|b| + 1] == w;
  }

  lemma {:induction false} SameEnd(x: string, y: string, end: string)
    requires x + end == y + end
    ensures x == y
  {
    assert (x + end)[..|x|] == x && (y + end)[..|y|] == y;
  }

  lemma {:induction false} SameBytecode(s: Path, t: Path, pyver: string)
    requires s != [] && Suffix(Name(s)) == ".py" && t != [] && Suffix(Name(t)) == ".py"
    requires ItemPath(Bytecode(s), pyver) == ItemPath(Bytecode(t), pyver)
    ensures s == t
  {
    var x, y, end := Stem(Name(s)), Stem(Name(t)), ".cpython-" + pyver;
    LastTwo(Parent(s), "__pycache__", x + ".cpython-" + pyver, Parent(t), "__pycache__", y + ".cpython-" + pyver);
    assert x + ".cpython-" + pyver == x + end && y + ".cpython-" + pyver == y + end;
    SameEnd(x, y, end);
    StemAndSuffix(s);
    StemAndSuffix(t);
  }

  lemma {:induction false} ItemsDiffer(a: Item, b: Item, pyver: string)
    requires ItemPath(a, pyver) == ItemPath(b, pyver) && Glob(a) == Glob(b)
    requires a.Bytecode? ==> a.script != [] && Suffix(Name(a.script)) == ".py"
    requires b.Bytecode? ==> b.script != [] && Suffix(Name(b.script)) == ".py"
    ensures a == b
  {
    match a
    case Exact(_) =>
    case Bytecode(s) => SameBytecode(s, b.script, pyver);
    case Compressed(dir, stem) =>
      assert (dir + [stem])[..|dir|] == dir && (b.dir + [b.stem])[..|b.dir|] == b.dir;
      assert (dir + [stem])[|dir|] == stem && (b.dir + [b.stem])[|b.dir|] == b.stem;
  }

  lemma {:induction false} BeginsWithSlash(p: Path, glob: string)
    ensures Escape(PathText(p)) + glob != "" && (Escape(PathText(p)) + glob)[0] == '/'
  {
    EscapeFirst(PathText(p));
  }

  lemma {:induction false} GlobbedDiffer(p: Path, glob: string, q: Path, other: string)
    requires GoodPath(p) && GoodPath(q) && IsGlob(glob) && IsGlob(other)
    requires Escape(PathText(p)) + glob == Escape(PathText(q)) + other
    ensures p == q && glob == other
  {
    GlobbedReadsBack(PathText(p), glob);
    GlobbedReadsBack(PathText(q), other);
    PathsDiffer(p, q);
  }

  lemma {:induction false} MacrosHaveNoSlash(line: Line, pyver: string)
    requires GoodLine(line, pyver)
    ensures '/' !in Macro(line)
  {
  }

  /** Different lines of the list are different as text: nothing is merged when the texts are collected in a set. */
  lemma {:induction false} LinesDiffer(a: Line, b: Line, pyver: string)
    requires GoodLine(a, pyver) && GoodLine(b, pyver) && LineText(a, pyver) == LineText(b, pyver)
    ensures a == b
  {
    var i, j := LineItem(a), LineItem(b);
    var p, q := ItemPath(i, pyver), ItemPath(j, pyver);
    BeginsWithSlash(p, Glob(i));
    BeginsWithSlash(q, Glob(j));
    MacrosHaveNoSlash(a, pyver);
    MacrosHaveNoSlash(b, pyver);
    CutAtSlash(Macro(a), Escape(PathText(p)) + Glob(i), Macro(b), Escape(PathText(q)) + Glob(j));
    GlobbedDiffer(p, Glob(i), q, Glob(j));
    ItemsDiffer(i, j, pyver);
    MacrosDiffer(a, b);
  }
}
