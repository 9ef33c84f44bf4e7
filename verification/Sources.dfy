/** The `sources` file of a package and the lookaside cache that has to hold what it lists. */
module Sources {
  import opened Wrappers
  import opened Text

  /** A hash is the algorithm that made it and the content it was made from. */
  datatype Digest = Digest(algo: string, content: string)

  datatype Entry = Entry(algo: string, filename: string, hash: Digest)

  /** What an upload puts into the cache: the file under its name, with the hash of the kind asked for. */
  datatype Upload = Upload(filename: string, algo: string, hash: Digest)

  const SHA512 := "SHA512"
  const VENDOR := "-vendor.tar."

  function Uploaded(filename: string, algo: string, content: string): Upload {
    Upload(filename, algo, Digest(algo, content))
  }

  function Names(entries: seq<Entry>): set<string> { set i | 0 <= i < |entries| :: entries[i].filename }

  /** The part of a location after its last slash. */
  function Basename(url: string): string {
    var i := LastIndex(url, '/');
    if i.None? then url else url[i.value + 1..]
  }

  predicate IsVendor(name: string) { FindFrom(name, VENDOR, 0).Some? }

  /** `name.replace(was, now)`. */
  function Replaced(s: string, was: string, now: string): string
    decreases |s|
  {
    if was == "" then s
    else
      var i := FindFrom(s, was, 0);
      if i.None? then s else s[..i.value] + now + Replaced(s[i.value + |was|..], was, now)
  }

  /** A remote source of the spec, and what the network makes of it. */
  datatype Remote = Remote(url: string, content: Option<string>, uploadWorks: bool)

  /** Whether the package has a vendor configuration, and what regenerating the archive makes of it. */
  datatype Vendoring = Vendoring(configured: bool, content: Option<string>, uploadWorks: bool)

  /** The entries in memory, the cache, the new names, and whether a step has failed. */
  datatype Progress = Progress(entries: seq<Entry>, cache: set<Upload>, downloaded: seq<string>, failed: bool)

  function Basenames(remotes: seq<Remote>): set<string> { set i | 0 <= i < |remotes| :: Basename(remotes[i].url) }

  // ----- the phases of a default update -----

  function FetchOne(p: Progress, r: Remote, listed: set<string>): Progress {
    var name := Basename(r.url);
    if name in listed then p
    else if r.content.None? || !r.uploadWorks then p.(failed := true)
    else
      Progress(p.entries + [Entry(SHA512, name, Digest(SHA512, r.content.value))],
               p.cache + {Uploaded(name, SHA512, r.content.value)}, p.downloaded + [name], false)
  }

  function Fetched(p: Progress, remotes: seq<Remote>, listed: set<string>): Progress {
    if remotes == [] then p
    else
      var before := Fetched(p, remotes[..|remotes| - 1], listed);
      if before.failed then before else FetchOne(before, remotes[|remotes| - 1], listed)
  }

  /** The first entry that names a vendor archive. */
  function VendorIndex(entries: seq<Entry>): (i: Option<nat>)
    ensures i.Some? ==> i.value < |entries| && IsVendor(entries[i.value].filename)
    ensures i.Some? ==> forall j :: 0 <= j < i.value ==> !IsVendor(entries[j].filename)
    ensures i.None? ==> forall j :: 0 <= j < |entries| ==> !IsVendor(entries[j].filename)
  {
    if entries == [] then None
    else
      var before := VendorIndex(entries[..|entries| - 1]);
      assert forall j :: 0 <= j < |entries| - 1 ==> entries[..|entries| - 1][j] == entries[j];
      if before.Some? then before
      else if IsVendor(entries[|entries| - 1].filename) then Some(|entries| - 1) else None
  }

  function Regenerated(p: Progress, v: Vendoring, was: string, now: string): Progress {
    var i := VendorIndex(p.entries);
    if !v.configured || i.None? then p
    else if v.content.None? || !v.uploadWorks then p.(failed := true)
    else
      var algo, name := p.entries[i.value].algo, Replaced(p.entries[i.value].filename, was, now);
      Progress(p.entries[i.value := Entry(algo, name, Digest(algo, v.content.value))],
               p.cache + {Uploaded(name, algo, v.content.value)}, p.downloaded + [name], false)
  }

  function VendorNames(entries: seq<Entry>): set<string> {
    set i | 0 <= i < |entries| && IsVendor(entries[i].filename) :: entries[i].filename
  }

  function Without(entries: seq<Entry>, stale: set<string>): seq<Entry> {
    if entries == [] then []
    else
      var last := entries[|entries| - 1];
      Without(entries[..|entries| - 1], stale) + if last.filename in stale then [] else [last]
  }

  /** Names that are listed but belong to no remote source and no vendor archive. */
  function Stale(listed: set<string>, entries: seq<Entry>, remotes: seq<Remote>): set<string> {
    listed - (Basenames(remotes) + VendorNames(entries))
  }

  /** The state of a package: the `sources` file and the cache. */
  datatype State = State(sources: seq<Entry>, cache: set<Upload>)

  function Phases(s: State, remotes: seq<Remote>, v: Vendoring, was: string, now: string): Progress {
    var p := Fetched(Progress(s.sources, s.cache, [], false), remotes, Names(s.sources));
    if p.failed then p else Regenerated(p, v, was, now)
  }

  /** `download_new_sources`, for a package directory with one spec. */
  function AfterDefault(s: State, remotes: seq<Remote>, v: Vendoring, was: string, now: string): State {
    if s.sources != [] && remotes == [] then s
    else
      var p := Phases(s, remotes, v, was, now);
      if p.failed then State(s.sources, p.cache)
      else State(Without(p.entries, Stale(Names(s.sources), p.entries, remotes)), p.cache)
  }

  /** A file that a hook printed: its content if it is there, and whether its upload works. */
  datatype HookFile = HookFile(name: string, content: Option<string>, uploadWorks: bool)

  function IndexOfEither(entries: seq<Entry>, a: string, b: string): (i: Option<nat>)
    ensures i.Some? ==> i.value < |entries| && entries[i.value].filename in {a, b}
    ensures i.Some? ==> forall j :: 0 <= j < i.value ==> entries[j].filename !in {a, b}
    ensures i.None? ==> forall j :: 0 <= j < |entries| ==> entries[j].filename !in {a, b}
  {
    if entries == [] then None
    else
      var before := IndexOfEither(entries[..|entries| - 1], a, b);
      assert forall j :: 0 <= j < |entries| - 1 ==> entries[..|entries| - 1][j] == entries[j];
      if before.Some? then before
      else if entries[|entries| - 1].filename in {a, b} then Some(|entries| - 1) else None
  }

  function HookOne(p: Progress, f: HookFile, was: string, now: string): Progress {
    if f.content.None? || !f.uploadWorks then p.(failed := true)
    else
      var hash := Digest(SHA512, f.content.value);
      var i := IndexOfEither(p.entries, f.name, Replaced(f.name, now, was));
      Progress(
        if i.Some? then p.entries[i.value := p.entries[i.value].(filename := f.name, hash := hash)]
        else p.entries + [Entry(SHA512, f.name, hash)],
        p.cache + {Uploaded(f.name, SHA512, f.content.value)}, p.downloaded + [f.name], false)
  }

  function Hooked(p: Progress, files: seq<HookFile>, was: string, now: string): Progress {
    if files == [] then p
    else
      var before := Hooked(p, files[..|files| - 1], was, now);
      if before.failed then before else HookOne(before, files[|files| - 1], was, now)
  }

  function AfterHook(s: State, files: seq<HookFile>, was: string, now: string): State {
    var p := Hooked(Progress(s.sources, s.cache, [], false), files, was, now);
    State(if p.failed then s.sources else p.entries, p.cache)
  }

  /** An entry of the file that gorget emitted, with the emitted file itself if it is there. */
  datatype Emitted = Emitted(entry: Entry, content: Option<string>, uploadWorks: bool)

  function Listed(out: seq<Emitted>): (r: seq<Entry>)
    ensures |r| == |out| && forall i :: 0 <= i < |out| ==> r[i] == out[i].entry
  {
    seq(|out|, i requires 0 <= i < |out| => out[i].entry)
  }

  function Stored(cache: set<Upload>, out: seq<Emitted>): (set<Upload>, bool) {
    if out == [] then (cache, true)
    else
      var (before, ok) := Stored(cache, out[..|out| - 1]);
      var last := out[|out| - 1];
      if !ok || last.content.None? || !last.uploadWorks then (before, false)
      else (before + {Uploaded(last.entry.filename, last.entry.algo, last.content.value)}, true)
  }

  /** `_run_gorget_pipeline`: nothing without a nonempty result, else its list replaces the file wholesale. */
  function AfterGorget(s: State, out: Option<seq<Emitted>>): State {
    if out.None? || out.value == [] then s
    else
      var (cache, ok) := Stored(s.cache, out.value);
      State(if ok then Listed(out.value) else s.sources, cache)
  }

  // ----- the updates as they change the files -----

  class PackageSources {
    var sources: seq<Entry>
    var cache: set<Upload>

    ghost function Now(): State
      reads this
    {
      State(sources, cache)
    }

    constructor (entries: seq<Entry>, uploads: set<Upload>)
      ensures Now() == State(entries, uploads)
    {
      sources, cache := entries, uploads;
    }

    method DownloadNewSources(remotes: seq<Remote>, declared: set<string>, v: Vendoring, was: string, now: string)
      returns (downloaded: Option<seq<string>>)
      modifies this
      ensures Now() == AfterDefault(old(Now()), remotes, v, was, now)
      ensures old(sources) != [] && remotes == [] ==>
                (downloaded.None? <==> Names(old(sources)) - declared != {})
      ensures old(sources) == [] || remotes != [] ==>
                (downloaded.None? <==> Phases(old(Now()), remotes, v, was, now).failed)
    {
      var listed := Names(sources);
      if sources != [] && remotes == [] {
        var unexplained := listed - declared;
        return if unexplained != {} then None else Some([]);
      }
      ghost var start := Progress(sources, cache, [], false);
      var entries, names: seq<string> := sources, [];
      for i := 0 to |remotes|
        invariant sources == old(sources)
        invariant Fetched(start, remotes[..i], listed) == Progress(entries, cache, names, false)
      {
        OneMoreRemote(start, remotes, i, listed);
        var r := remotes[i];
        var name := Basename(r.url);
        if name in listed {
          continue;
        }
        if r.content.None? || !r.uploadWorks {
          FailureStays(start, remotes, i + 1, listed);
          return None;
        }
        cache := cache + {Uploaded(name, SHA512, r.content.value)};
        entries := entries + [Entry(SHA512, name, Digest(SHA512, r.content.value))];
        names := names + [name];
      }
      assert remotes[..|remotes|] == remotes;
      var vendorAt := FirstVendor(entries);
      if v.configured && vendorAt.Some? {
        if v.content.None? || !v.uploadWorks {
          return None;
        }
        var at := vendorAt.value;
        var algo, name := entries[at].algo, Replaced(entries[at].filename, was, now);
        cache := cache + {Uploaded(name, algo, v.content.value)};
        entries := entries[at := Entry(algo, name, Digest(algo, v.content.value))];
        names := names + [name];
      }
      var stale := Stale(listed, entries, remotes);
      if names == [] && stale == {} {
        NothingFetched(start, remotes, listed);
        NothingStale(entries);
        return Some([]);
      }
      sources := RemoveStale(entries, stale);
      downloaded := Some(names);
    }

    /** The branch of `update_spec_version` that takes file names from a hook. */
    method UpdateFromHook(files: seq<HookFile>, was: string, now: string) returns (ok: bool)
      modifies this
      ensures Now() == AfterHook(old(Now()), files, was, now)
      ensures ok == !Hooked(Progress(old(sources), old(cache), [], false), files, was, now).failed
    {
      ghost var start := Progress(sources, cache, [], false);
      var entries, names: seq<string> := sources, [];
      for i := 0 to |files|
        invariant sources == old(sources) && |names| == i
        invariant Hooked(start, files[..i], was, now) == Progress(entries, cache, names, false)
      {
        OneMoreFile(start, files, i, was, now);
        var f := files[i];
        if f.content.None? || !f.uploadWorks {
          HookFailureStays(start, files, i + 1, was, now);
          return false;
        }
        cache := cache + {Uploaded(f.name, SHA512, f.content.value)};
        var hash := Digest(SHA512, f.content.value);
        var existing := FirstOfEither(entries, f.name, Replaced(f.name, now, was));
        if existing.Some? {
          entries := entries[existing.value := entries[existing.value].(filename := f.name, hash := hash)];
        } else {
          entries := entries + [Entry(SHA512, f.name, hash)];
        }
        names := names + [f.name];
      }
      assert files[..|files|] == files;
      if names != [] {
        sources := entries;
      }
      ok := true;
    }

    method RunGorgetPipeline(out: Option<seq<Emitted>>) returns (ok: bool)
      modifies this
      ensures Now() == AfterGorget(old(Now()), out)
      ensures ok <==> out.Some? && out.value != [] && Stored(old(cache), out.value).1
    {
      if out.None? || out.value == [] {
        return false;
      }
      var emitted := out.value;
      for i := 0 to |emitted|
        invariant sources == old(sources) && Stored(old(cache), emitted[..i]) == (cache, true)
      {
        OneMoreEmitted(old(cache), emitted, i);
        var e := emitted[i];
        if e.content.None? || !e.uploadWorks {
          StoreFailureStays(old(cache), emitted, i + 1);
          return false;
        }
        cache := cache + {Uploaded(e.entry.filename, e.entry.algo, e.content.value)};
      }
      assert emitted[..|emitted|] == emitted;
      sources := Listed(emitted);
      ok := true;
    }
  }

  method FirstVendor(entries: seq<Entry>) returns (i: Option<nat>)
    ensures i == VendorIndex(entries)
  {
    for k := 0 to |entries|
      invariant forall j :: 0 <= j < k ==> !IsVendor(entries[j].filename)
    {
      if IsVendor(entries[k].filename) {
        return Some(k);
      }
    }
    i := None;
  }

  method FirstOfEither(entries: seq<Entry>, a: string, b: string) returns (i: Option<nat>)
    ensures i == IndexOfEither(entries, a, b)
  {
    for k := 0 to |entries|
      invariant forall j :: 0 <= j < k ==> entries[j].filename !in {a, b}
    {
      if entries[k].filename == a || entries[k].filename == b {
        return Some(k);
      }
    }
    i := None;
  }

  method RemoveStale(entries: seq<Entry>, stale: set<string>) returns (r: seq<Entry>)
    ensures r == Without(entries, stale)
  {
    r := [];
    for i := 0 to |entries|
      invariant r == Without(entries[..i], stale)
    {
      assert entries[..i + 1][..i] == entries[..i];
      if entries[i].filename !in stale {
        r := r + [entries[i]];
      }
    }
    assert entries[..|entries|] == entries;
  }

  lemma {:induction false} OneMoreRemote(p: Progress, remotes: seq<Remote>, i: nat, listed: set<string>)
    requires i < |remotes| && !Fetched(p, remotes[..i], listed).failed
    ensures Fetched(p, remotes[..i + 1], listed) == FetchOne(Fetched(p, remotes[..i], listed), remotes[i], listed)
  {
    assert remotes[..i + 1][..i] == remotes[..i];
  }

  lemma {:induction false} FailureStays(p: Progress, remotes: seq<Remote>, i: nat, listed: set<string>)
    requires i <= |remotes| && Fetched(p, remotes[..i], listed).failed
    ensures Fetched(p, remotes, listed) == Fetched(p, remotes[..i], listed)
    decreases |remotes|
  {
    if i < |remotes| {
      assert remotes[..|remotes| - 1][..i] == remotes[..i];
      FailureStays(p, remotes[..|remotes| - 1], i, listed);
    } else {
      assert remotes[..i] == remotes;
    }
  }

  lemma {:induction false} OneMoreFile(p: Progress, files: seq<HookFile>, i: nat, was: string, now: string)
    requires i < |files| && !Hooked(p, files[..i], was, now).failed
    ensures Hooked(p, files[..i + 1], was, now) == HookOne(Hooked(p, files[..i], was, now), files[i], was, now)
  {
    assert files[..i + 1][..i] == files[..i];
  }

  lemma {:induction false} HookFailureStays(p: Progress, files: seq<HookFile>, i: nat, was: string, now: string)
    requires i <= |files| && Hooked(p, files[..i], was, now).failed
    ensures Hooked(p, files, was, now) == Hooked(p, files[..i], was, now)
    decreases |files|
  {
    if i < |files| {
      assert files[..|files| - 1][..i] == files[..i];
      HookFailureStays(p, files[..|files| - 1], i, was, now);
    } else {
      assert files[..i] == files;
    }
  }

  lemma {:induction false} OneMoreEmitted(cache: set<Upload>, out: seq<Emitted>, i: nat)
    requires i < |out| && Stored(cache, out[..i]).1
    ensures var e, before := out[i], Stored(cache, out[..i]).0;
            Stored(cache, out[..i + 1]) ==
            if e.content.None? || !e.uploadWorks then (before, false)
            else (before + {Uploaded(e.entry.filename, e.entry.algo, e.content.value)}, true)
  {
    assert out[..i + 1][..i] == out[..i];
  }

  lemma {:induction false} StoreFailureStays(cache: set<Upload>, out: seq<Emitted>, i: nat)
    requires i <= |out| && !Stored(cache, out[..i]).1
    ensures Stored(cache, out) == Stored(cache, out[..i])
    decreases |out|
  {
    if i < |out| {
      assert out[..|out| - 1][..i] == out[..i];
      StoreFailureStays(cache, out[..|out| - 1], i);
    } else {
      assert out[..i] == out;
    }
  }

  /** Without a new name nothing was fetched at all. */
  lemma {:induction false} NothingFetched(p: Progress, remotes: seq<Remote>, listed: set<string>)
    ensures var r := Fetched(p, remotes, listed);
            |r.downloaded| >= |p.downloaded| &&
            (|r.downloaded| == |p.downloaded| ==> r.entries == p.entries && r.cache == p.cache)
  {
    if remotes != [] {
      NothingFetched(p, remotes[..|remotes| - 1], listed);
    }
  }

  lemma {:induction false} NothingStale(entries: seq<Entry>)
    ensures Without(entries, {}) == entries
  {
    if entries != [] {
      NothingStale(entries[..|entries| - 1]);
      assert entries == entries[..|entries| - 1] + [entries[|entries| - 1]];
    }
  }

  // ----- every listed name has been uploaded -----

  function CacheNames(cache: set<Upload>): set<string> { set u | u in cache :: u.filename }

  ghost predicate AllNamesUploaded(entries: seq<Entry>, cache: set<Upload>) { Names(entries) <= CacheNames(cache) }

  lemma {:induction false} NamesOfMore(entries: seq<Entry>, e: Entry)
    ensures Names(entries + [e]) == Names(entries) + {e.filename}
  {
    var all := entries + [e];
    assert all[|entries|] == e;
    forall n | n in Names(entries)
      ensures n in Names(all)
    {
      var i :| 0 <= i < |entries| && entries[i].filename == n;
      assert all[i].filename == n;
    }
  }

  lemma {:induction false} NamesOfUpdate(entries: seq<Entry>, i: nat, e: Entry)
    requires i < |entries|
    ensures Names(entries[i := e]) <= Names(entries) + {e.filename}
    ensures e.filename in Names(entries[i := e])
    ensures Names(entries) <= Names(entries[i := e]) + {entries[i].filename}
  {
    var after := entries[i := e];
    assert after[i] == e;
    forall n | n in Names(entries)
      ensures n in Names(after) || n == entries[i].filename
    {
      var j :| 0 <= j < |entries| && entries[j].filename == n;
      assert j != i ==> after[j].filename == n;
    }
  }

  lemma {:induction false} NamesOfWithout(entries: seq<Entry>, stale: set<string>)
    ensures Names(Without(entries, stale)) == Names(entries) - stale
  {
    if entries != [] {
      var init, last := entries[..|entries| - 1], entries[|entries| - 1];
      NamesOfWithout(init, stale);
      NamesOfMore(init, last);
      assert entries == init + [last];
      if last.filename in stale {
        assert Without(entries, stale) == Without(init, stale) + [] == Without(init, stale);
      } else {
        NamesOfMore(Without(init, stale), last);
      }
    }
  }

  lemma {:induction false} CacheGrows(cache: set<Upload>, u: Upload)
    ensures CacheNames(cache + {u}) == CacheNames(cache) + {u.filename}
  {
    assert u in cache + {u};
    forall n | n in CacheNames(cache)
      ensures n in CacheNames(cache + {u})
    {
      var v :| v in cache && v.filename == n;
      assert v in cache + {u};
    }
  }

  ghost predicate Sound(p: Progress, cache: set<Upload>) { cache <= p.cache && AllNamesUploaded(p.entries, p.cache) }

  lemma {:induction false} FetchIsSound(p: Progress, remotes: seq<Remote>, listed: set<string>)
    requires AllNamesUploaded(p.entries, p.cache)
    ensures Sound(Fetched(p, remotes, listed), p.cache)
  {
    if remotes != [] {
      var before, r := Fetched(p, remotes[..|remotes| - 1], listed), remotes[|remotes| - 1];
      FetchIsSound(p, remotes[..|remotes| - 1], listed);
      if !before.failed && Basename(r.url) !in listed && r.content.Some? && r.uploadWorks {
        NamesOfMore(before.entries, Entry(SHA512, Basename(r.url), Digest(SHA512, r.content.value)));
        CacheGrows(before.cache, Uploaded(Basename(r.url), SHA512, r.content.value));
      }
    }
  }

  lemma {:induction false} RegenerationIsSound(p: Progress, v: Vendoring, was: string, now: string)
    requires AllNamesUploaded(p.entries, p.cache)
    ensures Sound(Regenerated(p, v, was, now), p.cache)
  {
    var i := VendorIndex(p.entries);
    if v.configured && i.Some? && v.content.Some? && v.uploadWorks {
      var algo, name := p.entries[i.value].algo, Replaced(p.entries[i.value].filename, was, now);
      NamesOfUpdate(p.entries, i.value, Entry(algo, name, Digest(algo, v.content.value)));
      CacheGrows(p.cache, Uploaded(name, algo, v.content.value));
    }
  }

  lemma {:induction false} HookIsSound(p: Progress, files: seq<HookFile>, was: string, now: string)
    requires AllNamesUploaded(p.entries, p.cache)
    ensures Sound(Hooked(p, files, was, now), p.cache)
  {
    if files != [] {
      var before, f := Hooked(p, files[..|files| - 1], was, now), files[|files| - 1];
      HookIsSound(p, files[..|files| - 1], was, now);
      if !before.failed && f.content.Some? && f.uploadWorks {
        var hash := Digest(SHA512, f.content.value);
        var i := IndexOfEither(before.entries, f.name, Replaced(f.name, now, was));
        CacheGrows(before.cache, Uploaded(f.name, SHA512, f.content.value));
        if i.Some? {
          NamesOfUpdate(before.entries, i.value, before.entries[i.value].(filename := f.name, hash := hash));
        } else {
          NamesOfMore(before.entries, Entry(SHA512, f.name, hash));
        }
      }
    }
  }

  lemma {:induction false} StoreIsSound(cache: set<Upload>, out: seq<Emitted>)
    ensures cache <= Stored(cache, out).0
    ensures Stored(cache, out).1 ==> Names(Listed(out)) <= CacheNames(Stored(cache, out).0)
  {
    if out != [] {
      var init, last := out[..|out| - 1], out[|out| - 1];
      StoreIsSound(cache, init);
      if Stored(cache, out).1 {
        NamesOfMore(Listed(init), last.entry);
        assert Listed(out) == Listed(init) + [last.entry];
        CacheGrows(Stored(cache, init).0, Uploaded(last.entry.filename, last.entry.algo, last.content.value));
      }
    }
  }

  /** The package, its committed `sources` file, and the cache that is never cleaned. */
  datatype Repo = Repo(now: State, committed: seq<Entry>)

  datatype Command =
    | Default(remotes: seq<Remote>, vendoring: Vendoring, was: string, now: string)
    | Hook(files: seq<HookFile>, was: string, now: string)
    | Gorget(out: Option<seq<Emitted>>)
    | Commit
    | Discard

  function Step(r: Repo, c: Command): Repo {
    match c
    case Default(remotes, v, was, now) => r.(now := AfterDefault(r.now, remotes, v, was, now))
    case Hook(files, was, now) => r.(now := AfterHook(r.now, files, was, now))
    case Gorget(out) => r.(now := AfterGorget(r.now, out))
    case Commit => r.(committed := r.now.sources)
    case Discard => r.(now := r.now.(sources := r.committed))
  }

  function Run(r: Repo, commands: seq<Command>): Repo {
    if commands == [] then r else Step(Run(r, commands[..|commands| - 1]), commands[|commands| - 1])
  }

  ghost predicate NothingMissing(r: Repo) {
    AllNamesUploaded(r.now.sources, r.now.cache) && AllNamesUploaded(r.committed, r.now.cache)
  }

  lemma {:induction false} CacheNamesGrow(a: set<Upload>, b: set<Upload>)
    requires a <= b
    ensures CacheNames(a) <= CacheNames(b)
  {
  }

  lemma {:induction false} DefaultIsSound(s: State, remotes: seq<Remote>, v: Vendoring, was: string, now: string)
    requires AllNamesUploaded(s.sources, s.cache)
    ensures var t := AfterDefault(s, remotes, v, was, now); s.cache <= t.cache && AllNamesUploaded(t.sources, t.cache)
  {
    var start := Progress(s.sources, s.cache, [], false);
    var p := Fetched(start, remotes, Names(s.sources));
    FetchIsSound(start, remotes, Names(s.sources));
    CacheNamesGrow(s.cache, p.cache);
    if !p.failed {
      var q := Regenerated(p, v, was, now);
      RegenerationIsSound(p, v, was, now);
      CacheNamesGrow(p.cache, q.cache);
      NamesOfWithout(q.entries, Stale(Names(s.sources), q.entries, remotes));
    }
  }

  lemma {:induction false} StepMissesNothing(r: Repo, c: Command)
    requires NothingMissing(r)
    ensures NothingMissing(Step(r, c))
  {
    match c
    case Default(remotes, v, was, now) =>
      DefaultIsSound(r.now, remotes, v, was, now);
      CacheNamesGrow(r.now.cache, Step(r, c).now.cache);
    case Hook(files, was, now) =>
      HookIsSound(Progress(r.now.sources, r.now.cache, [], false), files, was, now);
      CacheNamesGrow(r.now.cache, Step(r, c).now.cache);
    case Gorget(out) =>
      if out.Some? {
        StoreIsSound(r.now.cache, out.value);
      }
      CacheNamesGrow(r.now.cache, Step(r, c).now.cache);
    case _ =>
  }

  /** Over any run of updates of all three kinds, with failures anywhere, every listed name has been uploaded. */
  lemma {:induction false} EveryListedNameIsUploaded(r: Repo, commands: seq<Command>)
    requires NothingMissing(r)
    ensures NothingMissing(Run(r, commands))
  {
    if commands != [] {
      EveryListedNameIsUploaded(r, commands[..|commands| - 1]);
      StepMissesNothing(Run(r, commands[..|commands| - 1]), commands[|commands| - 1]);
    }
  }

  // ----- every listed hash is served -----

  predicate IsServed(e: Entry, cache: set<Upload>) { Upload(e.filename, e.algo, e.hash) in cache }

  predicate AllServed(entries: seq<Entry>, cache: set<Upload>) {
    forall i :: 0 <= i < |entries| ==> IsServed(entries[i], cache)
  }

  /** Uploads carry the hash of the kind they were made with. */
  predicate Consistent(cache: set<Upload>) { forall u :: u in cache ==> u.hash.algo == u.algo }

  lemma {:induction false} FetchServes(p: Progress, remotes: seq<Remote>, listed: set<string>)
    requires AllServed(p.entries, p.cache)
    ensures var q := Fetched(p, remotes, listed); AllServed(q.entries, q.cache)
  {
    if remotes != [] {
      FetchServes(p, remotes[..|remotes| - 1], listed);
    }
  }

  lemma {:induction false} WithoutServes(entries: seq<Entry>, stale: set<string>, cache: set<Upload>)
    requires AllServed(entries, cache)
    ensures AllServed(Without(entries, stale), cache)
  {
    if entries != [] {
      WithoutServes(entries[..|entries| - 1], stale, cache);
    }
  }

  lemma {:induction false} PhasesServe(s: State, remotes: seq<Remote>, v: Vendoring, was: string, now: string)
    requires AllServed(s.sources, s.cache)
    ensures var p := Phases(s, remotes, v, was, now); AllServed(p.entries, p.cache)
    ensures AllServed(s.sources, Phases(s, remotes, v, was, now).cache)
  {
    var start := Progress(s.sources, s.cache, [], false);
    FetchServes(start, remotes, Names(s.sources));
    FetchKeepsCache(start, remotes, Names(s.sources));
  }

  lemma {:induction false} FetchKeepsCache(p: Progress, remotes: seq<Remote>, listed: set<string>)
    ensures p.cache <= Fetched(p, remotes, listed).cache
  {
    if remotes != [] {
      FetchKeepsCache(p, remotes[..|remotes| - 1], listed);
    }
  }

  // ----- names and contents of new entries -----

  /** The file name of a URL is what follows its last slash. */
  lemma {:induction false} BasenameIsLast(a: string, b: string)
    requires '/' !in b
    ensures Basename(a + "/" + b) == b && Basename(b) == b
  {
    var url := a + "/" + b;
    assert url[|a|] == '/' && forall j :: |a| < j < |url| ==> url[j] == b[j - |a| - 1];
    assert url[|a| + 1..] == b;
  }

  /** Every occurrence is replaced, from left to right. */
  lemma {:induction false} ReplacedStep(a: string, was: string, b: string, now: string)
    requires was != "" && FindFrom(a + was + b, was, 0) == Some(|a|)
    ensures Replaced(a + was + b, was, now) == a + now + Replaced(b, was, now)
  {
    var s := a + was + b;
    assert s[..|a|] == a && s[|a| + |was|..] == b;
  }

  predicate IsContentOf(e: Entry, r: Remote) {
    && Basename(r.url) == e.filename && r.content.Some?
    && e == Entry("SHA512", e.filename, Digest("SHA512", r.content.value))
  }

  /** A source that was not listed is entered with the SHA512 hash of what was fetched. */
  ghost predicate IsFetched(e: Entry, remotes: seq<Remote>, listed: set<string>) {
    e.filename !in listed && exists i :: 0 <= i < |remotes| && IsContentOf(e, remotes[i])
  }

  predicate IsArchiveAfter(e: Entry, a: Entry, content: string, was: string, now: string) {
    IsVendor(a.filename) && e == Entry(a.algo, Replaced(a.filename, was, now), Digest(a.algo, content))
  }

  /** The vendor archive is entered under its new name, with the algorithm it had and the hash of its new content. */
  ghost predicate IsRegenerated(e: Entry, entries: seq<Entry>, v: Vendoring, was: string, now: string) {
    v.configured && v.content.Some? && exists a :: a in entries && IsArchiveAfter(e, a, v.content.value, was, now)
  }

  lemma {:induction false} FetchedEntries(p: Progress, remotes: seq<Remote>, listed: set<string>, e: Entry)
    requires !Fetched(p, remotes, listed).failed && e in Fetched(p, remotes, listed).entries
    ensures e in p.entries || IsFetched(e, remotes, listed)
  {
    if remotes != [] {
      var init, last := remotes[..|remotes| - 1], remotes[|remotes| - 1];
      if e in Fetched(p, init, listed).entries {
        FetchedEntries(p, init, listed, e);
        assert forall i :: 0 <= i < |init| ==> init[i] == remotes[i];
      } else {
        assert remotes[|remotes| - 1] == last;
      }
    }
  }

  lemma {:induction false} KeptEntry(entries: seq<Entry>, stale: set<string>, e: Entry)
    ensures e in Without(entries, stale) <==> e in entries && e.filename !in stale
  {
    if entries != [] {
      KeptEntry(entries[..|entries| - 1], stale, e);
      assert entries == entries[..|entries| - 1] + [entries[|entries| - 1]];
    }
  }

  /** Entries that were listed before or fetched. */
  ghost predicate Among(entries: seq<Entry>, s: State, remotes: seq<Remote>) {
    forall x :: x in entries ==> x in s.sources || IsFetched(x, remotes, Names(s.sources))
  }

  lemma {:induction false} RegeneratedEntries(p: Progress, v: Vendoring, was: string, now: string, e: Entry)
    requires !Regenerated(p, v, was, now).failed && e in Regenerated(p, v, was, now).entries
    ensures e in p.entries || IsRegenerated(e, p.entries, v, was, now)
  {
    var i := VendorIndex(p.entries);
    if v.configured && i.Some? && e !in p.entries {
      assert p.entries[i.value] in p.entries;
      assert IsArchiveAfter(e, p.entries[i.value], v.content.value, was, now);
    }
  }

  lemma {:induction false} AmongFetched(s: State, remotes: seq<Remote>)
    requires !Fetched(Progress(s.sources, s.cache, [], false), remotes, Names(s.sources)).failed
    ensures Among(Fetched(Progress(s.sources, s.cache, [], false), remotes, Names(s.sources)).entries, s, remotes)
  {
    var start := Progress(s.sources, s.cache, [], false);
    forall x | x in Fetched(start, remotes, Names(s.sources)).entries
      ensures x in s.sources || IsFetched(x, remotes, Names(s.sources))
    {
      FetchedEntries(start, remotes, Names(s.sources), x);
    }
  }

  /** After a default update every entry was listed before, was fetched, or is the regenerated archive. */
  lemma {:induction false} DefaultEntries(
    s: State, remotes: seq<Remote>, v: Vendoring, was: string, now: string, e: Entry)
    requires e in AfterDefault(s, remotes, v, was, now).sources
    ensures e in s.sources || IsFetched(e, remotes, Names(s.sources))
            || exists entries :: Among(entries, s, remotes) && IsRegenerated(e, entries, v, was, now)
  {
    var fetched := Fetched(Progress(s.sources, s.cache, [], false), remotes, Names(s.sources));
    var p := Phases(s, remotes, v, was, now);
    if !(s.sources != [] && remotes == []) && !p.failed {
      KeptEntry(p.entries, Stale(Names(s.sources), p.entries, remotes), e);
      AmongFetched(s, remotes);
      RegeneratedEntries(fetched, v, was, now, e);
    }
  }

  // ----- when nothing is changed -----

  /** A source that is not listed cannot be fetched or uploaded. */
  predicate CannotFetch(r: Remote, listed: set<string>) {
    Basename(r.url) !in listed && (r.content.None? || !r.uploadWorks)
  }

  lemma {:induction false} FetchingFailsExactly(p: Progress, remotes: seq<Remote>, listed: set<string>)
    requires !p.failed
    ensures Fetched(p, remotes, listed).failed <==> exists i :: 0 <= i < |remotes| && CannotFetch(remotes[i], listed)
  {
    if remotes != [] {
      var init := remotes[..|remotes| - 1];
      FetchingFailsExactly(p, init, listed);
      assert forall i :: 0 <= i < |init| ==> init[i] == remotes[i];
    }
  }

  lemma {:induction false} ArchiveAmong(entries: seq<Entry>)
    ensures VendorIndex(entries).Some? <==> exists n :: n in Names(entries) && IsVendor(n)
  {
    if VendorIndex(entries).Some? {
      assert entries[VendorIndex(entries).value].filename in Names(entries);
    }
  }

  /** The names listed before or fetched now. */
  function FetchedNames(s: State, remotes: seq<Remote>): set<string> { Names(s.sources) + Basenames(remotes) }

  lemma {:induction false} NamesAfterFetching(p: Progress, remotes: seq<Remote>, listed: set<string>)
    requires !Fetched(p, remotes, listed).failed && listed == Names(p.entries)
    ensures Names(Fetched(p, remotes, listed).entries) == listed + Basenames(remotes)
  {
    if remotes == [] {
      assert Basenames([]) == {};
    } else {
      var init, last := remotes[..|remotes| - 1], remotes[|remotes| - 1];
      var before := Fetched(p, init, listed);
      NamesAfterFetching(p, init, listed);
      BasenamesOfMore(init, last);
      assert remotes == init + [last];
      if Basename(last.url) !in listed {
        NamesOfMore(before.entries, Entry(SHA512, Basename(last.url), Digest(SHA512, last.content.value)));
      }
    }
  }

  /** What makes a default update fail: a new source, or the vendor archive, that cannot be had or uploaded. */
  ghost predicate CannotUpdate(s: State, remotes: seq<Remote>, v: Vendoring) {
    || (exists i :: 0 <= i < |remotes| && CannotFetch(remotes[i], Names(s.sources)))
    || (v.configured && (v.content.None? || !v.uploadWorks) && exists n :: n in FetchedNames(s, remotes) && IsVendor(n))
  }

  lemma {:induction false} PhasesFailExactly(s: State, remotes: seq<Remote>, v: Vendoring, was: string, now: string)
    ensures Phases(s, remotes, v, was, now).failed <==> CannotUpdate(s, remotes, v)
  {
    var start := Progress(s.sources, s.cache, [], false);
    var p := Fetched(start, remotes, Names(s.sources));
    FetchingFailsExactly(start, remotes, Names(s.sources));
    if !p.failed {
      NamesAfterFetching(start, remotes, Names(s.sources));
      ArchiveAmong(p.entries);
    }
  }

  /**
   * With entries and no remote source nothing is changed at all, and an update that fails leaves the file as it
   * was; what it had uploaded until then stays in the cache.
   */
  lemma {:induction false} DefaultLeavesTheFile(s: State, remotes: seq<Remote>, v: Vendoring, was: string, now: string)
    ensures var t := AfterDefault(s, remotes, v, was, now);
            && (s.sources != [] && remotes == [] ==> t == s)
            && (CannotUpdate(s, remotes, v) ==> t.sources == s.sources) && s.cache <= t.cache
  {
    PhasesFailExactly(s, remotes, v, was, now);
    FetchKeepsCache(Progress(s.sources, s.cache, [], false), remotes, Names(s.sources));
  }

  predicate CannotHook(f: HookFile) { f.content.None? || !f.uploadWorks }

  lemma {:induction false} HookFailsExactly(p: Progress, files: seq<HookFile>, was: string, now: string)
    requires !p.failed
    ensures Hooked(p, files, was, now).failed <==> exists i :: 0 <= i < |files| && CannotHook(files[i])
  {
    if files != [] {
      HookFailsExactly(p, files[..|files| - 1], was, now);
      assert forall i :: 0 <= i < |files| - 1 ==> files[..|files| - 1][i] == files[i];
    }
  }

  predicate CannotEmit(e: Emitted) { e.content.None? || !e.uploadWorks }

  lemma {:induction false} StoringFailsExactly(cache: set<Upload>, out: seq<Emitted>)
    ensures !Stored(cache, out).1 <==> exists i :: 0 <= i < |out| && CannotEmit(out[i])
  {
    if out != [] {
      StoringFailsExactly(cache, out[..|out| - 1]);
      assert forall i :: 0 <= i < |out| - 1 ==> out[..|out| - 1][i] == out[i];
    }
  }

  /** A file that is missing or cannot be uploaded leaves the list of a hook or gorget update as it was. */
  lemma {:induction false} FailuresLeaveTheFile(
    s: State, files: seq<HookFile>, was: string, now: string, out: Option<seq<Emitted>>)
    ensures (exists i :: 0 <= i < |files| && CannotHook(files[i])) ==> AfterHook(s, files, was, now).sources == s.sources
    ensures out.None? || out.value == [] || (exists i :: 0 <= i < |out.value| && CannotEmit(out.value[i])) ==>
              AfterGorget(s, out).sources == s.sources
  {
    HookFailsExactly(Progress(s.sources, s.cache, [], false), files, was, now);
    if out.Some? {
      StoringFailsExactly(s.cache, out.value);
    }
  }

  /** A default update keeps every entry fetchable with the very hash that is listed. */
  lemma {:induction false} DefaultKeepsServing(s: State, remotes: seq<Remote>, v: Vendoring, was: string, now: string)
    requires AllServed(s.sources, s.cache)
    ensures var t := AfterDefault(s, remotes, v, was, now); AllServed(t.sources, t.cache)
  {
    var p := Phases(s, remotes, v, was, now);
    PhasesServe(s, remotes, v, was, now);
    WithoutServes(p.entries, Stale(Names(s.sources), p.entries, remotes), p.cache);
  }

  /** An entry without its hash. */
  datatype Row = Row(algo: string, filename: string)

  function Rows(entries: seq<Entry>): (rows: seq<Row>)
    ensures |rows| == |entries|
    ensures forall i :: 0 <= i < |rows| ==> rows[i] == Row(entries[i].algo, entries[i].filename)
  {
    seq(|entries|, i requires 0 <= i < |entries| => Row(entries[i].algo, entries[i].filename))
  }

  function HookNames(files: seq<HookFile>): (names: seq<string>)
    ensures |names| == |files| && forall i :: 0 <= i < |names| ==> names[i] == files[i].name
  {
    seq(|files|, i requires 0 <= i < |files| => files[i].name)
  }

  function RowOfEither(rows: seq<Row>, a: string, b: string): (i: Option<nat>)
    ensures i.Some? ==> i.value < |rows| && rows[i.value].filename in {a, b}
    ensures i.Some? ==> forall j :: 0 <= j < i.value ==> rows[j].filename !in {a, b}
    ensures i.None? ==> forall j :: 0 <= j < |rows| ==> rows[j].filename !in {a, b}
  {
    if rows == [] then None
    else
      var before := RowOfEither(rows[..|rows| - 1], a, b);
      assert forall j :: 0 <= j < |rows| - 1 ==> rows[..|rows| - 1][j] == rows[j];
      if before.Some? then before
      else if rows[|rows| - 1].filename in {a, b} then Some(|rows| - 1) else None
  }

  /** The listed algorithms and names after a hook printed a name. */
  function Relisted(rows: seq<Row>, name: string, was: string, now: string): seq<Row> {
    var i := RowOfEither(rows, name, Replaced(name, now, was));
    if i.Some? then rows[i.value := rows[i.value].(filename := name)] else rows + [Row(SHA512, name)]
  }

  function RelistedAll(rows: seq<Row>, names: seq<string>, was: string, now: string): seq<Row> {
    if names == [] then rows
    else Relisted(RelistedAll(rows, names[..|names| - 1], was, now), names[|names| - 1], was, now)
  }

  /** The name takes over an entry that is listed with another algorithm. */
  predicate IsTakeover(rows: seq<Row>, name: string, was: string, now: string) {
    var i := RowOfEither(rows, name, Replaced(name, now, was));
    i.Some? && rows[i.value].algo != SHA512
  }

  /** Some printed name does, which the listed algorithms and names and the printed names decide. */
  predicate TakesOverForeign(rows: seq<Row>, names: seq<string>, was: string, now: string) {
    names != [] &&
    (TakesOverForeign(rows, names[..|names| - 1], was, now) ||
     IsTakeover(RelistedAll(rows, names[..|names| - 1], was, now), names[|names| - 1], was, now))
  }

  lemma {:induction false} RowIsIndex(entries: seq<Entry>, a: string, b: string)
    ensures RowOfEither(Rows(entries), a, b) == IndexOfEither(entries, a, b)
  {
  }

  lemma {:induction false} HookedRow(p: Progress, f: HookFile, was: string, now: string)
    requires f.content.Some? && f.uploadWorks
    ensures Rows(HookOne(p, f, was, now).entries) == Relisted(Rows(p.entries), f.name, was, now)
  {
    RowIsIndex(p.entries, f.name, Replaced(f.name, now, was));
  }

  lemma {:induction false} HookedRows(p: Progress, files: seq<HookFile>, was: string, now: string)
    requires !p.failed && !Hooked(p, files, was, now).failed
    ensures Rows(Hooked(p, files, was, now).entries) == RelistedAll(Rows(p.entries), HookNames(files), was, now)
  {
    if files != [] {
      var init := files[..|files| - 1];
      HookedRows(p, init, was, now);
      HookedRow(Hooked(p, init, was, now), files[|files| - 1], was, now);
      assert HookNames(files)[..|files| - 1] == HookNames(init);
    }
  }

  predicate IsForeign(e: Entry) { e.algo != SHA512 && e.hash.algo == SHA512 }

  ghost predicate ServedOrForeign(entries: seq<Entry>, cache: set<Upload>, foreign: bool) {
    && Consistent(cache)
    && (forall i :: 0 <= i < |entries| ==> IsServed(entries[i], cache) || IsForeign(entries[i]))
    && (foreign <==> exists i :: 0 <= i < |entries| && IsForeign(entries[i]))
  }

  lemma {:induction false} OneHookServes(p: Progress, f: HookFile, was: string, now: string, foreign: bool)
    requires ServedOrForeign(p.entries, p.cache, foreign) && f.content.Some? && f.uploadWorks
    ensures var q := HookOne(p, f, was, now);
            ServedOrForeign(q.entries, q.cache, foreign || IsTakeover(Rows(p.entries), f.name, was, now))
  {
    RowIsIndex(p.entries, f.name, Replaced(f.name, now, was));
    var q, i := HookOne(p, f, was, now), IndexOfEither(p.entries, f.name, Replaced(f.name, now, was));
    assert Uploaded(f.name, SHA512, f.content.value) in q.cache;
    if foreign {
      var j :| 0 <= j < |p.entries| && IsForeign(p.entries[j]);
      assert IsForeign(q.entries[j]);
    }
    if i.Some? && p.entries[i.value].algo != SHA512 {
      assert IsForeign(q.entries[i.value]);
    }
  }

  lemma {:induction false} HookServes(p: Progress, files: seq<HookFile>, was: string, now: string)
    requires AllServed(p.entries, p.cache) && Consistent(p.cache) && !p.failed && !Hooked(p, files, was, now).failed
    ensures var q := Hooked(p, files, was, now);
            ServedOrForeign(q.entries, q.cache, TakesOverForeign(Rows(p.entries), HookNames(files), was, now))
  {
    if files == [] {
      forall i | 0 <= i < |p.entries|
        ensures !IsForeign(p.entries[i])
      {
        assert IsServed(p.entries[i], p.cache);
      }
    } else {
      var init := files[..|files| - 1];
      HookServes(p, init, was, now);
      HookedRows(p, init, was, now);
      assert HookNames(files)[..|files| - 1] == HookNames(init);
      OneHookServes(Hooked(p, init, was, now), files[|files| - 1], was, now,
                    TakesOverForeign(Rows(p.entries), HookNames(init), was, now));
    }
  }

  /**
   * A hook update leaves every entry fetchable with the hash that is listed exactly when no printed file takes
   * over an entry with another algorithm: such an entry keeps its algorithm but gets a SHA512 hash.
   */
  lemma {:induction false} HookServesExactly(s: State, files: seq<HookFile>, was: string, now: string)
    requires AllServed(s.sources, s.cache) && Consistent(s.cache)
    requires !Hooked(Progress(s.sources, s.cache, [], false), files, was, now).failed
    ensures var t := AfterHook(s, files, was, now);
            AllServed(t.sources, t.cache) <==>
            !TakesOverForeign(Rows(s.sources), HookNames(files), was, now)
  {
    var start := Progress(s.sources, s.cache, [], false);
    HookServes(start, files, was, now);
    var t := AfterHook(s, files, was, now);
    forall i | 0 <= i < |t.sources| && IsForeign(t.sources[i])
      ensures !IsServed(t.sources[i], t.cache)
    {
    }
  }

  lemma {:induction false} StoredHolds(cache: set<Upload>, out: seq<Emitted>, i: nat)
    requires Stored(cache, out).1 && i < |out|
    ensures out[i].content.Some?
    ensures Uploaded(out[i].entry.filename, out[i].entry.algo, out[i].content.value) in Stored(cache, out).0
    decreases |out|
  {
    if i < |out| - 1 {
      StoredHolds(cache, out[..|out| - 1], i);
    }
  }

  /** A gorget update that emits true hashes leaves every entry fetchable with them. */
  lemma {:induction false} GorgetServes(s: State, out: seq<Emitted>)
    requires out != [] && Stored(s.cache, out).1
    requires forall i :: 0 <= i < |out| && out[i].content.Some? ==>
               out[i].entry.hash == Digest(out[i].entry.algo, out[i].content.value)
    ensures var t := AfterGorget(s, Some(out)); t.sources == Listed(out) && AllServed(t.sources, t.cache)
  {
    var t := AfterGorget(s, Some(out));
    forall i | 0 <= i < |out|
      ensures IsServed(t.sources[i], t.cache)
    {
      StoredHolds(s.cache, out, i);
    }
  }

  // ----- the names after a default update -----

  function Elems(names: seq<string>): set<string> { set i | 0 <= i < |names| :: names[i] }

  function Lined(entries: seq<Entry>): (names: seq<string>)
    ensures |names| == |entries| && forall i :: 0 <= i < |entries| ==> names[i] == entries[i].filename
  {
    seq(|entries|, i requires 0 <= i < |entries| => entries[i].filename)
  }

  /** The names that are not listed yet, in the order of the spec. */
  function Unlisted(listed: set<string>, remotes: seq<Remote>): seq<string> {
    if remotes == [] then []
    else
      var name := Basename(remotes[|remotes| - 1].url);
      Unlisted(listed, remotes[..|remotes| - 1]) + if name in listed then [] else [name]
  }

  /** The names after fetching: those that were listed, and then the ones the spec adds. */
  function ToList(s: State, remotes: seq<Remote>): seq<string> { Lined(s.sources) + Unlisted(Names(s.sources), remotes) }

  function FirstArchive(names: seq<string>): (i: Option<nat>)
    ensures i.Some? ==> i.value < |names| && IsVendor(names[i.value])
    ensures i.Some? ==> forall j :: 0 <= j < i.value ==> !IsVendor(names[j])
    ensures i.None? ==> forall j :: 0 <= j < |names| ==> !IsVendor(names[j])
  {
    if names == [] then None
    else
      var before := FirstArchive(names[..|names| - 1]);
      assert forall j :: 0 <= j < |names| - 1 ==> names[..|names| - 1][j] == names[j];
      if before.Some? then before else if IsVendor(names[|names| - 1]) then Some(|names| - 1) else None
  }

  /** Which of the names is a vendor archive to be made again, and under which name. */
  function Renaming(names: seq<string>, v: Vendoring, was: string, now: string): (m: Option<(nat, string)>)
    ensures m.Some? ==> m.value.0 < |names|
  {
    var i := FirstArchive(names);
    if !v.configured || i.None? then None else Some((i.value, Replaced(names[i.value], was, now)))
  }

  function Renamed(names: seq<string>, m: Option<(nat, string)>): seq<string>
    requires m.Some? ==> m.value.0 < |names|
  {
    if m.None? then names else names[m.value.0 := m.value.1]
  }

  function Archives(names: seq<string>): set<string> { set i | 0 <= i < |names| && IsVendor(names[i]) :: names[i] }

  lemma {:induction false} NamesAreLined(entries: seq<Entry>)
    ensures Names(entries) == Elems(Lined(entries)) && VendorNames(entries) == Archives(Lined(entries))
    ensures VendorIndex(entries) == FirstArchive(Lined(entries))
  {
    var names := Lined(entries);
    forall n
      ensures n in Names(entries) <==> n in Elems(names)
      ensures n in VendorNames(entries) <==> n in Archives(names)
    {
      if n in Names(entries) {
        var i :| 0 <= i < |entries| && entries[i].filename == n;
        assert names[i] == n;
      }
      if n in Elems(names) {
        var i :| 0 <= i < |names| && names[i] == n;
        assert entries[i].filename == n;
      }
      if n in VendorNames(entries) {
        var i :| 0 <= i < |entries| && IsVendor(entries[i].filename) && entries[i].filename == n;
        assert names[i] == n;
      }
      if n in Archives(names) {
        var i :| 0 <= i < |names| && IsVendor(names[i]) && names[i] == n;
        assert entries[i].filename == n;
      }
    }
    SameFirst(entries, names, VendorIndex(entries), FirstArchive(names));
  }

  lemma {:induction false} SameFirst(entries: seq<Entry>, names: seq<string>, a: Option<nat>, b: Option<nat>)
    requires names == Lined(entries) && a == VendorIndex(entries) && b == FirstArchive(names)
    ensures a == b
  {
    if a.Some? {
      assert IsVendor(names[a.value]);
    }
    if b.Some? {
      assert IsVendor(entries[b.value].filename);
    }
  }

  lemma {:induction false} FetchedInOrder(p: Progress, remotes: seq<Remote>, listed: set<string>)
    requires !Fetched(p, remotes, listed).failed
    ensures Lined(Fetched(p, remotes, listed).entries) == Lined(p.entries) + Unlisted(listed, remotes)
  {
    if remotes != [] {
      var init, last := remotes[..|remotes| - 1], remotes[|remotes| - 1];
      FetchedInOrder(p, init, listed);
      var before, after := Fetched(p, init, listed).entries, Fetched(p, remotes, listed).entries;
      if Basename(last.url) !in listed {
        assert Lined(after) == Lined(before) + [Basename(last.url)];
      }
    }
  }

  /** The names after both phases are the names after fetching with the archive renamed. */
  lemma {:induction false} PhasesInOrder(s: State, remotes: seq<Remote>, v: Vendoring, was: string, now: string)
    requires !Phases(s, remotes, v, was, now).failed
    ensures var names := ToList(s, remotes);
            Lined(Phases(s, remotes, v, was, now).entries) == Renamed(names, Renaming(names, v, was, now))
  {
    var start := Progress(s.sources, s.cache, [], false);
    FetchedInOrder(start, remotes, Names(s.sources));
    NamesAreLined(Fetched(start, remotes, Names(s.sources)).entries);
  }

  lemma {:induction false} UnlistedElems(listed: set<string>, remotes: seq<Remote>)
    ensures Elems(Unlisted(listed, remotes)) == Basenames(remotes) - listed
  {
    if remotes == [] {
      assert Basenames([]) == {};
    } else {
      var init, last := remotes[..|remotes| - 1], remotes[|remotes| - 1];
      var name := Basename(last.url);
      UnlistedElems(listed, init);
      BasenamesOfMore(init, last);
      assert remotes == init + [last];
      ElemsConcat(Unlisted(listed, init), if name in listed then [] else [name]);
      assert name in listed ==> Basenames(remotes) - listed == Basenames(init) - listed;
      assert name !in listed ==> Basenames(remotes) - listed == (Basenames(init) - listed) + {name} && Elems([name]) == {name};
    }
  }

  lemma {:induction false} ElemsConcat(a: seq<string>, b: seq<string>)
    ensures Elems(a + b) == Elems(a) + Elems(b)
  {
    assert forall i :: 0 <= i < |a| ==> (a + b)[i] == a[i];
    assert forall i :: 0 <= i < |b| ==> (a + b)[|a| + i] == b[i];
  }

  lemma {:induction false} BasenamesOfMore(remotes: seq<Remote>, r: Remote)
    ensures Basenames(remotes + [r]) == Basenames(remotes) + {Basename(r.url)}
  {
    var all := remotes + [r];
    assert all[|remotes|] == r;
    forall n | n in Basenames(remotes)
      ensures n in Basenames(all)
    {
      var i :| 0 <= i < |remotes| && Basename(remotes[i].url) == n;
      assert Basename(all[i].url) == n;
    }
  }

  /** The names that a default update is to list: the remote sources and the vendor archives. */
  function Wanted(s: State, remotes: seq<Remote>, v: Vendoring, was: string, now: string): set<string> {
    var names := ToList(s, remotes);
    Basenames(remotes) + Archives(Renamed(names, Renaming(names, v, was, now)))
  }

  /** What is left after the stale names are removed, once the phases have succeeded. */
  lemma {:induction false} DefaultNames(s: State, remotes: seq<Remote>, v: Vendoring, was: string, now: string)
    requires (s.sources == [] || remotes != []) && !Phases(s, remotes, v, was, now).failed
    ensures var names := ToList(s, remotes);
            Names(AfterDefault(s, remotes, v, was, now).sources)
            == Elems(Renamed(names, Renaming(names, v, was, now))) - (Names(s.sources) - Wanted(s, remotes, v, was, now))
  {
    var p := Phases(s, remotes, v, was, now);
    NamesOfWithout(p.entries, Stale(Names(s.sources), p.entries, remotes));
    PhasesInOrder(s, remotes, v, was, now);
    NamesAreLined(p.entries);
  }

  predicate Elsewhere(names: seq<string>, i: nat)
    requires i < |names|
  {
    exists j :: 0 <= j < |names| && j != i && names[j] == names[i]
  }

  /**
   * The archive is renamed without harm: unless its name stays or is listed twice it is no remote source, and its
   * new name is a remote source, named like an archive, or listed before.
   */
  predicate RenamesWell(s: State, remotes: seq<Remote>, v: Vendoring, was: string, now: string) {
    var names := ToList(s, remotes);
    var m := Renaming(names, v, was, now);
    m.Some? ==>
      var (i, name) := m.value;
      && (names[i] in Basenames(remotes) ==> names[i] == name || Elsewhere(names, i))
      && (name in Basenames(remotes) || IsVendor(name) || name in Names(s.sources))
  }

  /**
   * The names listed after a default update are exactly the remote sources and the vendor archives if and only if
   * the archive, if any, is renamed without harm, which the listed names and the spec decide.
   */
  lemma {:induction false} DefaultNamesExactly(s: State, remotes: seq<Remote>, v: Vendoring, was: string, now: string)
    requires (s.sources == [] || remotes != []) && !Phases(s, remotes, v, was, now).failed
    ensures Names(AfterDefault(s, remotes, v, was, now).sources) == Wanted(s, remotes, v, was, now) <==>
            RenamesWell(s, remotes, v, was, now)
  {
    var names := ToList(s, remotes);
    DefaultNames(s, remotes, v, was, now);
    NamesAreLined(s.sources);
    UnlistedElems(Names(s.sources), remotes);
    ElemsConcat(Lined(s.sources), Unlisted(Names(s.sources), remotes));
    RenamingExactly(Names(s.sources), Basenames(remotes), names, Renaming(names, v, was, now));
  }

  lemma {:induction false} RenamedElems(names: seq<string>, i: nat, name: string)
    requires i < |names|
    ensures var after := names[i := name];
            && name in Elems(after) && Elems(after) <= Elems(names) + {name} && Elems(names) <= Elems(after) + {names[i]}
            && (names[i] in Elems(after) <==> names[i] == name || Elsewhere(names, i))
            && (name in Archives(after) <==> IsVendor(name)) && Archives(after) <= Elems(after)
  {
    var after := names[i := name];
    assert after[i] == name;
    forall j | 0 <= j < |names| && j != i
      ensures names[j] in Elems(after)
    {
      assert after[j] == names[j];
    }
    if names[i] in Elems(after) && names[i] != name {
      var j :| 0 <= j < |after| && after[j] == names[i];
      assert j != i && names[j] == names[i];
    }
  }

  lemma {:induction false} RenamingExactly(
    listed: set<string>, remote: set<string>, names: seq<string>, m: Option<(nat, string)>)
    requires (m.Some? ==> m.value.0 < |names|) && Elems(names) == listed + (remote - listed)
    ensures var after := Renamed(names, m);
            var wanted := remote + Archives(after);
            Elems(after) - (listed - wanted) == wanted <==>
            (m.Some? ==>
               && (names[m.value.0] in remote ==> names[m.value.0] == m.value.1 || Elsewhere(names, m.value.0))
               && (m.value.1 in remote || IsVendor(m.value.1) || m.value.1 in listed))
  {
    var after := Renamed(names, m);
    if m.None? {
      KeptAll(listed, remote, Archives(names), Elems(names));
    } else {
      RenamedElems(names, m.value.0, m.value.1);
      KeptExactly(listed, remote, Archives(after), Elems(after), names[m.value.0], m.value.1);
    }
  }

  lemma {:induction false} KeptAll(listed: set<string>, remote: set<string>, vendor: set<string>, names: set<string>)
    requires vendor <= names && names == listed + (remote - listed)
    ensures names - (listed - (remote + vendor)) == remote + vendor
  {
  }

  lemma {:induction false} KeptExactly(
    listed: set<string>, remote: set<string>, vendor: set<string>, names: set<string>, gone: string, name: string)
    requires vendor <= names && name in names
    requires names <= listed + remote + {name} && listed + remote <= names + {gone}
    ensures names - (listed - (remote + vendor)) == remote + vendor <==>
            (gone in remote ==> gone in names) && (name in remote + vendor || name in listed)
  {
    var kept := names - (listed - (remote + vendor));
    if kept == remote + vendor {
      if gone in remote {
        assert gone in kept;
      }
    } else {
      var x :| (x in kept && x !in remote + vendor) || (x in remote + vendor && x !in kept);
      assert x in remote + vendor ==> x !in names && x == gone;
    }
  }

  /** In particular they are, when the old archive is no remote source and the new one is named like an archive. */
  lemma {:induction false} DefaultListsWhatIsWanted(
    s: State, remotes: seq<Remote>, v: Vendoring, was: string, now: string)
    requires (s.sources == [] || remotes != []) && !Phases(s, remotes, v, was, now).failed
    requires var names := ToList(s, remotes);
             var m := Renaming(names, v, was, now);
             m.Some? ==> names[m.value.0] !in Basenames(remotes) && IsVendor(m.value.1)
    ensures Names(AfterDefault(s, remotes, v, was, now).sources) == Wanted(s, remotes, v, was, now)
  {
    DefaultNamesExactly(s, remotes, v, was, now);
  }

  // ----- inputs on which the guarantees fail -----

  lemma {:induction false} ReplacedOnce(a: string, was: string, b: string, now: string)
    requires was != "" && FindFrom(a + was + b, was, 0) == Some(|a|) && FindFrom(b, was, 0).None?
    ensures Replaced(a + was + b, was, now) == a + now + b
  {
    var s := a + was + b;
    assert s[..|a|] == a && s[|a| + |was|..] == b;
  }

  lemma {:induction false} NoDigits(s: string, was: string)
    requires was != "" && was[0] !in s
    ensures FindFrom(s, was, 0).None?
  {
    forall j: nat
      ensures !OccursAt(s, was, j)
    {
      assert j + |was| <= |s| ==> s[j..j + |was|][0] == s[j] && s[j] in s;
    }
  }

  /** The renamed archive was a source URL of the spec: its name is no longer listed although the spec needs it. */
  lemma {:induction false} RemoteArchiveIsLost(name: string, was: string, now: string, hash: Digest, content: string)
    requires IsVendor(name) && Basename(name) == name && Replaced(name, was, now) != name
    ensures var s := State([Entry(SHA512, name, hash)], {});
            var remotes, v := [Remote(name, None, true)], Vendoring(true, Some(content), true);
            && !Phases(s, remotes, v, was, now).failed && !RenamesWell(s, remotes, v, was, now)
            && name in Basenames(remotes) && name !in Names(AfterDefault(s, remotes, v, was, now).sources)
  {
    var s := State([Entry(SHA512, name, hash)], {});
    var remotes, v := [Remote(name, None, true)], Vendoring(true, Some(content), true);
    OnlyArchive(s, name, remotes);
    assert FirstArchive([name]) == Some(0);
    NamesAreLined(s.sources);
    DefaultNames(s, remotes, v, was, now);
    assert [name][0 := Replaced(name, was, now)] == [Replaced(name, was, now)];
  }

  lemma {:induction false} OnlyArchive(s: State, name: string, remotes: seq<Remote>)
    requires |s.sources| == 1 && s.sources[0].filename == name && |remotes| == 1
    requires Basename(remotes[0].url) == name
    ensures name in Names(s.sources) && name in Basenames(remotes) && ToList(s, remotes) == [name]
    ensures var start := Progress(s.sources, s.cache, [], false); Fetched(start, remotes, Names(s.sources)) == start
  {
    assert remotes[..0] == [];
    assert Unlisted(Names(s.sources), remotes) == [] + [] == [];
    assert Lined(s.sources) + [] == [name];
  }

  lemma {:induction false} IsArchive(name: string)
    requires name == "a" + "1" + (VENDOR + "gz")
    ensures IsVendor(name) && Basename(name) == name && Replaced(name, "1", "2") != name
  {
    var tail := VENDOR + "gz";
    assert tail == name[2..] && VENDOR == tail[..12] == name[2..14];
    assert OccursAt(name, VENDOR, 2);
    assert '/' !in name;
    NoDigits(tail, "1");
    assert name[1] == '1' && name[0] == 'a';
    assert OccursAt(name, "1", 1) && !OccursAt(name, "1", 0);
    ReplacedOnce("a", "1", tail, "2");
    assert ("a" + "2" + tail)[1] == '2';
  }

  /** When version 1 becomes 2 and `a1-vendor.tar.gz` is a source URL of the spec, its name is lost. */
  lemma {:induction false} VendorArchiveIsLost(hash: Digest, content: string)
    ensures var name := "a" + "1" + (VENDOR + "gz");
            var s := State([Entry(SHA512, name, hash)], {});
            var remotes, v := [Remote(name, None, true)], Vendoring(true, Some(content), true);
            && !Phases(s, remotes, v, "1", "2").failed && !RenamesWell(s, remotes, v, "1", "2")
            && name in Basenames(remotes) && name !in Names(AfterDefault(s, remotes, v, "1", "2").sources)
  {
    var name := "a" + "1" + (VENDOR + "gz");
    IsArchive(name);
    RemoteArchiveIsLost(name, "1", "2", hash, content);
  }

  /** A hook prints a file that is listed with an MD5 hash: afterwards the cache has no such file. */
  lemma {:induction false} HookTakesOverForeignEntry(was: string, now: string, content: string)
    ensures var e := Entry("MD5", "a.tar.gz", Digest("MD5", "old"));
            var s := State([e], {Upload("a.tar.gz", "MD5", e.hash)});
            var files := [HookFile("a.tar.gz", Some(content), true)];
            && AllServed(s.sources, s.cache) && Consistent(s.cache)
            && TakesOverForeign(Rows(s.sources), HookNames(files), was, now)
            && !AllServed(AfterHook(s, files, was, now).sources, AfterHook(s, files, was, now).cache)
  {
    var e := Entry("MD5", "a.tar.gz", Digest("MD5", "old"));
    var s := State([e], {Upload("a.tar.gz", "MD5", e.hash)});
    var files := [HookFile("a.tar.gz", Some(content), true)];
    var start := Progress(s.sources, s.cache, [], false);
    assert files[..0] == [] && Hooked(start, files[..0], was, now) == start;
    assert HookNames(files)[..0] == [] && Rows([e])[..0] == [];
    assert RowOfEither(Rows([e]), "a.tar.gz", Replaced("a.tar.gz", now, was)) == Some(0);
    assert "MD5" != SHA512;
    assert IsTakeover(RelistedAll(Rows([e]), [], was, now), "a.tar.gz", was, now);
    HookServesExactly(s, files, was, now);
  }
}
