/** Fixed pins of a source pipeline, how they drift from the spec, and the check that runs before a commit. */
module PinCheck {
  import opened Wrappers
  import opened Text

  /** A fetch step of the pipeline; `own` marks the package's own upstream repository. */
  datatype Pin = Pin(git: bool, own: bool, ref: string)

  type Pipeline = seq<Pin>

  /** A spec file: its text before the changelog, whether it overrides the setup directory, and its git revision. */
  datatype Spec = Spec(text: string, customSetup: bool, gitrev: Option<string>)

  /** What the metadata says about pins: the type of `version_from_ref`, if any, and whether an upstream is set. */
  datatype PinConfig = PinConfig(refType: Option<string>, hasUpstream: bool)

  /** A run of gorget on a pipeline, with the old version and the one to fetch. */
  datatype GorgetRun = GorgetRun(pipeline: Pipeline, was: string, now: string)

  /** Outcomes that the network decides: the date printed for the fetched revision, and the runs of gorget that succeed. */
  datatype World = World(date: Option<string>, accepts: set<GorgetRun>)

  const SHORT := 7

  function Short(ref: string): string { if |ref| <= SHORT then ref else ref[..SHORT] }

  predicate Contains(text: string, sub: string) { FindFrom(text, sub, 0).Some? }

  /** A git pin that does not follow the version. */
  predicate IsFixed(p: Pin) { p.git && p.ref != "" && !Contains(p.ref, "${VERSION}") }

  function FixedRefs(p: Pipeline): seq<string> {
    if p == [] then []
    else FixedRefs(p[..|p| - 1]) + if IsFixed(p[|p| - 1]) then [p[|p| - 1].ref] else []
  }

  predicate Stale(text: string, p: Pin) { IsFixed(p) && !Contains(text, Short(p.ref)) }

  function StaleRefs(text: string, refs: seq<string>): seq<string> {
    if refs == [] then []
    else StaleRefs(text, refs[..|refs| - 1]) + if Contains(text, Short(refs[|refs| - 1])) then [] else [refs[|refs| - 1]]
  }

  /** The pins that the check looks at: only with exactly one spec that overrides its setup directory. */
  predicate Comparable(specs: seq<Spec>) { |specs| == 1 && specs[0].customSetup }

  function Drift(specs: seq<Spec>, p: Pipeline): seq<string> {
    if FixedRefs(p) == [] || !Comparable(specs) then [] else StaleRefs(specs[0].text, FixedRefs(p))
  }

  // ----- the loops -----

  method FixedPipelineGitRefs(p: Pipeline) returns (refs: seq<string>)
    ensures refs == FixedRefs(p)
  {
    refs := [];
    for i := 0 to |p|
      invariant refs == FixedRefs(p[..i])
    {
      assert p[..i + 1][..i] == p[..i];
      if p[i].git && p[i].ref != "" && !Contains(p[i].ref, "${VERSION}") {
        refs := refs + [p[i].ref];
      }
    }
    assert p[..|p|] == p;
  }

  method FixedRefPipelineDrift(specs: seq<Spec>, p: Pipeline) returns (drifted: seq<string>)
    ensures drifted == Drift(specs, p)
  {
    var refs := FixedPipelineGitRefs(p);
    if refs == [] {
      return [];
    }
    if |specs| != 1 {
      return [];
    }
    if !specs[0].customSetup {
      return [];
    }
    drifted := [];
    for i := 0 to |refs|
      invariant drifted == StaleRefs(specs[0].text, refs[..i])
    {
      assert refs[..i + 1][..i] == refs[..i];
      if !Contains(specs[0].text, Short(refs[i])) {
        drifted := drifted + [refs[i]];
      }
    }
    assert refs[..|refs|] == refs;
  }

  /** The drift is empty exactly when the check does not apply or no pin of the pipeline is stale. */
  lemma {:induction false} DriftIsStalePins(specs: seq<Spec>, p: Pipeline)
    ensures Drift(specs, p) == [] <==>
            !Comparable(specs) || forall i :: 0 <= i < |p| ==> !Stale(specs[0].text, p[i])
  {
    if Comparable(specs) {
      StaleAmongFixed(specs[0].text, p);
    }
  }

  lemma {:induction false} StaleAmongFixed(text: string, p: Pipeline)
    ensures StaleRefs(text, FixedRefs(p)) == [] <==> forall i :: 0 <= i < |p| ==> !Stale(text, p[i])
  {
    if p != [] {
      var init, last := p[..|p| - 1], p[|p| - 1];
      StaleAmongFixed(text, init);
      assert forall i :: 0 <= i < |init| ==> init[i] == p[i];
      if IsFixed(last) {
        var refs := FixedRefs(p);
        assert refs[..|refs| - 1] == FixedRefs(init) && refs[|refs| - 1] == last.ref;
      } else {
        assert FixedRefs(p) == FixedRefs(init) + [] == FixedRefs(init);
      }
    }
  }

  /** A pin's ref drifts for a spec. */
  ghost predicate Drifts(spec: Spec, ref: string) {
    var short := if |ref| <= 7 then ref else ref[..7];
    ref != "" && !Occurs(ref, "${VERSION}") && !Occurs(spec.text, short)
  }

  ghost predicate Occurs(text: string, sub: string) { exists i: nat :: OccursAt(text, sub, i) }

  lemma {:induction false} ContainsExactly(text: string, sub: string)
    ensures Contains(text, sub) <==> Occurs(text, sub)
  {
    if i: nat :| OccursAt(text, sub, i) {
      assert i <= |text|;
    }
  }

  /**
   * A ref is reported exactly when it is the ref of a git pin, is not empty, holds no `${VERSION}`, and the only
   * spec, which overrides its setup directory, does not name its first seven characters anywhere.
   */
  lemma {:induction false} DriftsExactly(specs: seq<Spec>, p: Pipeline, ref: string)
    ensures ref in Drift(specs, p) <==>
            && |specs| == 1 && specs[0].customSetup && Drifts(specs[0], ref)
            && exists i :: 0 <= i < |p| && p[i].git && p[i].ref == ref
  {
    FixedRefsExactly(p, ref);
    if Comparable(specs) {
      StaleRefsExactly(specs[0].text, FixedRefs(p), ref);
      DriftsMeaning(specs[0], ref);
    }
  }

  lemma {:induction false} DriftsMeaning(spec: Spec, ref: string)
    ensures Drifts(spec, ref) <==> ref != "" && !Contains(ref, "${VERSION}") && !Contains(spec.text, Short(ref))
  {
    ContainsExactly(ref, "${VERSION}");
    ContainsExactly(spec.text, Short(ref));
  }

  lemma {:induction false} FixedRefsExactly(p: Pipeline, ref: string)
    ensures ref in FixedRefs(p) <==>
            (exists i :: 0 <= i < |p| && p[i].git && p[i].ref == ref) && ref != "" && !Contains(ref, "${VERSION}")
  {
    if p != [] {
      var init, last := p[..|p| - 1], p[|p| - 1];
      FixedRefsExactly(init, ref);
      assert forall i :: 0 <= i < |init| ==> init[i] == p[i];
    }
  }

  lemma {:induction false} StaleRefsExactly(text: string, refs: seq<string>, ref: string)
    ensures ref in StaleRefs(text, refs) <==> ref in refs && !Contains(text, Short(ref))
  {
    if refs != [] {
      var init, last := refs[..|refs| - 1], refs[|refs| - 1];
      StaleRefsExactly(text, init, ref);
      assert refs == init + [last];
    }
  }

  // ----- refreshing the own pin -----

  predicate IsDate(s: string) { |s| == 8 && forall i :: 0 <= i < 8 ==> '0' <= s[i] <= '9' }

  predicate IsSha(s: string) {
    |s| == 40 && forall i :: 0 <= i < 40 ==> '0' <= s[i] <= '9' || 'a' <= s[i] <= 'f' || 'A' <= s[i] <= 'F'
  }

  /** The revision of a spec is written as forty hexadecimal digits, or the spec has none. */
  predicate WellFormed(specs: seq<Spec>) {
    forall i :: 0 <= i < |specs| && specs[i].gitrev.Some? ==> IsSha(specs[i].gitrev.value)
  }

  /** The first step that fetches the package's own repository. */
  function OwnPin(p: Pipeline): (i: Option<nat>)
    ensures i.Some? ==> i.value < |p| && p[i.value].git && p[i.value].own
  {
    if p == [] then None
    else
      var before := OwnPin(p[..|p| - 1]);
      if before.Some? then before else if p[|p| - 1].git && p[|p| - 1].own then Some(|p| - 1) else None
  }

  /** The first step, of whatever kind, written with the ref. */
  function FirstWith(p: Pipeline, ref: string): (i: Option<nat>)
    ensures i.Some? ==> i.value < |p| && p[i.value].ref == ref && forall j :: 0 <= j < i.value ==> p[j].ref != ref
    ensures i.None? ==> forall j :: 0 <= j < |p| ==> p[j].ref != ref
  {
    if p == [] then None
    else
      var before := FirstWith(p[..|p| - 1], ref);
      if before.Some? then before else if p[|p| - 1].ref == ref then Some(|p| - 1) else None
  }

  function Repinned(p: Pipeline, was: string, ref: string): Pipeline {
    var i := FirstWith(p, was);
    if i.None? then p else p[i.value := p[i.value].(ref := ref)]
  }

  /** The staged pipeline with its version string for gorget, or nothing when any step of the refresh fails. */
  function Refreshed(
    cfg: PinConfig, specs: seq<Spec>, p: Pipeline, was: string, date: Option<string>): Option<GorgetRun>
  {
    if cfg.refType != Some("commit-date") || !cfg.hasUpstream then None
    else if |specs| != 1 || specs[0].gitrev.None? then None
    else if OwnPin(p).None? || p[OwnPin(p).value].ref == "" then None
    else
      var pinned, ref := p[OwnPin(p).value].ref, specs[0].gitrev.value;
      if pinned == ref then None
      else if date.None? || !IsDate(date.value) then None
      else Some(GorgetRun(Repinned(p, pinned, ref), was, was + "-" + date.value))
  }

  method RefreshFixedRefPin(cfg: PinConfig, specs: seq<Spec>, p: Pipeline, was: string, date: Option<string>)
    returns (staged: Option<GorgetRun>)
    ensures staged == Refreshed(cfg, specs, p, was, date)
  {
    if cfg.refType != Some("commit-date") || !cfg.hasUpstream || |specs| != 1 || specs[0].gitrev.None? {
      return None;
    }
    var oldRev: Option<string> := None;
    var found := false;
    var i := 0;
    while i < |p| && !found
      invariant i <= |p|
      invariant found <==> OwnPin(p[..i]).Some?
      invariant found ==> OwnPin(p) == OwnPin(p[..i]) && oldRev == Some(p[OwnPin(p).value].ref)
    {
      assert p[..i + 1][..i] == p[..i];
      if p[i].git && p[i].own {
        oldRev := Some(p[i].ref);
        found := true;
        OwnPinStays(p, i + 1);
      }
      i := i + 1;
    }
    if !found {
      assert p[..i] == p;
      return None;
    }
    if oldRev == Some("") || oldRev == specs[0].gitrev {
      return None;
    }
    if date.None? || !IsDate(date.value) {
      return None;
    }
    var j := 0;
    while j < |p| && p[j].ref != oldRev.value
      invariant j <= |p| && forall k :: 0 <= k < j ==> p[k].ref != oldRev.value
    {
      j := j + 1;
    }
    assert p[OwnPin(p).value].ref == oldRev.value;
    staged := Some(GorgetRun(p[j := p[j].(ref := specs[0].gitrev.value)], was, was + "-" + date.value));
  }

  lemma {:induction false} OwnPinStays(p: Pipeline, i: nat)
    requires i <= |p| && OwnPin(p[..i]).Some?
    ensures OwnPin(p) == OwnPin(p[..i])
    decreases |p|
  {
    if i < |p| {
      assert p[..|p| - 1][..i] == p[..i];
      OwnPinStays(p[..|p| - 1], i);
    } else {
      assert p[..i] == p;
    }
  }

  /** The first git step that fetches the package's own repository. */
  predicate IsOwnPin(p: Pipeline, i: nat) {
    i < |p| && p[i].git && p[i].own && forall j :: 0 <= j < i ==> !(p[j].git && p[j].own)
  }

  /** The first step that is written with the ref. */
  predicate IsFirstWith(p: Pipeline, i: nat, ref: string) {
    i < |p| && p[i].ref == ref && forall j :: 0 <= j < i ==> p[j].ref != ref
  }

  lemma {:induction false} OwnPinIsFirst(p: Pipeline)
    requires OwnPin(p).Some?
    ensures IsOwnPin(p, OwnPin(p).value)
  {
    var init := p[..|p| - 1];
    if OwnPin(init).Some? {
      OwnPinIsFirst(init);
    } else {
      NoOwnPin(init);
    }
  }

  lemma {:induction false} NoOwnPin(p: Pipeline)
    requires OwnPin(p).None?
    ensures forall i :: 0 <= i < |p| ==> !(p[i].git && p[i].own)
  {
    if p != [] {
      NoOwnPin(p[..|p| - 1]);
      assert forall i :: 0 <= i < |p| - 1 ==> p[..|p| - 1][i] == p[i];
    }
  }

  /**
   * A refresh changes one step, the first with the ref of the own pin, to the whole revision that the spec names;
   * gorget then runs from the old version to that version with the date behind a dash.
   */
  lemma {:induction false} RefreshWrites(
    cfg: PinConfig, specs: seq<Spec>, p: Pipeline, was: string, date: Option<string>) returns (own: nat, at: nat)
    requires Refreshed(cfg, specs, p, was, date).Some?
    ensures IsOwnPin(p, own) && IsFirstWith(p, at, p[own].ref)
    ensures |specs| == 1 && specs[0].gitrev.Some? && date.Some?
    ensures var run := Refreshed(cfg, specs, p, was, date).value;
            && |run.pipeline| == |p| && (forall i :: 0 <= i < |p| && i != at ==> run.pipeline[i] == p[i])
            && run.pipeline[at] == Pin(p[at].git, p[at].own, specs[0].gitrev.value)
            && run.was == was && run.now == was + "-" + date.value
  {
    OwnPinIsFirst(p);
    own := OwnPin(p).value;
    at := FirstWith(p, p[own].ref).value;
  }

  lemma {:induction false} ShaIsFixedRef(sha: string)
    requires IsSha(sha)
    ensures sha != "" && !Contains(sha, "${VERSION}")
  {
    var v := "${VERSION}";
    forall i: nat
      ensures !OccursAt(sha, v, i)
    {
      assert v[0] == '$' && |v| == 10;
      assert i + 10 <= |sha| ==> sha[i..i + 10][0] == sha[i] != '$';
    }
  }

  /**
   * One pin is rewritten. The drift is gone exactly when that pin was the only stale one, if it is a git pin
   * its new revision is named by the spec, and every other pin was up to date already.
   */
  lemma {:induction false} RefreshClearsDriftExactly(
    cfg: PinConfig, specs: seq<Spec>, p: Pipeline, was: string, date: Option<string>)
    requires WellFormed(specs) && Comparable(specs) && Refreshed(cfg, specs, p, was, date).Some?
    ensures var at := FirstWith(p, p[OwnPin(p).value].ref);
            && at.Some?
            && (Drift(specs, Refreshed(cfg, specs, p, was, date).value.pipeline) == [] <==>
                && (forall i :: 0 <= i < |p| && Stale(specs[0].text, p[i]) ==> i == at.value)
                && (p[at.value].git ==> Contains(specs[0].text, Short(specs[0].gitrev.value))))
  {
    var text, ref := specs[0].text, specs[0].gitrev.value;
    var after := Refreshed(cfg, specs, p, was, date).value.pipeline;
    var pinned := p[OwnPin(p).value].ref;
    var at := FirstWith(p, pinned).value;
    ShaIsFixedRef(ref);
    DriftIsStalePins(specs, after);
    assert after == p[at := p[at].(ref := ref)];
    assert Stale(text, after[at]) <==> p[at].git && !Contains(text, Short(ref));
    assert forall i :: 0 <= i < |p| && i != at ==> after[i] == p[i];
  }

  lemma {:induction false} AbsentChar(text: string, sub: string, i: nat)
    requires i < |sub| && sub[i] !in text
    ensures !Contains(text, sub)
  {
    forall j: nat
      ensures !OccursAt(text, sub, j)
    {
      assert j + |sub| <= |text| ==> text[j..j + |sub|][i] == text[j + i] && text[j + i] in text;
    }
  }

  lemma {:induction false} TwoPins(a: Pin, b: Pin)
    requires a.git && a.own
    ensures OwnPin([a, b]) == Some(0) && FirstWith([a, b], a.ref) == Some(0)
  {
    assert [a, b][..1] == [a] && [a][..0] == [];
    assert OwnPin([a]) == Some(0);
  }

  /** Of two stale pins the refresh rewrites the own one, and the drift stays. */
  lemma {:induction false} SecondStalePinStays(spec: Spec, a: Pin, b: Pin, was: string, date: string)
    requires spec.customSetup && spec.gitrev.Some? && IsSha(spec.gitrev.value) && IsDate(date)
    requires a.own && Stale(spec.text, a) && Stale(spec.text, b) && a.ref != spec.gitrev.value
    ensures var after := Refreshed(PinConfig(Some("commit-date"), true), [spec], [a, b], was, Some(date));
            Drift([spec], [a, b]) != [] && after.Some? && Drift([spec], after.value.pipeline) != []
  {
    TwoPins(a, b);
    DriftIsStalePins([spec], [a, b]);
    var after := Refreshed(PinConfig(Some("commit-date"), true), [spec], [a, b], was, Some(date));
    RefreshClearsDriftExactly(PinConfig(Some("commit-date"), true), [spec], [a, b], was, Some(date));
    assert [a, b][1] == b;
  }

  lemma {:induction false} BothStale(sha: string)
    requires IsSha(sha) && forall i :: 0 <= i < 40 ==> sha[i] == '0'
    ensures var text := "%global gitrev " + sha;
            Stale(text, Pin(true, true, "1111111")) && Stale(text, Pin(true, false, "2222222"))
  {
    var text := "%global gitrev " + sha;
    assert '1' !in text && '2' !in text;
    assert "${VERSION}"[0] == '$';
    AbsentChar("1111111", "${VERSION}", 0);
    AbsentChar("2222222", "${VERSION}", 0);
    AbsentChar(text, "1111111", 0);
    AbsentChar(text, "2222222", 0);
  }

  /** So it goes for a spec that names its new revision and neither of the two that are pinned. */
  lemma {:induction false} TwoStalePinsStayStale(sha: string, was: string, date: string)
    requires IsSha(sha) && (forall i :: 0 <= i < 40 ==> sha[i] == '0') && IsDate(date)
    ensures var spec, p := Spec("%global gitrev " + sha, true, Some(sha)), [Pin(true, true, "1111111"), Pin(true, false, "2222222")];
            var after := Refreshed(PinConfig(Some("commit-date"), true), [spec], p, was, Some(date));
            Drift([spec], p) != [] && after.Some? && Drift([spec], after.value.pipeline) != []
  {
    var spec := Spec("%global gitrev " + sha, true, Some(sha));
    BothStale(sha);
    assert "1111111"[0] == '1' && sha[0] == '0';
    SecondStalePinStays(spec, Pin(true, true, "1111111"), Pin(true, false, "2222222"), was, date);
  }

  // ----- the check before a commit -----

  /** Refused, or passed with the pipeline as it is afterwards and the run of gorget that it took, if any. */
  datatype Verdict = Refused | Passed(pipeline: Option<Pipeline>, run: Option<GorgetRun>)

  function Checked(
    cfg: PinConfig, specs: seq<Spec>, pipeline: Option<Pipeline>, was: string, now: string, w: World): Verdict
  {
    if pipeline.None? then Passed(None, None)
    else if Drift(specs, pipeline.value) != [] then
      if cfg.refType.None? then Refused
      else
        var staged := Refreshed(cfg, specs, pipeline.value, was, w.date);
        if staged.None? || staged.value !in w.accepts then Refused
        else Passed(Some(staged.value.pipeline), staged)
    else if was == now then Passed(pipeline, None)
    else
      var run := GorgetRun(pipeline.value, was, now);
      if run in w.accepts then Passed(pipeline, Some(run)) else Refused
  }

  /**
   * What a passed check is worth: gorget succeeded in this world on the very pipeline that is committed, for the
   * committed version or the dated one of a refresh; or there was nothing to fetch and the pipeline is untouched.
   */
  ghost predicate Earned(
    w: World, before: Pipeline, specs: seq<Spec>, pipeline: Pipeline, was: string, now: string, run: Option<GorgetRun>)
  {
    if run.Some? then
      && run.value in w.accepts && run.value.pipeline == pipeline && run.value.was == was
      && (if Drift(specs, before) == [] then run.value.now == now && pipeline == before
          else w.date.Some? && run.value.now == was + "-" + w.date.value)
    else was == now && pipeline == before && Drift(specs, pipeline) == []
  }

  lemma {:induction false} PassingIsEarned(
    cfg: PinConfig, specs: seq<Spec>, pipeline: Option<Pipeline>, was: string, now: string, w: World)
    ensures var v := Checked(cfg, specs, pipeline, was, now, w);
            v.Passed? ==>
              && (v.pipeline.Some? <==> pipeline.Some?)
              && (pipeline.Some? ==> Earned(w, pipeline.value, specs, v.pipeline.value, was, now, v.run))
  {
  }

  /** Exactly when the check passes, whatever the reason it would be refused for. */
  lemma {:induction false} PassesExactly(
    cfg: PinConfig, specs: seq<Spec>, p: Pipeline, was: string, now: string, w: World)
    ensures Checked(cfg, specs, Some(p), was, now, w).Passed? <==>
            if Comparable(specs) && exists i :: 0 <= i < |p| && Stale(specs[0].text, p[i]) then
              var staged := Refreshed(cfg, specs, p, was, w.date);
              staged.Some? && staged.value in w.accepts
            else was == now || GorgetRun(p, was, now) in w.accepts
  {
    DriftIsStalePins(specs, p);
  }

  /** Nothing the network does makes the refresh succeed: it is not configured, or the own pin is missing or current. */
  predicate NeverRefreshed(cfg: PinConfig, specs: seq<Spec>, p: Pipeline) {
    || cfg.refType != Some("commit-date") || !cfg.hasUpstream
    || |specs| != 1 || specs[0].gitrev.None?
    || OwnPin(p).None? || p[OwnPin(p).value].ref in {"", specs[0].gitrev.value}
  }

  /** The check is refused in every world exactly when a pin is stale and nothing makes the refresh succeed. */
  lemma {:induction false} RefusedInEveryWorldExactly(
    cfg: PinConfig, specs: seq<Spec>, p: Pipeline, was: string, now: string)
    ensures (forall w :: Checked(cfg, specs, Some(p), was, now, w).Refused?) <==>
            Drift(specs, p) != [] && NeverRefreshed(cfg, specs, p)
  {
    if !(Drift(specs, p) != [] && NeverRefreshed(cfg, specs, p)) {
      var date := "20260101";
      var runs := if Drift(specs, p) == [] then {GorgetRun(p, was, now)}
                  else {Refreshed(cfg, specs, p, was, Some(date)).value};
      assert Checked(cfg, specs, Some(p), was, now, World(Some(date), runs)).Passed?;
    }
  }
}

/** Updating one package: `update`, `sync`, `--continue` and what people do to the working tree in between. */
module UpdateProtocol {
  import opened Wrappers
  import opened PinCheck

  /** What the state file keeps for `--continue`: the metadata version before and after the update. */
  datatype Pending = Pending(before: string, after: string)

  datatype Tree = Tree(version: string, specs: seq<Spec>, pipeline: Option<Pipeline>)

  /** A commit of the package's content, or one that only touches the modification status. */
  datatype Commit =
    | Content(before: string, parent: Tree, tree: Tree, run: Option<GorgetRun>)
    | Marked

  /** The working tree, the conflict markers in it, the state file, and the history. */
  datatype Repo = Repo(tree: Tree, markers: bool, pending: Option<Pending>, head: Tree, log: seq<Commit>)

  /** What the upstream branch holds, merged with the local changes: its specs, its version, and any conflict. */
  datatype Upstream = Upstream(specs: seq<Spec>, version: string, conflict: bool)

  datatype Command =
    | Skip(sync: bool)
    | Update(sync: bool, upstream: Upstream, dryRun: bool, world: World)
    | Continue(dryRun: bool, world: World)
    | Mark(dryRun: bool)
    | Edit(specs: seq<Spec>, pipeline: Option<Pipeline>, markers: bool)
    | Abandon

  function CommitTree(r: Repo, before: string, tree: Tree, run: Option<GorgetRun>): Repo {
    r.(tree := tree, head := tree, log := r.log + [Content(before, r.head, tree, run)])
  }

  /** `update` drops a state file that was left behind; `sync` does not. */
  function Begin(r: Repo, sync: bool): Repo { if sync then r else r.(pending := None) }

  function AfterUpdate(cfg: PinConfig, r: Repo, sync: bool, u: Upstream, dryRun: bool, w: World): Repo {
    var begun := Begin(r, sync);
    var merged := begun.(tree := begun.tree.(specs := u.specs), markers := u.conflict);
    var failed := merged.(pending := Some(Pending(r.tree.version, u.version)));
    if dryRun then merged
    else if u.conflict then failed
    else match Checked(cfg, u.specs, r.tree.pipeline, r.tree.version, u.version, w)
      case Refused => failed
      case Passed(p, run) => CommitTree(merged, r.tree.version, Tree(u.version, u.specs, p), run)
  }

  function AfterContinue(cfg: PinConfig, r: Repo, dryRun: bool, w: World): Repo {
    if r.pending.None? || r.markers || dryRun then r
    else
      var s := r.pending.value;
      match Checked(cfg, r.tree.specs, r.tree.pipeline, s.before, s.after, w)
      case Refused => r
      case Passed(p, run) => CommitTree(r, s.before, Tree(s.after, r.tree.specs, p), run).(pending := None)
  }

  function Step(cfg: PinConfig, r: Repo, c: Command): Repo {
    match c
    case Skip(sync) => Begin(r, sync)
    case Update(sync, u, dryRun, w) => AfterUpdate(cfg, r, sync, u, dryRun, w)
    case Continue(dryRun, w) => AfterContinue(cfg, r, dryRun, w)
    case Mark(dryRun) => if dryRun then r else r.(log := r.log + [Marked])
    case Edit(specs, pipeline, markers) => r.(tree := r.tree.(specs := specs, pipeline := pipeline), markers := markers)
    case Abandon => r.(tree := r.head, markers := false)
  }

  function Run(cfg: PinConfig, r: Repo, commands: seq<Command>): Repo {
    if commands == [] then r
    else Step(cfg, Run(cfg, r, commands[..|commands| - 1]), commands[|commands| - 1])
  }

  function Fresh(tree: Tree): Repo { Repo(tree, false, None, tree, []) }

  // ----- the commands as they change the files -----

  class WorkTree {
    var version: string
    var specs: seq<Spec>
    var pipeline: Option<Pipeline>
    var markers: bool
    var stateFile: Option<Pending>
    var head: Tree
    var log: seq<Commit>

    ghost function State(): Repo
      reads this
    {
      Repo(Tree(version, specs, pipeline), markers, stateFile, head, log)
    }

    constructor (tree: Tree)
      ensures State() == Fresh(tree)
    {
      version, specs, pipeline := tree.version, tree.specs, tree.pipeline;
      markers, stateFile, head, log := false, None, tree, [];
    }

    /** Runs gorget when it has to; only a successful run replaces the pipeline file by its staged copy. */
    method RunGorgetForUpdatedPackage(cfg: PinConfig, before: string, after: string, w: World)
      returns (ok: bool, run: Option<GorgetRun>)
      modifies this`pipeline
      ensures var v := Checked(cfg, specs, old(pipeline), before, after, w);
              && ok == v.Passed? && pipeline == (if ok then v.pipeline else old(pipeline)) && (ok ==> run == v.run)
    {
      if pipeline.None? {
        return true, None;
      }
      var drifted := FixedRefPipelineDrift(specs, pipeline.value);
      if drifted != [] {
        if cfg.refType.None? {
          return false, None;
        }
        var staged := RefreshFixedRefPin(cfg, specs, pipeline.value, before, w.date);
        if staged.None? || staged.value !in w.accepts {
          return false, None;
        }
        pipeline := Some(staged.value.pipeline);
        return true, staged;
      }
      if before == after {
        return true, None;
      }
      run := Some(GorgetRun(pipeline.value, before, after));
      ok := run.value in w.accepts;
    }

    method CommitContent(before: string, after: string, run: Option<GorgetRun>)
      modifies this`version, this`head, this`log
      ensures State() == CommitTree(old(State()), before, Tree(after, specs, pipeline), run)
    {
      version := after;
      var tree := Tree(version, specs, pipeline);
      log := log + [Content(before, head, tree, run)];
      head := tree;
    }

    /** `update` and `sync`, from the point where an update is known to be there. */
    method UpdatePackage(cfg: PinConfig, sync: bool, u: Upstream, dryRun: bool, w: World)
      modifies this
      ensures State() == AfterUpdate(cfg, old(State()), sync, u, dryRun, w)
    {
      if !sync {
        stateFile := None;
      }
      specs := u.specs;
      markers := u.conflict;
      var hasConflicts, run := u.conflict, None;
      var oldVersion := version;
      if !hasConflicts && !dryRun {
        var ok;
        ok, run := RunGorgetForUpdatedPackage(cfg, oldVersion, u.version, w);
        if !ok {
          hasConflicts := true;
        }
      }
      if !dryRun {
        if hasConflicts {
          stateFile := Some(Pending(oldVersion, u.version));
          return;
        }
        CommitContent(oldVersion, u.version, run);
      }
    }

    /** `update --continue`. */
    method ContinueUpdate(cfg: PinConfig, dryRun: bool, w: World)
      modifies this
      ensures State() == AfterContinue(cfg, old(State()), dryRun, w)
    {
      if stateFile.None? || markers {
        return;
      }
      var s := stateFile.value;
      var ok, run := true, None;
      if !dryRun {
        ok, run := RunGorgetForUpdatedPackage(cfg, s.before, s.after, w);
        if !ok {
          return;
        }
      }
      if !dryRun {
        CommitContent(s.before, s.after, run);
        stateFile := None;
      }
    }
  }

  // ----- what every run keeps -----

  function WorldOf(c: Command): Option<World> {
    match c
    case Update(_, _, _, w) => Some(w)
    case Continue(_, w) => Some(w)
    case _ => None
  }

  /** The commit that a command made is earned in the world of that command and in the place it started from. */
  ghost predicate EarnedBy(r: Repo, c: Command, made: Commit) {
    made.Content? ==>
      && WorldOf(c).Some? && made.parent == r.head && (made.tree.pipeline.Some? <==> r.tree.pipeline.Some?)
      && (made.tree.pipeline.Some? ==>
            Earned(WorldOf(c).value, r.tree.pipeline.value, made.tree.specs, made.tree.pipeline.value,
                   made.before, made.tree.version, made.run))
  }

  /** A command adds nothing to the history, or one commit that it has earned. */
  ghost predicate AddsEarned(cfg: PinConfig, r: Repo, c: Command) {
    var after := Step(cfg, r, c).log;
    after == r.log || (|after| == |r.log| + 1 && after[..|r.log|] == r.log && EarnedBy(r, c, after[|r.log|]))
  }

  lemma {:induction false} StepAddsEarned(cfg: PinConfig, r: Repo, c: Command)
    ensures AddsEarned(cfg, r, c)
  {
    match c
    case Update(_, u, _, w) => PassingIsEarned(cfg, u.specs, r.tree.pipeline, r.tree.version, u.version, w);
    case Continue(_, w) =>
      if r.pending.Some? {
        PassingIsEarned(cfg, r.tree.specs, r.tree.pipeline, r.pending.value.before, r.pending.value.after, w);
      }
    case _ =>
  }

  /** The command with the number made the commit with the number. */
  ghost predicate MadeBy(cfg: PinConfig, tree: Tree, commands: seq<Command>, k: nat, i: nat)
    requires k < |commands| && i < |Run(cfg, Fresh(tree), commands).log|
  {
    var before := Run(cfg, Fresh(tree), commands[..k]);
    var after := Step(cfg, before, commands[k]).log;
    |before.log| == i && |after| == i + 1 && after[i] == Run(cfg, Fresh(tree), commands).log[i]
  }

  /**
   * Over any run of updates, failures, hand edits, `--continue`, marks and abandoned updates, every commit of a
   * pipeline-managed package was made by one command, in whose world gorget succeeded on exactly the committed
   * pipeline, or which compared equal versions, left the pipeline alone and found no stale pin.
   */
  lemma {:induction false} EveryCommitIsEarned(cfg: PinConfig, tree: Tree, commands: seq<Command>, i: nat)
    requires i < |Run(cfg, Fresh(tree), commands).log|
    ensures exists k: nat :: k < |commands| && MadeBy(cfg, tree, commands, k, i)
              && EarnedBy(Run(cfg, Fresh(tree), commands[..k]), commands[k], Run(cfg, Fresh(tree), commands).log[i])
    decreases |commands|
  {
    var init, last := commands[..|commands| - 1], commands[|commands| - 1];
    var r := Run(cfg, Fresh(tree), init);
    StepAddsEarned(cfg, r, last);
    if i < |r.log| {
      EveryCommitIsEarned(cfg, tree, init, i);
      var k: nat :| k < |init| && MadeBy(cfg, tree, init, k, i)
                    && EarnedBy(Run(cfg, Fresh(tree), init[..k]), init[k], r.log[i]);
      assert commands[..k] == init[..k] && Run(cfg, Fresh(tree), commands).log[i] == r.log[i];
      assert MadeBy(cfg, tree, commands, k, i);
    } else {
      assert commands[..|init|] == init && MadeBy(cfg, tree, commands, |init|, i);
    }
  }

  // ----- a failed run and its retry -----

  /**
   * A refused update leaves metadata, history and pipeline file alone, and `--continue` then faces the very
   * same check: it commits exactly when the check passes in the world it meets.
   */
  lemma {:induction false} RetryFacesSameCheck(
    cfg: PinConfig, r: Repo, sync: bool, u: Upstream, w: World, again: World)
    requires !u.conflict && Checked(cfg, u.specs, r.tree.pipeline, r.tree.version, u.version, w).Refused?
    ensures var failed := AfterUpdate(cfg, r, sync, u, false, w);
            && failed.tree == r.tree.(specs := u.specs) && failed.head == r.head && failed.log == r.log
            && AfterContinue(cfg, failed, false, again) ==
               (var direct := AfterUpdate(cfg, r, sync, u, false, again);
                if direct.log == r.log then failed else direct.(pending := None))
  {
  }

  /**
   * After a conflict, whoever resolves it by hand and continues faces the check of the update itself: the
   * pipeline from the old version to the new one, on the specs as they were resolved. It commits exactly when
   * that passes, under the new version; otherwise everything stays as it was.
   */
  lemma {:induction false} ConflictFacesSameCheck(
    cfg: PinConfig, r: Repo, sync: bool, u: Upstream, w: World, resolved: seq<Spec>, again: World)
    requires u.conflict
    ensures var commands := [Update(sync, u, false, w), Edit(resolved, r.tree.pipeline, false), Continue(false, again)];
            var after := Run(cfg, r, commands);
            match Checked(cfg, resolved, r.tree.pipeline, r.tree.version, u.version, again)
            case Refused =>
              && after.log == r.log && after.head == r.head && after.tree == r.tree.(specs := resolved)
              && after.pending == Some(Pending(r.tree.version, u.version))
            case Passed(p, run) =>
              var tree := Tree(u.version, resolved, p);
              && after.log == r.log + [Content(r.tree.version, r.head, tree, run)]
              && after.head == tree && after.tree == tree && after.pending.None?
  {
    var c0, c1, c2: Command := Update(sync, u, false, w), Edit(resolved, r.tree.pipeline, false), Continue(false, again);
    RunThree(cfg, r, c0, c1, c2);
  }

  lemma {:induction false} RunThree(cfg: PinConfig, r: Repo, c0: Command, c1: Command, c2: Command)
    ensures Run(cfg, r, [c0, c1, c2]) == Step(cfg, Step(cfg, Step(cfg, r, c0), c1), c2)
  {
    RunMore(cfg, r, [], c0);
    RunMore(cfg, r, [c0], c1);
    RunMore(cfg, r, [c0, c1], c2);
    assert [] + [c0] == [c0] && [c0] + [c1] == [c0, c1] && [c0, c1] + [c2] == [c0, c1, c2];
  }

  lemma {:induction false} RunMore(cfg: PinConfig, r: Repo, commands: seq<Command>, c: Command)
    ensures Run(cfg, r, commands + [c]) == Step(cfg, Run(cfg, r, commands), c)
  {
    assert (commands + [c])[..|commands|] == commands;
  }

  /** A dry run commits nothing, stores no state file and leaves version and pipeline alone. */
  lemma {:induction false} DryRunCommitsNothing(cfg: PinConfig, r: Repo, c: Command)
    requires (c.Update? || c.Continue? || c.Mark?) && c.dryRun
    ensures var after := Step(cfg, r, c);
            && after.log == r.log && after.head == r.head && (after.pending == r.pending || after.pending.None?)
            && after.tree.version == r.tree.version && after.tree.pipeline == r.tree.pipeline
            && (c.Continue? || c.Mark? ==> after == r)
  {
  }

  /** Until the markers are gone, `--continue` changes nothing. */
  lemma {:induction false} UnresolvedStays(
    cfg: PinConfig, r: Repo, sync: bool, u: Upstream, w: World, dryRun: bool, again: World)
    requires u.conflict
    ensures var failed := Run(cfg, r, [Update(sync, u, false, w)]);
            && Run(cfg, r, [Update(sync, u, false, w), Continue(dryRun, again)]) == failed
            && failed.log == r.log && failed.head == r.head && failed.tree == r.tree.(specs := u.specs)
  {
    var c0, c1: Command := Update(sync, u, false, w), Continue(dryRun, again);
    assert [c0, c1][..1] == [c0] && [c0][..0] == [];
  }

  /** Abandoning a refused update and starting over is starting from the same place, but for the state file. */
  lemma {:induction false} RestartFacesSameCheck(
    cfg: PinConfig, r: Repo, sync: bool, u: Upstream, w: World, u': Upstream, again: World)
    requires r.tree == r.head && !r.markers && AfterUpdate(cfg, r, sync, u, false, w).log == r.log
    ensures var back := Step(cfg, AfterUpdate(cfg, r, sync, u, false, w), Abandon);
            && back.(pending := None) == r.(pending := None)
            && AfterUpdate(cfg, back, false, u', false, again) == AfterUpdate(cfg, r, false, u', false, again)
  {
  }

  // ----- versions -----

  /** An unverified commit of a pipeline-managed package keeps the version that was committed before it. */
  predicate KeepsVersion(c: Commit) {
    c.Content? && c.tree.pipeline.Some? && c.run.None? ==> c.tree.version == c.parent.version
  }

  predicate AllKeepVersion(log: seq<Commit>, from: nat) {
    forall i :: from <= i < |log| ==> KeepsVersion(log[i])
  }

  /** The metadata on disk are the committed ones, as far as the version goes. */
  predicate OnDiskIsCommitted(r: Repo) { r.tree.version == r.head.version }

  /** A state file that changes no version is about the committed version. */
  predicate Safe(r: Repo) {
    r.pending.Some? && r.pending.value.before == r.pending.value.after ==> r.pending.value.before == r.head.version
  }

  /** A sync that commits another version over the state file of an update that changes no version. */
  predicate Harmful(cfg: PinConfig, r: Repo, c: Command) {
    && c.Update? && c.sync && !c.dryRun && !c.upstream.conflict
    && r.pending.Some? && r.pending.value.before == r.pending.value.after != c.upstream.version
    && Checked(cfg, c.upstream.specs, r.tree.pipeline, r.tree.version, c.upstream.version, c.world).Passed?
  }

  /** What a command keeps of the history, and what it promises about the versions of new commits. */
  ghost predicate OnlyKeepsVersions(before: Repo, after: Repo) {
    && |before.log| <= |after.log| && after.log[..|before.log|] == before.log
    && AllKeepVersion(after.log, |before.log|)
  }

  lemma {:induction false} SameLog(before: Repo, after: Repo)
    requires after.log == before.log
    ensures OnlyKeepsVersions(before, after)
  {
  }

  lemma {:induction false} OneMoreCommit(before: Repo, after: Repo, c: Commit)
    requires after.log == before.log + [c] && KeepsVersion(c)
    ensures OnlyKeepsVersions(before, after)
  {
  }

  lemma {:induction false} UpdateStaysSafeExactly(
    cfg: PinConfig, r: Repo, sync: bool, u: Upstream, dryRun: bool, w: World)
    requires OnDiskIsCommitted(r) && Safe(r)
    ensures var after := AfterUpdate(cfg, r, sync, u, dryRun, w);
            && OnDiskIsCommitted(after) && OnlyKeepsVersions(r, after)
            && (Safe(after) <==> !Harmful(cfg, r, Update(sync, u, dryRun, w)))
  {
    var after := AfterUpdate(cfg, r, sync, u, dryRun, w);
    var v := Checked(cfg, u.specs, r.tree.pipeline, r.tree.version, u.version, w);
    if dryRun || u.conflict || v.Refused? {
      SameLog(r, after);
    } else {
      OneMoreCommit(r, after, Content(r.tree.version, r.head, Tree(u.version, u.specs, v.pipeline), v.run));
    }
  }

  lemma {:induction false} ContinueStaysSafe(cfg: PinConfig, r: Repo, dryRun: bool, w: World)
    requires OnDiskIsCommitted(r) && Safe(r)
    ensures var after := AfterContinue(cfg, r, dryRun, w);
            OnDiskIsCommitted(after) && OnlyKeepsVersions(r, after) && Safe(after)
  {
    var after := AfterContinue(cfg, r, dryRun, w);
    if after.log == r.log {
      SameLog(r, after);
    } else {
      var s := r.pending.value;
      var v := Checked(cfg, r.tree.specs, r.tree.pipeline, s.before, s.after, w);
      OneMoreCommit(r, after, Content(s.before, r.head, Tree(s.after, r.tree.specs, v.pipeline), v.run));
    }
  }

  /** Every command but such a sync leaves a safe state safe, and from a safe state no command changes a version unverified. */
  lemma {:induction false} StepStaysSafeExactly(cfg: PinConfig, r: Repo, c: Command)
    requires OnDiskIsCommitted(r) && Safe(r)
    ensures var after := Step(cfg, r, c);
            OnDiskIsCommitted(after) && OnlyKeepsVersions(r, after) && (Safe(after) <==> !Harmful(cfg, r, c))
  {
    var after := Step(cfg, r, c);
    match c
    case Update(sync, u, dryRun, w) => UpdateStaysSafeExactly(cfg, r, sync, u, dryRun, w);
    case Continue(dryRun, w) => ContinueStaysSafe(cfg, r, dryRun, w);
    case Mark(dryRun) =>
      if dryRun {
        SameLog(r, after);
      } else {
        OneMoreCommit(r, after, Marked);
      }
    case _ => SameLog(r, after);
  }

  ghost predicate NoHarmfulSync(cfg: PinConfig, r: Repo, commands: seq<Command>) {
    commands != [] ==>
      && NoHarmfulSync(cfg, r, commands[..|commands| - 1])
      && !Harmful(cfg, Run(cfg, r, commands[..|commands| - 1]), commands[|commands| - 1])
  }

  lemma {:induction false} RunStaysSafe(cfg: PinConfig, r: Repo, commands: seq<Command>)
    requires OnDiskIsCommitted(r) && Safe(r) && NoHarmfulSync(cfg, r, commands)
    ensures var after := Run(cfg, r, commands);
            && OnDiskIsCommitted(after) && Safe(after)
            && |r.log| <= |after.log| && AllKeepVersion(after.log, |r.log|)
  {
    if commands != [] {
      var before := Run(cfg, r, commands[..|commands| - 1]);
      RunStaysSafe(cfg, r, commands[..|commands| - 1]);
      StepStaysSafeExactly(cfg, before, commands[|commands| - 1]);
    }
  }

  /** Over any run without such a sync, unverified commits keep the committed version. */
  lemma {:induction false} UnverifiedCommitsKeepTheVersion(cfg: PinConfig, tree: Tree, commands: seq<Command>)
    requires NoHarmfulSync(cfg, Fresh(tree), commands)
    ensures AllKeepVersion(Run(cfg, Fresh(tree), commands).log, 0)
  {
    RunStaysSafe(cfg, Fresh(tree), commands);
  }

  predicate WithoutSync(commands: seq<Command>) {
    forall i :: 0 <= i < |commands| ==> !(commands[i].Update? && commands[i].sync)
  }

  lemma {:induction false} WithoutSyncIsHarmless(cfg: PinConfig, r: Repo, commands: seq<Command>)
    requires WithoutSync(commands)
    ensures NoHarmfulSync(cfg, r, commands)
  {
    if commands != [] {
      WithoutSyncIsHarmless(cfg, r, commands[..|commands| - 1]);
    }
  }

  /** However a run goes on without a sync, its unverified commits keep the version. */
  ghost predicate StaysVerified(cfg: PinConfig, r: Repo) {
    forall more :: WithoutSync(more) ==> AllKeepVersion(Run(cfg, r, more).log, |r.log|)
  }

  /** Resolving the conflict by hand and continuing, which is what ends up in the history when the state is unsafe. */
  function ResolveAndContinue(r: Repo, w: World): seq<Command> {
    [Edit([Spec("", false, None)], r.tree.pipeline, false), Continue(false, w)]
  }

  lemma {:induction false} UnsafeContinue(cfg: PinConfig, r: Repo, w: World)
    requires r.tree.pipeline.Some? && !Safe(r)
    ensures var log := Run(cfg, r, ResolveAndContinue(r, w)).log;
            |log| == |r.log| + 1 && !KeepsVersion(log[|r.log|])
  {
    var commands := ResolveAndContinue(r, w);
    var edited := Step(cfg, r, commands[0]);
    assert Drift(edited.tree.specs, r.tree.pipeline.value) == [];
    assert commands[..1] == [commands[0]] && [commands[0]][..0] == [];
    assert Run(cfg, r, commands[..1]) == edited;
    assert Run(cfg, r, commands) == Step(cfg, edited, commands[1]);
  }

  /** A state can go on to an unverified change of version exactly when it is unsafe. */
  lemma {:induction false} StaysVerifiedExactly(cfg: PinConfig, r: Repo)
    requires OnDiskIsCommitted(r) && r.tree.pipeline.Some?
    ensures StaysVerified(cfg, r) <==> Safe(r)
  {
    if Safe(r) {
      forall more | WithoutSync(more)
        ensures AllKeepVersion(Run(cfg, r, more).log, |r.log|)
      {
        WithoutSyncIsHarmless(cfg, r, more);
        RunStaysSafe(cfg, r, more);
      }
    } else {
      var w := World(None, {});
      UnsafeContinue(cfg, r, w);
      assert WithoutSync(ResolveAndContinue(r, w));
    }
  }

  /**
   * A sync leaves a state from which every way to go on keeps unverified commits at their version exactly when
   * it is not a harmful one: it conflicts, is refused, or commits the version the state file is about.
   */
  lemma {:induction false} SyncIsHarmlessExactly(cfg: PinConfig, r: Repo, c: Command)
    requires OnDiskIsCommitted(r) && Safe(r) && r.tree.pipeline.Some? && c.Update? && c.sync
    ensures StaysVerified(cfg, Step(cfg, r, c)) <==> !Harmful(cfg, r, c)
  {
    StepStaysSafeExactly(cfg, r, c);
    StepAddsEarned(cfg, r, c);
    StaysVerifiedExactly(cfg, Step(cfg, r, c));
  }

  /** The version on disk is the committed one in every state that a run can reach. */
  lemma {:induction false} OnDiskStaysCommitted(cfg: PinConfig, tree: Tree, commands: seq<Command>)
    ensures OnDiskIsCommitted(Run(cfg, Fresh(tree), commands))
  {
    if commands != [] {
      OnDiskStaysCommitted(cfg, tree, commands[..|commands| - 1]);
    }
  }

  /** The state file is about the committed version. */
  predicate Current(r: Repo) { OnDiskIsCommitted(r) && (r.pending.Some? ==> r.pending.value.before == r.head.version) }

  /** A sync over a pending update leaves a current state file exactly when it conflicts, is refused, or keeps the version. */
  lemma {:induction false} StateFileStaysCurrentExactly(cfg: PinConfig, r: Repo, u: Upstream, w: World)
    requires Current(r) && r.pending.Some?
    ensures Current(AfterUpdate(cfg, r, true, u, false, w)) <==>
            || u.conflict
            || Checked(cfg, u.specs, r.tree.pipeline, r.tree.version, u.version, w).Refused?
            || u.version == r.pending.value.before
  {
  }

  /**
   * With a `sync` in between the state file is stale: `--continue` then takes the version back to the old one
   * without running gorget, because both versions in the state file are the same.
   */
  lemma {:induction false} StaleStateFileRevertsVersion(cfg: PinConfig, tree: Tree, spec: Spec, p: Pipeline, w: World)
    requires tree.version == "1" && tree.pipeline == Some(p) && !spec.customSetup
    requires GorgetRun(p, "1", "2") in w.accepts
    ensures var commands := [Update(false, Upstream([spec], "1", true), false, w), Abandon,
                             Update(true, Upstream([spec], "2", false), false, w), Continue(false, w)];
            var log := Run(cfg, Fresh(tree), commands).log;
            && |log| == 2 && log[0].Content? && log[1].Content?
            && log[0].tree.version == "2" && log[0].run.Some?
            && log[1].tree.version == "1" && log[1].parent.version == "2" && log[1].run.None?
  {
    var u1, u2 := Upstream([spec], "1", true), Upstream([spec], "2", false);
    var c0, c1, c2, c3: Command := Update(false, u1, false, w), Abandon, Update(true, u2, false, w), Continue(false, w);
    assert Drift([spec], p) == [];
    var r0 := Fresh(tree);
    var r1 := Step(cfg, r0, c0);
    var r2 := Step(cfg, r1, c1);
    var r3 := Step(cfg, r2, c2);
    var r4 := Step(cfg, r3, c3);
    assert r2 == r0.(pending := Some(Pending("1", "1")));
    assert r3.log == [Content("1", tree, Tree("2", [spec], Some(p)), Some(GorgetRun(p, "1", "2")))];
    RunFour(cfg, r0, c0, c1, c2, c3);
  }

  lemma {:induction false} RunFour(cfg: PinConfig, r: Repo, a: Command, b: Command, c: Command, d: Command)
    ensures Run(cfg, r, [a, b, c, d]) == Step(cfg, Step(cfg, Step(cfg, Step(cfg, r, a), b), c), d)
  {
    assert [a, b, c, d][..3] == [a, b, c] && [a, b, c][..2] == [a, b] && [a, b][..1] == [a] && [a][..0] == [];
    assert Run(cfg, r, [a]) == Step(cfg, r, a);
    assert Run(cfg, r, [a, b]) == Step(cfg, Run(cfg, r, [a]), b);
    assert Run(cfg, r, [a, b, c]) == Step(cfg, Run(cfg, r, [a, b]), c);
  }

  // ----- pins after a commit -----

  /**
   * A commit after a refresh leaves no stale pin exactly when the rewritten pin was the only stale one and
   * the spec names its new revision; otherwise the next check finds drift again.
   */
  lemma {:induction false} CommittedPinsAreFreshExactly(
    cfg: PinConfig, r: Repo, sync: bool, u: Upstream, w: World)
    requires WellFormed(u.specs) && !u.conflict && r.tree.pipeline.Some?
    requires Drift(u.specs, r.tree.pipeline.value) != []
    requires AfterUpdate(cfg, r, sync, u, false, w).log != r.log
    ensures var after, p := AfterUpdate(cfg, r, sync, u, false, w).head, r.tree.pipeline.value;
            && OwnPin(p).Some? && FirstWith(p, p[OwnPin(p).value].ref).Some? && u.specs != []
            && after.pipeline.Some? && u.specs[0].gitrev.Some?
            && (var at := FirstWith(p, p[OwnPin(p).value].ref).value;
                Drift(after.specs, after.pipeline.value) == [] <==>
                  && (forall i :: 0 <= i < |p| && Stale(u.specs[0].text, p[i]) ==> i == at)
                  && (p[at].git ==> Contains(u.specs[0].text, Short(u.specs[0].gitrev.value))))
  {
    RefreshClearsDriftExactly(cfg, u.specs, r.tree.pipeline.value, r.tree.version, w.date);
  }

  // ----- pins that no command refreshes -----

  /** Tree and history hold the specs and the pipeline. */
  predicate Settled(r: Repo, specs: seq<Spec>, p: Pipeline) {
    && r.tree.specs == specs && r.tree.pipeline == Some(p)
    && r.head.specs == specs && r.head.pipeline == Some(p)
  }

  /** The command brings no other specs and no other pipeline. */
  predicate BringsNothingNew(c: Command, specs: seq<Spec>, p: Pipeline) {
    match c
    case Update(_, u, _, _) => u.specs == specs
    case Edit(s, q, _) => s == specs && q == Some(p)
    case _ => true
  }

  lemma {:induction false} StuckStep(cfg: PinConfig, r: Repo, c: Command, specs: seq<Spec>, p: Pipeline)
    requires Drift(specs, p) != [] && NeverRefreshed(cfg, specs, p)
    requires Settled(r, specs, p) && BringsNothingNew(c, specs, p)
    ensures Settled(Step(cfg, r, c), specs, p) && Step(cfg, r, c).log in {r.log, r.log + [Marked]}
  {
    match c
    case Update(_, u, _, _) => RefusedInEveryWorldExactly(cfg, specs, p, r.tree.version, u.version);
    case Continue(_, _) =>
      if r.pending.Some? {
        RefusedInEveryWorldExactly(cfg, specs, p, r.pending.value.before, r.pending.value.after);
      }
    case _ =>
  }

  /**
   * With a stale pin that no refresh reaches, every update and every `--continue` of every later run is refused
   * in every world, until other specs arrive or somebody edits specs or pipeline.
   */
  lemma {:induction false} StalePinBlocksEveryRun(
    cfg: PinConfig, r: Repo, commands: seq<Command>, specs: seq<Spec>, p: Pipeline)
    requires Drift(specs, p) != [] && NeverRefreshed(cfg, specs, p) && Settled(r, specs, p)
    requires forall k :: 0 <= k < |commands| ==> BringsNothingNew(commands[k], specs, p)
    ensures var after := Run(cfg, r, commands);
            && Settled(after, specs, p) && |r.log| <= |after.log|
            && forall i :: |r.log| <= i < |after.log| ==> after.log[i].Marked?
  {
    if commands != [] {
      var before := Run(cfg, r, commands[..|commands| - 1]);
      StalePinBlocksEveryRun(cfg, r, commands[..|commands| - 1], specs, p);
      StuckStep(cfg, before, commands[|commands| - 1], specs, p);
    }
  }

  /** A refresh that passed but left another stale pin, with the own pin up to date, is such a case. */
  lemma {:induction false} SecondStalePinBlocksEveryRun(
    cfg: PinConfig, r: Repo, sync: bool, u: Upstream, w: World, commands: seq<Command>)
    requires AfterUpdate(cfg, r, sync, u, false, w).log != r.log && r.tree.pipeline.Some? && !u.conflict
    requires var p := AfterUpdate(cfg, r, sync, u, false, w).head.pipeline;
             && p.Some? && Drift(u.specs, p.value) != []
             && |u.specs| == 1 && u.specs[0].gitrev.Some?
             && OwnPin(p.value).Some? && p.value[OwnPin(p.value).value].ref == u.specs[0].gitrev.value
    requires forall k :: 0 <= k < |commands| ==>
               BringsNothingNew(commands[k], u.specs, AfterUpdate(cfg, r, sync, u, false, w).head.pipeline.value)
    ensures var after := AfterUpdate(cfg, r, sync, u, false, w);
            var end := Run(cfg, after, commands);
            |after.log| <= |end.log| && forall i :: |after.log| <= i < |end.log| ==> end.log[i].Marked?
  {
    var after := AfterUpdate(cfg, r, sync, u, false, w);
    StalePinBlocksEveryRun(cfg, after, commands, u.specs, after.head.pipeline.value);
  }
}
