# Verified models of the packaging algorithms

This project models the algorithms of the Hummingbird RPM repository that are more than glue, and proves what they
are meant to guarantee. Every file holds the modules of one component:

| file | component |
|---|---|
| `Common.dfy` | results, comparison, numerals, names and white space |
| `Versions.dfy` | PEP 440 versions, the order of rpm-version(7), and the class `RpmVersion` |
| `VersionText.dfy` | reading printed versions and bounds back |
| `Convert.dfy` | compiling version specifiers into RPM rich dependencies |
| `Overrides.dfy` | rewriting specifier lists by override actions, and patching METADATA |
| `Requirements.dfy` | the class `Gatherer`, the worklist of requirements, extras and set-aside requirements |
| `Closures.dfy` | reachability, and the Yarn and pnpm lock file traversals |
| `DependencyGroups.dfy` | PEP 735 dependency groups |
| `ZoneList.dfy` | the linked lists of the LDAP zone builder, on the heap |
| `Certdata.dfy` | certificate objects with unique labels, dumping and reading certdata text |
| `PoCatalogue.dfy` | reading, printing, inverting and appending translation catalogues |
| `UpdateProtocol.dfy` | pins, the check before a commit, and update, sync and `--continue` over whole runs |
| `YamlBlocks.dfy` | editing top-level YAML blocks by line indices |
| `YamlWritten.dfy` | the edited YAML file as text, and when it reads back right |
| `Sources.dfy` | the `sources` file and the lookaside cache over whole runs |
| `Classification.dfy` | classifying recorded files, the `%files` list and its lines as text, and the escaping of paths |
| `Spellings.dfy` | what is written, character by character: versions, certdata, catalogues, YAML, file lists, zone records |

Code that works step by step is a method or a class method with its loops. It is proved equal to a function of the
inputs or of the old state, and the guarantees are lemmas about that function. Text stays text: lines, octal escapes,
quoted chunks, YAML keys and version strings are modelled as characters. The network, git, gorget and the file system
enter as values that say how a step turned out, so every theorem about a run holds for all such outcomes.

Where a guarantee does not hold on all inputs, the condition under which it does is proved in both directions:

- Versions with combined suffixes, or with `dev0` or `post0`, do not keep their place in RPM's order
  (`RpmSpelling.PlaceIsKeptExactly`).
- A specifier and its RPM dependency differ exactly on the pairs of `Convert.Diverges`
  (`Convert.ConversionMeaning`).
- Removing upper bounds leaves a gap after `> V` with a pre-release V, removing lower bounds one before `< V` with a
  post-release V (`Overrides.UpwardClosedExactly`, `Overrides.DownwardClosedExactly`).
- A catalogue text that begins with an empty chunk loses it when it is read back
  (`PoCatalogue.CatalogueReadsBackExactly`); inverting twice and appending twice have their own conditions.
- A pin refresh rewrites one pin (`PinCheck.RefreshClearsDriftExactly`); a second stale pin then stays stale, and every
  later update and `--continue` is refused until specs or pipeline change (`UpdateProtocol.SecondStalePinBlocksEveryRun`,
  `PinCheck.RefusedInEveryWorldExactly`).
- `sync` leaves the state file of an abandoned update in place. The comment in `ci/dist_git.py:2894` speaks of cleaning
  up stale state, but only the `update` command does it, and a later `--continue` can then commit the old version again
  (`UpdateProtocol.StaleStateFileRevertsVersion`). Exactly a sync that commits another version over the state file
  of an update that changes no version does that (`UpdateProtocol.SyncIsHarmlessExactly`,
  `UpdateProtocol.StaysVerifiedExactly`).
- A YAML file whose last line has no line break gets new lines glued to that line when they belong to the block that
  ends there, or start a block behind a blank one (`YamlWritten.WrittenFileIsRightExactly`,
  `YamlBlocks.UnterminatedFileLosesTheProduct`, `YamlWritten.BlankLineLosesTheBlock`).
- A hook update keeps the algorithm of an entry but writes a SHA512 hash; an entry with another algorithm is then
  listed with a hash that the cache does not have under it (`Sources.HookServesExactly`).
- Renaming a vendor archive that is itself a source URL drops the URL's name from the list
  (`Sources.DefaultNamesExactly`).
- The order of requirements decides about those that are active without extras but not under some extra, and about no
  others (`Requirements.OrderNeverDecidesExactly`, `Requirements.MonotoneExactly`).

The comment of `assstack_insertbottom` in `ldap2zone.c` calls the structure a queue rather than a stack; the model
follows the code, in which both ends are used.

## Model

| member | source | states |
|---|---|---|
| `RpmSpelling.RpmVersion.constructor` | rpms/pyproject-rpm-macros/pyproject_convert.py:28-41 | the object holds epoch, release, pre, dev and post of the parsed version; its release list is its own |
| `RpmSpelling.RpmVersion.Pop` | rpms/pyproject-rpm-macros/pyproject_convert.py:83 | drops exactly the last release segment and touches nothing else |
| `RpmSpelling.RpmVersion.Increment` | rpms/pyproject-rpm-macros/pyproject_convert.py:46-51 | adds one to the last release segment and clears pre, dev and post |
| `RpmSpelling.RpmVersion.ToString` | rpms/pyproject-rpm-macros/pyproject_convert.py:53-71 | returns the printed text of the version and leaves an object that still means the same version, although printing pops trailing zeros off its list |
| `RpmSpelling.OrderEmbedding` | rpms/pyproject-rpm-macros/pyproject_convert.py:53-71 | on versions with at most one of pre, dev and post, dev and post nonzero, RPM compares the printed texts exactly as PEP 440 ("Summary of permitted suffixes and relative ordering") compares the versions |
| `RpmSpelling.PlaceIsKeptExactly` | rpms/pyproject-rpm-macros/pyproject_convert.py:63-70 | a version keeps its place among all such versions if and only if it is one of them, so the condition cannot be widened |
| `RpmSpelling.VisibleText` | rpms/pyproject-rpm-macros/pyproject_convert.py:63-70 | every version prints like its visible part, and PEP 440 tells the two apart exactly when the version is not representable |
| `VersionText.VersionReadsBack` | rpms/pyproject-rpm-macros/pyproject_convert.py:53-71 | a reader that knows nothing of the printer finds in every printed version its epoch before a colon, its release between dots without the zeros at its end, and the one visible suffix with its number |
| `VersionText.TextIsVersionText` | rpms/pyproject-rpm-macros/pyproject_convert.py:53-71 | a printed version has digits, letters, dots, colons, tildes and carets only, so never a dash |
| `VersionText.DependenciesAreVersionTexts` | rpms/pyproject-rpm-macros/pyproject_convert.py:73-146 | the same for every bound of every dependency that is written |
| `VersionText.BoundsReadBack` | rpms/pyproject-rpm-macros/pyproject_convert.py:140-145 | a bound is a printed version, or one with exactly `~~` or `.0` behind it |
| `DependencySpelling.CompatibleText` | rpms/pyproject-rpm-macros/pyproject_convert.py:73-86 | `~= 1.2` is written with `1.2` and `2` |
| `DependencySpelling.StrictTexts` | rpms/pyproject-rpm-macros/pyproject_convert.py:140-145 | `< 2` is written with `2~~`, `> 2` with `2.0` |
| `DependencySpelling.PreTexts` | rpms/pyproject-rpm-macros/pyproject_convert.py:63-64 | the texts of an alpha, a beta and a release candidate |
| `DependencySpelling.OtherTexts` | rpms/pyproject-rpm-macros/pyproject_convert.py:54-71 | the texts of a development release, a post-release and an epoch |
| `Pep440.PrefixIsInterval` | rpms/pyproject-rpm-macros/pyproject_convert.py:82-86 | a release matches a prefix exactly when it lies in the half-open interval from the prefix to the incremented prefix |
| `Pep440.CmpVersionTransitive` | rpms/pyproject-rpm-macros/pyproject_convert.py:28-71 | the PEP 440 order used throughout is transitive |
| `Convert.ConvertCompatible` | rpms/pyproject-rpm-macros/pyproject_convert.py:73-86 | returns the two-sided dependency of `~=`, or the invalid-version text for a wildcard or a one-segment release |
| `Convert.ConvertEqual` | rpms/pyproject-rpm-macros/pyproject_convert.py:88-93 | an exact dependency, or for `==V.*` the one of `~=V.0` |
| `Convert.ConvertNotEqual` | rpms/pyproject-rpm-macros/pyproject_convert.py:101-117 | the two outer halves, with the tilde mark on the lower one for a wildcard |
| `Convert.ConvertOrdered` | rpms/pyproject-rpm-macros/pyproject_convert.py:119-146 | the comparison with the `~~` and `.0` marks exactly for suffix-free operands, and the wildcard rewriting of operators |
| `Convert.TextMeansBound` | rpms/pyproject-rpm-macros/pyproject_convert.py:73-146 | RPM, reading the printed texts, decides like the comparison of the versions behind them |
| `Convert.ConversionMeaning` | rpms/pyproject-rpm-macros/pyproject_convert.py:73-146 | for every valid specifier and every representable operand and candidate the RPM dependency admits the candidate exactly when PEP 440 does, unless the pair diverges; on every diverging pair the two do differ |
| `Convert.CompatibleDiverges` | rpms/pyproject-rpm-macros/pyproject_convert.py:73-86 | `~= 1.2` and `2.0a1` are such a pair: RPM accepts the pre-release of the upper end, PEP 440 does not |
| `Convert.StrictDiverges` | rpms/pyproject-rpm-macros/pyproject_convert.py:119-146 | every `> V` with a pre-release V and a post-release of the same base are another |
| `Convert.FinalCandidatesNeverDiverge` | rpms/pyproject-rpm-macros/pyproject_convert.py:140-145 | no final candidate diverges for any operator, and no candidate does under `<` or `>` with a final operand |
| `Overrides.RemoveUpperBounds` | rpms/pyproject-rpm-macros/pyproject_dependency_overrides.py:63-78 | the list of what each specifier leaves when its upper half goes, in order |
| `Overrides.RemoveLowerBounds` | rpms/pyproject-rpm-macros/pyproject_dependency_overrides.py:81-94 | the mirror of removing upper bounds |
| `Overrides.ApplyOverrides` | rpms/pyproject-rpm-macros/pyproject_dependency_overrides.py:97-137 | the actions folded over the specifier list in order |
| `Overrides.NormalForm` | rpms/pyproject-rpm-macros/pyproject_dependency_overrides.py:97-137 | as a set the result depends only on whether everything is dropped and on the last upper and last lower action after that |
| `Overrides.SidesCommute` | rpms/pyproject-rpm-macros/pyproject_dependency_overrides.py:63-137 | upper and lower decisions commute |
| `Overrides.ApplyIdempotent` | rpms/pyproject-rpm-macros/pyproject_dependency_overrides.py:97-137 | applying a list twice gives the same set as applying it once |
| `Overrides.RemovalWidens` | rpms/pyproject-rpm-macros/pyproject_dependency_overrides.py:63-94 | removing either side keeps specifiers valid and every admitted version admitted |
| `Overrides.RemovalMeaning` | rpms/pyproject-rpm-macros/pyproject_dependency_overrides.py:63-94 | a version is admitted after `drop_upper` exactly when it meets every `!=`, `>` and `>=` of the original list and is at least V for every `== V` and `~= V`; after `drop_lower` exactly when it meets every `!=`, `<` and `<=` and is at most V for every `== V` |
| `Overrides.OverridesMeaning` | rpms/pyproject-rpm-macros/pyproject_dependency_overrides.py:97-137 | the same for any list of overrides, from the original specifiers and the last decision on each side |
| `Overrides.ExclusionsSurvive` | rpms/pyproject-rpm-macros/pyproject_dependency_overrides.py:14-94 | a `!=` is left by a list of overrides exactly when it was there and nothing drops all constraints |
| `Overrides.SettingABound` | rpms/pyproject-rpm-macros/pyproject_dependency_overrides.py:126-135 | `set_upper v` admits exactly what `drop_upper` admits and `< v` does; likewise for lower bounds |
| `Overrides.HalvesOfPinnedSpecifiers` | rpms/pyproject-rpm-macros/pyproject_dependency_overrides.py:66-67 | the two halves of `== V` and of `~= V` are exactly as strong as the whole |
| `Overrides.UpwardClosedExactly` | rpms/pyproject-rpm-macros/pyproject_dependency_overrides.py:63-78 | after removing upper bounds the bounds other than `!=` admit an upward closed set exactly when no `> V` with a pre-release V leaves the final release of V admitted |
| `Overrides.DownwardClosedExactly` | rpms/pyproject-rpm-macros/pyproject_dependency_overrides.py:81-94 | the mirror statement, with `< V` and a post-release V |
| `Overrides.PrereleaseBoundIsAGap` | rpms/pyproject-rpm-macros/pyproject_dependency_overrides.py:63-78 | every `> V` with a pre-release V is such a gap on its own |
| `Overrides.PostreleaseBoundIsAGap` | rpms/pyproject-rpm-macros/pyproject_dependency_overrides.py:81-94 | every `< V` with a post-release V is one as well |
| `PatchMetadata.Patch` | rpms/pyproject-rpm-macros/pyproject_patch_metadata.py:63-102 | the file after the call: each targeted line rewritten or removed, every other line as it was; it is written exactly when a line changed |
| `PatchMetadata.PatchIdempotent` | rpms/pyproject-rpm-macros/pyproject_patch_metadata.py:46-101 | patching an already patched file changes nothing |
| `PatchMetadata.PatchKeepsTheRest` | rpms/pyproject-rpm-macros/pyproject_patch_metadata.py:73-97 | the lines that no override is about stay, in order, and no other line becomes one of them |
| `PatchMetadata.PatchRewritesLineByLine` | rpms/pyproject-rpm-macros/pyproject_patch_metadata.py:46-97 | exactly the targeted lines with `ignore` go; every other targeted line keeps its name, extras and marker and gets the specifiers that the overrides make of its own; the others are as they were |
| `Requirements.Gatherer.constructor` | rpms/pyproject-rpm-macros/pyproject_buildrequires.py:85-106 | a gatherer starts with the normalised starting extras and empty lists |
| `Requirements.Gatherer.Add` | rpms/pyproject-rpm-macros/pyproject_buildrequires.py:175-278 | the new state is one step of the gathering run on the requirement with its extra; it fails exactly when a requirement that becomes active cannot be printed; the recursion through re-adding terminates for every input |
| `Requirements.ActiveWhenWanted` | rpms/pyproject-rpm-macros/pyproject_buildrequires.py:204-214 | given under an extra, a requirement is active exactly when some tried extra is that one in any spelling and meets its own marker; its name, extras and specifiers stay |
| `Requirements.NamesDecide` | rpms/pyproject-rpm-macros/pyproject_buildrequires.py:198-217 | overrides and the package itself are found under the canonical name in whatever spelling it is given |
| `Requirements.MarkersIgnoreSpelling` | rpms/pyproject-rpm-macros/pyproject_buildrequires.py:160-164 | a marker does not look at how an extra is spelled |
| `Requirements.Gatherer.AddSelfReference` | rpms/pyproject-rpm-macros/pyproject_buildrequires.py:217-228 | widens the extras when needed and re-adds what was set aside, consuming one self-reference for each nested re-add |
| `Requirements.Gatherer.ReaddIgnoredAliens` | rpms/pyproject-rpm-macros/pyproject_buildrequires.py:291-295 | adds the detached requirements again, in order, from an emptied list |
| `Requirements.Gatherer.EvaluateAllEnvironments` | rpms/pyproject-rpm-macros/pyproject_buildrequires.py:154-164 | true exactly when the marker holds under one of the extras, or under the empty extra when there are none |
| `Requirements.Gatherer.OverriddenSpecs` | rpms/pyproject-rpm-macros/pyproject_buildrequires.py:141-152 | the specifiers left after the overrides of the package, as a set |
| `Requirements.Gatherer.Emit` | rpms/pyproject-rpm-macros/pyproject_buildrequires.py:254-278 | one output entry with the converted specifiers, and one more for each extra when these are asked for |
| `Requirements.Gatherer.Extend` | rpms/pyproject-rpm-macros/pyproject_buildrequires.py:286-289 | the run over the whole list, one requirement after the other |
| `Requirements.GatheringIsLeastFixpoint` | rpms/pyproject-rpm-macros/pyproject_buildrequires.py:154-295 | with monotone markers the final extras are the least fixpoint of what active self-references ask for; exactly the other active requirements are emitted, each as often as given; the rest stay set aside |
| `Requirements.OutcomeIsUnique` | rpms/pyproject-rpm-macros/pyproject_buildrequires.py:154-295 | the least-fixpoint description fixes extras, emitted and ignored requirements |
| `Requirements.AddAllConcat` | rpms/pyproject-rpm-macros/pyproject_buildrequires.py:286-289 | extending twice is extending once by both lists |
| `Requirements.Gather` | rpms/pyproject-rpm-macros/pyproject_buildrequires.py:675-704 | a new gatherer extended by any batches in turn ends with the run over all their requirements, which with monotone markers is the least fixpoint of the whole; it fails exactly when an emission of that run cannot be printed; nothing is printed for an extra that is not among the final ones |
| `Requirements.OutcomeIsGiven` | rpms/pyproject-rpm-macros/pyproject_buildrequires.py:175-278 | with monotone markers the final extras, the printed entries and the missing flag are told by what was given under which extra: the least extras closed under wanted self-references, an entry for each wanted requirement of another package that is not ignored, and the flag exactly when one of those has no installed version that meets its specifiers |
| `Requirements.NothingUnaskedIsPrinted` | rpms/pyproject-rpm-macros/pyproject_buildrequires.py:204-214 | whatever the markers are, each entry is that of a given requirement, and none was given under an extra that is not among the final ones |
| `Requirements.OrderDoesNotMatter` | rpms/pyproject-rpm-macros/pyproject_buildrequires.py:154-295 | two orders of the same requirements end with the same extras and the same emitted and ignored requirements |
| `Requirements.OrderNeverDecidesExactly` | rpms/pyproject-rpm-macros/pyproject_buildrequires.py:154-295 | in a package that can refer to itself the order of the requirements never decides about a requirement, whatever extras it starts from and whatever monotone requirements come with it, exactly when it is monotone or ignored by an override |
| `Requirements.MonotoneExactly` | rpms/pyproject-rpm-macros/pyproject_buildrequires.py:154-164 | a requirement is monotone exactly when its marker, if it holds without extras, holds under every single extra |
| `Requirements.PositiveIsMonotone` | rpms/pyproject-rpm-macros/pyproject_buildrequires.py:160-164 | markers without a negated extra are monotone |
| `Requirements.PositiveExtrasAreLeast` | rpms/pyproject-rpm-macros/pyproject_buildrequires.py:217-228 | with positive markers no closed set above the starting extras, normalised or not, is smaller than the final extras |
| `Requirements.NegatedMarkerDependsOnOrder` | rpms/pyproject-rpm-macros/pyproject_buildrequires.py:210-228 | with a marker that a self-reference turns off the order does decide: one order emits the requirement, the other emits nothing |
| `Requirements.ActiveMonotone` | rpms/pyproject-rpm-macros/pyproject_buildrequires.py:160-164 | a positive marker that holds under some extras holds under more |
| `Requirements.EntryMeaning` | rpms/pyproject-rpm-macros/pyproject_buildrequires.py:259-278 | RPM accepts a version for an emitted line exactly when it meets every specifier left after the overrides, as long as no pair diverges |
| `Requirements.EntryNamesAreCanonical` | rpms/pyproject-rpm-macros/pyproject_buildrequires.py:198-259 | the name on a line is canonical, a canonical name stays as it is, and all spellings of a name give the same |
| `Requirements.EntrySpecsAreOverridden` | rpms/pyproject-rpm-macros/pyproject_buildrequires.py:141-152 | the specifiers on a line are what the overrides of the package make of those given |
| `Requirements.ExtraLinesExactly` | rpms/pyproject-rpm-macros/pyproject_buildrequires.py:254-257 | with the option on there is a line for each extra, the name and the extra without capitals in brackets, and no other; with it off there is none |
| `Reachability.ClosedCovers` | rpms/grafana13.2/generate-bundled-npm-provides.py:58-119 | a set that holds the roots and is closed under steps holds everything reachable |
| `Worklist.Finish` | rpms/grafana13.2/generate-bundled-npm-provides.py:50-120 | a finished worklist with visited keys has found exactly what the reachable items contribute, and all of them resolve |
| `Worklist.FinishSelects` | rpms/grafana13.2/generate-bundled-npm-provides.py:50-120 | a finished worklist has expanded one item for each key it met |
| `Worklist.NothingInvented` | rpms/grafana13.2/generate-bundled-npm-provides.py:50-120 | nothing is found that no reachable item contributes |
| `YarnClosure.BuildIndexes` | rpms/grafana13.2/generate-bundled-npm-provides.py:38-48 | the descriptor table and the packages by name, in file order |
| `YarnClosure.FindInLock` | rpms/grafana13.2/generate-bundled-npm-provides.py:87-106 | the four lookups in order: descriptor, `npm:` descriptor, unique locator, unique resolution |
| `YarnClosure.Overrides` | rpms/grafana13.2/generate-bundled-npm-provides.py:73-83 | the values of all matching resolution patterns in order |
| `YarnClosure.LookUp` | rpms/grafana13.2/generate-bundled-npm-provides.py:73-106 | the package an item resolves to, or the failure |
| `YarnClosure.YarnPackages` | rpms/grafana13.2/generate-bundled-npm-provides.py:37-120 | the result holds the values of one item for each key on the way; where items with the same key resolve alike, it is exactly the set of what reachable items provide and the call raises exactly when a reachable item cannot be resolved; in every case it terminates, invents nothing and never raises wrongly |
| `YarnClosure.ReachedExactly` | rpms/grafana13.2/generate-bundled-npm-provides.py:25-119 | what is reached is exactly what the root lists, or the workspace or package of something reached, in `dependencies` or `optionalDependencies` and with the right parent; every set closed under that holds all of it |
| `YarnClosure.ValuesExactly` | rpms/grafana13.2/generate-bundled-npm-provides.py:111-115 | an item provides the resolved name and the version of its package, if it has one |
| `YarnClosure.OverridesExactly` | rpms/grafana13.2/generate-bundled-npm-provides.py:73-83 | the override values are those of the patterns that match |
| `YarnClosure.PatternForms` | rpms/grafana13.2/generate-bundled-npm-provides.py:76-82 | the forms of a pattern that matches, for a reference with or without `npm:` |
| `YarnClosure.ContradictionIsIgnored` | rpms/grafana13.2/generate-bundled-npm-provides.py:84-85 | overrides that contradict each other count as none |
| `YarnClosure.OverrideRedirects` | rpms/grafana13.2/generate-bundled-npm-provides.py:84-88 | a single override sends the item to the descriptor of its value |
| `YarnClosure.ListedDescriptorWins` | rpms/grafana13.2/generate-bundled-npm-provides.py:41-88 | a descriptor that an entry lists resolves to the last entry that lists it |
| `YarnClosure.NpmDescriptorIsTried` | rpms/grafana13.2/generate-bundled-npm-provides.py:89-91 | otherwise the one with `npm:` in front of the reference does |
| `YarnClosure.LocatorIsTried` | rpms/grafana13.2/generate-bundled-npm-provides.py:92-99 | otherwise the only locator that begins with the descriptor does |
| `YarnClosure.NameIsTried` | rpms/grafana13.2/generate-bundled-npm-provides.py:100-104 | otherwise the packages under the name do if all are resolved alike |
| `YarnClosure.UnambiguousIsDetermined` | rpms/grafana13.2/generate-bundled-npm-provides.py:61-62 | items with the same key resolve alike when no descriptor is reached under two names |
| `Worklist.SharedKeyLosesOne` | rpms/grafana13.2/generate-bundled-npm-provides.py:61-62 | of two items with one key, each with a value of its own, a run finds at most one value |
| `YarnClosure.AmbiguousLosesOne` | rpms/grafana13.2/generate-bundled-npm-provides.py:61-62 | a project with two dependencies that share a descriptor: both are reached and resolve, and every result misses one of them |
| `YarnClosure.SameKeySameResult` | rpms/grafana13.2/generate-bundled-npm-provides.py:61-62 | two items with the same key and name resolve alike, so skipping a visited one loses nothing |
| `YarnClosure.NpmNamesAreUnambiguous` | rpms/grafana13.2/generate-bundled-npm-provides.py:87-90 | names without `@` after their first character make every descriptor show its name |
| `PnpmClosure.LockfileProvides` | rpms/jaeger/generate-bundled-npm-provides.py:37-69 | the name and version pairs of all reachable snapshots; raises exactly when an importer or a reachable key is broken or nothing is provided |
| `PnpmClosure.Traverse` | rpms/jaeger/generate-bundled-npm-provides.py:48-66 | the traversal with a visited set equals plain reachability |
| `PnpmClosure.QueueReferences` | rpms/jaeger/generate-bundled-npm-provides.py:42-46 | the references in order, or the failure of a bad alias |
| `PnpmClosure.ReachedExactly` | rpms/jaeger/generate-bundled-npm-provides.py:41-66 | what is reached is exactly what an importer or a reached snapshot points to in either section; every set closed under that holds all of it |
| `PnpmClosure.ParseKeyExactly` | rpms/jaeger/generate-bundled-npm-provides.py:55-58 | a key is read as a name and a version exactly when it is a package name, an `@`, the version and any peers in parentheses |
| `PnpmClosure.PackageNameExactly` | rpms/jaeger/generate-bundled-npm-provides.py:16 | a package name is a part without slash and `@`, with or without a scope |
| `PnpmClosure.ReferencePoints` | rpms/jaeger/generate-bundled-npm-provides.py:76-81 | a plain reference is a version of the named package, an alias names another package and its version, and an alias without `@` is an error |
| `PnpmClosure.LocalExactly` | rpms/jaeger/generate-bundled-npm-provides.py:73-75 | a dependency points nowhere exactly when its reference is no string or is local |
| `DependencyGroups.ResolveDependencyGroup` | rpms/pyproject-rpm-macros/pyproject_buildrequires.py:602-632 | the recursive resolver computes the resolution function and terminates because the path has no repeats |
| `DependencyGroups.ResolutionIsExpansion` | rpms/pyproject-rpm-macros/pyproject_buildrequires.py:615-632 | it succeeds with a list exactly when that list is the in-order expansion of the group (PEP 735) |
| `DependencyGroups.ResolutionSucceedsExactly` | rpms/pyproject-rpm-macros/pyproject_buildrequires.py:605-630 | it succeeds exactly when every group reachable through includes exists and is well formed and none lies on a cycle |
| `DependencyGroups.FailureHasItsCause` | rpms/pyproject-rpm-macros/pyproject_buildrequires.py:605-630 | a failure names its cause: a reachable group that is missing, is not well formed, or lies on a cycle |
| `ZoneList.Find` | rpms/bind/ldap2zone.c:40-45 | the cell with the key, or null exactly when the list has none |
| `ZoneList.Push` | rpms/bind/ldap2zone.c:47-50 | the item is first, the rest of the list follows unchanged |
| `ZoneList.InsertBottom` | rpms/bind/ldap2zone.c:52-66 | the item is last, the list before it unchanged |
| `ZoneList.Zone.constructor` | rpms/bind/ldap2zone.c:268 | an empty list of names |
| `ZoneList.Zone.AddName` | rpms/bind/ldap2zone.c:203-221 | a new name without records, first for `@` and last otherwise |
| `ZoneList.Zone.AddRecord` | rpms/bind/ldap2zone.c:223-254 | one new record under the name, first for SOA and last otherwise; every other list unchanged |
| `ZoneList.Zone.PutRr` | rpms/bind/ldap2zone.c:190-255 | the linked lists stay acyclic and change exactly as the ordered map of names does; an empty name or value changes nothing |
| `ZoneList.Zone.PutRrs` | rpms/bind/ldap2zone.c:190-255 | after any sequence of calls the lists are the described layout of that sequence |
| `ZoneModel.ZoneLayout` | rpms/bind/ldap2zone.c:217-220 | `@` first if it ever arrived, the other names in order of first arrival, each with its SOA records latest first and then the rest in order of arrival |
| `ZoneModel.NamesAreDistinct` | rpms/bind/ldap2zone.c:198-203 | no name is stored twice |
| `ZoneModel.EveryCallAddsOneRecord` | rpms/bind/ldap2zone.c:194-254 | every call with a name and a value adds exactly one record |
| `ZoneSpelling.RecordTexts` | rpms/bind/ldap2zone.c:229-237 | a record is kept under its time to live, a blank and its type |
| `ZoneSpelling.TwoCalls` | rpms/bind/ldap2zone.c:250-253 | of two calls for one name an SOA record goes in front, anything else behind |
| `ZoneList.NeverTwice` | rpms/bind/ldap2zone.c:63-65 | a list that ends in null never comes back to a cell |
| `CertObjects.LabelExists` | rpms/ca-certificates/mergepem2certdata.py:130-134 | true exactly when an object of the class has the label |
| `CertObjects.RenameUntilFree` | rpms/ca-certificates/mergepem2certdata.py:144-151 | ends, with the first numbered label that is free, in order of trying |
| `CertObjects.FreeCountIsFirst` | rpms/ca-certificates/mergepem2certdata.py:144-151 | that number is the first whose label is free, and no other number is |
| `CertObjects.AddObj` | rpms/ca-certificates/mergepem2certdata.py:137-153 | the list with the object appended under a free label, dropped when that is asked for, or the failure of a label that is only a quote |
| `CertObjects.FreeCandidate` | rpms/ca-certificates/mergepem2certdata.py:144-151 | one of as many distinct candidates as there are objects and one more is free |
| `CertObjects.CandidatesDiffer` | rpms/ca-certificates/mergepem2certdata.py:147-151 | the labels that the loop tries are pairwise distinct |
| `CertObjects.AddingKeepsLabelsUnique` | rpms/ca-certificates/mergepem2certdata.py:137-153 | adding keeps pairs of class and label unique and only appends |
| `CertObjects.AddedLabels` | rpms/ca-certificates/mergepem2certdata.py:137-153 | a taken label gets the special one behind it and a blank if that is free, or the number 1; a free one is kept, a taken one dropped where that is asked for |
| `CertdataSpelling.CandidateTexts` | rpms/ca-certificates/mergepem2certdata.py:147-150 | the labels tried are the label, and the label with a blank and a number, in quotes |
| `Certdata.ReadLabelsAreUnique` | rpms/ca-certificates/mergepem2certdata.py:212-273 | whatever the file holds, no two objects read from it share class and label |
| `Certdata.DumpOctal` | rpms/ca-certificates/mergepem2certdata.py:86-91 | sixteen escapes a line and a closing `END` |
| `CertdataSpelling.LinesOfSixteen` | rpms/ca-certificates/mergepem2certdata.py:86-91 | every line but the last has sixteen escapes of four characters, and together the lines are all the escapes |
| `CertdataSpelling.Escapes` | rpms/ca-certificates/mergepem2certdata.py:90 | an escape is a backslash and three octal digits |
| `CertdataSpelling.TokenText` | rpms/ca-certificates/mergepem2certdata.py:436-440 | the line of a boolean |
| `CertdataSpelling.ValueText` | rpms/ca-certificates/mergepem2certdata.py:86-91 | the lines of a byte value |
| `Certdata.DumpFields` | rpms/ca-certificates/mergepem2certdata.py:427-439 | the fields in table order, each under the type its value decides |
| `Certdata.Dump` | rpms/ca-certificates/mergepem2certdata.py:416-441 | the header and every object not marked deleted, with its comment and an empty line |
| `Certdata.FinishObject` | rpms/ca-certificates/mergepem2certdata.py:230-234 | the list with the finished object, or nothing when it lacks class or label |
| `Certdata.ReadField` | rpms/ca-certificates/mergepem2certdata.py:252-270 | one line of an object, for every reader state it can be read in |
| `Certdata.ReadCertdata` | rpms/ca-certificates/mergepem2certdata.py:211-273 | the reader loop computes the line-by-line reading of the file |
| `Certdata.OctalReadsBack` | rpms/ca-certificates/mergepem2certdata.py:86-91 | reading the octal text gives back the bytes |
| `Certdata.DumpReadsBack` | rpms/ca-certificates/mergepem2certdata.py:211-441 | reading a dumped file gives back the header and exactly the objects not marked deleted, in order and with comments, for values that survive their lines and unique labels |
| `Certdata.TextLineReadsBackExactly` | rpms/ca-certificates/mergepem2certdata.py:256-259 | a text value comes back from its line exactly when it is not empty and does not end in white space |
| `Certdata.EmptyBytesAreLost` | rpms/ca-certificates/mergepem2certdata.py:265-269 | a byte value without bytes is written but leaves no field when read |
| `CertTable.TableIsGood` | rpms/ca-certificates/mergepem2certdata.py:54-75 | the attribute table of the program meets the conditions of the round trip |
| `PoCatalogue.GTFile.constructor` | rpms/gettext/msghack.py:245-296 | the messages are the line-by-line reading of the text |
| `PoCatalogue.GTFile.ReadLine` | rpms/gettext/msghack.py:263-293 | one line moves flags, accumulators and message list exactly as the reader step does |
| `PoCatalogue.GTFile.ToString` | rpms/gettext/msghack.py:155-163 | every message with its references, followed by an empty line |
| `CatalogueSpelling.MessageTexts` | rpms/gettext/msghack.py:43-52 | the text of a message with a reference |
| `PoCatalogue.GTFile.GetMsgstr` | rpms/gettext/msghack.py:207-217 | the string of the first message with the id |
| `PoCatalogue.GTFile.Append` | rpms/gettext/msghack.py:232-242 | appends the messages whose id has no nonempty string yet |
| `PoCatalogue.GTFile.InvertedStrings` | rpms/gettext/msghack.py:165-190 | the text of the inverted catalogue |
| `PoCatalogue.Invert` | rpms/gettext/msghack.py:172-186 | the loop with its table of new ids computes the inversion |
| `PoCatalogue.CatalogueReadsBackExactly` | rpms/gettext/msghack.py:43-52 | printing and reading a quoted catalogue is the identity exactly when no text begins with an empty chunk that more text follows |
| `PoCatalogue.EmptyFirstChunkIsLost` | rpms/gettext/msghack.py:275-278 | a text with an empty chunk in front of another one does not come back |
| `PoCatalogue.PrintedIsRead` | rpms/gettext/msghack.py:245-296 | reading a printed quoted catalogue gives every message and reference in order, with texts as the reader settles them |
| `PoCatalogue.TakenExactly` | rpms/gettext/msghack.py:275-278 | a quoted text survives exactly when it is in that normal form |
| `PoCatalogue.InvertTwiceExactly` | rpms/gettext/msghack.py:165-190 | inverting twice restores a catalogue exactly when ids differ, strings differ and a first message that is not kept has a nonempty string |
| `PoCatalogue.InvertTwiceThroughFiles` | rpms/gettext/msghack.py:155-296 | the same through printing and reading both times |
| `PoCatalogue.InvertedIsSwappedExactly` | rpms/gettext/msghack.py:175-186 | nothing is merged exactly when the strings differ, and then every message but a kept head is swapped |
| `PoCatalogue.InversionKeepsRefs` | rpms/gettext/msghack.py:183-186 | no reference is lost or invented by merging |
| `PoCatalogue.InversionLooksUpBackwards` | rpms/gettext/msghack.py:175-186 | looking up a string in the inverted catalogue gives the first id that had it |
| `PoCatalogue.AppendedLooksUpBoth` | rpms/gettext/msghack.py:232-242 | existing entries stay in front; an id is looked up here first and then in the other catalogue |
| `PoCatalogue.AppendingKeepsIdsDistinct` | rpms/gettext/msghack.py:240-242 | with a string for every entry distinct ids stay distinct, whatever the other catalogue repeats |
| `PoCatalogue.AppendTwiceExactly` | rpms/gettext/msghack.py:240-242 | appending again adds nothing exactly when every id has a nonempty string by then |
| `PoCatalogue.UntranslatedGrows` | rpms/gettext/msghack.py:240-242 | an entry with an empty string is appended again each time |
| `PoCatalogue.BareStringIsEmpty` | rpms/gettext/msghack.py:263-293 | a `msgstr` line without quotes is read as such an entry |
| `PinCheck.FixedPipelineGitRefs` | ci/dist_git.py:1354-1369 | the refs of git steps that do not follow the version, in order |
| `PinCheck.FixedRefPipelineDrift` | ci/dist_git.py:1388-1403 | the fixed refs whose short hash the spec no longer names; none unless there is exactly one spec with a custom setup |
| `PinCheck.DriftIsStalePins` | ci/dist_git.py:1388-1403 | no drift exactly when the check does not apply or no pin is stale |
| `PinCheck.DriftsExactly` | ci/dist_git.py:1354-1403 | a ref is reported exactly when a git pin has it, it is not empty, it holds no `${VERSION}`, and the only spec, which overrides its setup directory, does not name its first seven characters |
| `PinCheck.RefreshFixedRefPin` | ci/dist_git.py:1417-1523 | the staged copy with the first step that has the old ref rewritten, or nothing when any step fails |
| `PinCheck.RefreshWrites` | ci/dist_git.py:1455-1523 | a refresh changes one step, the first with the ref of the own pin, to the whole revision that the spec names, and runs gorget for the old version with the date behind a dash |
| `PinCheck.RefreshClearsDriftExactly` | ci/dist_git.py:1505-1510 | the drift is gone exactly when the rewritten pin was the only stale one and the spec names its new revision |
| `PinCheck.SecondStalePinStays` | ci/dist_git.py:1505-1510 | of two stale pins the refresh rewrites the own one and the drift stays |
| `PinCheck.TwoStalePinsStayStale` | ci/dist_git.py:1505-1510 | so it does for a spec that names its new revision and neither of the two that are pinned |
| `PinCheck.RefusedInEveryWorldExactly` | ci/dist_git.py:1547-1596 | the check is refused whatever date and gorget say exactly when a pin is stale and the refresh never comes to run gorget: no commit-date reference, no single spec with a revision, or the own pin missing, empty or up to date |
| `PinCheck.PassesExactly` | ci/dist_git.py:1547-1596 | exactly when the check before a commit passes |
| `UpdateProtocol.WorkTree.RunGorgetForUpdatedPackage` | ci/dist_git.py:1526-1596 | the verdict of the check; the real pipeline file changes only when gorget succeeded on the staged copy |
| `UpdateProtocol.WorkTree.CommitContent` | ci/dist_git.py:1889-1902 | metadata version, head and history after a content commit |
| `UpdateProtocol.WorkTree.UpdatePackage` | ci/dist_git.py:1803-1902 | the whole state after an update or sync: committed, or merged with a state file left for `--continue` |
| `UpdateProtocol.WorkTree.ContinueUpdate` | ci/dist_git.py:1905-1973 | the whole state after `--continue`: unchanged when refused, else committed without the state file |
| `UpdateProtocol.EveryCommitIsEarned` | ci/dist_git.py:1526-1973 | over any run of updates, failures, hand edits, `--continue`, marks and abandoned updates, every commit of a package with a pipeline was made by one command of the run: in its world gorget succeeded on exactly the committed pipeline and versions, or it compared equal versions, left the pipeline alone and found no drift |
| `UpdateProtocol.RetryFacesSameCheck` | ci/dist_git.py:1836-1902 | a refused update leaves metadata, history and pipeline alone, and `--continue` commits exactly when the same check passes then |
| `UpdateProtocol.ConflictFacesSameCheck` | ci/dist_git.py:1848-1973 | after a merge conflict that is resolved by hand, `--continue` commits exactly when the check from the old to the new version passes on the resolved specs; the commit then has the new version and the pipeline and run of that check |
| `UpdateProtocol.UnresolvedStays` | ci/dist_git.py:1922-1932 | as long as conflict markers are left, `--continue` changes nothing |
| `UpdateProtocol.DryRunCommitsNothing` | ci/dist_git.py:1859-1973 | a dry run commits nothing and leaves version and pipeline alone |
| `UpdateProtocol.RestartFacesSameCheck` | ci/dist_git.py:1836-1902 | abandoning a refused update and starting over faces the same check as if nothing had happened |
| `UpdateProtocol.UnverifiedCommitsKeepTheVersion` | ci/dist_git.py:1589-1591 | over any run without a harmful sync, a commit that gorget did not verify keeps the committed version |
| `UpdateProtocol.StepStaysSafeExactly` | ci/dist_git.py:1836-1973 | from a safe state no command commits another version unverified, and it leaves a safe state unless it is a harmful sync: one that commits another version over the state file of an update that changes no version |
| `UpdateProtocol.StaysVerifiedExactly` | ci/dist_git.py:1905-1973 | every way to go on from a state without another sync keeps unverified commits at their version exactly when the state is safe: from any other state resolving by hand and `--continue` commits another version without gorget |
| `UpdateProtocol.SyncIsHarmlessExactly` | ci/dist_git.py:1836-1902 | a sync from a safe state leaves one from which, without another sync, unverified commits keep their version exactly when it is not a harmful one |
| `UpdateProtocol.StateFileStaysCurrentExactly` | ci/dist_git.py:1803-1902 | a sync over a pending update leaves a current state file exactly when it conflicts, is refused, or keeps the version |
| `UpdateProtocol.StaleStateFileRevertsVersion` | ci/dist_git.py:2891-2908 | only `update` removes a stale state file: after a sync, `--continue` takes the version back without running gorget |
| `UpdateProtocol.CommittedPinsAreFreshExactly` | ci/dist_git.py:1554-1582 | a commit after a refresh leaves no stale pin exactly under the condition of `RefreshClearsDriftExactly` |
| `UpdateProtocol.StalePinBlocksEveryRun` | ci/dist_git.py:1547-1596 | with a stale pin that no refresh reaches, every update and every `--continue` of every later run is refused in every world, until other specs arrive or specs or pipeline are edited |
| `UpdateProtocol.SecondStalePinBlocksEveryRun` | ci/dist_git.py:1460-1471 | a committed refresh that leaves another stale pin beside an up-to-date own pin is such a case |
| `YamlBlocks.FindTopLevelYamlBlock` | ci/dist_git.py:519-540 | the range from the first line with the key to the next line that continues nothing |
| `YamlBlocks.InsertTopLevelYamlBlock` | ci/dist_git.py:543-573 | the file with the block in front of the first greater key, or at the end |
| `YamlBlocks.AppendKeyToYamlBlock` | ci/dist_git.py:576-583 | the file with the line put before the trailing blank lines of the block |
| `YamlBlocks.FoundIsBlock` | ci/dist_git.py:519-540 | the range is the block with the key, and nothing is found exactly when there is none |
| `YamlBlocks.KeyOfExactly` | ci/dist_git.py:516-533 | a line has a key exactly when it begins with key characters and a colon |
| `YamlBlocks.InsertedIsFoundInside` | ci/dist_git.py:573 | a block put between others is found at its place with its separating line |
| `YamlBlocks.InsertedIsFoundAtEnd` | ci/dist_git.py:569-572 | a block put at the end of the list of lines is found behind the old lines and at most one empty line |
| `YamlBlocks.TakingOutRestores` | ci/dist_git.py:573 | its lines are the ones asked for, and taking them out gives the file back |
| `YamlBlocks.InsertedBody` | ci/dist_git.py:565-573 | the body of the new block is the text that was asked for |
| `YamlBlocks.InsertingKeepsKeysSorted` | ci/dist_git.py:543-573 | sorted unique keys stay sorted and unique |
| `YamlBlocks.InsertingKeepsOtherBlocks` | ci/dist_git.py:543-573 | every other block is unchanged up to blank lines at its end |
| `YamlBlocks.AppendedBody` | ci/dist_git.py:576-583 | in the list of lines the appended line becomes the last line of the body of its block |
| `YamlBlocks.AppendingKeepsOtherBlocks` | ci/dist_git.py:576-583 | every other block is unchanged |
| `YamlBlocks.AssignPackages` | ci/dist_git.py:2655-2666 | the list of lines after the loop over the packages, inserting or appending |
| `YamlBlocks.AssignmentIsExact` | ci/dist_git.py:2655-2666 | in the list of lines each block is what it was plus one line for each time its package was listed; sorted keys stay sorted |
| `YamlBlocks.EveryPackageGetsItsProduct` | ci/dist_git.py:2655-2666 | in the list of lines every listed package's block holds its `private_product` line behind what it held; the other blocks are as they were |
| `YamlBlocks.AddPrivateProduct` | ci/dist_git.py:2654-2667 | from the text of the file to the text that is written |
| `YamlSpelling.ProductTexts` | ci/dist_git.py:2658-2665 | the line and the block that a package gets |
| `YamlBlocks.ReadsBackExactly` | ci/dist_git.py:2654-2667 | joined lines are read back as those lines exactly when each but the last ends in its only line break and the last has none elsewhere |
| `YamlBlocks.AssignedReadsBackExactly` | ci/dist_git.py:2655-2667 | with one package, the written text is read back as the list of lines exactly when the last line of the file had its line break or the new lines do not go behind it |
| `YamlBlocks.BehindLastExactly` | ci/dist_git.py:543-583 | they go behind it exactly when the block is the last one and does not end in a blank line, or there is neither the block nor a greater key |
| `YamlBlocks.WrittenIsReadBackExactly` | ci/dist_git.py:2655-2667 | the same for any list of packages, judged on the file before the loop |
| `YamlWritten.WrittenFileIsRightExactly` | ci/dist_git.py:2654-2667 | in the written file every block is what it was plus one line for each time its package was listed, up to a line break at the end of the file, if and only if the last line had its break or no listed package glues: none has the last block with no blank line at its end, and none is missing without a greater key behind a blank last line |
| `YamlWritten.WrittenFileHasTheProducts` | ci/dist_git.py:2654-2667 | under that condition every listed package has its line in the written file, the other blocks are as they were, and sorted keys stay sorted |
| `YamlWritten.MissingPackageDoesNoHarm` | ci/dist_git.py:569-572 | a missing package behind an unended line that is not blank does not glue: the empty line in front of it ends that line |
| `YamlWritten.BlankLineLosesTheBlock` | ci/dist_git.py:569-572 | behind an unended blank line a missing package glues: its key is lost |
| `YamlBlocks.UnterminatedFileLosesTheProduct` | ci/dist_git.py:2667 | in the written form of `a:` with an unended line `  x: y` the product line of `a` is glued to that line |
| `YamlBlocks.UpdatePackageOverrides` | ci/dist_git.py:586-595 | the first line of the block gets the new key, if there is a block |
| `YamlBlocks.RenamingMovesOneBlock` | ci/dist_git.py:586-595 | the block is found under the new key with all its other lines; other blocks are unchanged |
| `Sources.PackageSources.constructor` | ci/check_upstream_versions.py:729-731 | the package with its listed entries and the cache |
| `Sources.PackageSources.DownloadNewSources` | ci/check_upstream_versions.py:724-807 | the `sources` file and cache after a default update or after the step at which it failed |
| `Sources.PackageSources.UpdateFromHook` | ci/check_upstream_versions.py:1102-1142 | the same for the files a hook printed |
| `Sources.PackageSources.RunGorgetPipeline` | ci/check_upstream_versions.py:654-699 | upload of everything first, then the wholesale replacement of the file, or only uploads when one fails |
| `Sources.EveryListedNameIsUploaded` | ci/check_upstream_versions.py:467-1144 | over any run of default, hook and gorget updates, commits and discards, with failures anywhere, every listed file name has been uploaded |
| `Sources.DefaultKeepsServing` | ci/check_upstream_versions.py:760-783 | every listed entry stays fetchable with its algorithm and hash after a default update |
| `Sources.DefaultLeavesTheFile` | ci/check_upstream_versions.py:736-807 | with entries and no remote source nothing changes; an update leaves the file as it was when a new source or the vendor archive cannot be had or uploaded |
| `Sources.PhasesFailExactly` | ci/check_upstream_versions.py:760-783 | it fails exactly then |
| `Sources.FailuresLeaveTheFile` | ci/check_upstream_versions.py:1102-1142 | a hook or gorget update leaves the file as it was when a file is missing or cannot be uploaded |
| `Sources.DefaultEntries` | ci/check_upstream_versions.py:760-805 | every entry after a default update was listed before, was fetched and has the SHA512 hash of its content, or is the vendor archive under its new name with its own algorithm |
| `Sources.ReplacedStep` | ci/check_upstream_versions.py:508 | every occurrence of the old version in the archive name is replaced |
| `Sources.BasenameIsLast` | ci/check_upstream_versions.py:761 | the file name of a URL is what follows its last slash |
| `Sources.HookServesExactly` | ci/check_upstream_versions.py:1127-1138 | after a hook update they are fetchable exactly when no printed name takes over an entry listed with another algorithm, which keeps its algorithm but gets a SHA512 hash; the listed algorithms and names and the printed names decide |
| `Sources.HookTakesOverForeignEntry` | ci/check_upstream_versions.py:1127-1138 | a hook that prints a file listed with an MD5 hash is such a case |
| `Sources.GorgetServes` | ci/check_upstream_versions.py:674-698 | a gorget update that emits true hashes leaves every entry fetchable |
| `Sources.DefaultNamesExactly` | ci/check_upstream_versions.py:785-805 | the listed names are exactly the remote sources and the vendor archives if and only if the renamed archive, unless it keeps its name or is listed twice, is no remote source, and its new name is a remote source, named like an archive, or listed before; all of this is read off the listed names and the spec |
| `Sources.RemoteArchiveIsLost` | ci/check_upstream_versions.py:785-805 | a remote source named like an archive is no longer listed after the renaming |
| `Sources.VendorArchiveIsLost` | ci/check_upstream_versions.py:785-805 | `a1-vendor.tar.gz` is lost in this way when version 1 becomes 2 |
| `Sources.DefaultListsWhatIsWanted` | ci/check_upstream_versions.py:785-805 | in particular when the old archive is no remote source and the new one is named like an archive |
| `Classification.Paths.constructor` | rpms/pyproject-rpm-macros/pyproject_save_files.py:350-455 | all lists after the loop over the record |
| `Classification.Paths.AddFileToModule` | rpms/pyproject-rpm-macros/pyproject_save_files.py:153-164 | the module of the kind grows, or one is added |
| `Classification.Paths.AddPyFileToModule` | rpms/pyproject-rpm-macros/pyproject_save_files.py:167-176 | the file and its bytecode, and the cache directory when asked for |
| `Classification.Paths.AddLangToModule` | rpms/pyproject-rpm-macros/pyproject_save_files.py:179-196 | the path under the language of its nearest `LC_MESSAGES` parent, or nothing |
| `Classification.Paths.Classify` | rpms/pyproject-rpm-macros/pyproject_save_files.py:386-453 | the effect of one recorded path |
| `Classification.Paths.ClassifyMetadata` | rpms/pyproject-rpm-macros/pyproject_save_files.py:391-405 | the effect of a path inside dist-info |
| `Classification.Paths.ClassifyTopLevel` | rpms/pyproject-rpm-macros/pyproject_save_files.py:412-428 | the effect of a file directly in a site directory |
| `Classification.Paths.ClassifyNested` | rpms/pyproject-rpm-macros/pyproject_save_files.py:429-446 | the effect of a file inside a package |
| `Classification.Paths.ClassifyElsewhere` | rpms/pyproject-rpm-macros/pyproject_save_files.py:448-453 | the effect of a file outside every site directory |
| `Classification.ExactlyOneBucket` | rpms/pyproject-rpm-macros/pyproject_save_files.py:386-453 | every recorded path other than bytecode, RECORD and REQUESTED is in the bucket of its place and in no other |
| `Classification.ModulesHoldTheirFiles` | rpms/pyproject-rpm-macros/pyproject_save_files.py:412-446 | a module lists exactly the paths whose place it is, and the bytecode of the Python files among them |
| `Classification.LangsHoldTheirFiles` | rpms/pyproject-rpm-macros/pyproject_save_files.py:434-436 | translations are listed by module and language in the order of the record |
| `Classification.ListsHoldTheirFiles` | rpms/pyproject-rpm-macros/pyproject_save_files.py:396-453 | the other lists hold their paths in the order of the record, each as often as it is recorded |
| `Classification.AncestorsAreOwned` | rpms/pyproject-rpm-macros/pyproject_save_files.py:430-433 | every directory strictly between site directory and file is owned by the package the file went to |
| `Classification.CacheDirsAreOwned` | rpms/pyproject-rpm-macros/pyproject_save_files.py:439-444 | the package owns the cache directory beside each of its Python files |
| `Classification.OnlyPackagesOwnDirs` | rpms/pyproject-rpm-macros/pyproject_save_files.py:412-428 | scripts, stubs and extension modules own no directory |
| `Classification.MetadataDirsExactly` | rpms/pyproject-rpm-macros/pyproject_save_files.py:401-404 | the directories listed for dist-info are itself and every one between it and a kept file |
| `Classification.MetadataDirsAreListed` | rpms/pyproject-rpm-macros/pyproject_save_files.py:612-614 | each of them has its `%dir` line whatever is selected |
| `Classification.LangCodeOfPath` | rpms/pyproject-rpm-macros/pyproject_save_files.py:179-193 | the directory above the nearest `LC_MESSAGES` gives the language, up to its first underscore |
| `Classification.NoLangCode` | rpms/pyproject-rpm-macros/pyproject_save_files.py:185-190 | without an `LC_MESSAGES` directory there is none |
| `Classification.TopLevelPlaces` | rpms/pyproject-rpm-macros/pyproject_save_files.py:412-428 | a file directly in a site directory is a script, a stub or an extension module by its extension, or it is other |
| `Classification.ExtensionNames` | rpms/pyproject-rpm-macros/pyproject_save_files.py:414-416 | an extension module is named without its one or two suffixes |
| `Classification.NestedPlaces` | rpms/pyproject-rpm-macros/pyproject_save_files.py:429-446 | a deeper file belongs to the package it is in, unless it is a catalogue with a language |
| `Classification.LicensePlaces` | rpms/pyproject-rpm-macros/pyproject_save_files.py:391-399 | a named license file is found in dist-info and in its `licenses` directory |
| `Classification.ManPagePlaces` | rpms/pyproject-rpm-macros/pyproject_save_files.py:206-248 | a man page is listed without the suffix of a compression and with any other |
| `Classification.FirstSiteCounts` | rpms/pyproject-rpm-macros/pyproject_save_files.py:407-447 | of several site directories the first one counts |
| `Classification.GenerateFileList` | rpms/pyproject-rpm-macros/pyproject_save_files.py:591-648 | the lines of what is selected, or a failure exactly when a glob matches no module |
| `Classification.AddMatching` | rpms/pyproject-rpm-macros/pyproject_save_files.py:618-631 | one glob adds the lines of exactly the modules it matches |
| `Classification.ListedExactly` | rpms/pyproject-rpm-macros/pyproject_save_files.py:591-648 | the line of a recorded path is in the list exactly when its place asks for it |
| `Classification.ListIsComplete` | rpms/pyproject-rpm-macros/pyproject_save_files.py:591-648 | with every module matched and the others included, every kept path has a line that covers it |
| `RpmEscape.EscapeReadsBack` | rpms/pyproject-rpm-macros/pyproject_save_files.py:510-522 | expanding the macros and unquoting the escaped path gives the path back |
| `RpmEscape.GlobbedReadsBack` | rpms/pyproject-rpm-macros/pyproject_save_files.py:513-522 | with an unescaped glob behind it, both the path and the glob are read back |
| `FileListText.LinesDiffer` | rpms/pyproject-rpm-macros/pyproject_save_files.py:602-631 | different lines of the list, with their macros, escaped paths and globs, are different texts, for paths as the file system has them: parts that are not empty and hold no slash |
| `FileListSpelling.LineTexts` | rpms/pyproject-rpm-macros/pyproject_save_files.py:605-631 | the lines of a directory, a license and a catalogue |
| `FileListSpelling.BytecodeText` | rpms/pyproject-rpm-macros/pyproject_save_files.py:130-150 | the bytecode of a script is in the cache directory, in all its optimisation levels |
| `FileListSpelling.NothingActiveIsBare` | rpms/pyproject-rpm-macros/pyproject_save_files.py:513-522 | no character that separates paths, begins a glob or quotes is without a backslash in front of it |

## Left out

- YarnClosure.YarnPackages: completeness is stated where items with the same key resolve alike, as they do with npm
  names. Elsewhere the result is only fixed to hold the values of one item for each key; which one depends on the queue.
- Yarn and pnpm: splitting lock file keys at `, `, and the translation of versions by `rpm_version`.
- Conversion: `===`, local versions and LegacyVersion. Wildcards with `<`, `<=`, `>` and `>=` are converted as the code
  does, but have no PEP 440 meaning to compare with.
- Specifier sets hold one specifier for each canonical spelling in the library; the model tells equal values only.
- Requirements: an epoch written as `0!` is printed like no epoch in the check for unknown characters.
- Requirements.Gatherer.Emit: the order of the conjuncts within one output line is not modelled, they are a set.
- Requirements.GatheringIsLeastFixpoint: requirements seen before the package name is set are not covered, nor markers
  that mention anything but `extra` beyond a fixed truth value.
- Requirements: installed versions, ending a pass, the check for nonexistent extras, tox, and the parsing of
  requirement and override strings.
- Dependency groups: the normalisation of the table's keys and the error for duplicate normalised names.
- Zone builder: LDAP search, `malloc` failure, and printing the zone.
- Certificates: expiry, merging PEM certificates and X.509 parsing; carriage returns; an object without class or label
  ends the reading here, while the program raises only once another object is compared with it.
- Certdata.DumpReadsBack: the dump is modelled for objects whose byte and text values fit their types; for other values
  the program raises. An object without a comment key is dumped by the program with a message; here every object has a
  comment or is deleted.
- Catalogues: carriage returns and white space outside ASCII in file lines, master catalogues, templates with empty
  strings, and duplicates. In the inversion the shared message object is represented by its place in the list.
- Updates: how upstream, version, prerelease and Koji checks decide to skip an update, merging with git, and the
  staging of files; a package directory that vanished before `--continue`; the index of staged files.
- PinCheck.RefreshFixedRefPin: the text substitution is modelled on the parsed steps, so it changes the first step with
  the old ref. Comments that quote a ref, refs that begin with another ref, and an own step with an empty ref are not
  covered.
- PinCheck.FixedRefPipelineDrift: finding the setup override and the changelog by regular expression is an input.
- YAML: keys or products that `yaml.dump` would quote or that hold a line break, and the other characters at which
  `splitlines` breaks a line.
- Sources: a package directory without exactly one spec (the program then does nothing or stops), removing superseded
  local files, `.gitignore`, the choice of the bucket, `Replaced` with an empty version.
- Classification.GenerateFileList: the result is a set of lines; their texts are given by `FileListText`, their sorting
  is not modelled.
- Classification: the qualified module names and the lists made from them, documentation files, escaping for RPM 4.18 and
  the matching of shell globs and man page directories.
- Near copies of the same algorithms in `grafana12.4`, `grafana13.1`, `prometheus3.5`, `prometheus3.13` and
  `certdata2pem.py`.
- `gdb-orphanripper.c` and the scripts around external tools: their guarantees are those of the tools and the kernel.
