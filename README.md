# ByteCraft patch pipeline in Dafny

ByteCraft is a desktop tool for Minecraft server plugins (jar archives). It decompiles a class and lets the user edit the source. It then recompiles that one class against a classpath it assembles itself, and writes a patched copy of the plugin jar with the new bytecode in place of the old class entry. This project models the core of that pipeline:

- **VersionUtils** (`version_utils.dfy`): the Minecraft version value `McVersion` and its parse from a string. It also covers the ordering, compatibility and distance relations, the file-name version recogniser, and the choice of the best-matching API jar for a target version.
- **PluginVersionDetector** (`plugin_version_detector.dfy`): how the target version is read from a plugin jar, in this order: `plugin.yml`, `paper-plugin.yml`, `bungee.yml`, version codes in class names, then the default 1.20. It also covers the `plugin.yml` field parser behind `PluginInfo`.
- **JavaCompiler** (`java_compiler.dfy`): the compiler object. It memoises the plugin version and keeps a process-wide cache of the API jars found in the bundled `libs` resource or in an external folder. It builds the javac options and classpath and interprets the compiler's outcome.
- **JarPatcher** (`jar_patcher.dfy`): the classpath built around a plugin jar and the two jar rewrites. The first replaces one class with freshly compiled bytecode. The second replaces string constants in every class.
- **SearchManager** (`search_manager.dfy`): text search in the current class (positions, cyclic navigation) and across the decompiled classes of the open jar, capped at 100 classes.

Two shared modules support these:

- `java_lang.dfy` (module `JavaLang`) models the parts of `java.lang.String` and `Integer` the code relies on: `trim`, `split` with Java's trailing-empty rule, `replace` of every occurrence, `lastIndexOf`, `parseInt` with its 32-bit range over ASCII digits, and ASCII `toLowerCase`. It also defines `Option`, `Result` and `File`.
- `key_sort.dfy` (module `KeySort`) gives lexicographic comparison of integer keys and one in-place insertion sort on an array. Both Java comparators (`findBestMatchVersion`'s and `getNewestApi`'s) are proved equal to such a key order, and both sorts are this one method.

Each regular expression of the source is written as a small recogniser. The recogniser reproduces Java's left-to-right, greedy-or-lazy backtracking order for that exact pattern, so the group that `find()` reports is the one the model returns. The file system, the compiler, the class-file library and the decompiler are parameters: total functions, or maps held by a `Disk` object.

Inputs and outputs that are parameters of the model:

- Jars on disk: `JarPatcher.Disk.jars`, a map from file to its entries. `PluginVersionDetector.JarView` holds an entry list plus readable texts.
- The existence and listing of files and folders: `Machine` and `Environment`.
- `java.home`, `user.dir`, `user.home` and `File.pathSeparator`: fields of `Environment` and `Machine`.
- The system Java compiler: `Environment.javac`, absent when there is no JDK. The compiler used by JarPatcher is `compile`.
- ASM's class reader and writer: `Asm`. The decompiler and the class listing: `Workspace`.
- The compiled `Pattern` of a search: `MatchFinder`, a function from text to its match spans.

Behaviour of the code that its names and comments do not suggest:

- `getClasspathFromJar` does not deduplicate. Only `compileJavaFile` applies `distinct()`, and it does so on `File` values, that is on abstract paths, not on canonical paths.
- `createPatchedJarWithStringReplacement` has no catch. A failure to open the original leaves the temporary jar behind.
- `findClassFile` accepts `Name.class` and also any `Name$…` nested class file. It returns the first such file in walk order.
- The output name is `name.replace(".jar", "_PATCHED.jar")`. This rewrites every occurrence of `.jar`. A name that does not contain `.jar` stays unchanged, so the patched copy replaces the original file (`NoJarSuffixOverwrites`).
- `convertVersionCode` turns `1_16_R3` into `1_16.3`, not the `1.16.3` its comment announces. `new McVersion("1_16.3")` then has major 0, because `"1_16"` is not an integer (`ConvertCode`, `ConvertedCodeVersion`).
- In `parseVersionFromYml` the pattern `version:` also matches inside `api-version:` and `mc-version:`. The `\s*` in the `plugin.yml` field pattern can cross line breaks.
- `detectFromClasses` applies `.replace(".class", "")` to the dotted class name, so it also removes a `.class` met inside the name. `DisplayName` in the global search behaves the same way.
- In the global search, a pattern that fails to compile throws inside the per-class handler. The classes are therefore still decompiled and counted, but none matches.
- Both jar rewrites write entries under the names they read. `putNextEntry` throws a `ZipException` on a name already written, so a jar with a repeated entry name is never patched. The first rewrite deletes its temporary jar; the second leaves it behind with the entries written before the repeat.

## Model

| member | source | states |
|---|---|---|
| VersionUtils.PartValue | bytecraft/src/main/java/su/bytecraft/VersionUtils.java:68-74 | a version part is the 32-bit `Integer.parseInt` value of the string read as ASCII digits, and 0 when that throws |
| VersionUtils.NewVersion | bytecraft/src/main/java/su/bytecraft/VersionUtils.java:51-66 | a null string is rejected, and so is one whose trimmed text splits on `.` into fewer than two parts; a version that is built keeps the trimmed text and has parts in the int range |
| VersionUtils.NewVersionOfTwo | bytecraft/src/main/java/su/bytecraft/VersionUtils.java:56-65 | `"a.b"` built from plain parts gives major `a`, minor `b`, patch 0 |
| VersionUtils.NewVersionOfThree | bytecraft/src/main/java/su/bytecraft/VersionUtils.java:56-65 | `"a.b.c"` built from plain parts gives major, minor and patch in that order |
| VersionUtils.ToStringRoundTrip | bytecraft/src/main/java/su/bytecraft/VersionUtils.java:134-140 | parsing `toString()` gives back a version equal to the original, for every in-range version with a non-negative patch |
| VersionUtils.IntCompare | bytecraft/src/main/java/su/bytecraft/VersionUtils.java:115-117 | `Integer.compare` is -1, 0 or 1 exactly when less, equal or greater |
| VersionUtils.CompareIsLexicographic | bytecraft/src/main/java/su/bytecraft/VersionUtils.java:114-118 | `compareTo` is the lexicographic order on (major, minor, patch) |
| VersionUtils.CompareTotalOrder | bytecraft/src/main/java/su/bytecraft/VersionUtils.java:114-126 | `compareTo` is antisymmetric and transitive, and is 0 exactly when `equals` holds |
| VersionUtils.ComparisonsAgree | bytecraft/src/main/java/su/bytecraft/VersionUtils.java:150-164 | the four comparison methods are mutually consistent and consistent with `equals`; `isLessThan` is the lexicographic comparison written out |
| VersionUtils.IsCompatibleWith | bytecraft/src/main/java/su/bytecraft/VersionUtils.java:77-92 | compatible exactly when the majors agree and the minors are at most 2 apart |
| VersionUtils.CompatibleSymmetric | bytecraft/src/main/java/su/bytecraft/VersionUtils.java:77-92 | compatibility is symmetric and reflexive on equal versions |
| VersionUtils.DistanceTo | bytecraft/src/main/java/su/bytecraft/VersionUtils.java:95-103 | the distance is non-negative and zero exactly on equal versions; a major difference costs at least 10000 and a minor difference at least 100 |
| VersionUtils.DistanceSymmetric | bytecraft/src/main/java/su/bytecraft/VersionUtils.java:95-103 | the distance is symmetric |
| VersionUtils.PriorityScoreSameMajor | bytecraft/src/main/java/su/bytecraft/VersionUtils.java:106-111 | with equal majors, an older minor scores 90 per step and a newer minor 110 per step; with equal minors the score is the patch difference |
| VersionUtils.PriorityScoreExamples | bytecraft/src/main/java/su/bytecraft/VersionUtils.java:106-111 | for target 1.20, version 1.16 scores 360 and 1.23 scores 330, and the score is not symmetric |
| VersionUtils.VersionGroupAt | bytecraft/src/main/java/su/bytecraft/VersionUtils.java:18-26 | the group `\d+\.\d+(\.\d+)?` matched at a position ends inside the string, with its optional third part after its second |
| VersionUtils.ReleaseTagEnd | bytecraft/src/main/java/su/bytecraft/VersionUtils.java:18-20 | the `-R\d+\.\d+` tag consumes at least one character and stays inside the string |
| VersionUtils.GroupWithTail | bytecraft/src/main/java/su/bytecraft/VersionUtils.java:18-26 | a pattern matches at a position only when the version group matches there and the chosen group end is the two-part or three-part end |
| VersionUtils.ArtifactRunEnd | bytecraft/src/main/java/su/bytecraft/VersionUtils.java:22 | the greedy `[a-z-]+` run is maximal and contains only letters and dashes |
| VersionUtils.MatchAt | bytecraft/src/main/java/su/bytecraft/VersionUtils.java:18-26 | a match at a position reports a group that starts there or later and ends inside the string |
| VersionUtils.FindFrom | bytecraft/src/main/java/su/bytecraft/VersionUtils.java:30-31 | `find()` reports a group whose text satisfies the pattern's group and tail |
| VersionUtils.ParseVersionFromFileName | bytecraft/src/main/java/su/bytecraft/VersionUtils.java:10-42 | the loop over the five patterns returns exactly the version the first matching pattern yields |
| VersionUtils.GroupTextBuilds | bytecraft/src/main/java/su/bytecraft/VersionUtils.java:32-37 | the text of a matched group always builds a version whose original is that text, so the `catch`/`continue` path is never taken |
| VersionUtils.TryPatternsFindsFirstMatch | bytecraft/src/main/java/su/bytecraft/VersionUtils.java:29-41 | the result is null exactly when none of the remaining patterns finds a match |
| VersionUtils.TryPatternsText | bytecraft/src/main/java/su/bytecraft/VersionUtils.java:29-39 | a version that is found was built from a substring that is a version group of the file name |
| VersionUtils.FindFromSound | bytecraft/src/main/java/su/bytecraft/VersionUtils.java:18-26 | any pattern that finds a match implies a `digit.digit` triple in the name |
| VersionUtils.FindFromComplete | bytecraft/src/main/java/su/bytecraft/VersionUtils.java:26 | the catch-all pattern finds a match whenever the name contains `digit.digit` |
| VersionUtils.FileNameVersionExists | bytecraft/src/main/java/su/bytecraft/VersionUtils.java:10-42 | a file name yields a version exactly when it is non-null and contains `digit.digit`, and the version's text is a version group of the name |
| VersionUtils.RankCompareIsKeyOrder | bytecraft/src/main/java/su/bytecraft/VersionUtils.java:188-213 | the comparator equals the lexicographic order on the key (not exact, not compatible, priority score, negated version) |
| VersionUtils.ExactRanksFirst | bytecraft/src/main/java/su/bytecraft/VersionUtils.java:190-201 | a candidate ranked no later than an exact (or compatible) one is itself exact (or compatible) |
| VersionUtils.ExactOutranksOthers | bytecraft/src/main/java/su/bytecraft/VersionUtils.java:193-194 | an exact match sorts strictly before any candidate that is not exact |
| VersionUtils.BestMatchScoreExample | bytecraft/src/main/java/su/bytecraft/VersionUtils.java:204-208 | for target 1.20 and two incompatible candidates, 1.23 ranks before 1.16 |
| VersionUtils.CandidatesMembers | bytecraft/src/main/java/su/bytecraft/VersionUtils.java:176-181 | every candidate comes from a file with that parsed version, and every file whose name parses yields a candidate |
| VersionUtils.CollectCandidates | bytecraft/src/main/java/su/bytecraft/VersionUtils.java:173-181 | the loop collects the candidate list of the array, in order |
| VersionUtils.FindBestMatchVersion | bytecraft/src/main/java/su/bytecraft/VersionUtils.java:168-231 | null exactly when the array is null, the target is null or no name parses; otherwise the result is a parsed file of the array that ranks first among all of them, exact if any is exact, compatible if any is compatible |
| KeySort.SortByKey | bytecraft/src/main/java/su/bytecraft/VersionUtils.java:188-213 | the list sort leaves the array a permutation of its old contents, ordered by the comparator's key |
| PluginVersionDetector.SpaceRunEnd | src/main/java/su/bytecraft/PluginVersionDetector.java:106-111 | the greedy `\s*` run is maximal and contains only white space |
| PluginVersionDetector.QuoteSkip | src/main/java/su/bytecraft/PluginVersionDetector.java:106-110 | `["']?` consumes one quote character or nothing |
| PluginVersionDetector.ShortNumberEnds | src/main/java/su/bytecraft/PluginVersionDetector.java:106 | the ends tried for `[0-9]{1,2}` give one- or two-digit numbers |
| PluginVersionDetector.PatchEnds | src/main/java/su/bytecraft/PluginVersionDetector.java:106 | the optional `(\.[0-9]{1,2})?` either consumes nothing or a dot and a short number |
| PluginVersionDetector.VersionTokenEnds | src/main/java/su/bytecraft/PluginVersionDetector.java:106-111 | every end tried for the version group spells `1.` then a short number and an optional short patch |
| PluginVersionDetector.EndsSpellTokens | src/main/java/su/bytecraft/PluginVersionDetector.java:119 | every tried group text satisfies the `version.matches(…)` check |
| PluginVersionDetector.TokenViaSpells | src/main/java/su/bytecraft/PluginVersionDetector.java:106-111 | a group built by the backtracking order is a version token |
| PluginVersionDetector.TokenParts | src/main/java/su/bytecraft/PluginVersionDetector.java:208-215 | a version token splits on `.` into two or three parts, starting with `1`, and is rebuilt exactly from them |
| PluginVersionDetector.TokenChars | src/main/java/su/bytecraft/PluginVersionDetector.java:203 | a version token contains only digits and dots |
| PluginVersionDetector.TokenVersion | src/main/java/su/bytecraft/PluginVersionDetector.java:17 | a version token builds a McVersion with major 1 |
| PluginVersionDetector.NormalizeVersionCleans | src/main/java/su/bytecraft/PluginVersionDetector.java:192-219 | normalizeVersion returns the trimmed, unquoted, `v`-free text exactly when that text is a version token, and null otherwise |
| PluginVersionDetector.CleanToken | src/main/java/su/bytecraft/PluginVersionDetector.java:196-200 | cleaning leaves a version token unchanged |
| PluginVersionDetector.NormalizeVersionIdempotent | src/main/java/su/bytecraft/PluginVersionDetector.java:192-219 | normalizing a normalized version changes nothing, and the result is a version token |
| PluginVersionDetector.FirstBoundary | src/main/java/su/bytecraft/PluginVersionDetector.java:111 | the group end chosen for `\b…\b` is one of the candidate ends and is a word boundary |
| PluginVersionDetector.YmlMatchAt | src/main/java/su/bytecraft/PluginVersionDetector.java:105-111 | a yml pattern matched at a position reports a group that `VersionTokenEnds` produced, inside the match |
| PluginVersionDetector.YmlFindFrom | src/main/java/su/bytecraft/PluginVersionDetector.java:115-117 | `find()` from a position reports a group that `VersionTokenEnds` produced, at that position or later |
| PluginVersionDetector.ParseVersionFromYml | src/main/java/su/bytecraft/PluginVersionDetector.java:103-129 | the nested pattern and `find()` loops return exactly the version the yml specification function gives |
| PluginVersionDetector.AcceptedIsFirstMatch | src/main/java/su/bytecraft/PluginVersionDetector.java:117-124 | the inner `while (m.find())` accepts a match exactly when there is one, and the first match is accepted |
| PluginVersionDetector.YmlVersionFromFirstPattern | src/main/java/su/bytecraft/PluginVersionDetector.java:105-128 | the first pattern in priority order that matches decides the result, later patterns count only when it does not match, and every result builds a version with major 1 |
| PluginVersionDetector.DetectFromYmlEntry | src/main/java/su/bytecraft/PluginVersionDetector.java:46-78 | a missing entry or unreadable jar gives null; otherwise the yml parse of the entry's text |
| PluginVersionDetector.VersionCharRunEnd | src/main/java/su/bytecraft/PluginVersionDetector.java:91 | the greedy `[0-9.]+` run is maximal and contains only digits and dots |
| PluginVersionDetector.BungeeMatchAt | src/main/java/su/bytecraft/PluginVersionDetector.java:91 | a `version:` match reports a non-empty group after the key |
| PluginVersionDetector.BungeeFindFrom | src/main/java/su/bytecraft/PluginVersionDetector.java:92-93 | `find()` reports a non-empty group at or after the starting position |
| PluginVersionDetector.BungeeYmlVersionIsToken | src/main/java/su/bytecraft/PluginVersionDetector.java:80-101 | a version found in `bungee.yml` is a version token with major 1 |
| PluginVersionDetector.CodeRunEnd | src/main/java/su/bytecraft/PluginVersionDetector.java:145 | the greedy `[R0-9]*` run contains only `R` and digits |
| PluginVersionDetector.UnderscoreCodeAt | src/main/java/su/bytecraft/PluginVersionDetector.java:145 | the group `1_[0-9]{1,2}_[R0-9]*` matched at a position is at least four characters long |
| PluginVersionDetector.UnderscoreMatchAt | src/main/java/su/bytecraft/PluginVersionDetector.java:145-148 | `v?` followed by the group reports the group's bounds |
| PluginVersionDetector.UnderscoreFindFrom | src/main/java/su/bytecraft/PluginVersionDetector.java:146-148 | `find()` reports a group at or after the starting position |
| PluginVersionDetector.UnderscoreGroupShape | src/main/java/su/bytecraft/PluginVersionDetector.java:145 | a matched group is `1_`, a short number, `_` and a run of `R` and digits |
| PluginVersionDetector.CodeMarkers | src/main/java/su/bytecraft/PluginVersionDetector.java:172 | removing `v` and turning `_R` into `.` changes a code only at its second underscore, and only when `R` follows |
| PluginVersionDetector.NoVInCode | src/main/java/su/bytecraft/PluginVersionDetector.java:172 | a code has no `v` to remove |
| PluginVersionDetector.MarkerHead | src/main/java/su/bytecraft/PluginVersionDetector.java:172 | the `_R` replacement leaves the `1_` prefix and the minor digits untouched |
| PluginVersionDetector.MarkerTail | src/main/java/su/bytecraft/PluginVersionDetector.java:172 | the `_R` replacement acts only on the code's last underscore |
| PluginVersionDetector.ConvertCode | src/main/java/su/bytecraft/PluginVersionDetector.java:169-190 | `1_d_Rn…` converts to `1_d.n…`; any other code gives null |
| PluginVersionDetector.ConvertedCodeVersion | src/main/java/su/bytecraft/PluginVersionDetector.java:36-38 | a converted code always builds a version, with major 0 |
| PluginVersionDetector.CodeVersion | src/main/java/su/bytecraft/PluginVersionDetector.java:169-190 | `1_d.n` builds major 0, minor n, patch 0 |
| PluginVersionDetector.DetectFromClasses | src/main/java/su/bytecraft/PluginVersionDetector.java:131-167 | the loop over the entries returns exactly the classes specification, which decides on the first class whose name carries a code or a dotted version |
| PluginVersionDetector.ClassesVersionFromBuilds | src/main/java/su/bytecraft/PluginVersionDetector.java:140-159 | every version text found in class names builds a McVersion |
| PluginVersionDetector.DetectMcVersion | src/main/java/su/bytecraft/PluginVersionDetector.java:10-44 | the result is the McVersion of the first source that yields text: plugin.yml, paper-plugin.yml, bungee.yml, the classes, then "1.20" |
| PluginVersionDetector.DetectMcVersionSucceeds | src/main/java/su/bytecraft/PluginVersionDetector.java:10-44 | detectMcVersion never throws, and a version from plugin.yml has major 1 |
| PluginVersionDetector.YmlEntryIsToken | src/main/java/su/bytecraft/PluginVersionDetector.java:46-78 | a version read from a yml entry builds a McVersion with major 1 |
| PluginVersionDetector.DefaultVersion | src/main/java/su/bytecraft/PluginVersionDetector.java:43 | the default "1.20" builds major 1, minor 20, patch 0 |
| PluginVersionDetector.PluginInfo.constructor | src/main/java/su/bytecraft/PluginVersionDetector.java:282-291 | a new PluginInfo has every field null |
| PluginVersionDetector.LazyGroupEnd | src/main/java/su/bytecraft/PluginVersionDetector.java:250 | the lazy `(.*?)` group never crosses a line terminator |
| PluginVersionDetector.FieldMatchAt | src/main/java/su/bytecraft/PluginVersionDetector.java:250 | a field match at a position reports a group with no line terminator in it |
| PluginVersionDetector.FieldFindFrom | src/main/java/su/bytecraft/PluginVersionDetector.java:251-252 | `find()` reports such a group at or after the starting position |
| PluginVersionDetector.FieldValueFound | src/main/java/su/bytecraft/PluginVersionDetector.java:250-253 | a field has a value exactly when `field:` occurs in the text, and the value is the trimmed text of a range with no line terminator |
| PluginVersionDetector.FieldFindReaches | src/main/java/su/bytecraft/PluginVersionDetector.java:250-252 | an occurrence of `field:` at or after the start is always found |
| PluginVersionDetector.FieldFindNone | src/main/java/su/bytecraft/PluginVersionDetector.java:250-252 | without `field:` in the text nothing is found |
| PluginVersionDetector.DropLeadingSpace | src/main/java/su/bytecraft/PluginVersionDetector.java:269 | consuming `\s*` after a comma leaves a piece that does not start with white space, no longer than the original and made of its characters |
| PluginVersionDetector.DropLeadingSpaceSuffix | src/main/java/su/bytecraft/PluginVersionDetector.java:269 | `\s*` removes exactly the maximal run of white space at the start of the piece: the result is a suffix of the piece and every character removed is white space |
| PluginVersionDetector.DropLeadingSpaces | src/main/java/su/bytecraft/PluginVersionDetector.java:269 | the white-space rule applies to every piece |
| PluginVersionDetector.DropSpaceAfterCommas | src/main/java/su/bytecraft/PluginVersionDetector.java:269 | the first piece is kept as it is and every later piece has its leading white space removed |
| PluginVersionDetector.SplitAuthors | src/main/java/su/bytecraft/PluginVersionDetector.java:269 | a value without a comma is a single author |
| PluginVersionDetector.SplitAuthorsPieces | src/main/java/su/bytecraft/PluginVersionDetector.java:269 | no author contains a comma, no author after the first starts with white space, and there are at most one more authors than commas |
| PluginVersionDetector.SplitAuthorsSegments | src/main/java/su/bytecraft/PluginVersionDetector.java:269 | `split(",\\s*")` returns the comma segments of the value in order: the k-th author is the k-th segment, with the white space after its comma removed for k > 0; the segments left out are exactly trailing ones that are empty after that removal, the last author kept is not empty, and the segments joined with commas give back the value |
| PluginVersionDetector.AssignField | src/main/java/su/bytecraft/PluginVersionDetector.java:255-277 | the switch sets exactly the field named, `authors` as the split list, and leaves every other field unchanged |
| PluginVersionDetector.ParsePluginInfo | src/main/java/su/bytecraft/PluginVersionDetector.java:245-280 | each of the seven fields is the value found for it, or keeps its old value when not found; mcVersion is untouched |
| PluginVersionDetector.GetPluginInfo | src/main/java/su/bytecraft/PluginVersionDetector.java:222-243 | an unreadable jar gives an empty PluginInfo; otherwise the fields come from plugin.yml when present and mcVersion is the detected version |
| JavaCompiler.FileNameOf | bytecraft/src/main/java/su/bytecraft/JavaCompiler.java:253 | the text after the last `/` has no `/` and ends the entry name |
| JavaCompiler.FileNameOfJar | bytecraft/src/main/java/su/bytecraft/JavaCompiler.java:246-253 | a jar entry's file name still ends with `.jar` |
| JavaCompiler.JavaLibraries | bytecraft/src/main/java/su/bytecraft/JavaCompiler.java:339-349 | the Java libraries are exactly the `.jar` files listed in `java.home/lib`, and none when it is missing |
| JavaCompiler.DistinctElements | bytecraft/src/main/java/su/bytecraft/JavaCompiler.java:97-98 | `distinct()` keeps the same elements, without duplicates, and never lengthens the list |
| JavaCompiler.DistinctOrder | bytecraft/src/main/java/su/bytecraft/JavaCompiler.java:97-98 | `distinct()` keeps each element at its first occurrence: the kept elements come in the order of their first occurrences, which is the order of the `-cp` string |
| JavaCompiler.DistinctOfDistinct | bytecraft/src/main/java/su/bytecraft/JavaCompiler.java:97-98 | `distinct()` leaves a duplicate-free list unchanged |
| JavaCompiler.AbsolutePaths | bytecraft/src/main/java/su/bytecraft/JavaCompiler.java:99 | `map(File::getAbsolutePath)` gives one path per file, in order |
| JavaCompiler.Version117 | bytecraft/src/main/java/su/bytecraft/JavaCompiler.java:68 | `new McVersion("1.17")` is major 1, minor 17, patch 0 |
| JavaCompiler.LegacyMeansBelow117 | bytecraft/src/main/java/su/bytecraft/JavaCompiler.java:68 | the Java 8 flags are chosen exactly for versions below 1.17 |
| JavaCompiler.DefaultIsNotLegacy | bytecraft/src/main/java/su/bytecraft/JavaCompiler.java:37-40 | the default 1.20 does not get the Java 8 flags |
| JavaCompiler.OptionsLayout | bytecraft/src/main/java/su/bytecraft/JavaCompiler.java:63-112 | the options are `-g -parameters`, then `-source 8 -target 8` exactly when legacy, then `-cp` and the joined classpath exactly when it is non-empty, then `-d` and the output directory |
| JavaCompiler.BuildOptions | bytecraft/src/main/java/su/bytecraft/JavaCompiler.java:63-112 | the step-by-step option list equals that layout |
| JavaCompiler.FindClassFile | bytecraft/src/main/java/su/bytecraft/JavaCompiler.java:424-436 | the first output file in walk order named `Name.class` or `Name$…` is found; none when there is no such file |
| JavaCompiler.LinesListAll | bytecraft/src/main/java/su/bytecraft/JavaCompiler.java:140-144 | each diagnostic's line appears in the appended lines |
| JavaCompiler.FailureMessageListsAll | bytecraft/src/main/java/su/bytecraft/JavaCompiler.java:138-146 | the failure message contains the line number and message of every diagnostic |
| JavaCompiler.CompileResultCases | bytecraft/src/main/java/su/bytecraft/JavaCompiler.java:138-157 | a failed compilation gives the diagnostic message; a successful one gives the bytes of the first matching class file, or "not found in" the output directory when there is none |
| JavaCompiler.KeyIndex | bytecraft/src/main/java/su/bytecraft/JavaCompiler.java:21 | the cache lookup finds the first entry with the key, and none exactly when no entry has it |
| JavaCompiler.Values | bytecraft/src/main/java/su/bytecraft/JavaCompiler.java:183 | `values()` gives one file per cache entry |
| JavaCompiler.PutThenLookup | bytecraft/src/main/java/su/bytecraft/JavaCompiler.java:264 | after `put` the key maps to the new file, other keys are unaffected, and the size grows only for a new key |
| JavaCompiler.PutKeepsValid | bytecraft/src/main/java/su/bytecraft/JavaCompiler.java:264 | putting a jar under its own name keeps the cache well formed |
| JavaCompiler.ApiFiles | bytecraft/src/main/java/su/bytecraft/JavaCompiler.java:273-279 | the listing filter keeps exactly the jars whose lower-cased name mentions spigot, bukkit or api |
| JavaCompiler.ExternalFolder | bytecraft/src/main/java/su/bytecraft/JavaCompiler.java:306-337 | the folder used is the first of the possible paths that lists at least one API jar; every earlier one is missing or lists none |
| JavaCompiler.PutFilesValid | bytecraft/src/main/java/su/bytecraft/JavaCompiler.java:282-286 | putting listed jars keeps the cache well formed |
| JavaCompiler.PutJarEntriesValid | bytecraft/src/main/java/su/bytecraft/JavaCompiler.java:241-266 | extracting jar entries keeps the cache well formed |
| JavaCompiler.PutResourcesValid | bytecraft/src/main/java/su/bytecraft/JavaCompiler.java:229-289 | scanning the resources keeps the cache well formed |
| JavaCompiler.ScanResultValid | bytecraft/src/main/java/su/bytecraft/JavaCompiler.java:225-303 | the whole scan yields a well-formed cache |
| JavaCompiler.FailureEndsScan | bytecraft/src/main/java/su/bytecraft/JavaCompiler.java:229-296 | once a resource throws, the remaining resources are not scanned |
| JavaCompiler.ResourcesFirst | bytecraft/src/main/java/su/bytecraft/JavaCompiler.java:291-301 | a scan that neither fails nor comes back empty is the result; an empty one falls back to the external folder |
| JavaCompiler.ApiCache.constructor | bytecraft/src/main/java/su/bytecraft/JavaCompiler.java:21-22 | the shared cache starts empty, with no extraction directory |
| JavaCompiler.ApiCache.PutAll | bytecraft/src/main/java/su/bytecraft/JavaCompiler.java:282-286 | the loop puts every listed file under its name, in order |
| JavaCompiler.ApiCache.ExtractJarEntries | bytecraft/src/main/java/su/bytecraft/JavaCompiler.java:241-267 | the loop puts every matching `libs/` jar entry, under its file name in the extraction directory |
| JavaCompiler.ApiCache.CheckExternalLibsFolder | bytecraft/src/main/java/su/bytecraft/JavaCompiler.java:306-337 | the loop adds the API jars of the first folder that has any |
| JavaCompiler.ApiCache.GetApiFilesFromResources | bytecraft/src/main/java/su/bytecraft/JavaCompiler.java:209-304 | a non-empty cache is returned unchanged; otherwise the extraction directory is created once and the cache becomes the scan result |
| JavaCompiler.NewestCompareIsKeyOrder | bytecraft/src/main/java/su/bytecraft/JavaCompiler.java:359-368 | the newest-first comparator equals a lexicographic key order |
| JavaCompiler.NewestOrderOf | bytecraft/src/main/java/su/bytecraft/JavaCompiler.java:363-367 | unparsed names sort last and parsed ones by descending version |
| JavaCompiler.NewestFirst | bytecraft/src/main/java/su/bytecraft/JavaCompiler.java:359-368 | a file ranked no later than a parsed one is parsed and at least as new |
| JavaCompiler.GetNewestApi | bytecraft/src/main/java/su/bytecraft/JavaCompiler.java:353-371 | null exactly for a null or empty array; otherwise the array is sorted in place, as a permutation, and its first file is the newest parsed version |
| JavaCompiler.TempDirectories.constructor | bytecraft/src/main/java/su/bytecraft/JavaCompiler.java:43 | no temporary directory exists at first |
| JavaCompiler.JavaCompiler.constructor | bytecraft/src/main/java/su/bytecraft/JavaCompiler.java:17-18 | a new compiler knows no version and no plugin information |
| JavaCompiler.JavaCompiler.DetectVersion | bytecraft/src/main/java/su/bytecraft/JavaCompiler.java:26-40 | a known version is kept; with no jar it becomes 1.20; with a jar it is the plugin's detected version, or 1.20 when the jar cannot be read |
| JavaCompiler.JavaCompiler.FindBukkitDependenciesFromResources | bytecraft/src/main/java/su/bytecraft/JavaCompiler.java:165-206 | a non-empty cache is kept and an empty one becomes the resource scan (`CacheAfterLookup`); the API dependency list is empty exactly when the cache is empty, otherwise it is one cached file, and when any cached name parses, a parsed file that no other parsed file outranks for the target (`ChosenApiDeps`) |
| JavaCompiler.JavaCompiler.CompileInTempDir | bytecraft/src/main/java/su/bytecraft/JavaCompiler.java:45-158 | no JDK gives "compiler not found" and leaves the cache as it was; otherwise the cache is looked up as `CacheAfterLookup` states, the API dependency is the one `ChosenApiDeps` states for the detected version, javac receives the options for the version and the classpath (Java libraries, the caller's classpath, the API dependency, the loader's jars), and the result is judged from its outcome |
| JavaCompiler.JavaCompiler.CompileJavaFile | bytecraft/src/main/java/su/bytecraft/JavaCompiler.java:24-162 | the version memo as `detectVersion` states it (kept when known, 1.20 without a jar, the version detected from the jar when its plugin.yml is readable and 1.20 when it is not), then the compilation above (the same cache rule and the same best-ranked API jar for the detected version on `-cp`) in a temporary directory that is removed on every path |
| JavaCompiler.JavaCompiler.CompileJavaSource | bytecraft/src/main/java/su/bytecraft/JavaCompiler.java:403-422 | the jar-less overload compiles `className.java` in its own temporary directory with the same outcome as compileJavaFile (the cache rule, the API jar chosen from the cache for the version, the options and the result), leaves both temporary directories removed and defaults the version to 1.20 |
| JarPatcher.ExpectedClassPath | bytecraft/src/main/java/su/bytecraft/JarPatcher.java:40 | the entry path is the class name with every dot turned into a slash, followed by `.class` |
| JarPatcher.SimpleClassName | bytecraft/src/main/java/su/bytecraft/JarPatcher.java:39 | the simple name is the dot-free tail of the class name, and the whole name when it has no dot |
| JarPatcher.RenamePlainJar | bytecraft/src/main/java/su/bytecraft/JarPatcher.java:75 | for any base that does not itself contain `.jar`, versioned names such as `MyPlugin-1.2` included, `.jar` is replaced only at the end |
| JarPatcher.PatchedNames | bytecraft/src/main/java/su/bytecraft/JarPatcher.java:75-76 | `base.jar` is written as `base_PATCHED.jar` or `base_STRING_PATCHED.jar` for every base without `.jar` in it |
| JarPatcher.NoJarSuffixOverwrites | bytecraft/src/main/java/su/bytecraft/JarPatcher.java:75-80 | a name without `.jar` is its own output name, so the copy overwrites the original |
| JarPatcher.SiblingLibs | bytecraft/src/main/java/su/bytecraft/JarPatcher.java:104-118 | a file is a sibling library exactly when the plugin's folder lists it and it is a `.jar` that is neither the plugin itself nor a patched copy; the libraries keep the listing's order, and there are none when the folder cannot be listed |
| JarPatcher.ServerLibs | bytecraft/src/main/java/su/bytecraft/JarPatcher.java:121-133 | a file is taken from `libs` exactly when that folder lists it and its lower-cased name mentions spigot, bukkit or server; the files keep the listing's order, and there are none when `libs` cannot be listed |
| JarPatcher.ClasspathFromJarLayout | bytecraft/src/main/java/su/bytecraft/JarPatcher.java:89-136 | the classpath is the plugin jar, then rt.jar exactly when it exists, then all sibling libraries, then all server libraries, each group in listing order, and nothing else |
| JarPatcher.AddAll | bytecraft/src/main/java/su/bytecraft/JarPatcher.java:113-116 | the loop appends the libraries in order |
| JarPatcher.GetClasspathFromJar | bytecraft/src/main/java/su/bytecraft/JarPatcher.java:89-136 | the step-by-step classpath equals the layout above |
| JarPatcher.PatchedEntries | bytecraft/src/main/java/su/bytecraft/JarPatcher.java:34-68 | the patched jar has the same entry names in the same order; only entries named like the class carry the compiled bytes |
| JarPatcher.CopyLoopDistinct | bytecraft/src/main/java/su/bytecraft/JarPatcher.java:34-68 | when no two entries share a name: a successful compilation yields the patched entries, a jar without the class entry is copied unchanged, and a failing compilation fails the loop with the compiler's error exactly when the class entry exists |
| JarPatcher.CopyLoopOutcome | bytecraft/src/main/java/su/bytecraft/JarPatcher.java:34-68 | the four outcomes of the loop: the compiler's error when the class entry comes no later than the first repeated entry name; otherwise the `ZipException` of `putNextEntry` at the first repeated name; with distinct names a plain copy or the patched entries |
| JarPatcher.CopyLoopPrefixFails | bytecraft/src/main/java/su/bytecraft/JarPatcher.java:49-57 | once an entry fails, later entries do not change the result |
| JarPatcher.WriteEntries | bytecraft/src/main/java/su/bytecraft/JarPatcher.java:33-68 | the write loop leaves the temporary jar holding the copy loop's entries, compiling once per matching entry; it stops at a compile failure (one call) or at a repeated name (one call per class entry up to it); on failure only the temporary jar differs |
| JarPatcher.CreatePatchedJarFromModifiedClass | bytecraft/src/main/java/su/bytecraft/JarPatcher.java:18-87 | an unreadable original gives an error without compiling; any failure, a repeated entry name included, leaves the disk as it was, the temporary jar deleted; success writes the patched entries to `_PATCHED.jar`; a compile error is wrapped as the source wraps it and the `ZipException` is rethrown |
| JarPatcher.ReplaceWhole | bytecraft/src/main/java/su/bytecraft/JarPatcher.java:187-190 | replacing a string in itself gives the replacement |
| JarPatcher.ReplaceConstantIsReplace | bytecraft/src/main/java/su/bytecraft/JarPatcher.java:183-198 | the equals / contains / otherwise rule for a string constant is the same as `replace` of every occurrence |
| JarPatcher.ReplaceLdcs | bytecraft/src/main/java/su/bytecraft/JarPatcher.java:183-198 | every string constant is rewritten by that rule, other constants are kept, in order |
| JarPatcher.ReplaceLdcsAbsent | bytecraft/src/main/java/su/bytecraft/JarPatcher.java:183-198 | when no string constant contains the old string, nothing changes |
| JarPatcher.StringPatchedEntries | bytecraft/src/main/java/su/bytecraft/JarPatcher.java:146-160 | the rewritten jar keeps names and order; non-class entries are byte-identical, class entries have their constants rewritten |
| JarPatcher.CreatePatchedJarWithStringReplacement | bytecraft/src/main/java/su/bytecraft/JarPatcher.java:139-169 | an unreadable original leaves an empty temporary jar behind; a repeated entry name fails with the temporary jar left holding the rewritten entries before it; otherwise the rewritten entries are written to `_STRING_PATCHED.jar` and the temporary jar is removed |
| SearchManager.PositionIsLineAndColumn | bytecraft/src/main/java/su/bytecraft/ide/SearchManager.java:80-84 | the line is one more than the newlines before the match, and the column counts from the last newline before it (from 1 after it) |
| SearchManager.FirstLineColumn | bytecraft/src/main/java/su/bytecraft/ide/SearchManager.java:80-84 | a match on the first line is line 1, column start+1 |
| SearchManager.Positions | bytecraft/src/main/java/su/bytecraft/ide/SearchManager.java:75-86 | one position per match, in match order |
| SearchManager.CollectPositions | bytecraft/src/main/java/su/bytecraft/ide/SearchManager.java:75-86 | the `find()` loop records the position of every match, in order |
| SearchManager.NextIndex | bytecraft/src/main/java/su/bytecraft/ide/SearchManager.java:253-256 | the next index stays in range and is the successor modulo the count |
| SearchManager.PrevIndex | bytecraft/src/main/java/su/bytecraft/ide/SearchManager.java:242-245 | the previous index stays in range, is the predecessor modulo the count, and from -1 is the last match |
| SearchManager.NextPrevInverse | bytecraft/src/main/java/su/bytecraft/ide/SearchManager.java:239-259 | next and previous undo each other |
| SearchManager.NextStepsCycle | bytecraft/src/main/java/su/bytecraft/ide/SearchManager.java:250-259 | k steps forward land k matches further, wrapping once, and as many steps as matches return to the start |
| SearchManager.DisplayNameOfClassEntry | bytecraft/src/main/java/su/bytecraft/ide/SearchManager.java:192 | a plain class entry's display name is its path with slashes turned into dots |
| SearchManager.GlobalScan | bytecraft/src/main/java/su/bytecraft/ide/SearchManager.java:157-202 | at most 100 decompiled classes are checked; each result has matches, comes from a listed class and carries its display name; the total is the sum of the matches; a bad pattern gives no result |
| SearchManager.GlobalScanHits | bytecraft/src/main/java/su/bytecraft/ide/SearchManager.java:157-202 | the checked classes are the first 100 decompiled classes in list order, and the results are exactly those of them whose code the pattern matches, in list order, each with the positions of all its matches |
| SearchManager.ScanCapped | bytecraft/src/main/java/su/bytecraft/ide/SearchManager.java:164-168 | once 100 classes are checked the rest of the list changes nothing |
| SearchManager.GlobalSearchLoop | bytecraft/src/main/java/su/bytecraft/ide/SearchManager.java:157-202 | the loop computes exactly the scan above, building the pattern per class without the whole-word option |
| SearchManager.SearchManager.constructor | bytecraft/src/main/java/su/bytecraft/ide/SearchManager.java:27-34 | no results, index -1, empty last search text |
| SearchManager.SearchManager.HighlightCurrentMatch | bytecraft/src/main/java/su/bytecraft/ide/SearchManager.java:261-273 | the current match is selected only when the index is in range |
| SearchManager.SearchManager.NavigateToNextMatch | bytecraft/src/main/java/su/bytecraft/ide/SearchManager.java:250-259 | nothing happens without results; otherwise the index moves to the next one cyclically and that match is selected |
| SearchManager.SearchManager.NavigateToPrevMatch | bytecraft/src/main/java/su/bytecraft/ide/SearchManager.java:239-248 | nothing happens without results; otherwise the index moves to the previous one cyclically and that match is selected |
| SearchManager.SearchManager.ResetSearch | bytecraft/src/main/java/su/bytecraft/ide/SearchManager.java:391-394 | the results are cleared and the index is -1; the last search text stays |
| SearchManager.SearchManager.SearchInCurrentClass | bytecraft/src/main/java/su/bytecraft/ide/SearchManager.java:55-120 | empty code changes nothing; a bad pattern clears the results; otherwise the results are the match positions, with index 0 when there are any |
| SearchManager.SearchManager.PerformSearch | bytecraft/src/main/java/su/bytecraft/ide/SearchManager.java:36-53 | an empty search text changes nothing; otherwise it is remembered and either the global search (results untouched) or the current-class search runs |
| SearchManager.SearchManager.PerformGlobalSearch | bytecraft/src/main/java/su/bytecraft/ide/SearchManager.java:137-237 | no open jar, a failing class listing and a completed scan give the corresponding outcomes |

## Left out

- Console and error logging (`System.out`, `System.err`, `printStackTrace`, `log`), `isCompilerAvailable` and `getCompilerInfo`: they only print or report and change no state.
- Stream I/O, `readAllBytes`, file deletion failures, `deleteOnExit` and the contents of the extracted files: jars are entry lists and the disk is a map; I/O errors other than an unreadable original jar and the `ZipException` of a repeated entry name are not modelled.
- The manifest that `JarInputStream` reads separately: the model's entry list is what `getNextJarEntry` yields.
- The javac internals, the JDK's `ToolProvider` and the `Iterable` of compilation units: the compiler is `Environment.javac`, a function from options and source file to an outcome.
- ASM's `ClassReader`/`ClassWriter`: a class file is abstract and `Asm` gives its string constants and rewrites them; malformed class files that make ASM throw are not modelled.
- JarPatcher.CreatePatchedJarFromModifiedClass: the call into `JavaCompiler.compileJavaSource` is the parameter `compile`, not the JavaCompiler model, because its result depends on the file system and javac; the composition of the two is not proved.
- JavaCompiler.JavaCompiler.CompileJavaSource: the Java text written to the temporary file is not part of the model; javac sees only the file's path.
- `getMavenDependencies`: the reflective walk of the context class loader is replaced by the input `Environment.loaderJars`.
- `File.getAbsolutePath` is modelled as parent, `/` and name; `getResources("libs")` URL parsing (`substring(5, indexOf("!"))`) is replaced by a resource kind in `LibsResource`.
- Temporary directory and file creation cannot fail in the model, and their names are inputs.
- The order of `HashMap.values()` is modelled as insertion order; `Files.walk` and `listFiles` order is the order of the input lists.
- KeySort.SortByKey: `List.sort` and `Arrays.sort` are stable merge sorts; the model proves a sorted permutation, not stability.
- VersionUtils.FindBestMatchVersion: among equally ranked candidates it promises some top-ranked one, not the first in array order that the stable `List.sort` returns, because stability of the sort is not proved.
- JavaCompiler.GetNewestApi: among equally new files it promises some newest one, not the first in array order that the stable `Arrays.sort` returns, because stability of the sort is not proved.
- Unicode: `toLowerCase`, `\s`, `\d` and `\b` are ASCII only; `Pattern.CASE_INSENSITIVE` in the file-name patterns folds ASCII letters; `Integer.parseInt` reads ASCII digits only, which is all any caller passes, since every version text first matches a `[0-9]` or ASCII `\d` pattern or is a constant.
- `buildPattern` and `Pattern.compile`: a search pattern is an abstract `MatchFinder`, absent when compilation throws `PatternSyntaxException`.
- The user interface: warnings and info dialogs, labels, `showProgress`, `updateStatus`, `showSearchResultsDialog` and the preview it shows, `selectRange` and focus.
- Concurrency: the executor running the global search and `Platform.runLater`; the deferred actions run immediately in the model, including setting the index to 0 after a local search.
- The getters of SearchManager (`getLastSearchText`, `hasSearchResults`, `getCurrentSearchIndex`, `getSearchResultsCount`): they read a field and are visible directly as fields; `IDE` and `Decompiler` are not part of this model.
- Integer overflow of counters (`checkedCount`, `totalMatches`, `count`) and of the distance and priority arithmetic on values near the int range: integers are unbounded there, while `Integer.parseInt` keeps its 32-bit range.
