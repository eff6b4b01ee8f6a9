/**
 * The compile orchestration of JavaCompiler: the per-instance memo of the
 * detected Minecraft version, the javac option list, the classpath with
 * its first-occurrence dedup, the static cache of Bukkit/Spigot API jars
 * and the external-folder fallback, the "best match else newest" choice
 * of the API jar, and the choice of the compiled .class file.
 *
 * javac, directory listings, the class loader's "libs" resources and its
 * jar URLs are inputs (Environment); the temporary directories are the
 * only part of the file system kept (TempDirectories).
 */
module JavaCompiler {
  import opened JavaLang
  import opened KeySort
  import opened VersionUtils
  import PluginVersionDetector

  // ---------------------------------------------------------------------
  // The environment
  // ---------------------------------------------------------------------

  /** One diagnostic javac reports: its line number and message. */
  datatype Diagnostic = Diagnostic(line: int, message: string)

  /** A file javac wrote below the output directory, in Files.walk order. */
  datatype OutputFile = OutputFile(path: string, bytes: seq<bv8>)

  /** What a compilation task reports: task.call(), the diagnostics, the output tree. */
  datatype CompileOutcome = CompileOutcome(success: bool, diagnostics: seq<Diagnostic>, outputs: seq<OutputFile>)

  /** One URL the class loader returns for the resource name "libs". */
  datatype LibsResource =
    | JarResource(entryNames: seq<string>)      // protocol "jar": the entry names of the enclosing jar
    | DirResource(listing: Option<seq<File>>)   // protocol "file": the folder's files, None unless a directory
    | OtherResource                             // any other protocol
    | FailingResource                           // a URL whose handling throws

  /**
   * Everything compileJavaFile consults outside the model: the system
   * compiler (None when ToolProvider finds no JDK), File.listFiles() by
   * path (None unless the path is an existing directory), the system
   * properties, the class loader's views, and the names that
   * Files.createTempDirectory hands out.
   */
  datatype Environment = Environment(
    javac: Option<(seq<string>, File) -> CompileOutcome>,
    listDir: string -> Option<seq<File>>,
    javaHome: string,
    userDir: string,
    userHome: string,
    pathSeparator: string,
    resources: seq<LibsResource>,
    loaderJars: seq<File>,
    compileDir: string,
    extractDir: string)

  /** Path.getFileName(), and the substring after the last '/' of a jar entry. */
  function FileNameOf(path: string): (r: string)
    ensures '/' !in r
    ensures EndsWith(path, r)
  {
    path[LastIndexOf(path, '/') + 1..]
  }

  /** A name ending in ".jar" keeps that suffix after its directories are cut off. */
  lemma FileNameOfJar(path: string)
    requires EndsWith(path, ".jar")
    ensures EndsWith(FileNameOf(path), ".jar")
  {
    var k := LastIndexOf(path, '/');
    var n := |path|;
    assert path[n - 4..] == ".jar";
    assert path[n - 4] == '.' && path[n - 3] == 'j' && path[n - 2] == 'a' && path[n - 1] == 'r';
    assert k < n - 4;
    var r := FileNameOf(path);
    assert |r| == n - k - 1;
    assert r[|r| - 4..] == path[n - 4..];
  }

  // ---------------------------------------------------------------------
  // Classpath: the JDK's jars, the caller's files, the API jar, the loader's jars
  // ---------------------------------------------------------------------

  /** addJavaLibraries: the ".jar" files of java.home/lib, none if it is missing. */
  function JavaLibraries(listing: Option<seq<File>>): (r: seq<File>)
    ensures listing.None? ==> r == []
    ensures forall f :: f in r <==> listing.Some? && f in listing.value && EndsWith(f.name, ".jar")
  {
    if listing.None? then [] else Filter(listing.value, (f: File) => EndsWith(f.name, ".jar"))
  }

  /** Stream.distinct(): the first occurrence of each element, in order. */
  function Distinct<T(==)>(s: seq<T>): seq<T>
  {
    if |s| == 0 then []
    else
      var init := s[..|s| - 1];
      Distinct(init) + (if s[|s| - 1] in init then [] else [s[|s| - 1]])
  }

  predicate NoDuplicates<T(==)>(s: seq<T>)
  {
    forall i, j :: 0 <= i < j < |s| ==> s[i] != s[j]
  }

  /** distinct() keeps every element once and drops nothing else. */
  lemma {:induction false} DistinctElements<T>(s: seq<T>)
    ensures forall x :: x in Distinct(s) <==> x in s
    ensures NoDuplicates(Distinct(s))
    ensures |Distinct(s)| <= |s|
  {
    if |s| > 0 {
      var init := s[..|s| - 1];
      DistinctElements(init);
      assert s == init + [s[|s| - 1]];
    }
  }

  /** The index of the first occurrence of `x` in `s`. */
  function FirstIndex<T(==)>(s: seq<T>, x: T): (i: nat)
    requires x in s
    ensures i < |s| && s[i] == x
    ensures forall j :: 0 <= j < i ==> s[j] != x
  {
    if s[0] == x then 0 else 1 + FirstIndex(s[1..], x)
  }

  /** An index holding `x` with no `x` before it is the first one. */
  lemma FirstIndexUnique<T>(s: seq<T>, x: T, i: nat)
    requires i < |s| && s[i] == x && forall j :: 0 <= j < i ==> s[j] != x
    ensures FirstIndex(s, x) == i
  {
  }

  /**
   * distinct() keeps each element at its first occurrence: the kept
   * elements come in the order of their first occurrences in `s`.
   */
  lemma {:induction false} DistinctOrder<T>(s: seq<T>)
    ensures forall i :: 0 <= i < |Distinct(s)| ==> Distinct(s)[i] in s
    ensures forall i, j :: 0 <= i < j < |Distinct(s)| ==>
      FirstIndex(s, Distinct(s)[i]) < FirstIndex(s, Distinct(s)[j])
  {
    if |s| > 0 {
      var init := s[..|s| - 1];
      var last := s[|s| - 1];
      DistinctOrder(init);
      DistinctElements(init);
      var d := Distinct(s);
      var di := Distinct(init);
      assert d == di + (if last in init then [] else [last]);
      forall x | x in init
        ensures FirstIndex(s, x) == FirstIndex(init, x)
      {
        FirstIndexUnique(s, x, FirstIndex(init, x));
      }
      if last !in init {
        FirstIndexUnique(s, last, |s| - 1);
      }
      forall i, j | 0 <= i < j < |d|
        ensures FirstIndex(s, d[i]) < FirstIndex(s, d[j])
      {
        assert d[i] == di[i] && d[i] in init;
        if j < |di| {
          assert d[j] == di[j] && d[j] in init;
        }
      }
    }
  }

  /** A list without repetitions passes distinct() unchanged. */
  lemma {:induction false} DistinctOfDistinct<T>(s: seq<T>)
    requires NoDuplicates(s)
    ensures Distinct(s) == s
  {
    if |s| > 0 {
      var init := s[..|s| - 1];
      DistinctOfDistinct(init);
      assert s[|s| - 1] !in init;
      assert s == init + [s[|s| - 1]];
    }
  }

  /** File.getAbsolutePath of a file given by its directory and name. */
  function AbsolutePath(f: File): string
  {
    f.parent + "/" + f.name
  }

  function AbsolutePaths(files: seq<File>): (r: seq<string>)
    ensures |r| == |files|
    ensures forall k :: 0 <= k < |files| ==> r[k] == AbsolutePath(files[k])
  {
    if |files| == 0 then [] else [AbsolutePath(files[0])] + AbsolutePaths(files[1..])
  }

  /** The value of -cp: the distinct files' absolute paths, joined by the path separator. */
  function ClasspathString(classpath: seq<File>, sep: string): string
  {
    Join(AbsolutePaths(Distinct(classpath)), sep)
  }

  // ---------------------------------------------------------------------
  // Options
  // ---------------------------------------------------------------------

  const Legacy117 := McVersion(1, 17, 0, "1.17")

  /** new McVersion("1.17") is version 1.17. */
  lemma Version117()
    ensures NewVersion(Some("1.17")) == Success(Legacy117)
  {
    assert "1.17" == "1" + "." + "17";
    NewVersionOfTwo("1", "17");
    PluginVersionDetector.ParseOne();
    ParseSeventeen();
  }

  lemma ParseSeventeen()
    ensures ParseInt("17") == Some(17)
  {
    assert "17"[..1] == "1" && "1"[..0] == "";
    assert DigitsValue("1") == 1;
    assert DigitsValue("17") == 17;
  }

  /** Below 1.17 in the order of compareTo means major 0, or major 1 with minor under 17. */
  lemma LegacyMeansBelow117(v: McVersion)
    ensures IsLessThan(v, Legacy117) <==>
      v.major < 1 || (v.major == 1 && v.minor < 17) || (v.major == 1 && v.minor == 17 && v.patch < 0)
  {
    ComparisonsAgree(v, Legacy117);
  }

  /** The default version 1.20 never gets the Java 8 flags. */
  lemma DefaultIsNotLegacy()
    ensures !IsLessThan(McVersion(1, 20, 0, "1.20"), Legacy117)
  {
    LegacyMeansBelow117(McVersion(1, 20, 0, "1.20"));
  }

  /** The option list of compileJavaFile for a version, a full classpath and an output directory. */
  function CompileOptions(version: McVersion, classpath: seq<File>, outDir: string, sep: string): seq<string>
  {
    ["-g", "-parameters"]
      + (if IsLessThan(version, Legacy117) then ["-source", "8", "-target", "8"] else [])
      + (if |classpath| > 0 then ["-cp", ClasspathString(classpath, sep)] else [])
      + ["-d", outDir]
  }

  /**
   * The options start with "-g", "-parameters"; hold the four Java 8
   * flags exactly below 1.17; hold "-cp" and the classpath exactly when
   * the full classpath is not empty; and end with "-d" and the output directory.
   */
  lemma OptionsLayout(version: McVersion, classpath: seq<File>, outDir: string, sep: string)
    ensures var opts := CompileOptions(version, classpath, outDir, sep);
      |opts| == 4 + (if IsLessThan(version, Legacy117) then 4 else 0) + (if |classpath| > 0 then 2 else 0) &&
      opts[..2] == ["-g", "-parameters"] &&
      (opts[2] == "-source" <==> IsLessThan(version, Legacy117)) &&
      (IsLessThan(version, Legacy117) ==> opts[2..6] == ["-source", "8", "-target", "8"]) &&
      (opts[|opts| - 4] == "-cp" <==> |classpath| > 0) &&
      (|classpath| > 0 ==> opts[|opts| - 3] == ClasspathString(classpath, sep)) &&
      opts[|opts| - 2..] == ["-d", outDir]
  {
  }

  /** The option-building steps of compileJavaFile (63-75, 96-112). */
  /** new McVersion("1.17"), the version below which Java 8 is targeted. */
  method LegacyThreshold() returns (threshold: McVersion)
    ensures threshold == Legacy117
  {
    var parsed := NewVersion(Some("1.17"));
    Version117();
    threshold := parsed.value;
  }

  method BuildOptions(version: McVersion, classpath: seq<File>, outDir: string, sep: string)
    returns (options: seq<string>)
    ensures options == CompileOptions(version, classpath, outDir, sep)
  {
    options := ["-g", "-parameters"];
    var threshold := LegacyThreshold();
    ghost var legacy: seq<string> := [];
    if Compare(version, threshold) < 0 {
      legacy := ["-source", "8", "-target", "8"];
      options := options + ["-source", "8", "-target", "8"];
    }
    assert options == ["-g", "-parameters"] + legacy;
    ghost var cpOption: seq<string> := [];
    if |classpath| > 0 {
      var cp := ClasspathString(classpath, sep);
      cpOption := ["-cp", cp];
      options := options + ["-cp", cp];
    }
    assert options == ["-g", "-parameters"] + legacy + cpOption;
    options := options + ["-d", outDir];
  }

  // ---------------------------------------------------------------------
  // The compilation result
  // ---------------------------------------------------------------------

  datatype CompileError =
    | CompilerNotFound
    | CompilationFailed(message: string)
    | ClassFileNotFound(dir: string)

  /** javaFile.getName().replace(".java", "") */
  function UnitName(javaFileName: string): string
  {
    ReplaceAll(javaFileName, ".java", "")
  }

  /** The findClassFile filter: a .class file named after the unit, or one of its nested classes. */
  predicate IsUnitClass(path: string, className: string)
  {
    EndsWith(path, ".class") &&
    (FileNameOf(path) == className + ".class" || StartsWith(FileNameOf(path), className + "$"))
  }

  /** findClassFile: the first file of the walk that passes the filter. */
  function FindClassFile(walk: seq<OutputFile>, className: string): (r: Option<nat>)
    ensures r.Some? ==> r.value < |walk| && IsUnitClass(walk[r.value].path, className)
    ensures r.Some? ==> forall j :: 0 <= j < r.value ==> !IsUnitClass(walk[j].path, className)
    ensures r.None? <==> forall j :: 0 <= j < |walk| ==> !IsUnitClass(walk[j].path, className)
  {
    FindFirst(walk, (o: OutputFile) => IsUnitClass(o.path, className), 0)
  }

  function DiagnosticLine(d: Diagnostic): string
  {
    "? Строка " + IntToString(d.line) + ": " + d.message + "\n"
  }

  function DiagnosticLines(ds: seq<Diagnostic>): string
  {
    if |ds| == 0 then "" else DiagnosticLine(ds[0]) + DiagnosticLines(ds[1..])
  }

  /** The message of the CompilationException thrown when javac reports failure. */
  function FailureMessage(ds: seq<Diagnostic>): string
  {
    "Ошибка компиляции:\n" + DiagnosticLines(ds)
  }

  lemma ContainsAfter(a: string, b: string, t: string)
    requires Contains(b, t)
    ensures Contains(a + b, t)
  {
    var i: nat :| i <= |b| && StartsAt(b, i, t);
    assert (a + b)[|a| + i..|a| + i + |t|] == b[i..i + |t|];
    assert StartsAt(a + b, |a| + i, t);
  }

  /** The failure message lists every diagnostic's line number and message. */
  lemma {:induction false} FailureMessageListsAll(ds: seq<Diagnostic>)
    ensures forall k :: 0 <= k < |ds| ==> Contains(FailureMessage(ds), DiagnosticLine(ds[k]))
  {
    forall k | 0 <= k < |ds|
      ensures Contains(FailureMessage(ds), DiagnosticLine(ds[k]))
    {
      LinesListAll(ds, k);
      ContainsAfter("Ошибка компиляции:\n", DiagnosticLines(ds), DiagnosticLine(ds[k]));
    }
  }

  lemma {:induction false} LinesListAll(ds: seq<Diagnostic>, k: nat)
    requires k < |ds|
    ensures Contains(DiagnosticLines(ds), DiagnosticLine(ds[k]))
  {
    var head, rest := DiagnosticLine(ds[0]), DiagnosticLines(ds[1..]);
    if k == 0 {
      assert (head + rest)[0..|head|] == head;
      assert StartsAt(head + rest, 0, head);
    } else {
      LinesListAll(ds[1..], k - 1);
      ContainsAfter(head, rest, DiagnosticLine(ds[k]));
    }
  }

  /**
   * What the try block makes of javac's report: a failure lists the
   * diagnostics; a success yields the bytes of the first unit class of the
   * walk, which may be a nested class; no such file is an error too.
   */
  function CompileResult(outcome: CompileOutcome, className: string, outDir: string): Result<seq<bv8>, CompileError>
  {
    if !outcome.success then Failure(CompilationFailed(FailureMessage(outcome.diagnostics)))
    else
      var found := FindClassFile(outcome.outputs, className);
      if found.None? then Failure(ClassFileNotFound(outDir))
      else Success(outcome.outputs[found.value].bytes)
  }

  /**
   * A reported failure becomes the message of diagnostics; a success is the
   * bytes of the first unit class of the walk (possibly a nested class);
   * a success without such a file is the not-found error.
   */
  lemma CompileResultCases(outcome: CompileOutcome, className: string, outDir: string)
    ensures var r := CompileResult(outcome, className, outDir);
      (!outcome.success ==> r == Failure(CompilationFailed(FailureMessage(outcome.diagnostics)))) &&
      (r.Success? <==>
        (outcome.success && exists j :: 0 <= j < |outcome.outputs| && IsUnitClass(outcome.outputs[j].path, className))) &&
      (r.Success? ==> exists j :: (0 <= j < |outcome.outputs| && IsUnitClass(outcome.outputs[j].path, className) &&
        r.value == outcome.outputs[j].bytes &&
        forall q :: 0 <= q < j ==> !IsUnitClass(outcome.outputs[q].path, className))) &&
      (outcome.success && r.Failure? ==> r == Failure(ClassFileNotFound(outDir)))
  {
    var found := FindClassFile(outcome.outputs, className);
    if outcome.success && found.Some? {
      assert IsUnitClass(outcome.outputs[found.value].path, className);
    }
  }

  // ---------------------------------------------------------------------
  // The API-jar cache (cachedApiFiles)
  // ---------------------------------------------------------------------

  /** File name to file, in insertion order. */
  type CacheEntries = seq<(string, File)>

  function KeyIndex(m: CacheEntries, key: string, i: nat): (r: Option<nat>)
    requires i <= |m|
    ensures r.Some? ==> i <= r.value < |m| && m[r.value].0 == key
    ensures r.Some? ==> forall j :: i <= j < r.value ==> m[j].0 != key
    ensures r.None? <==> forall j :: i <= j < |m| ==> m[j].0 != key
    decreases |m| - i
  {
    if i == |m| then None
    else if m[i].0 == key then Some(i)
    else KeyIndex(m, key, i + 1)
  }

  /** HashMap.get */
  function Lookup(m: CacheEntries, key: string): Option<File>
  {
    match KeyIndex(m, key, 0)
    case Some(i) => Some(m[i].1)
    case None => None
  }

  /** HashMap.put: a present key takes the new value in place, a new one is appended. */
  function PutEntry(m: CacheEntries, key: string, value: File): CacheEntries
  {
    match KeyIndex(m, key, 0)
    case Some(i) => m[i := (key, value)]
    case None => m + [(key, value)]
  }

  /** HashMap.values(), in the order of the entries. */
  function Values(m: CacheEntries): (r: seq<File>)
    ensures |r| == |m|
    ensures forall k :: 0 <= k < |m| ==> r[k] == m[k].1
  {
    seq(|m|, k requires 0 <= k < |m| => m[k].1)
  }

  /** put then get: the key reads the new value, every other key is untouched. */
  lemma PutThenLookup(m: CacheEntries, key: string, value: File, other: string)
    ensures Lookup(PutEntry(m, key, value), key) == Some(value)
    ensures other != key ==> Lookup(PutEntry(m, key, value), other) == Lookup(m, other)
    ensures |PutEntry(m, key, value)| == |m| + (if Lookup(m, key).None? then 1 else 0)
  {
    var m' := PutEntry(m, key, value);
    var at := if KeyIndex(m, key, 0).Some? then KeyIndex(m, key, 0).value else |m|;
    assert m'[at] == (key, value) && forall q :: 0 <= q < at ==> m'[q] == m[q];
    assert KeyIndex(m', key, 0) == Some(at);
    if other != key {
      PutKeepsOther(m, key, value, other);
    }
  }

  /** A put leaves the lookup of every other key as it was. */
  lemma PutKeepsOther(m: CacheEntries, key: string, value: File, other: string)
    requires other != key
    ensures Lookup(PutEntry(m, key, value), other) == Lookup(m, other)
  {
    var m' := PutEntry(m, key, value);
    assert forall j :: 0 <= j < |m'| ==> (m'[j].0 == other <==> j < |m| && m[j].0 == other);
    match KeyIndex(m, other, 0)
    case Some(i) => {
      assert m'[i] == m[i];
    }
    case None =>
  }

  /**
   * The cache invariant: every key occurs once, every value is the file
   * of that name, and every name is a ".jar" name.
   */
  predicate CacheValid(m: CacheEntries)
  {
    (forall i, j :: 0 <= i < j < |m| ==> m[i].0 != m[j].0) &&
    (forall i :: 0 <= i < |m| ==> m[i].1.name == m[i].0 && EndsWith(m[i].0, ".jar"))
  }

  lemma PutKeepsValid(m: CacheEntries, key: string, value: File)
    requires CacheValid(m) && value.name == key && EndsWith(key, ".jar")
    ensures CacheValid(PutEntry(m, key, value))
  {
  }

  /** The listFiles filter of the API folders: a ".jar" whose lower-cased name mentions spigot, bukkit or api. */
  predicate IsApiName(name: string)
  {
    EndsWith(name, ".jar") &&
    (Contains(ToLower(name), "spigot") || Contains(ToLower(name), "bukkit") || Contains(ToLower(name), "api"))
  }

  /** The jar-entry filter: an API jar below "libs/". */
  predicate IsApiEntry(entryName: string)
  {
    StartsWith(entryName, "libs/") && IsApiName(entryName)
  }

  function ApiFiles(files: seq<File>): (r: seq<File>)
    ensures forall f :: f in r <==> f in files && IsApiName(f.name)
  {
    Filter(files, (f: File) => IsApiName(f.name))
  }

  /** Putting each file under its own name, in order. */
  function PutFiles(m: CacheEntries, files: seq<File>): CacheEntries
  {
    if |files| == 0 then m
    else
      var last := files[|files| - 1];
      PutEntry(PutFiles(m, files[..|files| - 1]), last.name, last)
  }

  /** Extracting every API entry of a jar into `dir`, under its file name. */
  function PutJarEntries(m: CacheEntries, names: seq<string>, dir: string): CacheEntries
  {
    if |names| == 0 then m
    else
      var last := names[|names| - 1];
      var init := PutJarEntries(m, names[..|names| - 1], dir);
      if IsApiEntry(last) then PutEntry(init, FileNameOf(last), File(dir, FileNameOf(last))) else init
  }

  /** The cache after one resource, and whether handling it threw. */
  function PutResource(m: CacheEntries, res: LibsResource, dir: string): (CacheEntries, bool)
  {
    match res
    case JarResource(names) => (PutJarEntries(m, names, dir), false)
    case DirResource(listing) => (if listing.None? then m else PutFiles(m, ApiFiles(listing.value)), false)
    case OtherResource => (m, false)
    case FailingResource => (m, true)
  }

  /** The resource loop, which the first throwing resource ends. */
  function PutResources(m: CacheEntries, rs: seq<LibsResource>, dir: string): (CacheEntries, bool)
  {
    if |rs| == 0 then (m, false)
    else
      var init := PutResources(m, rs[..|rs| - 1], dir);
      if init.1 then init else PutResource(init.0, rs[|rs| - 1], dir)
  }

  /** The four folders checkExternalLibsFolder tries, in order. */
  function PossiblePaths(env: Environment): seq<string>
  {
    ["libs", env.userDir + "/libs", env.userHome + "/IdeaProjects/bytecraft/libs",
     "C:/Users/Gomer/IdeaProjects/bytecraft/libs"]
  }

  /** The first of the folders from `k` on that holds an API jar. */
  function ExternalFolder(env: Environment, k: nat): (r: Option<nat>)
    requires k <= |PossiblePaths(env)|
    ensures r.Some? ==> k <= r.value < |PossiblePaths(env)|
    ensures r.Some? ==> var listing := env.listDir(PossiblePaths(env)[r.value]);
      listing.Some? && |ApiFiles(listing.value)| > 0
    ensures forall j :: k <= j < |PossiblePaths(env)| && (r.None? || j < r.value) ==>
      var listing := env.listDir(PossiblePaths(env)[j]); listing.None? || ApiFiles(listing.value) == []
    decreases |PossiblePaths(env)| - k
  {
    if k == |PossiblePaths(env)| then None
    else
      var listing := env.listDir(PossiblePaths(env)[k]);
      if listing.Some? && |ApiFiles(listing.value)| > 0 then Some(k) else ExternalFolder(env, k + 1)
  }

  /** The API jars of the first external folder that has any, or none. */
  function ExternalFiles(env: Environment): seq<File>
  {
    match ExternalFolder(env, 0)
    case Some(k) => ApiFiles(env.listDir(PossiblePaths(env)[k]).value)
    case None => []
  }

  /**
   * getApiFilesFromResources on an empty cache: the resources, then the
   * external folders after a failure, then the external folders once more
   * if nothing was found.
   */
  function ScanResult(env: Environment, dir: string): CacheEntries
  {
    var scanned := PutResources([], env.resources, dir);
    var afterFailure := if scanned.1 then PutFiles(scanned.0, ExternalFiles(env)) else scanned.0;
    if |afterFailure| == 0 then PutFiles(afterFailure, ExternalFiles(env)) else afterFailure
  }

  lemma {:induction false} PutFilesValid(m: CacheEntries, files: seq<File>)
    requires CacheValid(m)
    requires forall f :: f in files ==> EndsWith(f.name, ".jar")
    ensures CacheValid(PutFiles(m, files))
  {
    if |files| > 0 {
      PutFilesValid(m, files[..|files| - 1]);
      PutKeepsValid(PutFiles(m, files[..|files| - 1]), files[|files| - 1].name, files[|files| - 1]);
    }
  }

  lemma {:induction false} PutJarEntriesValid(m: CacheEntries, names: seq<string>, dir: string)
    requires CacheValid(m)
    ensures CacheValid(PutJarEntries(m, names, dir))
  {
    if |names| > 0 {
      var last := names[|names| - 1];
      PutJarEntriesValid(m, names[..|names| - 1], dir);
      if IsApiEntry(last) {
        FileNameOfJar(last);
        PutKeepsValid(PutJarEntries(m, names[..|names| - 1], dir), FileNameOf(last), File(dir, FileNameOf(last)));
      }
    }
  }

  lemma {:induction false} PutResourcesValid(m: CacheEntries, rs: seq<LibsResource>, dir: string)
    requires CacheValid(m)
    ensures CacheValid(PutResources(m, rs, dir).0)
  {
    if |rs| > 0 {
      PutResourcesValid(m, rs[..|rs| - 1], dir);
      var init := PutResources(m, rs[..|rs| - 1], dir);
      if !init.1 {
        match rs[|rs| - 1]
        case JarResource(names) => PutJarEntriesValid(init.0, names, dir);
        case DirResource(listing) => if listing.Some? { PutFilesValid(init.0, ApiFiles(listing.value)); }
        case OtherResource =>
        case FailingResource =>
      }
    }
  }

  /** Whatever the resources and folders hold, the scanned cache keeps the invariant. */
  lemma ScanResultValid(env: Environment, dir: string)
    ensures CacheValid(ScanResult(env, dir))
  {
    PutResourcesValid([], env.resources, dir);
    var scanned := PutResources([], env.resources, dir);
    PutFilesValid(scanned.0, ExternalFiles(env));
    PutFilesValid([], ExternalFiles(env));
  }

  /** After a throwing resource, later resources are never looked at. */
  lemma {:induction false} FailureEndsScan(m: CacheEntries, rs: seq<LibsResource>, i: nat, dir: string)
    requires i <= |rs| && PutResources(m, rs[..i], dir).1
    ensures PutResources(m, rs, dir) == PutResources(m, rs[..i], dir)
    decreases |rs| - i
  {
    if i < |rs| {
      assert rs[..i + 1][..i] == rs[..i];
      FailureEndsScan(m, rs, i + 1, dir);
    } else {
      assert rs[..i] == rs;
    }
  }

  /**
   * The fallback folders matter only when the resources threw or gave
   * nothing: otherwise the scan is the resources' result alone.
   */
  lemma ResourcesFirst(env: Environment, dir: string)
    ensures var scanned := PutResources([], env.resources, dir);
      !scanned.1 && |scanned.0| > 0 ==> ScanResult(env, dir) == scanned.0
    ensures var scanned := PutResources([], env.resources, dir);
      !scanned.1 && |scanned.0| == 0 ==> ScanResult(env, dir) == PutFiles([], ExternalFiles(env))
  {
  }

  /** The cachedApiFiles map and the tempExtractDir it extracts into (both static). */
  class ApiCache {
    var entries: CacheEntries
    var extractDir: Option<string>

    ghost predicate Valid()
      reads this
    {
      CacheValid(entries)
    }

    constructor ()
      ensures entries == [] && extractDir.None?
    {
      entries := [];
      extractDir := None;
    }

    /** Each file put under its own name (the for-each put loops). */
    method PutAll(files: seq<File>)
      modifies this
      ensures entries == PutFiles(old(entries), files)
      ensures extractDir == old(extractDir)
    {
      for i := 0 to |files|
        invariant entries == PutFiles(old(entries), files[..i])
        invariant extractDir == old(extractDir)
      {
        assert files[..i + 1][..i] == files[..i];
        entries := PutEntry(entries, files[i].name, files[i]);
      }
      assert files[..|files|] == files;
    }

    /** The entry loop over a jar behind a "jar:" URL (241-267). */
    method ExtractJarEntries(names: seq<string>, dir: string)
      modifies this
      ensures entries == PutJarEntries(old(entries), names, dir)
      ensures extractDir == old(extractDir)
    {
      for i := 0 to |names|
        invariant entries == PutJarEntries(old(entries), names[..i], dir)
        invariant extractDir == old(extractDir)
      {
        assert names[..i + 1][..i] == names[..i];
        var entryName := names[i];
        if IsApiEntry(entryName) {
          var fileName := FileNameOf(entryName);
          entries := PutEntry(entries, fileName, File(dir, fileName));
        }
      }
      assert names[..|names|] == names;
    }

    /** checkExternalLibsFolder: the first folder holding an API jar contributes all of them. */
    method CheckExternalLibsFolder(env: Environment)
      modifies this
      ensures entries == PutFiles(old(entries), ExternalFiles(env))
      ensures extractDir == old(extractDir)
    {
      var paths := PossiblePaths(env);
      var k := 0;
      while k < |paths|
        invariant k <= |paths|
        invariant ExternalFolder(env, k) == ExternalFolder(env, 0)
        invariant entries == old(entries) && extractDir == old(extractDir)
      {
        var listing := env.listDir(paths[k]);
        if listing.Some? {
          var files := ApiFiles(listing.value);
          if |files| > 0 {
            PutAll(files);
            break;
          }
        }
        k := k + 1;
      }
    }

    /**
     * getApiFilesFromResources: a non-empty cache is returned as it is;
     * an empty one is filled from the resources and, failing that, from
     * the external folders.
     */
    method GetApiFilesFromResources(env: Environment) returns (files: CacheEntries)
      modifies this
      requires Valid()
      ensures Valid()
      ensures files == entries
      ensures old(entries) != [] ==> entries == old(entries) && extractDir == old(extractDir)
      ensures old(entries) == [] ==>
        extractDir == (if old(extractDir).Some? then old(extractDir) else Some(env.extractDir)) &&
        entries == ScanResult(env, extractDir.value)
    {
      if entries != [] {
        return entries;
      }
      if extractDir.None? {
        extractDir := Some(env.extractDir);
      }
      var dir := extractDir.value;
      var rs := env.resources;
      var failed := false;
      var i := 0;
      while i < |rs| && !failed
        invariant i <= |rs|
        invariant (entries, failed) == PutResources([], rs[..i], dir)
        invariant extractDir == Some(dir)
      {
        assert rs[..i + 1][..i] == rs[..i];
        match rs[i] {
          case JarResource(names) => ExtractJarEntries(names, dir);
          case DirResource(listing) =>
            if listing.Some? {
              PutAll(ApiFiles(listing.value));
            }
          case OtherResource =>
          case FailingResource => failed := true;
        }
        i := i + 1;
      }
      if failed {
        FailureEndsScan([], rs, i, dir);
      } else {
        assert rs[..i] == rs;
      }
      if failed {
        CheckExternalLibsFolder(env);
      }
      if entries == [] {
        CheckExternalLibsFolder(env);
      }
      ScanResultValid(env, dir);
      return entries;
    }
  }

  // ---------------------------------------------------------------------
  // getNewestApi
  // ---------------------------------------------------------------------

  /** The comparator of getNewestApi: unparseable names last, newer versions first. */
  function NewestCompare(a: File, b: File): int
  {
    NewestCompareOf(FileVersion(a), FileVersion(b))
  }

  function NewestCompareOf(v1: Option<McVersion>, v2: Option<McVersion>): int
  {
    if v1.None? && v2.None? then 0
    else if v1.None? then 1
    else if v2.None? then -1
    else Compare(v2.value, v1.value)
  }

  /** Parseable names first, then newer versions first. */
  function NewestKey(f: File): seq<int>
  {
    NewestKeyOf(FileVersion(f))
  }

  function NewestKeyOf(v: Option<McVersion>): seq<int>
  {
    match v
    case None => [1]
    case Some(v) => [0, -v.major, -v.minor, -v.patch]
  }

  /** The comparator orders files exactly as their keys do. */
  lemma NewestCompareIsKeyOrder(a: File, b: File)
    ensures NewestCompare(a, b) == LexCompare(NewestKey(a), NewestKey(b))
  {
    NewestOrderOf(FileVersion(a), FileVersion(b));
  }

  lemma NewestOrderOf(a: Option<McVersion>, b: Option<McVersion>)
    ensures NewestCompareOf(a, b) == LexCompare(NewestKeyOf(a), NewestKeyOf(b))
  {
    var ka, kb := NewestKeyOf(a), NewestKeyOf(b);
    LexStep(ka, kb);
    if a.Some? && b.Some? {
      var va, vb := a.value, b.value;
      var ra, rb := ka[1..], kb[1..];
      assert ra == [-va.major, -va.minor, -va.patch] && rb == [-vb.major, -vb.minor, -vb.patch];
      LexStep(ra, rb);
      assert ra[1..] == [-va.minor, -va.patch] && rb[1..] == [-vb.minor, -vb.patch];
      LexStep(ra[1..], rb[1..]);
      assert ra[1..][1..] == [-va.patch] && rb[1..][1..] == [-vb.patch];
      LexStep(ra[1..][1..], rb[1..][1..]);
      assert ra[1..][1..][1..] == [] && rb[1..][1..][1..] == [];
      CompareIsLexicographic(vb, va);
    } else if a.None? && b.None? {
      assert ka[1..] == [] && kb[1..] == [];
    }
  }

  /** A file ordered no later than a parseable one parses and is at least as new. */
  lemma NewestFirst(a: File, b: File)
    requires LexCompare(NewestKey(a), NewestKey(b)) <= 0 && Parses(b)
    ensures Parses(a) && IsGreaterOrEqual(FileVersion(a).value, FileVersion(b).value)
  {
    NewestCompareIsKeyOrder(a, b);
    if Parses(a) {
      CompareTotalOrder(FileVersion(b).value, FileVersion(a).value, FileVersion(a).value);
    }
  }

  /**
   * getNewestApi: null for a null or empty array; otherwise the array is
   * sorted newest first, unparseable names last, and its first file is
   * returned, which is the newest parseable one when there is any.
   */
  method GetNewestApi(apiFiles: array?<File>) returns (newest: Option<File>)
    modifies apiFiles
    ensures newest.None? <==> apiFiles == null || apiFiles.Length == 0
    ensures apiFiles != null ==> multiset(apiFiles[..]) == multiset(old(apiFiles[..]))
    ensures apiFiles != null ==> SortedBy(apiFiles[..], NewestKey)
    ensures newest.Some? ==> apiFiles != null && newest.value == apiFiles[0]
    ensures newest.Some? ==> forall f :: f in apiFiles[..] && Parses(f) ==>
      Parses(newest.value) && IsGreaterOrEqual(FileVersion(newest.value).value, FileVersion(f).value)
  {
    if apiFiles == null || apiFiles.Length == 0 {
      return None;
    }
    SortByKey(apiFiles, NewestKey);
    SortedHeadIsLeast(apiFiles[..], NewestKey);
    forall f | f in apiFiles[..] && Parses(f)
      ensures Parses(apiFiles[0]) && IsGreaterOrEqual(FileVersion(apiFiles[0]).value, FileVersion(f).value)
    {
      NewestFirst(apiFiles[0], f);
    }
    return Some(apiFiles[0]);
  }

  // ---------------------------------------------------------------------
  // The compiler object
  // ---------------------------------------------------------------------

  /** The source file compileJavaSource writes: `className.java` in its own directory. */
  function SourceFile(sourceDir: string, className: string): File
  {
    File(sourceDir, className + ".java")
  }

  /** The temporary directories that currently exist. */
  class TempDirectories {
    var live: set<string>

    constructor ()
      ensures live == {}
    {
      live := {};
    }
  }

  /**
   * The cache after getApiFilesFromResources: a non-empty cache is kept
   * as it was, an empty one becomes the scan into the extraction directory.
   */
  predicate CacheAfterLookup(before: CacheEntries, after: CacheEntries, extractDir: Option<string>, env: Environment)
  {
    (before != [] ==> after == before) &&
    (before == [] ==> extractDir.Some? && after == ScanResult(env, extractDir.value))
  }

  /**
   * The dependency list of findBukkitDependenciesFromResources: empty
   * exactly for an empty cache, otherwise one cached file, and when any
   * cached name parses, a parsed one that no other parsed file outranks
   * for the target.
   */
  predicate ChosenApiDeps(deps: seq<File>, entries: CacheEntries, target: McVersion)
  {
    |deps| <= 1 && (deps == [] <==> entries == []) &&
    (deps != [] ==> deps[0] in Values(entries)) &&
    (deps != [] && (exists f :: f in Values(entries) && Parses(f)) ==>
       Parses(deps[0]) &&
       forall f :: f in Values(entries) && Parses(f) ==>
         LexCompare(RankKey(target, FileVersion(deps[0]).value), RankKey(target, FileVersion(f).value)) <= 0)
  }

  /** JavaCompiler: the memo of the plugin's version and information, over the shared API cache. */
  class JavaCompiler {
    var detectedMcVersion: Option<McVersion>
    var pluginInfo: PluginVersionDetector.PluginInfo?
    const cache: ApiCache

    constructor (cache: ApiCache)
      ensures this.cache == cache
      ensures detectedMcVersion.None? && pluginInfo == null
    {
      this.cache := cache;
      detectedMcVersion := None;
      pluginInfo := null;
    }

    /**
     * The first lines of compileJavaFile: the plugin is inspected only
     * when a jar is given and no version is known yet; a version missing
     * afterwards becomes 1.20. A known version is never replaced.
     */
    method DetectVersion(originalJar: Option<Option<PluginVersionDetector.JarView>>)
      modifies this
      ensures detectedMcVersion.Some?
      ensures old(detectedMcVersion).Some? ==>
        detectedMcVersion == old(detectedMcVersion) && pluginInfo == old(pluginInfo)
      ensures old(detectedMcVersion).None? && originalJar.None? ==>
        detectedMcVersion == Some(McVersion(1, 20, 0, "1.20")) && pluginInfo == old(pluginInfo)
      ensures old(detectedMcVersion).None? && originalJar.Some? ==>
        var jar := originalJar.value;
        pluginInfo != null && fresh(pluginInfo) && detectedMcVersion.Some? &&
        (PluginVersionDetector.PluginYmlReadable(jar) ==>
          NewVersion(Some(PluginVersionDetector.DetectedVersionText(jar))) == Success(detectedMcVersion.value)) &&
        (!PluginVersionDetector.PluginYmlReadable(jar) ==> detectedMcVersion == Some(McVersion(1, 20, 0, "1.20")))
    {
      if originalJar.Some? && detectedMcVersion.None? {
        var info := PluginVersionDetector.GetPluginInfo(originalJar.value);
        pluginInfo := info;
        detectedMcVersion := info.mcVersion;
      }
      if detectedMcVersion.None? {
        var fallback := NewVersion(Some("1.20"));
        PluginVersionDetector.DefaultVersion();
        detectedMcVersion := Some(fallback.value);
      }
    }

    /**
     * findBukkitDependenciesFromResources: nothing when the cache stays
     * empty, otherwise exactly one of its files: the best match for the
     * target when any name parses, else the first after getNewestApi.
     */
    method FindBukkitDependenciesFromResources(targetVersion: McVersion, env: Environment)
      returns (deps: seq<File>)
      modifies cache
      requires cache.Valid()
      ensures cache.Valid()
      ensures CacheAfterLookup(old(cache.entries), cache.entries, cache.extractDir, env)
      ensures ChosenApiDeps(deps, cache.entries, targetVersion)
    {
      var apiFiles := cache.GetApiFilesFromResources(env);
      deps := [];
      if apiFiles == [] {
        return;
      }
      var values := Values(apiFiles);
      var filesArray := new File[|values|](k requires 0 <= k < |values| => values[k]);
      assert filesArray[..] == values;
      var bestMatch := FindBestMatchVersion(filesArray, Some(targetVersion));
      if bestMatch.Some? {
        deps := deps + [bestMatch.value];
      } else {
        var newest := GetNewestApi(filesArray);
        assert multiset(filesArray[..]) == multiset(values);
        assert newest.value in multiset(values);
        deps := deps + [newest.value];
      }
    }

    /**
     * compileJavaFile: the version memo, then, inside a fresh temporary
     * directory that is removed on every path, the options, the classpath
     * and javac. The options handed to javac are reported in `options`.
     */
    method CompileJavaFile(javaFile: File, classpath: Option<seq<File>>,
                           originalJar: Option<Option<PluginVersionDetector.JarView>>,
                           env: Environment, temps: TempDirectories)
      returns (r: Result<seq<bv8>, CompileError>, ghost options: seq<string>, ghost apiDeps: seq<File>)
      modifies this, cache, temps
      requires cache.Valid()
      requires env.compileDir !in temps.live
      ensures cache.Valid()
      ensures temps.live == old(temps.live)
      ensures detectedMcVersion.Some?
      ensures old(detectedMcVersion).Some? ==> detectedMcVersion == old(detectedMcVersion)
      ensures old(detectedMcVersion).None? && originalJar.None? ==>
        detectedMcVersion == Some(McVersion(1, 20, 0, "1.20"))
      ensures old(detectedMcVersion).Some? || originalJar.None? ==> pluginInfo == old(pluginInfo)
      ensures old(detectedMcVersion).None? && originalJar.Some? ==>
        var jar := originalJar.value;
        pluginInfo != null && fresh(pluginInfo) &&
        (PluginVersionDetector.PluginYmlReadable(jar) ==>
          NewVersion(Some(PluginVersionDetector.DetectedVersionText(jar))) == Success(detectedMcVersion.value)) &&
        (!PluginVersionDetector.PluginYmlReadable(jar) ==> detectedMcVersion == Some(McVersion(1, 20, 0, "1.20")))
      ensures env.javac.None? ==> r == Failure(CompilerNotFound) && cache.entries == old(cache.entries)
      ensures env.javac.Some? ==>
        CacheAfterLookup(old(cache.entries), cache.entries, cache.extractDir, env) &&
        ChosenApiDeps(apiDeps, cache.entries, detectedMcVersion.value) &&
        options == CompileOptions(detectedMcVersion.value,
                                  JavaLibraries(env.listDir(env.javaHome + "/lib")) +
                                    (if classpath.Some? then classpath.value else []) + apiDeps + env.loaderJars,
                                  env.compileDir, env.pathSeparator) &&
        r == CompileResult(env.javac.value(options, javaFile), UnitName(javaFile.name), env.compileDir)
    {
      DetectVersion(originalJar);
      temps.live := temps.live + {env.compileDir};
      r, options, apiDeps := CompileInTempDir(javaFile, classpath, env);
      temps.live := temps.live - {env.compileDir};
    }

    /** The try block of compileJavaFile. */
    method CompileInTempDir(javaFile: File, classpath: Option<seq<File>>, env: Environment)
      returns (r: Result<seq<bv8>, CompileError>, ghost options: seq<string>, ghost apiDeps: seq<File>)
      modifies cache
      requires cache.Valid() && detectedMcVersion.Some?
      ensures cache.Valid()
      ensures env.javac.None? ==> r == Failure(CompilerNotFound) && cache.entries == old(cache.entries)
      ensures env.javac.Some? ==>
        CacheAfterLookup(old(cache.entries), cache.entries, cache.extractDir, env) &&
        ChosenApiDeps(apiDeps, cache.entries, detectedMcVersion.value) &&
        options == CompileOptions(detectedMcVersion.value,
                                  JavaLibraries(env.listDir(env.javaHome + "/lib")) +
                                    (if classpath.Some? then classpath.value else []) + apiDeps + env.loaderJars,
                                  env.compileDir, env.pathSeparator) &&
        r == CompileResult(env.javac.value(options, javaFile), UnitName(javaFile.name), env.compileDir)
    {
      options, apiDeps := [], [];
      if env.javac.None? {
        return Failure(CompilerNotFound), options, apiDeps;
      }
      var version := detectedMcVersion.value;
      var fullClasspath := JavaLibraries(env.listDir(env.javaHome + "/lib"));
      if classpath.Some? {
        fullClasspath := fullClasspath + classpath.value;
      } else {
        assert fullClasspath + [] == fullClasspath;
      }
      var deps := FindBukkitDependenciesFromResources(version, env);
      apiDeps := deps;
      fullClasspath := fullClasspath + deps;
      fullClasspath := fullClasspath + env.loaderJars;
      var opts := BuildOptions(version, fullClasspath, env.compileDir, env.pathSeparator);
      options := opts;
      var outcome := env.javac.value(opts, javaFile);
      r := CompileResult(outcome, UnitName(javaFile.name), env.compileDir);
    }

    /**
     * compileJavaSource(code, className, classpath): the overload without a
     * jar, so the version memo, when still empty, becomes 1.20. The source
     * goes to a file named after the class in its own temporary directory.
     */
    method CompileJavaSource(className: string, classpath: Option<seq<File>>,
                             sourceDir: string, env: Environment, temps: TempDirectories)
      returns (r: Result<seq<bv8>, CompileError>, ghost options: seq<string>, ghost apiDeps: seq<File>)
      modifies this, cache, temps
      requires cache.Valid()
      requires sourceDir !in temps.live && env.compileDir !in temps.live && sourceDir != env.compileDir
      ensures cache.Valid()
      ensures temps.live == old(temps.live)
      ensures detectedMcVersion == if old(detectedMcVersion).Some? then old(detectedMcVersion)
                                   else Some(McVersion(1, 20, 0, "1.20"))
      ensures pluginInfo == old(pluginInfo)
      ensures detectedMcVersion.Some?
      ensures env.javac.None? ==> r == Failure(CompilerNotFound) && cache.entries == old(cache.entries)
      ensures env.javac.Some? ==>
        CacheAfterLookup(old(cache.entries), cache.entries, cache.extractDir, env) &&
        ChosenApiDeps(apiDeps, cache.entries, detectedMcVersion.value) &&
        options == CompileOptions(detectedMcVersion.value,
                                  JavaLibraries(env.listDir(env.javaHome + "/lib")) +
                                    (if classpath.Some? then classpath.value else []) + apiDeps + env.loaderJars,
                                  env.compileDir, env.pathSeparator) &&
        r == CompileResult(env.javac.value(options, SourceFile(sourceDir, className)),
                           UnitName(SourceFile(sourceDir, className).name), env.compileDir)
    {
      temps.live := temps.live + {sourceDir};
      var javaFile := SourceFile(sourceDir, className);
      r, options, apiDeps := CompileJavaFile(javaFile, classpath, None, env, temps);
      temps.live := temps.live - {sourceDir};
    }
  }
}
