/**
 * JarPatcher: rewriting a plugin jar entry by entry. The first variant
 * replaces the entry of one class by freshly compiled bytes; the second
 * rewrites the string constants loaded by the methods of every class.
 * The result is written next to the original, under a derived name.
 *
 * The jar streams are the entry sequence a jar holds; the compiler and
 * the ASM class reader/writer are parameters; the file system is the map
 * of jar files (Disk) plus the existence and listing queries (Machine).
 */
module JarPatcher {
  import opened JavaLang

  /** One jar entry as the streams see it: its name and its bytes. */
  datatype Entry = Entry(name: string, data: seq<bv8>)

  /** The file-system queries getClasspathFromJar makes. */
  datatype Machine = Machine(
    javaHome: string,
    fileExists: File -> bool,              // File.exists()
    listDir: string -> Option<seq<File>>)  // File.listFiles(), None unless an existing directory

  /** The jar files on disk, by path. */
  class Disk {
    var jars: map<File, seq<Entry>>

    constructor (jars: map<File, seq<Entry>>)
      ensures this.jars == jars
    {
      this.jars := jars;
    }
  }

  /** Deleting a file just created restores the disk. */
  lemma DeleteCreated<K, V>(m: map<K, V>, k: K, v: V)
    requires k !in m
    ensures m[k := v] - {k} == m
  {
  }

  // ---------------------------------------------------------------------
  // Names
  // ---------------------------------------------------------------------

  /** The entry name of a class: dots become slashes, then ".class". */
  function ExpectedClassPath(className: string): (r: string)
    ensures EndsWith(r, ".class") && |r| == |className| + 6
    ensures forall k :: 0 <= k < |className| ==> r[k] == if className[k] == '.' then '/' else className[k]
    ensures forall k :: 0 <= k < |className| ==> r[k] != '.'
  {
    ReplaceChar(className, '.', '/') + ".class"
  }

  /** The text after the last '.', the name of the compiled unit. */
  function SimpleClassName(className: string): (r: string)
    ensures '.' !in r
    ensures EndsWith(className, r)
    ensures '.' !in className ==> r == className
  {
    className[LastIndexOf(className, '.') + 1..]
  }

  /** The output name of the first variant: every ".jar" becomes "_PATCHED.jar". */
  function PatchedName(name: string): string
  {
    ReplaceAll(name, ".jar", "_PATCHED.jar")
  }

  /** The output name of the string variant. */
  function StringPatchedName(name: string): string
  {
    ReplaceAll(name, ".jar", "_STRING_PATCHED.jar")
  }

  /** A name `base.jar` whose base holds no ".jar" becomes `base<suffix>.jar`: only the final ".jar" is replaced. */
  lemma {:induction false} RenamePlainJar(base: string, r: string)
    requires !Contains(base, ".jar")
    ensures ReplaceAll(base + ".jar", ".jar", r) == base + r
    decreases |base|
  {
    var s := base + ".jar";
    if |base| == 0 {
      assert s == ".jar" && s[..4] == ".jar" && s[4..] == "";
    } else {
      NoJarAtFront(base);
      NoJarInTail(base);
      assert s[1..] == base[1..] + ".jar";
      assert ReplaceAll(s, ".jar", r) == [s[0]] + ReplaceAll(s[1..], ".jar", r);
      RenamePlainJar(base[1..], r);
      assert [base[0]] + base[1..] == base;
    }
  }

  /** ".jar" has no border, so an occurrence in `base.jar` cannot straddle the end of `base`. */
  lemma NoJarAtFront(base: string)
    requires |base| > 0 && !Contains(base, ".jar")
    ensures (base + ".jar")[..4] != ".jar"
  {
    var s := base + ".jar";
    if |base| >= 4 {
      assert s[..4] == base[..4];
      assert !StartsAt(base, 0, ".jar");
    } else {
      assert s[..4][|base|] == '.' != ".jar"[|base|];
    }
  }

  lemma NoJarInTail(base: string)
    requires |base| > 0 && !Contains(base, ".jar")
    ensures !Contains(base[1..], ".jar")
  {
    if Contains(base[1..], ".jar") {
      var i: nat :| i <= |base[1..]| && StartsAt(base[1..], i, ".jar");
      assert base[1..][i..i + 4] == base[i + 1..i + 5];
      assert StartsAt(base, i + 1, ".jar");
    }
  }

  /** `base.jar` is written as `base_PATCHED.jar` or `base_STRING_PATCHED.jar`, versioned bases included. */
  lemma PatchedNames(base: string)
    requires !Contains(base, ".jar")
    ensures PatchedName(base + ".jar") == base + "_PATCHED.jar"
    ensures StringPatchedName(base + ".jar") == base + "_STRING_PATCHED.jar"
  {
    RenamePlainJar(base, "_PATCHED.jar");
    RenamePlainJar(base, "_STRING_PATCHED.jar");
  }

  /** A name without ".jar" is its own output name: the result overwrites the input file. */
  lemma NoJarSuffixOverwrites(name: string)
    requires !Contains(name, ".jar")
    ensures PatchedName(name) == name && StringPatchedName(name) == name
  {
    ReplaceAllAbsent(name, ".jar", "_PATCHED.jar");
    ReplaceAllAbsent(name, ".jar", "_STRING_PATCHED.jar");
  }

  function PatchedFile(jar: File): File
  {
    File(jar.parent, PatchedName(jar.name))
  }

  function StringPatchedFile(jar: File): File
  {
    File(jar.parent, StringPatchedName(jar.name))
  }

  // ---------------------------------------------------------------------
  // getClasspathFromJar
  // ---------------------------------------------------------------------

  /** The plugin folder's filter: another jar that is not itself a patch output. */
  predicate IsSiblingLib(name: string, jarName: string)
  {
    EndsWith(name, ".jar") && name != jarName && !Contains(name, "_PATCHED") && !Contains(name, "_STRING_PATCHED")
  }

  /** The libs folder's filter: a name mentioning spigot, bukkit or server, in any case. */
  predicate IsServerLib(name: string)
  {
    Contains(ToLower(name), "spigot") || Contains(ToLower(name), "bukkit") || Contains(ToLower(name), "server")
  }

  function RtJar(machine: Machine): File
  {
    File(machine.javaHome, "lib/rt.jar")
  }

  /** What listFiles returns for the plugin jar's folder: None without a parent or when it is no directory. */
  function PluginFolderListing(jarFile: File, machine: Machine): Option<seq<File>>
  {
    if jarFile.parent == "" then None else machine.listDir(jarFile.parent)
  }

  /**
   * The plugin folder's other jars: exactly the listed files that pass the
   * filter, in listing order; none when the folder cannot be listed.
   */
  function SiblingLibs(jarFile: File, machine: Machine): (r: seq<File>)
    ensures forall f :: f in r <==>
      PluginFolderListing(jarFile, machine).Some? && f in PluginFolderListing(jarFile, machine).value &&
      IsSiblingLib(f.name, jarFile.name)
    ensures PluginFolderListing(jarFile, machine).Some? ==> IsSubsequence(r, PluginFolderListing(jarFile, machine).value)
    ensures PluginFolderListing(jarFile, machine).None? ==> r == []
  {
    var listing := PluginFolderListing(jarFile, machine);
    if listing.None? then []
    else
      FilterIsSubsequence(listing.value, (f: File) => IsSiblingLib(f.name, jarFile.name));
      Filter(listing.value, (f: File) => IsSiblingLib(f.name, jarFile.name))
  }

  /**
   * The server jars of the working directory's "libs" folder: exactly the
   * listed files whose lower-cased name mentions spigot, bukkit or server,
   * in listing order.
   */
  function ServerLibs(machine: Machine): (r: seq<File>)
    ensures forall f :: f in r <==> machine.listDir("libs").Some? && f in machine.listDir("libs").value && IsServerLib(f.name)
    ensures machine.listDir("libs").Some? ==> IsSubsequence(r, machine.listDir("libs").value)
    ensures machine.listDir("libs").None? ==> r == []
  {
    var listing := machine.listDir("libs");
    if listing.None? then []
    else
      FilterIsSubsequence(listing.value, (f: File) => IsServerLib(f.name));
      Filter(listing.value, (f: File) => IsServerLib(f.name))
  }

  /** The classpath getClasspathFromJar builds, in order and without dedup. */
  function ClasspathFromJar(jarFile: File, machine: Machine): seq<File>
  {
    [jarFile] + (if machine.fileExists(RtJar(machine)) then [RtJar(machine)] else [])
      + SiblingLibs(jarFile, machine) + ServerLibs(machine)
  }

  /** 1 when rt.jar exists: where the libraries start after the jar itself. */
  function RtCount(machine: Machine): nat
  {
    if machine.fileExists(RtJar(machine)) then 1 else 0
  }

  /**
   * The jar comes first, then rt.jar exactly when it exists, then every
   * sibling library, then every server library, each group in listing
   * order; every other element is a sibling jar that is neither the jar
   * nor a patch, or a server jar from "libs".
   */
  lemma ClasspathFromJarLayout(jarFile: File, machine: Machine)
    ensures var cp := ClasspathFromJar(jarFile, machine);
      var libsStart := 1 + RtCount(machine);
      var serverStart := libsStart + |SiblingLibs(jarFile, machine)|;
      cp[0] == jarFile &&
      (machine.fileExists(RtJar(machine)) ==> cp[1] == RtJar(machine)) &&
      |cp| == serverStart + |ServerLibs(machine)| &&
      cp[libsStart..serverStart] == SiblingLibs(jarFile, machine) &&
      cp[serverStart..] == ServerLibs(machine) &&
      forall k :: 1 <= k < |cp| ==>
        (cp[k] == RtJar(machine) && machine.fileExists(RtJar(machine))) ||
        IsSiblingLib(cp[k].name, jarFile.name) || IsServerLib(cp[k].name)
  {
    var cp := ClasspathFromJar(jarFile, machine);
    var rt := if machine.fileExists(RtJar(machine)) then [RtJar(machine)] else [];
    var sib, srv := SiblingLibs(jarFile, machine), ServerLibs(machine);
    assert cp == [jarFile] + rt + sib + srv;
    assert cp[1 + |rt|..1 + |rt| + |sib|] == sib;
    assert cp[1 + |rt| + |sib|..] == srv;
    forall k | 1 <= k < |cp|
      ensures (cp[k] == RtJar(machine) && machine.fileExists(RtJar(machine))) ||
        IsSiblingLib(cp[k].name, jarFile.name) || IsServerLib(cp[k].name)
    {
      if k < 1 + |rt| {
        assert cp[k] == rt[k - 1];
      } else if k < 1 + |rt| + |sib| {
        assert cp[k] == sib[k - 1 - |rt|] && cp[k] in sib;
      } else {
        assert cp[k] == srv[k - 1 - |rt| - |sib|] && cp[k] in srv;
      }
    }
  }

  /** The `for (File lib : libs) classpath.add(lib)` loops. */
  method AddAll(classpath: seq<File>, libs: seq<File>) returns (r: seq<File>)
    ensures r == classpath + libs
  {
    r := classpath;
    for i := 0 to |libs|
      invariant r == classpath + libs[..i]
    {
      r := r + [libs[i]];
    }
    assert libs[..|libs|] == libs;
  }

  /** getClasspathFromJar */
  method GetClasspathFromJar(jarFile: File, machine: Machine) returns (classpath: seq<File>)
    ensures classpath == ClasspathFromJar(jarFile, machine)
  {
    classpath := [jarFile];
    var rtJar := RtJar(machine);
    if machine.fileExists(rtJar) {
      classpath := classpath + [rtJar];
    }
    assert classpath == [jarFile] + (if machine.fileExists(RtJar(machine)) then [RtJar(machine)] else []);
    var libs := SiblingLibs(jarFile, machine);
    classpath := AddAll(classpath, libs);
    var serverLibs := ServerLibs(machine);
    classpath := AddAll(classpath, serverLibs);
  }

  // ---------------------------------------------------------------------
  // createPatchedJarFromModifiedClass
  // ---------------------------------------------------------------------

  /** How compileJavaSource can fail. */
  datatype CompileFault = CompilationException(message: string) | OtherException(message: string)

  /**
   * Why the entry loop stops: the compiler's fault, or the ZipException
   * putNextEntry throws for a name already written, with that entry's index.
   */
  datatype LoopFault = CompileFailed(fault: CompileFault) | RepeatedName(name: string, at: nat)

  datatype PatchError =
    | CannotOpen                                // the original jar cannot be read
    | CompilationError(message: string)         // a CompilationException, rethrown
    | UnexpectedError(message: string)          // any other exception, wrapped in a RuntimeException
    | DuplicateEntry(name: string)              // the ZipException of putNextEntry, rethrown

  /** The error the patcher throws for a failed compilation of `className`. */
  function CompileErrorOf(fault: CompileFault, className: string): PatchError
  {
    match fault
    case CompilationException(m) => CompilationError(m)
    case OtherException(m) => UnexpectedError("Ошибка компиляции " + className + ": " + m)
  }

  /** The error leaving the first variant when its entry loop stops. */
  function PatchErrorOf(fault: LoopFault, className: string): PatchError
  {
    match fault
    case CompileFailed(f) => CompileErrorOf(f, className)
    case RepeatedName(name, _) => DuplicateEntry(name)
  }

  /** The source's compiler call: (code, simple class name, classpath) to class bytes. */
  type Compile = (string, string, seq<File>) -> Result<seq<bv8>, CompileFault>

  /** The names of the entries, in order. */
  function EntryNames(entries: seq<Entry>): (r: seq<string>)
    ensures |r| == |entries| && forall k :: 0 <= k < |entries| ==> r[k] == entries[k].name
  {
    seq(|entries|, k requires 0 <= k < |entries| => entries[k].name)
  }

  /** The entry at `k` has the name of an earlier entry. */
  predicate NameRepeated(entries: seq<Entry>, k: nat)
    requires k < |entries|
  {
    exists j :: 0 <= j < k && entries[j].name == entries[k].name
  }

  /** The first entry, from `i` on, whose name an earlier entry already has; |entries| when there is none. */
  function FirstRepeatFrom(entries: seq<Entry>, i: nat): (n: nat)
    requires i <= |entries|
    ensures i <= n <= |entries|
    ensures forall k :: i <= k < n ==> !NameRepeated(entries, k)
    ensures n < |entries| ==> NameRepeated(entries, n)
    decreases |entries| - i
  {
    if i == |entries| then i
    else if NameRepeated(entries, i) then i
    else FirstRepeatFrom(entries, i + 1)
  }

  /** Where putNextEntry first meets a name it has written: |entries| when all names differ. */
  function FirstRepeat(entries: seq<Entry>): nat
  {
    FirstRepeatFrom(entries, 0)
  }

  /** The index with no repetition before it and a repetition at it (or the end) is FirstRepeat. */
  lemma FirstRepeatUnique(entries: seq<Entry>, n: nat)
    requires n <= |entries|
    requires forall k :: 0 <= k < n ==> !NameRepeated(entries, k)
    requires n < |entries| ==> NameRepeated(entries, n)
    ensures FirstRepeat(entries) == n
  {
  }

  /** No two entries share a name. */
  predicate DistinctNames(entries: seq<Entry>)
  {
    forall i, j :: 0 <= i < j < |entries| ==> entries[i].name != entries[j].name
  }

  /** The entries before the first repeated name have distinct names, and that entry's name was written before. */
  lemma FirstRepeatPrefix(entries: seq<Entry>)
    ensures DistinctNames(entries[..FirstRepeat(entries)])
    ensures FirstRepeat(entries) < |entries| ==>
      entries[FirstRepeat(entries)].name in EntryNames(entries[..FirstRepeat(entries)])
  {
    var n := FirstRepeat(entries);
    var pre := entries[..n];
    forall i, j | 0 <= i < j < |pre|
      ensures pre[i].name != pre[j].name
    {
      assert !NameRepeated(entries, j);
      assert pre[i] == entries[i] && pre[j] == entries[j];
    }
    if n < |entries| {
      assert NameRepeated(entries, n);
      var j :| 0 <= j < n && entries[j].name == entries[n].name;
      assert EntryNames(pre)[j] == entries[n].name;
    }
  }

  /** Entries named `path` take the compiled bytes; all others are copied. */
  function PatchedEntries(entries: seq<Entry>, path: string, compiled: seq<bv8>): (r: seq<Entry>)
    ensures |r| == |entries|
    ensures forall k :: 0 <= k < |entries| ==> r[k].name == entries[k].name
    ensures forall k :: 0 <= k < |entries| ==>
      r[k].data == if entries[k].name == path then compiled else entries[k].data
  {
    seq(|entries|, k requires 0 <= k < |entries| =>
      if entries[k].name == path then Entry(path, compiled) else entries[k])
  }

  predicate HasEntry(entries: seq<Entry>, path: string)
  {
    exists k :: 0 <= k < |entries| && entries[k].name == path
  }

  /** The number of entries named `path`: how often the compiler runs. */
  function CountNamed(entries: seq<Entry>, path: string): nat
  {
    if |entries| == 0 then 0
    else CountNamed(entries[..|entries| - 1], path) + (if entries[|entries| - 1].name == path then 1 else 0)
  }

  /** Without an entry named `path` the compiler is never called. */
  lemma {:induction false} CountNamedAbsent(entries: seq<Entry>, path: string)
    requires !HasEntry(entries, path)
    ensures CountNamed(entries, path) == 0
  {
    if |entries| > 0 {
      var init := entries[..|entries| - 1];
      assert forall k :: 0 <= k < |init| ==> init[k] == entries[k];
      CountNamedAbsent(init, path);
    }
  }

  /**
   * The entry loop over `entries`, the compiler answering `compiled` for
   * the class: the entries written, or where it stops. Each step first
   * produces the entry's bytes (compiling the class entry), then
   * putNextEntry refuses a name already written.
   */
  function CopyLoop(entries: seq<Entry>, path: string, compiled: Result<seq<bv8>, CompileFault>): Result<seq<Entry>, LoopFault>
    decreases |entries|
  {
    if |entries| == 0 then Success([])
    else
      var prev := CopyLoop(entries[..|entries| - 1], path, compiled);
      var e := entries[|entries| - 1];
      if prev.Failure? then prev
      else if e.name == path && compiled.Failure? then Failure(CompileFailed(compiled.error))
      else if e.name in EntryNames(prev.value) then Failure(RepeatedName(e.name, |entries| - 1))
      else if e.name != path then Success(prev.value + [e])
      else Success(prev.value + [Entry(path, compiled.value)])
  }

  /** The entries up to and including the one at which putNextEntry fails: the ones whose bytes are produced. */
  function Attempted(entries: seq<Entry>): seq<Entry>
  {
    if FirstRepeat(entries) < |entries| then entries[..FirstRepeat(entries) + 1] else entries
  }

  /** With all names distinct the loop copies, patches, or stops at the compiler's fault. */
  lemma {:induction false} CopyLoopDistinct(entries: seq<Entry>, path: string, compiled: Result<seq<bv8>, CompileFault>)
    requires DistinctNames(entries)
    ensures compiled.Failure? && HasEntry(entries, path) ==>
      CopyLoop(entries, path, compiled) == Failure(CompileFailed(compiled.error))
    ensures !HasEntry(entries, path) ==> CopyLoop(entries, path, compiled) == Success(entries)
    ensures compiled.Success? ==> CopyLoop(entries, path, compiled) == Success(PatchedEntries(entries, path, compiled.value))
    decreases |entries|
  {
    if |entries| > 0 {
      var init := entries[..|entries| - 1];
      var e := entries[|entries| - 1];
      assert forall k :: 0 <= k < |init| ==> init[k] == entries[k];
      CopyLoopDistinct(init, path, compiled);
      EntriesSnoc(entries, path, if compiled.Success? then compiled.value else []);
      assert e.name !in EntryNames(init) by {
        forall k | 0 <= k < |init|
          ensures EntryNames(init)[k] != e.name
        {
          assert entries[k].name != entries[|entries| - 1].name;
        }
      }
      if compiled.Success? {
        PatchedEntryNames(init, path, compiled.value);
      }
    }
  }

  /** Splitting off the last entry, for the class entry test and for the patched entries. */
  lemma EntriesSnoc(entries: seq<Entry>, path: string, data: seq<bv8>)
    requires |entries| > 0
    ensures entries[..|entries| - 1] + [entries[|entries| - 1]] == entries
    ensures HasEntry(entries, path) <==> HasEntry(entries[..|entries| - 1], path) || entries[|entries| - 1].name == path
    ensures PatchedEntries(entries, path, data) ==
      PatchedEntries(entries[..|entries| - 1], path, data) + [PatchedEntries(entries, path, data)[|entries| - 1]]
  {
    var init := entries[..|entries| - 1];
    assert forall k :: 0 <= k < |init| ==> init[k] == entries[k];
  }

  /** Patching keeps every name. */
  lemma PatchedEntryNames(entries: seq<Entry>, path: string, data: seq<bv8>)
    ensures EntryNames(PatchedEntries(entries, path, data)) == EntryNames(entries)
  {
  }

  /**
   * The outcome of the entry loop. A compiler fault wins when the class
   * entry comes no later than the first repeated name; otherwise a
   * repeated name stops the loop there; with all names distinct the jar is
   * copied unchanged when it has no class entry, and patched when the
   * class compiles.
   */
  lemma CopyLoopOutcome(entries: seq<Entry>, path: string, compiled: Result<seq<bv8>, CompileFault>)
    ensures compiled.Failure? && HasEntry(Attempted(entries), path) ==>
      CopyLoop(entries, path, compiled) == Failure(CompileFailed(compiled.error))
    ensures !(compiled.Failure? && HasEntry(Attempted(entries), path)) && FirstRepeat(entries) < |entries| ==>
      CopyLoop(entries, path, compiled) ==
        Failure(RepeatedName(entries[FirstRepeat(entries)].name, FirstRepeat(entries)))
    ensures FirstRepeat(entries) == |entries| && !HasEntry(entries, path) ==>
      CopyLoop(entries, path, compiled) == Success(entries)
    ensures FirstRepeat(entries) == |entries| && compiled.Success? ==>
      CopyLoop(entries, path, compiled) == Success(PatchedEntries(entries, path, compiled.value))
  {
    var n := FirstRepeat(entries);
    FirstRepeatPrefix(entries);
    if n == |entries| {
      assert entries[..n] == entries;
      CopyLoopDistinct(entries, path, compiled);
    } else {
      assert Attempted(entries) == entries[..n + 1];
      CopyLoopAtRepeat(entries, path, compiled);
      CopyLoopPrefixFails(entries, n + 1, path, compiled);
    }
  }

  /** The loop up to the first repeated name stops there, or earlier at the compiler's fault. */
  lemma CopyLoopAtRepeat(entries: seq<Entry>, path: string, compiled: Result<seq<bv8>, CompileFault>)
    requires FirstRepeat(entries) < |entries|
    ensures var n := FirstRepeat(entries);
      CopyLoop(entries[..n + 1], path, compiled) ==
        if compiled.Failure? && HasEntry(entries[..n + 1], path) then Failure(CompileFailed(compiled.error))
        else Failure(RepeatedName(entries[n].name, n))
  {
    var n := FirstRepeat(entries);
    FirstRepeatPrefix(entries);
    var pre := entries[..n];
    var pre1 := entries[..n + 1];
    var e := entries[n];
    assert pre1[..n] == pre && pre1[n] == e;
    EntriesSnoc(pre1, path, []);
    CopyLoopDistinct(pre, path, compiled);
    var prev := CopyLoop(pre, path, compiled);
    if prev.Success? {
      if compiled.Success? {
        PatchedEntryNames(pre, path, compiled.value);
      }
      assert EntryNames(prev.value) == EntryNames(pre);
    }
  }

  /** Once a prefix of the entries fails, the whole loop fails the same way. */
  lemma {:induction false} CopyLoopPrefixFails(entries: seq<Entry>, n: nat, path: string, compiled: Result<seq<bv8>, CompileFault>)
    requires n <= |entries| && CopyLoop(entries[..n], path, compiled).Failure?
    ensures CopyLoop(entries, path, compiled) == CopyLoop(entries[..n], path, compiled)
    decreases |entries| - n
  {
    if n < |entries| {
      assert entries[..n + 1][..n] == entries[..n];
      CopyLoopPrefixFails(entries, n + 1, path, compiled);
    } else {
      assert entries[..n] == entries;
    }
  }

  /** A loop that has not stopped under a failing compiler met no class entry. */
  lemma {:induction false} WrittenPrefixHasNoClass(entries: seq<Entry>, path: string, compiled: Result<seq<bv8>, CompileFault>)
    requires compiled.Failure? && CopyLoop(entries, path, compiled).Success?
    ensures !HasEntry(entries, path)
    decreases |entries|
  {
    if |entries| > 0 {
      var init := entries[..|entries| - 1];
      assert forall k :: 0 <= k < |init| ==> init[k] == entries[k];
      WrittenPrefixHasNoClass(init, path, compiled);
    }
  }

  /**
   * The try block's entry loop: the temporary jar is opened for writing
   * and every entry is written to it in order, the entry named `path`
   * compiled afresh. On a compiler fault or a repeated name the loop
   * stops; only the temporary jar has changed.
   */
  method WriteEntries(entries: seq<Entry>, path: string, modifiedJavaCode: string, simpleClassName: string,
                      classpath: seq<File>, compile: Compile, disk: Disk, tempJar: File)
    returns (outcome: Result<seq<Entry>, LoopFault>, ghost compileCalls: nat)
    modifies disk
    ensures outcome == CopyLoop(entries, path, compile(modifiedJavaCode, simpleClassName, classpath))
    ensures outcome.Success? ==>
      disk.jars == old(disk.jars)[tempJar := outcome.value] && compileCalls == CountNamed(entries, path)
    ensures outcome.Failure? ==> disk.jars - {tempJar} == old(disk.jars) - {tempJar}
    ensures outcome.Failure? && outcome.error.CompileFailed? ==> compileCalls == 1
    ensures outcome.Failure? && outcome.error.RepeatedName? ==>
      outcome.error.at < |entries| && compileCalls == CountNamed(entries[..outcome.error.at + 1], path)
  {
    compileCalls := 0;
    ghost var compiled := compile(modifiedJavaCode, simpleClassName, classpath);
    var written: seq<Entry> := [];
    var writtenNames: seq<string> := [];  // what the ZipOutputStream remembers
    ghost var before := disk.jars;
    disk.jars := disk.jars[tempJar := written];  // the JarOutputStream starts the jar afresh
    for i := 0 to |entries|
      invariant disk.jars == before[tempJar := written]
      invariant CopyLoop(entries[..i], path, compiled) == Success(written)
      invariant writtenNames == EntryNames(written)
      invariant compileCalls == CountNamed(entries[..i], path)
    {
      var entry := entries[i];
      var entryData, calls := EntryBytes(entry, path, modifiedJavaCode, simpleClassName, classpath, compile);
      compileCalls := compileCalls + calls;
      if entryData.Failure? {
        CompileStop(entries, i, path, compiled, written);
        UpdateThenRemove(before, tempJar, written);
        return Failure(CompileFailed(entryData.error)), compileCalls;
      }
      if entry.name in writtenNames {
        RepeatStop(entries, i, path, compiled, written);
        UpdateThenRemove(before, tempJar, written);
        return Failure(RepeatedName(entry.name, i)), compileCalls;
      }
      CopyLoopAppend(entries, i, path, compiled, written, entryData);
      written := written + [Entry(entry.name, entryData.value)];
      writtenNames := writtenNames + [entry.name];
      disk.jars := disk.jars[tempJar := written];
    }
    assert entries[..|entries|] == entries;
    outcome := Success(written);
  }

  /**
   * The bytes written for one entry: the class entry's are compiled
   * afresh, every other entry's are copied. `calls` counts the compiler's
   * invocations.
   */
  method EntryBytes(entry: Entry, path: string, modifiedJavaCode: string, simpleClassName: string,
                    classpath: seq<File>, compile: Compile)
    returns (data: Result<seq<bv8>, CompileFault>, ghost calls: nat)
    ensures entry.name == path ==> data == compile(modifiedJavaCode, simpleClassName, classpath) && calls == 1
    ensures entry.name != path ==> data == Success(entry.data) && calls == 0
  {
    if entry.name == path {
      data := compile(modifiedJavaCode, simpleClassName, classpath);
      calls := 1;
    } else {
      data := Success(entry.data);
      calls := 0;
    }
  }

  /** A class entry that fails to compile stops the whole loop; the compiler had not run before it. */
  lemma CompileStop(entries: seq<Entry>, i: nat, path: string, compiled: Result<seq<bv8>, CompileFault>,
                    written: seq<Entry>)
    requires i < |entries| && CopyLoop(entries[..i], path, compiled) == Success(written)
    requires entries[i].name == path && compiled.Failure?
    ensures CopyLoop(entries, path, compiled) == Failure(CompileFailed(compiled.error))
    ensures CountNamed(entries[..i], path) == 0
  {
    CopyLoopStep(entries, i, path, compiled, written);
    CopyLoopPrefixFails(entries, i + 1, path, compiled);
    WrittenPrefixHasNoClass(entries[..i], path, compiled);
    CountNamedAbsent(entries[..i], path);
  }

  /** A name already written stops the whole loop at its index. */
  lemma RepeatStop(entries: seq<Entry>, i: nat, path: string, compiled: Result<seq<bv8>, CompileFault>,
                   written: seq<Entry>)
    requires i < |entries| && CopyLoop(entries[..i], path, compiled) == Success(written)
    requires !(entries[i].name == path && compiled.Failure?) && entries[i].name in EntryNames(written)
    ensures CopyLoop(entries, path, compiled) == Failure(RepeatedName(entries[i].name, i))
    ensures CountNamed(entries[..i + 1], path) == CountNamed(entries[..i], path) + (if entries[i].name == path then 1 else 0)
  {
    CopyLoopStep(entries, i, path, compiled, written);
    CopyLoopPrefixFails(entries, i + 1, path, compiled);
  }

  /** One step of the entry loop after a prefix written as `written`. */
  lemma CopyLoopStep(entries: seq<Entry>, i: nat, path: string, compiled: Result<seq<bv8>, CompileFault>,
                     written: seq<Entry>)
    requires i < |entries| && CopyLoop(entries[..i], path, compiled) == Success(written)
    ensures entries[i].name == path && compiled.Failure? ==>
      CopyLoop(entries[..i + 1], path, compiled) == Failure(CompileFailed(compiled.error))
    ensures !(entries[i].name == path && compiled.Failure?) && entries[i].name in EntryNames(written) ==>
      CopyLoop(entries[..i + 1], path, compiled) == Failure(RepeatedName(entries[i].name, i))
    ensures !(entries[i].name == path && compiled.Failure?) && entries[i].name !in EntryNames(written) ==>
      CopyLoop(entries[..i + 1], path, compiled) ==
        Success(written + [if entries[i].name == path then Entry(path, compiled.value) else entries[i]])
    ensures CountNamed(entries[..i + 1], path) == CountNamed(entries[..i], path) + (if entries[i].name == path then 1 else 0)
  {
    assert entries[..i + 1][..i] == entries[..i];
  }

  /** The names of a sequence of entries with one more entry. */
  lemma CopyLoopAppend(entries: seq<Entry>, i: nat, path: string, compiled: Result<seq<bv8>, CompileFault>,
                       written: seq<Entry>, data: Result<seq<bv8>, CompileFault>)
    requires i < |entries| && CopyLoop(entries[..i], path, compiled) == Success(written)
    requires data == if entries[i].name == path then compiled else Success(entries[i].data)
    requires data.Success? && entries[i].name !in EntryNames(written)
    ensures CopyLoop(entries[..i + 1], path, compiled) == Success(written + [Entry(entries[i].name, data.value)])
    ensures EntryNames(written + [Entry(entries[i].name, data.value)]) == EntryNames(written) + [entries[i].name]
    ensures CountNamed(entries[..i + 1], path) == CountNamed(entries[..i], path) + (if entries[i].name == path then 1 else 0)
  {
    CopyLoopStep(entries, i, path, compiled, written);
    EntryNamesSnoc(written + [Entry(entries[i].name, data.value)]);
    assert (written + [Entry(entries[i].name, data.value)])[..|written|] == written;
  }

  lemma EntryNamesSnoc(written: seq<Entry>)
    requires |written| > 0
    ensures EntryNames(written) == EntryNames(written[..|written| - 1]) + [written[|written| - 1].name]
  {
  }

  /** Removing a key forgets what was written to it. */
  lemma UpdateThenRemove<K, V>(m: map<K, V>, k: K, v: V)
    ensures m[k := v] - {k} == m - {k}
  {
  }

  /** Writing a key twice keeps the second value. */
  lemma Overwrite<K, V>(m: map<K, V>, k: K, v: V, w: V)
    ensures m[k := v][k := w] == m[k := w]
  {
  }

  /** Copying the temporary jar to `target` and deleting it leaves only `target` changed. */
  lemma MoveCreated<K, V>(m: map<K, V>, temp: K, target: K, v: V)
    requires temp !in m && temp != target
    ensures m[temp := v][target := v] - {temp} == m[target := v]
  {
  }

  /** The entry loop of createPatchedJarFromModifiedClass over the entries of `jar`. */
  function ModifiedClassLoop(entries: seq<Entry>, className: string, modifiedJavaCode: string, compile: Compile,
                             jar: File, machine: Machine): Result<seq<Entry>, LoopFault>
  {
    CopyLoop(entries, ExpectedClassPath(className),
      compile(modifiedJavaCode, SimpleClassName(className), ClasspathFromJar(jar, machine)))
  }

  /**
   * createPatchedJarFromModifiedClass: the temporary jar receives every
   * entry in order, the matching class compiled afresh; on success it is
   * copied to the derived name next to the original and deleted, on any
   * failure it is deleted and the error propagates. `compileCalls` counts
   * the compiler's invocations.
   */
  method CreatePatchedJarFromModifiedClass(originalJar: File, className: string, modifiedJavaCode: string,
                                           compile: Compile, machine: Machine, disk: Disk, tempJar: File)
    returns (r: Result<File, PatchError>, ghost compileCalls: nat)
    modifies disk
    requires tempJar !in disk.jars && tempJar != originalJar && tempJar != PatchedFile(originalJar)
    ensures originalJar !in old(disk.jars) ==> r == Failure(CannotOpen) && compileCalls == 0
    ensures r.Failure? ==> disk.jars == old(disk.jars)
    ensures originalJar in old(disk.jars) ==>
      var outcome := ModifiedClassLoop(old(disk.jars)[originalJar], className, modifiedJavaCode, compile, originalJar, machine);
      (outcome.Failure? ==> r == Failure(PatchErrorOf(outcome.error, className))) &&
      (outcome.Failure? && outcome.error.CompileFailed? ==> compileCalls == 1) &&
      (outcome.Failure? && outcome.error.RepeatedName? ==>
        outcome.error.at < |old(disk.jars)[originalJar]| &&
        compileCalls == CountNamed(old(disk.jars)[originalJar][..outcome.error.at + 1], ExpectedClassPath(className))) &&
      (outcome.Success? ==>
        r == Success(PatchedFile(originalJar)) &&
        compileCalls == CountNamed(old(disk.jars)[originalJar], ExpectedClassPath(className)) &&
        disk.jars == old(disk.jars)[PatchedFile(originalJar) := outcome.value])
  {
    compileCalls := 0;
    disk.jars := disk.jars[tempJar := []];
    if originalJar !in disk.jars {
      DeleteCreated(old(disk.jars), tempJar, []);
      disk.jars := disk.jars - {tempJar};
      return Failure(CannotOpen), compileCalls;
    }
    var entries := disk.jars[originalJar];
    var classpath := GetClasspathFromJar(originalJar, machine);
    var simpleClassName := SimpleClassName(className);
    var expectedClassPath := ExpectedClassPath(className);
    ghost var started := disk.jars;
    assert entries == old(disk.jars)[originalJar];
    var outcome;
    outcome, compileCalls := WriteEntries(entries, expectedClassPath, modifiedJavaCode, simpleClassName,
                                          classpath, compile, disk, tempJar);
    assert outcome == ModifiedClassLoop(entries, className, modifiedJavaCode, compile, originalJar, machine);
    if outcome.Failure? {
      DeleteCreated(old(disk.jars), tempJar, []);
      assert disk.jars - {tempJar} == started - {tempJar} == old(disk.jars);
      disk.jars := disk.jars - {tempJar};
      return Failure(PatchErrorOf(outcome.error, className)), compileCalls;
    }
    var newName := PatchedName(originalJar.name);
    var patchedJar := File(originalJar.parent, newName);
    Overwrite(old(disk.jars), tempJar, [], outcome.value);
    assert disk.jars == old(disk.jars)[tempJar := outcome.value];
    MoveCreated(old(disk.jars), tempJar, patchedJar, outcome.value);
    disk.jars := disk.jars[patchedJar := disk.jars[tempJar]];
    disk.jars := disk.jars - {tempJar};
    return Success(patchedJar), compileCalls;
  }

  // ---------------------------------------------------------------------
  // createPatchedJarWithStringReplacement and replaceStringInClass
  // ---------------------------------------------------------------------

  /** The operand of an LDC instruction: a string constant or any other constant. */
  datatype LdcValue = StringLdc(s: string) | OtherLdc(id: int)

  /** The ASM ClassReader/ClassWriter: the LDC operands of a class's methods, and the class rewritten with new ones. */
  datatype Asm = Asm(ldcOperands: seq<bv8> -> seq<LdcValue>, rewrite: (seq<bv8>, seq<LdcValue>) -> seq<bv8>)

  /** The visitLdcInsn rule for one string constant. */
  function ReplaceConstant(str: string, oldString: string, newString: string): string
  {
    if str == oldString then newString
    else if Contains(str, oldString) then ReplaceAll(str, oldString, newString)
    else str
  }

  /** Replacing a whole string by itself as the target gives the replacement. */
  lemma ReplaceWhole(t: string, r: string)
    ensures ReplaceAll(t, t, r) == r
  {
    if |t| > 0 {
      assert t[..|t|] == t && t[|t|..] == "";
      assert ReplaceAll(t, t, r) == r + ReplaceAll("", t, r);
    } else {
      assert ReplaceAll(t, t, r) == InsertEverywhere("", r);
    }
  }

  /**
   * The three cases of the rule agree with one plain String.replace: the
   * equality test and the contains test change nothing about the result.
   */
  lemma ReplaceConstantIsReplace(str: string, oldString: string, newString: string)
    ensures ReplaceConstant(str, oldString, newString) == ReplaceAll(str, oldString, newString)
  {
    if str == oldString {
      ReplaceWhole(str, newString);
    } else if !Contains(str, oldString) {
      if |oldString| == 0 {
        assert StartsAt(str, 0, oldString);
      }
      ReplaceAllAbsent(str, oldString, newString);
    }
  }

  /** Every string operand follows the rule; every other operand is kept. */
  function ReplaceLdcs(ldcs: seq<LdcValue>, oldString: string, newString: string): (r: seq<LdcValue>)
    ensures |r| == |ldcs|
    ensures forall k :: 0 <= k < |ldcs| ==>
      r[k] == match ldcs[k]
        case StringLdc(s) => StringLdc(ReplaceConstant(s, oldString, newString))
        case OtherLdc(_) => ldcs[k]
  {
    seq(|ldcs|, k requires 0 <= k < |ldcs| =>
      match ldcs[k]
      case StringLdc(s) => StringLdc(ReplaceConstant(s, oldString, newString))
      case OtherLdc(_) => ldcs[k])
  }

  /** A class in which no string operand holds a non-empty `old` gets back operands equal to its own. */
  lemma ReplaceLdcsAbsent(ldcs: seq<LdcValue>, oldString: string, newString: string)
    requires |oldString| > 0
    requires forall k :: 0 <= k < |ldcs| && ldcs[k].StringLdc? ==> !Contains(ldcs[k].s, oldString)
    ensures ReplaceLdcs(ldcs, oldString, newString) == ldcs
  {
    var r := ReplaceLdcs(ldcs, oldString, newString);
    forall k | 0 <= k < |ldcs|
      ensures r[k] == ldcs[k]
    {
      if ldcs[k].StringLdc? {
        assert ldcs[k].s != oldString by {
          if ldcs[k].s == oldString {
            assert StartsAt(ldcs[k].s, 0, oldString);
          }
        }
      }
    }
  }

  /** replaceStringInClass */
  function ReplaceStringInClass(asm: Asm, classBytes: seq<bv8>, oldString: string, newString: string): seq<bv8>
  {
    asm.rewrite(classBytes, ReplaceLdcs(asm.ldcOperands(classBytes), oldString, newString))
  }

  /** Class entries are rewritten, every other entry copied; the names and their order stay. */
  function StringPatchedEntries(asm: Asm, entries: seq<Entry>, oldString: string, newString: string): (r: seq<Entry>)
    ensures |r| == |entries|
    ensures forall k :: 0 <= k < |entries| ==> r[k].name == entries[k].name
    ensures forall k :: 0 <= k < |entries| && !EndsWith(entries[k].name, ".class") ==> r[k] == entries[k]
    ensures forall k :: 0 <= k < |entries| && EndsWith(entries[k].name, ".class") ==>
      r[k].data == ReplaceStringInClass(asm, entries[k].data, oldString, newString)
  {
    seq(|entries|, k requires 0 <= k < |entries| =>
      if EndsWith(entries[k].name, ".class")
      then Entry(entries[k].name, ReplaceStringInClass(asm, entries[k].data, oldString, newString))
      else entries[k])
  }

  /**
   * createPatchedJarWithStringReplacement. Unlike the first variant it has
   * no handler: when the original jar cannot be opened the empty temporary
   * jar stays behind, and when putNextEntry refuses a repeated name the
   * temporary jar stays behind holding the entries written before it.
   */
  method CreatePatchedJarWithStringReplacement(originalJar: File, oldString: string, newString: string,
                                               asm: Asm, disk: Disk, tempJar: File)
    returns (r: Result<File, PatchError>)
    modifies disk
    requires tempJar !in disk.jars && tempJar != originalJar && tempJar != StringPatchedFile(originalJar)
    ensures originalJar !in old(disk.jars) ==>
      r == Failure(CannotOpen) && disk.jars == old(disk.jars)[tempJar := []]
    ensures originalJar in old(disk.jars) && FirstRepeat(old(disk.jars)[originalJar]) < |old(disk.jars)[originalJar]| ==>
      var entries := old(disk.jars)[originalJar];
      r == Failure(DuplicateEntry(entries[FirstRepeat(entries)].name)) &&
      disk.jars == old(disk.jars)[tempJar := StringPatchedEntries(asm, entries[..FirstRepeat(entries)], oldString, newString)]
    ensures originalJar in old(disk.jars) && FirstRepeat(old(disk.jars)[originalJar]) == |old(disk.jars)[originalJar]| ==>
      r == Success(StringPatchedFile(originalJar)) &&
      disk.jars == old(disk.jars)[StringPatchedFile(originalJar) :=
        StringPatchedEntries(asm, old(disk.jars)[originalJar], oldString, newString)]
  {
    disk.jars := disk.jars[tempJar := []];
    if originalJar !in disk.jars {
      return Failure(CannotOpen);
    }
    var entries := disk.jars[originalJar];
    var written: seq<Entry> := [];
    var writtenNames: seq<string> := [];  // what the ZipOutputStream remembers
    for i := 0 to |entries|
      invariant disk.jars == old(disk.jars)[tempJar := written]
      invariant written == StringPatchedEntries(asm, entries[..i], oldString, newString)
      invariant writtenNames == EntryNames(entries[..i])
      invariant forall k :: 0 <= k < i ==> !NameRepeated(entries, k)
    {
      var entry := entries[i];
      var entryData: seq<bv8>;
      if EndsWith(entry.name, ".class") {
        entryData := ReplaceStringInClass(asm, entry.data, oldString, newString);
      } else {
        entryData := entry.data;
      }
      assert entry.name in writtenNames <==> NameRepeated(entries, i) by {
        if entry.name in writtenNames {
          var j :| 0 <= j < i && writtenNames[j] == entry.name;
          assert entries[j].name == entry.name;
        }
      }
      if entry.name in writtenNames {
        FirstRepeatUnique(entries, i);
        return Failure(DuplicateEntry(entry.name));
      }
      written := written + [Entry(entry.name, entryData)];
      writtenNames := writtenNames + [entry.name];
      assert entries[..i + 1] == entries[..i] + [entry];
      disk.jars := disk.jars[tempJar := written];
    }
    assert entries[..|entries|] == entries;
    FirstRepeatUnique(entries, |entries|);
    var newName := StringPatchedName(originalJar.name);
    var patchedJar := File(originalJar.parent, newName);
    disk.jars := disk.jars[patchedJar := disk.jars[tempJar]];
    disk.jars := disk.jars - {tempJar};
    return Success(patchedJar);
  }
}
