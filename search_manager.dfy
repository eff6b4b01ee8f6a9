/**
 * SearchManager: text search in the decompiled code of the open class
 * and across the classes of the open plugin, and the navigation between
 * the matches found in the open class.
 *
 * Regular expressions stay abstract: a compiled pattern is a MatchFinder,
 * the spans `Matcher.find()` reports for a text, in order. The code area,
 * the plugin jar, its class list and the decompiler are inputs.
 */
module SearchManager {
  import opened JavaLang

  /** A match as the matcher reports it: `start` and `end` into the text. */
  datatype Span = Span(start: int, end: int)

  predicate SpansWithin(text: string, spans: seq<Span>)
  {
    forall k :: 0 <= k < |spans| ==> 0 <= spans[k].start <= spans[k].end <= |text|
  }

  /** A compiled pattern: every span it reports lies inside the text searched. */
  type MatchFinder = f: string -> seq<Span> | forall t :: SpansWithin(t, f(t))
    witness (t: string) => []

  /** SearchResult.TextPosition: a match with its 1-based line and column. */
  datatype TextPosition = TextPosition(start: int, end: int, line: int, column: int)

  /** SearchResult: the matches of one class. */
  datatype SearchResult = SearchResult(displayName: string, originalClassName: string, matches: seq<TextPosition>)

  // ---------------------------------------------------------------------
  // Line and column of a match
  // ---------------------------------------------------------------------

  /** The position record of a match: the pieces of the text before it, and the distance from the last line break. */
  function PositionOf(text: string, span: Span): TextPosition
    requires 0 <= span.start <= |text|
  {
    var before := text[..span.start];
    TextPosition(span.start, span.end, |SplitAll(before, '\n')|, span.start - LastIndexOf(before, '\n'))
  }

  /**
   * The line is one more than the number of line breaks before the match;
   * the column counts from 1 after the last of them, so the `column - 1`
   * characters before the match hold no line break and the one before
   * those, if any, is a line break.
   */
  lemma PositionIsLineAndColumn(text: string, span: Span)
    requires 0 <= span.start <= |text|
    ensures var p := PositionOf(text, span);
      p.start == span.start && p.end == span.end &&
      p.line == CountChar(text[..span.start], '\n') + 1 &&
      1 <= p.column <= span.start + 1 &&
      (forall k :: span.start - p.column < k < span.start ==> text[k] != '\n') &&
      (p.column <= span.start ==> text[span.start - p.column] == '\n')
  {
    var before := text[..span.start];
    SplitAllLength(before, '\n');
    CountCharAgree(before, '\n');
    var p := PositionOf(text, span);
    forall k | span.start - p.column < k < span.start
      ensures text[k] != '\n'
    {
      assert before[k] == text[k];
    }
  }

  /** On the first line the column is one more than the offset. */
  lemma FirstLineColumn(text: string, span: Span)
    requires 0 <= span.start <= |text|
    requires forall k :: 0 <= k < span.start ==> text[k] != '\n'
    ensures PositionOf(text, span).line == 1 && PositionOf(text, span).column == span.start + 1
  {
    var before := text[..span.start];
    assert '\n' !in before by {
      forall k | 0 <= k < |before|
        ensures before[k] != '\n'
      {
        assert before[k] == text[k];
      }
    }
    SplitAllNoSep(before, '\n');
  }

  /** The positions of the spans, in order. */
  function Positions(text: string, spans: seq<Span>): (r: seq<TextPosition>)
    requires SpansWithin(text, spans)
    ensures |r| == |spans|
    ensures forall k :: 0 <= k < |spans| ==> r[k] == PositionOf(text, spans[k])
  {
    seq(|spans|, k requires 0 <= k < |spans| => PositionOf(text, spans[k]))
  }

  /** The `while (matcher.find())` loop: one position per match, in order. */
  method CollectPositions(text: string, finder: MatchFinder) returns (found: seq<TextPosition>)
    ensures found == Positions(text, finder(text))
  {
    var spans := finder(text);
    found := [];
    var i := 0;
    while i < |spans|
      invariant 0 <= i <= |spans|
      invariant |found| == i
      invariant forall k :: 0 <= k < i ==> found[k] == PositionOf(text, spans[k])
    {
      var start := spans[i].start;
      var end := spans[i].end;
      var before := text[..start];
      var line := |SplitAll(before, '\n')|;
      var column := start - LastIndexOf(before, '\n');
      found := found + [TextPosition(start, end, line, column)];
      i := i + 1;
    }
  }

  // ---------------------------------------------------------------------
  // Navigation
  // ---------------------------------------------------------------------

  /** The index after `i` among `n` matches, wrapping to the first. */
  function NextIndex(i: int, n: nat): (r: int)
    requires n > 0
    ensures -1 <= i < n ==> 0 <= r < n
    ensures 0 <= i < n ==> r == (i + 1) % n
  {
    if i + 1 >= n then 0 else i + 1
  }

  /** The index before `i` among `n` matches, wrapping to the last. */
  function PrevIndex(i: int, n: nat): (r: int)
    requires n > 0
    ensures -1 <= i < n ==> 0 <= r < n
    ensures 0 <= i < n ==> r == (i - 1 + n) % n
    ensures i == -1 ==> r == n - 1
  {
    if i - 1 < 0 then n - 1 else i - 1
  }

  /** Going forward then back, or back then forward, returns to the same match. */
  lemma NextPrevInverse(i: int, n: nat)
    requires 0 <= i < n
    ensures PrevIndex(NextIndex(i, n), n) == i && NextIndex(PrevIndex(i, n), n) == i
  {
  }

  /** `k` steps forward from `i`. */
  function NextSteps(i: int, n: nat, k: nat): int
    requires n > 0
  {
    if k == 0 then i else NextIndex(NextSteps(i, n, k - 1), n)
  }

  /**
   * Stepping forward visits the matches cyclically: `k <= n` steps from `i`
   * reach `i + k`, wrapped once past the last match, so the `n` steps from
   * any match visit every match once and come back to it.
   */
  lemma {:induction false} NextStepsCycle(i: int, n: nat, k: nat)
    requires 0 <= i < n && k <= n
    ensures NextSteps(i, n, k) == if i + k < n then i + k else i + k - n
    ensures k == n ==> NextSteps(i, n, k) == i
  {
    if k > 0 {
      NextStepsCycle(i, n, k - 1);
    }
  }

  // ---------------------------------------------------------------------
  // Global search
  // ---------------------------------------------------------------------

  const MaxClassesToCheck := 100

  /** The list name of a class: ".class" dropped, slashes turned into dots. */
  function DisplayName(className: string): string
  {
    ReplaceAll(ReplaceAll(className, ".class", ""), "/", ".")
  }

  /** A class entry `a/b/C.class` whose path has no dot is listed as `a.b.C`. */
  lemma DisplayNameOfClassEntry(path: string)
    requires '.' !in path
    ensures DisplayName(path + ".class") == ReplaceChar(path, '/', '.')
  {
    ReplaceAllSkipsPrefix(path, ".class", ".class", "");
    assert ".class"[..|".class"|] == ".class" && ".class"[|".class"|..] == "";
    assert ReplaceAll(".class", ".class", "") == "" + ReplaceAll("", ".class", "");
    assert path + "" == path;
    ReplaceAllOneChar(path, '/', '.');
  }

  /** getMatchCount summed over the results. */
  function TotalMatches(results: seq<SearchResult>): int
  {
    if |results| == 0 then 0 else TotalMatches(results[..|results| - 1]) + |results[|results| - 1].matches|
  }

  /** The number of classes the decompiler can decompile. */
  function Decompiled(classes: seq<string>, decompile: string -> Option<string>): nat
  {
    if |classes| == 0 then 0
    else Decompiled(classes[..|classes| - 1], decompile) + (if decompile(classes[|classes| - 1]).Some? then 1 else 0)
  }

  function Min(a: int, b: int): int { if a <= b then a else b }

  datatype Scan = Scan(results: seq<SearchResult>, totalMatches: int, checkedCount: int)

  /**
   * The global search loop over `classes` in order. A class counts as
   * checked once decompiled; once 100 are checked the rest are skipped. A
   * pattern that fails to compile fails inside the per-class handler, so
   * classes are still counted but none matches.
   */
  function GlobalScan(classes: seq<string>, decompile: string -> Option<string>, pattern: Option<MatchFinder>): (r: Scan)
    ensures r.checkedCount == Min(MaxClassesToCheck, Decompiled(classes, decompile))
    ensures |r.results| <= r.checkedCount
    ensures r.totalMatches == TotalMatches(r.results)
    ensures forall k :: 0 <= k < |r.results| ==>
      |r.results[k].matches| > 0 && r.results[k].originalClassName in classes &&
      r.results[k].displayName == DisplayName(r.results[k].originalClassName)
    ensures pattern.None? ==> r.results == [] && r.totalMatches == 0
    decreases |classes|
  {
    if |classes| == 0 then Scan([], 0, 0)
    else
      var init := classes[..|classes| - 1];
      var prev := GlobalScan(init, decompile, pattern);
      var className := classes[|classes| - 1];
      assert forall c :: c in init ==> c in classes;
      if prev.checkedCount >= MaxClassesToCheck then prev
      else match decompile(className)
        case None => prev
        case Some(code) =>
          var checked := prev.checkedCount + 1;
          if pattern.None? then Scan(prev.results, prev.totalMatches, checked)
          else
            var matches := Positions(code, pattern.value(code));
            if |matches| == 0 then Scan(prev.results, prev.totalMatches, checked)
            else
              var results := prev.results + [SearchResult(DisplayName(className), className, matches)];
              assert results[..|results| - 1] == prev.results;
              Scan(results, prev.totalMatches + |matches|, checked)
  }

  /** The classes the decompiler can decompile, with their code, in list order. */
  function DecompiledClasses(classes: seq<string>, decompile: string -> Option<string>): (r: seq<(string, string)>)
    ensures |r| == Decompiled(classes, decompile)
  {
    if |classes| == 0 then []
    else
      var c := classes[|classes| - 1];
      DecompiledClasses(classes[..|classes| - 1], decompile) +
        (match decompile(c) case Some(code) => [(c, code)] case None => [])
  }

  /** The first `n` elements, or all of them when there are fewer. */
  function Take<T>(s: seq<T>, n: nat): (r: seq<T>)
    ensures |r| == Min(n, |s|)
  {
    if |s| <= n then s else s[..n]
  }

  /** A decompiled class whose code the pattern matches. */
  function HasMatches(pattern: MatchFinder): ((string, string)) -> bool
  {
    (cc: (string, string)) => |pattern(cc.1)| > 0
  }

  /**
   * The results a global search reports for the checked classes: one per
   * class whose code the pattern matches, in list order, with the
   * positions of all its matches.
   */
  function Hits(checked: seq<(string, string)>, pattern: MatchFinder): seq<SearchResult>
  {
    var hit := Filter(checked, HasMatches(pattern));
    seq(|hit|, k requires 0 <= k < |hit| =>
      SearchResult(DisplayName(hit[k].0), hit[k].0, Positions(hit[k].1, pattern(hit[k].1))))
  }

  /**
   * The global search is complete for the classes it checks: the first
   * 100 decompiled classes, in list order; it reports every one of them
   * whose code matches, with all its positions, and nothing else.
   */
  lemma {:induction false} GlobalScanHits(classes: seq<string>, decompile: string -> Option<string>, pattern: Option<MatchFinder>)
    ensures GlobalScan(classes, decompile, pattern).checkedCount == |Take(DecompiledClasses(classes, decompile), MaxClassesToCheck)|
    ensures pattern.Some? ==>
      GlobalScan(classes, decompile, pattern).results ==
        Hits(Take(DecompiledClasses(classes, decompile), MaxClassesToCheck), pattern.value)
    decreases |classes|
  {
    if |classes| > 0 && pattern.Some? {
      var init := classes[..|classes| - 1];
      var c := classes[|classes| - 1];
      GlobalScanHits(init, decompile, pattern);
      var di := DecompiledClasses(init, decompile);
      var prev := GlobalScan(init, decompile, pattern);
      if prev.checkedCount < MaxClassesToCheck {
        assert Take(di, MaxClassesToCheck) == di;
        match decompile(c)
        case None =>
          assert DecompiledClasses(classes, decompile) == di;
        case Some(code) =>
          var d := di + [(c, code)];
          assert DecompiledClasses(classes, decompile) == d;
          assert Take(d, MaxClassesToCheck) == d;
          HitsSnoc(di, (c, code), pattern.value);
          assert |Positions(code, pattern.value(code))| == |pattern.value(code)|;
      } else {
        var d := DecompiledClasses(classes, decompile);
        assert d[..|di|] == di;
        assert Take(d, MaxClassesToCheck) == Take(di, MaxClassesToCheck);
      }
    }
  }

  /** One more checked class adds its result when the pattern matches its code. */
  lemma HitsSnoc(checked: seq<(string, string)>, cc: (string, string), pattern: MatchFinder)
    ensures Hits(checked + [cc], pattern) ==
      Hits(checked, pattern) +
        (if |pattern(cc.1)| > 0 then [SearchResult(DisplayName(cc.0), cc.0, Positions(cc.1, pattern(cc.1)))] else [])
  {
    FilterSnoc(checked, cc, HasMatches(pattern));
  }

  /** One step of the global search loop, below the cap. */
  lemma ScanSnoc(init: seq<string>, c: string, decompile: string -> Option<string>, pattern: Option<MatchFinder>)
    requires GlobalScan(init, decompile, pattern).checkedCount < MaxClassesToCheck
    ensures decompile(c).None? ==> GlobalScan(init + [c], decompile, pattern) == GlobalScan(init, decompile, pattern)
    ensures decompile(c).Some? && (pattern.None? || |pattern.value(decompile(c).value)| == 0) ==>
      var prev := GlobalScan(init, decompile, pattern);
      GlobalScan(init + [c], decompile, pattern) == Scan(prev.results, prev.totalMatches, prev.checkedCount + 1)
    ensures decompile(c).Some? && pattern.Some? && |pattern.value(decompile(c).value)| > 0 ==>
      var prev := GlobalScan(init, decompile, pattern);
      var matches := Positions(decompile(c).value, pattern.value(decompile(c).value));
      GlobalScan(init + [c], decompile, pattern) ==
        Scan(prev.results + [SearchResult(DisplayName(c), c, matches)], prev.totalMatches + |matches|, prev.checkedCount + 1)
  {
    var classes := init + [c];
    assert classes[..|classes| - 1] == init && classes[|classes| - 1] == c;
  }

  /** Once 100 classes are checked, the remaining classes change nothing. */
  lemma {:induction false} ScanCapped(classes: seq<string>, n: nat, decompile: string -> Option<string>, pattern: Option<MatchFinder>)
    requires n <= |classes|
    requires GlobalScan(classes[..n], decompile, pattern).checkedCount >= MaxClassesToCheck
    ensures GlobalScan(classes, decompile, pattern) == GlobalScan(classes[..n], decompile, pattern)
    decreases |classes| - n
  {
    if n < |classes| {
      assert classes[..n + 1][..n] == classes[..n];
      ScanCapped(classes, n + 1, decompile, pattern);
    } else {
      assert classes[..n] == classes;
    }
  }

  /** The body of the submitted task, from the class list on. */
  method GlobalSearchLoop(allClasses: seq<string>, decompile: string -> Option<string>,
                          buildPattern: (string, bool, bool, bool) -> Option<MatchFinder>,
                          searchText: string, caseSensitive: bool, useRegex: bool)
    returns (results: seq<SearchResult>, totalMatches: int, checkedCount: int)
    ensures Scan(results, totalMatches, checkedCount)
      == GlobalScan(allClasses, decompile, buildPattern(searchText, caseSensitive, false, useRegex))
  {
    ghost var pattern := buildPattern(searchText, caseSensitive, false, useRegex);
    results := [];
    totalMatches := 0;
    var maxClassesToCheck := MaxClassesToCheck;
    checkedCount := 0;
    var i := 0;
    while i < |allClasses|
      invariant 0 <= i <= |allClasses|
      invariant Scan(results, totalMatches, checkedCount) == GlobalScan(allClasses[..i], decompile, pattern)
    {
      if checkedCount >= maxClassesToCheck {
        ScanCapped(allClasses, i, decompile, pattern);
        return;
      }
      assert allClasses[..i + 1] == allClasses[..i] + [allClasses[i]];
      ScanSnoc(allClasses[..i], allClasses[i], decompile, pattern);
      ghost var next := GlobalScan(allClasses[..i + 1], decompile, pattern);
      var className := allClasses[i];
      var code := decompile(className);
      if code.Some? {
        checkedCount := checkedCount + 1;
        var compiled := buildPattern(searchText, caseSensitive, false, useRegex);
        if compiled.Some? {
          var matches := CollectPositions(code.value, compiled.value);
          if |matches| != 0 {
            var displayName := DisplayName(className);
            results := results + [SearchResult(displayName, className, matches)];
            totalMatches := totalMatches + |matches|;
          }
        }
      }
      assert Scan(results, totalMatches, checkedCount) == next;
      i := i + 1;
    }
    assert allClasses[..i] == allClasses;
  }

  // ---------------------------------------------------------------------
  // The search manager
  // ---------------------------------------------------------------------

  /** What the IDE holds when a search starts. */
  datatype Workspace = Workspace(
    codeText: string,                                  // the code area's text
    currentJar: Option<File>,                          // the open plugin
    classesOf: File -> Option<seq<string>>,            // getClassesFromJar; None when it throws
    decompile: (File, string) -> Option<string>,       // decompileClassFromJar; None when it throws
    buildPattern: (string, bool, bool, bool) -> Option<MatchFinder>)  // None on PatternSyntaxException

  /** What a search reports to the user. */
  datatype SearchOutcome =
    | EmptySearchText                                  // the "empty search" warning
    | NoCode                                           // nothing decompiled yet
    | InvalidPattern                                   // the regular expression does not compile
    | LocalMatches(count: nat)                         // matches in the open class
    | NoPlugin                                         // no plugin open
    | GlobalSearchFailed                               // the class list could not be read
    | GlobalMatches(results: seq<SearchResult>, totalMatches: int, checkedCount: int)

  /** The decompiler on the classes of one jar. */
  function DecompilerOf(ws: Workspace, jar: File): string -> Option<string>
  {
    c => ws.decompile(jar, c)
  }

  /** What performGlobalSearch and its task report. */
  function GlobalOutcome(searchText: string, caseSensitive: bool, useRegex: bool, ws: Workspace): SearchOutcome
  {
    match ws.currentJar
    case None => NoPlugin
    case Some(jar) =>
      match ws.classesOf(jar)
      case None => GlobalSearchFailed
      case Some(classes) =>
        var scan := GlobalScan(classes, DecompilerOf(ws, jar), ws.buildPattern(searchText, caseSensitive, false, useRegex));
        GlobalMatches(scan.results, scan.totalMatches, scan.checkedCount)
  }

  class SearchManager {
    var searchResults: seq<TextPosition>
    var currentSearchIndex: int
    var lastSearchText: string

    /** The index is -1 (no match selected) or that of a match. */
    predicate Valid()
      reads this
    {
      -1 <= currentSearchIndex < |searchResults|
    }

    constructor ()
      ensures Valid()
      ensures searchResults == [] && currentSearchIndex == -1 && lastSearchText == ""
    {
      searchResults := [];
      currentSearchIndex := -1;
      lastSearchText := "";
    }

    /** highlightCurrentMatch: the match it selects, none when the index is out of range. */
    method HighlightCurrentMatch() returns (selected: Option<TextPosition>)
      ensures 0 <= currentSearchIndex < |searchResults| ==> selected == Some(searchResults[currentSearchIndex])
      ensures !(0 <= currentSearchIndex < |searchResults|) ==> selected == None
    {
      if currentSearchIndex < 0 || currentSearchIndex >= |searchResults| {
        return None;
      }
      selected := Some(searchResults[currentSearchIndex]);
    }

    /** navigateToNextMatch */
    method NavigateToNextMatch() returns (selected: Option<TextPosition>)
      requires Valid()
      modifies this
      ensures Valid()
      ensures searchResults == old(searchResults) && lastSearchText == old(lastSearchText)
      ensures |searchResults| == 0 ==> currentSearchIndex == old(currentSearchIndex) && selected == None
      ensures |searchResults| > 0 ==>
        currentSearchIndex == NextIndex(old(currentSearchIndex), |searchResults|) &&
        0 <= currentSearchIndex < |searchResults| && selected == Some(searchResults[currentSearchIndex])
    {
      if |searchResults| == 0 {
        return None;
      }
      currentSearchIndex := currentSearchIndex + 1;
      if currentSearchIndex >= |searchResults| {
        currentSearchIndex := 0;
      }
      selected := HighlightCurrentMatch();
    }

    /** navigateToPrevMatch */
    method NavigateToPrevMatch() returns (selected: Option<TextPosition>)
      requires Valid()
      modifies this
      ensures Valid()
      ensures searchResults == old(searchResults) && lastSearchText == old(lastSearchText)
      ensures |searchResults| == 0 ==> currentSearchIndex == old(currentSearchIndex) && selected == None
      ensures |searchResults| > 0 ==>
        currentSearchIndex == PrevIndex(old(currentSearchIndex), |searchResults|) &&
        0 <= currentSearchIndex < |searchResults| && selected == Some(searchResults[currentSearchIndex])
    {
      if |searchResults| == 0 {
        return None;
      }
      currentSearchIndex := currentSearchIndex - 1;
      if currentSearchIndex < 0 {
        currentSearchIndex := |searchResults| - 1;
      }
      selected := HighlightCurrentMatch();
    }

    /** resetSearch */
    method ResetSearch()
      modifies this
      ensures Valid()
      ensures searchResults == [] && currentSearchIndex == -1 && lastSearchText == old(lastSearchText)
    {
      searchResults := [];
      currentSearchIndex := -1;
    }

    /**
     * searchInCurrentClass: the previous results are dropped (unless there
     * is no code), then every match of the pattern in the code area's
     * text is recorded and the first one selected.
     */
    method SearchInCurrentClass(text: string, searchText: string, caseSensitive: bool, wholeWord: bool, useRegex: bool,
                                buildPattern: (string, bool, bool, bool) -> Option<MatchFinder>)
      returns (outcome: SearchOutcome)
      requires Valid()
      modifies this
      ensures Valid()
      ensures lastSearchText == old(lastSearchText)
      ensures |text| == 0 ==>
        outcome == NoCode && searchResults == old(searchResults) && currentSearchIndex == old(currentSearchIndex)
      ensures |text| > 0 ==>
        match buildPattern(searchText, caseSensitive, wholeWord, useRegex)
        case None => outcome == InvalidPattern && searchResults == [] && currentSearchIndex == -1
        case Some(finder) =>
          searchResults == Positions(text, finder(text)) && outcome == LocalMatches(|searchResults|) &&
          currentSearchIndex == (if |searchResults| == 0 then -1 else 0)
    {
      if |text| == 0 {
        return NoCode;
      }
      searchResults := [];
      currentSearchIndex := -1;
      var pattern := buildPattern(searchText, caseSensitive, wholeWord, useRegex);
      if pattern.None? {
        return InvalidPattern;
      }
      var foundResults := CollectPositions(text, pattern.value);
      var count := |foundResults|;
      searchResults := foundResults;
      if count != 0 {
        currentSearchIndex := 0;
      }
      outcome := LocalMatches(count);
    }

    /** performSearch: an empty search text changes nothing, not even the remembered text. */
    method PerformSearch(searchText: string, searchAllClasses: bool, caseSensitive: bool, wholeWord: bool,
                         useRegex: bool, ws: Workspace)
      returns (outcome: SearchOutcome)
      requires Valid()
      modifies this
      ensures Valid()
      ensures |searchText| == 0 ==>
        outcome == EmptySearchText && lastSearchText == old(lastSearchText) &&
        searchResults == old(searchResults) && currentSearchIndex == old(currentSearchIndex)
      ensures |searchText| > 0 ==> lastSearchText == searchText
      ensures |searchText| > 0 && searchAllClasses ==>
        outcome == GlobalOutcome(searchText, caseSensitive, useRegex, ws) &&
        searchResults == old(searchResults) && currentSearchIndex == old(currentSearchIndex)
      ensures |searchText| > 0 && !searchAllClasses && |ws.codeText| == 0 ==>
        outcome == NoCode && searchResults == old(searchResults) && currentSearchIndex == old(currentSearchIndex)
      ensures |searchText| > 0 && !searchAllClasses && |ws.codeText| > 0 ==>
        match ws.buildPattern(searchText, caseSensitive, wholeWord, useRegex)
        case None => outcome == InvalidPattern && searchResults == [] && currentSearchIndex == -1
        case Some(finder) =>
          searchResults == Positions(ws.codeText, finder(ws.codeText)) && outcome == LocalMatches(|searchResults|) &&
          currentSearchIndex == (if |searchResults| == 0 then -1 else 0)
    {
      if |searchText| == 0 {
        return EmptySearchText;
      }
      lastSearchText := searchText;
      if searchAllClasses {
        outcome := PerformGlobalSearch(searchText, caseSensitive, useRegex, ws);
      } else {
        outcome := SearchInCurrentClass(ws.codeText, searchText, caseSensitive, wholeWord, useRegex, ws.buildPattern);
      }
    }

    /** performGlobalSearch with its task run to completion; the open class's results are untouched. */
    method PerformGlobalSearch(searchText: string, caseSensitive: bool, useRegex: bool, ws: Workspace)
      returns (outcome: SearchOutcome)
      ensures outcome == GlobalOutcome(searchText, caseSensitive, useRegex, ws)
    {
      if ws.currentJar.None? {
        return NoPlugin;
      }
      var jar := ws.currentJar.value;
      var allClasses := ws.classesOf(jar);
      if allClasses.None? {
        return GlobalSearchFailed;
      }
      var decompile := DecompilerOf(ws, jar);
      var results, totalMatches, checkedCount := GlobalSearchLoop(allClasses.value, decompile, ws.buildPattern,
                                                                   searchText, caseSensitive, useRegex);
      outcome := GlobalMatches(results, totalMatches, checkedCount);
    }
  }
}
