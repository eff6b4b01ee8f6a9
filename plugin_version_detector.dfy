/**
 * PluginVersionDetector: the Minecraft version a plugin jar targets, read
 * from its descriptors (plugin.yml, paper-plugin.yml, bungee.yml), else
 * from its class names, else "1.20"; and the plugin.yml fields collected
 * into a PluginInfo.
 *
 * Each regular expression of the source is a recognizer for its own shape
 * that makes the choices java.util.regex makes (greedy and lazy
 * quantifiers, backtracking order, leftmost match for find()).
 */
module PluginVersionDetector {
  import opened JavaLang
  import opened VersionUtils

  /**
   * A plugin jar: the entry names in the order the jar lists them, and the
   * text of each entry, None when reading it fails.  A jar that cannot be
   * opened at all is a None in place of the JarView.
   */
  datatype JarView = JarView(names: seq<string>, texts: map<string, Option<string>>)

  // ---------------------------------------------------------------------
  // Regular-expression building blocks
  // ---------------------------------------------------------------------

  /** End of the longest run of `\s` characters starting at i. */
  function SpaceRunEnd(s: string, i: nat): (e: nat)
    requires i <= |s|
    ensures i <= e <= |s|
    ensures forall k :: i <= k < e ==> IsSpace(s[k])
    ensures e < |s| ==> !IsSpace(s[e])
    decreases |s| - i
  {
    if i < |s| && IsSpace(s[i]) then SpaceRunEnd(s, i + 1) else i
  }

  /** `["']?`, greedy: the index after an optional quote at w. */
  function QuoteSkip(s: string, w: nat): (q: nat)
    requires w <= |s|
    ensures q == w || (q == w + 1 && w < |s| && IsQuote(s[w]))
    ensures q <= |s|
  {
    if w < |s| && IsQuote(s[w]) then w + 1 else w
  }

  /** `\b`, with the ASCII word characters. */
  predicate WordBoundary(s: string, p: nat)
    requires p <= |s|
  {
    (p > 0 && IsWordChar(s[p - 1])) != (p < |s| && IsWordChar(s[p]))
  }

  predicate ShortNumber(t: string)
  {
    1 <= |t| <= 2 && AllDigits(t)
  }

  /** The ends `[0-9]{1,2}` can take at p, longest first. */
  function ShortNumberEnds(s: string, p: nat): (r: seq<nat>)
    requires p <= |s|
    ensures forall k :: 0 <= k < |r| ==> p < r[k] <= |s| && ShortNumber(s[p..r[k]])
  {
    if p < |s| && IsDigit(s[p]) then
      if p + 1 < |s| && IsDigit(s[p + 1]) then [p + 2, p + 1] else [p + 1]
    else []
  }

  /** The ends `(\.[0-9]{1,2})?` can take at m, in the order they are tried. */
  function PatchEnds(s: string, m: nat): (r: seq<nat>)
    requires m <= |s|
    ensures forall k :: 0 <= k < |r| ==>
      m <= r[k] <= |s| && (r[k] == m || (m < r[k] && s[m] == '.' && ShortNumber(s[m + 1..r[k]])))
  {
    (if m < |s| && s[m] == '.' then ShortNumberEnds(s, m + 1) else []) + [m]
  }

  /** s[i..e] spells "1." and a short number ending at m, then optionally "." and a short number. */
  predicate TokenVia(s: string, i: nat, m: nat, e: nat)
  {
    i + 2 < m <= e <= |s| && StartsAt(s, i, "1.") && ShortNumber(s[i + 2..m]) &&
    (e == m || (m < e && s[m] == '.' && ShortNumber(s[m + 1..e])))
  }

  /**
   * Every end the group `1\.[0-9]{1,2}(\.[0-9]{1,2})?` can take at i, in the
   * order the matcher tries them; empty when it cannot start there.
   */
  function VersionTokenEnds(s: string, i: nat): (r: seq<nat>)
    requires i <= |s|
    ensures forall k :: 0 <= k < |r| ==> TokenVia(s, i, i + 3, r[k]) || TokenVia(s, i, i + 4, r[k])
  {
    if StartsAt(s, i, "1.") then
      var ms := ShortNumberEnds(s, i + 2);
      if |ms| == 0 then []
      else if |ms| == 1 then PatchEnds(s, ms[0])
      else PatchEnds(s, ms[0]) + PatchEnds(s, ms[1])
    else []
  }

  /** A dot at m splits "1.<short>.<short>". */
  predicate TokenDotAt(t: string, m: nat)
  {
    2 < m < |t| && t[m] == '.' && ShortNumber(t[2..m]) && ShortNumber(t[m + 1..])
  }

  /** String.matches("1\\.[0-9]{1,2}(\\.[0-9]{1,2})?") */
  predicate IsVersionToken(t: string)
  {
    |t| >= 3 && t[0] == '1' && t[1] == '.' && (ShortNumber(t[2..]) || TokenDotAt(t, 3) || TokenDotAt(t, 4))
  }

  lemma TokenViaSpells(s: string, i: nat, m: nat, e: nat)
    requires TokenVia(s, i, m, e)
    ensures IsVersionToken(s[i..e])
  {
    var t := s[i..e];
    assert s[i..i + 2] == "1.";
    assert t[0] == s[i] && t[1] == s[i + 1];
    assert t[2..m - i] == s[i + 2..m] by {
      var a, b := t[2..m - i], s[i + 2..m];
      assert |a| == |b| && forall k :: 0 <= k < |a| ==> a[k] == b[k];
    }
    if e == m {
      assert t[2..] == s[i + 2..m];
    } else {
      assert t[m - i] == s[m];
      assert t[m - i + 1..] == s[m + 1..e];
      assert TokenDotAt(t, m - i);
    }
  }

  /** Every way the group can end spells a whole version token. */
  lemma EndsSpellTokens(s: string, i: nat, e: nat)
    requires i <= |s| && e in VersionTokenEnds(s, i)
    ensures IsVersionToken(s[i..e])
  {
    if TokenVia(s, i, i + 3, e) {
      TokenViaSpells(s, i, i + 3, e);
    } else {
      TokenViaSpells(s, i, i + 4, e);
    }
  }

  /** A version token splits on '.' into "1" and one or two short numbers. */
  lemma TokenParts(t: string) returns (parts: seq<string>)
    requires IsVersionToken(t)
    ensures parts == JavaSplit(t, '.')
    ensures (|parts| == 2 || |parts| == 3) && parts[0] == "1"
    ensures forall j :: 1 <= j < |parts| ==> ShortNumber(parts[j])
    ensures |parts| == 2 ==> t == parts[0] + "." + parts[1]
    ensures |parts| == 3 ==> t == parts[0] + "." + parts[1] + "." + parts[2]
  {
    if ShortNumber(t[2..]) {
      parts := ["1", t[2..]];
      assert t == "1" + ['.'] + t[2..];
      SplitTwo("1", t[2..], '.');
    } else {
      var m: nat := if TokenDotAt(t, 3) then 3 else 4;
      parts := ["1", t[2..m], t[m + 1..]];
      assert t == "1" + ['.'] + t[2..m] + ['.'] + t[m + 1..];
      SplitThree("1", t[2..m], t[m + 1..], '.');
    }
  }

  /** Characters of a token: digits and dots only. */
  lemma TokenChars(t: string)
    requires IsVersionToken(t)
    ensures forall k :: 0 <= k < |t| ==> IsDigit(t[k]) || t[k] == '.'
  {
    var parts := TokenParts(t);
  }

  /** The McVersion constructor accepts t, and the major it reads is 0 or 1. */
  predicate Buildable(t: string)
  {
    NewVersion(Some(t)).Success? && 0 <= NewVersion(Some(t)).value.major <= 1
  }

  /** A token builds a version with major 1. */
  lemma TokenVersion(t: string)
    requires IsVersionToken(t)
    ensures Buildable(t) && NewVersion(Some(t)).value.major == 1
  {
    var parts := TokenParts(t);
    ParseOne();
    TokenChars(t);
    TrimNoSpace(t);
  }

  /** A target whose first character does not occur does not occur either. */
  lemma AbsentHead(s: string, t: string)
    requires |t| > 0 && forall k :: 0 <= k < |s| ==> s[k] != t[0]
    ensures !Contains(s, t)
  {
    forall i: nat | i <= |s|
      ensures !StartsAt(s, i, t)
    {
      if i + |t| <= |s| {
        assert s[i..i + |t|][0] == s[i];
      }
    }
  }

  // ---------------------------------------------------------------------
  // normalizeVersion
  // ---------------------------------------------------------------------

  /** trim, then drop every `"`, `'`, `v` and `V`. */
  function Clean(version: string): string
  {
    ReplaceAll(ReplaceAll(ReplaceAll(ReplaceAll(Trim(version), "\"", ""), "'", ""), "v", ""), "V", "")
  }

  /** normalizeVersion */
  function NormalizeVersion(version: Option<string>): Option<string>
  {
    if version.None? then None
    else
      var cleaned := Clean(version.value);
      if !IsVersionToken(cleaned) then None
      else
        var parts := JavaSplit(cleaned, '.');
        if |parts| >= 2 then
          if |parts| >= 3 then Some(parts[0] + "." + parts[1] + "." + parts[2])
          else Some(parts[0] + "." + parts[1])
        else None
  }

  /** normalizeVersion returns the cleaned text exactly when it is a version token. */
  lemma NormalizeVersionCleans(version: Option<string>)
    ensures NormalizeVersion(version) ==
      if version.Some? && IsVersionToken(Clean(version.value)) then Some(Clean(version.value)) else None
  {
    if version.Some? && IsVersionToken(Clean(version.value)) {
      var parts := TokenParts(Clean(version.value));
    }
  }

  /** A version token is left as it is by the cleaning. */
  lemma CleanToken(t: string)
    requires IsVersionToken(t)
    ensures Clean(t) == t
  {
    TokenChars(t);
    TrimNoSpace(t);
    AbsentHead(t, "\"");
    ReplaceAllAbsent(t, "\"", "");
    AbsentHead(t, "'");
    ReplaceAllAbsent(t, "'", "");
    AbsentHead(t, "v");
    ReplaceAllAbsent(t, "v", "");
    AbsentHead(t, "V");
    ReplaceAllAbsent(t, "V", "");
  }

  /** normalizeVersion is idempotent on its non-null results. */
  lemma NormalizeVersionIdempotent(version: Option<string>)
    requires NormalizeVersion(version).Some?
    ensures NormalizeVersion(NormalizeVersion(version)) == NormalizeVersion(version)
    ensures IsVersionToken(NormalizeVersion(version).value)
  {
    NormalizeVersionCleans(version);
    var t := NormalizeVersion(version).value;
    CleanToken(t);
    NormalizeVersionCleans(Some(t));
  }

  // ---------------------------------------------------------------------
  // parseVersionFromYml
  // ---------------------------------------------------------------------

  /** `key:\s*["']?(TOKEN)["']?`, or the bare `\b(TOKEN)\b`; all case-insensitive. */
  datatype YmlPattern = Keyed(key: string) | BareToken

  const YmlPatterns: seq<YmlPattern> :=
    [Keyed("api-version"), Keyed("mc-version"), Keyed("minecraft"), Keyed("server-version"),
     Keyed("version"), BareToken]

  /** A match: the bounds of the version group and the end of the whole match. */
  datatype Hit = Hit(groupStart: nat, groupEnd: nat, end: nat)

  /** The first end in `ends` followed by a word boundary. */
  function FirstBoundary(s: string, ends: seq<nat>): (r: Option<nat>)
    requires forall k :: 0 <= k < |ends| ==> ends[k] <= |s|
    ensures r.Some? ==> r.value in ends && WordBoundary(s, r.value)
  {
    if |ends| == 0 then None
    else if WordBoundary(s, ends[0]) then Some(ends[0])
    else FirstBoundary(s, ends[1..])
  }

  /**
   * A match of p starting at i.  For a keyed pattern `\s*` and the quote
   * are taken greedily: giving either back leaves a space or a quote where
   * the group needs a '1'.  The trailing quote is optional, so the group
   * keeps its longest end.
   */
  function YmlMatchAt(p: YmlPattern, s: string, i: nat): (h: Option<Hit>)
    requires i <= |s|
    ensures h.Some? ==> i <= h.value.groupStart < h.value.groupEnd <= h.value.end <= |s|
    ensures h.Some? ==> h.value.groupEnd in VersionTokenEnds(s, h.value.groupStart)
  {
    match p
    case Keyed(key) =>
      if StartsAtIgnoreCase(s, i, key + ":") then
        var q := QuoteSkip(s, SpaceRunEnd(s, i + |key| + 1));
        var ends := VersionTokenEnds(s, q);
        if |ends| == 0 then None
        else Some(Hit(q, ends[0], QuoteSkip(s, ends[0])))
      else None
    case BareToken =>
      if WordBoundary(s, i) then
        match FirstBoundary(s, VersionTokenEnds(s, i))
        case Some(e) => Some(Hit(i, e, e))
        case None => None
      else None
  }

  /** Matcher.find from index i. */
  function YmlFindFrom(p: YmlPattern, s: string, i: nat): (h: Option<Hit>)
    requires i <= |s|
    ensures h.Some? ==> i <= h.value.groupStart < h.value.groupEnd <= h.value.end <= |s|
    ensures h.Some? ==> h.value.groupEnd in VersionTokenEnds(s, h.value.groupStart)
    decreases |s| - i
  {
    var here := YmlMatchAt(p, s, i);
    if here.Some? then here
    else if i == |s| then None
    else YmlFindFrom(p, s, i + 1)
  }

  /** The `while (m.find())` loop of one pattern: the first accepted match. */
  function AcceptedFrom(p: YmlPattern, s: string, from: nat): Option<string>
    requires from <= |s|
    decreases |s| - from
  {
    match YmlFindFrom(p, s, from)
    case None => None
    case Some(h) =>
      var version := s[h.groupStart..h.groupEnd];
      if IsVersionToken(version) && NormalizeVersion(Some(version)).Some? then NormalizeVersion(Some(version))
      else AcceptedFrom(p, s, h.end)
  }

  /** The patterns from index k on; the first one with an accepted match wins. */
  function YmlVersionFrom(s: string, k: nat): Option<string>
    requires k <= |YmlPatterns|
    decreases |YmlPatterns| - k
  {
    if k == |YmlPatterns| then None
    else
      match AcceptedFrom(YmlPatterns[k], s, 0)
      case Some(v) => Some(v)
      case None => YmlVersionFrom(s, k + 1)
  }

  function YmlVersion(ymlContent: string): Option<string>
  {
    YmlVersionFrom(ymlContent, 0)
  }

  method ParseVersionFromYml(ymlContent: string) returns (r: Option<string>)
    ensures r == YmlVersion(ymlContent)
  {
    var s := ymlContent;
    var k := 0;
    while k < |YmlPatterns|
      invariant 0 <= k <= |YmlPatterns|
      invariant YmlVersionFrom(s, k) == YmlVersion(s)
    {
      var p := YmlPatterns[k];
      var from := 0;
      var searching := true;
      while searching
        invariant from <= |s|
        invariant searching ==> AcceptedFrom(p, s, from) == AcceptedFrom(p, s, 0)
        invariant !searching ==> AcceptedFrom(p, s, 0).None?
        decreases |s| - from, searching
      {
        var m := YmlFindFrom(p, s, from);
        if m.None? {
          searching := false;
        } else {
          var version := s[m.value.groupStart..m.value.groupEnd];
          if IsVersionToken(version) {
            var normalized := NormalizeVersion(Some(version));
            if normalized.Some? {
              return normalized;
            }
          }
          from := m.value.end;
        }
      }
      k := k + 1;
    }
    return None;
  }

  /** Every match is accepted, so each pattern yields its first match's group. */
  lemma AcceptedIsFirstMatch(p: YmlPattern, s: string, from: nat)
    requires from <= |s|
    ensures AcceptedFrom(p, s, from).Some? <==> YmlFindFrom(p, s, from).Some?
    ensures YmlFindFrom(p, s, from).Some? ==>
      var h := YmlFindFrom(p, s, from).value;
      AcceptedFrom(p, s, from) == Some(s[h.groupStart..h.groupEnd])
  {
    var m := YmlFindFrom(p, s, from);
    if m.Some? {
      var t := s[m.value.groupStart..m.value.groupEnd];
      EndsSpellTokens(s, m.value.groupStart, m.value.groupEnd);
      CleanToken(t);
      NormalizeVersionCleans(Some(t));
    }
  }

  /**
   * parseVersionFromYml: the group of the first pattern, in priority order,
   * that matches anywhere; such a result is a version token of major 1.
   */
  lemma {:induction false} YmlVersionFromFirstPattern(s: string, k: nat)
    requires k <= |YmlPatterns|
    ensures k < |YmlPatterns| && YmlFindFrom(YmlPatterns[k], s, 0).Some? ==>
      var h := YmlFindFrom(YmlPatterns[k], s, 0).value;
      YmlVersionFrom(s, k) == Some(s[h.groupStart..h.groupEnd])
    ensures k < |YmlPatterns| && YmlFindFrom(YmlPatterns[k], s, 0).None? ==>
      YmlVersionFrom(s, k) == YmlVersionFrom(s, k + 1)
    ensures YmlVersionFrom(s, k).Some? ==>
      IsVersionToken(YmlVersionFrom(s, k).value) &&
      NewVersion(YmlVersionFrom(s, k)).Success? && NewVersion(YmlVersionFrom(s, k)).value.major == 1
    decreases |YmlPatterns| - k
  {
    if k < |YmlPatterns| {
      AcceptedIsFirstMatch(YmlPatterns[k], s, 0);
      var m := YmlFindFrom(YmlPatterns[k], s, 0);
      if m.Some? {
        EndsSpellTokens(s, m.value.groupStart, m.value.groupEnd);
        TokenVersion(s[m.value.groupStart..m.value.groupEnd]);
      } else {
        YmlVersionFromFirstPattern(s, k + 1);
      }
    }
  }

  // ---------------------------------------------------------------------
  // The descriptor files
  // ---------------------------------------------------------------------

  /** detectFromPluginYml / detectFromPaperPluginYml on the entry `entryName`. */
  function YmlEntryVersion(jar: Option<JarView>, entryName: string): Option<string>
  {
    if jar.None? || entryName !in jar.value.texts then None
    else
      match jar.value.texts[entryName]
      case None => None
      case Some(content) => YmlVersion(content)
  }

  /** detectFromPluginYml and detectFromPaperPluginYml, which differ only in the entry read. */
  method DetectFromYmlEntry(jar: Option<JarView>, entryName: string) returns (r: Option<string>)
    ensures r == YmlEntryVersion(jar, entryName)
  {
    if jar.None? || entryName !in jar.value.texts {
      return None;
    }
    var text := jar.value.texts[entryName];
    if text.None? {
      return None;
    }
    r := ParseVersionFromYml(text.value);
  }

  predicate IsVersionChar(c: char) { IsDigit(c) || c == '.' }

  /** End of the longest run of [0-9.] starting at i. */
  function VersionCharRunEnd(s: string, i: nat): (e: nat)
    requires i <= |s|
    ensures i <= e <= |s|
    ensures forall k :: i <= k < e ==> IsVersionChar(s[k])
    ensures e < |s| ==> !IsVersionChar(s[e])
    decreases |s| - i
  {
    if i < |s| && IsVersionChar(s[i]) then VersionCharRunEnd(s, i + 1) else i
  }

  /** `version:\s*["']?([0-9.]+)["']?` at i (case-sensitive): the group's bounds. */
  function BungeeMatchAt(s: string, i: nat): (m: Option<(nat, nat)>)
    requires i <= |s|
    ensures m.Some? ==> i < m.value.0 < m.value.1 <= |s|
  {
    if StartsAt(s, i, "version:") then
      var q := QuoteSkip(s, SpaceRunEnd(s, i + 8));
      var e := VersionCharRunEnd(s, q);
      if e > q then Some((q, e)) else None
    else None
  }

  function BungeeFindFrom(s: string, i: nat): (m: Option<(nat, nat)>)
    requires i <= |s|
    ensures m.Some? ==> i < m.value.0 < m.value.1 <= |s|
    decreases |s| - i
  {
    var here := BungeeMatchAt(s, i);
    if here.Some? then here
    else if i == |s| then None
    else BungeeFindFrom(s, i + 1)
  }

  /** detectFromBungeeYml */
  function BungeeYmlVersion(jar: Option<JarView>): Option<string>
  {
    if jar.None? || "bungee.yml" !in jar.value.texts then None
    else
      match jar.value.texts["bungee.yml"]
      case None => None
      case Some(content) =>
        match BungeeFindFrom(content, 0)
        case Some((a, b)) => NormalizeVersion(Some(content[a..b]))
        case None => None
  }

  /** A bungee.yml result is a version token too. */
  lemma BungeeYmlVersionIsToken(jar: Option<JarView>)
    ensures BungeeYmlVersion(jar).Some? ==>
      IsVersionToken(BungeeYmlVersion(jar).value) && Buildable(BungeeYmlVersion(jar).value) &&
      NewVersion(BungeeYmlVersion(jar)).value.major == 1
  {
    if jar.Some? && "bungee.yml" in jar.value.texts && jar.value.texts["bungee.yml"].Some? {
      var content := jar.value.texts["bungee.yml"].value;
      var m := BungeeFindFrom(content, 0);
      if m.Some? {
        NormalizeVersionCleans(Some(content[m.value.0..m.value.1]));
        if BungeeYmlVersion(jar).Some? {
          TokenVersion(BungeeYmlVersion(jar).value);
        }
      }
    }
  }

  // ---------------------------------------------------------------------
  // detectFromClasses and convertVersionCode
  // ---------------------------------------------------------------------

  predicate IsCodeChar(c: char) { c == 'R' || IsDigit(c) }

  /** End of the longest run of [R0-9] starting at i. */
  function CodeRunEnd(s: string, i: nat): (e: nat)
    requires i <= |s|
    ensures i <= e <= |s|
    ensures forall k :: i <= k < e ==> IsCodeChar(s[k])
    decreases |s| - i
  {
    if i < |s| && IsCodeChar(s[i]) then CodeRunEnd(s, i + 1) else i
  }

  /**
   * The group `1_[0-9]{1,2}_[R0-9]*` at j: its end.  Two digits are tried
   * before one; the final run has nothing after it, so it is taken whole.
   */
  function UnderscoreCodeAt(s: string, j: nat): (e: Option<nat>)
    requires j <= |s|
    ensures e.Some? ==> j + 4 <= e.value <= |s|
  {
    if StartsAt(s, j, "1_") then
      if j + 4 < |s| && IsDigit(s[j + 2]) && IsDigit(s[j + 3]) && s[j + 4] == '_' then Some(CodeRunEnd(s, j + 5))
      else if j + 3 < |s| && IsDigit(s[j + 2]) && s[j + 3] == '_' then Some(CodeRunEnd(s, j + 4))
      else None
    else None
  }

  /** `v?(1_[0-9]{1,2}_[R0-9]*)` at m, the optional `v` tried first: the group's bounds. */
  function UnderscoreMatchAt(s: string, m: nat): (g: Option<(nat, nat)>)
    requires m <= |s|
    ensures g.Some? ==> m <= g.value.0 <= |s| && UnderscoreCodeAt(s, g.value.0) == Some(g.value.1)
  {
    if m < |s| && s[m] == 'v' && UnderscoreCodeAt(s, m + 1).Some? then Some((m + 1, UnderscoreCodeAt(s, m + 1).value))
    else
      match UnderscoreCodeAt(s, m)
      case Some(e) => Some((m, e))
      case None => None
  }

  function UnderscoreFindFrom(s: string, i: nat): (g: Option<(nat, nat)>)
    requires i <= |s|
    ensures g.Some? ==> i <= g.value.0 <= |s| && UnderscoreCodeAt(s, g.value.0) == Some(g.value.1)
    decreases |s| - i
  {
    var here := UnderscoreMatchAt(s, i);
    if here.Some? then here
    else if i == |s| then None
    else UnderscoreFindFrom(s, i + 1)
  }

  /** convertVersionCode */
  function ConvertVersionCode(versionCode: string): Option<string>
  {
    var code := ReplaceAll(ReplaceAll(versionCode, "v", ""), "_R", ".");
    var parts := JavaSplit(code, '.');
    if |parts| >= 2 then
      if |parts| >= 3 then Some(parts[0] + "." + parts[1] + "." + parts[2])
      else Some(parts[0] + "." + parts[1])
    else None
  }

  /** One step of String.replace past a position where the target does not start. */
  lemma ReplaceAllStep(s: string, t: string, r: string)
    requires 0 < |t| <= |s| && s[..|t|] != t
    ensures ReplaceAll(s, t, r) == [s[0]] + ReplaceAll(s[1..], t, r)
  {
  }

  lemma ReplaceAllMatchStep(s: string, t: string, r: string)
    requires 0 < |t| <= |s| && s[..|t|] == t
    ensures ReplaceAll(s, t, r) == r + ReplaceAll(s[|t|..], t, r)
  {
  }

  /**
   * convertVersionCode on a class-name code "1_<d>_<rest>": only a rest of
   * the form "R<more>" converts, to "1_<d>.<more>", whose major then reads 0
   * and whose minor is <more>.
   */
  lemma ConvertCode(d: string, rest: string)
    requires ShortNumber(d) && forall k :: 0 <= k < |rest| ==> IsCodeChar(rest[k])
    ensures ConvertVersionCode("1_" + d + "_" + rest) ==
      if |rest| >= 2 && rest[0] == 'R' then Some("1_" + d + "." + rest[1..]) else None
  {
    var g := "1_" + d + "_" + rest;
    CodeMarkers(d, rest);
    var a := "1_" + d;
    assert '.' !in a by { assert forall k :: 0 <= k < |d| ==> IsDigit(d[k]); }
    if |rest| >= 1 && rest[0] == 'R' {
      var code := "1_" + d + "." + rest[1..];
      if |rest| >= 2 {
        assert code == a + ['.'] + rest[1..];
        assert forall k :: 0 <= k < |rest[1..]| ==> IsCodeChar(rest[1..][k]);
        SplitTwo(a, rest[1..], '.');
      } else {
        assert code == a + ['.'] + "";
        SplitAllCons(a, "", '.');
        SplitAllNoSep("", '.');
        assert SplitAll(code, '.') == [a, ""];
        assert DropTrailingEmpty([a, ""]) == DropTrailingEmpty([a]);
      }
    } else {
      assert '.' !in g by { assert forall k :: 0 <= k < |rest| ==> IsCodeChar(rest[k]); }
    }
  }

  /** The replacements of convertVersionCode on "1_<d>_<rest>": only a leading 'R' of rest is touched. */
  lemma CodeMarkers(d: string, rest: string)
    requires ShortNumber(d) && forall k :: 0 <= k < |rest| ==> IsCodeChar(rest[k])
    ensures ReplaceAll(ReplaceAll("1_" + d + "_" + rest, "v", ""), "_R", ".") ==
      if |rest| >= 1 && rest[0] == 'R' then "1_" + d + "." + rest[1..] else "1_" + d + "_" + rest
  {
    var g := "1_" + d + "_" + rest;
    var y := "_" + rest;
    NoVInCode(d, rest);
    MarkerHead(d, rest);
    MarkerTail(rest);
    if |rest| >= 1 && rest[0] == 'R' {
      ConcatAssoc("1_" + d, ".", rest[1..]);
    } else {
      ConcatAssoc("1_" + d, "_", rest);
    }
  }

  /** A class-name code holds only '1', '_', digits and 'R'. */
  lemma CodeLacks(d: string, rest: string, c: char)
    requires ShortNumber(d) && forall k :: 0 <= k < |rest| ==> IsCodeChar(rest[k])
    requires c != '_' && c != 'R' && !IsDigit(c)
    ensures forall k :: 0 <= k < |"1_" + d + "_" + rest| ==> ("1_" + d + "_" + rest)[k] != c
  {
    var g := "1_" + d + "_" + rest;
    forall k | 0 <= k < |g|
      ensures g[k] != c
    {
      if 2 <= k < 2 + |d| {
        assert g[k] == d[k - 2];
      } else if k > 2 + |d| {
        assert g[k] == rest[k - 3 - |d|];
      }
    }
  }

  /** A class-name code holds no 'v' to remove. */
  lemma NoVInCode(d: string, rest: string)
    requires ShortNumber(d) && forall k :: 0 <= k < |rest| ==> IsCodeChar(rest[k])
    ensures ReplaceAll("1_" + d + "_" + rest, "v", "") == "1_" + d + "_" + rest
  {
    var g := "1_" + d + "_" + rest;
    CodeLacks(d, rest, 'v');
    AbsentHead(g, "v");
    ReplaceAllAbsent(g, "v", "");
  }

  /** Up to the second underscore nothing is replaced. */
  lemma MarkerHead(d: string, rest: string)
    requires ShortNumber(d)
    ensures ReplaceAll("1_" + d + "_" + rest, "_R", ".") == "1_" + d + ReplaceAll("_" + rest, "_R", ".")
  {
    var y := "_" + rest;
    var x := "_" + (d + y);
    HeadShape(d, rest);
    ReplaceAllSkipsPrefix("1", x, "_R", ".");
    UnderscoreDigitsStep(d, y);
    ConcatAssoc("_", d, ReplaceAll(y, "_R", "."));
    ConcatAssoc("1", "_" + d, ReplaceAll(y, "_R", "."));
  }

  /** How "1_" + d + "_" + rest regroups around its leading "1". */
  lemma HeadShape(d: string, rest: string)
    ensures "1_" + d + "_" + rest == "1" + ("_" + (d + ("_" + rest)))
    ensures "1" + ("_" + d) == "1_" + d
  {
  }

  /** "_<d>" followed by anything: the digits after the underscore rule out "_R" there. */
  lemma UnderscoreDigitsStep(d: string, y: string)
    requires ShortNumber(d)
    ensures ReplaceAll("_" + (d + y), "_R", ".") == "_" + (d + ReplaceAll(y, "_R", "."))
  {
    var x := "_" + (d + y);
    assert x[..2] != "_R" by { assert x[..2][1] == d[0]; }
    ReplaceAllStep(x, "_R", ".");
    assert x[1..] == d + y;
    ReplaceAllSkipsPrefix(d, y, "_R", ".");
  }

  /** "_<rest>" with a leading 'R' loses "_R" to "."; otherwise it stays. */
  lemma MarkerTail(rest: string)
    requires forall k :: 0 <= k < |rest| ==> IsCodeChar(rest[k])
    ensures |rest| >= 1 && rest[0] == 'R' ==> ReplaceAll("_" + rest, "_R", ".") == "." + rest[1..]
    ensures !(|rest| >= 1 && rest[0] == 'R') ==> ReplaceAll("_" + rest, "_R", ".") == "_" + rest
  {
    if |rest| >= 1 && rest[0] == 'R' {
      LeadingR(rest);
      MarkerTailR(rest[1..]);
    } else if |rest| >= 1 {
      MarkerTailOther(rest);
    }
  }

  lemma LeadingR(rest: string)
    requires |rest| >= 1 && rest[0] == 'R'
    ensures "_" + rest == "_R" + rest[1..]
  {
  }

  lemma MarkerTailR(more: string)
    requires forall k :: 0 <= k < |more| ==> IsCodeChar(more[k])
    ensures ReplaceAll("_R" + more, "_R", ".") == "." + more
  {
    var y := "_R" + more;
    assert y[..2] == "_R" && y[2..] == more;
    ReplaceAllMatchStep(y, "_R", ".");
    AbsentHead(more, "_R");
    ReplaceAllAbsent(more, "_R", ".");
  }

  lemma MarkerTailOther(rest: string)
    requires forall k :: 0 <= k < |rest| ==> IsCodeChar(rest[k])
    requires |rest| >= 1 && rest[0] != 'R'
    ensures ReplaceAll("_" + rest, "_R", ".") == "_" + rest
  {
    var y := "_" + rest;
    assert y[..2] != "_R" by { assert y[..2][1] == rest[0]; }
    ReplaceAllStep(y, "_R", ".");
    AbsentHead(rest, "_R");
    ReplaceAllAbsent(rest, "_R", ".");
    assert y[1..] == rest;
  }

  /** The group the underscore pattern matched, written as "1_<d>_<rest>". */
  lemma UnderscoreGroupShape(s: string, j: nat, e: nat) returns (d: string, rest: string)
    requires j <= |s| && UnderscoreCodeAt(s, j) == Some(e)
    ensures s[j..e] == "1_" + d + "_" + rest
    ensures ShortNumber(d) && forall k :: 0 <= k < |rest| ==> IsCodeChar(rest[k])
  {
    var u := if j + 4 < |s| && IsDigit(s[j + 2]) && IsDigit(s[j + 3]) && s[j + 4] == '_' then j + 4 else j + 3;
    d := s[j + 2..u];
    rest := s[u + 1..e];
    assert s[j..j + 2] == "1_";
    assert s[j..e] == s[j..j + 2] + s[j + 2..u] + [s[u]] + s[u + 1..e];
  }

  /** A converted class-name code builds a version whose major is 0. */
  lemma ConvertedCodeVersion(s: string, j: nat, e: nat)
    requires j <= |s| && UnderscoreCodeAt(s, j) == Some(e)
    ensures ConvertVersionCode(s[j..e]).Some? ==>
      Buildable(ConvertVersionCode(s[j..e]).value) && NewVersion(ConvertVersionCode(s[j..e])).value.major == 0
  {
    var d, rest := UnderscoreGroupShape(s, j, e);
    ConvertCode(d, rest);
    if |rest| >= 2 && rest[0] == 'R' {
      assert forall k :: 0 <= k < |rest[1..]| ==> IsCodeChar(rest[1..][k]);
      CodeVersion(d, rest[1..]);
    }
  }

  /** "1_<d>.<more>" builds version 0.<more>: "1_<d>" is no number. */
  lemma CodeVersion(d: string, more: string)
    requires ShortNumber(d) && |more| > 0 && forall k :: 0 <= k < |more| ==> IsCodeChar(more[k])
    ensures NewVersion(Some("1_" + d + "." + more)) ==
      Success(McVersion(0, PartValue(more), 0, "1_" + d + "." + more))
  {
    var a := "1_" + d;
    NewVersionOfTwo(a, more);
    assert !AllDigits(a) by { assert a[1] == '_'; }
  }

  /** The dotted class name: '/' becomes '.', then every ".class" is removed. */
  function ClassNameOf(entryName: string): string
  {
    ReplaceAll(ReplaceAll(entryName, "/", "."), ".class", "")
  }

  /** What one jar entry decides: None to go on, Some(result) to stop with result. */
  function ClassEntryVersion(entryName: string): Option<Option<string>>
  {
    if !EndsWith(entryName, ".class") then None
    else
      var className := ClassNameOf(entryName);
      match UnderscoreFindFrom(className, 0)
      case Some((a, b)) => Some(ConvertVersionCode(className[a..b]))
      case None =>
        match YmlFindFrom(BareToken, className, 0)
        case Some(h) => Some(NormalizeVersion(Some(className[h.groupStart..h.groupEnd])))
        case None => None
  }

  /** The entries from index k on. */
  function ClassesVersionFrom(names: seq<string>, k: nat): Option<string>
    requires k <= |names|
    decreases |names| - k
  {
    if k == |names| then None
    else
      match ClassEntryVersion(names[k])
      case Some(result) => result
      case None => ClassesVersionFrom(names, k + 1)
  }

  function ClassesVersion(jar: Option<JarView>): Option<string>
  {
    if jar.None? then None else ClassesVersionFrom(jar.value.names, 0)
  }

  /** detectFromClasses */
  method DetectFromClasses(jar: Option<JarView>) returns (r: Option<string>)
    ensures r == ClassesVersion(jar)
  {
    if jar.None? {
      return None;
    }
    var names := jar.value.names;
    var k := 0;
    while k < |names|
      invariant 0 <= k <= |names|
      invariant ClassesVersionFrom(names, k) == ClassesVersionFrom(names, 0)
    {
      var name := names[k];
      if EndsWith(name, ".class") {
        var className := ClassNameOf(name);
        var code := UnderscoreFindFrom(className, 0);
        if code.Some? {
          return ConvertVersionCode(className[code.value.0..code.value.1]);
        }
        var digits := YmlFindFrom(BareToken, className, 0);
        if digits.Some? {
          return NormalizeVersion(Some(className[digits.value.groupStart..digits.value.groupEnd]));
        }
      }
      k := k + 1;
    }
    return None;
  }

  /** A class-name result builds a version: major 0 from a code, major 1 from a token. */
  lemma {:induction false} ClassesVersionFromBuilds(names: seq<string>, k: nat)
    requires k <= |names|
    ensures ClassesVersionFrom(names, k).Some? ==> Buildable(ClassesVersionFrom(names, k).value)
    decreases |names| - k
  {
    if k < |names| {
      var entry := ClassEntryVersion(names[k]);
      if entry.None? {
        ClassesVersionFromBuilds(names, k + 1);
      } else if EndsWith(names[k], ".class") {
        var className := ClassNameOf(names[k]);
        var code := UnderscoreFindFrom(className, 0);
        if code.Some? {
          ConvertedCodeVersion(className, code.value.0, code.value.1);
        } else {
          var h := YmlFindFrom(BareToken, className, 0).value;
          var t := className[h.groupStart..h.groupEnd];
          EndsSpellTokens(className, h.groupStart, h.groupEnd);
          NormalizeVersionCleans(Some(t));
          CleanToken(t);
          TokenVersion(t);
        }
      }
    }
  }

  // ---------------------------------------------------------------------
  // detectMcVersion
  // ---------------------------------------------------------------------

  /** The text detectMcVersion builds its version from: the first source that answers. */
  function DetectedVersionText(jar: Option<JarView>): string
  {
    var yml := YmlEntryVersion(jar, "plugin.yml");
    if yml.Some? then yml.value
    else
      var paper := YmlEntryVersion(jar, "paper-plugin.yml");
      if paper.Some? then paper.value
      else
        var bungee := BungeeYmlVersion(jar);
        if bungee.Some? then bungee.value
        else
          var classes := ClassesVersion(jar);
          if classes.Some? then classes.value
          else "1.20"
  }

  /** detectMcVersion: the McVersion constructor on the detected text. */
  method DetectMcVersion(jar: Option<JarView>) returns (r: Result<McVersion, VersionError>)
    ensures r == NewVersion(Some(DetectedVersionText(jar)))
  {
    var yml := DetectFromYmlEntry(jar, "plugin.yml");
    if yml.Some? {
      return NewVersion(yml);
    }
    var paper := DetectFromYmlEntry(jar, "paper-plugin.yml");
    if paper.Some? {
      return NewVersion(paper);
    }
    var bungee := BungeeYmlVersion(jar);
    if bungee.Some? {
      return NewVersion(bungee);
    }
    var classes := DetectFromClasses(jar);
    if classes.Some? {
      return NewVersion(classes);
    }
    return NewVersion(Some("1.20"));
  }

  /**
   * detectMcVersion never throws and never returns null: every source
   * yields buildable text.  A descriptor, a dotted class-name token or the
   * default gives major 1; only an underscore class-name code gives 0.
   */
  lemma DetectMcVersionSucceeds(jar: Option<JarView>)
    ensures Buildable(DetectedVersionText(jar))
    ensures YmlEntryVersion(jar, "plugin.yml").Some? ==> NewVersion(Some(DetectedVersionText(jar))).value.major == 1
  {
    YmlEntryIsToken(jar, "plugin.yml");
    YmlEntryIsToken(jar, "paper-plugin.yml");
    BungeeYmlVersionIsToken(jar);
    if jar.Some? {
      ClassesVersionFromBuilds(jar.value.names, 0);
    }
    DefaultVersion();
  }

  /** A plugin.yml or paper-plugin.yml result is a version token of major 1. */
  lemma YmlEntryIsToken(jar: Option<JarView>, entryName: string)
    ensures YmlEntryVersion(jar, entryName).Some? ==>
      Buildable(YmlEntryVersion(jar, entryName).value) &&
      NewVersion(YmlEntryVersion(jar, entryName)).value.major == 1
  {
    if jar.Some? && entryName in jar.value.texts && jar.value.texts[entryName].Some? {
      YmlVersionFromFirstPattern(jar.value.texts[entryName].value, 0);
    }
  }

  /** The default "1.20" is version 1.20. */
  lemma DefaultVersion()
    ensures NewVersion(Some("1.20")) == Success(McVersion(1, 20, 0, "1.20"))
  {
    assert "1.20" == "1" + "." + "20";
    NewVersionOfTwo("1", "20");
    ParseOne();
    ParseTwenty();
  }

  lemma ParseOne()
    ensures ParseInt("1") == Some(1)
  {
    assert "1"[..0] == "";
    assert DigitsValue("1") == 1;
  }

  lemma ParseTwenty()
    ensures ParseInt("20") == Some(20)
  {
    assert "20"[..1] == "2" && "2"[..0] == "";
    assert DigitsValue("2") == 2;
    assert DigitsValue("20") == 20;
  }

  // ---------------------------------------------------------------------
  // getPluginInfo and parsePluginInfo
  // ---------------------------------------------------------------------

  /** The plugin.yml fields, each null until parsePluginInfo finds its key. */
  class PluginInfo {
    var name: Option<string>
    var pluginVersion: Option<string>
    var mcVersion: Option<McVersion>
    var mainClass: Option<string>
    var author: Option<string>
    var authors: Option<seq<string>>
    var description: Option<string>
    var website: Option<string>

    constructor ()
      ensures NoFields() && mcVersion.None?
    {
      name := None;
      pluginVersion := None;
      mcVersion := None;
      mainClass := None;
      author := None;
      authors := None;
      description := None;
      website := None;
    }

    /** Every field read from plugin.yml is null. */
    predicate NoFields()
      reads this
    {
      name.None? && pluginVersion.None? && mainClass.None? && author.None? &&
      authors.None? && description.None? && website.None?
    }

    /** Every field read from plugin.yml holds what `text` gives for its key. */
    predicate FieldsOf(text: string)
      reads this
    {
      name == FieldValue(text, "name") && pluginVersion == FieldValue(text, "version") &&
      mainClass == FieldValue(text, "main") && author == FieldValue(text, "author") &&
      authors == AuthorsValue(text) && description == FieldValue(text, "description") &&
      website == FieldValue(text, "website")
    }
  }

  /** The keys parsePluginInfo looks up, in order. */
  const InfoFields: seq<string> := ["name", "version", "main", "author", "authors", "description", "website"]

  /** Line terminators as `.` and `$` see them without UNIX_LINES. */
  predicate IsLineTerminator(c: char)
  {
    c == '\n' || c == '\r' || c == '\U{0085}' || c == '\U{2028}' || c == '\U{2029}'
  }

  /** `$` in MULTILINE mode: at the end, or before a line terminator but not inside "\r\n". */
  predicate DollarAt(s: string, p: nat)
    requires p <= |s|
  {
    p == |s| || (IsLineTerminator(s[p]) && !(s[p] == '\n' && p > 0 && s[p - 1] == '\r'))
  }

  /** `\s*$` from p: `$` holds somewhere in the whitespace run from p. */
  predicate SpacesThenDollar(s: string, p: nat)
    requires p <= |s|
  {
    exists x: nat | p <= x <= SpaceRunEnd(s, p) :: DollarAt(s, x)
  }

  /** `["']?\s*$` after the group ends at e. */
  predicate FieldTailAt(s: string, e: nat)
    requires e <= |s|
  {
    (e < |s| && IsQuote(s[e]) && SpacesThenDollar(s, e + 1)) || SpacesThenDollar(s, e)
  }

  /**
   * The lazy `(.*?)` from e: the first end where the tail matches. It never
   * passes a line terminator, since the tail always matches in front of one.
   */
  function LazyGroupEnd(s: string, e: nat): (r: nat)
    requires e <= |s|
    requires e < |s| && s[e] == '\n' && e > 0 ==> s[e - 1] != '\r'
    ensures e <= r <= |s|
    ensures forall k :: e <= k < r ==> !IsLineTerminator(s[k])
    decreases |s| - e
  {
    if e == |s| || FieldTailAt(s, e) then e
    else
      assert !IsLineTerminator(s[e]) by { assert !DollarAt(s, e); }
      LazyGroupEnd(s, e + 1)
  }

  /** `field:\s*["']?(.*?)["']?\s*$` at i (MULTILINE): the group's bounds. */
  function FieldMatchAt(s: string, field: string, i: nat): (m: Option<(nat, nat)>)
    requires i <= |s|
    ensures m.Some? ==> i <= m.value.0 <= m.value.1 <= |s|
    ensures m.Some? ==> forall k :: m.value.0 <= k < m.value.1 ==> !IsLineTerminator(s[k])
  {
    if StartsAt(s, i, field + ":") then
      var w := SpaceRunEnd(s, i + |field| + 1);
      var q := QuoteSkip(s, w);
      Some((q, LazyGroupEnd(s, q)))
    else None
  }

  function FieldFindFrom(s: string, field: string, i: nat): (m: Option<(nat, nat)>)
    requires i <= |s|
    ensures m.Some? ==> i <= m.value.0 <= m.value.1 <= |s|
    ensures m.Some? ==> forall k :: m.value.0 <= k < m.value.1 ==> !IsLineTerminator(s[k])
    decreases |s| - i
  {
    var here := FieldMatchAt(s, field, i);
    if here.Some? then here
    else if i == |s| then None
    else FieldFindFrom(s, field, i + 1)
  }

  /** The trimmed group of the first match for `field`, or None. */
  function FieldValue(ymlContent: string, field: string): Option<string>
  {
    match FieldFindFrom(ymlContent, field, 0)
    case Some((a, b)) => Some(Trim(ymlContent[a..b]))
    case None => None
  }

  /** A field is found exactly when "field:" occurs, and its value never spans a line break. */
  lemma FieldValueFound(s: string, field: string)
    ensures FieldValue(s, field).Some? <==> Contains(s, field + ":")
    ensures FieldValue(s, field).Some? ==>
      exists a: nat, b: nat :: a <= b <= |s| && FieldValue(s, field).value == Trim(s[a..b]) &&
        forall k :: a <= k < b ==> !IsLineTerminator(s[k])
  {
    if Contains(s, field + ":") {
      var i: nat :| i <= |s| && StartsAt(s, i, field + ":");
      FieldFindReaches(s, field, 0, i);
    } else {
      FieldFindNone(s, field, 0);
    }
  }

  lemma {:induction false} FieldFindReaches(s: string, field: string, i: nat, k: nat)
    requires i <= k <= |s| && StartsAt(s, k, field + ":")
    ensures FieldFindFrom(s, field, i).Some?
    decreases k - i
  {
    if i < k && FieldMatchAt(s, field, i).None? {
      FieldFindReaches(s, field, i + 1, k);
    }
  }

  lemma {:induction false} FieldFindNone(s: string, field: string, i: nat)
    requires i <= |s| && !Contains(s, field + ":")
    ensures FieldFindFrom(s, field, i).None?
    decreases |s| - i
  {
    if StartsAt(s, i, field + ":") {
      assert Contains(s, field + ":");
    }
    if i < |s| {
      FieldFindNone(s, field, i + 1);
    }
  }

  /** The whitespace after each comma of `",\\s*"`: removed from every piece after the first. */
  function DropLeadingSpace(t: string): (r: string)
    ensures |r| == 0 || !IsSpace(r[0])
    ensures |r| <= |t|
    ensures forall c :: c in r ==> c in t
  {
    if |t| > 0 && IsSpace(t[0]) then DropLeadingSpace(t[1..]) else t
  }

  /** What DropLeadingSpace removes is exactly the run of white space at the start of `t`. */
  lemma {:induction false} DropLeadingSpaceSuffix(t: string)
    ensures DropLeadingSpace(t) == t[|t| - |DropLeadingSpace(t)|..]
    ensures forall k :: 0 <= k < |t| - |DropLeadingSpace(t)| ==> IsSpace(t[k])
  {
    if |t| > 0 && IsSpace(t[0]) {
      DropLeadingSpaceSuffix(t[1..]);
      var r := DropLeadingSpace(t);
      assert r == DropLeadingSpace(t[1..]);
      assert t[1..][|t| - 1 - |r|..] == t[|t| - |r|..];
      forall k | 0 <= k < |t| - |r|
        ensures IsSpace(t[k])
      {
        if k > 0 {
          assert t[k] == t[1..][k - 1];
        }
      }
    }
  }

  /** DropLeadingSpace on every piece. */
  function DropLeadingSpaces(pieces: seq<string>): (r: seq<string>)
    ensures |r| == |pieces|
    ensures forall k :: 0 <= k < |r| ==> r[k] == DropLeadingSpace(pieces[k])
  {
    if |pieces| == 0 then [] else [DropLeadingSpace(pieces[0])] + DropLeadingSpaces(pieces[1..])
  }

  function DropSpaceAfterCommas(pieces: seq<string>): (r: seq<string>)
    requires |pieces| > 0
    ensures |r| == |pieces| && r[0] == pieces[0]
    ensures forall k :: 1 <= k < |r| ==> r[k] == DropLeadingSpace(pieces[k])
  {
    [pieces[0]] + DropLeadingSpaces(pieces[1..])
  }

  /** String.split(",\\s*"): pieces between commas, trailing empty pieces dropped. */
  function SplitAuthors(value: string): (r: seq<string>)
    ensures ',' !in value ==> r == [value]
  {
    if ',' !in value then [value]
    else DropTrailingEmpty(DropSpaceAfterCommas(SplitAll(value, ',')))
  }

  /** The authors pieces hold no comma, and none after the first starts with whitespace. */
  lemma SplitAuthorsPieces(value: string)
    ensures forall k :: 0 <= k < |SplitAuthors(value)| ==> ',' !in SplitAuthors(value)[k]
    ensures forall k :: 1 <= k < |SplitAuthors(value)| ==>
      |SplitAuthors(value)[k]| == 0 || !IsSpace(SplitAuthors(value)[k][0])
    ensures |SplitAuthors(value)| <= CountCharFront(value, ',') + 1
  {
    if ',' in value {
      var pieces := SplitAll(value, ',');
      SplitAllLength(value, ',');
      SplitAllPiecesNoSep(value, ',');
      var stripped := DropSpaceAfterCommas(pieces);
      var r := DropTrailingEmpty(stripped);
      assert r == stripped[..|r|];
      forall k | 0 <= k < |r| ensures ',' !in r[k] {
        assert r[k] == stripped[k];
        if k > 0 {
          assert r[k] == DropLeadingSpace(pieces[k]);
        }
      }
    }
  }

  /** The k-th comma segment as the split returns it: whitespace after its comma removed. */
  function AuthorSegment(pieces: seq<string>, k: nat): string
    requires k < |pieces|
  {
    if k == 0 then pieces[0] else DropLeadingSpace(pieces[k])
  }

  /**
   * The authors list is the comma segments of the value in order, each
   * after the first without the whitespace that follows its comma; only
   * segments that are empty after that are dropped, and only at the end.
   * The segments joined back with commas give the value.
   */
  lemma SplitAuthorsSegments(value: string)
    ensures Join(SplitAll(value, ','), ",") == value
    ensures |SplitAuthors(value)| <= |SplitAll(value, ',')|
    ensures forall k :: 0 <= k < |SplitAuthors(value)| ==>
      SplitAuthors(value)[k] == AuthorSegment(SplitAll(value, ','), k)
    ensures forall k :: |SplitAuthors(value)| <= k < |SplitAll(value, ',')| ==>
      AuthorSegment(SplitAll(value, ','), k) == ""
    ensures ',' in value && |SplitAuthors(value)| > 0 ==> SplitAuthors(value)[|SplitAuthors(value)| - 1] != ""
  {
    SplitAllJoin(value, ',');
    var p := SplitAll(value, ',');
    var r := SplitAuthors(value);
    if ',' !in value {
      SplitAllNoSep(value, ',');
      assert r == [value] && p == [value];
    } else {
      assert r == DropTrailingEmpty(DropSpaceAfterCommas(p));
      StrippedSegments(p);
    }
  }

  /** The comma case of SplitAuthorsSegments, for any list of segments. */
  lemma StrippedSegments(p: seq<string>)
    requires |p| > 0
    ensures var r := DropTrailingEmpty(DropSpaceAfterCommas(p));
      |r| <= |p| &&
      (forall k :: 0 <= k < |r| ==> r[k] == AuthorSegment(p, k)) &&
      (forall k :: |r| <= k < |p| ==> AuthorSegment(p, k) == "") &&
      (|r| > 0 ==> r[|r| - 1] != "")
  {
    var stripped := DropSpaceAfterCommas(p);
    var r := DropTrailingEmpty(stripped);
    DropTrailingEmptyRest(stripped);
    forall k | 0 <= k < |r|
      ensures r[k] == AuthorSegment(p, k)
    {
      assert r[k] == stripped[k];
    }
    forall k | |r| <= k < |p|
      ensures AuthorSegment(p, k) == ""
    {
      assert stripped[k] == "";
    }
  }

  /** "authors" keeps the split list; every other field keeps its trimmed text. */
  function AuthorsValue(ymlContent: string): Option<seq<string>>
  {
    match FieldValue(ymlContent, "authors")
    case Some(v) => Some(SplitAuthors(v))
    case None => None
  }

  function Update<T>(previous: Option<T>, found: Option<T>): Option<T>
  {
    if found.Some? then found else previous
  }

  /** parsePluginInfo: each field whose key occurs gets its value; the others keep theirs. */
  method ParsePluginInfo(ymlContent: string, info: PluginInfo)
    modifies info
    ensures info.name == Update(old(info.name), FieldValue(ymlContent, "name"))
    ensures info.pluginVersion == Update(old(info.pluginVersion), FieldValue(ymlContent, "version"))
    ensures info.mainClass == Update(old(info.mainClass), FieldValue(ymlContent, "main"))
    ensures info.author == Update(old(info.author), FieldValue(ymlContent, "author"))
    ensures info.authors == Update(old(info.authors), AuthorsValue(ymlContent))
    ensures info.description == Update(old(info.description), FieldValue(ymlContent, "description"))
    ensures info.website == Update(old(info.website), FieldValue(ymlContent, "website"))
    ensures info.mcVersion == old(info.mcVersion)
  {
    var s := ymlContent;
    for k := 0 to |InfoFields|
      invariant info.name == if k > 0 then Update(old(info.name), FieldValue(s, "name")) else old(info.name)
      invariant info.pluginVersion ==
        if k > 1 then Update(old(info.pluginVersion), FieldValue(s, "version")) else old(info.pluginVersion)
      invariant info.mainClass == if k > 2 then Update(old(info.mainClass), FieldValue(s, "main")) else old(info.mainClass)
      invariant info.author == if k > 3 then Update(old(info.author), FieldValue(s, "author")) else old(info.author)
      invariant info.authors == if k > 4 then Update(old(info.authors), AuthorsValue(s)) else old(info.authors)
      invariant info.description ==
        if k > 5 then Update(old(info.description), FieldValue(s, "description")) else old(info.description)
      invariant info.website == if k > 6 then Update(old(info.website), FieldValue(s, "website")) else old(info.website)
      invariant info.mcVersion == old(info.mcVersion)
    {
      var found := FieldValue(s, InfoFields[k]);
      if found.Some? {
        AssignField(info, k, found.value);
      }
    }
  }

  /** The switch of parsePluginInfo: the field InfoFields[k] gets `value`; "authors" gets its split. */
  method AssignField(info: PluginInfo, k: nat, value: string)
    requires k < |InfoFields|
    modifies info
    ensures info.name == if k == 0 then Some(value) else old(info.name)
    ensures info.pluginVersion == if k == 1 then Some(value) else old(info.pluginVersion)
    ensures info.mainClass == if k == 2 then Some(value) else old(info.mainClass)
    ensures info.author == if k == 3 then Some(value) else old(info.author)
    ensures info.authors == if k == 4 then Some(SplitAuthors(value)) else old(info.authors)
    ensures info.description == if k == 5 then Some(value) else old(info.description)
    ensures info.website == if k == 6 then Some(value) else old(info.website)
    ensures info.mcVersion == old(info.mcVersion)
  {
    var field := InfoFields[k];
    if field == "name" {
      info.name := Some(value);
    } else if field == "version" {
      info.pluginVersion := Some(value);
    } else if field == "main" {
      info.mainClass := Some(value);
    } else if field == "author" {
      info.author := Some(value);
    } else if field == "authors" {
      info.authors := Some(SplitAuthors(value));
    } else if field == "description" {
      info.description := Some(value);
    } else if field == "website" {
      info.website := Some(value);
    }
  }

  /** The jar opens and plugin.yml, if present, can be read. */
  predicate PluginYmlReadable(jar: Option<JarView>)
  {
    jar.Some? && ("plugin.yml" in jar.value.texts ==> jar.value.texts["plugin.yml"].Some?)
  }

  /**
   * getPluginInfo: plugin.yml's fields and the detected version; any
   * failure to open the jar or read plugin.yml leaves every field null.
   */
  method GetPluginInfo(jar: Option<JarView>) returns (info: PluginInfo)
    ensures fresh(info)
    ensures !PluginYmlReadable(jar) ==> info.NoFields() && info.mcVersion.None?
    ensures PluginYmlReadable(jar) ==>
      info.mcVersion.Some? && NewVersion(Some(DetectedVersionText(jar))) == Success(info.mcVersion.value)
    ensures PluginYmlReadable(jar) && "plugin.yml" !in jar.value.texts ==> info.NoFields()
    ensures PluginYmlReadable(jar) && "plugin.yml" in jar.value.texts ==>
      info.FieldsOf(jar.value.texts["plugin.yml"].value)
  {
    info := new PluginInfo();
    if !PluginYmlReadable(jar) {
      return;
    }
    if "plugin.yml" in jar.value.texts {
      ParsePluginInfo(jar.value.texts["plugin.yml"].value, info);
    }
    var detected := DetectMcVersion(jar);
    DetectMcVersionSucceeds(jar);
    info.mcVersion := Some(detected.value);
  }
}
