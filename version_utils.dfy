/**
 * VersionUtils: Minecraft versions (major.minor[.patch]), reading a version
 * out of an API jar's file name, and choosing the API jar that best matches
 * a plugin's target version.
 */
module VersionUtils {
  import opened JavaLang
  import opened KeySort

  // ---------------------------------------------------------------------
  // McVersion
  // ---------------------------------------------------------------------

  /** A parsed version; `original` is the trimmed text it was built from. */
  datatype McVersion = McVersion(major: int, minor: int, patch: int, original: string)

  /** The IllegalArgumentException messages of the constructor. */
  datatype VersionError = NullVersion | InvalidFormat(version: string)

  predicate InIntRange(v: McVersion)
  {
    IntMin <= v.major <= IntMax && IntMin <= v.minor <= IntMax && IntMin <= v.patch <= IntMax
  }

  /** McVersion.parseInt: Integer.parseInt, with a NumberFormatException read as 0. */
  function PartValue(s: string): (r: int)
    ensures IntMin <= r <= IntMax
    ensures ParseInt(s).None? ==> r == 0
    ensures ParseInt(s).Some? ==> r == ParseInt(s).value
  {
    match ParseInt(s)
    case Some(n) => n
    case None => 0
  }

  /**
   * The McVersion(String) constructor: null throws, the trimmed text is
   * split on dots, fewer than two parts throws, a missing third part is 0.
   */
  function NewVersion(version: Option<string>): (r: Result<McVersion, VersionError>)
    ensures version.None? ==> r == Failure(NullVersion)
    ensures version.Some? && |JavaSplit(Trim(version.value), '.')| < 2 ==>
      r == Failure(InvalidFormat(version.value))
    ensures r.Success? ==> version.Some? && r.value.original == Trim(version.value) && InIntRange(r.value)
  {
    if version.None? then Failure(NullVersion)
    else
      var original := Trim(version.value);
      var parts := JavaSplit(original, '.');
      if |parts| < 2 then Failure(InvalidFormat(version.value))
      else
        var patch := if |parts| > 2 then PartValue(parts[2]) else 0;
        Success(McVersion(PartValue(parts[0]), PartValue(parts[1]), patch, original))
  }

  /** McVersion.equals: the three numbers agree; the original text is ignored. */
  predicate SameVersion(a: McVersion, b: McVersion)
  {
    a.major == b.major && a.minor == b.minor && a.patch == b.patch
  }

  /** The numbers compareTo orders by, most significant first. */
  function Key(v: McVersion): seq<int>
  {
    [v.major, v.minor, v.patch]
  }

  /** Integer.compare */
  function IntCompare(x: int, y: int): (r: int)
    ensures r == -1 <==> x < y
    ensures r == 0 <==> x == y
    ensures r == 1 <==> x > y
  {
    if x < y then -1 else if x > y then 1 else 0
  }

  /** McVersion.compareTo */
  function Compare(a: McVersion, b: McVersion): (r: int)
  {
    if a.major != b.major then IntCompare(a.major, b.major)
    else if a.minor != b.minor then IntCompare(a.minor, b.minor)
    else IntCompare(a.patch, b.patch)
  }

  /** compareTo is the lexicographic order on (major, minor, patch). */
  lemma CompareIsLexicographic(a: McVersion, b: McVersion)
    ensures Compare(a, b) == LexCompare(Key(a), Key(b))
  {
    var ka, kb := Key(a), Key(b);
    LexStep(ka, kb);
    assert ka[1..] == [a.minor, a.patch] && kb[1..] == [b.minor, b.patch];
    LexStep(ka[1..], kb[1..]);
    assert ka[1..][1..] == [a.patch] && kb[1..][1..] == [b.patch];
    LexStep(ka[1..][1..], kb[1..][1..]);
    assert ka[1..][1..][1..] == [] && kb[1..][1..][1..] == [];
  }

  /** compareTo is a total order whose equivalence is equals. */
  lemma CompareTotalOrder(a: McVersion, b: McVersion, c: McVersion)
    ensures Compare(a, b) == -Compare(b, a)
    ensures Compare(a, b) == 0 <==> SameVersion(a, b)
    ensures Compare(a, b) <= 0 && Compare(b, c) <= 0 ==> Compare(a, c) <= 0
    ensures Compare(a, b) < 0 && Compare(b, c) < 0 ==> Compare(a, c) < 0
  {
    CompareIsLexicographic(a, b);
    CompareIsLexicographic(b, a);
    CompareIsLexicographic(b, c);
    CompareIsLexicographic(a, c);
    LexAntisymmetric(Key(a), Key(b));
    LexZeroIsEqual(Key(a), Key(b));
    if Compare(a, b) <= 0 && Compare(b, c) <= 0 {
      LexTransitive(Key(a), Key(b), Key(c));
    }
  }

  predicate IsGreaterThan(a: McVersion, b: McVersion) { Compare(a, b) > 0 }
  predicate IsGreaterOrEqual(a: McVersion, b: McVersion) { Compare(a, b) >= 0 }
  predicate IsLessThan(a: McVersion, b: McVersion) { Compare(a, b) < 0 }
  predicate IsLessOrEqual(a: McVersion, b: McVersion) { Compare(a, b) <= 0 }

  /** The four comparisons agree with each other and with equals. */
  lemma ComparisonsAgree(a: McVersion, b: McVersion)
    ensures IsGreaterThan(a, b) <==> IsLessThan(b, a)
    ensures IsGreaterOrEqual(a, b) <==> IsLessOrEqual(b, a)
    ensures IsLessOrEqual(a, b) <==> !IsGreaterThan(a, b)
    ensures IsLessOrEqual(a, b) && IsGreaterOrEqual(a, b) <==> SameVersion(a, b)
    ensures IsLessThan(a, b) <==>
      a.major < b.major || (a.major == b.major && a.minor < b.minor) ||
      (a.major == b.major && a.minor == b.minor && a.patch < b.patch)
  {
    CompareTotalOrder(a, b, b);
  }

  function Abs(x: int): (r: int)
    ensures r >= 0 && (r == x || r == -x)
  {
    if x < 0 then -x else x
  }

  /** McVersion.isCompatibleWith */
  function IsCompatibleWith(v: McVersion, target: McVersion): (r: bool)
    ensures r <==> v.major == target.major && -2 <= v.minor - target.minor <= 2
  {
    if v.major != target.major then false else Abs(v.minor - target.minor) <= 2
  }

  lemma CompatibleSymmetric(a: McVersion, b: McVersion)
    ensures IsCompatibleWith(a, b) == IsCompatibleWith(b, a)
    ensures SameVersion(a, b) ==> IsCompatibleWith(a, b)
  {
  }

  /** McVersion.distanceTo */
  function DistanceTo(v: McVersion, target: McVersion): (r: int)
    ensures r >= 0
    ensures r == 0 <==> SameVersion(v, target)
    ensures v.major != target.major ==> r >= 10000
    ensures v.major == target.major && v.minor != target.minor ==> r >= 100
  {
    if v.major != target.major then Abs(v.major - target.major) * 10000
    else if v.minor != target.minor then Abs(v.minor - target.minor) * 100
    else Abs(v.patch - target.patch)
  }

  lemma DistanceSymmetric(a: McVersion, b: McVersion)
    ensures DistanceTo(a, b) == DistanceTo(b, a)
  {
  }

  /** McVersion.priorityScore: lower ranks better. */
  function PriorityScore(v: McVersion, target: McVersion): int
  {
    DistanceTo(v, target) - (target.minor - v.minor) * 10
  }

  /**
   * With the same major, a version d minors behind the target scores 90 * d
   * and one d minors ahead scores 110 * d, so at an equal distance the
   * older candidate ranks first.
   */
  lemma PriorityScoreSameMajor(v: McVersion, target: McVersion)
    requires v.major == target.major
    ensures v.minor < target.minor ==> PriorityScore(v, target) == 90 * (target.minor - v.minor)
    ensures v.minor > target.minor ==> PriorityScore(v, target) == 110 * (v.minor - target.minor)
    ensures v.minor == target.minor ==> PriorityScore(v, target) == Abs(v.patch - target.patch)
  {
  }

  /** Against 1.20, 1.16 scores 360 and 1.23 scores 330; the score is not symmetric. */
  lemma PriorityScoreExamples()
    ensures PriorityScore(McVersion(1, 16, 0, "1.16"), McVersion(1, 20, 0, "1.20")) == 360
    ensures PriorityScore(McVersion(1, 23, 0, "1.23"), McVersion(1, 20, 0, "1.20")) == 330
    ensures PriorityScore(McVersion(1, 20, 0, "1.20"), McVersion(1, 16, 0, "1.16")) == 440
  {
  }

  /** McVersion.toString: the patch is shown only when it is positive. */
  function ToString(v: McVersion): string
  {
    if v.patch > 0 then IntToString(v.major) + "." + IntToString(v.minor) + "." + IntToString(v.patch)
    else IntToString(v.major) + "." + IntToString(v.minor)
  }

  /** A non-empty number text without a dot or a character up to U+0020. */
  predicate PlainPart(a: string)
  {
    |a| > 0 && forall k :: 0 <= k < |a| ==> a[k] > ' ' && a[k] != '.'
  }

  /** The constructor on "a.b" with plain parts. */
  lemma NewVersionOfTwo(a: string, b: string)
    requires PlainPart(a) && PlainPart(b)
    ensures NewVersion(Some(a + "." + b)) == Success(McVersion(PartValue(a), PartValue(b), 0, a + "." + b))
  {
    var t := a + "." + b;
    assert t == a + ['.'] + b;
    SplitTwo(a, b, '.');
    assert forall k :: 0 <= k < |t| ==> t[k] > ' ';
    TrimNoSpace(t);
  }

  /** The constructor on "a.b.c" with plain parts. */
  lemma NewVersionOfThree(a: string, b: string, c: string)
    requires PlainPart(a) && PlainPart(b) && PlainPart(c)
    ensures NewVersion(Some(a + "." + b + "." + c)) ==
      Success(McVersion(PartValue(a), PartValue(b), PartValue(c), a + "." + b + "." + c))
  {
    var t := a + "." + b + "." + c;
    assert t == a + ['.'] + b + ['.'] + c;
    SplitThree(a, b, c, '.');
    assert forall k :: 0 <= k < |t| ==> t[k] > ' ';
    TrimNoSpace(t);
  }

  /** Parsing toString gives back an equal version when the patch is not negative. */
  lemma ToStringRoundTrip(v: McVersion)
    requires InIntRange(v) && v.patch >= 0
    ensures NewVersion(Some(ToString(v))).Success?
    ensures SameVersion(NewVersion(Some(ToString(v))).value, v)
    ensures NewVersion(Some(ToString(v))).value.original == ToString(v)
  {
    var a, b, c := IntToString(v.major), IntToString(v.minor), IntToString(v.patch);
    IntToStringChars(v.major);
    IntToStringChars(v.minor);
    IntToStringChars(v.patch);
    ParseIntOfIntToString(v.major);
    ParseIntOfIntToString(v.minor);
    ParseIntOfIntToString(v.patch);
    if v.patch > 0 {
      NewVersionOfThree(a, b, c);
    } else {
      NewVersionOfTwo(a, b);
    }
  }

  // ---------------------------------------------------------------------
  // parseVersionFromFileName
  // ---------------------------------------------------------------------

  /** The five file-name patterns, tried in this order. */
  datatype FileNamePattern =
    | SnapshotSuffix     // (\d+\.\d+(\.\d+)?)-R\d+\.\d+-SNAPSHOT, case-insensitive
    | TimestampSuffix    // (\d+\.\d+(\.\d+)?)-R\d+\.\d+-\d{8}\.\d{6}-\d+, case-insensitive
    | ArtifactPrefix     // [a-z-]+-(\d+\.\d+(\.\d+)?)[^\d], case-insensitive
    | JarSuffix          // (\d+\.\d+(\.\d+)?)\.jar, case-insensitive
    | BareVersion        // (\d+\.\d+(\.\d+)?)

  const Patterns: seq<FileNamePattern> :=
    [SnapshotSuffix, TimestampSuffix, ArtifactPrefix, JarSuffix, BareVersion]

  /**
   * Where the group `\d+\.\d+(\.\d+)?` can end when it starts at i: after
   * two numbers, and after three when a third one follows.  Every `\d+`
   * takes its whole digit run: each is followed by a dot or by a pattern
   * tail that cannot begin with a digit, so giving back digits never helps.
   */
  datatype GroupEnds = GroupEnds(two: nat, three: Option<nat>)

  function VersionGroupAt(s: string, i: nat): (g: Option<GroupEnds>)
    requires i <= |s|
    ensures g.Some? ==> i < g.value.two <= |s|
    ensures g.Some? && g.value.three.Some? ==> g.value.two < g.value.three.value <= |s|
  {
    if i < |s| && IsDigit(s[i]) then
      var e1 := DigitRunEnd(s, i);
      if e1 + 1 < |s| && s[e1] == '.' && IsDigit(s[e1 + 1]) then
        var e2 := DigitRunEnd(s, e1 + 1);
        if e2 + 1 < |s| && s[e2] == '.' && IsDigit(s[e2 + 1]) then
          Some(GroupEnds(e2, Some(DigitRunEnd(s, e2 + 1))))
        else Some(GroupEnds(e2, None))
      else None
    else None
  }

  /** `-R\d+\.\d+` at g, case-insensitive; the index after it. */
  function ReleaseTagEnd(s: string, g: nat): (r: Option<nat>)
    ensures r.Some? ==> g < r.value <= |s|
  {
    if StartsAtIgnoreCase(s, g, "-r") && g + 2 < |s| && IsDigit(s[g + 2]) then
      var f1 := DigitRunEnd(s, g + 2);
      if f1 + 1 < |s| && s[f1] == '.' && IsDigit(s[f1 + 1]) then Some(DigitRunEnd(s, f1 + 1))
      else None
    else None
  }

  /** `-\d{8}\.\d{6}-\d+` at f. */
  predicate TimestampAt(s: string, f: nat)
  {
    f + 18 <= |s| && s[f] == '-' && AllDigits(s[f + 1..f + 9]) && s[f + 9] == '.' &&
    AllDigits(s[f + 10..f + 16]) && s[f + 16] == '-' && IsDigit(s[f + 17])
  }

  /** What must follow the version group for each pattern. */
  predicate TailAt(p: FileNamePattern, s: string, g: nat)
  {
    match p
    case SnapshotSuffix =>
      var r := ReleaseTagEnd(s, g);
      r.Some? && StartsAtIgnoreCase(s, r.value, "-snapshot")
    case TimestampSuffix =>
      var r := ReleaseTagEnd(s, g);
      r.Some? && TimestampAt(s, r.value)
    case ArtifactPrefix => g < |s| && !IsDigit(s[g])
    case JarSuffix => StartsAtIgnoreCase(s, g, ".jar")
    case BareVersion => true
  }

  /** The greedy optional third number is tried first, then the group without it. */
  function GroupWithTail(p: FileNamePattern, s: string, i: nat): (e: Option<nat>)
    requires i <= |s|
    ensures e.Some? ==> VersionGroupAt(s, i).Some? && i < e.value <= |s|
    ensures e.Some? ==>
      (e.value == VersionGroupAt(s, i).value.two || Some(e.value) == VersionGroupAt(s, i).value.three)
  {
    match VersionGroupAt(s, i)
    case None => None
    case Some(g) =>
      if g.three.Some? && TailAt(p, s, g.three.value) then g.three
      else if TailAt(p, s, g.two) then Some(g.two)
      else None
  }

  predicate IsArtifactChar(c: char)
  {
    ('a' <= c <= 'z') || ('A' <= c <= 'Z') || c == '-'
  }

  /** End of the longest run of [a-zA-Z-] starting at i. */
  function ArtifactRunEnd(s: string, i: nat): (e: nat)
    requires i <= |s|
    ensures i <= e <= |s|
    ensures forall k :: i <= k < e ==> IsArtifactChar(s[k])
    ensures e < |s| ==> !IsArtifactChar(s[e])
    decreases |s| - i
  {
    if i < |s| && IsArtifactChar(s[i]) then ArtifactRunEnd(s, i + 1) else i
  }

  /**
   * A match of pattern p starting at index i, as the bounds of its version
   * group.  For ArtifactPrefix the letters run as far as they can, and the
   * separating `-` must be their last character: a `-` inside the run is
   * followed by a letter or `-`, never by the digit the group needs.
   */
  function MatchAt(p: FileNamePattern, s: string, i: nat): (m: Option<(nat, nat)>)
    requires i <= |s|
    ensures m.Some? ==> i <= m.value.0 < m.value.1 <= |s|
    ensures m.Some? ==> GroupWithTail(p, s, m.value.0) == Some(m.value.1)
  {
    if p == ArtifactPrefix then
      var l := ArtifactRunEnd(s, i);
      if l >= i + 2 && s[l - 1] == '-' then
        match GroupWithTail(p, s, l)
        case Some(e) => Some((l, e))
        case None => None
      else None
    else
      match GroupWithTail(p, s, i)
      case Some(e) => Some((i, e))
      case None => None
  }

  /** Matcher.find: the match with the leftmost start at or after i. */
  function FindFrom(p: FileNamePattern, s: string, i: nat): (m: Option<(nat, nat)>)
    requires i <= |s|
    ensures m.Some? ==> i <= m.value.0 < m.value.1 <= |s|
    ensures m.Some? ==> GroupWithTail(p, s, m.value.0) == Some(m.value.1)
    decreases |s| - i
  {
    var here := MatchAt(p, s, i);
    if here.Some? then here
    else if i == |s| then None
    else FindFrom(p, s, i + 1)
  }

  /** The patterns from index k on, in order; the first whose group builds a version wins. */
  function TryPatterns(s: string, k: nat): Option<McVersion>
    requires k <= |Patterns|
    decreases |Patterns| - k
  {
    if k == |Patterns| then None
    else
      match FindFrom(Patterns[k], s, 0)
      case Some((a, b)) =>
        (match NewVersion(Some(s[a..b]))
         case Success(v) => Some(v)
         case Failure(_) => TryPatterns(s, k + 1))
      case None => TryPatterns(s, k + 1)
  }

  /** Pattern k either yields the version or passes the search on to the next pattern. */
  lemma TryPatternsStep(s: string, k: nat)
    requires k < |Patterns|
    ensures var m := FindFrom(Patterns[k], s, 0);
      if m.Some? && NewVersion(Some(s[m.value.0..m.value.1])).Success? then
        TryPatterns(s, k) == Some(NewVersion(Some(s[m.value.0..m.value.1])).value)
      else TryPatterns(s, k) == TryPatterns(s, k + 1)
  {
  }

  /** parseVersionFromFileName, as a function of the name (None for null). */
  function FileNameVersion(fileName: Option<string>): Option<McVersion>
  {
    if fileName.None? || |fileName.value| == 0 then None else TryPatterns(fileName.value, 0)
  }

  /** The version read from a file's name. */
  function FileVersion(f: File): Option<McVersion>
  {
    FileNameVersion(Some(f.name))
  }

  method ParseVersionFromFileName(fileName: Option<string>) returns (r: Option<McVersion>)
    ensures r == FileNameVersion(fileName)
  {
    if fileName.None? || |fileName.value| == 0 {
      return None;
    }
    var s := fileName.value;
    var k := 0;
    while k < |Patterns|
      invariant 0 <= k <= |Patterns|
      invariant TryPatterns(s, k) == TryPatterns(s, 0)
    {
      TryPatternsStep(s, k);
      var m := FindFrom(Patterns[k], s, 0);
      if m.Some? {
        var version := NewVersion(Some(s[m.value.0..m.value.1]));
        if version.Success? {
          return Some(version.value);
        }
      }
      k := k + 1;
    }
    return None;
  }

  /** `name` holds a digit, a dot and a digit in a row. */
  predicate HasDottedNumber(s: string)
  {
    exists k: nat :: k + 2 < |s| && IsDigit(s[k]) && s[k + 1] == '.' && IsDigit(s[k + 2])
  }

  /** The text of a version group always builds a version. */
  lemma GroupTextBuilds(s: string, i: nat, e: nat)
    requires i <= |s| && VersionGroupAt(s, i).Some?
    requires e == VersionGroupAt(s, i).value.two || Some(e) == VersionGroupAt(s, i).value.three
    ensures NewVersion(Some(s[i..e])).Success?
    ensures NewVersion(Some(s[i..e])).value.original == s[i..e]
  {
    var g := VersionGroupAt(s, i).value;
    var e1 := DigitRunEnd(s, i);
    assert e1 + 1 < g.two && s[e1] == '.' && g.two == DigitRunEnd(s, e1 + 1);
    if e == g.two {
      GroupTwoBuilds(s, i, e1, e);
    } else {
      assert s[g.two] == '.' && g.two + 1 < e && e == DigitRunEnd(s, g.two + 1);
      GroupThreeBuilds(s, i, e1, g.two, e);
    }
  }

  /** The two-number group s[i..e2], with its dot at e1, builds a version. */
  lemma GroupTwoBuilds(s: string, i: nat, e1: nat, e2: nat)
    requires i <= e1 && e1 + 1 < e2 <= |s| && s[e1] == '.'
    requires e1 == DigitRunEnd(s, i) && e2 == DigitRunEnd(s, e1 + 1)
    ensures NewVersion(Some(s[i..e2])).Success?
    ensures NewVersion(Some(s[i..e2])).value.original == s[i..e2]
  {
    DigitSlice(s, i, e1);
    DigitSlice(s, e1 + 1, e2);
    SliceAtDot(s, i, e1, e2);
    DottedBuilds(s[i..e2], s[i..e1], s[e1 + 1..e2]);
  }

  /** The three-number group s[i..e3], with its dots at e1 and e2, builds a version. */
  lemma GroupThreeBuilds(s: string, i: nat, e1: nat, e2: nat, e3: nat)
    requires i <= e1 && e1 + 1 < e2 && e2 + 1 < e3 <= |s| && s[e1] == '.' && s[e2] == '.'
    requires e1 == DigitRunEnd(s, i) && e2 == DigitRunEnd(s, e1 + 1) && e3 == DigitRunEnd(s, e2 + 1)
    ensures NewVersion(Some(s[i..e3])).Success?
    ensures NewVersion(Some(s[i..e3])).value.original == s[i..e3]
  {
    DigitSlice(s, i, e1);
    DigitSlice(s, e1 + 1, e2);
    DigitSlice(s, e2 + 1, e3);
    var a, b, c := s[i..e1], s[e1 + 1..e2], s[e2 + 1..e3];
    SliceAtDot(s, i, e1, e2);
    SliceAtDot(s, i, e2, e3);
    DottedThreeBuilds(s[i..e3], a, b, c);
  }

  /** A slice cut at a dot is the part before it, the dot and the part after it. */
  lemma SliceAtDot(s: string, i: nat, m: nat, j: nat)
    requires i <= m < j <= |s| && s[m] == '.'
    ensures s[i..j] == s[i..m] + ['.'] + s[m + 1..j]
  {
  }

  /** A digit run read off as a string. */
  lemma DigitSlice(s: string, i: nat, e: nat)
    requires i <= e <= |s| && e == DigitRunEnd(s, i)
    ensures AllDigits(s[i..e])
  {
    forall k | 0 <= k < e - i
      ensures IsDigit(s[i..e][k])
    {
      assert s[i..e][k] == s[i + k];
    }
  }

  /** "a.b" with digit-only parts, b non-empty, builds a version that keeps the text. */
  lemma DottedBuilds(t: string, a: string, b: string)
    requires t == a + ['.'] + b
    requires AllDigits(a) && AllDigits(b) && |b| > 0
    ensures NewVersion(Some(t)).Success?
    ensures NewVersion(Some(t)).value.original == t
  {
    assert '.' !in a && '.' !in b;
    SplitTwo(a, b, '.');
    assert forall k :: 0 <= k < |t| ==> t[k] > ' ';
    TrimNoSpace(t);
  }

  /** "a.b.c" with digit-only parts, c non-empty, builds a version that keeps the text. */
  lemma DottedThreeBuilds(t: string, a: string, b: string, c: string)
    requires t == a + ['.'] + b + ['.'] + c
    requires AllDigits(a) && AllDigits(b) && AllDigits(c) && |c| > 0
    ensures NewVersion(Some(t)).Success?
    ensures NewVersion(Some(t)).value.original == t
  {
    assert '.' !in a && '.' !in b && '.' !in c;
    SplitThree(a, b, c, '.');
    assert forall k :: 0 <= k < |t| ==> t[k] > ' ';
    TrimNoSpace(t);
  }

  /** Once a pattern has matched, the search stops with a version. */
  lemma {:induction false} TryPatternsFindsFirstMatch(s: string, k: nat)
    requires k <= |Patterns|
    ensures TryPatterns(s, k).None? <==>
      forall j :: k <= j < |Patterns| ==> FindFrom(Patterns[j], s, 0).None?
    decreases |Patterns| - k
  {
    if k < |Patterns| {
      TryPatternsStep(s, k);
      var m := FindFrom(Patterns[k], s, 0);
      if m.Some? {
        GroupTextBuilds(s, m.value.0, m.value.1);
        assert TryPatterns(s, k).Some?;
      } else {
        TryPatternsFindsFirstMatch(s, k + 1);
        assert TryPatterns(s, k) == TryPatterns(s, k + 1);
        assert (forall j :: k <= j < |Patterns| ==> FindFrom(Patterns[j], s, 0).None?) <==>
          (forall j :: k + 1 <= j < |Patterns| ==> FindFrom(Patterns[j], s, 0).None?);
      }
    }
  }

  /** The version's text is the run of the name its pattern's group matched. */
  lemma {:induction false} TryPatternsText(s: string, k: nat)
    requires k <= |Patterns| && TryPatterns(s, k).Some?
    ensures exists a: nat, b: nat ::
      a < b <= |s| && VersionGroupAt(s, a).Some? &&
      (b == VersionGroupAt(s, a).value.two || Some(b) == VersionGroupAt(s, a).value.three) &&
      TryPatterns(s, k).value.original == s[a..b]
    decreases |Patterns| - k
  {
    var m := FindFrom(Patterns[k], s, 0);
    if m.Some? {
      GroupTextBuilds(s, m.value.0, m.value.1);
    } else {
      TryPatternsText(s, k + 1);
    }
  }

  lemma {:induction false} FindFromSound(p: FileNamePattern, s: string, i: nat)
    requires i <= |s| && FindFrom(p, s, i).Some?
    ensures HasDottedNumber(s)
    decreases |s| - i
  {
    var m := FindFrom(p, s, i).value;
    var a := m.0;
    var e1 := DigitRunEnd(s, a);
    assert IsDigit(s[e1 - 1]) && s[e1] == '.' && IsDigit(s[e1 + 1]);
    var k: nat := e1 - 1;
    assert k + 2 < |s| && IsDigit(s[k]) && s[k + 1] == '.' && IsDigit(s[k + 2]);
  }

  lemma {:induction false} FindFromComplete(s: string, i: nat, k: nat)
    requires i <= k && k + 2 < |s| && IsDigit(s[k]) && s[k + 1] == '.' && IsDigit(s[k + 2])
    ensures FindFrom(BareVersion, s, i).Some?
    decreases k - i
  {
    if i < k && MatchAt(BareVersion, s, i).None? {
      FindFromComplete(s, i + 1, k);
    } else if i == k {
      assert DigitRunEnd(s, k) == k + 1;
    }
  }

  /**
   * parseVersionFromFileName returns null exactly for a missing or empty
   * name and for a name without a `digits.digits` run: the last pattern
   * accepts any such run and every earlier one needs one.
   */
  lemma FileNameVersionExists(fileName: Option<string>)
    ensures FileNameVersion(fileName).Some? <==>
      fileName.Some? && HasDottedNumber(fileName.value)
    ensures FileNameVersion(fileName).Some? ==>
      var s := fileName.value;
      exists a: nat, b: nat ::
        a < b <= |s| && VersionGroupAt(s, a).Some? &&
        (b == VersionGroupAt(s, a).value.two || Some(b) == VersionGroupAt(s, a).value.three) &&
        FileNameVersion(fileName).value.original == s[a..b]
  {
    if FileNameVersion(fileName).Some? {
      TryPatternsText(fileName.value, 0);
    }
    if fileName.Some? && |fileName.value| > 0 {
      var s := fileName.value;
      TryPatternsFindsFirstMatch(s, 0);
      if HasDottedNumber(s) {
        var k: nat :| k + 2 < |s| && IsDigit(s[k]) && s[k + 1] == '.' && IsDigit(s[k + 2]);
        FindFromComplete(s, 0, k);
        assert Patterns[4] == BareVersion;
      }
      if TryPatterns(s, 0).Some? {
        var j :| 0 <= j < |Patterns| && FindFrom(Patterns[j], s, 0).Some?;
        FindFromSound(Patterns[j], s, 0);
      }
    }
  }

  // ---------------------------------------------------------------------
  // findBestMatchVersion
  // ---------------------------------------------------------------------

  datatype ApiCandidate = ApiCandidate(file: File, version: McVersion)

  /** The comparator lambda of findBestMatchVersion. */
  function RankCompare(target: McVersion, a: McVersion, b: McVersion): int
  {
    var aExact, bExact := SameVersion(a, target), SameVersion(b, target);
    if aExact && !bExact then -1
    else if !aExact && bExact then 1
    else
      var aCompatible, bCompatible := IsCompatibleWith(a, target), IsCompatibleWith(b, target);
      if aCompatible && !bCompatible then -1
      else if !aCompatible && bCompatible then 1
      else
        var priorityA, priorityB := PriorityScore(a, target), PriorityScore(b, target);
        if priorityA != priorityB then IntCompare(priorityA, priorityB)
        else Compare(b, a)
  }

  /** Exact first, then compatible, then lower score, then newer. */
  function RankKey(target: McVersion, v: McVersion): seq<int>
  {
    [if SameVersion(v, target) then 0 else 1,
     if IsCompatibleWith(v, target) then 0 else 1,
     PriorityScore(v, target), -v.major, -v.minor, -v.patch]
  }

  /** The comparator orders candidates exactly as their rank keys do. */
  lemma RankCompareIsKeyOrder(target: McVersion, a: McVersion, b: McVersion)
    ensures RankCompare(target, a, b) == LexCompare(RankKey(target, a), RankKey(target, b))
  {
    var ka, kb := RankKey(target, a), RankKey(target, b);
    LexStep(ka, kb);
    LexStep(ka[1..], kb[1..]);
    LexStep(ka[1..][1..], kb[1..][1..]);
    LexStep(ka[1..][1..][1..], kb[1..][1..][1..]);
    assert ka[1..][1..][1..] == [-a.major, -a.minor, -a.patch];
    assert kb[1..][1..][1..] == [-b.major, -b.minor, -b.patch];
    var ra, rb := ka[1..][1..][1..], kb[1..][1..][1..];
    LexStep(ra[1..], rb[1..]);
    assert ra[1..] == [-a.minor, -a.patch] && rb[1..] == [-b.minor, -b.patch];
    LexStep(ra[1..][1..], rb[1..][1..]);
    assert ra[1..][1..] == [-a.patch] && rb[1..][1..] == [-b.patch];
    assert ra[1..][1..][1..] == [] && rb[1..][1..][1..] == [];
    CompareIsLexicographic(b, a);
  }

  /** A candidate ranked no later than an exact match is itself exact. */
  lemma ExactRanksFirst(target: McVersion, v: McVersion, w: McVersion)
    requires LexCompare(RankKey(target, v), RankKey(target, w)) <= 0
    ensures SameVersion(w, target) ==> SameVersion(v, target)
    ensures IsCompatibleWith(w, target) ==> IsCompatibleWith(v, target)
  {
    var kv, kw := RankKey(target, v), RankKey(target, w);
    LexStep(kv, kw);
    LexStep(kv[1..], kw[1..]);
  }

  predicate Parses(f: File) { FileVersion(f).Some? }

  /** One candidate per file whose name parses, in the order of the files. */
  function Candidates(files: seq<File>): seq<ApiCandidate>
  {
    if |files| == 0 then []
    else
      var last := files[|files| - 1];
      Candidates(files[..|files| - 1]) +
        (if Parses(last) then [ApiCandidate(last, FileVersion(last).value)] else [])
  }

  /** The candidates are exactly the parseable files, each with its version. */
  lemma {:induction false} CandidatesMembers(files: seq<File>)
    ensures forall c :: c in Candidates(files) ==> c.file in files && FileVersion(c.file) == Some(c.version)
    ensures forall f :: f in files && Parses(f) ==> ApiCandidate(f, FileVersion(f).value) in Candidates(files)
  {
    if |files| > 0 {
      var init := files[..|files| - 1];
      CandidatesMembers(init);
      assert files == init + [files[|files| - 1]];
    }
  }

  /** The candidate loop of findBestMatchVersion. */
  method CollectCandidates(apiFiles: array<File>) returns (candidates: seq<ApiCandidate>)
    ensures candidates == Candidates(apiFiles[..])
  {
    candidates := [];
    for i := 0 to apiFiles.Length
      invariant candidates == Candidates(apiFiles[..i])
    {
      var f := apiFiles[i];
      var version := ParseVersionFromFileName(Some(f.name));
      if version.Some? {
        candidates := candidates + [ApiCandidate(f, version.value)];
      }
      assert apiFiles[..i + 1][..i] == apiFiles[..i];
    }
    assert apiFiles[..] == apiFiles[..apiFiles.Length];
  }

  /**
   * findBestMatchVersion: null for a null array, a null target or no
   * parseable name; otherwise a file of the array whose version ranks
   * first, so an exact match wins, then a compatible one.
   */
  method FindBestMatchVersion(apiFiles: array?<File>, targetVersion: Option<McVersion>)
    returns (best: Option<File>)
    ensures best.None? <==>
      apiFiles == null || targetVersion.None? || forall f :: f in apiFiles[..] ==> !Parses(f)
    ensures best.Some? ==> apiFiles != null && best.value in apiFiles[..] && Parses(best.value)
    ensures best.Some? ==> forall f :: f in apiFiles[..] && Parses(f) ==>
      LexCompare(RankKey(targetVersion.value, FileVersion(best.value).value),
                 RankKey(targetVersion.value, FileVersion(f).value)) <= 0
    ensures best.Some? && (exists f :: f in apiFiles[..] && Parses(f) && SameVersion(FileVersion(f).value, targetVersion.value)) ==>
      SameVersion(FileVersion(best.value).value, targetVersion.value)
    ensures best.Some? && (exists f :: f in apiFiles[..] && Parses(f) && IsCompatibleWith(FileVersion(f).value, targetVersion.value)) ==>
      IsCompatibleWith(FileVersion(best.value).value, targetVersion.value)
  {
    if apiFiles == null || apiFiles.Length == 0 || targetVersion.None? {
      return None;
    }
    var target := targetVersion.value;
    var candidates := CollectCandidates(apiFiles);
    CandidatesMembers(apiFiles[..]);
    if |candidates| == 0 {
      return None;
    }
    var ranked := new ApiCandidate[|candidates|](k requires 0 <= k < |candidates| => candidates[k]);
    assert ranked[..] == candidates;
    var key := (c: ApiCandidate) => RankKey(target, c.version);
    SortByKey(ranked, key);
    SortedHeadIsLeast(ranked[..], key);
    var first := ranked[0];
    forall x | x in ranked[..]
      ensures LexCompare(RankKey(target, ranked[..][0].version), RankKey(target, x.version)) <= 0
    {
      assert key(ranked[..][0]) == RankKey(target, ranked[..][0].version) && key(x) == RankKey(target, x.version);
    }
    LeastCandidateIsBest(apiFiles[..], target, ranked[..]);
    return Some(first.file);
  }

  /** The least-ranked of the candidates, in any order, is a parseable file that outranks every other one. */
  lemma LeastCandidateIsBest(files: seq<File>, target: McVersion, sorted: seq<ApiCandidate>)
    requires |sorted| > 0 && multiset(sorted) == multiset(Candidates(files))
    requires forall x :: x in sorted ==> LexCompare(RankKey(target, sorted[0].version), RankKey(target, x.version)) <= 0
    ensures sorted[0].file in files && FileVersion(sorted[0].file) == Some(sorted[0].version)
    ensures forall f :: f in files && Parses(f) ==>
      LexCompare(RankKey(target, sorted[0].version), RankKey(target, FileVersion(f).value)) <= 0 &&
      (SameVersion(FileVersion(f).value, target) ==> SameVersion(sorted[0].version, target)) &&
      (IsCompatibleWith(FileVersion(f).value, target) ==> IsCompatibleWith(sorted[0].version, target))
  {
    CandidatesMembers(files);
    assert sorted[0] in multiset(Candidates(files));
    forall f | f in files && Parses(f)
      ensures LexCompare(RankKey(target, sorted[0].version), RankKey(target, FileVersion(f).value)) <= 0
      ensures SameVersion(FileVersion(f).value, target) ==> SameVersion(sorted[0].version, target)
      ensures IsCompatibleWith(FileVersion(f).value, target) ==> IsCompatibleWith(sorted[0].version, target)
    {
      var c := ApiCandidate(f, FileVersion(f).value);
      assert c in multiset(sorted);
      ExactRanksFirst(target, sorted[0].version, c.version);
    }
  }

  /** An exact match strictly outranks every version that is not exact. */
  lemma ExactOutranksOthers(target: McVersion, v: McVersion, w: McVersion)
    requires SameVersion(v, target) && !SameVersion(w, target)
    ensures LexCompare(RankKey(target, v), RankKey(target, w)) < 0
  {
    LexStep(RankKey(target, v), RankKey(target, w));
  }

  /** Against 1.20, with neither candidate compatible, 1.23 (330) outranks 1.16 (360). */
  lemma BestMatchScoreExample()
    ensures LexCompare(RankKey(McVersion(1, 20, 0, "1.20"), McVersion(1, 23, 0, "1.23")),
                       RankKey(McVersion(1, 20, 0, "1.20"), McVersion(1, 16, 0, "1.16"))) < 0
  {
    var t := McVersion(1, 20, 0, "1.20");
    var a, b := RankKey(t, McVersion(1, 23, 0, "1.23")), RankKey(t, McVersion(1, 16, 0, "1.16"));
    assert a == [1, 1, 330, -1, -23, 0] && b == [1, 1, 360, -1, -16, 0];
    LexStep(a, b);
    LexStep(a[1..], b[1..]);
    LexStep(a[1..][1..], b[1..][1..]);
  }
}
