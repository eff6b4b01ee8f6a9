/**
 * The small part of java.lang the core relies on, written out exactly:
 * String.trim, String.split on a literal dot, String.replace, String.contains,
 * String.lastIndexOf, Integer.parseInt and Integer.toString, plus the
 * Option/Result wrappers used for Java's null and exceptions.
 */
module JavaLang {

  datatype Option<+T> = None | Some(value: T)

  datatype Result<+T, +E> = Success(value: T) | Failure(error: E)

  /** java.io.File: its parent path ("" when it has none) and its name. */
  datatype File = File(parent: string, name: string)

  /** The value range of a Java `int`. */
  const IntMin: int := -0x8000_0000
  const IntMax: int := 0x7FFF_FFFF

  // ---------------------------------------------------------------------
  // Characters
  // ---------------------------------------------------------------------

  /** `\d` of java.util.regex (ASCII digits only, the default). */
  predicate IsDigit(c: char) { '0' <= c <= '9' }

  predicate AllDigits(s: string) { forall i :: 0 <= i < |s| ==> IsDigit(s[i]) }

  /** `\s` of java.util.regex: [ \t\n\x0B\f\r]. */
  predicate IsSpace(c: char)
  {
    c == ' ' || c == '\t' || c == '\n' || c == '\U{000B}' || c == '\U{000C}' || c == '\r'
  }

  /** A word character for `\b`: [a-zA-Z0-9_]. */
  predicate IsWordChar(c: char)
  {
    ('a' <= c <= 'z') || ('A' <= c <= 'Z') || IsDigit(c) || c == '_'
  }

  /** End of the longest run of ASCII digits starting at index i. */
  function DigitRunEnd(s: string, i: nat): (e: nat)
    requires i <= |s|
    ensures i <= e <= |s|
    ensures forall k :: i <= k < e ==> IsDigit(s[k])
    ensures e < |s| ==> !IsDigit(s[e])
    decreases |s| - i
  {
    if i < |s| && IsDigit(s[i]) then DigitRunEnd(s, i + 1) else i
  }

  predicate IsQuote(c: char) { c == '"' || c == '\'' }

  /** ASCII lower-casing, as CASE_INSENSITIVE matching compares letters. */
  function ToLowerChar(c: char): char
  {
    if 'A' <= c <= 'Z' then (c as int + 32) as char else c
  }

  function ToLower(s: string): (r: string)
    ensures |r| == |s|
  {
    seq(|s|, i requires 0 <= i < |s| => ToLowerChar(s[i]))
  }

  // ---------------------------------------------------------------------
  // Prefixes, suffixes, substrings
  // ---------------------------------------------------------------------

  /** `t` occurs in `s` at index `i`. */
  predicate StartsAt(s: string, i: nat, t: string)
  {
    i + |t| <= |s| && s[i..i + |t|] == t
  }

  /** `t` occurs in `s` at index `i`, ASCII letters compared without case. */
  predicate StartsAtIgnoreCase(s: string, i: nat, t: string)
  {
    i + |t| <= |s| && forall k :: 0 <= k < |t| ==> ToLowerChar(s[i + k]) == ToLowerChar(t[k])
  }

  predicate StartsWith(s: string, t: string) { StartsAt(s, 0, t) }

  predicate EndsWith(s: string, t: string)
  {
    |t| <= |s| && s[|s| - |t|..] == t
  }

  /** String.contains */
  predicate Contains(s: string, t: string)
  {
    exists i: nat | i <= |s| :: StartsAt(s, i, t)
  }

  /** String.lastIndexOf(char): -1 when absent. */
  function LastIndexOf(s: string, c: char): (r: int)
    ensures -1 <= r < |s|
    ensures r >= 0 ==> s[r] == c
    ensures forall k :: r < k < |s| ==> s[k] != c
  {
    if |s| == 0 then -1
    else if s[|s| - 1] == c then |s| - 1
    else LastIndexOf(s[..|s| - 1], c)
  }

  function CountChar(s: string, c: char): nat
  {
    if |s| == 0 then 0
    else CountChar(s[..|s| - 1], c) + (if s[|s| - 1] == c then 1 else 0)
  }

  // ---------------------------------------------------------------------
  // trim
  // ---------------------------------------------------------------------

  function TrimStart(s: string): string
  {
    if |s| > 0 && s[0] <= ' ' then TrimStart(s[1..]) else s
  }

  function TrimEnd(s: string): string
  {
    if |s| > 0 && s[|s| - 1] <= ' ' then TrimEnd(s[..|s| - 1]) else s
  }

  /** String.trim: drops every leading and trailing character up to U+0020. */
  function Trim(s: string): string
  {
    TrimEnd(TrimStart(s))
  }

  /** A string without characters up to U+0020 is its own trim. */
  lemma TrimNoSpace(s: string)
    requires forall i :: 0 <= i < |s| ==> s[i] > ' '
    ensures Trim(s) == s
  {
  }

  // ---------------------------------------------------------------------
  // replace
  // ---------------------------------------------------------------------

  /** "abc".replace("", r) == r + "a" + r + "b" + r + "c" + r */
  function InsertEverywhere(s: string, r: string): string
  {
    if |s| == 0 then r else r + [s[0]] + InsertEverywhere(s[1..], r)
  }

  /**
   * String.replace(CharSequence, CharSequence): every occurrence of `t`,
   * scanning from the left and without overlaps, becomes `r`.
   */
  function ReplaceAll(s: string, t: string, r: string): string
    decreases |s|
  {
    if |t| == 0 then InsertEverywhere(s, r)
    else if |s| < |t| then s
    else if s[..|t|] == t then r + ReplaceAll(s[|t|..], t, r)
    else [s[0]] + ReplaceAll(s[1..], t, r)
  }

  /** String.replace(char, char) */
  function ReplaceChar(s: string, a: char, b: char): (r: string)
    ensures |r| == |s|
    ensures forall i :: 0 <= i < |s| ==> r[i] == if s[i] == a then b else s[i]
  {
    seq(|s|, i requires 0 <= i < |s| => if s[i] == a then b else s[i])
  }

  /** Without an occurrence of `t`, replacing `t` changes nothing. */
  lemma {:induction false} ReplaceAllAbsent(s: string, t: string, r: string)
    requires |t| > 0 && !Contains(s, t)
    ensures ReplaceAll(s, t, r) == s
    decreases |s|
  {
    if |s| >= |t| {
      assert !StartsAt(s, 0, t);
      assert s[..|t|] != t;
      if Contains(s[1..], t) {
        var i: nat :| i <= |s[1..]| && StartsAt(s[1..], i, t);
        assert i + |t| <= |s| - 1;
        assert s[1..][i..i + |t|] == s[i + 1..i + 1 + |t|];
        assert StartsAt(s, i + 1, t);
      }
      ReplaceAllAbsent(s[1..], t, r);
    }
  }

  /** Concatenation is associative. */
  lemma ConcatAssoc(a: string, b: string, c: string)
    ensures a + (b + c) == a + b + c
  {
  }

  /** A prefix free of the first character of `t` is copied verbatim. */
  lemma {:induction false} ReplaceAllSkipsPrefix(a: string, b: string, t: string, r: string)
    requires |t| > 0
    requires forall i :: 0 <= i < |a| ==> a[i] != t[0]
    ensures ReplaceAll(a + b, t, r) == a + ReplaceAll(b, t, r)
    decreases |a|
  {
    if |a| > 0 {
      var s := a + b;
      assert s[1..] == a[1..] + b;
      ReplaceAllSkipsPrefix(a[1..], b, t, r);
      if |s| >= |t| {
        assert s[..|t|][0] == a[0];
        assert ReplaceAll(s, t, r) == [a[0]] + ReplaceAll(a[1..] + b, t, r);
        ConcatAssoc([a[0]], a[1..], ReplaceAll(b, t, r));
        assert [a[0]] + a[1..] == a;
      } else {
        assert ReplaceAll(b, t, r) == b;
      }
    } else {
      assert a + b == b;
    }
  }

  /** Replacing a one-character string is replacing that character. */
  lemma {:induction false} ReplaceAllOneChar(s: string, a: char, b: char)
    ensures ReplaceAll(s, [a], [b]) == ReplaceChar(s, a, b)
    decreases |s|
  {
    if |s| > 0 {
      ReplaceAllOneChar(s[1..], a, b);
      assert s[..1] == [s[0]];
      assert ReplaceChar(s, a, b) == [if s[0] == a then b else s[0]] + ReplaceChar(s[1..], a, b);
    }
  }

  // ---------------------------------------------------------------------
  // split
  // ---------------------------------------------------------------------

  /** Every piece between occurrences of `c`, empty pieces included (split with limit -1). */
  function SplitAll(s: string, c: char): (r: seq<string>)
    ensures |r| >= 1
  {
    if |s| == 0 then [""]
    else if s[0] == c then [""] + SplitAll(s[1..], c)
    else
      var rest := SplitAll(s[1..], c);
      [[s[0]] + rest[0]] + rest[1..]
  }

  function DropTrailingEmpty(r: seq<string>): (q: seq<string>)
    ensures |q| <= |r|
    ensures q == r[..|q|]
  {
    if |r| > 0 && r[|r| - 1] == "" then DropTrailingEmpty(r[..|r| - 1]) else r
  }

  /** Only empty pieces are dropped, and the last piece kept is not empty. */
  lemma {:induction false} DropTrailingEmptyRest(r: seq<string>)
    ensures forall k :: |DropTrailingEmpty(r)| <= k < |r| ==> r[k] == ""
    ensures |DropTrailingEmpty(r)| > 0 ==> DropTrailingEmpty(r)[|DropTrailingEmpty(r)| - 1] != ""
  {
    if |r| > 0 && r[|r| - 1] == "" {
      DropTrailingEmptyRest(r[..|r| - 1]);
    }
  }

  /**
   * String.split around one literal character (limit 0): trailing empty
   * pieces are removed; a string without the character is its own only piece.
   */
  function JavaSplit(s: string, c: char): seq<string>
  {
    if c !in s then [s] else DropTrailingEmpty(SplitAll(s, c))
  }

  lemma {:induction false} SplitAllNoSep(s: string, c: char)
    requires c !in s
    ensures SplitAll(s, c) == [s]
  {
    if |s| > 0 {
      SplitAllNoSep(s[1..], c);
      assert [s[0]] + s[1..] == s;
    }
  }

  lemma {:induction false} SplitAllCons(a: string, b: string, c: char)
    requires c !in a
    ensures SplitAll(a + [c] + b, c) == [a] + SplitAll(b, c)
    decreases |a|
  {
    var s := a + [c] + b;
    if |a| == 0 {
      assert s[0] == c && s[1..] == b;
    } else {
      assert s[0] == a[0] && s[0] != c;
      assert s[1..] == a[1..] + [c] + b;
      SplitAllCons(a[1..], b, c);
      assert [a[0]] + a[1..] == a;
    }
  }

  /** No piece holds the separator. */
  lemma {:induction false} SplitAllPiecesNoSep(s: string, c: char)
    ensures forall k :: 0 <= k < |SplitAll(s, c)| ==> c !in SplitAll(s, c)[k]
  {
    if |s| > 0 {
      SplitAllPiecesNoSep(s[1..], c);
    }
  }

  /** The number of pieces is one more than the number of separators. */
  lemma {:induction false} SplitAllLength(s: string, c: char)
    ensures |SplitAll(s, c)| == CountCharFront(s, c) + 1
  {
    if |s| > 0 {
      SplitAllLength(s[1..], c);
    }
  }

  /** CountChar counted from the front; the two agree (CountCharAgree). */
  function CountCharFront(s: string, c: char): nat
  {
    if |s| == 0 then 0 else (if s[0] == c then 1 else 0) + CountCharFront(s[1..], c)
  }

  lemma {:induction false} CountCharAgree(s: string, c: char)
    ensures CountCharFront(s, c) == CountChar(s, c)
    decreases |s|
  {
    if |s| > 0 {
      var init := s[..|s| - 1];
      CountCharAgree(init, c);
      CountCharFrontSnoc(init, s[|s| - 1], c);
      assert init + [s[|s| - 1]] == s;
    }
  }

  lemma {:induction false} CountCharFrontSnoc(s: string, x: char, c: char)
    ensures CountCharFront(s + [x], c) == CountCharFront(s, c) + (if x == c then 1 else 0)
    decreases |s|
  {
    if |s| > 0 {
      assert (s + [x])[1..] == s[1..] + [x];
      CountCharFrontSnoc(s[1..], x, c);
    }
  }

  /** Joining the pieces back with the separator gives the string split. */
  lemma {:induction false} SplitAllJoin(s: string, c: char)
    ensures Join(SplitAll(s, c), [c]) == s
  {
    if |s| > 0 {
      var rest := SplitAll(s[1..], c);
      SplitAllJoin(s[1..], c);
      if s[0] == c {
        assert SplitAll(s, c) == [""] + rest;
        assert ([""] + rest)[1..] == rest;
        assert [c] + s[1..] == s;
      } else {
        assert SplitAll(s, c) == [[s[0]] + rest[0]] + rest[1..];
        JoinConsHead(s[0], rest, [c]);
        assert [s[0]] + s[1..] == s;
      }
    }
  }

  /** Prefixing the first part prefixes the join. */
  lemma JoinConsHead(x: char, parts: seq<string>, sep: string)
    requires |parts| > 0
    ensures Join([[x] + parts[0]] + parts[1..], sep) == [x] + Join(parts, sep)
  {
    var q := [[x] + parts[0]] + parts[1..];
    assert q[1..] == parts[1..];
  }

  /** Splitting "a.b" on '.' when neither piece holds a dot and b is non-empty. */
  lemma SplitTwo(a: string, b: string, c: char)
    requires c !in a && c !in b && |b| > 0
    ensures JavaSplit(a + [c] + b, c) == [a, b]
  {
    var s := a + [c] + b;
    assert s[|a|] == c;
    SplitAllCons(a, b, c);
    SplitAllNoSep(b, c);
  }

  /** Splitting "a.b.d" on '.' when no piece holds a dot and d is non-empty. */
  lemma SplitThree(a: string, b: string, d: string, c: char)
    requires c !in a && c !in b && c !in d && |d| > 0
    ensures JavaSplit(a + [c] + b + [c] + d, c) == [a, b, d]
  {
    var s := a + [c] + b + [c] + d;
    assert s[|a|] == c;
    assert s == a + [c] + (b + [c] + d);
    SplitAllCons(a, b + [c] + d, c);
    SplitAllCons(b, d, c);
    SplitAllNoSep(d, c);
  }

  // ---------------------------------------------------------------------
  // Streams and file filters
  // ---------------------------------------------------------------------

  /** The elements of `s` that satisfy `p`, in order (Stream.filter, File.listFiles with a filter). */
  function Filter<T(!new)>(s: seq<T>, p: T -> bool): (r: seq<T>)
    ensures |r| <= |s|
    ensures forall x :: x in r <==> x in s && p(x)
  {
    if |s| == 0 then []
    else (if p(s[0]) then [s[0]] else []) + Filter(s[1..], p)
  }

  /** Filtering a list extended by one element. */
  lemma {:induction false} FilterSnoc<T(!new)>(s: seq<T>, x: T, p: T -> bool)
    ensures Filter(s + [x], p) == Filter(s, p) + (if p(x) then [x] else [])
    decreases |s|
  {
    if |s| == 0 {
      assert ([] + [x])[1..] == [];
    } else {
      assert (s + [x])[0] == s[0] && (s + [x])[1..] == s[1..] + [x];
      FilterSnoc(s[1..], x, p);
    }
  }

  /** `r` is `s` with some elements left out, the rest in their order. */
  predicate IsSubsequence<T(==)>(r: seq<T>, s: seq<T>)
    decreases |s|
  {
    if |r| == 0 then true
    else if |s| == 0 then false
    else if r[0] == s[0] then IsSubsequence(r[1..], s[1..])
    else IsSubsequence(r, s[1..])
  }

  /** A filter keeps the order of what it keeps. */
  lemma {:induction false} FilterIsSubsequence<T(!new)>(s: seq<T>, p: T -> bool)
    ensures IsSubsequence(Filter(s, p), s)
  {
    if |s| > 0 {
      FilterIsSubsequence(s[1..], p);
      if p(s[0]) {
        assert Filter(s, p) == [s[0]] + Filter(s[1..], p);
        assert Filter(s, p)[1..] == Filter(s[1..], p);
      } else {
        assert Filter(s, p) == Filter(s[1..], p);
        SubsequenceOfTail(Filter(s, p), s);
      }
    }
  }

  lemma SubsequenceOfTail<T>(r: seq<T>, s: seq<T>)
    requires |s| > 0 && IsSubsequence(r, s[1..])
    ensures IsSubsequence(r, s)
  {
    if |r| > 0 && r[0] == s[0] {
      SubsequenceDropHead(r, s[1..]);
    }
  }

  lemma {:induction false} SubsequenceDropHead<T>(r: seq<T>, s: seq<T>)
    requires |r| > 0 && IsSubsequence(r, s)
    ensures IsSubsequence(r[1..], s)
    decreases |s|
  {
    if r[0] != s[0] {
      SubsequenceDropHead(r, s[1..]);
    }
    // now IsSubsequence(r[1..], s[1..])
    if |r| > 1 && r[1] == s[0] {
      assert r[1..][1..] == r[2..];
      SubsequenceDropHead(r[1..], s[1..]);
    }
  }

  /** Stream.filter(p).findFirst(): the index of the first element from `i` on that passes `p`. */
  function FindFirst<T>(s: seq<T>, p: T -> bool, i: nat): (r: Option<nat>)
    requires i <= |s|
    ensures r.Some? ==> i <= r.value < |s| && p(s[r.value])
    ensures r.Some? ==> forall j :: i <= j < r.value ==> !p(s[j])
    ensures r.None? <==> forall j :: i <= j < |s| ==> !p(s[j])
    decreases |s| - i
  {
    if i == |s| then None
    else if p(s[i]) then Some(i)
    else FindFirst(s, p, i + 1)
  }

  function Join(parts: seq<string>, sep: string): string
  {
    if |parts| == 0 then ""
    else if |parts| == 1 then parts[0]
    else parts[0] + sep + Join(parts[1..], sep)
  }

  // ---------------------------------------------------------------------
  // Integer.parseInt and Integer.toString
  // ---------------------------------------------------------------------

  function DigitChar(d: nat): char
    requires d < 10
  {
    ('0' as int + d) as char
  }

  /** The value of a string of ASCII digits. */
  function DigitsValue(s: string): nat
    requires AllDigits(s)
  {
    if |s| == 0 then 0
    else DigitsValue(s[..|s| - 1]) * 10 + (s[|s| - 1] as int - '0' as int)
  }

  /** Decimal text of a non-negative number, without leading zeros. */
  function NatToString(n: nat): (r: string)
    ensures |r| >= 1 && AllDigits(r)
  {
    if n < 10 then [DigitChar(n)] else NatToString(n / 10) + [DigitChar(n % 10)]
  }

  /** Integer.toString */
  function IntToString(i: int): string
  {
    if i < 0 then "-" + NatToString(-i) else NatToString(i)
  }

  /**
   * Integer.parseInt: an optional sign, then one or more ASCII digits, and a
   * value inside the int range; anything else is a NumberFormatException
   * (None).
   */
  function ParseInt(s: string): (r: Option<int>)
    ensures r.Some? ==> IntMin <= r.value <= IntMax
    ensures r.Some? ==> |s| > 0 && (IsDigit(s[0]) || s[0] == '-' || s[0] == '+')
  {
    if |s| == 0 then None
    else
      var negative := s[0] == '-';
      var body := if s[0] == '-' || s[0] == '+' then s[1..] else s;
      if |body| == 0 || !AllDigits(body) then None
      else
        var v := if negative then -(DigitsValue(body) as int) else DigitsValue(body) as int;
        if IntMin <= v <= IntMax then Some(v) else None
  }

  lemma {:induction false} DigitsValueOfNatToString(n: nat)
    ensures DigitsValue(NatToString(n)) == n
  {
    if n >= 10 {
      var s := NatToString(n);
      var prefix := NatToString(n / 10);
      assert s == prefix + [DigitChar(n % 10)];
      assert s[..|s| - 1] == prefix;
      DigitsValueOfNatToString(n / 10);
    }
  }

  /** Reading back the text of an int-sized non-negative number gives the number. */
  lemma ParseIntOfNatToString(n: nat)
    requires n <= IntMax
    ensures ParseInt(NatToString(n)) == Some(n)
  {
    var s := NatToString(n);
    assert IsDigit(s[0]);
    DigitsValueOfNatToString(n);
  }

  /** Integer.parseInt reads back Integer.toString over the whole int range. */
  lemma ParseIntOfIntToString(i: int)
    requires IntMin <= i <= IntMax
    ensures ParseInt(IntToString(i)) == Some(i)
  {
    if i < 0 {
      var t := NatToString(-i);
      DigitsValueOfNatToString(-i);
      ParseIntNegative(t);
    } else {
      ParseIntOfNatToString(i);
    }
  }

  /** A minus sign before digits whose value fits reads back as the negated value. */
  lemma ParseIntNegative(t: string)
    requires |t| > 0 && AllDigits(t) && DigitsValue(t) <= -IntMin
    ensures ParseInt("-" + t) == Some(-(DigitsValue(t) as int))
  {
    var s := "-" + t;
    assert s[0] == '-' && s[1..] == t;
  }

  /** Decimal text has no dot and no character up to U+0020. */
  lemma IntToStringChars(i: int)
    ensures |IntToString(i)| > 0
    ensures forall k :: 0 <= k < |IntToString(i)| ==> IntToString(i)[k] > ' ' && IntToString(i)[k] != '.'
  {
  }
}
