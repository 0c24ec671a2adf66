/**
 * The java.lang.String / Character / Math primitives the SDK relies on,
 * written out so that the model does not depend on anything it cannot see.
 *
 * Case mapping and the letter/digit/case classes are those of ASCII; the
 * whitespace class is Character.isWhitespace in full.  Integers are
 * unbounded, so 32-bit wrap-around, Math.abs and the truncating `%` of Java
 * are spelled out.
 */
module JavaText {

  type String = seq<char>

  // ---------------------------------------------------------------------
  // Character classes
  // ---------------------------------------------------------------------

  predicate IsUpperCase(c: char) { 'A' <= c <= 'Z' }

  predicate IsLowerCase(c: char) { 'a' <= c <= 'z' }

  predicate IsDigit(c: char) { '0' <= c <= '9' }

  predicate IsLetterOrDigit(c: char) { IsUpperCase(c) || IsLowerCase(c) || IsDigit(c) }

  /**
   * Character.isWhitespace: a Unicode space, line or paragraph separator
   * that is not a no-break space, or one of the ASCII controls
   * \t \n \u000B \f \r \u001C \u001D \u001E \u001F.
   */
  predicate IsWhitespace(c: char)
  {
    var n := c as int;
    (0x09 <= n <= 0x0D) || (0x1C <= n <= 0x20) || n == 0x1680
    || (0x2000 <= n <= 0x2006) || (0x2008 <= n <= 0x200A)
    || n == 0x2028 || n == 0x2029 || n == 0x205F || n == 0x3000
  }

  /** Character.toLowerCase restricted to ASCII. */
  function Lower(c: char): (r: char)
    ensures IsUpperCase(c) ==> IsLowerCase(r) && r as int == c as int + 32
    ensures !IsUpperCase(c) ==> r == c
    ensures !IsUpperCase(r)
  {
    if IsUpperCase(c) then (c as int + 32) as char else c
  }

  /** Character.toUpperCase restricted to ASCII. */
  function Upper(c: char): (r: char)
    ensures IsLowerCase(c) ==> IsUpperCase(r) && r as int == c as int - 32
    ensures !IsLowerCase(c) ==> r == c
    ensures Lower(r) == Lower(c)
  {
    if IsLowerCase(c) then (c as int - 32) as char else c
  }

  /** The per-character comparison of regionMatches(true, ...) and equalsIgnoreCase. */
  predicate CharEqualsIgnoreCase(a: char, b: char)
  {
    a == b || Lower(a) == Lower(b)
  }

  /** String.toLowerCase. */
  function ToLower(s: String): (r: String)
    ensures |r| == |s|
    ensures forall i :: 0 <= i < |s| ==> r[i] == Lower(s[i])
  {
    if |s| == 0 then [] else [Lower(s[0])] + ToLower(s[1..])
  }

  /** String.toUpperCase. */
  function ToUpper(s: String): (r: String)
    ensures |r| == |s|
    ensures forall i :: 0 <= i < |s| ==> r[i] == Upper(s[i])
  {
    if |s| == 0 then [] else [Upper(s[0])] + ToUpper(s[1..])
  }

  /** String.equalsIgnoreCase. */
  predicate EqualsIgnoreCase(a: String, b: String)
  {
    |a| == |b| && forall i :: 0 <= i < |a| ==> CharEqualsIgnoreCase(a[i], b[i])
  }

  /**
   * text.regionMatches(true, offset, other, 0, other.length()): false when
   * the region falls outside `text`, otherwise a case-insensitive compare.
   */
  predicate RegionMatchesIgnoreCase(text: String, offset: int, other: String)
  {
    0 <= offset && offset + |other| <= |text|
    && forall i :: 0 <= i < |other| ==> CharEqualsIgnoreCase(text[offset + i], other[i])
  }

  /** Ignoring case is the same as comparing lower-cased copies. */
  lemma EqualsIgnoreCaseIsLowerEquality(a: String, b: String)
    ensures EqualsIgnoreCase(a, b) <==> ToLower(a) == ToLower(b)
  {
    if EqualsIgnoreCase(a, b) {
      assert forall i :: 0 <= i < |a| ==> ToLower(a)[i] == ToLower(b)[i];
    }
    if ToLower(a) == ToLower(b) {
      forall i | 0 <= i < |a|
        ensures CharEqualsIgnoreCase(a[i], b[i])
      {
        assert ToLower(a)[i] == ToLower(b)[i];
      }
    }
  }

  lemma EqualsIgnoreCaseSymmetric(a: String, b: String)
    ensures EqualsIgnoreCase(a, b) ==> EqualsIgnoreCase(b, a)
  {
  }

  lemma RegionMatchesWholeIsEquals(text: String, other: String)
    ensures RegionMatchesIgnoreCase(text, 0, other) && |text| == |other| <==> EqualsIgnoreCase(text, other)
  {
  }

  // ---------------------------------------------------------------------
  // Searching
  // ---------------------------------------------------------------------

  /** `sub` occurs in `s` at position `i` (case-sensitively). */
  predicate OccursAt(s: String, sub: String, i: int)
  {
    0 <= i && i + |sub| <= |s| && s[i..i + |sub|] == sub
  }

  /** String.indexOf(sub, from) for from >= 0. */
  function IndexOfFrom(s: String, sub: String, from: nat): (r: int)
    requires from <= |s| + 1
    ensures r == -1 || (from <= r && OccursAt(s, sub, r))
    ensures r == -1 ==> forall i :: from <= i <= |s| ==> !OccursAt(s, sub, i)
    ensures r >= 0 ==> forall i :: from <= i < r ==> !OccursAt(s, sub, i)
    decreases |s| + 1 - from
  {
    if from + |sub| > |s| then -1
    else if s[from..from + |sub|] == sub then from
    else IndexOfFrom(s, sub, from + 1)
  }

  /** String.indexOf(sub): the first case-sensitive occurrence, or -1. */
  function IndexOf(s: String, sub: String): (r: int)
    ensures r == -1 || 0 <= r <= |s| - |sub|
    ensures r >= 0 ==> OccursAt(s, sub, r) && forall i :: 0 <= i < r ==> !OccursAt(s, sub, i)
    ensures r == -1 <==> forall i :: 0 <= i <= |s| ==> !OccursAt(s, sub, i)
  {
    IndexOfFrom(s, sub, 0)
  }

  /** String.startsWith. */
  predicate StartsWith(s: String, prefix: String)
  {
    |prefix| <= |s| && s[..|prefix|] == prefix
  }

  /** String.endsWith. */
  predicate EndsWith(s: String, suffix: String)
  {
    |suffix| <= |s| && s[|s| - |suffix|..] == suffix
  }

  /** String.lastIndexOf(c) for a single character, or -1. */
  function LastIndexOfChar(s: String, c: char): (r: int)
    ensures -1 <= r < |s|
    ensures r >= 0 ==> s[r] == c
    ensures forall i :: r < i < |s| ==> s[i] != c
  {
    if |s| == 0 then -1
    else if s[|s| - 1] == c then |s| - 1
    else LastIndexOfChar(s[..|s| - 1], c)
  }

  /** `a.compareTo(b) < 0`: the first differing character decides, else the shorter string is smaller. */
  predicate LexLess(a: String, b: String)
  {
    if |a| == 0 then |b| > 0
    else if |b| == 0 then false
    else if a[0] != b[0] then a[0] < b[0]
    else LexLess(a[1..], b[1..])
  }

  /** compareTo is a strict total order. */
  lemma {:induction false} LexLessOrder(a: String, b: String, c: String)
    ensures !LexLess(a, a)
    ensures a != b ==> LexLess(a, b) || LexLess(b, a)
    ensures !(LexLess(a, b) && LexLess(b, a))
    ensures LexLess(a, b) && LexLess(b, c) ==> LexLess(a, c)
    decreases |a|
  {
    if |a| > 0 && |b| > 0 && |c| > 0 {
      LexLessOrder(a[1..], b[1..], c[1..]);
      if a[0] == b[0] && a[1..] == b[1..] {
        assert a == [a[0]] + a[1..] && b == [b[0]] + b[1..];
      }
    } else if |a| > 0 && |b| > 0 {
      LexLessOrder(a[1..], b[1..], b[1..]);
      if a[0] == b[0] && a[1..] == b[1..] {
        assert a == [a[0]] + a[1..] && b == [b[0]] + b[1..];
      }
    } else if |a| > 0 {
      LexLessOrder(a[1..], a[1..], a[1..]);
    }
  }

  // ---------------------------------------------------------------------
  // trim and split(" ")
  // ---------------------------------------------------------------------

  /** String.trim drops every leading and trailing character <= ' '. */
  function TrimStart(s: String): (r: String)
    ensures |r| <= |s| && r == s[|s| - |r|..]
    ensures |r| > 0 ==> r[0] > ' '
    ensures forall i :: 0 <= i < |s| - |r| ==> s[i] <= ' '
  {
    if |s| > 0 && s[0] <= ' ' then TrimStart(s[1..]) else s
  }

  function TrimEnd(s: String): (r: String)
    ensures |r| <= |s| && r == s[..|r|]
    ensures |r| > 0 ==> r[|r| - 1] > ' '
    ensures forall i :: |r| <= i < |s| ==> s[i] <= ' '
  {
    if |s| > 0 && s[|s| - 1] <= ' ' then TrimEnd(s[..|s| - 1]) else s
  }

  function Trim(s: String): (r: String)
  {
    TrimEnd(TrimStart(s))
  }

  /** A trimmed string is empty exactly when every character is <= ' '. */
  lemma TrimEmptyIffBlank(s: String)
    ensures |Trim(s)| == 0 <==> forall i :: 0 <= i < |s| ==> s[i] <= ' '
  {
    var a := TrimStart(s);
    if |Trim(s)| == 0 {
      assert |a| == 0;
    } else {
      var k := |s| - |a| + |Trim(s)| - 1;
      assert s[k] == a[|Trim(s)| - 1] == Trim(s)[|Trim(s)| - 1];
    }
  }

  /** The pieces between every single space of `s`; `n` spaces give n+1 pieces. */
  function SplitAll(s: String): (r: seq<String>)
    ensures |r| >= 1
    ensures forall k :: 0 <= k < |r| ==> ' ' !in r[k]
  {
    if |s| == 0 then [[]]
    else if s[0] == ' ' then [[]] + SplitAll(s[1..])
    else var rest := SplitAll(s[1..]); [[s[0]] + rest[0]] + rest[1..]
  }

  /** The inverse of splitting: the pieces joined with single spaces. */
  function JoinSpace(parts: seq<String>): String
    requires |parts| >= 1
  {
    if |parts| == 1 then parts[0] else parts[0] + [' '] + JoinSpace(parts[1..])
  }

  lemma {:induction false} JoinSplitAll(s: String)
    ensures JoinSpace(SplitAll(s)) == s
    decreases |s|
  {
    if |s| == 0 {
    } else if s[0] == ' ' {
      JoinSplitAll(s[1..]);
      assert SplitAll(s)[1..] == SplitAll(s[1..]);
      assert s == [] + [' '] + s[1..];
    } else {
      var rest := SplitAll(s[1..]);
      JoinSplitAll(s[1..]);
      if |rest| == 1 {
        assert s == [s[0]] + s[1..];
      } else {
        assert rest == [rest[0]] + rest[1..];
        assert JoinSpace(rest) == rest[0] + [' '] + JoinSpace(rest[1..]);
        assert SplitAll(s)[1..] == rest[1..];
        assert s == [s[0]] + s[1..];
      }
    }
  }

  function DropTrailingEmpty(parts: seq<String>): (r: seq<String>)
    ensures |r| <= |parts| && r == parts[..|r|]
    ensures |r| > 0 ==> |r[|r| - 1]| > 0
    ensures forall k :: |r| <= k < |parts| ==> |parts[k]| == 0
  {
    if |parts| > 0 && |parts[|parts| - 1]| == 0 then DropTrailingEmpty(parts[..|parts| - 1]) else parts
  }

  lemma SplitAllNoSpace(s: String)
    requires ' ' !in s
    ensures SplitAll(s) == [s]
  {
    if |s| > 0 {
      assert ' ' !in s[1..];
      SplitAllNoSpace(s[1..]);
      assert SplitAll(s) == [[s[0]] + s[1..]];
      assert [s[0]] + s[1..] == s;
    }
  }

  /**
   * String.split(" "): when the text holds no space the result is the text
   * itself; otherwise the pieces between single spaces with trailing empty
   * pieces removed.
   */
  function SplitSpace(s: String): (r: seq<String>)
    ensures ' ' !in s ==> r == [s]
    ensures forall k :: 0 <= k < |r| ==> ' ' !in r[k]
    ensures |r| <= |SplitAll(s)| && r == SplitAll(s)[..|r|]
  {
    if ' ' !in s then SplitAllNoSpace(s); [s] else DropTrailingEmpty(SplitAll(s))
  }

  /** Words joined by single spaces split back into the same words. */
  lemma {:induction false} SplitJoinWords(words: seq<String>)
    requires |words| >= 1
    requires forall k :: 0 <= k < |words| ==> ' ' !in words[k]
    ensures SplitAll(JoinSpace(words)) == words
    decreases |words|
  {
    if |words| == 1 {
      SplitAllNoSpace(words[0]);
    } else {
      SplitJoinWords(words[1..]);
      SplitAllPrefix(words[0], JoinSpace(words[1..]));
      assert JoinSpace(words) == words[0] + ([' '] + JoinSpace(words[1..]));
      assert words == [words[0]] + words[1..];
    }
  }

  lemma {:induction false} SplitAllPrefix(w: String, rest: String)
    requires ' ' !in w
    ensures SplitAll(w + ([' '] + rest)) == [w] + SplitAll(rest)
    decreases |w|
  {
    if |w| == 0 {
      assert w + ([' '] + rest) == [' '] + rest;
      assert ([' '] + rest)[1..] == rest;
    } else {
      assert ' ' !in w[1..];
      SplitAllPrefix(w[1..], rest);
      assert (w + ([' '] + rest))[1..] == w[1..] + ([' '] + rest);
      assert [w[0]] + w[1..] == w;
    }
  }

  // ---------------------------------------------------------------------
  // 32-bit integers
  // ---------------------------------------------------------------------

  const MIN_INT: int := -0x8000_0000
  const MAX_INT: int := 0x7FFF_FFFF
  const TWO_32: int := 0x1_0000_0000

  predicate IsInt32(x: int) { MIN_INT <= x <= MAX_INT }

  /** The int value Java keeps of an exact result: two's-complement wrap-around. */
  function Wrap32(x: int): (r: int)
    ensures IsInt32(r)
    ensures (x - r) % TWO_32 == 0
    ensures IsInt32(x) ==> r == x
  {
    var m := x % TWO_32;
    if m > MAX_INT then m - TWO_32 else m
  }

  lemma Wrap32Congruent(a: int, b: int)
    requires (a - b) % TWO_32 == 0
    ensures Wrap32(a) == Wrap32(b)
  {
    assert a % TWO_32 == b % TWO_32;
  }

  /** Math.abs(int): the magnitude, except that MIN_VALUE is its own absolute value. */
  function JavaAbs(x: int): (r: int)
    requires IsInt32(x)
    ensures x != MIN_INT ==> r >= 0 && (r == x || r == -x)
    ensures x == MIN_INT ==> r == MIN_INT
    ensures IsInt32(r)
  {
    if x == MIN_INT then MIN_INT else if x < 0 then -x else x
  }

  /** Java's `%` on int: truncating division, so the remainder takes the sign of the dividend. */
  function JavaRem(a: int, b: int): (r: int)
    requires b != 0
    ensures a >= 0 ==> 0 <= r < (if b < 0 then -b else b)
    ensures a < 0 ==> -(if b < 0 then -b else b) < r <= 0
  {
    var m := if b < 0 then -b else b;
    if a >= 0 then a % m else -((-a) % m)
  }

  /** The exact (unbounded) value behind String.hashCode: sum of s[i]*31^(n-1-i). */
  function PolyHash(s: String): int
  {
    if |s| == 0 then 0 else 31 * PolyHash(s[..|s| - 1]) + s[|s| - 1] as int
  }

  /** String.hashCode: h = 31*h + c over the characters, in 32-bit arithmetic. */
  function StringHash(s: String): (r: int)
    ensures IsInt32(r)
  {
    if |s| == 0 then 0 else Wrap32(31 * StringHash(s[..|s| - 1]) + s[|s| - 1] as int)
  }

  /** The step-by-step 32-bit hash equals the exact hash reduced once at the end. */
  lemma {:induction false} StringHashIsWrappedPolyHash(s: String)
    ensures StringHash(s) == Wrap32(PolyHash(s))
    decreases |s|
  {
    if |s| > 0 {
      var p := s[..|s| - 1];
      var c := s[|s| - 1] as int;
      StringHashIsWrappedPolyHash(p);
      HornerStepCongruent(PolyHash(p), StringHash(p), c);
      Wrap32Congruent(31 * StringHash(p) + c, 31 * PolyHash(p) + c);
    }
  }

  /** One Horner step keeps two values congruent modulo 2^32. */
  lemma HornerStepCongruent(a: int, b: int, c: int)
    requires (a - b) % TWO_32 == 0
    ensures ((31 * b + c) - (31 * a + c)) % TWO_32 == 0
  {
    var k := (a - b) / TWO_32;
    assert a - b == k * TWO_32;
    assert (31 * b + c) - (31 * a + c) == (-31 * k) * TWO_32;
  }

  /** Equal strings hash equally (hashCode is a function of the characters). */
  lemma StringHashDeterministic(a: String, b: String)
    requires a == b
    ensures StringHash(a) == StringHash(b)
  {
  }
}
