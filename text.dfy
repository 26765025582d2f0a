/** The string operations the core relies on: Java `String.trim`, `isBlank`,
    `split(",")` and `equalsIgnoreCase`, JavaScript `String.prototype.trim`,
    and ASCII upper-casing. Characters outside ASCII are never whitespace here. */
module Text {

  /** Characters Java's `String.trim` removes: every char up to U+0020. */
  predicate IsJavaTrimmable(c: char) {
    c <= ' '
  }

  /** `Character.isWhitespace`, restricted to ASCII. */
  predicate IsJavaWhitespace(c: char) {
    c == ' ' || '\t' <= c <= '\r' || '\U{1C}' <= c <= '\U{1F}'
  }

  /** The ASCII characters JavaScript's `trim` removes (white space and line
      terminators). */
  predicate IsJsWhitespace(c: char) {
    c == ' ' || '\t' <= c <= '\r'
  }

  /** `s` has no character satisfying `ws` at either end. */
  predicate Trimmed(s: string, ws: char -> bool) {
    s == [] || (!ws(s[0]) && !ws(s[|s| - 1]))
  }

  /** Drops the leading characters that satisfy `ws`. */
  function StripStart(s: string, ws: char -> bool): (r: string)
    ensures |r| <= |s| && r == s[|s| - |r|..]
    ensures r == [] || !ws(r[0])
    ensures forall i :: 0 <= i < |s| - |r| ==> ws(s[i])
  {
    if s != [] && ws(s[0]) then StripStart(s[1..], ws) else s
  }

  /** Drops the trailing characters that satisfy `ws`. */
  function StripEnd(s: string, ws: char -> bool): (r: string)
    ensures |r| <= |s| && r == s[..|r|]
    ensures r == [] || !ws(r[|r| - 1])
    ensures forall i :: |r| <= i < |s| ==> ws(s[i])
  {
    if s != [] && ws(s[|s| - 1]) then StripEnd(s[..|s| - 1], ws) else s
  }

  /** Removes the characters satisfying `ws` from both ends. */
  function Strip(s: string, ws: char -> bool): (r: string)
    ensures Trimmed(r, ws)
    ensures |r| <= |s|
  {
    StripEnd(StripStart(s, ws), ws)
  }

  /** Java `String.trim`. */
  function JavaTrim(s: string): string {
    Strip(s, IsJavaTrimmable)
  }

  /** JavaScript `String.prototype.trim`. */
  function JsTrim(s: string): string {
    Strip(s, IsJsWhitespace)
  }

  /** Java `String.isBlank`: empty or only white space. */
  predicate IsBlank(s: string) {
    forall i :: 0 <= i < |s| ==> IsJavaWhitespace(s[i])
  }

  /** UTF-16 code units of one character: a character above U+FFFF is
      stored as a surrogate pair. */
  function Units(c: char): (n: nat)
    ensures n == 1 || n == 2
  {
    if c as int > 0xFFFF then 2 else 1
  }

  /** `String.length()` in Java and `length` in JavaScript: the number of
      UTF-16 code units, not of characters. */
  function Utf16Length(s: string): (n: nat)
    ensures |s| <= n <= 2 * |s|
    ensures s != [] ==> n >= 1
  {
    if s == [] then 0
    else
      var tail := Utf16Length(s[1..]);
      assert |s[1..]| == |s| - 1;
      Units(s[0]) + tail
  }

  /** Length in code units adds up over concatenation. */
  lemma {:induction false} Utf16LengthAppend(a: string, b: string)
    ensures Utf16Length(a + b) == Utf16Length(a) + Utf16Length(b)
  {
    if a != [] {
      var ab := a + b;
      assert ab[0] == a[0] && ab[1..] == a[1..] + b;
      Utf16LengthAppend(a[1..], b);
      assert Utf16Length(ab) == Units(a[0]) + Utf16Length(a[1..] + b);
    } else {
      assert a + b == b;
    }
  }

  /** Inside the Basic Multilingual Plane, code units and characters agree. */
  lemma {:induction false} Utf16LengthBmp(s: string)
    requires forall i :: 0 <= i < |s| ==> s[i] as int <= 0xFFFF
    ensures Utf16Length(s) == |s|
  {
    if s != [] {
      Utf16LengthBmp(s[1..]);
    }
  }

  /** A string made only of characters above U+FFFF has twice as many code
      units as characters. */
  lemma {:induction false} Utf16LengthSupplementary(s: string)
    requires forall i :: 0 <= i < |s| ==> s[i] as int > 0xFFFF
    ensures Utf16Length(s) == 2 * |s|
  {
    if s != [] {
      Utf16LengthSupplementary(s[1..]);
    }
  }

  /** The longest prefix of `s` that fits in `n` code units: `substring(0, n)`
      at a character boundary. */
  function Utf16Prefix(s: string, n: nat): (p: string)
    ensures |p| <= |s| && p == s[..|p|]
    ensures Utf16Length(p) <= n
    ensures |p| < |s| ==> Utf16Length(p) + Units(s[|p|]) > n
  {
    if s == [] || Units(s[0]) > n then []
    else
      var rest := Utf16Prefix(s[1..], n - Units(s[0]));
      var p := [s[0]] + rest;
      assert p[1..] == rest;
      assert |p| < |s| ==> s[|p|] == s[1..][|rest|];
      p
  }

  /** Stripping a string that has nothing to strip leaves it unchanged. */
  lemma StripTrimmed(s: string, ws: char -> bool)
    requires Trimmed(s, ws)
    ensures Strip(s, ws) == s
  {
  }

  /** Trimming is idempotent. */
  lemma JavaTrimIdempotent(s: string)
    ensures JavaTrim(JavaTrim(s)) == JavaTrim(s)
  {
    StripTrimmed(JavaTrim(s), IsJavaTrimmable);
  }

  /** A Java-trimmed string is left alone by JavaScript's `trim`, because every
      ASCII character JavaScript strips is one Java strips too. */
  lemma JsTrimOfJavaTrimmed(s: string)
    ensures JsTrim(JavaTrim(s)) == JavaTrim(s)
  {
    var t := JavaTrim(s);
    assert Trimmed(t, IsJsWhitespace);
    StripTrimmed(t, IsJsWhitespace);
  }

  /** A leading space makes no difference to `trim`. */
  lemma JavaTrimLeadingSpace(s: string)
    ensures JavaTrim([' '] + s) == JavaTrim(s)
  {
    StripStartCons(' ', s, IsJavaTrimmable);
  }

  /** A leading character that is stripped makes no difference. */
  lemma StripStartCons(c: char, s: string, ws: char -> bool)
    requires ws(c)
    ensures StripStart([c] + s, ws) == StripStart(s, ws)
  {
    assert ([c] + s)[1..] == s;
  }

  /** After `trim`, `isBlank` holds exactly of the empty string. */
  lemma BlankAfterTrim(s: string)
    ensures IsBlank(JavaTrim(s)) <==> JavaTrim(s) == []
  {
    var t := JavaTrim(s);
    if t != [] {
      assert !IsJavaWhitespace(t[0]);
    }
  }

  // ---------------------------------------------------------------------
  // split

  /** Splits `s` at every `sep`, keeping every (possibly empty) piece. */
  function SplitAll(s: string, sep: char): (parts: seq<string>)
    ensures |parts| >= 1
  {
    if s == [] then [[]]
    else
      var rest := SplitAll(s[1..], sep);
      if s[0] == sep then [[]] + rest else [[s[0]] + rest[0]] + rest[1..]
  }

  /** Joins pieces with `sep` between neighbours. */
  function Join(parts: seq<string>, sep: char): string
    requires |parts| >= 1
  {
    if |parts| == 1 then parts[0] else parts[0] + [sep] + Join(parts[1..], sep)
  }

  /** Splitting and joining again gives back the original string. */
  lemma {:induction false} SplitAllJoin(s: string, sep: char)
    ensures Join(SplitAll(s, sep), sep) == s
  {
    if s != [] {
      var rest := SplitAll(s[1..], sep);
      SplitAllJoin(s[1..], sep);
      if s[0] != sep {
        var parts := SplitAll(s, sep);
        if |rest| == 1 {
          assert parts == [[s[0]] + rest[0]];
        } else {
          assert parts[1..] == rest[1..];
          assert Join(rest, sep) == rest[0] + [sep] + Join(rest[1..], sep);
        }
      }
    }
  }

  /** Removes the empty pieces at the end of the list. */
  function DropTrailingEmpty(parts: seq<string>): (r: seq<string>)
    ensures |r| <= |parts| && r == parts[..|r|]
    ensures r == [] || r[|r| - 1] != []
    ensures forall i :: |r| <= i < |parts| ==> parts[i] == []
  {
    if parts != [] && parts[|parts| - 1] == [] then DropTrailingEmpty(parts[..|parts| - 1]) else parts
  }

  /** Java `s.split(String.valueOf(sep))` for a single non-special character:
      a string without a match gives itself; otherwise the pieces, with the
      empty pieces at the end dropped. */
  function JavaSplit(s: string, sep: char): seq<string>
  {
    if s == [] then [s] else DropTrailingEmpty(SplitAll(s, sep))
  }

  /** No piece of `SplitAll` contains the separator. */
  lemma {:induction false} SplitAllPieces(s: string, sep: char)
    ensures forall i :: 0 <= i < |SplitAll(s, sep)| ==> sep !in SplitAll(s, sep)[i]
  {
    if s != [] {
      SplitAllPieces(s[1..], sep);
    }
  }

  /** A string without the separator is one piece. */
  lemma {:induction false} SplitAllNoSep(s: string, sep: char)
    requires sep !in s
    ensures SplitAll(s, sep) == [s]
  {
    if s != [] {
      SplitAllNoSep(s[1..], sep);
      assert [s[0]] + s[1..] == s;
    }
  }

  /** A piece without the separator, then the separator, then the rest. */
  lemma {:induction false} SplitAllCons(a: string, sep: char, b: string)
    requires sep !in a
    ensures SplitAll(a + [sep] + b, sep) == [a] + SplitAll(b, sep)
  {
    if a == [] {
      assert a + [sep] + b == [sep] + b;
      assert ([sep] + b)[1..] == b;
    } else {
      SplitAllCons(a[1..], sep, b);
      assert (a + [sep] + b)[1..] == a[1..] + [sep] + b;
      assert [a[0]] + a[1..] == a;
    }
  }

  /** Dropping trailing empty pieces does not reach past a non-empty piece. */
  lemma {:induction false} DropTrailingEmptyCons(x: string, parts: seq<string>)
    requires DropTrailingEmpty(parts) != []
    ensures DropTrailingEmpty([x] + parts) == [x] + DropTrailingEmpty(parts)
  {
    if parts[|parts| - 1] == [] {
      DropTrailingEmptyCons(x, parts[..|parts| - 1]);
      assert ([x] + parts)[..|parts|] == [x] + parts[..|parts| - 1];
    }
  }

  /** A non-empty string without the separator splits into itself. */
  lemma JavaSplitSingle(a: string, sep: char)
    requires a != [] && sep !in a
    ensures JavaSplit(a, sep) == [a]
  {
    SplitAllNoSep(a, sep);
  }

  /** A piece, the separator and a rest that still has a non-empty piece: the
      split is that piece followed by the split of the rest. */
  lemma JavaSplitCons(a: string, sep: char, b: string)
    requires sep !in a && b != [] && JavaSplit(b, sep) != []
    ensures JavaSplit(a + [sep] + b, sep) == [a] + JavaSplit(b, sep)
  {
    SplitAllCons(a, sep, b);
    DropTrailingEmptyCons(a, SplitAll(b, sep));
  }

  /** A separator at the end adds one empty piece. */
  lemma {:induction false} SplitAllSnoc(s: string, sep: char)
    ensures SplitAll(s + [sep], sep) == SplitAll(s, sep) + [[]]
  {
    if s == [] {
      assert [] + [sep] == [sep];
    } else {
      SplitAllSnoc(s[1..], sep);
      assert (s + [sep])[1..] == s[1..] + [sep];
    }
  }

  /** A separator at the end of a non-empty string changes nothing: the empty
      piece it adds is dropped. */
  lemma JavaSplitTrailingSeparator(s: string, sep: char)
    requires s != []
    ensures JavaSplit(s + [sep], sep) == JavaSplit(s, sep)
  {
    SplitAllSnoc(s, sep);
    var parts := SplitAll(s, sep);
    assert (parts + [[]])[..|parts|] == parts;
  }

  /** No piece of a Java split contains the separator, and the pieces are those
      of `SplitAll` up to the last non-empty one. */
  lemma JavaSplitPieces(s: string, sep: char)
    ensures forall i :: 0 <= i < |JavaSplit(s, sep)| ==> sep !in JavaSplit(s, sep)[i]
    ensures s != [] ==> JavaSplit(s, sep) == DropTrailingEmpty(SplitAll(s, sep))
  {
    SplitAllPieces(s, sep);
  }

  // ---------------------------------------------------------------------
  // case

  function ToUpperChar(c: char): (u: char)
    ensures 'a' <= c <= 'z' ==> u as int == c as int - 32
    ensures !('a' <= c <= 'z') ==> u == c
  {
    if 'a' <= c <= 'z' then (c as int - 32) as char else c
  }

  /** `toUpperCase` on ASCII letters. */
  function ToUpper(s: string): (r: string)
    ensures |r| == |s| && forall i :: 0 <= i < |s| ==> r[i] == ToUpperChar(s[i])
  {
    seq(|s|, i requires 0 <= i < |s| => ToUpperChar(s[i]))
  }

  /** Java `a.equalsIgnoreCase(b)` on ASCII. */
  predicate EqualsIgnoreCase(a: string, b: string) {
    ToUpper(a) == ToUpper(b)
  }
}
