/**
 * The few JavaScript string operations the portal relies on: `trim`, the
 * regular-expression class `\s`, `toLowerCase` (ASCII part), `Array.join`,
 * the `String(n)` rendering of integral numbers, and a `split` used to state
 * what `join` produces.
 */
module JsText {
  import opened Seqs

  /**
   * ECMAScript WhiteSpace and LineTerminator code points: what `\s` matches
   * in a regular expression and what `String.prototype.trim` strips.
   */
  predicate IsSpace(c: char) {
    || c == '\t' || c == '\n' || c == '\U{B}' || c == '\U{C}' || c == '\r'
    || c == ' ' || c == '\U{A0}' || c == '\U{1680}'
    || ('\U{2000}' <= c <= '\U{200A}')
    || c == '\U{2028}' || c == '\U{2029}' || c == '\U{202F}' || c == '\U{205F}'
    || c == '\U{3000}' || c == '\U{FEFF}'
  }

  predicate IsAsciiLetter(c: char) {
    ('a' <= c <= 'z') || ('A' <= c <= 'Z')
  }

  predicate IsDigit(c: char) {
    '0' <= c <= '9'
  }

  /** A character outside the Basic Multilingual Plane, stored as a surrogate pair. */
  predicate IsAstral(c: char) {
    c as int > 0xFFFF
  }

  /**
   * `s.length`: JavaScript strings count UTF-16 code units, so a character
   * outside the Basic Multilingual Plane counts twice.
   */
  function Utf16Length(s: string): (n: nat)
    ensures n == |s| + |Filter(s, IsAstral)|
    ensures (forall i :: 0 <= i < |s| ==> !IsAstral(s[i])) ==> n == |s|
  {
    FilterKeepsNoneIf(s, IsAstral);
    if s == [] then 0 else (if IsAstral(s[0]) then 2 else 1) + Utf16Length(s[1..])
  }

  lemma {:induction false} FilterKeepsNoneIf(s: string, keep: char -> bool)
    ensures (forall i :: 0 <= i < |s| ==> !keep(s[i])) ==> Filter(s, keep) == []
  {
    if s != [] {
      FilterKeepsNoneIf(s[1..], keep);
    }
  }

  /** `s` with its leading white space removed. */
  function TrimStart(s: string): (r: string)
    ensures |r| <= |s| && r == s[|s| - |r|..]
    ensures forall i :: 0 <= i < |s| - |r| ==> IsSpace(s[i])
    ensures r != [] ==> !IsSpace(r[0])
  {
    if s != [] && IsSpace(s[0]) then TrimStart(s[1..]) else s
  }

  /** `s` with its trailing white space removed. */
  function TrimEnd(s: string): (r: string)
    ensures |r| <= |s| && r == s[..|r|]
    ensures forall i :: |r| <= i < |s| ==> IsSpace(s[i])
    ensures r != [] ==> !IsSpace(r[|r| - 1])
  {
    if s != [] && IsSpace(s[|s| - 1]) then TrimEnd(s[..|s| - 1]) else s
  }

  /** `s` is `r` placed at offset `i` with only white space around it. */
  predicate SpacePadded(s: string, r: string, i: int) {
    && 0 <= i <= |s| - |r| && r == s[i..i + |r|]
    && (forall k :: 0 <= k < i ==> IsSpace(s[k]))
    && (forall k :: i + |r| <= k < |s| ==> IsSpace(s[k]))
  }

  /** `String.prototype.trim`. */
  function Trim(s: string): (r: string)
    ensures |r| <= |s|
    ensures exists i :: SpacePadded(s, r, i)
    ensures r == [] <==> forall i :: 0 <= i < |s| ==> IsSpace(s[i])
    ensures r != [] ==> !IsSpace(r[0]) && !IsSpace(r[|r| - 1])
  {
    TrimPadding(s);
    TrimEnd(TrimStart(s))
  }

  /** Where the trimmed text sits: after the leading white space that `TrimStart` skips. */
  lemma TrimPadding(s: string)
    ensures SpacePadded(s, TrimEnd(TrimStart(s)), |s| - |TrimStart(s)|)
  {
    var t := TrimStart(s);
    var r := TrimEnd(t);
    PaddedInSuffix(s, t, r, |s| - |t|);
  }

  /** White space cut from the end of a suffix is white space at the end of the whole. */
  lemma PaddedInSuffix(s: string, t: string, r: string, i: nat)
    requires i <= |s| && t == s[i..]
    requires forall k :: 0 <= k < i ==> IsSpace(s[k])
    requires |r| <= |t| && r == t[..|r|]
    requires forall k :: |r| <= k < |t| ==> IsSpace(t[k])
    ensures SpacePadded(s, r, i)
  {
    assert r == s[i..i + |r|];
    forall k | i + |r| <= k < |s| ensures IsSpace(s[k]) {
      assert s[k] == t[k - i];
    }
  }

  /** A non-empty word with non-space ends sits at one place only in its padding. */
  lemma PaddingUnique(s: string, w: string, i: int, r: string, j: int)
    requires SpacePadded(s, w, i) && SpacePadded(s, r, j)
    requires w != [] && !IsSpace(w[0]) && !IsSpace(w[|w| - 1])
    requires r != [] && !IsSpace(r[0]) && !IsSpace(r[|r| - 1])
    ensures w == r
  {
    assert s[i] == w[0] && s[i + |w| - 1] == w[|w| - 1];
    assert s[j] == r[0] && s[j + |r| - 1] == r[|r| - 1];
    assert j <= i && i <= j;
    assert j + |r| <= i + |w| && i + |w| <= j + |r|;
  }

  /**
   * Trim is determined by the above: a word that starts and ends with a
   * non-space, padded with white space, trims to exactly that word.
   */
  lemma TrimOfPadded(s: string, w: string, i: int)
    requires SpacePadded(s, w, i)
    requires w != [] ==> !IsSpace(w[0]) && !IsSpace(w[|w| - 1])
    ensures Trim(s) == w
  {
    var r := Trim(s);
    TrimPadding(s);
    if w == [] {
      forall k | 0 <= k < |s| ensures IsSpace(s[k]) {
        assert k < i || i <= k;
      }
    } else {
      assert s[i] == w[0];
      assert r != [];
      PaddingUnique(s, w, i, r, |s| - |TrimStart(s)|);
    }
  }

  /** A string that starts and ends with a non-space is its own trim. */
  lemma TrimKeeps(s: string)
    requires s != [] && !IsSpace(s[0]) && !IsSpace(s[|s| - 1])
    ensures Trim(s) == s
  {
    assert TrimStart(s) == s;
    assert TrimEnd(s) == s;
  }

  /** Trimming twice is trimming once. */
  lemma TrimIdempotent(s: string)
    ensures Trim(Trim(s)) == Trim(s)
  {
    var r := Trim(s);
    if r != [] {
      TrimKeeps(r);
    }
  }

  /** `c.toLowerCase()` on the ASCII range; every other character is left as it is. */
  function LowerChar(c: char): (r: char)
    ensures !('A' <= r <= 'Z')
    ensures 'A' <= c <= 'Z' ==> r as int == c as int + 32
    ensures !('A' <= c <= 'Z') ==> r == c
    ensures IsAsciiLetter(c) <==> IsAsciiLetter(r)
  {
    if 'A' <= c <= 'Z' then (c as int - 'A' as int + 'a' as int) as char else c
  }

  /** `s.toLowerCase()`, ASCII case mapping only. */
  function Lower(s: string): (r: string)
    ensures |r| == |s|
    ensures forall i :: 0 <= i < |r| ==> r[i] == LowerChar(s[i])
  {
    seq(|s|, i requires 0 <= i < |s| => LowerChar(s[i]))
  }

  predicate NotSpace(c: char) {
    !IsSpace(c)
  }

  /** `s.replace(/\s+/g, '')`: every run of white space deleted. */
  function RemoveSpaces(s: string): (r: string)
    ensures |s| == 1 ==> r == (if IsSpace(s[0]) then [] else s)
    ensures forall i :: 0 <= i < |r| ==> !IsSpace(r[i]) && r[i] in s
    ensures (forall i :: 0 <= i < |s| ==> !IsSpace(s[i])) ==> r == s
  {
    FilterKeepsAllIf(s, NotSpace);
    Filter(s, NotSpace)
  }

  /**
   * Deleting white space works piece by piece, so with the one-character case
   * above it determines the result: the non-space characters, in order.
   */
  lemma RemoveSpacesAppend(a: string, b: string)
    ensures RemoveSpaces(a + b) == RemoveSpaces(a) + RemoveSpaces(b)
  {
    FilterAppend(a, b, NotSpace);
  }

  lemma FilterKeepsAllIf(s: string, keep: char -> bool)
    ensures (forall i :: 0 <= i < |s| ==> keep(s[i])) ==> Filter(s, keep) == s
  {
    if forall i :: 0 <= i < |s| ==> keep(s[i]) {
      FilterKeepsAll(s, keep);
    }
  }

  /** `parts.join(sep)` for a one-character separator. */
  function Join(parts: seq<string>, sep: char): string {
    if |parts| == 0 then ""
    else if |parts| == 1 then parts[0]
    else parts[0] + [sep] + Join(parts[1..], sep)
  }

  /** `s.split(sep)` for a one-character separator: the pieces between separators. */
  function Split(s: string, sep: char): (r: seq<string>)
    ensures |r| == multiset(s)[sep] + 1
  {
    if s == [] then [""]
    else
      var rest := Split(s[1..], sep);
      assert s == [s[0]] + s[1..];
      if s[0] == sep then [""] + rest else [[s[0]] + rest[0]] + rest[1..]
  }

  lemma {:induction false} SplitWithout(w: string, sep: char)
    requires sep !in w
    ensures Split(w, sep) == [w]
  {
    if w != [] {
      SplitWithout(w[1..], sep);
      assert [w[0]] + w[1..] == w;
    }
  }

  lemma {:induction false} SplitAfterPiece(w: string, t: string, sep: char)
    requires sep !in w
    ensures Split(w + [sep] + t, sep) == [w] + Split(t, sep)
  {
    if w == [] {
      assert w + [sep] + t == [sep] + t;
      assert ([sep] + t)[1..] == t;
    } else {
      var x := w + [sep] + t;
      assert x[0] == w[0] && x[0] != sep;
      assert x[1..] == w[1..] + [sep] + t;
      SplitAfterPiece(w[1..], t, sep);
      var rest := Split(x[1..], sep);
      assert rest[0] == w[1..] && rest[1..] == Split(t, sep);
      assert [w[0]] + w[1..] == w;
    }
  }

  /** Splitting a joined list gives the list back when no piece holds the separator. */
  lemma {:induction false} SplitJoin(parts: seq<string>, sep: char)
    requires |parts| >= 1
    requires forall i :: 0 <= i < |parts| ==> sep !in parts[i]
    ensures Split(Join(parts, sep), sep) == parts
  {
    if |parts| == 1 {
      SplitWithout(parts[0], sep);
    } else {
      SplitAfterPiece(parts[0], Join(parts[1..], sep), sep);
      SplitJoin(parts[1..], sep);
      assert [parts[0]] + parts[1..] == parts;
    }
  }

  /** How often `sep` occurs inside the pieces themselves. */
  function Occurrences(parts: seq<string>, sep: char): nat {
    if parts == [] then 0 else multiset(parts[0])[sep] + Occurrences(parts[1..], sep)
  }

  /** `join` adds exactly one separator between neighbouring pieces. */
  lemma {:induction false} JoinSeparators(parts: seq<string>, sep: char)
    requires |parts| >= 1
    ensures multiset(Join(parts, sep))[sep] == |parts| - 1 + Occurrences(parts, sep)
  {
    if |parts| > 1 {
      JoinSeparators(parts[1..], sep);
    }
  }

  function DigitChar(d: int): (c: char)
    requires 0 <= d < 10
    ensures IsDigit(c)
  {
    ('0' as int + d) as char
  }

  /** The decimal numeral of `n`, most significant digit first. */
  function NatToString(n: nat): (r: string)
    ensures |r| >= 1
    ensures forall i :: 0 <= i < |r| ==> IsDigit(r[i])
    ensures n == 0 ==> r == "0"
    ensures n > 0 ==> r[0] != '0'
    ensures n < 10 <==> |r| == 1
  {
    if n < 10 then [DigitChar(n)] else NatToString(n / 10) + [DigitChar(n % 10)]
  }

  /** `String(n)` for an integral JavaScript number. */
  function IntToString(n: int): (r: string)
    ensures r != []
    ensures forall i :: 0 <= i < |r| ==> IsDigit(r[i]) || r[i] == '-'
    ensures n >= 0 ==> r == NatToString(n)
    ensures n < 0 ==> r == "-" + NatToString(-n)
  {
    if n < 0 then "-" + NatToString(-n) else NatToString(n)
  }

  /** The value of a string of decimal digits. */
  function DigitsValue(s: string): nat
    requires forall i :: 0 <= i < |s| ==> IsDigit(s[i])
  {
    if s == [] then 0
    else
      assert IsDigit(s[|s| - 1]);
      DigitsValue(s[..|s| - 1]) * 10 + (s[|s| - 1] as int - '0' as int)
  }

  /** The numeral of a number reads back as that number. */
  lemma {:induction false} NatToStringRoundTrip(n: nat)
    ensures DigitsValue(NatToString(n)) == n
  {
    if n >= 10 {
      var s := NatToString(n);
      assert s[..|s| - 1] == NatToString(n / 10);
      NatToStringRoundTrip(n / 10);
    }
  }
}
