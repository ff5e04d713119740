/** String helpers shared by the services: ASCII case folding, the two
    flavours of `trim` (Java and JavaScript), substring search and Java's
    `String.compareTo`. Only ASCII letters are case-folded. */
module Text {

  /** `Character.toLowerCase` / `String.prototype.toLowerCase` on one ASCII character. */
  function LowerChar(c: char): char
  {
    if 'A' <= c <= 'Z' then (c as int - 'A' as int + 'a' as int) as char else c
  }

  /** `toLowerCase()` of a whole string. */
  function Lower(s: string): string
  {
    seq(|s|, i requires 0 <= i < |s| => LowerChar(s[i]))
  }

  lemma LowerIdempotent(s: string)
    ensures Lower(Lower(s)) == Lower(s)
  {
  }

  /** Lowercasing never turns a character into, or out of, Java trim's whitespace. */
  lemma LowerKeepsJavaSpaces(s: string)
    ensures forall i :: 0 <= i < |s| ==> (JavaSpace(Lower(s)[i]) <==> JavaSpace(s[i]))
  {
  }

  /** Lowercasing never turns a character into, or out of, JavaScript trim's whitespace. */
  lemma LowerKeepsJsSpaces(s: string)
    ensures forall i :: 0 <= i < |s| ==> (JsSpace(Lower(s)[i]) <==> JsSpace(s[i]))
  {
  }

  /** A string is blank after trimming exactly when its lowercase form is. */
  lemma LowerKeepsBlank(s: string, ws: char -> bool)
    requires forall i :: 0 <= i < |s| ==> (ws(Lower(s)[i]) <==> ws(s[i]))
    ensures Trim(Lower(s), ws) == [] <==> Trim(s, ws) == []
  {
    TrimEmpty(s, ws);
    TrimEmpty(Lower(s), ws);
  }

  /** A character outside the Basic Multilingual Plane, which UTF-16
      stores as a surrogate pair. */
  predicate Supplementary(c: char)
  {
    c as int >= 0x10000
  }

  /** Java's `String.length()`: the number of UTF-16 code units, two for
      each supplementary character and one for every other. */
  function Utf16Length(s: string): (n: nat)
    ensures |s| <= n <= 2 * |s|
  {
    if s == [] then 0 else (if Supplementary(s[0]) then 2 else 1) + Utf16Length(s[1..])
  }

  /** The UTF-16 length is the character count exactly when no character
      is supplementary, and twice it when every one is. */
  lemma {:induction false} Utf16LengthCounts(s: string)
    ensures (forall i :: 0 <= i < |s| ==> !Supplementary(s[i])) ==> Utf16Length(s) == |s|
    ensures (forall i :: 0 <= i < |s| ==> Supplementary(s[i])) ==> Utf16Length(s) == 2 * |s|
  {
    if s != [] {
      Utf16LengthCounts(s[1..]);
      assert forall i :: 1 <= i < |s| ==> s[1..][i - 1] == s[i];
    }
  }

  /** Drops the longest prefix of characters satisfying `ws`. */
  function DropLeading(s: string, ws: char -> bool): (r: string)
    ensures |r| <= |s| && r == s[|s| - |r|..]
    ensures r == [] || !ws(r[0])
  {
    if s != [] && ws(s[0]) then DropLeading(s[1..], ws) else s
  }

  /** Everything `DropLeading` drops is whitespace. */
  lemma {:induction false} DropLeadingDropsSpace(s: string, ws: char -> bool)
    ensures forall i :: 0 <= i < |s| - |DropLeading(s, ws)| ==> ws(s[i])
  {
    if s != [] && ws(s[0]) {
      DropLeadingDropsSpace(s[1..], ws);
    }
  }

  /** Drops the longest suffix of characters satisfying `ws`. */
  function DropTrailing(s: string, ws: char -> bool): (r: string)
    ensures |r| <= |s| && r == s[..|r|]
    ensures r == [] || !ws(r[|r| - 1])
  {
    if s != [] && ws(s[|s| - 1]) then DropTrailing(s[..|s| - 1], ws) else s
  }

  /** Everything `DropTrailing` drops is whitespace. */
  lemma {:induction false} DropTrailingDropsSpace(s: string, ws: char -> bool)
    ensures forall i :: |DropTrailing(s, ws)| <= i < |s| ==> ws(s[i])
  {
    if s != [] && ws(s[|s| - 1]) {
      DropTrailingDropsSpace(s[..|s| - 1], ws);
    }
  }

  /** Strips `ws` characters from both ends: the result is no longer than
      `s` and neither starts nor ends with a `ws` character. */
  function Trim(s: string, ws: char -> bool): (r: string)
    ensures |r| <= |s|
    ensures r == [] || (!ws(r[0]) && !ws(r[|r| - 1]))
  {
    DropTrailing(DropLeading(s, ws), ws)
  }

  /** A string that neither starts nor ends with whitespace is its own trim. */
  lemma TrimUnchanged(s: string, ws: char -> bool)
    requires s != [] && !ws(s[0]) && !ws(s[|s| - 1])
    ensures Trim(s, ws) == s
  {
    assert DropLeading(s, ws) == s;
    assert DropTrailing(s, ws) == s;
  }

  /** `Trim` leaves nothing exactly when `s` is all whitespace. */
  lemma TrimEmpty(s: string, ws: char -> bool)
    ensures Trim(s, ws) == [] <==> forall i :: 0 <= i < |s| ==> ws(s[i])
  {
    var front := DropLeading(s, ws);
    var r := DropTrailing(front, ws);
    DropLeadingDropsSpace(s, ws);
    DropTrailingDropsSpace(front, ws);
    if r == [] {
      forall i | 0 <= i < |s| ensures ws(s[i]) {
        if i >= |s| - |front| {
          assert s[i] == front[i - (|s| - |front|)];
        }
      }
    }
  }

  /** Java `String.trim()`: whitespace is every character up to U+0020. */
  predicate JavaSpace(c: char)
  {
    c <= ' '
  }

  function JavaTrim(s: string): string
  {
    Trim(s, JavaSpace)
  }

  /** JavaScript `String.prototype.trim()`: the WhiteSpace and LineTerminator
      characters of ECMAScript (tab, vertical tab, form feed, space,
      no-break space, byte order mark, the space separators, LF, CR, LS, PS). */
  predicate JsSpace(c: char)
  {
    var n := c as int;
    n == 0x09 || n == 0x0A || n == 0x0B || n == 0x0C || n == 0x0D || n == 0x20
    || n == 0xA0 || n == 0x1680 || (0x2000 <= n <= 0x200A) || n == 0x2028
    || n == 0x2029 || n == 0x202F || n == 0x205F || n == 0x3000 || n == 0xFEFF
  }

  function JsTrim(s: string): string
  {
    Trim(s, JsSpace)
  }

  predicate OccursAt(hay: string, needle: string, i: int)
  {
    0 <= i <= |hay| - |needle| && hay[i..i + |needle|] == needle
  }

  /** Java `String.contains` / JavaScript `String.prototype.includes`. */
  predicate Contains(hay: string, needle: string)
  {
    exists i :: 0 <= i <= |hay| - |needle| && OccursAt(hay, needle, i)
  }

  lemma ContainsMiddle(a: string, needle: string, b: string)
    ensures Contains(a + needle + b, needle)
  {
    assert OccursAt(a + needle + b, needle, |a|);
  }

  /** The sign of Java's `String.compareTo`: lexicographic by character,
      a proper prefix ordering first. */
  function CompareStrings(a: string, b: string): int
  {
    if a == [] && b == [] then 0
    else if a == [] then -1
    else if b == [] then 1
    else if a[0] < b[0] then -1
    else if a[0] > b[0] then 1
    else CompareStrings(a[1..], b[1..])
  }

  lemma {:induction false} CompareStringsSign(a: string, b: string)
    ensures -1 <= CompareStrings(a, b) <= 1
    ensures CompareStrings(a, b) == 0 <==> a == b
    ensures CompareStrings(b, a) == -CompareStrings(a, b)
  {
    if a != [] && b != [] && a[0] == b[0] {
      CompareStringsSign(a[1..], b[1..]);
      if a[1..] == b[1..] {
        assert a == [a[0]] + a[1..] && b == [b[0]] + b[1..];
      }
    }
  }

  lemma {:induction false} CompareStringsTransitive(a: string, b: string, c: string)
    requires CompareStrings(a, b) <= 0 && CompareStrings(b, c) <= 0
    ensures CompareStrings(a, c) <= 0
  {
    if a != [] && b != [] && c != [] && a[0] == b[0] && b[0] == c[0] {
      CompareStringsTransitive(a[1..], b[1..], c[1..]);
    }
  }
}
