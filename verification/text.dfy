// The JavaScript string operations the line parsers rely on: `split` on one
// separator character, `trim`, the `/^[\s"]+/` / `/[\s"]+$/` strip, the
// `/\(.*\)$/` suffix removal and indexing a split result past its end.
module Text {
  import opened Common

  /** The characters JavaScript's `trim` and the regular-expression class `\s` remove
      (ECMAScript's WhiteSpace and LineTerminator productions). */
  predicate IsJsWhitespace(c: char)
  {
    c == '\t' || c == '\n' || c == '\U{000B}' || c == '\U{000C}' || c == '\r' || c == ' '
    || c == '\U{00A0}' || c == '\U{1680}' || ('\U{2000}' <= c <= '\U{200A}')
    || c == '\U{2028}' || c == '\U{2029}' || c == '\U{202F}' || c == '\U{205F}'
    || c == '\U{3000}' || c == '\U{FEFF}'
  }

  /** The characters the regular-expression `.` does not match. */
  predicate IsLineTerminator(c: char)
  {
    c == '\n' || c == '\r' || c == '\U{2028}' || c == '\U{2029}'
  }

  predicate IsWhitespaceOrQuote(c: char)
  {
    IsJsWhitespace(c) || c == '"'
  }

  // ---------------------------------------------------------------------------
  // split

  /** Index of the first `sep` in `s`. */
  function IndexOf(s: string, sep: char): (i: nat)
    requires sep in s
    ensures i < |s| && s[i] == sep && sep !in s[..i]
  {
    if s[0] == sep then 0
    else
      assert sep in s[1..] by { var k :| 0 <= k < |s| && s[k] == sep; assert s[1..][k - 1] == sep; }
      var i := 1 + IndexOf(s[1..], sep);
      assert s[..i] == [s[0]] + s[1..][..i - 1];
      i
  }

  /** The parts joined back with the separator between them (`Array.prototype.join`). */
  function Join(parts: seq<string>, sep: char): string
    requires |parts| >= 1
  {
    if |parts| == 1 then parts[0] else parts[0] + [sep] + Join(parts[1..], sep)
  }

  /** `s.split(sep)` for a one-character separator: never empty, no part contains the
      separator, and joining the parts gives back `s`. */
  function Split(s: string, sep: char): (parts: seq<string>)
    ensures |parts| >= 1
    ensures |parts| == 1 <==> sep !in s
    ensures forall k :: 0 <= k < |parts| ==> sep !in parts[k]
    ensures Join(parts, sep) == s
    decreases |s|
  {
    if sep !in s then [s]
    else
      var i := IndexOf(s, sep);
      var rest := Split(s[i + 1..], sep);
      assert s == s[..i] + [sep] + s[i + 1..];
      [s[..i]] + rest
  }

  /** Splitting undoes joining when no part contains the separator. */
  lemma {:induction false} SplitJoin(parts: seq<string>, sep: char)
    requires |parts| >= 1
    requires forall k :: 0 <= k < |parts| ==> sep !in parts[k]
    ensures Split(Join(parts, sep), sep) == parts
    decreases |parts|
  {
    var s := Join(parts, sep);
    if |parts| == 1 {
    } else {
      var tail := Join(parts[1..], sep);
      assert s == parts[0] + [sep] + tail;
      assert sep in s by { assert s[|parts[0]|] == sep; }
      var i := IndexOf(s, sep);
      assert i == |parts[0]| by {
        assert s[..|parts[0]|] == parts[0];
        assert s[|parts[0]|] == sep;
      }
      assert s[..i] == parts[0];
      assert s[i + 1..] == tail;
      SplitJoin(parts[1..], sep);
    }
  }

  /** `cols[k]`, or `undefined` past the end. */
  function Column(cols: seq<string>, k: nat): (c: Option<string>)
    ensures c.Some? <==> k < |cols|
    ensures c.Some? ==> c.value == cols[k]
  {
    if k < |cols| then Some(cols[k]) else None
  }

  // ---------------------------------------------------------------------------
  // trim and strip

  /** Number of leading characters of `s` that satisfy `junk`. */
  function LeadingCount(s: string, junk: char -> bool): (n: nat)
    ensures n <= |s|
    ensures forall k :: 0 <= k < n ==> junk(s[k])
    ensures n < |s| ==> !junk(s[n])
  {
    if s == [] || !junk(s[0]) then 0
    else 1 + LeadingCount(s[1..], junk)
  }

  /** Number of trailing characters of `s` that satisfy `junk`. */
  function TrailingCount(s: string, junk: char -> bool): (n: nat)
    ensures n <= |s|
    ensures forall k :: |s| - n <= k < |s| ==> junk(s[k])
    ensures n < |s| ==> !junk(s[|s| - 1 - n])
  {
    if s == [] || !junk(s[|s| - 1]) then 0
    else 1 + TrailingCount(s[..|s| - 1], junk)
  }

  /** `r` is `s` with every leading and trailing `junk` character removed and nothing else:
      a contiguous slice of `s`, only junk outside it, and no junk at either of its ends. */
  ghost predicate IsStripped(s: string, r: string, junk: char -> bool)
  {
    exists i :: StrippedAt(s, r, junk, i)
  }

  /** `r` sits at offset `i` of `s` as `IsStripped` describes. */
  ghost predicate StrippedAt(s: string, r: string, junk: char -> bool, i: int)
  {
    0 <= i && i + |r| <= |s| && r == s[i..i + |r|]
    && (forall k :: 0 <= k < i ==> junk(s[k]))
    && (forall k :: i + |r| <= k < |s| ==> junk(s[k]))
    && (r != [] ==> !junk(r[0]) && !junk(r[|r| - 1]))
  }

  function StripBy(s: string, junk: char -> bool): (r: string)
    ensures IsStripped(s, r, junk)
  {
    var a := LeadingCount(s, junk);
    var b := TrailingCount(s[a..], junk);
    var r := s[a..|s| - b];
    assert r == s[a..a + |r|];
    assert forall k :: a + |r| <= k < |s| ==> junk(s[k]) by {
      forall k | a + |r| <= k < |s| ensures junk(s[k]) { assert s[a..][k - a] == s[k]; }
    }
    assert r != [] ==> !junk(r[|r| - 1]) by {
      if r != [] { assert s[a..][|s[a..]| - 1 - b] == r[|r| - 1]; }
    }
    assert StrippedAt(s, r, junk, a);
    r
  }

  /** JavaScript's `String.prototype.trim`. */
  function Trim(s: string): (r: string)
    ensures IsStripped(s, r, IsJsWhitespace)
  {
    StripBy(s, IsJsWhitespace)
  }

  /** `s.replace(/^[\s\"]+/, "").replace(/[\s\"]+$/, "")`. */
  function StripQuotes(s: string): (r: string)
    ensures IsStripped(s, r, IsWhitespaceOrQuote)
  {
    StripBy(s, IsWhitespaceOrQuote)
  }

  /** The stripped form of a string is unique, so stripping twice changes nothing. */
  lemma StrippedIsUnique(s: string, r1: string, r2: string, junk: char -> bool)
    requires IsStripped(s, r1, junk) && IsStripped(s, r2, junk)
    ensures r1 == r2
  {
    var i1 :| StrippedAt(s, r1, junk, i1);
    var i2 :| StrippedAt(s, r2, junk, i2);
    assert r1 != [] ==> s[i1] == r1[0];
    assert r2 != [] ==> s[i2] == r2[0];
    if r1 != [] && r2 != [] {
      assert i1 == i2;
      assert s[i1 + |r1| - 1] == r1[|r1| - 1] && s[i2 + |r2| - 1] == r2[|r2| - 1];
      assert |r1| == |r2|;
    }
  }

  lemma TrimIdempotent(s: string)
    ensures Trim(Trim(s)) == Trim(s)
  {
    var t := Trim(s);
    assert StrippedAt(t, t, IsJsWhitespace, 0) by {
      assert t == t[0..0 + |t|];
    }
    StrippedIsUnique(t, Trim(t), t, IsJsWhitespace);
  }

  // ---------------------------------------------------------------------------
  // removing a trailing "(...)"

  /** `/\(.*\)$/` matches at position `p`: an opening parenthesis there, a closing one as the
      last character, and no line terminator in between. */
  predicate ParenMatchAt(s: string, p: nat)
  {
    p + 2 <= |s| && s[p] == '(' && s[|s| - 1] == ')'
    && forall k :: p < k < |s| - 1 ==> !IsLineTerminator(s[k])
  }

  /** The leftmost position at or after `from` where the pattern matches. */
  function ParenSearch(s: string, from: nat): (p: Option<nat>)
    ensures p.Some? ==> from <= p.value && ParenMatchAt(s, p.value)
    ensures forall q :: from <= q < (if p.Some? then p.value else |s|) ==> !ParenMatchAt(s, q)
    decreases |s| - from
  {
    if from + 2 > |s| then None
    else if ParenMatchAt(s, from) then Some(from)
    else ParenSearch(s, from + 1)
  }

  /** `s.replace(/\(.*\)$/, "")`: cuts `s` at the leftmost match, or leaves it alone. */
  function RemoveParenSuffix(s: string): (r: string)
    ensures |r| <= |s| && r == s[..|r|]
    ensures r == s <==> forall q :: 0 <= q < |s| ==> !ParenMatchAt(s, q)
    ensures r != s ==> ParenMatchAt(s, |r|) && forall q :: 0 <= q < |r| ==> !ParenMatchAt(s, q)
  {
    match ParenSearch(s, 0)
    case None => s
    case Some(p) => s[..p]
  }

  /** The cleaning applied to every column of a winners line:
      `v.trim().replace(/\(.*\)$/, "").trim()`. */
  function CleanWinnerColumn(v: string): (r: string)
    ensures IsStripped(RemoveParenSuffix(Trim(v)), r, IsJsWhitespace)
  {
    Trim(RemoveParenSuffix(Trim(v)))
  }
}
