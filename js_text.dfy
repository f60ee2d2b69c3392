/**
 * The JavaScript string primitives the project pages rely on:
 * `toLowerCase`, `trim`, `includes`, `Array.prototype.join` and the
 * comparison that the default `Array.prototype.sort` applies to strings
 * (UTF-16 code units, compared lexicographically).
 */
module JsText {

  // ---------------------------------------------------------------------
  // Lower-casing

  /** Lower-cases one character (the ASCII letters A-Z; see README "Left out"). */
  function LowerChar(c: char): char {
    if 'A' <= c <= 'Z' then (c as int + 32) as char else c
  }

  /** `s.toLowerCase()`, one character at a time. */
  function Lower(s: string): (r: string)
    ensures |r| == |s|
    ensures forall i :: 0 <= i < |s| ==> r[i] == LowerChar(s[i])
  {
    seq(|s|, i requires 0 <= i < |s| => LowerChar(s[i]))
  }

  lemma LowerIdempotent(s: string)
    ensures Lower(Lower(s)) == Lower(s)
  {
    assert forall i :: 0 <= i < |s| ==> Lower(Lower(s))[i] == Lower(s)[i];
  }

  lemma LowerConcat(a: string, b: string)
    ensures Lower(a + b) == Lower(a) + Lower(b)
  {
    assert forall i :: 0 <= i < |a + b| ==> Lower(a + b)[i] == (Lower(a) + Lower(b))[i];
  }

  // ---------------------------------------------------------------------
  // Trimming

  /**
   * The characters `String.prototype.trim` strips: the ECMAScript
   * WhiteSpace set (TAB, VT, FF, ZWNBSP and every Space_Separator)
   * and the LineTerminator set (LF, CR, LS, PS).
   */
  predicate IsWhitespace(c: char) {
    || c == '\t' || c == '\n' || c == '\U{000B}' || c == '\U{000C}' || c == '\r'
    || c == ' ' || c == '\U{00A0}' || c == '\U{1680}'
    || ('\U{2000}' <= c <= '\U{200A}')
    || c == '\U{2028}' || c == '\U{2029}' || c == '\U{202F}' || c == '\U{205F}'
    || c == '\U{3000}' || c == '\U{FEFF}'
  }

  predicate AllWhitespace(s: string) {
    forall i :: 0 <= i < |s| ==> IsWhitespace(s[i])
  }

  /** How many whitespace characters `s` starts with. */
  function LeadingSpace(s: string): (n: nat)
    ensures n <= |s|
    ensures forall k :: 0 <= k < n ==> IsWhitespace(s[k])
    ensures n < |s| ==> !IsWhitespace(s[n])
  {
    if s != [] && IsWhitespace(s[0]) then
      var m := LeadingSpace(s[1..]);
      assert forall k :: 1 <= k < 1 + m ==> s[k] == s[1..][k - 1];
      1 + m
    else 0
  }

  /** How many whitespace characters `s` ends with. */
  function TrailingSpace(s: string): (n: nat)
    ensures n <= |s|
    ensures forall k :: |s| - n <= k < |s| ==> IsWhitespace(s[k])
    ensures n < |s| ==> !IsWhitespace(s[|s| - n - 1])
  {
    if s != [] && IsWhitespace(s[|s| - 1]) then
      var m := TrailingSpace(s[..|s| - 1]);
      assert forall k :: |s| - 1 - m <= k < |s| - 1 ==> s[k] == s[..|s| - 1][k];
      1 + m
    else 0
  }

  /** The leading-whitespace count is the one position that fits its description. */
  lemma LeadingSpaceUnique(s: string, n: nat)
    requires n <= |s| && forall k :: 0 <= k < n ==> IsWhitespace(s[k])
    requires n < |s| ==> !IsWhitespace(s[n])
    ensures LeadingSpace(s) == n
  {
  }

  /** The trailing-whitespace count is the one length that fits its description. */
  lemma TrailingSpaceUnique(s: string, n: nat)
    requires n <= |s| && forall k :: |s| - n <= k < |s| ==> IsWhitespace(s[k])
    requires n < |s| ==> !IsWhitespace(s[|s| - n - 1])
    ensures TrailingSpace(s) == n
  {
  }

  /** `s.trimStart()`. */
  function TrimStart(s: string): string {
    s[LeadingSpace(s)..]
  }

  /** `s.trimEnd()`. */
  function TrimEnd(s: string): string {
    s[..|s| - TrailingSpace(s)]
  }

  /** `s.trim()`. */
  function Trim(s: string): string {
    TrimEnd(TrimStart(s))
  }

  /** `Trim(s)` is the slice of `s` starting at `i`, with only whitespace around it. */
  predicate TrimmedAt(s: string, i: int) {
    var r := Trim(s);
    0 <= i <= |s| - |r| && s[i..i + |r|] == r && AllWhitespace(s[..i]) && AllWhitespace(s[i + |r|..])
  }

  /** Trimming leaves a middle slice of `s`, with no whitespace at either end. */
  lemma TrimIsMiddle(s: string)
    ensures exists i :: TrimmedAt(s, i)
    ensures Trim(s) == [] || (!IsWhitespace(Trim(s)[0]) && !IsWhitespace(Trim(s)[|Trim(s)| - 1]))
  {
    var i := LeadingSpace(s);
    var t := s[i..];
    var j := |t| - TrailingSpace(t);
    assert Trim(s) == s[i..i + j];
    assert s[i + j..] == t[j..];
    assert TrimmedAt(s, i);
    if j > 0 {
      assert Trim(s)[0] == s[i];
      assert Trim(s)[j - 1] == t[|t| - TrailingSpace(t) - 1];
    }
  }

  /** What `trim` returns occurs in its argument. */
  lemma TrimIsSubstring(s: string)
    ensures IsSubstring(Trim(s), s)
  {
    var i := LeadingSpace(s);
    var j := |s[i..]| - TrailingSpace(s[i..]);
    assert Trim(s) == s[i..i + j];
    assert OccursAt(Trim(s), s, i);
  }

  /** The trimmed query is empty exactly when the query is empty or only whitespace. */
  lemma TrimEmptyIff(s: string)
    ensures Trim(s) == [] <==> AllWhitespace(s)
  {
    var i := LeadingSpace(s);
    if AllWhitespace(s) {
      LeadingSpaceUnique(s, |s|);
    } else {
      assert i < |s|;
      assert !IsWhitespace(s[i..][0]);
      assert TrailingSpace(s[i..]) < |s[i..]|;
    }
  }

  /** Leading whitespace does not reach the result of TrimStart. */
  lemma TrimStartSkipsWhitespace(w: string, s: string)
    requires AllWhitespace(w)
    ensures TrimStart(w + s) == TrimStart(s)
  {
    var x := w + s;
    var i := LeadingSpace(s);
    forall k | 0 <= k < |w| + i ensures IsWhitespace(x[k]) {
      if k >= |w| { assert x[k] == s[k - |w|]; }
    }
    assert |w| + i < |x| ==> x[|w| + i] == s[i];
    LeadingSpaceUnique(x, |w| + i);
    assert x[|w| + i..] == s[i..];
  }

  /** Trailing whitespace does not reach the result of TrimEnd. */
  lemma TrimEndSkipsWhitespace(s: string, w: string)
    requires AllWhitespace(w)
    ensures TrimEnd(s + w) == TrimEnd(s)
  {
    var x := s + w;
    var n := TrailingSpace(s);
    forall k | |x| - (n + |w|) <= k < |x| ensures IsWhitespace(x[k]) {
      if k < |s| { assert x[k] == s[k]; }
    }
    assert n < |s| ==> x[|x| - (n + |w|) - 1] == s[|s| - n - 1];
    TrailingSpaceUnique(x, n + |w|);
    assert x[..|x| - (n + |w|)] == s[..|s| - n];
  }

  /** Once a non-space is met, TrimStart keeps everything after it. */
  lemma TrimStartAppend(s: string, w: string)
    requires !AllWhitespace(s)
    ensures TrimStart(s + w) == TrimStart(s) + w
  {
    var x := s + w;
    var i := LeadingSpace(s);
    assert i < |s|;
    forall k | 0 <= k < i ensures IsWhitespace(x[k]) {
      assert x[k] == s[k];
    }
    assert x[i] == s[i];
    LeadingSpaceUnique(x, i);
    assert x[i..] == s[i..] + w;
  }

  /** Whitespace added around a string does not change what `trim` returns. */
  lemma TrimPadded(w1: string, s: string, w2: string)
    requires AllWhitespace(w1) && AllWhitespace(w2)
    ensures Trim(w1 + s + w2) == Trim(s)
  {
    assert w1 + s + w2 == w1 + (s + w2);
    TrimStartSkipsWhitespace(w1, s + w2);
    if AllWhitespace(s) {
      assert AllWhitespace(s + w2);
      TrimEmptyIff(s + w2);
      TrimEmptyIff(s);
    } else {
      TrimStartAppend(s, w2);
      TrimEndSkipsWhitespace(TrimStart(s), w2);
    }
  }

  /** Lower-casing keeps whitespace and non-whitespace apart. */
  lemma LowerKeepsWhitespace(c: char)
    ensures IsWhitespace(LowerChar(c)) <==> IsWhitespace(c)
  {
  }

  // ---------------------------------------------------------------------
  // Substring search

  /** `needle` sits in `hay` starting at index `i`. */
  predicate OccursAt(needle: string, hay: string, i: int) {
    0 <= i && i + |needle| <= |hay| && hay[i..i + |needle|] == needle
  }

  ghost predicate IsSubstring(needle: string, hay: string) {
    exists i :: OccursAt(needle, hay, i)
  }

  /** `hay.includes(needle)`: try every start position from the left. */
  function Includes(hay: string, needle: string): (b: bool)
    ensures b <==> IsSubstring(needle, hay)
    decreases |hay|
  {
    if |needle| > |hay| then false
    else if hay[..|needle|] == needle then
      assert OccursAt(needle, hay, 0);
      true
    else
      var rest := Includes(hay[1..], needle);
      assert rest ==> IsSubstring(needle, hay) by {
        if rest {
          var i :| OccursAt(needle, hay[1..], i);
          assert hay[1..][i..i + |needle|] == hay[i + 1..i + 1 + |needle|];
          assert OccursAt(needle, hay, i + 1);
        }
      }
      assert IsSubstring(needle, hay) ==> rest by {
        if IsSubstring(needle, hay) {
          var i :| OccursAt(needle, hay, i);
          assert i != 0;
          assert hay[1..][i - 1..i - 1 + |needle|] == hay[i..i + |needle|];
          assert OccursAt(needle, hay[1..], i - 1);
        }
      }
      rest
  }

  /** The empty string occurs everywhere. */
  lemma EmptyIsSubstring(hay: string)
    ensures IsSubstring("", hay)
  {
    assert OccursAt("", hay, 0);
  }

  /** A substring of a substring of `w` is a substring of `w`. */
  lemma SubstringTransitive(u: string, v: string, w: string)
    requires IsSubstring(u, v) && IsSubstring(v, w)
    ensures IsSubstring(u, w)
  {
    var i :| OccursAt(u, v, i);
    var j :| OccursAt(v, w, j);
    forall k | 0 <= k < |u|
      ensures w[j + i..j + i + |u|][k] == u[k]
    {
      assert u[k] == v[i + k] == w[j + i + k];
    }
    assert OccursAt(u, w, j + i);
  }

  // ---------------------------------------------------------------------
  // Joining

  /** `xs.join(sep)`: the items with `sep` between neighbours. */
  function Join(xs: seq<string>, sep: string): string {
    if xs == [] then ""
    else if |xs| == 1 then xs[0]
    else Join(xs[..|xs| - 1], sep) + sep + xs[|xs| - 1]
  }

  /** Every item is a substring of the joined string. */
  lemma {:induction false} JoinContainsItems(xs: seq<string>, sep: string, k: nat)
    requires k < |xs|
    ensures IsSubstring(xs[k], Join(xs, sep))
  {
    if |xs| == 1 {
      assert OccursAt(xs[k], Join(xs, sep), 0);
    } else if k == |xs| - 1 {
      var front := Join(xs[..|xs| - 1], sep) + sep;
      assert Join(xs, sep)[|front|..|front| + |xs[k]|] == xs[k];
      assert OccursAt(xs[k], Join(xs, sep), |front|);
    } else {
      JoinContainsItems(xs[..|xs| - 1], sep, k);
      var i :| OccursAt(xs[k], Join(xs[..|xs| - 1], sep), i);
      var j := Join(xs[..|xs| - 1], sep);
      assert Join(xs, sep)[i..i + |xs[k]|] == j[i..i + |xs[k]|];
      assert OccursAt(xs[k], Join(xs, sep), i);
    }
  }

  // ---------------------------------------------------------------------
  // The default sort order for strings

  /** The UTF-16 code units of one Unicode scalar value. */
  function CodeUnitsOfChar(c: char): (u: seq<int>)
    ensures |u| == 1 || |u| == 2
    ensures forall k :: 0 <= k < |u| ==> 0 <= u[k] < 0x1_0000
    ensures (c as int < 0x1_0000) == (|u| == 1)
    ensures c as int < 0x1_0000 ==> u[0] == c as int && !(0xD800 <= u[0] < 0xE000)
    ensures c as int >= 0x1_0000 ==>
              && 0xD800 <= u[0] < 0xDC00 && 0xDC00 <= u[1] < 0xE000
              && c as int == 0x1_0000 + (u[0] - 0xD800) * 0x400 + (u[1] - 0xDC00)
  {
    var n := c as int;
    if n < 0x1_0000 then [n]
    else [0xD800 + (n - 0x1_0000) / 0x400, 0xDC00 + (n - 0x1_0000) % 0x400]
  }

  /** The UTF-16 encoding of a string, which is what JavaScript compares. */
  function CodeUnits(s: string): seq<int> {
    if s == [] then [] else CodeUnitsOfChar(s[0]) + CodeUnits(s[1..])
  }

  /** Lexicographic order on code-unit sequences: a prefix comes first. */
  predicate UnitsLeq(a: seq<int>, b: seq<int>) {
    a == [] || (b != [] && (a[0] < b[0] || (a[0] == b[0] && UnitsLeq(a[1..], b[1..]))))
  }

  /** `a` sorts no later than `b` under the default `sort` comparison. */
  predicate StringLeq(a: string, b: string) {
    UnitsLeq(CodeUnits(a), CodeUnits(b))
  }

  lemma {:induction false} UnitsLeqTotal(a: seq<int>, b: seq<int>)
    ensures UnitsLeq(a, b) || UnitsLeq(b, a)
  {
    if a != [] && b != [] && a[0] == b[0] {
      UnitsLeqTotal(a[1..], b[1..]);
    }
  }

  lemma {:induction false} UnitsLeqTransitive(a: seq<int>, b: seq<int>, c: seq<int>)
    requires UnitsLeq(a, b) && UnitsLeq(b, c)
    ensures UnitsLeq(a, c)
  {
    if a != [] && a[0] == b[0] && b[0] == c[0] {
      UnitsLeqTransitive(a[1..], b[1..], c[1..]);
    }
  }

  lemma StringLeqTotal(a: string, b: string)
    ensures StringLeq(a, b) || StringLeq(b, a)
  {
    UnitsLeqTotal(CodeUnits(a), CodeUnits(b));
  }

  lemma StringLeqTransitive(a: string, b: string, c: string)
    requires StringLeq(a, b) && StringLeq(b, c)
    ensures StringLeq(a, c)
  {
    UnitsLeqTransitive(CodeUnits(a), CodeUnits(b), CodeUnits(c));
  }

  /** Different characters have different encodings, and no encoding is a proper prefix of another. */
  lemma CodeUnitsOfCharInjective(c: char, d: char, rest: seq<int>, rest': seq<int>)
    requires CodeUnitsOfChar(c) + rest == CodeUnitsOfChar(d) + rest'
    ensures c == d && rest == rest'
  {
    var u, v := CodeUnitsOfChar(c), CodeUnitsOfChar(d);
    assert u[0] == (u + rest)[0] == (v + rest')[0] == v[0];
    if |u| == 2 {
      assert u[1] == (u + rest)[1] == (v + rest')[1] == v[1];
    }
    assert u == v;
    assert rest == (u + rest)[|u|..] == (v + rest')[|v|..] == rest';
  }

  /** The UTF-16 encoding of strings is injective. */
  lemma {:induction false} CodeUnitsInjective(a: string, b: string)
    requires CodeUnits(a) == CodeUnits(b)
    ensures a == b
  {
    if a != [] && b != [] {
      CodeUnitsOfCharInjective(a[0], b[0], CodeUnits(a[1..]), CodeUnits(b[1..]));
      CodeUnitsInjective(a[1..], b[1..]);
      assert a == [a[0]] + a[1..] && b == [b[0]] + b[1..];
    }
  }

  lemma {:induction false} UnitsLeqAntisymmetric(a: seq<int>, b: seq<int>)
    requires UnitsLeq(a, b) && UnitsLeq(b, a)
    ensures a == b
  {
    if a != [] && b != [] {
      UnitsLeqAntisymmetric(a[1..], b[1..]);
      assert a == [a[0]] + a[1..] && b == [b[0]] + b[1..];
    }
  }

  /** Two strings each sorting no later than the other are equal, so the default sort order is a total order. */
  lemma StringLeqAntisymmetric(a: string, b: string)
    requires StringLeq(a, b) && StringLeq(b, a)
    ensures a == b
  {
    UnitsLeqAntisymmetric(CodeUnits(a), CodeUnits(b));
    CodeUnitsInjective(a, b);
  }
}
