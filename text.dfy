/** Character classes and string operations of the Java and Python standard
    libraries that the services rely on: stripping, lower-casing, substring
    search, splitting on separator characters and joining. */
module Text {

  /** Python's `str.isspace()` for one character. */
  predicate IsPySpace(c: char) {
    c == ' ' || ('\t' <= c <= '\r') || ('\U{1c}' <= c <= '\U{1f}')
    || c == '\U{85}' || c == '\U{a0}' || c == '\U{1680}'
    || ('\U{2000}' <= c <= '\U{200a}') || c == '\U{2028}' || c == '\U{2029}'
    || c == '\U{202f}' || c == '\U{205f}' || c == '\U{3000}'
  }

  /** The characters Java's `String.trim()` removes: every code point up to U+0020. */
  predicate IsJavaTrimmable(c: char) {
    c <= ' '
  }

  /** Java's `Character.isWhitespace`, used by Spring's `StringUtils.hasText`. */
  predicate IsJavaWhitespace(c: char) {
    ('\t' <= c <= '\r') || ('\U{1c}' <= c <= '\U{1f}') || c == ' ' || c == '\U{1680}'
    || ('\U{2000}' <= c <= '\U{2006}') || ('\U{2008}' <= c <= '\U{200a}')
    || c == '\U{2028}' || c == '\U{2029}' || c == '\U{205f}' || c == '\U{3000}'
  }

  predicate AllSatisfy(s: string, p: char -> bool) {
    forall i :: 0 <= i < |s| ==> p(s[i])
  }

  /** Neither end of `s` is a character of the class `ws`. */
  predicate Trimmed(s: string, ws: char -> bool) {
    s == [] || (!ws(s[0]) && !ws(s[|s| - 1]))
  }

  /** The end of the run of `ws` characters that starts at `i`. */
  function LeadEnd(s: string, ws: char -> bool, i: nat): (n: nat)
    requires i <= |s|
    ensures i <= n <= |s|
    ensures forall k :: i <= k < n ==> ws(s[k])
    ensures n < |s| ==> !ws(s[n])
    decreases |s| - i
  {
    if i < |s| && ws(s[i]) then LeadEnd(s, ws, i + 1) else i
  }

  /** The start of the run of `ws` characters that ends at `j`, not going below `lo`. */
  function TrailStart(s: string, ws: char -> bool, lo: nat, j: nat): (n: nat)
    requires lo <= j <= |s|
    ensures lo <= n <= j
    ensures forall k :: n <= k < j ==> ws(s[k])
    ensures n > lo ==> !ws(s[n - 1])
    decreases j - lo
  {
    if j > lo && ws(s[j - 1]) then TrailStart(s, ws, lo, j - 1) else j
  }

  /** Removes the characters of class `ws` from both ends: Python's `strip()`
      with `IsPySpace`, Java's `trim()` with `IsJavaTrimmable`. Neither end of
      the result is such a character. */
  function Strip(s: string, ws: char -> bool): (r: string)
    ensures Trimmed(r, ws)
    ensures |r| <= |s|
  {
    var a := LeadEnd(s, ws, 0);
    s[a..TrailStart(s, ws, a, |s|)]
  }

  /** The stripped string is an infix of `s`, and only characters of `ws`
      were cut on either side of it. */
  lemma StripIsInfix(s: string, ws: char -> bool)
    ensures exists a, b :: (0 <= a <= b <= |s| && Strip(s, ws) == s[a..b]
      && (forall i :: 0 <= i < a ==> ws(s[i])) && (forall i :: b <= i < |s| ==> ws(s[i])))
  {
    var a := LeadEnd(s, ws, 0);
    var b := TrailStart(s, ws, a, |s|);
    assert Strip(s, ws) == s[a..b];
  }

  function PyStrip(s: string): string { Strip(s, IsPySpace) }

  function JavaTrim(s: string): string { Strip(s, IsJavaTrimmable) }

  /** Stripping twice removes nothing more. */
  lemma StripIdempotent(s: string, ws: char -> bool)
    ensures Strip(Strip(s, ws), ws) == Strip(s, ws)
  {
    TrimmedIsFixpoint(Strip(s, ws), ws);
  }

  lemma TrimmedIsFixpoint(s: string, ws: char -> bool)
    requires Trimmed(s, ws)
    ensures Strip(s, ws) == s
  {
  }

  /** A string strips to nothing exactly when every character of it is of class `ws`. */
  lemma StripEmptyIffBlank(s: string, ws: char -> bool)
    ensures Strip(s, ws) == [] <==> AllSatisfy(s, ws)
  {
    var a := LeadEnd(s, ws, 0);
    var b := TrailStart(s, ws, a, |s|);
    assert Strip(s, ws) == s[a..b];
  }

  /** Python's `str.lower()` on the ASCII letters; every other character is
      left as it is. */
  function LowerChar(c: char): (r: char)
    ensures 'A' <= c <= 'Z' ==> 'a' <= r <= 'z'
    ensures !('A' <= c <= 'Z') ==> r == c
  {
    if 'A' <= c <= 'Z' then (c as int - 'A' as int + 'a' as int) as char else c
  }

  function Lower(s: string): (r: string)
    ensures |r| == |s|
    ensures forall i :: 0 <= i < |s| ==> r[i] == LowerChar(s[i])
  {
    seq(|s|, i requires 0 <= i < |s| => LowerChar(s[i]))
  }

  predicate StartsWith(s: string, prefix: string) {
    |prefix| <= |s| && s[..|prefix|] == prefix
  }

  predicate OccursAt(s: string, sub: string, i: int) {
    0 <= i && i + |sub| <= |s| && s[i..i + |sub|] == sub
  }

  /** Python's `sub in s`. */
  predicate Contains(s: string, sub: string) {
    exists i :: 0 <= i <= |s| - |sub| && OccursAt(s, sub, i)
  }

  /** Splits `s` at every separator character, keeping empty pieces, as
      Python's `re.split` with a one-character class does. */
  function Split(s: string, isSep: char -> bool): (pieces: seq<string>)
    ensures |pieces| >= 1
    ensures forall k, j :: 0 <= k < |pieces| && 0 <= j < |pieces[k]| ==> !isSep(pieces[k][j])
    decreases |s|
  {
    if s == [] then [""]
    else
      var rest := Split(s[1..], isSep);
      if isSep(s[0]) then [""] + rest else [[s[0]] + rest[0]] + rest[1..]
  }

  /** The separator characters of `s`, in order. */
  function Separators(s: string, isSep: char -> bool): string
    decreases |s|
  {
    if s == [] then []
    else (if isSep(s[0]) then [s[0]] else []) + Separators(s[1..], isSep)
  }

  /** Glues `pieces` back together, putting `seps[k]` between piece k and piece k+1. */
  function Interleave(pieces: seq<string>, seps: string): string
    requires |pieces| == |seps| + 1
    decreases |seps|
  {
    if seps == [] then pieces[0]
    else pieces[0] + [seps[0]] + Interleave(pieces[1..], seps[1..])
  }

  lemma {:induction false} SplitLength(s: string, isSep: char -> bool)
    ensures |Split(s, isSep)| == |Separators(s, isSep)| + 1
    decreases |s|
  {
    if s != [] {
      SplitLength(s[1..], isSep);
    }
  }

  /** Splitting loses nothing: putting the separators back between the pieces
      gives the original text. */
  lemma {:induction false} SplitRoundTrip(s: string, isSep: char -> bool)
    ensures |Split(s, isSep)| == |Separators(s, isSep)| + 1
    ensures Interleave(Split(s, isSep), Separators(s, isSep)) == s
    decreases |s|
  {
    SplitLength(s, isSep);
    if s != [] {
      SplitRoundTrip(s[1..], isSep);
      var rest := Split(s[1..], isSep);
      var seps := Separators(s[1..], isSep);
      var pieces := Split(s, isSep);
      if isSep(s[0]) {
        assert Separators(s, isSep) == [s[0]] + seps;
        assert pieces == [""] + rest;
        assert Interleave(pieces, [s[0]] + seps) == [s[0]] + Interleave(rest, seps);
        assert s == [s[0]] + s[1..];
      } else {
        assert Separators(s, isSep) == seps;
        assert pieces == [[s[0]] + rest[0]] + rest[1..];
        InterleaveConsFirst(rest, seps, s[0]);
        assert s == [s[0]] + s[1..];
      }
    }
  }

  /** Prepending a character to the first piece prepends it to the result. */
  lemma InterleaveConsFirst(pieces: seq<string>, seps: string, c: char)
    requires |pieces| == |seps| + 1
    ensures Interleave([[c] + pieces[0]] + pieces[1..], seps) == [c] + Interleave(pieces, seps)
  {
    var p := [[c] + pieces[0]] + pieces[1..];
    assert p[0] == [c] + pieces[0];
    if seps != [] {
      assert p[1..] == pieces[1..];
      ConsAppendAppend(c, pieces[0], seps[0], Interleave(pieces[1..], seps[1..]));
    }
  }

  lemma ConsAppendAppend<T>(c: T, a: seq<T>, s: T, rest: seq<T>)
    ensures ([c] + a) + [s] + rest == [c] + (a + [s] + rest)
  {
  }

  /** Python's `sep.join(items)`. */
  function Join(items: seq<string>, sep: string): string
    decreases |items|
  {
    if items == [] then ""
    else if |items| == 1 then items[0]
    else items[0] + sep + Join(items[1..], sep)
  }

  /** The separators of a comma/newline-separated ingredient list. */
  predicate IsListSeparator(c: char) {
    c == ',' || c == '\n'
  }

  /** Strips every piece and drops the pieces that strip to nothing, keeping order. */
  function StripAndDropEmpty(pieces: seq<string>, ws: char -> bool): (r: seq<string>)
    ensures |r| <= |pieces|
    ensures forall k :: 0 <= k < |r| ==> r[k] != [] && Trimmed(r[k], ws)
    decreases |pieces|
  {
    if pieces == [] then []
    else
      var t := Strip(pieces[0], ws);
      var rest := StripAndDropEmpty(pieces[1..], ws);
      if t == [] then rest else [t] + rest
  }

  /** A token is kept exactly when some piece strips to it and it is not empty. */
  lemma {:induction false} StripAndDropEmptyMembers(pieces: seq<string>, ws: char -> bool, x: string)
    ensures x in StripAndDropEmpty(pieces, ws)
        <==> x != [] && exists k :: 0 <= k < |pieces| && Strip(pieces[k], ws) == x
    decreases |pieces|
  {
    if pieces != [] {
      StripAndDropEmptyMembers(pieces[1..], ws, x);
      if x != [] && (exists k :: 0 <= k < |pieces| && Strip(pieces[k], ws) == x) {
        var k :| 0 <= k < |pieces| && Strip(pieces[k], ws) == x;
        if k > 0 {
          assert pieces[1..][k - 1] == pieces[k];
        }
      }
      if x != [] && (exists k :: 0 <= k < |pieces| - 1 && Strip(pieces[1..][k], ws) == x) {
        var k :| 0 <= k < |pieces| - 1 && Strip(pieces[1..][k], ws) == x;
        assert pieces[k + 1] == pieces[1..][k];
      }
    }
  }

  /** The positions, from `i` on, of the pieces `StripAndDropEmpty` keeps, in order. */
  function KeptFrom(pieces: seq<string>, ws: char -> bool, i: nat): seq<nat>
    requires i <= |pieces|
    decreases |pieces| - i
  {
    if i == |pieces| then []
    else if Strip(pieces[i], ws) == [] then KeptFrom(pieces, ws, i + 1)
    else [i] + KeptFrom(pieces, ws, i + 1)
  }

  /** From position `i` on, the kept tokens are the stripped pieces at the
      kept positions. */
  lemma {:induction false} KeptFromValues(pieces: seq<string>, ws: char -> bool, i: nat)
    requires i <= |pieces|
    ensures |KeptFrom(pieces, ws, i)| == |StripAndDropEmpty(pieces[i..], ws)|
    ensures forall k :: 0 <= k < |KeptFrom(pieces, ws, i)| ==>
      i <= KeptFrom(pieces, ws, i)[k] < |pieces|
      && StripAndDropEmpty(pieces[i..], ws)[k] == Strip(pieces[KeptFrom(pieces, ws, i)[k]], ws)
    decreases |pieces| - i
  {
    if i < |pieces| {
      KeptFromValues(pieces, ws, i + 1);
      assert pieces[i..][0] == pieces[i] && pieces[i..][1..] == pieces[i + 1..];
      if Strip(pieces[i], ws) != [] {
        assert StripAndDropEmpty(pieces[i..], ws)
          == [Strip(pieces[i], ws)] + StripAndDropEmpty(pieces[i + 1..], ws);
      }
    }
  }

  /** From position `i` on, the kept positions increase strictly and include
      every piece that does not strip to nothing. */
  lemma {:induction false} KeptFromOrder(pieces: seq<string>, ws: char -> bool, i: nat)
    requires i <= |pieces|
    ensures forall k :: 0 <= k < |KeptFrom(pieces, ws, i)| ==> i <= KeptFrom(pieces, ws, i)[k]
    ensures forall k, l :: 0 <= k < l < |KeptFrom(pieces, ws, i)| ==> KeptFrom(pieces, ws, i)[k] < KeptFrom(pieces, ws, i)[l]
    ensures forall j :: i <= j < |pieces| && Strip(pieces[j], ws) != [] ==> j in KeptFrom(pieces, ws, i)
    decreases |pieces| - i
  {
    if i < |pieces| {
      KeptFromOrder(pieces, ws, i + 1);
    }
  }

  /** The kept tokens are the stripped pieces at strictly increasing
      positions, and every piece that does not strip to nothing is kept: the
      result is the input, stripped, with the blank pieces removed and the
      order unchanged. */
  lemma StripAndDropEmptyKeepsOrder(pieces: seq<string>, ws: char -> bool)
    ensures |KeptFrom(pieces, ws, 0)| == |StripAndDropEmpty(pieces, ws)|
    ensures forall k :: 0 <= k < |KeptFrom(pieces, ws, 0)| ==>
      KeptFrom(pieces, ws, 0)[k] < |pieces|
      && StripAndDropEmpty(pieces, ws)[k] == Strip(pieces[KeptFrom(pieces, ws, 0)[k]], ws)
    ensures forall k, l :: 0 <= k < l < |KeptFrom(pieces, ws, 0)| ==> KeptFrom(pieces, ws, 0)[k] < KeptFrom(pieces, ws, 0)[l]
    ensures forall j :: 0 <= j < |pieces| && Strip(pieces[j], ws) != [] ==> j in KeptFrom(pieces, ws, 0)
  {
    KeptFromValues(pieces, ws, 0);
    KeptFromOrder(pieces, ws, 0);
    assert pieces[0..] == pieces;
  }

  /** Splits on ',' and '\n', strips each piece and drops empty pieces. */
  function SplitTrimDrop(s: string, ws: char -> bool): (r: seq<string>)
    ensures forall k :: 0 <= k < |r| ==> r[k] != [] && Trimmed(r[k], ws)
  {
    StripAndDropEmpty(Split(s, IsListSeparator), ws)
  }

  lemma NoSeparatorSurvivesStrip(p: string, ws: char -> bool)
    requires forall j :: 0 <= j < |p| ==> !IsListSeparator(p[j])
    ensures forall j :: 0 <= j < |Strip(p, ws)| ==> !IsListSeparator(Strip(p, ws)[j])
  {
    var a := LeadEnd(p, ws, 0);
    var b := TrailStart(p, ws, a, |p|);
    assert forall j :: 0 <= j < b - a ==> Strip(p, ws)[j] == p[a + j];
  }

  /** No token of a split-trim-drop result contains a separator. */
  lemma SplitTrimDropHasNoSeparator(s: string, ws: char -> bool, x: string)
    requires x in SplitTrimDrop(s, ws)
    ensures forall j :: 0 <= j < |x| ==> !IsListSeparator(x[j])
  {
    var pieces := Split(s, IsListSeparator);
    StripAndDropEmptyMembers(pieces, ws, x);
    var k :| 0 <= k < |pieces| && Strip(pieces[k], ws) == x;
    NoSeparatorSurvivesStrip(pieces[k], ws);
  }
}
