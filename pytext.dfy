/**
 * The parts of Python's `str` that the text codecs use: `strip()`, `split(sep)`,
 * `split(sep, 1)`, `splitlines()`, `sep.join(parts)`, `startswith`, the `in`
 * substring test and the code-point order used by `sorted`.
 */
module PyText {
  import opened Seqs

  /** `c.isspace()`: the characters `str.strip()` removes. */
  predicate IsSpace(c: char) {
    c == ' ' || ('\t' <= c <= '\r') || ('\U{1c}' <= c <= '\U{1f}') || c == '\U{85}' || c == '\U{a0}'
    || c == '\U{1680}' || ('\U{2000}' <= c <= '\U{200a}') || c == '\U{2028}' || c == '\U{2029}'
    || c == '\U{202f}' || c == '\U{205f}' || c == '\U{3000}'
  }

  /** The line boundaries of `str.splitlines()`; every one of them is also whitespace. */
  predicate IsLineBreak(c: char)
    ensures IsLineBreak(c) ==> IsSpace(c)
  {
    c == '\n' || c == '\r' || c == '\U{0b}' || c == '\U{0c}' || ('\U{1c}' <= c <= '\U{1e}')
    || c == '\U{85}' || c == '\U{2028}' || c == '\U{2029}'
  }

  predicate AllSpace(s: string) {
    forall i :: 0 <= i < |s| ==> IsSpace(s[i])
  }

  /** No line boundary inside `s`: such a string survives one line of a text file. */
  predicate NoBreak(s: string) {
    forall i :: 0 <= i < |s| ==> !IsLineBreak(s[i])
  }

  /** `s.strip() == s` */
  predicate IsStripped(s: string) {
    s == [] || (!IsSpace(s[0]) && !IsSpace(s[|s| - 1]))
  }

  /** `s.startswith("#")` */
  predicate IsComment(s: string) {
    |s| > 0 && s[0] == '#'
  }

  // ---------------------------------------------------------------- strip

  /** The end of the run of whitespace that starts at `i`. */
  function SpaceRun(s: string, i: nat): (k: nat)
    requires i <= |s|
    ensures i <= k <= |s|
    ensures forall j :: i <= j < k ==> IsSpace(s[j])
    ensures k < |s| ==> !IsSpace(s[k])
    decreases |s| - i
  {
    if i < |s| && IsSpace(s[i]) then SpaceRun(s, i + 1) else i
  }

  /** The run of whitespace is determined by where it ends. */
  lemma {:induction false} SpaceRunAt(s: string, i: nat, k: nat)
    requires i <= k <= |s|
    requires forall j :: i <= j < k ==> IsSpace(s[j])
    requires k < |s| ==> !IsSpace(s[k])
    ensures SpaceRun(s, i) == k
    decreases k - i
  {
    if i < k {
      SpaceRunAt(s, i + 1, k);
    }
  }

  /** `s.rstrip()` */
  function RStrip(s: string): (r: string)
    ensures |r| <= |s| && r == s[..|r|]
    ensures r == [] || !IsSpace(r[|r| - 1])
    ensures AllSpace(s[|r|..])
  {
    if s != [] && IsSpace(s[|s| - 1]) then
      var r := RStrip(s[..|s| - 1]);
      assert s[|r|..] == s[..|s| - 1][|r|..] + [s[|s| - 1]];
      AllSpaceConcat(s[..|s| - 1][|r|..], [s[|s| - 1]]);
      r
    else s
  }

  /** Where `Strip(s)` starts inside `s`: past the leading whitespace. */
  function StripOffset(s: string): (k: nat)
    ensures k <= |s| && AllSpace(s[..k])
    ensures k < |s| ==> !IsSpace(s[k])
  {
    SpaceRun(s, 0)
  }

  /** `s.strip()`: the longest slice of `s` without whitespace at either end. */
  function Strip(s: string): (r: string)
    ensures IsStripped(r)
    ensures StripOffset(s) + |r| <= |s| && r == s[StripOffset(s)..StripOffset(s) + |r|]
    ensures r == [] <==> AllSpace(s)
  {
    var k := StripOffset(s);
    var l := s[k..];
    var r := RStrip(l);
    assert r == s[k..k + |r|];
    assert r == [] ==> AllSpace(s) by {
      if r == [] {
        assert l[|r|..] == l;
        AllSpaceConcat(s[..k], l);
        assert s == s[..k] + l;
      }
    }
    assert r != [] ==> r[0] == s[k];
    r
  }

  lemma AllSpaceConcat(a: string, b: string)
    requires AllSpace(a) && AllSpace(b)
    ensures AllSpace(a + b)
  {
    forall i | 0 <= i < |a + b| ensures IsSpace((a + b)[i]) {
      if i >= |a| {
        assert (a + b)[i] == b[i - |a|];
      }
    }
  }

  /** A character of a slice is a character of the whole. */
  lemma SliceChars(s: string, i: int, j: int)
    requires 0 <= i <= j <= |s|
    ensures forall c :: c in s[i..j] ==> c in s
  {
    forall c | c in s[i..j] ensures c in s {
      var k :| 0 <= k < j - i && s[i..j][k] == c;
      assert s[i + k] == c;
    }
  }

  lemma StripChars(s: string)
    ensures forall c :: c in Strip(s) ==> c in s
  {
    SliceChars(s, StripOffset(s), StripOffset(s) + |Strip(s)|);
  }

  /** Stripping a stripped string padded with whitespace gives it back. */
  lemma {:induction false} StripPadded(pre: string, m: string, post: string)
    requires AllSpace(pre) && AllSpace(post) && IsStripped(m)
    ensures Strip(pre + m + post) == m
  {
    if m == [] {
      assert pre + m + post == pre + post;
      AllSpaceConcat(pre, post);
    } else {
      assert pre + m + post == pre + (m + post);
      LStripPadded(pre, m + post);
      RStripPadded(m, post);
    }
  }

  lemma LStripPadded(pre: string, t: string)
    requires AllSpace(pre) && (t == [] || !IsSpace(t[0]))
    ensures StripOffset(pre + t) == |pre| && (pre + t)[|pre|..] == t
  {
    var s := pre + t;
    assert forall j :: 0 <= j < |pre| ==> s[j] == pre[j];
    assert |pre| < |s| ==> s[|pre|] == t[0];
    SpaceRunAt(s, 0, |pre|);
  }

  lemma {:induction false} RStripPadded(t: string, post: string)
    requires AllSpace(post) && (t == [] || !IsSpace(t[|t| - 1]))
    ensures RStrip(t + post) == t
    decreases |post|
  {
    if post == [] {
      assert t + post == t;
      if t != [] {
        assert RStrip(t) == t;
      }
    } else {
      assert (t + post)[..|t + post| - 1] == t + post[..|post| - 1];
      RStripPadded(t, post[..|post| - 1]);
    }
  }

  /** A string that starts with a non-space keeps its first character under `strip()`. */
  lemma StripKeepsFirst(s: string)
    requires s != [] && !IsSpace(s[0])
    ensures StripOffset(s) == 0
    ensures Strip(s) != [] && Strip(s)[0] == s[0]
  {
    assert !AllSpace(s);
  }

  /** Line boundaries cannot appear in a string made of characters of a string without them. */
  lemma NoBreakChars(s: string, t: string)
    requires NoBreak(s) && forall c :: c in t ==> c in s
    ensures NoBreak(t)
  {
    forall i | 0 <= i < |t| ensures !IsLineBreak(t[i]) {
      assert t[i] in t;
    }
  }

  lemma NoBreakConcat(a: string, b: string)
    requires NoBreak(a) && NoBreak(b)
    ensures NoBreak(a + b)
  {
    forall i | 0 <= i < |a + b| ensures !IsLineBreak((a + b)[i]) {
      if i >= |a| {
        assert (a + b)[i] == b[i - |a|];
      }
    }
  }

  lemma StrippedIsFixed(m: string)
    requires IsStripped(m)
    ensures Strip(m) == m
  {
    StripPadded([], m, []);
    assert [] + m + [] == m;
  }

  // ---------------------------------------------------------------- split

  /** Index of the first `c` in `s`, or `|s|` when there is none. */
  function IndexOf(s: string, c: char): (r: nat)
    ensures r <= |s|
    ensures c !in s[..r]
    ensures r < |s| ==> s[r] == c
    ensures r == |s| <==> c !in s
  {
    if s == [] then 0
    else if s[0] == c then 0
    else
      var k := IndexOf(s[1..], c);
      assert s[..1 + k] == [s[0]] + s[1..][..k];
      1 + k
  }

  /** `s.split(sep)` for a one-character separator: never empty, and no piece holds `sep`. */
  function Split(s: string, sep: char): (r: seq<string>)
    ensures |r| >= 1
    ensures forall i :: 0 <= i < |r| ==> sep !in r[i]
    ensures forall i, c :: 0 <= i < |r| && c in r[i] ==> c in s
    decreases |s|
  {
    var i := IndexOf(s, sep);
    if i == |s| then [s]
    else
      var rest := Split(s[i + 1..], sep);
      SliceChars(s, 0, i);
      SliceChars(s, i + 1, |s|);
      var r := [s[..i]] + rest;
      assert forall j, c :: 0 < j < |r| && c in r[j] ==> c in s by {
        forall j, c | 0 < j < |r| && c in r[j] ensures c in s {
          assert r[j] == rest[j - 1];
          assert c in rest[j - 1];
          assert c in s[i + 1..];
        }
      }
      r
  }

  /** The first piece of `s.split(sep)` is a prefix of `s`. */
  lemma SplitFirst(s: string, sep: char)
    ensures Split(s, sep)[0] <= s
  {
  }

  lemma SplitNoSep(a: string, sep: char)
    requires sep !in a
    ensures Split(a, sep) == [a]
  {
  }

  lemma SplitCons(a: string, sep: char, b: string)
    requires sep !in a
    ensures Split(a + [sep] + b, sep) == [a] + Split(b, sep)
  {
    var s := a + [sep] + b;
    var i := IndexOf(s, sep);
    assert s[..|a|] == a;
    assert s[|a|] == sep;
    assert s[..|a| + 1] == a + [sep];
    assert i == |a|;
    assert s[i + 1..] == b;
  }
  /** Three pieces without `sep`, joined by it, split back into the three. */
  lemma Split3(a: string, b: string, t: string, sep: char)
    requires sep !in a && sep !in b && sep !in t
    ensures Split(a + [sep] + (b + [sep] + t), sep) == [a, b, t]
  {
    SplitCons(a, sep, b + [sep] + t);
    SplitCons(b, sep, t);
    SplitNoSep(t, sep);
  }


  /** `s.split(sep, 1)` when `sep in s`: the text before the first `sep` and the rest. */
  function SplitOnce(s: string, sep: char): (r: (string, string))
    requires sep in s
    ensures s == r.0 + [sep] + r.1
    ensures sep !in r.0
  {
    var i := IndexOf(s, sep);
    assert s == s[..i] + [sep] + s[i + 1..];
    (s[..i], s[i + 1..])
  }

  lemma SplitOnceCons(a: string, sep: char, b: string)
    requires sep !in a
    ensures sep in a + [sep] + b
    ensures SplitOnce(a + [sep] + b, sep) == (a, b)
  {
    var s := a + [sep] + b;
    assert s[|a|] == sep;
    var i := IndexOf(s, sep);
    assert s[..|a|] == a;
    assert s[..|a| + 1] == a + [sep];
    assert i == |a|;
    assert s[i + 1..] == b;
  }

  /** `sep.join(parts)` */
  function Join(sep: string, parts: seq<string>): string
  {
    if |parts| == 0 then ""
    else if |parts| == 1 then parts[0]
    else parts[0] + sep + Join(sep, parts[1..])
  }

  // ---------------------------------------------------------------- lines

  /** Index of the first line boundary in `s`, or `|s|`. */
  function LineEnd(s: string): (r: nat)
    ensures r <= |s|
    ensures NoBreak(s[..r])
    ensures r < |s| ==> IsLineBreak(s[r])
  {
    if s == [] || IsLineBreak(s[0]) then 0
    else
      var k := LineEnd(s[1..]);
      assert s[..1 + k] == [s[0]] + s[1..][..k];
      1 + k
  }

  /** `s.splitlines()`: "\r\n" is one boundary, a final boundary opens no empty line. */
  function SplitLines(s: string): (r: seq<string>)
    ensures forall i :: 0 <= i < |r| ==> NoBreak(r[i])
    decreases |s|
  {
    if s == [] then []
    else
      var i := LineEnd(s);
      if i == |s| then [s]
      else
        var width := if s[i] == '\r' && i + 1 < |s| && s[i + 1] == '\n' then 2 else 1;
        [s[..i]] + SplitLines(s[i + width..])
  }

  /** How every writer of the modelled files ends its text:
      `"\n".join(lines) + ("\n" if lines else "")`. */
  function Lines(lines: seq<string>): (r: string)
    ensures lines == [] <==> r == []
    ensures r != [] ==> r[|r| - 1] == '\n'
  {
    Join("\n", lines) + (if lines == [] then "" else "\n")
  }

  lemma LinesCons(l: string, rest: seq<string>)
    ensures Lines([l] + rest) == l + "\n" + Lines(rest)
  {
    if rest != [] {
      assert ([l] + rest)[1..] == rest;
    }
  }

  /** Reading back what `Lines` wrote gives the same lines, when no line holds a boundary. */
  lemma {:induction false} SplitLinesOfLines(lines: seq<string>)
    requires forall i :: 0 <= i < |lines| ==> NoBreak(lines[i])
    ensures SplitLines(Lines(lines)) == lines
  {
    if lines != [] {
      var l, rest := lines[0], lines[1..];
      assert lines == [l] + rest;
      LinesCons(l, rest);
      var s := l + "\n" + Lines(rest);
      var i := LineEnd(s);
      assert s[..|l|] == l;
      assert s[|l|] == '\n';
      assert s[..|l| + 1] == l + "\n";
      assert i == |l|;
      assert s[i + 1..] == Lines(rest);
      if |Lines(rest)| > 0 {
        assert s[i + 1] == Lines(rest)[0];
      }
      SplitLinesOfLines(rest);
    }
  }

  // ---------------------------------------------------------------- `in`

  /** `needle` occurs in `hay` starting at index `i`. */
  predicate OccursAt(hay: string, needle: string, i: int) {
    0 <= i <= |hay| - |needle| && hay[i..i + |needle|] == needle
  }

  /** `needle in hay` for strings. */
  function Contains(hay: string, needle: string): (r: bool)
    ensures r <==> exists i :: OccursAt(hay, needle, i)
    decreases |hay|
  {
    if needle <= hay then
      assert OccursAt(hay, needle, 0);
      true
    else if hay == [] then
      assert forall i :: !OccursAt(hay, needle, i);
      false
    else
      OccursLater(hay, needle);
      Contains(hay[1..], needle)
  }

  /** Past a first position where it does not occur, `needle` occurs in `hay`
      exactly when it occurs in the rest. */
  lemma OccursLater(hay: string, needle: string)
    requires hay != [] && !(needle <= hay)
    ensures (exists i :: OccursAt(hay, needle, i)) <==> (exists i :: OccursAt(hay[1..], needle, i))
  {
    if exists i :: OccursAt(hay[1..], needle, i) {
      var i :| OccursAt(hay[1..], needle, i);
      assert hay[i + 1..i + 1 + |needle|] == hay[1..][i..i + |needle|];
      assert OccursAt(hay, needle, i + 1);
    }
    if exists i :: OccursAt(hay, needle, i) {
      var i :| OccursAt(hay, needle, i);
      assert i == 0 ==> needle <= hay;
      assert hay[1..][i - 1..i - 1 + |needle|] == hay[i..i + |needle|];
      assert OccursAt(hay[1..], needle, i - 1);
    }
  }

  // ---------------------------------------------------------------- order

  /** Python's `<` on `str`: lexicographic by code point. */
  predicate StrLess(a: string, b: string) {
    if a == [] then b != []
    else if b == [] then false
    else a[0] < b[0] || (a[0] == b[0] && StrLess(a[1..], b[1..]))
  }

  lemma {:induction false} StrLessIrreflexive(a: string)
    ensures !StrLess(a, a)
  {
    if a != [] {
      StrLessIrreflexive(a[1..]);
    }
  }

  lemma {:induction false} StrLessTransitive(a: string, b: string, c: string)
    requires StrLess(a, b) && StrLess(b, c)
    ensures StrLess(a, c)
  {
    if a != [] && b != [] && c != [] && a[0] == b[0] && b[0] == c[0] {
      StrLessTransitive(a[1..], b[1..], c[1..]);
    }
  }

  lemma {:induction false} StrLessTotal(a: string, b: string)
    requires a != b
    ensures StrLess(a, b) || StrLess(b, a)
  {
    if a != [] && b != [] && a[0] == b[0] {
      assert a == [a[0]] + a[1..] && b == [b[0]] + b[1..];
      StrLessTotal(a[1..], b[1..]);
    }
  }

  lemma StrLessIsStrictTotalOrder()
    ensures StrictTotalOrder(StrLess)
  {
    forall a ensures !StrLess(a, a) {
      StrLessIrreflexive(a);
    }
    forall a, b, c | StrLess(a, b) && StrLess(b, c) ensures StrLess(a, c) {
      StrLessTransitive(a, b, c);
    }
    forall a, b | a != b ensures StrLess(a, b) || StrLess(b, a) {
      StrLessTotal(a, b);
    }
  }
}
