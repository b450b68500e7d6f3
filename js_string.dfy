/** The JavaScript string primitives the pipeline relies on: the white-space
    class shared by String.prototype.trim and the regular-expression escape
    `\s`, trimming, the collapse performed by `replace(/\s+/g, ' ')`,
    String.prototype.includes, String.prototype.split with a one-character
    separator, parseInt with radix 10, and the decimal rendering of integral
    Numbers. */
module JsString {
  import opened Types

  /** The WhiteSpace and LineTerminator code points of ECMAScript: exactly the
      characters trim() removes and `\s` matches (U+3000 included). */
  predicate IsSpace(c: char) {
    || c == '\t' || c == '\n' || c == '\U{000B}' || c == '\U{000C}' || c == '\r'
    || c == ' ' || c == '\U{00A0}' || c == '\U{1680}' || ('\U{2000}' <= c <= '\U{200A}')
    || c == '\U{2028}' || c == '\U{2029}' || c == '\U{202F}' || c == '\U{205F}'
    || c == '\U{3000}' || c == '\U{FEFF}'
  }

  predicate IsDigit(c: char) { '0' <= c <= '9' }

  function DigitValue(c: char): (d: nat)
    requires IsDigit(c)
    ensures d < 10
  {
    (c as int) - ('0' as int)
  }

  function DigitChar(d: nat): (c: char)
    requires d < 10
    ensures IsDigit(c) && DigitValue(c) == d
  {
    (('0' as int) + d) as char
  }

  predicate AllDigits(s: string) { forall i :: 0 <= i < |s| ==> IsDigit(s[i]) }

  /** No white space at either end. */
  predicate NoEdgeSpace(s: string) {
    s == [] || (!IsSpace(s[0]) && !IsSpace(s[|s| - 1]))
  }

  /** Every white-space character is an ASCII space and no two are adjacent. */
  predicate SingleSpaced(s: string) {
    && (forall i :: 0 <= i < |s| && IsSpace(s[i]) ==> s[i] == ' ')
    && (forall i :: 0 <= i < |s| - 1 ==> !IsSpace(s[i]) || !IsSpace(s[i + 1]))
  }

  /** `s` is made of white space only (the empty string included). */
  predicate AllSpace(s: string) { forall i :: 0 <= i < |s| ==> IsSpace(s[i]) }

  /** The characters of `s` that are not white space, in order. */
  function NonSpace(s: string): (r: string)
    ensures forall i :: 0 <= i < |r| ==> !IsSpace(r[i])
  {
    if s == [] then []
    else if IsSpace(s[0]) then NonSpace(s[1..])
    else [s[0]] + NonSpace(s[1..])
  }

  // ------------------------------------------------------------------ trim

  /** Removes the leading run of white space. */
  function TrimStart(s: string): (r: string)
    ensures |r| <= |s| && r == s[|s| - |r|..]
    ensures forall i :: 0 <= i < |s| - |r| ==> IsSpace(s[i])
    ensures r == [] || !IsSpace(r[0])
    ensures s != [] && IsSpace(s[0]) ==> |r| < |s|
  {
    if s != [] && IsSpace(s[0]) then TrimStart(s[1..]) else s
  }

  /** Removes the trailing run of white space. */
  function TrimEnd(s: string): (r: string)
    ensures |r| <= |s| && r == s[..|r|]
    ensures forall i :: |r| <= i < |s| ==> IsSpace(s[i])
    ensures r == [] || !IsSpace(r[|r| - 1])
  {
    if s != [] && IsSpace(s[|s| - 1]) then TrimEnd(s[..|s| - 1]) else s
  }

  /** `r` is the slice of `s` at offset `a` and everything of `s` outside it
      is white space. */
  predicate TrimmedAt(s: string, r: string, a: int) {
    && 0 <= a <= |s| - |r| && r == s[a..a + |r|]
    && (forall i :: 0 <= i < a ==> IsSpace(s[i]))
    && (forall i :: a + |r| <= i < |s| ==> IsSpace(s[i]))
  }

  /** String.prototype.trim: the result is the slice of `s` left once the white
      space at both ends is removed. */
  function Trim(s: string): (r: string)
    ensures NoEdgeSpace(r)
    ensures exists a :: TrimmedAt(s, r, a)
  {
    TrimBothEnds(s);
    TrimEnd(TrimStart(s))
  }

  lemma TrimBothEnds(s: string)
    ensures NoEdgeSpace(TrimEnd(TrimStart(s)))
    ensures TrimmedAt(s, TrimEnd(TrimStart(s)), |s| - |TrimStart(s)|)
  {
    var t := TrimStart(s);
    var r := TrimEnd(t);
    if r != [] {
      assert r[0] == t[0];
    }
    SliceOfSuffix(s, t, r);
  }

  /** A prefix `r` of a suffix `t` of `s`, with white space around it in `t`
      and before `t` in `s`, sits in `s` with only white space around it. */
  lemma SliceOfSuffix(s: string, t: string, r: string)
    requires |t| <= |s| && t == s[|s| - |t|..]
    requires forall i :: 0 <= i < |s| - |t| ==> IsSpace(s[i])
    requires |r| <= |t| && r == t[..|r|]
    requires forall i :: |r| <= i < |t| ==> IsSpace(t[i])
    ensures TrimmedAt(s, r, |s| - |t|)
  {
    var a := |s| - |t|;
    forall i | a + |r| <= i < |s|
      ensures IsSpace(s[i])
    {
      assert s[i] == t[i - a];
    }
  }

  /** A run of white space in front of a text that does not start with white
      space is exactly what TrimStart removes. */
  lemma {:induction false} TrimStartSpaces(w: string, t: string)
    requires AllSpace(w) && (t == [] || !IsSpace(t[0]))
    ensures TrimStart(w + t) == t
    decreases |w|
  {
    if w == [] {
      assert w + t == t;
    } else {
      assert (w + t)[0] == w[0] && (w + t)[1..] == w[1..] + t;
      TrimStartSpaces(w[1..], t);
    }
  }

  /** A run of white space after a text that does not end with white space is
      exactly what TrimEnd removes. */
  lemma {:induction false} TrimEndSpaces(t: string, w: string)
    requires AllSpace(w) && (t == [] || !IsSpace(t[|t| - 1]))
    ensures TrimEnd(t + w) == t
    decreases |w|
  {
    if w == [] {
      assert t + w == t;
    } else {
      var u := t + w;
      assert u[|u| - 1] == w[|w| - 1];
      assert u[..|u| - 1] == t + w[..|w| - 1];
      TrimEndSpaces(t, w[..|w| - 1]);
    }
  }

  /** Trim removes white space padding, and only that, around a text with
      none at its ends. */
  lemma TrimPadded(w1: string, x: string, w2: string)
    requires AllSpace(w1) && AllSpace(w2) && NoEdgeSpace(x)
    ensures Trim(w1 + x + w2) == x
  {
    if x == [] {
      assert w1 + x + w2 == w1 + w2 + [];
      TrimStartSpaces(w1 + w2, []);
      assert TrimEnd([]) == [];
    } else {
      assert w1 + x + w2 == w1 + (x + w2);
      TrimStartSpaces(w1, x + w2);
      TrimEndSpaces(x, w2);
    }
  }

  lemma TrimOfTrimmed(s: string)
    requires NoEdgeSpace(s)
    ensures Trim(s) == s
  {
  }

  /** NonSpace distributes over concatenation. */
  lemma {:induction false} NonSpaceAppend(a: string, b: string)
    ensures NonSpace(a + b) == NonSpace(a) + NonSpace(b)
    decreases |a|
  {
    if a != [] {
      assert (a + b)[0] == a[0] && (a + b)[1..] == a[1..] + b;
      NonSpaceAppend(a[1..], b);
      var h := if IsSpace(a[0]) then [] else [a[0]];
      assert NonSpace(a + b) == h + NonSpace(a[1..] + b);
      assert NonSpace(a) == h + NonSpace(a[1..]);
    } else {
      assert a + b == b;
    }
  }

  lemma {:induction false} NonSpaceOfAllSpace(s: string)
    requires forall i :: 0 <= i < |s| ==> IsSpace(s[i])
    ensures NonSpace(s) == []
    decreases |s|
  {
    if s != [] {
      NonSpaceOfAllSpace(s[1..]);
    }
  }

  /** Trimming removes white space only. */
  lemma TrimKeepsNonSpace(s: string)
    ensures NonSpace(Trim(s)) == NonSpace(s)
  {
    var r := Trim(s);
    var a :| TrimmedAt(s, r, a);
    NonSpaceOfTrimmed(s, r, a);
  }

  lemma NonSpaceOfTrimmed(s: string, r: string, a: int)
    requires TrimmedAt(s, r, a)
    ensures NonSpace(r) == NonSpace(s)
  {
    var pre, post := s[..a], s[a + |r|..];
    assert s == pre + r + post;
    forall i | 0 <= i < |pre|
      ensures IsSpace(pre[i])
    {
      assert pre[i] == s[i];
    }
    forall i | 0 <= i < |post|
      ensures IsSpace(post[i])
    {
      assert post[i] == s[a + |r| + i];
    }
    NonSpaceOfAllSpace(pre);
    NonSpaceOfAllSpace(post);
    NonSpaceAppend(pre, r);
    NonSpaceAppend(pre + r, post);
  }

  // -------------------------------------------------------------- collapse

  /** `s.replace(/\s+/g, ' ')`: every maximal run of white space becomes one
      ASCII space. */
  function Collapse(s: string): (r: string)
    ensures SingleSpaced(r)
    ensures NonSpace(r) == NonSpace(s)
    ensures (r == []) == (s == [])
    ensures s != [] ==> (IsSpace(r[0]) <==> IsSpace(s[0]))
    decreases |s|
  {
    if s == [] then []
    else if IsSpace(s[0]) then
      var t := TrimStart(s);
      NonSpaceOfSpaces(s, |s| - |t|);
      var c := Collapse(t);
      SpaceCons(c);
      [' '] + c
    else
      var t := Collapse(s[1..]);
      CharCons(s[0], t);
      [s[0]] + t
  }

  /** One ASCII space in front of a single-spaced string that does not start
      with white space keeps it single-spaced. */
  lemma SpaceCons(r: string)
    requires SingleSpaced(r) && (r == [] || !IsSpace(r[0]))
    ensures SingleSpaced([' '] + r) && NonSpace([' '] + r) == NonSpace(r)
  {
    assert ([' '] + r)[1..] == r;
  }

  /** A character that is not white space in front of a single-spaced string. */
  lemma CharCons(c: char, r: string)
    requires !IsSpace(c) && SingleSpaced(r)
    ensures SingleSpaced([c] + r) && NonSpace([c] + r) == [c] + NonSpace(r)
  {
    assert ([c] + r)[1..] == r;
  }

  /** Dropping a prefix made of white space does not change NonSpace. */
  lemma {:induction false} NonSpaceOfSpaces(s: string, k: nat)
    requires k <= |s|
    requires forall i :: 0 <= i < k ==> IsSpace(s[i])
    ensures NonSpace(s) == NonSpace(s[k..])
  {
    if k > 0 {
      assert s[1..][k - 1..] == s[k..];
      NonSpaceOfSpaces(s[1..], k - 1);
    }
  }

  /** Collapse ends in white space exactly when its input does. */
  lemma {:induction false} CollapseLast(s: string)
    requires s != []
    ensures IsSpace(Collapse(s)[|Collapse(s)| - 1]) <==> IsSpace(s[|s| - 1])
    decreases |s|
  {
    if IsSpace(s[0]) {
      var t := TrimStart(s);
      if t != [] {
        CollapseLast(t);
        assert t[|t| - 1] == s[|s| - 1];
      } else {
        assert IsSpace(s[|s| - 1]);
      }
    } else if |s| > 1 {
      CollapseLast(s[1..]);
    }
  }

  /** A single-spaced string is a fixed point of Collapse. */
  lemma {:induction false} CollapseOfSingleSpaced(s: string)
    requires SingleSpaced(s)
    ensures Collapse(s) == s
    decreases |s|
  {
    if s != [] {
      assert SingleSpaced(s[1..]);
      if IsSpace(s[0]) {
        assert TrimStart(s) == s[1..] by {
          if |s| > 1 { assert !IsSpace(s[1]); }
        }
      }
      CollapseOfSingleSpaced(s[1..]);
    }
  }

  /** A run of white space in front of a text that does not start with white
      space collapses to one ASCII space. */
  lemma CollapseSpaceHead(w: string, t: string)
    requires w != [] && AllSpace(w) && (t == [] || !IsSpace(t[0]))
    ensures Collapse(w + t) == [' '] + Collapse(t)
  {
    assert (w + t)[0] == w[0];
    TrimStartSpaces(w, t);
  }

  /** A character that is not white space stays in front of the rest. */
  lemma CollapseCharHead(c: char, t: string)
    requires !IsSpace(c)
    ensures Collapse([c] + t) == [c] + Collapse(t)
  {
    assert ([c] + t)[1..] == t;
  }

  /** A non-empty run of white space alone collapses to one ASCII space. */
  lemma CollapseAllSpace(w: string)
    requires w != [] && AllSpace(w)
    ensures Collapse(w) == " "
  {
    assert w + [] == w;
    CollapseSpaceHead(w, []);
  }

  /** A character that is not white space collapses to itself. */
  lemma CollapseChar(c: char)
    requires !IsSpace(c)
    ensures Collapse([c]) == [c]
  {
    assert [c] + [] == [c];
    CollapseCharHead(c, []);
  }

  /** Collapse works piece by piece on any split that does not cut a run of
      white space in two. With CollapseAllSpace and CollapseChar this fixes
      the result: each maximal run of white space becomes one ASCII space in
      its place, and every other character stays where it is. */
  lemma {:induction false} CollapseAppend(a: string, b: string)
    requires a == [] || b == [] || !IsSpace(a[|a| - 1]) || !IsSpace(b[0])
    ensures Collapse(a + b) == Collapse(a) + Collapse(b)
    decreases |a|, 1
  {
    if a == [] {
      assert a + b == b;
    } else if b == [] {
      assert a + b == a;
    } else if !IsSpace(a[0]) {
      CollapseAppendChar(a, b);
    } else {
      CollapseAppendSpace(a, b);
    }
  }

  lemma {:induction false} CollapseAppendChar(a: string, b: string)
    requires a != [] && b != [] && !IsSpace(a[0])
    requires !IsSpace(a[|a| - 1]) || !IsSpace(b[0])
    ensures Collapse(a + b) == Collapse(a) + Collapse(b)
    decreases |a|, 0
  {
    var t := a[1..];
    HeadSplit(a);
    CollapseAppendCharStep(a[0], t, b);
    if t == [] {
      assert t + b == b && Collapse(t) == [];
    } else {
      assert t[|t| - 1] == a[|a| - 1];
      CollapseAppend(t, b);
    }
    ConcatAssoc([a[0]], Collapse(t), Collapse(b));
  }

  lemma {:induction false} CollapseAppendSpace(a: string, b: string)
    requires a != [] && b != [] && IsSpace(a[0])
    requires !IsSpace(a[|a| - 1]) || !IsSpace(b[0])
    ensures Collapse(a + b) == Collapse(a) + Collapse(b)
    decreases |a|, 0
  {
    var t := TrimStart(a);
    var w := a[..|a| - |t|];
    TrimStartSplit(a);
    if t == [] {
      CollapseAppendAllSpace(a, b);
    } else {
      assert t[|t| - 1] == a[|a| - 1];
      CollapseAppendSpaceStep(w, t, b);
      CollapseAppend(t, b);
      ConcatAssoc(" ", Collapse(t), Collapse(b));
    }
  }

  lemma CollapseAppendAllSpace(a: string, b: string)
    requires a != [] && AllSpace(a) && b != [] && !IsSpace(b[0])
    ensures Collapse(a + b) == Collapse(a) + Collapse(b)
  {
    CollapseSpaceHead(a, b);
    CollapseAllSpace(a);
  }

  lemma HeadSplit(a: string)
    requires a != []
    ensures a == [a[0]] + a[1..]
  {
  }

  lemma TrimStartSplit(a: string)
    ensures a == a[..|a| - |TrimStart(a)|] + TrimStart(a) && AllSpace(a[..|a| - |TrimStart(a)|])
  {
  }

  /** The step of CollapseAppend for a text that opens with a character. */
  lemma CollapseAppendCharStep(c: char, t: string, b: string)
    requires !IsSpace(c)
    ensures Collapse([c] + t + b) == [c] + Collapse(t + b)
    ensures Collapse([c] + t) == [c] + Collapse(t)
  {
    ConcatAssoc([c], t, b);
    CollapseCharHead(c, t + b);
    CollapseCharHead(c, t);
  }

  /** The step of CollapseAppend for a text that opens with a run of white
      space followed by a character. */
  lemma CollapseAppendSpaceStep(w: string, t: string, b: string)
    requires w != [] && AllSpace(w) && t != [] && !IsSpace(t[0])
    ensures Collapse(w + t + b) == " " + Collapse(t + b)
    ensures Collapse(w + t) == " " + Collapse(t)
  {
    ConcatAssoc(w, t, b);
    assert (t + b)[0] == t[0];
    CollapseSpaceHead(w, t + b);
    CollapseSpaceHead(w, t);
  }

  /** Two texts with a run of white space between them collapse to the two
      collapsed texts joined by one ASCII space. */
  lemma CollapseJoin(x: string, w: string, y: string)
    requires x != [] && y != [] && !IsSpace(x[|x| - 1]) && !IsSpace(y[0])
    requires w != [] && AllSpace(w)
    ensures Collapse(x + w + y) == Collapse(x) + " " + Collapse(y)
  {
    var v := w + y;
    assert v[0] == w[0];
    CollapseSpaceHead(w, y);
    CollapseAppend(x, v);
    ConcatAssoc(x, w, y);
    ConcatAssoc(Collapse(x), " ", Collapse(y));
  }

  lemma ConcatAssoc(a: string, b: string, c: string)
    ensures a + b + c == a + (b + c)
  {
  }

  lemma CollapseIdempotent(s: string)
    ensures Collapse(Collapse(s)) == Collapse(s)
  {
    CollapseOfSingleSpaced(Collapse(s));
  }

  /** Collapse keeps a string free of white space at either end. */
  lemma CollapseKeepsEdges(s: string)
    requires NoEdgeSpace(s)
    ensures NoEdgeSpace(Collapse(s))
  {
    if s != [] {
      CollapseLast(s);
    }
  }

  /** The only white space of a single-spaced string is U+0020, so the
      ideographic space U+3000 does not occur in it. */
  lemma SingleSpacedNoIdeographicSpace(s: string)
    requires SingleSpaced(s)
    ensures '\U{3000}' !in s
  {
  }

  /** `s.replace(/[c]/g, d)` for one character. */
  function ReplaceChar(s: string, c: char, d: char): (r: string)
    ensures |r| == |s|
    ensures forall i :: 0 <= i < |s| ==> r[i] == (if s[i] == c then d else s[i])
  {
    if s == [] then [] else [if s[0] == c then d else s[0]] + ReplaceChar(s[1..], c, d)
  }

  lemma ReplaceAbsentChar(s: string, c: char, d: char)
    requires c !in s
    ensures ReplaceChar(s, c, d) == s
  {
  }

  // -------------------------------------------------------------- includes

  predicate OccursAt(s: string, p: string, i: int) {
    0 <= i <= |s| - |p| && s[i..i + |p|] == p
  }

  /** String.prototype.includes: `p` occurs in `s` at some position. */
  predicate Contains(s: string, p: string) {
    exists i | 0 <= i <= |s| - |p| :: OccursAt(s, p, i)
  }

  lemma ContainsEmpty(s: string)
    ensures Contains(s, [])
  {
    assert OccursAt(s, [], 0);
  }

  lemma ContainsAt(s: string, p: string, i: nat)
    requires i + |p| <= |s| && s[i..i + |p|] == p
    ensures Contains(s, p)
  {
    assert OccursAt(s, p, i);
  }

  /** A pattern using a character absent from `s` does not occur in it. */
  lemma MissingCharNotContained(s: string, p: string, c: char)
    requires c in p && c !in s
    ensures !Contains(s, p)
  {
  }

  /** A pattern opening with a character that `s` holds only at its start
      occurs in `s` at most there. */
  lemma NotContainedPastHead(s: string, p: string)
    requires |p| > 0 && |s| > 0 && p[0] == s[0]
    requires forall k :: 0 < k < |s| ==> s[k] != s[0]
    requires !OccursAt(s, p, 0)
    ensures !Contains(s, p)
  {
    forall i | 0 < i <= |s| - |p|
      ensures !OccursAt(s, p, i)
    {
      assert s[i..i + |p|][0] == s[i];
    }
  }

  /** The same, naming the position `j` in `p` of a character `s` lacks. */
  lemma MissingCharAtNotContained(s: string, p: string, j: nat)
    requires j < |p| && forall k :: 0 <= k < |s| ==> s[k] != p[j]
    ensures !Contains(s, p)
  {
    forall i | 0 <= i <= |s| - |p|
      ensures !OccursAt(s, p, i)
    {
      assert s[i..i + |p|][j] == s[i + j];
    }
  }

  lemma LongerNotContained(s: string, p: string)
    requires |p| > |s|
    ensures !Contains(s, p)
  {
  }

  // ----------------------------------------------------------- split, join

  /** Joins the parts with the separator between consecutive parts. */
  function Join(parts: seq<string>, sep: string): string {
    if |parts| == 0 then []
    else if |parts| == 1 then parts[0]
    else parts[0] + sep + Join(parts[1..], sep)
  }

  /** String.prototype.split with a one-character separator: the pieces
      between separators, never an empty list, never containing `sep`, and
      joining them back gives `s`. */
  function Split(s: string, sep: char): (parts: seq<string>)
    ensures |parts| >= 1
    ensures forall i :: 0 <= i < |parts| ==> sep !in parts[i]
    ensures Join(parts, [sep]) == s
  {
    if s == [] then [[]]
    else
      var rest := Split(s[1..], sep);
      if s[0] == sep then
        [[]] + rest
      else
        var parts := [[s[0]] + rest[0]] + rest[1..];
        assert parts[1..] == rest[1..];
        parts
  }

  lemma {:induction false} SplitNoSep(a: string, sep: char)
    requires sep !in a
    ensures Split(a, sep) == [a]
  {
    if a != [] {
      SplitNoSep(a[1..], sep);
      assert [a[0]] + a[1..] == a;
    }
  }

  lemma {:induction false} SplitAfterPart(a: string, b: string, sep: char)
    requires sep !in a
    ensures Split(a + [sep] + b, sep) == [a] + Split(b, sep)
  {
    if a == [] {
      assert (a + [sep] + b)[1..] == b;
    } else {
      assert (a + [sep] + b)[1..] == a[1..] + [sep] + b;
      SplitAfterPart(a[1..], b, sep);
      assert [a[0]] + a[1..] == a;
    }
  }

  /** Split undoes Join when no part contains the separator. */
  lemma {:induction false} SplitJoin(parts: seq<string>, sep: char)
    requires |parts| >= 1
    requires forall i :: 0 <= i < |parts| ==> sep !in parts[i]
    ensures Split(Join(parts, [sep]), sep) == parts
  {
    if |parts| == 1 {
      SplitNoSep(parts[0], sep);
    } else {
      SplitJoin(parts[1..], sep);
      SplitAfterPart(parts[0], Join(parts[1..], [sep]), sep);
      assert [parts[0]] + parts[1..] == parts;
    }
  }

  // --------------------------------------------------------------- numbers

  /** The value of a string of decimal digits. */
  function DigitsValue(d: string): nat
    requires AllDigits(d)
  {
    if d == [] then 0 else 10 * DigitsValue(d[..|d| - 1]) + DigitValue(d[|d| - 1])
  }

  /** The longest prefix of `s` made of decimal digits. */
  function DigitPrefix(s: string): (r: string)
    ensures |r| <= |s| && r == s[..|r|] && AllDigits(r)
    ensures |r| == |s| || !IsDigit(s[|r|])
  {
    if s != [] && IsDigit(s[0]) then
      var t := DigitPrefix(s[1..]);
      assert s[..1 + |t|] == [s[0]] + t;
      [s[0]] + t
    else []
  }

  /** parseInt(s, 10): skip leading white space, read an optional sign, then
      the longest run of decimal digits; NaN (None) when there is none. */
  function ParseInt10(s: string): Option<int> {
    var t := TrimStart(s);
    var u := if t != [] && (t[0] == '-' || t[0] == '+') then t[1..] else t;
    var z := DigitPrefix(u);
    if z == [] then None
    else if t[0] == '-' then Some(0 - DigitsValue(z) as int)
    else Some(DigitsValue(z))
  }

  /** Decimal digits of a natural number, without leading zeros. */
  function NatToString(n: nat): (r: string)
    ensures |r| >= 1 && AllDigits(r) && DigitsValue(r) == n
    ensures n >= 10 ==> r[0] != '0'
  {
    if n < 10 then [DigitChar(n)]
    else
      var r := NatToString(n / 10) + [DigitChar(n % 10)];
      assert r[..|r| - 1] == NatToString(n / 10);
      r
  }

  /** Number.prototype.toString for an integral value (below 1e21 in
      magnitude, where JavaScript switches to exponent notation). */
  function IntToString(n: int): string {
    if n < 0 then "-" + NatToString(-n) else NatToString(n)
  }

  lemma {:induction false} DigitPrefixOfDigits(d: string, rest: string)
    requires AllDigits(d)
    requires rest == [] || !IsDigit(rest[0])
    ensures DigitPrefix(d + rest) == d
  {
    if d != [] {
      assert (d + rest)[1..] == d[1..] + rest;
      DigitPrefixOfDigits(d[1..], rest);
      assert [d[0]] + d[1..] == d;
    }
  }

  lemma TrimStartNoSpace(s: string)
    requires s != [] && !IsSpace(s[0])
    ensures TrimStart(s) == s
  {
  }

  lemma ParseIntOfDigits(d: string, rest: string)
    requires d != [] && AllDigits(d)
    requires rest == [] || !IsDigit(rest[0])
    ensures ParseInt10(d + rest) == Some(DigitsValue(d))
  {
    var s := d + rest;
    assert s[0] == d[0] && IsDigit(s[0]);
    TrimStartNoSpace(s);
    DigitPrefixOfDigits(d, rest);
  }

  lemma ParseIntOfNegativeDigits(d: string, rest: string)
    requires d != [] && AllDigits(d)
    requires rest == [] || !IsDigit(rest[0])
    ensures ParseInt10("-" + d + rest) == Some(0 - DigitsValue(d))
  {
    var s := "-" + d + rest;
    assert s[0] == '-' && s[1..] == d + rest;
    DigitPrefixOfDigits(d, rest);
    ParseIntOfMinus(s, d);
  }

  /** A minus sign followed by the digits `d`, read as the negated value. */
  lemma ParseIntOfMinus(s: string, d: string)
    requires s != [] && s[0] == '-'
    requires d != [] && DigitPrefix(s[1..]) == d
    ensures ParseInt10(s) == Some(0 - DigitsValue(d))
  {
    TrimStartNoSpace(s);
  }

  /** parseInt reads back what toString printed, whatever follows it, as long
      as it does not begin with a digit. */
  lemma ParseIntOfIntToString(n: int, rest: string)
    requires rest == [] || !IsDigit(rest[0])
    ensures ParseInt10(IntToString(n) + rest) == Some(n)
  {
    if n < 0 {
      ParseIntOfNegativeDigits(NatToString(-n), rest);
    } else {
      ParseIntOfDigits(NatToString(n), rest);
    }
  }

  /** An integer printed after a prefix reads back from just after it. */
  lemma PrefixedIntReadsBack(p: string, n: int, rest: string)
    requires rest == [] || !IsDigit(rest[0])
    ensures |p + IntToString(n) + rest| > |p|
    ensures (p + IntToString(n) + rest)[..|p|] == p
    ensures ParseInt10((p + IntToString(n) + rest)[|p|..]) == Some(n)
  {
    var s := p + IntToString(n) + rest;
    assert s == p + (IntToString(n) + rest);
    assert s[|p|..] == IntToString(n) + rest;
    ParseIntOfIntToString(n, rest);
  }

  /** parseInt reads back exactly what toString printed. */
  lemma ParseIntRoundTrip(n: int)
    ensures ParseInt10(IntToString(n)) == Some(n)
  {
    assert IntToString(n) + [] == IntToString(n);
    ParseIntOfIntToString(n, []);
  }

  lemma IntToStringInjective(m: int, n: int)
    ensures IntToString(m) == IntToString(n) ==> m == n
  {
    if IntToString(m) == IntToString(n) {
      ParseIntOfIntToString(m, []);
      ParseIntOfIntToString(n, []);
      assert IntToString(m) + [] == IntToString(m);
      assert IntToString(n) + [] == IntToString(n);
    }
  }

  function Pow10(k: nat): (p: nat)
    ensures p >= 1
  {
    if k == 0 then 1 else 10 * Pow10(k - 1)
  }

  lemma {:induction false} NatToStringLength(n: nat, w: nat)
    requires n < Pow10(w)
    ensures |NatToString(n)| <= w || (n == 0 && w == 0)
  {
    if n >= 10 {
      NatToStringLength(n / 10, w - 1);
    }
  }

  /** `String(n).padStart(w, '0')`. */
  function ZeroPad(n: nat, w: nat): (r: string)
    ensures AllDigits(r)
  {
    var d := NatToString(n);
    if |d| < w then seq(w - |d|, _ => '0') + d else d
  }

  lemma {:induction false} DigitsValueLeadingZeros(z: string, d: string)
    requires forall i :: 0 <= i < |z| ==> z[i] == '0'
    requires AllDigits(d)
    ensures AllDigits(z + d) && DigitsValue(z + d) == DigitsValue(d)
    decreases |d|
  {
    if d == [] {
      DigitsValueZeros(z);
      assert z + d == z;
    } else {
      assert (z + d)[..|z + d| - 1] == z + d[..|d| - 1];
      DigitsValueLeadingZeros(z, d[..|d| - 1]);
    }
  }

  lemma {:induction false} DigitsValueZeros(z: string)
    requires forall i :: 0 <= i < |z| ==> z[i] == '0'
    ensures AllDigits(z) && DigitsValue(z) == 0
  {
    if z != [] {
      DigitsValueZeros(z[..|z| - 1]);
    }
  }

  /** A value below 10^w pads to exactly w digits that read back as the value. */
  lemma ZeroPadValue(n: nat, w: nat)
    requires n < Pow10(w) && w >= 1
    ensures |ZeroPad(n, w)| == w && DigitsValue(ZeroPad(n, w)) == n
  {
    var d := NatToString(n);
    NatToStringLength(n, w);
    if |d| < w {
      DigitsValueLeadingZeros(seq(w - |d|, _ => '0'), d);
    }
  }

  lemma Pow10Small()
    ensures Pow10(2) == 100 && Pow10(3) == 1000 && Pow10(4) == 10000
  {
    assert Pow10(1) == 10;
  }
}
