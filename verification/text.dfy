/**
 Character classes and the three string operations the transcript parser
 relies on: maximal runs of a character class, `str.strip()` and
 `str.splitlines()`, with Python's definitions of whitespace and of a line
 boundary.
 */
module Text {

  /** Python's `str.isspace()`, which is also what `\s` matches in a str
      pattern and what `strip()` removes. */
  predicate IsSpace(c: char) {
    || c == ' '
    || ('\t' <= c <= '\r')
    || ('\U{1c}' <= c <= '\U{1f}')
    || c == '\U{85}' || c == '\U{a0}' || c == '\U{1680}'
    || ('\U{2000}' <= c <= '\U{200a}')
    || c == '\U{2028}' || c == '\U{2029}' || c == '\U{202f}' || c == '\U{205f}'
    || c == '\U{3000}'
  }

  predicate NotSpace(c: char) {
    !IsSpace(c)
  }

  /** The characters at which `str.splitlines()` ends a line. */
  predicate IsLineBreak(c: char) {
    || c == '\n' || c == '\r'
    || c == '\U{0b}' || c == '\U{0c}'
    || c == '\U{1c}' || c == '\U{1d}' || c == '\U{1e}'
    || c == '\U{85}' || c == '\U{2028}' || c == '\U{2029}'
  }


  /** An ASCII decimal digit. */
  predicate IsDigit(c: char) {
    '0' <= c <= '9'
  }

  /** The character classes the parser scans runs of. */
  datatype CharClass = Space | NonSpace | Digit | NonBreak | NonDot

  predicate InClass(k: CharClass, c: char) {
    match k
    case Space => IsSpace(c)
    case NonSpace => !IsSpace(c)
    case Digit => IsDigit(c)
    case NonBreak => !IsLineBreak(c)
    case NonDot => c != '.'
  }

  predicate AllSpace(s: string) {
    forall i :: 0 <= i < |s| ==> IsSpace(s[i])
  }

  predicate AllDigits(s: string) {
    forall i :: 0 <= i < |s| ==> IsDigit(s[i])
  }

  predicate NoLineBreak(s: string) {
    forall i :: 0 <= i < |s| ==> !IsLineBreak(s[i])
  }

  /** End of the longest run of class-`k` characters of `s` starting at
      `i`: where a greedy `k+` or `k*` begun at `i` stops. */
  function RunEnd(s: string, i: nat, k: CharClass): (j: nat)
    requires i <= |s|
    ensures i <= j <= |s|
    ensures forall m :: i <= m < j ==> InClass(k, s[m])
    ensures j < |s| ==> !InClass(k, s[j])
    decreases |s| - i
  {
    if i == |s| || !InClass(k, s[i]) then i else RunEnd(s, i + 1, k)
  }

  /** `RunEnd` is the only index with its two properties. */
  lemma RunEndUnique(s: string, i: nat, k: CharClass, j: nat)
    requires i <= j <= |s|
    requires forall m :: i <= m < j ==> InClass(k, s[m])
    requires j < |s| ==> !InClass(k, s[j])
    ensures RunEnd(s, i, k) == j
  {
  }

  /** The run of class `k` from `i` ends at `j` when all of `s[i..j]` is
      in the class and `s[j]`, if any, is not. */
  lemma RunOver(s: string, i: nat, j: nat, k: CharClass)
    requires i <= j <= |s|
    requires forall m :: 0 <= m < j - i ==> InClass(k, s[i..j][m])
    requires j < |s| ==> !InClass(k, s[j])
    ensures RunEnd(s, i, k) == j
  {
    forall m | i <= m < j
      ensures InClass(k, s[m])
    {
      assert s[i..j][m - i] == s[m];
    }
    RunEndUnique(s, i, k, j);
  }

  lemma AllSpaceConcat(a: string, b: string)
    requires AllSpace(a) && AllSpace(b)
    ensures AllSpace(a + b)
  {
  }

  lemma ConcatAssoc(a: string, b: string, c: string)
    ensures (a + b) + c == a + (b + c)
  {
  }

  /** The slices of `a + b` that cut inside `a` or at its end. */
  lemma ConcatSlices(a: string, b: string, i: nat)
    requires i <= |a|
    ensures (a + b)[..i] == a[..i] && (a + b)[i..|a|] == a[i..] && (a + b)[|a|..] == b
    ensures a[..i] + a[i..] == a
  {
  }

  /** Reading `a + b` at index `i` of `s`: `a` lies at `i`, `b` after it. */
  lemma SplitAt(s: string, i: nat, a: string, b: string)
    requires i <= |s| && s[i..] == a + b
    ensures i + |a| <= |s|
    ensures s[i..i + |a|] == a && s[i + |a|..] == b
  {
    assert s[i..][..|a|] == a;
    assert s[i..][|a|..] == b;
  }

  /** Reading a piece `a` of `s` at `i`: its first `p` characters, the
      character after them, and the rest. */
  lemma PieceAt(s: string, i: nat, a: string, p: nat, j: nat, e: nat)
    requires j == i + p && e == i + |a|
    requires e <= |s| && s[i..e] == a && p < |a|
    ensures s[i..j] == a[..p] && s[j] == a[p] && s[j + 1..e] == a[p + 1..]
  {
    assert s[i..e][p] == s[j];
  }

  /** The converse of `SplitAt`: adjacent pieces of `s` read as one. */
  lemma JoinAt(s: string, i: nat, j: nat, a: string, b: string)
    requires i <= j <= |s| && s[i..j] == a && s[j..] == b
    ensures s[i..] == a + b
  {
    assert s[i..] == s[i..j] + s[j..];
  }

  /** Length of the longest suffix of `s` made of whitespace. */
  function TrailingSpace(s: string): (n: nat)
    ensures n <= |s|
    ensures forall i :: |s| - n <= i < |s| ==> IsSpace(s[i])
    ensures n < |s| ==> !IsSpace(s[|s| - 1 - n])
  {
    if |s| == 0 || !IsSpace(s[|s| - 1]) then 0 else 1 + TrailingSpace(s[..|s| - 1])
  }

  /** Python's `str.strip()` with no argument. */
  function Strip(s: string): (r: string)
    ensures |r| <= |s|
    ensures r == [] <==> AllSpace(s)
    ensures r != [] ==> NotSpace(r[0]) && NotSpace(r[|r| - 1])
  {
    var t := s[RunEnd(s, 0, Space)..];
    t[..|t| - TrailingSpace(t)]
  }

  /** Index of the first line boundary of `s`, or `|s|` when there is none. */
  function FirstBreak(s: string): (k: nat)
    ensures k <= |s|
    ensures NoLineBreak(s[..k])
    ensures k < |s| ==> IsLineBreak(s[k])
  {
    RunEnd(s, 0, NonBreak)
  }

  /** Width of the boundary at `k`: "\r\n" is one boundary of two characters. */
  function BreakWidth(s: string, k: nat): (w: nat)
    requires k < |s|
    ensures k + w <= |s|
    ensures 1 <= w <= 2
  {
    if s[k] == '\r' && k + 1 < |s| && s[k + 1] == '\n' then 2 else 1
  }

  /** Python's `str.splitlines()`: the text between boundaries, without
      the boundaries, and no empty last line after a final boundary. */
  function SplitLines(s: string): (lines: seq<string>)
    ensures forall i :: 0 <= i < |lines| ==> NoLineBreak(lines[i])
    ensures |lines| <= |s|
    decreases |s|
  {
    if |s| == 0 then []
    else
      var k := FirstBreak(s);
      if k == |s| then [s]
      else [s[..k]] + SplitLines(s[k + BreakWidth(s, k)..])
  }

  /** `"\n".join(lines)`, the inverse of `SplitLines` on lines without
      boundaries. */
  function JoinLines(lines: seq<string>): string
  {
    if |lines| == 0 then ""
    else if |lines| == 1 then lines[0]
    else lines[0] + "\n" + JoinLines(lines[1..])
  }

  /** Stripping removes exactly the surrounding whitespace: whatever text
      with non-space ends is padded with, `Strip` gives the text back. */
  lemma StripUnpads(left: string, m: string, right: string)
    requires AllSpace(left) && AllSpace(right)
    requires m == [] || (NotSpace(m[0]) && NotSpace(m[|m| - 1]))
    ensures Strip(left + m + right) == m
  {
    var s := left + m + right;
    var i := RunEnd(s, 0, Space);
    if m == [] {
      assert AllSpace(s);
    } else {
      assert s[|left|] == m[0];
      assert i == |left|;
      var t := s[i..];
      assert t == m + right;
      assert t[|m| - 1] == m[|m| - 1];
      assert TrailingSpace(t) == |right|;
    }
  }

  /** Text without whitespace is its own `Strip`. */
  lemma StripNoSpace(s: string)
    requires forall i :: 0 <= i < |s| ==> NotSpace(s[i])
    ensures Strip(s) == s
  {
    StripUnpads("", s, "");
    assert "" + s + "" == s;
  }

  /** Splitting text joined with "\n" gives the lines back, provided no line
      holds a boundary and the last one is not empty. */
  lemma {:induction false} SplitJoin(lines: seq<string>)
    requires forall i :: 0 <= i < |lines| ==> NoLineBreak(lines[i])
    requires |lines| > 0 ==> lines[|lines| - 1] != []
    ensures SplitLines(JoinLines(lines)) == lines
    decreases |lines|
  {
    if |lines| == 0 {
    } else if |lines| == 1 {
      var s := lines[0];
      assert NoLineBreak(s);
      assert FirstBreak(s) == |s|;
    } else {
      assert NoLineBreak(lines[0]);
      HeadLine(lines[0], JoinLines(lines[1..]));
      SplitJoin(lines[1..]);
    }
  }

  /** A line without boundaries, then "\n", splits off as the first line. */
  lemma HeadLine(l: string, rest: string)
    requires NoLineBreak(l)
    ensures SplitLines(l + "\n" + rest) == [l] + SplitLines(rest)
  {
    var s := l + "\n" + rest;
    assert s[|l|] == '\n';
    assert forall i :: 0 <= i < |l| ==> s[i] == l[i];
    assert FirstBreak(s) == |l|;
    assert BreakWidth(s, |l|) == 1;
    assert s[|l| + 1..] == rest;
    assert s[..|l|] == l;
    SplitStep(s);
  }

  /** `"\n".join` extended by one line. */
  lemma {:induction false} JoinLinesSnoc(init: seq<string>, l: string)
    requires |init| > 0
    ensures JoinLines(init + [l]) == JoinLines(init) + "\n" + l
    decreases |init|
  {
    var lines := init + [l];
    assert lines[0] == init[0];
    if |init| == 1 {
      assert lines[1..] == [l];
    } else {
      assert lines[1..] == init[1..] + [l];
      JoinLinesSnoc(init[1..], l);
      var h, r := init[0] + "\n", JoinLines(init[1..]);
      ConcatAssoc(h, r + "\n", l);
      ConcatAssoc(h, r, "\n");
    }
  }

  /** A boundary inside `x` is the first boundary of `x + y` too. */
  lemma BreakShared(x: string, y: string)
    requires FirstBreak(x) < |x|
    ensures FirstBreak(x + y) == FirstBreak(x)
  {
    var s, k := x + y, FirstBreak(x);
    forall m | 0 <= m < k
      ensures InClass(NonBreak, s[m])
    {
      assert s[m] == x[m];
    }
    assert s[k] == x[k];
    RunEndUnique(s, 0, NonBreak, k);
  }

  /** One step of `SplitLines`: the text before the first boundary, then
      the lines after it. */
  lemma SplitStep(s: string)
    requires FirstBreak(s) < |s|
    ensures SplitLines(s) == [s[..FirstBreak(s)]] + SplitLines(s[FirstBreak(s) + BreakWidth(s, FirstBreak(s))..])
  {
  }

  lemma DropConcat(a: string, b: string, i: nat)
    requires i <= |a|
    ensures (a + b)[..i] == a[..i] && (a + b)[i..] == a[i..] + b
  {
  }

  lemma ConcatAssocLines(a: seq<string>, b: seq<string>, c: seq<string>)
    ensures (a + b) + c == a + (b + c)
  {
  }

  /** Text that is empty or ends in "\n" splits on its own: whatever
      follows starts a fresh line. */
  lemma {:induction false} SplitAppend(x: string, y: string)
    requires x == [] || x[|x| - 1] == '\n'
    ensures SplitLines(x + y) == SplitLines(x) + SplitLines(y)
    decreases |x|
  {
    if x == [] {
      assert x + y == y;
    } else {
      var s := x + y;
      var k := FirstBreak(x);
      assert k < |x| by {
        assert !InClass(NonBreak, x[|x| - 1]);
      }
      BreakShared(x, y);
      var w := BreakWidth(x, k);
      assert BreakWidth(s, k) == w by {
        assert s[k] == x[k];
        assert x[k] == '\r' ==> k + 1 < |x| && s[k + 1] == x[k + 1];
      }
      DropConcat(x, y, k + w);
      DropConcat(x, y, k);
      var rest := x[k + w..];
      assert rest == [] || rest[|rest| - 1] == x[|x| - 1];
      SplitAppend(rest, y);
      SplitStep(x);
      SplitStep(s);
      ConcatAssocLines([x[..k]], SplitLines(rest), SplitLines(y));
    }
  }

  /** Text without a boundary followed by "\n" is that one line. */
  lemma NewlineEnds(p: string)
    requires FirstBreak(p) == |p|
    ensures SplitLines(p + "\n") == [p]
  {
    var s := p + "\n";
    var k := |p|;
    DropConcat(p, "\n", k);
    assert s[0..k] == p;
    RunOver(s, 0, k, NonBreak);
    SplitStep(s);
    assert s[k + 1..] == [];
  }

  /** A "\n" appended to text adds at most one empty last line. */
  lemma {:induction false} SplitNewline(p: string)
    ensures SplitLines(p + "\n") == SplitLines(p) || SplitLines(p + "\n") == SplitLines(p) + [""]
    decreases |p|
  {
    var s := p + "\n";
    var k := FirstBreak(p);
    if k == |p| {
      NewlineEnds(p);
    } else {
      BreakShared(p, "\n");
      SplitStep(p);
      SplitStep(s);
      var w := BreakWidth(p, k);
      DropConcat(p, "\n", k);
      if k + 1 == |p| && p[k] == '\r' {
        assert BreakWidth(s, k) == 2 && w == 1;
        assert s[k + 2..] == [] && p[k + 1..] == [];
      } else {
        assert BreakWidth(s, k) == w by {
          assert k + 1 < |p| ==> s[k + 1] == p[k + 1];
        }
        DropConcat(p, "\n", k + w);
        SplitNewline(p[k + w..]);
        ConcatAssocLines([p[..k]], SplitLines(p[k + w..]), [""]);
      }
    }
  }

  /** The characters a run passes over are in its class. */
  lemma RunPrefix(s: string, k: CharClass)
    ensures forall m :: 0 <= m < RunEnd(s, 0, k) ==> InClass(k, s[..RunEnd(s, 0, k)][m])
  {
  }

  lemma TrailingSuffix(s: string)
    ensures AllSpace(s[|s| - TrailingSpace(s)..])
  {
  }

  lemma TakeDrop(s: string, i: nat)
    requires i <= |s|
    ensures s[..i] + s[i..] == s
  {
  }

  /** `Strip` only removes whitespace: `s` is its result padded with
      whitespace on both sides. */
  lemma StripFrame(s: string) returns (left: string, right: string)
    ensures AllSpace(left) && AllSpace(right)
    ensures s == left + Strip(s) + right
  {
    var i := RunEnd(s, 0, Space);
    var t := s[i..];
    var j := |t| - TrailingSpace(t);
    var mid := t[..j];
    left, right := s[..i], t[j..];
    RunPrefix(s, Space);
    TrailingSuffix(t);
    TakeDrop(s, i);
    TakeDrop(t, j);
    ConcatAssoc(left, mid, right);
  }

  /** Stripping ignores whitespace appended at the end. */
  lemma StripIgnoresTrailingSpace(s: string, sp: string)
    requires AllSpace(sp)
    ensures Strip(s + sp) == Strip(s)
  {
    var left, right := StripFrame(s);
    var m := Strip(s);
    AllSpaceConcat(right, sp);
    ConcatAssoc(left + m, right, sp);
    StripUnpads(left, m, right + sp);
  }
}
