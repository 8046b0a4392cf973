/**
 The transcript line parser. Every line of the document is searched for
 `(.+?)\s+(\d+(?:\.\d+)?)學分\s+GPA[:：]?\s*(\S+)?`; a line that matches
 gives one course record, in line order, and any other line gives none.

 The regular expression is modelled by hand. On a line without '\n' every
 match can be widened to start at index 0 (`.+?` accepts any character
 there), so the leftmost match starts at 0 and the lazy name group ends at
 the least index `q >= 1` from which the rest of the pattern, the tail,
 matches. The tail is deterministic: each greedy run is followed by a
 character outside its class, so backtracking never changes which
 characters a run takes.
 */
module Transcript {
  import opened Wrappers
  import opened Text
  import opened Numeral

  /** "學分", the credit unit that ends the credit token. */
  const CreditUnit: string := "學分"
  const GpaLabel: string := "GPA"

  /** One course record: trimmed name, credits, and the GPA when its token
      is a number. */
  datatype Course = Course(name: string, credits: real, gpa: Option<real>)

  /** The part of a matching line after the course name, as text: the
      whitespace before the credits, the credit token, the whitespace
      between the unit and "GPA", and everything after "GPA". */
  datatype Tail = Tail(lead: string, credit: string, gap: string, after: string)

  function TailText(t: Tail): string {
    t.lead + (t.credit + (CreditUnit + (t.gap + (GpaLabel + t.after))))
  }

  /** The credit token `\d+(?:\.\d+)?`: a run of digits, and when anything
      follows it, a '.' and a run of digits to the end. */
  predicate IsCreditNumeral(s: string) {
    var p := RunEnd(s, 0, Digit);
    && 0 < p
    && (p == |s| || (s[p] == '.' && p + 1 < |s| && forall m :: p < m < |s| ==> IsDigit(s[m])))
  }

  /** What the tail's pieces must be for `\s+(\d+(?:\.\d+)?)學分\s+GPA`. */
  predicate WellFormed(t: Tail) {
    && |t.lead| > 0 && AllSpace(t.lead)
    && IsCreditNumeral(t.credit)
    && |t.gap| > 0 && AllSpace(t.gap)
  }

  /** Where a tail found at index `q` of a line lies: whitespace in
      `[q, credit)`, integer digits in `[credit, point)`, the fraction (a
      '.' and digits) in `[point, unit)`, "學分" at `unit`, whitespace in
      `[unit + 2, tag)` and "GPA" at `tag`. */
  datatype Cut = Cut(credit: nat, point: nat, unit: nat, tag: nat)

  predicate CutFits(line: string, q: nat, c: Cut) {
    && q < c.credit < c.point <= c.unit && c.unit + 2 < c.tag && c.tag + 3 <= |line|
    && (forall m :: q <= m < c.credit ==> IsSpace(line[m]))
    && (forall m :: c.credit <= m < c.point ==> IsDigit(line[m]))
    && (c.point < c.unit ==>
         line[c.point] == '.' && c.point + 1 < c.unit
         && forall m :: c.point < m < c.unit ==> IsDigit(line[m]))
    && line[c.unit] == '學' && line[c.unit + 1] == '分'
    && (forall m :: c.unit + 2 <= m < c.tag ==> IsSpace(line[m]))
    && line[c.tag] == 'G' && line[c.tag + 1] == 'P' && line[c.tag + 2] == 'A'
  }

  /** The tail text a cut delimits. */
  function TailOf(line: string, q: nat, c: Cut): Tail
    requires CutFits(line, q, c)
  {
    Tail(line[q..c.credit], line[c.credit..c.unit], line[c.unit + 2..c.tag], line[c.tag + 3..])
  }

  predicate IsColon(c: char) {
    c == ':' || c == '：'
  }

  /** `\s+(\d+(?:\.\d+)?)學分\s+GPA` from index `q` of `line`, anything
      after: each run taken greedily. */
  function MatchTailAt(line: string, q: nat): (r: Option<Cut>)
    requires q <= |line|
    ensures r.Some? ==> CutFits(line, q, r.value)
  {
    var c := RunEnd(line, q, Space);
    if c == q then None
    else
      var p := RunEnd(line, c, Digit);
      if p == c then None
      else
        var u := if p < |line| && line[p] == '.' && RunEnd(line, p + 1, Digit) > p + 1
                 then RunEnd(line, p + 1, Digit) else p;
        if u + 2 > |line| || line[u] != '學' || line[u + 1] != '分' then None
        else
          var l := RunEnd(line, u + 2, Space);
          if l == u + 2 || l + 3 > |line| || line[l] != 'G' || line[l + 1] != 'P' || line[l + 2] != 'A'
          then None
          else Some(Cut(c, p, u, l))
  }

  /** The tail matches from index `q`: the lazy name group may stop there. */
  predicate TailAt(line: string, q: nat)
    requires q <= |line|
  {
    MatchTailAt(line, q).Some?
  }

  /** The least `q` from `from` on at which the tail matches: where the
      lazy name group `(.+?)` stops. */
  function FindSplit(line: string, from: nat): (r: Option<nat>)
    requires 1 <= from <= |line| + 1
    ensures r.Some? ==> from <= r.value <= |line| && TailAt(line, r.value)
    ensures r.Some? ==> forall q :: from <= q < r.value ==> !TailAt(line, q)
    ensures r.None? ==> forall q :: from <= q <= |line| ==> !TailAt(line, q)
    decreases |line| + 1 - from
  {
    if from > |line| then None
    else if TailAt(line, from) then Some(from)
    else FindSplit(line, from + 1)
  }

  /** A match of the line pattern: the name group is `line[..split]`. */
  datatype LineMatch = LineMatch(split: nat, cut: Cut)

  /** `re.search` of the line pattern on one line: the shortest non-empty
      name after which the tail matches. */
  function Match(line: string): (r: Option<LineMatch>)
    requires '\n' !in line
    ensures r.Some? ==> 1 <= r.value.split <= |line| && CutFits(line, r.value.split, r.value.cut)
    ensures r.Some? ==> MatchTailAt(line, r.value.split) == Some(r.value.cut)
    ensures r.Some? ==> forall q :: 1 <= q < r.value.split ==> !TailAt(line, q)
    ensures r.None? ==> forall q :: 1 <= q <= |line| ==> !TailAt(line, q)
  {
    match FindSplit(line, 1)
    case None => None
    case Some(q) => Some(LineMatch(q, MatchTailAt(line, q).value))
  }

  /** `g.replace('.', '', 1)`-checked GPA group, read by `ParseGpa`: the
      token after "GPA", an optional colon and whitespace, up to the next
      whitespace; absent when the line ends first. */
  function GpaToken(after: string): (r: Option<string>)
    ensures r.Some? ==> |r.value| > 0 && forall i :: 0 <= i < |r.value| ==> NotSpace(r.value[i])
  {
    var a := if |after| > 0 && IsColon(after[0]) then after[1..] else after;
    var rest := a[RunEnd(a, 0, Space)..];
    var n := RunEnd(rest, 0, NonSpace);
    if n == 0 then None else Some(rest[..n])
  }

  /** One line to at most one record (the body of extract_courses' loop). */
  function ParseLine(line: string): (r: Option<Course>)
    requires '\n' !in line
    ensures r.Some? <==> Match(line).Some?
    ensures r.Some? ==> r.value.credits >= 0.0
    ensures r.Some? && r.value.gpa.Some? ==> r.value.gpa.value >= 0.0
  {
    match Match(line)
    case None => None
    case Some(m) =>
      CutText(line, m.split, m.cut);
      var tail := TailOf(line, m.split, m.cut);
      CreditIsNumeral(tail.credit);
      Some(Course(Strip(line[..m.split]), Value(tail.credit), ParseGpa(GpaToken(tail.after))))
  }

  predicate NoNewline(lines: seq<string>) {
    forall i :: 0 <= i < |lines| ==> '\n' !in lines[i]
  }

  /** What each line parses to, line by line. */
  function Parsed(lines: seq<string>): (r: seq<Option<Course>>)
    requires NoNewline(lines)
    ensures |r| == |lines|
    ensures forall i :: 0 <= i < |lines| ==> r[i] == ParseLine(lines[i])
  {
    if |lines| == 0 then [] else [ParseLine(lines[0])] + Parsed(lines[1..])
  }

  /** The records of a sequence of lines, in line order: a record is in the
      result exactly when some line parses to it. */
  function ParseLines(lines: seq<string>): (r: seq<Course>)
    requires NoNewline(lines)
    ensures |r| <= |lines|
    ensures forall c :: c in r <==> exists i :: 0 <= i < |lines| && ParseLine(lines[i]) == Some(c)
  {
    var parsed := Parsed(lines);
    assert forall c :: Some(c) in parsed <==> exists i :: 0 <= i < |lines| && ParseLine(lines[i]) == Some(c);
    Present(parsed)
  }

  /** extract_courses: split the text into lines and parse each. */
  function ExtractCourses(text: string): (r: seq<Course>)
    ensures |r| <= |SplitLines(text)|
    ensures forall c :: c in r ==> c.credits >= 0.0 && (c.gpa.Some? ==> c.gpa.value >= 0.0)
  {
    var lines := SplitLines(text);
    BreakFreeLines(lines);
    ParseLines(lines)
  }

  // ---------------------------------------------------------------------
  // The tail: cuts and text

  /** Where the pieces of tail `t` lie when it starts at index `q`. */
  function TailCut(q: nat, t: Tail): Cut {
    var c := q + |t.lead|;
    var u := c + |t.credit|;
    Cut(c, c + RunEnd(t.credit, 0, Digit), u, u + 2 + |t.gap|)
  }

  /** The text of tail `t` at index `q`, up to the unit. */
  lemma TailFront(line: string, q: nat, t: Tail)
    requires q <= |line| && line[q..] == TailText(t)
    ensures var c := q + |t.lead|; var u := c + |t.credit|;
      && u + 2 <= |line|
      && line[q..c] == t.lead && line[c..u] == t.credit
      && line[u] == '學' && line[u + 1] == '分'
      && line[u + 2..] == t.gap + (GpaLabel + t.after)
  {
    var c := q + |t.lead|;
    var u := c + |t.credit|;
    SplitAt(line, q, t.lead, t.credit + (CreditUnit + (t.gap + (GpaLabel + t.after))));
    SplitAt(line, c, t.credit, CreditUnit + (t.gap + (GpaLabel + t.after)));
    SplitAt(line, u, CreditUnit, t.gap + (GpaLabel + t.after));
    PieceAt(line, u, CreditUnit, 0, u, u + 2);
    PieceAt(line, u, CreditUnit, 1, u + 1, u + 2);
  }

  /** The text of tail `t` from the whitespace after the unit, at index
      `g`, on. */
  lemma TailBack(line: string, g: nat, t: Tail)
    requires g <= |line| && line[g..] == t.gap + (GpaLabel + t.after)
    ensures var l := g + |t.gap|;
      && l + 3 <= |line| && line[g..l] == t.gap && line[l + 3..] == t.after
      && line[l] == 'G' && line[l + 1] == 'P' && line[l + 2] == 'A'
  {
    var l := g + |t.gap|;
    SplitAt(line, g, t.gap, GpaLabel + t.after);
    SplitAt(line, l, GpaLabel, t.after);
    assert line[l..l + 3][0] == line[l];
    assert line[l..l + 3][1] == line[l + 1];
    assert line[l..l + 3][2] == line[l + 2];
  }

  /** The text of tail `t` at index `q`, piece by piece. */
  lemma TailPieces(line: string, q: nat, t: Tail)
    requires q <= |line| && line[q..] == TailText(t)
    ensures var k := TailCut(q, t);
      && k.tag + 3 <= |line|
      && line[q..k.credit] == t.lead && line[k.credit..k.unit] == t.credit
      && line[k.unit + 2..k.tag] == t.gap && line[k.tag + 3..] == t.after
      && line[k.unit] == '學' && line[k.unit + 1] == '分'
      && line[k.tag] == 'G' && line[k.tag + 1] == 'P' && line[k.tag + 2] == 'A'
  {
    TailFront(line, q, t);
    TailBack(line, q + |t.lead| + |t.credit| + 2, t);
  }

  /** The greedy runs, read off a line, determine the tail match. */
  lemma MatchFromRuns(line: string, q: nat, k: Cut)
    requires q < k.credit < k.point <= k.unit && k.unit + 2 < k.tag && k.tag + 3 <= |line|
    requires RunEnd(line, q, Space) == k.credit && RunEnd(line, k.credit, Digit) == k.point
    requires k.point < k.unit ==> k.point + 1 < k.unit && line[k.point] == '.' && RunEnd(line, k.point + 1, Digit) == k.unit
    requires line[k.unit] == '學' && line[k.unit + 1] == '分'
    requires RunEnd(line, k.unit + 2, Space) == k.tag
    requires line[k.tag] == 'G' && line[k.tag + 1] == 'P' && line[k.tag + 2] == 'A'
    ensures MatchTailAt(line, q) == Some(k)
  {
  }

  /** The whitespace runs of a tail at `q` end where its pieces say. */
  lemma SpaceRuns(line: string, q: nat, t: Tail)
    requires q <= |line| && line[q..] == TailText(t) && WellFormed(t)
    ensures var k := TailCut(q, t);
      RunEnd(line, q, Space) == k.credit && RunEnd(line, k.unit + 2, Space) == k.tag
  {
    var k := TailCut(q, t);
    TailPieces(line, q, t);
    assert line[k.credit] == t.credit[0] by {
      assert line[k.credit..k.unit][0] == line[k.credit];
    }
    RunOver(line, q, k.credit, Space);
    RunOver(line, k.unit + 2, k.tag, Space);
  }

  /** The credit token of a tail at `q` lies at its cut's credit index. */
  lemma CreditAt(line: string, q: nat, t: Tail)
    requires q <= |line| && line[q..] == TailText(t) && WellFormed(t)
    ensures var k := TailCut(q, t); var p0 := RunEnd(t.credit, 0, Digit);
      && k.credit < k.point <= k.unit < |line|
      && line[k.credit..k.point] == t.credit[..p0]
      && (k.point == k.unit ==> line[k.point] == '學')
      && (k.point < k.unit ==> line[k.point] == t.credit[p0] && line[k.point + 1..k.unit] == t.credit[p0 + 1..])
  {
    var k := TailCut(q, t);
    var p0 := RunEnd(t.credit, 0, Digit);
    TailPieces(line, q, t);
    if k.point < k.unit {
      PieceAt(line, k.credit, t.credit, p0, k.point, k.unit);
    } else {
      assert t.credit[..p0] == t.credit;
    }
  }

  /** The digit runs of a tail at `q` end where its pieces say. */
  lemma DigitRuns(line: string, q: nat, t: Tail)
    requires q <= |line| && line[q..] == TailText(t) && WellFormed(t)
    ensures var k := TailCut(q, t);
      && RunEnd(line, k.credit, Digit) == k.point
      && (k.point < k.unit ==>
           k.point + 1 < k.unit && line[k.point] == '.' && RunEnd(line, k.point + 1, Digit) == k.unit)
  {
    IntegerRun(line, q, t);
    FractionRun(line, q, t);
  }

  /** The integer digits of a tail's credit token end at its point. */
  lemma IntegerRun(line: string, q: nat, t: Tail)
    requires q <= |line| && line[q..] == TailText(t) && WellFormed(t)
    ensures RunEnd(line, TailCut(q, t).credit, Digit) == TailCut(q, t).point
  {
    var k := TailCut(q, t);
    CreditAt(line, q, t);
    RunOver(line, k.credit, k.point, Digit);
  }

  /** The fraction digits of a tail's credit token, if any, follow a '.'
      and end at the unit. */
  lemma FractionRun(line: string, q: nat, t: Tail)
    requires q <= |line| && line[q..] == TailText(t) && WellFormed(t)
    ensures var k := TailCut(q, t);
      k.point < k.unit ==>
        k.point + 1 < k.unit && line[k.point] == '.' && RunEnd(line, k.point + 1, Digit) == k.unit
  {
    var k := TailCut(q, t);
    CreditAt(line, q, t);
    if k.point < k.unit {
      RunOver(line, k.point + 1, k.unit, Digit);
    }
  }

  /** A well-formed tail at index `q` is found there by the greedy runs. */
  lemma TailFound(line: string, q: nat, t: Tail)
    requires q <= |line| && line[q..] == TailText(t) && WellFormed(t)
    ensures MatchTailAt(line, q) == Some(TailCut(q, t))
  {
    TailPieces(line, q, t);
    SpaceRuns(line, q, t);
    DigitRuns(line, q, t);
    MatchFromRuns(line, q, TailCut(q, t));
  }

  /** Cutting a found tail gives back its pieces. */
  lemma TailCutBack(line: string, q: nat, t: Tail)
    requires q <= |line| && line[q..] == TailText(t) && WellFormed(t)
    ensures CutFits(line, q, TailCut(q, t))
    ensures TailOf(line, q, TailCut(q, t)) == t
  {
    TailFound(line, q, t);
    TailPieces(line, q, t);
  }

  /** The credit token a cut delimits is a credit numeral. */
  lemma CutCredit(line: string, q: nat, c: Cut)
    requires CutFits(line, q, c)
    ensures IsCreditNumeral(line[c.credit..c.unit])
  {
    var s := line[c.credit..c.unit];
    var p := c.point - c.credit;
    RunEndUnique(s, 0, Digit, p);
  }

  /** The pieces a cut delimits spell out the rest of the line. */
  lemma CutSpells(line: string, q: nat, c: Cut)
    requires CutFits(line, q, c)
    ensures line[q..] == TailText(TailOf(line, q, c))
  {
    var t := TailOf(line, q, c);
    assert line[c.tag..c.tag + 3] == GpaLabel;
    assert line[c.unit..c.unit + 2] == CreditUnit;
    JoinAt(line, c.tag, c.tag + 3, GpaLabel, t.after);
    JoinAt(line, c.unit + 2, c.tag, t.gap, GpaLabel + t.after);
    JoinAt(line, c.unit, c.unit + 2, CreditUnit, t.gap + (GpaLabel + t.after));
    JoinAt(line, c.credit, c.unit, t.credit, CreditUnit + (t.gap + (GpaLabel + t.after)));
    JoinAt(line, q, c.credit, t.lead, t.credit + (CreditUnit + (t.gap + (GpaLabel + t.after))));
  }

  /** A cut delimits a well-formed tail that spells out the rest of the
      line. */
  lemma CutText(line: string, q: nat, c: Cut)
    requires CutFits(line, q, c)
    ensures WellFormed(TailOf(line, q, c))
    ensures line[q..] == TailText(TailOf(line, q, c))
  {
    CutCredit(line, q, c);
    CutSpells(line, q, c);
  }

  /** A well-formed tail after any prefix is found, and cut back into
      exactly the same pieces. */
  lemma TailComplete(name: string, t: Tail)
    requires WellFormed(t)
    ensures MatchTailAt(name + TailText(t), |name|).Some?
    ensures TailOf(name + TailText(t), |name|, MatchTailAt(name + TailText(t), |name|).value) == t
  {
    var line := name + TailText(t);
    assert line[|name|..] == TailText(t);
    TailFound(line, |name|, t);
    TailCutBack(line, |name|, t);
  }

  /** Every character of a credit token is a digit or '.'. */
  lemma CreditIsNumeral(s: string)
    requires IsCreditNumeral(s)
    ensures IsNumeral(s)
  {
    var p := RunEnd(s, 0, Digit);
    assert IsDigit(s[0]);
    if p == |s| {
      NoDots(s);
    } else {
      NoDots(s[..p]);
      NoDots(s[p + 1..]);
      assert s == s[..p] + ([s[p]] + s[p + 1..]);
      DotsSplit(s[..p], [s[p]] + s[p + 1..]);
      assert ([s[p]] + s[p + 1..])[1..] == s[p + 1..];
    }
  }

  // ---------------------------------------------------------------------
  // The name group

  /** The name contains no "學分". */
  predicate NoUnit(name: string) {
    forall i :: 0 <= i < |name| - 1 ==> !(name[i] == '學' && name[i + 1] == '分')
  }

  /** No "學分" starts before index `n - 1` of a line whose first `n`
      characters hold none. */
  lemma NoUnitBefore(line: string, n: nat)
    requires n <= |line| && NoUnit(line[..n])
    ensures forall i :: 0 <= i && i + 1 < n ==> !(line[i] == '學' && line[i + 1] == '分')
  {
    forall i | 0 <= i && i + 1 < n ensures !(line[i] == '學' && line[i + 1] == '分') {
      assert line[..n][i] == line[i];
    }
  }

  /** Two tails of one line, at `q` and at a later `n` before which the
      line holds no "學分", end at the same unit. */
  lemma CutsShareUnit(line: string, q: nat, o: Cut, n: nat, k: Cut)
    requires CutFits(line, q, o) && CutFits(line, n, k) && q < n
    requires NoUnit(line[..n])
    ensures o.unit == k.unit
  {
    NoUnitBefore(line, n);
  }

  /** ... and so at the same credit token, with whitespace from `q` on. */
  lemma CutsShareCredit(line: string, q: nat, o: Cut, n: nat, k: Cut)
    requires CutFits(line, q, o) && CutFits(line, n, k) && q < n
    requires o.unit == k.unit
    ensures o.credit == k.credit
  {
    assert IsSpace(line[k.credit - 1]);
    assert IsSpace(line[o.credit - 1]);
  }

  /** In a line cut as `name + tail`, a tail found inside the name can only
      start in whitespace at the name's end. */
  lemma NoEarlierTail(line: string, n: nat, t: Tail, q: nat)
    requires n <= |line| && line[n..] == TailText(t)
    requires NoUnit(line[..n]) && WellFormed(t)
    requires q < n && TailAt(line, q)
    ensures AllSpace(line[q..n])
  {
    var o := MatchTailAt(line, q).value;
    var k := TailCut(n, t);
    TailCutBack(line, n, t);
    CutsShareUnit(line, q, o, n, k);
    CutsShareCredit(line, q, o, n, k);
  }

  /** What `ParseLine` makes of a line the pattern matches. */
  lemma ParseMatched(line: string, m: LineMatch)
    requires '\n' !in line && Match(line) == Some(m)
    ensures CutFits(line, m.split, m.cut)
    ensures IsNumeral(TailOf(line, m.split, m.cut).credit)
    ensures ParseLine(line) == Some(Course(Strip(line[..m.split]),
      Value(TailOf(line, m.split, m.cut).credit), ParseGpa(GpaToken(TailOf(line, m.split, m.cut).after))))
  {
    CutText(line, m.split, m.cut);
    CreditIsNumeral(TailOf(line, m.split, m.cut).credit);
  }

  /** On a line made of a name without "學分" and a well-formed tail, the
      lazy name group stops at the name's end or in the whitespace that
      ends the name. */
  lemma ShapedSplit(name: string, t: Tail)
    requires |name| >= 1 && NoUnit(name) && WellFormed(t)
    requires '\n' !in name + TailText(t)
    ensures Match(name + TailText(t)).Some?
    ensures var q := Match(name + TailText(t)).value.split;
      q <= |name| && AllSpace(name[q..])
  {
    var line := name + TailText(t);
    var n := |name|;
    assert line[n..] == TailText(t);
    assert line[..n] == name;
    TailFound(line, n, t);
    assert TailAt(line, n);
    var q := Match(line).value.split;
    assert name[q..] == line[q..n];
    if q < n {
      NoEarlierTail(line, n, t, q);
    }
  }

  /** A tail found at `q`, in whitespace `pad` before a well-formed tail at
      `n`, has the same pieces, its lead widened by `pad`. */
  lemma WidenedTail(line: string, q: nat, n: nat, c: Cut, t: Tail)
    requires q <= n <= |line| && line[n..] == TailText(t) && WellFormed(t)
    requires AllSpace(line[q..n]) && MatchTailAt(line, q) == Some(c)
    ensures TailOf(line, q, c) == Tail(line[q..n] + t.lead, t.credit, t.gap, t.after)
  {
    var pad := line[q..n];
    AllSpaceConcat(pad, t.lead);
    var t' := Tail(pad + t.lead, t.credit, t.gap, t.after);
    JoinAt(line, q, n, pad, TailText(t));
    ConcatAssoc(pad, t.lead, t.credit + (CreditUnit + (t.gap + (GpaLabel + t.after))));
    TailFound(line, q, t');
    TailCutBack(line, q, t');
  }

  /** Every record comes from a line made of a non-empty name and a
      well-formed tail, the name being the shortest after which a tail
      matches; the record holds the trimmed name, the credits, and the GPA
      read from what follows "GPA". */
  lemma ParsedLineShape(line: string) returns (name: string, t: Tail)
    requires '\n' !in line && ParseLine(line).Some?
    ensures |name| >= 1 && WellFormed(t) && line == name + TailText(t)
    ensures forall q :: 1 <= q < |name| ==> !TailAt(line, q)
    ensures IsNumeral(t.credit)
    ensures ParseLine(line).value == Course(Strip(name), Value(t.credit), ParseGpa(GpaToken(t.after)))
  {
    var m := Match(line).value;
    ParseMatched(line, m);
    CutText(line, m.split, m.cut);
    name, t := line[..m.split], TailOf(line, m.split, m.cut);
    TakeDrop(line, m.split);
  }

  /** A line made of a name without "學分", whitespace, a credit token, the
      unit, whitespace, "GPA" and anything after parses to the trimmed
      name, the credits, and the GPA read from what follows "GPA". */
  lemma ParseShapedLine(name: string, t: Tail)
    requires |name| >= 1 && NoUnit(name) && WellFormed(t)
    requires '\n' !in name + TailText(t)
    ensures IsNumeral(t.credit)
    ensures ParseLine(name + TailText(t))
      == Some(Course(Strip(name), Value(t.credit), ParseGpa(GpaToken(t.after))))
  {
    CreditIsNumeral(t.credit);
    var line := name + TailText(t);
    ShapedSplit(name, t);
    var m := Match(line).value;
    var q := m.split;
    ConcatSlices(name, TailText(t), q);
    WidenedTail(line, q, |name|, m.cut, t);
    ParseMatched(line, m);
    StripIgnoresTrailingSpace(name[..q], name[q..]);
  }
  /** The "if" half of ParseLine for every name, 學分 in it or not: a
      non-empty name followed by a well-formed tail always yields a record. */
  lemma ShapedParses(name: string, t: Tail)
    requires |name| >= 1 && WellFormed(t)
    requires '\n' !in name + TailText(t)
    ensures ParseLine(name + TailText(t)).Some?
  {
    var line := name + TailText(t);
    assert line[|name|..] == TailText(t);
    TailFound(line, |name|, t);
    assert TailAt(line, |name|);
  }


  // ---------------------------------------------------------------------
  // Lines and documents

  /** The records of consecutive runs of lines are the records of each run,
      one after the other. */
  lemma ParseLinesAppend(a: seq<string>, b: seq<string>)
    requires NoNewline(a) && NoNewline(b)
    ensures NoNewline(a + b)
    ensures ParseLines(a + b) == ParseLines(a) + ParseLines(b)
  {
    assert Parsed(a + b) == Parsed(a) + Parsed(b);
    PresentAppend(Parsed(a), Parsed(b));
  }

  /** A line without '學' holds no credit unit and yields no record. */
  lemma NoUnitNoRecord(line: string)
    requires '\n' !in line && '學' !in line
    ensures ParseLine(line) == None
  {
  }

  /** The empty line gives no record. */
  lemma EmptyLineNoRecord(line: string)
    requires line == ""
    ensures ParseLine(line) == None
  {
    NoUnitNoRecord(line);
  }

  /** An empty last line adds no record. */
  lemma BlankLineAdds(lines: seq<string>)
    requires NoNewline(lines)
    ensures NoNewline(lines + [""])
    ensures ParseLines(lines + [""]) == ParseLines(lines)
  {
    EmptyLineNoRecord("");
    assert NoNewline([""]);
    ParseLinesAppend(lines, [""]);
    assert Parsed([""]) == [None];
    assert ParseLines([""]) == [];
    assert ParseLines(lines) + [] == ParseLines(lines);
  }

  /** Text that is empty or ends in "\n" keeps its records when more
      text follows: the records of `x + y` are those of `x`, then those of
      `y`. */
  lemma ExtractAppend(x: string, y: string)
    requires x == [] || x[|x| - 1] == '\n'
    ensures ExtractCourses(x + y) == ExtractCourses(x) + ExtractCourses(y)
  {
    SplitAppend(x, y);
    BreakFreeLines(SplitLines(x));
    BreakFreeLines(SplitLines(y));
    ParseLinesAppend(SplitLines(x), SplitLines(y));
  }

  /** A "\n" at the end of a text changes none of its records. */
  lemma TrailingNewline(p: string)
    ensures ExtractCourses(p + "\n") == ExtractCourses(p)
  {
    SplitNewline(p);
    var lines := SplitLines(p);
    BreakFreeLines(lines);
    BlankLineAdds(lines);
  }

  /** Text written as lines joined by "\n" yields the records of those
      lines, in order. Empty lines, the last one included, yield nothing. */
  lemma {:induction false} ExtractJoined(lines: seq<string>)
    requires forall i :: 0 <= i < |lines| ==> NoLineBreak(lines[i])
    ensures NoNewline(lines)
    ensures ExtractCourses(JoinLines(lines)) == ParseLines(lines)
    decreases |lines|
  {
    BreakFreeLines(lines);
    if |lines| == 0 || lines[|lines| - 1] != [] {
      SplitJoin(lines);
    } else if |lines| == 1 {
      assert lines == [] + [""];
      BlankLineAdds([]);
    } else {
      var init := lines[..|lines| - 1];
      assert lines == init + [""];
      JoinLinesSnoc(init, "");
      assert JoinLines(lines) == JoinLines(init) + "\n";
      TrailingNewline(JoinLines(init));
      ExtractJoined(init);
      BlankLineAdds(init);
    }
  }

  /** The document text built from the pages' texts: each page's text
      followed by "\n", in page order. */
  function JoinPages(pages: seq<string>): (text: string)
    ensures text == [] || text[|text| - 1] == '\n'
  {
    if |pages| == 0 then "" else pages[0] + "\n" + JoinPages(pages[1..])
  }

  /** The text of two runs of pages is the text of each run, one after the
      other. */
  lemma {:induction false} JoinPagesAppend(a: seq<string>, b: seq<string>)
    ensures JoinPages(a + b) == JoinPages(a) + JoinPages(b)
    decreases |a|
  {
    if |a| == 0 {
      assert a + b == b;
    } else {
      assert (a + b)[0] == a[0];
      assert (a + b)[1..] == a[1..] + b;
      JoinPagesAppend(a[1..], b);
      ConcatAssoc(a[0] + "\n", JoinPages(a[1..]), JoinPages(b));
    }
  }

  /** A document of two runs of pages yields the records of the first run
      followed by those of the second. */
  lemma ExtractPages(a: seq<string>, b: seq<string>)
    ensures ExtractCourses(JoinPages(a + b)) == ExtractCourses(JoinPages(a)) + ExtractCourses(JoinPages(b))
  {
    JoinPagesAppend(a, b);
    ExtractAppend(JoinPages(a), JoinPages(b));
  }

  /** A one-page document yields the records of the page's text: the "\n"
      after it adds none. */
  lemma OnePage(page: string)
    ensures ExtractCourses(JoinPages([page])) == ExtractCourses(page)
  {
    assert [page][1..] == [];
    assert JoinPages([page]) == page + "\n";
    TrailingNewline(page);
  }

  lemma BreakFreeLines(lines: seq<string>)
    requires forall i :: 0 <= i < |lines| ==> NoLineBreak(lines[i])
    ensures NoNewline(lines)
  {
    forall i | 0 <= i < |lines| ensures '\n' !in lines[i] {
      assert NoLineBreak(lines[i]);
    }
  }

  /** A document of one line yields that line's record, if it has one,
      and nothing else. */
  lemma SingleLine(line: string)
    requires NoLineBreak(line)
    ensures '\n' !in line
    ensures ExtractCourses(line) == if ParseLine(line).Some? then [ParseLine(line).value] else []
  {
    ExtractJoined([line]);
    assert JoinLines([line]) == line;
    assert Parsed([line]) == [ParseLine(line)];
  }

  // ---------------------------------------------------------------------
  // The GPA group

  /** What follows an optional colon: the whitespace, then the token. */
  lemma TokenAfterSpace(a: string, ws: string, token: string, rest: string)
    requires a == ws + (token + rest) && AllSpace(ws)
    requires |token| > 0 && forall i :: 0 <= i < |token| ==> NotSpace(token[i])
    requires rest == "" || IsSpace(rest[0])
    ensures RunEnd(a, 0, Space) == |ws|
    ensures var tr := a[|ws|..]; RunEnd(tr, 0, NonSpace) == |token| && tr[..|token|] == token
  {
    SplitAt(a, 0, ws, token + rest);
    assert a[|ws|] == token[0];
    RunOver(a, 0, |ws|, Space);
    var tr := a[|ws|..];
    SplitAt(tr, 0, token, rest);
    if rest != "" {
      assert tr[|token|] == rest[0];
    }
    RunOver(tr, 0, |token|, NonSpace);
  }

  /** The GPA group is the token after an optional colon and whitespace. */
  lemma GpaTokenFound(colon: string, ws: string, token: string, rest: string)
    requires colon == "" || colon == ":" || colon == "："
    requires AllSpace(ws)
    requires |token| > 0 && forall i :: 0 <= i < |token| ==> NotSpace(token[i])
    requires colon == "" && ws == "" ==> !IsColon(token[0])
    requires rest == "" || IsSpace(rest[0])
    ensures GpaToken(colon + ws + token + rest) == Some(token)
  {
    var a := ws + (token + rest);
    var after := colon + ws + token + rest;
    ConcatAssoc(colon + ws, token, rest);
    ConcatAssoc(colon, ws, token + rest);
    assert after == colon + a;
    if colon == "" {
      assert after == a;
      if ws != "" {
        assert a[0] == ws[0];
      } else {
        assert a[0] == token[0];
      }
    } else {
      assert after[0] == colon[0] && after[1..] == a;
    }
    TokenAfterSpace(a, ws, token, rest);
  }

  /** A GPA group with nothing but an optional colon and whitespace is
      absent. */
  lemma GpaTokenMissing(colon: string, ws: string)
    requires colon == "" || colon == ":" || colon == "："
    requires AllSpace(ws)
    ensures GpaToken(colon + ws) == None
  {
    var after := colon + ws;
    if colon == "" && ws != "" {
      assert after[0] == ws[0];
    }
    assert (if |after| > 0 && IsColon(after[0]) then after[1..] else after) == ws;
    RunEndUnique(ws, 0, Space, |ws|);
  }

  // ---------------------------------------------------------------------
  // Examples

  /** A name of non-space characters, one space, the credits, the unit,
      one space and "GPA" make the record of that name and those credits. */
  lemma PlainLine(name: string, credit: string, after: string)
    requires |name| >= 1 && NoUnit(name) && '\n' !in name
    requires forall i :: 0 <= i < |name| ==> NotSpace(name[i])
    requires IsCreditNumeral(credit) && '\n' !in after
    ensures IsNumeral(credit)
    ensures ParseLine(name + TailText(Tail(" ", credit, " ", after)))
      == Some(Course(name, Value(credit), ParseGpa(GpaToken(after))))
  {
    var t := Tail(" ", credit, " ", after);
    CreditNoNewline(credit);
    ShapedNoNewline(name, t);
    ParseShapedLine(name, t);
    StripNoSpace(name);
  }

  /** A credit token holds no '\n'. */
  lemma CreditNoNewline(credit: string)
    requires IsCreditNumeral(credit)
    ensures IsNumeral(credit) && '\n' !in credit
  {
    CreditIsNumeral(credit);
  }

  /** A line made of pieces without '\n' has none. */
  lemma ShapedNoNewline(name: string, t: Tail)
    requires '\n' !in name && '\n' !in t.lead && '\n' !in t.credit
    requires '\n' !in t.gap && '\n' !in t.after
    ensures '\n' !in name + TailText(t)
  {
  }

  /** "Algebra" is a plain name. */
  lemma AlgebraName(name: string)
    requires name == "Algebra"
    ensures |name| >= 1 && NoUnit(name) && '\n' !in name
    ensures forall i :: 0 <= i < |name| ==> NotSpace(name[i])
  {
  }

  /** "3" is a credit token worth 3. */
  lemma ThreeCredits(credit: string)
    requires credit == "3"
    ensures IsCreditNumeral(credit) && IsNumeral(credit) && Value(credit) == 3.0
  {
    assert RunEnd(credit, 0, Digit) == 1;
    ValueOfThree();
  }

  /** ":4.0" after "GPA" is the grade 4.0. */
  lemma GradeFour(after: string)
    requires after == ":4.0"
    ensures ParseGpa(GpaToken(after)) == Some(4.0)
  {
    var colon, ws, token, rest := ":", "", "4.0", "";
    assert after == colon + ws + token + rest;
    GpaTokenFound(colon, ws, token, rest);
    ValueOfFour();
  }

  /** ":1.7" after "GPA" is the grade 1.7. */
  lemma GradePass(after: string)
    requires after == ":1.7"
    ensures ParseGpa(GpaToken(after)) == Some(1.7)
  {
    var colon, ws, token, rest := ":", "", "1.7", "";
    assert after == colon + ws + token + rest;
    GpaTokenFound(colon, ws, token, rest);
    ValueOfPassGrade();
  }

  /** ":1.5" after "GPA" is the grade 1.5. */
  lemma GradeOneHalf(after: string)
    requires after == ":1.5"
    ensures ParseGpa(GpaToken(after)) == Some(1.5)
  {
    var colon, ws, token, rest := ":", "", "1.5", "";
    assert after == colon + ws + token + rest;
    GpaTokenFound(colon, ws, token, rest);
    ValueOfOneHalf();
  }

  /** ": A+" after "GPA" is no grade. */
  lemma LetterGrade(after: string)
    requires after == ": A+"
    ensures ParseGpa(GpaToken(after)) == None
  {
    var colon, ws, token, rest := ":", " ", "A+", "";
    assert after == colon + ws + token + rest;
    GpaTokenFound(colon, ws, token, rest);
    assert !IsDigit(token[0]);
  }

  /** "Algebra 3學分 GPA:4.0" gives the record ("Algebra", 3, 4.0). */
  lemma AlgebraExample(line: string)
    requires line == "Algebra 3學分 GPA:4.0"
    ensures ParseLine(line) == Some(Course("Algebra", 3.0, Some(4.0)))
  {
    var name, credit, after := "Algebra", "3", ":4.0";
    assert line == name + TailText(Tail(" ", credit, " ", after));
    AlgebraName(name);
    ThreeCredits(credit);
    PlainLine(name, credit, after);
    GradeFour(after);
  }

  /** "Algebra 3學分 GPA:4.0" is one line. */
  lemma AlgebraOneLine(line: string)
    requires line == "Algebra 3學分 GPA:4.0"
    ensures NoLineBreak(line) && line != []
  {
  }

  /** "Algebra 3學分 GPA:1.7" gives the record ("Algebra", 3, 1.7). */
  lemma PassGradeLine(line: string)
    requires line == "Algebra 3學分 GPA:1.7"
    ensures ParseLine(line) == Some(Course("Algebra", 3.0, Some(1.7)))
  {
    var name, credit, after := "Algebra", "3", ":1.7";
    assert line == name + TailText(Tail(" ", credit, " ", after));
    AlgebraName(name);
    ThreeCredits(credit);
    PlainLine(name, credit, after);
    GradePass(after);
  }

  /** "Algebra 3學分 GPA:1.5" gives the record ("Algebra", 3, 1.5). */
  lemma LowGradeLine(line: string)
    requires line == "Algebra 3學分 GPA:1.5"
    ensures ParseLine(line) == Some(Course("Algebra", 3.0, Some(1.5)))
  {
    var name, credit, after := "Algebra", "3", ":1.5";
    assert line == name + TailText(Tail(" ", credit, " ", after));
    AlgebraName(name);
    ThreeCredits(credit);
    PlainLine(name, credit, after);
    GradeOneHalf(after);
  }

  /** "Algebra 3學分 GPA:" gives a record without a GPA. */
  lemma MissingGpaExample(line: string)
    requires line == "Algebra 3學分 GPA:"
    ensures ParseLine(line) == Some(Course("Algebra", 3.0, None))
  {
    var name, credit, after := "Algebra", "3", ":";
    assert line == name + TailText(Tail(" ", credit, " ", after));
    AlgebraName(name);
    ThreeCredits(credit);
    PlainLine(name, credit, after);
    GpaTokenMissing(":", "");
    assert ":" + "" == after;
  }

  /** "Algebra 3學分 GPA: A+" gives a record without a GPA: a letter grade
      is not a number. */
  lemma LetterGradeExample(line: string)
    requires line == "Algebra 3學分 GPA: A+"
    ensures ParseLine(line) == Some(Course("Algebra", 3.0, None))
  {
    var name, credit, after := "Algebra", "3", ": A+";
    assert line == name + TailText(Tail(" ", credit, " ", after));
    AlgebraName(name);
    ThreeCredits(credit);
    PlainLine(name, credit, after);
    LetterGrade(after);
  }
}
