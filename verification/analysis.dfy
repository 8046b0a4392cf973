/**
 The credit analysis run on the parsed records. Each record is flagged for
 the policy categories whose name list holds its name, and credited with
 its credits when its GPA passes. The credited amounts are summed per
 category into a fixed four-row summary.
 */
module Analysis {
  import opened Wrappers
  import opened Transcript

  /** The four policy categories, in the order of their flag columns. */
  datatype Category = Required | ElectiveI | ElectiveII | General

  /** The category map key of a category, which is also its flag column. */
  function Key(c: Category): string {
    match c
    case Required => "必修"
    case ElectiveI => "I類選修"
    case ElectiveII => "II類選修"
    case General => "一般選修"
  }

  /** The category map as loaded from its JSON file: the entries
      (key, course names) in file order. */
  type CategoryMap = seq<(string, seq<string>)>

  /** Some entry of the map for the category lists the name. */
  predicate Listed(m: CategoryMap, name: string, c: Category) {
    exists i :: 0 <= i < |m| && m[i].0 == Key(c) && name in m[i].1
  }

  /** The lowest GPA that earns credit. */
  const PassGrade: real := 1.7

  /** compute_valid_credit: the credits when a GPA is present and at least
      the pass grade, otherwise nothing. */
  function ValidCredit(r: Course): (v: real)
    ensures v == r.credits || v == 0.0
    ensures r.gpa.Some? && r.gpa.value >= PassGrade ==> v == r.credits
    ensures (r.gpa.None? || r.gpa.value < PassGrade) ==> v == 0.0
    ensures r.credits >= 0.0 ==> 0.0 <= v <= r.credits
  {
    if r.gpa.Some? && r.gpa.value >= PassGrade then r.credits else 0.0
  }

  /** A course-table row: the record, its four category flags and its
      valid credit. */
  datatype Row = Row(course: Course, required: bool, electiveI: bool, electiveII: bool,
                     general: bool, valid: real)

  /** The flag column of a category. */
  function Flag(row: Row, c: Category): bool {
    match c
    case Required => row.required
    case ElectiveI => row.electiveI
    case ElectiveII => row.electiveII
    case General => row.general
  }

  /** `df.at[i, key] = True`: sets the flag column named `key`; a key
      outside the four leaves the four flags alone. */
  function Mark(row: Row, key: string): (r: Row)
    ensures r.course == row.course && r.valid == row.valid
    ensures forall c :: Flag(r, c) <==> Flag(row, c) || key == Key(c)
  {
    if key == Key(Required) then row.(required := true)
    else if key == Key(ElectiveI) then row.(electiveI := true)
    else if key == Key(ElectiveII) then row.(electiveII := true)
    else if key == Key(General) then row.(general := true)
    else row
  }

  /** The loop over the category map for one row: every entry whose list
      holds the row's name marks its column. */
  function MarkAll(row: Row, m: CategoryMap): (r: Row)
    ensures r.course == row.course && r.valid == row.valid
    decreases |m|
  {
    if |m| == 0 then row
    else
      var marked := if row.course.name in m[0].1 then Mark(row, m[0].0) else row;
      MarkAll(marked, m[1..])
  }

  /** A record's row: flags initialised to false, then marked from the
      map; the valid credit computed from the record. */
  function Classify(m: CategoryMap, r: Course): (row: Row)
    ensures row.course == r && row.valid == ValidCredit(r)
    ensures forall c :: Flag(row, c) <==> Listed(m, r.name, c)
  {
    var blank := Row(r, false, false, false, false, ValidCredit(r));
    MarkAllFlags(blank, m);
    MarkAll(blank, m)
  }

  /** The course table: one row per record, in record order. */
  function Table(m: CategoryMap, courses: seq<Course>): (t: seq<Row>)
    ensures |t| == |courses|
    ensures forall i :: 0 <= i < |courses| ==> t[i] == Classify(m, courses[i])
  {
    seq(|courses|, i requires 0 <= i < |courses| => Classify(m, courses[i]))
  }

  /** `df[df[key]]["有效學分"].sum()`: the valid credits of the rows
      flagged for the category. */
  function Earned(table: seq<Row>, c: Category): real {
    if |table| == 0 then 0.0
    else (if Flag(table[0], c) then table[0].valid else 0.0) + Earned(table[1..], c)
  }

  /** One row of the summary table: label, earned and required credits. */
  datatype SummaryRow = SummaryRow(heading: string, earned: real, target: nat)

  /** The result of an analysis: the course table and the summary table. */
  datatype Report = Report(table: seq<Row>, summary: seq<SummaryRow>)

  /** The summary labels and required credits, in row order. */
  const Labels: seq<string> := ["必修", "I 類選修", "II 類選修", "選修總學分"]
  const Targets: seq<nat> := [84, 10, 10, 44]

  /** The four summary rows for the given earned credits. */
  function SummaryRows(required: real, electiveI: real, electiveII: real, electiveTotal: real)
    : (s: seq<SummaryRow>)
    ensures |s| == 4
    ensures forall i :: 0 <= i < 4 ==> s[i].heading == Labels[i] && s[i].target == Targets[i]
    ensures s[0].earned == required && s[1].earned == electiveI
    ensures s[2].earned == electiveII && s[3].earned == electiveTotal
  {
    [SummaryRow(Labels[0], required, Targets[0]), SummaryRow(Labels[1], electiveI, Targets[1]),
     SummaryRow(Labels[2], electiveII, Targets[2]), SummaryRow(Labels[3], electiveTotal, Targets[3])]
  }

  /** The body of analyze_pdf once the records and the map are at hand.
      With no record it returns an empty table and an all-zero summary;
      otherwise it builds the table, sums each category, and reports the
      elective total as the sum of the three elective sums. */
  function AnalyzeCourses(m: CategoryMap, courses: seq<Course>): (r: Report)
    requires forall i :: 0 <= i < |courses| ==> courses[i].credits >= 0.0
    ensures r.table == Table(m, courses)
    ensures |r.summary| == 4
    ensures forall i :: 0 <= i < 4 ==> r.summary[i].heading == Labels[i] && r.summary[i].target == Targets[i]
    ensures r.summary[0].earned == Earned(r.table, Required)
    ensures r.summary[1].earned == Earned(r.table, ElectiveI)
    ensures r.summary[2].earned == Earned(r.table, ElectiveII)
    ensures r.summary[3].earned == r.summary[1].earned + r.summary[2].earned + Earned(r.table, General)
    ensures forall i :: 0 <= i < 4 ==> r.summary[i].earned >= 0.0
    ensures courses == [] ==> r.table == [] && forall i :: 0 <= i < 4 ==> r.summary[i].earned == 0.0
  {
    if |courses| == 0 then
      Report([], SummaryRows(0.0, 0.0, 0.0, 0.0))
    else
      var table := Table(m, courses);
      EarnedNonNegative(table, Required);
      EarnedNonNegative(table, ElectiveI);
      EarnedNonNegative(table, ElectiveII);
      EarnedNonNegative(table, General);
      var required := Earned(table, Required);
      var electiveI := Earned(table, ElectiveI);
      var electiveII := Earned(table, ElectiveII);
      var general := Earned(table, General);
      Report(table, SummaryRows(required, electiveI, electiveII, electiveI + electiveII + general))
  }

  /** analyze_pdf on the document text and the category map. */
  function Analyze(m: CategoryMap, text: string): (r: Report)
    ensures |r.table| == |ExtractCourses(text)|
    ensures forall i :: 0 <= i < |r.table| ==> r.table[i].course == ExtractCourses(text)[i]
    ensures |r.summary| == 4
    ensures forall i :: 0 <= i < 4 ==> r.summary[i].heading == Labels[i] && r.summary[i].target == Targets[i]
    ensures forall i :: 0 <= i < 4 ==> r.summary[i].earned >= 0.0
    ensures ExtractCourses(text) == [] ==> forall i :: 0 <= i < 4 ==> r.summary[i].earned == 0.0
  {
    var courses := ExtractCourses(text);
    CreditsByIndex(courses);
    AnalyzeCourses(m, courses)
  }

  /** The membership form of "no negative credits" gives the index form. */
  lemma CreditsByIndex(courses: seq<Course>)
    requires forall c :: c in courses ==> c.credits >= 0.0
    ensures forall i :: 0 <= i < |courses| ==> courses[i].credits >= 0.0
  {
  }

  // ---------------------------------------------------------------------
  // Flags

  /** After the loop over the map a flag is set exactly when it was set
      before or some entry for its category lists the row's name. */
  lemma {:induction false} MarkAllFlags(row: Row, m: CategoryMap)
    ensures forall c :: Flag(MarkAll(row, m), c) <==> Flag(row, c) || Listed(m, row.course.name, c)
    decreases |m|
  {
    if |m| > 0 {
      var marked := if row.course.name in m[0].1 then Mark(row, m[0].0) else row;
      MarkAllFlags(marked, m[1..]);
      forall c
        ensures Listed(m, row.course.name, c) <==>
                (row.course.name in m[0].1 && m[0].0 == Key(c)) || Listed(m[1..], row.course.name, c)
      {
        if Listed(m, row.course.name, c) {
          var i :| 0 <= i < |m| && m[i].0 == Key(c) && row.course.name in m[i].1;
          if i > 0 {
            assert m[1..][i - 1] == m[i];
          }
        }
        if Listed(m[1..], row.course.name, c) {
          var i :| 0 <= i < |m[1..]| && m[1..][i].0 == Key(c) && row.course.name in m[1..][i].1;
          assert m[i + 1] == m[1..][i];
        }
      }
    }
  }

  // ---------------------------------------------------------------------
  // Sums

  /** A sum of valid credits that are never negative is never negative. */
  lemma {:induction false} EarnedNonNegative(table: seq<Row>, c: Category)
    requires forall i :: 0 <= i < |table| ==> table[i].valid >= 0.0
    ensures Earned(table, c) >= 0.0
    decreases |table|
  {
    if |table| > 0 {
      EarnedNonNegative(table[1..], c);
    }
  }

  /** The sum over consecutive runs of rows is the sum of their sums. */
  lemma {:induction false} EarnedAppend(a: seq<Row>, b: seq<Row>, c: Category)
    ensures Earned(a + b, c) == Earned(a, c) + Earned(b, c)
    decreases |a|
  {
    if |a| == 0 {
      assert a + b == b;
    } else {
      assert (a + b)[0] == a[0];
      assert (a + b)[1..] == a[1..] + b;
      EarnedAppend(a[1..], b, c);
    }
  }

  /** The valid credits of all rows, whatever their flags. */
  function TotalValid(table: seq<Row>): real {
    if |table| == 0 then 0.0 else table[0].valid + TotalValid(table[1..])
  }

  /** No category earns more than all rows together. */
  lemma {:induction false} EarnedAtMostTotal(table: seq<Row>, c: Category)
    requires forall i :: 0 <= i < |table| ==> table[i].valid >= 0.0
    ensures Earned(table, c) <= TotalValid(table)
    decreases |table|
  {
    if |table| > 0 {
      EarnedAtMostTotal(table[1..], c);
    }
  }

  /** The credit a category earns, computed straight from the records and
      the map by name lookup. */
  function Credited(m: CategoryMap, courses: seq<Course>, c: Category): real {
    if |courses| == 0 then 0.0
    else (if Listed(m, courses[0].name, c) then ValidCredit(courses[0]) else 0.0)
         + Credited(m, courses[1..], c)
  }

  /** Summing the flagged rows of the table gives the credit computed
      straight from the records. */
  lemma {:induction false} TableEarned(m: CategoryMap, courses: seq<Course>, c: Category)
    ensures Earned(Table(m, courses), c) == Credited(m, courses, c)
    decreases |courses|
  {
    if |courses| > 0 {
      assert Table(m, courses)[1..] == Table(m, courses[1..]);
      TableEarned(m, courses[1..], c);
    }
  }

  /** A category none of whose records is listed earns nothing. */
  lemma {:induction false} UnlistedEarnsNothing(m: CategoryMap, courses: seq<Course>, c: Category)
    requires forall i :: 0 <= i < |courses| ==> !Listed(m, courses[i].name, c)
    ensures Credited(m, courses, c) == 0.0
    decreases |courses|
  {
    if |courses| > 0 {
      UnlistedEarnsNothing(m, courses[1..], c);
    }
  }

  /** The summary in terms of the records: each category row holds the
      credit its listed records earn, and the elective total the credit
      of the three elective categories. */
  lemma SummaryCredits(m: CategoryMap, courses: seq<Course>)
    requires forall i :: 0 <= i < |courses| ==> courses[i].credits >= 0.0
    ensures var s := AnalyzeCourses(m, courses).summary;
      && s[0].earned == Credited(m, courses, Required)
      && s[1].earned == Credited(m, courses, ElectiveI)
      && s[2].earned == Credited(m, courses, ElectiveII)
      && s[3].earned == Credited(m, courses, ElectiveI) + Credited(m, courses, ElectiveII)
                        + Credited(m, courses, General)
  {
    TableEarned(m, courses, Required);
    TableEarned(m, courses, ElectiveI);
    TableEarned(m, courses, ElectiveII);
    TableEarned(m, courses, General);
  }

  /** Raising a record's GPA never lowers its valid credit. */
  lemma ValidCreditMonotone(r: Course, g: real)
    requires r.credits >= 0.0 && r.gpa.Some? && g >= r.gpa.value
    ensures ValidCredit(r) <= ValidCredit(r.(gpa := Some(g)))
  {
  }

  // ---------------------------------------------------------------------
  // Examples

  /** A GPA of 1.5 earns nothing, 1.7 earns the credits, none earns
      nothing. */
  lemma PassGradeExamples()
    ensures ValidCredit(Course("Algebra", 3.0, Some(1.5))) == 0.0
    ensures ValidCredit(Course("Algebra", 3.0, Some(1.7))) == 3.0
    ensures ValidCredit(Course("Algebra", 3.0, None)) == 0.0
  {
  }

  /** The line "Algebra 3學分 GPA:1.7" earns its 3 credits: the pass
      grade itself passes. */
  lemma PassLineEarns(line: string)
    requires line == "Algebra 3學分 GPA:1.7"
    ensures ParseLine(line).Some?
    ensures ValidCredit(ParseLine(line).value) == 3.0
  {
    PassGradeLine(line);
  }

  /** The line "Algebra 3學分 GPA:1.5" earns nothing: its grade is below
      the pass grade. */
  lemma LowLineEarnsNothing(line: string)
    requires line == "Algebra 3學分 GPA:1.5"
    ensures ParseLine(line).Some?
    ensures ValidCredit(ParseLine(line).value) == 0.0
  {
    LowGradeLine(line);
  }

  /** With "Algebra" listed as required, a passed 3-credit Algebra earns 3
      required credits and nothing elsewhere. */
  lemma RequiredExample(m: CategoryMap, courses: seq<Course>)
    requires m == [("必修", ["Algebra"])]
    requires courses == [Course("Algebra", 3.0, Some(4.0))]
    ensures var s := AnalyzeCourses(m, courses).summary;
      s[0].earned == 3.0 && s[1].earned == 0.0 && s[2].earned == 0.0 && s[3].earned == 0.0
  {
    SummaryCredits(m, courses);
    assert Listed(m, "Algebra", Required) by {
      assert m[0].0 == Key(Required) && "Algebra" in m[0].1;
    }
    assert Credited(m, courses[1..], Required) == 0.0;
    UnlistedEarnsNothing(m, courses, ElectiveI);
    UnlistedEarnsNothing(m, courses, ElectiveII);
    UnlistedEarnsNothing(m, courses, General);
  }

  /** The document "Algebra 3學分 GPA:4.0", with Algebra listed as
      required, earns 3 required credits and nothing elsewhere. */
  lemma AnalyzeExample(m: CategoryMap, text: string)
    requires m == [("必修", ["Algebra"])]
    requires text == "Algebra 3學分 GPA:4.0"
    ensures |Analyze(m, text).table| == 1
    ensures var s := Analyze(m, text).summary;
      s[0].earned == 3.0 && s[1].earned == 0.0 && s[2].earned == 0.0 && s[3].earned == 0.0
  {
    AlgebraOneLine(text);
    SingleLine(text);
    AlgebraExample(text);
    RequiredExample(m, ExtractCourses(text));
  }
}
