/** The analytics panel: the three chart series built from the monthly,
    per-subject and attendance rows, the colour bands of a subject score, the
    attendance rate, the first-three lists, the column totals and the
    rounded average score. Figures are integers; `Math.round` of a quotient
    is written as exact integer arithmetic. */
module AdvancedCharts {
  import opened Common

  datatype MonthFigures = MonthFigures(month: string, students: int, courses: int, exams: int, averageScore: int)

  datatype SubjectFigures = SubjectFigures(subject: string, averageScore: int, totalStudents: int, passRate: int)

  datatype Attendance = Attendance(month: string, present: nat, absent: nat, late: nat)

  /** A data point handed to the chart. */
  datatype Point = Point(caption: string, value: int, color: string)

  const ChartBlue := "#3B82F6"
  const ChartGreen := "#10B981"
  const ChartAmber := "#F59E0B"
  const ChartRed := "#EF4444"

  /** The colour of a subject's bar: green from 80, amber from 70, red below. */
  function SubjectColor(score: int): (c: string)
    ensures c == ChartGreen <==> score >= 80
    ensures c == ChartAmber <==> 70 <= score < 80
    ensures c == ChartRed <==> score < 70
  {
    if score >= 80 then ChartGreen else if score >= 70 then ChartAmber else ChartRed
  }

  /** The colour of a subject's score in the list under the chart. */
  function ScoreTone(score: int): Tone {
    if score >= 80 then Green else if score >= 70 then Yellow else Red
  }

  /** The bar and the listed score use the same thresholds: two scores get
      the same bar colour exactly when they get the same text colour, and a
      higher score never gets a worse colour. */
  lemma ColorsAgree(a: int, b: int)
    ensures SubjectColor(a) == SubjectColor(b) <==> ScoreTone(a) == ScoreTone(b)
    ensures a <= b && SubjectColor(b) == ChartRed ==> SubjectColor(a) == ChartRed
    ensures a <= b && SubjectColor(a) == ChartGreen ==> SubjectColor(b) == ChartGreen
  {
  }

  /** `performanceChartData`: one blue point per month, its average score. */
  function PerformanceChart(rows: seq<MonthFigures>): (r: seq<Point>)
    ensures |r| == |rows|
    ensures forall i :: 0 <= i < |rows| ==>
              r[i].caption == rows[i].month && r[i].value == rows[i].averageScore && r[i].color == ChartBlue
  {
    seq(|rows|, i requires 0 <= i < |rows| => Point(rows[i].month, rows[i].averageScore, ChartBlue))
  }

  /** `subjectChartData`: one point per subject, coloured by its score band. */
  function SubjectChart(rows: seq<SubjectFigures>): (r: seq<Point>)
    ensures |r| == |rows|
    ensures forall i :: 0 <= i < |rows| ==>
              r[i].caption == rows[i].subject && r[i].value == rows[i].averageScore
              && r[i].color == SubjectColor(rows[i].averageScore)
  {
    seq(|rows|, i requires 0 <= i < |rows| =>
      Point(rows[i].subject, rows[i].averageScore, SubjectColor(rows[i].averageScore)))
  }

  /** `attendanceChartData`: one green point per month, its present count. */
  function AttendanceChart(rows: seq<Attendance>): (r: seq<Point>)
    ensures |r| == |rows|
    ensures forall i :: 0 <= i < |rows| ==>
              r[i].caption == rows[i].month && r[i].value == rows[i].present && r[i].color == ChartGreen
  {
    seq(|rows|, i requires 0 <= i < |rows| => Point(rows[i].month, rows[i].present, ChartGreen))
  }

  /** The series are built row by row: the series of two row lists joined is
      the two series joined, so order is kept. */
  lemma ChartsFollowRows(a: seq<MonthFigures>, b: seq<MonthFigures>, s: seq<SubjectFigures>, t: seq<SubjectFigures>,
                         u: seq<Attendance>, v: seq<Attendance>)
    ensures PerformanceChart(a + b) == PerformanceChart(a) + PerformanceChart(b)
    ensures SubjectChart(s + t) == SubjectChart(s) + SubjectChart(t)
    ensures AttendanceChart(u + v) == AttendanceChart(u) + AttendanceChart(v)
  {
  }

  /** `Math.round(a / b)` for a positive `b`: the integer nearest the
      quotient, a half rounded up. */
  function RoundDiv(a: int, b: int): (r: int)
    requires b > 0
    ensures 2 * b * r <= 2 * a + b < 2 * b * r + 2 * b
  {
    var q := (2 * a + b) / (2 * b);
    assert 2 * a + b == 2 * b * q + (2 * a + b) % (2 * b);
    q
  }

  /** Only one integer is that close to the quotient. */
  lemma RoundDivUnique(a: int, b: int, r: int)
    requires b > 0
    requires 2 * b * r <= 2 * a + b < 2 * b * r + 2 * b
    ensures r == RoundDiv(a, b)
  {
    var q := RoundDiv(a, b);
    if r < q {
      MulMonotone(2 * b, r + 1, q);
    } else if r > q {
      MulMonotone(2 * b, q + 1, r);
    }
  }

  lemma MulMonotone(k: int, x: int, y: int)
    requires k > 0 && x <= y
    ensures k * x <= k * y
  {
  }

  /** A rounded quotient of a number between `lo * b` and `hi * b` lies between `lo` and `hi`. */
  lemma RoundDivWithin(a: int, b: int, lo: int, hi: int)
    requires b > 0 && lo * b <= a <= hi * b
    ensures lo <= RoundDiv(a, b) <= hi
  {
    var r := RoundDiv(a, b);
    if r > hi {
      MulMonotone(2 * b, hi + 1, r);
    }
    if r < lo {
      MulMonotone(2 * b, r + 1, lo);
    }
  }

  /** The attendance rate of a month, `Math.round(present / total * 100)`;
      a month with no recorded days has none (the source shows NaN). */
  function PresentRate(row: Attendance): (r: Option<int>)
    ensures r.None? <==> row.present + row.absent + row.late == 0
    ensures r.Some? ==> var t := row.present + row.absent + row.late;
              2 * t * r.value <= 200 * row.present + t < 2 * t * r.value + 2 * t
    ensures r.Some? ==> 0 <= r.value <= 100
  {
    var t := row.present + row.absent + row.late;
    if t == 0 then None
    else
      RoundDivWithin(100 * row.present, t, 0, 100);
      Some(RoundDiv(100 * row.present, t))
  }

  /** Everyone present is 100 and no one present is 0. */
  lemma PresentRateExtremes(row: Attendance)
    requires row.present + row.absent + row.late > 0
    ensures row.absent == 0 && row.late == 0 ==> PresentRate(row) == Some(100)
    ensures row.present == 0 ==> PresentRate(row) == Some(0)
  {
    var t := row.present + row.absent + row.late;
    if row.absent == 0 && row.late == 0 {
      RoundDivUnique(100 * row.present, t, 100);
    }
    if row.present == 0 {
      RoundDivUnique(0, t, 0);
    }
  }

  function AverageScore(m: MonthFigures): int { m.averageScore }
  function Courses(m: MonthFigures): int { m.courses }
  function Students(m: MonthFigures): int { m.students }
  function Exams(m: MonthFigures): int { m.exams }

  /** The headline average: the rounded mean of the monthly averages; an
      empty list has none (the source shows NaN). */
  function Average(rows: seq<MonthFigures>): (r: Option<int>)
    ensures r.None? <==> |rows| == 0
    ensures r.Some? ==> 2 * |rows| * r.value <= 2 * Sum(rows, AverageScore) + |rows| < 2 * |rows| * r.value + 2 * |rows|
  {
    if |rows| == 0 then None else Some(RoundDiv(Sum(rows, AverageScore), |rows|))
  }

  /** The average lies within the range of the monthly averages. */
  lemma AverageWithinRange(rows: seq<MonthFigures>, lo: int, hi: int)
    requires |rows| > 0
    requires forall m :: m in rows ==> lo <= m.averageScore <= hi
    ensures lo <= Average(rows).value <= hi
  {
    SumWithin(rows, AverageScore, lo, hi);
    RoundDivWithin(Sum(rows, AverageScore), |rows|, lo, hi);
  }

  /** The quick-statistics figures: total courses, students and exams. */
  datatype Totals = Totals(courses: int, students: int, exams: int)

  function ColumnTotals(rows: seq<MonthFigures>): Totals {
    Totals(Sum(rows, Courses), Sum(rows, Students), Sum(rows, Exams))
  }

  /** Totals are exact sums: a month more adds exactly its own figures, and
      non-negative columns total at least each month's figure. */
  lemma TotalsAreSums(rows: seq<MonthFigures>, m: MonthFigures)
    ensures ColumnTotals(rows + [m]) ==
              Totals(ColumnTotals(rows).courses + m.courses, ColumnTotals(rows).students + m.students,
                     ColumnTotals(rows).exams + m.exams)
    ensures (forall x :: x in rows ==> x.courses >= 0) ==> forall i :: 0 <= i < |rows| ==> rows[i].courses <= ColumnTotals(rows).courses
  {
    SumAppend(rows, [m], Courses);
    SumAppend(rows, [m], Students);
    SumAppend(rows, [m], Exams);
    if forall x :: x in rows ==> x.courses >= 0 {
      forall i | 0 <= i < |rows| ensures rows[i].courses <= ColumnTotals(rows).courses {
        SumBoundsEntries(rows, Courses, i);
      }
    }
  }

  /** How many subjects and attendance months are listed under their charts. */
  const Listed := 3

  /** The rows listed under a chart: the first three, in order. */
  function FirstRows<T>(rows: seq<T>): (r: seq<T>)
    ensures |r| == (if |rows| < Listed then |rows| else Listed)
    ensures r == rows[..|r|]
  {
    Take(rows, Listed)
  }
}
