/** One run of the analyzer: the entry loop fills `marks_dict`, then the
    total, maximum, percentage, grade and pass flag are derived from it.
    The student's name and roll number are carried through for display. */
module Report {
  import opened MarksDict
  import opened SubjectEntry
  import opened Grading

  datatype StudentReport = StudentReport(
    studentName: string,
    rollNumber: string,
    marksDict: Dict,
    totalObtained: int,
    maxPossibleMarks: int,
    percentage: real,
    grade: Grade,
    passed: bool)

  /** The calculations after the entry loop, on the dict it produced. */
  function BuildReport(studentName: string, rollNumber: string, numSubjects: int, marksDict: Dict): (r: StudentReport)
    requires MinSubjects <= numSubjects <= MaxSubjects
    ensures r.studentName == studentName && r.rollNumber == rollNumber
    ensures r.marksDict == marksDict
    ensures r.totalObtained == SumValues(marksDict)
    ensures r.maxPossibleMarks == MarksPerSubject * numSubjects
    ensures r.percentage == (r.totalObtained as real) / (numSubjects as real)
    ensures InTotalBand(r.totalObtained, numSubjects, r.grade)
    ensures r.passed <==> r.totalObtained >= 50 * numSubjects
    ensures r.passed <==> r.grade != Fail
    ensures |marksDict| <= numSubjects && ValuesWithin(marksDict, MinMarks, MaxMarks) ==>
      && 0 <= r.totalObtained <= r.maxPossibleMarks
      && 0.0 <= r.percentage <= 100.0
  {
    var total := SumValues(marksDict);
    var maxPossible := MaxPossible(numSubjects);
    var percentage := Percentage(total, maxPossible);
    var grade := GradeFor(percentage);
    ReportArithmetic(total, numSubjects, percentage);
    TotalWithinMaxPossible(numSubjects, marksDict);
    StudentReport(studentName, rollNumber, marksDict, total, maxPossible, percentage, grade, Passed(percentage))
  }

  /** The percentage, grade and pass flag of a total out of n subjects. */
  lemma ReportArithmetic(total: int, numSubjects: int, percentage: real)
    requires MinSubjects <= numSubjects <= MaxSubjects
    requires percentage == Percentage(total, MaxPossible(numSubjects))
    ensures percentage == (total as real) / (numSubjects as real)
    ensures InTotalBand(total, numSubjects, GradeFor(percentage))
    ensures Passed(percentage) <==> total >= 50 * numSubjects
  {
    GradePercentageIsMean(total, numSubjects);
    DivideBack(percentage, total as real, numSubjects as real);
    GradeByTotal(total, numSubjects, GradeFor(percentage));
    PassedByTotal(total, numSubjects);
  }

  /** A dict of at most n subjects, each marked in [0, 100], totals at
      most the maximum and so has a percentage in [0, 100]. */
  lemma TotalWithinMaxPossible(numSubjects: int, marksDict: Dict)
    requires MinSubjects <= numSubjects <= MaxSubjects
    ensures |marksDict| <= numSubjects && ValuesWithin(marksDict, MinMarks, MaxMarks) ==>
      && 0 <= SumValues(marksDict) <= MaxPossible(numSubjects)
      && 0.0 <= Percentage(SumValues(marksDict), MaxPossible(numSubjects)) <= 100.0
  {
    if |marksDict| <= numSubjects && ValuesWithin(marksDict, MinMarks, MaxMarks) {
      SumValuesBounds(marksDict, MinMarks, MaxMarks);
      PercentageBounds(SumValues(marksDict), MaxPossible(numSubjects));
    }
  }

  /** With max = 100 n the percentage is the mean mark total / n. */
  lemma GradePercentageIsMean(total: int, numSubjects: int)
    requires MinSubjects <= numSubjects <= MaxSubjects
    ensures Percentage(total, MaxPossible(numSubjects)) * (numSubjects as real) == total as real
  {
    var n := numSubjects as real;
    var t := total as real;
    assert MaxPossible(numSubjects) as real == n * 100.0;
    assert Percentage(total, MaxPossible(numSubjects)) == (t / (n * 100.0)) * 100.0;
  }

  /** The whole script from the sidebar values to the report. */
  method GenerateReport(studentName: string, rollNumber: string, numSubjects: int, inputs: seq<SubjectInput>)
    returns (report: StudentReport)
    requires MinSubjects <= numSubjects <= MaxSubjects
    requires |inputs| == numSubjects
    requires AllWithinWidgetRange(inputs)
    ensures report == BuildReport(studentName, rollNumber, numSubjects, Collect(Entries(inputs)))
    ensures 0 <= report.totalObtained <= report.maxPossibleMarks
    ensures 0.0 <= report.percentage <= 100.0
    ensures NoDuplicateKeys(Entries(inputs)) ==>
      report.marksDict == Entries(inputs) && report.totalObtained == SumValues(Entries(inputs))
  {
    var marksDict := CollectMarks(numSubjects, inputs);
    if NoDuplicateKeys(Entries(inputs)) {
      CollectDistinct(Entries(inputs));
    }
    report := BuildReport(studentName, rollNumber, numSubjects, marksDict);
  }

  /** Reordering subjects with distinct names changes only the display
      order: total, percentage, grade and pass flag stay the same. */
  lemma ReorderKeepsResult(numSubjects: int, es: seq<(string, int)>, es': seq<(string, int)>)
    requires MinSubjects <= numSubjects <= MaxSubjects
    requires NoDuplicateKeys(es)
    requires multiset(es) == multiset(es')
    ensures var r, r' := BuildReport("", "", numSubjects, Collect(es)), BuildReport("", "", numSubjects, Collect(es'));
      r.totalObtained == r'.totalObtained && r.percentage == r'.percentage
      && r.grade == r'.grade && r.passed == r'.passed
  {
    NoDuplicateKeysPermutation(es, es');
    CollectDistinct(es);
    CollectDistinct(es');
    SumValuesPermutation(es, es');
  }

  /** Every subject scoring the same mark m gives the percentage m. */
  lemma UniformMarks(numSubjects: int, marksDict: Dict, m: int)
    requires MinSubjects <= numSubjects <= MaxSubjects
    requires |marksDict| == numSubjects && ValuesWithin(marksDict, m, m)
    ensures BuildReport("", "", numSubjects, marksDict).percentage == m as real
  {
    SumValuesBounds(marksDict, m, m);
    MeanOfUniform(SumValues(marksDict), numSubjects, m);
  }

  lemma MeanOfUniform(total: int, numSubjects: int, m: int)
    requires MinSubjects <= numSubjects <= MaxSubjects && total == numSubjects * m
    ensures Percentage(total, MaxPossible(numSubjects)) == m as real
  {
    var p := Percentage(total, MaxPossible(numSubjects));
    GradePercentageIsMean(total, numSubjects);
    RealOfProduct(numSubjects, m);
    CancelPositive(p, m as real, numSubjects as real);
  }

  lemma RealOfProduct(a: int, b: int)
    ensures (a * b) as real == (a as real) * (b as real)
  {
  }

  lemma DivideBack(p: real, t: real, n: real)
    requires n > 0.0 && p * n == t
    ensures p == t / n
  {
  }

  lemma CancelPositive(p: real, q: real, n: real)
    requires n > 0.0 && p * n == n * q
    ensures p == q
  {
  }

  /** All zeros fail with grade F; all hundreds pass with grade O. */
  lemma ExtremeMarks(numSubjects: int, marksDict: Dict)
    requires MinSubjects <= numSubjects <= MaxSubjects && |marksDict| == numSubjects
    ensures ValuesWithin(marksDict, 0, 0) ==>
      var r := BuildReport("", "", numSubjects, marksDict); r.grade == Fail && !r.passed
    ensures ValuesWithin(marksDict, 100, 100) ==>
      var r := BuildReport("", "", numSubjects, marksDict); r.grade == Outstanding && r.passed
  {
    if ValuesWithin(marksDict, 0, 0) {
      UniformMarks(numSubjects, marksDict, 0);
    }
    if ValuesWithin(marksDict, 100, 100) {
      UniformMarks(numSubjects, marksDict, 100);
    }
  }

  /** Two subjects both named "Mathematics" and both marked 100: the dict
      keeps one entry, so the total is 100 of 200 and the grade is C, not O. */
  lemma DuplicateFullMarks()
    ensures Collect([("Mathematics", 100), ("Mathematics", 100)]) == [("Mathematics", 100)]
    ensures var r := BuildReport("", "", 2, Collect([("Mathematics", 100), ("Mathematics", 100)]));
      r.totalObtained == 100 && r.maxPossibleMarks == 200 && r.percentage == 50.0
      && r.grade == Pass && r.passed
  {
    assert [("Mathematics", 100), ("Mathematics", 100)][..1] == [("Mathematics", 100)];
  }

  /** Five subjects with marks 75, 80, 65, 90 and 85. */
  lemma FiveSubjectScenario()
    ensures var r := BuildReport("", "", 5,
      [("Mathematics", 75), ("Data Science", 80), ("English", 65), ("Python", 90), ("AI", 85)]);
      r.totalObtained == 395 && r.maxPossibleMarks == 500 && r.percentage == 79.0
      && r.grade == VeryGood && r.passed
  {
  }

  /** One subject with mark 40. */
  lemma SingleSubjectScenario()
    ensures var r := BuildReport("", "", 1, [("Mathematics", 40)]);
      r.totalObtained == 40 && r.maxPossibleMarks == 100 && r.percentage == 40.0
      && r.grade == Fail && !r.passed
  {
  }
}
