/** The arithmetic and grading of app.py: maximum marks, percentage, the
    six-way grade chain and the pass test. The percentage is an exact
    rational (`real`); the source computes it in floating point. */
module Grading {

  /** The sidebar's bounds on the number of subjects. */
  const MinSubjects := 1
  const MaxSubjects := 10
  const MarksPerSubject := 100

  /** The grades, best first. */
  datatype Grade = Outstanding | Excellent | VeryGood | Good | Pass | Fail

  /** The text shown for a grade; only a failing grade reads "F (Fail)". */
  function Label(g: Grade): (s: string)
    ensures s == "F (Fail)" <==> g == Fail
  {
    match g
    case Outstanding => "O (Outstanding)"
    case Excellent => "A+ (Excellent)"
    case VeryGood => "A (Very Good)"
    case Good => "B (Good)"
    case Pass => "C (Pass)"
    case Fail => "F (Fail)"
  }

  /** Position on the grade scale: Fail lowest, Outstanding highest. */
  function Rank(g: Grade): (r: nat)
    ensures r <= 5
  {
    match g
    case Fail => 0
    case Pass => 1
    case Good => 2
    case VeryGood => 3
    case Excellent => 4
    case Outstanding => 5
  }

  /** `max_possible_marks = num_subjects * 100`. */
  function MaxPossible(numSubjects: int): (m: int)
    requires MinSubjects <= numSubjects <= MaxSubjects
    ensures MarksPerSubject <= m <= MarksPerSubject * MaxSubjects
    ensures m / MarksPerSubject == numSubjects && m % MarksPerSubject == 0
  {
    numSubjects * MarksPerSubject
  }

  /** `(total_obtained / max_possible_marks) * 100`, computed exactly. */
  function Percentage(total: int, maxPossible: int): (p: real)
    requires maxPossible > 0
    ensures p * (maxPossible as real) == (total as real) * 100.0
  {
    (total as real / maxPossible as real) * 100.0
  }

  /** The percentage band each grade stands for, lower bounds closed. */
  predicate InBand(percentage: real, g: Grade) {
    match g
    case Outstanding => 90.0 <= percentage
    case Excellent => 80.0 <= percentage < 90.0
    case VeryGood => 70.0 <= percentage < 80.0
    case Good => 60.0 <= percentage < 70.0
    case Pass => 50.0 <= percentage < 60.0
    case Fail => percentage < 50.0
  }

  /** The if/elif chain: closed lower bounds, checked highest first. The
      grade it picks is one whose band holds the percentage. */
  function GradeFor(percentage: real): (g: Grade)
    ensures InBand(percentage, g)
  {
    if percentage >= 90.0 then Outstanding
    else if percentage >= 80.0 then Excellent
    else if percentage >= 70.0 then VeryGood
    else if percentage >= 60.0 then Good
    else if percentage >= 50.0 then Pass
    else Fail
  }

  /** `percentage >= 50`, the test behind the pass/fail banner: it says
      PASSED exactly when the grade is not F. */
  function Passed(percentage: real): (passed: bool)
    ensures passed <==> GradeFor(percentage) != Fail
  {
    percentage >= 50.0
  }

  /** The chain yields a grade exactly when the percentage is in its band,
      so the bands partition the reals and every percentage gets one grade. */
  lemma GradeForIsBand(percentage: real, g: Grade)
    ensures GradeFor(percentage) == g <==> InBand(percentage, g)
  {
  }

  /** The six labels are pairwise distinct. */
  lemma LabelInjective(g: Grade, h: Grade)
    requires Label(g) == Label(h)
    ensures g == h
  {
  }

  /** A higher percentage never gets a lower grade. */
  lemma GradeForMonotone(p: real, q: real)
    requires p <= q
    ensures Rank(GradeFor(p)) <= Rank(GradeFor(q))
  {
  }

  /** With max = 100 n, the percentage is total / n, so `percentage >= k`
      is the integer test `total >= k n`. */
  lemma PercentageAtLeast(total: int, numSubjects: int, k: int)
    requires MinSubjects <= numSubjects <= MaxSubjects
    ensures Percentage(total, MaxPossible(numSubjects)) >= k as real <==> total >= k * numSubjects
  {
    var n := numSubjects as real;
    var t := total as real;
    var p := Percentage(total, MaxPossible(numSubjects));
    assert MaxPossible(numSubjects) as real == n * 100.0;
    assert p == t / n by {
      assert p == (t / (n * 100.0)) * 100.0;
    }
    assert p * n == t;
    if total >= k * numSubjects {
      assert t >= (k as real) * n;
    } else {
      assert t < (k as real) * n;
    }
  }

  /** With 0 <= total <= max the percentage lies in [0, 100]. */
  lemma PercentageBounds(total: int, maxPossible: int)
    requires maxPossible > 0 && 0 <= total <= maxPossible
    ensures 0.0 <= Percentage(total, maxPossible) <= 100.0
  {
    var t, m := total as real, maxPossible as real;
    assert t / m <= 1.0 by {
      assert t <= m;
    }
  }

  /** The grade band in the integer terms of total and subject count. */
  predicate InTotalBand(total: int, numSubjects: int, g: Grade) {
    match g
    case Outstanding => 90 * numSubjects <= total
    case Excellent => 80 * numSubjects <= total < 90 * numSubjects
    case VeryGood => 70 * numSubjects <= total < 80 * numSubjects
    case Good => 60 * numSubjects <= total < 70 * numSubjects
    case Pass => 50 * numSubjects <= total < 60 * numSubjects
    case Fail => total < 50 * numSubjects
  }

  /** The grade of a report, decided by integers alone: e.g. O exactly when
      total >= 90 n. */
  lemma GradeByTotal(total: int, numSubjects: int, g: Grade)
    requires MinSubjects <= numSubjects <= MaxSubjects
    ensures GradeFor(Percentage(total, MaxPossible(numSubjects))) == g <==> InTotalBand(total, numSubjects, g)
  {
    PercentageAtLeast(total, numSubjects, 90);
    PercentageAtLeast(total, numSubjects, 80);
    PercentageAtLeast(total, numSubjects, 70);
    PercentageAtLeast(total, numSubjects, 60);
    PercentageAtLeast(total, numSubjects, 50);
  }

  /** Pass in integer terms: total >= 50 n. */
  lemma PassedByTotal(total: int, numSubjects: int)
    requires MinSubjects <= numSubjects <= MaxSubjects
    ensures Passed(Percentage(total, MaxPossible(numSubjects))) <==> total >= 50 * numSubjects
  {
    PercentageAtLeast(total, numSubjects, 50);
  }

  /** More marks out of the same number of subjects never lower the grade. */
  lemma GradeMonotoneInTotal(total: int, total': int, numSubjects: int)
    requires MinSubjects <= numSubjects <= MaxSubjects && total <= total'
    ensures Rank(GradeFor(Percentage(total, MaxPossible(numSubjects))))
         <= Rank(GradeFor(Percentage(total', MaxPossible(numSubjects))))
  {
    var m := MaxPossible(numSubjects) as real;
    assert total as real / m <= total' as real / m;
    GradeForMonotone(Percentage(total, MaxPossible(numSubjects)), Percentage(total', MaxPossible(numSubjects)));
  }
}
