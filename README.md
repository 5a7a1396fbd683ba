# Student Performance Analyzer — a Dafny model of its grade evaluator

The analyzer is a one-page Streamlit form. The sidebar asks for a student's
name and roll number, a number of subjects (1 to 10) and, for each subject, a
name and a mark (0 to 100). The script writes the name/mark pairs into a
dictionary `marks_dict`. It then computes the total of the marks, the maximum
possible marks (100 per subject), the percentage, a letter grade from six
thresholds and a pass flag, and shows all of this with a table and a bar chart.

This project models that logic:

- `Wrappers`: the `Option` type. It stands for a widget the user left at its
  default and for a dictionary lookup that finds nothing.
- `Decimal`: renders the subject number in `f"Subject {i+1}"`. A parse function
  is its partner and proves the rendering injective.
- `MarksDict`: `marks_dict` as an insertion-ordered association list with
  Python's `d[k] = v` semantics. An existing key keeps its position and gets the
  new value; a new key is appended. It also covers `sum(d.values())`.
- `SubjectEntry`: the default name and mark of each position, what each position
  writes, and the entry loop `CollectMarks`. That loop is a method with a loop
  invariant, proved against the left-to-right fold `Collect`.
- `Grading`: the maximum, the percentage (an exact `real`), the if/elif grade
  chain, the pass test, and their characterisation by integers.
- `Report`: one run from the sidebar values to the report value, plus what a
  user of the page can rely on: the total never exceeds the maximum, the
  percentage stays in [0, 100], the order of distinct subjects does not
  matter, n distinct subjects all marked m give the percentage m, and two concrete
  scenarios.
- `ChartColors`: the repeated colour list for the bars.

The widget values are parameters. For each position, `SubjectInput` holds what
the user left in the name field and in the marks field. `None` means the field
still shows its default. The marks widget only yields values in [0, 100], and
the subject-count widget only yields values in [1, 10]. These two facts are the
`requires` of the entry loop and of the report.

Subject names are where a user's expectation and `app.py` part ways, and the
model follows `app.py`:

- A user would expect the total to be the sum of every mark typed in the
  sidebar. `app.py` does not check that subject names differ. It stores the
  marks in a dict keyed by name (line 44), so a later subject with the same
  name overwrites the earlier mark. The total (line 47) is then the sum of the
  surviving values, while the maximum (line 48) still counts every subject.
- `SubjectEntry.DuplicateNameOverwrites` shows such a case. Two subjects both
  named "Mathematics" keep only the last mark. Swapping their order changes the
  dict, and therefore the total. `Report.DuplicateFullMarks` carries such a
  case through to the report: full marks in two same-named subjects give 50%
  and "C (Pass)".
- When all names are distinct, `SubjectEntry.CollectDistinct` shows that the
  dict is exactly the entered pairs. `Report.ReorderKeepsResult` then shows
  that reordering changes nothing but the display order.
- When no name field is edited, the default names are pairwise distinct
  (`SubjectEntry.DefaultNamesDistinct`), so nothing is overwritten
  (`SubjectEntry.UntouchedNamesDistinct`).

## Model

| member | source | states |
|---|---|---|
| `Decimal.Show` | app.py:34 | the numeral of `i+1` in `"Subject {i+1}"` is non-empty, all digits, and starts with `0` only for zero |
| `Decimal.ParseShow` | app.py:34 | parsing the rendered numeral gives back the number |
| `Decimal.ShowInjective` | app.py:34 | distinct subject numbers render as distinct numerals |
| `SubjectEntry.DefaultName` | app.py:25-34 | positions 0-4 are pre-filled with the five listed names in order; position `i` from 5 on gets exactly `"Subject "` followed by `str(i+1)` (`Decimal.Show`, no leading zeros), which parses back to `i+1` |
| `SubjectEntry.DefaultMarks` | app.py:42 | the pre-filled mark is 75 for the first five positions and 0 for the rest, always within [0, 100] |
| `SubjectEntry.DefaultNamesDistinct` | app.py:25-34 | two different positions never get the same default name |
| `SubjectEntry.EnteredName` | app.py:34-40 | the name written at a position is the typed text if the field was edited, else the non-empty pre-filled name (one of the five listed names for positions 0-4); partners: `DefaultNamesDistinct`, `UntouchedNamesDistinct` |
| `SubjectEntry.UntouchedNamesDistinct` | app.py:30-44 | if no name field is edited, the written names are pairwise distinct and the dict is exactly the entered pairs |
| `SubjectEntry.EnteredMarks` | app.py:42 | the mark written at a position is the typed value if the field was edited, else `DefaultMarks(i)`, and lies in [0, 100] |
| `SubjectEntry.Entries` | app.py:30-44 | one (name, mark) pair per position, in entry order, each built by `EnteredName` and `EnteredMarks` and each mark in [0, 100]; partners: `Collect`, `CollectMarks` |
| `MarksDict.Put` | app.py:44 | `d[k] = v` on an existing key keeps the key order; on a new key it appends `(k, v)` at the end |
| `MarksDict.PutLookup` | app.py:44 | after `d[k] = v`, `k` maps to `v` and every other key keeps its value or stays absent |
| `MarksDict.PutNoDuplicateKeys` | app.py:44 | assignment keeps the keys pairwise distinct |
| `MarksDict.PutWithin` | app.py:42-44 | assignment keeps all values in [lo, hi] when the new value is in it |
| `MarksDict.SumValuesPut` | app.py:44-47 | a new key adds its value to `sum(d.values())`; overwriting a key replaces the old value by the new one in the sum |
| `MarksDict.SumValues` | app.py:47 | `sum(d.values())` of non-negative values is non-negative; its properties are carried by `SumValuesPut`, `SumValuesAppend`, `SumValuesBounds` and `SumValuesPermutation` |
| `MarksDict.SumValuesAppend` | app.py:47 | the sum over two dict segments placed one after the other is the sum of their sums |
| `MarksDict.SumValuesBounds` | app.py:47 | a dict of `n` values in [lo, hi] sums to between `n*lo` and `n*hi` |
| `MarksDict.SumValuesPermutation` | app.py:47 | the sum of the values does not depend on their order |
| `MarksDict.NoDuplicateKeysPermutation` | app.py:44-47 | a reordering of pairs with distinct names still has distinct names |
| `SubjectEntry.Collect` | app.py:27-44 | writing pairs one after another into `{}` gives a dict with no more keys than pairs written; partners: `CollectStep`, `CollectIsDict`, `CollectPresent`, `CollectAbsent`, `CollectLastWins`, `CollectDistinct` |
| `SubjectEntry.CollectStep` | app.py:30-44 | one more turn of the loop is one more `d[k] = v` on the dict built so far |
| `SubjectEntry.CollectIsDict` | app.py:27-44 | the dict built by the loop has pairwise distinct keys |
| `SubjectEntry.CollectPresent` | app.py:30-44 | every name written at some position is a key afterwards |
| `SubjectEntry.CollectAbsent` | app.py:30-44 | a name written at no position is not a key |
| `SubjectEntry.CollectLastWins` | app.py:30-44 | a name maps to the mark of the last position that wrote it, so a later duplicate overwrites an earlier one |
| `SubjectEntry.CollectWithin` | app.py:42-44 | if every written mark lies in [lo, hi], so does every value in the dict (with the widget range, [0, 100]) |
| `SubjectEntry.CollectDistinct` | app.py:30-44 | with pairwise distinct names nothing is overwritten: the dict equals the entered pairs, in entry order |
| `SubjectEntry.DuplicateNameOverwrites` | app.py:44 | two subjects both named "Mathematics" keep only the later mark, whichever order they come in |
| `SubjectEntry.CollectSummary` | app.py:30-44 | with written marks in [lo, hi]: values within [lo, hi], every written name present and mapped to its last mark, no other name present |
| `SubjectEntry.CollectMarks` | app.py:27-44 | the loop builds `Collect` of the entered pairs: distinct keys, at most `num_subjects` of them, values in [0, 100], every entered name present, each mapped to its last mark, and no other name present |
| `Grading.MaxPossible` | app.py:48 | `num_subjects * 100` is a positive multiple of 100 between 100 and 1000 (count bounded to 1..10 at line 22), so line 49 never divides by zero |
| `Grading.Percentage` | app.py:49 | the percentage times the maximum is 100 times the total; partners: `PercentageAtLeast`, `PercentageBounds`, `Report.GradePercentageIsMean` |
| `Grading.GradeFor` | app.py:52-63 | the grade the chain picks has a band holding the percentage; partners: `GradeForIsBand`, `GradeForMonotone`, `GradeByTotal` |
| `Grading.Passed` | app.py:111 | `percentage >= 50` holds exactly when the chain's grade is not "F (Fail)"; partner: `PassedByTotal` |
| `Grading.GradeForIsBand` | app.py:52-63 | the chain yields a grade exactly when the percentage lies in that grade's band: >=90 O, [80,90) A+, [70,80) A, [60,70) B, [50,60) C, <50 F |
| `Grading.Label` | app.py:52-63 | the text shown for a grade is "F (Fail)" exactly for the failing grade; partner: `LabelInjective` |
| `Grading.LabelInjective` | app.py:52-63 | the six grade labels are pairwise distinct |
| `Grading.GradeForMonotone` | app.py:52-63 | a higher percentage never gets a lower grade |
| `Grading.PercentageAtLeast` | app.py:48-49 | with max = 100 n, `percentage >= k` holds exactly when `total >= k*n` |
| `Grading.PercentageBounds` | app.py:49 | 0 <= total <= max gives a percentage in [0, 100] |
| `Grading.GradeByTotal` | app.py:48-63 | the grade is decided by integers alone, e.g. O exactly when `total >= 90*n`, F exactly when `total < 50*n` |
| `Grading.PassedByTotal` | app.py:111 | the pass flag holds exactly when `total >= 50*n` |
| `Grading.GradeMonotoneInTotal` | app.py:52-63 | with the same number of subjects a larger total never gets a lower grade |
| `Report.BuildReport` | app.py:47-63 | the report carries the name and roll number unchanged; its maximum is exactly `100*n`; its total is the dict's value sum and its percentage is total / n; its grade lies in the integer band of the total; passed iff `total >= 50*n` iff grade is not F; with at most n values in [0,100], 0 <= total <= max and 0 <= percentage <= 100 |
| `Report.ReportArithmetic` | app.py:48-63 | for a total out of n subjects: percentage = total / n, the grade lies in the integer band of the total, and the pass flag holds iff `total >= 50*n` |
| `Report.TotalWithinMaxPossible` | app.py:47-49 | at most n subjects marked in [0, 100] total at most the maximum and give a percentage in [0, 100] |
| `Report.GradePercentageIsMean` | app.py:48-49 | the percentage times the subject count is the total |
| `Report.GenerateReport` | app.py:22-63 | one run: the report is built from the dict the loop produced; total within [0, max], percentage within [0, 100]; with distinct names, the dict is the entered pairs and the total is the sum of all entered marks |
| `Report.ReorderKeepsResult` | app.py:44-63 | reordering subjects whose names are distinct leaves total, percentage, grade and pass flag unchanged |
| `Report.UniformMarks` | app.py:47-49 | a dict of n distinct subjects all marked m gives the percentage m |
| `Report.MeanOfUniform` | app.py:48-49 | a total of `n*m` out of n subjects gives the percentage m |
| `Report.ExtremeMarks` | app.py:47-63 | a dict of n distinct subjects all marked 0 gives grade F and fail; all marked 100 gives grade O and pass |
| `Report.DuplicateFullMarks` | app.py:44-63 | two subjects both named "Mathematics" and both marked 100 keep one entry: total 100 of 200, percentage 50, grade "C (Pass)", not O |
| `Report.FiveSubjectScenario` | app.py:47-63 | marks 75, 80, 65, 90, 85 give total 395 of 500, percentage 79, grade "A (Very Good)", passed |
| `Report.SingleSubjectScenario` | app.py:47-63 | a single subject with mark 40 gives total 40 of 100, percentage 40, grade F, failed |
| `ChartColors.Repeat` | app.py:96 | `s * k` has `|s| * k` elements; partner: `RepeatAt` |
| `ChartColors.RepeatAt` | app.py:96 | position `q*|s| + r` of `s * k` holds `s[r]` |
| `ChartColors.Take` | app.py:98 | `s[:n]` has `min(n, |s|)` elements, each the element at the same position of `s` |
| `ChartColors.RepeatedColors` | app.py:95-96 | `base_colors * (n // 7 + 1)` has more than `n` entries, so the cut at line 98 always yields `n` colours; partner: `BarColors` |
| `ChartColors.BarColors` | app.py:95-98 | `colors[:n]` has exactly `n` entries and entry `i` is `base_colors[i mod 7]` |

## Left out

- Streamlit widgets and layout (`st.title`, sidebar, columns, metrics,
  dividers, banners): these are user-interface I/O. Their values are
  parameters that meet the widgets' range limits.
- The "Generate Report" button: the source computes the report on every run
  and the button only decides whether it is shown.
- The student's name and roll number: they are only displayed. The report
  carries them through unchanged.
- The pandas table and the matplotlib chart calls, including the value labels
  on the bars: these are foreign library calls. The table shows the dict's
  pairs in insertion order (`MarksDict.KeySeq`). The only chart fact modelled
  is the number and cycling of the bar colours.
- Floating point: the percentage is an exact `real`, while the source divides
  and multiplies in binary floating point.
- Percentage comparisons and float rounding: with at most ten subjects, an exact
  percentage that is not on a threshold is at least 0.1 away from it. On a
  threshold (total = k·n for k in 50, 60, 70, 80, 90), the float value rounds
  back to k. So float rounding should not change any comparison. This argument
  is not proved in Dafny.
- The `:.2f` formatting of the percentage and the message and emoji text: these
  are presentation only. The six grade labels are modelled (`Grading.Label`).
- The fixed five-subject variant of the form is not part of this model. It is
  the same evaluator with five subjects.
- Report.ReorderKeepsResult: needs the names to be distinct (in one order,
  hence in the other, by `MarksDict.NoDuplicateKeysPermutation`). With
  duplicate names reordering can change the total, as
  `SubjectEntry.DuplicateNameOverwrites` shows.
- The bar chart when names repeat: `ax.bar` then gets fewer bars than the
  `num_subjects` colours passed to it. How matplotlib pairs them is library
  behaviour and is not modelled; `ChartColors.BarColors` gives one colour per
  subject position.
