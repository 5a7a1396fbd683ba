/** The subject-entry loop of app.py: for each of the `num_subjects`
    positions the sidebar offers a name field and a marks field, pre-filled
    with defaults, and the pair the user leaves there is written into
    `marks_dict`. The widgets themselves are not modelled: what the user typed
    is a parameter, `None` meaning the field was left at its default. */
module SubjectEntry {
  import opened Wrappers
  import Decimal
  import opened MarksDict

  /** The pre-filled names of the first five positions. */
  const DefaultNames: seq<string> :=
    ["Mathematics", "Data Science", "English", "Python Programming", "Artificial Intelligence"]

  /** The number input refuses marks outside [0, 100]. */
  const MinMarks := 0
  const MaxMarks := 100

  /** The pre-filled name at position i: a listed default, else "Subject i+1". */
  function DefaultName(i: nat): (s: string)
    ensures |s| > 0
    ensures i < |DefaultNames| ==> s == DefaultNames[i]
    ensures i >= |DefaultNames| ==>
      && |s| > 8 && s[..8] == "Subject "
      && s[8..] == Decimal.Show(i + 1)
      && Decimal.Parse(s[8..]) == i + 1
  {
    if i < |DefaultNames| then DefaultNames[i]
    else
      var s := "Subject " + Decimal.Show(i + 1);
      assert s[8..] == Decimal.Show(i + 1);
      Decimal.ParseShow(i + 1);
      s
  }

  /** The pre-filled mark at position i: 75 for a listed subject, else 0. */
  function DefaultMarks(i: nat): (m: int)
    ensures MinMarks <= m <= MaxMarks
    ensures i < |DefaultNames| ==> m == 75
    ensures i >= |DefaultNames| ==> m == MinMarks
  {
    if i < |DefaultNames| then 75 else 0
  }

  /** No two positions are pre-filled with the same name, so a form whose
      names are all left alone never overwrites an entry. */
  lemma DefaultNamesDistinct(i: nat, j: nat)
    requires i != j
    ensures DefaultName(i) != DefaultName(j)
  {
    var n := |DefaultNames|;
    if i < n && j < n {
    } else if i < n || j < n {
      var (d, s) := if i < n then (i, j) else (j, i);
      assert DefaultName(s)[0] == 'S';
      assert DefaultName(d)[0] != 'S';
    }
  }

  /** What the user left in the two fields of one position. */
  datatype SubjectInput = SubjectInput(name: Option<string>, marks: Option<int>)

  /** The marks field only yields values in [0, 100]. */
  predicate WithinWidgetRange(input: SubjectInput) {
    input.marks.Some? ==> MinMarks <= input.marks.value <= MaxMarks
  }

  function EnteredName(i: nat, input: SubjectInput): (s: string)
    ensures input.name.Some? ==> s == input.name.value
    ensures input.name.None? ==> s == DefaultName(i) && |s| > 0
    ensures input.name.None? && i < |DefaultNames| ==> s == DefaultNames[i]
  {
    input.name.GetOr(DefaultName(i))
  }

  function EnteredMarks(i: nat, input: SubjectInput): (m: int)
    requires WithinWidgetRange(input)
    ensures input.marks.Some? ==> m == input.marks.value
    ensures input.marks.None? ==> m == DefaultMarks(i)
    ensures MinMarks <= m <= MaxMarks
  {
    input.marks.GetOr(DefaultMarks(i))
  }

  predicate AllWithinWidgetRange(inputs: seq<SubjectInput>) {
    forall i :: 0 <= i < |inputs| ==> WithinWidgetRange(inputs[i])
  }

  /** The (name, marks) pair written at each position, in entry order. */
  function Entries(inputs: seq<SubjectInput>): (es: seq<(string, int)>)
    requires AllWithinWidgetRange(inputs)
    ensures |es| == |inputs|
    ensures forall i :: 0 <= i < |es| ==> es[i] == (EnteredName(i, inputs[i]), EnteredMarks(i, inputs[i]))
    ensures ValuesWithin(es, MinMarks, MaxMarks)
  {
    seq(|inputs|, i requires 0 <= i < |inputs| => (EnteredName(i, inputs[i]), EnteredMarks(i, inputs[i])))
  }

  /** The dict after writing the pairs of es one after another into an
      empty one: it has no more keys than pairs were written. */
  function Collect(es: seq<(string, int)>): (d: Dict)
    ensures |d| <= |es|
  {
    if es == [] then []
    else
      var last := es[|es| - 1];
      Put(Collect(es[..|es| - 1]), last.0, last.1)
  }

  /** Writing one more pair extends the fold by one assignment. */
  lemma CollectStep(es: seq<(string, int)>, i: nat)
    requires i < |es|
    ensures Collect(es[..i + 1]) == Put(Collect(es[..i]), es[i].0, es[i].1)
  {
    assert es[..i + 1][..i] == es[..i];
  }

  /** The collected dict has pairwise distinct keys. */
  lemma {:induction false} CollectIsDict(es: seq<(string, int)>)
    ensures NoDuplicateKeys(Collect(es))
  {
    if es != [] {
      var p, last := es[..|es| - 1], es[|es| - 1];
      CollectIsDict(p);
      PutNoDuplicateKeys(Collect(p), last.0, last.1);
    }
  }

  /** Some position writes name k. */
  predicate IsWritten(es: seq<(string, int)>, k: string) {
    exists j :: 0 <= j < |es| && es[j].0 == k
  }

  /** No later position writes the name written at position i. */
  predicate IsLastWrite(es: seq<(string, int)>, i: nat)
    requires i < |es|
  {
    forall j :: i < j < |es| ==> es[j].0 != es[i].0
  }

  /** A name that is never written is absent. */
  lemma {:induction false} CollectAbsent(es: seq<(string, int)>, k: string)
    requires !IsWritten(es, k)
    ensures Lookup(Collect(es), k) == None
  {
    if es != [] {
      var p, last := es[..|es| - 1], es[|es| - 1];
      CollectAbsent(p, k);
      PutLookup(Collect(p), last.0, last.1, k);
    }
  }

  /** Every name that is written is present. */
  lemma {:induction false} CollectPresent(es: seq<(string, int)>, j: nat)
    requires j < |es|
    ensures HasKey(Collect(es), es[j].0)
  {
    var p, last := es[..|es| - 1], es[|es| - 1];
    PutLookup(Collect(p), last.0, last.1, es[j].0);
    if j < |es| - 1 {
      CollectPresent(p, j);
    }
  }

  /** A name maps to the mark written at the last position carrying it:
      a later duplicate overwrites an earlier one. */
  lemma {:induction false} CollectLastWins(es: seq<(string, int)>, i: nat)
    requires i < |es| && IsLastWrite(es, i)
    ensures Lookup(Collect(es), es[i].0) == Some(es[i].1)
  {
    var p, last := es[..|es| - 1], es[|es| - 1];
    PutLookup(Collect(p), last.0, last.1, es[i].0);
    if i < |es| - 1 {
      CollectLastWins(p, i);
    }
  }

  /** Every collected value is one of the written marks, so it stays in range. */
  lemma {:induction false} CollectWithin(es: seq<(string, int)>, lo: int, hi: int)
    requires ValuesWithin(es, lo, hi)
    ensures ValuesWithin(Collect(es), lo, hi)
  {
    if es != [] {
      var p, last := es[..|es| - 1], es[|es| - 1];
      CollectWithin(p, lo, hi);
      PutWithin(Collect(p), last.0, last.1, lo, hi);
    }
  }

  /** With pairwise distinct names nothing is overwritten: the dict holds
      exactly the written pairs, in entry order. */
  lemma {:induction false} CollectDistinct(es: seq<(string, int)>)
    requires NoDuplicateKeys(es)
    ensures Collect(es) == es
  {
    if es != [] {
      var p, last := es[..|es| - 1], es[|es| - 1];
      NoDuplicateKeysInit(es);
      CollectDistinct(p);
      assert Collect(es) == Put(p, last.0, last.1);
      assert p + [last] == es;
    }
  }

  /** A form whose name fields are all left at their defaults writes
      pairwise distinct names, so its dict is exactly its entries. */
  lemma UntouchedNamesDistinct(inputs: seq<SubjectInput>)
    requires AllWithinWidgetRange(inputs)
    requires forall i :: 0 <= i < |inputs| ==> inputs[i].name.None?
    ensures NoDuplicateKeys(Entries(inputs))
    ensures Collect(Entries(inputs)) == Entries(inputs)
  {
    var es := Entries(inputs);
    forall i, j | 0 <= i < j < |es| ensures es[i].0 != es[j].0 {
      DefaultNamesDistinct(i, j);
    }
    CollectDistinct(es);
  }

  /** Two positions writing the same name: the earlier mark is lost from
      the dict and from its sum. */
  lemma DuplicateNameOverwrites()
    ensures Collect([("Mathematics", 40), ("Mathematics", 90)]) == [("Mathematics", 90)]
    ensures Collect([("Mathematics", 90), ("Mathematics", 40)]) == [("Mathematics", 40)]
  {
    assert [("Mathematics", 40), ("Mathematics", 90)][..1] == [("Mathematics", 40)];
    assert [("Mathematics", 90), ("Mathematics", 40)][..1] == [("Mathematics", 90)];
  }

  /** The facts the entry loop promises, gathered for the whole sequence. */
  lemma CollectSummary(es: seq<(string, int)>, lo: int, hi: int)
    requires ValuesWithin(es, lo, hi)
    ensures ValuesWithin(Collect(es), lo, hi)
    ensures forall j :: 0 <= j < |es| ==> HasKey(Collect(es), es[j].0)
    ensures forall i :: 0 <= i < |es| && IsLastWrite(es, i) ==> Lookup(Collect(es), es[i].0) == Some(es[i].1)
    ensures forall k :: !IsWritten(es, k) ==> Lookup(Collect(es), k) == None
  {
    CollectWithin(es, lo, hi);
    forall j | 0 <= j < |es| ensures HasKey(Collect(es), es[j].0) {
      CollectPresent(es, j);
    }
    forall i | 0 <= i < |es| && IsLastWrite(es, i) ensures Lookup(Collect(es), es[i].0) == Some(es[i].1) {
      CollectLastWins(es, i);
    }
    forall k | !IsWritten(es, k) ensures Lookup(Collect(es), k) == None {
      CollectAbsent(es, k);
    }
  }

  /** The entry loop (`for i in range(num_subjects)` ... `marks_dict[sub_name] = sub_marks`). */
  method CollectMarks(numSubjects: nat, inputs: seq<SubjectInput>) returns (marksDict: Dict)
    requires |inputs| == numSubjects
    requires AllWithinWidgetRange(inputs)
    ensures marksDict == Collect(Entries(inputs))
    ensures NoDuplicateKeys(marksDict)
    ensures |marksDict| <= numSubjects
    ensures ValuesWithin(marksDict, MinMarks, MaxMarks)
    ensures forall i :: 0 <= i < numSubjects ==> HasKey(marksDict, Entries(inputs)[i].0)
    ensures forall i :: 0 <= i < numSubjects && IsLastWrite(Entries(inputs), i) ==>
      Lookup(marksDict, Entries(inputs)[i].0) == Some(Entries(inputs)[i].1)
    ensures forall k :: !IsWritten(Entries(inputs), k) ==> Lookup(marksDict, k) == None
  {
    ghost var es := Entries(inputs);
    marksDict := [];
    for i := 0 to numSubjects
      invariant marksDict == Collect(es[..i])
    {
      var subName := EnteredName(i, inputs[i]);
      var subMarks := EnteredMarks(i, inputs[i]);
      CollectStep(es, i);
      marksDict := Put(marksDict, subName, subMarks);
    }
    assert es[..numSubjects] == es;
    CollectIsDict(es);
    CollectSummary(es, MinMarks, MaxMarks);
  }
}
