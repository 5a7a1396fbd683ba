/** The bar colours of the performance chart: seven base colours, repeated
    with Python's list repetition and cut to one colour per subject position. */
module ChartColors {

  const BaseColors: seq<string> :=
    ["#ff9999", "#66b3ff", "#99ff99", "#ffcc99", "#c2c2f0", "#ffb3e6", "#c2f0c2"]

  /** `s * k`: k copies of s, one after another. */
  function Repeat<T>(s: seq<T>, k: nat): (r: seq<T>)
    ensures |r| == |s| * k
  {
    if k == 0 then [] else
      var rest := Repeat(s, k - 1);
      assert |s| * k == |s| + |s| * (k - 1);
      s + rest
  }

  /** Position q |s| + r of the repetition holds s[r]: the list cycles through s. */
  lemma {:induction false} RepeatAt<T>(s: seq<T>, k: nat, q: nat, r: nat)
    requires q < k && r < |s|
    ensures q * |s| + r < |Repeat(s, k)|
    ensures Repeat(s, k)[q * |s| + r] == s[r]
  {
    var rest := Repeat(s, k - 1);
    assert Repeat(s, k) == s + rest;
    if q > 0 {
      RepeatAt(s, k - 1, q - 1, r);
      assert q * |s| + r == (q - 1) * |s| + r + |s|;
    }
  }

  /** `s[:n]`: at most the first n elements. */
  function Take<T>(s: seq<T>, n: nat): (r: seq<T>)
    ensures |r| == if n <= |s| then n else |s|
    ensures forall i :: 0 <= i < |r| ==> r[i] == s[i]
  {
    if n <= |s| then s[..n] else s
  }

  /** `base_colors * (num_subjects // len(base_colors) + 1)`: always more
      colours than there are subjects. */
  function RepeatedColors(numSubjects: nat): (cs: seq<string>)
    ensures |cs| > numSubjects
  {
    var b := |BaseColors|;
    assert b * (numSubjects / b + 1) == b * (numSubjects / b) + b;
    Repeat(BaseColors, numSubjects / b + 1)
  }

  /** `colors[:num_subjects]`: exactly one colour per subject position,
      cycling through the base colours. (With repeated subject names the
      chart has fewer bars than positions; the list is not cut further.) */
  function BarColors(numSubjects: nat): (cs: seq<string>)
    ensures |cs| == numSubjects
    ensures forall i :: 0 <= i < numSubjects ==> cs[i] == BaseColors[i % |BaseColors|]
  {
    var cs := Take(RepeatedColors(numSubjects), numSubjects);
    forall i | 0 <= i < numSubjects ensures cs[i] == BaseColors[i % |BaseColors|] {
      var b := |BaseColors|;
      assert i / b <= numSubjects / b;
      assert i == (i / b) * b + i % b;
      RepeatAt(BaseColors, numSubjects / b + 1, i / b, i % b);
    }
    cs
  }
}
