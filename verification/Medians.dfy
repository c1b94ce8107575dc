/** The order statistics of the build and edit benchmarks, over real numbers. */
module Medians {
  import opened Ordering
  import opened Wrappers

  predicate RealLeq(a: real, b: real) { a <= b }

  function Sorting(values: seq<real>): seq<real> {
    Sort(values, RealLeq)
  }

  /** The middle value, or the mean of the two middle ones; nothing has no median. */
  function MedianOf(values: seq<real>): Option<real> {
    if values == [] then None
    else Some(Middle(Sorting(values)))
  }

  function Middle(sorted: seq<real>): real
    requires sorted != []
  {
    var middle := |sorted| / 2;
    if |sorted| % 2 == 1 then sorted[middle] else (sorted[middle - 1] + sorted[middle]) / 2.0
  }

  /** `sort.Float64s`. */
  method SortFloats(a: array<real>)
    modifies a
    ensures a[..] == Sorting(old(a[..]))
  {
    var sorted := Sorting(a[..]);
    forall i | 0 <= i < a.Length {
      a[i] := sorted[i];
    }
  }

  method SortedCopy(values: array<real>) returns (sorted: array<real>)
    ensures fresh(sorted) && sorted[..] == Sorting(values[..])
    ensures values[..] == old(values[..])
  {
    sorted := new real[values.Length];
    forall i | 0 <= i < values.Length {
      sorted[i] := values[i];
    }
    assert sorted[..] == values[..];
    SortFloats(sorted);
  }

  /** The input is copied before it is sorted. */
  method Median(values: array<real>) returns (r: Result<real, string>)
    ensures r.Err? <==> values.Length == 0
    ensures r.Ok? ==> Some(r.value) == MedianOf(values[..])
    ensures values[..] == old(values[..])
  {
    if values.Length == 0 {
      return Err("median requires at least one value");
    }
    var sorted := SortedCopy(values);
    var middle := sorted.Length / 2;
    if sorted.Length % 2 == 1 {
      return Ok(sorted[middle]);
    }
    return Ok((sorted[middle - 1] + sorted[middle]) / 2.0);
  }

  method Minimum(values: array<real>) returns (r: real)
    ensures values.Length == 0 ==> r == 0.0
    ensures values.Length > 0 ==> r in values[..] && forall v :: v in values[..] ==> r <= v
    ensures values[..] == old(values[..])
  {
    if values.Length == 0 {
      return 0.0;
    }
    var sorted := SortedCopy(values);
    SortingEnds(values[..]);
    r := sorted[0];
  }

  method Maximum(values: array<real>) returns (r: real)
    ensures values.Length == 0 ==> r == 0.0
    ensures values.Length > 0 ==> r in values[..] && forall v :: v in values[..] ==> v <= r
    ensures values[..] == old(values[..])
  {
    if values.Length == 0 {
      return 0.0;
    }
    var sorted := SortedCopy(values);
    SortingEnds(values[..]);
    r := sorted[sorted.Length - 1];
  }

  lemma SortingEnds(values: seq<real>)
    requires values != []
    ensures var s := Sorting(values);
      && Sorted(s, RealLeq) && s[0] in values && s[|s| - 1] in values
      && forall v :: v in values ==> s[0] <= v <= s[|s| - 1]
  {
    SortIsSorted(values, RealLeq);
    var s := Sorting(values);
    forall v | v in values ensures s[0] <= v <= s[|s| - 1] {
      var i :| 0 <= i < |s| && s[i] == v;
      assert i > 0 ==> RealLeq(s[0], s[i]);
      assert i < |s| - 1 ==> RealLeq(s[i], s[|s| - 1]);
    }
  }

  // ---- What a median is ----

  /** The order in which values were measured does not matter. */
  lemma PermutationInvariant(a: seq<real>, b: seq<real>)
    requires multiset(a) == multiset(b)
    ensures MedianOf(a) == MedianOf(b)
  {
    SortIsSorted(a, RealLeq);
    SortIsSorted(b, RealLeq);
    SortedUnique(Sorting(a), Sorting(b), RealLeq);
    SameElements(a, b);
  }

  /** Between the two middle values of a sorted sequence, which coincide when its length is odd. */
  ghost predicate Central(s: seq<real>, m: real)
    requires s != []
  {
    s[(|s| - 1) / 2] <= m <= s[|s| / 2]
  }

  lemma MiddleIsCentral(s: seq<real>)
    requires s != [] && Sorted(s, RealLeq)
    ensures Central(s, Middle(s))
  {
    var n := |s| / 2;
    if |s| % 2 == 0 {
      assert RealLeq(s[n - 1], s[n]);
    }
  }

  function Deviation(values: seq<real>, x: real): real {
    if values == [] then 0.0 else Deviation(values[1..], x) + Distance(values[0], x)
  }

  function Distance(a: real, b: real): real {
    if a <= b then b - a else a - b
  }

  lemma {:induction false} DeviationLast(values: seq<real>, x: real)
    requires values != []
    ensures Deviation(values, x) == Deviation(values[..|values| - 1], x) + Distance(values[|values| - 1], x)
  {
    if |values| > 1 {
      DeviationLast(values[1..], x);
      assert values[1..][..|values| - 2] == values[..|values| - 1][1..];
    } else {
      assert values[1..] == [] && values[..0] == [];
    }
  }

  lemma {:induction false} DeviationConcat(a: seq<real>, b: seq<real>, x: real)
    ensures Deviation(a + b, x) == Deviation(a, x) + Deviation(b, x)
  {
    if a == [] {
      assert a + b == b;
    } else {
      assert (a + b)[1..] == a[1..] + b;
      DeviationConcat(a[1..], b, x);
    }
  }

  /** The first of `a` taken out of `a` and out of its rearrangement `b`. */
  lemma TakeOut(a: seq<real>, b: seq<real>) returns (i: nat)
    requires multiset(a) == multiset(b) && a != []
    ensures i < |b| && b[i] == a[0] && multiset(a[1..]) == multiset(b[..i] + b[i + 1..])
  {
    SameElements(a, b);
    assert a[0] in b;
    i :| 0 <= i < |b| && b[i] == a[0];
    assert multiset(a) == multiset{a[0]} + multiset(a[1..]) by {
      assert a == [a[0]] + a[1..];
    }
    assert multiset(b) == multiset(b[..i]) + multiset{b[i]} + multiset(b[i + 1..]) by {
      assert b == b[..i] + [b[i]] + b[i + 1..];
    }
    assert multiset(a[1..]) == multiset(a) - multiset{a[0]};
    assert multiset(b[..i] + b[i + 1..]) == multiset(b) - multiset{a[0]};
  }

  lemma DeviationAt(b: seq<real>, i: nat, x: real)
    requires i < |b|
    ensures Deviation(b, x) == Deviation(b[..i] + b[i + 1..], x) + Distance(b[i], x)
  {
    var tail := [b[i]] + b[i + 1..];
    assert b == b[..i] + tail && tail[1..] == b[i + 1..];
    DeviationConcat(b[..i], tail, x);
    DeviationConcat(b[..i], b[i + 1..], x);
  }

  lemma {:induction false} DeviationPermuted(a: seq<real>, b: seq<real>, x: real)
    requires multiset(a) == multiset(b)
    ensures Deviation(a, x) == Deviation(b, x)
    decreases |a|
  {
    SameElements(a, b);
    if a != [] {
      var i := TakeOut(a, b);
      DeviationPermuted(a[1..], b[..i] + b[i + 1..], x);
      DeviationAt(b, i, x);
    }
  }

  lemma InnerPart(s: seq<real>)
    requires |s| > 2 && Sorted(s, RealLeq)
    ensures Sorted(s[1..|s| - 1], RealLeq)
    ensures forall m :: Central(s, m) <==> Central(s[1..|s| - 1], m)
    ensures forall m :: Central(s, m) ==> s[0] <= m <= s[|s| - 1]
  {
    var t := s[1..|s| - 1];
    var i, j := (|s| - 1) / 2, |s| / 2;
    assert (|t| - 1) / 2 == i - 1 && |t| / 2 == j - 1;
    assert t[i - 1] == s[i] && t[j - 1] == s[j];
    assert RealLeq(s[0], s[i]) && RealLeq(s[j], s[|s| - 1]);
  }

  /** Over sorted values, the sum of distances is least exactly between the middle values. */
  lemma {:induction false} CentralIsLeast(s: seq<real>, m: real, x: real)
    requires s != [] && Sorted(s, RealLeq) && Central(s, m)
    ensures Deviation(s, m) <= Deviation(s, x)
    ensures Deviation(s, m) == Deviation(s, x) <==> Central(s, x)
    decreases |s|
  {
    if |s| == 1 {
      assert s[1..] == [];
    } else {
      Ends(s, m);
      Ends(s, x);
      if |s| > 2 {
        InnerPart(s);
        CentralIsLeast(s[1..|s| - 1], m, x);
      }
    }
  }

  lemma Ends(s: seq<real>, x: real)
    requires |s| >= 2
    ensures Deviation(s, x) == Deviation(s[1..|s| - 1], x) + Distance(s[0], x) + Distance(s[|s| - 1], x)
  {
    DeviationLast(s[1..], x);
    assert s[1..][..|s| - 2] == s[1..|s| - 1];
  }

  /** The median minimises the sum of distances to the values over all real numbers; the
      other minimisers are exactly the numbers between the two middle values. */
  lemma MedianMinimises(values: seq<real>, x: real)
    requires values != []
    ensures Deviation(values, MedianOf(values).value) <= Deviation(values, x)
    ensures Deviation(values, MedianOf(values).value) == Deviation(values, x) <==> Central(Sorting(values), x)
  {
    var s, m := Sorting(values), MedianOf(values).value;
    SortIsSorted(values, RealLeq);
    MiddleIsCentral(s);
    CentralIsLeast(s, m, x);
    DeviationPermuted(values, s, m);
    DeviationPermuted(values, s, x);
  }

  // ---- Half on each side ----

  function AtMost(values: seq<real>, x: real): nat {
    if values == [] then 0 else AtMost(values[1..], x) + if values[0] <= x then 1 else 0
  }

  function AtLeast(values: seq<real>, x: real): nat {
    if values == [] then 0 else AtLeast(values[1..], x) + if values[0] >= x then 1 else 0
  }

  lemma {:induction false} CountConcat(a: seq<real>, b: seq<real>, x: real)
    ensures AtMost(a + b, x) == AtMost(a, x) + AtMost(b, x) && AtLeast(a + b, x) == AtLeast(a, x) + AtLeast(b, x)
  {
    if a == [] {
      assert a + b == b;
    } else {
      assert (a + b)[1..] == a[1..] + b;
      CountConcat(a[1..], b, x);
    }
  }

  lemma CountAt(b: seq<real>, i: nat, x: real)
    requires i < |b|
    ensures AtMost(b, x) == AtMost(b[..i] + b[i + 1..], x) + if b[i] <= x then 1 else 0
    ensures AtLeast(b, x) == AtLeast(b[..i] + b[i + 1..], x) + if b[i] >= x then 1 else 0
  {
    var tail := [b[i]] + b[i + 1..];
    assert b == b[..i] + tail && tail[1..] == b[i + 1..];
    CountConcat(b[..i], tail, x);
    CountConcat(b[..i], b[i + 1..], x);
  }

  lemma {:induction false} CountPermuted(a: seq<real>, b: seq<real>, x: real)
    requires multiset(a) == multiset(b)
    ensures AtMost(a, x) == AtMost(b, x) && AtLeast(a, x) == AtLeast(b, x)
    decreases |a|
  {
    SameElements(a, b);
    if a != [] {
      var i := TakeOut(a, b);
      CountPermuted(a[1..], b[..i] + b[i + 1..], x);
      CountAt(b, i, x);
    }
  }

  lemma {:induction false} AllCounted(s: seq<real>, x: real)
    ensures (forall i :: 0 <= i < |s| ==> s[i] <= x) ==> AtMost(s, x) == |s|
    ensures (forall i :: 0 <= i < |s| ==> s[i] >= x) ==> AtLeast(s, x) == |s|
  {
    if s != [] {
      AllCounted(s[1..], x);
    }
  }

  lemma LowHalf(s: seq<real>, m: real)
    requires s != [] && Sorted(s, RealLeq) && Central(s, m)
    ensures 2 * AtMost(s, m) >= |s|
  {
    var i := (|s| - 1) / 2;
    var low := s[..i + 1];
    forall k | 0 <= k < |low| ensures low[k] <= m {
      assert k < i ==> RealLeq(s[k], s[i]);
    }
    AllCounted(low, m);
    assert s == low + s[i + 1..];
    CountConcat(low, s[i + 1..], m);
  }

  lemma HighHalf(s: seq<real>, m: real)
    requires s != [] && Sorted(s, RealLeq) && Central(s, m)
    ensures 2 * AtLeast(s, m) >= |s|
  {
    var j := |s| / 2;
    var high := s[j..];
    forall k | 0 <= k < |high| ensures high[k] >= m {
      assert k > 0 ==> RealLeq(s[j], s[j + k]);
    }
    AllCounted(high, m);
    assert s == s[..j] + high;
    CountConcat(s[..j], high, m);
  }

  /** At least half of the values are on either side of the median, itself included. */
  lemma HalfOnEachSide(values: seq<real>)
    requires values != []
    ensures var m := MedianOf(values).value; 2 * AtMost(values, m) >= |values| && 2 * AtLeast(values, m) >= |values|
  {
    var s, m := Sorting(values), MedianOf(values).value;
    SortIsSorted(values, RealLeq);
    MiddleIsCentral(s);
    LowHalf(s, m);
    HighHalf(s, m);
    CountPermuted(values, s, m);
  }

  /** The median lies between the least and the greatest value. */
  lemma MedianBetween(values: seq<real>, low: real, high: real)
    requires values != [] && forall v :: v in values ==> low <= v <= high
    ensures low <= MedianOf(values).value <= high
  {
    SortingEnds(values);
    var s := Sorting(values);
    MiddleIsCentral(s);
    var i, j := (|s| - 1) / 2, |s| / 2;
    assert i > 0 ==> RealLeq(s[0], s[i]);
    assert j < |s| - 1 ==> RealLeq(s[j], s[|s| - 1]);
  }

  // ---- The edit benchmark's summary ----

  datatype Pass = Pass(total: real, analysis: Option<real>, publication: Option<real>)

  datatype Question = Question(seconds: real, failed: bool)

  datatype EditSummary = EditSummary(passes: nat, medianTotal: real, fastest: real, slowest: real, withBoundary: nat,
                                     analysis: Option<real>, publication: Option<real>,
                                     analysisShare: Option<real>, publicationShare: Option<real>,
                                     grepSeconds: real, rebuildsPerQuestion: real)

  /** The benchmark's own median of nothing is zero. */
  function MedianOrZero(values: seq<real>): real {
    if values == [] then 0.0 else MedianOf(values).value
  }

  function Totals(passes: seq<Pass>): (r: seq<real>)
    ensures |r| == |passes|
  {
    if passes == [] then [] else Totals(passes[..|passes| - 1]) + [passes[|passes| - 1].total]
  }

  predicate Bounded(pass: Pass) {
    pass.analysis.Some? && pass.publication.Some?
  }

  function Analyses(passes: seq<Pass>): seq<real> {
    if passes == [] then []
    else
      var last := passes[|passes| - 1];
      Analyses(passes[..|passes| - 1]) + if Bounded(last) then [last.analysis.value] else []
  }

  function Publications(passes: seq<Pass>): (r: seq<real>)
    ensures |r| == |Analyses(passes)|
  {
    if passes == [] then []
    else
      var last := passes[|passes| - 1];
      Publications(passes[..|passes| - 1]) + if Bounded(last) then [last.publication.value] else []
  }

  function Answered(questions: seq<Question>): seq<real> {
    if questions == [] then []
    else
      var last := questions[|questions| - 1];
      Answered(questions[..|questions| - 1]) + if last.failed then [] else [last.seconds]
  }

  function ShareOf(part: Option<real>, whole: real): Option<real> {
    if part.Some? && whole > 0.0 then Some(part.value / whole) else None
  }

  /** What the summary of at least one pass says. */
  ghost predicate Summarised(r: EditSummary, passes: seq<Pass>, questions: seq<Question>) {
    && r.passes == |passes| && r.withBoundary == |Analyses(passes)|
    && r.medianTotal == MedianOrZero(Totals(passes))
    && r.fastest in Totals(passes) && r.slowest in Totals(passes)
    && (forall t :: t in Totals(passes) ==> r.fastest <= t <= r.slowest)
    && r.analysis == MedianOf(Analyses(passes)) && r.publication == MedianOf(Publications(passes))
    && r.analysisShare == ShareOf(r.analysis, r.medianTotal)
    && r.publicationShare == ShareOf(r.publication, r.medianTotal)
    && r.grepSeconds == MedianOrZero(Answered(questions))
    && r.rebuildsPerQuestion == (if r.grepSeconds > 0.0 then r.medianTotal / r.grepSeconds else 0.0)
  }

  const EMPTY := EditSummary(0, 0.0, 0.0, 0.0, 0, None, None, None, None, 0.0, 0.0)

  method ArrayOf(values: seq<real>) returns (a: array<real>)
    ensures fresh(a) && a[..] == values
  {
    a := new real[|values|];
    forall i | 0 <= i < |values| {
      a[i] := values[i];
    }
  }

  method MedianSeconds(values: seq<real>) returns (r: real)
    ensures r == MedianOrZero(values)
  {
    var a := ArrayOf(values);
    var m := Median(a);
    r := if m.Ok? then m.value else 0.0;
  }

  method Collect(passes: seq<Pass>) returns (totals: seq<real>, analyses: seq<real>, publications: seq<real>)
    ensures totals == Totals(passes) && analyses == Analyses(passes) && publications == Publications(passes)
  {
    totals, analyses, publications := [], [], [];
    for i := 0 to |passes|
      invariant totals == Totals(passes[..i])
      invariant analyses == Analyses(passes[..i]) && publications == Publications(passes[..i])
    {
      assert passes[..i + 1][..i] == passes[..i];
      var pass := passes[i];
      totals := totals + [pass.total];
      if pass.analysis.Some? && pass.publication.Some? {
        analyses := analyses + [pass.analysis.value];
        publications := publications + [pass.publication.value];
      }
    }
    assert passes[..|passes|] == passes;
  }

  method AnsweredSeconds(questions: seq<Question>) returns (r: seq<real>)
    ensures r == Answered(questions)
  {
    r := [];
    for i := 0 to |questions|
      invariant r == Answered(questions[..i])
    {
      assert questions[..i + 1][..i] == questions[..i];
      if !questions[i].failed {
        r := r + [questions[i].seconds];
      }
    }
    assert questions[..|questions|] == questions;
  }

  method Extremes(totals: seq<real>) returns (fastest: real, slowest: real)
    requires totals != []
    ensures fastest in totals && slowest in totals && forall t :: t in totals ==> fastest <= t <= slowest
  {
    var all := ArrayOf(totals);
    fastest := Minimum(all);
    slowest := Maximum(all);
  }

  /** The split of the passes that reported their boundary. */
  method Boundary(analyses: seq<real>, publications: seq<real>, total: real)
    returns (analysis: Option<real>, publication: Option<real>, analysisShare: Option<real>,
             publicationShare: Option<real>)
    requires |analyses| == |publications|
    ensures analysis == MedianOf(analyses) && publication == MedianOf(publications)
    ensures analysisShare == ShareOf(analysis, total) && publicationShare == ShareOf(publication, total)
  {
    analysis, publication, analysisShare, publicationShare := None, None, None, None;
    if |analyses| > 0 {
      var a := MedianSeconds(analyses);
      var p := MedianSeconds(publications);
      analysis, publication := Some(a), Some(p);
      if total > 0.0 {
        analysisShare, publicationShare := Some(a / total), Some(p / total);
      }
    }
  }

  method GrepArm(questions: seq<Question>, total: real) returns (seconds: real, rebuilds: real)
    ensures seconds == MedianOrZero(Answered(questions))
    ensures rebuilds == if seconds > 0.0 then total / seconds else 0.0
  {
    seconds, rebuilds := 0.0, 0.0;
    var answered := AnsweredSeconds(questions);
    if |answered| > 0 {
      seconds := MedianSeconds(answered);
      if seconds > 0.0 {
        rebuilds := total / seconds;
      }
    }
  }

  method Summarise(passes: seq<Pass>, questions: seq<Question>) returns (r: EditSummary)
    ensures passes == [] ==> r == EMPTY
    ensures passes != [] ==> Summarised(r, passes, questions)
    ensures r.fastest <= r.medianTotal <= r.slowest
  {
    if |passes| == 0 {
      return EMPTY;
    }
    var totals, analyses, publications := Collect(passes);
    var medianTotal := MedianSeconds(totals);
    var fastest, slowest := Extremes(totals);
    MedianBetween(totals, fastest, slowest);
    var analysis, publication, analysisShare, publicationShare := Boundary(analyses, publications, medianTotal);
    var grepSeconds, rebuilds := GrepArm(questions, medianTotal);
    return EditSummary(|passes|, medianTotal, fastest, slowest, |analyses|, analysis, publication,
                       analysisShare, publicationShare, grepSeconds, rebuilds);
  }
}
