/** The build benchmark's summary: medians per arm and ratios between the arms. */
module BuildSummary {
  import opened Medians
  import opened Ordering
  import opened Wrappers

  const GO := "go"
  const BAZEL := "bazel"

  datatype Arm = Arm(name: string, setup: real, dependencies: real, clean: real, total: real, warm: real, edit: real)

  datatype Trial = Trial(index: int, arms: seq<Arm>)

  datatype ArmSummary = ArmSummary(setup: real, dependencies: real, clean: real, total: real, warm: real, edit: real)

  datatype Summary = Summary(go: ArmSummary, bazel: ArmSummary, cleanRatio: real, warmRatio: real, editRatio: real)

  datatype Error = UnknownArm(name: string, trial: int) | DuplicateArm(name: string, trial: int)
    | MissingArm(name: string, trial: int) | EmptyArm | ZeroMedian

  predicate Known(name: string) {
    name == GO || name == BAZEL
  }

  /** Each of the two arms once, in either order, and nothing else. */
  ghost predicate WellFormed(trial: Trial) {
    && (forall i :: 0 <= i < |trial.arms| ==> Known(trial.arms[i].name))
    && (forall i, j :: 0 <= i < j < |trial.arms| ==> trial.arms[i].name != trial.arms[j].name)
    && Has(trial.arms, GO) && Has(trial.arms, BAZEL)
  }

  ghost predicate Has(arms: seq<Arm>, name: string) {
    exists i :: 0 <= i < |arms| && arms[i].name == name
  }

  /** The arms of one name, in order. */
  function Named(arms: seq<Arm>, name: string): seq<Arm> {
    if arms == [] then []
    else
      var last := arms[|arms| - 1];
      Named(arms[..|arms| - 1], name) + if last.name == name then [last] else []
  }

  function AllArms(trials: seq<Trial>): seq<Arm> {
    if trials == [] then [] else AllArms(trials[..|trials| - 1]) + trials[|trials| - 1].arms
  }

  function ArmsOf(trials: seq<Trial>, name: string): seq<Arm> {
    Named(AllArms(trials), name)
  }

  function Column(arms: seq<Arm>, select: Arm -> real): seq<real> {
    seq(|arms|, i requires 0 <= i < |arms| => select(arms[i]))
  }

  /** The median of every column. */
  function MediansOf(arms: seq<Arm>): ArmSummary
    requires arms != []
  {
    ArmSummary(MedianOf(Column(arms, (a: Arm) => a.setup)).value,
               MedianOf(Column(arms, (a: Arm) => a.dependencies)).value,
               MedianOf(Column(arms, (a: Arm) => a.clean)).value, MedianOf(Column(arms, (a: Arm) => a.total)).value,
               MedianOf(Column(arms, (a: Arm) => a.warm)).value, MedianOf(Column(arms, (a: Arm) => a.edit)).value)
  }

  method MedianBy(arms: seq<Arm>, select: Arm -> real) returns (r: real)
    requires arms != []
    ensures r == MedianOf(Column(arms, select)).value
  {
    var values := ArrayOf(Column(arms, select));
    var m := Median(values);
    r := m.value;
  }

  method SummarizeArm(arms: seq<Arm>) returns (r: Result<ArmSummary, Error>)
    ensures r.Err? <==> arms == []
    ensures r.Err? ==> r.error == EmptyArm
    ensures r.Ok? ==> r.value == MediansOf(arms)
  {
    if |arms| == 0 {
      return Err(EmptyArm);
    }
    var setup := MedianBy(arms, (a: Arm) => a.setup);
    var dependencies := MedianBy(arms, (a: Arm) => a.dependencies);
    var clean := MedianBy(arms, (a: Arm) => a.clean);
    var total := MedianBy(arms, (a: Arm) => a.total);
    var warm := MedianBy(arms, (a: Arm) => a.warm);
    var edit := MedianBy(arms, (a: Arm) => a.edit);
    return Ok(ArmSummary(setup, dependencies, clean, total, warm, edit));
  }

  /** Files the arms of one trial under their names, unless they are not exactly the two. */
  method SortArms(trial: Trial, goArms: seq<Arm>, bazelArms: seq<Arm>) returns (r: Result<(seq<Arm>, seq<Arm>), Error>)
    ensures r.Ok? <==> WellFormed(trial)
    ensures r.Ok? ==> r.value == (goArms + Named(trial.arms, GO), bazelArms + Named(trial.arms, BAZEL))
  {
    var seen: set<string> := {};
    var toGo, toBazel := [], [];
    for i := 0 to |trial.arms|
      invariant forall n :: n in seen <==> Has(trial.arms[..i], n)
      invariant forall j :: 0 <= j < i ==> Known(trial.arms[j].name)
      invariant forall j, k :: 0 <= j < k < i ==> trial.arms[j].name != trial.arms[k].name
      invariant toGo == Named(trial.arms[..i], GO) && toBazel == Named(trial.arms[..i], BAZEL)
    {
      var arm := trial.arms[i];
      HasNext(trial.arms, i);
      assert trial.arms[..i + 1][..i] == trial.arms[..i];
      if !Known(arm.name) {
        return Err(UnknownArm(arm.name, trial.index));
      }
      if arm.name in seen {
        return Err(DuplicateArm(arm.name, trial.index));
      }
      seen := seen + {arm.name};
      if arm.name == GO {
        toGo := toGo + [arm];
      } else {
        toBazel := toBazel + [arm];
      }
    }
    assert trial.arms[..|trial.arms|] == trial.arms;
    if GO !in seen {
      return Err(MissingArm(GO, trial.index));
    }
    if BAZEL !in seen {
      return Err(MissingArm(BAZEL, trial.index));
    }
    return Ok((goArms + toGo, bazelArms + toBazel));
  }

  lemma HasNext(arms: seq<Arm>, i: nat)
    requires i < |arms|
    ensures forall n :: Has(arms[..i + 1], n) <==> Has(arms[..i], n) || n == arms[i].name
    ensures Has(arms[..i], arms[i].name) <==> exists j :: 0 <= j < i && arms[j].name == arms[i].name
  {
    forall n ensures Has(arms[..i + 1], n) <==> Has(arms[..i], n) || n == arms[i].name {
      if Has(arms[..i], n) {
        var j :| 0 <= j < i && arms[..i][j].name == n;
        assert arms[..i + 1][j].name == n;
      }
      if n == arms[i].name {
        assert arms[..i + 1][i].name == n;
      }
      if Has(arms[..i + 1], n) {
        var j :| 0 <= j < i + 1 && arms[..i + 1][j].name == n;
        assert j < i ==> arms[..i][j].name == n;
      }
    }
    if j :| 0 <= j < i && arms[j].name == arms[i].name {
      assert arms[..i][j].name == arms[i].name;
    }
  }

  lemma {:induction false} NamedConcat(a: seq<Arm>, b: seq<Arm>, name: string)
    ensures Named(a + b, name) == Named(a, name) + Named(b, name)
  {
    if b == [] {
      assert a + b == a;
    } else {
      var n := |b| - 1;
      assert (a + b)[..|a| + n] == a + b[..n];
      NamedConcat(a, b[..n], name);
    }
  }

  ghost predicate AllWellFormed(trials: seq<Trial>) {
    forall i :: 0 <= i < |trials| ==> WellFormed(trials[i])
  }

  method SortTrials(trials: seq<Trial>) returns (r: Result<(seq<Arm>, seq<Arm>), Error>)
    ensures r.Ok? <==> AllWellFormed(trials)
    ensures r.Ok? ==> r.value == (ArmsOf(trials, GO), ArmsOf(trials, BAZEL))
  {
    var goArms, bazelArms := [], [];
    for i := 0 to |trials|
      invariant AllWellFormed(trials[..i])
      invariant goArms == ArmsOf(trials[..i], GO) && bazelArms == ArmsOf(trials[..i], BAZEL)
    {
      assert trials[..i + 1][..i] == trials[..i];
      NamedConcat(AllArms(trials[..i]), trials[i].arms, GO);
      NamedConcat(AllArms(trials[..i]), trials[i].arms, BAZEL);
      var sorted := SortArms(trials[i], goArms, bazelArms);
      if sorted.Err? {
        return Err(sorted.error);
      }
      goArms, bazelArms := sorted.value.0, sorted.value.1;
    }
    assert trials[..|trials|] == trials;
    return Ok((goArms, bazelArms));
  }

  ghost predicate NonZero(s: ArmSummary) {
    s.clean != 0.0 && s.warm != 0.0 && s.edit != 0.0
  }

  lemma {:induction false} ArmsFound(trials: seq<Trial>, name: string)
    requires AllWellFormed(trials) && Known(name)
    ensures |ArmsOf(trials, name)| == |trials|
  {
    if trials != [] {
      var n := |trials| - 1;
      assert AllWellFormed(trials[..n]);
      ArmsFound(trials[..n], name);
      NamedConcat(AllArms(trials[..n]), trials[n].arms, name);
      OneNamed(trials[n], name);
    }
  }

  lemma {:induction false} NoneNamed(arms: seq<Arm>, name: string)
    requires forall i :: 0 <= i < |arms| ==> arms[i].name != name
    ensures Named(arms, name) == []
  {
    if arms != [] {
      NoneNamed(arms[..|arms| - 1], name);
    }
  }

  /** A well-formed trial has one arm of each name. */
  lemma OneNamed(trial: Trial, name: string)
    requires WellFormed(trial) && Known(name)
    ensures exists i ::
      0 <= i < |trial.arms| && trial.arms[i].name == name && Named(trial.arms, name) == [trial.arms[i]]
  {
    var i :| 0 <= i < |trial.arms| && trial.arms[i].name == name;
    assert trial.arms == trial.arms[..i] + [trial.arms[i]] + trial.arms[i + 1..];
    NamedBetween(trial.arms[..i], trial.arms[i], trial.arms[i + 1..], name);
  }

  lemma NamedBetween(before: seq<Arm>, arm: Arm, after: seq<Arm>, name: string)
    requires arm.name == name
    requires forall i :: 0 <= i < |before| ==> before[i].name != name
    requires forall i :: 0 <= i < |after| ==> after[i].name != name
    ensures Named(before + [arm] + after, name) == [arm]
  {
    NamedConcat(before + [arm], after, name);
    NamedConcat(before, [arm], name);
    NoneNamed(before, name);
    NoneNamed(after, name);
    assert [arm][..0] == [];
  }

  /** A summary exists exactly for at least one trial, each with both arms once, whose Go
      medians are not zero; it is made of medians over all trials. */
  method Summarize(trials: seq<Trial>) returns (r: Result<Summary, Error>)
    ensures r.Ok? <==>
      && trials != [] && AllWellFormed(trials)
      && ArmsOf(trials, GO) != [] && NonZero(MediansOf(ArmsOf(trials, GO)))
    ensures r.Ok? ==> |ArmsOf(trials, GO)| == |ArmsOf(trials, BAZEL)| == |trials|
    ensures r.Ok? ==> r.value.go == MediansOf(ArmsOf(trials, GO)) && r.value.bazel == MediansOf(ArmsOf(trials, BAZEL))
    ensures r.Ok? ==> NonZero(r.value.go) && r.value.cleanRatio == r.value.bazel.clean / r.value.go.clean
                      && r.value.warmRatio == r.value.bazel.warm / r.value.go.warm
                      && r.value.editRatio == r.value.bazel.edit / r.value.go.edit
  {
    var sorted := SortTrials(trials);
    if sorted.Err? {
      return Err(sorted.error);
    }
    var go := SummarizeArm(sorted.value.0);
    var bazel := SummarizeArm(sorted.value.1);
    if go.Err? || bazel.Err? {
      ArmsFound(trials, GO);
      ArmsFound(trials, BAZEL);
      return Err(EmptyArm);
    }
    ArmsFound(trials, GO);
    ArmsFound(trials, BAZEL);
    var g, b := go.value, bazel.value;
    if g.clean == 0.0 || g.warm == 0.0 || g.edit == 0.0 {
      return Err(ZeroMedian);
    }
    return Ok(Summary(g, b, b.clean / g.clean, b.warm / g.warm, b.edit / g.edit));
  }

  /** Every summarised column lies between the least and the greatest measurement. */
  lemma ColumnBetween(arms: seq<Arm>, select: Arm -> real, low: real, high: real)
    requires arms != [] && forall i :: 0 <= i < |arms| ==> low <= select(arms[i]) <= high
    ensures low <= MedianOf(Column(arms, select)).value <= high
  {
    forall v | v in Column(arms, select) ensures low <= v <= high {
      var i :| 0 <= i < |arms| && Column(arms, select)[i] == v;
    }
    MedianBetween(Column(arms, select), low, high);
  }

  /** Which arm of a trial ran first leaves no trace in the summary. */
  lemma {:induction false} ArmOrderIrrelevant(a: seq<Trial>, b: seq<Trial>, name: string)
    requires |a| == |b| && AllWellFormed(a) && AllWellFormed(b) && Known(name)
    requires forall i :: 0 <= i < |a| ==> multiset(a[i].arms) == multiset(b[i].arms)
    ensures ArmsOf(a, name) == ArmsOf(b, name)
  {
    if a != [] {
      var n := |a| - 1;
      assert AllWellFormed(a[..n]) && AllWellFormed(b[..n]);
      ArmOrderIrrelevant(a[..n], b[..n], name);
      NamedConcat(AllArms(a[..n]), a[n].arms, name);
      NamedConcat(AllArms(b[..n]), b[n].arms, name);
      SameNamed(a[n], b[n], name);
    }
  }

  lemma SameNamed(a: Trial, b: Trial, name: string)
    requires WellFormed(a) && WellFormed(b) && Known(name) && multiset(a.arms) == multiset(b.arms)
    ensures Named(a.arms, name) == Named(b.arms, name)
  {
    OneNamed(a, name);
    OneNamed(b, name);
    SameElements(a.arms, b.arms);
    var i :| 0 <= i < |a.arms| && a.arms[i].name == name && Named(a.arms, name) == [a.arms[i]];
    var j :| 0 <= j < |b.arms| && b.arms[j].name == name && Named(b.arms, name) == [b.arms[j]];
    assert a.arms[i] in b.arms;
    var k :| 0 <= k < |b.arms| && b.arms[k] == a.arms[i];
    assert k == j;
  }
}
