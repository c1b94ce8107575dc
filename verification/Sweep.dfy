/** The sweep of the daemon benchmark: which client counts are measured, the line
    fitted to each arm, the truncated step marginals and the crossover. */
module Sweep {
  import opened Ordering
  import opened Wrappers

  // ---- Which counts are measured ----

  /** `strings.Split` on a one-character separator. */
  function Split(value: string, separator: char): (r: seq<string>)
    ensures r != []
  {
    if value == "" then [""]
    else
      var rest := Split(value[1..], separator);
      if value[0] == separator then [""] + rest else [[value[0]] + rest[0]] + rest[1..]
  }

  function Join(fields: seq<string>, separator: char): string
    requires fields != []
  {
    if |fields| == 1 then fields[0] else fields[0] + [separator] + Join(fields[1..], separator)
  }

  /** Splitting loses nothing: the pieces hold no separator and joining them gives the value back. */
  lemma {:induction false} SplitJoin(value: string, separator: char)
    ensures Join(Split(value, separator), separator) == value
    ensures forall i :: 0 <= i < |Split(value, separator)| ==> separator !in Split(value, separator)[i]
  {
    if value != "" {
      var rest := Split(value[1..], separator);
      SplitJoin(value[1..], separator);
      assert value == [value[0]] + value[1..];
      if value[0] == separator {
        assert ([""] + rest)[1..] == rest;
      } else {
        JoinLonger(value[0], rest, separator);
      }
    }
  }

  lemma JoinLonger(c: char, fields: seq<string>, separator: char)
    requires fields != []
    ensures Join([[c] + fields[0]] + fields[1..], separator) == [c] + Join(fields, separator)
  {
    var longer := [[c] + fields[0]] + fields[1..];
    assert longer[1..] == fields[1..];
  }

  function Fields(value: string): seq<string> {
    Split(value, ',')
  }

  datatype SweepError = NotANumber(field: string) | BelowOne(field: string) | NoCounts

  /** The library functions the parser leans on. */
  datatype Text = Text(trim: string -> string, atoi: string -> Option<int>) {

    predicate Blank(field: string) {
      trim(field) == ""
    }

    predicate Names(field: string, count: int) {
      !Blank(field) && atoi(trim(field)) == Some(count) && count >= 1
    }

    /** A field the parser refuses, and why. */
    function Refusal(field: string): Option<SweepError> {
      if Blank(field) then None
      else match atoi(trim(field))
        case None => Some(NotANumber(trim(field)))
        case Some(n) => if n < 1 then Some(BelowOne(trim(field))) else None
    }

    /** Field `i` is the first one refused. */
    ghost predicate RefusesFirst(fields: seq<string>, i: int, error: SweepError) {
      && 0 <= i < |fields|
      && Refusal(fields[i]) == Some(error)
      && forall j :: 0 <= j < i ==> Refusal(fields[j]).None?
    }
  }

  /** Every named count once, in increasing order; the first refused field fails the
      whole sweep, and so does a sweep that names nothing. */
  method ParseClientCounts(value: string, text: Text) returns (r: Result<seq<int>, SweepError>)
    ensures r.Ok? ==>
      && Ascending(r.value) && r.value != []
      && (forall f :: f in Fields(value) ==> text.Refusal(f).None?)
      && (forall n :: n in r.value <==> exists f :: f in Fields(value) && text.Names(f, n))
    ensures r.Err? ==>
      || (exists i :: text.RefusesFirst(Fields(value), i, r.error))
      || (r.error == NoCounts && forall f :: f in Fields(value) ==> text.Blank(f))
  {
    var fields := Fields(value);
    var counts: seq<int> := [];
    for i := 0 to |fields|
      invariant Distinct(counts)
      invariant forall j :: 0 <= j < i ==> text.Refusal(fields[j]).None?
      invariant forall n :: n in counts <==> exists f :: f in fields[..i] && text.Names(f, n)
      invariant counts == [] ==> forall f :: f in fields[..i] ==> text.Blank(f)
    {
      assert fields[..i + 1] == fields[..i] + [fields[i]];
      var trimmed := text.trim(fields[i]);
      if trimmed == "" {
        continue;
      }
      var parsed := text.atoi(trimmed);
      if parsed.None? {
        assert text.RefusesFirst(fields, i, NotANumber(trimmed));
        return Err(NotANumber(trimmed));
      }
      if parsed.value < 1 {
        assert text.RefusesFirst(fields, i, BelowOne(trimmed));
        return Err(BelowOne(trimmed));
      }
      assert text.Names(fields[i], parsed.value);
      if parsed.value !in counts {
        counts := counts + [parsed.value];
      }
    }
    assert fields[..|fields|] == fields;
    SortIsSorted(counts, IntLeq);
    DistinctMultiset(counts, Sort(counts, IntLeq));
    counts := Sort(counts, IntLeq);
    if |counts| == 0 {
      return Err(NoCounts);
    }
    forall i, j | 0 <= i < j < |counts| ensures counts[i] < counts[j] {
      assert IntLeq(counts[i], counts[j]) && counts[i] != counts[j];
    }
    return Ok(counts);
  }

  // ---- Sums ----

  /** The sum of the first `n` products. */
  function DotUpTo(a: seq<real>, b: seq<real>, n: nat): real
    requires n <= |a| && n <= |b|
  {
    if n == 0 then 0.0 else DotUpTo(a, b, n - 1) + a[n - 1] * b[n - 1]
  }

  function TotalUpTo(a: seq<real>, n: nat): real
    requires n <= |a|
  {
    if n == 0 then 0.0 else TotalUpTo(a, n - 1) + a[n - 1]
  }

  function Dot(a: seq<real>, b: seq<real>): real
    requires |a| == |b|
  {
    DotUpTo(a, b, |a|)
  }

  function Total(a: seq<real>): real {
    TotalUpTo(a, |a|)
  }

  /** `k * a[i] + c` at every position. */
  function Affine(k: real, a: seq<real>, c: real): (r: seq<real>)
    ensures |r| == |a| && forall i :: 0 <= i < |a| ==> r[i] == k * a[i] + c
  {
    seq(|a|, i requires 0 <= i < |a| => k * a[i] + c)
  }

  function Plus(a: seq<real>, b: seq<real>): (r: seq<real>)
    requires |a| == |b|
    ensures |r| == |a| && forall i :: 0 <= i < |a| ==> r[i] == a[i] + b[i]
  {
    seq(|a|, i requires 0 <= i < |a| => a[i] + b[i])
  }

  lemma {:induction false} DotSymmetric(a: seq<real>, b: seq<real>, n: nat)
    requires n <= |a| && n <= |b|
    ensures DotUpTo(a, b, n) == DotUpTo(b, a, n)
  {
    if n > 0 { DotSymmetric(a, b, n - 1); }
  }

  lemma {:induction false} DotPlus(a: seq<real>, b: seq<real>, c: seq<real>, n: nat)
    requires |a| == |b| && n <= |a| && n <= |c|
    ensures DotUpTo(Plus(a, b), c, n) == DotUpTo(a, c, n) + DotUpTo(b, c, n)
    ensures TotalUpTo(Plus(a, b), n) == TotalUpTo(a, n) + TotalUpTo(b, n)
  {
    if n > 0 {
      DotPlus(a, b, c, n - 1);
      assert (a[n - 1] + b[n - 1]) * c[n - 1] == a[n - 1] * c[n - 1] + b[n - 1] * c[n - 1];
    }
  }

  /** The sums a line fit needs, for `a` against `c`. They are named so that products are
      taken of plain numbers. */
  datatype Sums = Sums(count: real, a: real, c: real, ac: real) {
    function Add(x: real, y: real): Sums {
      Sums(count + 1.0, a + x, c + y, ac + x * y)
    }
  }

  const NO_SUMS := Sums(0.0, 0.0, 0.0, 0.0)

  /** `m` are the sums of `k * a + e` where `s` are those of `a`. */
  ghost predicate Scaled(k: real, e: real, s: Sums, m: Sums) {
    m.ac == k * s.ac + e * s.c && m.a == k * s.a + s.count * e
  }

  lemma AffineStart(k: real, e: real)
    ensures Scaled(k, e, NO_SUMS, NO_SUMS)
  {}

  ghost predicate SumsUpTo(s: Sums, a: seq<real>, c: seq<real>, n: nat)
    requires n <= |a| && n <= |c|
  {
    s.count == n as real && s.a == TotalUpTo(a, n) && s.c == TotalUpTo(c, n) && s.ac == DotUpTo(a, c, n)
  }

  lemma {:induction false} DotAffine(k: real, a: seq<real>, e: real, c: seq<real>, n: nat) returns (s: Sums, m: Sums)
    requires n <= |a| && n <= |c|
    ensures SumsUpTo(s, a, c, n) && SumsUpTo(m, Affine(k, a, e), c, n)
    ensures Scaled(k, e, s, m)
  {
    if n == 0 {
      s, m := NO_SUMS, NO_SUMS;
      AffineStart(k, e);
    } else {
      var t, u := DotAffine(k, a, e, c, n - 1);
      var x, y, z := a[n - 1], c[n - 1], Affine(k, a, e)[n - 1];
      s, m := t.Add(x, y), u.Add(z, y);
      AffineStep(k, e, x, y, z, t, u);
    }
  }

  lemma AffineStep(k: real, e: real, x: real, y: real, z: real, t: Sums, u: Sums)
    requires z == k * x + e
    requires Scaled(k, e, t, u)
    ensures Scaled(k, e, t.Add(x, y), u.Add(z, y))
  {
    assert z * y == (k * x + e) * y;
    Distribute(k, e, x, y, t.ac, t.c);
    assert k * (t.a + x) == k * t.a + k * x;
    assert (t.count + 1.0) * e == t.count * e + e;
  }

  lemma Distribute(k: real, e: real, x: real, y: real, dot: real, total: real)
    ensures k * dot + e * total + (k * x + e) * y == k * (dot + x * y) + e * (total + y)
  {
    assert (k * x + e) * y == k * (x * y) + e * y;
    assert k * (dot + x * y) == k * dot + k * (x * y);
  }

  lemma SquareSign(x: real)
    ensures x * x >= 0.0 && (x * x == 0.0 <==> x == 0.0)
  {
    if x < 0.0 {
      assert (-x) * (-x) == x * x;
      PositiveProduct(-x, -x);
    } else if x > 0.0 {
      PositiveProduct(x, x);
    }
  }

  lemma PositiveProduct(n: real, x: real)
    requires n > 0.0 && x >= 0.0
    ensures n * x >= 0.0 && (n * x == 0.0 <==> x == 0.0)
  {}

  lemma Cancel(n: real, a: real, b: real)
    requires n > 0.0 && n * a == n * b
    ensures a == b
  {}

  ghost predicate ZeroUpTo(a: seq<real>, n: nat)
    requires n <= |a|
  {
    forall i :: 0 <= i < n ==> a[i] == 0.0
  }

  lemma {:induction false} DotSelf(a: seq<real>, n: nat)
    requires n <= |a|
    ensures DotUpTo(a, a, n) >= 0.0
    ensures DotUpTo(a, a, n) == 0.0 <==> ZeroUpTo(a, n)
  {
    if n > 0 {
      DotSelf(a, n - 1);
      SquareSign(a[n - 1]);
    }
  }

  // ---- The fit ----

  ghost predicate AllEqual(xs: seq<real>) {
    forall i, j :: 0 <= i < |xs| && 0 <= j < |xs| ==> xs[i] == xs[j]
  }

  /** `y + k * x + c` at every point. */
  ghost function Gap(xs: seq<real>, ys: seq<real>, k: real, c: real): seq<real>
    requires |xs| == |ys|
  {
    Plus(ys, Affine(k, xs, c))
  }

  /** What the line `slope * x + intercept` leaves of each y. */
  ghost function Residuals(xs: seq<real>, ys: seq<real>, slope: real, intercept: real): seq<real>
    requires |xs| == |ys|
  {
    Gap(xs, ys, -slope, -intercept)
  }

  ghost function SquaredError(xs: seq<real>, ys: seq<real>, slope: real, intercept: real): real
    requires |xs| == |ys|
  {
    Dot(Residuals(xs, ys, slope, intercept), Residuals(xs, ys, slope, intercept))
  }

  /** No line leaves a smaller squared error. */
  ghost predicate Optimal(xs: seq<real>, ys: seq<real>, slope: real, intercept: real)
    requires |xs| == |ys|
  {
    forall m, b :: SquaredError(xs, ys, slope, intercept) <= SquaredError(xs, ys, m, b)
  }

  /** The gaps sum to zero, plain and weighted by x. */
  ghost predicate Balanced(xs: seq<real>, ys: seq<real>, k: real, c: real)
    requires |xs| == |ys|
  {
    Total(Gap(xs, ys, k, c)) == 0.0 && Dot(Gap(xs, ys, k, c), xs) == 0.0
  }

  /** `s` are the sums of the xs against the ys, `t` those of the xs against the gaps. */
  ghost predicate Tilted(k: real, c: real, s: Sums, sxx: real, t: Sums) {
    && t.count == s.count && t.a == s.a
    && t.c == s.c + (k * s.a + s.count * c)
    && t.ac == s.ac + (k * sxx + c * s.a)
  }

  lemma GapSums(xs: seq<real>, ys: seq<real>, k: real, c: real) returns (s: Sums, sxx: real, t: Sums)
    requires |xs| == |ys|
    ensures SumsUpTo(s, xs, ys, |xs|) && sxx == Dot(xs, xs) && SumsUpTo(t, xs, Gap(xs, ys, k, c), |xs|)
    ensures Tilted(k, c, s, sxx, t)
  {
    var line := Affine(k, xs, c);
    DotPlus(ys, line, xs, |xs|);
    DotSymmetric(ys, xs, |xs|);
    DotSymmetric(Gap(xs, ys, k, c), xs, |xs|);
    var own, m := DotAffine(k, xs, c, xs, |xs|);
    s := Sums(own.count, own.a, Total(ys), Dot(xs, ys));
    sxx := own.ac;
    t := Sums(own.count, own.a, s.c + m.a, s.ac + m.ac);
    TiltFrom(k, c, s, own, m, t);
  }

  lemma TiltFrom(k: real, c: real, s: Sums, own: Sums, m: Sums, t: Sums)
    requires Scaled(k, c, own, m) && own.a == own.c && s.count == own.count && s.a == own.a
    requires t == Sums(own.count, own.a, s.c + m.a, s.ac + m.ac)
    ensures Tilted(k, c, s, own.ac, t)
  {}

  /** Away from balanced gaps, every move of the line adds the squares of the move. */
  lemma ErrorMoves(xs: seq<real>, ys: seq<real>, k: real, c: real, d: real, e: real)
    requires |xs| == |ys| && Balanced(xs, ys, k, c)
    ensures Dot(Gap(xs, ys, k + d, c + e), Gap(xs, ys, k + d, c + e)) ==
            Dot(Gap(xs, ys, k, c), Gap(xs, ys, k, c)) + Dot(Affine(d, xs, e), Affine(d, xs, e))
  {
    var n := |xs|;
    var r, move, moved := Gap(xs, ys, k, c), Affine(d, xs, e), Gap(xs, ys, k + d, c + e);
    forall i | 0 <= i < n ensures moved[i] == r[i] + move[i] {
      assert (k + d) * xs[i] == k * xs[i] + d * xs[i];
    }
    assert moved == Plus(r, move);
    NoCross(xs, r, d, e);
    DotPlus(r, move, moved, n);
    DotPlus(r, move, r, n);
    DotPlus(r, move, move, n);
    DotSymmetric(r, moved, n);
    DotSymmetric(move, moved, n);
    DotSymmetric(r, move, n);
  }

  lemma NoCross(xs: seq<real>, r: seq<real>, d: real, e: real)
    requires |r| == |xs| && Total(r) == 0.0 && Dot(r, xs) == 0.0
    ensures Dot(Affine(d, xs, e), r) == 0.0
  {
    DotSymmetric(xs, r, |xs|);
    var s, m := DotAffine(d, xs, e, r, |xs|);
    assert m.ac == d * 0.0 + e * 0.0;
  }

  lemma BalancedIsOptimal(xs: seq<real>, ys: seq<real>, slope: real, intercept: real)
    requires |xs| == |ys| && Balanced(xs, ys, -slope, -intercept)
    ensures Optimal(xs, ys, slope, intercept)
  {
    forall m, b ensures SquaredError(xs, ys, slope, intercept) <= SquaredError(xs, ys, m, b) {
      NoBetterLine(xs, ys, slope, intercept, m, b);
    }
  }

  lemma NoBetterLine(xs: seq<real>, ys: seq<real>, slope: real, intercept: real, m: real, b: real)
    requires |xs| == |ys| && Balanced(xs, ys, -slope, -intercept)
    ensures SquaredError(xs, ys, slope, intercept) <= SquaredError(xs, ys, m, b)
  {
    var d, e := slope - m, intercept - b;
    ErrorMoves(xs, ys, -slope, -intercept, d, e);
    DotSelf(Affine(d, xs, e), |xs|);
    assert -slope + d == -m && -intercept + e == -b;
  }

  /** When the xs are not all equal only one line is optimal. */
  lemma OptimalUnique(xs: seq<real>, ys: seq<real>, slope: real, intercept: real, m: real, b: real)
    requires |xs| == |ys| && !AllEqual(xs)
    requires Balanced(xs, ys, -slope, -intercept) && Optimal(xs, ys, m, b)
    ensures m == slope && b == intercept
  {
    var d, e := slope - m, intercept - b;
    var move := Affine(d, xs, e);
    assert Dot(move, move) <= 0.0 by {
      ErrorMoves(xs, ys, -slope, -intercept, d, e);
      assert -slope + d == -m && -intercept + e == -b;
      assert SquaredError(xs, ys, m, b) <= SquaredError(xs, ys, slope, intercept);
    }
    DotSelf(move, |xs|);
    NoMove(xs, d, e);
  }

  lemma NoMove(xs: seq<real>, d: real, e: real)
    requires !AllEqual(xs) && ZeroUpTo(Affine(d, xs, e), |xs|)
    ensures d == 0.0 && e == 0.0
  {
    var i, j :| 0 <= i < |xs| && 0 <= j < |xs| && xs[i] != xs[j];
    var x, y := xs[i], xs[j];
    assert d * x + e == Affine(d, xs, e)[i] && d * y + e == Affine(d, xs, e)[j];
    SameLine(d, e, x, y);
  }

  lemma SameLine(d: real, e: real, x: real, y: real)
    requires d * x + e == 0.0 && d * y + e == 0.0 && x != y
    ensures d == 0.0 && e == 0.0
  {
    assert d * (x - y) == d * x - d * y;
    if x > y { Cancel(x - y, d, 0.0); } else {
      assert d * (y - x) == d * y - d * x;
      Cancel(y - x, d, 0.0);
    }
  }

  /** `count * sumXX - sumX * sumX`. */
  function Denominator(count: real, sumX: real, sumXX: real): real {
    count * sumXX - sumX * sumX
  }

  ghost function DenominatorOf(xs: seq<real>): real {
    Denominator(|xs| as real, Total(xs), Dot(xs, xs))
  }

  /** The denominator is the count times the spread of the xs around their mean. */
  lemma DenominatorIsSpread(xs: seq<real>, mean: real)
    requires xs != [] && mean == Total(xs) / |xs| as real
    ensures DenominatorOf(xs) == |xs| as real * Dot(Affine(1.0, xs, -mean), Affine(1.0, xs, -mean))
  {
    var centred := Affine(1.0, xs, -mean);
    var s, m := DotAffine(1.0, xs, -mean, xs, |xs|);
    var t, q := DotAffine(1.0, xs, -mean, centred, |xs|);
    DotSymmetric(xs, centred, |xs|);
    CentredSpread(s.count, s.a, s.ac, mean, q.ac, m.ac, m.a);
    assert DenominatorOf(xs) == Denominator(s.count, s.a, s.ac);
  }

  lemma CentredSpread(n: real, sx: real, xx: real, mean: real, spread: real, cross: real, total: real)
    requires n > 0.0 && mean == sx / n
    requires total == 1.0 * sx + n * (-mean)
    requires cross == 1.0 * xx + (-mean) * sx
    requires spread == 1.0 * cross + (-mean) * total
    ensures n * mean == sx
    ensures Denominator(n, sx, xx) == n * spread
  {
    assert n * mean == sx;
    assert n * (-mean) == -(n * mean);
    assert total == 0.0;
    assert spread == xx - mean * sx;
    assert n * spread == n * xx - n * (mean * sx);
    assert n * (mean * sx) == (n * mean) * sx;
  }

  /** The denominator is never negative and vanishes exactly when all xs are equal. */
  lemma DenominatorSign(xs: seq<real>)
    requires xs != []
    ensures DenominatorOf(xs) >= 0.0
    ensures DenominatorOf(xs) == 0.0 <==> AllEqual(xs)
  {
    var mean := Total(xs) / |xs| as real;
    var centred := Affine(1.0, xs, -mean);
    DenominatorIsSpread(xs, mean);
    DotSelf(centred, |xs|);
    PositiveProduct(|xs| as real, Dot(centred, centred));
    CentredZero(xs, mean);
  }

  lemma CentredZero(xs: seq<real>, mean: real)
    requires xs != [] && |xs| as real * mean == Total(xs)
    ensures ZeroUpTo(Affine(1.0, xs, -mean), |xs|) <==> AllEqual(xs)
  {
    if AllEqual(xs) {
      var s, m := DotAffine(0.0, xs, xs[0], xs, |xs|);
      assert Affine(0.0, xs, xs[0]) == xs;
      assert m.a == 0.0 * s.a + s.count * xs[0];
      Cancel(s.count, mean, xs[0]);
    }
    assert forall i :: 0 <= i < |xs| ==> xs[i] == Affine(1.0, xs, -mean)[i] + mean;
  }

  /** The closed form of the slope, zero where a single x leaves it open. */
  function LineSlope(count: real, sumX: real, sumY: real, sumXY: real, sumXX: real): real {
    var denominator := Denominator(count, sumX, sumXX);
    if denominator == 0.0 then 0.0 else (count * sumXY - sumX * sumY) / denominator
  }

  function LineIntercept(count: real, sumX: real, sumY: real, slope: real): real
    requires count > 0.0
  {
    (sumY - slope * sumX) / count
  }

  lemma FitSolves(s: Sums, sxx: real, t: Sums, slope: real, intercept: real)
    requires s.count > 0.0 && Denominator(s.count, s.a, sxx) != 0.0
    requires slope == LineSlope(s.count, s.a, s.c, s.ac, sxx) && intercept == LineIntercept(s.count, s.a, s.c, slope)
    requires Tilted(-slope, -intercept, s, sxx, t)
    ensures t.c == 0.0 && t.ac == 0.0
  {
    var n, sx, sy, sxy := s.count, s.a, s.c, s.ac;
    var den := n * sxx - sx * sx;
    assert slope * den == n * sxy - sx * sy;
    assert n * intercept == sy - slope * sx;
    Residue(n, sx, sy, sxy, sxx, slope, intercept, den);
    Signs(sx, sy, sxy, sxx, n, slope, intercept);
  }

  lemma Signs(sx: real, sy: real, sxy: real, sxx: real, n: real, slope: real, intercept: real)
    ensures sy + ((-slope) * sx + n * (-intercept)) == sy - slope * sx - n * intercept
    ensures sxy + ((-slope) * sxx + (-intercept) * sx) == sxy - slope * sxx - intercept * sx
  {}

  lemma Residue(n: real, sx: real, sy: real, sxy: real, sxx: real, slope: real, intercept: real, den: real)
    requires n > 0.0 && den == n * sxx - sx * sx
    requires slope * den == n * sxy - sx * sy && n * intercept == sy - slope * sx
    ensures sxy - slope * sxx - intercept * sx == 0.0
  {
    var rest := sxy - slope * sxx - intercept * sx;
    assert n * rest == n * sxy - n * (slope * sxx) - n * (intercept * sx);
    assert n * (intercept * sx) == (n * intercept) * sx;
    assert (sy - slope * sx) * sx == sx * sy - slope * (sx * sx);
    assert slope * den == slope * (n * sxx) - slope * (sx * sx);
    assert n * (slope * sxx) == slope * (n * sxx);
    assert n * rest == n * 0.0;
    Cancel(n, rest, 0.0);
  }

  lemma FlatSolves(xs: seq<real>, ys: seq<real>, b: real)
    requires |xs| == |ys| && xs != [] && AllEqual(xs) && b == Total(ys) / |xs| as real
    ensures Balanced(xs, ys, 0.0, -b)
  {
    var c, r := xs[0], Gap(xs, ys, 0.0, -b);
    var s, sxx, u := GapSums(xs, ys, 0.0, -b);
    assert s.count * b == s.c;
    assert s.count * (-b) == -(s.count * b);
    assert u.c == s.c + (0.0 * s.a + s.count * (-b));
    assert Total(r) == u.c == 0.0;
    assert Affine(0.0, xs, c) == xs;
    var t, m := DotAffine(0.0, xs, c, r, |xs|);
    DotSymmetric(xs, r, |xs|);
    assert m.ac == 0.0 * t.ac + c * 0.0;
  }

  ghost function SlopeOf(xs: seq<real>, ys: seq<real>): real
    requires |xs| == |ys|
  {
    LineSlope(|xs| as real, Total(xs), Total(ys), Dot(xs, ys), Dot(xs, xs))
  }

  ghost function InterceptOf(xs: seq<real>, ys: seq<real>): real
    requires |xs| == |ys| && xs != []
  {
    LineIntercept(|xs| as real, Total(xs), Total(ys), SlopeOf(xs, ys))
  }

  lemma FitFrom(xs: seq<real>, ys: seq<real>, s: Sums, sxx: real)
    requires |xs| == |ys| && xs != [] && SumsUpTo(s, xs, ys, |xs|) && sxx == Dot(xs, xs)
    ensures DenominatorOf(xs) == Denominator(s.count, s.a, sxx)
    ensures SlopeOf(xs, ys) == LineSlope(s.count, s.a, s.c, s.ac, sxx)
    ensures InterceptOf(xs, ys) == LineIntercept(s.count, s.a, s.c, SlopeOf(xs, ys))
  {}

  lemma SlopedIsBalanced(xs: seq<real>, ys: seq<real>)
    requires |xs| == |ys| && xs != [] && DenominatorOf(xs) != 0.0
    ensures Balanced(xs, ys, -SlopeOf(xs, ys), -InterceptOf(xs, ys))
  {
    var slope, intercept := SlopeOf(xs, ys), InterceptOf(xs, ys);
    var s, sxx, t := GapSums(xs, ys, -slope, -intercept);
    FitFrom(xs, ys, s, sxx);
    FitSolves(s, sxx, t, slope, intercept);
    DotSymmetric(Gap(xs, ys, -slope, -intercept), xs, |xs|);
  }

  lemma FlatIsBalanced(xs: seq<real>, ys: seq<real>)
    requires |xs| == |ys| && xs != [] && DenominatorOf(xs) == 0.0
    ensures SlopeOf(xs, ys) == 0.0 && InterceptOf(xs, ys) == Total(ys) / |xs| as real
    ensures Balanced(xs, ys, -SlopeOf(xs, ys), -InterceptOf(xs, ys))
  {
    DenominatorSign(xs);
    NoSlope(Total(ys), Total(xs), |xs| as real);
    FlatSolves(xs, ys, InterceptOf(xs, ys));
  }

  lemma NoSlope(sumY: real, sumX: real, count: real)
    requires count > 0.0
    ensures LineIntercept(count, sumX, sumY, 0.0) == sumY / count
  {
    assert 0.0 * sumX == 0.0;
  }

  /** The fitted line is optimal whatever the data, the fallback included. */
  lemma FitIsOptimal(xs: seq<real>, ys: seq<real>)
    requires |xs| == |ys| && xs != []
    ensures Optimal(xs, ys, SlopeOf(xs, ys), InterceptOf(xs, ys))
    ensures AllEqual(xs) ==> SlopeOf(xs, ys) == 0.0
  {
    if DenominatorOf(xs) == 0.0 {
      FlatIsBalanced(xs, ys);
    } else {
      SlopedIsBalanced(xs, ys);
      DenominatorSign(xs);
    }
    BalancedIsOptimal(xs, ys, SlopeOf(xs, ys), InterceptOf(xs, ys));
  }

  /** When the xs are not all equal every optimal line is the fitted one. */
  lemma FitIsUnique(xs: seq<real>, ys: seq<real>, m: real, b: real)
    requires |xs| == |ys| && xs != [] && !AllEqual(xs) && Optimal(xs, ys, m, b)
    ensures m == SlopeOf(xs, ys) && b == InterceptOf(xs, ys)
  {
    DenominatorSign(xs);
    SlopedIsBalanced(xs, ys);
    OptimalUnique(xs, ys, SlopeOf(xs, ys), InterceptOf(xs, ys), m, b);
  }

  method LeastSquares(xs: seq<real>, ys: seq<real>) returns (slope: real, intercept: real)
    requires |xs| == |ys| && xs != []
    ensures slope == SlopeOf(xs, ys) && intercept == InterceptOf(xs, ys)
  {
    var count := |xs| as real;
    var sumX, sumY, sumXY, sumXX := 0.0, 0.0, 0.0, 0.0;
    for index := 0 to |xs|
      invariant sumX == TotalUpTo(xs, index) && sumY == TotalUpTo(ys, index)
      invariant sumXY == DotUpTo(xs, ys, index) && sumXX == DotUpTo(xs, xs, index)
    {
      sumX := sumX + xs[index];
      sumY := sumY + ys[index];
      sumXY := sumXY + xs[index] * ys[index];
      sumXX := sumXX + xs[index] * xs[index];
    }
    slope, intercept := Solve(count, sumX, sumY, sumXY, sumXX);
  }

  /** The tail of `leastSquares`, once the sums are known. */
  method Solve(count: real, sumX: real, sumY: real, sumXY: real, sumXX: real) returns (slope: real, intercept: real)
    requires count > 0.0
    ensures slope == LineSlope(count, sumX, sumY, sumXY, sumXX)
    ensures intercept == LineIntercept(count, sumX, sumY, slope)
  {
    var denominator := count * sumXX - sumX * sumX;
    if denominator == 0.0 {
      NoSlope(sumY, sumX, count);
      return 0.0, sumY / count;
    }
    slope := (count * sumXY - sumX * sumY) / denominator;
    intercept := (sumY - slope * sumX) / count;
  }

  // ---- The fitted slope and the steps ----

  /** `count * sum(ac) - sum(a) * sum(c)`: the slope's numerator when `c` holds the ys. */
  ghost function Covariance(s: Sums): real {
    s.count * s.ac - s.a * s.c
  }

  /** How one more pair co-varies with all earlier ones. */
  ghost function Cross(s: Sums, x: real, y: real): real {
    s.count * (x * y) - x * s.c - y * s.a + s.ac
  }

  lemma CovarianceStep(s: Sums, x: real, y: real)
    ensures Covariance(s.Add(x, y)) == Covariance(s) + Cross(s, x, y)
  {
    assert (s.count + 1.0) * (s.ac + x * y) == s.count * s.ac + s.count * (x * y) + s.ac + x * y;
    assert (s.a + x) * (s.c + y) == s.a * s.c + x * s.c + y * s.a + x * y;
  }

  lemma CrossStep(s: Sums, x: real, y: real, u: real, v: real, product: real)
    requires product == (x - u) * (y - v)
    ensures Cross(s.Add(u, v), x, y) == Cross(s, x, y) + product
  {
    assert product == x * y - x * v - y * u + u * v;
    assert (s.count + 1.0) * (x * y) == s.count * (x * y) + x * y;
    assert x * (s.c + v) == x * s.c + x * v;
    assert y * (s.a + u) == y * s.a + y * u;
  }

  lemma CrossGrows(s: Sums, x: real, y: real, u: real, v: real)
    requires Cross(s, x, y) >= 0.0 && u < x && v <= y
    ensures Cross(s.Add(u, v), x, y) >= 0.0 && (v < y ==> Cross(s.Add(u, v), x, y) > 0.0)
  {
    var a, b := x - u, y - v;
    var product := a * b;
    PositiveProduct(a, b);
    CrossStep(s, x, y, u, v, product);
  }

  lemma CrossStart(x: real, y: real)
    ensures Cross(NO_SUMS, x, y) == 0.0
  {
    assert 0.0 * (x * y) == 0.0;
  }

  ghost predicate Below(a: seq<real>, n: nat, top: real, strictly: bool)
    requires n <= |a|
  {
    forall i :: 0 <= i < n ==> a[i] <= top && (strictly ==> a[i] < top)
  }

  ghost predicate Rising(a: seq<real>, strictly: bool) {
    forall i, j :: 0 <= i < j < |a| ==> a[i] <= a[j] && (strictly ==> a[i] < a[j])
  }

  lemma {:induction false} CrossSign(a: seq<real>, c: seq<real>, n: nat, x: real, y: real, strictly: bool)
    returns (s: Sums)
    requires n <= |a| && n <= |c|
    requires Below(a, n, x, true) && Below(c, n, y, strictly)
    ensures SumsUpTo(s, a, c, n)
    ensures Cross(s, x, y) >= 0.0 && (strictly && n > 0 ==> Cross(s, x, y) > 0.0)
  {
    if n == 0 {
      s := NO_SUMS;
      CrossStart(x, y);
    } else {
      var t := CrossSign(a, c, n - 1, x, y, strictly);
      s := t.Add(a[n - 1], c[n - 1]);
      CrossGrows(t, x, y, a[n - 1], c[n - 1]);
    }
  }

  /** Chebyshev's sum inequality, strict for two or more strictly rising pairs. */
  lemma {:induction false} CovarianceSign(a: seq<real>, c: seq<real>, n: nat, strictly: bool) returns (s: Sums)
    requires n <= |a| == |c| && Rising(a, true) && Rising(c, strictly)
    ensures SumsUpTo(s, a, c, n)
    ensures Covariance(s) >= 0.0 && (strictly && n > 1 ==> Covariance(s) > 0.0)
  {
    if n == 0 {
      s := NO_SUMS;
    } else {
      var t := CovarianceSign(a, c, n - 1, strictly);
      var u := CrossSign(a, c, n - 1, a[n - 1], c[n - 1], strictly);
      assert t == u;
      s := t.Add(a[n - 1], c[n - 1]);
      CovarianceStep(t, a[n - 1], c[n - 1]);
    }
  }

  /** Every step climbs at least `floor` per unit of x. */
  ghost predicate StepsAtLeast(xs: seq<real>, ys: seq<real>, floor: real, strictly: bool)
    requires |xs| == |ys|
  {
    forall i :: 0 < i < |xs| ==> StepAtLeast(xs[i - 1], ys[i - 1], xs[i], ys[i], floor, strictly)
  }

  ghost predicate StepAtLeast(x: real, y: real, u: real, v: real, floor: real, strictly: bool) {
    floor * (u - x) <= v - y && (strictly ==> floor * (u - x) < v - y)
  }

  lemma {:induction false} Detrended(xs: seq<real>, ys: seq<real>, floor: real, strictly: bool, i: nat, j: nat)
    requires |xs| == |ys| && i < j < |xs|
    requires StepsAtLeast(xs, ys, floor, strictly)
    ensures var f := Gap(xs, ys, -floor, 0.0); f[i] <= f[j] && (strictly ==> f[i] < f[j])
  {
    var f := Gap(xs, ys, -floor, 0.0);
    assert StepAtLeast(xs[j - 1], ys[j - 1], xs[j], ys[j], floor, strictly);
    OneStep(xs[j - 1], ys[j - 1], xs[j], ys[j], floor);
    assert f[j - 1] == ys[j - 1] + ((-floor) * xs[j - 1] + 0.0) && f[j] == ys[j] + ((-floor) * xs[j] + 0.0);
    if i < j - 1 { Detrended(xs, ys, floor, strictly, i, j - 1); }
  }

  lemma OneStep(x: real, y: real, u: real, v: real, floor: real)
    ensures (v + ((-floor) * u + 0.0)) - (y + ((-floor) * x + 0.0)) == (v - y) - floor * (u - x)
  {}

  /** The numerator of the slope exceeds `floor` times its denominator. */
  ghost predicate Exceeds(s: Sums, sxx: real, floor: real, strictly: bool) {
    var excess := Covariance(s) - floor * Denominator(s.count, s.a, sxx);
    excess >= 0.0 && (strictly ==> excess > 0.0)
  }

  /** Taking `floor` per unit of x off the ys takes it off the numerator. */
  lemma DetrendedCovariance(s: Sums, sxx: real, t: Sums, floor: real, strictly: bool)
    requires Tilted(-floor, 0.0, s, sxx, t)
    requires Covariance(t) >= 0.0 && (strictly ==> Covariance(t) > 0.0)
    ensures Exceeds(s, sxx, floor, strictly)
  {
    var n, sx := s.count, s.a;
    assert t.c == s.c - floor * sx;
    assert t.ac == s.ac - floor * sxx;
    assert n * t.ac == n * s.ac - floor * (n * sxx);
    assert sx * t.c == sx * s.c - floor * (sx * sx);
    assert floor * (n * sxx - sx * sx) == floor * (n * sxx) - floor * (sx * sx);
  }

  lemma SignOfFactor(z: real, positive: real)
    requires positive > 0.0
    ensures z * positive >= 0.0 ==> z >= 0.0
    ensures z * positive > 0.0 ==> z > 0.0
  {
    if z < 0.0 {
      PositiveProduct(positive, -z);
      assert positive * (-z) == -(z * positive);
    }
  }

  lemma QuotientAtLeast(numerator: real, denominator: real, floor: real)
    requires denominator > 0.0 && numerator - floor * denominator >= 0.0
    ensures numerator / denominator >= floor
    ensures numerator - floor * denominator > 0.0 ==> numerator / denominator > floor
  {
    var q := numerator / denominator;
    assert q * denominator == numerator;
    assert (q - floor) * denominator == numerator - floor * denominator;
    SignOfFactor(q - floor, denominator);
  }

  lemma SlopeExceeds(s: Sums, sxx: real, floor: real, strictly: bool)
    requires Exceeds(s, sxx, floor, strictly) && Denominator(s.count, s.a, sxx) > 0.0
    ensures LineSlope(s.count, s.a, s.c, s.ac, sxx) >= floor
    ensures strictly ==> LineSlope(s.count, s.a, s.c, s.ac, sxx) > floor
  {
    QuotientAtLeast(Covariance(s), Denominator(s.count, s.a, sxx), floor);
  }

  /** The fitted slope is no flatter than the flattest step. */
  lemma SlopeAtLeast(xs: seq<real>, ys: seq<real>, floor: real, strictly: bool)
    requires |xs| == |ys| && |xs| > 1 && Rising(xs, true)
    requires StepsAtLeast(xs, ys, floor, strictly)
    ensures SlopeOf(xs, ys) >= floor && (strictly ==> SlopeOf(xs, ys) > floor)
  {
    var f := Gap(xs, ys, -floor, 0.0);
    forall i, j | 0 <= i < j < |f| ensures f[i] <= f[j] && (strictly ==> f[i] < f[j]) {
      Detrended(xs, ys, floor, strictly, i, j);
    }
    assert Rising(f, strictly);
    var u := CovarianceSign(xs, f, |xs|, strictly);
    var s, sxx, t := GapSums(xs, ys, -floor, 0.0);
    assert t == u;
    DetrendedCovariance(s, sxx, t, floor, strictly);
    DenominatorSign(xs);
    assert xs[0] < xs[1];
    FitFrom(xs, ys, s, sxx);
    SlopeExceeds(s, sxx, floor, strictly);
  }

  ghost predicate StepsAtMost(xs: seq<real>, ys: seq<real>, ceiling: real, strictly: bool)
    requires |xs| == |ys|
  {
    forall i :: 0 < i < |xs| ==> StepAtLeast(xs[i - 1], -ys[i - 1], xs[i], -ys[i], -ceiling, strictly)
  }

  /** And no steeper than the steepest. */
  lemma SlopeAtMost(xs: seq<real>, ys: seq<real>, ceiling: real, strictly: bool)
    requires |xs| == |ys| && |xs| > 1 && Rising(xs, true)
    requires StepsAtMost(xs, ys, ceiling, strictly)
    ensures SlopeOf(xs, ys) <= ceiling && (strictly ==> SlopeOf(xs, ys) < ceiling)
  {
    var zs := Affine(-1.0, ys, 0.0);
    forall i | 0 < i < |xs| ensures StepAtLeast(xs[i - 1], zs[i - 1], xs[i], zs[i], -ceiling, strictly) {
      assert zs[i] == -ys[i] && zs[i - 1] == -ys[i - 1];
    }
    assert StepsAtLeast(xs, zs, -ceiling, strictly);
    SlopeAtLeast(xs, zs, -ceiling, strictly);
    SlopeNegates(xs, ys);
  }

  lemma SlopeNegates(xs: seq<real>, ys: seq<real>)
    requires |xs| == |ys| && xs != []
    ensures SlopeOf(xs, Affine(-1.0, ys, 0.0)) == -SlopeOf(xs, ys)
  {
    var zs := Affine(-1.0, ys, 0.0);
    var s, m := DotAffine(-1.0, ys, 0.0, xs, |xs|);
    DotSymmetric(ys, xs, |xs|);
    DotSymmetric(zs, xs, |xs|);
    NegatedLine(s.count, s.c, s.a, s.ac, Dot(xs, xs), m.a, m.ac);
  }

  lemma NegatedLine(n: real, sx: real, sy: real, sxy: real, sxx: real, sz: real, sxz: real)
    requires sz == (-1.0) * sy + n * 0.0 && sxz == (-1.0) * sxy + 0.0 * sx
    ensures LineSlope(n, sx, sz, sxz, sxx) == -LineSlope(n, sx, sy, sxy, sxx)
  {
    var den, num := Denominator(n, sx, sxx), n * sxy - sx * sy;
    assert n * sxz - sx * sz == -num;
    if den != 0.0 {
      var q := num / den;
      assert q * den == num;
      assert (-q) * den == -num;
    }
  }

  // ---- Marginals ----

  datatype Arm = Arm(name: string, privateDirty: int)

  datatype Point = Point(clients: int, arms: seq<Arm>)

  datatype Marginal = Marginal(from: int, to: int, perClient: int)

  datatype ArmSlope = ArmSlope(name: string, perClientBytes: real, fixedBytes: real, marginals: seq<Marginal>)

  datatype Slopes = Slopes(arms: seq<ArmSlope>, slopeRatio: real, crossoverClients: real)

  /** One measured count of one arm. */
  datatype Measure = Measure(clients: int, bytes: int)

  function ArmByName(arms: seq<Arm>, name: string): (r: Option<Arm>)
    ensures r.None? <==> forall a :: a in arms ==> a.name != name
    ensures r.Some? ==> exists i :: 0 <= i < |arms| && arms[i] == r.value && r.value.name == name
                               && forall j :: 0 <= j < i ==> arms[j].name != name
  {
    if arms == [] then None
    else if arms[0].name == name then Some(arms[0])
    else
      var rest := ArmByName(arms[1..], name);
      assert rest.Some? ==> forall i :: 0 <= i < |arms| - 1 ==> arms[1..][i] == arms[i + 1];
      rest
  }

  /** The points that measured the arm, in sweep order. */
  function MeasuresOf(points: seq<Point>, name: string): (r: seq<Measure>) {
    if points == [] then []
    else
      var last := points[|points| - 1];
      var found := ArmByName(last.arms, name);
      MeasuresOf(points[..|points| - 1], name) +
      if found.Some? then [Measure(last.clients, found.value.privateDirty)] else []
  }

  function Abs(x: int): nat { if x < 0 then -x else x }

  /** Go's integer division: toward zero. */
  function TruncDiv(a: int, b: int): int
    requires b != 0
  {
    if (a < 0) == (b < 0) then Abs(a) / Abs(b) else -(Abs(a) / Abs(b))
  }

  lemma TruncDivBounds(a: int, b: int)
    requires b > 0
    ensures Abs(a - TruncDiv(a, b) * b) <= b - 1
    ensures (TruncDiv(a, b) - 1) * b < a < (TruncDiv(a, b) + 1) * b
  {
    var q, r := WholeAndRest(Abs(a), b);
    TruncDivParts(a, b, TruncDiv(a, b), q, r);
  }

  lemma WholeAndRest(m: nat, b: int) returns (q: int, r: int)
    requires b > 0
    ensures q == m / b && q >= 0 && m == q * b + r && 0 <= r < b
  {
    q, r := m / b, m % b;
  }

  lemma TruncDivParts(a: int, b: int, t: int, q: int, r: int)
    requires b > 0 && q >= 0 && 0 <= r < b && Abs(a) == q * b + r
    requires t == if a < 0 then -q else q
    ensures Abs(a - t * b) <= b - 1
    ensures (t - 1) * b < a < (t + 1) * b
  {
    assert (-q) * b == -(q * b);
    assert (t - 1) * b == t * b - b && (t + 1) * b == t * b + b;
  }

  /** From one measured count to the next: no step when the count repeats. */
  function StepBetween(a: Measure, b: Measure): seq<Marginal> {
    if a.clients == b.clients then []
    else [Marginal(a.clients, b.clients, TruncDiv(b.bytes - a.bytes, b.clients - a.clients))]
  }

  /** The step-by-step differences; a repeated count makes no step. */
  function StepsOf(ms: seq<Measure>): seq<Marginal> {
    if |ms| < 2 then []
    else
      StepsOf(ms[..|ms| - 1]) + StepBetween(ms[|ms| - 2], ms[|ms| - 1])
  }

  ghost predicate Climbing(ms: seq<Measure>) {
    forall i, j :: 0 <= i < j < |ms| ==> ms[i].clients < ms[j].clients
  }

  /** Points measured in the parsed order climb, whichever of them measured the arm. */
  lemma {:induction false} SweepClimbs(points: seq<Point>, name: string)
    requires forall i, j :: 0 <= i < j < |points| ==> points[i].clients < points[j].clients
    ensures Climbing(MeasuresOf(points, name))
    ensures forall m :: m in MeasuresOf(points, name) ==> m.clients <= points[|points| - 1].clients
  {
    if points != [] {
      SweepClimbs(points[..|points| - 1], name);
      var ms := MeasuresOf(points[..|points| - 1], name);
      forall i | 0 <= i < |ms| ensures ms[i].clients < points[|points| - 1].clients {
        assert ms[i] in ms;
      }
    }
  }

  /** In a sweep of increasing counts every consecutive pair makes one step. */
  lemma {:induction false} StepsAlign(ms: seq<Measure>)
    requires Climbing(ms) && ms != []
    ensures |StepsOf(ms)| == |ms| - 1
    ensures forall i :: 0 <= i < |ms| - 1 ==> StepsOf(ms)[i] == StepAt(ms, i)
  {
    if |ms| > 1 {
      var front := ms[..|ms| - 1];
      var steps, last := StepsOf(front), StepAt(ms, |ms| - 2);
      StepsAlign(front);
      assert StepsOf(ms) == steps + [last];
      forall i | 0 <= i < |ms| - 1 ensures (steps + [last])[i] == StepAt(ms, i) {
        if i < |front| - 1 {
          assert steps[i] == StepAt(front, i);
        }
      }
    }
  }

  ghost function StepAt(ms: seq<Measure>, i: nat): Marginal
    requires Climbing(ms) && i < |ms| - 1
  {
    var a, b := ms[i], ms[i + 1];
    Marginal(a.clients, b.clients, TruncDiv(b.bytes - a.bytes, b.clients - a.clients))
  }

  /** What the marginals add back up to: the sum of `perClient * (to - from)`. */
  function Accounted(steps: seq<Marginal>): int {
    if steps == [] then 0
    else
      var last := steps[|steps| - 1];
      Accounted(steps[..|steps| - 1]) + last.perClient * (last.to - last.from)
  }

  /** How far the marginals are from adding back up to the whole rise. */
  ghost function Lost(ms: seq<Measure>): nat
    requires ms != []
  {
    Abs(Accounted(StepsOf(ms)) - (ms[|ms| - 1].bytes - ms[0].bytes))
  }

  /** Truncation loses less than one byte per client of each step. */
  lemma {:induction false} MarginalsAccount(ms: seq<Measure>)
    requires Climbing(ms) && ms != []
    ensures Lost(ms) <= (ms[|ms| - 1].clients - ms[0].clients) - |StepsOf(ms)|
  {
    if |ms| > 1 {
      var front, b := ms[..|ms| - 1], ms[|ms| - 1];
      assert ms == front + [b] && front[|front| - 1].clients < b.clients;
      MarginalsAccount(front);
      AccountStep(front, b);
    }
  }

  lemma AccountStep(front: seq<Measure>, b: Measure)
    requires front != [] && front[|front| - 1].clients < b.clients
    ensures Lost(front + [b]) <= Lost(front) + (b.clients - front[|front| - 1].clients) - 1
    ensures |StepsOf(front + [b])| == |StepsOf(front)| + 1
  {
    var a := front[|front| - 1];
    var step := Marginal(a.clients, b.clients, TruncDiv(b.bytes - a.bytes, b.clients - a.clients));
    assert StepsOf(front + [b]) == StepsOf(front) + [step] by {
      StepsGrow(front, b);
    }
    AccountedGrows(StepsOf(front), step);
    TruncDivBounds(b.bytes - a.bytes, b.clients - a.clients);
    assert (front + [b])[0] == front[0];
  }

  lemma AccountedGrows(steps: seq<Marginal>, step: Marginal)
    ensures Accounted(steps + [step]) == Accounted(steps) + step.perClient * (step.to - step.from)
  {
    assert (steps + [step])[..|steps|] == steps;
  }

  lemma StepsGrow(ms: seq<Measure>, m: Measure)
    ensures StepsOf(ms + [m]) == StepsOf(ms) + if ms == [] then [] else StepBetween(ms[|ms| - 1], m)
  {
    var all := ms + [m];
    assert all[..|ms|] == ms;
    assert ms != [] ==> all[|all| - 2] == ms[|ms| - 1] && all[|all| - 1] == m;
  }

  lemma AxesGrow(ms: seq<Measure>, m: Measure)
    ensures Xs(ms + [m]) == Xs(ms) + [m.clients as real]
    ensures Ys(ms + [m]) == Ys(ms) + [m.bytes as real]
  {}

  function Xs(ms: seq<Measure>): seq<real> {
    seq(|ms|, i requires 0 <= i < |ms| => ms[i].clients as real)
  }

  function Ys(ms: seq<Measure>): seq<real> {
    seq(|ms|, i requires 0 <= i < |ms| => ms[i].bytes as real)
  }

  /** The fitted slope lies strictly within one of the range of the reported marginals. */
  lemma SlopeNearMarginals(ms: seq<Measure>, lo: int, hi: int)
    requires Climbing(ms) && |ms| > 1
    requires forall i :: 0 <= i < |StepsOf(ms)| ==> lo <= StepsOf(ms)[i].perClient <= hi
    ensures (lo - 1) as real < SlopeOf(Xs(ms), Ys(ms)) < (hi + 1) as real
  {
    var floor, ceiling := (lo - 1) as real, (hi + 1) as real;
    StepsAlign(ms);
    StepsBounded(ms, lo, hi, floor, ceiling);
    SlopeAtLeast(Xs(ms), Ys(ms), floor, true);
    SlopeAtMost(Xs(ms), Ys(ms), ceiling, true);
  }

  lemma StepsBounded(ms: seq<Measure>, lo: int, hi: int, floor: real, ceiling: real)
    requires Climbing(ms)
    requires forall i :: 0 <= i < |ms| - 1 ==> lo <= StepAt(ms, i).perClient <= hi
    requires floor == (lo - 1) as real && ceiling == (hi + 1) as real
    ensures Rising(Xs(ms), true)
    ensures StepsAtLeast(Xs(ms), Ys(ms), floor, true) && StepsAtMost(Xs(ms), Ys(ms), ceiling, true)
  {
    var xs, ys := Xs(ms), Ys(ms);
    forall i | 0 < i < |xs|
      ensures StepAtLeast(xs[i - 1], ys[i - 1], xs[i], ys[i], floor, true)
      ensures StepAtLeast(xs[i - 1], -ys[i - 1], xs[i], -ys[i], -ceiling, true)
    {
      assert lo <= StepAt(ms, i - 1).perClient <= hi;
      StepWithin(ms[i - 1], ms[i], lo, hi, floor, ceiling);
    }
  }

  lemma StepWithin(a: Measure, b: Measure, lo: int, hi: int, floor: real, ceiling: real)
    requires a.clients < b.clients
    requires lo <= TruncDiv(b.bytes - a.bytes, b.clients - a.clients) <= hi
    requires floor == (lo - 1) as real && ceiling == (hi + 1) as real
    ensures StepAtLeast(a.clients as real, a.bytes as real, b.clients as real, b.bytes as real, floor, true)
    ensures StepAtLeast(a.clients as real, -(a.bytes as real), b.clients as real, -(b.bytes as real), -ceiling, true)
  {
    var dx, dy := b.clients - a.clients, b.bytes - a.bytes;
    var q := TruncDiv(dy, dx);
    TruncDivBounds(dy, dx);
    Widen(lo - 1, q - 1, dx);
    Widen(q + 1, hi + 1, dx);
    RealProduct(lo - 1, dx);
    RealProduct(hi + 1, dx);
    RealStep(a.clients as real, a.bytes as real, b.clients as real, b.bytes as real, floor, ceiling, dx as real,
             dy as real);
  }

  lemma RealStep(x: real, y: real, u: real, v: real, floor: real, ceiling: real, dx: real, dy: real)
    requires dx == u - x && dy == v - y && floor * dx < dy < ceiling * dx
    ensures StepAtLeast(x, y, u, v, floor, true)
    ensures StepAtLeast(x, -y, u, -v, -ceiling, true)
  {
    assert (-ceiling) * dx == -(ceiling * dx);
  }

  lemma Widen(a: int, b: int, d: int)
    requires a <= b && d > 0
    ensures a * d <= b * d
  {}

  lemma {:induction false} RealProduct(a: int, d: int)
    requires d >= 0
    ensures a as real * d as real == (a * d) as real
    decreases d
  {
    if d > 0 {
      RealProduct(a, d - 1);
      assert a * d == a * (d - 1) + a;
      assert a as real * d as real == a as real * (d - 1) as real + a as real;
    } else {
      assert a * d == 0 && a as real * 0.0 == 0.0;
    }
  }

  // ---- The two arms ----

  /** The loop of `slopesOf` over the points of one arm. */
  method Collect(points: seq<Point>, name: string) returns (xs: seq<real>, ys: seq<real>, steps: seq<Marginal>)
    ensures var ms := MeasuresOf(points, name); xs == Xs(ms) && ys == Ys(ms) && steps == StepsOf(ms)
  {
    xs, ys, steps := [], [], [];
    var previous: Option<Point> := None;
    ghost var ms: seq<Measure> := [];
    for index := 0 to |points|
      invariant ms == MeasuresOf(points[..index], name)
      invariant xs == Xs(ms) && ys == Ys(ms) && steps == StepsOf(ms)
      invariant Latest(previous, name, ms)
    {
      assert points[..index + 1][..index] == points[..index];
      var measured := points[index];
      var one := ArmByName(measured.arms, name);
      if one.None? {
        continue;
      }
      ghost var measure := Measure(measured.clients, one.value.privateDirty);
      StepsGrow(ms, measure);
      AxesGrow(ms, measure);
      xs := xs + [measured.clients as real];
      ys := ys + [one.value.privateDirty as real];
      if previous.Some? {
        var before := ArmByName(previous.value.arms, name);
        if before.Some? && measured.clients != previous.value.clients {
          steps := steps + [Marginal(previous.value.clients, measured.clients,
                                     TruncDiv(one.value.privateDirty - before.value.privateDirty,
                                              measured.clients - previous.value.clients))];
        }
      }
      previous := Some(measured);
      ms := ms + [measure];
    }
    assert points[..|points|] == points;
  }

  /** The line through the measures of the arm, where there are two of them, and its steps. */
  ghost predicate Fitted(points: seq<Point>, fit: ArmSlope) {
    var ms := MeasuresOf(points, fit.name);
    && fit.marginals == StepsOf(ms)
    && if |ms| < 2 then fit.perClientBytes == 0.0 && fit.fixedBytes == 0.0
       else fit.perClientBytes == SlopeOf(Xs(ms), Ys(ms)) && fit.fixedBytes == InterceptOf(Xs(ms), Ys(ms))
  }

  method FitArm(points: seq<Point>, name: string) returns (fit: ArmSlope)
    ensures fit.name == name && Fitted(points, fit)
  {
    var xs, ys, steps := Collect(points, name);
    if |xs| < 2 {
      return ArmSlope(name, 0.0, 0.0, steps);
    }
    var slope, intercept := LeastSquares(xs, ys);
    fit := ArmSlope(name, slope, intercept, steps);
  }

  /** `previous` is the last point that measured the arm. */
  ghost predicate Latest(previous: Option<Point>, name: string, ms: seq<Measure>) {
    match previous
    case None => ms == []
    case Some(p) =>
      var found := ArmByName(p.arms, name);
      ms != [] && found.Some? && ms[|ms| - 1] == Measure(p.clients, found.value.privateDirty)
  }

  function Ratio(numerator: real, denominator: real): real {
    if denominator == 0.0 then 0.0 else numerator / denominator
  }

  /** Where the two lines meet, or zero outside a plausible range. */
  function Crossover(processes: ArmSlope, served: ArmSlope): real {
    var difference := processes.perClientBytes - served.perClientBytes;
    if difference == 0.0 then 0.0
    else
      var at := (served.fixedBytes - processes.fixedBytes) / difference;
      if at <= 0.0 || at > 1024.0 then 0.0 else at
  }

  method SlopesOf(points: seq<Point>) returns (out: Slopes)
    ensures |out.arms| == 2 && out.arms[0].name == "processes" && out.arms[1].name == "daemon"
    ensures forall i :: 0 <= i < 2 ==> Fitted(points, out.arms[i])
    ensures out.slopeRatio == Ratio(out.arms[1].perClientBytes, out.arms[0].perClientBytes)
    ensures out.crossoverClients == Crossover(out.arms[0], out.arms[1])
  {
    var processes := FitArm(points, "processes");
    var served := FitArm(points, "daemon");
    out := Slopes([processes, served], Ratio(served.perClientBytes, processes.perClientBytes),
                  Crossover(processes, served));
  }

  function Cost(arm: ArmSlope, clients: real): real {
    arm.fixedBytes + arm.perClientBytes * clients
  }

  /** The costs meet at `x` exactly when the slopes' difference makes up for the fixed costs there. */
  ghost predicate MeetAt(d: real, x: real, rise: real) {
    d * x == rise
  }

  lemma CostsMeet(processes: ArmSlope, served: ArmSlope, x: real)
    ensures Cost(processes, x) == Cost(served, x)
            <==> MeetAt(processes.perClientBytes - served.perClientBytes, x, served.fixedBytes - processes.fixedBytes)
  {
    var apart := CostGap(processes, served, x);
  }

  lemma QuotientMeets(d: real, rise: real)
    requires d != 0.0
    ensures MeetAt(d, rise / d, rise)
    ensures forall x :: MeetAt(d, x, rise) ==> x == rise / d
  {
    var q := rise / d;
    assert d * q == rise;
    forall x | MeetAt(d, x, rise) ensures x == q {
      CancelAny(d, x, q, rise);
    }
  }

  /** A reported crossover is the one client count, between 0 and 1024, where the two
      lines cost the same; zero is reported exactly when there is no such single count. */
  lemma CrossoverMeets(processes: ArmSlope, served: ArmSlope)
    ensures var at := Crossover(processes, served);
      at != 0.0 ==> 0.0 < at <= 1024.0 && Cost(processes, at) == Cost(served, at)
                    && processes.perClientBytes != served.perClientBytes
    ensures processes.perClientBytes != served.perClientBytes ==>
      forall x :: 0.0 < x <= 1024.0 && Cost(processes, x) == Cost(served, x) ==> Crossover(processes, served) == x
  {
    var d, rise := processes.perClientBytes - served.perClientBytes, served.fixedBytes - processes.fixedBytes;
    CostsMeet(processes, served, Crossover(processes, served));
    forall x ensures Cost(processes, x) == Cost(served, x) <==> MeetAt(d, x, rise) {
      CostsMeet(processes, served, x);
    }
    if d != 0.0 {
      QuotientMeets(d, rise);
    }
  }

  lemma CancelAny(d: real, x: real, y: real, product: real)
    requires d != 0.0 && product == d * x && product == d * y
    ensures x == y
  {
    var z := x - y;
    assert d * z == product - product;
    if d > 0.0 { ZeroFactor(d, z); } else {
      assert (-d) * z == -(d * z);
      ZeroFactor(-d, z);
    }
  }

  lemma ZeroFactor(positive: real, z: real)
    requires positive > 0.0 && positive * z == 0.0
    ensures z == 0.0
  {
    SignOfFactor(z, positive);
    assert (-z) * positive == -(positive * z);
    SignOfFactor(-z, positive);
  }

  lemma CostGap(processes: ArmSlope, served: ArmSlope, x: real) returns (apart: real)
    ensures var d := processes.perClientBytes - served.perClientBytes; apart == d * x
    ensures Cost(served, x) - Cost(processes, x) == (served.fixedBytes - processes.fixedBytes) - apart
  {
    var d := processes.perClientBytes - served.perClientBytes;
    apart := d * x;
  }

  /** Below a reported crossover the daemon costs more exactly when each further process
      costs more than each further daemon client. */
  lemma DaemonCostsMoreBelow(processes: ArmSlope, served: ArmSlope, x: real)
    requires Crossover(processes, served) != 0.0 && x < Crossover(processes, served)
    ensures Cost(served, x) > Cost(processes, x) <==> processes.perClientBytes > served.perClientBytes
  {
    CrossoverMeets(processes, served);
    var at, d := Crossover(processes, served), processes.perClientBytes - served.perClientBytes;
    var there := CostGap(processes, served, at);
    var here := CostGap(processes, served, x);
    FartherApart(d, x, at, here, there);
  }

  /** It happens that the daemon is the cheaper one below the crossover. */
  lemma DaemonCheaperBelow()
    ensures var processes, served := ArmSlope("processes", 1.0, 10.0, []), ArmSlope("daemon", 2.0, 0.0, []);
      Crossover(processes, served) == 10.0 && Cost(served, 5.0) < Cost(processes, 5.0)
  {}

  lemma FartherApart(d: real, x: real, y: real, here: real, there: real)
    requires d != 0.0 && x < y && here == d * x && there == d * y
    ensures here < there <==> d > 0.0
  {
    var back := y - x;
    assert d * back == there - here;
    if d > 0.0 {
      PositiveProduct(d, back);
    } else {
      PositiveProduct(-d, back);
      assert (-d) * back == -(d * back);
    }
  }
}
