/** How an arm's claims are scored against the truth. */
module Scoring {
  import opened Arithmetic
  import opened Ordering

  datatype Score = Score(claimed: seq<string>, precision: real, recall: real, missing: seq<string>,
                         spurious: seq<string>)

  /** Walks the keys of a set in whatever order they come: counts those in `reference` and
      collects the others. */
  method Divide(items: set<string>, reference: set<string>) returns (hit: nat, others: seq<string>)
    ensures hit == |items * reference|
    ensures Distinct(others) && forall x :: x in others <==> x in items - reference
  {
    var rest := items;
    hit, others := 0, [];
    while rest != {}
      invariant rest <= items && hit == |(items - rest) * reference|
      invariant Distinct(others) && forall x :: x in others <==> x in (items - rest) - reference
      decreases |rest|
    {
      var x :| x in rest;
      Move(items, rest, reference, x);
      if x in reference {
        hit := hit + 1;
      } else {
        assert x !in others;
        others := others + [x];
      }
      rest := rest - {x};
    }
    assert items - rest == items;
  }

  lemma Move(items: set<string>, rest: set<string>, reference: set<string>, x: string)
    requires rest <= items && x in rest
    ensures items - (rest - {x}) == (items - rest) + {x}
    ensures |(items - (rest - {x})) * reference| == |(items - rest) * reference| + if x in reference then 1 else 0
  {
    assert items - (rest - {x}) == (items - rest) + {x};
    if x in reference {
      assert ((items - rest) + {x}) * reference == (items - rest) * reference + {x};
    } else {
      assert ((items - rest) + {x}) * reference == (items - rest) * reference;
    }
  }

  method SetOf(items: seq<string>, skipEmpty: bool) returns (r: set<string>)
    ensures forall x :: x in r <==> x in items && !(skipEmpty && x == "")
  {
    r := {};
    for i := 0 to |items|
      invariant forall x :: x in r <==> x in items[..i] && !(skipEmpty && x == "")
    {
      if !skipEmpty || items[i] != "" {
        r := r + {items[i]};
      }
    }
  }

  function Claims(claimed: seq<string>): set<string> {
    set x | x in claimed && x != ""
  }

  function Truth(truth: seq<string>): set<string> {
    set x | x in truth
  }

  function Ratio(part: nat, whole: nat): real
    requires whole > 0
  {
    part as real / whole as real
  }

  function Recall(claims: set<string>, truth: set<string>): real {
    if truth == {} then 1.0 else Ratio(|claims * truth|, |truth|)
  }

  function Precision(claims: set<string>, truth: set<string>): real {
    if truth == {} then (if claims == {} then 1.0 else 0.0)
    else if claims == {} then 0.0
    else Ratio(|claims * truth|, |claims|)
  }

  method ScoreAgainst(claimed: seq<string>, truth: seq<string>) returns (r: Score)
    ensures Listing(r.claimed, Claims(claimed))
    ensures Listing(r.missing, Truth(truth) - Claims(claimed))
    ensures Listing(r.spurious, Claims(claimed) - Truth(truth))
    ensures r.recall == Recall(Claims(claimed), Truth(truth))
    ensures r.precision == Precision(Claims(claimed), Truth(truth))
  {
    var claimedSet := SetOf(claimed, true);
    var truthSet := SetOf(truth, false);
    assert claimedSet == Claims(claimed) && truthSet == Truth(truth);
    var hit, spurious := Divide(claimedSet, truthSet);
    var found, missing := Divide(truthSet, claimedSet);
    var c := SortedKeys(claimedSet);
    var m := SortItems(missing);
    var s := SortItems(spurious);
    var precision, recall := 0.0, 0.0;
    if |truthSet| == 0 {
      recall := 1.0;
      if |claimedSet| == 0 {
        precision := 1.0;
      }
    } else {
      recall := Ratio(hit, |truthSet|);
      if |claimedSet| > 0 {
        precision := Ratio(hit, |claimedSet|);
      }
    }
    r := Score(c, precision, recall, m, s);
  }

  lemma PartOfSet(a: set<string>, b: set<string>)
    ensures |a * b| <= |a|
    ensures |a * b| == |a| <==> a <= b
  {
    var common, others := a * b, a - b;
    assert common + others == a && common !! others;
    assert |a| == |common| + |others|;
    assert a <= b <==> others == {};
  }

  /** Both figures are shares; recall is whole exactly when nothing is missing, precision
      exactly when nothing is spurious and something was claimed, or there was nothing to find. */
  lemma SharesExactly(claims: set<string>, truth: set<string>)
    ensures 0.0 <= Recall(claims, truth) <= 1.0 && 0.0 <= Precision(claims, truth) <= 1.0
    ensures Recall(claims, truth) == 1.0 <==> truth <= claims
    ensures Precision(claims, truth) == 1.0 <==> claims <= truth && (claims != {} || truth == {})
  {
    PartOfSet(truth, claims);
    PartOfSet(claims, truth);
    assert claims * truth == truth * claims;
    if truth != {} {
      ShareOf(|claims * truth| as real, |truth| as real, 0.0);
      if claims != {} {
        ShareOf(|claims * truth| as real, |claims| as real, 0.0);
      }
    }
  }

  /** A perfect score is exactly the right set of claims, the empty set included. */
  lemma PerfectExactly(claims: set<string>, truth: set<string>)
    ensures Recall(claims, truth) == 1.0 && Precision(claims, truth) == 1.0 <==> claims == truth
  {
    SharesExactly(claims, truth);
  }

  /** Some answer has full recall exactly when the truth holds no empty name: an empty name
      is never counted as claimed. */
  lemma EmptyTruthUnreachable(truth: seq<string>)
    ensures (exists claimed :: Recall(Claims(claimed), Truth(truth)) == 1.0) <==> "" !in truth
    ensures "" !in truth ==> Recall(Claims(truth), Truth(truth)) == 1.0 && Precision(Claims(truth), Truth(truth)) == 1.0
  {
    if "" in truth {
      forall claimed ensures Recall(Claims(claimed), Truth(truth)) != 1.0 {
        SharesExactly(Claims(claimed), Truth(truth));
        assert "" in Truth(truth) && "" !in Claims(claimed);
      }
    } else {
      assert Claims(truth) == Truth(truth);
      PerfectExactly(Claims(truth), Truth(truth));
    }
  }
}
