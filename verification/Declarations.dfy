/** How the benchmark reduces qualified outline labels to the names a file declares. */
module Declarations {
  import opened Ordering
  import opened Text

  predicate ContainsColons(s: string) {
    exists i :: 0 <= i < |s| - 1 && s[i] == ':' && s[i + 1] == ':'
  }

  predicate Under(row: string, scope: string) {
    scope + "::" <= row
  }

  /** A label with a separator that every label equals or stands under. */
  ghost predicate IsScope(labels: seq<string>, scope: string) {
    scope in labels && ContainsColons(scope) && forall l :: l in labels ==> l == scope || Under(l, scope)
  }

  /** The first such label, or none. */
  method EnclosingScope(labels: seq<string>) returns (scope: string)
    ensures scope != "" ==> IsScope(labels, scope)
    ensures scope == "" ==> forall s :: !IsScope(labels, s)
  {
    for i := 0 to |labels|
      invariant forall j :: 0 <= j < i ==> !IsScope(labels, labels[j])
    {
      var candidate := labels[i];
      if !ContainsColons(candidate) {
        continue;
      }
      var prefixes := true;
      for j := 0 to |labels|
        invariant prefixes && forall k :: 0 <= k < j ==> labels[k] == candidate || Under(labels[k], candidate)
      {
        if labels[j] == candidate || Under(labels[j], candidate) {
          continue;
        }
        prefixes := false;
        break;
      }
      if prefixes {
        return candidate;
      }
    }
    scope := "";
  }

  /** There is at most one scope. */
  lemma ScopeUnique(labels: seq<string>, a: string, b: string)
    requires IsScope(labels, a) && IsScope(labels, b)
    ensures a == b
  {}

  /** What `EnclosingScope` returns, as a function of the set of labels. */
  ghost function ScopeOf(labels: seq<string>): (r: string)
    ensures r != "" ==> IsScope(labels, r)
    ensures r == "" ==> forall s :: !IsScope(labels, s)
  {
    if s :| IsScope(labels, s) then s else ""
  }

  /** Neither the order of the labels nor their repetition matters to the scope. */
  lemma ScopeOrderFree(a: seq<string>, b: seq<string>)
    requires forall l :: l in a <==> l in b
    ensures ScopeOf(a) == ScopeOf(b)
  {
    assert forall s :: IsScope(a, s) <==> IsScope(b, s);
    if ScopeOf(a) != "" {
      ScopeUnique(a, ScopeOf(a), ScopeOf(b));
    }
  }

  /** The name a label declares at top level, or nothing: the scope itself, an empty name and
      anything nested declare none. */
  function NameOf(row: string, scope: string): string {
    if scope != "" && row == scope then ""
    else
      var name := if scope != "" then TrimPrefix(row, scope + "::") else row;
      if ContainsColons(name) || '.' in name then "" else name
  }

  /** The names of the labels, each at its first occurrence. */
  function Names(labels: seq<string>, scope: string): seq<string> {
    if labels == [] then []
    else
      var front, name := Names(labels[..|labels| - 1], scope), NameOf(labels[|labels| - 1], scope);
      if name == "" || name in front then front else front + [name]
  }

  method DeclarationNames(labels: seq<string>) returns (out: seq<string>)
    ensures out == Names(labels, ScopeOf(labels))
  {
    var prefix := EnclosingScope(labels);
    if prefix != "" {
      ScopeUnique(labels, prefix, ScopeOf(labels));
    }
    var seen: set<string> := {};
    out := [];
    for i := 0 to |labels|
      invariant out == Names(labels[..i], prefix)
      invariant forall n :: n in seen <==> n in out
    {
      assert labels[..i + 1][..i] == labels[..i];
      var name := labels[i];
      if prefix != "" {
        if name == prefix {
          continue;
        }
        name := TrimPrefix(name, prefix + "::");
      }
      if name == "" || ContainsColons(name) || '.' in name || name in seen {
        continue;
      }
      seen := seen + {name};
      out := out + [name];
    }
    assert labels[..|labels|] == labels;
  }

  /** Exactly the names that some label declares, without repetition. */
  lemma {:induction false} NamesExactly(labels: seq<string>, scope: string)
    ensures Distinct(Names(labels, scope))
    ensures forall x :: x in Names(labels, scope) <==> x != "" && exists l :: l in labels && NameOf(l, scope) == x
  {
    if labels != [] {
      var front, last := labels[..|labels| - 1], labels[|labels| - 1];
      NamesExactly(front, scope);
      assert forall l :: l in labels <==> l in front || l == last;
    }
  }

  /** The order is that of first occurrences. */
  lemma {:induction false} NamesInOrder(labels: seq<string>, scope: string, i: nat) returns (at: nat)
    requires i < |Names(labels, scope)|
    ensures at < |labels| && NameOf(labels[at], scope) == Names(labels, scope)[i]
    ensures Names(labels[..at], scope) == Names(labels, scope)[..i]
    ensures forall j :: 0 <= j < at ==> NameOf(labels[j], scope) != Names(labels, scope)[i]
  {
    var n := |labels| - 1;
    var front := Names(labels[..n], scope);
    if i < |front| {
      at := NamesInOrder(labels[..n], scope, i);
      assert labels[..n][..at] == labels[..at];
    } else {
      at := n;
      NamesExactly(labels[..n], scope);
      forall j | 0 <= j < at ensures NameOf(labels[j], scope) != Names(labels, scope)[i] {
        assert labels[j] in labels[..n];
      }
    }
  }

  // ---- Qualification ----

  /** The same answer as a tool gives it that spells out the file's scope `p`: the labels
      under `p`, and `p` itself somewhere among them. */
  function Qualify(labels: seq<string>, p: string): seq<string> {
    seq(|labels|, i requires 0 <= i < |labels| => p + "::" + labels[i])
  }

  function Spelled(labels: seq<string>, p: string, at: nat): seq<string>
    requires at <= |labels|
  {
    Qualify(labels[..at], p) + [p] + Qualify(labels[at..], p)
  }

  lemma SpelledScope(labels: seq<string>, p: string, at: nat)
    requires at <= |labels| && ContainsColons(p)
    ensures ScopeOf(Spelled(labels, p, at)) == p
  {
    var all := Spelled(labels, p, at);
    assert all[at] == p;
    forall l | l in all ensures l == p || Under(l, p) {
      var i :| 0 <= i < |all| && all[i] == l;
      if i < at {
        assert l == p + "::" + labels[i];
      } else if i > at {
        assert l == p + "::" + labels[i - 1];
      }
    }
    assert IsScope(all, p);
    ScopeUnique(all, p, ScopeOf(all));
  }

  /** A last label is kept or dropped by its name alone. */
  lemma SameLast(a: seq<string>, x: string, s: string, b: seq<string>, y: string, t: string)
    requires Names(a, s) == Names(b, t) && NameOf(x, s) == NameOf(y, t)
    ensures Names(a + [x], s) == Names(b + [y], t)
  {
    assert (a + [x])[..|a|] == a && (b + [y])[..|b|] == b;
  }

  lemma SpelledSplit(front: seq<string>, last: string, p: string, at: nat)
    requires at <= |front|
    ensures Spelled(front + [last], p, at) == Spelled(front, p, at) + [p + "::" + last]
  {
    assert (front + [last])[..at] == front[..at];
    assert (front + [last])[at..] == front[at..] + [last];
    assert Qualify(front[at..] + [last], p) == Qualify(front[at..], p) + [p + "::" + last];
  }

  lemma {:induction false} SpelledNames(labels: seq<string>, p: string, at: nat)
    requires at <= |labels| && p != ""
    ensures Names(Spelled(labels, p, at), p) == Names(labels, "")
    decreases |labels|
  {
    if at == |labels| {
      assert labels[..|labels|] == labels && labels[|labels|..] == [];
      assert Spelled(labels, p, |labels|) == Qualify(labels, p) + [p];
      QualifiedNames(labels, p);
      assert (Qualify(labels, p) + [p])[..|labels|] == Qualify(labels, p);
    } else {
      var n := |labels| - 1;
      var front, last := labels[..n], labels[n];
      SpelledNames(front, p, at);
      assert labels == front + [last];
      SpelledSplit(front, last, p, at);
      SameLast(Spelled(front, p, at), p + "::" + last, p, front, last, "");
    }
  }

  lemma QualifyLast(labels: seq<string>, p: string)
    requires labels != []
    ensures Qualify(labels, p) == Qualify(labels[..|labels| - 1], p) + [p + "::" + labels[|labels| - 1]]
  {}

  lemma {:induction false} QualifiedNames(labels: seq<string>, p: string)
    requires p != ""
    ensures Names(Qualify(labels, p), p) == Names(labels, "")
  {
    if labels != [] {
      var n := |labels| - 1;
      var front, last := labels[..n], labels[n];
      QualifiedNames(front, p);
      QualifyLast(labels, p);
      assert labels == front + [last];
      SameLast(Qualify(front, p), p + "::" + last, p, front, last, "");
    }
  }

  lemma {:induction false} NestedNames(labels: seq<string>)
    requires forall l :: l in labels ==> ContainsColons(l)
    ensures Names(labels, "") == []
  {
    if labels != [] {
      NestedNames(labels[..|labels| - 1]);
    }
  }

  lemma UnderContains(row: string, scope: string)
    requires Under(row, scope)
    ensures ContainsColons(row)
  {
    assert row[|scope|] == (scope + "::")[|scope|] == ':';
    assert row[|scope| + 1] == (scope + "::")[|scope| + 1] == ':';
  }

  /** The name of a declaration that stands in no other. */
  predicate TopLevel(name: string) {
    name != "" && !ContainsColons(name) && '.' !in name
  }

  /** A scope of one segment is not found: every label under it reads as nested, and its own
      row as a declaration. */
  lemma SegmentScope(labels: seq<string>, p: string, at: nat)
    requires at <= |labels| && !ContainsColons(p)
    ensures ScopeOf(Spelled(labels, p, at)) == ""
  {
    var all := Spelled(labels, p, at);
    assert all[at] == p;
    if ScopeOf(all) != "" {
      assert p in all && ScopeOf(all) != p;
      UnderContains(p, ScopeOf(all));
    }
  }

  lemma NestedUnder(p: string, l: string)
    ensures NameOf(p + "::" + l, "") == ""
  {
    var row := p + "::" + l;
    assert row[..|p| + 2] == p + "::";
    UnderContains(row, p);
  }

  lemma NestedOnly(labels: seq<string>, p: string)
    ensures Names(Qualify(labels, p), "") == []
  {
    forall l | l in Qualify(labels, p) ensures NameOf(l, "") == "" {
      var i :| 0 <= i < |labels| && l == p + "::" + labels[i];
      NestedUnder(p, labels[i]);
    }
    NothingNamed(Qualify(labels, p), "");
  }

  lemma {:induction false} SegmentNames(labels: seq<string>, p: string, at: nat)
    requires at <= |labels| && !ContainsColons(p)
    ensures Names(Spelled(labels, p, at), "") == if TopLevel(p) then [p] else []
    decreases |labels|
  {
    if at == |labels| {
      assert labels[..|labels|] == labels && labels[|labels|..] == [];
      assert Spelled(labels, p, |labels|) == Qualify(labels, p) + [p];
      NestedOnly(labels, p);
      assert (Qualify(labels, p) + [p])[..|labels|] == Qualify(labels, p);
    } else {
      var n := |labels| - 1;
      var front, last := labels[..n], labels[n];
      SegmentNames(front, p, at);
      assert labels == front + [last];
      SpelledSplit(front, last, p, at);
      NestedUnder(p, last);
      var head := Spelled(front, p, at);
      assert (head + [p + "::" + last])[..|head|] == head;
    }
  }

  /** Spelling out a scope of several segments changes nothing when the labels had none of
      their own; when they had one, every name is then nested and the answer is empty. With
      a scope of one segment the answer is that segment, whatever the labels. */
  lemma QualificationInvariant(labels: seq<string>, p: string, at: nat)
    requires at <= |labels|
    ensures ContainsColons(p) && ScopeOf(labels) == "" ==>
      Names(Spelled(labels, p, at), ScopeOf(Spelled(labels, p, at))) == Names(labels, ScopeOf(labels))
    ensures ContainsColons(p) && ScopeOf(labels) != "" ==>
      Names(Spelled(labels, p, at), ScopeOf(Spelled(labels, p, at))) == []
    ensures !ContainsColons(p) ==>
      Names(Spelled(labels, p, at), ScopeOf(Spelled(labels, p, at))) == if TopLevel(p) then [p] else []
  {
    if !ContainsColons(p) {
      SegmentScope(labels, p, at);
      SegmentNames(labels, p, at);
    } else {
      SpelledScope(labels, p, at);
      SpelledNames(labels, p, at);
      if ScopeOf(labels) != "" {
        forall l | l in labels ensures ContainsColons(l) {
          if l != ScopeOf(labels) {
            UnderContains(l, ScopeOf(labels));
          }
        }
        NestedNames(labels);
      }
    }
  }

  /** The labels declare `x`: bare, when they have no scope, or directly under the one they have. */
  ghost predicate Declares(labels: seq<string>, x: string) {
    && TopLevel(x)
    && if exists s :: IsScope(labels, s) then exists s :: IsScope(labels, s) && s + "::" + x in labels
       else x in labels
  }

  /** The answer holds exactly the names the labels declare. */
  lemma DeclaredExactly(labels: seq<string>, x: string)
    ensures x in Names(labels, ScopeOf(labels)) <==> Declares(labels, x)
  {
    var scope := ScopeOf(labels);
    NamesExactly(labels, scope);
    if scope == "" {
      assert x in labels && TopLevel(x) ==> NameOf(x, scope) == x;
    } else {
      assert IsScope(labels, scope);
      if TopLevel(x) {
        NameUnder(x, scope);
      }
      forall l | l in labels && NameOf(l, scope) == x && x != "" ensures l == scope + "::" + x {
        assert Under(l, scope);
      }
      forall s | IsScope(labels, s) ensures s == scope {
        ScopeUnique(labels, s, scope);
      }
    }
  }

  lemma NameUnder(x: string, scope: string)
    requires TopLevel(x) && scope != ""
    ensures NameOf(scope + "::" + x, scope) == x
  {
    TrimPrefixOff(scope + "::", x);
    assert |scope + "::" + x| > |scope|;
  }

  /** Directly under the scope, with a name that nests nothing. */
  predicate TopLevelUnder(row: string, scope: string) {
    Under(row, scope) && var rest := row[|scope| + 2..]; rest != "" && !ContainsColons(rest) && '.' !in rest
  }

  /** So the answer is the same exactly when no label stands directly under a scope that the
      labels have of their own; or, for a scope of one segment, when that segment is all that
      the labels declare. */
  lemma QualificationExactly(labels: seq<string>, p: string, at: nat)
    requires at <= |labels|
    ensures Names(Spelled(labels, p, at), ScopeOf(Spelled(labels, p, at))) == Names(labels, ScopeOf(labels))
            <==> if ContainsColons(p) then !exists s, l :: IsScope(labels, s) && l in labels && TopLevelUnder(l, s)
                 else forall x :: Declares(labels, x) <==> x == p && TopLevel(p)
  {
    QualificationInvariant(labels, p, at);
    var scope := ScopeOf(labels);
    if !ContainsColons(p) {
      SegmentExactly(labels, p);
    } else if scope != "" {
      DeclaresUnder(labels, scope);
      forall s | IsScope(labels, s) ensures s == scope {
        ScopeUnique(labels, s, scope);
      }
    }
  }

  lemma SegmentExactly(labels: seq<string>, p: string)
    ensures Names(labels, ScopeOf(labels)) == (if TopLevel(p) then [p] else [])
            <==> forall x :: Declares(labels, x) <==> x == p && TopLevel(p)
  {
    var names := Names(labels, ScopeOf(labels));
    var one := if TopLevel(p) then [p] else [];
    NamesExactly(labels, ScopeOf(labels));
    forall x ensures x in names <==> Declares(labels, x) {
      DeclaredExactly(labels, x);
    }
    if forall x :: x in names <==> x in one {
      SameSmall(names, one);
    }
  }

  lemma SameSmall(a: seq<string>, b: seq<string>)
    requires Distinct(a) && |b| <= 1 && forall x :: x in a <==> x in b
    ensures a == b
  {
    assert |a| > 0 ==> a[0] in a;
    if b != [] {
      assert b == [b[0]] && b[0] in a;
      assert a[0] in a && a[|a| - 1] in a && a[0] == b[0] == a[|a| - 1];
      assert |a| == 1;
    }
  }

  /** As the only function of a file `util` is lost, and the file itself reported. */
  lemma SegmentMisread()
    ensures Spelled(["now_ms"], "util", 0) == ["util", "util" + "::" + "now_ms"]
    ensures Names(["now_ms"], ScopeOf(["now_ms"])) == ["now_ms"]
    ensures Names(Spelled(["now_ms"], "util", 0), ScopeOf(Spelled(["now_ms"], "util", 0))) == ["util"]
  {
    var labels := ["now_ms"];
    assert labels[..0] == [] && labels[0..] == labels;
    assert !ContainsColons("now_ms") && '.' !in "now_ms" && !ContainsColons("util") && '.' !in "util";
    assert forall s :: s in labels ==> s == "now_ms";
    QualificationInvariant(labels, "util", 0);
  }

  lemma DeclaresUnder(labels: seq<string>, scope: string)
    requires IsScope(labels, scope)
    ensures Names(labels, scope) == [] <==> !exists l :: l in labels && TopLevelUnder(l, scope)
  {
    forall l | l in labels ensures NameOf(l, scope) != "" <==> TopLevelUnder(l, scope) {
      assert l == scope || Under(l, scope);
    }
    NothingNamed(labels, scope);
  }

  lemma NothingNamed(labels: seq<string>, scope: string)
    ensures Names(labels, scope) == [] <==> forall l :: l in labels ==> NameOf(l, scope) == ""
  {
    NamesExactly(labels, scope);
    if Names(labels, scope) != [] {
      assert Names(labels, scope)[0] in Names(labels, scope);
    }
    forall l | l in labels && NameOf(l, scope) != "" ensures NameOf(l, scope) in Names(labels, scope) {}
  }

  /** The only declaration of a file, given under its scope and without a row for the scope,
      is taken for the scope itself and lost. */
  lemma LoneLabelIsItsScope(row: string)
    requires ContainsColons(row)
    ensures ScopeOf([row]) == row && Names([row], ScopeOf([row])) == []
  {
    assert IsScope([row], row);
    ScopeUnique([row], row, ScopeOf([row]));
    assert [row][..0] == [];
  }
}
