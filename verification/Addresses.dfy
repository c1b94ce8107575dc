/** The one address a path is compared under: the registered repository that holds it and
    the path inside. */
module Addresses {
  import opened Ordering
  import opened Text
  import opened Wrappers

  /** The directories that hold a repository, and the name each is known by. */
  datatype Repositories = Repositories(dirs: seq<string>, names: map<string, string>, root: string)

  const COPY := "/workspace-copy/"

  /** `sort.Slice` by length, longest first, ties in any order. */
  ghost predicate LongestFirst(dirs: seq<string>) {
    forall i, j :: 0 <= i < j < |dirs| ==> |dirs[i]| >= |dirs[j]|
  }

  predicate Longer(a: string, b: string) {
    |a| >= |b|
  }

  /** A path below the corpus root as `filepath.Rel` leaves it. */
  predicate Relative(path: string) {
    path != "" && path[|path| - 1] != '/'
  }

  /** `filepath.Base` of such a path. */
  function Base(path: string): string {
    Behind(path, '/')
  }

  datatype DiscoveryError = NoRepository

  /** What discovery makes of the repositories it met, in the order it met them. */
  method Discovered(found: seq<string>, root: string) returns (r: Result<Repositories, DiscoveryError>)
    requires forall d :: d in found ==> Relative(d)
    ensures r.Err? <==> found == []
    ensures r.Ok? ==> r.value.root == root && Valid(r.value) && multiset(r.value.dirs) == multiset(found)
  {
    var names: map<string, string> := map[];
    for i := 0 to |found|
      invariant forall d :: d in names <==> d in found[..i]
      invariant forall d :: d in names ==> names[d] == Base(d)
    {
      assert found[..i + 1] == found[..i] + [found[i]];
      names := names[found[i] := Base(found[i])];
    }
    assert found[..|found|] == found;
    SortIsSorted(found, Longer);
    var dirs := Sort(found, Longer);
    if |dirs| == 0 {
      return Err(NoRepository);
    }
    return Ok(Repositories(dirs, names, root));
  }

  ghost predicate Valid(r: Repositories) {
    && LongestFirst(r.dirs)
    && (forall d :: d in r.dirs <==> d in r.names)
    && (forall d :: d in r.dirs ==> Relative(d) && r.names[d] == Base(d))
  }

  /** The path is the directory or lies in it. */
  predicate Holds(dir: string, path: string) {
    path == dir || dir + "/" <= path
  }

  function Undotted(spelling: string): string {
    TrimPrefix(TrimSpace(spelling), "./")
  }

  /** The corpus root goes twice, as the two separators it is tried with coincide. */
  function Unrooted(root: string, path: string): string {
    TrimPrefix(TrimPrefix(path, root + "/"), root + "/")
  }

  function Uncopied(path: string, mark: string): string {
    var index := Find(path, mark);
    if index >= 0 then path[index + |mark|..] else path
  }

  lemma CutBehind(before: string, mark: string, path: string)
    requires Find(before + mark + path, mark) == |before|
    ensures Uncopied(before + mark + path, mark) == path
  {
    assert (before + mark + path)[|before| + |mark|..] == path;
  }

  lemma OccursStarts(s: string, sub: string, i: nat)
    requires Occurs(s, sub, i) && sub != ""
    ensures i < |s| && s[i] == sub[0]
  {
    assert s[i] == s[i..i + |sub|][0];
  }

  lemma FirstOccurrence(before: string, mark: string, rest: string)
    requires mark != "" && mark[0] !in before
    ensures Find(before + mark + rest, mark) == |before|
  {
    var s := before + mark + rest;
    assert Occurs(s, mark, |before|);
    assert forall i: nat :: i < |before| ==> s[i] == before[i];
    forall i: nat | Occurs(s, mark, i) ensures |before| <= i {
      OccursStarts(s, mark, i);
    }
  }

  /** Every spelling without its surroundings: white space, `./`, the corpus root, and the
      root of a private copy. */
  function Bare(r: Repositories, spelling: string): string {
    Uncopied(Unrooted(r.root, Undotted(spelling)), COPY)
  }

  /** The address of a path in a directory. */
  function Address(r: Repositories, dir: string, path: string): string
    requires dir in r.names && Holds(dir, path)
  {
    r.names[dir] + ":" + if path == dir then "" else path[|dir| + 1..]
  }

  ghost predicate Captures(r: Repositories, dir: string, path: string) {
    dir in r.dirs && Holds(dir, path) && forall d :: d in r.dirs && Holds(d, path) ==> |d| <= |dir|
  }

  /** The address of a bare path: in the longest registered directory that holds it; else
      under a repository's name; else under no name. */
  ghost predicate IsAddress(r: Repositories, path: string, address: string)
    requires Valid(r)
  {
    && (forall d :: Captures(r, d, path) ==> address == Address(r, d, path))
    && ((forall d :: d in r.dirs ==> !Holds(d, path)) ==>
          address == if IndexOf(path, '/') < |path| && path[..IndexOf(path, '/')] in r.names.Values
                     then path[..IndexOf(path, '/')] + ":" + path[IndexOf(path, '/') + 1..]
                     else ":" + path)
  }

  method TrimRoots(root: string, path: string) returns (r: string)
    ensures r == Unrooted(root, path)
  {
    var prefixes := [root + "/", root + "/"];
    r := path;
    for i := 0 to |prefixes|
      invariant i == 0 ==> r == path
      invariant i == 1 ==> r == TrimPrefix(path, root + "/")
      invariant i == 2 ==> r == Unrooted(root, path)
    {
      r := TrimPrefix(r, prefixes[i]);
    }
  }

  method CutCopy(path: string, mark: string) returns (r: string)
    ensures r == Uncopied(path, mark)
  {
    r := path;
    var index := Find(r, mark);
    if index >= 0 {
      r := r[index + |mark|..];
    }
  }

  method Canonical(r: Repositories, spelling: string) returns (address: string)
    requires Valid(r)
    ensures IsAddress(r, Bare(r, spelling), address)
  {
    var path := Undotted(spelling);
    path := TrimRoots(r.root, path);
    path := CutCopy(path, COPY);
    address := Locate(r, path);
  }

  method Locate(r: Repositories, path: string) returns (address: string)
    requires Valid(r)
    ensures IsAddress(r, path, address)
  {
    for i := 0 to |r.dirs|
      invariant forall j :: 0 <= j < i ==> !Holds(r.dirs[j], path)
    {
      var dir := r.dirs[i];
      assert dir in r.dirs && dir in r.names;
      if path == dir {
        CapturedFirst(r, i, path);
        assert Holds(dir, path);
        return r.names[dir] + ":";
      }
      if dir + "/" <= path {
        CapturedFirst(r, i, path);
        assert Holds(dir, path);
        return r.names[dir] + ":" + TrimPrefix(path, dir + "/");
      }
    }
    var slash := IndexOf(path, '/');
    if slash < |path| && path[..slash] in r.names.Values {
      return path[..slash] + ":" + path[slash + 1..];
    }
    return ":" + path;
  }

  /** The first directory that holds a path is the only one that captures it. */
  lemma CapturedFirst(r: Repositories, i: nat, path: string)
    requires Valid(r) && i < |r.dirs| && Holds(r.dirs[i], path)
    requires forall j :: 0 <= j < i ==> !Holds(r.dirs[j], path)
    ensures forall d :: Captures(r, d, path) <==> d == r.dirs[i]
  {
    forall d | Captures(r, d, path) ensures d == r.dirs[i] {
      CaptureUnique(r, d, r.dirs[i], path);
    }
    forall d | d in r.dirs && Holds(d, path) ensures |d| <= |r.dirs[i]| {
      var j :| 0 <= j < |r.dirs| && r.dirs[j] == d;
    }
  }

  lemma CaptureUnique(r: Repositories, a: string, b: string, path: string)
    requires Captures(r, a, path) && b in r.dirs && Holds(b, path)
    requires |b| >= |a|
    ensures a == b
  {
    assert a == path[..|a|] && b == path[..|b|];
  }

  lemma {:induction false} CaptorExists(r: Repositories, path: string) returns (dir: string)
    requires exists d :: d in r.dirs && Holds(d, path)
    ensures Captures(r, dir, path)
  {
    dir :| dir in r.dirs && Holds(dir, path);
    var i := 0;
    while i < |r.dirs|
      invariant i <= |r.dirs| && dir in r.dirs && Holds(dir, path)
      invariant forall j :: 0 <= j < i && Holds(r.dirs[j], path) ==> |r.dirs[j]| <= |dir|
    {
      if Holds(r.dirs[i], path) && |r.dirs[i]| > |dir| {
        dir := r.dirs[i];
      }
      i := i + 1;
    }
  }

  /** A bare path has one address. */
  lemma AddressUnique(r: Repositories, path: string, a: string, b: string)
    requires Valid(r) && IsAddress(r, path, a) && IsAddress(r, path, b)
    ensures a == b
  {
    if d :| d in r.dirs && Holds(d, path) {
      var dir := CaptorExists(r, path);
    }
  }

  // ---- Spellings ----

  /** A path none of the trimming touches. */
  predicate Plain(r: Repositories, path: string) {
    Trimmed(path) && !("./" <= path) && !(r.root + "/" <= path) && Find(path, COPY) < 0
  }

  lemma DottedStays(path: string)
    requires Trimmed(path) && path != ""
    ensures Undotted("./" + path) == path
  {
    TrimPrefixOff("./", path);
  }

  lemma HeadedStays(head: string, path: string)
    requires |head| >= 2 && !Space(head[0]) && !("./" <= head) && Trimmed(path) && path != ""
    ensures Undotted(head + path) == head + path
  {}

  /** A plain path, the same behind `./` and the same behind the corpus root all mean that path. */
  lemma SpellingsAgree(r: Repositories, path: string)
    requires Plain(r, path) && path != "" && r.root != "" && !Space(r.root[0]) && r.root != "." && !("./" <= r.root)
    ensures Bare(r, path) == Bare(r, "./" + path) == Bare(r, r.root + "/" + path) == path
  {
    DottedStays(path);
    NotDotted(r.root);
    HeadedStays(r.root + "/", path);
    TrimPrefixOff(r.root + "/", path);
  }

  lemma NotDotted(root: string)
    requires root != "" && root != "." && !("./" <= root)
    ensures !("./" <= root + "/")
  {
    if |root| == 1 {
      assert (root + "/")[0] == root[0] && root == [root[0]];
    }
  }

  /** The private copy's spelling: whatever stands before the first `/workspace-copy/` goes. */
  lemma CopyAgrees(r: Repositories, before: string, path: string)
    requires Plain(r, path) && path != "" && before != "" && !Space(before[0]) && !("./" <= before + COPY)
    requires Find(before + COPY + path, COPY) == |before| && !(r.root + "/" <= before + COPY + path)
    ensures Bare(r, before + COPY + path) == path
  {
    HeadedStays(before + COPY, path);
    CutBehind(before, COPY, path);
  }

  /** A path inside a repository has the same address spelled under the repository's name,
      as long as no registered directory captures that spelling. */
  lemma NameAgrees(r: Repositories, dir: string, rest: string, a: string)
    requires Valid(r) && Captures(r, dir, dir + "/" + rest)
    requires forall d :: d in r.dirs ==> !Holds(d, r.names[dir] + "/" + rest)
    ensures IsAddress(r, dir + "/" + rest, a) <==> a == r.names[dir] + ":" + rest
    ensures IsAddress(r, r.names[dir] + "/" + rest, a) <==> a == r.names[dir] + ":" + rest
  {
    var path, named := dir + "/" + rest, r.names[dir] + "/" + rest;
    assert path[|dir| + 1..] == rest;
    CapturedAddress(r, dir, path, a);
    IndexOfAt(r.names[dir], '/', rest);
    assert named == r.names[dir] + ['/'] + rest;
    assert named[..|r.names[dir]|] == r.names[dir] && named[|r.names[dir]| + 1..] == rest;
  }

  lemma TrimmedAlready(s: string)
    requires Trimmed(s)
    ensures TrimSpace(s) == s
  {}

  lemma TrimmedShorter(s: string)
    requires TrimSpace(s) != s
    ensures |TrimSpace(s)| < |s|
  {
    if |TrimLeft(s)| == |s| {
      assert TrimLeft(s) == s;
    }
  }

  lemma PrefixExactly(s: string, prefix: string)
    requires prefix != ""
    ensures TrimPrefix(s, prefix) == s <==> !(prefix <= s)
    ensures |TrimPrefix(s, prefix)| <= |s|
  {}

  lemma UnrootedExactly(root: string, s: string)
    ensures Unrooted(root, s) == s <==> !(root + "/" <= s)
    ensures |Unrooted(root, s)| <= |s|
  {
    PrefixExactly(s, root + "/");
    PrefixExactly(TrimPrefix(s, root + "/"), root + "/");
  }

  lemma UndottedExactly(s: string)
    ensures Undotted(s) == s <==> Trimmed(s) && !("./" <= s)
    ensures |Undotted(s)| <= |s|
  {
    if Trimmed(s) {
      TrimmedAlready(s);
    } else {
      TrimmedShorter(s);
    }
    PrefixExactly(TrimSpace(s), "./");
  }

  /** The trimming leaves a path alone exactly when it is plain. */
  lemma PlainExactly(r: Repositories, path: string)
    ensures Bare(r, path) == path <==> Plain(r, path)
  {
    var undotted := Undotted(path);
    var unrooted := Unrooted(r.root, undotted);
    UndottedExactly(path);
    UnrootedExactly(r.root, undotted);
    assert |Bare(r, path)| <= |unrooted| && (Bare(r, path) == unrooted <==> Find(unrooted, COPY) < 0);
  }

  // ---- Different files, different addresses ----

  ghost predicate Share(r: Repositories, p: string, q: string)
    requires Valid(r)
  {
    exists a :: IsAddress(r, p, a) && IsAddress(r, q, a)
  }

  /** What an address keeps of a path besides the repository. */
  function Inside(dir: string, path: string): string
    requires Holds(dir, path)
  {
    if path == dir then "" else path[|dir| + 1..]
  }

  lemma CapturedAddress(r: Repositories, d: string, p: string, a: string)
    requires Valid(r) && Captures(r, d, p)
    ensures IsAddress(r, p, a) <==> a == r.names[d] + ":" + Inside(d, p)
  {
    assert d in r.dirs && Holds(d, p) && Address(r, d, p) == r.names[d] + ":" + Inside(d, p);
    forall e | Captures(r, e, p) ensures e == d {
      CapturedOnce(r, d, e, p);
    }
  }

  lemma CapturedOnce(r: Repositories, d: string, e: string, p: string)
    requires Captures(r, d, p) && Captures(r, e, p)
    ensures d == e
  {
    CaptureUnique(r, d, e, p);
  }

  lemma SharedInside(r: Repositories, d: string, p: string, e: string, q: string)
    requires Valid(r) && Captures(r, d, p) && Captures(r, e, q)
    ensures Share(r, p, q) <==> r.names[d] + ":" + Inside(d, p) == r.names[e] + ":" + Inside(e, q)
  {
    var a := r.names[d] + ":" + Inside(d, p);
    CapturedAddress(r, d, p, a);
    CapturedAddress(r, e, q, a);
    if b :| IsAddress(r, p, b) && IsAddress(r, q, b) {
      CapturedAddress(r, d, p, b);
      CapturedAddress(r, e, q, b);
    }
  }

  lemma InsideDetermines(dir: string, p: string, q: string)
    requires Holds(dir, p) && Holds(dir, q)
    ensures Inside(dir, p) == Inside(dir, q) <==> p == q || {p, q} == {dir, dir + "/"}
  {
    assert p != dir ==> p == dir + "/" + Inside(dir, p);
    assert q != dir ==> q == dir + "/" + Inside(dir, q);
    assert dir + "/" + "" == dir + "/";
  }

  /** One path, or a directory's own with and without the trailing separator. */
  predicate SamePath(d: string, p: string, e: string, q: string) {
    p == q || (d == e && {p, q} == {d, d + "/"})
  }

  lemma SharedPaths(r: Repositories, d: string, p: string, q: string)
    requires Valid(r) && Captures(r, d, p) && Captures(r, d, q)
    ensures Share(r, p, q) <==> SamePath(d, p, d, q)
  {
    SharedInside(r, d, p, d, q);
    InsideDetermines(d, p, q);
    var head, x, y := r.names[d] + ":", Inside(d, p), Inside(d, q);
    assert (head + x)[|head|..] == x && (head + y)[|head|..] == y;
  }

  /** `canonical` gives both spellings one address. */
  ghost predicate SameAddress(r: Repositories, s: string, t: string)
    requires Valid(r)
  {
    Share(r, Bare(r, s), Bare(r, t))
  }

  /** What is left of the spelling lies in that registered directory and in no longer one. */
  ghost predicate Lies(r: Repositories, d: string, s: string) {
    Captures(r, d, Bare(r, s))
  }

  /** Within one directory two spellings share their address exactly when the same path is
      left of both, the directory's own aside. */
  lemma SharedWithin(r: Repositories, d: string, s: string, t: string)
    requires Valid(r) && Lies(r, d, s) && Lies(r, d, t)
    ensures SameAddress(r, s, t) <==> SamePath(d, Bare(r, s), d, Bare(r, t))
  {
    SharedPaths(r, d, Bare(r, s), Bare(r, t));
  }

  /** The path does not end in white space. */
  predicate Ends(path: string) {
    path != "" && !Space(path[|path| - 1])
  }

  lemma EndsAs(front: string, name: string)
    requires Ends(name)
    ensures Ends(front + name)
  {
    assert (front + name)[|front + name| - 1] == name[|name| - 1];
  }

  lemma Stays(root: string, s: string)
    requires Trimmed(s) && |s| > |root| && s[0] != '.' && s[|root|] != '/'
    ensures Unrooted(root, Undotted(s)) == s
  {
    assert !("./" <= s);
    UndottedExactly(s);
    assert !(root + "/" <= s) by {
      assert (root + "/")[|root|] == '/';
    }
    UnrootedExactly(root, s);
  }

  /** Every path that does not end in white space is what some spelling leaves: the one in a
      private copy whose own name neither the root nor the mark matches. */
  lemma Spelled(r: Repositories, p: string) returns (s: string)
    requires Ends(p)
    ensures Bare(r, s) == p
  {
    var head := seq(|r.root| + 1, _ => 'x');
    s := head + COPY + p;
    assert Unrooted(r.root, Undotted(s)) == s by {
      assert s[0] == head[0] && s[|r.root|] == head[|r.root|] && s[|s| - 1] == p[|p| - 1];
      Stays(r.root, s);
    }
    assert Uncopied(s, COPY) == p by {
      FirstOccurrence(head, COPY, p);
      CutBehind(head, COPY, p);
    }
  }

  /** Equal names, or one that continues the other past a colon. */
  predicate Confusable(n: string, m: string) {
    n == m || n + ":" <= m || m + ":" <= n
  }

  lemma SameTextConfusable(n: string, x: string, m: string, y: string)
    requires n + ":" + x == m + ":" + y
    ensures Confusable(n, m)
  {
    var s := n + ":" + x;
    assert n == s[..|n|] && m == s[..|m|];
    assert n + ":" == s[..|n| + 1] && m + ":" == s[..|m| + 1];
  }

  /** A name no shorter than any registered directory. */
  lemma {:induction false} Filler(dirs: seq<string>) returns (y: string)
    ensures y != "" && forall c :: c in y ==> c == 'x'
    ensures forall d :: d in dirs ==> |d| <= |y|
  {
    if dirs == [] {
      y := "x";
    } else {
      var z := Filler(dirs[1..]);
      y := z + seq(|dirs[0]|, _ => 'x');
    }
  }

  /** No directory inside `d` captures a long name directly in it. */
  lemma LongNameCaptured(r: Repositories, d: string, rest: string)
    requires d in r.dirs && '/' !in rest && forall e :: e in r.dirs ==> |e| <= |rest|
    ensures Captures(r, d, d + "/" + rest)
  {
    var p := d + "/" + rest;
    assert forall i :: |d| < i < |p| ==> p[i] == rest[i - |d| - 1];
    forall e | e in r.dirs && Holds(e, p) ensures |e| <= |d| {
      assert (e + "/")[|e|] == '/';
    }
  }

  /** What the two directories keep of two paths that `n` and `m` make the same address of. */
  lemma SameText(n: string, m: string, y: string) returns (more: string)
    requires n == m || n + ":" <= m
    requires '/' !in m && '/' !in y && y != ""
    ensures n + ":" + more == m + ":" + y
    ensures '/' !in more && |y| <= |more| && more[|more| - 1] == y[|y| - 1]
  {
    if n == m {
      more := y;
    } else {
      var rest := m[|n| + 1..];
      more := rest + ":" + y;
      assert m == n + ":" + rest;
      assert n + ":" + more == n + ":" + rest + ":" + y;
    }
  }

  /** No spelling of a path of the one directory shares its address with one of the other's. */
  ghost predicate Apart(r: Repositories, d: string, e: string)
    requires Valid(r)
  {
    forall s, t :: Lies(r, d, s) && Lies(r, e, t) ==> !SameAddress(r, s, t)
  }

  /** The path names a file directly in the directory, without white space at its end. */
  predicate Below(d: string, p: string) {
    d + "/" < p && '/' !in p[|d| + 1..] && Ends(p)
  }

  lemma FileBelow(d: string, name: string)
    requires '/' !in name && Ends(name)
    ensures Below(d, d + "/" + name)
  {
    var p := d + "/" + name;
    assert p[|d| + 1..] == name && p[|p| - 1] == name[|name| - 1];
    assert p[..|d| + 1] == d + "/";
  }

  lemma ConfusedPaths(r: Repositories, d: string, e: string) returns (p: string, q: string)
    requires Valid(r) && d in r.dirs && e in r.dirs
    requires r.names[d] == r.names[e] || r.names[d] + ":" <= r.names[e]
    ensures Captures(r, d, p) && Captures(r, e, q) && Share(r, p, q)
    ensures Below(d, p) && Below(e, q)
  {
    var y := Filler(r.dirs);
    var more := SameText(r.names[d], r.names[e], y);
    LongNameCaptured(r, d, more);
    LongNameCaptured(r, e, y);
    p, q := d + "/" + more, e + "/" + y;
    assert Inside(d, p) == more && Inside(e, q) == y;
    SharedInside(r, d, p, e, q);
    assert y[|y| - 1] in y;
    FileBelow(d, more);
    FileBelow(e, y);
  }

  lemma ConfusedSpellings(r: Repositories, d: string, e: string)
    requires Valid(r) && d in r.dirs && e in r.dirs
    requires r.names[d] == r.names[e] || r.names[d] + ":" <= r.names[e]
    ensures !Apart(r, d, e) && !Apart(r, e, d)
  {
    var p, q := ConfusedPaths(r, d, e);
    var s := Spelled(r, p);
    var t := Spelled(r, q);
    assert Lies(r, d, s) && Lies(r, e, t) && SameAddress(r, s, t);
    var a :| IsAddress(r, p, a) && IsAddress(r, q, a);
    assert SameAddress(r, t, s);
  }

  lemma SharedConfuses(r: Repositories, d: string, p: string, e: string, q: string)
    requires Valid(r) && Captures(r, d, p) && Captures(r, e, q) && Share(r, p, q)
    ensures Confusable(r.names[d], r.names[e])
  {
    SharedInside(r, d, p, e, q);
    SameTextConfusable(r.names[d], Inside(d, p), r.names[e], Inside(e, q));
  }

  /** Two registered directories are so exactly when their base names cannot be confused. */
  lemma SeparableDirectories(r: Repositories, d: string, e: string)
    requires Valid(r) && d in r.dirs && e in r.dirs
    ensures Apart(r, d, e) <==> !Confusable(r.names[d], r.names[e])
  {
    if r.names[d] == r.names[e] || r.names[d] + ":" <= r.names[e] {
      ConfusedSpellings(r, d, e);
    } else if r.names[e] + ":" <= r.names[d] {
      ConfusedSpellings(r, e, d);
    } else {
      forall s, t | Lies(r, d, s) && Lies(r, e, t) ensures !SameAddress(r, s, t) {
        if SameAddress(r, s, t) {
          SharedConfuses(r, d, Bare(r, s), e, Bare(r, t));
        }
      }
    }
  }

  /** Two spellings of paths in registered directories share an address exactly when the same
      path is left of both, up to a directory's trailing separator. */
  ghost predicate TellsApart(r: Repositories)
    requires Valid(r)
  {
    forall d, s, e, t :: Lies(r, d, s) && Lies(r, e, t) ==>
      (SameAddress(r, s, t) <==> SamePath(d, Bare(r, s), e, Bare(r, t)))
  }

  /** The base names of different registered directories cannot be confused. */
  ghost predicate ClearNames(r: Repositories)
    requires Valid(r)
  {
    forall d, e :: d in r.dirs && e in r.dirs && d != e ==> !Confusable(r.names[d], r.names[e])
  }

  /** They do exactly when the names are clear. */
  lemma AddressesDistinguish(r: Repositories)
    requires Valid(r)
    ensures TellsApart(r) <==> ClearNames(r)
  {
    if TellsApart(r) {
      forall d, e | d in r.dirs && e in r.dirs && d != e ensures !Confusable(r.names[d], r.names[e]) {
        TellsDirectories(r, d, e);
        SeparableDirectories(r, d, e);
      }
    }
    if ClearNames(r) {
      forall d, s, e, t | Lies(r, d, s) && Lies(r, e, t)
        ensures SameAddress(r, s, t) <==> SamePath(d, Bare(r, s), e, Bare(r, t))
      {
        ClearNamesTell(r, d, Bare(r, s), e, Bare(r, t));
      }
    }
  }

  lemma ClearNamesTell(r: Repositories, d: string, p: string, e: string, q: string)
    requires Valid(r) && ClearNames(r) && Captures(r, d, p) && Captures(r, e, q)
    ensures Share(r, p, q) <==> SamePath(d, p, e, q)
  {
    if d == e {
      SharedPaths(r, d, p, q);
    } else {
      DifferentPaths(r, d, p, e, q);
      if Share(r, p, q) {
        SharedConfuses(r, d, p, e, q);
      }
    }
  }

  lemma TellsDirectories(r: Repositories, d: string, e: string)
    requires Valid(r) && d != e && TellsApart(r)
    ensures Apart(r, d, e)
  {
    forall s, t | Lies(r, d, s) && Lies(r, e, t) ensures !SameAddress(r, s, t) {
      DifferentPaths(r, d, Bare(r, s), e, Bare(r, t));
    }
  }

  lemma DifferentPaths(r: Repositories, d: string, p: string, e: string, q: string)
    requires d != e && Captures(r, d, p) && Captures(r, e, q)
    ensures !SamePath(d, p, e, q)
  {
    if p == q {
      CapturedOnce(r, d, e, p);
    }
  }

  // ---- Different paths that are spellings of one ----

  /** White space behind a spelling never tells. */
  lemma {:induction false} SpaceCollapses(r: Repositories, spelling: string)
    ensures Bare(r, spelling + " ") == Bare(r, spelling)
  {
    TrimmedSpace(spelling);
  }

  lemma {:induction false} TrimmedSpace(s: string)
    ensures TrimSpace(s + " ") == TrimSpace(s)
  {
    var spaced := s + " ";
    if s == [] {
      assert spaced[1..] == [];
    } else if Space(s[0]) {
      assert spaced[1..] == s[1..] + " ";
      TrimmedSpace(s[1..]);
    } else {
      assert spaced[..|s|] == s && spaced[|s|] == ' ';
    }
  }

  lemma CopiedHeld(dir: string, path: string)
    ensures Holds(dir, dir + COPY + path) && dir + COPY + path != path
  {
    var copied := dir + COPY + path;
    assert copied[..|dir|] == dir && copied[|dir|] == '/';
    assert copied[..|dir| + 1] == dir + "/";
  }

  lemma NoDotBefore(dir: string, rest: string)
    requires '/' !in dir && dir != "" && dir != "."
    ensures !("./" <= dir + rest)
  {
    if |dir| == 1 {
      assert (dir + rest)[0] == dir[0] && dir == [dir[0]];
    } else {
      assert (dir + rest)[1] == dir[1];
    }
  }

  /** A plain path of a registered directory shares its address with the file of that path
      in a directory `workspace-copy` of the same repository. */
  lemma CopyCollapses(r: Repositories, dir: string, path: string)
    requires Valid(r) && dir in r.dirs && Plain(r, path) && Captures(r, dir, path)
    requires '/' !in dir && !Space(dir[0]) && dir != "." && !(r.root + "/" <= dir + COPY + path)
    ensures Holds(dir, dir + COPY + path) && dir + COPY + path != path
    ensures SameAddress(r, path, dir + COPY + path)
  {
    CopiedHeld(dir, path);
    FirstOccurrence(dir, COPY, path);
    NoDotBefore(dir, COPY);
    CopyAgrees(r, dir, path);
    PlainExactly(r, path);
    SharedPaths(r, dir, path, path);
  }

  const ALONE := Repositories(["core"], map["core" := "core"], "/corpus")

  lemma AloneClear()
    ensures Valid(ALONE) && ClearNames(ALONE)
  {
    AllBehind("core", '/');
  }

  /** As `core/x` and `core/workspace-copy/core/x` do, whose only registered directory has
      a clear name. */
  lemma CopiesCollide()
    ensures Valid(ALONE) && TellsApart(ALONE)
    ensures var path := "core" + "/x"; var copied := "core" + COPY + path;
      path != copied && Holds("core", path) && Holds("core", copied) && SameAddress(ALONE, path, copied)
  {
    AloneClear();
    AddressesDistinguish(ALONE);
    var path := "core" + "/x";
    assert path[0] == 'c' && path[1] == 'o' && path[5] == 'x';
    assert ("core" + COPY + path)[0] == 'c';
    CopyCollapses(ALONE, "core", path);
  }

  /** Among plain paths the addresses tell every path of the registered directories apart. */
  ghost predicate TellsPlain(r: Repositories)
    requires Valid(r)
  {
    forall d, p, e, q :: Plain(r, p) && Plain(r, q) && Captures(r, d, p) && Captures(r, e, q) ==>
      (SameAddress(r, p, q) <==> SamePath(d, p, e, q))
  }

  ghost predicate PlainDirectories(r: Repositories) {
    forall d :: d in r.dirs ==> Plain(r, d + "/")
  }

  /** With clear names they do; and with plain directories only then. */
  lemma PlainDistinguish(r: Repositories)
    requires Valid(r)
    ensures ClearNames(r) ==> TellsPlain(r)
    ensures PlainDirectories(r) ==> (TellsPlain(r) <==> ClearNames(r))
  {
    if ClearNames(r) {
      forall d, p, e, q | Plain(r, p) && Plain(r, q) && Captures(r, d, p) && Captures(r, e, q)
        ensures SameAddress(r, p, q) <==> SamePath(d, p, e, q)
      {
        PlainExactly(r, p);
        PlainExactly(r, q);
        ClearNamesTell(r, d, p, e, q);
      }
    }
    if PlainDirectories(r) && TellsPlain(r) {
      forall d, e | d in r.dirs && e in r.dirs && d != e ensures !Confusable(r.names[d], r.names[e]) {
        PlainUnconfused(r, d, e);
        PlainUnconfused(r, e, d);
      }
    }
  }

  lemma PlainUnconfused(r: Repositories, d: string, e: string)
    requires Valid(r) && PlainDirectories(r) && TellsPlain(r) && d in r.dirs && e in r.dirs && d != e
    ensures !(r.names[d] == r.names[e] || r.names[d] + ":" <= r.names[e])
  {
    if r.names[d] == r.names[e] || r.names[d] + ":" <= r.names[e] {
      var p, q := ConfusedPaths(r, d, e);
      PlainBelow(r, d, p);
      PlainBelow(r, e, q);
      PlainExactly(r, p);
      PlainExactly(r, q);
      assert SameAddress(r, p, q);
      DifferentPaths(r, d, p, e, q);
    }
  }

  /** What ends in a separator stands where the separators are. */
  lemma StandsEarlier(head: string, tail: string, mark: string, i: nat)
    requires '/' !in tail && mark != "" && mark[|mark| - 1] == '/' && Occurs(head + tail, mark, i)
    ensures Occurs(head, mark, i)
  {
    var s, last := head + tail, i + |mark| - 1;
    assert s[last] == s[i..i + |mark|][|mark| - 1];
    assert last < |head|;
    assert s[i..i + |mark|] == head[i..i + |mark|];
  }

  lemma StartsEarlier(head: string, tail: string, mark: string)
    requires '/' !in tail && mark != "" && mark[|mark| - 1] == '/'
    ensures mark <= head + tail ==> mark <= head
  {
    if mark <= head + tail {
      StandsEarlier(head, tail, mark, 0);
    }
  }

  lemma PlainBelow(r: Repositories, d: string, p: string)
    requires Plain(r, d + "/") && Below(d, p)
    ensures Plain(r, p)
  {
    var head, tail := d + "/", p[|d| + 1..];
    assert p == head + tail && p[0] == head[0];
    StartsEarlier(head, tail, "./");
    StartsEarlier(head, tail, r.root + "/");
    forall i: nat | Occurs(p, COPY, i) ensures Occurs(head, COPY, i) {
      StandsEarlier(head, tail, COPY, i);
    }
  }

  lemma {:induction false} BaseBehind(front: string, name: string)
    requires '/' !in name
    ensures Base(front + "/" + name) == name
  {
    var path := front + "/" + name;
    if name == "" {
      assert path[|path| - 1] == '/';
    } else {
      var n := |name| - 1;
      assert path[..|path| - 1] == front + "/" + name[..n] && path[|path| - 1] == name[n];
      BaseBehind(front, name[..n]);
    }
  }

  /** Discovery registers two clones of one name, and then two files share an address. */
  lemma ClonesShare(root: string)
    ensures var r := Repositories(["a/core", "b/core"], map["a/core" := "core", "b/core" := "core"], root);
      Valid(r) && !TellsApart(r)
  {
    var r := Repositories(["a/core", "b/core"], map["a/core" := "core", "b/core" := "core"], root);
    BaseBehind("a", "core");
    BaseBehind("b", "core");
    assert "a" + "/" + "core" == "a/core" && "b" + "/" + "core" == "b/core";
    assert "a/core"[0] != "b/core"[0];
    assert "a/core" in r.dirs && "b/core" in r.dirs;
    AddressesDistinguish(r);
  }

  // ---- Paths outside every repository ----

  /** What is left of the spelling lies in no registered directory. */
  ghost predicate Stray(r: Repositories, path: string) {
    forall d :: d in r.dirs ==> !Holds(d, path)
  }

  /** Some path outside every repository has the address of a file in one. */
  ghost predicate StrayShares(r: Repositories)
    requires Valid(r)
  {
    exists d, s, t :: Lies(r, d, s) && Stray(r, Bare(r, t)) && SameAddress(r, s, t)
  }

  /** The repository is not registered under its own name, or that name starts with a colon. */
  predicate Borrowed(r: Repositories, d: string) {
    d in r.names && (r.names[d] !in r.dirs || (r.names[d] != "" && r.names[d][0] == ':'))
  }

  lemma StraySpelled(r: Repositories, d: string, p: string, q: string)
    requires Valid(r) && Captures(r, d, p) && Stray(r, q) && Share(r, p, q)
    requires Ends(p) && Ends(q)
    ensures StrayShares(r)
  {
    var s := Spelled(r, p);
    var t := Spelled(r, q);
    assert Lies(r, d, s) && Stray(r, Bare(r, t)) && SameAddress(r, s, t);
  }

  lemma HeldSlash(e: string, path: string)
    requires Holds(e, path) && e != path
    ensures |e| < |path| && path[|e|] == '/'
  {
    assert (e + "/")[|e|] == '/';
  }

  /** Only the name in front holds a long name directly in it. */
  lemma HeldDirectly(e: string, n: string, y: string)
    requires '/' !in n && '/' !in y && |e| <= |y| && Holds(e, n + "/" + y)
    ensures e == n
  {
    var q := n + "/" + y;
    HeldSlash(e, q);
    assert forall i :: 0 <= i < |q| && q[i] == '/' ==> i == |n|;
    assert e == q[..|e|];
  }

  lemma NamedIsStray(r: Repositories, n: string, y: string)
    requires '/' !in n && n !in r.dirs && '/' !in y && forall e :: e in r.dirs ==> |e| <= |y|
    ensures Stray(r, n + "/" + y)
  {
    forall e | e in r.dirs ensures !Holds(e, n + "/" + y) {
      if Holds(e, n + "/" + y) {
        HeldDirectly(e, n, y);
      }
    }
  }

  /** A path under a name that is no directory of its own. */
  lemma NamedStray(r: Repositories, d: string, y: string)
    requires Valid(r) && d in r.dirs && r.names[d] !in r.dirs
    requires '/' !in y && forall e :: e in r.dirs ==> |e| <= |y|
    ensures var p, q := d + "/" + y, r.names[d] + "/" + y;
      Captures(r, d, p) && Stray(r, q) && Share(r, p, q)
  {
    LongNameCaptured(r, d, y);
    NamedIsStray(r, r.names[d], y);
    NameAgrees(r, d, y, r.names[d] + ":" + y);
  }

  lemma LongIsStray(r: Repositories, q: string)
    requires '/' !in q && forall e :: e in r.dirs ==> |e| < |q|
    ensures Stray(r, q)
  {
    forall e | e in r.dirs ensures !Holds(e, q) {
      if Holds(e, q) {
        HeldSlash(e, q);
      }
    }
  }

  lemma RootAddress(r: Repositories, q: string)
    requires Valid(r) && Stray(r, q) && '/' !in q
    ensures IsAddress(r, q, ":" + q)
  {
    assert forall d :: !Captures(r, d, q);
  }

  lemma LongNameAddress(r: Repositories, d: string, y: string)
    requires Valid(r) && d in r.dirs && '/' !in y && forall e :: e in r.dirs ==> |e| <= |y|
    ensures Captures(r, d, d + "/" + y) && IsAddress(r, d + "/" + y, r.names[d] + ":" + y)
  {
    var p := d + "/" + y;
    LongNameCaptured(r, d, y);
    assert p[|d| + 1..] == y && Inside(d, p) == y;
    CapturedAddress(r, d, p, r.names[d] + ":" + y);
  }

  /** A file at the corpus root whose name repeats the address of another past its colon. */
  lemma ColonStray(r: Repositories, d: string, more: string, y: string)
    requires Valid(r) && d in r.dirs && r.names[d] == ":" + more && '/' !in more
    requires '/' !in y && forall e :: e in r.dirs ==> |e| <= |y|
    ensures Captures(r, d, d + "/" + y) && Stray(r, more + ":" + y) && Share(r, d + "/" + y, more + ":" + y)
  {
    var q, a := more + ":" + y, r.names[d] + ":" + y;
    assert ":" + q == a;
    LongNameAddress(r, d, y);
    assert Stray(r, q) by {
      assert '/' !in q;
      LongIsStray(r, q);
    }
    assert IsAddress(r, q, a) by {
      RootAddress(r, q);
    }
  }

  lemma BorrowedShares(r: Repositories, d: string) returns (p: string, q: string)
    requires Valid(r) && Borrowed(r, d)
    ensures Captures(r, d, p) && Stray(r, q) && Share(r, p, q) && Ends(p) && Ends(q)
  {
    var y := Filler(r.dirs);
    assert y[|y| - 1] in y;
    p := d + "/" + y;
    EndsAs(d + "/", y);
    if r.names[d] !in r.dirs {
      q := r.names[d] + "/" + y;
      NamedStray(r, d, y);
      EndsAs(r.names[d] + "/", y);
    } else {
      var more := r.names[d][1..];
      q := more + ":" + y;
      assert r.names[d] == ":" + more;
      ColonStray(r, d, more, y);
      EndsAs(more + ":", y);
    }
  }

  lemma FirstPartHolds(path: string, slash: nat)
    requires slash < |path| && path[slash] == '/'
    ensures Holds(path[..slash], path)
  {
    assert path[..slash] + "/" == path[..slash + 1];
  }

  lemma StrayBorrows(r: Repositories, d: string, p: string, q: string)
    requires Valid(r) && Captures(r, d, p) && Stray(r, q) && Share(r, p, q)
    ensures exists e :: Borrowed(r, e)
  {
    var a :| IsAddress(r, p, a) && IsAddress(r, q, a);
    CapturedAddress(r, d, p, a);
    var slash := IndexOf(q, '/');
    if slash < |q| && q[..slash] in r.names.Values {
      var e :| e in r.names && r.names[e] == q[..slash];
      FirstPartHolds(q, slash);
      assert Borrowed(r, e);
    } else {
      assert r.names[d] != "" && a[0] == r.names[d][0];
      assert Borrowed(r, d);
    }
  }

  /** Such a path exists exactly when some repository is so. */
  lemma StraysExactly(r: Repositories)
    requires Valid(r)
    ensures StrayShares(r) <==> exists d :: Borrowed(r, d)
  {
    if d :| Borrowed(r, d) {
      var p, q := BorrowedShares(r, d);
      StraySpelled(r, d, p, q);
    }
    if d, s, t :| Lies(r, d, s) && Stray(r, Bare(r, t)) && SameAddress(r, s, t) {
      StrayBorrows(r, d, Bare(r, s), Bare(r, t));
    }
  }

  /** As `services/api` is, and a plain directory `api` beside it. */
  lemma StrayExists(root: string)
    ensures var r := Repositories(["services/api"], map["services/api" := "api"], root);
      Valid(r) && ClearNames(r) && StrayShares(r)
  {
    var r := Repositories(["services/api"], map["services/api" := "api"], root);
    BaseBehind("services", "api");
    assert "services" + "/" + "api" == "services/api";
    assert "services/api" in r.dirs;
    assert |"api"| < |"services/api"|;
    assert Borrowed(r, "services/api");
    StraysExactly(r);
  }
}
