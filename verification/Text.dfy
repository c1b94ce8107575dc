/** Trimming and searching strings as Go's and Python's libraries do it. */
module Text {

  /** The characters with Unicode's White_Space property, which `strings.TrimSpace` removes. */
  predicate Space(c: char) {
    || '\t' <= c <= '\r' || c == ' ' || c == '\U{85}' || c == '\U{A0}' || c == '\U{1680}'
    || '\U{2000}' <= c <= '\U{200A}' || c == '\U{2028}' || c == '\U{2029}'
    || c == '\U{202F}' || c == '\U{205F}' || c == '\U{3000}'
  }

  /** What `str.strip` removes: the separators FS, GS, RS and US as well. */
  predicate Blank(c: char) {
    Space(c) || '\U{1C}' <= c <= '\U{1F}'
  }

  function TrimLeft(s: string): (r: string)
    ensures |r| <= |s| && r == s[|s| - |r|..]
    ensures r == [] || !Space(r[0])
  {
    if s != [] && Space(s[0]) then TrimLeft(s[1..]) else s
  }

  function TrimRight(s: string): (r: string)
    ensures r <= s
    ensures r == [] || !Space(r[|r| - 1])
  {
    if s != [] && Space(s[|s| - 1]) then TrimRight(s[..|s| - 1]) else s
  }

  function TrimSpace(s: string): (r: string)
    ensures |r| <= |s|
    ensures Trimmed(r)
  {
    TrimRight(TrimLeft(s))
  }

  function StripLeft(s: string): string {
    if s != [] && Blank(s[0]) then StripLeft(s[1..]) else s
  }

  function StripRight(s: string): string {
    if s != [] && Blank(s[|s| - 1]) then StripRight(s[..|s| - 1]) else s
  }

  function Strip(s: string): string {
    StripRight(StripLeft(s))
  }

  predicate Trimmed(s: string) {
    s == [] || (!Space(s[0]) && !Space(s[|s| - 1]))
  }

  /** Trimming takes the newline off a line that has no other white space at its ends. */
  lemma TrimmedStays(s: string)
    requires Trimmed(s)
    ensures TrimSpace(s + "\n") == s
  {
    var line := s + "\n";
    assert line[..|s|] == s && line[|s|] == '\n';
    if s == [] {
      assert line == "\n" && line[1..] == [];
      assert TrimLeft(line) == TrimLeft(line[1..]) == [];
    } else {
      assert TrimLeft(line) == line;
      assert TrimRight(line) == TrimRight(line[..|s|]);
    }
  }

  function TrimPrefix(s: string, prefix: string): string {
    if prefix <= s then s[|prefix|..] else s
  }

  lemma TrimPrefixOff(prefix: string, rest: string)
    ensures TrimPrefix(prefix + rest, prefix) == rest
  {
    assert (prefix + rest)[|prefix|..] == rest;
  }

  /** The index of the first `c`, or the length when there is none. */
  function IndexOf(s: string, c: char): (r: nat)
    ensures r <= |s|
    ensures forall i :: 0 <= i < r ==> s[i] != c
    ensures r < |s| ==> s[r] == c
  {
    if s == [] || s[0] == c then 0 else 1 + IndexOf(s[1..], c)
  }

  lemma {:induction false} IndexOfAt(s: string, c: char, t: string)
    requires forall i :: 0 <= i < |s| ==> s[i] != c
    ensures IndexOf(s + [c] + t, c) == |s|
  {
    if s != [] {
      assert (s + [c] + t)[1..] == s[1..] + [c] + t;
      IndexOfAt(s[1..], c, t);
    }
  }

  /** What stands behind the last `c`. */
  function Behind(s: string, c: char): (r: string)
    ensures c !in r && |r| <= |s|
    ensures s != "" && s[|s| - 1] != c ==> r != ""
  {
    if s == "" || s[|s| - 1] == c then "" else Behind(s[..|s| - 1], c) + [s[|s| - 1]]
  }

  lemma {:induction false} AllBehind(s: string, c: char)
    requires c !in s
    ensures Behind(s, c) == s
  {
    if s != "" {
      AllBehind(s[..|s| - 1], c);
    }
  }

  predicate Occurs(s: string, sub: string, i: nat) {
    i + |sub| <= |s| && s[i..i + |sub|] == sub
  }

  /** The index of the first occurrence of `sub`, or -1. */
  function Find(s: string, sub: string): (r: int)
    ensures -1 <= r
    ensures r >= 0 ==> Occurs(s, sub, r)
    ensures forall i: nat :: r < 0 || i < r ==> !Occurs(s, sub, i)
  {
    if Occurs(s, sub, 0) then 0
    else if s == [] then -1
    else
      var rest := Find(s[1..], sub);
      assert forall i: nat :: Occurs(s, sub, i) ==> i > 0 && Occurs(s[1..], sub, i - 1);
      if rest < 0 then -1 else rest + 1
  }
}
