/** The inverted index of the docstring simulation: postings are gathered per
    symbol, sorted, and published as sorted keys, run offsets and values. */
module TermIndex {
  import opened Ordering
  import opened Wrappers

  type Key = int

  /** Run offsets are stored as `uint32`. */
  const OFFSET_RANGE: nat := 0x1_0000_0000

  /** The text a snapshot holds for one symbol. A string its table cannot resolve is `None`. */
  datatype Symbol = Symbol(name: Option<string>, qualifiedName: Option<string>,
                           kind: Option<string>, path: Option<string>)

  /** `symbols[id]` is `None` where the snapshot has no symbol of that id. `docs` is
      the prose, and the empty map is the control arm. `keysOf` is the tokeniser. */
  datatype Corpus = Corpus(symbols: seq<Option<Symbol>>, docs: map<nat, string>, keysOf: string -> seq<Key>) {

    function TextKeys(text: Option<string>): seq<Key> {
      match text
      case Some(t) => keysOf(t)
      case None => []
    }

    function SourceKeys(symbol: Symbol): seq<Key> {
      TextKeys(symbol.name) + TextKeys(symbol.qualifiedName) + TextKeys(symbol.kind) + TextKeys(symbol.path)
    }

    /** A Go map read: a missing docstring is the empty one. */
    function Doc(id: nat): string {
      if id in docs then docs[id] else ""
    }

    function DocKeys(id: nat): seq<Key> {
      if Doc(id) != "" then keysOf(Doc(id)) else []
    }

    predicate Present(id: nat) {
      id < |symbols| && symbols[id].Some?
    }

    /** A name, qualified name, kind or path of the symbol carries the key. */
    predicate StructuralYield(id: nat, key: Key) {
      Present(id) && key in SourceKeys(symbols[id].value)
    }

    /** Some text of the symbol, prose included, carries the key. */
    predicate Yield(id: nat, key: Key) {
      Present(id) && (key in SourceKeys(symbols[id].value) || key in DocKeys(id))
    }

    function WithoutDocs(): Corpus {
      Corpus(symbols, map[], keysOf)
    }
  }

  datatype Posting = Posting(key: Key, symbol: nat, structural: bool)

  predicate PostingLeq(a: Posting, b: Posting) {
    a.key < b.key || (a.key == b.key && a.symbol <= b.symbol)
  }

  ghost predicate StrictlyBefore(a: Posting, b: Posting) {
    a.key < b.key || (a.key == b.key && a.symbol < b.symbol)
  }

  lemma AscendingInjective(s: seq<int>, i: nat, j: nat)
    requires Ascending(s) && i < |s| && j < |s| && s[i] == s[j]
    ensures i == j
  {}

  /** `slices.Compact`: consecutive equal elements are kept once. */
  function Compact(s: seq<int>): (r: seq<int>) {
    if |s| < 2 then s
    else if s[0] == s[1] then Compact(s[1..])
    else [s[0]] + Compact(s[1..])
  }

  lemma {:induction false} CompactSorted(s: seq<int>)
    requires Sorted(s, IntLeq)
    ensures Ascending(Compact(s))
    ensures forall x :: x in Compact(s) <==> x in s
    ensures s != [] ==> Compact(s) != [] && Compact(s)[0] == s[0]
  {
    if |s| >= 2 {
      CompactSorted(s[1..]);
      assert s == [s[0]] + s[1..];
      var c := Compact(s[1..]);
      if s[0] != s[1] {
        forall j | 0 <= j < |c| ensures s[0] < c[j] {
          assert c[0] == s[1] && IntLeq(s[0], s[1]);
        }
      }
    }
  }

  /** Sorting then compacting lists each key once, in order. */
  function SortedKeys(keys: seq<Key>): (r: seq<Key>)
    ensures Ascending(r)
    ensures forall x :: x in r <==> x in keys
  {
    SortIsSorted(keys, IntLeq);
    CompactSorted(Sort(keys, IntLeq));
    Compact(Sort(keys, IntLeq))
  }

  /** `slices.BinarySearch` on a sorted list: the least position whose element is not below `key`. */
  function LowerBound(keys: seq<Key>, key: Key): (p: nat)
    ensures p <= |keys|
    ensures forall i :: 0 <= i < p ==> keys[i] < key
    ensures p < |keys| ==> key <= keys[p]
  {
    if keys == [] || key <= keys[0] then 0 else 1 + LowerBound(keys[1..], key)
  }

  /** Membership in a sorted, compacted key list. */
  predicate ContainsKey(keys: seq<Key>, key: Key) {
    var p := LowerBound(keys, key);
    p < |keys| && keys[p] == key
  }

  lemma ContainsKeyExact(keys: seq<Key>, key: Key)
    requires Ascending(keys)
    ensures ContainsKey(keys, key) <==> key in keys
  {}

  datatype Index = Index(keys: seq<Key>, offsets: seq<nat>, values: seq<nat>, structural: seq<bool>, postings: nat) {

    /** The compressed layout a reader relies on. */
    ghost predicate WellFormed() {
      && Ascending(keys)
      && |offsets| == |keys| + 1
      && offsets[0] == 0
      && (forall i, j :: 0 <= i < j < |offsets| ==> offsets[i] < offsets[j])
      && offsets[|keys|] == postings == |values| == |structural|
    }

    /** `lookup` on any index: reading past the offsets, and slicing past the values or
        backwards, panics. */
    function Read(key: Key): Option<(seq<nat>, seq<bool>)> {
      var position := LowerBound(keys, key);
      if !(position < |keys| && keys[position] == key) then Some(([], []))
      else if position + 1 >= |offsets| then None
      else
        var start, end := offsets[position], offsets[position + 1];
        if start <= end <= |values| && end <= |structural| then Some((values[start..end], structural[start..end]))
        else None
    }

    /** On a sound layout no lookup panics. */
    function Lookup(key: Key): (found: (seq<nat>, seq<bool>))
      requires WellFormed()
      ensures Read(key) == Some(found)
    {
      var position := LowerBound(keys, key);
      if position < |keys| && keys[position] == key then
        assert offsets[position] < offsets[position + 1];
        assert position + 1 == |keys| || offsets[position + 1] < offsets[|keys|];
        (values[offsets[position]..offsets[position + 1]], structural[offsets[position]..offsets[position + 1]])
      else
        ([], [])
    }
  }

  /** `found` lists, in ascending order and once each, exactly the symbols that yield
      `key`, each marked structural exactly when a source other than prose yields it. */
  ghost predicate Answers(corpus: Corpus, key: Key, found: (seq<nat>, seq<bool>)) {
    && |found.0| == |found.1|
    && Ascending(found.0)
    && (forall id: nat :: id in found.0 <==> corpus.Yield(id, key))
    && (forall i :: 0 <= i < |found.0| ==> (found.1[i] <==> corpus.StructuralYield(found.0[i], key)))
  }

  /** The postings of the symbols below `bound`: one for each term a symbol yields. */
  ghost predicate Gathered(corpus: Corpus, bound: nat, postings: seq<Posting>) {
    && Distinct(postings)
    && (forall p :: p in postings <==>
         p.symbol < bound && corpus.Yield(p.symbol, p.key) && p.structural == corpus.StructuralYield(p.symbol, p.key))
  }

  /** How many postings a corpus has: its (symbol, term) pairs. */
  ghost function Pairs(corpus: Corpus, bound: nat): (r: set<(nat, Key)>)
    requires bound <= |corpus.symbols|
    ensures forall id: nat, key: Key :: (id, key) in r <==> id < bound && corpus.Yield(id, key)
  {
    if bound == 0 then {}
    else
      var id := bound - 1;
      Pairs(corpus, id) +
      (if corpus.symbols[id].Some?
       then set key <- corpus.SourceKeys(corpus.symbols[id].value) + corpus.DocKeys(id) :: (id, key)
       else {})
  }

  /** `r` lists what one symbol contributes: a posting for each term it yields. */
  ghost predicate Contributed(corpus: Corpus, id: nat, r: seq<Posting>) {
    && Distinct(r)
    && (forall p :: p in r <==>
         p.symbol == id && corpus.Yield(id, p.key) && p.structural == corpus.StructuralYield(id, p.key))
  }

  /** The distinct terms of the sources a graph already holds, and of those plus the prose. */
  method SymbolTerms(corpus: Corpus, id: nat) returns (structural: seq<Key>, terms: seq<Key>)
    requires corpus.Present(id)
    ensures Ascending(structural) && forall x :: x in structural <==> corpus.StructuralYield(id, x)
    ensures Ascending(terms) && forall x :: x in terms <==> corpus.Yield(id, x)
  {
    var symbol := corpus.symbols[id].value;
    var keys: seq<Key> := [];
    keys := keys + corpus.TextKeys(symbol.name);
    keys := keys + corpus.TextKeys(symbol.qualifiedName);
    keys := keys + corpus.TextKeys(symbol.kind);
    keys := keys + corpus.TextKeys(symbol.path);
    ghost var sources := corpus.SourceKeys(symbol);
    assert keys == sources;
    keys := Sort(keys, IntLeq);
    SameElements(keys, sources);
    structural := SortedKeys(keys);
    if corpus.Doc(id) != "" {
      keys := keys + corpus.keysOf(corpus.Doc(id));
    }
    assert forall x :: x in keys <==> x in sources || x in corpus.DocKeys(id);
    terms := SortedKeys(keys);
  }

  method SymbolPostings(corpus: Corpus, id: nat) returns (r: seq<Posting>)
    requires corpus.Present(id)
    ensures Contributed(corpus, id, r)
  {
    var structural, terms := SymbolTerms(corpus, id);
    r := [];
    for i := 0 to |terms|
      invariant |r| == i
      invariant forall j :: 0 <= j < i ==> r[j] == Posting(terms[j], id, corpus.StructuralYield(id, terms[j]))
    {
      ContainsKeyExact(structural, terms[i]);
      r := r + [Posting(terms[i], id, ContainsKey(structural, terms[i]))];
    }
  }

  method Gather(corpus: Corpus) returns (postings: seq<Posting>)
    ensures Gathered(corpus, |corpus.symbols|, postings)
  {
    postings := [];
    for id := 0 to |corpus.symbols|
      invariant Gathered(corpus, id, postings)
    {
      if corpus.symbols[id].None? {
        continue;
      }
      var more := SymbolPostings(corpus, id);
      postings := postings + more;
    }
  }

  /** Sorted postings split into runs of one key: run `i` is `[bounds[i], bounds[i+1])`. */
  ghost predicate Runs(postings: seq<Posting>, keys: seq<Key>, bounds: seq<nat>) {
    && |bounds| == |keys| + 1
    && bounds[0] == 0
    && (forall i, j :: 0 <= i < j < |bounds| ==> bounds[i] < bounds[j])
    && bounds[|keys|] <= |postings|
    && Ascending(keys)
    && (forall i :: 0 <= i < |keys| ==> RunOf(postings, keys[i], bounds[i], bounds[i + 1]))
  }

  ghost predicate RunOf(postings: seq<Posting>, key: Key, start: nat, end: nat) {
    start <= end <= |postings| && forall p :: start <= p < end ==> postings[p].key == key
  }

  ghost predicate StrictlySorted(postings: seq<Posting>) {
    forall i, j :: 0 <= i < j < |postings| ==> StrictlyBefore(postings[i], postings[j])
  }

  /** A (symbol, term) pair has one posting, so sorting orders the postings strictly. */
  lemma SortedPostings(corpus: Corpus, bound: nat, postings: seq<Posting>)
    requires Gathered(corpus, bound, postings)
    ensures Gathered(corpus, bound, Sort(postings, PostingLeq))
    ensures StrictlySorted(Sort(postings, PostingLeq))
  {
    var s := Sort(postings, PostingLeq);
    SortIsSorted(postings, PostingLeq);
    DistinctMultiset(postings, s);
    forall i, j | 0 <= i < j < |s| ensures StrictlyBefore(s[i], s[j]) {
      assert s[i] in postings && s[j] in postings;
      assert PostingLeq(s[i], s[j]) && s[i] != s[j];
    }
  }

  /** The keys of all runs in order, and the runs' bounds as `uint32` holds them. */
  ghost predicate Compressed(postings: seq<Posting>, keys: seq<Key>, offsets: seq<nat>) {
    exists bounds :: Runs(postings, keys, bounds) && bounds[|keys|] == |postings| && Wrapped(bounds, offsets)
  }

  /** Walks the sorted postings run by run, storing each run's end as a `uint32`. */
  method Compress(postings: seq<Posting>) returns (keys: seq<Key>, offsets: seq<nat>)
    requires StrictlySorted(postings)
    ensures Compressed(postings, keys, offsets)
  {
    keys, offsets := [], [0];
    ghost var bounds: seq<nat> := [0];
    var position := 0;
    while position < |postings|
      invariant 0 <= position <= |postings|
      invariant Runs(postings, keys, bounds) && bounds[|keys|] == position
      invariant forall i :: 0 <= i < |keys| && position < |postings| ==> keys[i] < postings[position].key
      invariant Wrapped(bounds, offsets)
    {
      var key := postings[position].key;
      var end := position + 1;
      while end < |postings| && postings[end].key == key
        invariant position < end <= |postings|
        invariant RunOf(postings, key, position, end)
      {
        end := end + 1;
      }
      assert end < |postings| ==> StrictlyBefore(postings[position], postings[end]);
      keys := keys + [key];
      offsets := offsets + [end % OFFSET_RANGE];
      bounds := bounds + [end];
      position := end;
    }
  }

  /** Copies the sorted postings into the two aligned arrays the index publishes. */
  method Columns(postings: seq<Posting>) returns (values: seq<nat>, structural: seq<bool>)
    ensures |values| == |structural| == |postings|
    ensures forall p :: 0 <= p < |postings| ==> values[p] == postings[p].symbol
    ensures forall p :: 0 <= p < |postings| ==> structural[p] == postings[p].structural
  {
    var n := |postings|;
    var ids := new nat[n];
    var flags := new bool[n];
    for position := 0 to n
      invariant forall p :: 0 <= p < position ==> ids[p] == postings[p].symbol
      invariant forall p :: 0 <= p < position ==> flags[p] == postings[p].structural
    {
      ids[position] := postings[position].symbol;
      flags[position] := postings[position].structural;
    }
    values, structural := ids[..], flags[..];
  }

  /** A lookup neither panics nor answers wrongly. */
  ghost predicate ReadsRight(corpus: Corpus, out: Index, key: Key) {
    out.Read(key).Some? && Answers(corpus, key, out.Read(key).value)
  }

  /** The offsets are faithful exactly while the posting count fits a `uint32`, and it is
      exactly then that every lookup gives the one right answer. */
  method Build(corpus: Corpus) returns (out: Index)
    ensures out.postings == |Pairs(corpus, |corpus.symbols|)|
    ensures (forall key :: ReadsRight(corpus, out, key)) <==> |Pairs(corpus, |corpus.symbols|)| < OFFSET_RANGE
    ensures out.WellFormed() <==> out.postings < OFFSET_RANGE
    ensures out.WellFormed() ==> forall key :: Answers(corpus, key, out.Lookup(key))
  {
    var postings := Gather(corpus);
    SortedPostings(corpus, |corpus.symbols|, postings);
    postings := Sort(postings, PostingLeq);
    PostingCount(corpus, postings);

    var values, structural := Columns(postings);
    var keys, offsets := Compress(postings);
    out := Index(keys, offsets, values, structural, |postings|);
    CompressedIndex(corpus, postings, out);
  }

  lemma CompressedIndex(corpus: Corpus, postings: seq<Posting>, out: Index)
    requires Gathered(corpus, |corpus.symbols|, postings) && StrictlySorted(postings)
    requires Compressed(postings, out.keys, out.offsets) && Filled(postings, out)
    ensures out.WellFormed() <==> out.postings < OFFSET_RANGE
    ensures out.WellFormed() ==> forall key :: Answers(corpus, key, out.Lookup(key))
    ensures (forall key :: ReadsRight(corpus, out, key)) <==> out.postings < OFFSET_RANGE
  {
    var n := |postings|;
    var bounds :| Runs(postings, out.keys, bounds) && bounds[|out.keys|] == n && Wrapped(bounds, out.offsets);
    if n < OFFSET_RANGE {
      NoWrap(bounds, out.offsets, n);
      forall key ensures Answers(corpus, key, out.Lookup(key)) && ReadsRight(corpus, out, key) {
        RunsAnswer(corpus, postings, out, key);
      }
    } else {
      assert out.offsets[|out.keys|] == n % OFFSET_RANGE;
      var key := WrappedKey(corpus, postings, out, bounds);
    }
  }

  /** When the ends no longer fit, the key of the first run that ends past 2^32 is looked up
      in vain: its slice is too short or ends before it starts. */
  lemma WrappedKey(corpus: Corpus, postings: seq<Posting>, out: Index, bounds: seq<nat>) returns (key: Key)
    requires Gathered(corpus, |corpus.symbols|, postings) && StrictlySorted(postings) && Filled(postings, out)
    requires Runs(postings, out.keys, bounds) && bounds[|out.keys|] == |postings| && Wrapped(bounds, out.offsets)
    requires |postings| >= OFFSET_RANGE
    ensures !ReadsRight(corpus, out, key)
  {
    var i := FindRun(bounds, OFFSET_RANGE - 1, |out.keys|);
    key := out.keys[i];
    PositionOf(out.keys, i);
    var ideal := out.(offsets := bounds);
    RunsAnswer(corpus, postings, ideal, key);
    assert |ideal.Lookup(key).0| == bounds[i + 1] - bounds[i];
    ShorterThanRun(bounds[i], bounds[i + 1]);
    if ReadsRight(corpus, out, key) {
      assert |out.Read(key).value.0| < bounds[i + 1] - bounds[i];
      AnswerUnique(corpus, key, out.Read(key).value, ideal.Lookup(key));
    }
  }

  lemma PositionOf(keys: seq<Key>, i: nat)
    requires Ascending(keys) && i < |keys|
    ensures LowerBound(keys, keys[i]) == i
  {}

  lemma ShorterThanRun(start: nat, end: nat)
    requires start < OFFSET_RANGE <= end
    ensures start % OFFSET_RANGE == start && end % OFFSET_RANGE < end
  {}

  ghost predicate Filled(postings: seq<Posting>, out: Index) {
    && out.postings == |postings| == |out.values| == |out.structural|
    && (forall p :: 0 <= p < |postings| ==> out.values[p] == postings[p].symbol)
    && (forall p :: 0 <= p < |postings| ==> out.structural[p] == postings[p].structural)
  }

  ghost predicate Wrapped(bounds: seq<nat>, offsets: seq<nat>) {
    |offsets| == |bounds| && forall i :: 0 <= i < |bounds| ==> offsets[i] == bounds[i] % OFFSET_RANGE
  }

  lemma NoWrap(bounds: seq<nat>, offsets: seq<nat>, n: nat)
    requires Wrapped(bounds, offsets) && n < OFFSET_RANGE
    requires bounds != [] && bounds[|bounds| - 1] == n
    requires forall i, j :: 0 <= i < j < |bounds| ==> bounds[i] < bounds[j]
    ensures offsets == bounds
  {
    forall i | 0 <= i < |bounds| ensures offsets[i] == bounds[i] {
      assert i == |bounds| - 1 || bounds[i] < bounds[|bounds| - 1];
    }
  }

  /** Every posting before the last bound lies in exactly one run. */
  lemma {:induction false} FindRun(bounds: seq<nat>, p: nat, top: nat) returns (i: nat)
    requires 0 < top < |bounds| && bounds[0] == 0
    requires p < bounds[top]
    ensures i < top && bounds[i] <= p < bounds[i + 1]
    decreases top
  {
    if bounds[top - 1] <= p {
      i := top - 1;
    } else {
      i := FindRun(bounds, p, top - 1);
    }
  }

  /** The run a lookup finds holds all postings of its key. */
  lemma RunComplete(postings: seq<Posting>, keys: seq<Key>, bounds: seq<nat>, p: nat) returns (i: nat)
    requires Runs(postings, keys, bounds) && bounds[|keys|] == |postings|
    requires p < |postings|
    ensures i < |keys| && keys[i] == postings[p].key && bounds[i] <= p < bounds[i + 1]
  {
    assert |keys| > 0;
    i := FindRun(bounds, p, |keys|);
    assert RunOf(postings, keys[i], bounds[i], bounds[i + 1]);
  }

  lemma LookupFindsAll(corpus: Corpus, postings: seq<Posting>, out: Index, key: Key, id: nat)
    requires Gathered(corpus, |corpus.symbols|, postings)
    requires out.WellFormed() && Runs(postings, out.keys, out.offsets) && Filled(postings, out)
    requires corpus.Yield(id, key)
    ensures id in out.Lookup(key).0
  {
    var posting := Posting(key, id, corpus.StructuralYield(id, key));
    assert posting in postings;
    var p :| 0 <= p < |postings| && postings[p] == posting;
    var i := RunComplete(postings, out.keys, out.offsets, p);
    var start, end := out.offsets[i], out.offsets[i + 1];
    assert out.Lookup(key).0 == out.values[start..end];
    FilledIn(postings, out, start, p, end);
  }

  lemma FilledIn(postings: seq<Posting>, out: Index, start: nat, p: nat, end: nat)
    requires Filled(postings, out) && start <= p < end <= |out.values| == |postings|
    ensures postings[p].symbol in out.values[start..end]
  {
    assert out.values[start..end][p - start] == out.values[p];
  }

  lemma LookupFindsOnly(corpus: Corpus, postings: seq<Posting>, out: Index, key: Key, k: nat)
    requires Gathered(corpus, |corpus.symbols|, postings)
    requires out.WellFormed() && Runs(postings, out.keys, out.offsets) && Filled(postings, out)
    requires k < |out.Lookup(key).0|
    ensures |out.Lookup(key).1| == |out.Lookup(key).0|
    ensures corpus.Yield(out.Lookup(key).0[k], key)
    ensures out.Lookup(key).1[k] <==> corpus.StructuralYield(out.Lookup(key).0[k], key)
  {
    var position := LowerBound(out.keys, key);
    var start := out.offsets[position];
    assert RunOf(postings, key, start, out.offsets[position + 1]);
    assert postings[start + k] in postings;
    assert out.values[start + k] == postings[start + k].symbol;
    assert out.structural[start + k] == postings[start + k].structural;
  }

  lemma LookupAscends(postings: seq<Posting>, out: Index, key: Key)
    requires StrictlySorted(postings)
    requires out.WellFormed() && Runs(postings, out.keys, out.offsets) && Filled(postings, out)
    ensures Ascending(out.Lookup(key).0)
  {
    var found := out.Lookup(key).0;
    var position := LowerBound(out.keys, key);
    forall i, j | 0 <= i < j < |found| ensures found[i] < found[j] {
      var start := out.offsets[position];
      assert RunOf(postings, key, start, out.offsets[position + 1]);
      assert StrictlyBefore(postings[start + i], postings[start + j]);
    }
  }

  lemma RunsAnswer(corpus: Corpus, postings: seq<Posting>, out: Index, key: Key)
    requires Gathered(corpus, |corpus.symbols|, postings) && StrictlySorted(postings)
    requires out.WellFormed() && Runs(postings, out.keys, out.offsets) && Filled(postings, out)
    ensures Answers(corpus, key, out.Lookup(key))
  {
    var found := out.Lookup(key);
    LookupAscends(postings, out, key);
    forall id: nat | corpus.Yield(id, key) ensures id in found.0 {
      LookupFindsAll(corpus, postings, out, key, id);
    }
    forall k | 0 <= k < |found.0|
      ensures corpus.Yield(found.0[k], key) && (found.1[k] <==> corpus.StructuralYield(found.0[k], key))
    {
      LookupFindsOnly(corpus, postings, out, key, k);
    }
  }

  lemma {:induction false} PostingCount(corpus: Corpus, postings: seq<Posting>)
    requires Gathered(corpus, |corpus.symbols|, postings)
    ensures |postings| == |Pairs(corpus, |corpus.symbols|)|
  {
    var pairs := Pairs(corpus, |corpus.symbols|);
    forall i, j | 0 <= i < j < |postings|
      ensures (postings[i].symbol, postings[i].key) != (postings[j].symbol, postings[j].key)
    {
      assert postings[i] in postings && postings[j] in postings;
    }
    var listed := PairSet(postings);
    forall pair ensures pair in listed <==> pair in pairs {
      if pair in pairs {
        var p := Posting(pair.1, pair.0, corpus.StructuralYield(pair.0, pair.1));
        assert p in postings;
      }
    }
    assert listed == pairs;
  }

  /** Postings with distinct pairs name as many pairs as there are postings. */
  lemma {:induction false} PairSet(postings: seq<Posting>) returns (pairs: set<(nat, Key)>)
    requires forall i, j :: 0 <= i < j < |postings| ==>
      (postings[i].symbol, postings[i].key) != (postings[j].symbol, postings[j].key)
    ensures |pairs| == |postings|
    ensures forall pair :: pair in pairs <==> exists p :: p in postings && pair == (p.symbol, p.key)
  {
    if postings == [] {
      pairs := {};
    } else {
      var rest := PairSet(postings[1..]);
      var first := (postings[0].symbol, postings[0].key);
      assert first !in rest;
      pairs := rest + {first};
      assert postings == [postings[0]] + postings[1..];
    }
  }

  /** A lookup has one right answer. */
  lemma AnswerUnique(corpus: Corpus, key: Key, a: (seq<nat>, seq<bool>), b: (seq<nat>, seq<bool>))
    requires Answers(corpus, key, a) && Answers(corpus, key, b)
    ensures a == b
  {
    AscendingUnique(a.0, b.0);
    assert a.1 == b.1;
  }

  lemma AscendingUnique(a: seq<nat>, b: seq<nat>)
    requires Ascending(a) && Ascending(b)
    requires forall x: nat :: x in a <==> x in b
    ensures a == b
  {
    var x: seq<int>, y: seq<int> := a, b;
    forall v ensures v in x <==> v in y {
      if v >= 0 { var w: nat := v; assert w in a <==> w in b; }
    }
    SortedSetUnique(x, y, IntLeq);
  }

  /** The ids whose posting is structural. */
  function Structural(found: (seq<nat>, seq<bool>)): (r: seq<nat>)
    requires |found.0| == |found.1|
    decreases |found.0|
  {
    if found.0 == [] then []
    else
      (if found.1[0] then [found.0[0]] else []) + Structural((found.0[1..], found.1[1..]))
  }

  lemma {:induction false} StructuralMembers(found: (seq<nat>, seq<bool>))
    requires |found.0| == |found.1| && Ascending(found.0)
    ensures Ascending(Structural(found))
    ensures forall id: nat ::
      id in Structural(found) <==> exists i :: 0 <= i < |found.0| && found.0[i] == id && found.1[i]
    decreases |found.0|
  {
    if found.0 != [] {
      var tail := (found.0[1..], found.1[1..]);
      StructuralMembers(tail);
      var rest := Structural(tail);
      forall id: nat
        ensures id in Structural(found) <==> exists i :: 0 <= i < |found.0| && found.0[i] == id && found.1[i]
      {
        if i :| 0 <= i < |found.0| && found.0[i] == id && found.1[i] {
          if i > 0 { assert tail.0[i - 1] == id && tail.1[i - 1]; }
        }
        if id in rest {
          var i :| 0 <= i < |tail.0| && tail.0[i] == id && tail.1[i];
          assert found.0[i + 1] == id && found.1[i + 1];
        }
      }
      forall j | 0 <= j < |rest| ensures found.0[0] < rest[j] {
        assert rest[j] in rest;
        var i :| 0 <= i < |tail.0| && tail.0[i] == rest[j] && tail.1[i];
        assert found.0[0] < found.0[i + 1];
      }
    }
  }

  /** Adding docstrings is conservative: dropping the prose postings of the documented
      index gives the undocumented index's answer, whose postings are all structural. */
  lemma DocumentingConservative(corpus: Corpus, key: Key, documented: (seq<nat>, seq<bool>),
                                plain: (seq<nat>, seq<bool>))
    requires Answers(corpus, key, documented)
    requires Answers(corpus.WithoutDocs(), key, plain)
    ensures Structural(documented) == plain.0
    ensures forall i :: 0 <= i < |plain.1| ==> plain.1[i]
  {
    StructuralMembers(documented);
    var bare := corpus.WithoutDocs();
    forall id: nat ensures bare.Yield(id, key) <==> corpus.StructuralYield(id, key) {
      assert bare.DocKeys(id) == [];
      assert bare.symbols == corpus.symbols;
    }
    forall id: nat ensures id in Structural(documented) <==> id in plain.0 {
      if corpus.StructuralYield(id, key) {
        assert corpus.Yield(id, key);
        var i :| 0 <= i < |documented.0| && documented.0[i] == id;
        assert documented.1[i];
      }
    }
    AscendingUnique(Structural(documented), plain.0);
    forall i | 0 <= i < |plain.1| ensures plain.1[i] {
      assert plain.0[i] in plain.0;
      assert bare.Yield(plain.0[i], key);
    }
  }
}
