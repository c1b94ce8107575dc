/** The bounded ranker of the docstring simulation: candidates are admitted under a
    cap, credited word by word, credited again for what their neighbours carry,
    scored, sorted and reduced to files. */
module Ranker {
  import opened Arithmetic
  import opened Ordering
  import opened TermIndex
  import opened Wrappers

  const MAXIMUM_CANDIDATES: nat := 4000
  const MAXIMUM_NEIGHBOUR_TERMS: nat := 32
  const MAXIMUM_NEIGHBOUR_EDGES: nat := 64

  /** A `uint32` term mask is the set of its one bits: `|=` is union, `&^` is
      difference and `OnesCount32` is the cardinality. */
  type Mask = set<nat>

  /** A query word: its folded key and its length in characters. */
  datatype Word = Word(key: Key, length: nat)

  /** The posting list one used word reached. */
  datatype Hit = Hit(ids: seq<nat>, flags: seq<bool>, length: nat) {
    ghost predicate Valid() {
      |ids| == |flags| && Ascending(ids)
    }

    /** The symbol is on this list through prose alone. */
    ghost predicate Prose(id: nat)
      requires |ids| == |flags|
    {
      exists i :: 0 <= i < |ids| && ids[i] == id && !flags[i]
    }
  }

  /** What the query words say about one symbol. */
  datatype Evidence = Evidence(hits: nat, prose: nat, frequencies: seq<nat>, lengths: seq<nat>, terms: Mask)

  const NO_EVIDENCE := Evidence(0, 0, [], [], {})

  /** One more word reaches the symbol; the word is the `termIndex`-th used. */
  function Credit(e: Evidence, prose: bool, frequency: nat, length: nat, termIndex: nat): Evidence {
    Evidence(e.hits + 1, e.prose + (if prose then 1 else 0),
             e.frequencies + [frequency], e.lengths + [length],
             if termIndex < MAXIMUM_NEIGHBOUR_TERMS then e.terms + {termIndex} else e.terms)
  }

  class Candidate {
    const symbol: nat
    var hits: nat
    var prose: nat
    var frequencies: seq<nat>
    var lengths: seq<nat>
    var terms: Mask
    var neighbours: nat

    constructor (symbol: nat)
      ensures this.symbol == symbol && View() == NO_EVIDENCE && neighbours == 0
    {
      this.symbol := symbol;
      hits, prose, frequencies, lengths, terms, neighbours := 0, 0, [], [], {}, 0;
    }

    function View(): Evidence
      reads this
    {
      Evidence(hits, prose, frequencies, lengths, terms)
    }

    method Record(isProse: bool, frequency: nat, length: nat, termIndex: nat)
      modifies this
      ensures View() == Credit(old(View()), isProse, frequency, length, termIndex)
      ensures neighbours == old(neighbours)
    {
      hits := hits + 1;
      if isProse {
        prose := prose + 1;
      }
      frequencies := frequencies + [frequency];
      lengths := lengths + [length];
      if termIndex < MAXIMUM_NEIGHBOUR_TERMS {
        terms := terms + {termIndex};
      }
    }
  }

  // ---- What the accumulation computes ----

  ghost predicate AllValid(used: seq<Hit>) {
    forall k :: 0 <= k < |used| ==> used[k].Valid()
  }

  /** The symbol's evidence over all used words, whatever the cap does. */
  ghost function EvidenceOf(used: seq<Hit>, id: nat): Evidence
    requires AllValid(used)
  {
    if used == [] then NO_EVIDENCE
    else
      var n := |used| - 1;
      var before, hit := EvidenceOf(used[..n], id), used[n];
      if id in hit.ids then Credit(before, hit.Prose(id), |hit.ids|, hit.length, n) else before
  }

  /** The used words, in order, whose list holds the symbol. */
  ghost function Reaching(used: seq<Hit>, id: nat): (r: seq<nat>)
    ensures Ascending(r)
    ensures forall k: nat :: k in r <==> k < |used| && id in used[k].ids
    ensures forall j :: 0 <= j < |r| ==> r[j] < |used|
  {
    if used == [] then []
    else
      var n := |used| - 1;
      Reaching(used[..n], id) + if id in used[n].ids then [n] else []
  }

  /** The evidence says everything about those words and nothing about others: a count,
      the prose count, the frequencies and lengths in order, and the first 32 as a mask. */
  ghost predicate CoversEvery(e: Evidence, used: seq<Hit>, id: nat)
    requires AllValid(used)
  {
    && CoversCounts(e, used, id)
    && e.prose == |set k | 0 <= k < |used| && id in used[k].ids && used[k].Prose(id)|
    && (forall k: nat :: k in e.terms <==> k < MAXIMUM_NEIGHBOUR_TERMS && k in Reaching(used, id))
  }

  ghost predicate CoversCounts(e: Evidence, used: seq<Hit>, id: nat) {
    var words := Reaching(used, id);
    && e.hits == |e.frequencies| == |e.lengths| == |words|
    && (forall j :: 0 <= j < |words| ==> e.frequencies[j] == |used[words[j]].ids|)
    && (forall j :: 0 <= j < |words| ==> e.lengths[j] == used[words[j]].length)
  }

  lemma {:induction false} EvidenceCovers(used: seq<Hit>, id: nat)
    requires AllValid(used)
    ensures CoversEvery(EvidenceOf(used, id), used, id)
  {
    if used != [] {
      EvidenceCovers(used[..|used| - 1], id);
      CountsStep(used, id);
      ProseStep(used, id);
    }
  }

  lemma CountsStep(used: seq<Hit>, id: nat)
    requires AllValid(used) && used != []
    requires CoversCounts(EvidenceOf(used[..|used| - 1], id), used[..|used| - 1], id)
    ensures CoversCounts(EvidenceOf(used, id), used, id)
  {}

  lemma ProseStep(used: seq<Hit>, id: nat)
    requires AllValid(used) && used != []
    ensures
      var n := |used| - 1;
      |set k | 0 <= k < |used| && id in used[k].ids && used[k].Prose(id)| ==
      |set k | 0 <= k < n && id in used[..n][k].ids && used[..n][k].Prose(id)|
        + if id in used[n].ids && used[n].Prose(id) then 1 else 0
  {
    var n := |used| - 1;
    var all := set k | 0 <= k < |used| && id in used[k].ids && used[k].Prose(id);
    var fewer := set k | 0 <= k < n && id in used[..n][k].ids && used[..n][k].Prose(id);
    forall k | 0 <= k < n ensures k in all <==> k in fewer {
      assert used[..n][k] == used[k];
    }
    assert all == fewer + if id in used[n].ids && used[n].Prose(id) then {n} else {};
  }

  // ---- Who is admitted ----

  function AdmitOne(admitted: set<nat>, id: nat): set<nat> {
    if id in admitted || |admitted| >= MAXIMUM_CANDIDATES then admitted else admitted + {id}
  }

  function AdmitIds(admitted: set<nat>, ids: seq<nat>): set<nat> {
    if ids == [] then admitted else AdmitOne(AdmitIds(admitted, ids[..|ids| - 1]), ids[|ids| - 1])
  }

  lemma AdmitStep(admitted: set<nat>, ids: seq<nat>, position: nat)
    requires 0 < position <= |ids|
    ensures AdmitIds(admitted, ids[..position]) == AdmitOne(AdmitIds(admitted, ids[..position - 1]), ids[position - 1])
  {
    assert ids[..position][..position - 1] == ids[..position - 1];
  }

  /** The candidates: symbols in order of first appearance, until the cap. */
  function Admit(used: seq<Hit>): set<nat> {
    if used == [] then {} else AdmitIds(Admit(used[..|used| - 1]), used[|used| - 1].ids)
  }

  lemma {:induction false} AdmitIdsFacts(admitted: set<nat>, ids: seq<nat>)
    requires |admitted| <= MAXIMUM_CANDIDATES
    ensures var r := AdmitIds(admitted, ids);
      && |r| <= MAXIMUM_CANDIDATES && admitted <= r
      && (forall id :: id in r ==> id in admitted || id in ids)
      && (|r| < MAXIMUM_CANDIDATES ==> forall id :: id in ids ==> id in r)
      && |admitted| <= |r|
  {
    if ids != [] {
      var n := |ids| - 1;
      AdmitIdsFacts(admitted, ids[..n]);
      assert ids == ids[..n] + [ids[n]];
    }
  }

  /** The cap drops whole symbols: at most 4000 are admitted, each reached by a word, and
      unless the cap is met every symbol a word reaches is admitted. */
  lemma {:induction false} CapDropsWholeSymbols(used: seq<Hit>)
    ensures |Admit(used)| <= MAXIMUM_CANDIDATES
    ensures forall id :: id in Admit(used) ==> exists k :: 0 <= k < |used| && id in used[k].ids
    ensures |Admit(used)| < MAXIMUM_CANDIDATES ==>
      forall k, id :: 0 <= k < |used| && id in used[k].ids ==> id in Admit(used)
  {
    if used != [] {
      var n := |used| - 1;
      var front := used[..n];
      CapDropsWholeSymbols(front);
      AdmitIdsFacts(Admit(front), used[n].ids);
      forall id | id in Admit(used) ensures exists k :: 0 <= k < |used| && id in used[k].ids {
        if id in Admit(front) {
          var k :| 0 <= k < |front| && id in front[k].ids;
          assert id in used[k].ids;
        } else {
          assert id in used[n].ids;
        }
      }
      if |Admit(used)| < MAXIMUM_CANDIDATES {
        forall k, id | 0 <= k < |used| && id in used[k].ids ensures id in Admit(used) {
          if k < n { assert front[k] == used[k]; }
        }
      }
    }
  }

  /** A symbol outside a cap that is not met has not been seen. */
  lemma Unseen(used: seq<Hit>, id: nat)
    requires AllValid(used)
    requires id !in Admit(used) && |Admit(used)| < MAXIMUM_CANDIDATES
    ensures EvidenceOf(used, id) == NO_EVIDENCE
  {
    CapDropsWholeSymbols(used);
    assert forall k :: 0 <= k < |used| ==> id !in used[k].ids;
    UnreachedHasNone(used, id);
  }

  lemma {:induction false} UnreachedHasNone(used: seq<Hit>, id: nat)
    requires AllValid(used)
    requires forall k :: 0 <= k < |used| ==> id !in used[k].ids
    ensures EvidenceOf(used, id) == NO_EVIDENCE
  {
    if used != [] { UnreachedHasNone(used[..|used| - 1], id); }
  }

  // ---- The accumulation ----

  /** Lookups are aligned and ascending, as `Build` publishes them. */
  ghost predicate Sound(idx: Index) {
    && idx.WellFormed()
    && (forall key :: Hit(idx.Lookup(key).0, idx.Lookup(key).1, 0).Valid())
  }

  /** The words whose posting list is not empty, with their lists. */
  function Used(idx: Index, words: seq<Word>): (r: seq<Hit>)
    requires idx.WellFormed()
  {
    if words == [] then []
    else
      var word := words[|words| - 1];
      var found := idx.Lookup(word.key);
      Used(idx, words[..|words| - 1]) + if found.0 == [] then [] else [Hit(found.0, found.1, word.length)]
  }

  lemma {:induction false} UsedValid(idx: Index, words: seq<Word>)
    requires Sound(idx)
    ensures AllValid(Used(idx, words))
    ensures forall k :: 0 <= k < |Used(idx, words)| ==> Used(idx, words)[k].ids != []
  {
    if words != [] {
      UsedValid(idx, words[..|words| - 1]);
      var word := words[|words| - 1];
      assert Hit(idx.Lookup(word.key).0, idx.Lookup(word.key).1, 0).Valid();
    }
  }

  // ---- The accumulation, as a function of what the candidates hold ----

  ghost predicate Keyed(candidates: map<nat, Candidate>) {
    forall id :: id in candidates ==> candidates[id].symbol == id
  }

  ghost function Views(candidates: map<nat, Candidate>): map<nat, Evidence>
    reads candidates.Values
  {
    map id | id in candidates :: candidates[id].View()
  }

  /** One posting: create the candidate unless the cap is met, then credit it. */
  ghost function CreditView(views: map<nat, Evidence>, id: nat, prose: bool, frequency: nat, length: nat,
                            termIndex: nat):
    map<nat, Evidence>
  {
    if id in views then views[id := Credit(views[id], prose, frequency, length, termIndex)]
    else if |views.Keys| >= MAXIMUM_CANDIDATES then views
    else views[id := Credit(NO_EVIDENCE, prose, frequency, length, termIndex)]
  }

  /** The first `position` postings of a word's list. */
  ghost function CreditViews(views: map<nat, Evidence>, hit: Hit, position: nat, termIndex: nat): map<nat, Evidence>
    requires hit.Valid() && position <= |hit.ids|
  {
    if position == 0 then views
    else
      var p := position - 1;
      CreditView(CreditViews(views, hit, p, termIndex), hit.ids[p], !hit.flags[p], |hit.ids|, hit.length, termIndex)
  }

  /** What the candidates should hold: exactly the admitted symbols, each with all its evidence. */
  ghost function Expected(used: seq<Hit>): map<nat, Evidence>
    requires AllValid(used)
  {
    map id | id in Admit(used) :: EvidenceOf(used, id)
  }

  /** The evidence after `position` postings of the next word's list. */
  ghost function Midway(used: seq<Hit>, hit: Hit, position: nat, id: nat): Evidence
    requires AllValid(used) && hit.Valid() && position <= |hit.ids|
  {
    if id in hit.ids[..position] then EvidenceOf(used + [hit], id) else EvidenceOf(used, id)
  }

  lemma MidwayStep(used: seq<Hit>, hit: Hit, position: nat, id: nat)
    requires AllValid(used) && hit.Valid() && 0 < position <= |hit.ids|
    ensures
      var p := position - 1;
      Midway(used, hit, position, id) ==
      (if id == hit.ids[p] then Credit(Midway(used, hit, p, id), !hit.flags[p], |hit.ids|, hit.length, |used|)
       else Midway(used, hit, p, id))
  {
    var p := position - 1;
    var at := hit.ids[p];
    var before, after := hit.ids[..p], hit.ids[..position];
    assert after == before + [at];
    assert (used + [hit])[..|used|] == used;
    if id == at {
      assert at !in before by {
        forall i | 0 <= i < p ensures hit.ids[i] != at { assert hit.ids[i] < hit.ids[p]; }
      }
      assert hit.Prose(at) <==> !hit.flags[p] by {
        forall i | 0 <= i < |hit.ids| && hit.ids[i] == at ensures i == p {
          AscendingInjective(hit.ids, i, p);
        }
      }
    }
  }

  lemma MidwayFresh(used: seq<Hit>, hit: Hit, position: nat)
    requires AllValid(used) && hit.Valid() && position < |hit.ids|
    requires hit.ids[position] !in AdmitIds(Admit(used), hit.ids[..position])
    requires |AdmitIds(Admit(used), hit.ids[..position])| < MAXIMUM_CANDIDATES
    ensures Midway(used, hit, position, hit.ids[position]) == NO_EVIDENCE
  {
    var id := hit.ids[position];
    CapDropsWholeSymbols(used);
    AdmitIdsFacts(Admit(used), hit.ids[..position]);
    assert id !in hit.ids[..position];
    Unseen(used, id);
  }

  ghost function MidwayMap(used: seq<Hit>, hit: Hit, position: nat): map<nat, Evidence>
    requires AllValid(used) && hit.Valid() && position <= |hit.ids|
  {
    map id | id in AdmitIds(Admit(used), hit.ids[..position]) :: Midway(used, hit, position, id)
  }

  lemma MidwayMapStep(used: seq<Hit>, hit: Hit, position: nat)
    requires AllValid(used) && hit.Valid() && 0 < position <= |hit.ids|
    ensures var p := position - 1;
      CreditView(MidwayMap(used, hit, p), hit.ids[p], !hit.flags[p], |hit.ids|, hit.length, |used|)
        == MidwayMap(used, hit, position)
  {
    var p := position - 1;
    var before, after := MidwayMap(used, hit, p), MidwayMap(used, hit, position);
    var at := hit.ids[p];
    AdmitStep(Admit(used), hit.ids, position);
    assert before.Keys == AdmitIds(Admit(used), hit.ids[..p]);
    if at !in before && |before.Keys| < MAXIMUM_CANDIDATES {
      MidwayFresh(used, hit, p);
    }
    forall id | id in after
      ensures after[id] == Advanced(before, id, at, !hit.flags[p], |hit.ids|, hit.length, |used|)
    {
      MidwayStep(used, hit, position, id);
    }
    ViewStep(before, after, at, !hit.flags[p], |hit.ids|, hit.length, |used|);
  }

  ghost function Advanced(before: map<nat, Evidence>, id: nat, at: nat, prose: bool, frequency: nat, length: nat,
                          termIndex: nat): Evidence
    requires id == at || id in before
  {
    if id != at then before[id]
    else Credit(if at in before then before[at] else NO_EVIDENCE, prose, frequency, length, termIndex)
  }

  lemma ViewStep(before: map<nat, Evidence>, after: map<nat, Evidence>,
                 at: nat, prose: bool, frequency: nat, length: nat, termIndex: nat)
    requires after.Keys == AdmitOne(before.Keys, at)
    requires forall id :: id in after ==> after[id] == Advanced(before, id, at, prose, frequency, length, termIndex)
    ensures CreditView(before, at, prose, frequency, length, termIndex) == after
  {
    var credited := CreditView(before, at, prose, frequency, length, termIndex);
    assert credited.Keys == after.Keys;
    forall id | id in after ensures credited[id] == after[id] {}
  }

  lemma MidwayStart(used: seq<Hit>, hit: Hit)
    requires AllValid(used) && hit.Valid()
    ensures MidwayMap(used, hit, 0) == Expected(used)
  {
    assert hit.ids[..0] == [];
    assert forall id: nat :: Midway(used, hit, 0, id) == EvidenceOf(used, id);
  }

  lemma {:induction false} MidwayViews(used: seq<Hit>, hit: Hit, position: nat)
    requires AllValid(used) && hit.Valid() && position <= |hit.ids|
    ensures CreditViews(Expected(used), hit, position, |used|) == MidwayMap(used, hit, position)
  {
    if position == 0 {
      MidwayStart(used, hit);
    } else {
      MidwayViews(used, hit, position - 1);
      MidwayNext(used, hit, position);
    }
  }

  lemma MidwayNext(used: seq<Hit>, hit: Hit, position: nat)
    requires AllValid(used) && hit.Valid() && 0 < position <= |hit.ids|
    requires CreditViews(Expected(used), hit, position - 1, |used|) == MidwayMap(used, hit, position - 1)
    ensures CreditViews(Expected(used), hit, position, |used|) == MidwayMap(used, hit, position)
  {
    MidwayMapStep(used, hit, position);
  }

  /** Crediting a whole list turns the evidence over some words into the evidence over one more. */
  lemma WordCredited(used: seq<Hit>, hit: Hit)
    requires AllValid(used) && hit.Valid()
    ensures AllValid(used + [hit])
    ensures CreditViews(Expected(used), hit, |hit.ids|, |used|) == Expected(used + [hit])
  {
    var all := used + [hit];
    assert all[..|used|] == used;
    MidwayViews(used, hit, |hit.ids|);
    assert hit.ids[..|hit.ids|] == hit.ids;
    forall id: nat ensures Midway(used, hit, |hit.ids|, id) == EvidenceOf(all, id) {}
  }

  // ---- The accumulation in place ----

  /** `later` holds the candidates of `earlier`, as the same objects, and newly made
      ones that have no neighbours yet; no neighbour count has changed. */
  twostate predicate Grown(earlier: map<nat, Candidate>, new later: map<nat, Candidate>)
    reads later.Values
  {
    && (forall c :: c in earlier ==>
        c in later && later[c] == earlier[c] && later[c].neighbours == old(earlier[c].neighbours))
    && (forall c :: c in later && c !in earlier ==> fresh(later[c]) && later[c].neighbours == 0)
  }

  /** The map with a candidate for the symbol in it, unless the cap is met. */
  method Candidacy(candidates: map<nat, Candidate>, id: nat) returns (updated: map<nat, Candidate>)
    requires Keyed(candidates)
    ensures Keyed(updated) && Grown(candidates, updated)
    ensures Views(updated) == Entered(Views(candidates), id)
  {
    updated := candidates;
    assert Views(candidates).Keys == candidates.Keys && |candidates.Keys| == |candidates|;
    if id !in candidates && |candidates| < MAXIMUM_CANDIDATES {
      var entry := new Candidate(id);
      updated := candidates[id := entry];
    }
  }

  ghost function Entered(views: map<nat, Evidence>, id: nat): map<nat, Evidence> {
    if id in views || |views.Keys| >= MAXIMUM_CANDIDATES then views else views[id := NO_EVIDENCE]
  }

  lemma EnteredCredited(views: map<nat, Evidence>, id: nat, prose: bool, frequency: nat, length: nat, termIndex: nat)
    ensures var entered := Entered(views, id);
      CreditView(views, id, prose, frequency, length, termIndex) ==
        if id in entered then entered[id := Credit(entered[id], prose, frequency, length, termIndex)] else entered
  {}

  method CreditOne(candidates: map<nat, Candidate>, id: nat, prose: bool, frequency: nat, length: nat, termIndex: nat)
    returns (updated: map<nat, Candidate>)
    requires Keyed(candidates)
    modifies candidates.Values
    ensures Keyed(updated) && Grown(candidates, updated)
    ensures Views(updated) == CreditView(old(Views(candidates)), id, prose, frequency, length, termIndex)
  {
    EnteredCredited(Views(candidates), id, prose, frequency, length, termIndex);
    updated := Candidacy(candidates, id);
    ghost var entered := Views(updated);
    assert entered.Keys == updated.Keys;
    if id in updated {
      assert entered[id] == updated[id].View();
      RecordAt(updated, id, prose, frequency, length, termIndex);
    }
  }

  method RecordAt(candidates: map<nat, Candidate>, id: nat, prose: bool, frequency: nat, length: nat, termIndex: nat)
    requires Keyed(candidates) && id in candidates
    modifies candidates[id]
    ensures Views(candidates)
            == old(Views(candidates))[id := Credit(old(candidates[id].View()), prose, frequency, length, termIndex)]
    ensures candidates[id].neighbours == old(candidates[id].neighbours)
  {
    assert candidates[id] in candidates.Values;
    candidates[id].Record(prose, frequency, length, termIndex);
  }

  /** The whole posting list of one word. */
  method CreditWord(candidates: map<nat, Candidate>, hit: Hit, termIndex: nat) returns (updated: map<nat, Candidate>)
    requires hit.Valid() && Keyed(candidates)
    modifies candidates.Values
    ensures Keyed(updated) && Grown(candidates, updated)
    ensures Views(updated) == CreditViews(old(Views(candidates)), hit, |hit.ids|, termIndex)
  {
    updated := candidates;
    ghost var before := Views(candidates);
    for position := 0 to |hit.ids|
      invariant Keyed(updated) && Grown(candidates, updated)
      invariant Views(updated) == CreditViews(before, hit, position, termIndex)
    {
      updated := CreditOne(updated, hit.ids[position], !hit.flags[position], |hit.ids|, hit.length, termIndex);
    }
  }

  method Accumulate(idx: Index, words: seq<Word>) returns (candidates: map<nat, Candidate>)
    requires Sound(idx)
    ensures AllValid(Used(idx, words))
    ensures Keyed(candidates) && Views(candidates) == Expected(Used(idx, words))
    ensures forall c :: c in candidates ==> fresh(candidates[c]) && candidates[c].neighbours == 0
  {
    UsedValid(idx, words);
    candidates := map[];
    var used := 0;
    ghost var hits: seq<Hit> := [];
    for w := 0 to |words|
      invariant hits == Used(idx, words[..w]) && used == |hits| && AllValid(hits)
      invariant Keyed(candidates) && Views(candidates) == Expected(hits)
      invariant forall c :: c in candidates ==> fresh(candidates[c]) && candidates[c].neighbours == 0
    {
      assert words[..w + 1][..w] == words[..w];
      var word := words[w];
      var found := idx.Lookup(word.key);
      if found.0 == [] {
        continue;
      }
      var hit := Hit(found.0, found.1, word.length);
      assert Hit(found.0, found.1, 0).Valid();
      WordCredited(hits, hit);
      candidates := CreditWord(candidates, hit, used);
      hits := hits + [hit];
      used := used + 1;
    }
    assert words[..|words|] == words;
  }

  // ---- Neighbours ----

  /** The parts of a symbol the ranking reads besides its evidence. */
  datatype Meta = Meta(repo: string, path: string, kind: string, exported: bool, callers: nat)

  datatype Signals = Signals(hits: nat, frequencies: seq<nat>, lengths: seq<nat>, symbols: nat, neighbours: nat,
                             kind: string, exported: bool, path: string, callers: nat)

  /** The snapshot: `meta` is `None` where a symbol, its file, its repository or one of
      their strings is missing. `score` is the shipped scoring formula. */
  datatype Graph = Graph(symbols: nat, outgoing: nat -> seq<nat>, meta: nat -> Option<Meta>, score: Signals -> real) {
    function Edges(id: nat): seq<nat> {
      if |outgoing(id)| > MAXIMUM_NEIGHBOUR_EDGES then outgoing(id)[..MAXIMUM_NEIGHBOUR_EDGES] else outgoing(id)
    }
  }

  ghost function ReachedTerms(views: map<nat, Evidence>, edges: seq<nat>): Mask {
    if edges == [] then {}
    else
      var last := edges[|edges| - 1];
      ReachedTerms(views, edges[..|edges| - 1]) + if last in views then views[last].terms else {}
  }

  ghost function NeighbourCount(views: map<nat, Evidence>, graph: Graph, id: nat): nat
    requires id in views
  {
    |ReachedTerms(views, graph.Edges(id)) - views[id].terms|
  }

  /** The count is of the words that one of the first 64 outgoing edges reaches at a
      candidate and that the symbol itself lacks. */
  lemma NeighbourWords(views: map<nat, Evidence>, graph: Graph, id: nat)
    requires id in views
    ensures forall k: nat ::
      k in ReachedTerms(views, graph.Edges(id)) - views[id].terms <==>
      (k !in views[id].terms &&
       exists e :: 0 <= e < |graph.outgoing(id)| && e < MAXIMUM_NEIGHBOUR_EDGES &&
         graph.outgoing(id)[e] in views && k in views[graph.outgoing(id)[e]].terms)
  {
    var edges := graph.Edges(id);
    forall k: nat
      ensures k in ReachedTerms(views, edges) <==>
        exists e :: 0 <= e < |graph.outgoing(id)| && e < MAXIMUM_NEIGHBOUR_EDGES &&
          graph.outgoing(id)[e] in views && k in views[graph.outgoing(id)[e]].terms
    {
      ReachedBy(views, edges, k);
      if k in ReachedTerms(views, edges) {
        var e :| 0 <= e < |edges| && edges[e] in views && k in views[edges[e]].terms;
        assert graph.outgoing(id)[e] == edges[e];
      }
      forall e | 0 <= e < |graph.outgoing(id)| && e < MAXIMUM_NEIGHBOUR_EDGES
        ensures graph.outgoing(id)[e] == edges[e]
      {}
    }
  }

  lemma {:induction false} ReachedBy(views: map<nat, Evidence>, edges: seq<nat>, k: nat)
    ensures k in ReachedTerms(views, edges) <==>
      exists e :: 0 <= e < |edges| && edges[e] in views && k in views[edges[e]].terms
  {
    if edges != [] {
      var n := |edges| - 1;
      ReachedBy(views, edges[..n], k);
      if k in ReachedTerms(views, edges[..n]) {
        var e :| 0 <= e < n && edges[..n][e] in views && k in views[edges[..n][e]].terms;
        assert edges[e] in views && k in views[edges[e]].terms;
      }
      if e :| 0 <= e < n && edges[e] in views && k in views[edges[e]].terms {
        assert edges[..n][e] == edges[e];
      }
    }
  }

  /** The candidates are visited in whatever order the map yields them: each visit
      writes one neighbour count and reads only term masks. */
  method CountNeighbours(candidates: map<nat, Candidate>, graph: Graph)
    requires Keyed(candidates)
    modifies candidates.Values
    ensures Views(candidates) == old(Views(candidates))
    ensures forall c :: c in candidates ==> candidates[c].neighbours == NeighbourCount(Views(candidates), graph, c)
  {
    var left := candidates.Keys;
    while left != {}
      invariant left <= candidates.Keys && Views(candidates) == old(Views(candidates))
      invariant forall c :: c in candidates && c !in left ==>
        candidates[c].neighbours == NeighbourCount(old(Views(candidates)), graph, c)
      decreases |left|
    {
      var id :| id in left;
      CountOne(candidates, graph, id);
      left := left - {id};
    }
  }

  method CountOne(candidates: map<nat, Candidate>, graph: Graph, id: nat)
    requires Keyed(candidates) && id in candidates
    modifies candidates[id]
    ensures Views(candidates) == old(Views(candidates))
    ensures candidates[id].neighbours == NeighbourCount(Views(candidates), graph, id)
    ensures forall c :: c in candidates && c != id ==> candidates[c].neighbours == old(candidates[c].neighbours)
  {
    var reached := Reach(candidates, graph.outgoing(id));
    candidates[id].neighbours := |reached - candidates[id].terms|;
    assert forall c :: c in candidates ==> candidates[c].View() == old(candidates[c].View());
  }

  method Reach(candidates: map<nat, Candidate>, outgoing: seq<nat>) returns (reached: Mask)
    ensures reached == ReachedTerms(Views(candidates),
      if |outgoing| > MAXIMUM_NEIGHBOUR_EDGES then outgoing[..MAXIMUM_NEIGHBOUR_EDGES] else outgoing)
  {
    reached := {};
    var position := 0;
    while position < |outgoing|
      invariant position <= |outgoing| && position <= MAXIMUM_NEIGHBOUR_EDGES
      invariant reached == ReachedTerms(Views(candidates), outgoing[..position])
    {
      if position >= MAXIMUM_NEIGHBOUR_EDGES {
        break;
      }
      assert outgoing[..position + 1][..position] == outgoing[..position];
      if outgoing[position] in candidates {
        reached := reached + candidates[outgoing[position]].terms;
      }
      position := position + 1;
    }
    assert outgoing[..|outgoing|] == outgoing;
  }

  // ---- Rows ----

  datatype Row = Row(repo: string, path: string, score: real, id: nat)

  /** Score descending, then symbol id ascending. */
  predicate RowLeq(a: Row, b: Row) {
    a.score > b.score || (a.score == b.score && a.id <= b.id)
  }

  /** How much of a candidate's evidence counts when prose weighs `proseWeight`. */
  function Share(e: Evidence, proseWeight: real): real {
    if e.hits > 0 then Weighted((e.hits - e.prose) as real, e.prose as real, e.hits as real, proseWeight) else 1.0
  }

  function Weighted(plain: real, prose: real, all: real, proseWeight: real): real
    requires all > 0.0
  {
    (plain + proseWeight * prose) / all
  }

  function RowFrom(graph: Graph, id: nat, e: Evidence, neighbours: nat, proseWeight: real): Option<Row> {
    match graph.meta(id)
    case None => None
    case Some(m) =>
      Some(Row(m.repo, m.path,
               Share(e, proseWeight) * graph.score(Signals(e.hits, e.frequencies, e.lengths, graph.symbols, neighbours,
                                                           m.kind, m.exported, m.path, m.callers)),
               id))
  }

  ghost function RowOf(graph: Graph, views: map<nat, Evidence>, id: nat, proseWeight: real): Option<Row>
    requires id in views
  {
    RowFrom(graph, id, views[id], NeighbourCount(views, graph, id), proseWeight)
  }

  /** What the snapshot makes of every candidate. */
  ghost function Described(graph: Graph, views: map<nat, Evidence>, proseWeight: real): map<nat, Option<Row>> {
    map id | id in views :: RowOf(graph, views, id, proseWeight)
  }

  /** `rows` holds one row for each candidate of `ids` the snapshot can describe. */
  ghost predicate RowsFor(rows: seq<Row>, described: map<nat, Option<Row>>, ids: set<nat>)
    requires ids <= described.Keys
  {
    && (forall i, j :: 0 <= i < j < |rows| ==> rows[i].id != rows[j].id)
    && (forall row :: row in rows <==> row.id in ids && described[row.id] == Some(row))
  }

  ghost predicate Describes(described: map<nat, Option<Row>>, candidates: map<nat, Candidate>, graph: Graph,
                            proseWeight: real)
    reads candidates.Values
  {
    && described.Keys == candidates.Keys
    && forall c :: c in candidates ==>
         described[c] == RowFrom(graph, c, candidates[c].View(), candidates[c].neighbours, proseWeight)
  }

  lemma CountedDescribes(candidates: map<nat, Candidate>, graph: Graph, proseWeight: real)
    requires forall c :: c in candidates ==> candidates[c].neighbours == NeighbourCount(Views(candidates), graph, c)
    ensures Describes(Described(graph, Views(candidates), proseWeight), candidates, graph, proseWeight)
  {
    assert Views(candidates).Keys == candidates.Keys;
  }

  /** The candidates in whatever order the map gives them. */
  method CollectRows(candidates: map<nat, Candidate>, graph: Graph, proseWeight: real,
                     ghost described: map<nat, Option<Row>>)
    returns (rows: seq<Row>)
    requires Describes(described, candidates, graph, proseWeight)
    ensures RowsFor(rows, described, described.Keys)
  {
    rows := [];
    var left := candidates.Keys;
    ghost var done: set<nat> := {};
    while left != {}
      invariant Collected(rows, described, done, left)
      decreases |left|
    {
      var id :| id in left;
      var entry := candidates[id];
      var row := RowFrom(graph, id, entry.View(), entry.neighbours, proseWeight);
      assert row == described[id] && (row.Some? ==> row.value.id == id);
      CollectOne(rows, described, done, left, id);
      if row.Some? {
        rows := rows + [row.value];
      }
      done, left := done + {id}, left - {id};
    }
    assert done == described.Keys;
  }

  /** The candidates are those done, with their rows, and those left. */
  ghost predicate Collected(rows: seq<Row>, described: map<nat, Option<Row>>, done: set<nat>, left: set<nat>) {
    done + left == described.Keys && done !! left && RowsFor(rows, described, done)
  }

  lemma CollectOne(rows: seq<Row>, described: map<nat, Option<Row>>, done: set<nat>, left: set<nat>, id: nat)
    requires Collected(rows, described, done, left) && id in left
    requires described[id].Some? ==> described[id].value.id == id
    ensures var more := if described[id].Some? then rows + [described[id].value] else rows;
      Collected(more, described, done + {id}, left - {id})
    ensures |left - {id}| < |left|
  {
    var more := if described[id].Some? then rows + [described[id].value] else rows;
    RowsStep(rows, more, described, done, id);
    MoveOver(described.Keys, done, left, id);
  }

  lemma MoveOver(all: set<nat>, done: set<nat>, left: set<nat>, id: nat)
    requires done + left == all && done !! left && id in left
    ensures (done + {id}) + (left - {id}) == all && (done + {id}) !! (left - {id})
    ensures |left - {id}| < |left|
  {}

  lemma RowsStep(before: seq<Row>, rows: seq<Row>, described: map<nat, Option<Row>>, done: set<nat>, id: nat)
    requires done <= described.Keys && id in described && id !in done
    requires RowsFor(before, described, done)
    requires rows == if described[id].Some? then before + [described[id].value] else before
    requires described[id].Some? ==> described[id].value.id == id
    ensures RowsFor(rows, described, done + {id})
  {
    forall i, j | 0 <= i < j < |rows| ensures rows[i].id != rows[j].id {
      assert rows[i] in before;
    }
  }

  /** The rows in the one order the ranking has. */
  ghost predicate IsRanking(rows: seq<Row>, graph: Graph, views: map<nat, Evidence>, proseWeight: real) {
    Sorted(rows, RowLeq) && RowsFor(rows, Described(graph, views, proseWeight), views.Keys)
  }

  lemma RankingSorted(collected: seq<Row>, graph: Graph, views: map<nat, Evidence>, proseWeight: real)
    requires RowsFor(collected, Described(graph, views, proseWeight), views.Keys)
    ensures IsRanking(Sort(collected, RowLeq), graph, views, proseWeight)
  {
    SortIsSorted(collected, RowLeq);
    RowsPermuted(collected, Sort(collected, RowLeq), Described(graph, views, proseWeight), views.Keys);
  }

  lemma RowsPermuted(before: seq<Row>, rows: seq<Row>, described: map<nat, Option<Row>>, ids: set<nat>)
    requires ids <= described.Keys && RowsFor(before, described, ids) && multiset(before) == multiset(rows)
    ensures RowsFor(rows, described, ids)
  {
    SameElements(before, rows);
    assert Distinct(before);
    DistinctMultiset(before, rows);
    forall i, j | 0 <= i < j < |rows| ensures rows[i].id != rows[j].id {
      assert rows[i] in before && rows[j] in before;
      assert described[rows[i].id] == Some(rows[i]) && described[rows[j].id] == Some(rows[j]);
    }
  }

  /** Whatever order the candidates were visited in, the sorted rows are the same. */
  lemma RankingUnique(a: seq<Row>, b: seq<Row>, graph: Graph, views: map<nat, Evidence>, proseWeight: real)
    requires IsRanking(a, graph, views, proseWeight) && IsRanking(b, graph, views, proseWeight)
    ensures a == b
  {
    var described := Described(graph, views, proseWeight);
    forall x, y | x in a && y in a && RowLeq(x, y) && RowLeq(y, x) ensures x == y {
      assert x.id == y.id;
      assert described[x.id] == Some(x) && described[y.id] == Some(y);
    }
    SortedSetUnique(a, b, RowLeq);
  }

  // ---- Files ----

  datatype FileRow = FileRow(repo: string, path: string)

  function FileOf(row: Row): FileRow {
    FileRow(row.repo, row.path)
  }

  /** The key rows are deduplicated by. */
  function FileKey(file: FileRow): string {
    file.repo + "\0" + file.path
  }

  ghost predicate FirstOfItsKey(rows: seq<Row>, i: nat)
    requires i < |rows|
  {
    forall j :: 0 <= j < i ==> FileKey(FileOf(rows[j])) != FileKey(FileOf(rows[i]))
  }

  /** The positions of the rows that name a file no earlier row names. */
  ghost function FirstPositions(rows: seq<Row>): (r: seq<nat>)
    ensures Ascending(r)
    ensures forall i: nat :: i in r <==> i < |rows| && FirstOfItsKey(rows, i)
    ensures forall j :: 0 <= j < |r| ==> r[j] < |rows|
  {
    if rows == [] then []
    else
      var n := |rows| - 1;
      var front := FirstPositions(rows[..n]);
      assert forall i: nat | i < n :: FirstOfItsKey(rows[..n], i) <==> FirstOfItsKey(rows, i);
      if FirstOfItsKey(rows, n) then front + [n] else front
  }

  ghost function FilesAt(rows: seq<Row>, positions: seq<nat>): (r: seq<FileRow>)
    requires forall j :: 0 <= j < |positions| ==> positions[j] < |rows|
    ensures |r| == |positions| && forall j :: 0 <= j < |r| ==> r[j] == FileOf(rows[positions[j]])
  {
    seq(|positions|, j requires 0 <= j < |positions| => FileOf(rows[positions[j]]))
  }

  /** The first `limit` distinct files of the rows, or all of them when the limit is zero. */
  ghost predicate FirstFiles(rows: seq<Row>, limit: nat, files: seq<FileRow>) {
    var firsts := FirstPositions(rows);
    files == FilesAt(rows, if limit == 0 || |firsts| <= limit then firsts else firsts[..limit])
  }

  ghost function Keys(rows: seq<Row>, r: nat): set<string>
    requires r <= |rows|
  {
    if r == 0 then {} else Keys(rows, r - 1) + {FileKey(FileOf(rows[r - 1]))}
  }

  /** The new files among the first `r` rows. */
  ghost function NewFiles(rows: seq<Row>, r: nat): seq<FileRow>
    requires r <= |rows|
  {
    if r == 0 then []
    else
      var file := FileOf(rows[r - 1]);
      NewFiles(rows, r - 1) + if FileKey(file) in Keys(rows, r - 1) then [] else [file]
  }

  method TakeFiles(rows: seq<Row>, limit: nat) returns (files: seq<FileRow>)
    ensures FirstFiles(rows, limit, files)
  {
    files := [];
    var seen: set<string> := {};
    for r := 0 to |rows|
      invariant seen == Keys(rows, r) && files == NewFiles(rows, r)
      invariant limit == 0 || |files| < limit
    {
      var key := FileKey(FileOf(rows[r]));
      if key in seen {
        continue;
      }
      seen := seen + {key};
      files := files + [FileOf(rows[r])];
      if |files| == limit {
        NewFilesAreFirst(rows, r + 1, limit);
        return;
      }
    }
    NewFilesAreFirst(rows, |rows|, limit);
  }

  lemma {:induction false} SeenKeys(rows: seq<Row>, r: nat, key: string)
    requires r <= |rows|
    ensures key in Keys(rows, r) <==> exists j :: 0 <= j < r && FileKey(FileOf(rows[j])) == key
  {
    if r > 0 {
      SeenKeys(rows, r - 1, key);
    }
  }

  /** They are the files at the first positions of their keys. */
  ghost predicate FilesAligned(rows: seq<Row>, r: nat)
    requires r <= |rows|
  {
    NewFiles(rows, r) == FilesAt(rows, FirstPositions(rows[..r]))
  }

  lemma {:induction false} NewFilesAt(rows: seq<Row>, r: nat)
    requires r <= |rows|
    ensures FilesAligned(rows, r)
  {
    if r == 0 {
      assert rows[..r] == [] && FirstPositions([]) == [];
    } else {
      NewFilesAt(rows, r - 1);
      AlignedStep(rows, r);
    }
  }

  lemma AlignedStep(rows: seq<Row>, r: nat)
    requires 0 < r <= |rows| && FilesAligned(rows, r - 1)
    ensures FilesAligned(rows, r)
  {
    NewFilesStep(rows, r);
    FilesAtStep(rows, r);
  }

  lemma NewFilesStep(rows: seq<Row>, r: nat)
    requires 0 < r <= |rows|
    ensures var front := NewFiles(rows, r - 1);
      NewFiles(rows, r) == if FirstOfItsKey(rows, r - 1) then front + [FileOf(rows[r - 1])] else front
  {
    SeenKeys(rows, r - 1, FileKey(FileOf(rows[r - 1])));
  }

  lemma FilesAtStep(rows: seq<Row>, r: nat)
    requires 0 < r <= |rows|
    ensures var front := FilesAt(rows, FirstPositions(rows[..r - 1]));
      FilesAt(rows, FirstPositions(rows[..r])) ==
        if FirstOfItsKey(rows, r - 1) then front + [FileOf(rows[r - 1])] else front
  {
    NextPosition(rows, r);
    FilesAtPush(rows, FirstPositions(rows[..r - 1]), r - 1);
  }

  lemma FilesAtPush(rows: seq<Row>, positions: seq<nat>, r: nat)
    requires r < |rows| && forall j :: 0 <= j < |positions| ==> positions[j] < |rows|
    ensures FilesAt(rows, positions + [r]) == FilesAt(rows, positions) + [FileOf(rows[r])]
  {}

  lemma NextPosition(rows: seq<Row>, r: nat)
    requires 0 < r <= |rows|
    ensures var front := FirstPositions(rows[..r - 1]);
      FirstPositions(rows[..r]) == if FirstOfItsKey(rows, r - 1) then front + [r - 1] else front
  {
    assert rows[..r][..r - 1] == rows[..r - 1];
    assert FirstOfItsKey(rows[..r], r - 1) <==> FirstOfItsKey(rows, r - 1);
  }

  lemma NewFilesAreFirst(rows: seq<Row>, r: nat, limit: nat)
    requires r <= |rows|
    requires |NewFiles(rows, r)| == limit > 0 || (r == |rows| && (limit == 0 || |NewFiles(rows, r)| < limit))
    ensures FirstFiles(rows, limit, NewFiles(rows, r))
  {
    var found, firsts := FirstPositions(rows[..r]), FirstPositions(rows);
    NewFilesAt(rows, r);
    assert |found| == |NewFiles(rows, r)|;
    if |found| == limit > 0 {
      FirstPositionsPrefix(rows, r);
      assert found == firsts[..limit];
      assert |firsts| <= limit ==> found == firsts;
    } else {
      assert rows[..r] == rows;
    }
  }

  lemma {:induction false} FirstPositionsPrefix(rows: seq<Row>, r: nat)
    requires r <= |rows|
    ensures FirstPositions(rows[..r]) <= FirstPositions(rows)
    decreases |rows|
  {
    if r == |rows| {
      assert rows[..r] == rows;
    } else {
      var n := |rows| - 1;
      var front := FirstPositions(rows[..n]);
      assert rows[..n][..r] == rows[..r];
      FirstPositionsPrefix(rows[..n], r);
      assert FirstPositions(rows) == if FirstOfItsKey(rows, n) then front + [n] else front;
    }
  }

  // ---- The ranker ----

  /** `files` is what the words rank to in this graph. */
  ghost predicate Ranks(idx: Index, words: seq<Word>, graph: Graph, limit: nat, proseWeight: real, files: seq<FileRow>)
    requires Sound(idx)
  {
    UsedValid(idx, words);
    exists rows :: IsRanking(rows, graph, Expected(Used(idx, words)), proseWeight) && FirstFiles(rows, limit, files)
  }

  method Rank(idx: Index, words: seq<Word>, graph: Graph, limit: nat, proseWeight: real) returns (files: seq<FileRow>)
    requires Sound(idx)
    ensures Ranks(idx, words, graph, limit, proseWeight, files)
  {
    var candidates := Accumulate(idx, words);
    CountNeighbours(candidates, graph);
    CountedDescribes(candidates, graph, proseWeight);
    assert Views(candidates).Keys == candidates.Keys;
    var rows := CollectRows(candidates, graph, proseWeight, Described(graph, Views(candidates), proseWeight));
    RankingSorted(rows, graph, Views(candidates), proseWeight);
    rows := Sort(rows, RowLeq);
    files := TakeFiles(rows, limit);
    assert IsRanking(rows, graph, Expected(Used(idx, words)), proseWeight);
  }

  /** The answer is a function of the question: no map order shows through. */
  lemma RankDeterministic(idx: Index, words: seq<Word>, graph: Graph, limit: nat, proseWeight: real,
                          a: seq<FileRow>, b: seq<FileRow>)
    requires Sound(idx)
    ensures Ranks(idx, words, graph, limit, proseWeight, a) && Ranks(idx, words, graph, limit, proseWeight, b) ==>
      a == b
  {
    if Ranks(idx, words, graph, limit, proseWeight, a) && Ranks(idx, words, graph, limit, proseWeight, b) {
      UsedValid(idx, words);
      var views := Expected(Used(idx, words));
      var x :| IsRanking(x, graph, views, proseWeight) && FirstFiles(x, limit, a);
      var y :| IsRanking(y, graph, views, proseWeight) && FirstFiles(y, limit, b);
      RankingUnique(x, y, graph, views, proseWeight);
    }
  }

  /** Every posting is structural, as in an index built without docstrings. */
  ghost predicate AllStructural(idx: Index)
    requires idx.WellFormed()
  {
    forall key, i :: 0 <= i < |idx.Lookup(key).1| ==> idx.Lookup(key).1[i]
  }

  lemma {:induction false} UsedStructural(idx: Index, words: seq<Word>)
    requires Sound(idx) && AllStructural(idx)
    ensures forall k, i :: 0 <= k < |Used(idx, words)| && 0 <= i < |Used(idx, words)[k].flags| ==>
      Used(idx, words)[k].flags[i]
  {
    if words != [] { UsedStructural(idx, words[..|words| - 1]); }
  }

  /** Over an index without prose the prose weight changes nothing. */
  lemma WeightIrrelevantWithoutProse(idx: Index, words: seq<Word>, graph: Graph, limit: nat, v: real, w: real,
                                     files: seq<FileRow>)
    requires Sound(idx) && AllStructural(idx)
    ensures Ranks(idx, words, graph, limit, v, files) <==> Ranks(idx, words, graph, limit, w, files)
  {
    UsedValid(idx, words);
    DescribedAlike(idx, words, graph, v, w);
  }

  lemma DescribedAlike(idx: Index, words: seq<Word>, graph: Graph, v: real, w: real)
    requires Sound(idx) && AllStructural(idx) && AllValid(Used(idx, words))
    ensures var views := Expected(Used(idx, words)); Described(graph, views, v) == Described(graph, views, w)
  {
    UsedStructural(idx, words);
    var used := Used(idx, words);
    var views := Expected(used);
    forall id | id in views ensures RowOf(graph, views, id, v) == RowOf(graph, views, id, w) {
      EvidenceCovers(used, id);
      assert (set k | 0 <= k < |used| && id in used[k].ids && used[k].Prose(id)) == {};
      ShareWithoutProse(views[id], v);
      ShareWithoutProse(views[id], w);
    }
  }

  /** What `Build` publishes can be ranked, and without docstrings it is all structural. */
  lemma BuiltIndexIsSound(corpus: Corpus, idx: Index)
    requires idx.WellFormed() && forall key :: Answers(corpus, key, idx.Lookup(key))
    ensures Sound(idx)
    ensures corpus.docs == map[] ==> AllStructural(idx)
  {
    forall key ensures Hit(idx.Lookup(key).0, idx.Lookup(key).1, 0).Valid() {
      assert Answers(corpus, key, idx.Lookup(key));
    }
    if corpus.docs == map[] {
      forall key, i | 0 <= i < |idx.Lookup(key).1| ensures idx.Lookup(key).1[i] {
        assert Answers(corpus, key, idx.Lookup(key));
        assert idx.Lookup(key).0[i] in idx.Lookup(key).0;
        assert corpus.Yield(idx.Lookup(key).0[i], key);
      }
    }
  }

  lemma ShareWithoutProse(e: Evidence, w: real)
    requires e.prose == 0
    ensures Share(e, w) == 1.0
  {
    if e.hits > 0 {
      SelfQuotient(e.hits as real, w * 0.0);
    }
  }

  /** The share a candidate keeps lies between the prose weight and one; it is one exactly
      when nothing of its evidence is prose or prose weighs as much as the rest. */
  lemma ShareBetween(e: Evidence, w: real)
    requires 0.0 <= w <= 1.0 && e.prose <= e.hits
    ensures w <= Share(e, w) <= 1.0
    ensures Share(e, w) == 1.0 <==> e.prose == 0 || w == 1.0
  {
    if e.hits > 0 {
      Mixture((e.hits - e.prose) as real, e.prose as real, e.hits as real, w);
    }
  }

  lemma Mixture(plain: real, prose: real, all: real, w: real)
    requires plain >= 0.0 && prose >= 0.0 && all > 0.0 && plain + prose == all && 0.0 <= w <= 1.0
    ensures w <= Weighted(plain, prose, all, w) <= 1.0
    ensures Weighted(plain, prose, all, w) == 1.0 <==> prose == 0.0 || w == 1.0
  {
    var top, lost := plain + w * prose, (1.0 - w) * prose;
    assert top == all - lost && top - w * all == (1.0 - w) * plain;
    assert lost >= 0.0 && (lost == 0.0 <==> prose == 0.0 || w == 1.0);
    ShareOf(top, all, w);
  }

  lemma SelfQuotient(x: real, zero: real)
    requires x > 0.0 && zero == 0.0
    ensures (x + zero) / x == 1.0
  {}

  // ---- The deduplication key ----

  /** Two files share a key exactly when they are equal or the NUL separator is
      ambiguous: one repository name continues the other past a NUL. */
  lemma KeyCollision(a: FileRow, b: FileRow)
    ensures FileKey(a) == FileKey(b) <==> a == b || Ambiguous(a, b) || Ambiguous(b, a)
  {
    var x, y := FileKey(a), FileKey(b);
    if x == y {
      if |a.repo| == |b.repo| {
        assert a.repo == x[..|a.repo|] && b.repo == y[..|b.repo|];
        assert a.path == x[|a.repo| + 1..] && b.path == y[|b.repo| + 1..];
      } else if |a.repo| < |b.repo| {
        Split(a, b);
      } else {
        Split(b, a);
      }
    }
    if t: string :| b.repo == a.repo + "\0" + t && a.path == t + "\0" + b.path {
      assert x == a.repo + "\0" + t + "\0" + b.path;
    }
    if t: string :| a.repo == b.repo + "\0" + t && b.path == t + "\0" + a.path {
      assert y == b.repo + "\0" + t + "\0" + a.path;
    }
  }

  ghost predicate Ambiguous(a: FileRow, b: FileRow) {
    exists t: string :: b.repo == a.repo + "\0" + t && a.path == t + "\0" + b.path
  }

  lemma Split(a: FileRow, b: FileRow)
    requires FileKey(a) == FileKey(b) && |a.repo| < |b.repo|
    ensures Ambiguous(a, b)
  {
    var x, n := FileKey(a), |a.repo|;
    var t := b.repo[n + 1..];
    assert b.repo == x[..|b.repo|];
    assert b.repo[..n] == x[..n] == a.repo;
    assert b.repo[n] == x[n] == '\0';
    assert b.repo == a.repo + "\0" + t;
    assert a.path == x[n + 1..];
    assert x == a.repo + "\0" + (t + "\0" + b.path);
  }

  /** So two different repository names never mix files exactly when neither continues
      the other past a NUL; names without a NUL are always safe. */
  lemma SeparableRepositories(r: string, s: string)
    requires r != s
    ensures (forall p, q :: FileKey(FileRow(r, p)) != FileKey(FileRow(s, q))) <==> !(r + "\0" <= s) && !(s + "\0" <= r)
    ensures '\0' !in r && '\0' !in s ==> !(r + "\0" <= s) && !(s + "\0" <= r)
  {
    if r + "\0" <= s { Mixes(r, s); }
    if s + "\0" <= r { Mixes(s, r); }
    if !(r + "\0" <= s) && !(s + "\0" <= r) {
      forall p, q ensures FileKey(FileRow(r, p)) != FileKey(FileRow(s, q)) {
        KeyCollision(FileRow(r, p), FileRow(s, q));
      }
    }
    if r + "\0" <= s { assert s[|r|] == '\0'; }
    if s + "\0" <= r { assert r[|s|] == '\0'; }
  }

  lemma Mixes(r: string, s: string)
    requires r + "\0" <= s
    ensures exists p, q :: FileKey(FileRow(r, p)) == FileKey(FileRow(s, q))
  {
    var t := s[|r| + 1..];
    assert s == r + "\0" + t;
    var a, b := FileRow(r, t + "\0"), FileRow(s, "");
    assert FileKey(a) == r + "\0" + (t + "\0");
    assert FileKey(b) == s + "\0" == r + "\0" + t + "\0";
    assert FileKey(FileRow(r, t + "\0")) == FileKey(FileRow(s, ""));
  }
}
