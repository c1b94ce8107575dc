/** How the batch loader cuts a stream of records into one-type batches, as a function
    of what its buffers hold, and why nothing is lost, reordered or split too often. */
module Batching {
  import opened Arithmetic
  import opened Tables
  import opened Transactions

  /** What is still buffered, the batches handed over so far, and how many of each type. */
  datatype Progress = Progress(held: map<string, seq<EdgeRecord>>, batches: seq<seq<EdgeRecord>>,
                               counts: map<string, nat>)

  const START := Progress(map[], [], map[])

  function HeldOf(p: Progress, edgeType: string): seq<EdgeRecord> {
    if edgeType in p.held then p.held[edgeType] else []
  }

  function CountOf(p: Progress, edgeType: string): nat {
    if edgeType in p.counts then p.counts[edgeType] else 0
  }

  function Take(p: Progress, record: EdgeRecord, batchSize: nat): Progress {
    var t := record.edgeType;
    var batch := HeldOf(p, t) + [record];
    if |batch| < batchSize then Progress(p.held[t := batch], p.batches, p.counts[t := CountOf(p, t)])
    else Progress(p.held[t := []], p.batches + [batch], p.counts[t := CountOf(p, t) + 1])
  }

  function TakeAll(records: seq<EdgeRecord>, batchSize: nat): Progress {
    if records == [] then START
    else Take(TakeAll(records[..|records| - 1], batchSize), records[|records| - 1], batchSize)
  }

  /** The final flush of one type. */
  function Flush(p: Progress, edgeType: string): Progress {
    if HeldOf(p, edgeType) == [] then p
    else Progress(p.held[edgeType := []], p.batches + [p.held[edgeType]],
                  p.counts[edgeType := CountOf(p, edgeType) + 1])
  }

  function FlushAll(p: Progress, types: seq<string>): Progress {
    if types == [] then p else Flush(FlushAll(p, types[..|types| - 1]), types[|types| - 1])
  }

  function Flatten(batches: seq<seq<EdgeRecord>>): seq<EdgeRecord> {
    if batches == [] then [] else Flatten(batches[..|batches| - 1]) + batches[|batches| - 1]
  }

  ghost predicate OneType(batch: seq<EdgeRecord>, edgeType: string) {
    forall i :: 0 <= i < |batch| ==> batch[i].edgeType == edgeType
  }

  /** A batch the database is handed: one type, at least one record and at most `batchSize`. */
  ghost predicate GoodBatch(batch: seq<EdgeRecord>, batchSize: nat) {
    0 < |batch| <= batchSize && OneType(batch, batch[0].edgeType)
  }

  ghost predicate GoodBatches(batches: seq<seq<EdgeRecord>>, batchSize: nat) {
    forall i :: 0 <= i < |batches| ==> GoodBatch(batches[i], batchSize)
  }

  ghost function Types(records: seq<EdgeRecord>): set<string> {
    set i | 0 <= i < |records| :: records[i].edgeType
  }

  // ---- Sums over the types ----

  ghost function Total(counts: map<string, nat>): nat {
    if counts == map[] then 0
    else
      var t :| t in counts;
      counts[t] + Total(counts - {t})
  }

  lemma {:induction false} TotalRemove(counts: map<string, nat>, t: string)
    requires t in counts
    ensures Total(counts) == counts[t] + Total(counts - {t})
    decreases |counts|
  {
    var s :| s in counts && Total(counts) == counts[s] + Total(counts - {s});
    if s != t {
      TotalRemove(counts - {s}, t);
      TotalRemove(counts - {t}, s);
      assert counts - {s} - {t} == counts - {t} - {s};
    }
  }

  lemma TotalUpdate(counts: map<string, nat>, t: string, n: nat)
    ensures Total(counts[t := n]) == Total(counts) - (if t in counts then counts[t] else 0) + n
  {
    var after := counts[t := n];
    TotalRemove(after, t);
    if t in counts {
      TotalRemove(counts, t);
      assert after - {t} == counts - {t};
    } else {
      assert after - {t} == counts;
    }
  }

  /** The transactions a stream of edges needs: one for each full or leftover batch of a type. */
  ghost function EdgeTransactions(records: seq<EdgeRecord>, batchSize: nat): nat
    requires batchSize > 0
  {
    Total(map t | t in Types(records) :: CeilDiv(|OfType(records, t)|, batchSize))
  }

  // ---- Per type: the batches and the buffer together are the records so far ----

  /** `n` records are exactly `count` full batches. */
  ghost predicate Whole(n: nat, count: nat, batchSize: nat) {
    n == count * batchSize
  }

  ghost predicate Split(p: Progress, records: seq<EdgeRecord>, batchSize: nat, t: string) {
    && OfType(Flatten(p.batches), t) + HeldOf(p, t) == OfType(records, t)
    && OneType(HeldOf(p, t), t)
    && Whole(|OfType(Flatten(p.batches), t)|, CountOf(p, t), batchSize)
    && |HeldOf(p, t)| < batchSize
  }

  ghost predicate Settled(p: Progress, records: seq<EdgeRecord>, batchSize: nat, t: string)
    requires batchSize > 0
  {
    && OfType(Flatten(p.batches), t) == OfType(records, t)
    && HeldOf(p, t) == []
    && CountOf(p, t) == CeilDiv(|OfType(records, t)|, batchSize)
  }

  /** Bookkeeping that does not depend on the type. */
  ghost predicate Booked(p: Progress, batchSize: nat) {
    p.held.Keys == p.counts.Keys && GoodBatches(p.batches, batchSize) && |p.batches| == Total(p.counts)
  }

  lemma {:induction false} OneTypeFilters(batch: seq<EdgeRecord>, edgeType: string, t: string)
    requires OneType(batch, edgeType)
    ensures OfType(batch, t) == if t == edgeType then batch else []
  {
    if batch != [] {
      var front, last := batch[..|batch| - 1], batch[|batch| - 1];
      assert last.edgeType == edgeType;
      OneTypeFilters(front, edgeType, t);
      assert batch == front + [last];
    }
  }

  lemma FlattenBatch(batches: seq<seq<EdgeRecord>>, batch: seq<EdgeRecord>, edgeType: string, t: string)
    requires OneType(batch, edgeType)
    ensures t == edgeType ==> OfType(Flatten(batches + [batch]), t) == OfType(Flatten(batches), t) + batch
    ensures t != edgeType ==> OfType(Flatten(batches + [batch]), t) == OfType(Flatten(batches), t)
  {
    assert (batches + [batch])[..|batches|] == batches;
    OfTypeConcat(Flatten(batches), batch, t);
    OneTypeFilters(batch, edgeType, t);
  }

  lemma FlattenPush(batches: seq<seq<EdgeRecord>>, batch: seq<EdgeRecord>)
    ensures Flatten(batches + [batch]) == Flatten(batches) + batch
    ensures Writes(Flatten(batches + [batch])) == Writes(Flatten(batches)) + Writes(batch)
  {
    assert (batches + [batch])[..|batches|] == batches;
  }

  lemma TypesGrow(records: seq<EdgeRecord>, record: EdgeRecord)
    ensures Types(records + [record]) == Types(records) + {record.edgeType}
  {
    var all := records + [record];
    assert all[|records|] == record;
    forall t | t in Types(records) ensures t in Types(all) {
      var i :| 0 <= i < |records| && records[i].edgeType == t;
      assert all[i].edgeType == t;
    }
  }

  lemma OfTypePush(records: seq<EdgeRecord>, record: EdgeRecord, t: string)
    ensures t == record.edgeType ==> OfType(records + [record], t) == OfType(records, t) + [record]
    ensures t != record.edgeType ==> OfType(records + [record], t) == OfType(records, t)
  {
    assert (records + [record])[..|records|] == records;
  }

  lemma TakeSplitsOther(p: Progress, records: seq<EdgeRecord>, record: EdgeRecord, batchSize: nat, t: string)
    requires batchSize > 0 && t != record.edgeType
    requires Split(p, records, batchSize, t) && OneType(HeldOf(p, record.edgeType), record.edgeType)
    ensures Split(Take(p, record, batchSize), records + [record], batchSize, t)
  {
    var u, q := record.edgeType, Take(p, record, batchSize);
    var batch := HeldOf(p, u) + [record];
    assert OfType(records + [record], t) == OfType(records, t) by {
      OfTypePush(records, record, t);
    }
    assert HeldOf(q, t) == HeldOf(p, t) && CountOf(q, t) == CountOf(p, t);
    assert OfType(Flatten(q.batches), t) == OfType(Flatten(p.batches), t) by {
      if |batch| >= batchSize {
        FlattenBatch(p.batches, batch, u, t);
      }
    }
  }

  lemma TakeSplits(p: Progress, records: seq<EdgeRecord>, record: EdgeRecord, batchSize: nat)
    requires batchSize > 0 && Split(p, records, batchSize, record.edgeType)
    ensures Split(Take(p, record, batchSize), records + [record], batchSize, record.edgeType)
  {
    var t, q := record.edgeType, Take(p, record, batchSize);
    var done, batch := OfType(Flatten(p.batches), t), HeldOf(p, t) + [record];
    assert OfType(records + [record], t) == done + batch by {
      OfTypePush(records, record, t);
    }
    if |batch| < batchSize {
      assert HeldOf(q, t) == batch && OfType(Flatten(q.batches), t) == done && CountOf(q, t) == CountOf(p, t);
    } else {
      assert HeldOf(q, t) == [] && CountOf(q, t) == CountOf(p, t) + 1;
      assert OfType(Flatten(q.batches), t) == done + batch by {
        FlattenBatch(p.batches, batch, t, t);
      }
      assert (done + batch) + [] == done + batch && |done + batch| == |done| + batchSize;
      NextWhole(CountOf(p, t), batchSize);
    }
  }

  lemma TakeBooks(p: Progress, record: EdgeRecord, batchSize: nat)
    requires batchSize > 0 && Booked(p, batchSize)
    requires |HeldOf(p, record.edgeType)| < batchSize && OneType(HeldOf(p, record.edgeType), record.edgeType)
    ensures Booked(Take(p, record, batchSize), batchSize)
  {
    var t := record.edgeType;
    var batch := HeldOf(p, t) + [record];
    assert |batch| == batchSize ==> GoodBatch(batch, batchSize);
    TotalUpdate(p.counts, t, CountOf(p, t));
    TotalUpdate(p.counts, t, CountOf(p, t) + 1);
  }

  /** At every point of the stream each type's batches and buffer are its records so far. */
  lemma {:induction false} TakeAllSplits(records: seq<EdgeRecord>, batchSize: nat)
    requires batchSize > 0
    ensures Booked(TakeAll(records, batchSize), batchSize)
    ensures TakeAll(records, batchSize).held.Keys == Types(records)
    ensures forall t :: Split(TakeAll(records, batchSize), records, batchSize, t)
  {
    if records == [] {
      forall t ensures Split(START, records, batchSize, t) {
        assert Whole(0, 0, batchSize);
      }
    } else {
      var front, last := records[..|records| - 1], records[|records| - 1];
      var p := TakeAll(front, batchSize);
      TakeAllSplits(front, batchSize);
      assert records == front + [last];
      TypesGrow(front, last);
      assert Split(p, front, batchSize, last.edgeType);
      TakeBooks(p, last, batchSize);
      forall t ensures Split(TakeAll(records, batchSize), records, batchSize, t) {
        assert Split(p, front, batchSize, t);
        if t == last.edgeType {
          TakeSplits(p, front, last, batchSize);
        } else {
          TakeSplitsOther(p, front, last, batchSize, t);
        }
      }
    }
  }

  /** Flushing a type settles it and touches no other. */
  lemma FlushSettles(p: Progress, records: seq<EdgeRecord>, batchSize: nat, u: string)
    requires batchSize > 0
    requires Split(p, records, batchSize, u) || Settled(p, records, batchSize, u)
    ensures Settled(Flush(p, u), records, batchSize, u)
  {
    if Split(p, records, batchSize, u) {
      var held := HeldOf(p, u);
      CeilOfParts(|OfType(records, u)|, batchSize, CountOf(p, u), |held|);
      FlattenBatch(p.batches, held, u, u);
    }
  }

  lemma FlushKeeps(p: Progress, records: seq<EdgeRecord>, batchSize: nat, u: string, t: string)
    requires batchSize > 0 && t != u && OneType(HeldOf(p, u), u)
    ensures Split(p, records, batchSize, t) ==> Split(Flush(p, u), records, batchSize, t)
    ensures Settled(p, records, batchSize, t) ==> Settled(Flush(p, u), records, batchSize, t)
  {
    FlattenBatch(p.batches, HeldOf(p, u), u, t);
  }

  lemma FlushBooks(p: Progress, batchSize: nat, u: string)
    requires Booked(p, batchSize)
    requires HeldOf(p, u) != [] ==> OneType(HeldOf(p, u), u) && |HeldOf(p, u)| < batchSize
    ensures Booked(Flush(p, u), batchSize)
    ensures Flush(p, u).held.Keys == p.held.Keys
  {
    TotalUpdate(p.counts, u, CountOf(p, u) + 1);
    assert HeldOf(p, u) != [] ==> GoodBatch(HeldOf(p, u), batchSize);
  }

  lemma {:induction false} FlushAllSettles(records: seq<EdgeRecord>, batchSize: nat, types: seq<string>)
    requires batchSize > 0
    ensures var q := FlushAll(TakeAll(records, batchSize), types);
      && Booked(q, batchSize) && q.held.Keys == Types(records)
      && (forall t | t in types :: Settled(q, records, batchSize, t))
      && (forall t | t !in types :: Split(q, records, batchSize, t))
  {
    if types == [] {
      TakeAllSplits(records, batchSize);
    } else {
      var front, u := types[..|types| - 1], types[|types| - 1];
      var p := FlushAll(TakeAll(records, batchSize), front);
      FlushAllSettles(records, batchSize, front);
      assert Settled(p, records, batchSize, u) || Split(p, records, batchSize, u);
      FlushBooks(p, batchSize, u);
      FlushSettles(p, records, batchSize, u);
      forall t | t != u
        ensures Split(p, records, batchSize, t) ==> Split(Flush(p, u), records, batchSize, t)
        ensures Settled(p, records, batchSize, t) ==> Settled(Flush(p, u), records, batchSize, t)
      {
        FlushKeeps(p, records, batchSize, u, t);
      }
      assert forall t :: t in types <==> t in front || t == u;
    }
  }

  /** After the flush every type has been handed over completely and in input order. */
  lemma AllHandedOver(records: seq<EdgeRecord>, batchSize: nat, types: seq<string>)
    requires batchSize > 0 && forall t :: t in types <==> t in Types(records)
    ensures var batches := FlushAll(TakeAll(records, batchSize), types).batches;
      && GoodBatches(batches, batchSize)
      && (forall t :: OfType(Flatten(batches), t) == OfType(records, t))
  {
    var q := FlushAll(TakeAll(records, batchSize), types);
    FlushAllSettles(records, batchSize, types);
    forall t ensures OfType(Flatten(q.batches), t) == OfType(records, t) {
      if t in types {
        assert Settled(q, records, batchSize, t);
      } else {
        assert Split(q, records, batchSize, t) && t !in q.held;
      }
    }
  }

  lemma FlushedOne(records: seq<EdgeRecord>, batchSize: nat, types: seq<string>, t: string)
    requires batchSize > 0 && t in types
    ensures CountOf(FlushAll(TakeAll(records, batchSize), types), t) == CeilDiv(|OfType(records, t)|, batchSize)
  {
    FlushAllSettles(records, batchSize, types);
    assert Settled(FlushAll(TakeAll(records, batchSize), types), records, batchSize, t);
  }

  lemma FlushedBooks(records: seq<EdgeRecord>, batchSize: nat, types: seq<string>)
    requires batchSize > 0
    ensures var q := FlushAll(TakeAll(records, batchSize), types);
      |q.batches| == Total(q.counts) && q.counts.Keys == Types(records)
  {
    FlushAllSettles(records, batchSize, types);
  }

  /** And in as many batches as the types need. */
  lemma FewestBatches(records: seq<EdgeRecord>, batchSize: nat, types: seq<string>)
    requires batchSize > 0 && forall t :: t in types <==> t in Types(records)
    ensures |FlushAll(TakeAll(records, batchSize), types).batches| == EdgeTransactions(records, batchSize)
  {
    var q := FlushAll(TakeAll(records, batchSize), types);
    FlushedBooks(records, batchSize, types);
    var needed := map t | t in Types(records) :: CeilDiv(|OfType(records, t)|, batchSize);
    forall t | t in needed ensures q.counts[t] == needed[t] {
      FlushedOne(records, batchSize, types, t);
    }
    assert q.counts == needed;
  }

  // ---- No other division has fewer ----

  /** How many of the batches are of each type. */
  ghost function Tally(batches: seq<seq<EdgeRecord>>, batchSize: nat): map<string, nat>
    requires GoodBatches(batches, batchSize)
  {
    if batches == [] then map[]
    else
      var front, t := Tally(batches[..|batches| - 1], batchSize), batches[|batches| - 1][0].edgeType;
      front[t := TallyOf(front, t) + 1]
  }

  function TallyOf(tally: map<string, nat>, t: string): nat {
    if t in tally then tally[t] else 0
  }

  lemma {:induction false} TallyCounts(batches: seq<seq<EdgeRecord>>, batchSize: nat)
    requires GoodBatches(batches, batchSize)
    ensures |batches| == Total(Tally(batches, batchSize))
  {
    if batches != [] {
      var n := |batches| - 1;
      TallyCounts(batches[..n], batchSize);
      var front, t := Tally(batches[..n], batchSize), batches[n][0].edgeType;
      TotalUpdate(front, t, TallyOf(front, t) + 1);
    }
  }

  lemma {:induction false} TallyHolds(batches: seq<seq<EdgeRecord>>, batchSize: nat, t: string)
    requires GoodBatches(batches, batchSize)
    ensures |OfType(Flatten(batches), t)| <= TallyOf(Tally(batches, batchSize), t) * batchSize
  {
    if batches != [] {
      var n := |batches| - 1;
      var batch, front := batches[n], Tally(batches[..n], batchSize);
      TallyHolds(batches[..n], batchSize, t);
      assert GoodBatch(batch, batchSize);
      assert batches == batches[..n] + [batch];
      FlattenBatch(batches[..n], batch, batch[0].edgeType, t);
      if t == batch[0].edgeType {
        NextWhole(TallyOf(front, t), batchSize);
      }
    }
  }

  lemma {:induction false} TotalMonotone(a: map<string, nat>, b: map<string, nat>)
    requires forall t :: t in a ==> t in b && a[t] <= b[t]
    ensures Total(a) <= Total(b)
    decreases |a|
  {
    if a != map[] {
      var t :| t in a;
      TotalRemove(a, t);
      TotalRemove(b, t);
      TotalMonotone(a - {t}, b - {t});
    }
  }

  lemma {:induction false} TypePresent(records: seq<EdgeRecord>, t: string)
    requires t in Types(records)
    ensures OfType(records, t) != []
  {
    var n := |records| - 1;
    if records[n].edgeType != t {
      var i :| 0 <= i < |records| && records[i].edgeType == t;
      assert records[..n][i].edgeType == t;
      TypePresent(records[..n], t);
    }
  }

  /** Whatever batches of one type and at most `batchSize` records hand over as many records
      of every type are at least as many. */
  lemma NoFewerBatches(records: seq<EdgeRecord>, batchSize: nat, batches: seq<seq<EdgeRecord>>)
    requires batchSize > 0 && GoodBatches(batches, batchSize)
    requires forall t :: |OfType(Flatten(batches), t)| == |OfType(records, t)|
    ensures |batches| >= EdgeTransactions(records, batchSize)
  {
    var tally := Tally(batches, batchSize);
    var needed := map t | t in Types(records) :: CeilDiv(|OfType(records, t)|, batchSize);
    forall t | t in needed ensures t in tally && needed[t] <= tally[t] {
      TypePresent(records, t);
      TallyHolds(batches, batchSize, t);
      CeilIsLeast(|OfType(records, t)|, batchSize, TallyOf(tally, t));
      assert t !in tally ==> TallyOf(tally, t) * batchSize == 0;
    }
    TallyCounts(batches, batchSize);
    TotalMonotone(needed, tally);
  }

  /** Part way through, each type's batches are a prefix of its records. */
  lemma HandedPrefix(records: seq<EdgeRecord>, batchSize: nat, k: nat, types: seq<string>, t: string)
    requires batchSize > 0 && k <= |records|
    ensures OfType(Flatten(FlushAll(TakeAll(records[..k], batchSize), types).batches), t) <= OfType(records, t)
  {
    var front := records[..k];
    var q := FlushAll(TakeAll(front, batchSize), types);
    assert OfType(Flatten(q.batches), t) <= OfType(front, t) by {
      FlushAllSettles(front, batchSize, types);
      assert t in types ==> Settled(q, front, batchSize, t);
      assert t !in types ==> Split(q, front, batchSize, t);
    }
    assert records == front + records[k..];
    OfTypeConcat(front, records[k..], t);
  }
}
