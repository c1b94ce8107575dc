/** The batch loader: slices appended to and reused in place, one transaction a batch. */
module BatchLoader {
  import opened Arithmetic
  import opened Batching
  import opened Ordering
  import opened Tables
  import opened Transactions

  class BatchExecutor {
    const connection: Connection<Write>
    var transactions: nat

    constructor (connection: Connection<Write>)
      ensures this.connection == connection && transactions == 0
    {
      this.connection := connection;
      transactions := 0;
    }

    ghost predicate Idle()
      reads this, connection
    {
      !connection.open && connection.staged == []
    }

    /** One transaction for the whole batch, none for an empty one; a failed batch leaves
        nothing durable, whether or not its ROLLBACK succeeds. */
    method Execute(rows: seq<Write>) returns (ok: bool)
      requires Idle()
      modifies this, connection
      ensures ok ==> Idle()
      ensures connection.durable == old(connection.durable) + if ok then rows else []
      ensures transactions == old(transactions) + if ok && rows != [] then 1 else 0
      ensures connection.NeverFails() ==> ok
    {
      if |rows| == 0 {
        return true;
      }
      var begun := connection.Begin();
      if !begun {
        return false;
      }
      var executed := connection.Execute(rows);
      if !executed {
        var ignored := connection.Rollback();
        return false;
      }
      var committed := connection.Commit();
      if !committed {
        var ignored := connection.Rollback();
        return false;
      }
      transactions := transactions + 1;
      return true;
    }
  }

  // ---- Slices ----

  /** A slice header: the first `len` elements of a backing array. */
  datatype Slice<T> = Slice(data: array<T>, len: nat)

  ghost predicate Fits<T>(s: Slice<T>) {
    s.len <= s.data.Length
  }

  function Contents<T>(s: Slice<T>): seq<T>
    requires Fits(s)
    reads s.data
  {
    s.data[..s.len]
  }

  /** Writes behind the length, into the same array while it has room. */
  method Append<T(0)>(s: Slice<T>, x: T) returns (r: Slice<T>)
    requires Fits(s)
    modifies s.data
    ensures Fits(r) && Contents(r) == old(Contents(s)) + [x]
    ensures if s.len < s.data.Length then r.data == s.data else fresh(r.data)
  {
    var data := s.data;
    if s.len == data.Length {
      data := new T[2 * s.len + 1];
      forall i | 0 <= i < s.len {
        data[i] := s.data[i];
      }
    }
    data[s.len] := x;
    r := Slice(data, s.len + 1);
  }

  // ---- Edges ----

  /** No two types share a backing array. */
  ghost predicate Separate(buffers: map<string, Slice<EdgeRecord>>) {
    && (forall t :: t in buffers ==> Fits(buffers[t]))
    && (forall s, t :: s in buffers && t in buffers && s != t ==> buffers[s].data != buffers[t].data)
  }

  ghost function Arrays(buffers: map<string, Slice<EdgeRecord>>): set<array<EdgeRecord>> {
    set t | t in buffers :: buffers[t].data
  }

  ghost function Held(buffers: map<string, Slice<EdgeRecord>>): map<string, seq<EdgeRecord>>
    requires Separate(buffers)
    reads Arrays(buffers)
  {
    map t | t in buffers :: Contents(buffers[t])
  }

  lemma HeldUpdated(buffers: map<string, Slice<EdgeRecord>>, t: string, batch: Slice<EdgeRecord>,
                    before: map<string, seq<EdgeRecord>>)
    requires Fits(batch) && Separate(buffers[t := batch]) && before.Keys == buffers.Keys
    requires forall u :: u in buffers && u != t ==> Fits(buffers[u]) && Contents(buffers[u]) == before[u]
    ensures Held(buffers[t := batch]) == before[t := Contents(batch)]
  {}

  /** Appending to one type's slice leaves every other type's slice alone. */
  method AppendTo(buffers: map<string, Slice<EdgeRecord>>, t: string, record: EdgeRecord)
    returns (batch: Slice<EdgeRecord>)
    requires Separate(buffers)
    modifies Arrays(buffers)
    ensures Fits(batch) && Separate(buffers[t := batch])
    ensures fresh(Arrays(buffers[t := batch]) - Arrays(buffers))
    ensures Contents(batch) == old(if t in buffers then Contents(buffers[t]) else []) + [record]
    ensures Held(buffers[t := batch]) == old(Held(buffers))[t := Contents(batch)]
  {
    ghost var before := Held(buffers);
    var s;
    if t in buffers {
      s := buffers[t];
      assert s.data in Arrays(buffers);
    } else {
      var none := new EdgeRecord[0];
      s := Slice(none, 0);
    }
    batch := Append(s, record);
    forall u | u in buffers && u != t
      ensures buffers[u].data != batch.data && Contents(buffers[u]) == before[u]
    {
      assert buffers[u].data in Arrays(buffers);
    }
    StaysSeparate(buffers, t, batch);
    assert batch.data in Arrays(buffers) || fresh(batch.data);
    HeldUpdated(buffers, t, batch, before);
  }

  lemma StaysSeparate(buffers: map<string, Slice<EdgeRecord>>, t: string, batch: Slice<EdgeRecord>)
    requires Separate(buffers) && Fits(batch)
    requires forall u :: u in buffers && u != t ==> buffers[u].data != batch.data
    ensures Separate(buffers[t := batch]) && Arrays(buffers[t := batch]) <= Arrays(buffers) + {batch.data}
  {
    forall a | a in Arrays(buffers[t := batch]) ensures a in Arrays(buffers) + {batch.data} {
      var u :| u in buffers[t := batch] && buffers[t := batch][u].data == a;
      assert u != t ==> buffers[u].data == a;
    }
  }

  lemma Emptied(buffers: map<string, Slice<EdgeRecord>>, t: string, batch: Slice<EdgeRecord>)
    requires Fits(batch) && Separate(buffers[t := batch])
    ensures var after := buffers[t := batch.(len := 0)];
      && Separate(after) && Arrays(after) == Arrays(buffers[t := batch])
      && Held(after) == Held(buffers[t := batch])[t := []]
  {
    var before, after := buffers[t := batch], buffers[t := batch.(len := 0)];
    forall u | u in after ensures after[u].data == before[u].data && u in before {}
    assert Arrays(after) <= Arrays(before);
    forall a | a in Arrays(before) ensures a in Arrays(after) {
      var u :| u in before && before[u].data == a;
      assert after[u].data == a;
    }
  }

  /** What the executor has done for a run that started from `base`; it is sure to be idle
      only while nothing has failed. */
  ghost predicate Handed(executor: BatchExecutor, base: seq<Write>, start: nat, batches: seq<seq<EdgeRecord>>, ok: bool)
    reads executor, executor.connection
  {
    && (ok ==> executor.Idle())
    && executor.connection.durable == base + Writes(Flatten(batches))
    && executor.transactions == start + |batches|
  }

  /** The statement is chosen by type before anything is executed; executing it leaves the
      buffers alone. */
  method LoadBatch(executor: BatchExecutor, buffers: map<string, Slice<EdgeRecord>>, edgeType: string,
                   records: seq<EdgeRecord>,
                   ghost base: seq<Write>, ghost start: nat, ghost batches: seq<seq<EdgeRecord>>) returns (ok: bool)
    requires Separate(buffers) && Handed(executor, base, start, batches, true) && OneType(records, edgeType)
    modifies executor, executor.connection
    ensures ok ==> Supported(edgeType)
    ensures Handed(executor, base, start, if ok && records != [] then batches + [records] else batches, ok)
    ensures Held(buffers) == old(Held(buffers))
    ensures executor.connection.NeverFails() && Supported(edgeType) ==> ok
  {
    if !Supported(edgeType) {
      return false;
    }
    var rows := seq(|records|, i requires 0 <= i < |records| => Write(edgeType, RowOf(records[i])));
    assert rows == Writes(records);
    FlattenPush(batches, records);
    ok := executor.Execute(rows);
  }

  /** A full slice is handed over and emptied without giving up its array. */
  method HandOver(executor: BatchExecutor, buffers: map<string, Slice<EdgeRecord>>, t: string,
                  ghost base: seq<Write>, ghost start: nat, ghost batches: seq<seq<EdgeRecord>>)
    returns (ok: bool, after: map<string, Slice<EdgeRecord>>)
    requires Separate(buffers) && t in buffers && Contents(buffers[t]) != [] && OneType(Contents(buffers[t]), t)
    requires Handed(executor, base, start, batches, true)
    modifies executor, executor.connection
    ensures Separate(after) && Arrays(after) == Arrays(buffers)
    ensures Held(after) == old(Held(buffers))[t := []]
    ensures Handed(executor, base, start, if ok then batches + [old(Held(buffers))[t]] else batches, ok)
    ensures executor.connection.NeverFails() && Supported(t) ==> ok
  {
    var batch := buffers[t];
    assert buffers[t := batch] == buffers;
    after := buffers[t := batch.(len := 0)];
    Emptied(buffers, t, batch);
    ok := LoadBatch(executor, after, t, Contents(batch), base, start, batches);
  }

  lemma TakeCases(p: Progress, record: EdgeRecord, batchSize: nat, grown: map<string, seq<EdgeRecord>>)
    requires OneType(HeldOf(p, record.edgeType), record.edgeType)
    requires grown == p.held[record.edgeType := HeldOf(p, record.edgeType) + [record]]
    ensures OneType(grown[record.edgeType], record.edgeType)
    ensures var q := Take(p, record, batchSize);
      if |grown[record.edgeType]| < batchSize then q.held == grown && q.batches == p.batches
      else q.held == grown[record.edgeType := []] && q.batches == p.batches + [grown[record.edgeType]]
  {}

  /** One record goes behind its type's slice. */
  method Visit(executor: BatchExecutor, buffers: map<string, Slice<EdgeRecord>>, record: EdgeRecord, batchSize: nat,
               ghost p: Progress, ghost base: seq<Write>, ghost start: nat)
    returns (ok: bool, after: map<string, Slice<EdgeRecord>>)
    requires batchSize > 0 && Separate(buffers) && Held(buffers) == p.held
    requires OneType(HeldOf(p, record.edgeType), record.edgeType)
    requires Handed(executor, base, start, p.batches, true)
    modifies Arrays(buffers), executor, executor.connection
    ensures Separate(after) && fresh(Arrays(after) - Arrays(buffers))
    ensures ok ==> Held(after) == Take(p, record, batchSize).held
    ensures Handed(executor, base, start, if ok then Take(p, record, batchSize).batches else p.batches, ok)
    ensures executor.connection.NeverFails() && Supported(record.edgeType) ==> ok
  {
    var t := record.edgeType;
    var batch := AppendTo(buffers, t, record);
    after := buffers[t := batch];
    TakeCases(p, record, batchSize, Held(after));
    if batch.len < batchSize {
      return true, after;
    }
    ok, after := HandOver(executor, after, t, base, start, p.batches);
  }

  /** Everything before line `count` has been taken in. */
  ghost predicate Scanned(executor: BatchExecutor, buffers: map<string, Slice<EdgeRecord>>,
                          lines: seq<Line<EdgeRecord>>,
                          count: nat, batchSize: nat, base: seq<Write>, start: nat)
    requires count <= |lines|
    reads executor, executor.connection, Arrays(buffers)
  {
    && Separate(buffers) && AllRecords(lines[..count])
    && Held(buffers) == TakeAll(RowsOf(lines[..count]), batchSize).held
    && Handed(executor, base, start, TakeAll(RowsOf(lines[..count]), batchSize).batches, true)
  }

  method ScanEdge(executor: BatchExecutor, buffers: map<string, Slice<EdgeRecord>>, lines: seq<Line<EdgeRecord>>,
                  count: nat,
                  batchSize: nat, ghost base: seq<Write>, ghost start: nat)
    returns (ok: bool, after: map<string, Slice<EdgeRecord>>)
    requires batchSize > 0 && count < |lines| && Scanned(executor, buffers, lines, count, batchSize, base, start)
    modifies Arrays(buffers), executor, executor.connection
    ensures fresh(Arrays(after) - Arrays(buffers)) && Separate(after)
    ensures ok ==> Scanned(executor, after, lines, count + 1, batchSize, base, start)
    ensures !ok ==> Handed(executor, base, start, TakeAll(RowsOf(lines[..count]), batchSize).batches, false)
    ensures executor.connection.NeverFails() && lines[count].Record? && Supported(lines[count].row.edgeType) ==> ok
  {
    if lines[count].Rejected? {
      return false, buffers;
    }
    NextRecord(lines, count, batchSize);
    AllRecordsPush(lines, count);
    ok, after := Visit(executor, buffers, lines[count].row, batchSize, TakeAll(RowsOf(lines[..count]), batchSize),
                       base, start);
  }

  method ScanEdges(executor: BatchExecutor, lines: seq<Line<EdgeRecord>>, batchSize: nat, cancelled: nat -> bool,
                   ghost base: seq<Write>, ghost start: nat)
    returns (ok: bool, count: nat, buffers: map<string, Slice<EdgeRecord>>)
    requires batchSize > 0 && Handed(executor, base, start, [], true)
    modifies executor, executor.connection
    ensures count <= |lines| && Separate(buffers)
    ensures Handed(executor, base, start, TakeAll(RowsOf(lines[..count]), batchSize).batches, ok)
    ensures ok ==> count == |lines| && Scanned(executor, buffers, lines, count, batchSize, base, start)
    ensures executor.connection.NeverFails() && Accepted(lines) && (forall n: nat :: !cancelled(n)) ==> ok
  {
    buffers, count := map[], 0;
    assert Held(buffers) == map[] && RowsOf(lines[..0]) == [] && TakeAll([], batchSize) == START;
    while count < |lines|
      invariant count <= |lines| && fresh(Arrays(buffers))
      invariant Scanned(executor, buffers, lines, count, batchSize, base, start)
    {
      if count % 1024 == 0 && cancelled(count) {
        return false, count, buffers;
      }
      ok, buffers := ScanEdge(executor, buffers, lines, count, batchSize, base, start);
      if !ok {
        return false, count, buffers;
      }
      count := count + 1;
    }
    ok := !(count % 1024 == 0 && cancelled(count));
  }

  lemma AllRecordsPush<T>(lines: seq<Line<T>>, count: nat)
    requires count < |lines| && AllRecords(lines[..count]) && lines[count].Record?
    ensures AllRecords(lines[..count + 1])
  {
    assert forall i :: 0 <= i < count ==> lines[..count + 1][i] == lines[..count][i];
  }

  lemma NextRecord(lines: seq<Line<EdgeRecord>>, count: nat, batchSize: nat)
    requires batchSize > 0 && count < |lines| && lines[count].Record?
    ensures TakeAll(RowsOf(lines[..count + 1]), batchSize)
            == Take(TakeAll(RowsOf(lines[..count]), batchSize), lines[count].row, batchSize)
    ensures OneType(HeldOf(TakeAll(RowsOf(lines[..count]), batchSize), lines[count].row.edgeType),
                    lines[count].row.edgeType)
  {
    TakeAllSplits(RowsOf(lines[..count]), batchSize);
    assert Split(TakeAll(RowsOf(lines[..count]), batchSize), RowsOf(lines[..count]), batchSize,
                 lines[count].row.edgeType);
    assert lines[..count + 1][..count] == lines[..count];
    var records := RowsOf(lines[..count + 1]);
    assert records[..|records| - 1] == RowsOf(lines[..count]);
  }

  lemma {:induction false} FlushAllHeld(p: Progress, types: seq<string>, u: string)
    requires u !in types
    ensures HeldOf(FlushAll(p, types), u) == HeldOf(p, u)
  {
    if types != [] {
      FlushAllHeld(p, types[..|types| - 1], u);
    }
  }

  lemma FlushNext(p: Progress, types: seq<string>, i: nat)
    requires i < |types|
    ensures FlushAll(p, types[..i + 1]) == Flush(FlushAll(p, types[..i]), types[i])
  {
    assert types[..i + 1][..i] == types[..i];
  }

  method FlushNextType(executor: BatchExecutor, buffers: map<string, Slice<EdgeRecord>>, types: seq<string>, i: nat,
                       ghost records: seq<EdgeRecord>, ghost batchSize: nat, ghost base: seq<Write>, ghost start: nat)
    returns (ok: bool)
    requires batchSize > 0 && Separate(buffers) && i < |types| && types[i] !in types[..i] && types[i] in buffers
    requires Held(buffers) == TakeAll(records, batchSize).held
    requires Handed(executor, base, start, FlushAll(TakeAll(records, batchSize), types[..i]).batches, true)
    modifies executor, executor.connection
    ensures Held(buffers) == old(Held(buffers)) && (ok ==> Supported(types[i]))
    ensures Handed(executor, base, start,
                   FlushAll(TakeAll(records, batchSize), types[..if ok then i + 1 else i]).batches, ok)
    ensures executor.connection.NeverFails() && Supported(types[i]) ==> ok
  {
    var t := types[i];
    ghost var p := TakeAll(records, batchSize);
    TakeAllSplits(records, batchSize);
    FlushNext(p, types, i);
    FlushAllHeld(p, types[..i], t);
    assert Split(p, records, batchSize, t) && t in Held(buffers);
    ok := LoadBatch(executor, buffers, t, Contents(buffers[t]), base, start, FlushAll(p, types[..i]).batches);
  }

  /** The leftovers, an empty buffer included: its type is still checked. */
  method FlushBuffers(executor: BatchExecutor, buffers: map<string, Slice<EdgeRecord>>, types: seq<string>,
                      ghost records: seq<EdgeRecord>, ghost batchSize: nat, ghost base: seq<Write>, ghost start: nat)
    returns (ok: bool, ghost flushed: nat)
    requires batchSize > 0 && Separate(buffers) && Distinct(types) && forall t :: t in types ==> t in buffers
    requires Held(buffers) == TakeAll(records, batchSize).held
    requires Handed(executor, base, start, TakeAll(records, batchSize).batches, true)
    modifies executor, executor.connection
    ensures flushed <= |types| && (ok ==> flushed == |types| && forall t :: t in types ==> Supported(t))
    ensures Handed(executor, base, start, FlushAll(TakeAll(records, batchSize), types[..flushed]).batches, ok)
    ensures executor.connection.NeverFails() && (forall t :: t in types ==> Supported(t)) ==> ok
  {
    ghost var p := TakeAll(records, batchSize);
    assert FlushAll(p, types[..0]) == p;
    for i := 0 to |types|
      invariant Handed(executor, base, start, FlushAll(p, types[..i]).batches, true)
      invariant forall j :: 0 <= j < i ==> Supported(types[j])
      invariant Held(buffers) == p.held
    {
      assert types[i] !in types[..i] && types[i] in buffers;
      var loaded := FlushNextType(executor, buffers, types, i, records, batchSize, base, start);
      if !loaded {
        return false, i;
      }
    }
    return true, |types|;
  }

  /** The whole input has been handed over, in sorted order of type at the end. */
  ghost predicate Complete(handed: seq<seq<EdgeRecord>>, records: seq<EdgeRecord>, batchSize: nat)
    requires batchSize > 0
  {
    && (forall t :: OfType(Flatten(handed), t) == OfType(records, t))
    && |handed| == EdgeTransactions(records, batchSize)
    && (forall types :: Listing(types, Types(records)) ==>
          handed == FlushAll(TakeAll(records, batchSize), types).batches)
  }

  lemma FlushCompletes(records: seq<EdgeRecord>, batchSize: nat, types: seq<string>)
    requires batchSize > 0 && Listing(types, Types(records))
    ensures Complete(FlushAll(TakeAll(records, batchSize), types).batches, records, batchSize)
  {
    AllHandedOver(records, batchSize, types);
    FewestBatches(records, batchSize, types);
    forall other | Listing(other, Types(records)) ensures other == types {
      ListingUnique(other, types, Types(records));
    }
  }

  method FlushSorted(executor: BatchExecutor, buffers: map<string, Slice<EdgeRecord>>,
                     ghost records: seq<EdgeRecord>, ghost batchSize: nat, ghost base: seq<Write>, ghost start: nat)
    returns (ok: bool, ghost handed: seq<seq<EdgeRecord>>)
    requires batchSize > 0 && Separate(buffers)
    requires Held(buffers) == TakeAll(records, batchSize).held
    requires Handed(executor, base, start, TakeAll(records, batchSize).batches, true)
    modifies executor, executor.connection
    ensures Handed(executor, base, start, handed, ok) && GoodBatches(handed, batchSize)
    ensures forall t :: OfType(Flatten(handed), t) <= OfType(records, t)
    ensures ok ==> AllSupported(records) && Complete(handed, records, batchSize)
    ensures executor.connection.NeverFails() && AllSupported(records) ==> ok
  {
    TakeAllSplits(records, batchSize);
    ghost var held := Held(buffers);
    assert buffers.Keys == held.Keys == Types(records);
    var types := SortedKeys(buffers.Keys);
    assert Held(buffers) == held;
    ghost var flushed;
    ok, flushed := FlushBuffers(executor, buffers, types, records, batchSize, base, start);
    handed := FlushAll(TakeAll(records, batchSize), types[..flushed]).batches;
    PartlyFlushed(records, batchSize, types[..flushed]);
    SupportedTypes(records);
    if ok {
      assert types[..flushed] == types;
      FlushCompletes(records, batchSize, types);
    }
  }

  lemma SupportedTypes(records: seq<EdgeRecord>)
    ensures AllSupported(records) <==> forall t :: t in Types(records) ==> Supported(t)
  {
    if forall t :: t in Types(records) ==> Supported(t) {
      forall i | 0 <= i < |records| ensures Supported(records[i].edgeType) {
        assert records[i].edgeType in Types(records);
      }
    }
  }

  /** Every edge of the input reaches its table in input order, in one-type batches of at
      most `batchSize`, as many as the types need; a failure leaves a prefix of each. */
  method LoadEdgeBatches(executor: BatchExecutor, lines: seq<Line<EdgeRecord>>, batchSize: nat, cancelled: nat -> bool)
    returns (ok: bool, count: nat, ghost handed: seq<seq<EdgeRecord>>)
    requires batchSize > 0 && executor.Idle()
    modifies executor, executor.connection
    ensures (ok ==> executor.Idle()) && GoodBatches(handed, batchSize)
    ensures executor.connection.durable == old(executor.connection.durable) + Writes(Flatten(handed))
    ensures executor.transactions == old(executor.transactions) + |handed|
    ensures forall t :: OfType(Flatten(handed), t) <= OfType(RowsOf(lines), t)
    ensures ok ==> count == |lines| && Accepted(lines) && Complete(handed, RowsOf(lines), batchSize)
    ensures ok ==> Stored(executor.connection.durable, old(executor.connection.durable), RowsOf(lines))
    ensures executor.connection.NeverFails() && Accepted(lines) && (forall n: nat :: !cancelled(n)) ==> ok
  {
    ghost var base, start := executor.connection.durable, executor.transactions;
    var buffers;
    assert base + Writes([]) == base;
    ok, count, buffers := ScanEdges(executor, lines, batchSize, cancelled, base, start);
    AcceptedSupported(lines);
    if !ok {
      handed := TakeAll(RowsOf(lines[..count]), batchSize).batches;
      PartlyScanned(lines, count, batchSize);
      return;
    }
    assert lines[..count] == lines;
    ok, handed := FlushSorted(executor, buffers, RowsOf(lines), batchSize, base, start);
    if ok {
      StoredByType(base, Flatten(handed), RowsOf(lines));
    }
  }

  lemma PartlyScanned(lines: seq<Line<EdgeRecord>>, n: nat, batchSize: nat)
    requires batchSize > 0 && n <= |lines|
    ensures var batches := TakeAll(RowsOf(lines[..n]), batchSize).batches;
      && GoodBatches(batches, batchSize)
      && forall t :: OfType(Flatten(batches), t) <= OfType(RowsOf(lines), t)
  {
    RowsOfPrefix(lines, n);
    var records, k := RowsOf(lines), |RowsOf(lines[..n])|;
    assert RowsOf(lines[..n]) == records[..k];
    TakeAllSplits(records[..k], batchSize);
    forall t ensures OfType(Flatten(TakeAll(records[..k], batchSize).batches), t) <= OfType(records, t) {
      HandedPrefix(records, batchSize, k, [], t);
    }
  }

  lemma PartlyFlushed(records: seq<EdgeRecord>, batchSize: nat, types: seq<string>)
    requires batchSize > 0
    ensures var batches := FlushAll(TakeAll(records, batchSize), types).batches;
      && GoodBatches(batches, batchSize)
      && forall t :: OfType(Flatten(batches), t) <= OfType(records, t)
  {
    FlushAllSettles(records, batchSize, types);
    assert records[..|records|] == records;
    forall t ensures OfType(Flatten(FlushAll(TakeAll(records, batchSize), types).batches), t) <= OfType(records, t) {
      HandedPrefix(records, batchSize, |records|, types, t);
    }
  }

  // ---- Nodes: one slice, allocated once ----

  /** Full batches of `rows` are durable and `held` is the rest. */
  ghost predicate Batched(executor: BatchExecutor, base: seq<Write>, start: nat, table: string, rows: seq<Row>,
                          batchSize: nat, held: seq<Row>)
    reads executor, executor.connection
  {
    && executor.Idle() && start <= executor.transactions
    && var full := (executor.transactions - start) * batchSize;
       full <= |rows| && held == rows[full..] && executor.connection.durable == base + NodeWrites(table, rows[..full])
  }

  lemma BatchedWhole(executor: BatchExecutor, base: seq<Write>, start: nat, table: string, rows: seq<Row>,
                     batchSize: nat, held: seq<Row>, all: seq<Row>)
    requires Batched(executor, base, start, table, rows, batchSize, held) && rows <= all && batchSize > 0
    ensures WholePrefix(executor.connection.durable, base, NodeWrites(table, all), batchSize,
                        executor.transactions - start)
  {
    var full := (executor.transactions - start) * batchSize;
    assert NodeWrites(table, all)[..full] == NodeWrites(table, rows[..full]);
  }

  lemma FullBatch(executor: BatchExecutor, base: seq<Write>, start: nat, table: string, rows: seq<Row>,
                  batchSize: nat, before: nat)
    requires executor.Idle() && executor.connection.durable == base + NodeWrites(table, rows)
    requires executor.transactions == start + before + 1 && |rows| == before * batchSize + batchSize
    ensures Batched(executor, base, start, table, rows, batchSize, [])
  {
    NextWhole(before, batchSize);
    assert rows[..|rows|] == rows && rows[|rows|..] == [];
  }

  lemma BatchedCount(executor: BatchExecutor, base: seq<Write>, start: nat, table: string, rows: seq<Row>,
                     batchSize: nat, held: seq<Row>)
    requires Batched(executor, base, start, table, rows, batchSize, held) && |held| < batchSize
    ensures CeilDiv(|rows|, batchSize) == executor.transactions - start + if held != [] then 1 else 0
  {
    var count := executor.transactions - start;
    var full := count * batchSize;
    assert |held| == |rows| - full;
    CeilOfParts(|rows|, batchSize, count, |held|);
  }

  lemma RowsPush<T>(lines: seq<Line<T>>, count: nat)
    requires count < |lines| && lines[count].Record?
    ensures RowsOf(lines[..count + 1]) == RowsOf(lines[..count]) + [lines[count].row]
  {
    assert lines[..count + 1][..count] == lines[..count];
  }

  lemma HoldOne(executor: BatchExecutor, base: seq<Write>, start: nat, table: string, rows: seq<Row>, batchSize: nat,
                held: seq<Row>, row: Row)
    requires Batched(executor, base, start, table, rows, batchSize, held)
    ensures Batched(executor, base, start, table, rows + [row], batchSize, held + [row])
  {
    var full := (executor.transactions - start) * batchSize;
    assert (rows + [row])[..full] == rows[..full];
  }

  /** What a failed node phase leaves: the records of whole batches. */
  ghost predicate Stopped(executor: BatchExecutor, base: seq<Write>, start: nat, table: string, lines: seq<Line<Row>>,
                          batchSize: nat)
    reads executor, executor.connection
  {
    && start <= executor.transactions
    && WholePrefix(executor.connection.durable, base, NodeWrites(table, RowsOf(lines)), batchSize,
                   executor.transactions - start)
  }

  lemma StoppedAt(executor: BatchExecutor, base: seq<Write>, start: nat, table: string, lines: seq<Line<Row>>,
                  count: nat,
                  batchSize: nat, held: seq<Row>)
    requires batchSize > 0 && count <= |lines|
    requires Batched(executor, base, start, table, RowsOf(lines[..count]), batchSize, held)
    ensures Stopped(executor, base, start, table, lines, batchSize)
  {
    RowsOfPrefix(lines, count);
    BatchedWhole(executor, base, start, table, RowsOf(lines[..count]), batchSize, held, RowsOf(lines));
  }

  method LoadNodes(executor: BatchExecutor, table: string, held: seq<Row>, ghost lines: seq<Line<Row>>,
                   ghost count: nat,
                   ghost batchSize: nat, ghost base: seq<Write>, ghost start: nat) returns (ok: bool)
    requires batchSize > 0 && count <= |lines|
    requires Batched(executor, base, start, table, RowsOf(lines[..count]), batchSize, held)
    modifies executor, executor.connection
    ensures !ok ==> Stopped(executor, base, start, table, lines, batchSize)
    ensures ok ==> executor.Idle() && executor.connection.durable == base + NodeWrites(table, RowsOf(lines[..count]))
    ensures ok ==> executor.transactions == old(executor.transactions) + if held != [] then 1 else 0
    ensures executor.connection.NeverFails() ==> ok
  {
    StoppedAt(executor, base, start, table, lines, count, batchSize, held);
    ghost var rows, full := RowsOf(lines[..count]), (executor.transactions - start) * batchSize;
    assert base + NodeWrites(table, rows) == base + NodeWrites(table, rows[..full]) + NodeWrites(table, held) by {
      WritesSplit(table, rows, full);
    }
    ok := executor.Execute(NodeWrites(table, held));
  }

  lemma WritesSplit(table: string, rows: seq<Row>, full: nat)
    requires full <= |rows|
    ensures NodeWrites(table, rows) == NodeWrites(table, rows[..full]) + NodeWrites(table, rows[full..])
  {}

  method LoadFull(executor: BatchExecutor, table: string, held: seq<Row>, ghost lines: seq<Line<Row>>, ghost count: nat,
                  ghost batchSize: nat, ghost base: seq<Write>, ghost start: nat) returns (ok: bool)
    requires |held| == batchSize > 0 && count <= |lines|
    requires Batched(executor, base, start, table, RowsOf(lines[..count]), batchSize, held)
    modifies executor, executor.connection
    ensures ok ==> Batched(executor, base, start, table, RowsOf(lines[..count]), batchSize, [])
    ensures !ok ==> Stopped(executor, base, start, table, lines, batchSize)
    ensures executor.connection.NeverFails() ==> ok
  {
    ghost var before := executor.transactions - start;
    ok := LoadNodes(executor, table, held, lines, count, batchSize, base, start);
    if ok {
      FullBatch(executor, base, start, table, RowsOf(lines[..count]), batchSize, before);
    }
  }

  method AppendNode(executor: BatchExecutor, table: string, batch: Slice<Row>, lines: seq<Line<Row>>, count: nat,
                    ghost batchSize: nat, ghost base: seq<Write>, ghost start: nat) returns (after: Slice<Row>)
    requires batch.len < batch.data.Length && count < |lines| && lines[count].Record?
    requires Batched(executor, base, start, table, RowsOf(lines[..count]), batchSize, Contents(batch))
    modifies batch.data
    ensures after.data == batch.data && after.len == batch.len + 1
    ensures Batched(executor, base, start, table, RowsOf(lines[..count + 1]), batchSize, Contents(after))
  {
    RowsPush(lines, count);
    HoldOne(executor, base, start, table, RowsOf(lines[..count]), batchSize, Contents(batch), lines[count].row);
    ghost var more := Contents(batch) + [lines[count].row];
    assert Batched(executor, base, start, table, RowsOf(lines[..count + 1]), batchSize, more);
    after := Append(batch, lines[count].row);
    assert Contents(after) == more;
    assert after.len == |more|;
  }

  /** Appends a record and hands the slice over when it is full. */
  method VisitNode(executor: BatchExecutor, table: string, batch: Slice<Row>, lines: seq<Line<Row>>, count: nat,
                   batchSize: nat,
                   ghost base: seq<Write>, ghost start: nat) returns (ok: bool, after: Slice<Row>)
    requires batch.len < batchSize == batch.data.Length
    requires count < |lines| && lines[count].Record?
    requires Batched(executor, base, start, table, RowsOf(lines[..count]), batchSize, Contents(batch))
    modifies batch.data, executor, executor.connection
    ensures after.data == batch.data && after.len < batchSize
    ensures ok ==> Batched(executor, base, start, table, RowsOf(lines[..count + 1]), batchSize, Contents(after))
    ensures !ok ==> Stopped(executor, base, start, table, lines, batchSize)
    ensures executor.connection.NeverFails() ==> ok
  {
    after := AppendNode(executor, table, batch, lines, count, batchSize, base, start);
    if after.len < batchSize {
      return true, after;
    }
    ok := LoadFull(executor, table, Contents(after), lines, count + 1, batchSize, base, start);
    after := after.(len := 0);
    assert Contents(after) == [];
  }

  method ScanNodes(executor: BatchExecutor, table: string, lines: seq<Line<Row>>, batchSize: nat,
                   cancelled: nat -> bool,
                   ghost base: seq<Write>, ghost start: nat) returns (ok: bool, count: nat, batch: Slice<Row>)
    requires batchSize > 0 && executor.Idle() && executor.connection.durable == base && executor.transactions == start
    modifies executor, executor.connection
    ensures ok ==> Fits(batch) && batch.len < batchSize && count == |lines| && AllRecords(lines)
                   && Batched(executor, base, start, table, RowsOf(lines), batchSize, Contents(batch))
    ensures !ok ==> Stopped(executor, base, start, table, lines, batchSize)
    ensures executor.connection.NeverFails() && AllRecords(lines) && (forall n: nat :: !cancelled(n)) ==> ok
  {
    var data := new Row[batchSize];
    batch, count := Slice(data, 0), 0;
    assert 0 * batchSize == 0 && NodeWrites(table, []) == [];
    while count < |lines|
      invariant count <= |lines| && AllRecords(lines[..count])
      invariant batch.data == data && batch.len < batchSize
      invariant Batched(executor, base, start, table, RowsOf(lines[..count]), batchSize, Contents(batch))
    {
      StoppedAt(executor, base, start, table, lines, count, batchSize, Contents(batch));
      if (count % 1024 == 0 && cancelled(count)) || lines[count].Rejected? {
        return false, count, batch;
      }
      AllRecordsPush(lines, count);
      ok, batch := VisitNode(executor, table, batch, lines, count, batchSize, base, start);
      if !ok {
        return false, count, batch;
      }
      count := count + 1;
    }
    assert lines[..count] == lines;
    StoppedAt(executor, base, start, table, lines, count, batchSize, Contents(batch));
    ok := !(count % 1024 == 0 && cancelled(count));
  }

  /** One node table: full batches as they fill and the rest at the end, through one array
      that never grows. */
  method LoadNodeBatches(executor: BatchExecutor, table: string, lines: seq<Line<Row>>, batchSize: nat,
                         cancelled: nat -> bool)
    returns (ok: bool, count: nat)
    requires batchSize > 0 && executor.Idle()
    modifies executor, executor.connection
    ensures ok ==> executor.Idle()
    ensures ok ==> count == |lines| && AllRecords(lines)
    ensures ok ==> executor.connection.durable == old(executor.connection.durable) + NodeWrites(table, RowsOf(lines))
    ensures ok ==> executor.transactions == old(executor.transactions) + CeilDiv(|RowsOf(lines)|, batchSize)
    ensures !ok ==> Stopped(executor, old(executor.connection.durable), old(executor.transactions), table, lines,
                            batchSize)
    ensures executor.connection.NeverFails() && AllRecords(lines) && (forall n: nat :: !cancelled(n)) ==> ok
  {
    ghost var base, start := executor.connection.durable, executor.transactions;
    var batch;
    ok, count, batch := ScanNodes(executor, table, lines, batchSize, cancelled, base, start);
    if !ok {
      return;
    }
    assert lines[..count] == lines;
    BatchedCount(executor, base, start, table, RowsOf(lines), batchSize, Contents(batch));
    ok := LoadNodes(executor, table, Contents(batch), lines, count, batchSize, base, start);
  }

  /** A failed node phase leaves the tables before it whole and a prefix of its own. */
  lemma StoppedPart(executor: BatchExecutor, base: seq<Write>, done: seq<Write>, start: nat, table: string,
                    lines: seq<Line<Row>>, batchSize: nat, corpus: Corpus)
    requires Stopped(executor, done, start, table, lines, batchSize)
    requires base <= done && done + NodeWrites(table, RowsOf(lines)) <= WithNodes(base, corpus)
    ensures CorpusPartlyStored(executor.connection.durable, base, corpus)
  {
    var durable, upTo := executor.connection.durable, done + NodeWrites(table, RowsOf(lines));
    WholePrefixLies(durable, done, NodeWrites(table, RowsOf(lines)), batchSize, executor.transactions - start);
    assert base <= durable;
    assert durable <= upTo <= WithNodes(base, corpus);
    NodesPartlyStored(durable, base, corpus);
  }

  ghost function NodeTransactions(corpus: Corpus, batchSize: nat): nat
    requires batchSize > 0
  {
    CeilDiv(|RowsOf(corpus.repositories)|, batchSize) + CeilDiv(|RowsOf(corpus.files)|, batchSize)
    + CeilDiv(|RowsOf(corpus.symbols)|, batchSize)
  }

  /** What a corpus costs: for each node table and each edge type, its records in batches. */
  ghost function CorpusTransactions(corpus: Corpus, batchSize: nat): nat
    requires batchSize > 0
  {
    NodeTransactions(corpus, batchSize) + EdgeTransactions(RowsOf(corpus.edges), batchSize)
  }

  /** The three node files. */
  method LoadNodeTables(executor: BatchExecutor, corpus: Corpus, batchSize: nat, cancelled: nat -> nat -> bool)
    returns (ok: bool)
    requires batchSize > 0 && executor.Idle()
    modifies executor, executor.connection
    ensures ok ==> executor.Idle() && NodesDecode(corpus)
    ensures ok ==> executor.connection.durable == WithNodes(old(executor.connection.durable), corpus)
    ensures ok ==> executor.transactions == old(executor.transactions) + NodeTransactions(corpus, batchSize)
    ensures !ok ==> CorpusPartlyStored(executor.connection.durable, old(executor.connection.durable), corpus)
    ensures executor.connection.NeverFails() && NodesDecode(corpus) && NeverCancelled(cancelled) ==> ok
  {
    ghost var base, start := executor.connection.durable, executor.transactions;
    var count;
    ok, count := LoadNodeBatches(executor, "Repository", corpus.repositories, batchSize, cancelled(0));
    if !ok {
      StoppedPart(executor, base, base, start, "Repository", corpus.repositories, batchSize, corpus);
      return;
    }
    ghost var done, at := executor.connection.durable, executor.transactions;
    ok, count := LoadNodeBatches(executor, "File", corpus.files, batchSize, cancelled(1));
    if !ok {
      StoppedPart(executor, base, done, at, "File", corpus.files, batchSize, corpus);
      return;
    }
    done, at := executor.connection.durable, executor.transactions;
    ok, count := LoadNodeBatches(executor, "Symbol", corpus.symbols, batchSize, cancelled(2));
    if !ok {
      StoppedPart(executor, base, done, at, "Symbol", corpus.symbols, batchSize, corpus);
    }
  }

  /** The four files of a corpus. Success stores every record in as many transactions as the
      tables need; whatever fails, every table keeps a prefix of its records. */
  method LoadCorpus(executor: BatchExecutor, corpus: Corpus, batchSize: nat, cancelled: nat -> nat -> bool)
    returns (ok: bool)
    requires batchSize > 0 && executor.Idle()
    modifies executor, executor.connection
    ensures ok ==> CorpusAccepted(corpus)
    ensures ok ==> CorpusStored(executor.connection.durable, old(executor.connection.durable), corpus)
    ensures ok ==> executor.transactions == old(executor.transactions) + CorpusTransactions(corpus, batchSize)
    ensures !ok ==> CorpusPartlyStored(executor.connection.durable, old(executor.connection.durable), corpus)
    ensures executor.connection.NeverFails() && CorpusAccepted(corpus) && NeverCancelled(cancelled) ==> ok
  {
    ghost var base := executor.connection.durable;
    ok := LoadNodeTables(executor, corpus, batchSize, cancelled);
    if !ok { return; }
    var count;
    ghost var handed;
    ok, count, handed := LoadEdgeBatches(executor, corpus.edges, batchSize, cancelled(3));
    if !ok {
      PartlyStoredByType(WithNodes(base, corpus), Flatten(handed), RowsOf(corpus.edges));
      EdgesPartlyStored(executor.connection.durable, base, corpus);
    }
  }
}
