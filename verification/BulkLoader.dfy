/** The bulk loader: one pass that splits the edges into one file per table, and then one
    COPY per table; and the agreement of the three loaders. */
module BulkLoader {
  import opened BatchLoader
  import opened Batching
  import opened Ordering
  import opened Tables
  import opened Transactions

  const TABLES := ["CONTAINS", "DEFINES", "REFERENCES", "CALLS_DIRECT"]

  class Writer {
    var rows: seq<Row>

    constructor ()
      ensures rows == []
    {
      rows := [];
    }

    method Write(row: Row)
      modifies this
      ensures rows == old(rows) + [row]
    {
      rows := rows + [row];
    }
  }

  /** One writer for each of the four tables, none shared. */
  ghost predicate Open(writers: map<string, Writer>) {
    && (forall t :: t in writers <==> Supported(t))
    && (forall s, t :: s in writers && t in writers && s != t ==> writers[s] != writers[t])
  }

  /** Every writer holds the rows of its own type, in input order. */
  ghost predicate Partitioned(writers: map<string, Writer>, records: seq<EdgeRecord>)
    requires Open(writers)
    reads writers.Values
  {
    forall t :: t in writers ==> writers[t].rows == EdgeRows(OfType(records, t))
  }

  method OpenWriters() returns (writers: map<string, Writer>)
    ensures Open(writers) && Partitioned(writers, []) && fresh(writers.Values)
  {
    writers := map[];
    for i := 0 to |TABLES|
      invariant forall t :: t in writers <==> t in TABLES[..i]
      invariant forall s, t :: s in writers && t in writers && s != t ==> writers[s] != writers[t]
      invariant forall t :: t in writers ==> fresh(writers[t]) && writers[t].rows == []
    {
      assert TABLES[..i + 1] == TABLES[..i] + [TABLES[i]];
      var writer := new Writer();
      writers := writers[TABLES[i] := writer];
    }
    assert TABLES[..|TABLES|] == TABLES;
    TablesSupported();
  }

  lemma TablesSupported()
    ensures forall t :: t in TABLES <==> Supported(t)
  {
    forall t | Supported(t) ensures t in TABLES {
      assert t == TABLES[0] || t == TABLES[1] || t == TABLES[2] || t == TABLES[3];
    }
  }

  method ExportEdge(writers: map<string, Writer>, record: EdgeRecord, ghost records: seq<EdgeRecord>) returns (ok: bool)
    requires Open(writers) && Partitioned(writers, records)
    modifies writers.Values
    ensures ok == Supported(record.edgeType)
    ensures Partitioned(writers, if ok then records + [record] else records)
  {
    if record.edgeType !in writers {
      return false;
    }
    var writer := writers[record.edgeType];
    if record.edgeType == "CONTAINS" || record.edgeType == "DEFINES" {
      writer.Write(Relation(record.from, record.to, record.relationKind));
    } else {
      writer.Write(Evidenced(record.from, record.to, record.evidenceKind, record.sourceFileKey, record.targetFileKey));
    }
    forall t | t in writers ensures writers[t].rows == EdgeRows(OfType(records + [record], t)) {}
    ok := true;
  }

  /** Everything before line `count` has been written to its type's file. */
  ghost predicate Exported(writers: map<string, Writer>, lines: seq<Line<EdgeRecord>>, count: nat)
    requires count <= |lines|
    reads writers.Values
  {
    Open(writers) && Accepted(lines[..count]) && Partitioned(writers, RowsOf(lines[..count]))
  }

  method ExportLine(writers: map<string, Writer>, lines: seq<Line<EdgeRecord>>, count: nat) returns (ok: bool)
    requires count < |lines| && Exported(writers, lines, count)
    modifies writers.Values
    ensures ok == (lines[count].Record? && Supported(lines[count].row.edgeType))
    ensures ok ==> Exported(writers, lines, count + 1)
  {
    if lines[count].Rejected? {
      return false;
    }
    RowsPush(lines, count);
    ok := ExportEdge(writers, lines[count].row, RowsOf(lines[..count]));
    if ok {
      AcceptedPush(lines, count);
    }
  }

  /** The pass over the stream, with a look for cancellation every 1024 lines. */
  method ExportLines(writers: map<string, Writer>, lines: seq<Line<EdgeRecord>>, cancelled: nat -> bool)
    returns (ok: bool)
    requires Exported(writers, lines, 0)
    modifies writers.Values
    ensures ok ==> Exported(writers, lines, |lines|)
    ensures Accepted(lines) && (forall n: nat :: !cancelled(n)) ==> ok
  {
    for count := 0 to |lines|
      invariant Exported(writers, lines, count)
    {
      if count % 1024 == 0 && cancelled(count) {
        return false;
      }
      var exported := ExportLine(writers, lines, count);
      if !exported {
        return false;
      }
    }
    ok := !(|lines| % 1024 == 0 && cancelled(|lines|));
  }

  /** Each supported type's file holds exactly that type's records, in input order. */
  method ExportEdges(lines: seq<Line<EdgeRecord>>, cancelled: nat -> bool)
    returns (ok: bool, files: map<string, seq<Row>>)
    ensures ok ==> Accepted(lines)
    ensures ok ==> files == map t | t in TABLES :: EdgeRows(OfType(RowsOf(lines), t))
    ensures Accepted(lines) && (forall n: nat :: !cancelled(n)) ==> ok
  {
    files := map[];
    var writers := OpenWriters();
    assert lines[..0] == [];
    ok := ExportLines(writers, lines, cancelled);
    if ok {
      assert lines[..|lines|] == lines;
      TablesSupported();
      files := map t | t in TABLES :: writers[t].rows;
    }
  }

  lemma AcceptedPush(lines: seq<Line<EdgeRecord>>, count: nat)
    requires count < |lines| && Accepted(lines[..count]) && lines[count].Record? && Supported(lines[count].row.edgeType)
    ensures Accepted(lines[..count + 1])
  {
    assert forall i :: 0 <= i < count ==> lines[..count + 1][i] == lines[..count][i];
  }

  // ---- COPY ----

  /** The records in the order in which the four COPY statements store them. */
  function Regrouped(records: seq<EdgeRecord>, tables: seq<string>): seq<EdgeRecord> {
    if tables == [] then []
    else Regrouped(records, tables[..|tables| - 1]) + OfType(records, tables[|tables| - 1])
  }

  lemma {:induction false} OneTyped(records: seq<EdgeRecord>, t: string)
    ensures forall i :: 0 <= i < |OfType(records, t)| ==> OfType(records, t)[i].edgeType == t
  {
    if records != [] {
      OneTyped(records[..|records| - 1], t);
    }
  }

  lemma RegroupedPush(records: seq<EdgeRecord>, front: seq<string>, u: string, t: string)
    ensures OfType(Regrouped(records, front) + OfType(records, u), t)
            == OfType(Regrouped(records, front), t) + if t == u then OfType(records, u) else []
  {
    OfTypeConcat(Regrouped(records, front), OfType(records, u), t);
    OneTyped(records, u);
    OneTypeFilters(OfType(records, u), u, t);
  }

  lemma {:induction false} RegroupedType(records: seq<EdgeRecord>, tables: seq<string>, t: string)
    requires Distinct(tables)
    ensures OfType(Regrouped(records, tables), t) == if t in tables then OfType(records, t) else []
  {
    if tables != [] {
      var n := |tables| - 1;
      assert tables[n] !in tables[..n];
      assert t in tables <==> t in tables[..n] || t == tables[n];
      RegroupedType(records, tables[..n], t);
      RegroupedPush(records, tables[..n], tables[n], t);
    }
  }

  lemma {:induction false} Unsupported(records: seq<EdgeRecord>, t: string)
    requires AllSupported(records) && !Supported(t)
    ensures OfType(records, t) == []
  {
    if records != [] {
      assert Supported(records[|records| - 1].edgeType);
      Unsupported(records[..|records| - 1], t);
    }
  }

  /** Regrouping by table changes no table. */
  lemma RegroupedAgrees(records: seq<EdgeRecord>)
    requires AllSupported(records)
    ensures forall t :: OfType(Regrouped(records, TABLES), t) == OfType(records, t)
  {
    TablesSupported();
    forall t ensures OfType(Regrouped(records, TABLES), t) == OfType(records, t) {
      RegroupedType(records, TABLES, t);
      if !Supported(t) {
        Unsupported(records, t);
      }
    }
  }

  lemma CopiedWrites(records: seq<EdgeRecord>, i: nat)
    requires i < |TABLES|
    ensures Writes(Regrouped(records, TABLES[..i + 1]))
            == Writes(Regrouped(records, TABLES[..i])) + NodeWrites(TABLES[i], EdgeRows(OfType(records, TABLES[i])))
  {
    var t := TABLES[i];
    assert TABLES[..i + 1][..i] == TABLES[..i];
    var typed := OfType(records, t);
    OneTyped(records, t);
    assert Writes(typed) == NodeWrites(t, EdgeRows(typed));
    assert Writes(Regrouped(records, TABLES[..i]) + typed) == Writes(Regrouped(records, TABLES[..i])) + Writes(typed);
  }

  /** Some of the tables, in order, each with all of its rows. */
  ghost predicate Copied(durable: seq<Write>, base: seq<Write>, records: seq<EdgeRecord>) {
    exists copied: nat :: copied <= |TABLES| && durable == base + Writes(Regrouped(records, TABLES[..copied]))
  }

  method CopyTable(connection: Connection<Write>, i: nat, file: seq<Row>, ghost records: seq<EdgeRecord>,
                   ghost base: seq<Write>)
    returns (ok: bool)
    requires i < |TABLES| && file == EdgeRows(OfType(records, TABLES[i]))
    requires !connection.open && connection.staged == []
    requires connection.durable == base + Writes(Regrouped(records, TABLES[..i]))
    modifies connection
    ensures !connection.open && connection.staged == []
    ensures connection.durable == base + Writes(Regrouped(records, TABLES[..if ok then i + 1 else i]))
    ensures connection.NeverFails() ==> ok
  {
    CopiedWrites(records, i);
    ok := connection.Execute(NodeWrites(TABLES[i], file));
  }

  method CopyTables(connection: Connection<Write>, files: map<string, seq<Row>>, ghost records: seq<EdgeRecord>)
    returns (ok: bool)
    requires !connection.open && connection.staged == []
    requires files == map t | t in TABLES :: EdgeRows(OfType(records, t))
    modifies connection
    ensures Copied(connection.durable, old(connection.durable), records)
    ensures ok ==> connection.durable == old(connection.durable) + Writes(Regrouped(records, TABLES))
    ensures connection.NeverFails() ==> ok
  {
    ghost var base := connection.durable;
    assert TABLES[..0] == [] && base + Writes(Regrouped(records, TABLES[..0])) == base;
    for i := 0 to |TABLES|
      invariant !connection.open && connection.staged == []
      invariant connection.durable == base + Writes(Regrouped(records, TABLES[..i]))
    {
      var copied := CopyTable(connection, i, files[TABLES[i]], records, base);
      if !copied {
        return false;
      }
    }
    assert TABLES[..|TABLES|] == TABLES;
    ok := true;
  }

  /** The four edge tables, in order: what is durable is always a number of whole tables, and
      all of them store the input. */
  method CopyEdges(connection: Connection<Write>, lines: seq<Line<EdgeRecord>>, files: map<string, seq<Row>>)
    returns (ok: bool)
    requires !connection.open && connection.staged == [] && Accepted(lines)
    requires files == map t | t in TABLES :: EdgeRows(OfType(RowsOf(lines), t))
    modifies connection
    ensures ok ==> Stored(connection.durable, old(connection.durable), RowsOf(lines))
    ensures Copied(connection.durable, old(connection.durable), RowsOf(lines))
    ensures connection.NeverFails() ==> ok
  {
    ghost var base, records := connection.durable, RowsOf(lines);
    ok := CopyTables(connection, files, records);
    if ok {
      AcceptedSupported(lines);
      RegroupedAgrees(records);
      StoredByType(base, Regrouped(records, TABLES), records);
    }
  }

  lemma CopiedPartlyStored(durable: seq<Write>, base: seq<Write>, records: seq<EdgeRecord>)
    requires Copied(durable, base, records)
    ensures PartlyStored(durable, base, records)
  {
    var copied: nat :| copied <= |TABLES| && durable == base + Writes(Regrouped(records, TABLES[..copied]));
    forall t ensures OfType(Regrouped(records, TABLES[..copied]), t) <= OfType(records, t) {
      RegroupedType(records, TABLES[..copied], t);
    }
    PartlyStoredByType(base, Regrouped(records, TABLES[..copied]), records);
  }

  // ---- Whole corpora ----

  /** The rows of one node file, unless a line of it does not decode. */
  method ExportFile(lines: seq<Line<Row>>, cancelled: nat -> bool) returns (ok: bool, rows: seq<Row>)
    ensures ok ==> AllRecords(lines) && rows == RowsOf(lines)
    ensures AllRecords(lines) && (forall n: nat :: !cancelled(n)) ==> ok
  {
    rows := [];
    for i := 0 to |lines|
      invariant AllRecords(lines[..i]) && rows == RowsOf(lines[..i])
    {
      if i % 1024 == 0 && cancelled(i) {
        return false, rows;
      }
      if lines[i].Rejected? {
        return false, rows;
      }
      RowsPush(lines, i);
      AllRecordsPush(lines, i);
      rows := rows + [lines[i].row];
    }
    assert lines[..|lines|] == lines;
    ok := !(|lines| % 1024 == 0 && cancelled(|lines|));
  }

  /** One COPY for each node table. */
  method CopyNodes(connection: Connection<Write>, repositories: seq<Row>, files: seq<Row>, symbols: seq<Row>)
    returns (ok: bool)
    requires !connection.open && connection.staged == []
    modifies connection
    ensures !connection.open && connection.staged == []
    ensures ok ==> connection.durable == old(connection.durable) + NodeWrites("Repository", repositories)
                                         + NodeWrites("File", files) + NodeWrites("Symbol", symbols)
    ensures old(connection.durable) <= connection.durable
    ensures connection.durable <= old(connection.durable) + NodeWrites("Repository", repositories)
                                  + NodeWrites("File", files) + NodeWrites("Symbol", symbols)
    ensures connection.NeverFails() ==> ok
  {
    ok := connection.Execute(NodeWrites("Repository", repositories));
    if !ok { return; }
    ok := connection.Execute(NodeWrites("File", files));
    if !ok { return; }
    ok := connection.Execute(NodeWrites("Symbol", symbols));
  }

  /** All four files are exported before any table is copied: until then no statement has
      reached the database, whether the corpus is refused or the run cancelled. Whatever fails
      later, every table keeps a prefix of its records. */
  method LoadCorpusInBulk(connection: Connection<Write>, corpus: Corpus, cancelled: nat -> nat -> bool)
    returns (exported: bool, ok: bool)
    requires !connection.open && connection.staged == []
    modifies connection
    ensures ok ==> exported && CorpusStored(connection.durable, old(connection.durable), corpus)
    ensures exported ==> CorpusAccepted(corpus)
    ensures CorpusAccepted(corpus) && NeverCancelled(cancelled) ==> exported
    ensures !exported ==>
      connection.durable == old(connection.durable) && connection.statements == old(connection.statements)
    ensures exported && !ok ==> CorpusPartlyStored(connection.durable, old(connection.durable), corpus)
    ensures exported && connection.NeverFails() ==> ok
  {
    exported, ok := false, false;
    var read, repositories := ExportFile(corpus.repositories, cancelled(0));
    if !read { return; }
    var files;
    read, files := ExportFile(corpus.files, cancelled(1));
    if !read { return; }
    var symbols;
    read, symbols := ExportFile(corpus.symbols, cancelled(2));
    if !read { return; }
    var edges;
    exported, edges := ExportEdges(corpus.edges, cancelled(3));
    if !exported { return; }
    ok := CopyNodes(connection, repositories, files, symbols);
    if !ok {
      NodesPartlyStored(connection.durable, old(connection.durable), corpus);
      return;
    }
    ok := CopyEdges(connection, corpus.edges, edges);
    if !ok {
      CopiedPartlyStored(connection.durable, WithNodes(old(connection.durable), corpus), RowsOf(corpus.edges));
      EdgesPartlyStored(connection.durable, old(connection.durable), corpus);
    }
  }

  // ---- The three loaders agree ----

  /** From databases with equal contents, over the same corpus and without faults, the three
      loaders accept the same corpora and leave every table, of nodes and of edges, the same. */
  method LoadersAgree(one: Connection<Write>, batch: BatchExecutor, bulk: Connection<Write>,
                      size: nat, batchSize: nat, corpus: Corpus, cancelled: nat -> nat -> bool)
    returns (okOne: bool, okBatch: bool, okBulk: bool)
    requires !one.open && one.staged == [] && !bulk.open && bulk.staged == [] && batch.Idle() && batchSize > 0
    requires one != bulk && one != batch.connection && bulk != batch.connection
    requires one.durable == bulk.durable == batch.connection.durable
    requires one.NeverFails() && bulk.NeverFails() && batch.connection.NeverFails() && NeverCancelled(cancelled)
    modifies one, batch, batch.connection, bulk
    ensures okOne == okBatch == okBulk == CorpusAccepted(corpus)
    ensures CorpusAccepted(corpus) ==> forall t ::
      TableRows(one.durable, t) == TableRows(batch.connection.durable, t) == TableRows(bulk.durable, t)
  {
    okOne := LoadCorpusIndividually(one, size, corpus, cancelled);
    okBatch := LoadCorpus(batch, corpus, batchSize, cancelled);
    var exported;
    exported, okBulk := LoadCorpusInBulk(bulk, corpus, cancelled);
  }
}
