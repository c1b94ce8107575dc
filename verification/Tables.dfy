/** What the three loaders should store, and the one-record loader against it. */
module Tables {
  import opened Transactions

  datatype EdgeRecord = EdgeRecord(edgeType: string, from: string, to: string, relationKind: string,
                                   evidenceKind: string, sourceFileKey: string, targetFileKey: string)

  datatype Row =
    | NodeRow(columns: seq<string>)
    | Relation(from: string, to: string, relationKind: string)
    | Evidenced(from: string, to: string, evidenceKind: string, sourceFileKey: string, targetFileKey: string)

  /** One row of one table. */
  datatype Write = Write(table: string, row: Row)

  predicate Supported(edgeType: string) {
    edgeType == "CONTAINS" || edgeType == "DEFINES" || edgeType == "REFERENCES" || edgeType == "CALLS_DIRECT"
  }

  function RowOf(record: EdgeRecord): Row {
    if record.edgeType == "CONTAINS" || record.edgeType == "DEFINES"
    then Relation(record.from, record.to, record.relationKind)
    else Evidenced(record.from, record.to, record.evidenceKind, record.sourceFileKey, record.targetFileKey)
  }

  /** The records of one type, in input order. */
  function OfType(records: seq<EdgeRecord>, edgeType: string): seq<EdgeRecord> {
    if records == [] then []
    else
      var last := records[|records| - 1];
      OfType(records[..|records| - 1], edgeType) + if last.edgeType == edgeType then [last] else []
  }

  function EdgeRows(records: seq<EdgeRecord>): seq<Row> {
    seq(|records|, i requires 0 <= i < |records| => RowOf(records[i]))
  }

  function Writes(records: seq<EdgeRecord>): seq<Write> {
    seq(|records|, i requires 0 <= i < |records| => Write(records[i].edgeType, RowOf(records[i])))
  }

  /** The rows of one table, in the order they became durable. */
  function TableRows(writes: seq<Write>, table: string): seq<Row> {
    if writes == [] then []
    else
      var last := writes[|writes| - 1];
      TableRows(writes[..|writes| - 1], table) + if last.table == table then [last.row] else []
  }

  /** Every table holds what it held and then its own records in input order. */
  ghost predicate Stored(durable: seq<Write>, base: seq<Write>, records: seq<EdgeRecord>) {
    forall table :: TableRows(durable, table) == TableRows(base, table) + EdgeRows(OfType(records, table))
  }

  ghost predicate AllSupported(records: seq<EdgeRecord>) {
    forall i :: 0 <= i < |records| ==> Supported(records[i].edgeType)
  }

  /** The inputs every loader should accept: each line decodes, to a supported type. */
  ghost predicate Accepted(lines: seq<Line<EdgeRecord>>) {
    forall i :: 0 <= i < |lines| ==> lines[i].Record? && Supported(lines[i].row.edgeType)
  }

  lemma {:induction false} AcceptedSupported(lines: seq<Line<EdgeRecord>>)
    ensures Accepted(lines) <==> AllRecords(lines) && AllSupported(RowsOf(lines))
  {
    if lines != [] {
      var n := |lines| - 1;
      var front := RowsOf(lines[..n]);
      AcceptedSupported(lines[..n]);
      assert Accepted(lines) <==> Accepted(lines[..n]) && lines[n].Record? && Supported(lines[n].row.edgeType);
      assert AllRecords(lines) <==> AllRecords(lines[..n]) && lines[n].Record?;
      if lines[n].Record? {
        var all := RowsOf(lines);
        assert all == front + [lines[n].row];
        assert all[|front|] == lines[n].row && all[..|front|] == front;
        assert AllSupported(all) <==> AllSupported(front) && Supported(lines[n].row.edgeType);
      }
    }
  }

  function NodeWrites(table: string, rows: seq<Row>): seq<Write> {
    seq(|rows|, i requires 0 <= i < |rows| => Write(table, rows[i]))
  }

  /** The four files of a generated corpus. */
  datatype Corpus = Corpus(repositories: seq<Line<Row>>, files: seq<Line<Row>>, symbols: seq<Line<Row>>,
                           edges: seq<Line<EdgeRecord>>)

  /** Every line of the three node files decodes. */
  ghost predicate NodesDecode(corpus: Corpus) {
    AllRecords(corpus.repositories) && AllRecords(corpus.files) && AllRecords(corpus.symbols)
  }

  ghost predicate CorpusAccepted(corpus: Corpus) {
    NodesDecode(corpus) && Accepted(corpus.edges)
  }

  function WithNodes(base: seq<Write>, corpus: Corpus): seq<Write> {
    base + NodeWrites("Repository", RowsOf(corpus.repositories)) + NodeWrites("File", RowsOf(corpus.files))
    + NodeWrites("Symbol", RowsOf(corpus.symbols))
  }

  /** Every table, of nodes and of edges, holds what it held and then its own records in input order. */
  ghost predicate CorpusStored(durable: seq<Write>, base: seq<Write>, corpus: Corpus) {
    Stored(durable, WithNodes(base, corpus), RowsOf(corpus.edges))
  }

  lemma {:induction false} TableRowsConcat(a: seq<Write>, b: seq<Write>, table: string)
    ensures TableRows(a + b, table) == TableRows(a, table) + TableRows(b, table)
  {
    if b == [] {
      assert a + b == a;
    } else {
      var n := |b| - 1;
      assert (a + b)[..|a| + n] == a + b[..n];
      TableRowsConcat(a, b[..n], table);
    }
  }

  lemma {:induction false} OfTypeConcat(a: seq<EdgeRecord>, b: seq<EdgeRecord>, edgeType: string)
    ensures OfType(a + b, edgeType) == OfType(a, edgeType) + OfType(b, edgeType)
  {
    if b == [] {
      assert a + b == a;
    } else {
      var n := |b| - 1;
      assert (a + b)[..|a| + n] == a + b[..n];
      OfTypeConcat(a, b[..n], edgeType);
    }
  }

  lemma {:induction false} WrittenRows(records: seq<EdgeRecord>, table: string)
    ensures TableRows(Writes(records), table) == EdgeRows(OfType(records, table))
  {
    if records != [] {
      var n := |records| - 1;
      WrittenRows(records[..n], table);
      assert Writes(records)[..n] == Writes(records[..n]);
      var front := OfType(records[..n], table);
      if records[n].edgeType == table {
        assert EdgeRows(front + [records[n]]) == EdgeRows(front) + [RowOf(records[n])];
      }
    }
  }

  /** Writing records that agree type by type with the input stores the input. */
  lemma StoredByType(base: seq<Write>, written: seq<EdgeRecord>, records: seq<EdgeRecord>)
    requires forall t :: OfType(written, t) == OfType(records, t)
    ensures Stored(base + Writes(written), base, records)
  {
    forall table
      ensures TableRows(base + Writes(written), table) == TableRows(base, table) + EdgeRows(OfType(records, table))
    {
      TableRowsConcat(base, Writes(written), table);
      WrittenRows(written, table);
    }
  }

  // ---- What a failure leaves ----

  /** Every table holds what it held and then a prefix of its records. */
  ghost predicate PartlyStored(durable: seq<Write>, base: seq<Write>, records: seq<EdgeRecord>) {
    forall table ::
      TableRows(base, table) <= TableRows(durable, table) <= TableRows(base, table) + EdgeRows(OfType(records, table))
  }

  /** Every table, of nodes and of edges, holds what it held and then a prefix of its records. */
  ghost predicate CorpusPartlyStored(durable: seq<Write>, base: seq<Write>, corpus: Corpus) {
    forall table ::
      TableRows(base, table) <= TableRows(durable, table)
      <= TableRows(WithNodes(base, corpus), table) + EdgeRows(OfType(RowsOf(corpus.edges), table))
  }

  lemma TableRowsPrefix(a: seq<Write>, b: seq<Write>, table: string)
    requires a <= b
    ensures TableRows(a, table) <= TableRows(b, table)
  {
    assert b == a + b[|a|..];
    TableRowsConcat(a, b[|a|..], table);
  }

  lemma NodesPartlyStored(durable: seq<Write>, base: seq<Write>, corpus: Corpus)
    requires base <= durable <= WithNodes(base, corpus)
    ensures CorpusPartlyStored(durable, base, corpus)
  {
    forall table
      ensures TableRows(base, table) <= TableRows(durable, table) <= TableRows(WithNodes(base, corpus), table)
    {
      TableRowsPrefix(base, durable, table);
      TableRowsPrefix(durable, WithNodes(base, corpus), table);
    }
  }

  lemma EdgesPartlyStored(durable: seq<Write>, base: seq<Write>, corpus: Corpus)
    requires PartlyStored(durable, WithNodes(base, corpus), RowsOf(corpus.edges))
    ensures CorpusPartlyStored(durable, base, corpus)
  {
    forall table ensures TableRows(base, table) <= TableRows(durable, table) {
      TableRowsPrefix(base, WithNodes(base, corpus), table);
    }
  }

  /** Writing records that agree type by type with a prefix of the input stores as much of it. */
  lemma PartlyStoredByType(base: seq<Write>, written: seq<EdgeRecord>, records: seq<EdgeRecord>)
    requires forall t :: OfType(written, t) <= OfType(records, t)
    ensures PartlyStored(base + Writes(written), base, records)
  {
    forall table
      ensures TableRows(base, table) <= TableRows(base + Writes(written), table)
      ensures TableRows(base + Writes(written), table) <= TableRows(base, table) + EdgeRows(OfType(records, table))
    {
      TableRowsConcat(base, Writes(written), table);
      WrittenRows(written, table);
      var part, whole := OfType(written, table), OfType(records, table);
      assert EdgeRows(part) == EdgeRows(whole)[..|part|];
    }
  }

  // ---- One record at a time ----

  function EdgeStatement(record: EdgeRecord): Line<Write> {
    if record.edgeType == "CONTAINS" then
      Record(Write("CONTAINS", Relation(record.from, record.to, record.relationKind)))
    else if record.edgeType == "DEFINES" then
      Record(Write("DEFINES", Relation(record.from, record.to, record.relationKind)))
    else if record.edgeType == "REFERENCES" then
      Record(Write("REFERENCES",
                   Evidenced(record.from, record.to, record.evidenceKind, record.sourceFileKey, record.targetFileKey)))
    else if record.edgeType == "CALLS_DIRECT" then
      Record(Write("CALLS_DIRECT",
                   Evidenced(record.from, record.to, record.evidenceKind, record.sourceFileKey, record.targetFileKey)))
    else Rejected
  }

  function EdgeLine(line: Line<EdgeRecord>): Line<Write> {
    match line
    case Record(record) => EdgeStatement(record)
    case Rejected => Rejected
  }

  function EdgeLines(lines: seq<Line<EdgeRecord>>): seq<Line<Write>> {
    seq(|lines|, i requires 0 <= i < |lines| => EdgeLine(lines[i]))
  }

  lemma {:induction false} EdgeLinesWrite(lines: seq<Line<EdgeRecord>>)
    ensures AllRecords(EdgeLines(lines)) <==> Accepted(lines)
    ensures Accepted(lines) ==> Transactions.RowsOf(EdgeLines(lines)) == Writes(RowsOf(lines))
  {
    assert forall i :: 0 <= i < |lines| ==>
      (EdgeLines(lines)[i].Record? <==> lines[i].Record? && Supported(lines[i].row.edgeType));
    if lines != [] {
      var n := |lines| - 1;
      EdgeLinesWrite(lines[..n]);
      assert EdgeLines(lines)[..n] == EdgeLines(lines[..n]);
      if Accepted(lines) {
        var record := lines[n].row;
        assert EdgeLines(lines)[n] == Record(Write(record.edgeType, RowOf(record)));
        assert Writes(RowsOf(lines)) == Writes(RowsOf(lines[..n])) + [Write(record.edgeType, RowOf(record))];
      }
    }
  }

  function RowIn<T>(line: Line<T>): seq<T> {
    match line
    case Record(row) => [row]
    case Rejected => []
  }

  lemma StatementIs(record: EdgeRecord)
    ensures EdgeStatement(record)
            == if Supported(record.edgeType) then Record(Write(record.edgeType, RowOf(record))) else Rejected
  {}

  lemma TypedPush(records: seq<EdgeRecord>, record: EdgeRecord, table: string)
    ensures EdgeRows(OfType(records + [record], table))
            == EdgeRows(OfType(records, table)) + if record.edgeType == table then [RowOf(record)] else []
  {
    assert (records + [record])[..|records|] == records;
    var front := OfType(records, table);
    assert EdgeRows(front + [record]) == EdgeRows(front) + [RowOf(record)];
  }

  lemma TablePush(writes: seq<Write>, write: Write, table: string)
    ensures TableRows(writes + [write], table)
            == TableRows(writes, table) + if write.table == table then [write.row] else []
  {
    assert (writes + [write])[..|writes|] == writes;
  }

  lemma StatementPush(writes: seq<Write>, records: seq<EdgeRecord>, line: Line<EdgeRecord>, table: string)
    requires TableRows(writes, table) == if Supported(table) then EdgeRows(OfType(records, table)) else []
    ensures TableRows(writes + RowIn(EdgeLine(line)), table)
            == if Supported(table) then EdgeRows(OfType(records + RowIn(line), table)) else []
  {
    assert writes + [] == writes && records + [] == records;
    if line.Record? {
      var record := line.row;
      StatementIs(record);
      TypedPush(records, record, table);
      TablePush(writes, Write(record.edgeType, RowOf(record)), table);
    }
  }

  lemma EdgeLinesLast(lines: seq<Line<EdgeRecord>>)
    requires lines != []
    ensures var n := |lines| - 1;
      RowsOf(EdgeLines(lines)) == RowsOf(EdgeLines(lines[..n])) + RowIn(EdgeLine(lines[n]))
  {
    var n := |lines| - 1;
    assert EdgeLines(lines)[..n] == EdgeLines(lines[..n]) && EdgeLines(lines)[n] == EdgeLine(lines[n]);
  }

  /** The statements of a table are the rows of its type, where the type is supported; a
      line of another type has none. */
  lemma {:induction false} StatementRows(lines: seq<Line<EdgeRecord>>, table: string)
    ensures TableRows(RowsOf(EdgeLines(lines)), table)
            == if Supported(table) then EdgeRows(OfType(RowsOf(lines), table)) else []
  {
    if lines != [] {
      var n := |lines| - 1;
      StatementRows(lines[..n], table);
      EdgeLinesLast(lines);
      assert RowsOf(lines) == RowsOf(lines[..n]) + RowIn(lines[n]);
      StatementPush(RowsOf(EdgeLines(lines[..n])), RowsOf(lines[..n]), lines[n], table);
    }
  }

  lemma StatementsPartlyStored(durable: seq<Write>, base: seq<Write>, lines: seq<Line<EdgeRecord>>)
    requires base <= durable <= base + RowsOf(EdgeLines(lines))
    ensures PartlyStored(durable, base, RowsOf(lines))
  {
    forall table
      ensures TableRows(base, table) <= TableRows(durable, table)
      ensures TableRows(durable, table) <= TableRows(base, table) + EdgeRows(OfType(RowsOf(lines), table))
    {
      TableRowsPrefix(base, durable, table);
      TableRowsPrefix(durable, base + RowsOf(EdgeLines(lines)), table);
      TableRowsConcat(base, RowsOf(EdgeLines(lines)), table);
      StatementRows(lines, table);
    }
  }

  /** The edge phase of the one-record loader. */
  method LoadIndividually(connection: Connection<Write>, size: nat, lines: seq<Line<EdgeRecord>>,
                          cancelled: nat -> bool)
    returns (ok: bool)
    requires !connection.open && connection.staged == []
    modifies connection
    ensures ok ==> Accepted(lines) && Stored(connection.durable, old(connection.durable), RowsOf(lines))
    ensures !ok ==> PartlyStored(connection.durable, old(connection.durable), RowsOf(lines))
    ensures (connection.NeverFails() && Accepted(lines) && (forall n: nat :: !cancelled(n))) ==> ok
  {
    var writes := EdgeLines(lines);
    EdgeLinesWrite(lines);
    ghost var base := connection.durable;
    var streams := [writes];
    var controller, loaded, counts := RunPhase(connection, size, streams, _ => cancelled);
    ok := loaded;
    assert streams[..0] == [];
    assert AllRows(streams) == Transactions.RowsOf(writes);
    if ok {
      assert AllRecords(streams[0]);
      StoredByType(base, RowsOf(lines), RowsOf(lines));
    } else {
      StatementsPartlyStored(connection.durable, base, lines);
    }
    assert Accepted(lines) ==> Decodable(streams);
  }

  // ---- Nodes one at a time ----

  function NodeLine(table: string, line: Line<Row>): Line<Write> {
    match line
    case Record(row) => Record(Write(table, row))
    case Rejected => Rejected
  }

  function NodeLines(table: string, lines: seq<Line<Row>>): seq<Line<Write>> {
    seq(|lines|, i requires 0 <= i < |lines| => NodeLine(table, lines[i]))
  }

  lemma {:induction false} NodeLinesWrite(table: string, lines: seq<Line<Row>>)
    ensures AllRecords(NodeLines(table, lines)) <==> AllRecords(lines)
    ensures RowsOf(NodeLines(table, lines)) == NodeWrites(table, RowsOf(lines))
  {
    assert forall i :: 0 <= i < |lines| ==> (NodeLines(table, lines)[i].Record? <==> lines[i].Record?);
    if lines != [] {
      var n := |lines| - 1;
      NodeLinesWrite(table, lines[..n]);
      assert NodeLines(table, lines)[..n] == NodeLines(table, lines[..n]);
      assert NodeLines(table, lines)[n] == NodeLine(table, lines[n]);
      if lines[n].Record? {
        assert NodeWrites(table, RowsOf(lines[..n]) + [lines[n].row])
            == NodeWrites(table, RowsOf(lines[..n])) + [Write(table, lines[n].row)];
      }
    }
  }

  lemma ThreeStreams<T>(a: seq<Line<T>>, b: seq<Line<T>>, c: seq<Line<T>>)
    ensures AllRows([a, b, c]) == RowsOf(a) + RowsOf(b) + RowsOf(c)
    ensures Decodable([a, b, c]) <==> AllRecords(a) && AllRecords(b) && AllRecords(c)
  {
    StreamPush([], a);
    StreamPush([a], b);
    StreamPush([a, b], c);
    assert [] + [a] == [a] && [a] + [b] == [a, b] && [a, b] + [c] == [a, b, c];
    assert [] + RowsOf(a) == RowsOf(a);
  }

  lemma StreamPush<T>(streams: seq<seq<Line<T>>>, last: seq<Line<T>>)
    ensures AllRows(streams + [last]) == AllRows(streams) + RowsOf(last)
    ensures Decodable(streams + [last]) <==> Decodable(streams) && AllRecords(last)
  {
    var all := streams + [last];
    assert all[..|streams|] == streams && all[|streams|] == last;
    assert Decodable(streams) && AllRecords(last) ==> forall i :: 0 <= i < |all| ==> AllRecords(all[i]);
    assert Decodable(all) ==> forall i :: 0 <= i < |streams| ==> AllRecords(all[i]);
  }

  function NodeStreams(corpus: Corpus): seq<seq<Line<Write>>> {
    [NodeLines("Repository", corpus.repositories), NodeLines("File", corpus.files),
     NodeLines("Symbol", corpus.symbols)]
  }

  lemma NodeStreamsWrite(base: seq<Write>, corpus: Corpus)
    ensures base + AllRows(NodeStreams(corpus)) == WithNodes(base, corpus)
    ensures Decodable(NodeStreams(corpus)) <==> NodesDecode(corpus)
  {
    NodeLinesWrite("Repository", corpus.repositories);
    NodeLinesWrite("File", corpus.files);
    NodeLinesWrite("Symbol", corpus.symbols);
    ThreeStreams(NodeLines("Repository", corpus.repositories), NodeLines("File", corpus.files),
                 NodeLines("Symbol", corpus.symbols));
  }

  /** The node phase: the three tables share one controller. */
  method LoadNodesIndividually(connection: Connection<Write>, size: nat, corpus: Corpus, cancelled: nat -> nat -> bool)
    returns (ok: bool)
    requires !connection.open && connection.staged == []
    modifies connection
    ensures ok ==> NodesDecode(corpus)
    ensures ok ==> connection.durable == WithNodes(old(connection.durable), corpus)
    ensures ok ==> !connection.open && connection.staged == []
    ensures !ok ==> old(connection.durable) <= connection.durable <= WithNodes(old(connection.durable), corpus)
    ensures connection.NeverFails() && NodesDecode(corpus) && NeverCancelled(cancelled) ==> ok
  {
    ghost var base := connection.durable;
    NodeStreamsWrite(base, corpus);
    var controller, loaded, counts := RunPhase(connection, size, NodeStreams(corpus), cancelled);
    ok := loaded;
    if !ok {
      WholePrefixLies(connection.durable, base, AllRows(NodeStreams(corpus)), size, controller.commits);
    }
  }

  /** The whole one-record run: its node phase and then its edge phase. Whatever fails, every
      table keeps a prefix of its records. */
  method LoadCorpusIndividually(connection: Connection<Write>, size: nat, corpus: Corpus, cancelled: nat -> nat -> bool)
    returns (ok: bool)
    requires !connection.open && connection.staged == []
    modifies connection
    ensures ok ==> CorpusAccepted(corpus) && CorpusStored(connection.durable, old(connection.durable), corpus)
    ensures !ok ==> CorpusPartlyStored(connection.durable, old(connection.durable), corpus)
    ensures connection.NeverFails() && CorpusAccepted(corpus) && NeverCancelled(cancelled) ==> ok
  {
    ghost var base := connection.durable;
    ok := LoadNodesIndividually(connection, size, corpus, cancelled);
    if !ok {
      NodesPartlyStored(connection.durable, base, corpus);
      return;
    }
    ok := LoadIndividually(connection, size, corpus.edges, cancelled(3));
    if !ok {
      EdgesPartlyStored(connection.durable, base, corpus);
    }
  }
}
