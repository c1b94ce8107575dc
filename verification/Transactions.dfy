/** The one-record loader: a database connection whose statements may fail at any
    point, and the controller that groups records into transactions. */
module Transactions {
  import opened Arithmetic

  /** The engine, as far as the loaders rely on it: a transaction that does not commit
      leaves nothing durable. `fails(n)` decides whether the n-th statement fails. */
  class Connection<Row> {
    const fails: nat -> bool
    var statements: nat
    var begins: nat
    var open: bool
    var durable: seq<Row>
    var staged: seq<Row>

    constructor (fails: nat -> bool, durable: seq<Row>)
      ensures this.fails == fails && this.durable == durable
      ensures !open && staged == [] && statements == 0 && begins == 0
    {
      this.fails := fails;
      this.durable := durable;
      open, staged, statements, begins := false, [], 0, 0;
    }

    ghost predicate NeverFails() {
      forall n: nat :: !fails(n)
    }

    method Begin() returns (ok: bool)
      modifies this
      ensures ok == !(fails(old(statements)) || old(open))
      ensures durable == old(durable) && statements == old(statements) + 1
      ensures ok ==> open && staged == [] && begins == old(begins) + 1
      ensures !ok ==> open == old(open) && staged == old(staged) && begins == old(begins)
    {
      ok := !(fails(statements) || open);
      statements := statements + 1;
      if ok {
        open, staged, begins := true, [], begins + 1;
      }
    }

    /** Outside a transaction a statement commits by itself. */
    method Execute(rows: seq<Row>) returns (ok: bool)
      modifies this
      ensures ok == !fails(old(statements))
      ensures open == old(open) && begins == old(begins) && statements == old(statements) + 1
      ensures durable == old(durable) + if ok && !open then rows else []
      ensures staged == old(staged) + if ok && open then rows else []
    {
      ok := !fails(statements);
      statements := statements + 1;
      if ok && open {
        staged := staged + rows;
      } else if ok {
        durable := durable + rows;
      }
    }

    method Commit() returns (ok: bool)
      modifies this
      ensures ok == (!fails(old(statements)) && old(open))
      ensures begins == old(begins) && statements == old(statements) + 1
      ensures ok ==> !open && staged == [] && durable == old(durable) + old(staged)
      ensures !ok ==> open == old(open) && staged == old(staged) && durable == old(durable)
    {
      ok := !fails(statements) && open;
      statements := statements + 1;
      if ok {
        durable, staged, open := durable + staged, [], false;
      }
    }

    /** A ROLLBACK may fail like any statement and leave the transaction open. */
    method Rollback() returns (ok: bool)
      modifies this
      ensures ok == !fails(old(statements))
      ensures durable == old(durable) && begins == old(begins) && statements == old(statements) + 1
      ensures if ok then !open && staged == [] else open == old(open) && staged == old(staged)
    {
      ok := !fails(statements);
      statements := statements + 1;
      if ok {
        staged, open := [], false;
      }
    }
  }

  class TransactionController<Row> {
    const connection: Connection<Row>
    const size: nat
    var active: bool
    var pending: nat
    var commits: nat

    constructor (connection: Connection<Row>, size: nat)
      ensures this.connection == connection && this.size == size
      ensures !active && pending == 0 && commits == 0
    {
      this.connection := connection;
      this.size := size;
      active, pending, commits := false, 0, 0;
    }

    /** `rows` have been loaded over `base`: whole transactions of `size` are durable and
        the remainder is staged, or everything is durable when no transactions are used. */
    ghost predicate Loaded(base: seq<Row>, rows: seq<Row>)
      reads this, connection
    {
      && connection.open == active
      && if size == 0
         then !active && pending == 0 && commits == 0
              && connection.durable == base + rows && connection.staged == []
         else pending < size && (active <==> pending > 0)
              && commits * size + pending == |rows|
              && connection.durable == base + rows[..commits * size]
              && connection.staged == rows[commits * size..]
    }

    /** What is durable once a record has failed after `rows`. */
    ghost predicate Salvaged(base: seq<Row>, rows: seq<Row>)
      reads this, connection
    {
      && (connection.open ==> active)
      && if size == 0 then !active && commits == 0 && connection.durable == base + rows
         else commits * size <= |rows| && connection.durable == base + rows[..commits * size]
    }

    method BeforeRecord() returns (ok: bool)
      requires connection.open == active
      modifies this`active, connection
      ensures connection.durable == old(connection.durable)
      ensures connection.open == active && active == (old(active) || (ok && size != 0))
      ensures size == 0 ==> ok && connection.begins == old(connection.begins)
      ensures connection.staged == if old(active) || !active then old(connection.staged) else []
      ensures !ok ==> exists n: nat :: connection.fails(n)
    {
      if size == 0 || active {
        return true;
      }
      var begun := connection.Begin();
      if !begun {
        return false;
      }
      active := true;
      return true;
    }

    method Commit() returns (ok: bool)
      requires connection.open == active && active
      modifies this, connection
      ensures ok ==> !active && pending == 0 && commits == old(commits) + 1
                     && connection.durable == old(connection.durable + connection.staged)
      ensures !ok ==> active && pending == old(pending) && commits == old(commits)
                      && connection.durable == old(connection.durable) && connection.staged == old(connection.staged)
      ensures connection.open == active && (ok ==> connection.staged == [])
      ensures connection.begins == old(connection.begins)
      ensures !ok ==> exists n: nat :: connection.fails(n)
    {
      var committed := connection.Commit();
      if !committed {
        return false;
      }
      commits := commits + 1;
      pending := 0;
      active := false;
      return true;
    }

    method AfterRecord() returns (ok: bool)
      requires connection.open == active && (size > 0 ==> active)
      modifies this, connection
      ensures size == 0 || old(pending) + 1 < size ==>
        (ok && active == old(active) && pending == (if size == 0 then old(pending) else old(pending) + 1)
         && commits == old(commits)
         && connection.durable == old(connection.durable) && connection.staged == old(connection.staged))
      ensures size > 0 && old(pending) + 1 >= size && ok ==>
        (!active && pending == 0 && commits == old(commits) + 1
         && connection.durable == old(connection.durable + connection.staged) && connection.staged == [])
      ensures !ok ==> active && commits == old(commits) && connection.durable == old(connection.durable)
      ensures connection.open == active && connection.begins == old(connection.begins)
      ensures !ok ==> exists n: nat :: connection.fails(n)
    {
      if size == 0 {
        return true;
      }
      pending := pending + 1;
      if pending < size {
        return true;
      }
      ok := Commit();
    }

    /** Opens a transaction where one is due and executes the statement in it. */
    method Stage(row: Row) returns (ok: bool)
      requires connection.open == active && (size == 0 ==> !active)
      modifies this`active, connection
      ensures ok ==> connection.open == active && (active <==> size > 0)
      ensures connection.open ==> active
      ensures connection.durable == old(connection.durable) + if ok && size == 0 then [row] else []
      ensures ok && size > 0 ==> connection.staged == (if old(active) then old(connection.staged) else []) + [row]
      ensures ok && size == 0 ==> connection.staged == old(connection.staged)
      ensures size == 0 ==> !active && connection.begins == old(connection.begins)
      ensures !ok ==> exists n: nat :: connection.fails(n)
    {
      var begun := BeforeRecord();
      if !begun {
        return false;
      }
      ok := connection.Execute([row]);
    }

    /** One record: whole transactions become durable as they fill, and a failure at the
        BEGIN, the statement or the COMMIT leaves the durable rows as they were. */
    method ExecuteOne(row: Row, ghost base: seq<Row>, ghost rows: seq<Row>) returns (ok: bool)
      requires Loaded(base, rows)
      modifies this, connection
      ensures ok ==> Loaded(base, rows + [row])
      ensures !ok ==> Salvaged(base, rows)
      ensures size == 0 ==> connection.begins == old(connection.begins)
      ensures !ok ==> exists n: nat :: connection.fails(n)
    {
      ghost var whole := commits * size;
      if size > 0 {
        NextWhole(commits, size);
        RecordFits(base, rows, row, whole, pending, size);
      }
      var staged := Stage(row);
      if !staged {
        return false;
      }
      ok := AfterRecord();
      if size == 0 {
        assert connection.durable == base + (rows + [row]);
      }
    }

    method Finish() returns (ok: bool)
      requires connection.open == active
      modifies this, connection
      ensures ok && old(active) ==>
        (!active && pending == 0 && commits == old(commits) + 1
         && connection.durable == old(connection.durable + connection.staged) && connection.staged == [])
      ensures !old(active) ==>
        (ok && !active && pending == old(pending) && commits == old(commits)
         && connection.durable == old(connection.durable) && connection.staged == old(connection.staged))
      ensures !ok ==> commits == old(commits) && connection.durable == old(connection.durable)
      ensures connection.open == active && connection.begins == old(connection.begins)
      ensures !ok ==> exists n: nat :: connection.fails(n)
    {
      if !active {
        return true;
      }
      ok := Commit();
    }

    /** Whether the ROLLBACK itself succeeded is not looked at. */
    method Rollback()
      modifies this, connection
      ensures connection.durable == old(connection.durable) && commits == old(commits) && !active
      ensures pending == if old(active) then 0 else old(pending)
      ensures connection.begins == old(connection.begins)
    {
      if !active {
        return;
      }
      var ignored := connection.Rollback();
      pending := 0;
      active := false;
    }
  }

  lemma RecordFits<Row>(base: seq<Row>, rows: seq<Row>, row: Row, whole: nat, pending: nat, size: nat)
    requires whole + pending == |rows| && pending < size
    ensures var all := rows + [row];
      && all[..whole] == rows[..whole] && all[whole..] == rows[whole..] + [row]
      && (pending + 1 == size ==>
            (all[..whole + size] == all && all[whole + size..] == []
             && (base + rows[..whole]) + (rows[whole..] + [row]) == base + all))
  {}

  // ---- A phase: streams of lines through one controller ----

  /** A line of a corpus file: a record, or one that cannot be decoded or has no table. */
  datatype Line<Row> = Record(row: Row) | Rejected

  function RowsOf<Row>(lines: seq<Line<Row>>): seq<Row> {
    if lines == [] then []
    else RowsOf(lines[..|lines| - 1]) + match lines[|lines| - 1] case Record(row) => [row] case Rejected => []
  }

  function AllRows<Row>(streams: seq<seq<Line<Row>>>): seq<Row> {
    if streams == [] then [] else AllRows(streams[..|streams| - 1]) + RowsOf(streams[|streams| - 1])
  }

  lemma {:induction false} RowsOfPrefix<Row>(lines: seq<Line<Row>>, n: nat)
    requires n <= |lines|
    ensures RowsOf(lines[..n]) <= RowsOf(lines)
    decreases |lines|
  {
    if n < |lines| {
      var front := lines[..|lines| - 1];
      assert front[..n] == lines[..n];
      RowsOfPrefix(front, n);
    } else {
      assert lines[..n] == lines;
    }
  }

  lemma {:induction false} AllRowsPrefix<Row>(streams: seq<seq<Line<Row>>>, n: nat)
    requires n < |streams|
    ensures AllRows(streams[..n]) + RowsOf(streams[n]) <= AllRows(streams)
    decreases |streams|
  {
    var front := streams[..|streams| - 1];
    if n < |front| {
      assert front[..n] == streams[..n];
      AllRowsPrefix(front, n);
    } else {
      assert streams[..n] == front;
    }
  }

  ghost predicate AllRecords<Row>(lines: seq<Line<Row>>) {
    forall i :: 0 <= i < |lines| ==> lines[i].Record?
  }

  /** `loadJSONLines`: cancellation is looked for every 1024 lines. */
  method LoadLines<Row>(controller: TransactionController<Row>, lines: seq<Line<Row>>, cancelled: nat -> bool,
                        ghost base: seq<Row>, ghost before: seq<Row>) returns (ok: bool, count: nat)
    requires controller.Loaded(base, before)
    modifies controller, controller.connection
    ensures count <= |lines|
    ensures ok ==> count == |lines| && AllRecords(lines) && controller.Loaded(base, before + RowsOf(lines))
    ensures !ok ==> controller.Salvaged(base, before + RowsOf(lines[..count]))
    ensures controller.size == 0 ==> controller.connection.begins == old(controller.connection.begins)
    ensures controller.connection.NeverFails() && AllRecords(lines) && (forall n: nat :: !cancelled(n)) ==> ok
  {
    count := 0;
    assert before + RowsOf(lines[..0]) == before;
    while count < |lines|
      invariant count <= |lines| && AllRecords(lines[..count])
      invariant controller.Loaded(base, before + RowsOf(lines[..count]))
      invariant controller.size == 0 ==> controller.connection.begins == old(controller.connection.begins)
    {
      ghost var rows := before + RowsOf(lines[..count]);
      assert lines[..count + 1][..count] == lines[..count];
      if count % 1024 == 0 && cancelled(count) {
        return false, count;
      }
      if lines[count].Rejected? {
        return false, count;
      }
      var loaded := controller.ExecuteOne(lines[count].row, base, rows);
      if !loaded {
        return false, count;
      }
      assert rows + [lines[count].row] == before + RowsOf(lines[..count + 1]);
      count := count + 1;
    }
    assert lines[..count] == lines;
    if count % 1024 == 0 && cancelled(count) {
      return false, count;
    }
    ok := true;
  }

  function CeilDiv(n: nat, size: nat): nat
    requires size > 0
  {
    (n + size - 1) / size
  }

  /** `n` records in full transactions of `size`, the last one possibly short. */
  lemma CeilOfParts(n: nat, size: nat, full: nat, rest: nat)
    requires size > 0 && n == full * size + rest && rest < size
    ensures CeilDiv(n, size) == full + if rest > 0 then 1 else 0
  {
    var q := full + if rest > 0 then 1 else 0;
    var r := n + size - 1 - q * size;
    NextWhole(full, size);
    assert 0 <= r < size;
    DivUnique(n + size - 1, size, q, r);
  }

  lemma CeilIsLeast(n: nat, size: nat, k: nat)
    requires size > 0 && n <= k * size
    ensures CeilDiv(n, size) <= k
  {
    var q := CeilDiv(n, size);
    assert n + size - 1 == q * size + (n + size - 1) % size;
    if k < q {
      Apart(k, q, size);
    }
  }

  function Concat<Row>(parts: seq<seq<Row>>): seq<Row> {
    if parts == [] then [] else Concat(parts[..|parts| - 1]) + parts[|parts| - 1]
  }

  lemma {:induction false} PartsBound<Row>(parts: seq<seq<Row>>, size: nat)
    requires forall i :: 0 <= i < |parts| ==> |parts[i]| <= size
    ensures |Concat(parts)| <= |parts| * size
  {
    if parts != [] {
      PartsBound(parts[..|parts| - 1], size);
      NextWhole(|parts| - 1, size);
    }
  }

  /** No division into parts of at most `size` rows has fewer parts. */
  lemma NoFewerParts<Row>(parts: seq<seq<Row>>, size: nat)
    requires size > 0 && forall i :: 0 <= i < |parts| ==> |parts[i]| <= size
    ensures CeilDiv(|Concat(parts)|, size) <= |parts|
  {
    PartsBound(parts, size);
    CeilIsLeast(|Concat(parts)|, size, |parts|);
  }

  /** The durable rows are `base` and then a prefix of `all`, in whole transactions. */
  ghost predicate WholePrefix<Row>(durable: seq<Row>, base: seq<Row>, all: seq<Row>, size: nat, commits: nat) {
    if size == 0 then commits == 0 && exists k: nat :: k <= |all| && durable == base + all[..k]
    else commits * size <= |all| && durable == base + all[..commits * size]
  }

  lemma WholePrefixLies<Row>(durable: seq<Row>, base: seq<Row>, all: seq<Row>, size: nat, commits: nat)
    requires WholePrefix(durable, base, all, size, commits)
    ensures base <= durable <= base + all
  {}

  lemma SalvageExtends<Row>(controller: TransactionController<Row>, base: seq<Row>, rows: seq<Row>, all: seq<Row>)
    requires controller.Salvaged(base, rows) && rows <= all
    ensures WholePrefix(controller.connection.durable, base, all, controller.size, controller.commits)
  {
    if controller.size == 0 {
      assert rows == all[..|rows|];
    } else {
      var whole := controller.commits * controller.size;
      assert rows[..whole] == all[..whole];
    }
  }

  ghost predicate Decodable<Row>(streams: seq<seq<Line<Row>>>) {
    forall i :: 0 <= i < |streams| ==> AllRecords(streams[i])
  }

  ghost predicate NeverCancelled(cancelled: nat -> nat -> bool) {
    forall i: nat, n: nat :: !cancelled(i)(n)
  }

  /** The streams share one controller, so a transaction may span two of them. */
  method LoadStreams<Row>(controller: TransactionController<Row>, streams: seq<seq<Line<Row>>>,
                          cancelled: nat -> nat -> bool, ghost base: seq<Row>)
    returns (ok: bool, counts: seq<nat>)
    requires controller.Loaded(base, [])
    modifies controller, controller.connection
    ensures ok ==> controller.Loaded(base, AllRows(streams)) && Decodable(streams)
    ensures ok ==> counts == seq(|streams|, i requires 0 <= i < |streams| => |streams[i]|)
    ensures !ok ==> WholePrefix(controller.connection.durable, base, AllRows(streams), controller.size,
                                controller.commits)
    ensures controller.size == 0 ==> controller.connection.begins == old(controller.connection.begins)
    ensures controller.connection.NeverFails() && Decodable(streams) && NeverCancelled(cancelled) ==> ok
  {
    counts := [];
    for i := 0 to |streams|
      invariant controller.Loaded(base, AllRows(streams[..i]))
      invariant forall j :: 0 <= j < i ==> AllRecords(streams[j])
      invariant counts == seq(i, j requires 0 <= j < i => |streams[j]|)
      invariant controller.size == 0 ==> controller.connection.begins == old(controller.connection.begins)
    {
      ghost var before := AllRows(streams[..i]);
      assert streams[..i + 1][..i] == streams[..i];
      var loaded, count := LoadLines(controller, streams[i], cancelled(i), base, before);
      if !loaded {
        AllRowsPrefix(streams, i);
        RowsOfPrefix(streams[i], count);
        SalvageExtends(controller, base, before + RowsOf(streams[i][..count]), AllRows(streams));
        controller.Rollback();
        return false, counts;
      }
      counts := counts + [count];
    }
    assert streams[..|streams|] == streams;
    ok := true;
  }

  lemma LoadedParts<Row>(controller: TransactionController<Row>, base: seq<Row>, all: seq<Row>)
    requires controller.Loaded(base, all)
    ensures WholePrefix(controller.connection.durable, base, all, controller.size, controller.commits)
    ensures controller.connection.durable + controller.connection.staged == base + all
    ensures !controller.active ==> controller.connection.durable == base + all && controller.connection.staged == []
    ensures controller.size > 0 ==>
      CeilDiv(|all|, controller.size) == controller.commits + if controller.active then 1 else 0
  {
    assert controller.Salvaged(base, all);
    SalvageExtends(controller, base, all, all);
    if controller.size > 0 {
      var whole := controller.commits * controller.size;
      CeilOfParts(|all|, controller.size, controller.commits, controller.pending);
      assert all[..whole] + all[whole..] == all;
    }
  }

  /** A loading phase. Success makes every record durable in full transactions but the last;
      whatever fails, only whole transactions are durable. */
  method RunPhase<Row>(connection: Connection<Row>, size: nat, streams: seq<seq<Line<Row>>>,
                       cancelled: nat -> nat -> bool)
    returns (controller: TransactionController<Row>, ok: bool, counts: seq<nat>)
    requires !connection.open && connection.staged == []
    modifies connection
    ensures fresh(controller) && controller.connection == connection && controller.size == size
    ensures ok ==> connection.durable == old(connection.durable) + AllRows(streams)
    ensures ok ==> !connection.open && connection.staged == []
    ensures ok ==> controller.commits == if size == 0 then 0 else CeilDiv(|AllRows(streams)|, size)
    ensures ok ==> Decodable(streams) && counts == seq(|streams|, i requires 0 <= i < |streams| => |streams[i]|)
    ensures !ok ==> WholePrefix(connection.durable, old(connection.durable), AllRows(streams), size, controller.commits)
    ensures size == 0 ==> connection.begins == old(connection.begins)
    ensures (connection.NeverFails() && Decodable(streams) && NeverCancelled(cancelled)) ==> ok
  {
    ghost var base, all := connection.durable, AllRows(streams);
    controller := new TransactionController(connection, size);
    assert 0 * size == 0;
    ok, counts := LoadStreams(controller, streams, cancelled, base);
    if ok {
      LoadedParts(controller, base, all);
      ok := controller.Finish();
    }
  }
}
