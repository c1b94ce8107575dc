/** The declarations the Python worker publishes: a walk over the server's document symbols
    that drops nameless entries and whatever is local to a callable. */
module Symbols {
  import opened LspPosition
  import opened Text
  import opened Wrappers

  datatype Point = Point(line: int, character: int)

  datatype Range = Range(start: Point, end: Point)

  /** A DocumentSymbol, or a SymbolInformation with its range inside a location. */
  datatype Row = Row(name: string, kind: int, range: Option<Range>, location: Option<Range>,
                     selectionRange: Option<Range>, children: seq<Row>)

  datatype Symbol = Symbol(id: string, file: string, name: string, qualifiedName: string, kind: string, exported: bool,
                           start: nat, end: nat)

  function NameOf(row: Row): string {
    Strip(row.name)
  }

  function KindOf(row: Row): string {
    match row.kind
    case 2 => "module"
    case 3 => "namespace"
    case 5 => "class"
    case 6 => "method"
    case 7 => "property"
    case 8 => "field"
    case 9 => "constructor"
    case 10 => "enum"
    case 11 => "interface"
    case 12 => "function"
    case 13 => "variable"
    case 14 => "constant"
    case 22 => "enum_member"
    case 23 => "struct"
    case 26 => "type_parameter"
    case _ => "symbol"
  }

  predicate Local(kind: string) {
    kind == "variable" || kind == "constant" || kind == "type_parameter"
  }

  predicate Callable(kind: string) {
    kind == "function" || kind == "method" || kind == "constructor" || kind == "property"
  }

  function OrElse<T>(first: Option<T>, second: Option<T>): Option<T> {
    if first.Some? then first else second
  }

  /** A point that is missing is line 0, character 0. */
  function OffsetOf(text: string, point: Option<Point>): nat {
    match point
    case None => Offset(text, 0, 0)
    case Some(p) => Offset(text, p.line, p.character)
  }

  /** The declaration starts where its selection does and ends where its range does; either
      stands in for the other when it is missing. */
  function StartOf(text: string, row: Row): nat {
    var selection := OrElse(row.selectionRange, OrElse(row.range, row.location));
    OffsetOf(text, if selection.Some? then Some(selection.value.start) else None)
  }

  function EndOf(text: string, row: Row): nat {
    var span := OrElse(OrElse(row.range, row.location), row.selectionRange);
    OffsetOf(text, if span.Some? then Some(span.value.end) else None)
  }

  datatype Source = Source(relative: string, moduleName: string, text: string)

  function IdOf(relative: string, qualified: string, kind: string): string {
    relative + "\0" + qualified + "\0" + kind
  }

  function SymbolOf(source: Source, row: Row, qualified: string): Symbol {
    var name, kind := NameOf(row), KindOf(row);
    Symbol(IdOf(source.relative, qualified, kind), source.relative, name, qualified, kind,
           name == [] || name[0] != '_', StartOf(source.text, row), EndOf(source.text, row))
  }

  function ModuleSymbol(source: Source): Symbol {
    Symbol(IdOf(source.relative, source.moduleName, "module"), source.relative, Behind(source.moduleName, '.'),
           source.moduleName, "module", true, 0, |source.text|)
  }

  /** What the walk appends for `rows`. */
  function Published(source: Source, rows: seq<Row>, prefix: string, inside: bool): seq<Symbol>
    decreases rows
  {
    if rows == [] then []
    else
      PublishedRow(source, rows[0], prefix, inside) + Published(source, rows[1..], prefix, inside)
  }

  function PublishedRow(source: Source, row: Row, prefix: string, inside: bool): seq<Symbol>
    decreases row
  {
    if NameOf(row) == [] || (inside && Local(KindOf(row))) then []
    else
      var qualified := prefix + "." + NameOf(row);
      [SymbolOf(source, row, qualified)] + Published(source, row.children, qualified, inside || Callable(KindOf(row)))
  }

  function Base(source: Source, prefix: string): string {
    if prefix != [] then prefix else source.moduleName
  }

  class Index {
    var symbols: seq<Symbol>

    constructor ()
      ensures symbols == []
    {
      symbols := [];
    }

    /** `visit`: the prefix is empty only at the top, where the module's name stands for it. */
    method Visit(source: Source, entries: seq<Row>, prefix: string, inside: bool)
      modifies this
      ensures symbols == old(symbols) + Published(source, entries, Base(source, prefix), inside)
      decreases entries
    {
      ghost var before, from := symbols, Base(source, prefix);
      assert entries[..0] == [];
      for i := 0 to |entries|
        invariant symbols == before + Published(source, entries[..i], from, inside)
      {
        PublishedNext(before, source, entries, i, from, inside);
        VisitRow(source, entries[i], prefix, inside);
      }
      assert entries[..|entries|] == entries;
    }

    method VisitRow(source: Source, row: Row, prefix: string, inside: bool)
      modifies this
      ensures symbols == old(symbols) + PublishedRow(source, row, Base(source, prefix), inside)
      decreases row
    {
      var name := NameOf(row);
      if name == [] {
        return;
      }
      var kind := KindOf(row);
      if inside && Local(kind) {
        return;
      }
      var qualified := (if prefix != [] then prefix else source.moduleName) + "." + name;
      OwnThenBelow(symbols, SymbolOf(source, row, qualified),
                   Published(source, row.children, qualified, inside || Callable(kind)));
      symbols := symbols + [SymbolOf(source, row, qualified)];
      Visit(source, row.children, qualified, inside || Callable(kind));
    }

    /** One file: its module and then its declarations. */
    method AddFile(source: Source, rows: seq<Row>)
      modifies this
      ensures symbols == old(symbols) + FileSymbols(source, rows)
    {
      symbols := symbols + [ModuleSymbol(source)];
      Visit(source, rows, "", false);
    }
  }

  function FileSymbols(source: Source, rows: seq<Row>): seq<Symbol> {
    [ModuleSymbol(source)] + Published(source, rows, source.moduleName, false)
  }

  lemma {:induction false} PublishedConcat(source: Source, a: seq<Row>, b: seq<Row>, prefix: string, inside: bool)
    ensures Published(source, a + b, prefix, inside)
            == Published(source, a, prefix, inside) + Published(source, b, prefix, inside)
  {
    if a == [] {
      assert a + b == b;
    } else {
      assert (a + b)[1..] == a[1..] + b;
      PublishedConcat(source, a[1..], b, prefix, inside);
    }
  }

  lemma OwnThenBelow(before: seq<Symbol>, own: Symbol, below: seq<Symbol>)
    ensures (before + [own]) + below == before + ([own] + below)
  {}

  lemma PublishedNext(before: seq<Symbol>, source: Source, rows: seq<Row>, i: nat, prefix: string, inside: bool)
    requires i < |rows|
    ensures (before + Published(source, rows[..i], prefix, inside)) + PublishedRow(source, rows[i], prefix, inside)
            == before + Published(source, rows[..i + 1], prefix, inside)
  {
    assert rows[..i + 1] == rows[..i] + [rows[i]];
    PublishedConcat(source, rows[..i], [rows[i]], prefix, inside);
    assert [rows[i]][1..] == [];
  }

  // ---- Which declarations those are ----

  /** `chain` leads from a top-level entry down to one of its descendants. */
  ghost predicate IsChain(rows: seq<Row>, chain: seq<Row>) {
    && chain != [] && chain[0] in rows
    && forall i :: 0 < i < |chain| ==> chain[i] in chain[i - 1].children
  }

  /** Every entry of the chain has a name, and none is local to a callable above it. */
  ghost predicate Visible(chain: seq<Row>, inside: bool) {
    && (forall i :: 0 <= i < |chain| ==> NameOf(chain[i]) != [])
    && (forall i :: 0 <= i < |chain| && inside ==> !Local(KindOf(chain[i])))
    && (forall i, j :: 0 <= i < j < |chain| && Callable(KindOf(chain[i])) ==> !Local(KindOf(chain[j])))
  }

  /** The module's name and the names of the chain, joined by dots. */
  function Qualified(prefix: string, chain: seq<Row>): string {
    if chain == [] then prefix else Qualified(prefix, chain[..|chain| - 1]) + "." + NameOf(chain[|chain| - 1])
  }

  ghost predicate Declares(source: Source, rows: seq<Row>, prefix: string, inside: bool, chain: seq<Row>, s: Symbol) {
    && IsChain(rows, chain) && Visible(chain, inside)
    && s == SymbolOf(source, chain[|chain| - 1], Qualified(prefix, chain))
  }

  lemma {:induction false} QualifiedFirst(prefix: string, row: Row, chain: seq<Row>)
    ensures Qualified(prefix, [row] + chain) == Qualified(prefix + "." + NameOf(row), chain)
  {
    var all := [row] + chain;
    if chain == [] {
      assert all[..0] == [] && all[|all| - 1] == row;
    } else {
      assert all[..|all| - 1] == [row] + chain[..|chain| - 1];
      QualifiedFirst(prefix, row, chain[..|chain| - 1]);
    }
  }

  /** Every published declaration has its chain. */
  lemma {:induction false} PublishedHasChain(source: Source, rows: seq<Row>, prefix: string, inside: bool, s: Symbol)
    returns (chain: seq<Row>)
    requires s in Published(source, rows, prefix, inside)
    ensures Declares(source, rows, prefix, inside, chain, s)
    decreases rows
  {
    if s in PublishedRow(source, rows[0], prefix, inside) {
      chain := RowHasChain(source, rows[0], prefix, inside, s);
    } else {
      chain := PublishedHasChain(source, rows[1..], prefix, inside, s);
    }
  }

  lemma ChainGrows(row: Row, tail: seq<Row>, inside: bool)
    requires IsChain(row.children, tail) && Visible(tail, inside || Callable(KindOf(row)))
    requires NameOf(row) != [] && !(inside && Local(KindOf(row)))
    ensures IsChain([row], [row] + tail) && Visible([row] + tail, inside)
  {
    var chain := [row] + tail;
    assert forall i :: 0 < i < |chain| ==> chain[i] == tail[i - 1];
  }

  lemma {:induction false} RowHasChain(source: Source, row: Row, prefix: string, inside: bool, s: Symbol)
    returns (chain: seq<Row>)
    requires s in PublishedRow(source, row, prefix, inside)
    ensures Declares(source, [row], prefix, inside, chain, s)
    decreases row
  {
    var qualified := prefix + "." + NameOf(row);
    if s == SymbolOf(source, row, qualified) {
      chain := [row];
      QualifiedFirst(prefix, row, []);
      assert [row] + [] == [row];
    } else {
      var below := inside || Callable(KindOf(row));
      var tail := PublishedHasChain(source, row.children, qualified, below, s);
      chain := [row] + tail;
      QualifiedFirst(prefix, row, tail);
      ChainGrows(row, tail, inside);
    }
  }

  lemma ChainTail(rows: seq<Row>, chain: seq<Row>, inside: bool)
    requires IsChain(rows, chain) && Visible(chain, inside) && |chain| > 1
    ensures IsChain(chain[0].children, chain[1..])
    ensures Visible(chain[1..], inside || Callable(KindOf(chain[0])))
  {
    var tail := chain[1..];
    assert forall i :: 0 <= i < |tail| ==> tail[i] == chain[i + 1];
    assert tail[0] in chain[0].children;
    forall i | 0 < i < |tail| ensures tail[i] in tail[i - 1].children {
      var j := i + 1;
      assert chain[j] in chain[j - 1].children;
    }
  }

  lemma {:induction false} RowIsPublished(source: Source, row: Row, prefix: string, inside: bool, chain: seq<Row>)
    requires IsChain([row], chain) && Visible(chain, inside)
    ensures SymbolOf(source, chain[|chain| - 1], Qualified(prefix, chain)) in PublishedRow(source, row, prefix, inside)
    decreases |chain|, 0
  {
    var tail := chain[1..];
    assert chain == [row] + tail;
    QualifiedFirst(prefix, row, tail);
    if tail != [] {
      ChainTail([row], chain, inside);
      ChainIsPublished(source, row.children, prefix + "." + NameOf(row), inside || Callable(KindOf(row)), tail);
    }
  }

  /** Every visible chain is published. */
  lemma {:induction false} ChainIsPublished(source: Source, rows: seq<Row>, prefix: string, inside: bool,
                                            chain: seq<Row>)
    requires IsChain(rows, chain) && Visible(chain, inside)
    ensures SymbolOf(source, chain[|chain| - 1], Qualified(prefix, chain)) in Published(source, rows, prefix, inside)
    decreases |chain|, |rows|
  {
    if chain[0] == rows[0] {
      RowIsPublished(source, rows[0], prefix, inside, chain);
    } else {
      ChainIsPublished(source, rows[1..], prefix, inside, chain);
    }
  }

  /** Published are exactly the declarations on visible chains, each under its ancestors' names. */
  lemma PublishedExactly(source: Source, rows: seq<Row>, s: Symbol)
    ensures s in Published(source, rows, source.moduleName, false)
            <==> exists chain :: Declares(source, rows, source.moduleName, false, chain, s)
  {
    if s in Published(source, rows, source.moduleName, false) {
      var chain := PublishedHasChain(source, rows, source.moduleName, false, s);
    }
    if chain :| Declares(source, rows, source.moduleName, false, chain, s) {
      ChainIsPublished(source, rows, source.moduleName, false, chain);
    }
  }

  ghost predicate NoCallableAbove(chain: seq<Row>) {
    forall i :: 0 <= i < |chain| - 1 ==> !Callable(KindOf(chain[i]))
  }

  /** A published variable, constant or type parameter is declared, and on no visible chain
      that declares it stands a callable above it. */
  lemma NoLocals(source: Source, rows: seq<Row>, s: Symbol)
    requires s in Published(source, rows, source.moduleName, false) && Local(s.kind)
    ensures exists chain :: Declares(source, rows, source.moduleName, false, chain, s)
    ensures forall chain :: Declares(source, rows, source.moduleName, false, chain, s) ==> NoCallableAbove(chain)
  {
    var declared := PublishedHasChain(source, rows, source.moduleName, false, s);
    forall chain | Declares(source, rows, source.moduleName, false, chain, s) ensures NoCallableAbove(chain) {
      assert Local(KindOf(chain[|chain| - 1]));
    }
  }
}
