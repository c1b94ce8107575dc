/** What becomes of an occurrence: the declaration the server names for it, or a row saying
    why there is none. */
module ExactEdges {
  import opened LspPosition
  import opened Ordering
  import opened Symbols
  import opened SyntaxTrees
  import opened Wrappers

  // ---- The declaration at an offset ----

  predicate Covers(s: Symbol, file: string, offset: nat) {
    s.file == file && s.start <= offset <= s.end
  }

  function Covering(symbols: seq<Symbol>, file: string, offset: nat): (r: seq<Symbol>)
    ensures forall s :: s in r <==> s in symbols && Covers(s, file, offset)
  {
    if symbols == [] then []
    else
      (if Covers(symbols[0], file, offset) then [symbols[0]] else []) + Covering(symbols[1..], file, offset)
  }

  /** Narrower first, and then by qualified name. */
  predicate Narrower(a: Symbol, b: Symbol) {
    var x, y := a.end - a.start, b.end - b.start;
    x < y || (x == y && StringLeq(a.qualifiedName, b.qualifiedName))
  }

  lemma NarrowerOrder()
    ensures TotalPreorder(Narrower)
  {
    StringOrder();
    assert forall a: Symbol, b: Symbol ::
        StringLeq(a.qualifiedName, b.qualifiedName) || StringLeq(b.qualifiedName, a.qualifiedName);
  }

  /** The path as the resolver gives it: relative to the root, or none outside of it. */
  function TargetAt(symbols: seq<Symbol>, file: Option<string>, offset: nat): string {
    if file.None? then ""
    else
      var candidates := Covering(symbols, file.value, offset);
      if candidates == [] then "" else Sort(candidates, Narrower)[0].id
  }

  ghost predicate Innermost(symbols: seq<Symbol>, file: string, offset: nat, s: Symbol) {
    && s in symbols && Covers(s, file, offset)
    && forall t :: t in symbols && Covers(t, file, offset) ==> Narrower(s, t)
  }

  /** The id at an offset is that of the innermost declaration around it, and empty exactly
      when nothing in the file covers the offset. */
  lemma TargetIsInnermost(symbols: seq<Symbol>, file: Option<string>, offset: nat)
    requires forall s :: s in symbols ==> s.id != ""
    ensures TargetAt(symbols, file, offset) == "" <==>
            file.None? || forall s :: s in symbols ==> !Covers(s, file.value, offset)
    ensures TargetAt(symbols, file, offset) != "" ==>
            exists s :: Innermost(symbols, file.value, offset, s) && s.id == TargetAt(symbols, file, offset)
  {
    if file.Some? {
      var candidates := Covering(symbols, file.value, offset);
      if candidates != [] {
        NarrowerOrder();
        var first := SortHead(candidates, Narrower);
        var s := candidates[first];
        forall t | t in symbols && Covers(t, file.value, offset) ensures Narrower(s, t) {
          assert t in candidates;
        }
        assert Innermost(symbols, file.value, offset, s);
      }
    }
  }

  // ---- Resolving ----

  /** A location as the server returns it: a path, the file it is relative to the root, and a position. */
  datatype Location = Location(path: string, file: Option<string>, line: int, character: int)

  /** The texts of the indexed files, by path. */
  type Contents = map<string, string>

  function TextOf(contents: Contents, path: string): string {
    if path != "" && path in contents then contents[path] else ""
  }

  function TargetOffset(contents: Contents, location: Location): nat {
    Offset(TextOf(contents, location.path), location.line, location.character)
  }

  /** The last symbol with an id is the one the id table keeps. */
  function ById(symbols: seq<Symbol>, id: string): (r: Option<Symbol>)
    ensures r.Some? ==> r.value in symbols && r.value.id == id
    ensures r.None? ==> forall s :: s in symbols ==> s.id != id
  {
    if symbols == [] then None
    else if symbols[|symbols| - 1].id == id then Some(symbols[|symbols| - 1])
    else ById(symbols[..|symbols| - 1], id)
  }

  /** The target's id, and the path the server named. */
  function DefinitionTarget(symbols: seq<Symbol>, contents: Contents, locations: seq<Location>): (string, string) {
    if locations == [] then ("", "")
    else
      var location := locations[0];
      var offset := TargetOffset(contents, location);
      var target := ById(symbols, TargetAt(symbols, location.file, offset));
      if target.None? then ("", location.path)
      else if target.value.kind == "module" && offset > 0 then ("", location.path)
      else (target.value.id, location.path)
  }

  // ---- Occurrences ----

  /** A name or attribute in load context, its role, and what the server answers for it. */
  datatype Occurrence = Occurrence(requested: string, start: nat, role: Role, locations: seq<Location>)

  datatype Reference = Reference(file: string, sourceId: string, targetId: string, kind: string, start: nat,
                                 text: string)

  datatype Reason = TargetNotIndexed | NameNotResolved | ParseError

  datatype Unresolved = Unresolved(file: string, sourceId: string, requested: string, reason: Reason, detail: string,
                                   start: nat)

  datatype Outcome = Refers(reference: Reference) | Fails(row: Unresolved) | SelfLoop

  predicate IsFunction(symbols: seq<Symbol>, id: string) {
    exists s :: s in symbols && s.id == id && (s.kind == "function" || s.kind == "method" || s.kind == "constructor")
  }

  function ReferenceKind(role: Role, toFunction: bool): string {
    match role
    case CalledBy => "CALLS_DIRECT"
    case BaseOf => "EXTENDS"
    case ReturnedBy => if toFunction then "RETURNS_FUNCTION" else "REFERENCES"
    case TypePosition => "TYPE_USES"
    case AssignedBy => if toFunction then "ASSIGNS_FUNCTION" else "REFERENCES"
    case ArgumentOf => if toFunction then "PASSES_AS_CALLBACK" else "REFERENCES"
    case OtherRole => "REFERENCES"
  }

  function ModuleIdOf(symbols: seq<Symbol>, file: string): string {
    if symbols == [] then ""
    else if symbols[0].file == file && symbols[0].kind == "module" then symbols[0].id
    else ModuleIdOf(symbols[1..], file)
  }

  function SourceOf(symbols: seq<Symbol>, file: string, start: nat): string {
    var innermost := TargetAt(symbols, Some(file), start);
    if innermost != "" then innermost else ModuleIdOf(symbols, file)
  }

  function Resolve(symbols: seq<Symbol>, contents: Contents, file: string, occurrence: Occurrence): Outcome {
    var (target, path) := DefinitionTarget(symbols, contents, occurrence.locations);
    var source := SourceOf(symbols, file, occurrence.start);
    if target == "" then
      Fails(Unresolved(file, source, occurrence.requested, if path != "" then TargetNotIndexed else NameNotResolved,
                       path, occurrence.start))
    else if source == target then SelfLoop
    else
      Refers(Reference(file, source, target, ReferenceKind(occurrence.role, IsFunction(symbols, target)),
                       occurrence.start, occurrence.requested))
  }

  function ReferenceIn(outcome: Outcome): seq<Reference> {
    match outcome
    case Refers(reference) => [reference]
    case _ => []
  }

  function FailureIn(outcome: Outcome): seq<Unresolved> {
    match outcome
    case Fails(row) => [row]
    case _ => []
  }

  function References(symbols: seq<Symbol>, contents: Contents, file: string,
                      occurrences: seq<Occurrence>): seq<Reference>
  {
    if occurrences == [] then []
    else
      References(symbols, contents, file, occurrences[..|occurrences| - 1]) +
      ReferenceIn(Resolve(symbols, contents, file, occurrences[|occurrences| - 1]))
  }

  function Failures(symbols: seq<Symbol>, contents: Contents, file: string,
                    occurrences: seq<Occurrence>): seq<Unresolved>
  {
    if occurrences == [] then []
    else
      Failures(symbols, contents, file, occurrences[..|occurrences| - 1]) +
      FailureIn(Resolve(symbols, contents, file, occurrences[|occurrences| - 1]))
  }

  /** What the server answers for a node's definition. */
  type Answers = Path -> seq<Location>

  /** The nodes that are looked at: names and attributes that are read. */
  predicate IsLoad(kind: Kind) {
    match kind
    case NameNode(_, load) => load
    case AttributeNode(_, load) => load
    case _ => false
  }

  function RequestedBy(kind: Kind): string {
    match kind
    case NameNode(id, _) => id
    case AttributeNode(attr, _) => attr
    case _ => ""
  }

  predicate LoadAt(tree: Tree, node: Path) {
    IsNode(tree, node) && IsLoad(At(tree, node).kind)
  }

  function OccurrenceAt(tree: Tree, node: Path, answers: Answers): Occurrence
    requires LoadAt(tree, node)
  {
    Occurrence(RequestedBy(At(tree, node).kind), At(tree, node).start, RoleOf(tree, node), answers(node))
  }

  /** A file of the repository: its syntax tree where it parses, and what the server answers
      about it. */
  datatype ParsedFile = ParsedFile(relative: string, parsed: Option<Tree>, answers: Answers)

  /** The occurrences along a walk. */
  function Occurrences(tree: Tree, order: seq<Path>, answers: Answers): seq<Occurrence> {
    if order == [] then []
    else
      var last := order[|order| - 1];
      var front := Occurrences(tree, order[..|order| - 1], answers);
      if LoadAt(tree, last) then front + [OccurrenceAt(tree, last, answers)] else front
  }

  /** The occurrences of a whole tree. */
  ghost function Loads(tree: Tree): set<Path> {
    set node | node in Nodes(tree) && LoadAt(tree, node)
  }

  /** Those that a declaration makes of itself. */
  ghost function Dropped(symbols: seq<Symbol>, contents: Contents, file: string, tree: Tree,
                         answers: Answers): set<Path>
  {
    set node | node in Loads(tree) && SelfLoopAt(symbols, contents, file, tree, node, answers)
  }

  /** The server names a target, and it is the declaration the occurrence belongs to. */
  predicate SelfLoopAt(symbols: seq<Symbol>, contents: Contents, file: string, tree: Tree, node: Path, answers: Answers)
  {
    LoadAt(tree, node)
    && var target := DefinitionTarget(symbols, contents, answers(node)).0;
       target != "" && target == SourceOf(symbols, file, At(tree, node).start)
  }

  datatype Emission = Emission(references: seq<Reference>, unresolved: seq<Unresolved>)

  function Rows(emission: Emission): nat {
    |emission.references| + |emission.unresolved|
  }

  /** A plain import has no attribute `module`, which the loop reads of every import. */
  datatype WorkerError = NoModuleAttribute

  /** What one file's loop leaves, given its walk. */
  function FileEmission(symbols: seq<Symbol>, contents: Contents, file: ParsedFile, order: seq<Path>): Emission {
    match file.parsed
    case None => Emission([], [Unresolved(file.relative, "", "", ParseError, "", 0)])
    case Some(tree) =>
      var occurrences := Occurrences(tree, order, file.answers);
      Emission(References(symbols, contents, file.relative, occurrences),
               Failures(symbols, contents, file.relative, occurrences))
  }

  /** The rows a file owes: one for each occurrence, or one when it does not parse. */
  ghost function Owed(file: ParsedFile): nat {
    match file.parsed
    case None => 1
    case Some(tree) => |Loads(tree)|
  }

  ghost function DroppedOf(symbols: seq<Symbol>, contents: Contents, file: ParsedFile): nat {
    match file.parsed
    case None => 0
    case Some(tree) => |Dropped(symbols, contents, file.relative, tree, file.answers)|
  }

  /** The order is a walk of the file's tree. */
  ghost predicate WalkedFile(file: ParsedFile, order: seq<Path>) {
    file.parsed.Some? ==> Walked(file.parsed.value, order)
  }

  ghost predicate Breaks(file: ParsedFile) {
    file.parsed.Some? && Imports(file.parsed.value)
  }

  /** The occurrence loop of one file; a file that does not parse has one row for all of it.
      It fails exactly on a plain import. Otherwise no occurrence is lost or counted twice:
      each one read in the tree yields a reference or a failure, or is dropped as a
      declaration's reference to itself. */
  method EmitFile(symbols: seq<Symbol>, contents: Contents, file: ParsedFile)
    returns (emitted: Result<Emission, WorkerError>, ghost order: seq<Path>)
    ensures emitted.Err? <==> Breaks(file)
    ensures emitted.Ok? ==> WalkedFile(file, order)
    ensures emitted.Ok? ==> emitted.value == FileEmission(symbols, contents, file, order)
    ensures emitted.Ok? ==> Rows(emitted.value) + DroppedOf(symbols, contents, file) == Owed(file)
  {
    if file.parsed.None? {
      return Ok(Emission([], [Unresolved(file.relative, "", "", ParseError, "", 0)])), [];
    }
    var tree, relative, answers := file.parsed.value, file.relative, file.answers;
    var references: seq<Reference>, unresolved: seq<Unresolved> := [], [];
    var moduleId := ModuleIdOf(symbols, relative);
    var walk := SyntaxTrees.Walk(tree);
    for i := 0 to |walk|
      invariant references == References(symbols, contents, relative, Occurrences(tree, walk[..i], answers))
      invariant unresolved == Failures(symbols, contents, relative, Occurrences(tree, walk[..i], answers))
      invariant forall j :: 0 <= j < i ==> IsNode(tree, walk[j]) && !At(tree, walk[j]).kind.ImportNode?
    {
      assert walk[i] in walk;
      if At(tree, walk[i]).kind.ImportNode? {
        return Err(NoModuleAttribute), [];
      }
      EmitNext(symbols, contents, relative, tree, walk, i, answers);
      if !LoadAt(tree, walk[i]) {
        continue;
      }
      var outcome := EmitOne(symbols, contents, relative, moduleId, OccurrenceAt(tree, walk[i], answers));
      match outcome {
        case Refers(reference) => references := references + [reference];
        case Fails(row) => unresolved := unresolved + [row];
        case SelfLoop =>
      }
    }
    assert walk[..|walk|] == walk;
    NoneLost(symbols, contents, relative, tree, walk, answers);
    return Ok(Emission(references, unresolved)), walk;
  }

  lemma EmitNext(symbols: seq<Symbol>, contents: Contents, file: string, tree: Tree, order: seq<Path>, i: nat,
                 answers: Answers)
    requires i < |order|
    ensures var before, after := Occurrences(tree, order[..i], answers), Occurrences(tree, order[..i + 1], answers);
      if LoadAt(tree, order[i]) then
        var outcome := Resolve(symbols, contents, file, OccurrenceAt(tree, order[i], answers));
        && References(symbols, contents, file, after)
            == References(symbols, contents, file, before) + ReferenceIn(outcome)
        && Failures(symbols, contents, file, after) == Failures(symbols, contents, file, before) + FailureIn(outcome)
      else after == before
  {
    assert order[..i + 1][..i] == order[..i];
    var before := Occurrences(tree, order[..i], answers);
    if LoadAt(tree, order[i]) {
      var last := OccurrenceAt(tree, order[i], answers);
      assert (before + [last])[..|before|] == before;
    }
  }

  method EmitOne(symbols: seq<Symbol>, contents: Contents, file: string, moduleId: string, occurrence: Occurrence)
    returns (outcome: Outcome)
    requires moduleId == ModuleIdOf(symbols, file)
    ensures outcome == Resolve(symbols, contents, file, occurrence)
  {
    var (target, path) := DefinitionTarget(symbols, contents, occurrence.locations);
    if target == "" {
      var owner := TargetAt(symbols, Some(file), occurrence.start);
      return Fails(Unresolved(file, if owner != "" then owner else moduleId, occurrence.requested,
                              if path != "" then TargetNotIndexed else NameNotResolved, path, occurrence.start));
    }
    var kind := ReferenceKind(occurrence.role, IsFunction(symbols, target));
    var source := TargetAt(symbols, Some(file), occurrence.start);
    if source == "" {
      source := moduleId;
    }
    if source == target {
      return SelfLoop;
    }
    return Refers(Reference(file, source, target, kind, occurrence.start, occurrence.requested));
  }

  /** An occurrence is a self-loop exactly when it resolves to neither a reference nor a failure. */
  lemma LoopsResolve(symbols: seq<Symbol>, contents: Contents, file: string, tree: Tree, node: Path, answers: Answers)
    requires LoadAt(tree, node)
    ensures SelfLoopAt(symbols, contents, file, tree, node, answers)
            <==> Resolve(symbols, contents, file, OccurrenceAt(tree, node, answers)).SelfLoop?
  {}

  /** The elements of a list that satisfy a condition. */
  ghost function Kept<T>(list: seq<T>, keep: T -> bool): set<T> {
    set x | x in list && keep(x)
  }

  lemma KeptGrows<T>(list: seq<T>, keep: T -> bool)
    requires list != [] && list[|list| - 1] !in list[..|list| - 1]
    ensures |Kept(list, keep)| == |Kept(list[..|list| - 1], keep)| + if keep(list[|list| - 1]) then 1 else 0
  {
    var front, last := list[..|list| - 1], list[|list| - 1];
    assert Kept(list, keep) == Kept(front, keep) + if keep(last) then {last} else {};
  }

  ghost function LoadsIn(tree: Tree, order: seq<Path>): set<Path> {
    Kept(order, node => LoadAt(tree, node))
  }

  ghost function LoopsIn(symbols: seq<Symbol>, contents: Contents, file: string, tree: Tree, order: seq<Path>,
                         answers: Answers): set<Path>
  {
    Kept(order, node => SelfLoopAt(symbols, contents, file, tree, node, answers))
  }

  function Emitted(symbols: seq<Symbol>, contents: Contents, file: string, occurrences: seq<Occurrence>): nat {
    |References(symbols, contents, file, occurrences)| + |Failures(symbols, contents, file, occurrences)|
  }

  lemma EmittedGrows(symbols: seq<Symbol>, contents: Contents, file: string, tree: Tree, order: seq<Path>,
                     answers: Answers)
    requires order != []
    ensures var front, last := order[..|order| - 1], order[|order| - 1];
      Emitted(symbols, contents, file, Occurrences(tree, order, answers))
      + (if SelfLoopAt(symbols, contents, file, tree, last, answers) then 1 else 0)
      == Emitted(symbols, contents, file, Occurrences(tree, front, answers)) + if LoadAt(tree, last) then 1 else 0
  {
    var n := |order| - 1;
    assert order[..n + 1] == order;
    EmitNext(symbols, contents, file, tree, order, n, answers);
    if LoadAt(tree, order[n]) {
      LoopsResolve(symbols, contents, file, tree, order[n], answers);
    }
  }

  ghost predicate Accounted(symbols: seq<Symbol>, contents: Contents, file: string, tree: Tree, order: seq<Path>,
                            answers: Answers)
  {
    Emitted(symbols, contents, file, Occurrences(tree, order, answers))
    + |LoopsIn(symbols, contents, file, tree, order, answers)| == |LoadsIn(tree, order)|
  }

  lemma AccountedGrows(symbols: seq<Symbol>, contents: Contents, file: string, tree: Tree, order: seq<Path>,
                       answers: Answers)
    requires order != [] && order[|order| - 1] !in order[..|order| - 1]
    requires Accounted(symbols, contents, file, tree, order[..|order| - 1], answers)
    ensures Accounted(symbols, contents, file, tree, order, answers)
  {
    KeptGrows(order, node => LoadAt(tree, node));
    KeptGrows(order, node => SelfLoopAt(symbols, contents, file, tree, node, answers));
    EmittedGrows(symbols, contents, file, tree, order, answers);
  }

  lemma NothingAccounted(symbols: seq<Symbol>, contents: Contents, file: string, tree: Tree, answers: Answers)
    ensures Accounted(symbols, contents, file, tree, [], answers)
  {
    assert LoadsIn(tree, []) == {} && LoopsIn(symbols, contents, file, tree, [], answers) == {};
  }

  lemma {:induction false} NoneLostAlong(symbols: seq<Symbol>, contents: Contents, file: string, tree: Tree,
                                         order: seq<Path>,
                                         answers: Answers)
    requires Distinct(order)
    ensures Accounted(symbols, contents, file, tree, order, answers)
  {
    if order == [] {
      NothingAccounted(symbols, contents, file, tree, answers);
    } else {
      NoneLostAlong(symbols, contents, file, tree, order[..|order| - 1], answers);
      AccountedGrows(symbols, contents, file, tree, order, answers);
    }
  }

  /** Along a whole walk nothing that is read is lost or counted twice. */
  lemma NoneLost(symbols: seq<Symbol>, contents: Contents, file: string, tree: Tree, order: seq<Path>, answers: Answers)
    requires Walked(tree, order)
    ensures var occurrences := Occurrences(tree, order, answers);
      |References(symbols, contents, file, occurrences)| + |Failures(symbols, contents, file, occurrences)|
      + |Dropped(symbols, contents, file, tree, answers)| == |Loads(tree)|
  {
    OrderedDistinct(order);
    NoneLostAlong(symbols, contents, file, tree, order, answers);
    forall node ensures node in order <==> node in Nodes(tree) {
      NodesExactly(tree, node);
    }
    assert LoadsIn(tree, order) == Loads(tree);
    assert LoopsIn(symbols, contents, file, tree, order, answers) == Dropped(symbols, contents, file, tree, answers);
  }

  /** An index in which every id is non-empty, the kind of a symbol is the last part of its
      id, and every file has its module symbol. */
  ghost predicate Indexed(symbols: seq<Symbol>, file: string) {
    && (forall s :: s in symbols ==> s.id == IdOf(s.file, s.qualifiedName, s.kind) && NulFree(s.kind))
    && exists s :: s in symbols && s.file == file && s.kind == "module"
  }

  predicate NulFree(s: string) {
    forall i :: 0 <= i < |s| ==> s[i] != '\0'
  }

  /** An id is that of a published declaration, and not of a module reached inside its file. */
  ghost predicate Acceptable(symbols: seq<Symbol>, contents: Contents, location: Location, id: string) {
    var offset := TargetOffset(contents, location);
    && location.file.Some?
    && exists s :: Innermost(symbols, location.file.value, offset, s) && s.id == id
        && (s.kind == "module" ==> offset == 0)
  }

  /** The kind can be read off the id. */
  lemma SameKind(a: Symbol, b: Symbol)
    requires a.id == b.id && NulFree(a.kind) && NulFree(b.kind)
    requires a.id == IdOf(a.file, a.qualifiedName, a.kind) && b.id == IdOf(b.file, b.qualifiedName, b.kind)
    ensures a.kind == b.kind
  {
    var m, n := |a.kind|, |b.kind|;
    assert a.id[|a.id| - m..] == a.kind && b.id[|b.id| - n..] == b.kind;
    assert a.id[|a.id| - m - 1] == '\0' && b.id[|b.id| - n - 1] == '\0';
  }

  ghost predicate InsideModule(symbols: seq<Symbol>, contents: Contents, location: Location) {
    var offset := TargetOffset(contents, location);
    && location.file.Some? && offset > 0
    && exists s :: Innermost(symbols, location.file.value, offset, s) && s.kind == "module"
  }

  ghost predicate Uncovered(symbols: seq<Symbol>, contents: Contents, location: Location) {
    location.file.None? || forall s :: s in symbols ==>
      !Covers(s, location.file.value, TargetOffset(contents, location))
  }

  lemma IdFound(symbols: seq<Symbol>, location: Location, offset: nat, file: string) returns (s: Symbol)
    requires Indexed(symbols, file) && TargetAt(symbols, location.file, offset) != ""
    ensures location.file.Some? && Innermost(symbols, location.file.value, offset, s)
    ensures s.id == TargetAt(symbols, location.file, offset)
    ensures ById(symbols, s.id).Some? && ById(symbols, s.id).value.id == s.id
            && ById(symbols, s.id).value.kind == s.kind
  {
    TargetIsInnermost(symbols, location.file, offset);
    s :| Innermost(symbols, location.file.value, offset, s) && s.id == TargetAt(symbols, location.file, offset);
    SameKind(s, ById(symbols, s.id).value);
  }

  /** A target is the innermost declaration at the first location the server returns, and
      never a module reached inside its file; there is none only when nothing is there, or
      when a module is innermost inside its file. */
  lemma DefinitionResolves(symbols: seq<Symbol>, contents: Contents, locations: seq<Location>, file: string)
    requires Indexed(symbols, file)
    ensures var (target, path) := DefinitionTarget(symbols, contents, locations);
      && (target != "" ==> locations != [] && Acceptable(symbols, contents, locations[0], target))
      && (target == "" && locations != [] ==>
            (Uncovered(symbols, contents, locations[0]) || InsideModule(symbols, contents, locations[0])))
      && path == if locations == [] then "" else locations[0].path
  {
    if locations != [] {
      var location := locations[0];
      var offset := TargetOffset(contents, location);
      if TargetAt(symbols, location.file, offset) == "" {
        TargetIsInnermost(symbols, location.file, offset);
        assert ById(symbols, "").None?;
      } else {
        var s := IdFound(symbols, location, offset, file);
      }
    }
  }

  /** The kind of a reference is settled by the kind of the name's parent, the field the name
      stands in and whether the target is a function. */
  lemma KindsExactly(tree: Tree, node: Path, toFunction: bool)
    requires IsNode(tree, node) && node != []
    ensures IsNode(tree, ParentOf(node)) && node[|node| - 1] < |At(tree, ParentOf(node)).children|
    ensures var parent := At(tree, ParentOf(node));
      var kind, field := ReferenceKind(RoleOf(tree, node), toFunction), parent.children[node[|node| - 1]].field;
      && (kind == "CALLS_DIRECT" <==> parent.kind == CallNode && field == Func)
      && (kind == "EXTENDS" <==> parent.kind == ClassNode && field == Bases)
      && (kind == "RETURNS_FUNCTION" <==> parent.kind == ReturnNode && toFunction)
      && (kind == "TYPE_USES" <==>
            || ((parent.kind == AnnAssignNode || parent.kind == ArgNode) && field == Annotation)
            || (parent.kind == FunctionNode && field == Returns))
      && (kind == "ASSIGNS_FUNCTION" <==>
            && toFunction
            && (parent.kind == AssignNode || parent.kind == NamedExprNode
                || (parent.kind == AnnAssignNode && field != Annotation)))
      && (kind == "PASSES_AS_CALLBACK" <==> parent.kind == CallNode && field == Args && toFunction)
  {
    RoleExactly(tree, node);
  }

  /** Every reference joins two different published declarations: its source is the
      innermost one around the occurrence, or the file's module where nothing is. */
  lemma ReferenceSound(symbols: seq<Symbol>, contents: Contents, file: string, occurrence: Occurrence)
    requires Indexed(symbols, file)
    ensures Resolve(symbols, contents, file, occurrence).Refers? ==>
      var r := Resolve(symbols, contents, file, occurrence).reference;
      && r.sourceId != r.targetId
      && r.kind == ReferenceKind(occurrence.role, IsFunction(symbols, r.targetId))
      && occurrence.locations != [] && Acceptable(symbols, contents, occurrence.locations[0], r.targetId)
      && OwnedBy(symbols, file, occurrence.start, r.sourceId)
  {
    DefinitionResolves(symbols, contents, occurrence.locations, file);
    SourceOwns(symbols, file, occurrence.start);
  }

  /** The declaration an occurrence belongs to. */
  ghost predicate OwnedBy(symbols: seq<Symbol>, file: string, start: nat, id: string) {
    || (exists s :: Innermost(symbols, file, start, s) && s.id == id)
    || ((forall s :: s in symbols ==> !Covers(s, file, start))
        && exists s :: s in symbols && s.file == file && s.kind == "module" && s.id == id)
  }

  lemma {:induction false} ModuleIdFound(symbols: seq<Symbol>, file: string)
    requires exists s :: s in symbols && s.file == file && s.kind == "module"
    ensures exists s :: s in symbols && s.file == file && s.kind == "module" && s.id == ModuleIdOf(symbols, file)
  {
    if !(symbols[0].file == file && symbols[0].kind == "module") {
      var s :| s in symbols && s.file == file && s.kind == "module";
      assert s in symbols[1..];
      ModuleIdFound(symbols[1..], file);
      var t :| t in symbols[1..] && t.file == file && t.kind == "module" && t.id == ModuleIdOf(symbols[1..], file);
      assert t in symbols;
    }
  }

  lemma SourceOwns(symbols: seq<Symbol>, file: string, start: nat)
    requires Indexed(symbols, file)
    ensures OwnedBy(symbols, file, start, SourceOf(symbols, file, start))
  {
    TargetIsInnermost(symbols, Some(file), start);
    ModuleIdFound(symbols, file);
  }

  /** An occurrence without a target is not dropped: its row names its owner, and the reason
      says whether the server named a place at all. */
  lemma FailureSound(symbols: seq<Symbol>, contents: Contents, file: string, occurrence: Occurrence)
    requires Indexed(symbols, file)
    ensures var outcome := Resolve(symbols, contents, file, occurrence);
      && (outcome.Fails? <==> DefinitionTarget(symbols, contents, occurrence.locations).0 == "")
      && (outcome.Fails? ==> OwnedBy(symbols, file, occurrence.start, outcome.row.sourceId))
      && (outcome.Fails? ==>
            (outcome.row.reason == TargetNotIndexed <==>
               occurrence.locations != [] && occurrence.locations[0].path != ""))
  {
    SourceOwns(symbols, file, occurrence.start);
  }

  // ---- All files ----

  function Joined(a: Emission, b: Emission): Emission {
    Emission(a.references + b.references, a.unresolved + b.unresolved)
  }

  /** The files' rows, one file after the other. */
  function AllEmission(symbols: seq<Symbol>, contents: Contents, files: seq<ParsedFile>,
                       orders: seq<seq<Path>>): Emission
    requires |files| == |orders|
  {
    if files == [] then Emission([], [])
    else
      var n := |files| - 1;
      Joined(AllEmission(symbols, contents, files[..n], orders[..n]),
             FileEmission(symbols, contents, files[n], orders[n]))
  }

  ghost predicate WalkedAll(files: seq<ParsedFile>, orders: seq<seq<Path>>) {
    |files| == |orders| && forall k :: 0 <= k < |files| ==> WalkedFile(files[k], orders[k])
  }

  ghost function AllOwed(files: seq<ParsedFile>): nat {
    if files == [] then 0 else AllOwed(files[..|files| - 1]) + Owed(files[|files| - 1])
  }

  ghost function AllDropped(symbols: seq<Symbol>, contents: Contents, files: seq<ParsedFile>): nat {
    if files == [] then 0
    else AllDropped(symbols, contents, files[..|files| - 1]) + DroppedOf(symbols, contents, files[|files| - 1])
  }

  lemma FileAccounted(symbols: seq<Symbol>, contents: Contents, file: ParsedFile, order: seq<Path>)
    requires WalkedFile(file, order)
    ensures Rows(FileEmission(symbols, contents, file, order)) + DroppedOf(symbols, contents, file) == Owed(file)
  {
    if file.parsed.Some? {
      NoneLost(symbols, contents, file.relative, file.parsed.value, order, file.answers);
    }
  }

  /** Over all files nothing that is read is lost or counted twice. */
  lemma {:induction false} AllAccounted(symbols: seq<Symbol>, contents: Contents, files: seq<ParsedFile>,
                                        orders: seq<seq<Path>>)
    requires WalkedAll(files, orders)
    ensures Rows(AllEmission(symbols, contents, files, orders)) + AllDropped(symbols, contents, files) == AllOwed(files)
  {
    if files != [] {
      var n := |files| - 1;
      FileAccounted(symbols, contents, files[n], orders[n]);
      AllAccounted(symbols, contents, files[..n], orders[..n]);
    }
  }

  /** No file that parses has a plain import. */
  ghost predicate Unbroken(files: seq<ParsedFile>) {
    forall file :: file in files ==> !Breaks(file)
  }

  lemma UnbrokenNext(files: seq<ParsedFile>, k: nat)
    requires k < |files| && Unbroken(files[..k]) && !Breaks(files[k])
    ensures Unbroken(files[..k + 1])
  {
    assert forall file :: file in files[..k + 1] ==> file in files[..k] || file == files[k];
  }

  lemma BrokenAt(files: seq<ParsedFile>, k: nat)
    requires k < |files| && Breaks(files[k])
    ensures !Unbroken(files)
  {}

  lemma AllNext(symbols: seq<Symbol>, contents: Contents, files: seq<ParsedFile>, k: nat, orders: seq<seq<Path>>,
                order: seq<Path>)
    requires k < |files| && k == |orders|
    ensures AllEmission(symbols, contents, files[..k + 1], orders + [order])
            == Joined(AllEmission(symbols, contents, files[..k], orders),
                      FileEmission(symbols, contents, files[k], order))
  {
    assert files[..k + 1][..k] == files[..k] && (orders + [order])[..k] == orders;
  }

  /** The first `k` files are done. */
  ghost predicate Emitting(symbols: seq<Symbol>, contents: Contents, files: seq<ParsedFile>, k: nat,
                           orders: seq<seq<Path>>, all: Emission)
    requires k <= |files|
  {
    && Unbroken(files[..k])
    && WalkedAll(files[..k], orders)
    && all == AllEmission(symbols, contents, files[..k], orders)
  }

  lemma EmittingNext(symbols: seq<Symbol>, contents: Contents, files: seq<ParsedFile>, k: nat,
                     orders: seq<seq<Path>>, all: Emission, order: seq<Path>)
    requires k < |files| && Emitting(symbols, contents, files, k, orders, all)
    requires !Breaks(files[k]) && WalkedFile(files[k], order)
    ensures Emitting(symbols, contents, files, k + 1, orders + [order],
                     Joined(all, FileEmission(symbols, contents, files[k], order)))
  {
    assert Unbroken(files[..k + 1]) by {
      UnbrokenNext(files, k);
    }
    AllNext(symbols, contents, files, k, orders, order);
  }

  /** The worker's loop over the files. A single plain import in any file that parses leaves
      no output for any of them; without one, no occurrence of any file is lost. */
  method EmitFiles(symbols: seq<Symbol>, contents: Contents, files: seq<ParsedFile>)
    returns (emitted: Result<Emission, WorkerError>, ghost orders: seq<seq<Path>>)
    ensures emitted.Ok? <==> Unbroken(files)
    ensures emitted.Ok? ==> WalkedAll(files, orders)
    ensures emitted.Ok? ==> emitted.value == AllEmission(symbols, contents, files, orders)
    ensures emitted.Ok? ==> Rows(emitted.value) + AllDropped(symbols, contents, files) == AllOwed(files)
  {
    var all := Emission([], []);
    orders := [];
    for k := 0 to |files|
      invariant Emitting(symbols, contents, files, k, orders, all)
    {
      var one, order := EmitFile(symbols, contents, files[k]);
      if one.Err? {
        BrokenAt(files, k);
        return Err(one.error), [];
      }
      EmittingNext(symbols, contents, files, k, orders, all, order);
      all := Joined(all, one.value);
      orders := orders + [order];
    }
    assert files[..|files|] == files;
    AllAccounted(symbols, contents, files, orders);
    return Ok(all), orders;
  }

  // ---- The index the worker builds ----

  method BuildIndex(sources: seq<Source>, rows: seq<seq<Row>>) returns (index: Index)
    requires |sources| == |rows|
    ensures fresh(index) && index.symbols == AllSymbols(sources, rows)
  {
    index := new Index();
    for i := 0 to |sources|
      invariant fresh(index) && index.symbols == AllSymbols(sources[..i], rows[..i])
    {
      assert sources[..i + 1][..i] == sources[..i] && rows[..i + 1][..i] == rows[..i];
      index.AddFile(sources[i], rows[i]);
    }
    assert sources[..|sources|] == sources && rows[..|rows|] == rows;
  }

  function AllSymbols(sources: seq<Source>, rows: seq<seq<Row>>): seq<Symbol>
    requires |sources| == |rows|
  {
    if sources == [] then []
    else
      var n := |sources| - 1;
      AllSymbols(sources[..n], rows[..n]) + FileSymbols(sources[n], rows[n])
  }

  lemma KindsNulFree()
    ensures NulFree("module") && NulFree("namespace") && NulFree("class") && NulFree("method") && NulFree("property")
    ensures NulFree("field") && NulFree("constructor") && NulFree("enum") && NulFree("interface") && NulFree("function")
    ensures NulFree("variable") && NulFree("constant") && NulFree("enum_member") && NulFree("struct")
    ensures NulFree("type_parameter") && NulFree("symbol")
  {}

  lemma {:induction false} PublishedIds(source: Source, rows: seq<Row>, prefix: string, inside: bool, s: Symbol)
    requires s in Published(source, rows, prefix, inside)
    ensures s.id == IdOf(s.file, s.qualifiedName, s.kind) && NulFree(s.kind)
  {
    var chain := PublishedHasChain(source, rows, prefix, inside, s);
    KindsNulFree();
    assert NulFree(KindOf(chain[|chain| - 1]));
  }

  /** The index the worker builds is one in which every file's occurrences can be resolved. */
  lemma {:induction false} BuiltIsIndexed(sources: seq<Source>, rows: seq<seq<Row>>, k: nat)
    requires |sources| == |rows| && k < |sources|
    ensures Indexed(AllSymbols(sources, rows), sources[k].relative)
  {
    var all := AllSymbols(sources, rows);
    AllIds(sources, rows);
    ModuleIn(sources, rows, k);
    assert ModuleSymbol(sources[k]).kind == "module";
  }

  lemma {:induction false} AllIds(sources: seq<Source>, rows: seq<seq<Row>>)
    requires |sources| == |rows|
    ensures forall s :: s in AllSymbols(sources, rows) ==>
      s.id == IdOf(s.file, s.qualifiedName, s.kind) && NulFree(s.kind)
  {
    if sources != [] {
      var n := |sources| - 1;
      AllIds(sources[..n], rows[..n]);
      forall s | s in Published(sources[n], rows[n], sources[n].moduleName, false)
        ensures s.id == IdOf(s.file, s.qualifiedName, s.kind) && NulFree(s.kind)
      {
        PublishedIds(sources[n], rows[n], sources[n].moduleName, false, s);
      }
    }
  }

  lemma {:induction false} ModuleIn(sources: seq<Source>, rows: seq<seq<Row>>, k: nat)
    requires |sources| == |rows| && k < |sources|
    ensures ModuleSymbol(sources[k]) in AllSymbols(sources, rows)
    decreases |sources|
  {
    var n := |sources| - 1;
    if k < n {
      ModuleIn(sources[..n], rows[..n], k);
    } else {
      assert FileSymbols(sources[n], rows[n])[0] == ModuleSymbol(sources[n]);
    }
  }
}
