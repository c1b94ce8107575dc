/** A Python syntax tree as far as the worker looks at it: which nodes it walks, in what
    order, and what the place of a name in the tree makes of the reference. */
module SyntaxTrees {
  import opened Ordering

  /** A name or attribute is read where its context is `Load`. `ImportNode` is a plain
      `import`, not one `from` a module. */
  datatype Kind =
    | NameNode(id: string, load: bool) | AttributeNode(attr: string, load: bool)
    | CallNode | ClassNode | FunctionNode | ArgumentsNode | ArgNode | ReturnNode
    | AssignNode | AnnAssignNode | NamedExprNode | ImportNode | OtherNode

  /** The field of its parent that a node stands in; `Parameter` is any of the five that hold
      a function's parameters. */
  datatype Field = Func | Args | Bases | Annotation | Returns | Arguments | Parameter | OtherField

  datatype Child = Child(field: Field, tree: Tree)

  /** `start` is where the occurrence of a name or attribute starts. */
  datatype Tree = Tree(kind: Kind, start: nat, children: seq<Child>)

  /** A node's identity: the way to it from the root. */
  type Path = seq<nat>

  predicate IsNode(root: Tree, path: Path) {
    path == [] || (path[0] < |root.children| && IsNode(root.children[path[0]].tree, path[1..]))
  }

  function At(root: Tree, path: Path): Tree
    requires IsNode(root, path)
  {
    if path == [] then root else At(root.children[path[0]].tree, path[1..])
  }

  /** Some statement of the file is a plain import. */
  ghost predicate Imports(root: Tree) {
    exists path :: IsNode(root, path) && At(root, path).kind.ImportNode?
  }

  function ParentOf(path: Path): Path
    requires path != []
  {
    path[..|path| - 1]
  }

  lemma {:induction false} ChildIsNode(root: Tree, path: Path, i: nat)
    requires IsNode(root, path)
    ensures IsNode(root, path + [i]) <==> i < |At(root, path).children|
    ensures i < |At(root, path).children| ==> At(root, path + [i]) == At(root, path).children[i].tree
  {
    if path == [] {
      assert [i][1..] == [] && path + [i] == [i];
    } else {
      assert (path + [i])[1..] == path[1..] + [i];
      ChildIsNode(root.children[path[0]].tree, path[1..], i);
    }
  }

  lemma {:induction false} ParentIsNode(root: Tree, path: Path)
    requires IsNode(root, path) && path != []
    ensures IsNode(root, ParentOf(path)) && path[|path| - 1] < |At(root, ParentOf(path)).children|
  {
    if |path| > 1 {
      assert ParentOf(path)[1..] == ParentOf(path[1..]);
      ParentIsNode(root.children[path[0]].tree, path[1..]);
    }
  }

  // ---- What the place of a name makes of it ----

  datatype Role = CalledBy | BaseOf | ReturnedBy | TypePosition | AssignedBy | ArgumentOf | OtherRole

  /** `tree.field is node`, or `node in tree.field`, for the node `tree` at `at`. */
  predicate StandsIn(tree: Tree, at: Path, field: Field, node: Path) {
    exists i :: 0 <= i < |tree.children| && tree.children[i].field == field && at + [i] == node
  }

  /** `node` is the annotation of a parameter of the function `tree`. */
  predicate AnnotatesParameter(tree: Tree, at: Path, node: Path) {
    exists i, j ::
      && 0 <= i < |tree.children| && tree.children[i].field == Arguments
      && 0 <= j < |tree.children[i].tree.children| && tree.children[i].tree.children[j].field == Parameter
      && StandsIn(tree.children[i].tree.children[j].tree, at + [i] + [j], Annotation, node)
  }

  /** `is_type_position`, given the node's parent. */
  predicate IsTypePosition(parent: Tree, at: Path, node: Path) {
    if (parent.kind.AnnAssignNode? || parent.kind.ArgNode?) && StandsIn(parent, at, Annotation, node) then true
    else if parent.kind.FunctionNode?
        && (StandsIn(parent, at, Returns, node) || AnnotatesParameter(parent, at, node)) then true
    else if parent.kind.ClassNode? && StandsIn(parent, at, Bases, node) then true
    else false
  }

  /** The chain of questions in the order the worker asks them. */
  function RoleOf(root: Tree, node: Path): Role
    requires IsNode(root, node)
  {
    if node == [] then OtherRole
    else
      ParentIsNode(root, node);
      var at := ParentOf(node);
      var parent := At(root, at);
      if parent.kind.CallNode? && StandsIn(parent, at, Func, node) then CalledBy
      else if parent.kind.ClassNode? && StandsIn(parent, at, Bases, node) then BaseOf
      else if parent.kind.ReturnNode? then ReturnedBy
      else if IsTypePosition(parent, at, node) then TypePosition
      else if parent.kind.AssignNode? || parent.kind.AnnAssignNode? || parent.kind.NamedExprNode? then AssignedBy
      else if parent.kind.CallNode? && StandsIn(parent, at, Args, node) then ArgumentOf
      else OtherRole
  }

  lemma StandsInOnce(root: Tree, node: Path, field: Field)
    requires IsNode(root, node) && node != []
    ensures IsNode(root, ParentOf(node)) && node[|node| - 1] < |At(root, ParentOf(node)).children|
    ensures StandsIn(At(root, ParentOf(node)), ParentOf(node), field, node)
            <==> At(root, ParentOf(node)).children[node[|node| - 1]].field == field
  {
    ParentIsNode(root, node);
    var at, last := ParentOf(node), node[|node| - 1];
    assert at + [last] == node;
    forall i: nat | at + [i] == node ensures i == last {
      assert (at + [i])[|at|] == i;
    }
  }

  /** A parameter's annotation is not the function's own child, so asking the function for
      its parameters' annotations never finds a node whose parent it is. */
  lemma NoParameterAnnotation(tree: Tree, node: Path)
    requires node != []
    ensures !AnnotatesParameter(tree, ParentOf(node), node)
  {
    var at := ParentOf(node);
    forall i, j, k ensures at + [i] + [j] + [k] != node {
      assert |at + [i] + [j] + [k]| == |node| + 2;
    }
  }

  /** The order of the questions decides nothing beyond this: the role of a name is settled
      by the kind of its parent and the field it stands in. A base is never a type position,
      and a parameter's annotation is one through the parameter alone. */
  lemma RoleExactly(root: Tree, node: Path)
    requires IsNode(root, node) && node != []
    ensures IsNode(root, ParentOf(node)) && node[|node| - 1] < |At(root, ParentOf(node)).children|
    ensures var parent := At(root, ParentOf(node));
      var role, kind, field := RoleOf(root, node), parent.kind, parent.children[node[|node| - 1]].field;
      && (role == CalledBy <==> kind == CallNode && field == Func)
      && (role == BaseOf <==> kind == ClassNode && field == Bases)
      && (role == ReturnedBy <==> kind == ReturnNode)
      && (role == TypePosition <==>
            || ((kind == AnnAssignNode || kind == ArgNode) && field == Annotation)
            || (kind == FunctionNode && field == Returns))
      && (role == AssignedBy <==>
            kind == AssignNode || kind == NamedExprNode || (kind == AnnAssignNode && field != Annotation))
      && (role == ArgumentOf <==> kind == CallNode && field == Args)
  {
    StandsInOnce(root, node, Func);
    StandsInOnce(root, node, Bases);
    StandsInOnce(root, node, Args);
    TypePositionExactly(root, node);
    var at := ParentOf(node);
    var parent := At(root, at);
    var kind, field := parent.kind, parent.children[node[|node| - 1]].field;
    assert RoleOf(root, node) ==
      if kind.CallNode? && field == Func then CalledBy
      else if kind.ClassNode? && field == Bases then BaseOf
      else if kind.ReturnNode? then ReturnedBy
      else if IsTypePosition(parent, at, node) then TypePosition
      else if kind.AssignNode? || kind.AnnAssignNode? || kind.NamedExprNode? then AssignedBy
      else if kind.CallNode? && field == Args then ArgumentOf
      else OtherRole;
  }

  lemma TypePositionExactly(root: Tree, node: Path)
    requires IsNode(root, node) && node != []
    ensures IsNode(root, ParentOf(node)) && node[|node| - 1] < |At(root, ParentOf(node)).children|
    ensures var parent := At(root, ParentOf(node));
      var kind, field := parent.kind, parent.children[node[|node| - 1]].field;
      IsTypePosition(parent, ParentOf(node), node) <==>
        || ((kind.AnnAssignNode? || kind.ArgNode?) && field == Annotation)
        || (kind.FunctionNode? && field == Returns)
        || (kind.ClassNode? && field == Bases)
  {
    StandsInOnce(root, node, Bases);
    StandsInOnce(root, node, Annotation);
    StandsInOnce(root, node, Returns);
    NoParameterAnnotation(At(root, ParentOf(node)), node);
  }

  // ---- The walk ----

  /** Level by level, and in each level from left to right. */
  predicate Before(p: Path, q: Path) {
    |p| < |q| || (|p| == |q| && LeftOf(p, q))
  }

  predicate LeftOf(p: Path, q: Path)
    requires |p| == |q|
  {
    p != [] && (p[0] < q[0] || (p[0] == q[0] && LeftOf(p[1..], q[1..])))
  }

  /** Every node once, level by level. */
  ghost predicate Walked(root: Tree, order: seq<Path>) {
    && (forall p :: p in order <==> IsNode(root, p))
    && (forall i, j :: 0 <= i < j < |order| ==> Before(order[i], order[j]))
  }

  lemma {:induction false} LeftOfLess(p: Path, q: Path)
    requires |p| == |q|
    ensures LeftOf(p, q) ==> p != q
  {
    if p != [] { LeftOfLess(p[1..], q[1..]); }
  }

  lemma {:induction false} LeftOfChildren(p: Path, i: nat, q: Path, j: nat)
    requires |p| == |q| && (LeftOf(p, q) || (p == q && i < j))
    ensures LeftOf(p + [i], q + [j])
  {
    if p != [] {
      assert (p + [i])[1..] == p[1..] + [i] && (q + [j])[1..] == q[1..] + [j];
      if p[0] == q[0] {
        LeftOfChildren(p[1..], i, q[1..], j);
      }
    } else {
      assert p + [i] == [i] && q + [j] == [j];
    }
  }

  /** The finitely many nodes of a tree. */
  ghost function Nodes(root: Tree): set<Path> {
    {[]} + set i, p | 0 <= i < |root.children| && p in Nodes(root.children[i].tree) :: [i] + p
  }

  lemma {:induction false} NodesExactly(root: Tree, path: Path)
    ensures path in Nodes(root) <==> IsNode(root, path)
    decreases root
  {
    if path != [] {
      var i, rest := path[0], path[1..];
      assert path == [i] + rest;
      if i < |root.children| {
        NodesExactly(root.children[i].tree, rest);
      }
      forall j: nat, p: Path | [j] + p == path ensures j == i && p == rest {
        assert ([j] + p)[0] == j && ([j] + p)[1..] == p;
      }
    }
  }

  function ChildPaths(root: Tree, path: Path): seq<Path>
    requires IsNode(root, path)
  {
    seq(|At(root, path).children|, i requires 0 <= i => path + [i])
  }

  /** The walk has yielded `visited` and has `todo` before it. */
  ghost predicate Walking(root: Tree, visited: seq<Path>, todo: seq<Path>) {
    var all := visited + todo;
    && [] in all
    && (forall p :: p in all ==> IsNode(root, p))
    && (forall i, j :: 0 <= i < j < |all| ==> Before(all[i], all[j]))
    && (forall p :: p in all && p != [] ==> ParentOf(p) in visited)
    && (forall p, i: nat :: p in visited && IsNode(root, p + [i]) ==> p + [i] in all)
  }

  lemma ChildPathsAre(root: Tree, path: Path)
    requires IsNode(root, path)
    ensures forall i: nat :: IsNode(root, path + [i]) <==> i < |ChildPaths(root, path)|
    ensures forall p :: p in ChildPaths(root, path) ==> IsNode(root, p) && p != [] && ParentOf(p) == path
  {
    forall i: nat ensures IsNode(root, path + [i]) <==> i < |ChildPaths(root, path)| {
      ChildIsNode(root, path, i);
    }
    forall i: nat ensures ParentOf(path + [i]) == path {
      assert (path + [i])[..|path|] == path;
    }
  }

  /** Children of a node come behind everything whose parent came before that node. */
  lemma ChildBehind(p: Path, node: Path, j: nat)
    requires p == [] || Before(ParentOf(p), node)
    ensures Before(p, node + [j])
  {
    if p != [] && |p| == |node| + 1 {
      var last := p[|p| - 1];
      assert p == ParentOf(p) + [last];
      LeftOfChildren(ParentOf(p), last, node, j);
    }
  }

  lemma SiblingsInOrder(node: Path, i: nat, j: nat)
    requires i < j
    ensures Before(node + [i], node + [j])
  {
    LeftOfChildren(node, i, node, j);
  }

  lemma StillOrdered(root: Tree, visited: seq<Path>, todo: seq<Path>)
    requires Walking(root, visited, todo) && todo != []
    ensures var all := visited + todo + ChildPaths(root, todo[0]);
      forall i, j :: 0 <= i < j < |all| ==> Before(all[i], all[j])
  {
    var known, kids := visited + todo, ChildPaths(root, todo[0]);
    assert known[|visited|] == todo[0];
    forall i, j: nat | 0 <= i < |known| && j < |kids| ensures Before(known[i], kids[j]) {
      var p := known[i];
      assert p in known;
      if p != [] {
        var k :| 0 <= k < |visited| && visited[k] == ParentOf(p);
        assert known[k] == visited[k];
      }
      ChildBehind(p, todo[0], j);
    }
    forall i, j | 0 <= i < j < |kids| ensures Before(kids[i], kids[j]) {
      SiblingsInOrder(todo[0], i, j);
    }
  }

  lemma WalkStep(root: Tree, visited: seq<Path>, todo: seq<Path>)
    requires Walking(root, visited, todo) && todo != []
    ensures Walking(root, visited + [todo[0]], todo[1..] + ChildPaths(root, todo[0]))
  {
    var node := todo[0];
    var kids := ChildPaths(root, node);
    var seen, all := visited + [node], visited + todo + kids;
    assert seen + (todo[1..] + kids) == all;
    StillOrdered(root, visited, todo);
    ChildPathsAre(root, node);
    forall p | p in all && p != [] ensures ParentOf(p) in seen {
      assert p in visited + todo || p in kids;
    }
    forall p, i: nat | p in seen && IsNode(root, p + [i]) ensures p + [i] in all {
      if p == node {
        assert kids[i] == p + [i];
      } else {
        assert p + [i] in visited + todo;
      }
    }
  }

  lemma {:induction false} AllVisited(root: Tree, visited: seq<Path>, path: Path)
    requires [] in visited && forall p, i: nat :: p in visited && IsNode(root, p + [i]) ==> p + [i] in visited
    requires IsNode(root, path)
    ensures path in visited
    decreases |path|
  {
    if path != [] {
      var parent, last := ParentOf(path), path[|path| - 1];
      ParentIsNode(root, path);
      AllVisited(root, visited, parent);
      assert path == parent + [last];
      assert IsNode(root, parent + [last]);
    }
  }

  lemma OrderedDistinct(order: seq<Path>)
    requires forall i, j :: 0 <= i < j < |order| ==> Before(order[i], order[j])
    ensures Distinct(order)
  {
    forall i, j | 0 <= i < j < |order| ensures order[i] != order[j] {
      if |order[i]| == |order[j]| {
        LeftOfLess(order[i], order[j]);
      }
    }
  }

  lemma WalkFits(root: Tree, visited: seq<Path>, todo: seq<Path>)
    requires Walking(root, visited, todo)
    ensures |visited| + |todo| <= |Nodes(root)|
  {
    var all := visited + todo;
    OrderedDistinct(all);
    forall p | p in all ensures p in Nodes(root) {
      NodesExactly(root, p);
    }
    DistinctFits(all, Nodes(root));
  }

  /** `ast.walk`: a queue that starts with the root. */
  method Walk(root: Tree) returns (order: seq<Path>)
    ensures Walked(root, order)
  {
    order := [];
    var todo: seq<Path> := [[]];
    while todo != []
      invariant Walking(root, order, todo)
      decreases |Nodes(root)| - |order|
    {
      WalkFits(root, order, todo);
      WalkStep(root, order, todo);
      var node := todo[0];
      todo := todo[1..] + ChildPaths(root, node);
      order := order + [node];
    }
    assert order + [] == order;
    forall p | IsNode(root, p) ensures p in order {
      AllVisited(root, order, p);
    }
  }
}
