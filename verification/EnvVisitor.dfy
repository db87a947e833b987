/**
 The tree visitor of the environment inventory (backend/scripts/env_inventory.py).
 */
module EnvVisitor {
  import opened Outcomes

  /** What the visitor looks at in an expression: attribute chains and names. */
  datatype Ref = Attribute(attr: string, value: Ref) | Name(id: string) | Elsewhere

  /** The kinds of node the visitor tells apart; strings are the ones that are literals in the code. */
  datatype Shape =
    | Definition                                    // def, async def or lambda
    | Assign(target: Option<string>)                // the name, when it is the only target
    | Call(func: Ref, first: Option<string>)
    | Subscript(value: Ref, index: Option<string>)
    | Plain

  /**
   A syntax tree. `id` is the identity of the object: the expression contexts and operators of a
   tree are shared objects without children, so only theirs may repeat.
   */
  datatype Tree = Shared(id: nat) | Node(id: nat, line: nat, shape: Shape, children: seq<Tree>)

  datatype Style = EnvironGet | Getenv | EnvironIndex | Helper

  datatype Aliases = Aliases(environ: set<string>, getenv: set<string>)

  datatype Target = Target(name: string, id: nat, line: nat)

  datatype EnvRead = EnvRead(name: string, line: nat, style: Style, node: nat, assignment: Option<Target>,
                             moduleScope: bool)

  // ---------------------------------------------------------------- which nodes are reads

  const ENV_HELPER := "_non_negative_int_env"

  predicate IsUpper(c: char) { 'A' <= c <= 'Z' }

  /** `[A-Z][A-Z0-9_]*`, in full. */
  predicate IsVarName(s: string) {
    && s != "" && IsUpper(s[0])
    && forall i | 0 <= i < |s| :: IsUpper(s[i]) || '0' <= s[i] <= '9' || s[i] == '_'
  }

  predicate IsEnviron(r: Ref, aliases: Aliases) {
    (r.Attribute? && r.attr == "environ") || (r.Name? && r.id in aliases.environ)
  }

  /** The name and style of the read that the node itself is, if it is one. */
  function Recognised(s: Shape, aliases: Aliases): Option<(string, Style)> {
    match s
    case Call(func, first) =>
      if first.None? then None
      else if func.Attribute? then
        if !IsVarName(first.value) then None
        else if func.attr == "get" && IsEnviron(func.value, aliases) then Some((first.value, EnvironGet))
        else if func.attr == "getenv" then Some((first.value, Getenv))
        else None
      else if func.Name? then
        if IsVarName(first.value) && func.id in aliases.getenv then Some((first.value, Getenv))
        else if func.id == ENV_HELPER then Some((first.value, Helper))
        else None
      else None
    case Subscript(value, index) =>
      if IsEnviron(value, aliases) && index.Some? && IsVarName(index.value) then Some((index.value, EnvironIndex))
      else None
    case _ => None
  }

  /** The four ways to write a read: `environ.get("X")`, `getenv("X")`, the helper, and `environ["X"]`. */
  predicate IsReadOf(s: Shape, aliases: Aliases, name: string, style: Style) {
    match style
    case EnvironGet =>
      s.Call? && s.first == Some(name) && IsVarName(name)
      && s.func.Attribute? && s.func.attr == "get" && IsEnviron(s.func.value, aliases)
    case Getenv =>
      s.Call? && s.first == Some(name) && IsVarName(name)
      && ((s.func.Attribute? && s.func.attr == "getenv") || (s.func.Name? && s.func.id in aliases.getenv))
    case Helper =>
      s.Call? && s.first == Some(name) && s.func == Name(ENV_HELPER)
          && !(IsVarName(name) && ENV_HELPER in aliases.getenv)
    case EnvironIndex => s.Subscript? && s.index == Some(name) && IsVarName(name) && IsEnviron(s.value, aliases)
  }

  lemma {:induction false} RecognisedIff(s: Shape, aliases: Aliases, name: string, style: Style)
    ensures Recognised(s, aliases) == Some((name, style)) <==> IsReadOf(s, aliases, name, style)
  {
    assert "get" != "getenv" by { assert |"get"| == 3 && |"getenv"| == 6; }
  }

  // ---------------------------------------------------------------- identities

  /** The identities of the nodes of a tree, shared ones left out. */
  function Core(t: Tree): set<nat>
    decreases t, 0
  {
    if t.Shared? then {} else {t.id} + CoreOf(t.children)
  }

  function CoreOf(ts: seq<Tree>): (r: set<nat>)
    ensures forall i | 0 <= i < |ts| :: Core(ts[i]) <= r
    decreases ts, 1
  {
    if ts == [] then {} else
      assert forall i | 1 <= i < |ts| :: ts[1..][i - 1] == ts[i];
      Core(ts[0]) + CoreOf(ts[1..])
  }

  function SharedIn(t: Tree): set<nat>
    decreases t, 0
  {
    if t.Shared? then {t.id} else SharedInAny(t.children)
  }

  function SharedInAny(ts: seq<Tree>): set<nat>
    decreases ts, 1
  {
    if ts == [] then {} else SharedIn(ts[0]) + SharedInAny(ts[1..])
  }

  /** No identity but a shared one occurs twice. */
  predicate Unique(t: Tree)
    decreases t, 0
  {
    t.Shared? || (t.id !in CoreOf(t.children) && UniqueAll(t.children))
  }

  predicate UniqueAll(ts: seq<Tree>)
    decreases ts, 1
  {
    ts == [] || (Unique(ts[0]) && UniqueAll(ts[1..]) && Core(ts[0]) !! CoreOf(ts[1..]))
  }

  // ---------------------------------------------------------------- the reads of a tree

  predicate InDefinition(ancestors: seq<Tree>) {
    exists i | 0 <= i < |ancestors| :: ancestors[i].Node? && ancestors[i].shape.Definition?
  }

  const MAX_HOPS: nat := 8

  /** The target of the nearest assignment among the nearest `hops` ancestors. */
  function AssignmentAbove(ancestors: seq<Tree>, hops: nat): Option<Target> {
    if ancestors == [] || hops == 0 then None
    else
      var a := ancestors[0];
      if a.Node? && a.shape.Assign? then
        if a.shape.target.Some? then Some(Target(a.shape.target.value, a.id, a.line)) else None
      else AssignmentAbove(ancestors[1..], hops - 1)
  }

  function ReadAt(t: Tree, ancestors: seq<Tree>, aliases: Aliases): seq<EnvRead>
    requires t.Node?
  {
    match Recognised(t.shape, aliases)
    case None => []
    case Some((name, style)) =>
      [EnvRead(name, t.line, style, t.id, AssignmentAbove(ancestors, MAX_HOPS), !InDefinition(ancestors))]
  }

  /** The reads of a tree below the given ancestors, nearest first. */
  function ReadsOf(t: Tree, ancestors: seq<Tree>, aliases: Aliases): seq<EnvRead>
    decreases t, 0
  {
    if t.Shared? then [] else ReadAt(t, ancestors, aliases) + ReadsOfAll(t.children, [t] + ancestors, aliases)
  }

  function ReadsOfAll(ts: seq<Tree>, ancestors: seq<Tree>, aliases: Aliases): seq<EnvRead>
    decreases ts, 1
  {
    if ts == [] then [] else ReadsOf(ts[0], ancestors, aliases) + ReadsOfAll(ts[1..], ancestors, aliases)
  }

  // ---------------------------------------------------------------- what they amount to

  function Preorder(t: Tree): seq<Tree>
    decreases t, 0
  {
    if t.Shared? then [] else [t] + PreorderAll(t.children)
  }

  function PreorderAll(ts: seq<Tree>): seq<Tree>
    decreases ts, 1
  {
    if ts == [] then [] else Preorder(ts[0]) + PreorderAll(ts[1..])
  }

  function ReadNodes(ts: seq<Tree>, aliases: Aliases): seq<nat> {
    if ts == [] then []
    else
      (if ts[0].Node? && Recognised(ts[0].shape, aliases).Some? then [ts[0].id] else []) + ReadNodes(ts[1..], aliases)
  }

  function NodesOf(rs: seq<EnvRead>): (r: seq<nat>)
    ensures |r| == |rs|
  {
    if rs == [] then [] else [rs[0].node] + NodesOf(rs[1..])
  }

  lemma {:induction false} ReadNodesJoin(a: seq<Tree>, b: seq<Tree>, aliases: Aliases)
    ensures ReadNodes(a + b, aliases) == ReadNodes(a, aliases) + ReadNodes(b, aliases)
  {
    if a == [] {
      assert a + b == b;
    } else {
      assert (a + b)[1..] == a[1..] + b;
      ReadNodesJoin(a[1..], b, aliases);
    }
  }

  lemma {:induction false} NodesOfJoin(a: seq<EnvRead>, b: seq<EnvRead>)
    ensures NodesOf(a + b) == NodesOf(a) + NodesOf(b)
  {
    if a == [] {
      assert a + b == b;
    } else {
      assert (a + b)[1..] == a[1..] + b;
      NodesOfJoin(a[1..], b);
    }
  }

  /** Every read of the tree is recorded, once, in pre-order, and nothing else is. */
  lemma {:induction false} ReadsArePreorder(t: Tree, ancestors: seq<Tree>, aliases: Aliases)
    ensures NodesOf(ReadsOf(t, ancestors, aliases)) == ReadNodes(Preorder(t), aliases)
    decreases t, 0
  {
    if t.Node? {
      ReadsOfAllArePreorder(t.children, [t] + ancestors, aliases);
      NodesOfJoin(ReadAt(t, ancestors, aliases), ReadsOfAll(t.children, [t] + ancestors, aliases));
      ReadNodesJoin([t], PreorderAll(t.children), aliases);
      assert ReadNodes([t], aliases) == NodesOf(ReadAt(t, ancestors, aliases));
    }
  }

  lemma {:induction false} ReadsOfAllArePreorder(ts: seq<Tree>, ancestors: seq<Tree>, aliases: Aliases)
    ensures NodesOf(ReadsOfAll(ts, ancestors, aliases)) == ReadNodes(PreorderAll(ts), aliases)
    decreases ts, 1
  {
    if ts != [] {
      ReadsArePreorder(ts[0], ancestors, aliases);
      ReadsOfAllArePreorder(ts[1..], ancestors, aliases);
      NodesOfJoin(ReadsOf(ts[0], ancestors, aliases), ReadsOfAll(ts[1..], ancestors, aliases));
      ReadNodesJoin(Preorder(ts[0]), PreorderAll(ts[1..]), aliases);
    }
  }

  /** The identities of the nodes that sit inside some function or lambda of the tree. */
  function Inside(t: Tree): set<nat>
    decreases t, 0
  {
    if t.Shared? then {} else if t.shape.Definition? then CoreOf(t.children) else InsideAny(t.children)
  }

  function InsideAny(ts: seq<Tree>): set<nat>
    decreases ts, 1
  {
    if ts == [] then {} else Inside(ts[0]) + InsideAny(ts[1..])
  }

  lemma {:induction false} InsideIsCore(t: Tree)
    ensures Inside(t) <= Core(t)
    decreases t, 0
  {
    if t.Node? {
      InsideAnyIsCore(t.children);
    }
  }

  lemma {:induction false} InsideAnyIsCore(ts: seq<Tree>)
    ensures InsideAny(ts) <= CoreOf(ts)
    decreases ts, 1
  {
    if ts != [] {
      InsideIsCore(ts[0]);
      InsideAnyIsCore(ts[1..]);
    }
  }

  lemma {:induction false} DeeperInDefinition(t: Tree, ancestors: seq<Tree>)
    requires t.Node?
    ensures InDefinition([t] + ancestors) <==> t.shape.Definition? || InDefinition(ancestors)
  {
    var deeper := [t] + ancestors;
    assert deeper[0] == t;
    assert forall i | 0 <= i < |ancestors| :: deeper[i + 1] == ancestors[i];
    if InDefinition(deeper) && !t.shape.Definition? {
      var i :| 0 <= i < |deeper| && deeper[i].Node? && deeper[i].shape.Definition?;
      assert ancestors[i - 1] == deeper[i];
    }
  }

  /** What is said of one read of the tree: where its node is, and its scope. */
  ghost predicate Placed(r: EnvRead, core: set<nat>, inside: set<nat>, nested: bool) {
    r.node in core && (r.moduleScope <==> !nested && r.node !in inside)
  }

  /**
   A read is at module scope exactly when its node is inside no function or lambda: the set that
   the visitor grows from parents to children is the set of such nodes.
   */
  lemma {:induction false} ModuleScopeIff(t: Tree, ancestors: seq<Tree>, aliases: Aliases)
    requires Unique(t)
    ensures forall r | r in ReadsOf(t, ancestors, aliases) :: Placed(r, Core(t), Inside(t), InDefinition(ancestors))
    decreases t, 0
  {
    if t.Node? {
      DeeperInDefinition(t, ancestors);
      InsideAnyIsCore(t.children);
      ModuleScopeOfAll(t.children, [t] + ancestors, aliases);
    }
  }

  lemma {:induction false} ModuleScopeOfAll(ts: seq<Tree>, ancestors: seq<Tree>, aliases: Aliases)
    requires UniqueAll(ts)
    ensures forall r | r in ReadsOfAll(ts, ancestors, aliases) ::
                Placed(r, CoreOf(ts), InsideAny(ts), InDefinition(ancestors))
    decreases ts, 1
  {
    if ts != [] {
      ModuleScopeIff(ts[0], ancestors, aliases);
      ModuleScopeOfAll(ts[1..], ancestors, aliases);
      InsideIsCore(ts[0]);
      InsideAnyIsCore(ts[1..]);
    }
  }

  predicate IsAssign(t: Tree) { t.Node? && t.shape.Assign? }

  /** Ancestor `k` is the nearest assignment, and near enough for the bounded walk. */
  predicate Nearest(ancestors: seq<Tree>, hops: nat, k: nat) {
    k < |ancestors| && k < hops && IsAssign(ancestors[k]) && forall j | 0 <= j < k :: !IsAssign(ancestors[j])
  }

  predicate Targets(t: Tree, target: Target)
    requires IsAssign(t)
  {
    t.shape.target == Some(target.name) && t.id == target.id && t.line == target.line
  }

  /**
   A read is tied to a constant exactly when the nearest assignment is at most `hops` levels up
   and has that constant as its only target.
   */
  lemma {:induction false} AssignmentIff(ancestors: seq<Tree>, hops: nat, target: Target)
    ensures AssignmentAbove(ancestors, hops) == Some(target) <==>
              exists k: nat :: Nearest(ancestors, hops, k) && Targets(ancestors[k], target)
  {
    if ancestors != [] && hops > 0 {
      if IsAssign(ancestors[0]) {
        assert Nearest(ancestors, hops, 0);
        assert forall k: nat | Nearest(ancestors, hops, k) :: k == 0;
      } else {
        AssignmentIff(ancestors[1..], hops - 1, target);
        if k: nat :| Nearest(ancestors[1..], hops - 1, k) && Targets(ancestors[1..][k], target) {
          assert Nearest(ancestors, hops, k + 1);
        }
        if k: nat :| Nearest(ancestors, hops, k) && Targets(ancestors[k], target) {
          NearestShifts(ancestors, hops, k);
        }
      }
    }
  }

  lemma {:induction false} NearestShifts(ancestors: seq<Tree>, hops: nat, k: nat)
    requires ancestors != [] && hops > 0 && !IsAssign(ancestors[0])
    requires Nearest(ancestors, hops, k)
    ensures k > 0 && Nearest(ancestors[1..], hops - 1, k - 1)
  {
    assert forall j | 0 <= j < k - 1 :: !IsAssign(ancestors[1..][j]) by {
      assert forall j | 0 <= j < k - 1 :: ancestors[1..][j] == ancestors[j + 1];
    }
  }

  // ---------------------------------------------------------------- the visitor

  /** The parent map leads from a node through exactly its ancestors. */
  ghost predicate Linked(parents: map<nat, Tree>, id: nat, ancestors: seq<Tree>)
    decreases |ancestors|
  {
    if ancestors == [] then id !in parents
    else
      && id in parents && parents[id] == ancestors[0] && ancestors[0].Node?
      && Linked(parents, ancestors[0].id, ancestors[1..])
  }

  ghost predicate Apart(ancestors: seq<Tree>, ids: set<nat>) {
    forall i | 0 <= i < |ancestors| :: ancestors[i].Node? && ancestors[i].id !in ids
  }

  /** A node is ready to be visited: its parents and scope are known, and nothing below it is. */
  ghost predicate Ready(parents: map<nat, Tree>, inFunction: set<nat>, t: Tree, ancestors: seq<Tree>) {
    t.Node? ==>
      && Linked(parents, t.id, ancestors)
      && (t.id in inFunction <==> InDefinition(ancestors))
      && CoreOf(t.children) !! inFunction
  }

  /** Nothing is said to have changed outside `ids` and the shared objects. */
  ghost predicate Same(p: map<nat, Tree>, f: set<nat>, q: map<nat, Tree>, g: set<nat>, ids: set<nat>) {
    forall id: nat | id !in ids ::
      (id in p <==> id in q) && (id in p && id in q ==> p[id] == q[id]) && (id in f <==> id in g)
  }

  lemma {:induction false} LinkedStays(p: map<nat, Tree>, f: set<nat>, q: map<nat, Tree>, g: set<nat>,
                                       ids: set<nat>, id: nat, ancestors: seq<Tree>)
    requires Same(p, f, q, g, ids) && id !in ids && Apart(ancestors, ids)
    requires Linked(p, id, ancestors)
    ensures Linked(q, id, ancestors)
    decreases |ancestors|
  {
    if ancestors != [] {
      assert forall i | 0 <= i < |ancestors| - 1 :: ancestors[1..][i] == ancestors[i + 1];
      LinkedStays(p, f, q, g, ids, ancestors[0].id, ancestors[1..]);
    }
  }

  lemma {:induction false} ReadyStays(p: map<nat, Tree>, f: set<nat>, q: map<nat, Tree>, g: set<nat>, ids: set<nat>,
                                      t: Tree, ancestors: seq<Tree>)
    requires Same(p, f, q, g, ids) && Apart(ancestors, ids)
    requires t.Node? ==> Core(t) !! ids
    requires Ready(p, f, t, ancestors)
    ensures Ready(q, g, t, ancestors)
  {
    if t.Node? {
      assert t.id in Core(t);
      LinkedStays(p, f, q, g, ids, t.id, ancestors);
      forall id | id in CoreOf(t.children) ensures id !in g {
        assert id in Core(t) && id !in f;
      }
    }
  }

  lemma {:induction false} Siblings(ts: seq<Tree>, i: nat)
    requires UniqueAll(ts) && i < |ts|
    ensures Unique(ts[i])
    ensures forall j | 0 <= j < |ts| && j != i :: Core(ts[i]) !! Core(ts[j])
  {
    if i > 0 {
      Siblings(ts[1..], i - 1);
      assert forall j | 1 <= j < |ts| :: ts[j] == ts[1..][j - 1];
      assert Core(ts[i]) <= CoreOf(ts[1..]);
    } else {
      assert forall j | 1 <= j < |ts| :: ts[j] == ts[1..][j - 1];
    }
  }

  lemma {:induction false} SharedInChild(ts: seq<Tree>, i: nat)
    requires i < |ts|
    ensures SharedIn(ts[i]) <= SharedInAny(ts)
  {
    if i > 0 {
      SharedInChild(ts[1..], i - 1);
    }
  }

  class EnvVisitor {
    const aliases: Aliases
    var parents: map<nat, Tree>
    var inFunction: set<nat>
    var found: seq<EnvRead>

    constructor (aliases: Aliases)
      ensures this.aliases == aliases && parents == map[] && inFunction == {} && found == []
    {
      this.aliases := aliases;
      parents, inFunction, found := map[], {}, [];
    }

    /** The walk up the parent map, at most eight levels. */
    method FindAssignment(t: Tree, ghost ancestors: seq<Tree>) returns (r: Option<Target>)
      requires t.Node? && Linked(parents, t.id, ancestors)
      ensures r == AssignmentAbove(ancestors, MAX_HOPS)
    {
      var id := t.id;
      ghost var above := ancestors;
      for hops := 0 to MAX_HOPS
        invariant Linked(parents, id, above)
        invariant AssignmentAbove(ancestors, MAX_HOPS) == AssignmentAbove(above, MAX_HOPS - hops)
      {
        if id !in parents {
          return None;
        }
        var parent := parents[id];
        if parent.shape.Assign? {
          return if parent.shape.target.Some? then Some(Target(parent.shape.target.value, parent.id, parent.line))
              else None;
        }
        id, above := parent.id, above[1..];
      }
      r := None;
    }

    /** The first loop of `visit`: every child learns its parent and its scope. */
    method MarkChildren(t: Tree, ghost ancestors: seq<Tree>)
      requires t.Node? && Unique(t) && SharedIn(t) !! Core(t)
      requires Apart(ancestors, Core(t) + SharedIn(t)) && Ready(parents, inFunction, t, ancestors)
      modifies this`parents, this`inFunction
      ensures forall i | 0 <= i < |t.children| :: Ready(parents, inFunction, t.children[i], [t] + ancestors)
      ensures Same(old(parents), old(inFunction), parents, inFunction, CoreOf(t.children) + SharedIn(t))
    {
      var nested := t.shape.Definition?;
      var ids := CoreOf(t.children) + SharedIn(t);
      var k := 0;
      while k < |t.children|
        invariant 0 <= k <= |t.children|
        invariant Same(old(parents), old(inFunction), parents, inFunction, ids)
        invariant forall i | 0 <= i < k && t.children[i].Node? ::
                    && t.children[i].id in parents && parents[t.children[i].id] == t
                    && (t.children[i].id in inFunction <==> nested || t.id in inFunction)
        invariant forall i | k <= i < |t.children| && t.children[i].Node? :: t.children[i].id !in inFunction
        invariant forall i | 0 <= i < |t.children| && t.children[i].Node? ::
            CoreOf(t.children[i].children) !! inFunction
      {
        MarkOne(t, k);
        parents := parents[t.children[k].id := t];
        if nested || t.id in inFunction {
          inFunction := inFunction + {t.children[k].id};
        }
        k := k + 1;
      }
      DeeperInDefinition(t, ancestors);
      LinkedStays(old(parents), old(inFunction), parents, inFunction, ids, t.id, ancestors);
      forall i | 0 <= i < |t.children| ensures Ready(parents, inFunction, t.children[i], [t] + ancestors) {
        assert ([t] + ancestors)[1..] == ancestors;
      }
    }

    /** `visit`: the reads added are those of the tree, in order; only what lies below it is touched. */
    method Visit(t: Tree, ghost ancestors: seq<Tree>)
      requires Unique(t) && SharedIn(t) !! Core(t)
      requires Apart(ancestors, Core(t) + SharedIn(t)) && Ready(parents, inFunction, t, ancestors)
      modifies this
      ensures found == old(found) + ReadsOf(t, ancestors, aliases)
      ensures Same(old(parents), old(inFunction), parents, inFunction, Below(t))
      decreases t, 2
    {
      if t.Shared? {
        return;
      }
      MarkChildren(t, ancestors);
      LinkedStays(old(parents), old(inFunction), parents, inFunction, Below(t), t.id, ancestors);
      Record(t, ancestors);
      VisitChildren(t, ancestors);
    }

    /** `generic_visit`: the children in order. */
    method VisitChildren(t: Tree, ghost ancestors: seq<Tree>)
      requires t.Node? && Unique(t) && SharedIn(t) !! Core(t)
      requires Apart(ancestors, Core(t) + SharedIn(t))
      requires forall i | 0 <= i < |t.children| :: Ready(parents, inFunction, t.children[i], [t] + ancestors)
      modifies this
      ensures found == old(found) + ReadsOfAll(t.children, [t] + ancestors, aliases)
      ensures Same(old(parents), old(inFunction), parents, inFunction, Below(t))
      decreases t, 1
    {
      ghost var goal := found + ReadsOfAll(t.children, [t] + ancestors, aliases);
      var k := 0;
      assert t.children[0..] == t.children;
      while k < |t.children|
        invariant 0 <= k <= |t.children|
        invariant Same(old(parents), old(inFunction), parents, inFunction, Below(t))
        invariant found + ReadsOfAll(t.children[k..], [t] + ancestors, aliases) == goal
        invariant forall i | k <= i < |t.children| :: Ready(parents, inFunction, t.children[i], [t] + ancestors)
      {
        ghost var before := found;
        VisitChild(t, k, ancestors);
        ReadsFrom(t.children, k, [t] + ancestors, aliases, before);
        k := k + 1;
      }
      assert found + [] == found;
    }

    /** One turn of the loop over the children: the later ones stay ready. */
    method VisitChild(t: Tree, k: nat, ghost ancestors: seq<Tree>)
      requires t.Node? && Unique(t) && SharedIn(t) !! Core(t) && k < |t.children|
      requires Apart(ancestors, Core(t) + SharedIn(t))
      requires forall i | k <= i < |t.children| :: Ready(parents, inFunction, t.children[i], [t] + ancestors)
      modifies this
      ensures found == old(found) + ReadsOf(t.children[k], [t] + ancestors, aliases)
      ensures Same(old(parents), old(inFunction), parents, inFunction, Below(t))
      ensures forall i | k < i < |t.children| :: Ready(parents, inFunction, t.children[i], [t] + ancestors)
      decreases t, 0
    {
      ChildIsApart(t, k, ancestors);
      Visit(t.children[k], [t] + ancestors);
      forall i | k < i < |t.children| ensures Ready(parents, inFunction, t.children[i], [t] + ancestors) {
        ReadyStays(old(parents), old(inFunction), parents, inFunction, Below(t.children[k]), t.children[i],
                   [t] + ancestors);
      }
    }

    /** Appends the read that the node itself is, if it is one. */
    method Record(t: Tree, ghost ancestors: seq<Tree>)
      requires t.Node? && Linked(parents, t.id, ancestors) && (t.id in inFunction <==> InDefinition(ancestors))
      modifies this`found
      ensures found == old(found) + ReadAt(t, ancestors, aliases)
    {
      var recognised := Recognised(t.shape, aliases);
      if recognised.Some? {
        var assignment := FindAssignment(t, ancestors);
        var (name, style) := recognised.value;
        found := found + [EnvRead(name, t.line, style, t.id, assignment, t.id !in inFunction)];
      }
    }
  }

  lemma {:induction false} ReadsFrom(ts: seq<Tree>, k: nat, ancestors: seq<Tree>, aliases: Aliases,
                                     before: seq<EnvRead>)
    requires k < |ts|
    ensures before + ReadsOfAll(ts[k..], ancestors, aliases)
         == before + ReadsOf(ts[k], ancestors, aliases) + ReadsOfAll(ts[k + 1..], ancestors, aliases)
  {
    assert ts[k..][0] == ts[k] && ts[k..][1..] == ts[k + 1..];
  }

  /** What visiting a tree may touch in the visitor's tables. */
  function Below(t: Tree): set<nat> {
    if t.Shared? then {} else CoreOf(t.children) + SharedIn(t)
  }

  lemma {:induction false} ChildIsApart(t: Tree, k: nat, ancestors: seq<Tree>)
    requires t.Node? && Unique(t) && SharedIn(t) !! Core(t) && k < |t.children|
    requires Apart(ancestors, Core(t) + SharedIn(t))
    ensures var c := t.children[k];
            && Unique(c) && SharedIn(c) !! Core(c)
            && Below(c) <= Below(t)
            && Apart([t] + ancestors, Core(c) + SharedIn(c))
            && Apart([t] + ancestors, Below(c))
            && forall i | 0 <= i < |t.children| && i != k :: Core(t.children[i]) !! Below(c)
  {
    var c := t.children[k];
    Siblings(t.children, k);
    SharedInChild(t.children, k);
    assert Core(c) <= CoreOf(t.children) <= Core(t) && SharedIn(c) <= SharedIn(t);
    assert Below(c) <= Core(c) + SharedIn(c);
    assert t.id in Core(t);
    forall i | 0 <= i < |t.children| && i != k ensures Core(t.children[i]) !! Below(c) {
      assert Core(t.children[i]) <= CoreOf(t.children);
    }
  }

  /** The reads of one parsed file. */
  method ReadsInFile(tree: Tree, aliases: Aliases) returns (found: seq<EnvRead>)
    requires Unique(tree) && SharedIn(tree) !! Core(tree)
    ensures found == ReadsOf(tree, [], aliases)
  {
    var visitor := new EnvVisitor(aliases);
    visitor.Visit(tree, []);
    found := visitor.found;
    assert [] + found == found;
  }

  /** The identity of one child is its own: no sibling, no descendant of one, and not the parent. */
  lemma {:induction false} MarkOne(t: Tree, k: nat)
    requires t.Node? && Unique(t) && SharedIn(t) !! Core(t) && k < |t.children|
    ensures t.children[k].id in CoreOf(t.children) + SharedIn(t)
    ensures t.children[k].id != t.id && t.id !in CoreOf(t.children) + SharedIn(t)
    ensures forall i | 0 <= i < |t.children| && t.children[i].Node? ::
              && (i != k ==> t.children[i].id != t.children[k].id)
              && t.children[k].id !in CoreOf(t.children[i].children)
  {
    var c := t.children[k];
    SharedInChild(t.children, k);
    Siblings(t.children, k);
    forall i | 0 <= i < |t.children| && t.children[i].Node?
      ensures (i != k ==> t.children[i].id != c.id) && c.id !in CoreOf(t.children[i].children)
    {
      assert CoreOf(t.children[i].children) <= Core(t.children[i]) <= CoreOf(t.children) <= Core(t);
      assert t.children[i].id in Core(t.children[i]);
      if c.Node? {
        assert c.id in Core(c);
      } else {
        assert c.id in SharedIn(t);
      }
    }
  }

  // ---------------------------------------------------------------- what the identities stand for

  predicate IsTarget(t: Tree, target: Target) { IsAssign(t) && Targets(t, target) }

  /**
   The identity a read carries is that of an assignment statement of the tree (or above it) with
   the constant as its only target: different identities are different statements.
   */
  lemma {:induction false} AssignmentsAreNodes(t: Tree, ancestors: seq<Tree>, aliases: Aliases)
    ensures forall r | r in ReadsOf(t, ancestors, aliases) && r.assignment.Some? ::
              exists n :: (n in Preorder(t) || n in ancestors) && IsTarget(n, r.assignment.value)
    decreases t, 0
  {
    if t.Node? {
      AssignmentsOfAllAreNodes(t.children, [t] + ancestors, aliases);
      AboveIsAncestor(ancestors, MAX_HOPS);
      forall r | r in ReadsOf(t, ancestors, aliases) && r.assignment.Some?
        ensures exists n :: (n in Preorder(t) || n in ancestors) && IsTarget(n, r.assignment.value)
      {
        if r in ReadAt(t, ancestors, aliases) {
        } else {
          var n :| (n in PreorderAll(t.children) || n in [t] + ancestors) && IsTarget(n, r.assignment.value);
          assert n in Preorder(t) || n in ancestors;
        }
      }
    }
  }

  lemma {:induction false} AssignmentsOfAllAreNodes(ts: seq<Tree>, ancestors: seq<Tree>, aliases: Aliases)
    ensures forall r | r in ReadsOfAll(ts, ancestors, aliases) && r.assignment.Some? ::
              exists n :: (n in PreorderAll(ts) || n in ancestors) && IsTarget(n, r.assignment.value)
    decreases ts, 1
  {
    if ts != [] {
      AssignmentsAreNodes(ts[0], ancestors, aliases);
      AssignmentsOfAllAreNodes(ts[1..], ancestors, aliases);
      forall r | r in ReadsOfAll(ts, ancestors, aliases) && r.assignment.Some?
        ensures exists n :: (n in PreorderAll(ts) || n in ancestors) && IsTarget(n, r.assignment.value)
      {
        if r in ReadsOf(ts[0], ancestors, aliases) {
          var n :| (n in Preorder(ts[0]) || n in ancestors) && IsTarget(n, r.assignment.value);
          assert n in PreorderAll(ts) || n in ancestors;
        } else {
          var n :| (n in PreorderAll(ts[1..]) || n in ancestors) && IsTarget(n, r.assignment.value);
          assert n in PreorderAll(ts) || n in ancestors;
        }
      }
    }
  }

  lemma {:induction false} AboveIsAncestor(ancestors: seq<Tree>, hops: nat)
    ensures AssignmentAbove(ancestors, hops).Some? ==>
              exists n :: n in ancestors && IsTarget(n, AssignmentAbove(ancestors, hops).value)
  {
    if ancestors != [] && hops > 0 {
      if IsAssign(ancestors[0]) {
        assert ancestors[0].shape.target.Some? ==> IsTarget(ancestors[0], AssignmentAbove(ancestors, hops).value);
      } else {
        AboveIsAncestor(ancestors[1..], hops - 1);
        if AssignmentAbove(ancestors, hops).Some? {
          var n :| n in ancestors[1..] && IsTarget(n, AssignmentAbove(ancestors, hops).value);
          assert n in ancestors;
        }
      }
    }
  }
}
