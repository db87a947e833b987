/**
 The environment inventory's report of constants assigned more than once, from the syntax trees of
 all scanned files to the report.
 */
module EnvDuplicates {
  import opened Counting
  import opened EnvVisitor
  import opened Outcomes

  // ---------------------------------------------------------------- places in a tree

  /** The ancestors of a node, nearest first, up to the root. */
  ghost predicate IsChain(tree: Tree, n: Tree, above: seq<Tree>)
    decreases |above|
  {
    if above == [] then n == tree
    else above[0].Node? && n in above[0].children && IsChain(tree, above[0], above[1..])
  }

  /** The read comes from a node of the tree, with that node's own ancestors. */
  ghost predicate ComesFrom(tree: Tree, aliases: Aliases, r: EnvRead, n: Tree, above: seq<Tree>) {
    n.Node? && IsChain(tree, n, above) && ReadAt(n, above, aliases) == [r]
  }

  lemma {:induction false} ReadOfChild(ts: seq<Tree>, above: seq<Tree>, aliases: Aliases, r: EnvRead)
    ensures r in ReadsOfAll(ts, above, aliases) <==> exists i :: 0 <= i < |ts| && r in ReadsOf(ts[i], above, aliases)
  {
    if ts != [] {
      ReadOfChild(ts[1..], above, aliases, r);
      assert forall i | 1 <= i < |ts| :: ts[1..][i - 1] == ts[i];
    }
  }

  lemma {:induction false} ReadHasPlace(tree: Tree, t: Tree, above: seq<Tree>, aliases: Aliases, r: EnvRead)
    requires IsChain(tree, t, above) && r in ReadsOf(t, above, aliases)
    ensures exists n, chain :: ComesFrom(tree, aliases, r, n, chain)
    decreases t
  {
    if r in ReadAt(t, above, aliases) {
      assert ComesFrom(tree, aliases, r, t, above);
    } else {
      ReadOfChild(t.children, [t] + above, aliases, r);
      var i :| 0 <= i < |t.children| && r in ReadsOf(t.children[i], [t] + above, aliases);
      assert ([t] + above)[1..] == above;
      ReadHasPlace(tree, t.children[i], [t] + above, aliases, r);
    }
  }

  lemma {:induction false} PlaceIsRead(tree: Tree, n: Tree, above: seq<Tree>, aliases: Aliases, r: EnvRead)
    requires IsChain(tree, n, above) && r in ReadsOf(n, above, aliases)
    ensures r in ReadsOf(tree, [], aliases)
    decreases |above|
  {
    if above != [] {
      var t, rest := above[0], above[1..];
      assert [t] + rest == above;
      ReadOfChild(t.children, above, aliases, r);
      PlaceIsRead(tree, t, rest, aliases, r);
    }
  }

  /** The reads of a tree are those of its nodes, each below its actual chain of ancestors. */
  lemma {:induction false} ReadsHavePlaces(tree: Tree, aliases: Aliases, r: EnvRead)
    ensures r in ReadsOf(tree, [], aliases) <==> exists n, above :: ComesFrom(tree, aliases, r, n, above)
  {
    if r in ReadsOf(tree, [], aliases) {
      ReadHasPlace(tree, tree, [], aliases, r);
    }
    if n, above :| ComesFrom(tree, aliases, r, n, above) {
      assert r in ReadAt(n, above, aliases);
      PlaceIsRead(tree, n, above, aliases, r);
    }
  }

  /** What is recorded of a read: its name, style, line and node, what it is assigned to, and its scope. */
  lemma {:induction false} ReadsSay(tree: Tree, aliases: Aliases, r: EnvRead, n: Tree, above: seq<Tree>)
    requires ComesFrom(tree, aliases, r, n, above)
    ensures IsReadOf(n.shape, aliases, r.name, r.style) && r.line == n.line && r.node == n.id
    ensures r.moduleScope <==> forall i | 0 <= i < |above| :: !(above[i].Node? && above[i].shape.Definition?)
    ensures forall target :: r.assignment == Some(target) <==>
              exists k: nat :: Nearest(above, MAX_HOPS, k) && Targets(above[k], target)
  {
    RecognisedIff(n.shape, aliases, r.name, r.style);
    forall target
      ensures r.assignment == Some(target) <==>
                exists k: nat :: Nearest(above, MAX_HOPS, k) && Targets(above[k], target)
    {
      AssignmentIff(above, MAX_HOPS, target);
    }
  }

  // ---------------------------------------------------------------- identities are nodes

  lemma {:induction false} InPreorder(tree: Tree, n: Tree, above: seq<Tree>)
    requires IsChain(tree, n, above) && n.Node?
    ensures n in Preorder(tree)
    decreases |above|
  {
    if above == [] {
      assert Preorder(tree)[0] == tree;
    } else {
      InPreorder(tree, above[0], above[1..]);
      ChildrenFollow(tree, above[0], n);
    }
  }

  lemma {:induction false} ChildrenFollow(tree: Tree, parent: Tree, n: Tree)
    requires parent in Preorder(tree) && parent.Node? && n in parent.children && n.Node?
    ensures n in Preorder(tree)
    decreases tree, 0
  {
    if parent == tree {
      FirstFollows(tree.children, n);
    } else {
      ChildrenFollowAll(tree.children, parent, n);
    }
  }

  lemma {:induction false} ChildrenFollowAll(ts: seq<Tree>, parent: Tree, n: Tree)
    requires parent in PreorderAll(ts) && parent.Node? && n in parent.children && n.Node?
    ensures n in PreorderAll(ts)
    decreases ts, 1
  {
    if parent in Preorder(ts[0]) {
      ChildrenFollow(ts[0], parent, n);
    } else {
      ChildrenFollowAll(ts[1..], parent, n);
    }
  }

  lemma {:induction false} FirstFollows(ts: seq<Tree>, n: Tree)
    requires n in ts && n.Node?
    ensures n in PreorderAll(ts)
  {
    if n == ts[0] {
      assert Preorder(n)[0] == n;
    } else {
      FirstFollows(ts[1..], n);
    }
  }

  lemma {:induction false} PreorderIsCore(t: Tree, n: Tree)
    requires n in Preorder(t)
    ensures n.Node? && n.id in Core(t)
    decreases t, 0
  {
    if n != t { PreorderAllIsCore(t.children, n); }
  }

  lemma {:induction false} PreorderAllIsCore(ts: seq<Tree>, n: Tree)
    requires n in PreorderAll(ts)
    ensures n.Node? && n.id in CoreOf(ts)
    decreases ts, 1
  {
    if n in Preorder(ts[0]) { PreorderIsCore(ts[0], n); } else { PreorderAllIsCore(ts[1..], n); }
  }

  /** In a tree without repeated identities, nodes with one identity are one node. */
  lemma {:induction false} IdIsNode(t: Tree, a: Tree, b: Tree)
    requires Unique(t) && a in Preorder(t) && b in Preorder(t) && a.Node? && b.Node? && a.id == b.id
    ensures a == b
    decreases t, 0
  {
    if a != t && b != t {
      IdIsNodeAll(t.children, a, b);
    } else if a != b {
      PreorderAllIsCore(t.children, if a == t then b else a);
    }
  }

  lemma {:induction false} IdIsNodeAll(ts: seq<Tree>, a: Tree, b: Tree)
    requires UniqueAll(ts) && a in PreorderAll(ts) && b in PreorderAll(ts) && a.Node? && b.Node? && a.id == b.id
    ensures a == b
    decreases ts, 1
  {
    if a in Preorder(ts[0]) { PreorderIsCore(ts[0], a); } else { PreorderAllIsCore(ts[1..], a); }
    if b in Preorder(ts[0]) { PreorderIsCore(ts[0], b); } else { PreorderAllIsCore(ts[1..], b); }
    if a in Preorder(ts[0]) && b in Preorder(ts[0]) {
      IdIsNode(ts[0], a, b);
    } else {
      IdIsNodeAll(ts[1..], a, b);
    }
  }

  // ---------------------------------------------------------------- the statements that assign a constant

  /** Node `n` is a read at module scope, and statement `a` its nearest assignment, to `c` alone. */
  ghost predicate AssignsFrom(tree: Tree, aliases: Aliases, c: string, a: Tree, n: Tree, above: seq<Tree>, k: nat) {
    && n.Node? && IsChain(tree, n, above) && Recognised(n.shape, aliases).Some? && !InDefinition(above)
    && Nearest(above, MAX_HOPS, k) && above[k] == a && a.shape.target == Some(c)
  }

  /** The statement assigns the constant from a read at module scope, at most eight levels up from it. */
  ghost predicate Assigning(tree: Tree, aliases: Aliases, c: string, a: Tree) {
    exists n, above, k :: AssignsFrom(tree, aliases, c, a, n, above, k)
  }

  lemma {:induction false} AncestorIsNode(tree: Tree, n: Tree, above: seq<Tree>, k: nat)
    requires IsChain(tree, n, above) && k < |above|
    ensures above[k].Node? && IsChain(tree, above[k], above[k + 1..])
    decreases k
  {
    if k > 0 {
      AncestorIsNode(tree, above[0], above[1..], k - 1);
      assert above[1..][k..] == above[k + 1..];
    }
  }

  lemma {:induction false} AssigningIsNode(tree: Tree, aliases: Aliases, c: string, a: Tree)
    requires Assigning(tree, aliases, c, a)
    ensures a in Preorder(tree) && IsAssign(a)
  {
    var n, above, k :| AssignsFrom(tree, aliases, c, a, n, above, k);
    AncestorIsNode(tree, n, above, k);
    InPreorder(tree, a, above[k + 1..]);
  }

  predicate Ties(r: EnvRead, target: Target) { r.moduleScope && r.assignment == Some(target) }

  lemma {:induction false} TiedIsAssigning(tree: Tree, aliases: Aliases, target: Target, r: EnvRead)
    requires r in ReadsOf(tree, [], aliases) && Ties(r, target)
    ensures exists a :: Assigning(tree, aliases, target.name, a) && IsTarget(a, target)
  {
    ReadsHavePlaces(tree, aliases, r);
    var n, above :| ComesFrom(tree, aliases, r, n, above);
    AssignmentIff(above, MAX_HOPS, target);
    var k: nat :| Nearest(above, MAX_HOPS, k) && Targets(above[k], target);
    assert AssignsFrom(tree, aliases, target.name, above[k], n, above, k);
    assert Assigning(tree, aliases, target.name, above[k]) && IsTarget(above[k], target);
  }

  lemma {:induction false} AssigningIsTied(tree: Tree, aliases: Aliases, target: Target, a: Tree)
    requires Assigning(tree, aliases, target.name, a) && IsTarget(a, target)
    ensures exists r :: r in ReadsOf(tree, [], aliases) && Ties(r, target)
  {
    var n, above, k :| AssignsFrom(tree, aliases, target.name, a, n, above, k);
    AssignmentIff(above, MAX_HOPS, target);
    assert Targets(above[k], target);
    var r := ReadAt(n, above, aliases)[0];
    assert ComesFrom(tree, aliases, r, n, above) && Ties(r, target);
    ReadsHavePlaces(tree, aliases, r);
  }

  /** Some read ties the constant to a statement of that identity and line exactly when such a statement assigns it. */
  lemma {:induction false} TiesIff(tree: Tree, aliases: Aliases, target: Target)
    ensures (exists r :: r in ReadsOf(tree, [], aliases) && Ties(r, target)) <==>
            exists a :: Assigning(tree, aliases, target.name, a) && IsTarget(a, target)
  {
    if r :| r in ReadsOf(tree, [], aliases) && Ties(r, target) { TiedIsAssigning(tree, aliases, target, r); }
    if a :| Assigning(tree, aliases, target.name, a) && IsTarget(a, target) {
      AssigningIsTied(tree, aliases, target, a);
    }
  }

  // ---------------------------------------------------------------- constants assigned twice

  datatype FileRead = FileRead(file: string, read: EnvRead)

  datatype Constant = Constant(file: string, name: string)

  /** The constant a read counts for, when it is an UPPER_SNAKE constant of the module scope. */
  function ConstantOf(r: FileRead): Option<Constant> {
    var a := r.read.assignment;
    if a.Some? && a.value.name != "" && r.read.moduleScope && IsVarName(a.value.name)
    then Some(Constant(r.file, a.value.name)) else None
  }

  function LineOf(r: FileRead): nat
    requires r.read.assignment.Some?
  {
    if r.read.assignment.value.line != 0 then r.read.assignment.value.line else r.read.line
  }

  /** The assignments of one constant: their identities, each with its line. */
  function AssignsOf(rs: seq<FileRead>, c: Constant): map<nat, nat> {
    if rs == [] then map[]
    else
      var r := rs[|rs| - 1];
      var before := AssignsOf(rs[..|rs| - 1], c);
      if ConstantOf(r) == Some(c) then before[r.read.assignment.value.id := LineOf(r)] else before
  }

  predicate AssignedBy(r: FileRead, c: Constant, id: nat) {
    ConstantOf(r) == Some(c) && r.read.assignment.value.id == id
  }

  lemma {:induction false} AssignsOfHolds(rs: seq<FileRead>, c: Constant, id: nat)
    ensures id in AssignsOf(rs, c) <==> exists i | 0 <= i < |rs| :: AssignedBy(rs[i], c, id)
  {
    if rs != [] {
      var n := |rs| - 1;
      AssignsOfHolds(rs[..n], c, id);
      assert forall i | 0 <= i < n :: rs[..n][i] == rs[i];
    }
  }

  lemma {:induction false} MoreThanOne(m: map<nat, nat>)
    ensures |m| > 1 <==> exists a, b :: a in m && b in m && a != b
  {
    if |m| > 1 {
      var a :| a in m.Keys;
      assert |m.Keys - {a}| > 0;
      var b :| b in m.Keys - {a};
      assert a in m && b in m && a != b;
    }
    if a, b :| a in m && b in m && a != b {
      assert {a, b} <= m.Keys;
      assert |{a, b}| == 2;
      SubsetSize({a, b}, m.Keys);
    }
  }

  /**
   A constant is reported exactly when two reads of its file tie it, at module scope, to two
   different assignments; the report lists the line of each.
   */
  method FindDuplicateAssignments(rs: seq<FileRead>) returns (duplicates: map<Constant, map<nat, nat>>)
    ensures forall c :: c in duplicates <==>
              exists i, j, a, b :: 0 <= i < |rs| && 0 <= j < |rs| && a != b && AssignedBy(rs[i], c, a)
                  && AssignedBy(rs[j], c, b)
    ensures forall c | c in duplicates :: duplicates[c] == AssignsOf(rs, c)
  {
    var groups: map<Constant, map<nat, nat>> := map[];
    for n := 0 to |rs|
      invariant forall c :: (if c in groups then groups[c] else map[]) == AssignsOf(rs[..n], c)
    {
      var r := rs[n];
      assert rs[..n + 1][..n] == rs[..n];
      var key := ConstantOf(r);
      if key.Some? {
        var before := if key.value in groups then groups[key.value] else map[];
        groups := groups[key.value := before[r.read.assignment.value.id := LineOf(r)]];
      }
    }
    assert rs[..|rs|] == rs;
    duplicates := map c | c in groups && |groups[c]| > 1 :: groups[c];
    forall c ensures c in duplicates <==> |AssignsOf(rs, c)| > 1 {
    }
    forall c
      ensures |AssignsOf(rs, c)| > 1 <==>
        exists i, j, a, b :: 0 <= i < |rs| && 0 <= j < |rs| && a != b && AssignedBy(rs[i], c, a)
            && AssignedBy(rs[j], c, b)
    {
      TwoAssignments(rs, c);
    }
  }

  lemma {:induction false} TwoAssignments(rs: seq<FileRead>, c: Constant)
    ensures |AssignsOf(rs, c)| > 1 <==>
      exists i, j, a, b :: 0 <= i < |rs| && 0 <= j < |rs| && a != b && AssignedBy(rs[i], c, a)
          && AssignedBy(rs[j], c, b)
  {
    var m := AssignsOf(rs, c);
    MoreThanOne(m);
    if |m| > 1 {
      var a, b :| a in m && b in m && a != b;
      AssignsOfHolds(rs, c, a);
      AssignsOfHolds(rs, c, b);
    }
    if i, j, a, b :| 0 <= i < |rs| && 0 <= j < |rs| && a != b && AssignedBy(rs[i], c, a) && AssignedBy(rs[j], c, b) {
      AssignsOfHolds(rs, c, a);
      AssignsOfHolds(rs, c, b);
    }
  }

  // ---------------------------------------------------------------- all the scanned files

  /** A scanned file; no tree when its text is not valid Python. */
  datatype Source = Source(file: string, tree: Option<Tree>, aliases: Aliases)

  function InFile(file: string, rs: seq<EnvRead>): (r: seq<FileRead>)
    ensures |r| == |rs| && forall i | 0 <= i < |rs| :: r[i] == FileRead(file, rs[i])
  {
    seq(|rs|, i requires 0 <= i < |rs| => FileRead(file, rs[i]))
  }

  function ReadsOfSource(s: Source): seq<FileRead> {
    if s.tree.None? then [] else InFile(s.file, ReadsOf(s.tree.value, [], s.aliases))
  }

  function AllReads(sources: seq<Source>): seq<FileRead> {
    if sources == [] then [] else AllReads(sources[..|sources| - 1]) + ReadsOfSource(sources[|sources| - 1])
  }

  /** Scanned files have different paths, and their trees repeat no identity but shared ones. */
  ghost predicate Scanned(sources: seq<Source>) {
    && (forall i, j | 0 <= i < j < |sources| :: sources[i].file != sources[j].file)
    && (forall i | 0 <= i < |sources| && sources[i].tree.Some? ::
          Unique(sources[i].tree.value) && SharedIn(sources[i].tree.value) !! Core(sources[i].tree.value))
  }

  method CollectReads(sources: seq<Source>) returns (all: seq<FileRead>)
    requires Scanned(sources)
    ensures all == AllReads(sources)
  {
    all := [];
    for k := 0 to |sources|
      invariant all == AllReads(sources[..k])
    {
      assert sources[..k + 1][..k] == sources[..k];
      if sources[k].tree.Some? {
        var found := ReadsInFile(sources[k].tree.value, sources[k].aliases);
        all := all + InFile(sources[k].file, found);
      }
    }
    assert sources[..|sources|] == sources;
  }

  lemma {:induction false} AllReadsHold(sources: seq<Source>, r: FileRead)
    ensures r in AllReads(sources) <==> exists i :: 0 <= i < |sources| && r in ReadsOfSource(sources[i])
  {
    if sources != [] {
      var n := |sources| - 1;
      var before, last := sources[..n], sources[n];
      AllReadsHold(before, r);
      assert r in AllReads(sources) <==> r in AllReads(before) || r in ReadsOfSource(last);
      if r in AllReads(before) {
        var i :| 0 <= i < n && r in ReadsOfSource(before[i]);
        assert before[i] == sources[i];
      }
      if i :| 0 <= i < |sources| && r in ReadsOfSource(sources[i]) && i != n {
        assert before[i] == sources[i];
      }
    }
  }

  /** The statement stands in the file of the constant and assigns it. */
  ghost predicate Assigns(sources: seq<Source>, c: Constant, a: Tree) {
    && c.name != "" && IsVarName(c.name)
    && exists i :: 0 <= i < |sources| && AssignsIn(sources[i], c, a)
  }

  ghost predicate AssignsIn(s: Source, c: Constant, a: Tree) {
    s.file == c.file && s.tree.Some? && Assigning(s.tree.value, s.aliases, c.name, a)
  }

  /** Statements of one constant with one identity are one statement. */
  lemma {:induction false} OneStatement(sources: seq<Source>, c: Constant, a: Tree, b: Tree)
    requires Scanned(sources) && Assigns(sources, c, a) && Assigns(sources, c, b)
    ensures IsAssign(a) && IsAssign(b) && (a.id == b.id ==> a == b)
  {
    var i :| 0 <= i < |sources| && AssignsIn(sources[i], c, a);
    var j :| 0 <= j < |sources| && AssignsIn(sources[j], c, b);
    assert i == j;
    AssigningIsNode(sources[i].tree.value, sources[i].aliases, c.name, a);
    AssigningIsNode(sources[i].tree.value, sources[i].aliases, c.name, b);
    if a.id == b.id { IdIsNode(sources[i].tree.value, a, b); }
  }

  lemma {:induction false} CountsAssigns(sources: seq<Source>, c: Constant, id: nat, line: nat, r: FileRead)
    requires r in AllReads(sources) && Counts(r, c, id, line)
    ensures exists a :: Assigns(sources, c, a) && IsTarget(a, Target(c.name, id, line))
  {
    var target := Target(c.name, id, line);
    AllReadsHold(sources, r);
    var i :| 0 <= i < |sources| && r in ReadsOfSource(sources[i]);
    assert r.read in ReadsOf(sources[i].tree.value, [], sources[i].aliases) && Ties(r.read, target);
    TiesIff(sources[i].tree.value, sources[i].aliases, target);
    var a :| Assigning(sources[i].tree.value, sources[i].aliases, c.name, a) && IsTarget(a, target);
    assert AssignsIn(sources[i], c, a);
  }

  lemma {:induction false} InFileHolds(s: Source, e: EnvRead)
    requires s.tree.Some? && e in ReadsOf(s.tree.value, [], s.aliases)
    ensures FileRead(s.file, e) in ReadsOfSource(s)
  {
    var es := ReadsOf(s.tree.value, [], s.aliases);
    var k :| 0 <= k < |es| && es[k] == e;
    assert ReadsOfSource(s)[k] == FileRead(s.file, e);
  }

  lemma {:induction false} AssignsCounts(sources: seq<Source>, c: Constant, id: nat, line: nat, a: Tree)
    requires Assigns(sources, c, a) && IsTarget(a, Target(c.name, id, line))
    ensures exists r :: r in AllReads(sources) && Counts(r, c, id, line)
  {
    var i :| 0 <= i < |sources| && AssignsIn(sources[i], c, a);
    TiesIff(sources[i].tree.value, sources[i].aliases, Target(c.name, id, line));
    var e :| e in ReadsOf(sources[i].tree.value, [], sources[i].aliases) && Ties(e, Target(c.name, id, line));
    InFileHolds(sources[i], e);
    AllReadsHold(sources, FileRead(c.file, e));
    assert Counts(FileRead(c.file, e), c, id, line);
  }

  /** A read of all files counts for a constant and a statement exactly when that statement assigns it. */
  lemma {:induction false} CountsIff(sources: seq<Source>, c: Constant, id: nat, line: nat)
    ensures (exists r :: r in AllReads(sources) && Counts(r, c, id, line)) <==>
            exists a :: Assigns(sources, c, a) && IsTarget(a, Target(c.name, id, line))
  {
    if r :| r in AllReads(sources) && Counts(r, c, id, line) { CountsAssigns(sources, c, id, line, r); }
    if a :| Assigns(sources, c, a) && IsTarget(a, Target(c.name, id, line)) { AssignsCounts(sources, c, id, line, a); }
  }

  predicate Counts(r: FileRead, c: Constant, id: nat, line: nat) {
    ConstantOf(r) == Some(c) && r.read.assignment.value.id == id && r.read.assignment.value.line == line
  }

  // ---------------------------------------------------------------- the report, told from the trees

  lemma {:induction false} AssignsOfLines(rs: seq<FileRead>, c: Constant, id: nat)
    requires id in AssignsOf(rs, c)
    ensures exists i :: 0 <= i < |rs| && AssignedBy(rs[i], c, id) && AssignsOf(rs, c)[id] == LineOf(rs[i])
  {
    var n := |rs| - 1;
    if AssignedBy(rs[n], c, id) {
    } else {
      AssignsOfLines(rs[..n], c, id);
      assert forall i | 0 <= i < n :: rs[..n][i] == rs[i];
    }
  }

  /** The identities gathered for a constant are those of the statements that assign it. */
  lemma {:induction false} GatheredIff(sources: seq<Source>, c: Constant, id: nat)
    ensures id in AssignsOf(AllReads(sources), c) <==> exists a :: Assigns(sources, c, a) && AssignId(a, id)
  {
    var rs := AllReads(sources);
    AssignsOfHolds(rs, c, id);
    if i :| 0 <= i < |rs| && AssignedBy(rs[i], c, id) {
      var line := rs[i].read.assignment.value.line;
      assert Counts(rs[i], c, id, line);
      CountsIff(sources, c, id, line);
    }
    if a :| Assigns(sources, c, a) && AssignId(a, id) {
      AssignsToName(sources, c, a);
      CountsIff(sources, c, id, a.line);
      var r :| r in rs && Counts(r, c, id, a.line);
      assert AssignedBy(r, c, id);
    }
  }

  predicate AssignId(a: Tree, id: nat) { IsAssign(a) && a.id == id }

  lemma {:induction false} AssignsToName(sources: seq<Source>, c: Constant, a: Tree)
    requires Assigns(sources, c, a)
    ensures IsAssign(a) && IsTarget(a, Target(c.name, a.id, a.line))
  {
    var i :| 0 <= i < |sources| && AssignsIn(sources[i], c, a);
    var n, above, k :| AssignsFrom(sources[i].tree.value, sources[i].aliases, c.name, a, n, above, k);
  }

  /** Each is gathered with the line of its statement. */
  lemma {:induction false} GatheredLine(sources: seq<Source>, c: Constant, a: Tree)
    requires Scanned(sources) && Assigns(sources, c, a)
    ensures IsAssign(a) && a.id in AssignsOf(AllReads(sources), c)
    ensures a.line != 0 ==> AssignsOf(AllReads(sources), c)[a.id] == a.line
  {
    var rs := AllReads(sources);
    AssignsToName(sources, c, a);
    assert AssignId(a, a.id);
    GatheredIff(sources, c, a.id);
    AssignsOfLines(rs, c, a.id);
    var i :| 0 <= i < |rs| && AssignedBy(rs[i], c, a.id) && AssignsOf(rs, c)[a.id] == LineOf(rs[i]);
    var line := rs[i].read.assignment.value.line;
    assert Counts(rs[i], c, a.id, line);
    CountsIff(sources, c, a.id, line);
    var b :| Assigns(sources, c, b) && IsTarget(b, Target(c.name, a.id, line));
    OneStatement(sources, c, a, b);
  }

  /** More than one identity is gathered exactly when two different statements assign the constant. */
  lemma {:induction false} TwoStatementsIff(sources: seq<Source>, c: Constant)
    requires Scanned(sources)
    ensures |AssignsOf(AllReads(sources), c)| > 1 <==>
            exists a, b :: a != b && Assigns(sources, c, a) && Assigns(sources, c, b)
  {
    var m := AssignsOf(AllReads(sources), c);
    MoreThanOne(m);
    if i, j :| i in m && j in m && i != j {
      GatheredIff(sources, c, i);
      GatheredIff(sources, c, j);
      var a :| Assigns(sources, c, a) && AssignId(a, i);
      var b :| Assigns(sources, c, b) && AssignId(b, j);
      assert a != b;
    }
    if a, b :| a != b && Assigns(sources, c, a) && Assigns(sources, c, b) {
      OneStatement(sources, c, a, b);
      GatheredLine(sources, c, a);
      GatheredLine(sources, c, b);
    }
  }

  /** The map holds the identity of each statement that assigns the constant, with its line, and no other. */
  ghost predicate Lists(sources: seq<Source>, c: Constant, m: map<nat, nat>) {
    && (forall id :: id in m <==> exists a :: Assigns(sources, c, a) && AssignId(a, id))
    && (forall a | Assigns(sources, c, a) :: IsAssign(a) && a.id in m && (a.line != 0 ==> m[a.id] == a.line))
  }

  lemma {:induction false} GatheredLists(sources: seq<Source>, c: Constant)
    requires Scanned(sources)
    ensures Lists(sources, c, AssignsOf(AllReads(sources), c))
  {
    forall id ensures id in AssignsOf(AllReads(sources), c) <==> exists a :: Assigns(sources, c, a) && AssignId(a, id) {
      GatheredIff(sources, c, id);
    }
    forall a | Assigns(sources, c, a)
      ensures IsAssign(a) && a.id in AssignsOf(AllReads(sources), c)
      ensures a.line != 0 ==> AssignsOf(AllReads(sources), c)[a.id] == a.line
    {
      GatheredLine(sources, c, a);
    }
  }

  /**
   The report of the inventory, from the trees alone: a constant is reported exactly when two different
   statements of its file assign it from reads at module scope, and every such statement is listed
   once, with its line.
   */
  method ReportDuplicates(sources: seq<Source>) returns (duplicates: map<Constant, map<nat, nat>>)
    requires Scanned(sources)
    ensures forall c :: c in duplicates <==> exists a, b :: a != b && Assigns(sources, c, a) && Assigns(sources, c, b)
    ensures forall c | c in duplicates :: Lists(sources, c, duplicates[c])
  {
    var all := CollectReads(sources);
    duplicates := FindDuplicateAssignments(all);
    forall c
      ensures c in duplicates <==> exists a, b :: a != b && Assigns(sources, c, a) && Assigns(sources, c, b)
      ensures c in duplicates ==> Lists(sources, c, duplicates[c])
    {
      TwoAssignments(all, c);
      TwoStatementsIff(sources, c);
      GatheredLists(sources, c);
    }
  }

  // ---------------------------------------------------------------- by statement and by line

  lemma {:induction false} ValuesSize(m: map<nat, nat>)
    ensures |m.Values| <= |m|
    ensures |m.Values| == |m| <==> forall i, j | i in m && j in m && i != j :: m[i] != m[j]
  {
    if m != map[] {
      var k :| k in m;
      var rest := m - {k};
      ValuesSize(rest);
      forall v | v in m.Values ensures v in rest.Values + {m[k]} {
        var i :| i in m && m[i] == v;
        assert i == k || i in rest;
      }
      assert m.Values == rest.Values + {m[k]};
      assert |m| == |rest| + 1;
      assert forall i | i in rest :: rest[i] == m[i];
      if m[k] in rest.Values {
        assert m.Values == rest.Values;
      }
    }
  }

  /**
   The documentation counts lines and lists each once; the code counts and lists statements. What the
   first reports the second does too, and the reports agree exactly when no two statements that assign
   the constant stand on one line.
   */
  lemma {:induction false} ReportsAgreeIff(sources: seq<Source>, c: Constant)
    requires Scanned(sources) && forall a | Assigns(sources, c, a) :: IsAssign(a) && a.line != 0
    ensures var m := AssignsOf(AllReads(sources), c);
            && (|m.Values| > 1 ==> |m| > 1)
            && ((|m| > 1 ==> |m.Values| == |m|) <==>
                forall a, b | Assigns(sources, c, a) && Assigns(sources, c, b) && a != b :: a.line != b.line)
  {
    var m := AssignsOf(AllReads(sources), c);
    ValuesSize(m);
    TwoStatementsIff(sources, c);
    LinesOf(sources, c);
  }

  lemma {:induction false} LinesOf(sources: seq<Source>, c: Constant)
    requires Scanned(sources) && forall a | Assigns(sources, c, a) :: IsAssign(a) && a.line != 0
    ensures var m := AssignsOf(AllReads(sources), c);
            (forall i, j | i in m && j in m && i != j :: m[i] != m[j]) <==>
            forall a, b | Assigns(sources, c, a) && Assigns(sources, c, b) && a != b :: a.line != b.line
  {
    var m := AssignsOf(AllReads(sources), c);
    if forall i, j | i in m && j in m && i != j :: m[i] != m[j] {
      forall a, b | Assigns(sources, c, a) && Assigns(sources, c, b) && a != b
        ensures a.line != b.line
      {
        OneStatement(sources, c, a, b);
        GatheredLine(sources, c, a);
        GatheredLine(sources, c, b);
      }
    } else {
      var i, j :| i in m && j in m && i != j && m[i] == m[j];
      GatheredIff(sources, c, i);
      GatheredIff(sources, c, j);
      var a :| Assigns(sources, c, a) && AssignId(a, i);
      var b :| Assigns(sources, c, b) && AssignId(b, j);
      GatheredLine(sources, c, a);
      GatheredLine(sources, c, b);
      assert a != b && a.line == b.line;
    }
  }

  /** Two assignments of a constant on one line: `X = getenv("A"); X = getenv("A")`. */
  function OneLine(file: string, name: string, variable: string): Source {
    var call := Call(Attribute("getenv", Elsewhere), Some(variable));
    var first := Node(1, 1, Assign(Some(name)), [Node(2, 1, call, [])]);
    var second := Node(3, 1, Assign(Some(name)), [Node(4, 1, call, [])]);
    Source(file, Some(Node(0, 1, Plain, [first, second])), Aliases({}, {}))
  }

  lemma {:induction false} OneLineAssigns(file: string, name: string, variable: string, k: nat)
    requires IsVarName(name) && IsVarName(variable) && k < 2
    ensures Assigns([OneLine(file, name, variable)], Constant(file, name),
                OneLine(file, name, variable).tree.value.children[k])
  {
    var s := OneLine(file, name, variable);
    var tree := s.tree.value;
    var a := tree.children[k];
    var n, above := a.children[0], [a, tree];
    assert above[1..] == [tree] && [tree][1..] == [];
    assert IsChain(tree, tree, []) && IsChain(tree, a, [tree]);
    assert AssignsFrom(tree, s.aliases, name, a, n, above, 0);
    assert AssignsIn([s][0], Constant(file, name), a);
  }

  predicate OnLineOne(t: Tree) { t.Node? && t.line == 1 }

  lemma {:induction false} OneLineIsScanned(file: string, name: string, variable: string)
    ensures Scanned([OneLine(file, name, variable)])
    ensures forall n | n in Preorder(OneLine(file, name, variable).tree.value) :: OnLineOne(n)
  {
    var tree := OneLine(file, name, variable).tree.value;
    var first, second := tree.children[0], tree.children[1];
    OneRead(first);
    OneRead(second);
    assert tree.children == [first] + [second];
    TwoChildren(first, second);
    assert Unique(tree) && SharedIn(tree) == {};
    assert Preorder(tree) == [tree] + (Preorder(first) + Preorder(second));
  }

  lemma {:induction false} TwoChildren(a: Tree, b: Tree)
    ensures CoreOf([a, b]) == Core(a) + Core(b) && SharedInAny([a, b]) == SharedIn(a) + SharedIn(b)
    ensures UniqueAll([a, b]) <==> Unique(a) && Unique(b) && Core(a) !! Core(b)
    ensures PreorderAll([a, b]) == Preorder(a) + Preorder(b)
  {
    assert [a, b][1..] == [b];
    OneChild(b);
  }

  lemma {:induction false} OneChild(a: Tree)
    ensures CoreOf([a]) == Core(a) && SharedInAny([a]) == SharedIn(a) && PreorderAll([a]) == Preorder(a)
    ensures UniqueAll([a]) <==> Unique(a)
  {
    assert [a][1..] == [];
  }

  lemma {:induction false} OneRead(t: Tree)
    requires OnLineOne(t) && |t.children| == 1 && OnLineOne(t.children[0]) && t.children[0].children == []
    requires t.id != t.children[0].id
    ensures Unique(t) && Core(t) == {t.id, t.children[0].id} && SharedIn(t) == {}
    ensures forall n | n in Preorder(t) :: OnLineOne(n)
  {
    var leaf := t.children[0];
    assert t.children == [leaf];
    OneChild(leaf);
    assert CoreOf(leaf.children) == {} && PreorderAll(leaf.children) == [] && SharedInAny(leaf.children) == {};
    assert Core(leaf) == {leaf.id} && Preorder(leaf) == [leaf];
  }

  /** The code reports such a constant; counted by line it would not be. */
  lemma {:induction false} OneLineIsReported(file: string, name: string, variable: string)
    requires IsVarName(name) && IsVarName(variable)
    ensures var sources := [OneLine(file, name, variable)];
            var m := AssignsOf(AllReads(sources), Constant(file, name));
            Scanned(sources) && |m| > 1 && |m.Values| == 1
  {
    var s := OneLine(file, name, variable);
    var c := Constant(file, name);
    var m := AssignsOf(AllReads([s]), c);
    OneLineIsScanned(file, name, variable);
    OneLineAssigns(file, name, variable, 0);
    OneLineAssigns(file, name, variable, 1);
    TwoStatementsIff([s], c);
    forall i | i in m
      ensures m[i] == 1
    {
      GatheredIff([s], c, i);
      var a :| Assigns([s], c, a) && AssignId(a, i);
      AssigningIsNode(s.tree.value, s.aliases, name, a);
      GatheredLine([s], c, a);
    }
    assert m.Values == {1};
  }

}
