/** The migration-chain check: exactly the linear chains pass. */
module RevisionChain {
  import opened Common

  /** What reading one version file yields. */
  datatype VersionFile =
    | NoFields                                             // a revision field is missing
    | BadDown                                              // down_revision is branched or unreadable
    | Version(rev: string, down: Option<string>)

  datatype Outcome =
    | NoFiles | Unparsed | DuplicateId | WrongRoots | Branched | Unreachable
    | Linear(head: string)
  {
    function Code(): int {
      if Linear? then 0 else 1
    }
  }

  type Nodes = map<string, Option<string>>

  /** `order` lists every revision once, from the root down each link to the head. */
  ghost predicate IsChain(nodes: Nodes, order: seq<string>) {
    && order != [] && Distinct(order)
    && (forall r :: r in nodes <==> r in order)
    && nodes[order[0]] == None
    && forall i :: 0 < i < |order| ==> nodes[order[i]] == Some(order[i - 1])
  }

  /** Every file was read and no revision id occurs twice. */
  ghost predicate AllRead(files: seq<VersionFile>) {
    && (forall i :: 0 <= i < |files| ==> files[i].Version?)
    && forall i, j :: IdsDiffer(files, i, j)
  }

  ghost predicate IdsDiffer(files: seq<VersionFile>, i: int, j: int) {
    0 <= i < j < |files| && files[i].Version? && files[j].Version? ==> files[i].rev != files[j].rev
  }

  /** What the first `n` files declare; a later declaration of an id would win. */
  function NodesOf(files: seq<VersionFile>, n: nat): Nodes
    requires n <= |files|
  {
    if n == 0 then map[]
    else if files[n - 1].Version? then NodesOf(files, n - 1)[files[n - 1].rev := files[n - 1].down]
    else NodesOf(files, n - 1)
  }

  /** What the check is for: every file can be read, and they can be put in an order in which
      the first comes after none and each other one after the one before it. */
  ghost predicate LinearChain(files: seq<VersionFile>) {
    files != [] && AllRead(files) && exists order :: InOrder(files, order)
  }

  /** `order` names every file once, by its position in the list. */
  ghost predicate InOrder(files: seq<VersionFile>, order: seq<int>)
    requires AllRead(files)
  {
    && order != [] && Distinct(order)
    && (forall k :: 0 <= k < |order| ==> 0 <= order[k] < |files|) && (forall i :: 0 <= i < |files| ==> i in order)
    && files[order[0]].down == None
    && forall k :: 0 < k < |order| ==> files[order[k]].down == Some(files[order[k - 1]].rev)
  }

  /** The check's dictionary holds what each file says. */
  lemma {:induction false} NodesKeep(files: seq<VersionFile>, n: nat)
    requires AllRead(files) && n <= |files|
    ensures forall i :: 0 <= i < n ==>
              files[i].rev in NodesOf(files, n) && NodesOf(files, n)[files[i].rev] == files[i].down
  {
    if n > 0 {
      NodesKeep(files, n - 1);
      forall i | 0 <= i < n - 1 ensures files[i].rev != files[n - 1].rev {
        assert IdsDiffer(files, i, n - 1);
      }
    }
  }

  function Revs(files: seq<VersionFile>, order: seq<int>): (revs: seq<string>)
    requires forall k :: 0 <= k < |order| ==> 0 <= order[k] < |files| && files[order[k]].Version?
    ensures |revs| == |order| && forall k :: 0 <= k < |order| ==> revs[k] == files[order[k]].rev
  {
    seq(|order|, k requires 0 <= k < |order| => files[order[k]].rev)
  }

  /** An order of the files is a chain of the revisions. */
  lemma {:induction false} OrderIsChain(files: seq<VersionFile>, order: seq<int>)
    requires AllRead(files) && InOrder(files, order)
    ensures IsChain(NodesOf(files, |files|), Revs(files, order))
  {
    var revs, nodes := Revs(files, order), NodesOf(files, |files|);
    NodesKeep(files, |files|);
    NodesHave(files, |files|);
    forall i, j ensures DifferAt(revs, i, j) {
      assert DifferAt(order, i, j);
      if 0 <= i < j < |order| {
        assert IdsDiffer(files, order[i], order[j]) && IdsDiffer(files, order[j], order[i]);
      }
    }
    forall r | r in nodes ensures r in revs {
      var i :| 0 <= i < |files| && files[i].rev == r;
      assert i in order;
      var k :| 0 <= k < |order| && order[k] == i;
      assert revs[k] == r;
    }
  }

  ghost function IndexOf(files: seq<VersionFile>, n: nat, rev: string): (i: int)
    requires n <= |files| && exists i :: 0 <= i < n && files[i].Version? && files[i].rev == rev
    ensures 0 <= i < n && files[i].Version? && files[i].rev == rev
  {
    if files[n - 1].Version? && files[n - 1].rev == rev then n - 1 else IndexOf(files, n - 1, rev)
  }

  /** And a chain of the revisions is an order of the files. */
  lemma {:induction false} ChainIsOrder(files: seq<VersionFile>, revs: seq<string>) returns (order: seq<int>)
    requires AllRead(files) && IsChain(NodesOf(files, |files|), revs)
    ensures InOrder(files, order) && Revs(files, order) == revs
  {
    NodesKeep(files, |files|);
    NodesHave(files, |files|);
    assert forall k :: 0 <= k < |revs| ==> revs[k] in revs;
    order := seq(|revs|, k requires 0 <= k < |revs| => IndexOf(files, |files|, revs[k]));
    forall i, j ensures DifferAt(order, i, j) {
      assert DifferAt(revs, i, j);
    }
    forall i | 0 <= i < |files| ensures i in order {
      var k :| 0 <= k < |revs| && revs[k] == files[i].rev;
      assert IdsDiffer(files, order[k], i) && IdsDiffer(files, i, order[k]);
      assert order[k] == i;
    }
  }

  lemma {:induction false} NodesHave(files: seq<VersionFile>, n: nat)
    requires n <= |files|
    ensures forall r :: r in NodesOf(files, n) <==> exists i :: 0 <= i < n && files[i].Version? && files[i].rev == r
  {
    if n > 0 {
      NodesHave(files, n - 1);
    }
  }

  /** Reading pass: the nodes and their ids in file order, or the first problem met. */
  method ReadNodes(files: seq<VersionFile>) returns (nodes: Nodes, ids: seq<string>, problem: Option<Outcome>)
    ensures problem == None <==> AllRead(files)
    ensures problem.Some? ==> problem.value.Unparsed? || problem.value.DuplicateId?
    ensures files == [] ==> problem == None
    ensures problem == None ==>
              nodes == NodesOf(files, |files|) && Distinct(ids) && forall r :: r in nodes <==> r in ids
  {
    nodes, ids, problem := map[], [], None;
    for n := 0 to |files|
      invariant nodes == NodesOf(files, n)
      invariant Distinct(ids) && forall r :: r in nodes <==> r in ids
      invariant forall i :: 0 <= i < n ==> files[i].Version?
      invariant forall i, j :: j < n ==> IdsDiffer(files, i, j)
    {
      match files[n]
      case NoFields => return nodes, ids, Some(Unparsed);
      case BadDown => return nodes, ids, Some(Unparsed);
      case Version(rev, down) =>
        NodesHave(files, n);
        if rev in nodes {
          var i :| 0 <= i < n && files[i].Version? && files[i].rev == rev;
          assert !IdsDiffer(files, i, n);
          return nodes, ids, Some(DuplicateId);
        }
        DistinctSnoc(ids, rev);
        nodes := nodes[rev := down];
        ids := ids + [rev];
    }
  }

  /** The children of `parent`, in file order, among the first `n` ids. */
  function Kids(nodes: Nodes, ids: seq<string>, n: nat, parent: Option<string>): seq<string>
    requires n <= |ids| && forall r :: r in ids ==> r in nodes
  {
    if n == 0 then []
    else if nodes[ids[n - 1]] == parent then Kids(nodes, ids, n - 1, parent) + [ids[n - 1]]
    else Kids(nodes, ids, n - 1, parent)
  }

  lemma {:induction false} KidsAre(nodes: Nodes, ids: seq<string>, n: nat, parent: Option<string>)
    requires n <= |ids| && (forall r :: r in ids ==> r in nodes) && Distinct(ids)
    ensures forall r :: r in Kids(nodes, ids, n, parent) <==> r in ids[..n] && nodes[r] == parent
    ensures Distinct(Kids(nodes, ids, n, parent))
  {
    if n > 0 {
      KidsAre(nodes, ids, n - 1, parent);
      DistinctAt(ids, n - 1);
      assert ids[..n] == ids[..n - 1] + [ids[n - 1]];
      if nodes[ids[n - 1]] == parent {
        DistinctSnoc(Kids(nodes, ids, n - 1, parent), ids[n - 1]);
      }
    }
  }

  /** Second pass: parents and their children. */
  method CollectChildren(nodes: Nodes, ids: seq<string>) returns (children: map<Option<string>, seq<string>>)
    requires forall r :: r in ids ==> r in nodes
    ensures forall p :: p in children <==> Kids(nodes, ids, |ids|, p) != []
    ensures forall p :: p in children ==> children[p] == Kids(nodes, ids, |ids|, p)
  {
    children := map[];
    for n := 0 to |ids|
      invariant forall p :: p in children <==> Kids(nodes, ids, n, p) != []
      invariant forall p :: p in children ==> children[p] == Kids(nodes, ids, n, p)
    {
      var down := nodes[ids[n]];
      if down !in children {
        children := children[down := []];
      }
      children := children[down := children[down] + [ids[n]]];
    }
  }

  // ----- The walk from the root -----

  /** A path that starts at the root and follows the links; the part of the list the walk
      has seen so far. */
  ghost predicate Path(nodes: Nodes, order: seq<string>) {
    && Distinct(order)
    && (forall i :: 0 <= i < |order| ==> order[i] in nodes)
    && (order != [] ==> nodes[order[0]] == None)
    && forall i :: 0 < i < |order| ==> nodes[order[i]] == Some(order[i - 1])
  }

  /** `c` is where the path goes next. */
  ghost predicate Next(nodes: Nodes, order: seq<string>, c: string) {
    c in nodes && nodes[c] == if order == [] then None else Some(order[|order| - 1])
  }

  /** The walk never comes back to a revision it has seen, so there is no cycle to find. */
  lemma {:induction false} NextIsNew(nodes: Nodes, order: seq<string>, c: string)
    requires Path(nodes, order) && Next(nodes, order, c)
    ensures c !in order && Path(nodes, order + [c])
  {
    forall i | 0 <= i < |order| ensures order[i] != c {
      assert DifferAt(order, i - 1, |order| - 1);
    }
    DistinctSnoc(order, c);
  }

  /** Any linear chain begins with the path the walk takes. */
  lemma {:induction false} PathIsPrefix(nodes: Nodes, order: seq<string>, chain: seq<string>, i: nat)
    requires Path(nodes, order) && IsChain(nodes, chain) && i < |order|
    ensures i < |chain| && order[i] == chain[i]
  {
    assert order[i] in chain;
    var j :| 0 <= j < |chain| && chain[j] == order[i];
    assert j > 0 ==> nodes[chain[j]] == Some(chain[j - 1]);
    if i > 0 {
      PathIsPrefix(nodes, order, chain, i - 1);
      assert j > 0 && chain[j - 1] == chain[i - 1];
      assert DifferAt(chain, j - 1, i - 1) && DifferAt(chain, i - 1, j - 1);
    }
  }

  /** If the walk ended and left something out, there is no linear chain. */
  lemma {:induction false} WalkCovers(nodes: Nodes, order: seq<string>, chain: seq<string>)
    requires Path(nodes, order) && order != [] && IsChain(nodes, chain)
    requires forall c :: !Next(nodes, order, c)
    ensures forall r :: r in nodes ==> r in order
  {
    PathIsPrefix(nodes, order, chain, |order| - 1);
    if |order| < |chain| {
      assert chain[|order|] in nodes;
      assert Next(nodes, order, chain[|order|]);
    }
    forall r | r in nodes ensures r in order {
      var j :| 0 <= j < |chain| && chain[j] == r;
      PathIsPrefix(nodes, order, chain, j);
    }
  }

  /** In a linear chain a revision has at most one child, and there is one root. */
  lemma {:induction false} ChainKids(nodes: Nodes, ids: seq<string>, chain: seq<string>, parent: Option<string>)
    requires IsChain(nodes, chain) && Distinct(ids) && forall r :: r in ids <==> r in nodes
    ensures |Kids(nodes, ids, |ids|, parent)| <= 1
    ensures |Kids(nodes, ids, |ids|, None)| == 1
  {
    KidsAre(nodes, ids, |ids|, parent);
    KidsAre(nodes, ids, |ids|, None);
    assert ids[..|ids|] == ids;
    OneKid(nodes, chain, Kids(nodes, ids, |ids|, parent), parent);
    OneKid(nodes, chain, Kids(nodes, ids, |ids|, None), None);
    assert chain[0] in nodes;
    assert chain[0] in Kids(nodes, ids, |ids|, None);
  }

  lemma {:induction false} SameKid(nodes: Nodes, chain: seq<string>, a: string, b: string)
    requires IsChain(nodes, chain) && a in nodes && b in nodes && nodes[a] == nodes[b]
    ensures a == b
  {
    var i :| 0 <= i < |chain| && chain[i] == a;
    var j :| 0 <= j < |chain| && chain[j] == b;
    assert i > 0 ==> nodes[chain[i]] == Some(chain[i - 1]);
    assert j > 0 ==> nodes[chain[j]] == Some(chain[j - 1]);
    assert DifferAt(chain, i - 1, j - 1) && DifferAt(chain, j - 1, i - 1);
  }

  lemma {:induction false} OneKid(nodes: Nodes, chain: seq<string>, kids: seq<string>, parent: Option<string>)
    requires IsChain(nodes, chain) && Distinct(kids)
    requires forall r :: r in kids ==> r in nodes && nodes[r] == parent
    ensures |kids| <= 1
  {
    assert DifferAt(kids, 0, 1);
    if |kids| > 1 {
      assert kids[0] in kids && kids[1] in kids;
      SameKid(nodes, chain, kids[0], kids[1]);
    }
  }

  /** Whether some parent has two children. */
  method FindBranch(children: map<Option<string>, seq<string>>) returns (branched: bool)
    ensures branched <==> exists p :: p in children && |children[p]| > 1
  {
    var parents := children.Keys;
    while parents != {}
      invariant parents <= children.Keys
      invariant forall p :: p in children && p !in parents ==> |children[p]| <= 1
      decreases |parents|
    {
      var p :| p in parents;
      if |children[p]| > 1 {
        return true;
      }
      parents := parents - {p};
    }
    return false;
  }

  /** Walk root to head. The cycle and dangling branches of the walk are dead code. */
  method Walk(nodes: Nodes, ids: seq<string>, children: map<Option<string>, seq<string>>, root: string)
    returns (order: seq<string>, seen: set<string>)
    requires Distinct(ids) && forall r :: r in ids <==> r in nodes
    requires forall p :: p in children <==> Kids(nodes, ids, |ids|, p) != []
    requires forall p :: p in children ==> children[p] == Kids(nodes, ids, |ids|, p) && |children[p]| == 1
    requires root in nodes && nodes[root] == None
    ensures Path(nodes, order) && order != [] && forall c :: !Next(nodes, order, c)
    ensures forall r :: r in seen <==> r in order
  {
    order, seen := [], {};
    var cur := Some(root);
    assert ids[..|ids|] == ids;
    while cur.Some?
      invariant Path(nodes, order) && forall r :: r in seen <==> r in order
      invariant cur.Some? ==> Next(nodes, order, cur.value)
      invariant cur.None? ==> order != [] && forall c :: !Next(nodes, order, c)
      decreases nodes.Keys - seen, cur.Some?
    {
      var c := cur.value;
      NextIsNew(nodes, order, c);
      if c in seen {
        assert false;
      }
      if c !in nodes {
        assert false;
      }
      seen := seen + {c};
      order := order + [c];
      KidsAre(nodes, ids, |ids|, Some(c));
      var kids := if Some(c) in children then children[Some(c)] else [];
      if kids != [] {
        assert kids[0] in kids;
        cur := Some(kids[0]);
      } else {
        cur := None;
      }
    }
  }

  ghost predicate HasChain(nodes: Nodes) {
    exists order :: IsChain(nodes, order)
  }

  ghost predicate OneRoot(nodes: Nodes) {
    exists root :: root in nodes && nodes[root] == None && forall r :: r in nodes && nodes[r] == None ==> r == root
  }

  ghost predicate SharedParent(nodes: Nodes) {
    exists a, b :: a in nodes && b in nodes && a != b && nodes[a] == nodes[b]
  }

  /** What the child lists say of roots and branches. */
  lemma {:induction false} KidsCount(nodes: Nodes, ids: seq<string>)
    requires Distinct(ids) && forall r :: r in ids <==> r in nodes
    ensures |Kids(nodes, ids, |ids|, None)| == 1 <==> OneRoot(nodes)
    ensures (exists p :: |Kids(nodes, ids, |ids|, p)| > 1) <==> SharedParent(nodes)
  {
    assert ids[..|ids|] == ids;
    KidsAre(nodes, ids, |ids|, None);
    var roots := Kids(nodes, ids, |ids|, None);
    if |roots| == 1 {
      assert roots[0] in roots;
    }
    if |roots| > 1 {
      assert DifferAt(roots, 0, 1) && roots[0] in roots && roots[1] in roots;
    }
    if p :| |Kids(nodes, ids, |ids|, p)| > 1 {
      KidsAre(nodes, ids, |ids|, p);
      var kids := Kids(nodes, ids, |ids|, p);
      assert DifferAt(kids, 0, 1) && kids[0] in kids && kids[1] in kids;
    }
    if a, b :| a in nodes && b in nodes && a != b && nodes[a] == nodes[b] {
      KidsAre(nodes, ids, |ids|, nodes[a]);
      assert a in Kids(nodes, ids, |ids|, nodes[a]) && b in Kids(nodes, ids, |ids|, nodes[a]);
    }
  }

  /** Roots, branches and the walk, once the files are read. */
  method CheckNodes(nodes: Nodes, ids: seq<string>) returns (r: Outcome)
    requires Distinct(ids) && forall r :: r in ids <==> r in nodes
    ensures r.Linear? <==> HasChain(nodes)
    ensures r.Linear? ==> exists order :: IsChain(nodes, order) && order[|order| - 1] == r.head
    ensures r.WrongRoots? <==> !OneRoot(nodes)
    ensures r.Branched? <==> OneRoot(nodes) && SharedParent(nodes)
    ensures r.Linear? || r.WrongRoots? || r.Branched? || r.Unreachable?
  {
    var children := CollectChildren(nodes, ids);
    KidsAre(nodes, ids, |ids|, None);
    KidsCount(nodes, ids);
    assert ids[..|ids|] == ids;
    forall chain, p | IsChain(nodes, chain)
      ensures |Kids(nodes, ids, |ids|, p)| <= 1 && |Kids(nodes, ids, |ids|, None)| == 1
    {
      ChainKids(nodes, ids, chain, p);
    }
    var roots := if None in children then children[None] else [];
    if |roots| != 1 {
      return WrongRoots;
    }
    var branched := FindBranch(children);
    if branched {
      ghost var p :| p in children && |children[p]| > 1;
      assert |Kids(nodes, ids, |ids|, p)| > 1;
      return Branched;
    }
    assert roots[0] in roots;
    var order, seen := Walk(nodes, ids, children, roots[0]);
    var missing := nodes.Keys - seen;
    if missing != {} {
      forall chain | IsChain(nodes, chain) ensures false {
        WalkCovers(nodes, order, chain);
      }
      return Unreachable;
    }
    forall r ensures r in nodes <==> r in order {
      assert r in missing <==> r in nodes && r !in seen;
      if r in order {
        var i :| 0 <= i < |order| && order[i] == r;
      }
    }
    assert IsChain(nodes, order);
    return Linear(order[|order| - 1]);
  }

  lemma {:induction false} LinearIff(files: seq<VersionFile>)
    requires files != [] && AllRead(files)
    ensures LinearChain(files) <==> HasChain(NodesOf(files, |files|))
  {
    if order :| InOrder(files, order) {
      OrderIsChain(files, order);
    }
    if revs :| IsChain(NodesOf(files, |files|), revs) {
      var order := ChainIsOrder(files, revs);
    }
  }

  /** The check returns 0 exactly on the linear chains, and then names the revision of the last
      file in order. */
  method CheckRevisionChain(files: seq<VersionFile>) returns (r: Outcome)
    ensures r.Code() == 0 <==> LinearChain(files)
    ensures r.NoFiles? <==> files == []
    ensures r.Unparsed? || r.DuplicateId? <==> files != [] && !AllRead(files)
    ensures r.Linear? ==> exists order :: InOrder(files, order) && files[order[|order| - 1]].rev == r.head
  {
    if files == [] {
      return NoFiles;
    }
    var nodes, ids, problem := ReadNodes(files);
    if problem.Some? {
      return problem.value;
    }
    LinearIff(files);
    r := CheckNodes(nodes, ids);
    if r.Linear? {
      ghost var revs :| IsChain(nodes, revs) && revs[|revs| - 1] == r.head;
      ghost var order := ChainIsOrder(files, revs);
      assert Revs(files, order)[|order| - 1] == files[order[|order| - 1]].rev;
    }
  }
}
