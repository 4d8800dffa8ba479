/** The browser's OID trees: the one-pass subtree listing and the nearest-ancestor map. */
module OidTree {
  import opened Text
  import opened Lists
  import opened Sorting
  import opened NotificationReplay

  datatype Node = Node(oid: Oid, name: string)

  /** A child as listed, with the flag that lets it be expanded. */
  datatype Child = Child(node: Node, hasChildren: bool)

  /* ---- naive definitions ---- */

  function DirectlyUnder(root: Oid): Node -> bool {
    (n: Node) => root < n.oid && |n.oid| == |root| + 1
  }

  function StrictlyUnder(root: Oid): Node -> bool {
    (n: Node) => root < n.oid
  }

  predicate HasBelow(nodes: seq<Node>, oid: Oid) {
    exists n | n in nodes :: oid < n.oid
  }

  function Children(nodes: seq<Node>, root: Oid): seq<Child> {
    var direct := Filter(nodes, DirectlyUnder(root));
    seq(|direct|, k requires 0 <= k < |direct| => Child(direct[k], HasBelow(nodes, direct[k].oid)))
  }

  predicate ByText(a: Child, b: Child) {
    StrLe(OidToStr(a.node.oid), OidToStr(b.node.oid))
  }

  /* ---- the one-pass listing ---- */

  /** A node deeper than a child marks its ancestor one arc below the root. */
  ghost predicate Marks(root: Oid, n: Node, m: Oid) {
    root < m < n.oid && |m| == |root| + 1
  }

  lemma MarkedAncestor(root: Oid, n: Node, m: Oid)
    ensures Marks(root, n, m) <==> root < n.oid && |n.oid| > |root| + 1 && m == n.oid[..|root| + 1]
  {}

  ghost predicate Marked(nodes: seq<Node>, root: Oid, m: Oid) {
    exists n | n in nodes :: Marks(root, n, m)
  }

  lemma MarkedStep(nodes: seq<Node>, i: nat, root: Oid, m: Oid)
    requires i < |nodes|
    ensures Marked(nodes[..i + 1], root, m) <==> Marked(nodes[..i], root, m) || Marks(root, nodes[i], m)
  {}

  /** One pass collects the direct children, marks the child-level ancestors of deeper nodes, and
      counts. */
  method Scan(nodes: seq<Node>, root: Oid) returns (direct: seq<Node>, marked: set<Oid>, descendants: nat)
    ensures direct == Filter(nodes, DirectlyUnder(root))
    ensures descendants == |Filter(nodes, StrictlyUnder(root))|
    ensures forall m :: m in marked <==> Marked(nodes, root, m)
  {
    direct, marked, descendants := [], {}, 0;
    for i := 0 to |nodes|
      invariant direct == Filter(nodes[..i], DirectlyUnder(root))
      invariant descendants == |Filter(nodes[..i], StrictlyUnder(root))|
      invariant forall m :: m in marked <==> Marked(nodes[..i], root, m)
    {
      var n := nodes[i];
      FilterStep(nodes, i, DirectlyUnder(root));
      FilterStep(nodes, i, StrictlyUnder(root));
      forall m ensures Marked(nodes[..i + 1], root, m) <==>
        Marked(nodes[..i], root, m) || (root < n.oid && |n.oid| > |root| + 1 && m == n.oid[..|root| + 1])
      {
        MarkedStep(nodes, i, root, m);
        MarkedAncestor(root, n, m);
      }
      if |n.oid| <= |root| || n.oid[..|root|] != root {
        continue;
      }
      descendants := descendants + 1;
      if |n.oid| > |root| + 1 {
        marked := marked + {n.oid[..|root| + 1]};
      } else {
        direct := direct + [n];
      }
    }
    assert nodes[..|nodes|] == nodes;
  }

  lemma MarkedMeansBelow(nodes: seq<Node>, root: Oid, m: Oid)
    requires root < m && |m| == |root| + 1
    ensures Marked(nodes, root, m) <==> HasBelow(nodes, m)
  {}

  lemma DirectChild(nodes: seq<Node>, root: Oid, i: nat)
    requires i < |Filter(nodes, DirectlyUnder(root))|
    ensures var n := Filter(nodes, DirectlyUnder(root))[i]; root < n.oid && |n.oid| == |root| + 1
  {}

  /** Flags each direct child by set lookup. */
  method FlagChildren(nodes: seq<Node>, root: Oid, direct: seq<Node>, marked: set<Oid>) returns (records: seq<Child>)
    requires direct == Filter(nodes, DirectlyUnder(root))
    requires forall m :: m in marked <==> Marked(nodes, root, m)
    ensures records == Children(nodes, root)
  {
    records := [];
    for i := 0 to |direct|
      invariant |records| == i
      invariant forall k | 0 <= k < i :: records[k] == Child(direct[k], HasBelow(nodes, direct[k].oid))
    {
      DirectChild(nodes, root, i);
      MarkedMeansBelow(nodes, root, direct[i].oid);
      records := records + [Child(direct[i], direct[i].oid in marked)];
    }
  }

  /** The listing equals the naive definition: children one arc down, each flagged exactly when some
      node lies strictly below it, sorted by dotted text, and an exact descendant count. */
  method GetOidTree(nodes: seq<Node>, root: Oid) returns (children: seq<Child>, descendants: nat)
    ensures children == SortBy(Children(nodes, root), ByText)
    ensures descendants == |Filter(nodes, StrictlyUnder(root))|
  {
    var direct, marked;
    direct, marked, descendants := Scan(nodes, root);
    var records := FlagChildren(nodes, root, direct, marked);
    children := SortBy(records, ByText);
  }

  lemma ByTextOrder()
    ensures TotalPreorder(ByText)
  {
    forall x, y ensures ByText(x, y) || ByText(y, x) {
      StrLeTotal(OidToStr(x.node.oid), OidToStr(y.node.oid));
    }
    forall x, y, z | ByText(x, y) && ByText(y, z) ensures ByText(x, z) {
      StrLeTransitive(OidToStr(x.node.oid), OidToStr(y.node.oid), OidToStr(z.node.oid));
    }
  }

  /** Sorting the listing keeps every child as often as it occurs. */
  lemma ListingKeepsChildren(nodes: seq<Node>, root: Oid)
    ensures multiset(SortBy(Children(nodes, root), ByText)) == multiset(Children(nodes, root))
    ensures SortedBy(SortBy(Children(nodes, root), ByText), ByText)
  {
    ByTextOrder();
    SortByCorrect(Children(nodes, root), ByText);
  }

  lemma MembersOfListing(nodes: seq<Node>, root: Oid, c: Child)
    ensures c in SortBy(Children(nodes, root), ByText) <==> c in Children(nodes, root)
  {
    ListingKeepsChildren(nodes, root);
    assert c in SortBy(Children(nodes, root), ByText) <==> c in multiset(SortBy(Children(nodes, root), ByText));
    assert c in Children(nodes, root) <==> c in multiset(Children(nodes, root));
  }

  /** a is b with one arc, and perhaps more, behind it. */
  ghost predicate IsLonger(a: Oid, b: Oid) {
    exists arc, more :: a == b + [arc] + more
  }

  lemma LongerMeansBelow(a: Oid, b: Oid)
    ensures IsLonger(a, b) <==> b < a
  {
    if b < a {
      var arc, more := a[|b|], a[|b| + 1..];
      assert a == b + [arc] + more;
    }
    if arc, more :| a == b + [arc] + more {
      assert a[..|b|] == b && |a| > |b|;
    }
  }

  lemma BelowByArcs(nodes: seq<Node>, oid: Oid)
    ensures HasBelow(nodes, oid) <==> exists n | n in nodes :: IsLonger(n.oid, oid)
  {
    forall n | n in nodes ensures IsLonger(n.oid, oid) <==> oid < n.oid {
      LongerMeansBelow(n.oid, oid);
    }
  }

  lemma ChildrenMembers(nodes: seq<Node>, root: Oid, c: Child)
    ensures c in Children(nodes, root) <==>
      c.node in Filter(nodes, DirectlyUnder(root)) && c.hasChildren == HasBelow(nodes, c.node.oid)
  {
    var direct := Filter(nodes, DirectlyUnder(root));
    if c in Children(nodes, root) {
      var k :| 0 <= k < |direct| && Children(nodes, root)[k] == c;
      assert direct[k] in direct;
    }
    if c.node in direct && c.hasChildren == HasBelow(nodes, c.node.oid) {
      var k :| 0 <= k < |direct| && direct[k] == c.node;
      assert Children(nodes, root)[k] == c;
    }
  }

  lemma DirectByArc(root: Oid, n: Node)
    ensures DirectlyUnder(root)(n) <==> exists arc :: n.oid == root + [arc]
  {
    if DirectlyUnder(root)(n) {
      var arc := n.oid[|root|];
      assert n.oid == root + [arc];
    }
  }

  /** A child is listed exactly when it is a node with one arc more than the root, flagged as
      expandable exactly when a longer OID starts with its own. */
  lemma ListingByFields(nodes: seq<Node>, root: Oid, c: Child)
    ensures c in SortBy(Children(nodes, root), ByText) <==>
      && c.node in nodes && (exists arc :: c.node.oid == root + [arc])
      && (c.hasChildren <==> exists n | n in nodes :: IsLonger(n.oid, c.node.oid))
  {
    MembersOfListing(nodes, root, c);
    ChildrenMembers(nodes, root, c);
    FilterMembers(nodes, DirectlyUnder(root));
    DirectByArc(root, c.node);
    BelowByArcs(nodes, c.node.oid);
  }

  /** The listing is in the order of the dotted texts. */
  lemma ListingInTextOrder(nodes: seq<Node>, root: Oid)
    ensures var listing := SortBy(Children(nodes, root), ByText);
      forall i, j | 0 <= i < j < |listing| :: StrLe(OidToStr(listing[i].node.oid), OidToStr(listing[j].node.oid))
  {
    ListingKeepsChildren(nodes, root);
  }

  /** The descendants counted are the nodes with at least one arc more than the root. */
  lemma DescendantsByArcs(nodes: seq<Node>, root: Oid)
    ensures var below := Filter(nodes, StrictlyUnder(root));
      && (forall n :: n in below ==> |n.oid| > |root| && n.oid[..|root|] == root)
      && (forall n: Node | |n.oid| > |root| && n.oid[..|root|] == root :: multiset(below)[n] == multiset(nodes)[n])
  {
    FilterMembers(nodes, StrictlyUnder(root));
  }

  /* ---- the nearest-ancestor map ---- */

  function Parent(oid: Oid): Oid {
    if oid == [] then [] else oid[..|oid| - 1]
  }

  function Climb(oids: set<Oid>, p: Oid): Oid {
    if p == [] || p in oids then p else Climb(oids, p[..|p| - 1])
  }

  function Oids(nodes: seq<Node>): set<Oid> {
    set n | n in nodes :: n.oid
  }

  function NearestAncestor(nodes: seq<Node>, oid: Oid): Oid {
    Climb(Oids(nodes), Parent(oid))
  }

  function NearestIs(nodes: seq<Node>, key: Oid): Node -> bool {
    (n: Node) => NearestAncestor(nodes, n.oid) == key
  }

  function ChildrenOf(nodes: seq<Node>, key: Oid): seq<Node> {
    Filter(nodes, NearestIs(nodes, key))
  }

  ghost predicate FiledAt(nodes: seq<Node>, i: nat, children: map<Oid, seq<Node>>, key: Oid)
    requires i <= |nodes|
  {
    var mine := Filter(nodes[..i], NearestIs(nodes, key));
    if key in children then mine != [] && children[key] == mine else mine == []
  }

  /** The first i nodes are filed under their nearest ancestors. */
  ghost predicate Filed(nodes: seq<Node>, i: nat, children: map<Oid, seq<Node>>)
    requires i <= |nodes|
  {
    forall key :: FiledAt(nodes, i, children, key)
  }

  lemma FileOneMore(nodes: seq<Node>, i: nat, children: map<Oid, seq<Node>>, after: map<Oid, seq<Node>>)
    requires i < |nodes| && Filed(nodes, i, children)
    requires var parent := NearestAncestor(nodes, nodes[i].oid);
      after == children[parent := (if parent in children then children[parent] else []) + [nodes[i]]]
    ensures Filed(nodes, i + 1, after)
  {
    var next := i + 1;
    forall key ensures FiledAt(nodes, next, after, key) {
      assert FiledAt(nodes, i, children, key);
      FilterStep(nodes, i, NearestIs(nodes, key));
    }
  }

  lemma AllFiled(nodes: seq<Node>, children: map<Oid, seq<Node>>)
    requires Filed(nodes, |nodes|, children)
    ensures forall key :: key in children <==> ChildrenOf(nodes, key) != []
    ensures forall key | key in children :: children[key] == ChildrenOf(nodes, key)
  {
    assert nodes[..|nodes|] == nodes;
    forall key ensures key in children <==> ChildrenOf(nodes, key) != []
               ensures key in children ==> children[key] == ChildrenOf(nodes, key)
    {
      assert FiledAt(nodes, |nodes|, children, key);
    }
  }

  method BuildChildrenByParent(nodes: seq<Node>) returns (children: map<Oid, seq<Node>>)
    ensures forall key :: key in children <==> ChildrenOf(nodes, key) != []
    ensures forall key | key in children :: children[key] == ChildrenOf(nodes, key)
  {
    var oids := Oids(nodes);
    children := map[];
    for i := 0 to |nodes|
      invariant Filed(nodes, i, children)
    {
      var n := nodes[i];
      var parent := Parent(n.oid);
      while parent != [] && parent !in oids
        invariant Climb(oids, parent) == NearestAncestor(nodes, n.oid)
        decreases |parent|
      {
        parent := parent[..|parent| - 1];
      }
      var after := children[parent := (if parent in children then children[parent] else []) + [n]];
      FileOneMore(nodes, i, children, after);
      children := after;
    }
    AllFiled(nodes, children);
  }

  lemma {:induction false} ClimbIsLongest(oids: set<Oid>, p: Oid)
    ensures var a := Climb(oids, p);
      a <= p && (a == [] || a in oids) && forall q | q in oids && q <= p :: q <= a
  {
    if p != [] && p !in oids {
      ClimbIsLongest(oids, p[..|p| - 1]);
      forall q | q in oids && q <= p ensures q <= p[..|p| - 1] {
        assert q != p;
      }
    }
  }

  /** The key of a node is its longest proper prefix that is present, or empty. */
  lemma NearestIsLongestPrefix(nodes: seq<Node>, oid: Oid)
    requires oid != []
    ensures var a := NearestAncestor(nodes, oid);
      && a < oid && (a == [] || a in Oids(nodes))
      && forall q | q in Oids(nodes) && q < oid :: q <= a
  {
    ClimbIsLongest(Oids(nodes), Parent(oid));
    forall q | q in Oids(nodes) && q < oid ensures q <= Parent(oid) {}
  }

  function Placements(nodes: seq<Node>, n: Node, key: Oid): nat {
    if key == NearestAncestor(nodes, n.oid) then multiset(nodes)[n] else 0
  }

  /** Every node is placed under its nearest ancestor, as often as it occurs, and nowhere else. */
  lemma EachNodePlacedOnce(nodes: seq<Node>, n: Node)
    ensures forall key :: multiset(ChildrenOf(nodes, key))[n] == Placements(nodes, n, key)
  {
    forall key ensures multiset(ChildrenOf(nodes, key))[n] == Placements(nodes, n, key) {
      FilterMembers(nodes, NearestIs(nodes, key));
    }
  }

  /** b is a node filed under a, which is shorter. */
  ghost predicate FiledUnder(nodes: seq<Node>, a: Oid, b: Oid) {
    b in Oids(nodes) && a == NearestAncestor(nodes, b) && a < b
  }

  /** A descent from the virtual root, each step to a node filed under the one before. */
  ghost predicate Descent(nodes: seq<Node>, path: seq<Oid>) {
    && path != [] && path[0] == []
    && forall k | 1 <= k < |path| :: FiledUnder(nodes, path[k - 1], path[k])
  }

  /** The map is a forest that reaches every node: a strictly lengthening descent leads from the
      virtual root to each node. */
  lemma {:induction false} ForestCoversNode(nodes: seq<Node>, oid: Oid) returns (path: seq<Oid>)
    requires oid in Oids(nodes) && [] !in Oids(nodes)
    ensures Descent(nodes, path) && path[|path| - 1] == oid
    decreases |oid|
  {
    var a := NearestAncestor(nodes, oid);
    assert oid != [];
    NearestIsLongestPrefix(nodes, oid);
    if a == [] {
      path := [[], oid];
    } else {
      var above := ForestCoversNode(nodes, a);
      path := above + [oid];
      forall k | 1 <= k < |path| ensures FiledUnder(nodes, path[k - 1], path[k]) {
        if k < |above| {
          assert FiledUnder(nodes, above[k - 1], above[k]);
        }
      }
    }
  }

  lemma {:induction false} FindChild(nodes: seq<Node>, oid: Oid, n: Node) returns (m: Node)
    requires oid in Oids(nodes) && oid != [] && n in nodes && oid < n.oid
    ensures m in nodes && NearestAncestor(nodes, m.oid) == oid
    decreases |n.oid|
  {
    NearestIsLongestPrefix(nodes, n.oid);
    var a := NearestAncestor(nodes, n.oid);
    if a == oid {
      m := n;
    } else {
      var above :| above in nodes && above.oid == a;
      m := FindChild(nodes, oid, above);
    }
  }

  /** A present node has children in the map exactly when some node lies strictly below it, so both
      trees flag the same nodes as expandable. */
  lemma MapHasChildrenExactlyWhen(nodes: seq<Node>, oid: Oid)
    requires oid in Oids(nodes) && [] !in Oids(nodes)
    ensures ChildrenOf(nodes, oid) != [] <==> HasBelow(nodes, oid)
  {
    FilterMembers(nodes, NearestIs(nodes, oid));
    var kids := ChildrenOf(nodes, oid);
    if kids != [] {
      assert kids[0] in kids;
      assert kids[0].oid in Oids(nodes);
      NearestIsLongestPrefix(nodes, kids[0].oid);
    }
    if HasBelow(nodes, oid) {
      var n :| n in nodes && oid < n.oid;
      var m := FindChild(nodes, oid, n);
      assert m in kids;
    }
  }

  /** A node shown at the top level of its module, its direct parent being absent, is listed again
      under another node exactly when a more distant ancestor is present. */
  lemma TopLevelIsListedAgainExactlyWhen(nodes: seq<Node>, n: Node)
    requires n in nodes && [] !in Oids(nodes) && Parent(n.oid) !in Oids(nodes)
    ensures (exists key | key in Oids(nodes) :: n in ChildrenOf(nodes, key)) <==>
      (exists q | q in Oids(nodes) :: q < n.oid)
  {
    assert n.oid in Oids(nodes);
    NearestIsLongestPrefix(nodes, n.oid);
    var a := NearestAncestor(nodes, n.oid);
    FilterMembers(nodes, NearestIs(nodes, a));
    assert n in ChildrenOf(nodes, a);
    if key :| key in Oids(nodes) && n in ChildrenOf(nodes, key) {
      FilterMembers(nodes, NearestIs(nodes, key));
      assert key == a;
    }
  }
}
