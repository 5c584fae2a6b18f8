// The research tree screen (components/ResearchView.tsx): each project's
// tier as the longest prerequisite chain below it, computed with a memo
// table; the node list ordered by tier, the columns per tier and the
// prerequisite connections; and the start/locked flags of a node.

module ResearchTree {
  import opened Types
  import opened Sorting
  import opened Strategy

  const NODE_WIDTH: int := 200
  const NODE_HEIGHT: int := 160
  const HORIZONTAL_SPACING: int := 80
  const VERTICAL_SPACING: int := 40

  /** A tree node: the project and its tier (its column). */
  datatype TreeNode = TreeNode(project: ResearchProject, tier: nat)

  /** A drawn edge from a prerequisite's node to its dependent's node. */
  datatype Connection = Connection(from: TreeNode, to: TreeNode)

  function Max(a: nat, b: nat): nat
  {
    if a >= b then a else b
  }

  /**
   * The catalog's prerequisite graph is acyclic, witnessed by a numbering of
   * the projects in which every known prerequisite sits strictly lower. The
   * source has no cycle guard, so a cyclic catalog would not terminate.
   */
  ghost predicate Layered(c: map<string, ResearchProject>, lv: map<string, nat>)
  {
    && (forall id :: id in c ==> id in lv)
    && forall id, k :: id in c && 0 <= k < |c[id].prerequisites| && c[id].prerequisites[k] in c ==>
         lv[c[id].prerequisites[k]] < lv[id]
  }

  /**
   * A project's tier: 0 for an unknown id or a project without
   * prerequisites, otherwise one more than its highest prerequisite.
   */
  ghost function Tier(c: map<string, ResearchProject>, lv: map<string, nat>, id: string): (r: nat)
    requires Layered(c, lv)
    ensures r == 0 <==> id !in c || |c[id].prerequisites| == 0
    decreases if id in c then lv[id] else 0, if id in c then |c[id].prerequisites| + 1 else 0
  {
    if id !in c || |c[id].prerequisites| == 0 then 0
    else PrerequisiteTier(c, lv, id, |c[id].prerequisites|)
  }

  /** The source's running maximum over the first `n` prerequisites, starting at 0. */
  ghost function PrerequisiteTier(c: map<string, ResearchProject>, lv: map<string, nat>, id: string, n: nat): nat
    requires Layered(c, lv) && id in c && n <= |c[id].prerequisites|
    decreases lv[id], n
  {
    if n == 0 then 0
    else Max(PrerequisiteTier(c, lv, id, n - 1), Tier(c, lv, c[id].prerequisites[n - 1]) + 1)
  }

  lemma {:induction false} PrerequisiteTierBounds(c: map<string, ResearchProject>, lv: map<string, nat>, id: string, n: nat)
    requires Layered(c, lv) && id in c && n <= |c[id].prerequisites|
    ensures forall k :: 0 <= k < n ==> PrerequisiteTier(c, lv, id, n) > Tier(c, lv, c[id].prerequisites[k])
    ensures n > 0 ==> exists k :: 0 <= k < n && PrerequisiteTier(c, lv, id, n) == Tier(c, lv, c[id].prerequisites[k]) + 1
  {
    if n > 0 {
      PrerequisiteTierBounds(c, lv, id, n - 1);
    }
  }

  /**
   * A project with prerequisites is exactly one tier above the highest of
   * them: above every one, and one above some one. An unknown prerequisite
   * counts as tier 0, so depending on one puts a project at tier 1 or more.
   */
  lemma TierAbovePrerequisites(c: map<string, ResearchProject>, lv: map<string, nat>, id: string)
    requires Layered(c, lv) && id in c && |c[id].prerequisites| > 0
    ensures forall k :: 0 <= k < |c[id].prerequisites| ==> Tier(c, lv, id) > Tier(c, lv, c[id].prerequisites[k])
    ensures exists k :: 0 <= k < |c[id].prerequisites| && Tier(c, lv, id) == Tier(c, lv, c[id].prerequisites[k]) + 1
    ensures Tier(c, lv, id) >= 1
  {
    PrerequisiteTierBounds(c, lv, id, |c[id].prerequisites|);
  }

  /** The tier does not depend on which numbering witnesses acyclicity. */
  lemma {:induction false} TierIndependentOfWitness(c: map<string, ResearchProject>, lv: map<string, nat>, lw: map<string, nat>, id: string)
    requires Layered(c, lv) && Layered(c, lw)
    ensures Tier(c, lv, id) == Tier(c, lw, id)
    decreases if id in c then lv[id] else 0, if id in c then |c[id].prerequisites| + 1 else 0
  {
    if id in c && |c[id].prerequisites| > 0 {
      PrerequisiteTierIndependent(c, lv, lw, id, |c[id].prerequisites|);
    }
  }

  lemma {:induction false} PrerequisiteTierIndependent(c: map<string, ResearchProject>, lv: map<string, nat>, lw: map<string, nat>,
                                                       id: string, n: nat)
    requires Layered(c, lv) && Layered(c, lw) && id in c && n <= |c[id].prerequisites|
    ensures PrerequisiteTier(c, lv, id, n) == PrerequisiteTier(c, lw, id, n)
    decreases lv[id], n
  {
    if n > 0 {
      PrerequisiteTierIndependent(c, lv, lw, id, n - 1);
      TierIndependentOfWitness(c, lv, lw, c[id].prerequisites[n - 1]);
    }
  }

  /**
   * The memo table: every entry is a catalog project with its tier, and
   * `order` lists the entries once each, in the order they were created
   * (the order the table's values are later read back in).
   */
  ghost predicate MemoOk(c: map<string, ResearchProject>, lv: map<string, nat>, memo: map<string, nat>, order: seq<string>)
    requires Layered(c, lv)
  {
    && (forall id :: id in memo ==> id in c && memo[id] == Tier(c, lv, id))
    && (forall id :: id in order <==> id in memo)
    && (forall i, j :: 0 <= i < j < |order| ==> order[i] != order[j])
  }

  /**
   * getTier: a memoised entry is returned as it stands; an unknown id is
   * tier 0 and not recorded; otherwise the tier is computed from the
   * prerequisites' tiers (recursively) and recorded. The source's depth
   * argument is 0 on every call, so it is not modelled.
   */
  method GetTier(c: map<string, ResearchProject>, ghost lv: map<string, nat>, id: string,
                 memo0: map<string, nat>, order0: seq<string>)
    returns (t: nat, memo: map<string, nat>, order: seq<string>)
    requires Layered(c, lv) && MemoOk(c, lv, memo0, order0)
    ensures t == Tier(c, lv, id)
    ensures MemoOk(c, lv, memo, order)
    ensures memo0.Keys <= memo.Keys && |order0| <= |order| && order[..|order0|] == order0
    ensures id in c ==> id in memo
    decreases if id in c then lv[id] else 0, if id in c then |c[id].prerequisites| + 1 else 0
  {
    memo, order := memo0, order0;
    if id in memo {
      return memo[id], memo, order;
    }
    if id !in c {
      return 0, memo, order;
    }
    var prerequisites := c[id].prerequisites;
    if |prerequisites| == 0 {
      memo := memo[id := 0];
      order := order + [id];
      return 0, memo, order;
    }
    var highest := 0;
    for i := 0 to |prerequisites|
      invariant highest == PrerequisiteTier(c, lv, id, i)
      invariant MemoOk(c, lv, memo, order)
      invariant memo0.Keys <= memo.Keys && |order0| <= |order| && order[..|order0|] == order0
    {
      var pt;
      var order1 := order;
      pt, memo, order := GetTier(c, lv, prerequisites[i], memo, order);
      assert order[..|order0|] == order1[..|order0|];
      highest := Max(highest, pt + 1);
    }
    if id in memo {
      memo := memo[id := Max(memo[id], highest)];
    } else {
      memo := memo[id := highest];
      order := order + [id];
    }
    t := highest;
  }

  /** `Object.values(nodes)`: the memo entries as nodes, in creation order. */
  function NodesInOrder(c: map<string, ResearchProject>, memo: map<string, nat>, order: seq<string>): (r: seq<TreeNode>)
    requires forall k :: 0 <= k < |order| ==> order[k] in c && order[k] in memo
    ensures |r| == |order|
    ensures forall k :: 0 <= k < |order| ==> r[k] == TreeNode(c[order[k]], memo[order[k]])
  {
    seq(|order|, k requires 0 <= k < |order| => TreeNode(c[order[k]], memo[order[k]]))
  }

  function TierKey(n: TreeNode): Key
  {
    Key(n.tier, 0, 0)
  }

  /** Every catalog entry is stored under its own id. */
  predicate KeyedById(c: map<string, ResearchProject>)
  {
    forall id :: id in c ==> c[id].id == id
  }

  /** `projects.forEach(p => getTier(p.id))`: afterwards every catalog project is memoised. */
  method MemoiseAll(c: map<string, ResearchProject>, ghost lv: map<string, nat>, ids: seq<string>)
    returns (memo: map<string, nat>, order: seq<string>)
    requires Layered(c, lv)
    requires forall id :: id in c ==> id in ids
    ensures MemoOk(c, lv, memo, order)
    ensures forall id :: id in c ==> id in memo
  {
    memo, order := map[], [];
    for i := 0 to |ids|
      invariant MemoOk(c, lv, memo, order)
      invariant forall k :: 0 <= k < i && ids[k] in c ==> ids[k] in memo
    {
      var t;
      t, memo, order := GetTier(c, lv, ids[i], memo, order);
    }
  }

  /** The node list read back from a complete memo table: each catalog project once, with its tier. */
  lemma ListedNodes(c: map<string, ResearchProject>, lv: map<string, nat>, memo: map<string, nat>, order: seq<string>)
    requires Layered(c, lv) && KeyedById(c) && MemoOk(c, lv, memo, order)
    requires forall id :: id in c ==> id in memo
    ensures forall n :: n in NodesInOrder(c, memo, order) ==>
              n.project.id in c && n.project == c[n.project.id] && n.tier == Tier(c, lv, n.project.id)
    ensures forall id :: id in c ==> exists n :: n in NodesInOrder(c, memo, order) && n.project.id == id
    ensures DistinctIds(NodesInOrder(c, memo, order))
  {
    var listed := NodesInOrder(c, memo, order);
    forall id | id in c ensures exists n :: n in listed && n.project.id == id {
      var k :| 0 <= k < |order| && order[k] == id;
      assert listed[k].project.id == id;
    }
  }

  predicate DistinctIds(nodes: seq<TreeNode>)
  {
    forall i, j :: 0 <= i < j < |nodes| ==> nodes[i].project.id != nodes[j].project.id
  }

  /**
   * The `useMemo` tier computation: the tier of every project, in the
   * catalog's iteration order `ids`, then the nodes sorted (stably) by
   * ascending tier. Each catalog project appears exactly once, with its tier.
   */
  method TreeNodes(c: map<string, ResearchProject>, ghost lv: map<string, nat>, ids: seq<string>)
    returns (nodes: seq<TreeNode>)
    requires Layered(c, lv) && KeyedById(c)
    requires forall id :: id in c <==> id in ids
    ensures SortedKeys(nodes, TierKey)
    ensures forall n :: n in nodes ==> n.project.id in c && n.project == c[n.project.id] && n.tier == Tier(c, lv, n.project.id)
    ensures forall id :: id in c ==> exists n :: n in nodes && n.project.id == id
    ensures DistinctIds(nodes)
  {
    var memo, order := MemoiseAll(c, lv, ids);
    var listed := NodesInOrder(c, memo, order);
    ListedNodes(c, lv, memo, order);
    nodes := SortByKey(listed, TierKey);
    SortByKeySorted(listed, TierKey);
    NodesDistinct(listed, nodes);
    SameMembers(listed, nodes);
  }

  /** A permutation has the same members. */
  lemma SameMembers(listed: seq<TreeNode>, nodes: seq<TreeNode>)
    requires multiset(nodes) == multiset(listed)
    ensures forall n :: n in nodes <==> n in listed
  {
    forall n ensures n in nodes <==> n in listed {
      assert n in nodes <==> n in multiset(nodes);
      assert n in listed <==> n in multiset(listed);
    }
  }

  /** Node ids stay distinct under a permutation of the list. */
  lemma NodesDistinct(listed: seq<TreeNode>, nodes: seq<TreeNode>)
    requires DistinctIds(listed)
    requires multiset(nodes) == multiset(listed)
    ensures DistinctIds(nodes)
  {
    forall i, j | 0 <= i < j < |nodes| ensures nodes[i].project.id != nodes[j].project.id {
      assert nodes[i] in multiset(listed) && nodes[j] in multiset(listed);
      var a :| 0 <= a < |listed| && listed[a] == nodes[i];
      var b :| 0 <= b < |listed| && listed[b] == nodes[j];
      if a == b {
        assert multiset(nodes)[nodes[i]] >= 2 by {
          assert nodes == nodes[..i] + [nodes[i]] + nodes[i + 1..j] + [nodes[j]] + nodes[j + 1..];
        }
        MultisetOfDistinct(listed, a);
        assert false;
      }
    }
  }

  /** In a list whose node ids are distinct, each node occurs once. */
  lemma MultisetOfDistinct(listed: seq<TreeNode>, a: nat)
    requires a < |listed|
    requires DistinctIds(listed)
    ensures multiset(listed)[listed[a]] == 1
  {
    if |listed| > 1 {
      var init := listed[..|listed| - 1];
      assert listed == init + [listed[|listed| - 1]];
      if a < |listed| - 1 {
        MultisetOfDistinct(init, a);
      } else {
        assert listed[a] !in init by {
          forall k | 0 <= k < |init| ensures init[k] != listed[a] {
            assert listed[k].project.id != listed[a].project.id;
          }
        }
      }
    }
  }

  /** In the sorted node list, every node stands in a higher tier than each of its prerequisites that has a node. */
  lemma DependentsRightOfPrerequisites(c: map<string, ResearchProject>, lv: map<string, nat>, from: TreeNode, to: TreeNode)
    requires Layered(c, lv)
    requires from.project.id in c && from.tier == Tier(c, lv, from.project.id)
    requires to.project.id in c && to.project == c[to.project.id] && to.tier == Tier(c, lv, to.project.id)
    requires from.project.id in to.project.prerequisites
    ensures from.tier < to.tier
  {
    TierAbovePrerequisites(c, lv, to.project.id);
  }

  // ----- connections -----

  /** `finalNodesList.find(n => n.id === id)`. */
  function FindNode(nodes: seq<TreeNode>, id: string): (r: Option<TreeNode>)
    ensures r.Some? ==> r.value in nodes && r.value.project.id == id
    ensures r.None? <==> forall k :: 0 <= k < |nodes| ==> nodes[k].project.id != id
  {
    if |nodes| == 0 then None
    else if nodes[0].project.id == id then Some(nodes[0])
    else FindNode(nodes[1..], id)
  }

  /** The connections into one node, one per listed prerequisite that has a node, in prerequisite order. */
  function Incoming(nodes: seq<TreeNode>, to: TreeNode, prereqs: seq<string>): seq<Connection>
  {
    if |prereqs| == 0 then []
    else
      Incoming(nodes, to, prereqs[..|prereqs| - 1]) +
        match FindNode(nodes, prereqs[|prereqs| - 1])
        case None => []
        case Some(n) => [Connection(n, to)]
  }

  /** An edge into `to` is drawn exactly for a listed prerequisite found among the nodes. */
  lemma {:induction false} IncomingMembers(nodes: seq<TreeNode>, to: TreeNode, prereqs: seq<string>, e: Connection)
    ensures e in Incoming(nodes, to, prereqs) <==>
              e.to == to && exists k :: 0 <= k < |prereqs| && FindNode(nodes, prereqs[k]) == Some(e.from)
  {
    if |prereqs| > 0 {
      var init := prereqs[..|prereqs| - 1];
      IncomingMembers(nodes, to, init, e);
      assert forall k :: 0 <= k < |init| ==> init[k] == prereqs[k];
      if e.to == to && FindNode(nodes, prereqs[|prereqs| - 1]) == Some(e.from) {
        assert e in Incoming(nodes, to, prereqs);
      }
    }
  }

  /** All connections, node by node in list order. */
  function AllConnections(nodes: seq<TreeNode>, upTo: nat): seq<Connection>
    requires upTo <= |nodes|
  {
    if upTo == 0 then []
    else AllConnections(nodes, upTo - 1) + Incoming(nodes, nodes[upTo - 1], nodes[upTo - 1].project.prerequisites)
  }

  /** `e` is among the incoming edges of the `k`-th node. */
  predicate DrawnInto(nodes: seq<TreeNode>, k: nat, e: Connection)
    requires k < |nodes|
  {
    e in Incoming(nodes, nodes[k], nodes[k].project.prerequisites)
  }

  /** Every drawn edge comes from some node's incoming edges, and each node's incoming edges are drawn. */
  lemma {:induction false} ConnectionsOfNodes(nodes: seq<TreeNode>, upTo: nat, e: Connection)
    requires upTo <= |nodes|
    ensures e in AllConnections(nodes, upTo) <==> exists k :: 0 <= k < upTo && DrawnInto(nodes, k, e)
  {
    if upTo > 0 {
      var before := AllConnections(nodes, upTo - 1);
      assert AllConnections(nodes, upTo) == before + Incoming(nodes, nodes[upTo - 1], nodes[upTo - 1].project.prerequisites);
      ConnectionsOfNodes(nodes, upTo - 1, e);
      if DrawnInto(nodes, upTo - 1, e) {
        assert e in AllConnections(nodes, upTo);
      }
      if exists k :: 0 <= k < upTo && DrawnInto(nodes, k, e) {
        var k :| 0 <= k < upTo && DrawnInto(nodes, k, e);
        assert k < upTo - 1 || DrawnInto(nodes, upTo - 1, e);
      }
    }
  }

  /**
   * With distinct node ids, an edge is drawn exactly from the node of a
   * listed prerequisite to the node that lists it.
   */
  lemma ConnectionMeaning(nodes: seq<TreeNode>, e: Connection)
    requires DistinctIds(nodes)
    ensures e in AllConnections(nodes, |nodes|) <==>
              e.from in nodes && e.to in nodes && e.from.project.id in e.to.project.prerequisites
  {
    ConnectionsOfNodes(nodes, |nodes|, e);
    if e in AllConnections(nodes, |nodes|) {
      var k :| 0 <= k < |nodes| && DrawnInto(nodes, k, e);
      IncomingMembers(nodes, nodes[k], nodes[k].project.prerequisites, e);
      var p :| 0 <= p < |nodes[k].project.prerequisites| && FindNode(nodes, nodes[k].project.prerequisites[p]) == Some(e.from);
    }
    if e.from in nodes && e.to in nodes && e.from.project.id in e.to.project.prerequisites {
      var k :| 0 <= k < |nodes| && nodes[k] == e.to;
      var p :| 0 <= p < |e.to.project.prerequisites| && e.to.project.prerequisites[p] == e.from.project.id;
      FindNodeDistinct(nodes, e.from);
      IncomingMembers(nodes, nodes[k], nodes[k].project.prerequisites, e);
      assert DrawnInto(nodes, k, e);
    }
  }

  /** With distinct ids, looking a node's id up finds that node. */
  lemma {:induction false} FindNodeDistinct(nodes: seq<TreeNode>, n: TreeNode)
    requires n in nodes
    requires DistinctIds(nodes)
    ensures FindNode(nodes, n.project.id) == Some(n)
  {
    if nodes[0] != n {
      assert nodes[0].project.id != n.project.id by {
        var k :| 0 <= k < |nodes| && nodes[k] == n;
      }
      FindNodeDistinct(nodes[1..], n);
    }
  }

  /**
   * With distinct node ids, the edges from `a` into `to` are as many as the
   * times `a`'s id is listed among the prerequisites.
   */
  lemma {:induction false} IncomingCount(nodes: seq<TreeNode>, to: TreeNode, prereqs: seq<string>, a: TreeNode)
    requires DistinctIds(nodes) && a in nodes
    ensures multiset(Incoming(nodes, to, prereqs))[Connection(a, to)] == multiset(prereqs)[a.project.id]
  {
    if |prereqs| > 0 {
      var init := prereqs[..|prereqs| - 1];
      var x := prereqs[|prereqs| - 1];
      IncomingCount(nodes, to, init, a);
      assert prereqs == init + [x];
      FindNodeDistinct(nodes, a);
    }
  }

  /** No edge into `to` ends anywhere else. */
  lemma IncomingElsewhere(nodes: seq<TreeNode>, to: TreeNode, prereqs: seq<string>, e: Connection)
    requires e.to != to
    ensures multiset(Incoming(nodes, to, prereqs))[e] == 0
  {
    IncomingMembers(nodes, to, prereqs, e);
  }

  /**
   * Among the edges drawn into the first `upTo` nodes, the edge from `a` to
   * `b` occurs once per listing of `a` among `b`'s prerequisites when `b` is
   * one of those nodes, and not at all otherwise.
   */
  lemma {:induction false} ConnectionCountUpTo(nodes: seq<TreeNode>, upTo: nat, a: TreeNode, b: TreeNode)
    requires DistinctIds(nodes) && a in nodes && upTo <= |nodes|
    ensures multiset(AllConnections(nodes, upTo))[Connection(a, b)] ==
              if b in nodes[..upTo] then multiset(b.project.prerequisites)[a.project.id] else 0
  {
    if upTo > 0 {
      var n := nodes[upTo - 1];
      ConnectionCountUpTo(nodes, upTo - 1, a, b);
      assert nodes[..upTo] == nodes[..upTo - 1] + [n];
      if n == b {
        IncomingCount(nodes, n, n.project.prerequisites, a);
        assert b !in nodes[..upTo - 1] by {
          forall k | 0 <= k < upTo - 1 ensures nodes[k] != b {
            assert nodes[k].project.id != nodes[upTo - 1].project.id;
          }
        }
      } else {
        IncomingElsewhere(nodes, n, n.project.prerequisites, Connection(a, b));
      }
    }
  }

  /**
   * With distinct node ids, each (prerequisite, node) pair is drawn exactly
   * as often as the prerequisite is listed: once for a prerequisite listed
   * once, never for one not listed.
   */
  lemma ConnectionCount(nodes: seq<TreeNode>, a: TreeNode, b: TreeNode)
    requires DistinctIds(nodes) && a in nodes && b in nodes
    ensures multiset(AllConnections(nodes, |nodes|))[Connection(a, b)] == multiset(b.project.prerequisites)[a.project.id]
  {
    ConnectionCountUpTo(nodes, |nodes|, a, b);
    assert nodes[..|nodes|] == nodes;
  }

  /** The source's nested loop pushing one connection per prerequisite found among the nodes. */
  method Connections(nodes: seq<TreeNode>) returns (conns: seq<Connection>)
    ensures conns == AllConnections(nodes, |nodes|)
  {
    conns := [];
    for i := 0 to |nodes|
      invariant conns == AllConnections(nodes, i)
    {
      var node := nodes[i];
      var prereqs := node.project.prerequisites;
      ghost var before := conns;
      for j := 0 to |prereqs|
        invariant conns == before + Incoming(nodes, node, prereqs[..j])
      {
        assert prereqs[..j + 1][..j] == prereqs[..j];
        var found := FindNode(nodes, prereqs[j]);
        if found.Some? {
          conns := conns + [Connection(found.value, node)];
        }
      }
      assert prereqs[..|prereqs|] == prereqs;
    }
  }

  // ----- columns and canvas size -----

  /** The nodes of one tier, in list order. */
  function InTier(nodes: seq<TreeNode>, t: nat): seq<TreeNode>
  {
    if |nodes| == 0 then []
    else InTier(nodes[..|nodes| - 1], t) + if nodes[|nodes| - 1].tier == t then [nodes[|nodes| - 1]] else []
  }

  /** A column holds exactly the nodes of its tier. */
  lemma {:induction false} InTierMembers(nodes: seq<TreeNode>, t: nat)
    ensures forall n :: n in InTier(nodes, t) <==> n in nodes && n.tier == t
  {
    if |nodes| > 0 {
      var init := nodes[..|nodes| - 1];
      InTierMembers(init, t);
      assert nodes == init + [nodes[|nodes| - 1]];
    }
  }

  /** A tier no node has is an empty column. */
  lemma {:induction false} InTierAbsent(nodes: seq<TreeNode>, t: nat)
    requires forall n :: n in nodes ==> n.tier != t
    ensures InTier(nodes, t) == []
  {
    if |nodes| > 0 {
      var init := nodes[..|nodes| - 1];
      forall n | n in init ensures n.tier != t {
        assert n in nodes;
      }
      InTierAbsent(init, t);
      assert nodes[|nodes| - 1] in nodes;
    }
  }

  function HighestTier(nodes: seq<TreeNode>): nat
  {
    if |nodes| == 0 then 0 else Max(HighestTier(nodes[..|nodes| - 1]), nodes[|nodes| - 1].tier)
  }

  /** The highest tier bounds every node's tier and is reached by one of them. */
  lemma {:induction false} HighestTierReached(nodes: seq<TreeNode>)
    ensures forall n :: n in nodes ==> n.tier <= HighestTier(nodes)
    ensures |nodes| > 0 ==> exists n :: n in nodes && n.tier == HighestTier(nodes)
  {
    if |nodes| > 0 {
      var init := nodes[..|nodes| - 1];
      var last := nodes[|nodes| - 1];
      HighestTierReached(init);
      assert nodes == init + [last];
      if HighestTier(nodes) == last.tier {
        assert last in nodes;
      } else {
        var w :| w in init && w.tier == HighestTier(init);
        assert w in nodes && w.tier == HighestTier(nodes);
      }
    }
  }

  /** `n` empty columns. */
  function EmptyColumns(n: nat): (r: seq<seq<TreeNode>>)
    ensures |r| == n && forall t :: 0 <= t < n ==> r[t] == []
  {
    seq(n, _ => [])
  }

  /**
   * The source's grouping loop: each node is pushed onto the column of its
   * tier, creating the columns up to it. There is one column per tier up to
   * the highest, each holding that tier's nodes in list order (a tier no
   * node has is an empty column where the source leaves a hole).
   */
  method GroupByTier(nodes: seq<TreeNode>) returns (tiers: seq<seq<TreeNode>>)
    ensures |tiers| == if |nodes| == 0 then 0 else HighestTier(nodes) + 1
    ensures forall t :: 0 <= t < |tiers| ==> tiers[t] == InTier(nodes, t)
  {
    tiers := [];
    for i := 0 to |nodes|
      invariant |tiers| == if i == 0 then 0 else HighestTier(nodes[..i]) + 1
      invariant forall t :: 0 <= t < |tiers| ==> tiers[t] == InTier(nodes[..i], t)
    {
      var n := nodes[i];
      GroupStep(nodes[..i], n, tiers);
      assert nodes[..i + 1] == nodes[..i] + [n];
      if |tiers| <= n.tier {
        tiers := tiers + EmptyColumns(n.tier + 1 - |tiers|);
      }
      tiers := tiers[n.tier := tiers[n.tier] + [n]];
    }
    assert nodes[..|nodes|] == nodes;
  }

  /** One grouping step: the columns of `done + [n]` from those of `done`. */
  lemma GroupStep(done: seq<TreeNode>, n: TreeNode, tiers: seq<seq<TreeNode>>)
    requires |tiers| == if |done| == 0 then 0 else HighestTier(done) + 1
    requires forall t :: 0 <= t < |tiers| ==> tiers[t] == InTier(done, t)
    ensures HighestTier(done + [n]) + 1 == Max(|tiers|, n.tier + 1)
    ensures forall t :: 0 <= t < Max(|tiers|, n.tier + 1) ==>
              InTier(done + [n], t) == (if t < |tiers| then tiers[t] else []) + (if n.tier == t then [n] else [])
  {
    var s := done + [n];
    assert s[..|s| - 1] == done;
    forall t | |tiers| <= t ensures InTier(done, t) == [] {
      HighestTierReached(done);
      InTierAbsent(done, t);
    }
  }

  /** The canvas width: one column per tier, at least 600. */
  function TreeWidth(tierCount: nat): (r: int)
    ensures r >= 600
    ensures tierCount > 0 ==> r >= tierCount * (NODE_WIDTH + HORIZONTAL_SPACING) - HORIZONTAL_SPACING
  {
    var w := tierCount * (NODE_WIDTH + HORIZONTAL_SPACING) - HORIZONTAL_SPACING;
    if w > 600 then w else 600
  }

  /** A node's column position: its tier times the column pitch. */
  function NodeX(n: TreeNode): (r: int)
    ensures r >= 0
  {
    n.tier * (NODE_WIDTH + HORIZONTAL_SPACING)
  }

  /** Every column lies left of the canvas's right edge. */
  lemma ColumnsFitCanvas(nodes: seq<TreeNode>, n: TreeNode)
    requires n in nodes
    ensures NodeX(n) + NODE_WIDTH <= TreeWidth(HighestTier(nodes) + 1)
  {
    HighestTierReached(nodes);
  }

  /** `maxNodesInTier`: the tallest column's node count (0 with no columns). */
  method TallestColumn(tiers: seq<seq<TreeNode>>) returns (m: nat)
    ensures forall t :: 0 <= t < |tiers| ==> |tiers[t]| <= m
    ensures m == 0 || exists t :: 0 <= t < |tiers| && |tiers[t]| == m
  {
    m := 0;
    for t := 0 to |tiers|
      invariant forall u :: 0 <= u < t ==> |tiers[u]| <= m
      invariant m == 0 || exists u :: 0 <= u < t && |tiers[u]| == m
    {
      if |tiers[t]| > m {
        m := |tiers[t]|;
      }
    }
  }

  /** The canvas height: one row per node of the tallest column, at least 400. */
  function TreeHeight(tallest: nat): (r: int)
    ensures r >= 400
    ensures r >= tallest * (NODE_HEIGHT + VERTICAL_SPACING) - VERTICAL_SPACING
  {
    var h := tallest * (NODE_HEIGHT + VERTICAL_SPACING) - VERTICAL_SPACING;
    if h > 400 then h else 400
  }

  /**
   * The whole tree computation: every catalog project once as a node with
   * its tier, sorted by tier; exactly one edge for each prerequisite that is
   * itself a node, always pointing to a higher tier; and a canvas wide and
   * tall enough for every column.
   */
  method BuildTree(c: map<string, ResearchProject>, ghost lv: map<string, nat>, ids: seq<string>)
    returns (nodes: seq<TreeNode>, conns: seq<Connection>, width: int, height: int)
    requires Layered(c, lv) && KeyedById(c)
    requires forall id :: id in c <==> id in ids
    ensures SortedKeys(nodes, TierKey) && DistinctIds(nodes)
    ensures forall n :: n in nodes ==> n.project.id in c && n.project == c[n.project.id] && n.tier == Tier(c, lv, n.project.id)
    ensures forall id :: id in c ==> exists n :: n in nodes && n.project.id == id
    ensures conns == AllConnections(nodes, |nodes|)
    ensures forall e :: e in conns <==> e.from in nodes && e.to in nodes && e.from.project.id in e.to.project.prerequisites
    ensures forall a, b :: a in nodes && b in nodes ==>
              multiset(conns)[Connection(a, b)] == multiset(b.project.prerequisites)[a.project.id]
    ensures forall e :: e in conns ==> e.from.tier < e.to.tier
    ensures forall n :: n in nodes ==> NodeX(n) + NODE_WIDTH <= width
    ensures forall t :: 0 <= t <= HighestTier(nodes) ==>
              |InTier(nodes, t)| * (NODE_HEIGHT + VERTICAL_SPACING) - VERTICAL_SPACING <= height
    ensures width >= 600 && height >= 400
  {
    nodes := TreeNodes(c, lv, ids);
    var tiers := GroupByTier(nodes);
    var tallest := TallestColumn(tiers);
    conns := Connections(nodes);
    forall e ensures e in conns <==> e.from in nodes && e.to in nodes && e.from.project.id in e.to.project.prerequisites {
      ConnectionMeaning(nodes, e);
    }
    forall e | e in conns ensures e.from.tier < e.to.tier {
      DependentsRightOfPrerequisites(c, lv, e.from, e.to);
    }
    forall n | n in nodes ensures NodeX(n) + NODE_WIDTH <= TreeWidth(|tiers|) {
      ColumnsFitCanvas(nodes, n);
    }
    forall a, b | a in nodes && b in nodes
      ensures multiset(conns)[Connection(a, b)] == multiset(b.project.prerequisites)[a.project.id]
    {
      ConnectionCount(nodes, a, b);
    }
    width := TreeWidth(|tiers|);
    height := TreeHeight(tallest);
    forall t | 0 <= t <= HighestTier(nodes)
      ensures |InTier(nodes, t)| * (NODE_HEIGHT + VERTICAL_SPACING) - VERTICAL_SPACING <= height
    {
      if |nodes| == 0 {
        assert InTier(nodes, t) == [];
      } else {
        assert |InTier(nodes, t)| == |tiers[t]| <= tallest;
      }
    }
  }

  // ----- node flags -----

  predicate IsCompleted(p: ResearchProject, rs: ResearchState)
  {
    p.id in rs.completed
  }

  predicate IsActive(p: ResearchProject, rs: ResearchState)
  {
    rs.active.Some? && rs.active.value.projectId == p.id
  }

  /** canStart: not completed nor running, prerequisites done and the cost affordable. */
  predicate CanStart(p: ResearchProject, rs: ResearchState, supplies: int)
  {
    !IsCompleted(p, rs) && !IsActive(p, rs) && PrerequisitesMet(p, rs.completed) && supplies >= p.cost
  }

  /** isLocked: not completed nor running, with a prerequisite outstanding. */
  predicate IsLocked(p: ResearchProject, rs: ResearchState)
  {
    !IsCompleted(p, rs) && !IsActive(p, rs) && !PrerequisitesMet(p, rs.completed)
  }

  /** The start button is enabled when the node can start, nothing is running and the cost is affordable. */
  predicate StartEnabled(p: ResearchProject, rs: ResearchState, supplies: int)
  {
    CanStart(p, rs, supplies) && rs.active.None? && supplies >= p.cost
  }

  /**
   * The flags agree with the research rules: a node is never both startable
   * and locked, a completed or running one is neither, an enabled start
   * button always leads to a successful start, and a successful start of a
   * project not yet completed means the button was enabled.
   */
  lemma FlagsMatchStartResearch(g: GameData, pid: string)
    requires pid in g.research.allProjects && g.research.allProjects[pid].id == pid
    ensures var p := g.research.allProjects[pid];
      && !(CanStart(p, g.research, g.supplies) && IsLocked(p, g.research))
      && (IsCompleted(p, g.research) || IsActive(p, g.research) ==> !CanStart(p, g.research, g.supplies) && !IsLocked(p, g.research))
      && (StartEnabled(p, g.research, g.supplies) ==> StartResearch(g, pid).outcome == Done)
      && (StartResearch(g, pid).outcome == Done && !IsCompleted(p, g.research) ==> StartEnabled(p, g.research, g.supplies))
      && (IsLocked(p, g.research) ==> StartResearch(g, pid).outcome != Done)
  {
  }
}
