// Shortest paths to one target in a graph of nodes and directed links.
module Topologies {
  import opened Common

  // A distance or a weight; doubles are taken as exact numbers plus infinity.
  datatype Cost = Fin(v: real) | Inf {
    function Plus(c: Cost): Cost {
      if Fin? && c.Fin? then Fin(v + c.v) else Inf
    }

    predicate Less(c: Cost) {
      Fin? && (c.Inf? || v < c.v)
    }

    predicate AtMost(c: Cost) {
      c.Inf? || (Fin? && v <= c.v)
    }
  }

  class Node {
    var weight: Cost
    var enabled: bool
    const moduleId: int
    var inLinks: seq<Link>
    var outLinks: seq<Link>
    var dist: Cost
    var outPath: Link?

    constructor (id: int)
      ensures moduleId == id
      ensures weight == Fin(0.0) && enabled && inLinks == [] && outLinks == [] && dist == Inf && outPath == null
    {
      moduleId, weight, enabled, inLinks, outLinks, dist, outPath := id, Fin(0.0), true, [], [], Inf, null;
    }
  }

  class Link {
    const srcNode: Node
    const destNode: Node
    var weight: Cost
    var enabled: bool

    constructor (src: Node, dest: Node)
      ensures srcNode == src && destNode == dest && weight == Fin(1.0) && enabled
    {
      srcNode, destNode, weight, enabled := src, dest, Fin(1.0), true;
    }
  }

  // ---- what a distance is ----

  // Paths are walks along links; End is the empty walk at the target.
  datatype Path = End | Via(link: Link, rest: Path)

  // How the two searches price a step: by the weights, or 1 for every link.
  datatype Price = Weighted | Hops

  // A link the search may use: it and the node it leaves are enabled.
  ghost predicate Usable(l: Link)
    reads l`enabled, l.srcNode`enabled
  {
    l.enabled && l.srcNode.enabled
  }

  ghost predicate IsPath(older p: Path, links: set<Link>, src: Node, dest: Node)
    reads links`enabled, set l | l in links :: l.srcNode`enabled
  {
    match p
    case End => src == dest
    case Via(l, rest) => l in links && Usable(l) && l.srcNode == src && IsPath(rest, links, l.destNode, dest)
  }

  // The price of following l on the way to target: the link's weight, and the weight of the node
  // it enters unless that is the target.
  ghost function StepCost(l: Link, target: Node, price: Price): Cost
    reads l`weight, l.destNode`weight
  {
    if price.Hops? then Fin(1.0)
    else if l.destNode == target then l.weight
    else l.weight.Plus(l.destNode.weight)
  }

  ghost function PathCost(p: Path, links: set<Link>, target: Node, price: Price): Cost
    reads links`weight, set l | l in links :: l.destNode`weight
  {
    match p
    case End => Fin(0.0)
    case Via(l, rest) =>
      if l in links then StepCost(l, target, price).Plus(PathCost(rest, links, target, price)) else Inf
  }

  // d is the cost of the cheapest path from n to target, or infinite if no path has a finite cost.
  ghost predicate IsDistance(links: set<Link>, n: Node, target: Node, price: Price, d: Cost)
    reads links`enabled, links`weight, set l | l in links :: l.srcNode`enabled, set l | l in links :: l.destNode`weight
  {
    && (d.Fin? ==> exists p :: IsPath(p, links, n, target) && PathCost(p, links, target, price) == d)
    && (forall p :: IsPath(p, links, n, target) ==> d.AtMost(PathCost(p, links, target, price)))
  }

  // Each step of p is the outPath of the node it leaves.
  ghost predicate AlongOutPaths(p: Path, links: set<Link>, n: Node)
    reads n`outPath, set l | l in links :: l.destNode`outPath
  {
    match p
    case End => n.outPath == null
    case Via(l, rest) => l in links && n.outPath == l && AlongOutPaths(rest, links, l.destNode)
  }

  // A node has one distance only.
  lemma DistanceIsUnique(links: set<Link>, n: Node, target: Node, price: Price, d: Cost, e: Cost)
    requires IsDistance(links, n, target, price, d) && IsDistance(links, n, target, price, e)
    ensures d == e
  {
  }

  // With link weights 1 and node weights 0 both searches look for the same distance.
  lemma {:induction false} UnitPathCost(p: Path, links: set<Link>, target: Node)
    requires forall l | l in links :: l.weight == Fin(1.0) && (l.destNode == target || l.destNode.weight == Fin(0.0))
    ensures PathCost(p, links, target, Weighted) == PathCost(p, links, target, Hops)
  {
    if p.Via? {
      UnitPathCost(p.rest, links, target);
    }
  }

  lemma UnitWeightsCountHops(links: set<Link>, n: Node, target: Node, d: Cost, e: Cost)
    requires forall l | l in links :: l.weight == Fin(1.0) && (l.destNode == target || l.destNode.weight == Fin(0.0))
    requires IsDistance(links, n, target, Weighted, d) && IsDistance(links, n, target, Hops, e)
    ensures d == e
  {
    if d.Fin? {
      var p :| IsPath(p, links, n, target) && PathCost(p, links, target, Weighted) == d;
      UnitPathCost(p, links, target);
    }
    if e.Fin? {
      var p :| IsPath(p, links, n, target) && PathCost(p, links, target, Hops) == e;
      UnitPathCost(p, links, target);
    }
  }

  // ---- the queue as a list ----

  // std::list::remove.
  function Removed(q: seq<Node>, n: Node): (r: seq<Node>)
    ensures forall m | m in r :: m in q && m != n
    ensures forall m | m in q && m != n :: m in r
  {
    if q == [] then [] else (if q[0] == n then [] else [q[0]]) + Removed(q[1..], n)
  }

  // No entry of the queue is before one with a smaller distance, and none occurs twice.
  ghost predicate Ordered(q: seq<Node>)
    reads q`dist
  {
    forall i, j | 0 <= i < j < |q| :: q[i] != q[j] && q[i].dist.AtMost(q[j].dist)
  }

  lemma {:induction false} RemovedIsOrdered(q: seq<Node>, n: Node)
    requires Ordered(q)
    ensures Ordered(Removed(q, n))
  {
    if q != [] {
      RemovedIsOrdered(q[1..], n);
      var r := Removed(q[1..], n);
      assert Ordered([q[0]] + r) by {
        forall j | 0 <= j < |r| ensures q[0] != r[j] && q[0].dist.AtMost(r[j].dist) {
          assert r[j] in q[1..];
        }
      }
    }
  }

  // The first occurrence of x goes.
  function Erased<T(==)>(s: seq<T>, x: T): (r: seq<T>)
    ensures forall y | y in r :: y in s
    ensures forall y | y in s && y != x :: y in r
  {
    if s == [] then []
    else if s[0] == x then s[1..]
    else [s[0]] + Erased(s[1..], x)
  }

  lemma {:induction false} ErasedIsDistinct<T>(s: seq<T>, x: T)
    requires Distinct(s)
    ensures Distinct(Erased(s, x)) && x !in Erased(s, x)
  {
    if s != [] {
      var tail := s[1..];
      assert forall k | 0 <= k < |tail| :: tail[k] == s[k + 1];
      assert Distinct(tail) && s[0] !in tail;
      if s[0] != x {
        ErasedIsDistinct(tail, x);
        PrependedIsDistinct(s[0], Erased(tail, x));
      }
    }
  }

  // What is erased is one entry; the others stay in their order.
  lemma {:induction false} ErasedAt<T>(s: seq<T>, x: T) returns (at: nat)
    requires x in s
    ensures at < |s| && s[at] == x && x !in s[..at] && Erased(s, x) == s[..at] + s[at + 1..]
  {
    if s[0] == x {
      at := 0;
    } else {
      var k := ErasedAt(s[1..], x);
      at := k + 1;
      assert s[..at] == [s[0]] + s[1..][..k] && s[at + 1..] == s[1..][k + 1..];
    }
  }

  // The entries of s that are kept, in their order.
  ghost function Spared<T>(s: seq<T>, kept: set<T>): seq<T> {
    if s == [] then [] else (if s[0] in kept then [s[0]] else []) + Spared(s[1..], kept)
  }

  lemma {:induction false} SparedAlike<T>(s: seq<T>, a: set<T>, b: set<T>)
    requires forall x | x in s :: x in a <==> x in b
    ensures Spared(s, a) == Spared(s, b)
  {
    if s != [] {
      SparedAlike(s[1..], a, b);
    }
  }

  lemma {:induction false} AllSpared<T>(s: seq<T>, kept: set<T>)
    requires forall x | x in s :: x in kept
    ensures Spared(s, kept) == s
  {
    if s != [] {
      AllSpared(s[1..], kept);
    }
  }

  lemma {:induction false} NoneSpared<T>(s: seq<T>, kept: set<T>)
    requires forall x | x in s :: x !in kept
    ensures Spared(s, kept) == []
  {
    if s != [] {
      NoneSpared(s[1..], kept);
    }
  }

  lemma {:induction false} ErasedFromSpared<T>(s: seq<T>, kept: set<T>, x: T)
    requires Distinct(s)
    ensures Erased(Spared(s, kept), x) == Spared(s, kept - {x})
  {
    if s != [] {
      var tail := s[1..];
      assert forall k | 0 <= k < |tail| :: tail[k] == s[k + 1];
      assert s[0] !in tail;
      assert s[0] in kept ==> Spared(s, kept)[1..] == Spared(tail, kept);
      assert s[0] !in kept ==> Spared(s, kept) == Spared(tail, kept);
      if s[0] == x && x in kept {
        SparedAlike(tail, kept, kept - {x});
      } else {
        ErasedFromSpared(tail, kept, x);
      }
    }
  }

  lemma PrependedIsDistinct<T>(x: T, s: seq<T>)
    requires Distinct(s) && x !in s
    ensures Distinct([x] + s)
  {
  }

  // x goes to position at.
  function Inserted<T>(s: seq<T>, at: nat, x: T): (r: seq<T>)
    requires at <= |s|
    ensures forall y | y in r :: y in s || y == x
    ensures x in r && forall y | y in s :: y in r
  {
    assert forall y | y in s :: y in s[..at] || y in s[at..] by {
      assert s == s[..at] + s[at..];
    }
    s[..at] + [x] + s[at..]
  }

  lemma InsertedIsDistinct<T>(s: seq<T>, at: nat, x: T)
    requires Distinct(s) && at <= |s| && x !in s
    ensures Distinct(Inserted(s, at, x))
  {
    var r := Inserted(s, at, x);
    assert forall i | 0 <= i < |r| :: r[i] == if i < at then s[i] else if i == at then x else s[i - 1];
  }

  // The cast to unsigned int in lessByModuleId.
  function Unsigned(id: int): int {
    id % 0x1_0000_0000
  }

  predicate SortedById(s: seq<Node>) {
    forall i, j | 0 <= i < j < |s| :: !LessByModuleId(s[j], s[i])
  }

  lemma InsertedIsSorted(s: seq<Node>, at: nat, x: Node)
    requires SortedById(s) && at <= |s|
    requires forall i | 0 <= i < at :: !LessByModuleId(x, s[i])
    requires forall i | at <= i < |s| :: !LessByModuleId(s[i], x)
    ensures SortedById(Inserted(s, at, x))
  {
    var r := Inserted(s, at, x);
    assert forall i | 0 <= i < |r| :: r[i] == if i < at then s[i] else if i == at then x else s[i - 1];
  }

  predicate LessByModuleId(a: Node, b: Node) {
    Unsigned(a.moduleId) < Unsigned(b.moduleId)
  }

  // Put src before the first entry that is farther.
  method InsertByDist(q: seq<Node>, src: Node) returns (r: seq<Node>, ghost at: nat)
    requires Ordered(q) && src !in q
    ensures Ordered(r) && at <= |q| && r == q[..at] + [src] + q[at..]
    ensures forall i | 0 <= i < |q| :: i < at <==> q[i].dist.AtMost(src.dist)
    ensures forall m {:trigger m in r} :: m in r <==> m in q || m == src
  {
    var it := 0;
    while it < |q| && !src.dist.Less(q[it].dist)
      invariant 0 <= it <= |q|
      invariant forall i | 0 <= i < it :: q[i].dist.AtMost(src.dist)
    {
      it := it + 1;
    }
    at := it;
    r := q[..it] + [src] + q[it..];
    assert forall m {:trigger m in q} :: m in q <==> m in q[..it] || m in q[it..] by {
      assert q == q[..it] + q[it..];
    }
  }

  class Topology {
    var nodes: seq<Node>
    ghost var links: set<Link>

    constructor ()
      ensures nodes == [] && links == {} && WellFormed()
    {
      nodes, links := [], {};
    }

    // The incoming link lists hold exactly ins, each link once, at a node of the graph.
    ghost predicate InWired(ins: set<Link>)
      reads this`nodes, nodes`inLinks
    {
      && (forall l {:trigger l in ins} | l in ins :: l.destNode in nodes && l in l.destNode.inLinks)
      && (forall n, i {:trigger n.inLinks[i]} | n in nodes && 0 <= i < |n.inLinks| ::
           n.inLinks[i] in ins && n.inLinks[i].destNode == n)
      && (forall n | n in nodes :: Distinct(n.inLinks))
    }

    // The outgoing link lists hold exactly outs, each link once, at a node of the graph.
    ghost predicate OutWired(outs: set<Link>)
      reads this`nodes, nodes`outLinks
    {
      && (forall l {:trigger l in outs} | l in outs :: l.srcNode in nodes && l in l.srcNode.outLinks)
      && (forall n, i {:trigger n.outLinks[i]} | n in nodes && 0 <= i < |n.outLinks| ::
           n.outLinks[i] in outs && n.outLinks[i].srcNode == n)
      && (forall n | n in nodes :: Distinct(n.outLinks))
    }

    // No node occurs twice, and both kinds of lists hold exactly the links.
    ghost predicate WellFormed()
      reads this, nodes`inLinks, nodes`outLinks
    {
      Distinct(nodes) && InWired(links) && OutWired(links)
    }

    // As much of that as the searches use.
    ghost predicate Graph()
      reads this, nodes`inLinks
    {
      && (forall l {:trigger l in links} | l in links ::
           l.srcNode in nodes && l.destNode in nodes && l in l.destNode.inLinks)
      && (forall n, i {:trigger n.inLinks[i]} | n in nodes && 0 <= i < |n.inLinks| ::
           n.inLinks[i] in links && n.inLinks[i].destNode == n)
    }

    lemma WellFormedIsGraph()
      requires WellFormed()
      ensures Graph()
    {
    }

    // ---- editing the graph ----

    method UnlinkFromSourceNode(l: Link, ghost outs: set<Link>)
      requires OutWired(outs) && l in outs
      modifies l.srcNode`outLinks
      ensures OutWired(outs - {l}) && l.srcNode.outLinks == Erased(old(l.srcNode.outLinks), l)
    {
      ghost var before := l.srcNode.outLinks;
      ErasedIsDistinct(before, l);
      l.srcNode.outLinks := Erased(l.srcNode.outLinks, l);
      assert forall m | m in outs && m.srcNode == l.srcNode :: m in before;
      assert forall i | 0 <= i < |l.srcNode.outLinks| :: l.srcNode.outLinks[i] in before;
    }

    method UnlinkFromDestNode(l: Link, ghost ins: set<Link>)
      requires InWired(ins) && l in ins
      modifies l.destNode`inLinks
      ensures InWired(ins - {l}) && l.destNode.inLinks == Erased(old(l.destNode.inLinks), l)
    {
      ghost var before := l.destNode.inLinks;
      ErasedIsDistinct(before, l);
      l.destNode.inLinks := Erased(l.destNode.inLinks, l);
      assert forall m | m in ins && m.destNode == l.destNode :: m in before;
      assert forall i | 0 <= i < |l.destNode.inLinks| :: l.destNode.inLinks[i] in before;
    }

    method DeleteLink(l: Link)
      requires WellFormed() && l in links
      modifies this`links, l.srcNode`outLinks, l.destNode`inLinks
      ensures WellFormed() && links == old(links) - {l}
      ensures l.srcNode.outLinks == Erased(old(l.srcNode.outLinks), l)
      ensures l.destNode.inLinks == Erased(old(l.destNode.inLinks), l)
    {
      UnlinkFromSourceNode(l, links);
      UnlinkFromDestNode(l, links);
      SetLinks(links - {l});
    }

    // addLink, for a link that is not in the graph.
    method AddLink(l: Link)
      requires WellFormed() && l !in links && l.srcNode in nodes && l.destNode in nodes
      modifies this`links, l.srcNode`outLinks, l.destNode`inLinks
      ensures WellFormed() && links == old(links) + {l}
      ensures l.srcNode.outLinks == old(l.srcNode.outLinks) + [l] && l.destNode.inLinks == old(l.destNode.inLinks) + [l]
    {
      AppendOut(l, links);
      AppendIn(l, links);
      SetLinks(links + {l});
    }

    method AppendOut(l: Link, ghost outs: set<Link>)
      requires OutWired(outs) && l !in outs && l.srcNode in nodes
      modifies l.srcNode`outLinks
      ensures OutWired(outs + {l}) && l.srcNode.outLinks == old(l.srcNode.outLinks) + [l]
    {
      assert forall i | 0 <= i < |l.srcNode.outLinks| :: l.srcNode.outLinks[i] in outs;
      l.srcNode.outLinks := l.srcNode.outLinks + [l];
    }

    method AppendIn(l: Link, ghost ins: set<Link>)
      requires InWired(ins) && l !in ins && l.destNode in nodes
      modifies l.destNode`inLinks
      ensures InWired(ins + {l}) && l.destNode.inLinks == old(l.destNode.inLinks) + [l]
    {
      assert forall i | 0 <= i < |l.destNode.inLinks| :: l.destNode.inLinks[i] in ins;
      l.destNode.inLinks := l.destNode.inLinks + [l];
    }

    // The incoming lists are those of before without the links that are gone.
    ghost predicate InSpared(was: map<Node, seq<Link>>, kept: set<Link>)
      reads this`nodes, nodes`inLinks
    {
      forall n {:trigger n.inLinks} | n in nodes :: n in was && Distinct(was[n]) && n.inLinks == Spared(was[n], kept)
        && forall l | l in was[n] :: l.destNode == n
    }

    // The same for the outgoing ones.
    ghost predicate OutSpared(was: map<Node, seq<Link>>, kept: set<Link>)
      reads this`nodes, nodes`outLinks
    {
      forall n {:trigger n.outLinks} | n in nodes :: n in was && Distinct(was[n]) && n.outLinks == Spared(was[n], kept)
        && forall l | l in was[n] :: l.srcNode == n
    }

    method UnlinkSparingIn(l: Link, ghost was: map<Node, seq<Link>>, ghost ins: set<Link>)
      requires InWired(ins) && l in ins && InSpared(was, ins)
      modifies l.destNode`inLinks
      ensures InWired(ins - {l}) && InSpared(was, ins - {l})
    {
      UnlinkFromDestNode(l, ins);
      forall n | n in nodes ensures n.inLinks == Spared(was[n], ins - {l}) {
        assert old(n.inLinks) == Spared(was[n], ins);
        if n == l.destNode {
          ErasedFromSpared(was[n], ins, l);
        } else {
          SparedAlike(was[n], ins, ins - {l});
        }
      }
    }

    method UnlinkSparingOut(l: Link, ghost was: map<Node, seq<Link>>, ghost outs: set<Link>)
      requires OutWired(outs) && l in outs && OutSpared(was, outs)
      modifies l.srcNode`outLinks
      ensures OutWired(outs - {l}) && OutSpared(was, outs - {l})
    {
      UnlinkFromSourceNode(l, outs);
      forall n | n in nodes ensures n.outLinks == Spared(was[n], outs - {l}) {
        assert old(n.outLinks) == Spared(was[n], outs);
        if n == l.srcNode {
          ErasedFromSpared(was[n], outs, l);
        } else {
          SparedAlike(was[n], outs, outs - {l});
        }
      }
    }

    // The lists of n have lost the links that are not kept, and no others; those that stay are in their order.
    twostate predicate KeepsOthers(n: Node, new kept: set<Link>)
      reads n
    {
      n.inLinks == Spared(old(n.inLinks), kept) && n.outLinks == Spared(old(n.outLinks), kept)
    }

    // The node leaves with its links; all other links stay where they are in the lists of the other nodes.
    // A self-loop leaves both lists of the node while its outgoing links are dropped.
    method DeleteNode(node: Node)
      requires WellFormed() && node in nodes
      modifies this`nodes, this`links, nodes`inLinks, nodes`outLinks
      ensures WellFormed() && nodes == Erased(old(nodes), node)
      ensures forall l :: l in links <==> l in old(links) && l.srcNode != node && l.destNode != node
      ensures forall n | n in nodes :: KeepsOthers(n, links)
    {
      ghost var kept := DropLinks(node);
      EraseNode(node, kept);
    }

    method EraseNode(node: Node, ghost kept: set<Link>)
      requires Distinct(nodes) && InWired(kept) && OutWired(kept)
      requires forall l | l in kept :: l.srcNode != node && l.destNode != node
      modifies this`nodes, this`links
      ensures nodes == Erased(old(nodes), node) && links == kept && WellFormed()
      ensures forall n | n in nodes :: n in old(nodes)
    {
      ErasedIsDistinct(nodes, node);
      nodes := Erased(nodes, node);
      links := kept;
    }

    // The links of a node leave all lists, first the outgoing and then the incoming ones.
    method DropLinks(node: Node) returns (ghost kept: set<Link>)
      requires WellFormed() && node in nodes
      modifies nodes`inLinks, nodes`outLinks
      ensures InWired(kept) && OutWired(kept)
      ensures forall l :: l in kept <==> l in links && l.srcNode != node && l.destNode != node
      ensures forall n | n in nodes :: KeepsOthers(n, kept)
    {
      ghost var ins, outs := AllListsSpared();
      kept := DropLinksFrom(node, ins, outs);
      forall n | n in nodes ensures KeepsOthers(n, kept) {
        assert ins[n] == old(n.inLinks) && outs[n] == old(n.outLinks);
      }
    }

    method SetLinks(ghost kept: set<Link>)
      requires Distinct(nodes) && InWired(kept) && OutWired(kept)
      modifies this`links
      ensures WellFormed() && links == kept
    {
      links := kept;
    }

    method DropLinksFrom(node: Node, ghost ins: map<Node, seq<Link>>, ghost outs: map<Node, seq<Link>>)
      returns (ghost kept: set<Link>)
      requires WellFormed() && node in nodes && InSpared(ins, links) && OutSpared(outs, links)
      modifies nodes`inLinks, nodes`outLinks
      ensures InWired(kept) && OutWired(kept) && InSpared(ins, kept) && OutSpared(outs, kept)
      ensures forall l :: l in kept <==> l in links && l.srcNode != node && l.destNode != node
    {
      ghost var incoming := DropOutgoing(node, ins, outs);
      kept := DropIncoming(node, ins, outs, incoming);
    }

    lemma AllListsSpared() returns (ins: map<Node, seq<Link>>, outs: map<Node, seq<Link>>)
      requires WellFormed()
      ensures forall n {:trigger n.inLinks} | n in nodes :: n in ins && ins[n] == n.inLinks
      ensures forall n {:trigger n.outLinks} | n in nodes :: n in outs && outs[n] == n.outLinks
      ensures InSpared(ins, links) && OutSpared(outs, links)
    {
      ins, outs := map n | n in nodes :: n.inLinks, map n | n in nodes :: n.outLinks;
      forall n | n in nodes ensures n.inLinks == Spared(n.inLinks, links) && n.outLinks == Spared(n.outLinks, links) {
        AllSpared(n.inLinks, links);
        AllSpared(n.outLinks, links);
      }
    }

    method DropOutgoing(node: Node, ghost ins: map<Node, seq<Link>>, ghost outs: map<Node, seq<Link>>)
      returns (ghost kept: set<Link>)
      requires WellFormed() && node in nodes && InSpared(ins, links) && OutSpared(outs, links)
      modifies nodes`inLinks, node`outLinks
      ensures InWired(kept) && OutWired(kept) && InSpared(ins, kept) && OutSpared(outs, kept)
      ensures forall l :: l in kept <==> l in links && l.srcNode != node
    {
      kept := UnlinkAllIn(node.outLinks, ins, links);
      ClearOutgoing(node, outs, links, kept);
    }

    method DropIncoming(node: Node, ghost ins: map<Node, seq<Link>>, ghost outs: map<Node, seq<Link>>,
        ghost all: set<Link>)
      returns (ghost kept: set<Link>)
      requires InWired(all) && OutWired(all) && node in nodes && InSpared(ins, all) && OutSpared(outs, all)
      modifies nodes`outLinks, node`inLinks
      ensures InWired(kept) && OutWired(kept) && InSpared(ins, kept) && OutSpared(outs, kept)
      ensures forall l :: l in kept <==> l in all && l.destNode != node
    {
      kept := UnlinkAllOut(node.inLinks, outs, all);
      ClearIncoming(node, ins, all, kept);
    }

    method UnlinkAllIn(ls: seq<Link>, ghost was: map<Node, seq<Link>>, ghost all: set<Link>)
      returns (ghost kept: set<Link>)
      requires InWired(all) && InSpared(was, all) && Distinct(ls) && forall l | l in ls :: l in all
      modifies nodes`inLinks
      ensures InWired(kept) && InSpared(was, kept)
      ensures forall l :: l in kept <==> l in all && l !in ls
    {
      kept := all;
      for i := 0 to |ls|
        invariant InWired(kept) && InSpared(was, kept)
        invariant forall l :: l in kept <==> l in all && l !in ls[..i]
      {
        assert ls[i] !in ls[..i] && ls[..i + 1] == ls[..i] + [ls[i]];
        UnlinkSparingIn(ls[i], was, kept);
        kept := kept - {ls[i]};
      }
      assert ls[..|ls|] == ls;
    }

    method UnlinkAllOut(ls: seq<Link>, ghost was: map<Node, seq<Link>>, ghost all: set<Link>)
      returns (ghost kept: set<Link>)
      requires OutWired(all) && OutSpared(was, all) && Distinct(ls) && forall l | l in ls :: l in all
      modifies nodes`outLinks
      ensures OutWired(kept) && OutSpared(was, kept)
      ensures forall l :: l in kept <==> l in all && l !in ls
    {
      kept := all;
      for i := 0 to |ls|
        invariant OutWired(kept) && OutSpared(was, kept)
        invariant forall l :: l in kept <==> l in all && l !in ls[..i]
      {
        assert ls[i] !in ls[..i] && ls[..i + 1] == ls[..i] + [ls[i]];
        UnlinkSparingOut(ls[i], was, kept);
        kept := kept - {ls[i]};
      }
      assert ls[..|ls|] == ls;
    }

    method ClearOutgoing(node: Node, ghost was: map<Node, seq<Link>>, ghost all: set<Link>, ghost kept: set<Link>)
      requires OutWired(all) && OutSpared(was, all) && node in nodes
      requires forall l :: l in kept <==> l in all && l.srcNode != node
      modifies node`outLinks
      ensures OutWired(kept) && OutSpared(was, kept) && node.outLinks == []
    {
      node.outLinks := [];
      forall n | n in nodes ensures n.outLinks == Spared(was[n], kept) {
        assert n.outLinks == if n == node then [] else Spared(was[n], all);
        if n == node {
          NoneSpared(was[n], kept);
        } else {
          SparedAlike(was[n], all, kept);
        }
      }
    }

    method ClearIncoming(node: Node, ghost was: map<Node, seq<Link>>, ghost all: set<Link>, ghost kept: set<Link>)
      requires InWired(all) && InSpared(was, all) && node in nodes
      requires forall l :: l in kept <==> l in all && l.destNode != node
      modifies node`inLinks
      ensures InWired(kept) && InSpared(was, kept)
    {
      node.inLinks := [];
      forall n | n in nodes ensures n.inLinks == Spared(was[n], kept) {
        assert n.inLinks == if n == node then [] else Spared(was[n], all);
        if n == node {
          NoneSpared(was[n], kept);
        } else {
          SparedAlike(was[n], all, kept);
        }
      }
    }

    // nodes[] is ordered by module ID; nodes without one come last.
    ghost predicate Sorted()
      reads this`nodes
    {
      SortedById(nodes)
    }

    method AddNode(node: Node) returns (at: nat)
      requires WellFormed() && Sorted() && node !in nodes && node.inLinks == [] && node.outLinks == []
      requires -1 <= node.moduleId < 0x8000_0000
      requires forall n | n in nodes :: -1 <= n.moduleId < 0x8000_0000
      modifies this`nodes
      ensures WellFormed() && Sorted()
      ensures at <= |old(nodes)| && nodes == Inserted(old(nodes), at, node)
    {
      if node.moduleId == -1 {
        at := |nodes|;
      } else {
        at := LowerBound(node.moduleId);
      }
      InsertedIsSorted(nodes, at, node);
      InsertNode(at, node);
    }

    method InsertNode(at: nat, node: Node)
      requires WellFormed() && at <= |nodes| && node !in nodes && node.inLinks == [] && node.outLinks == []
      modifies this`nodes
      ensures WellFormed() && nodes == Inserted(old(nodes), at, node)
    {
      InsertedIsDistinct(nodes, at, node);
      nodes := Inserted(nodes, at, node);
    }

    // std::lower_bound over nodes.
    method LowerBound(moduleId: int) returns (at: nat)
      requires Sorted()
      ensures at <= |nodes|
      ensures forall i | 0 <= i < at :: Unsigned(nodes[i].moduleId) < Unsigned(moduleId)
      ensures forall i | at <= i < |nodes| :: Unsigned(moduleId) <= Unsigned(nodes[i].moduleId)
    {
      var lo, hi := 0, |nodes|;
      while lo < hi
        invariant 0 <= lo <= hi <= |nodes|
        invariant forall i | 0 <= i < lo :: Unsigned(nodes[i].moduleId) < Unsigned(moduleId)
        invariant forall i | hi <= i < |nodes| :: Unsigned(moduleId) <= Unsigned(nodes[i].moduleId)
      {
        var mid := (lo + hi) / 2;
        if Unsigned(nodes[mid].moduleId) < Unsigned(moduleId) {
          lo := mid + 1;
        } else {
          hi := mid;
        }
      }
      at := lo;
    }

    // The node of a module, if the graph has one.
    method GetNodeFor(moduleId: int) returns (n: Node?)
      requires Sorted() && 0 <= moduleId < 0x8000_0000
      requires forall n | n in nodes :: -1 <= n.moduleId < 0x8000_0000
      ensures n != null ==> n in nodes && n.moduleId == moduleId
      ensures n == null ==> forall m | m in nodes :: m.moduleId != moduleId
    {
      var it := LowerBound(moduleId);
      n := if it == |nodes| || nodes[it].moduleId != moduleId then null else nodes[it];
    }

    // The weighted search takes n from its queue: a path of finite cost leads from n to the target.
    ghost predicate ComesTo(n: Node, target: Node)
      reads this`links, links`enabled, links`weight, set l | l in links :: l.srcNode`enabled,
        set l | l in links :: l.destNode`weight
    {
      exists p :: IsPath(p, links, n, target) && PathCost(p, links, target, Weighted).Fin?
    }

    // What the two assertions in the weighted search demand, of the nodes that it takes and the links that it follows.
    ghost predicate WeightsOk(target: Node)
      reads this, nodes`weight, links`enabled, links`weight, set l | l in links :: l.srcNode`enabled,
        set l | l in links :: l.destNode`weight
    {
      && (forall n {:trigger ComesTo(n, target)} | n in nodes && ComesTo(n, target) :: Fin(0.0).AtMost(n.weight))
      && (forall l {:trigger Usable(l)} | l in links && Usable(l) && ComesTo(l.destNode, target) ::
           Fin(0.0).Less(l.weight))
    }

    // ---- what both searches keep ----

    // Every labelled node has left the queue (done) or is in it; what is done is no farther than top
    // and what is queued no nearer.
    ghost predicate Labelled(q: seq<Node>, done: set<Node>, top: real)
      reads this`nodes, nodes`dist, q`dist, done`dist
    {
      && (forall n | n in nodes :: n.dist.Fin? <==> n in done || n in q)
      && (forall n | n in q :: n in nodes && n !in done && Fin(top).AtMost(n.dist))
      && (forall n | n in done :: n in nodes && n.dist.AtMost(Fin(top)))
    }

    // n's label: its route starts with its outPath, goes on as the route of a done node, and costs n.dist.
    ghost predicate RouteOk(n: Node, done: set<Node>, target: Node, price: Price, route: map<Node, Path>)
      reads this`links, n`dist, n`outPath, links`enabled, links`weight, set l | l in links :: l.srcNode`enabled,
        set l | l in links :: l.destNode`weight
    {
      && n in route && IsPath(route[n], links, n, target) && PathCost(route[n], links, target, price) == n.dist
      && if n == target then n.outPath == null && route[n] == End
         else n.outPath != null && n.outPath in links && n.outPath.destNode in done && n.outPath.destNode in route
              && route[n] == Via(n.outPath, route[n.outPath.destNode])
    }

    ghost predicate Routed(done: set<Node>, target: Node, price: Price, route: map<Node, Path>)
      reads this`nodes, this`links, nodes`dist, nodes`outPath, links`enabled, links`weight,
        set l | l in links :: l.srcNode`enabled, set l | l in links :: l.destNode`weight
    {
      && target in nodes && target.dist == Fin(0.0)
      && forall n {:trigger RouteOk(n, done, target, price, route)} | n in nodes && n.dist.Fin? ::
           RouteOk(n, done, target, price, route)
    }

    // Link l cannot improve the label of the node it leaves.
    ghost predicate Settled(l: Link, target: Node, price: Price)
      reads l`enabled, l`weight, l.srcNode`enabled, l.srcNode`dist, l.destNode`weight, l.destNode`dist
    {
      Usable(l) ==> l.srcNode.dist.AtMost(StepCost(l, target, price).Plus(l.destNode.dist))
    }

    // ---- the weighted search ----

    // Follow one incoming link of dest, the node that left the queue last.
    method RelaxLink(l: Link, target: Node, q0: seq<Node>, ghost done: set<Node>, ghost top: real,
        ghost route0: map<Node, Path>)
      returns (q: seq<Node>, ghost route: map<Node, Path>)
      requires Graph() && WeightsOk(target) && l in links && l.destNode in done && l.destNode.dist == Fin(top)
      requires Labelled(q0, done, top) && Ordered(q0) && target in done && Routed(done, target, Weighted, route0)
      modifies nodes`dist, nodes`outPath
      ensures Labelled(q, done, top) && Ordered(q) && Routed(done, target, Weighted, route)
      ensures forall n | n in nodes :: n.dist.AtMost(old(n.dist)) && (n in done ==> n.dist == old(n.dist))
      ensures Settled(l, target, Weighted)
    {
      q, route := q0, route0;
      if !l.enabled || !l.srcNode.enabled {
        return;
      }
      var src, dest := l.srcNode, l.destNode;
      assert RouteOk(dest, done, target, Weighted, route);
      assert Usable(l) && ComesTo(dest, target);
      var newdist := dest.dist.Plus(l.weight);
      if dest != target {
        newdist := newdist.Plus(dest.weight);
      }
      assert newdist == StepCost(l, target, Weighted).Plus(dest.dist);
      if newdist != Inf && newdist.Less(src.dist) {
        q, route := Improve(l, newdist, target, q, done, top, route);
      }
    }

    // A cheaper way from the node that l leaves: a new label and a new place in the queue.
    method Improve(l: Link, newdist: Cost, target: Node, q0: seq<Node>, ghost done: set<Node>, ghost top: real,
        ghost route0: map<Node, Path>)
      returns (q: seq<Node>, ghost route: map<Node, Path>)
      requires Graph() && l in links && Usable(l) && l.destNode in done && target in done
      requires newdist.Fin? && newdist == StepCost(l, target, Weighted).Plus(l.destNode.dist)
      requires Fin(top).Less(newdist) && newdist.Less(l.srcNode.dist)
      requires Labelled(q0, done, top) && Ordered(q0) && Routed(done, target, Weighted, route0)
      modifies l.srcNode`dist, l.srcNode`outPath
      ensures l.srcNode.dist == newdist && l.srcNode !in done
      ensures Labelled(q, done, top) && Ordered(q) && Routed(done, target, Weighted, route)
    {
      var src := l.srcNode;
      assert src !in done;
      q := Unqueue(src, q0, done, top);
      route := Label(l, newdist, target, done, Weighted, route0);
      assert src !in q && Ordered(q);
      ghost var at;
      q, at := InsertByDist(q, src);
    }

    // A labelled node that is not done is still queued, and loses its place.
    method Unqueue(src: Node, q0: seq<Node>, ghost done: set<Node>, ghost top: real) returns (q: seq<Node>)
      requires Labelled(q0, done, top) && Ordered(q0) && src in nodes && src !in done
      ensures Ordered(q) && forall m :: m in q <==> m in q0 && m != src
    {
      q := q0;
      if src.dist != Inf {
        assert src in q;
        q := Removed(q, src);
        RemovedIsOrdered(q0, src);
      }
    }

    // Give the node that l leaves its new label.
    method Label(l: Link, newdist: Cost, target: Node, ghost done: set<Node>, ghost price: Price,
        ghost route0: map<Node, Path>)
      returns (ghost route: map<Node, Path>)
      requires Graph() && l in links && Usable(l) && l.destNode in done && l.srcNode !in done
        && done <= set n | n in nodes
      requires target in done && newdist.Fin? && newdist == StepCost(l, target, price).Plus(l.destNode.dist)
      requires Routed(done, target, price, route0)
      modifies l.srcNode`dist, l.srcNode`outPath
      ensures l.srcNode.dist == newdist && l.srcNode.outPath == l
      ensures Routed(done, target, price, route)
    {
      var src := l.srcNode;
      assert RouteOk(l.destNode, done, target, price, route0);
      route := route0[src := Via(l, route0[l.destNode])];
      src.dist, src.outPath := newdist, l;
      forall n | n in nodes && n.dist.Fin? ensures RouteOk(n, done, target, price, route) {
        assert n != src ==> old(RouteOk(n, done, target, price, route0));
      }
    }

    // ---- what the searches promise ----

    // Every node has its distance, and the outPaths of a labelled node lead to the target at that cost.
    ghost predicate Solved(target: Node, price: Price)
      reads this`nodes, this`links, nodes`dist, nodes`outPath, links`enabled, links`weight,
        set l | l in links :: l.srcNode`enabled, set l | l in links :: l.destNode`weight,
          set l | l in links :: l.destNode`outPath
    {
      forall n {:trigger n in nodes} | n in nodes ::
        && IsDistance(links, n, target, price, n.dist)
        && (n.dist.Fin? ==>
             exists p :: IsPath(p, links, n, target) && AlongOutPaths(p, links, n)
               && PathCost(p, links, target, price) == n.dist)
    }

    // Once every link is settled, no path is cheaper than the label of the node it starts from.
    lemma {:induction false} NoCheaperPath(p: Path, n: Node, target: Node, price: Price)
      requires Graph() && target.dist == Fin(0.0) && IsPath(p, links, n, target)
      requires forall l {:trigger Settled(l, target, price)} | l in links :: Settled(l, target, price)
      ensures n.dist.AtMost(PathCost(p, links, target, price))
    {
      if p.Via? {
        NoCheaperPath(p.rest, p.link.destNode, target, price);
        assert Settled(p.link, target, price);
      }
    }

    // A route follows the outPaths.
    lemma {:induction false} RouteFollowsOutPaths(p: Path, n: Node, done: set<Node>, target: Node, price: Price,
        route: map<Node, Path>)
      requires Graph() && Routed(done, target, price, route) && n in nodes && n.dist.Fin? && n in route && route[n] == p
      requires forall d | d in done :: d in nodes && d.dist.Fin?
      ensures AlongOutPaths(p, links, n)
    {
      assert RouteOk(n, done, target, price, route);
      if p.Via? {
        RouteFollowsOutPaths(p.rest, p.link.destNode, done, target, price, route);
      }
    }

    // When the queue is empty and every link into a done node is settled, the search has solved its problem.
    lemma FinishedIsSolved(done: set<Node>, top: real, target: Node, price: Price, route: map<Node, Path>)
      requires Graph() && Labelled([], done, top) && Routed(done, target, price, route)
      requires Explored(done, target, price)
      ensures Solved(target, price)
    {
      forall l | l in links ensures Settled(l, target, price) {
        assert l.destNode in nodes;
      }
      forall n | n in nodes
        ensures IsDistance(links, n, target, price, n.dist)
        ensures n.dist.Fin? ==>
          exists p :: IsPath(p, links, n, target) && AlongOutPaths(p, links, n)
            && PathCost(p, links, target, price) == n.dist
      {
        forall p | IsPath(p, links, n, target) ensures n.dist.AtMost(PathCost(p, links, target, price)) {
          NoCheaperPath(p, n, target, price);
        }
        if n.dist.Fin? {
          assert RouteOk(n, done, target, price, route);
          RouteFollowsOutPaths(route[n], n, done, target, price, route);
        }
      }
    }

    // Every link into ds is settled.
    ghost predicate Explored(ds: set<Node>, target: Node, price: Price)
      reads this`links, links`enabled, links`weight, set l | l in links :: l.srcNode`enabled,
        set l | l in links :: l.srcNode`dist,
        set l | l in links :: l.destNode`weight, set l | l in links :: l.destNode`dist
    {
      forall l {:trigger Settled(l, target, price)} | l in links && l.destNode in ds :: Settled(l, target, price)
    }

    // Lowering labels outside ds unsettles nothing.
    twostate lemma ExploredKept(a: (set<Node>, Node, Price))
      requires old(Graph()) && Graph() && links == old(links) && nodes == old(nodes)
      requires forall l | l in links :: l.enabled == old(l.enabled) && l.weight == old(l.weight)
      requires forall n | n in nodes :: n.enabled == old(n.enabled) && n.weight == old(n.weight)
      requires forall n | n in nodes :: n.dist.AtMost(old(n.dist)) && (n in a.0 ==> n.dist == old(n.dist))
      requires old(Explored(a.0, a.1, a.2))
      ensures Explored(a.0, a.1, a.2)
    {
      forall l | l in links && l.destNode in a.0 ensures Settled(l, a.1, a.2) {
        assert old(Settled(l, a.1, a.2));
      }
    }

    // The front of the queue moves to the done nodes.
    lemma Dequeued(q: seq<Node>, done: set<Node>, top: real, target: Node, price: Price, route: map<Node, Path>)
      requires q != [] && Labelled(q, done, top) && Ordered(q) && Routed(done, target, price, route)
      ensures q[0] in nodes && q[0] !in done && q[0].dist.Fin?
      ensures Labelled(q[1..], done + {q[0]}, q[0].dist.v) && Ordered(q[1..])
        && Routed(done + {q[0]}, target, price, route)
    {
      FrontIsDone(q, done, top);
      RoutedWithMoreDone(done, done + {q[0]}, target, price, route);
    }

    lemma FrontIsDone(q: seq<Node>, done: set<Node>, top: real)
      requires q != [] && Labelled(q, done, top) && Ordered(q)
      ensures q[0] in nodes && q[0] !in done && q[0].dist.Fin?
      ensures Labelled(q[1..], done + {q[0]}, q[0].dist.v) && Ordered(q[1..])
    {
      var rest := q[1..];
      assert q == [q[0]] + rest;
      assert forall n {:trigger n in q} | n in rest :: n in q && n != q[0];
    }

    lemma RoutedWithMoreDone(done: set<Node>, more: set<Node>, target: Node, price: Price, route: map<Node, Path>)
      requires done <= more && Routed(done, target, price, route)
      ensures Routed(more, target, price, route)
    {
      forall n | n in nodes && n.dist.Fin? ensures RouteOk(n, more, target, price, route) {
        assert RouteOk(n, done, target, price, route);
      }
    }

    // Take dest from the queue and follow its incoming links.
    method Expand(dest: Node, target: Node, q0: seq<Node>, ghost done: set<Node>, ghost top: real,
        ghost route0: map<Node, Path>)
      returns (q: seq<Node>, ghost route: map<Node, Path>)
      requires Graph() && WeightsOk(target) && dest in done && dest.dist == Fin(top)
      requires Labelled(q0, done, top) && Ordered(q0) && target in done && Routed(done, target, Weighted, route0)
      requires Explored(done - {dest}, target, Weighted)
      modifies nodes`dist, nodes`outPath
      ensures Labelled(q, done, top) && Ordered(q) && Routed(done, target, Weighted, route)
      ensures Explored(done, target, Weighted) && forall n | n in done :: n.dist == old(n.dist)
    {
      q, route := q0, route0;
      for i := 0 to |dest.inLinks|
        invariant dest.dist == Fin(top)
        invariant Labelled(q, done, top) && Ordered(q) && Routed(done, target, Weighted, route)
        invariant forall k {:trigger dest.inLinks[k]} | 0 <= k < i :: Settled(dest.inLinks[k], target, Weighted)
        invariant Explored(done - {dest}, target, Weighted) && forall n | n in done :: n.dist == old(n.dist)
      {
        q, route := FollowLink(dest, i, target, q, done, top, route);
      }
    }

    // One turn of the loop over the incoming links.
    method FollowLink(dest: Node, i: nat, target: Node, q0: seq<Node>, ghost done: set<Node>, ghost top: real,
        ghost route0: map<Node, Path>)
      returns (q: seq<Node>, ghost route: map<Node, Path>)
      requires Graph() && WeightsOk(target) && dest in done && dest.dist == Fin(top)
      requires dest in nodes && i < |dest.inLinks|
      requires Labelled(q0, done, top) && Ordered(q0) && target in done && Routed(done, target, Weighted, route0)
      requires Explored(done - {dest}, target, Weighted)
      requires forall k {:trigger dest.inLinks[k]} | 0 <= k < i :: Settled(dest.inLinks[k], target, Weighted)
      modifies nodes`dist, nodes`outPath
      ensures Labelled(q, done, top) && Ordered(q) && Routed(done, target, Weighted, route)
      ensures Explored(done - {dest}, target, Weighted) && forall n | n in done :: n.dist == old(n.dist)
      ensures forall k {:trigger dest.inLinks[k]} | 0 <= k <= i :: Settled(dest.inLinks[k], target, Weighted)
    {
      q, route := RelaxLink(dest.inLinks[i], target, q0, done, top, route0);
      ExploredKept((done - {dest}, target, Weighted));
    }

    // How both searches start: no node but the target has a label.
    method ClearFor(target: Node, ghost price: Price)
      requires Graph() && target in nodes
      modifies nodes`dist, nodes`outPath
      ensures Labelled([target], {}, 0.0) && Ordered([target]) && Shallow([target], 0.0)
      ensures Routed({}, target, price, map[target := End]) && Explored({}, target, price)
      ensures Graph() && (old(WeightsOk(target)) ==> WeightsOk(target))
    {
      Clear(target);
      ClearedIsStart(target, price);
    }

    // calculateWeightedSingleShortestPathsTo; order lists the nodes as they leave the queue.
    method WeightedShortestPathsTo(target: Node) returns (ghost order: seq<Node>)
      requires Graph() && WeightsOk(target) && target in nodes
      modifies nodes`dist, nodes`outPath
      ensures Solved(target, Weighted)
      ensures Ordered(order) && forall n | n in nodes :: n in order <==> n.dist.Fin?
    {
      ClearFor(target, Weighted);
      var q := [target];
      ghost var done, top: real, route: map<Node, Path> := {}, 0.0, map[target := End];
      order := [];
      while q != []
        invariant Graph() && WeightsOk(target)
        invariant Labelled(q, done, top) && Ordered(q) && Routed(done, target, Weighted, route)
        invariant target in done || q[..1] == [target]
        invariant Explored(done, target, Weighted)
        invariant Departed(order, done)
        decreases (set n | n in nodes) - done
      {
        q, done, top, route, order := TakeNext(q, target, done, top, route, order);
      }
      FinishedIsSolved(done, top, target, Weighted, route);
    }

    // One turn of the main loop. No node leaves the queue twice.
    method TakeNext(q0: seq<Node>, target: Node, ghost done0: set<Node>, ghost top0: real,
        ghost route0: map<Node, Path>, ghost order0: seq<Node>)
      returns (q: seq<Node>, ghost done: set<Node>, ghost top: real, ghost route: map<Node, Path>,
        ghost order: seq<Node>)
      requires Graph() && WeightsOk(target) && q0 != [] && (target in done0 || q0[..1] == [target])
      requires Labelled(q0, done0, top0) && Ordered(q0) && Routed(done0, target, Weighted, route0)
      requires Explored(done0, target, Weighted) && Departed(order0, done0)
      modifies nodes`dist, nodes`outPath
      ensures q0[0] !in done0 && q0[0] in nodes && done == done0 + {q0[0]} && order == order0 + [q0[0]]
        && target in done
      ensures Graph() && WeightsOk(target)
      ensures Labelled(q, done, top) && Ordered(q) && Routed(done, target, Weighted, route)
      ensures Explored(done, target, Weighted) && Departed(order, done)
    {
      Dequeued(q0, done0, top0, target, Weighted, route0);
      NextDeparted(order0, done0, q0, top0);
      var dest := q0[0];
      order, done, top := order0 + [dest], done0 + {dest}, dest.dist.v;
      label Before:
      q, route := Expand(dest, target, q0[1..], done, top, route0);
      DepartedKept@Before((order, done));
    }

    // The nodes that left the queue, in order of distance and each once.
    ghost predicate Departed(order: seq<Node>, done: set<Node>)
      reads order`dist
    {
      Ordered(order) && done == set n | n in order
    }

    lemma NextDeparted(order: seq<Node>, done: set<Node>, q: seq<Node>, top: real)
      requires Departed(order, done) && q != [] && Labelled(q, done, top)
      ensures Departed(order + [q[0]], done + {q[0]})
    {
      assert q[0] in q;
    }

    twostate lemma DepartedKept(a: (seq<Node>, set<Node>))
      requires old(Departed(a.0, a.1)) && forall n | n in a.1 :: n.dist == old(n.dist)
      ensures Departed(a.0, a.1)
    {
    }

    // ---- the search by hops ----

    // The queue is never more than one hop deep.
    ghost predicate Shallow(q: seq<Node>, top: real)
      reads q`dist
    {
      forall n | n in q :: n.dist.AtMost(Fin(top + 1.0))
    }

    // Follow one incoming link of v, the node that left the queue last.
    method VisitLink(l: Link, target: Node, q0: seq<Node>, ghost done: set<Node>, ghost top: real,
        ghost route0: map<Node, Path>)
      returns (q: seq<Node>, ghost route: map<Node, Path>)
      requires Graph() && l in links && l.destNode in done && l.destNode.dist == Fin(top) && target in done
      requires Labelled(q0, done, top) && Ordered(q0) && Shallow(q0, top) && Routed(done, target, Hops, route0)
      modifies nodes`dist, nodes`outPath
      ensures Labelled(q, done, top) && Ordered(q) && Shallow(q, top) && Routed(done, target, Hops, route)
      ensures forall n | n in nodes :: n.dist.AtMost(old(n.dist)) && (n in done ==> n.dist == old(n.dist))
      ensures Settled(l, target, Hops)
    {
      q, route := q0, route0;
      if !l.enabled || !l.srcNode.enabled {
        return;
      }
      var v, w := l.destNode, l.srcNode;
      if w.dist == Inf {
        assert w !in done && w !in q;
        route := Label(l, v.dist.Plus(Fin(1.0)), target, done, Hops, route);
        q := q + [w];
      }
    }

    // Take v from the queue and follow its incoming links.
    method Visit(v: Node, target: Node, q0: seq<Node>, ghost done: set<Node>, ghost top: real,
        ghost route0: map<Node, Path>)
      returns (q: seq<Node>, ghost route: map<Node, Path>)
      requires Graph() && v in done && v.dist == Fin(top) && target in done
      requires Labelled(q0, done, top) && Ordered(q0) && Shallow(q0, top) && Routed(done, target, Hops, route0)
      requires Explored(done - {v}, target, Hops)
      modifies nodes`dist, nodes`outPath
      ensures Labelled(q, done, top) && Ordered(q) && Shallow(q, top) && Routed(done, target, Hops, route)
      ensures Explored(done, target, Hops)
    {
      q, route := q0, route0;
      for i := 0 to |v.inLinks|
        invariant Graph() && v.dist == Fin(top)
        invariant Labelled(q, done, top) && Ordered(q) && Shallow(q, top) && Routed(done, target, Hops, route)
        invariant forall k {:trigger v.inLinks[k]} | 0 <= k < i :: Settled(v.inLinks[k], target, Hops)
        invariant Explored(done - {v}, target, Hops)
      {
        q, route := VisitAt(v, i, target, q, done, top, route);
      }
    }

    // One turn of the loop over the incoming links.
    method VisitAt(v: Node, i: nat, target: Node, q0: seq<Node>, ghost done: set<Node>, ghost top: real,
        ghost route0: map<Node, Path>)
      returns (q: seq<Node>, ghost route: map<Node, Path>)
      requires Graph() && v in done && v.dist == Fin(top) && target in done && v in nodes && i < |v.inLinks|
      requires Labelled(q0, done, top) && Ordered(q0) && Shallow(q0, top) && Routed(done, target, Hops, route0)
      requires Explored(done - {v}, target, Hops)
      requires forall k {:trigger v.inLinks[k]} | 0 <= k < i :: Settled(v.inLinks[k], target, Hops)
      modifies nodes`dist, nodes`outPath
      ensures v.dist == Fin(top)
      ensures Labelled(q, done, top) && Ordered(q) && Shallow(q, top) && Routed(done, target, Hops, route)
      ensures Explored(done - {v}, target, Hops)
      ensures forall k {:trigger v.inLinks[k]} | 0 <= k <= i :: Settled(v.inLinks[k], target, Hops)
    {
      q, route := VisitLink(v.inLinks[i], target, q0, done, top, route0);
      ExploredKept((done - {v}, target, Hops));
    }

    // calculateUnweightedSingleShortestPathsTo
    method UnweightedShortestPathsTo(target: Node)
      requires Graph() && target in nodes
      modifies nodes`dist, nodes`outPath
      ensures Solved(target, Hops)
    {
      ClearFor(target, Hops);
      var q := [target];
      ghost var done, top: real, route: map<Node, Path> := {}, 0.0, map[target := End];
      while q != []
        invariant Graph()
        invariant Labelled(q, done, top) && Ordered(q) && Shallow(q, top) && Routed(done, target, Hops, route)
        invariant target in done || q[..1] == [target]
        invariant Explored(done, target, Hops)
        decreases (set n | n in nodes) - done
      {
        Dequeued(q, done, top, target, Hops, route);
        var v := q[0];
        q := q[1..];
        done, top := done + {v}, v.dist.v;
        q, route := Visit(v, target, q, done, top, route);
      }
      FinishedIsSolved(done, top, target, Hops, route);
    }

    // The first of two searches, and what it found.
    method CountHops(target: Node) returns (hops: map<Node, Cost>)
      requires Graph() && WeightsOk(target) && target in nodes
      modifies nodes`dist, nodes`outPath
      ensures Graph() && WeightsOk(target)
      ensures forall n | n in nodes :: n in hops && IsDistance(links, n, target, Hops, hops[n])
    {
      UnweightedShortestPathsTo(target);
      hops := map n | n in nodes :: n.dist;
    }

    // On links of weight 1 between nodes of weight 0 the two searches label every node alike.
    method SearchesAgree(target: Node) returns (hops: map<Node, Cost>)
      requires WellFormed() && target in nodes
      requires forall n | n in nodes :: n.weight == Fin(0.0)
      requires forall l | l in links :: l.weight == Fin(1.0)
      modifies nodes`dist, nodes`outPath
      ensures Solved(target, Weighted)
      ensures forall n | n in nodes :: n in hops && n.dist == hops[n]
    {
      WellFormedIsGraph();
      hops := CountHops(target);
      var _ := WeightedShortestPathsTo(target);
      forall n | n in nodes ensures n.dist == hops[n] {
        UnitWeightsCountHops(links, n, target, n.dist, hops[n]);
      }
    }

    lemma ClearedIsStart(target: Node, price: Price)
      requires Graph() && target in nodes
      requires forall n | n in nodes :: n.outPath == null && n.dist == if n == target then Fin(0.0) else Inf
      ensures Labelled([target], {}, 0.0) && Ordered([target]) && Shallow([target], 0.0)
      ensures Routed({}, target, price, map[target := End]) && Explored({}, target, price)
    {
      assert RouteOk(target, {}, target, price, map[target := End]);
    }

    // Clean the path infos.
    method Clear(target: Node)
      requires target in nodes
      modifies nodes`dist, nodes`outPath
      ensures forall n | n in nodes :: n.outPath == null && n.dist == if n == target then Fin(0.0) else Inf
    {
      for i := 0 to |nodes|
        invariant forall k | 0 <= k < i :: nodes[k].dist == Inf && nodes[k].outPath == null
      {
        nodes[i].dist, nodes[i].outPath := Inf, null;
      }
      target.dist := Fin(0.0);
    }
  }
}
