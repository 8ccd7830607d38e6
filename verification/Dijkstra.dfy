// Single-source search over link arrays, and the links whose removal disconnects their ends.
module Partitions {
  import opened Common

  type NodeId = nat

  datatype Edge = Edge(lastNode: NodeId, cost: real, cost2: real)

  type LinkArray = map<NodeId, seq<Edge>>

  datatype StateLabel = Perm | Tent

  datatype State = State(cost: real, cost2: real, idPrev: NodeId, stateLabel: StateLabel)

  type RouteMap = map<NodeId, State>

  datatype SetElem = SetElem(iD: NodeId, cost: real, cost2: real)

  datatype Method = Basic | WidestShortest | ShortestWidest | OtherCost

  // The errors the source throws.
  datatype Outcome = Done | RootNotFound | LinkNotFound

  // ---- walks ----

  ghost predicate HasEdge(links: LinkArray, a: NodeId, b: NodeId) {
    a in links && exists i {:trigger links[a][i]} | 0 <= i < |links[a]| :: links[a][i].lastNode == b
  }

  // A step along an edge that is not to be avoided.
  ghost predicate Step(links: LinkArray, avoid: set<(NodeId, NodeId)>, a: NodeId, b: NodeId) {
    HasEdge(links, a, b) && (a, b) !in avoid
  }

  // A walk from a to b: the nodes it passes, both ends included.
  ghost predicate IsWalk(links: LinkArray, avoid: set<(NodeId, NodeId)>, a: NodeId, b: NodeId, p: seq<NodeId>)
    decreases |p|
  {
    if |p| <= 1 then p == [a] && a == b
    else p[0] == a && Step(links, avoid, a, p[1]) && IsWalk(links, avoid, p[1], b, p[1..])
  }

  ghost predicate Reachable(links: LinkArray, avoid: set<(NodeId, NodeId)>, a: NodeId, b: NodeId) {
    exists p :: IsWalk(links, avoid, a, b, p)
  }

  // Removing the link between a and b, in both directions, leaves no way from a to b.
  ghost predicate Disconnects(links: LinkArray, a: NodeId, b: NodeId) {
    !Reachable(links, {(a, b), (b, a)}, a, b)
  }

  ghost predicate Symmetric(links: LinkArray) {
    forall a: NodeId, b: NodeId {:trigger HasEdge(links, a, b)} | HasEdge(links, a, b) :: HasEdge(links, b, a)
  }

  lemma {:induction false} WalkExtends(links: LinkArray, avoid: set<(NodeId, NodeId)>, a: NodeId, b: NodeId, c: NodeId,
      p: seq<NodeId>)
    requires IsWalk(links, avoid, a, b, p) && Step(links, avoid, b, c)
    ensures IsWalk(links, avoid, a, c, p + [c])
    decreases |p|
  {
    if |p| <= 1 {
      assert (p + [c])[1..] == [c];
    } else {
      WalkExtends(links, avoid, p[1], b, c, p[1..]);
      assert (p + [c])[1..] == p[1..] + [c];
    }
  }

  // A set that the steps do not leave holds the end of every walk that starts in it.
  lemma {:induction false} WalkStaysInside(links: LinkArray, inside: set<NodeId>, a: NodeId, b: NodeId, p: seq<NodeId>)
    requires IsWalk(links, {}, a, b, p) && a in inside
    requires forall m: NodeId, n: NodeId {:trigger HasEdge(links, m, n)} | m in inside && HasEdge(links, m, n) ::
      n in inside
    ensures b in inside
    decreases |p|
  {
    if |p| > 1 {
      WalkStaysInside(links, inside, p[1], b, p[1..]);
    }
  }

  lemma {:induction false} WalkOnOther(links: LinkArray, avoid: set<(NodeId, NodeId)>, other: LinkArray,
      avoid': set<(NodeId, NodeId)>, a: NodeId, b: NodeId, p: seq<NodeId>)
    requires IsWalk(links, avoid, a, b, p)
    requires forall m: NodeId, n: NodeId {:trigger Step(links, avoid, m, n)} | Step(links, avoid, m, n) ::
      Step(other, avoid', m, n)
    ensures IsWalk(other, avoid', a, b, p)
    decreases |p|
  {
    if |p| > 1 {
      WalkOnOther(links, avoid, other, avoid', p[1], b, p[1..]);
    }
  }

  lemma SameSteps(links: LinkArray, avoid: set<(NodeId, NodeId)>, other: LinkArray, avoid': set<(NodeId, NodeId)>,
      a: NodeId, b: NodeId)
    requires forall m: NodeId, n: NodeId {:trigger Step(links, avoid, m, n)} {:trigger Step(other, avoid', m, n)} ::
      Step(links, avoid, m, n) <==> Step(other, avoid', m, n)
    ensures Reachable(links, avoid, a, b) <==> Reachable(other, avoid', a, b)
  {
    if p :| IsWalk(links, avoid, a, b, p) {
      WalkOnOther(links, avoid, other, avoid', a, b, p);
    }
    if p :| IsWalk(other, avoid', a, b, p) {
      WalkOnOther(other, avoid', links, avoid, a, b, p);
    }
  }

  // With every link in both directions a walk can be walked back.
  lemma {:induction false} WalkBack(links: LinkArray, avoid: set<(NodeId, NodeId)>, a: NodeId, b: NodeId,
      p: seq<NodeId>)
    returns (q: seq<NodeId>)
    requires IsWalk(links, avoid, a, b, p) && Symmetric(links)
    requires forall m: NodeId, n: NodeId | (m, n) in avoid :: (n, m) in avoid
    ensures IsWalk(links, avoid, b, a, q)
    decreases |p|
  {
    if |p| <= 1 {
      q := p;
    } else {
      q := WalkBack(links, avoid, p[1], b, p[1..]);
      WalkExtends(links, avoid, b, p[1], a, q);
      q := q + [a];
    }
  }

  lemma DisconnectsIsSymmetric(links: LinkArray, a: NodeId, b: NodeId)
    requires Symmetric(links)
    ensures Disconnects(links, a, b) <==> Disconnects(links, b, a)
  {
    var avoid := {(a, b), (b, a)};
    assert avoid == {(b, a), (a, b)};
    if p :| IsWalk(links, avoid, a, b, p) {
      var q := WalkBack(links, avoid, a, b, p);
    }
    if p :| IsWalk(links, avoid, b, a, p) {
      var q := WalkBack(links, avoid, b, a, p);
    }
  }

  // A walk that stops at its first visit to b does not leave b.
  lemma {:induction false} CutAtFirstVisit(links: LinkArray, a: NodeId, b: NodeId, c: NodeId, p: seq<NodeId>)
    returns (q: seq<NodeId>)
    requires IsWalk(links, {(c, b)}, a, b, p)
    ensures IsWalk(links, {(c, b), (b, c)}, a, b, q)
    decreases |p|
  {
    if a == b {
      q := [b];
    } else {
      var r := CutAtFirstVisit(links, p[1], b, c, p[1..]);
      q := [a] + r;
      assert q[1..] == r;
      assert r[0] == p[1];
    }
  }

  // So it is enough to remove the one direction.
  lemma OneWayIsEnough(links: LinkArray, a: NodeId, b: NodeId)
    ensures Disconnects(links, a, b) <==> !Reachable(links, {(a, b)}, a, b)
  {
    if p :| IsWalk(links, {(a, b)}, a, b, p) {
      var q := CutAtFirstVisit(links, a, b, a, p);
    }
    if p :| IsWalk(links, {(a, b), (b, a)}, a, b, p) {
      WalkOnOther(links, {(a, b), (b, a)}, links, {(a, b)}, a, b, p);
    }
  }

  // ---- costs ----

  // No two edges of a node lead to the same node.
  ghost predicate Unique(edges: seq<Edge>) {
    forall i, j | 0 <= i < j < |edges| :: edges[i].lastNode != edges[j].lastNode
  }

  // Taking edges out and adding them keeps it.
  ghost predicate AllUnique(links: LinkArray) {
    forall n | n in links :: Unique(links[n])
  }

  ghost predicate NonNegative(links: LinkArray) {
    forall n, i {:trigger links[n][i]} | n in links && 0 <= i < |links[n]| :: 0.0 <= links[n][i].cost
  }

  // Some choice of edges along p adds up to c: there may be several edges from one node to another.
  ghost predicate Costs(links: LinkArray, p: seq<NodeId>, c: real) {
    if |p| <= 1 then c == 0.0
    else
      p[0] in links && exists k {:trigger links[p[0]][k]} | 0 <= k < |links[p[0]]| ::
        links[p[0]][k].lastNode == p[1] && Costs(links, p[1..], c - links[p[0]][k].cost)
  }

  lemma {:induction false} CostsExtend(links: LinkArray, p: seq<NodeId>, c: real, k: nat)
    requires Costs(links, p, c) && p != [] && p[|p| - 1] in links && k < |links[p[|p| - 1]]|
    ensures Costs(links, p + [links[p[|p| - 1]][k].lastNode], c + links[p[|p| - 1]][k].cost)
  {
    var edge := links[p[|p| - 1]][k];
    var q := p + [edge.lastNode];
    if |p| > 1 {
      var j :| 0 <= j < |links[p[0]]| && links[p[0]][j].lastNode == p[1]
        && Costs(links, p[1..], c - links[p[0]][j].cost);
      CostsExtend(links, p[1..], c - links[p[0]][j].cost, k);
      assert q[1..] == p[1..] + [edge.lastNode];
      assert c - links[p[0]][j].cost + edge.cost == c + edge.cost - links[p[0]][j].cost;
      assert links[q[0]][j].lastNode == q[1];
    } else {
      assert q[1..] == [edge.lastNode] && Costs(links, q[1..], c + edge.cost - edge.cost);
      assert links[q[0]][k].lastNode == q[1];
    }
  }

  lemma {:induction false} WalkEnd(links: LinkArray, a: NodeId, b: NodeId, p: seq<NodeId>)
    requires IsWalk(links, {}, a, b, p)
    ensures p != [] && p[0] == a && p[|p| - 1] == b
    decreases |p|
  {
    if |p| > 1 {
      WalkEnd(links, p[1], b, p[1..]);
    }
  }

  lemma {:induction false} CostsNonNegative(links: LinkArray, p: seq<NodeId>, c: real)
    requires NonNegative(links) && Costs(links, p, c)
    ensures 0.0 <= c
    decreases |p|
  {
    if |p| > 1 {
      var k :| 0 <= k < |links[p[0]]| && links[p[0]][k].lastNode == p[1]
        && Costs(links, p[1..], c - links[p[0]][k].cost);
      CostsNonNegative(links, p[1..], c - links[p[0]][k].cost);
    }
  }

  // ---- what the search keeps ----

  // A labelled node ends a walk from the root that goes on from a permanent node, and costs what its label says.
  ghost predicate LabelOk(links: LinkArray, root: NodeId, rm: RouteMap, paths: map<NodeId, seq<NodeId>>, n: NodeId) {
    && n in rm && n in paths && IsWalk(links, {}, root, n, paths[n]) && Costs(links, paths[n], rm[n].cost)
    && if n == root then paths[n] == [root] && rm[n].stateLabel == Perm
       else
         var prev := rm[n].idPrev;
         prev in rm && prev in paths && rm[prev].stateLabel == Perm && paths[n] == paths[prev] + [n]
  }

  ghost predicate Labels(links: LinkArray, root: NodeId, rm: RouteMap, paths: map<NodeId, seq<NodeId>>) {
    root in rm && forall n {:trigger LabelOk(links, root, rm, paths, n)} | n in rm :: LabelOk(links, root, rm, paths, n)
  }

  // The nodes whose edges have been followed: the permanent ones, and the root once it has left the heap.
  ghost predicate ExpandedOk(links: LinkArray, root: NodeId, rm: RouteMap, expanded: set<NodeId>) {
    && (forall n | n in expanded :: n in rm && rm[n].stateLabel == Perm)
    && (forall n | n in rm && rm[n].stateLabel == Perm :: n in expanded || n == root)
  }

  ghost predicate Followed(links: LinkArray, rm: RouteMap, n: NodeId, k: nat, optimal: bool)
    requires n in links && k <= |links[n]|
  {
    forall i {:trigger links[n][i]} | 0 <= i < k ::
      links[n][i].lastNode in rm
        && (optimal && n in rm ==> rm[links[n][i].lastNode].cost <= rm[n].cost + links[n][i].cost)
  }

  ghost predicate AllFollowed(links: LinkArray, rm: RouteMap, done: set<NodeId>, optimal: bool) {
    forall n {:trigger n in done} | n in done :: n in links && Followed(links, rm, n, |links[n]|, optimal)
  }

  // Every labelled node that is not expanded is in the heap under its cost.
  ghost predicate HeapOk(rm: RouteMap, heap: seq<SetElem>, expanded: set<NodeId>) {
    && (forall i {:trigger heap[i]} | 0 <= i < |heap| :: heap[i].iD in rm)
    && (forall n {:trigger InHeap(rm, heap, n)} | n in rm && n !in expanded :: InHeap(rm, heap, n))
  }

  ghost predicate InHeap(rm: RouteMap, heap: seq<SetElem>, n: NodeId) {
    n in rm && exists i {:trigger heap[i]} | 0 <= i < |heap| :: heap[i].iD == n && heap[i].cost == rm[n].cost
  }

  // Expanded nodes cost at most top, and what is in the heap at least that.
  ghost predicate Split(rm: RouteMap, heap: seq<SetElem>, expanded: set<NodeId>, top: real) {
    && (forall n | n in expanded && n in rm :: rm[n].cost <= top)
    && (forall i {:trigger heap[i]} | 0 <= i < |heap| ::
         top <= heap[i].cost && (heap[i].iD in rm ==> rm[heap[i].iD].cost <= heap[i].cost))
  }

  // ---- one edge ----

  lemma LabelFromExpanded(links: LinkArray, root: NodeId, rm: RouteMap, paths: map<NodeId, seq<NodeId>>, n: NodeId,
      k: nat)
    requires Labels(links, root, rm, paths) && n in rm && n in links && k < |links[n]|
    ensures n in paths && IsWalk(links, {}, root, links[n][k].lastNode, paths[n] + [links[n][k].lastNode])
    ensures Costs(links, paths[n] + [links[n][k].lastNode], rm[n].cost + links[n][k].cost)
  {
    var next := links[n][k].lastNode;
    assert LabelOk(links, root, rm, paths, n);
    assert HasEdge(links, n, next);
    WalkEnd(links, root, n, paths[n]);
    WalkExtends(links, {}, root, n, next, paths[n]);
    CostsExtend(links, paths[n], rm[n].cost, k);
  }

  // A new label for a node that is not permanent leaves all other labels in order.
  lemma NewLabel(links: LinkArray, root: NodeId, rm: RouteMap, paths: map<NodeId, seq<NodeId>>, n: NodeId, k: nat,
      s: State)
    requires Labels(links, root, rm, paths) && n in rm && rm[n].stateLabel == Perm && n in links && k < |links[n]|
    requires links[n][k].lastNode in rm ==> rm[links[n][k].lastNode].stateLabel == Tent
    requires s.cost == rm[n].cost + links[n][k].cost && s.idPrev == n && s.stateLabel == Tent
    ensures var next := links[n][k].lastNode;
      n in paths && Labels(links, root, rm[next := s], paths[next := paths[n] + [next]])
  {
    var next := links[n][k].lastNode;
    assert LabelOk(links, root, rm, paths, n) && LabelOk(links, root, rm, paths, root);
    LabelFromExpanded(links, root, rm, paths, n, k);
    var rm', paths' := rm[next := s], paths[next := paths[n] + [next]];
    forall m | m in rm' ensures LabelOk(links, root, rm', paths', m) {
      if m != next {
        assert LabelOk(links, root, rm, paths, m);
      }
    }
  }

  // The search while the edges of n are followed: those before edge k have been.
  ghost predicate Searching(links: LinkArray, root: NodeId, rm: RouteMap, paths: map<NodeId, seq<NodeId>>,
      heap: seq<SetElem>, expanded: set<NodeId>, top: real, optimal: bool, n: NodeId, k: nat) {
    && Labels(links, root, rm, paths) && ExpandedOk(links, root, rm, expanded)
    && HeapOk(rm, heap, expanded)
    && n in expanded && n in links && k <= |links[n]| && n in rm && root in expanded
    && (forall i | 0 <= i < |heap| :: heap[i].iD != root)
    && AllFollowed(links, rm, expanded - {n}, optimal) && Followed(links, rm, n, k, optimal)
    && (optimal ==> NonNegative(links) && Split(rm, heap, expanded, top) && rm[n].cost == top)
  }

  lemma SearchingOn(links: LinkArray, root: NodeId, rm: RouteMap, paths: map<NodeId, seq<NodeId>>, heap: seq<SetElem>,
                    expanded: set<NodeId>, top: real, optimal: bool, n: NodeId, k: nat, s: State, e: SetElem)
    requires Searching(links, root, rm, paths, heap, expanded, top, optimal, n, k) && k < |links[n]|
    requires links[n][k].lastNode in rm ==>
      rm[links[n][k].lastNode].stateLabel == Tent && (optimal ==> s.cost <= rm[links[n][k].lastNode].cost)
    requires s.cost == rm[n].cost + links[n][k].cost && s.idPrev == n && s.stateLabel == Tent
    requires e.iD == links[n][k].lastNode && e.cost == s.cost
    ensures n in paths
    ensures Searching(links, root, rm[e.iD := s], paths[e.iD := paths[n] + [e.iD]], heap + [e], expanded, top, optimal,
      n, k + 1)
  {
    var next := links[n][k].lastNode;
    assert LabelOk(links, root, rm, paths, root);
    NewLabel(links, root, rm, paths, n, k, s);
    var rm', heap' := rm[next := s], heap + [e];
    assert next !in expanded;
    HeapOn(rm, heap, expanded, next, s, e);
    FollowedOn(links, root, rm, expanded, optimal, n, k, s);
    if optimal {
      assert links[n][k].cost >= 0.0;
    }
  }

  lemma HeapOn(rm: RouteMap, heap: seq<SetElem>, expanded: set<NodeId>, next: NodeId, s: State, e: SetElem)
    requires HeapOk(rm, heap, expanded) && e.iD == next && e.cost == s.cost
    ensures HeapOk(rm[next := s], heap + [e], expanded)
  {
    var rm', heap' := rm[next := s], heap + [e];
    forall m | m in rm' && m !in expanded ensures InHeap(rm', heap', m) {
      if m == next {
        assert heap'[|heap|] == e;
      } else {
        assert InHeap(rm, heap, m);
        var i :| 0 <= i < |heap| && heap[i].iD == m && heap[i].cost == rm[m].cost;
        assert heap'[i] == heap[i];
      }
    }
  }

  lemma FollowedOn(links: LinkArray, root: NodeId, rm: RouteMap, expanded: set<NodeId>, optimal: bool, n: NodeId,
      k: nat, s: State)
    requires n in links && k < |links[n]| && n in rm && ExpandedOk(links, root, rm, expanded) && n in expanded
    requires AllFollowed(links, rm, expanded - {n}, optimal) && Followed(links, rm, n, k, optimal)
    requires links[n][k].lastNode in rm ==>
      rm[links[n][k].lastNode].stateLabel == Tent && (optimal ==> s.cost <= rm[links[n][k].lastNode].cost)
    requires s.cost == rm[n].cost + links[n][k].cost
    ensures AllFollowed(links, rm[links[n][k].lastNode := s], expanded - {n}, optimal)
    ensures Followed(links, rm[links[n][k].lastNode := s], n, k + 1, optimal)
  {
    var next := links[n][k].lastNode;
    assert next !in expanded;
    var rm' := rm[next := s];
    forall m | m in expanded - {n} ensures m in links && Followed(links, rm', m, |links[m]|, optimal) {
      assert Followed(links, rm, m, |links[m]|, optimal);
    }
  }

  // The search between two elements of the heap.
  ghost predicate Between(links: LinkArray, root: NodeId, rm: RouteMap, paths: map<NodeId, seq<NodeId>>,
      heap: seq<SetElem>, expanded: set<NodeId>, top: real, optimal: bool) {
    && Labels(links, root, rm, paths) && ExpandedOk(links, root, rm, expanded)
    && HeapOk(rm, heap, expanded)
    && AllFollowed(links, rm, expanded, optimal)
    && (if root in expanded then forall i | 0 <= i < |heap| :: heap[i].iD != root
        else expanded == {} && |heap| == 1 && heap[0].iD == root)
    && (optimal ==> NonNegative(links) && Split(rm, heap, expanded, top))
  }

  // The heap without the element at i.
  function Taken(heap: seq<SetElem>, i: nat): (rest: seq<SetElem>)
    requires i < |heap|
    ensures |rest| == |heap| - 1
    ensures forall j {:trigger rest[j]} | 0 <= j < |rest| :: rest[j] == heap[if j < i then j else j + 1]
  {
    heap[..i] + heap[i + 1..]
  }

  // The heap keeps every node but the one taken.
  lemma TakenKeeps(rm: RouteMap, heap: seq<SetElem>, expanded: set<NodeId>, i: nat)
    requires HeapOk(rm, heap, expanded) && i < |heap|
    ensures HeapOk(rm, Taken(heap, i), expanded + {heap[i].iD})
  {
    var rest := Taken(heap, i);
    forall n | n in rm && n !in expanded + {heap[i].iD} ensures InHeap(rm, rest, n) {
      assert InHeap(rm, heap, n);
      var j :| 0 <= j < |heap| && heap[j].iD == n && heap[j].cost == rm[n].cost;
      assert rest[if j < i then j else j - 1] == heap[j];
    }
  }

  // Passing over an element of a permanent node.
  lemma PassedOver(links: LinkArray, root: NodeId, rm: RouteMap, paths: map<NodeId, seq<NodeId>>, heap: seq<SetElem>,
                   expanded: set<NodeId>, top: real, optimal: bool, i: nat)
    requires Between(links, root, rm, paths, heap, expanded, top, optimal) && i < |heap|
    requires heap[i].iD != root && rm[heap[i].iD].stateLabel == Perm
    ensures Between(links, root, rm, paths, Taken(heap, i), expanded, top, optimal)
  {
    TakenKeeps(rm, heap, expanded, i);
    assert expanded + {heap[i].iD} == expanded;
  }

  // Making the node of the cheapest element permanent.
  lemma MadePermanent(links: LinkArray, root: NodeId, rm: RouteMap, paths: map<NodeId, seq<NodeId>>, heap: seq<SetElem>,
                      expanded: set<NodeId>, top: real, optimal: bool, i: nat)
    requires Between(links, root, rm, paths, heap, expanded, top, optimal) && i < |heap|
    requires heap[i].iD == root || rm[heap[i].iD].stateLabel == Tent
    requires optimal ==> forall j | 0 <= j < |heap| :: heap[i].cost <= heap[j].cost
    ensures var n := heap[i].iD; var rm' := rm[n := rm[n].(stateLabel := Perm)];
      && n !in expanded && Labels(links, root, rm', paths)
      && ExpandedOk(links, root, rm', expanded + {n})
      && HeapOk(rm', Taken(heap, i), expanded + {n}) && AllFollowed(links, rm', expanded, optimal)
      && root in expanded + {n}
      && (forall j | 0 <= j < |Taken(heap, i)| :: Taken(heap, i)[j].iD != root)
      && (optimal ==> Split(rm', Taken(heap, i), expanded + {n}, rm[n].cost))
  {
    var n := heap[i].iD;
    var rm', rest := rm[n := rm[n].(stateLabel := Perm)], Taken(heap, i);
    assert n !in expanded;
    TakenKeeps(rm, heap, expanded, i);
    forall m | m in rm' && m !in expanded + {n} ensures InHeap(rm', rest, m) {
      assert InHeap(rm, rest, m);
    }
    forall m | m in rm' ensures LabelOk(links, root, rm', paths, m) {
      assert LabelOk(links, root, rm, paths, m);
    }
    forall m | m in expanded ensures m in links && Followed(links, rm', m, |links[m]|, optimal) {
      assert Followed(links, rm, m, |links[m]|, optimal);
    }
    assert InHeap(rm, heap, n);
  }

  // ---- what the search finds ----

  // The empty heap: the labelled nodes are those the root reaches.
  lemma AllReached(links: LinkArray, root: NodeId, rm: RouteMap, paths: map<NodeId, seq<NodeId>>,
      expanded: set<NodeId>, top: real, optimal: bool, n: NodeId)
    requires Between(links, root, rm, paths, [], expanded, top, optimal)
    ensures n in rm <==> Reachable(links, {}, root, n)
  {
    if n in rm {
      assert LabelOk(links, root, rm, paths, n);
    }
    if p :| IsWalk(links, {}, root, n, p) {
      forall a: NodeId, b: NodeId | a in rm.Keys && HasEdge(links, a, b) ensures b in rm.Keys {
        assert !InHeap(rm, [], a);
        assert Followed(links, rm, a, |links[a]|, optimal);
      }
      WalkStaysInside(links, rm.Keys, root, n, p);
    }
  }

  // A walk from the root leads to a node without an entry that is not the target.
  ghost predicate LeadsOut(links: LinkArray, root: NodeId, target: Option<NodeId>) {
    exists n: NodeId :: n !in links && target != Some(n) && Reachable(links, {}, root, n)
  }

  lemma MissingLink(links: LinkArray, root: NodeId, target: Option<NodeId>, n: NodeId, p: seq<NodeId>)
    requires n !in links && target != Some(n) && IsWalk(links, {}, root, n, p)
    ensures LeadsOut(links, root, target)
  {
    assert Reachable(links, {}, root, n);
  }

  lemma NothingLeadsOut(links: LinkArray, root: NodeId, rm: RouteMap, paths: map<NodeId, seq<NodeId>>,
      expanded: set<NodeId>, top: real, optimal: bool)
    requires Between(links, root, rm, paths, [], expanded, top, optimal)
    ensures !LeadsOut(links, root, None)
  {
    forall n: NodeId | Reachable(links, {}, root, n) ensures n in links {
      AllReached(links, root, rm, paths, expanded, top, optimal, n);
      assert !InHeap(rm, [], n);
    }
  }

  // No walk to a node that is not expanded, but as cheap as any such, beats its label.
  lemma {:induction false} NoCheaperWalk(links: LinkArray, rm: RouteMap, expanded: set<NodeId>, a: NodeId, t: NodeId,
      p: seq<NodeId>, c: real)
    requires NonNegative(links) && AllFollowed(links, rm, expanded, true) && IsWalk(links, {}, a, t, p)
      && Costs(links, p, c)
    requires a in rm && t in rm && (a in expanded || rm[t].cost <= rm[a].cost)
    requires forall n | n in rm && n !in expanded :: rm[t].cost <= rm[n].cost
    ensures rm[t].cost <= rm[a].cost + c
    decreases |p|
  {
    CostsNonNegative(links, p, c);
    if |p| > 1 && a in expanded {
      assert Followed(links, rm, a, |links[a]|, true);
      var k :| 0 <= k < |links[a]| && links[a][k].lastNode == p[1] && Costs(links, p[1..], c - links[a][k].cost);
      NoCheaperWalk(links, rm, expanded, p[1], t, p[1..], c - links[a][k].cost);
    }
  }

  // The label of t is right: it exists exactly if the root reaches t, and a search with cost in the first place finds
  // the cheapest walk.
  ghost predicate FoundRight(links: LinkArray, root: NodeId, rm: RouteMap, paths: map<NodeId, seq<NodeId>>,
      optimal: bool, t: NodeId) {
    && (t in rm <==> Reachable(links, {}, root, t))
    && (t in rm ==> t in paths && IsWalk(links, {}, root, t, paths[t]) && Costs(links, paths[t], rm[t].cost))
    && (t in rm && optimal ==>
         forall p, c | IsWalk(links, {}, root, t, p) && Costs(links, p, c) :: rm[t].cost <= c)
  }

  lemma EmptyHeapIsRight(links: LinkArray, root: NodeId, rm: RouteMap, paths: map<NodeId, seq<NodeId>>,
      expanded: set<NodeId>, top: real, optimal: bool, t: NodeId)
    requires Between(links, root, rm, paths, [], expanded, top, optimal)
    ensures FoundRight(links, root, rm, paths, optimal, t)
  {
    AllReached(links, root, rm, paths, expanded, top, optimal, t);
    if t in rm {
      assert LabelOk(links, root, rm, paths, t) && LabelOk(links, root, rm, paths, root);
      if optimal {
        forall n | n in rm ensures n in expanded {
          assert !InHeap(rm, [], n);
        }
        forall p, c | IsWalk(links, {}, root, t, p) && Costs(links, p, c) ensures rm[t].cost <= c {
          NoCheaperWalk(links, rm, expanded, root, t, p, c);
        }
      }
    }
  }

  lemma TargetIsRight(links: LinkArray, root: NodeId, rm: RouteMap, paths: map<NodeId, seq<NodeId>>, heap: seq<SetElem>,
                      expanded: set<NodeId>, optimal: bool, t: NodeId)
    requires Labels(links, root, rm, paths) && t in rm && root in expanded
    requires AllFollowed(links, rm, expanded - {t}, optimal) && HeapOk(rm, heap, expanded)
    requires optimal ==> NonNegative(links) && Split(rm, heap, expanded, rm[t].cost)
    ensures FoundRight(links, root, rm, paths, optimal, t)
  {
    assert LabelOk(links, root, rm, paths, t) && LabelOk(links, root, rm, paths, root);
    if optimal {
      forall n | n in rm && n !in expanded - {t} ensures rm[t].cost <= rm[n].cost {
        assert n != t ==> InHeap(rm, heap, n);
      }
      forall p, c | IsWalk(links, {}, root, t, p) && Costs(links, p, c) ensures rm[t].cost <= c {
        NoCheaperWalk(links, rm, expanded - {t}, root, t, p, c);
      }
    }
  }

  ghost function Nodes(links: LinkArray, root: NodeId): set<NodeId> {
    {root} + (set a, i | a in links && 0 <= i < |links[a]| :: links[a][i].lastNode)
  }

  lemma {:induction false} WalkEndsInNodes(links: LinkArray, root: NodeId, a: NodeId, b: NodeId, p: seq<NodeId>)
    requires IsWalk(links, {}, a, b, p) && a in Nodes(links, root)
    ensures b in Nodes(links, root)
    decreases |p|
  {
    if |p| > 1 {
      WalkEndsInNodes(links, root, p[1], b, p[1..]);
    }
  }

  // ---- which links are bridges ----

  // Two link arrays with the same nodes and the same links, in any order.
  ghost predicate SameLinks(links: LinkArray, other: LinkArray) {
    && links.Keys == other.Keys && AllUnique(links) && AllUnique(other)
    && forall a: NodeId, b: NodeId {:trigger HasEdge(links, a, b)} {:trigger HasEdge(other, a, b)} ::
         HasEdge(links, a, b) <==> HasEdge(other, a, b)
  }

  // less is links without the edge from a to b.
  ghost predicate LacksEdge(less: LinkArray, links: LinkArray, a: NodeId, b: NodeId) {
    && less.Keys == links.Keys && AllUnique(less)
    && forall m: NodeId, n: NodeId {:trigger HasEdge(less, m, n)} {:trigger HasEdge(links, m, n)} ::
         HasEdge(less, m, n) <==> HasEdge(links, m, n) && (m, n) != (a, b)
  }

  // more is links and the edge from a to b.
  ghost predicate GainsEdge(more: LinkArray, links: LinkArray, a: NodeId, b: NodeId) {
    && AllUnique(more)
    && forall m: NodeId, n: NodeId {:trigger HasEdge(more, m, n)} {:trigger HasEdge(links, m, n)} ::
         HasEdge(more, m, n) <==> HasEdge(links, m, n) || (m, n) == (a, b)
  }

  // A node for each end of a link.
  ghost predicate Closed(links: LinkArray) {
    forall a: NodeId, b: NodeId {:trigger HasEdge(links, a, b)} | HasEdge(links, a, b) :: b in links
  }

  // Searching the array without the edge tells whether the link is a bridge.
  lemma SearchWithoutEdge(topo: LinkArray, links: LinkArray, less: LinkArray, a: NodeId, b: NodeId)
    requires SameLinks(topo, links) && LacksEdge(less, links, a, b)
    ensures Reachable(less, {}, a, b) <==> !Disconnects(topo, a, b)
  {
    SameSteps(less, {}, topo, {(a, b)}, a, b);
    OneWayIsEnough(topo, a, b);
  }

  lemma NodesHaveEntries(links: LinkArray, less: LinkArray, a: NodeId, b: NodeId, root: NodeId)
    requires Closed(links) && LacksEdge(less, links, a, b) && root in links
    ensures Nodes(less, root) <= less.Keys
  {
    forall n | n in Nodes(less, root) ensures n in less.Keys {
      if n != root {
        var m, i :| m in less && 0 <= i < |less[m]| && less[m][i].lastNode == n;
        assert HasEdge(less, m, n);
        assert HasEdge(links, m, n);
      }
    }
  }

  // What is known after some links have been tested: found lists both directions of the bridges among them, each once.
  ghost predicate FoundSoFar(topo: LinkArray, tested: seq<(NodeId, NodeId)>, found: seq<(NodeId, NodeId)>) {
    && (forall a: NodeId, b: NodeId {:trigger (a, b) in tested} | (a, b) in tested ::
         HasEdge(topo, a, b) && (b, a) in tested)
    && (forall a: NodeId, b: NodeId {:trigger (a, b) in found} ::
         (a, b) in found <==> (a, b) in tested && Disconnects(topo, a, b))
    && (forall i, j | 0 <= i < j < |found| :: found[i] != found[j])
  }

  lemma TwoAppended(s: seq<(NodeId, NodeId)>, p: (NodeId, NodeId), q: (NodeId, NodeId))
    ensures forall c {:trigger c in s + [p, q]} :: c in s + [p, q] <==> c in s || c == p || c == q
    ensures (forall i, j | 0 <= i < j < |s| :: s[i] != s[j]) && p !in s && q !in s && p != q ==>
      forall i, j | 0 <= i < j < |s + [p, q]| :: (s + [p, q])[i] != (s + [p, q])[j]
  {
    assert [p, q][0] == p && [p, q][1] == q;
    assert p in [p, q] && q in [p, q];
  }

  lemma OneMoreTested(topo: LinkArray, tested: seq<(NodeId, NodeId)>, found: seq<(NodeId, NodeId)>, a: NodeId,
      b: NodeId)
    requires FoundSoFar(topo, tested, found) && Symmetric(topo) && HasEdge(topo, a, b) && (a, b) !in tested
    ensures FoundSoFar(topo, tested + [(a, b), (b, a)], if Disconnects(topo, a, b) then found + [(a, b), (b, a)]
      else found)
  {
    DisconnectsIsSymmetric(topo, a, b);
    if a == b {
      assert IsWalk(topo, {(a, b), (b, a)}, a, b, [a]);
    }
    assert (b, a) !in tested;
    assert (a, b) !in found && (b, a) !in found;
    TwoAppended(tested, (a, b), (b, a));
    TwoAppended(found, (a, b), (b, a));
  }

  // Edge i is the first of the edges from a to b.
  ghost predicate IsFirstTo(links: LinkArray, a: NodeId, b: NodeId, i: nat) {
    a in links && i < |links[a]| && links[a][i].lastNode == b && forall j | 0 <= j < i :: links[a][j].lastNode != b
  }

  function WithoutEdge(links: LinkArray, a: NodeId, i: nat): LinkArray
    requires a in links && i < |links[a]|
  {
    links[a := links[a][..i] + links[a][i + 1..]]
  }

  lemma EdgeTaken(links: LinkArray, a: NodeId, i: nat)
    requires AllUnique(links) && a in links && i < |links[a]|
    ensures LacksEdge(WithoutEdge(links, a, i), links, a, links[a][i].lastNode)
  {
    var b, edges := links[a][i].lastNode, links[a];
    var rest := edges[..i] + edges[i + 1..];
    var less := WithoutEdge(links, a, i);
    assert forall j | 0 <= j < |rest| :: rest[j] == edges[if j < i then j else j + 1];
    forall m: NodeId, n: NodeId ensures HasEdge(less, m, n) <==> HasEdge(links, m, n) && (m, n) != (a, b) {
      if m != a {
        assert m in less <==> m in links;
        assert m in links ==> less[m] == links[m];
      } else if HasEdge(links, a, n) && n != b {
        var j :| 0 <= j < |edges| && edges[j].lastNode == n;
        assert rest[if j < i then j else j - 1] == edges[j];
      }
    }
  }

  lemma EdgeAdded(links: LinkArray, a: NodeId, edges: seq<Edge>, edge: Edge)
    requires AllUnique(links) && edges == (if a in links then links[a] else [])
    requires forall j | 0 <= j < |edges| :: edges[j].lastNode != edge.lastNode
    ensures GainsEdge(links[a := edges + [edge]], links, a, edge.lastNode)
  {
    var all := edges + [edge];
    var more := links[a := all];
    assert all[|edges|] == edge;
    forall m: NodeId, n: NodeId ensures HasEdge(more, m, n) <==> HasEdge(links, m, n) || (m, n) == (a, edge.lastNode) {
      if m == a && HasEdge(links, a, n) {
        var j :| 0 <= j < |edges| && edges[j].lastNode == n;
        assert all[j] == edges[j];
      }
    }
  }

  lemma EdgeChanged(links: LinkArray, a: NodeId, i: nat, cost: real)
    requires AllUnique(links) && a in links && i < |links[a]|
    ensures GainsEdge(links[a := links[a][i := links[a][i].(cost := cost)]], links, a, links[a][i].lastNode)
  {
    var edges := links[a][i := links[a][i].(cost := cost)];
    var more := links[a := edges];
    assert forall j | 0 <= j < |edges| :: edges[j].lastNode == links[a][j].lastNode;
    forall m: NodeId, n: NodeId ensures HasEdge(more, m, n) <==> HasEdge(links, m, n) {
      if m == a && HasEdge(links, a, n) {
        var j :| 0 <= j < |edges| && links[a][j].lastNode == n;
        assert edges[j].lastNode == n;
      }
    }
  }

  class Dijkstra {
    var linkArray: LinkArray
    var routeMap: RouteMap
    var rootNode: NodeId
    var m: Method

    constructor ()
      ensures linkArray == map[] && routeMap == map[]
    {
      linkArray, routeMap, rootNode, m := map[], map[], 0, Basic;
    }

    // The search looks at the cost first, and no cost is negative.
    ghost predicate ByCost(links: LinkArray)
      reads this`m
    {
      m != ShortestWidest && NonNegative(links)
    }

    // Which of two costs the method prefers.
    predicate Prefers(cost: real, cost2: real, maxCost: real, maxCost2: real)
      reads this`m
    {
      match m
      case WidestShortest => cost < maxCost || (cost == maxCost && cost2 > maxCost2)
      case ShortestWidest => cost2 > maxCost2 || (cost2 == maxCost2 && cost < maxCost)
      case _ => cost < maxCost
    }

    // the cheapest element so far
    method FindMin(heap: seq<SetElem>) returns (at: nat)
      requires heap != []
      ensures at < |heap|
      ensures m in {Basic, OtherCost} ==> forall i | 0 <= i < |heap| :: heap[at].cost <= heap[i].cost
      ensures m == WidestShortest ==> forall i | 0 <= i < |heap| ::
        heap[at].cost < heap[i].cost || (heap[at].cost == heap[i].cost && heap[at].cost2 >= heap[i].cost2)
      ensures m == ShortestWidest ==> forall i | 0 <= i < |heap| ::
        heap[at].cost2 > heap[i].cost2 || (heap[at].cost2 == heap[i].cost2 && heap[at].cost <= heap[i].cost)
    {
      at := 0;
      for i := 0 to |heap|
        invariant at < |heap|
        invariant forall j | 0 <= j < i ::
          !Prefers(heap[j].cost, heap[j].cost2, heap[at].cost, heap[at].cost2)
      {
        if Prefers(heap[i].cost, heap[i].cost2, heap[at].cost, heap[at].cost2) {
          at := i;
        }
      }
    }

    // What an edge from n does to the label of its end. The second cost of a label is never renewed.
    ghost predicate Relabelled(edge: Edge, n: NodeId, rm0: RouteMap, rm: RouteMap)
      requires n in rm0
      reads this`m
    {
      var next, cost := edge.lastNode, rm0[n].cost + edge.cost;
      var cost2 := if rm0[n].cost2 <= edge.cost2 then rm0[n].cost2 else edge.cost2;
      && next in rm
      && (next !in rm0 ==> rm[next] == State(cost, cost2, n, Tent))
      && (next in rm0 && rm0[next].stateLabel == Perm ==> rm[next] == rm0[next])
      && (next in rm0 && rm0[next].stateLabel == Tent ==>
           var was := rm0[next];
           var better :=
             if m == ShortestWidest then cost2 > was.cost2 || (cost2 == was.cost2 && cost < was.cost)
             else cost < was.cost || (m == WidestShortest && cost == was.cost && cost2 > was.cost2);
           rm[next] == if better then State(cost, was.cost2, n, Tent) else was)
    }

    method FollowEdge(links: LinkArray, ghost root: NodeId, rm0: RouteMap, ghost paths0: map<NodeId, seq<NodeId>>,
        heap0: seq<SetElem>, ghost expanded: set<NodeId>, ghost top: real, n: NodeId, k: nat)
      returns (rm: RouteMap, ghost paths: map<NodeId, seq<NodeId>>, heap: seq<SetElem>)
      requires Searching(links, root, rm0, paths0, heap0, expanded, top, ByCost(links), n, k)
        && k < |links[n]|
      ensures Searching(links, root, rm, paths, heap, expanded, top, ByCost(links), n, k + 1)
      ensures rm.Keys == rm0.Keys + {links[n][k].lastNode}
      ensures forall a | a in rm0 && a != links[n][k].lastNode :: rm[a] == rm0[a]
      ensures n in rm0 && Relabelled(links[n][k], n, rm0, rm)
    {
      rm, paths, heap := rm0, paths0, heap0;
      ghost var optimal := ByCost(links);
      var edge := links[n][k];
      var next := edge.lastNode;
      var cost := edge.cost + rm[n].cost;
      var cost2 := if rm[n].cost2 < edge.cost2 then rm[n].cost2 else edge.cost2;
      if next !in rm {
        var s, e := State(cost, cost2, n, Tent), SetElem(next, cost, cost2);
        SearchingOn(links, root, rm, paths, heap, expanded, top, optimal, n, k, s, e);
        rm, paths, heap := rm[next := s], paths[next := paths[n] + [next]], heap + [e];
      } else if rm[next].stateLabel == Perm {
        PermStays(links, root, rm, paths, heap, expanded, top, optimal, n, k);
      } else if Prefers(cost, cost2, rm[next].cost, rm[next].cost2) {
        var s, e := rm[next].(cost := cost, idPrev := n), SetElem(next, cost, 0.0);
        SearchingOn(links, root, rm, paths, heap, expanded, top, optimal, n, k, s, e);
        rm, paths, heap := rm[next := s], paths[next := paths[n] + [next]], heap + [e];
      }
    }

    lemma PermStays(links: LinkArray, root: NodeId, rm: RouteMap, paths: map<NodeId, seq<NodeId>>, heap: seq<SetElem>,
                    expanded: set<NodeId>, top: real, optimal: bool, n: NodeId, k: nat)
      requires Searching(links, root, rm, paths, heap, expanded, top, optimal, n, k) && k < |links[n]|
      requires links[n][k].lastNode in rm && rm[links[n][k].lastNode].stateLabel == Perm
      ensures Searching(links, root, rm, paths, heap, expanded, top, optimal, n, k + 1)
    {
      if optimal {
        assert links[n][k].cost >= 0.0;
      }
    }

    // The edges of the node that has become permanent.
    method FollowEdges(links: LinkArray, ghost root: NodeId, rm0: RouteMap, ghost paths0: map<NodeId, seq<NodeId>>,
        heap0: seq<SetElem>, ghost expanded: set<NodeId>, ghost top: real, n: NodeId)
      returns (rm: RouteMap, ghost paths: map<NodeId, seq<NodeId>>, heap: seq<SetElem>)
      requires n in links
        && Searching(links, root, rm0, paths0, heap0, expanded, top, ByCost(links), n, 0)
      ensures Between(links, root, rm, paths, heap, expanded, top, ByCost(links))
    {
      rm, paths, heap := rm0, paths0, heap0;
      for k := 0 to |links[n]|
        invariant Searching(links, root, rm, paths, heap, expanded, top, ByCost(links), n, k)
      {
        rm, paths, heap := FollowEdge(links, root, rm, paths, heap, expanded, top, n, k);
      }
      forall a | a in expanded
        ensures a in links && Followed(links, rm, a, |links[a]|, ByCost(links))
      {
        assert a != n ==> a in expanded - {n};
      }
    }

    // An empty target stands for the undefined address: the search goes on until nothing is left.
    method RunUntil(target: Option<NodeId>, root: NodeId, links: LinkArray)
      returns (rm: RouteMap, outcome: Outcome, ghost paths: map<NodeId, seq<NodeId>>)
      ensures outcome == RootNotFound <==> root !in links
      ensures Nodes(links, root) <= links.Keys ==> outcome == Done
      ensures outcome == LinkNotFound ==> root in links && LeadsOut(links, root, target)
      ensures target == None ==> (outcome == LinkNotFound <==> root in links && LeadsOut(links, root, None))
      ensures outcome == Done ==> Labels(links, root, rm, paths)
      ensures outcome == Done ==>
        forall t: NodeId | target == None || target == Some(t) ::
          FoundRight(links, root, rm, paths, ByCost(links), t)
    {
      rm, paths := map[], map[];
      if root !in links {
        return rm, RootNotFound, paths;
      }
      ghost var optimal := ByCost(links);
      ghost var expanded: set<NodeId>, top := {}, 0.0;
      rm, paths := map[root := State(0.0, 1.0e300, 0, Perm)], map[root := [root]];
      var heap := [SetElem(root, 0.0, 0.0)];
      assert heap[0].iD == root;
      assert LabelOk(links, root, rm, paths, root) && InHeap(rm, heap, root);
      while heap != []
        invariant Between(links, root, rm, paths, heap, expanded, top, optimal)
        decreases Nodes(links, root) - expanded, |heap|
      {
        var stop;
        rm, paths, heap, expanded, top, stop, outcome :=
          TakeNext(target, root, links, rm, paths, heap, expanded, top);
        if stop {
          return rm, outcome, paths;
        }
      }
      forall t: NodeId ensures FoundRight(links, root, rm, paths, optimal, t) {
        EmptyHeapIsRight(links, root, rm, paths, expanded, top, optimal, t);
      }
      NothingLeadsOut(links, root, rm, paths, expanded, top, optimal);
      outcome := Done;
    }

    // One turn of the loop: an element leaves the heap.
    method TakeNext(target: Option<NodeId>, root: NodeId, links: LinkArray, rm0: RouteMap,
        ghost paths0: map<NodeId, seq<NodeId>>, heap0: seq<SetElem>, ghost expanded0: set<NodeId>, ghost top0: real)
      returns (rm: RouteMap, ghost paths: map<NodeId, seq<NodeId>>, heap: seq<SetElem>, ghost expanded: set<NodeId>,
        ghost top: real, stop: bool, outcome: Outcome)
      requires heap0 != []
      requires Between(links, root, rm0, paths0, heap0, expanded0, top0, ByCost(links))
      ensures !stop ==> Between(links, root, rm, paths, heap, expanded, top, ByCost(links))
      ensures !stop && expanded == expanded0 ==> |heap| < |heap0|
      ensures stop || expanded == expanded0 || Nodes(links, root) - expanded < Nodes(links, root) - expanded0
      ensures stop ==> outcome == LinkNotFound || (outcome == Done && target.Some?)
      ensures stop && outcome == LinkNotFound ==>
        LeadsOut(links, root, target) && !(Nodes(links, root) <= links.Keys)
      ensures stop && outcome == Done ==> Labels(links, root, rm, paths)
      ensures stop && outcome == Done ==>
        FoundRight(links, root, rm, paths, ByCost(links), target.value)
    {
      ghost var optimal := ByCost(links);
      rm, paths, expanded, top, stop, outcome := rm0, paths0, expanded0, top0, false, Done;
      var i := FindMin(heap0);
      var n := heap0[i].iD;
      heap := Taken(heap0, i);
      assert LabelOk(links, root, rm, paths, n);
      if n != root && rm[n].stateLabel == Perm {
        PassedOver(links, root, rm, paths, heap0, expanded, top, optimal, i);
        return;
      }
      MadePermanent(links, root, rm, paths, heap0, expanded, top, optimal, i);
      WalkEndsInNodes(links, root, root, n, paths[n]);
      rm := rm[n := rm[n].(stateLabel := Perm)];
      expanded, top := expanded + {n}, rm[n].cost;
      if target == Some(n) {
        TargetIsRight(links, root, rm, paths, heap, expanded, optimal, n);
        stop := true;
      } else if n !in links {
        MissingLink(links, root, target, n, paths[n]);
        stop, outcome := true, LinkNotFound;
      } else {
        assert expanded - {n} == expanded0;
        rm, paths, heap := FollowEdges(links, root, rm, paths, heap, expanded, top, n);
      }
    }

    // ---- routes and links ----

    // Follow the labels back to the root; the walk ends.
    method GetRoute(nodeId: NodeId, rm: RouteMap, ghost links: LinkArray, ghost paths: map<NodeId, seq<NodeId>>)
      returns (has: bool, pathNode: seq<NodeId>)
      requires Labels(links, rootNode, rm, paths)
      ensures has <==> nodeId in rm
      ensures has ==> nodeId in paths && pathNode == paths[nodeId] && IsWalk(links, {}, rootNode, nodeId, pathNode)
    {
      pathNode := [];
      if nodeId !in rm {
        return false, [];
      }
      var currentNode := nodeId;
      assert LabelOk(links, rootNode, rm, paths, nodeId);
      while currentNode != rootNode
        invariant LabelOk(links, rootNode, rm, paths, currentNode) && paths[nodeId] == paths[currentNode] + pathNode
        decreases |paths[currentNode]|
      {
        pathNode := [currentNode] + pathNode;
        currentNode := rm[currentNode].idPrev;
        assert LabelOk(links, rootNode, rm, paths, currentNode);
      }
      pathNode := [rootNode] + pathNode;
      has := true;
    }

    // removeEdge
    method RemoveEdge(originNode: NodeId, lastNode: NodeId, links: LinkArray)
      returns (edge: Option<Edge>, less: LinkArray)
      modifies this`routeMap
      ensures edge == None <==> !HasEdge(links, originNode, lastNode)
      ensures edge == None ==> less == links
      ensures edge.Some? ==>
        exists i: nat ::
          IsFirstTo(links, originNode, lastNode, i) && edge.value == links[originNode][i]
          && less == WithoutEdge(links, originNode, i)
      ensures AllUnique(links) ==> LacksEdge(less, links, originNode, lastNode)
    {
      less := links;
      if originNode in links {
        for i := 0 to |links[originNode]|
          invariant forall j | 0 <= j < i :: links[originNode][j].lastNode != lastNode
        {
          if links[originNode][i].lastNode == lastNode {
            assert IsFirstTo(links, originNode, lastNode, i);
            if AllUnique(links) {
              EdgeTaken(links, originNode, i);
            }
            routeMap := map[];
            return Some(links[originNode][i]), WithoutEdge(links, originNode, i);
          }
        }
      }
      edge := None;
    }

    // addEdge: an edge that is there already gets the new cost.
    method AddEdge(originNode: NodeId, edge: Edge, links: LinkArray) returns (more: LinkArray)
      modifies this`routeMap
      ensures more.Keys == links.Keys + {originNode}
      ensures forall n | n in links && n != originNode :: more[n] == links[n]
      ensures HasEdge(links, originNode, edge.lastNode) ==>
        exists i: nat ::
          IsFirstTo(links, originNode, edge.lastNode, i)
          && more[originNode] == links[originNode][i := links[originNode][i].(cost := edge.cost)]
      ensures !HasEdge(links, originNode, edge.lastNode) ==>
        more[originNode] == (if originNode in links then links[originNode] else []) + [edge]
      ensures AllUnique(links) ==> GainsEdge(more, links, originNode, edge.lastNode)
    {
      routeMap := map[];
      var edges := if originNode in links then links[originNode] else [];
      for i := 0 to |edges|
        invariant forall j | 0 <= j < i :: edges[j].lastNode != edge.lastNode
      {
        if edges[i].lastNode == edge.lastNode {
          assert IsFirstTo(links, originNode, edge.lastNode, i);
          if AllUnique(links) {
            EdgeChanged(links, originNode, i, edge.cost);
          }
          return links[originNode := edges[i := edges[i].(cost := edge.cost)]];
        }
      }
      if AllUnique(links) {
        EdgeAdded(links, originNode, edges, edge);
      }
      more := links[originNode := edges + [edge]];
    }

    // Take out one link, search, and put it back.
    method IsPartition(topo: LinkArray, links: LinkArray, node: NodeId, last: NodeId)
      returns (has: bool, more: LinkArray)
      requires SameLinks(topo, links) && Closed(topo) && HasEdge(topo, node, last) && rootNode == node
      modifies this`routeMap
      ensures SameLinks(topo, more) && (has <==> !Disconnects(topo, node, last))
    {
      assert HasEdge(links, node, last);
      var edge, less := RemoveEdge(node, last, links);
      var rm, outcome, paths := RunUntil(Some(last), node, less);
      NodesHaveEntries(links, less, node, last, node);
      SearchWithoutEdge(topo, links, less, node, last);
      assert FoundRight(less, node, rm, paths, ByCost(less), last);
      var pathNode;
      has, pathNode := GetRoute(last, rm, less, paths);
      more := AddEdge(node, edge.value, less);
    }

    // Both directions of exactly those links whose removal disconnects their ends, each once. Of two edges from one
    // node to another, adding the first again would free it while topo still holds it.
    method DiscoverAllPartitionedLinks(topo: LinkArray) returns (found: seq<(NodeId, NodeId)>)
      requires AllUnique(topo) && Symmetric(topo) && Closed(topo)
      modifies this`routeMap, this`rootNode
      ensures forall a: NodeId, b: NodeId :: (a, b) in found <==> HasEdge(topo, a, b) && Disconnects(topo, a, b)
      ensures forall i, j | 0 <= i < j < |found| :: found[i] != found[j]
    {
      var topoAux := topo;
      var tested: seq<(NodeId, NodeId)> := [];
      found := [];
      var nodes := topo.Keys;
      while nodes != {}
        invariant nodes <= topo.Keys && SameLinks(topo, topoAux) && FoundSoFar(topo, tested, found)
        invariant forall a: NodeId, b: NodeId {:trigger HasEdge(topo, a, b)} | HasEdge(topo, a, b) && a !in nodes ::
          (a, b) in tested
      {
        var node :| node in nodes;
        topoAux, tested, found := TestLinks(topo, topoAux, node, tested, found);
        nodes := nodes - {node};
      }
    }

    // The links of one node that have not been tested yet.
    method TestLinks(topo: LinkArray, topoAux0: LinkArray, node: NodeId, tested0: seq<(NodeId, NodeId)>,
        found0: seq<(NodeId, NodeId)>)
      returns (topoAux: LinkArray, tested: seq<(NodeId, NodeId)>, found: seq<(NodeId, NodeId)>)
      requires Symmetric(topo) && Closed(topo) && node in topo && SameLinks(topo, topoAux0)
        && FoundSoFar(topo, tested0, found0)
      modifies this`routeMap, this`rootNode
      ensures SameLinks(topo, topoAux) && FoundSoFar(topo, tested, found) && tested0 <= tested
      ensures forall b: NodeId {:trigger HasEdge(topo, node, b)} | HasEdge(topo, node, b) :: (node, b) in tested
    {
      topoAux, tested, found := topoAux0, tested0, found0;
      rootNode := node;
      for i := 0 to |topo[node]|
        invariant rootNode == node && SameLinks(topo, topoAux) && FoundSoFar(topo, tested, found) && tested0 <= tested
        invariant forall j | 0 <= j < i :: (node, topo[node][j].lastNode) in tested
      {
        var last := topo[node][i].lastNode;
        assert HasEdge(topo, node, last);
        topoAux, tested, found := TestLink(topo, topoAux, node, last, tested, found);
      }
    }

    method TestLink(topo: LinkArray, topoAux0: LinkArray, node: NodeId, last: NodeId, tested0: seq<(NodeId, NodeId)>,
        found0: seq<(NodeId, NodeId)>)
      returns (topoAux: LinkArray, tested: seq<(NodeId, NodeId)>, found: seq<(NodeId, NodeId)>)
      requires Symmetric(topo) && Closed(topo) && SameLinks(topo, topoAux0) && FoundSoFar(topo, tested0, found0)
      requires HasEdge(topo, node, last) && rootNode == node
      modifies this`routeMap
      ensures SameLinks(topo, topoAux) && FoundSoFar(topo, tested, found) && tested0 <= tested && (node, last) in tested
    {
      topoAux, tested, found := topoAux0, tested0, found0;
      if (node, last) in tested {
        return;
      }
      var has;
      has, topoAux := IsPartition(topo, topoAux, node, last);
      OneMoreTested(topo, tested, found, node, last);
      if !has {
        found := found + [(node, last), (last, node)];
      }
      tested := tested + [(node, last), (last, node)];
      assert tested[|tested0|] == (node, last);
    }
  }
}
