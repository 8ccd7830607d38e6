// The K shortest routes from one node: labels of a node are tried in whatever order the heap yields them.
module KShortestPaths {
  import opened Common

  type NodeId = nat

  datatype Metric = AditiveMin | ConcaveMin | AditiveMax | ConcaveMax

  // A cost vector: each component with its own metric.
  datatype Cost = Cost(value: real, metric: Metric)
  type CostVector = seq<Cost>

  datatype StateLabel = Perm | Tent

  // One label of a node, with the label it continues.
  datatype State = State(cost: CostVector, idPrev: NodeId, idPrevIdx: int, stateLabel: StateLabel)

  datatype Edge = Edge(lastNode: NodeId, cost: CostVector)

  datatype SetElem = SetElem(iD: NodeId, idx: nat, cost: CostVector)

  // The nodes after the root.
  type Route = seq<NodeId>

  // The errors the source throws.
  datatype Outcome = Done | RootNotFound | NodeNotInRouteMap | LinkNotFound

  predicate Better(x: Cost, y: Cost) {
    if x.metric == AditiveMin || x.metric == ConcaveMin then x.value < y.value else x.value > y.value
  }

  // operator< of cost vectors: true if any component is better, whatever the ones before it say.
  predicate Less(x: CostVector, y: CostVector)
    requires |x| <= |y|
  {
    exists i {:trigger x[i]} | 0 <= i < |x| :: Better(x[i], y[i])
  }

  function Sum(x: Cost, y: Cost): Cost {
    match x.metric
    case ConcaveMin => Cost(if y.value < x.value then y.value else x.value, ConcaveMin)
    case ConcaveMax => Cost(if y.value > x.value then y.value else x.value, ConcaveMax)
    case _ => Cost(x.value + y.value, x.metric)
  }

  function AddCost(a: CostVector, b: CostVector): (r: CostVector)
    requires |a| <= |b|
    ensures |r| == |a|
  {
    if a == [] then [] else [Sum(a[0], b[0])] + AddCost(a[1..], b[1..])
  }

  // c is what an edge of cost e makes of b: sums, or the smaller or the larger of the two.
  ghost predicate Combined(c: Cost, b: Cost, e: Cost) {
    c.metric == e.metric &&
    match e.metric
    case ConcaveMin => c.value <= b.value && c.value <= e.value && (c.value == b.value || c.value == e.value)
    case ConcaveMax => c.value >= b.value && c.value >= e.value && (c.value == b.value || c.value == e.value)
    case _ => c.value == b.value + e.value
  }

  ghost predicate StepCost(c: CostVector, b: CostVector, e: CostVector) {
    |c| == |b| == |e| && forall j | 0 <= j < |c| :: Combined(c[j], b[j], e[j])
  }

  lemma {:induction false} AddCostIsStep(e: CostVector, b: CostVector)
    requires |e| == |b|
    ensures StepCost(AddCost(e, b), b, e)
  {
    if e != [] {
      AddCostIsStep(e[1..], b[1..]);
      var c := AddCost(e, b);
      assert c[1..] == AddCost(e[1..], b[1..]);
      forall j | 0 <= j < |c| ensures Combined(c[j], b[j], e[j]) {
        if j > 0 {
          assert c[j] == c[1..][j - 1] && b[j] == b[1..][j - 1] && e[j] == e[1..][j - 1];
        }
      }
    }
  }

  // The limit is kept: no more where less is better, and no less where more is.
  ghost predicate Keeps(c: Cost, limit: Cost) {
    match limit.metric
    case AditiveMin => c.value <= limit.value
    case ConcaveMin => c.value <= limit.value
    case AditiveMax => c.value >= limit.value
    case ConcaveMax => c.value >= limit.value
  }

  // Every limit is kept; there may be none.
  ghost predicate AllKeep(c: CostVector, limits: CostVector) {
    limits == [] || (|c| == |limits| && forall j | 0 <= j < |c| :: Keeps(c[j], limits[j]))
  }

  // Some choice of edges along r adds up to c, from start on.
  ghost predicate CostsAlong(links: map<NodeId, seq<Edge>>, root: NodeId, start: CostVector, r: Route, c: CostVector)
    decreases |r|
  {
    if r == [] then c == start
    else
      var a := if |r| == 1 then root else r[|r| - 2];
      a in links && exists k: nat, b {:trigger links[a][k], CostsAlong(links, root, start, r[..|r| - 1], b)} ::
        k < |links[a]| && links[a][k].lastNode == r[|r| - 1] && CostsAlong(links, root, start, r[..|r| - 1], b)
        && StepCost(c, b, links[a][k].cost)
  }

  ghost predicate InHeap(heap: multiset<SetElem>, n: NodeId) {
    exists e :: e in heap && e.iD == n
  }

  // New labels come with an element of the heap, and no node loses its last one.
  ghost predicate Grown(nodes: set<NodeId>, heap: multiset<SetElem>, nodes': set<NodeId>, heap': multiset<SetElem>) {
    && nodes <= nodes'
    && (forall n | n in nodes' :: n in nodes || InHeap(heap', n))
    && (forall n | InHeap(heap, n) :: InHeap(heap', n))
  }

  lemma GrownTwice(n0: set<NodeId>, h0: multiset<SetElem>, n1: set<NodeId>, h1: multiset<SetElem>, n2: set<NodeId>,
      h2: multiset<SetElem>)
    requires Grown(n0, h0, n1, h1) && Grown(n1, h1, n2, h2)
    ensures Grown(n0, h0, n2, h2)
  {
  }

  ghost function PermCount(labels: seq<State>): nat {
    if labels == [] then 0
    else PermCount(labels[..|labels| - 1]) + if labels[|labels| - 1].stateLabel == Perm then 1 else 0
  }

  lemma {:induction false} PermCountOfUpdate(labels: seq<State>, i: nat, s: State)
    requires i < |labels|
    ensures PermCount(labels[i := s])
      == PermCount(labels) - (if labels[i].stateLabel == Perm then 1 else 0) + (if s.stateLabel == Perm then 1 else 0)
  {
    var n := |labels| - 1;
    if i < n {
      assert labels[i := s][..n] == labels[..n][i := s];
      PermCountOfUpdate(labels[..n], i, s);
    } else {
      assert labels[i := s][..n] == labels[..n];
    }
  }

  lemma PermCountOfAppend(labels: seq<State>, s: State)
    ensures PermCount(labels + [s]) == PermCount(labels) + if s.stateLabel == Perm then 1 else 0
  {
    assert (labels + [s])[..|labels|] == labels;
  }

  lemma {:induction false} PermCountBelow(labels: seq<State>, i: nat)
    requires i < |labels| && labels[i].stateLabel == Tent
    ensures PermCount(labels) < |labels|
  {
    var n := |labels| - 1;
    PermCountAtMost(labels[..n]);
    if i < n {
      PermCountBelow(labels[..n], i);
    }
  }

  lemma {:induction false} PermExists(labels: seq<State>) returns (i: nat)
    requires PermCount(labels) > 0
    ensures i < |labels| && labels[i].stateLabel == Perm
  {
    var n := |labels| - 1;
    if labels[n].stateLabel == Perm {
      i := n;
    } else {
      i := PermExists(labels[..n]);
    }
  }

  lemma {:induction false} PermCountAtMost(labels: seq<State>)
    ensures PermCount(labels) <= |labels|
  {
    if labels != [] {
      PermCountAtMost(labels[..|labels| - 1]);
    }
  }

  // The label among the first k that the scan for a worse one ends with, starting from the largest cost.
  ghost function WorstOf(labels: seq<State>, k: nat, largest: CostVector): (w: Option<nat>)
    requires k <= |labels|
    ensures w.Some? ==> w.value < k && labels[w.value].stateLabel == Tent
    ensures w.None? <==> forall i {:trigger labels[i]} | 0 <= i < k && labels[i].stateLabel == Tent ::
      !IsWorse(labels[i].cost, largest)
    ensures w.Some? ==> forall i {:trigger labels[i]} | w.value < i < k && labels[i].stateLabel == Tent ::
      !IsWorse(labels[i].cost, labels[w.value].cost)
  {
    if k == 0 then None
    else
      var w := WorstOf(labels, k - 1, largest);
      var worst := if w.None? then largest else labels[w.value].cost;
      if labels[k - 1].stateLabel == Tent && IsWorse(labels[k - 1].cost, worst) then Some(k - 1) else w
  }

  ghost predicate IsWorse(c: CostVector, than: CostVector) {
    |than| <= |c| && Less(than, c)
  }

  // A tentative label that comes, in place of another one or at the end, leaves the number of permanent ones.
  lemma OneTentativeMore(before: seq<State>, at: nat, s: State, labels: seq<State>)
    requires s.stateLabel == Tent
    requires if at < |before| then before[at].stateLabel == Tent && labels == before[at := s]
      else labels == before + [s]
    ensures PermCount(labels) == PermCount(before)
  {
    if at < |before| {
      PermCountOfUpdate(before, at, s);
    } else {
      PermCountOfAppend(before, s);
    }
  }

  class DijkstraKshortest {
    var linkArray: map<NodeId, seq<Edge>>
    var routeMap: map<NodeId, seq<State>>
    var kRoutesMap: map<NodeId, seq<Route>>
    var rootNode: NodeId
    var kLimit: int
    var limitsData: CostVector
    const minimumCost: CostVector
    const maximumCost: CostVector
    // The route of each label; the labels made permanent in this run.
    ghost var paths: map<(NodeId, nat), Route>
    ghost var settled: set<(NodeId, nat)>

    constructor (limit: int, minimum: CostVector, maximum: CostVector)
      requires |minimum| == |maximum|
      ensures kLimit == limit && linkArray == map[] && Vectors()
    {
      kLimit, minimumCost, maximumCost, limitsData := limit, minimum, maximum, [];
      linkArray, routeMap, kRoutesMap, rootNode := map[], map[], map[], 0;
      paths, settled := map[], {};
    }

    // All cost vectors have the same number of components.
    ghost predicate Vectors()
      reads this`linkArray, this`limitsData
    {
      && |minimumCost| == |maximumCost| && (limitsData == [] || |limitsData| == |maximumCost|)
      && forall n, i {:trigger linkArray[n][i]} | n in linkArray && 0 <= i < |linkArray[n]| ::
           |linkArray[n][i].cost| == |maximumCost|
    }

    ghost predicate HasEdge(a: NodeId, b: NodeId)
      reads this`linkArray
    {
      a in linkArray && exists i {:trigger linkArray[a][i]} | 0 <= i < |linkArray[a]| :: linkArray[a][i].lastNode == b
    }

    // A loop-free path along edges from the root to n.
    ghost predicate RouteOk(n: NodeId, r: Route)
      reads this`linkArray, this`rootNode
    {
      && r != [] && r[|r| - 1] == n && Distinct(r) && rootNode !in r
      && HasEdge(rootNode, r[0])
      && forall i | 0 <= i < |r| - 1 :: HasEdge(r[i], r[i + 1])
    }

    ghost predicate RouteCosts(r: Route, c: CostVector)
      reads this`linkArray, this`rootNode
    {
      CostsAlong(linkArray, rootNode, minimumCost, r, c)
    }

    // Every component keeps its limit.
    ghost predicate Within(c: CostVector)
      reads this`limitsData
    {
      AllKeep(c, limitsData)
    }

    // A route that can be had within the limits.
    ghost predicate Affordable(r: Route)
      reads this`linkArray, this`rootNode, this`limitsData
    {
      exists c :: RouteCosts(r, c) && Within(c)
    }

    // An edge of cost e leads from cost b beyond a limit.
    ghost predicate Exceeds(b: CostVector, e: CostVector)
      reads this`limitsData
    {
      exists c :: StepCost(c, b, e) && !Within(c)
    }

    // No loop-free path from the root goes beyond a limit.
    ghost predicate NothingExceeds()
      reads this`linkArray, this`rootNode, this`limitsData
    {
      forall n, r, c | RouteOk(n, r) && RouteCosts(r, c) :: Within(c)
    }

    lemma CostOfLonger(r: Route, n: NodeId, next: NodeId, c: CostVector, b: CostVector, edge: Edge)
      requires Reached(n, r) && RouteCosts(r, b) && n in linkArray && edge in linkArray[n] && edge.lastNode == next
        && StepCost(c, b, edge.cost)
      ensures RouteCosts(r + [next], c)
    {
      var longer := r + [next];
      assert longer[..|longer| - 1] == r;
      var k :| 0 <= k < |linkArray[n]| && linkArray[n][k] == edge;
      assert n == if |longer| == 1 then rootNode else longer[|longer| - 2];
      assert linkArray[n][k].lastNode == next;
    }

    // ---- the labels ----

    ghost predicate IsLabel(n: NodeId, i: int)
      reads this`routeMap
    {
      n in routeMap && 0 <= i < |routeMap[n]|
    }

    ghost predicate IsPerm(n: NodeId, i: int)
      reads this`routeMap
    {
      IsLabel(n, i) && routeMap[n][i].stateLabel == Perm
    }

    // A label continues a permanent one by an edge, to a loop-free route.
    ghost predicate LabelOk(n: NodeId, i: nat)
      reads this`routeMap, this`linkArray, this`rootNode, this`paths
    {
      && IsLabel(n, i) && |routeMap[n][i].cost| == |maximumCost| && (n, i) in paths
      && if n == rootNode then routeMap[n][i].stateLabel == Perm && paths[(n, i)] == []
         else
           var s := routeMap[n][i];
           && IsPerm(s.idPrev, s.idPrevIdx) && (s.idPrev, s.idPrevIdx) in paths
           && paths[(n, i)] == paths[(s.idPrev, s.idPrevIdx)] + [n] && RouteOk(n, paths[(n, i)])
    }

    ghost predicate Labels()
      reads this`routeMap, this`linkArray, this`rootNode, this`paths, this`kLimit
    {
      && rootNode in routeMap && (forall n | n in routeMap :: |routeMap[n]| <= kLimit)
      && |routeMap[rootNode]| == kLimit
      && forall n, i {:trigger LabelOk(n, i)} | IsLabel(n, i) :: LabelOk(n, i)
    }

    // The cost of a label adds up along its route, and is within the limits.
    ghost predicate LabelCost(n: NodeId, i: nat)
      reads this`routeMap, this`paths, this`linkArray, this`rootNode, this`limitsData
    {
      && IsLabel(n, i) && (n, i) in paths && RouteCosts(paths[(n, i)], routeMap[n][i].cost)
      && (n != rootNode ==> Within(routeMap[n][i].cost))
    }

    ghost predicate Costed()
      reads this`routeMap, this`paths, this`linkArray, this`rootNode, this`limitsData
    {
      forall n, i {:trigger LabelCost(n, i)} | IsLabel(n, i) :: LabelCost(n, i)
    }

    // Every recorded route can be had within the limits.
    ghost predicate Affordables()
      reads this`kRoutesMap, this`linkArray, this`rootNode, this`limitsData
    {
      forall n: NodeId, j: nat {:trigger RouteCost(n, j)} :: RouteCost(n, j)
    }

    ghost predicate RouteCost(n: NodeId, j: nat)
      reads this`kRoutesMap, this`linkArray, this`rootNode, this`limitsData
    {
      n in kRoutesMap && j < |kRoutesMap[n]| ==> Affordable(kRoutesMap[n][j])
    }

    // At most K recorded routes to a node, no two alike.
    ghost predicate Routes()
      reads this`kRoutesMap, this`linkArray, this`rootNode, this`kLimit
    {
      forall n | n in kRoutesMap ::
        && 0 < |kRoutesMap[n]| <= kLimit && Distinct(kRoutesMap[n])
        && forall j {:trigger kRoutesMap[n][j]} | 0 <= j < |kRoutesMap[n]| :: RouteOk(n, kRoutesMap[n][j])
    }

    // ---- permanent labels and recorded routes ----

    ghost function Recordings(n: NodeId): nat
      reads this`kRoutesMap
    {
      if n in kRoutesMap then |kRoutesMap[n]| else 0
    }

    ghost function PermTotal(n: NodeId): nat
      reads this`routeMap
    {
      if n in routeMap then PermCount(routeMap[n]) else 0
    }

    // There is one recorded route for each permanent label, and the route of each is recorded.
    ghost predicate NodeRecorded(n: NodeId)
      reads this`routeMap, this`kRoutesMap
    {
      Recordings(n) == PermTotal(n)
    }

    ghost predicate LabelRecorded(n: NodeId, i: nat)
      reads this`kRoutesMap, this`paths
    {
      (n, i) in paths && n in kRoutesMap && paths[(n, i)] in kRoutesMap[n]
    }

    ghost predicate Recorded()
      reads this`routeMap, this`kRoutesMap, this`paths, this`rootNode
    {
      && (forall n {:trigger NodeRecorded(n)} | n != rootNode :: NodeRecorded(n))
      && (forall n: NodeId, i: nat {:trigger LabelRecorded(n, i)} | n != rootNode && IsPerm(n, i) ::
           LabelRecorded(n, i))
    }

    ghost function Nodes(): set<NodeId>
      reads this`linkArray, this`rootNode
    {
      {rootNode} + (set a, i | a in linkArray && 0 <= i < |linkArray[a]| :: linkArray[a][i].lastNode)
    }

    // All labels there can ever be.
    ghost function AllLabels(): set<(NodeId, nat)>
      reads this`linkArray, this`rootNode, this`kLimit
    {
      set n: NodeId, i: nat | n in Nodes() && 0 <= i < kLimit :: (n, i)
    }

    ghost predicate SettledOk()
      reads this`routeMap, this`linkArray, this`rootNode, this`kLimit, this`settled
    {
      && routeMap.Keys <= Nodes() && settled <= AllLabels()
      && forall n: NodeId, i: nat {:trigger (n, i) in settled} | n != rootNode :: (n, i) in settled <==> IsPerm(n, i)
    }

    ghost predicate Inv()
      reads this
    {
      kLimit > 0 && Vectors() && Labels() && Routes() && Recorded() && SettledOk() && Costed() && Affordables()
    }

    // The heap refers to labels.
    ghost predicate HeapOk(heap: multiset<SetElem>)
      reads this`routeMap
    {
      forall e | e in heap :: IsLabel(e.iD, e.idx) && |e.cost| == |maximumCost|
    }

    // ---- one element of the heap ----

    // Follow the labels back to the root.
    method TraceRoute(n: NodeId, idx: nat) returns (pathNode: Route)
      requires Labels() && IsLabel(n, idx)
      ensures LabelOk(n, idx) && pathNode == paths[(n, idx)]
    {
      assert LabelOk(n, idx);
      var currentNode, prevIdx: int := n, idx;
      pathNode := [];
      while currentNode != rootNode
        invariant prevIdx >= 0 && LabelOk(currentNode, prevIdx)
          && paths[(n, idx)] == paths[(currentNode, prevIdx)] + pathNode
        decreases |paths[(currentNode, prevIdx)]|
      {
        var s := routeMap[currentNode][prevIdx];
        assert LabelOk(s.idPrev, s.idPrevIdx);
        pathNode := [currentNode] + pathNode;
        currentNode, prevIdx := s.idPrev, s.idPrevIdx;
      }
    }

    // Record a route unless it is known already.
    method RecordRoute(n: NodeId, pathNode: Route) returns (routeExist: bool)
      requires Routes() && RouteOk(n, pathNode) && kLimit > 0
      modifies this`kRoutesMap
      ensures Routes()
      ensures routeExist <==> n in old(kRoutesMap) && pathNode in old(kRoutesMap)[n]
      ensures routeExist ==> kRoutesMap == old(kRoutesMap)
      ensures !routeExist ==>
        kRoutesMap == old(kRoutesMap)[n :=
          if n !in old(kRoutesMap) then [pathNode]
          else if |old(kRoutesMap)[n]| < kLimit then old(kRoutesMap)[n] + [pathNode] else old(kRoutesMap)[n]]
    {
      routeExist := false;
      if n !in kRoutesMap {
        kRoutesMap := kRoutesMap[n := [pathNode]];
      } else {
        for j := 0 to |kRoutesMap[n]|
          invariant forall k | 0 <= k < j :: kRoutesMap[n][k] != pathNode
        {
          if pathNode == kRoutesMap[n][j] {
            return true;
          }
        }
        if |kRoutesMap[n]| < kLimit {
          kRoutesMap := kRoutesMap[n := kRoutesMap[n] + [pathNode]];
        }
      }
    }

    // ---- new labels ----

    // Where a route to n stands: at the root, or at the end of a loop-free path.
    ghost predicate Reached(n: NodeId, r: Route)
      reads this`linkArray, this`rootNode
    {
      if n == rootNode then r == [] else RouteOk(n, r)
    }

    lemma ExtendedRoute(n: NodeId, r: Route, next: NodeId)
      requires Reached(n, r) && HasEdge(n, next) && next !in r && next != rootNode
      ensures RouteOk(next, r + [next])
    {
      var longer := r + [next];
      assert longer[0] == if r == [] then next else r[0];
      forall i | 0 <= i < |longer| - 1 ensures HasEdge(longer[i], longer[i + 1]) {
        assert longer[i] == r[i];
      }
    }

    // The label that elem gives to the other end of an edge.
    ghost predicate Continues(elem: SetElem, next: NodeId, s: State)
      reads this`routeMap, this`linkArray, this`rootNode, this`paths
    {
      && IsPerm(elem.iD, elem.idx) && (elem.iD, elem.idx) in paths && s.stateLabel == Tent
      && s.idPrev == elem.iD && s.idPrevIdx == elem.idx && |s.cost| == |maximumCost|
      && next != rootNode && RouteOk(next, paths[(elem.iD, elem.idx)] + [next])
    }

    // And its cost.
    ghost predicate CostContinues(elem: SetElem, next: NodeId, s: State)
      reads this`linkArray, this`rootNode, this`paths, this`limitsData
    {
      && (elem.iD, elem.idx) in paths && RouteCosts(paths[(elem.iD, elem.idx)] + [next], s.cost) && Within(s.cost)
    }

    // What new labels leave as it was.
    twostate predicate SamePerms()
      reads this
    {
      && kRoutesMap == old(kRoutesMap) && rootNode == old(rootNode) && kLimit == old(kLimit)
      && linkArray == old(linkArray) && limitsData == old(limitsData) && settled == old(settled)
      && (forall n: NodeId, i: nat {:trigger IsPerm(n, i)} {:trigger old(IsPerm(n, i))} ::
           IsPerm(n, i) <==> old(IsPerm(n, i)))
      && (forall n: NodeId, i: nat {:trigger IsPerm(n, i)} {:trigger old(IsPerm(n, i))} | old(IsPerm(n, i))
           && (n, i) in old(paths) :: (n, i) in paths && paths[(n, i)] == old(paths)[(n, i)])
      && (forall n: NodeId, i: nat {:trigger IsPerm(n, i)} {:trigger old(IsPerm(n, i))} | old(IsPerm(n, i)) ::
           routeMap[n][i] == old(routeMap)[n][i])
      && (forall n: NodeId {:trigger PermTotal(n)} :: PermTotal(n) == old(PermTotal(n)))
    }

    twostate lemma StillRecorded()
      requires old(Labels()) && old(Recorded()) && SamePerms()
      ensures Recorded()
    {
      forall n: NodeId | n != rootNode ensures NodeRecorded(n) {
        assert old(NodeRecorded(n)) && PermTotal(n) == old(PermTotal(n));
      }
      forall n: NodeId, i: nat | n != rootNode && IsPerm(n, i) ensures LabelRecorded(n, i) {
        assert old(LabelRecorded(n, i)) && old(LabelOk(n, i));
      }
    }

    twostate lemma StillSettled()
      requires old(SettledOk()) && SamePerms() && routeMap.Keys <= Nodes()
      ensures SettledOk()
    {
      forall n: NodeId, i: nat | n != rootNode ensures (n, i) in settled <==> IsPerm(n, i) {
        assert (n, i) in old(settled) <==> old(IsPerm(n, i));
      }
    }

    // One tentative label was written at next, in place of a tentative one or behind the others.
    twostate predicate Written(next: NodeId, at: nat)
      reads this
    {
      var before := if next in old(routeMap) then old(routeMap)[next] else [];
      && kRoutesMap == old(kRoutesMap) && rootNode == old(rootNode) && kLimit == old(kLimit)
      && linkArray == old(linkArray) && limitsData == old(limitsData) && settled == old(settled)
      && next in routeMap && at < |routeMap[next]| && routeMap[next][at].stateLabel == Tent
      && routeMap == old(routeMap)[next := routeMap[next]]
      && (if at < |before| then before[at].stateLabel == Tent && routeMap[next] == before[at := routeMap[next][at]]
          else routeMap[next] == before + [routeMap[next][at]])
      && (next, at) in paths && paths == old(paths)[(next, at) := paths[(next, at)]]
    }

    twostate lemma WrittenPerms(a: (NodeId, nat))
      requires Written(a.0, a.1)
      ensures forall n: NodeId, i: nat {:trigger IsPerm(n, i)} :: IsPerm(n, i) <==> old(IsPerm(n, i))
      ensures forall n: NodeId {:trigger PermTotal(n)} :: PermTotal(n) == old(PermTotal(n))
    {
      WrittenTotals(a);
      forall n: NodeId, i: nat ensures IsPerm(n, i) <==> old(IsPerm(n, i)) {
      }
    }

    twostate lemma WrittenTotals(a: (NodeId, nat))
      requires Written(a.0, a.1)
      ensures forall n: NodeId {:trigger PermTotal(n)} :: PermTotal(n) == old(PermTotal(n))
    {
      var (next, at) := a;
      var before := old(if next in routeMap then routeMap[next] else []);
      OneTentativeMore(before, at, routeMap[next][at], routeMap[next]);
      forall n: NodeId ensures PermTotal(n) == old(PermTotal(n)) {
        assert n != next ==> (n in routeMap <==> n in old(routeMap));
        assert n != next && n in routeMap ==> routeMap[n] == old(routeMap)[n];
      }
    }

    twostate lemma WrittenSame(a: (NodeId, nat))
      requires Written(a.0, a.1)
      ensures SamePerms()
    {
      WrittenPerms(a);
      forall n: NodeId, i: nat | old(IsPerm(n, i)) && (n, i) in old(paths)
        ensures (n, i) in paths && paths[(n, i)] == old(paths)[(n, i)]
      {
      }
    }

    twostate lemma WrittenLabels(a: (NodeId, nat))
      requires Written(a.0, a.1) && old(Labels()) && a.0 != rootNode && LabelOk(a.0, a.1) && |routeMap[a.0]| <= kLimit
      ensures Labels()
    {
      WrittenPerms(a);
      forall n: NodeId, i: nat | IsLabel(n, i) ensures LabelOk(n, i) {
        if n != a.0 || i != a.1 {
          assert old(LabelOk(n, i));
        }
      }
    }

    twostate lemma WrittenCosts(a: (NodeId, nat))
      requires Written(a.0, a.1) && old(Costed()) && old(Affordables()) && LabelCost(a.0, a.1)
      ensures Costed() && Affordables()
    {
      forall n: NodeId, i: nat | IsLabel(n, i) ensures LabelCost(n, i) {
        if n != a.0 || i != a.1 {
          assert old(LabelCost(n, i));
        }
      }
      forall n: NodeId, j: nat ensures RouteCost(n, j) {
        assert old(RouteCost(n, j));
      }
    }

    // The new label itself, and the path that it stands for.
    method PutLabel(elem: SetElem, next: NodeId, at: nat, s: State)
      requires Continues(elem, next, s) && LabelOk(elem.iD, elem.idx)
      requires if next in routeMap
        then at <= |routeMap[next]| && (at < |routeMap[next]| ==> routeMap[next][at].stateLabel == Tent)
          else at == 0
      modifies this`routeMap, this`paths
      ensures Written(next, at) && LabelOk(next, at) && routeMap.Keys == old(routeMap).Keys + {next}
      ensures routeMap == old(routeMap)[next :=
        (var before := if next in old(routeMap) then old(routeMap)[next] else [];
         if at < |before| then before[at := s] else before + [s])]
      ensures routeMap[next][at] == s && paths[(next, at)] == old(paths[(elem.iD, elem.idx)]) + [next]
      ensures |routeMap[next]| == if next !in old(routeMap) then 1
        else if at < |old(routeMap)[next]| then |old(routeMap)[next]| else |old(routeMap)[next]| + 1
      ensures forall n, i {:trigger IsLabel(n, i)} | old(IsLabel(n, i)) :: IsLabel(n, i)
    {
      var labels := if next in routeMap then routeMap[next] else [];
      ghost var r := paths[(elem.iD, elem.idx)];
      routeMap := routeMap[next := if at < |labels| then labels[at := s] else labels + [s]];
      paths := paths[(next, at) := r + [next]];
      assert old(IsPerm(elem.iD, elem.idx));
    }

    // The new label s of next at place `at` continues elem.
    method WriteLabel(elem: SetElem, next: NodeId, at: nat, s: State)
      requires Inv() && Continues(elem, next, s) && CostContinues(elem, next, s) && next in Nodes()
      requires if next in routeMap
        then at < kLimit && at <= |routeMap[next]| && (at < |routeMap[next]| ==> routeMap[next][at].stateLabel == Tent)
          else at == 0
      modifies this`routeMap, this`paths
      ensures Inv() && SamePerms() && IsLabel(next, at) && routeMap.Keys == old(routeMap).Keys + {next}
      ensures routeMap == old(routeMap)[next :=
        (var before := if next in old(routeMap) then old(routeMap)[next] else [];
         if at < |before| then before[at := s] else before + [s])]
      ensures forall n, i {:trigger IsLabel(n, i)} | old(IsLabel(n, i)) :: IsLabel(n, i)
    {
      label Before:
      PutLabel(elem, next, at, s);
      assert LabelCost(next, at);
      WrittenInv@Before((next, at));
    }

    twostate lemma WrittenInv(a: (NodeId, nat))
      requires Written(a.0, a.1) && old(Inv()) && a.0 != rootNode && LabelOk(a.0, a.1) && LabelCost(a.0, a.1)
      requires |routeMap[a.0]| <= kLimit && a.0 in Nodes()
      ensures Inv() && SamePerms()
    {
      WrittenLabels(a);
      WrittenCosts(a);
      WrittenRest(a);
    }

    twostate lemma WrittenRest(a: (NodeId, nat))
      requires Written(a.0, a.1) && old(Labels()) && old(Recorded()) && old(SettledOk()) && a.0 in Nodes()
      ensures Recorded() && SettledOk() && SamePerms()
    {
      WrittenSame(a);
      StillRecorded();
      assert routeMap.Keys == old(routeMap).Keys + {a.0};
      StillSettled();
    }

    method MakePermanent(n: NodeId, i: nat)
      requires Labels() && IsLabel(n, i)
      modifies this`routeMap
      ensures Labels() && IsPerm(n, i)
      ensures routeMap == old(routeMap)[n := old(routeMap)[n][i := old(routeMap)[n][i].(stateLabel := Perm)]]
    {
      routeMap := routeMap[n := routeMap[n][i := routeMap[n][i].(stateLabel := Perm)]];
      forall m, j | IsLabel(m, j) ensures LabelOk(m, j) {
        assert old(LabelOk(m, j));
      }
    }

    // ---- following the edges of a label ----

    // The last tentative label of next that is worse than those picked before it, if there is one.
    method WorstTentative(next: NodeId) returns (permanent: bool, nextIdx: nat, maxCost: CostVector)
      requires Inv() && next in routeMap
      ensures |maxCost| == |maximumCost| && permanent == Replaceable(next).None?
      ensures !permanent ==> nextIdx == Replaceable(next).value && maxCost == routeMap[next][nextIdx].cost
    {
      permanent, nextIdx, maxCost := true, 0, maximumCost;
      ghost var labels := routeMap[next];
      for i := 0 to |routeMap[next]|
        invariant |maxCost| == |maximumCost|
        invariant WorstOf(labels, i, maximumCost) == if permanent then None else Some(nextIdx)
        invariant maxCost == if permanent then maximumCost else labels[nextIdx].cost
      {
        assert LabelOk(next, i);
        if Less(maxCost, routeMap[next][i].cost) && routeMap[next][i].stateLabel == Tent {
          permanent, nextIdx, maxCost := false, i, routeMap[next][i].cost;
        }
      }
    }

    // The nodes of a label's route are labelled.
    lemma {:induction false} PathIsLabelled(n: NodeId, i: nat)
      requires Labels() && LabelOk(n, i)
      ensures forall m | m in paths[(n, i)] :: m in routeMap
      decreases |paths[(n, i)]|
    {
      if n != rootNode {
        var s := routeMap[n][i];
        assert LabelOk(s.idPrev, s.idPrevIdx);
        PathIsLabelled(s.idPrev, s.idPrevIdx);
      }
    }

    method FollowEdge(elem: SetElem, pathNode: Route, edge: Edge, heap0: multiset<SetElem>)
      returns (heap: multiset<SetElem>)
      requires Inv() && HeapOk(heap0) && HasEdge(elem.iD, edge.lastNode) && edge.lastNode in Nodes()
        && |edge.cost| == |maximumCost| && elem.iD in linkArray && edge in linkArray[elem.iD]
      requires IsPerm(elem.iD, elem.idx) && LabelOk(elem.iD, elem.idx) && paths[(elem.iD, elem.idx)] == pathNode
      modifies this`routeMap, this`paths
      ensures Inv() && SamePerms() && HeapOk(heap) && Grown(old(routeMap).Keys, heap0, routeMap.Keys, heap)
      ensures edge.lastNode in routeMap || Exceeds(old(routeMap[elem.iD][elem.idx].cost), edge.cost)
      ensures forall e | e in heap :: e in heap0 || e.iD != rootNode
    {
      heap := heap0;
      var next := edge.lastNode;
      // a label has no loops: the route it extends must not come through here
      if next in pathNode {
        PathIsLabelled(elem.iD, elem.idx);
        return;
      }
      assert LabelCost(elem.iD, elem.idx);
      var cost := AddCost(edge.cost, routeMap[elem.iD][elem.idx].cost);
      AddCostIsStep(edge.cost, routeMap[elem.iD][elem.idx].cost);
      if limitsData != [] && Less(limitsData, cost) {
        LimitBroken(cost);
        return;
      }
      LimitKept(cost);
      CostOfLonger(pathNode, elem.iD, next, cost, routeMap[elem.iD][elem.idx].cost, edge);
      heap := OfferLabel(elem, pathNode, next, State(cost, elem.iD, elem.idx, Tent), heap);
    }

    lemma LimitBroken(c: CostVector)
      requires limitsData != [] && |c| == |limitsData| && Less(limitsData, c)
      ensures !Within(c)
    {
      var j :| 0 <= j < |limitsData| && Better(limitsData[j], c[j]);
      assert !Keeps(c[j], limitsData[j]);
    }

    lemma LimitKept(c: CostVector)
      requires limitsData == [] || (|c| == |limitsData| && !Less(limitsData, c))
      ensures Within(c)
    {
      if limitsData != [] {
        forall j | 0 <= j < |c| ensures Keeps(c[j], limitsData[j]) {
          assert !Better(limitsData[j], c[j]);
        }
      }
    }

    // The tentative label of next that a better one would replace.
    ghost function Replaceable(next: NodeId): (w: Option<nat>)
      reads this`routeMap
      requires next in routeMap
      ensures w.Some? ==> IsLabel(next, w.value) && routeMap[next][w.value].stateLabel == Tent
    {
      WorstOf(routeMap[next], |routeMap[next]|, maximumCost)
    }

    // next has K labels, and one of them is to be replaced by s.
    ghost predicate Replaces(s: State, next: NodeId)
      reads this`routeMap
      requires next in routeMap
    {
      Replaceable(next).Some? && IsWorse(routeMap[next][Replaceable(next).value].cost, s.cost)
    }

    // A label for next, if it has less than K or one that can be replaced by a better one.
    method OfferLabel(elem: SetElem, pathNode: Route, next: NodeId, s: State, heap0: multiset<SetElem>)
      returns (heap: multiset<SetElem>)
      requires Inv() && HeapOk(heap0) && HasEdge(elem.iD, next) && next in Nodes() && next !in pathNode
      requires IsPerm(elem.iD, elem.idx) && LabelOk(elem.iD, elem.idx) && paths[(elem.iD, elem.idx)] == pathNode
      requires s.stateLabel == Tent && s.idPrev == elem.iD && s.idPrevIdx == elem.idx && |s.cost| == |maximumCost|
      requires CostContinues(elem, next, s)
      modifies this`routeMap, this`paths
      ensures Inv() && SamePerms() && HeapOk(heap) && Grown(old(routeMap).Keys, heap0, routeMap.Keys, heap)
        && next in routeMap
      ensures forall e | e in heap :: e in heap0 || e.iD != rootNode
      ensures next !in old(routeMap) ==> routeMap[next] == [s]
      ensures next in old(routeMap) && |old(routeMap)[next]| < kLimit ==> routeMap[next] == old(routeMap)[next] + [s]
      ensures next in old(routeMap) && |old(routeMap)[next]| >= kLimit && old(Replaces(s, next)) ==>
        routeMap[next] == old(routeMap[next][Replaceable(next).value := s])
      ensures next in old(routeMap) && |old(routeMap)[next]| >= kLimit && !old(Replaces(s, next)) ==>
        routeMap == old(routeMap) && heap == heap0
    {
      if next !in routeMap || |routeMap[next]| < kLimit {
        assert next != rootNode;
        ExtendedRoute(elem.iD, pathNode, next);
        heap := PushLabel(elem, next, s, heap0);
      } else {
        heap := OfferToFull(elem, pathNode, next, s, heap0);
      }
    }

    // All K labels of next are taken.
    method OfferToFull(elem: SetElem, pathNode: Route, next: NodeId, s: State, heap0: multiset<SetElem>)
      returns (heap: multiset<SetElem>)
      requires Inv() && HeapOk(heap0) && HasEdge(elem.iD, next) && next in Nodes() && next !in pathNode
      requires IsPerm(elem.iD, elem.idx) && LabelOk(elem.iD, elem.idx) && paths[(elem.iD, elem.idx)] == pathNode
      requires s.stateLabel == Tent && s.idPrev == elem.iD && s.idPrevIdx == elem.idx && |s.cost| == |maximumCost|
      requires CostContinues(elem, next, s) && next in routeMap && |routeMap[next]| >= kLimit
      modifies this`routeMap, this`paths
      ensures Inv() && SamePerms() && HeapOk(heap) && Grown(old(routeMap).Keys, heap0, routeMap.Keys, heap)
        && next in routeMap
      ensures forall e | e in heap :: e in heap0 || e.iD != rootNode
      ensures old(Replaces(s, next)) ==> routeMap[next] == old(routeMap[next][Replaceable(next).value := s])
      ensures !old(Replaces(s, next)) ==> routeMap == old(routeMap) && heap == heap0
    {
      heap := heap0;
      var replace, nextIdx := ToReplace(next, s.cost);
      if replace {
        ExtendedRoute(elem.iD, pathNode, next);
        heap := ReplaceLabel(elem, next, nextIdx, s, heap);
      }
    }

    // The label that a new one of this cost replaces, if there is one.
    method ToReplace(next: NodeId, cost: CostVector) returns (replace: bool, nextIdx: nat)
      requires Inv() && next in routeMap && |cost| == |maximumCost|
      ensures replace <==>
        Replaceable(next).Some? && IsWorse(routeMap[next][Replaceable(next).value].cost, cost)
      ensures replace ==> next != rootNode && nextIdx < kLimit && Replaceable(next) == Some(nextIdx)
    {
      var permanent, maxCost;
      permanent, nextIdx, maxCost := WorstTentative(next);
      replace := !permanent && Less(cost, maxCost);
      if replace {
        assert LabelOk(next, nextIdx);
      }
    }

    method PushLabel(elem: SetElem, next: NodeId, s: State, heap0: multiset<SetElem>) returns (heap: multiset<SetElem>)
      requires Inv() && HeapOk(heap0) && Continues(elem, next, s) && CostContinues(elem, next, s) && next in Nodes()
      requires next in routeMap ==> |routeMap[next]| < kLimit
      modifies this`routeMap, this`paths
      ensures next in routeMap
        && routeMap[next] == (if next in old(routeMap) then old(routeMap)[next] else []) + [s]
      ensures Inv() && SamePerms() && HeapOk(heap) && Grown(old(routeMap).Keys, heap0, routeMap.Keys, heap)
        && next in routeMap
      ensures forall e | e in heap :: e in heap0 || e.iD == next
    {
      var nextIdx := if next in routeMap then |routeMap[next]| else 0;
      WriteLabel(elem, next, nextIdx, s);
      heap := heap0 + multiset{SetElem(next, nextIdx, s.cost)};
      OneElementMore(heap0, SetElem(next, nextIdx, s.cost));
    }

    lemma OneElementMore(heap: multiset<SetElem>, e: SetElem)
      ensures forall n | InHeap(heap, n) :: InHeap(heap + multiset{e}, n)
      ensures InHeap(heap + multiset{e}, e.iD)
    {
      var more := heap + multiset{e};
      assert e in more;
      forall n | InHeap(heap, n) ensures InHeap(more, n) {
        var e' :| e' in heap && e'.iD == n;
        assert e' in more;
      }
    }

    method ReplaceLabel(elem: SetElem, next: NodeId, nextIdx: nat, s: State, heap0: multiset<SetElem>)
      returns (heap: multiset<SetElem>)
      requires Inv() && HeapOk(heap0) && Continues(elem, next, s) && CostContinues(elem, next, s) && next in Nodes()
      requires IsLabel(next, nextIdx) && nextIdx < kLimit && routeMap[next][nextIdx].stateLabel == Tent
      modifies this`routeMap, this`paths
      ensures routeMap == old(routeMap)[next := old(routeMap)[next][nextIdx := s]]
      ensures Inv() && SamePerms() && HeapOk(heap) && Grown(old(routeMap).Keys, heap0, routeMap.Keys, heap)
        && next in routeMap
      ensures forall e | e in heap :: e in heap0 || e.iD == next
    {
      WriteLabel(elem, next, nextIdx, s);
      heap := Replaced(heap0, SetElem(next, nextIdx, s.cost));
    }

    // A worse element for the same label goes, and the new one comes.
    method Replaced(heap0: multiset<SetElem>, newElem: SetElem) returns (heap: multiset<SetElem>)
      requires HeapOk(heap0) && IsLabel(newElem.iD, newElem.idx) && |newElem.cost| == |maximumCost|
      ensures HeapOk(heap) && forall e | e in heap :: e in heap0 || e == newElem
      ensures InHeap(heap, newElem.iD) && forall n | InHeap(heap0, n) :: InHeap(heap, n)
    {
      heap := heap0;
      if e :| e in heap && e.iD == newElem.iD && e.idx == newElem.idx && Less(newElem.cost, e.cost) {
        heap := heap - multiset{e};
      }
      heap := heap + multiset{newElem};
      assert newElem in heap;
      forall n | InHeap(heap0, n) ensures InHeap(heap, n) {
        var e :| e in heap0 && e.iD == n;
        if n != newElem.iD {
          assert e in heap;
        }
      }
    }

    // Edge k of n leads to a labelled node, or from cost b beyond a limit.
    ghost predicate EdgeDone(n: NodeId, b: CostVector, k: nat)
      reads this`linkArray, this`routeMap, this`limitsData
      requires n in linkArray && k < |linkArray[n]|
    {
      linkArray[n][k].lastNode in routeMap || Exceeds(b, linkArray[n][k].cost)
    }

    // So do the edges before k of the label.
    ghost predicate DoneUpTo(n: NodeId, i: nat, k: nat)
      reads this`linkArray, this`routeMap, this`limitsData
    {
      && IsLabel(n, i) && n in linkArray && k <= |linkArray[n]|
      && forall j: nat {:trigger linkArray[n][j]} | j < k :: EdgeDone(n, routeMap[n][i].cost, j)
    }

    // So do all its edges.
    ghost predicate ClosedAt(n: NodeId, i: nat)
      reads this`linkArray, this`routeMap, this`limitsData
    {
      n in linkArray && DoneUpTo(n, i, |linkArray[n]|)
    }

    // The edges of the labels that are permanent have been followed, but for one.
    ghost predicate ClosedBut(n: NodeId, i: nat)
      reads this`linkArray, this`routeMap, this`limitsData, this`settled
    {
      forall m: NodeId, j: nat {:trigger ClosedAt(m, j)} | (m, j) in settled && (m, j) != (n, i) :: ClosedAt(m, j)
    }

    ghost predicate Closed()
      reads this`linkArray, this`routeMap, this`limitsData, this`settled
    {
      forall n: NodeId, i: nat {:trigger ClosedAt(n, i)} | (n, i) in settled :: ClosedAt(n, i)
    }

    // New labels leave done what is done.
    twostate lemma StillDone(l: (NodeId, nat, nat))
      requires old(IsPerm(l.0, l.1)) && old(DoneUpTo(l.0, l.1, l.2)) && SamePerms()
        && old(routeMap).Keys <= routeMap.Keys
      ensures DoneUpTo(l.0, l.1, l.2)
    {
      var (n, i, k) := l;
      assert IsPerm(n, i);
      forall j: nat | j < k ensures EdgeDone(n, routeMap[n][i].cost, j) {
        assert old(EdgeDone(n, routeMap[n][i].cost, j));
        assert linkArray[n][j].lastNode in old(routeMap).Keys ==> linkArray[n][j].lastNode in routeMap.Keys;
      }
    }

    twostate lemma StillClosedBut(elem: SetElem)
      requires old(Labels()) && old(SettledOk()) && old(ClosedBut(elem.iD, elem.idx)) && SamePerms()
        && old(routeMap).Keys <= routeMap.Keys
      ensures ClosedBut(elem.iD, elem.idx)
    {
      forall m: NodeId, j: nat | (m, j) in settled && (m, j) != (elem.iD, elem.idx) ensures ClosedAt(m, j) {
        assert old(ClosedAt(m, j));
        if m == rootNode {
          assert old(LabelOk(m, j));
        }
        assert old(IsPerm(m, j));
        StillDone((m, j, |linkArray[m]|));
      }
    }

    // All edges that leave the node of a permanent label.
    method FollowEdges(elem: SetElem, pathNode: Route, heap0: multiset<SetElem>) returns (heap: multiset<SetElem>)
      requires Inv() && HeapOk(heap0) && elem.iD in linkArray && ClosedBut(elem.iD, elem.idx)
      requires IsPerm(elem.iD, elem.idx) && LabelOk(elem.iD, elem.idx) && paths[(elem.iD, elem.idx)] == pathNode
      modifies this`routeMap, this`paths
      ensures Inv() && HeapOk(heap) && Grown(old(routeMap).Keys, heap0, routeMap.Keys, heap)
      ensures Closed()
      ensures forall e | e in heap :: e in heap0 || e.iD != rootNode
    {
      heap := heap0;
      ghost var nodes := routeMap.Keys;
      for i := 0 to |linkArray[elem.iD]|
        invariant Following(elem, pathNode, i) && HeapAhead(nodes, heap0, heap)
      {
        heap := FollowEdgeAt(elem, pathNode, i, heap, nodes, heap0);
      }
      assert ClosedAt(elem.iD, elem.idx);
    }

    // What has become of the heap since the nodes were these.
    ghost predicate HeapAhead(nodes: set<NodeId>, heap0: multiset<SetElem>, heap: multiset<SetElem>)
      reads this`routeMap, this`rootNode
    {
      && HeapOk(heap) && Grown(nodes, heap0, routeMap.Keys, heap)
      && forall e | e in heap :: e in heap0 || e.iD != rootNode
    }

    // The edges before k have been followed.
    ghost predicate Following(elem: SetElem, pathNode: Route, k: nat)
      reads this
    {
      && Inv() && elem.iD in linkArray && ClosedBut(elem.iD, elem.idx) && DoneUpTo(elem.iD, elem.idx, k)
      && IsPerm(elem.iD, elem.idx) && LabelOk(elem.iD, elem.idx) && paths[(elem.iD, elem.idx)] == pathNode
    }

    method FollowEdgeAt(elem: SetElem, pathNode: Route, k: nat, heap1: multiset<SetElem>, ghost nodes: set<NodeId>,
        ghost heap0: multiset<SetElem>)
      returns (heap: multiset<SetElem>)
      requires Following(elem, pathNode, k) && HeapAhead(nodes, heap0, heap1) && k < |linkArray[elem.iD]|
      modifies this`routeMap, this`paths
      ensures Following(elem, pathNode, k + 1) && HeapAhead(nodes, heap0, heap) && linkArray == old(linkArray)
    {
      ghost var before := routeMap.Keys;
      heap := FollowOne(elem, pathNode, k, heap1);
      GrownTwice(nodes, heap0, before, heap1, routeMap.Keys, heap);
    }

    method FollowOne(elem: SetElem, pathNode: Route, k: nat, heap0: multiset<SetElem>) returns (heap: multiset<SetElem>)
      requires Following(elem, pathNode, k) && HeapOk(heap0) && k < |linkArray[elem.iD]|
      modifies this`routeMap, this`paths
      ensures Following(elem, pathNode, k + 1) && HeapAhead(old(routeMap).Keys, heap0, heap)
    {
      label Before:
      heap := FollowEdge(elem, pathNode, linkArray[elem.iD][k], heap0);
      assert LabelOk(elem.iD, elem.idx) && old(IsPerm(elem.iD, elem.idx));
      StillClosedBut@Before(elem);
      StillDone@Before((elem.iD, elem.idx, k));
      OneMoreDone(elem.iD, elem.idx, k);
    }

    lemma OneMoreDone(n: NodeId, i: nat, k: nat)
      requires DoneUpTo(n, i, k) && k < |linkArray[n]| && EdgeDone(n, routeMap[n][i].cost, k)
      ensures DoneUpTo(n, i, k + 1)
    {
      forall j: nat | j < k + 1 ensures EdgeDone(n, routeMap[n][i].cost, j) {
        assert j < k ==> linkArray[n][j] == linkArray[n][j];
      }
    }

    // ---- making a label permanent ----

    // The route of a label is recorded that is about to become permanent.
    ghost predicate RecordedAhead(e: SetElem)
      reads this`routeMap, this`kRoutesMap, this`paths, this`rootNode
    {
      && IsLabel(e.iD, e.idx) && e.iD != rootNode && routeMap[e.iD][e.idx].stateLabel == Tent
      && (forall n {:trigger NodeRecorded(n)} | n != rootNode && n != e.iD :: NodeRecorded(n))
      && Recordings(e.iD) == PermTotal(e.iD) + 1 && LabelRecorded(e.iD, e.idx)
      && (forall n: NodeId, i: nat {:trigger LabelRecorded(n, i)} | n != rootNode && IsPerm(n, i) ::
           LabelRecorded(n, i))
    }

    twostate lemma RecordedAfter(e: SetElem)
      requires old(RecordedAhead(e)) && rootNode == old(rootNode) && paths == old(paths)
        && kRoutesMap == old(kRoutesMap)
      requires routeMap
        == old(routeMap)[e.iD := old(routeMap)[e.iD][e.idx := old(routeMap)[e.iD][e.idx].(stateLabel := Perm)]]
      ensures Recorded()
    {
      var labels := old(routeMap)[e.iD];
      PermCountOfUpdate(labels, e.idx, labels[e.idx].(stateLabel := Perm));
      forall m: NodeId | m != rootNode ensures NodeRecorded(m) {
        assert m != e.iD ==> old(NodeRecorded(m));
      }
      forall m: NodeId, j: nat | m != rootNode && IsPerm(m, j) ensures LabelRecorded(m, j) {
        assert old(LabelRecorded(m, j)) by {
          assert (m, j) == (e.iD, e.idx) || old(IsPerm(m, j));
        }
      }
    }

    twostate lemma SettledAfter(e: SetElem)
      requires old(SettledOk()) && old(IsLabel(e.iD, e.idx)) && e.iD != rootNode && e.idx < kLimit
      requires rootNode == old(rootNode) && linkArray == old(linkArray) && kLimit == old(kLimit)
      requires routeMap
        == old(routeMap)[e.iD := old(routeMap)[e.iD][e.idx := old(routeMap)[e.iD][e.idx].(stateLabel := Perm)]]
      requires settled == old(settled) + {(e.iD, e.idx)}
      ensures SettledOk()
    {
      forall n: NodeId, i: nat | n != rootNode ensures (n, i) in settled <==> IsPerm(n, i) {
        assert (n, i) in old(settled) <==> old(IsPerm(n, i));
      }
    }

    // The labels are there as before, at their costs.
    twostate predicate SameLabels()
      reads this
    {
      forall n, i {:trigger IsLabel(n, i)} {:trigger old(IsLabel(n, i))} ::
        && (IsLabel(n, i) <==> old(IsLabel(n, i)))
        && (IsLabel(n, i) && old(IsLabel(n, i)) ==> routeMap[n][i].cost == old(routeMap)[n][i].cost)
    }

    method Promote(elem: SetElem)
      requires kLimit > 0 && Vectors() && Labels() && Routes() && SettledOk() && RecordedAhead(elem)
      requires Costed() && Affordables()
      modifies this`routeMap, this`settled
      ensures Inv() && IsPerm(elem.iD, elem.idx)
      ensures settled == old(settled) + {(elem.iD, elem.idx)} && (elem.iD, elem.idx) !in old(settled)
      ensures SameLabels()
      ensures routeMap.Keys == old(routeMap).Keys
    {
      label Before:
      assert !IsPerm(elem.iD, elem.idx);
      MakeSettled(elem.iD, elem.idx);
      StillCosted@Before(elem);
      RecordedAfter@Before(elem);
      SettledAfter@Before(elem);
    }

    twostate lemma StillCosted(e: SetElem)
      requires old(Costed()) && old(Affordables()) && old(IsLabel(e.iD, e.idx)) && paths == old(paths)
      requires rootNode == old(rootNode) && linkArray == old(linkArray) && limitsData == old(limitsData)
        && kRoutesMap == old(kRoutesMap)
      requires routeMap
        == old(routeMap)[e.iD := old(routeMap)[e.iD][e.idx := old(routeMap)[e.iD][e.idx].(stateLabel := Perm)]]
      ensures Costed() && Affordables()
    {
      forall n: NodeId, i: nat | IsLabel(n, i) ensures LabelCost(n, i) {
        assert old(LabelCost(n, i));
      }
      forall n: NodeId, j: nat ensures RouteCost(n, j) {
        assert old(RouteCost(n, j));
      }
    }

    method MakeSettled(n: NodeId, i: nat)
      requires Vectors() && Labels() && Routes() && IsLabel(n, i)
      modifies this`routeMap, this`settled
      ensures Vectors() && Labels() && Routes() && IsPerm(n, i) && settled == old(settled) + {(n, i)}
      ensures routeMap == old(routeMap)[n := old(routeMap)[n][i := old(routeMap)[n][i].(stateLabel := Perm)]]
      ensures SameLabels()
    {
      MakePermanent(n, i);
      settled := settled + {(n, i)};
    }

    // The route of a tentative label, recorded if it is new; there is room for it.
    method Record(elem: SetElem) returns (pathNode: Route, routeExist: bool)
      requires Inv() && IsLabel(elem.iD, elem.idx) && elem.iD != rootNode
        && routeMap[elem.iD][elem.idx].stateLabel == Tent
      modifies this`kRoutesMap
      ensures LabelOk(elem.iD, elem.idx) && paths[(elem.iD, elem.idx)] == pathNode && Routes()
      ensures Affordables()
      ensures routeExist ==> kRoutesMap == old(kRoutesMap) && elem.iD in kRoutesMap
      ensures !routeExist ==> RecordedAhead(elem) && kRoutesMap.Keys == old(kRoutesMap).Keys + {elem.iD}
    {
      pathNode := TraceRoute(elem.iD, elem.idx);
      RoomIsLeft(elem.iD, elem.idx);
      routeExist := AddRouteOf(elem, pathNode);
    }

    method AddRouteOf(elem: SetElem, pathNode: Route) returns (routeExist: bool)
      requires Routes() && Affordables() && Recorded() && Costed() && kLimit > 0 && Recordings(elem.iD) < kLimit
      requires LabelOk(elem.iD, elem.idx) && paths[(elem.iD, elem.idx)] == pathNode && elem.iD != rootNode
        && routeMap[elem.iD][elem.idx].stateLabel == Tent
      modifies this`kRoutesMap
      ensures Routes() && Affordables()
      ensures routeExist ==> kRoutesMap == old(kRoutesMap) && elem.iD in kRoutesMap
      ensures !routeExist ==> RecordedAhead(elem) && kRoutesMap.Keys == old(kRoutesMap).Keys + {elem.iD}
    {
      label Before:
      routeExist := AddRoute(elem.iD, pathNode);
      if !routeExist {
        OneRouteMore@Before(elem);
      }
    }

    // RecordRoute, where there is room.
    method AddRoute(n: NodeId, pathNode: Route) returns (routeExist: bool)
      requires Routes() && RouteOk(n, pathNode) && kLimit > 0 && Recordings(n) < kLimit
      modifies this`kRoutesMap
      ensures Routes()
      ensures routeExist ==> kRoutesMap == old(kRoutesMap) && n in kRoutesMap
      ensures !routeExist ==>
        kRoutesMap == old(kRoutesMap)[n := (if n in old(kRoutesMap) then old(kRoutesMap)[n] else []) + [pathNode]]
    {
      assert [] + [pathNode] == [pathNode];
      routeExist := RecordRoute(n, pathNode);
    }

    // A node with a tentative label has less than K routes.
    lemma RoomIsLeft(n: NodeId, i: nat)
      requires Inv() && IsLabel(n, i) && n != rootNode && routeMap[n][i].stateLabel == Tent
      ensures Recordings(n) < kLimit
    {
      PermCountBelow(routeMap[n], i);
      assert NodeRecorded(n) && |routeMap[n]| <= kLimit;
    }

    twostate lemma OneAffordableMore(elem: SetElem)
      requires old(Affordables()) && Costed() && IsLabel(elem.iD, elem.idx) && elem.iD != rootNode
      requires rootNode == old(rootNode) && linkArray == old(linkArray) && limitsData == old(limitsData)
      requires (elem.iD, elem.idx) in paths && kRoutesMap == old(kRoutesMap)[elem.iD :=
        (if elem.iD in old(kRoutesMap) then old(kRoutesMap)[elem.iD] else []) + [paths[(elem.iD, elem.idx)]]]
      ensures Affordables()
    {
      assert LabelCost(elem.iD, elem.idx);
      assert Affordable(paths[(elem.iD, elem.idx)]);
      forall n: NodeId, j: nat ensures RouteCost(n, j) {
        assert old(RouteCost(n, j));
      }
    }

    // One more route of a node, for a label that is not permanent yet.
    twostate lemma OneRouteMore(elem: SetElem)
      requires old(Affordables()) && old(Recorded()) && Costed() && paths == old(paths) && rootNode == old(rootNode)
        && routeMap == old(routeMap)
      requires linkArray == old(linkArray) && limitsData == old(limitsData)
      requires elem.iD != rootNode && IsLabel(elem.iD, elem.idx)
      requires LabelOk(elem.iD, elem.idx) && routeMap[elem.iD][elem.idx].stateLabel == Tent
      requires kRoutesMap == old(kRoutesMap)[elem.iD :=
        (if elem.iD in old(kRoutesMap) then old(kRoutesMap)[elem.iD] else []) + [paths[(elem.iD, elem.idx)]]]
      ensures RecordedAhead(elem) && Affordables()
    {
      OneAffordableMore(elem);
      assert old(NodeRecorded(elem.iD));
      forall n | n != rootNode && n != elem.iD ensures NodeRecorded(n) {
        assert old(NodeRecorded(n));
      }
      forall n: NodeId, i: nat | n != rootNode && IsPerm(n, i) ensures LabelRecorded(n, i) {
        assert old(LabelRecorded(n, i));
      }
    }

    // If the route is new, the label becomes permanent.
    method Settle(elem: SetElem) returns (pathNode: Route, routeExist: bool)
      requires Inv() && IsLabel(elem.iD, elem.idx) && elem.iD != rootNode
        && routeMap[elem.iD][elem.idx].stateLabel == Tent
      modifies this`routeMap, this`kRoutesMap, this`settled
      ensures Inv()
      ensures routeExist ==>
        routeMap == old(routeMap) && settled == old(settled) && kRoutesMap == old(kRoutesMap) && elem.iD in kRoutesMap
      ensures !routeExist ==> kRoutesMap.Keys == old(kRoutesMap).Keys + {elem.iD} && routeMap.Keys == old(routeMap).Keys
      ensures !routeExist ==> settled == old(settled) + {(elem.iD, elem.idx)} && (elem.iD, elem.idx) !in old(settled)
      ensures !routeExist ==>
        IsPerm(elem.iD, elem.idx) && LabelOk(elem.iD, elem.idx) && paths[(elem.iD, elem.idx)] == pathNode
      ensures SameLabels()
    {
      pathNode, routeExist := Record(elem);
      if !routeExist {
        Promote(elem);
      }
    }

    // ---- the run ----

    // The root is in the heap only at the start, alone.
    ghost predicate RootOnce(heap: multiset<SetElem>)
      reads this`rootNode, this`settled
    {
      forall e | e in heap :: e.iD == rootNode ==> |heap| == 1 && e.idx == 0 && (rootNode, 0) !in settled
    }

    // Every labelled node has a recorded route, or a label in the heap; but for the node being processed.
    ghost predicate Waiting(heap: multiset<SetElem>, but: NodeId)
      reads this`routeMap, this`kRoutesMap, this`rootNode
    {
      forall n {:trigger n in routeMap} | n in routeMap && n != rootNode && n != but ::
        n in kRoutesMap || InHeap(heap, n)
    }

    // Process the element taken from the heap. A label that is permanent already, or whose route is known, is
    // passed over.
    // Some label stays permanent for good, or the heap is left as it is.
    method Step(elem: SetElem, heap0: multiset<SetElem>) returns (heap: multiset<SetElem>, outcome: Outcome)
      requires Inv() && HeapOk(heap0) && IsLabel(elem.iD, elem.idx)
      requires elem.iD == rootNode ==> elem.idx == 0 && (rootNode, 0) !in settled
      requires elem.iD != rootNode ==> (rootNode, 0) in settled
      requires forall e | e in heap0 :: e.iD != rootNode
      requires Waiting(heap0, elem.iD) && Closed()
      modifies this`routeMap, this`paths, this`kRoutesMap, this`settled
      ensures Inv() && HeapOk(heap) && (forall e | e in heap :: e.iD != rootNode) && (rootNode, 0) in settled
      ensures (heap == heap0 && settled == old(settled)) || old(settled) < settled
      ensures outcome == Done || (outcome == LinkNotFound && elem.iD !in linkArray)
      ensures outcome == Done ==> forall n | n in kRoutesMap :: n in old(kRoutesMap) || n in linkArray
      ensures outcome == LinkNotFound && elem.iD != rootNode ==> elem.iD in kRoutesMap
      ensures outcome == Done ==> Waiting(heap, rootNode) && Closed()
    {
      heap, outcome := heap0, Done;
      var skip, pathNode := TakeUpNext(elem, heap0);
      if skip {
        return;
      }
      if elem.iD !in linkArray {
        outcome := LinkNotFound;
        return;
      }
      heap := Expand(elem, pathNode, heap);
    }

    // TakeUp, with no node left behind.
    method TakeUpNext(elem: SetElem, ghost heap0: multiset<SetElem>) returns (skip: bool, pathNode: Route)
      requires Inv() && IsLabel(elem.iD, elem.idx)
      requires if elem.iD == rootNode then elem.idx == 0 && (rootNode, 0) !in settled else (rootNode, 0) in settled
      requires HeapOk(heap0) && Waiting(heap0, elem.iD) && Closed()
      modifies this`routeMap, this`kRoutesMap, this`settled
      ensures Inv() && HeapOk(heap0) && (rootNode, 0) in settled
      ensures forall n | n in kRoutesMap :: n in old(kRoutesMap) || n == elem.iD
      ensures elem.iD == rootNode || elem.iD in kRoutesMap
      ensures if skip then elem.iD != rootNode && kRoutesMap == old(kRoutesMap) && settled == old(settled)
        else old(settled) < settled
      ensures !skip ==>
        IsPerm(elem.iD, elem.idx) && LabelOk(elem.iD, elem.idx) && paths[(elem.iD, elem.idx)] == pathNode
      ensures skip ==> Waiting(heap0, rootNode) && Closed()
      ensures !skip ==> Waiting(heap0, elem.iD) && ClosedBut(elem.iD, elem.idx)
    {
      label Before:
      skip, pathNode := TakeUp(elem);
      assert old(kRoutesMap).Keys <= kRoutesMap.Keys <= old(kRoutesMap).Keys + {elem.iD};
      StillWaiting@Before((heap0, elem.iD));
      ClosedButOne@Before(elem);
    }

    // Making a label permanent leaves no node behind.
    twostate lemma StillWaiting(a: (multiset<SetElem>, NodeId))
      requires routeMap.Keys == old(routeMap).Keys && rootNode == old(rootNode)
      requires old(kRoutesMap).Keys <= kRoutesMap.Keys <= old(kRoutesMap).Keys + {a.1}
      ensures forall n | n in kRoutesMap :: n in old(kRoutesMap) || n == a.1
      ensures old(Waiting(a.0, a.1)) ==> Waiting(a.0, a.1)
    {
      assert forall n :: n in kRoutesMap <==> n in kRoutesMap.Keys;
      assert forall n :: n in old(kRoutesMap) <==> n in old(kRoutesMap).Keys;
      if old(Waiting(a.0, a.1)) {
        forall n | n in routeMap && n != rootNode && n != a.1 ensures n in kRoutesMap || InHeap(a.0, n) {
          assert n in old(routeMap).Keys;
        }
      }
    }

    // And every other label as closed as it was.
    twostate lemma ClosedButOne(elem: SetElem)
      requires old(Closed()) && SameLabels() && routeMap.Keys == old(routeMap).Keys && linkArray == old(linkArray)
        && limitsData == old(limitsData)
      requires settled == old(settled) || settled == old(settled) + {(elem.iD, elem.idx)}
      ensures if settled == old(settled) then Closed() else ClosedBut(elem.iD, elem.idx)
    {
      forall m: NodeId, j: nat | (m, j) in old(settled) ensures ClosedAt(m, j) {
        assert old(ClosedAt(m, j)) && IsLabel(m, j);
        forall k: nat | k < |linkArray[m]| ensures EdgeDone(m, routeMap[m][j].cost, k) {
          assert old(EdgeDone(m, routeMap[m][j].cost, k));
          assert linkArray[m][k].lastNode in old(routeMap).Keys <==> linkArray[m][k].lastNode in routeMap.Keys;
        }
      }
    }

    // Make the label permanent, unless it is or its route is known.
    method TakeUp(elem: SetElem) returns (skip: bool, pathNode: Route)
      requires Inv() && IsLabel(elem.iD, elem.idx)
      requires if elem.iD == rootNode then elem.idx == 0 && (rootNode, 0) !in settled else (rootNode, 0) in settled
      modifies this`routeMap, this`kRoutesMap, this`settled
      ensures Inv() && routeMap.Keys == old(routeMap).Keys && (rootNode, 0) in settled
      ensures skip ==>
        elem.iD != rootNode && elem.iD in kRoutesMap && kRoutesMap == old(kRoutesMap) && settled == old(settled)
      ensures !skip ==>
        old(settled) < settled && settled == old(settled) + {(elem.iD, elem.idx)}
          && IsPerm(elem.iD, elem.idx) && LabelOk(elem.iD, elem.idx) && paths[(elem.iD, elem.idx)] == pathNode
      ensures !skip ==> kRoutesMap.Keys == old(kRoutesMap).Keys + if elem.iD == rootNode then {} else {elem.iD}
      ensures SameLabels()
    {
      assert LabelOk(elem.iD, elem.idx);
      skip, pathNode := false, [];
      if elem.iD == rootNode {
        SettleRoot();
      } else if routeMap[elem.iD][elem.idx].stateLabel == Perm {
        assert LabelRecorded(elem.iD, elem.idx);
        skip := true;
      } else {
        pathNode, skip := Settle(elem);
        assert !skip ==> (elem.iD, elem.idx) in settled;
      }
    }

    // Follow the edges of a label that has become permanent.
    method Expand(elem: SetElem, pathNode: Route, heap0: multiset<SetElem>) returns (heap: multiset<SetElem>)
      requires Inv() && HeapOk(heap0) && elem.iD in linkArray && (elem.iD == rootNode || elem.iD in kRoutesMap)
      requires IsPerm(elem.iD, elem.idx) && LabelOk(elem.iD, elem.idx) && paths[(elem.iD, elem.idx)] == pathNode
      requires Waiting(heap0, elem.iD) && ClosedBut(elem.iD, elem.idx)
      modifies this`routeMap, this`paths
      ensures Inv() && HeapOk(heap) && forall e | e in heap :: e in heap0 || e.iD != rootNode
      ensures Waiting(heap, rootNode) && Closed()
    {
      heap := FollowEdges(elem, pathNode, heap0);
      forall n | n in routeMap && n != rootNode ensures n in kRoutesMap || InHeap(heap, n) {
        assert n in old(routeMap).Keys || InHeap(heap, n);
      }
    }

    ghost method SettleRoot()
      requires Inv() && (rootNode, 0) !in settled
      modifies this`settled
      ensures Inv() && settled == old(settled) + {(rootNode, 0)}
    {
      settled := settled + {(rootNode, 0)};
    }

    // K permanent labels for the root.
    method InitRoot()
      requires Vectors()
      modifies this`routeMap, this`kRoutesMap, this`paths, this`settled
      ensures kRoutesMap == map[] && settled == {}
      ensures kLimit > 0 ==> Inv() && IsLabel(rootNode, 0) && routeMap.Keys == {rootNode}
      ensures kLimit <= 0 ==> rootNode !in routeMap
    {
      routeMap, kRoutesMap, paths, settled := map[], map[], map[], {};
      var i := 0;
      while i < kLimit
        modifies this`routeMap, this`paths
        invariant 0 <= i && (kLimit > 0 ==> i <= kLimit) && (kLimit <= 0 ==> i == 0)
        invariant if i == 0 then routeMap == map[] else routeMap.Keys == {rootNode} && |routeMap[rootNode]| == i
        invariant forall j: nat | j < i ::
          routeMap[rootNode][j] == State(minimumCost, 0, -1, Perm) && (rootNode, j) in paths
            && paths[(rootNode, j)] == []
      {
        var labels := if rootNode in routeMap then routeMap[rootNode] else [];
        routeMap := routeMap[rootNode := labels + [State(minimumCost, 0, -1, Perm)]];
        paths := paths[(rootNode, i) := []];
        i := i + 1;
      }
      if kLimit > 0 {
        OnlyRoot();
      }
    }

    lemma OnlyRoot()
      requires kLimit > 0 && Vectors() && kRoutesMap == map[] && settled == {}
      requires routeMap.Keys == {rootNode} && |routeMap[rootNode]| == kLimit
      requires forall j: nat | j < kLimit ::
        routeMap[rootNode][j] == State(minimumCost, 0, -1, Perm) && (rootNode, j) in paths && paths[(rootNode, j)] == []
      ensures Inv() && IsLabel(rootNode, 0)
    {
      assert forall n | n in routeMap :: n in routeMap.Keys;
      forall n: NodeId, j: nat | IsLabel(n, j) ensures LabelOk(n, j) {
        assert n == rootNode;
      }
    }

    // Whatever element the heap yields first, the run ends. Every node then has at most K different routes,
    // each a loop-free path of edges from the root, and these are the routes of its permanent labels.
    // Each edge of a permanent label leads to a node with a route, unless beyond a limit; if no loop-free path goes
    // beyond one, as without limits, every node that the root reaches has a route.
    method Run() returns (outcome: Outcome)
      requires Vectors()
      modifies this`routeMap, this`kRoutesMap, this`paths, this`settled
      ensures Routes() && Affordables()
      ensures outcome == RootNotFound <==> rootNode !in linkArray
      ensures outcome == NodeNotInRouteMap <==> rootNode in linkArray && kLimit <= 0
      ensures outcome == LinkNotFound <==>
        rootNode in linkArray && kLimit > 0 && !(kRoutesMap.Keys <= linkArray.Keys)
      ensures NothingExceeds() ==> (outcome == LinkNotFound <==>
        rootNode in linkArray && kLimit > 0 && exists n, r :: RouteOk(n, r) && n !in linkArray)
      ensures rootNode in linkArray && kLimit > 0 && Nodes() <= linkArray.Keys ==> outcome == Done
      ensures outcome == Done ==> Inv() && Covered()
      ensures outcome == Done && NothingExceeds() ==>
        forall n, r {:trigger RouteOk(n, r)} | RouteOk(n, r) :: n in kRoutesMap && kRoutesMap[n] != []
    {
      InitRoot();
      if rootNode !in linkArray {
        return RootNotFound;
      }
      if rootNode !in routeMap {
        return NodeNotInRouteMap;
      }
      var heap := multiset{SetElem(rootNode, 0, minimumCost)};
      while heap != multiset{}
        invariant Inv() && HeapOk(heap) && RootOnce(heap)
        invariant (rootNode, 0) !in settled ==> heap == multiset{SetElem(rootNode, 0, minimumCost)}
        invariant Waiting(heap, rootNode) && Closed()
        invariant forall n | n in kRoutesMap :: n in linkArray
        decreases AllLabels() - settled, |heap|
      {
        ghost var n;
        heap, outcome, n := TakeOut(heap);
        if outcome != Done {
          MissingLinks(n);
          return;
        }
      }
      outcome := Done;
      EdgesAreCovered();
      if NothingExceeds() {
        AllReachedAreRecorded();
      }
    }

    // Each edge of a permanent label leads to a node with a route, back to the root, or beyond a limit.
    ghost predicate Covered()
      reads this`linkArray, this`routeMap, this`kRoutesMap, this`limitsData, this`rootNode
    {
      forall n: NodeId, i: nat, k: nat {:trigger IsPerm(n, i), linkArray[n][k]} |
        IsPerm(n, i) && (n == rootNode ==> i == 0) && n in linkArray && k < |linkArray[n]| ::
        var edge := linkArray[n][k];
        edge.lastNode == rootNode || edge.lastNode in kRoutesMap || Exceeds(routeMap[n][i].cost, edge.cost)
    }

    lemma EdgesAreCovered()
      requires Inv() && Waiting(multiset{}, rootNode) && Closed() && (rootNode, 0) in settled
      ensures Covered()
    {
      forall n: NodeId, i: nat, k: nat | IsPerm(n, i) && (n == rootNode ==> i == 0) && n in linkArray
        && k < |linkArray[n]|
        ensures var edge := linkArray[n][k];
          edge.lastNode == rootNode || edge.lastNode in kRoutesMap || Exceeds(routeMap[n][i].cost, edge.cost)
      {
        assert (n, i) in settled && ClosedAt(n, i);
        assert EdgeDone(n, routeMap[n][i].cost, k);
        assert !InHeap(multiset{}, linkArray[n][k].lastNode);
      }
    }

    lemma AllReachedAreRecorded()
      requires NothingExceeds() && Covered()
      requires Inv() && Waiting(multiset{}, rootNode) && Closed() && (rootNode, 0) in settled
      ensures forall n, r {:trigger RouteOk(n, r)} | RouteOk(n, r) :: n in kRoutesMap && kRoutesMap[n] != []
    {
      forall n, r | RouteOk(n, r) ensures n in kRoutesMap && kRoutesMap[n] != [] {
        RouteEndIsRecorded(n, r, |r| - 1);
      }
    }

    // One turn of the loop. Which element the heap yields is left open.
    method TakeOut(heap0: multiset<SetElem>) returns (heap: multiset<SetElem>, outcome: Outcome, ghost n: NodeId)
      requires heap0 != multiset{} && Inv() && HeapOk(heap0) && RootOnce(heap0)
      requires (rootNode, 0) !in settled ==> heap0 == multiset{SetElem(rootNode, 0, minimumCost)}
      requires Waiting(heap0, rootNode) && Closed()
      requires rootNode in linkArray && forall n | n in kRoutesMap :: n in linkArray
      modifies this`routeMap, this`paths, this`kRoutesMap, this`settled
      ensures Inv() && HeapOk(heap) && RootOnce(heap) && (rootNode, 0) in settled
      ensures old(settled) < settled ==> AllLabels() - settled < AllLabels() - old(settled)
      ensures old(settled) < settled || (settled == old(settled) && |heap| < |heap0|)
      ensures outcome == Done || outcome == LinkNotFound
      ensures outcome == Done ==> forall n | n in kRoutesMap :: n in linkArray
      ensures outcome == Done ==> Waiting(heap, rootNode) && Closed()
      ensures outcome == LinkNotFound ==> n in kRoutesMap && n !in linkArray
    {
      var elem :| elem in heap0;
      var rest := heap0 - multiset{elem};
      ElementOut(heap0, elem);
      n := elem.iD;
      heap, outcome := Step(elem, rest);
      if old(settled) < settled {
        FewerLeft(old(settled), settled);
      }
    }

    // A node with a route but without an entry in the link array.
    lemma MissingLinks(n: NodeId)
      requires Routes() && Recorded() && SettledOk() && n in kRoutesMap && n !in linkArray
      ensures !(kRoutesMap.Keys <= linkArray.Keys) && (exists n, r :: RouteOk(n, r) && n !in linkArray)
      ensures !(Nodes() <= linkArray.Keys)
    {
      assert n in kRoutesMap.Keys;
      assert RouteOk(n, kRoutesMap[n][0]);
      if n != rootNode {
        assert NodeRecorded(n);
        assert n in routeMap.Keys;
      }
    }

    lemma ElementOut(heap: multiset<SetElem>, elem: SetElem)
      requires elem in heap && Inv() && HeapOk(heap) && RootOnce(heap) && Waiting(heap, rootNode)
      requires (rootNode, 0) !in settled ==> heap == multiset{SetElem(rootNode, 0, minimumCost)}
      ensures var rest := heap - multiset{elem};
        && HeapOk(rest) && IsLabel(elem.iD, elem.idx) && |rest| < |heap| && Waiting(rest, elem.iD)
        && (forall e | e in rest :: e.iD != rootNode)
        && (if elem.iD == rootNode then elem.idx == 0 && (rootNode, 0) !in settled else (rootNode, 0) in settled)
    {
      WaitingWithout(heap, elem);
      var rest := heap - multiset{elem};
    }

    lemma FewerLeft(before: set<(NodeId, nat)>, after: set<(NodeId, nat)>)
      requires before < after <= AllLabels()
      ensures AllLabels() - after < AllLabels() - before
    {
      var l :| l in after && l !in before;
      assert l in AllLabels() - before;
    }

    lemma WaitingWithout(heap: multiset<SetElem>, elem: SetElem)
      requires elem in heap
      ensures Waiting(heap, rootNode) ==> Waiting(heap - multiset{elem}, elem.iD)
    {
      var rest := heap - multiset{elem};
      forall n | n != elem.iD && InHeap(heap, n) ensures InHeap(rest, n) {
        var e :| e in heap && e.iD == n;
        assert e in rest;
      }
    }

    // An edge from a node with a route leads to a labelled node, if no path goes beyond a limit.
    lemma EdgeIsFollowed(n: NodeId, i: nat, k: nat)
      requires Inv() && NothingExceeds() && IsPerm(n, i) && n in linkArray && k < |linkArray[n]|
      requires EdgeDone(n, routeMap[n][i].cost, k)
      ensures linkArray[n][k].lastNode in routeMap
    {
      assert LabelOk(n, i) && LabelCost(n, i);
      var next, r := linkArray[n][k].lastNode, paths[(n, i)];
      if next in r {
        PathIsLabelled(n, i);
      } else if next != rootNode {
        assert HasEdge(n, next);
        ExtendedRoute(n, r, next);
        NotBeyond(n, r, routeMap[n][i].cost, k);
      }
    }

    lemma NotBeyond(n: NodeId, r: Route, b: CostVector, k: nat)
      requires NothingExceeds() && Reached(n, r) && RouteCosts(r, b) && n in linkArray && k < |linkArray[n]|
      requires RouteOk(linkArray[n][k].lastNode, r + [linkArray[n][k].lastNode])
      ensures !Exceeds(b, linkArray[n][k].cost)
    {
      forall c | StepCost(c, b, linkArray[n][k].cost) ensures Within(c) {
        WithinToo(n, r, b, k, c);
      }
    }

    lemma WithinToo(n: NodeId, r: Route, b: CostVector, k: nat, c: CostVector)
      requires NothingExceeds() && Reached(n, r) && RouteCosts(r, b) && n in linkArray && k < |linkArray[n]|
      requires RouteOk(linkArray[n][k].lastNode, r + [linkArray[n][k].lastNode])
      requires StepCost(c, b, linkArray[n][k].cost)
      ensures Within(c)
    {
      CostOfLonger(r, n, linkArray[n][k].lastNode, c, b, linkArray[n][k]);
    }

    // A node with a route has a permanent label.
    lemma RoutePermanent(n: NodeId) returns (i: nat)
      requires Inv() && n in kRoutesMap
      ensures n != rootNode && IsPerm(n, i) && (n, i) in settled
    {
      assert RouteOk(n, kRoutesMap[n][0]);
      assert n != rootNode;
      assert NodeRecorded(n);
      i := PermExists(routeMap[n]);
    }

    // When the heap is empty, the nodes with routes are closed under edges.
    lemma {:induction false} RouteEndIsRecorded(n: NodeId, r: Route, i: nat)
      requires Inv() && Waiting(multiset{}, rootNode) && Closed() && (rootNode, 0) in settled && NothingExceeds()
      requires RouteOk(n, r) && i < |r|
      ensures r[i] in kRoutesMap && kRoutesMap[r[i]] != []
      decreases i
    {
      var m, j := rootNode, 0;
      if i > 0 {
        m := r[i - 1];
        RouteEndIsRecorded(n, r, i - 1);
        j := RoutePermanent(m);
      } else {
        assert LabelOk(m, 0);
      }
      assert HasEdge(m, r[i]) && ClosedAt(m, j);
      var k :| 0 <= k < |linkArray[m]| && linkArray[m][k].lastNode == r[i];
      EdgeIsFollowed(m, j, k);
      assert r[i] in routeMap && r[i] != rootNode && !InHeap(multiset{}, r[i]);
    }

    // The route of label k of a node.
    method GetRoute(nodeId: NodeId, k: nat) returns (found: bool, pathNode: Route)
      requires Inv()
      ensures found <==> IsLabel(nodeId, k)
      ensures found && nodeId != rootNode ==> RouteOk(nodeId, pathNode)
      ensures found && nodeId == rootNode ==> pathNode == []
    {
      if nodeId !in routeMap || k >= |routeMap[nodeId]| {
        return false, [];
      }
      found := true;
      pathNode := TraceRoute(nodeId, k);
    }
  }
}
