// A red-black tree of intervals: insertion, deletion, and the query for all intervals that overlap a given one.
module IntervalTrees {
  import opened Common

  // Simulation times, as raw 64-bit tick counts.
  const MAX_TIME: int := 0x7fff_ffff_ffff_ffff
  type SimTime = t: int | -MAX_TIME <= t <= MAX_TIME

  function Max(a: SimTime, b: SimTime): SimTime { if a < b then b else a }

  lemma MaxRegroups(a: SimTime, l: SimTime, y: SimTime, b: SimTime, c: SimTime)
    ensures Max(a, Max(l, Max(y, Max(b, c)))) == Max(y, Max(Max(a, Max(l, b)), c))
    ensures Max(a, Max(Max(y, Max(c, b)), l)) == Max(y, Max(Max(a, Max(l, b)), c))
  {
  }

  // The interval [low, high]. The tree stores interval objects, so two equal intervals stay distinct.
  class Interval {
    const low: SimTime
    const high: SimTime

    constructor (low: SimTime, high: SimTime)
      ensures this.low == low && this.high == high
    {
      this.low, this.high := low, high;
    }
  }

  class Node {
    const interval: Interval?
    const key: SimTime
    const high: SimTime
    var maxHigh: SimTime
    var red: bool
    var left: Node
    var right: Node
    var parent: Node
    ghost var span: seq<Node>   // the nodes of the subtree rooted here, in order
    ghost var bh: nat           // black nodes on any path from a child of this node down to nil

    // A sentinel: its key, high and maxHigh are all `bound`.
    constructor Sentinel(bound: SimTime)
      ensures interval == null && key == high == maxHigh == bound && !red
      ensures left == right == parent == this && span == [] && bh == 0
    {
      interval, key, high, maxHigh, red := null, bound, bound, bound, false;
      left, right, parent, span, bh := this, this, this, [], 0;
    }

    constructor (ivl: Interval)
      ensures interval == ivl && key == ivl.low && high == maxHigh == ivl.high && !red
      ensures left == right == parent == this && span == [] && bh == 0
    {
      interval, key, high, maxHigh, red := ivl, ivl.low, ivl.high, ivl.high, false;
      left, right, parent, span, bh := this, this, this, [], 0;
    }
  }

  // it_recursion_node: a node whose left branch is being searched, and whether to come back for the right one.
  datatype Frame = Frame(startNode: Node?, parentIndex: nat, tryRight: bool)

  // ---- sequences of nodes (keys never change, so these are facts about values) ----

  ghost predicate Sorted(ns: seq<Node>) {
    forall i, j | 0 <= i < j < |ns| :: ns[i].key <= ns[j].key
  }

  // a is immediately followed by b
  ghost predicate Follows(ns: seq<Node>, a: Node, b: Node) {
    exists i {:trigger ns[i]} :: 0 <= i < |ns| - 1 && ns[i] == a && ns[i + 1] == b
  }

  // z goes after every node whose key is not greater.
  ghost function Inserted(ns: seq<Node>, z: Node): seq<Node> {
    if ns == [] then [z]
    else if ns[0].key > z.key then [z] + ns
    else [ns[0]] + Inserted(ns[1..], z)
  }

  ghost function Without(ns: seq<Node>, z: Node): seq<Node> {
    if ns == [] then []
    else (if ns[0] == z then [] else [ns[0]]) + Without(ns[1..], z)
  }

  ghost function Replaced(ns: seq<Node>, z: Node, y: Node): seq<Node> {
    seq(|ns|, i requires 0 <= i < |ns| => if ns[i] == z then y else ns[i])
  }

  lemma InsertedAt(ns: seq<Node>, z: Node) returns (i: nat)
    requires Sorted(ns)
    ensures i <= |ns| && Inserted(ns, z) == ns[..i] + [z] + ns[i..]
    ensures forall k | 0 <= k < i :: ns[k].key <= z.key
    ensures forall k | i <= k < |ns| :: ns[k].key > z.key
  {
    if ns == [] || ns[0].key > z.key {
      i := 0;
    } else {
      i := InsertedAt(ns[1..], z);
      i := i + 1;
    }
  }

  lemma {:induction false} InsertedSplits(l: seq<Node>, q: Node, r: seq<Node>, z: Node)
    requires Sorted(l + [q] + r)
    ensures Inserted(l + [q] + r, z) ==
            if q.key > z.key then Inserted(l, z) + [q] + r else l + [q] + Inserted(r, z)
    decreases |l|
  {
    var s := l + [q] + r;
    if l == [] {
      assert s[1..] == r;
      assert q.key > z.key ==> [z] + s == Inserted(l, z) + [q] + r;
    } else {
      assert s[0] == l[0] && s[|l|] == q && l[0].key <= q.key;
      if l[0].key > z.key {
        assert [z] + s == [z] + l + [q] + r;
      } else {
        var t := l[1..] + [q] + r;
        assert s[1..] == t;
        InsertedSplits(l[1..], q, r, z);
        assert q.key > z.key ==> [l[0]] + (Inserted(l[1..], z) + [q] + r) == ([l[0]] + Inserted(l[1..], z)) + [q] + r;
        assert [l[0]] + (l[1..] + [q] + Inserted(r, z)) == l + [q] + Inserted(r, z);
      }
    }
  }

  lemma WithoutSplits(a: seq<Node>, b: seq<Node>, z: Node)
    ensures Without(a + b, z) == Without(a, z) + Without(b, z)
  {
    if a == [] {
      assert a + b == b;
    } else {
      assert (a + b)[1..] == a[1..] + b;
      WithoutSplits(a[1..], b, z);
    }
  }

  lemma WithoutAbsent(ns: seq<Node>, z: Node)
    requires z !in ns
    ensures Without(ns, z) == ns
  {
    if ns != [] {
      WithoutAbsent(ns[1..], z);
    }
  }

  lemma Subsorted(l: seq<Node>, q: Node, r: seq<Node>)
    requires Sorted(l + [q] + r)
    ensures Sorted(l) && Sorted(r)
  {
    var s := l + [q] + r;
    assert forall i | 0 <= i < |l| :: l[i] == s[i];
    assert forall i | 0 <= i < |r| :: r[i] == s[|l| + 1 + i];
  }

  lemma {:induction false} InsertedHas(ns: seq<Node>, z: Node)
    ensures forall n :: n in Inserted(ns, z) <==> n in ns || n == z
  {
    if ns != [] {
      InsertedHas(ns[1..], z);
      assert forall n :: n in ns <==> n == ns[0] || n in ns[1..];
    }
  }

  lemma InsertedKeeps(ns: seq<Node>, z: Node)
    requires Sorted(ns) && Distinct(ns) && z !in ns
    ensures Sorted(Inserted(ns, z)) && Distinct(Inserted(ns, z))
  {
    var i := InsertedAt(ns, z);
    PutIsSorted(ns, i, z);
    PutIsDistinct(ns, i, z);
  }

  lemma PutIsSorted(ns: seq<Node>, i: nat, z: Node)
    requires Sorted(ns) && i <= |ns|
    requires (forall k | 0 <= k < i :: ns[k].key <= z.key) && (forall k | i <= k < |ns| :: z.key <= ns[k].key)
    ensures Sorted(ns[..i] + [z] + ns[i..])
  {
    var s := ns[..i] + [z] + ns[i..];
    assert forall k | 0 <= k < |s| :: s[k] == if k < i then ns[k] else if k == i then z else ns[k - 1];
  }

  lemma PutIsDistinct(ns: seq<Node>, i: nat, z: Node)
    requires Distinct(ns) && z !in ns && i <= |ns|
    ensures Distinct(ns[..i] + [z] + ns[i..])
  {
    var s := ns[..i] + [z] + ns[i..];
    assert forall k | 0 <= k < |s| :: s[k] == if k < i then ns[k] else if k == i then z else ns[k - 1];
  }

  lemma WithoutMiddle(l: seq<Node>, n: Node, r: seq<Node>, y: Node)
    ensures Without(l + [n] + r, y) == Without(l, y) + (if n == y then [] else [n]) + Without(r, y)
  {
    WithoutSplits(l + [n], r, y);
    WithoutSplits(l, [n], y);
  }

  lemma ReplacedMiddle(l: seq<Node>, n: Node, r: seq<Node>, z: Node, y: Node)
    ensures Replaced(l + [n] + r, z, y) == Replaced(l, z, y) + [if n == z then y else n] + Replaced(r, z, y)
  {
  }

  lemma ReplacedHas(ns: seq<Node>, z: Node, y: Node, q: Node)
    requires q in ns
    ensures (if q == z then y else q) in Replaced(ns, z, y)
  {
    var k :| 0 <= k < |ns| && ns[k] == q;
    assert Replaced(ns, z, y)[k] == if q == z then y else q;
  }

  lemma {:induction false} WithoutAt(ns: seq<Node>, i: nat)
    requires Distinct(ns) && i < |ns|
    ensures Without(ns, ns[i]) == ns[..i] + ns[i + 1..]
  {
    var tail := ns[1..];
    assert forall k | 0 <= k < |tail| :: tail[k] == ns[k + 1];
    if i == 0 {
      assert ns[0] !in tail;
      WithoutAbsent(tail, ns[0]);
    } else {
      WithoutAt(tail, i - 1);
      assert ns[..i] + ns[i + 1..] == [ns[0]] + (tail[..i - 1] + tail[i..]);
    }
  }

  // Taking out the successor and then putting it in z's place is the same as taking out z.
  lemma ReplacedSuccessor(ns: seq<Node>, z: Node, y: Node)
    requires Distinct(ns) && Follows(ns, z, y)
    ensures Replaced(Without(ns, y), z, y) == Without(ns, z)
  {
    var i :| 0 <= i < |ns| - 1 && ns[i] == z && ns[i + 1] == y;
    WithoutAt(ns, i);
    WithoutAt(ns, i + 1);
    var s, t := ns[..i + 1] + ns[i + 2..], ns[..i] + ns[i + 1..];
    forall k | 0 <= k < |s| ensures (if s[k] == z then y else s[k]) == t[k] {
      if k < i {
        assert s[k] == ns[k] != ns[i];
      } else if k > i {
        assert s[k] == ns[k + 1] != ns[i];
      }
    }
  }

  lemma {:induction false} WithoutContents(ns: seq<Node>, z: Node)
    ensures forall n :: n in Without(ns, z) <==> n in ns && n != z
  {
    if ns != [] {
      WithoutContents(ns[1..], z);
      assert forall n :: n in ns <==> n == ns[0] || n in ns[1..];
    }
  }

  lemma WithoutKeeps(ns: seq<Node>, z: Node)
    requires Sorted(ns) && Distinct(ns)
    ensures Sorted(Without(ns, z)) && Distinct(Without(ns, z))
  {
    if z in ns {
      var i :| 0 <= i < |ns| && ns[i] == z;
      WithoutAt(ns, i);
      var t := Without(ns, z);
      forall j, k | 0 <= j < k < |t| ensures t[j].key <= t[k].key && t[j] != t[k] {
        var j', k' := if j < i then j else j + 1, if k < i then k else k + 1;
        assert t[j] == ns[j'] && t[k] == ns[k'];
      }
    } else {
      WithoutAbsent(ns, z);
    }
  }

  // ---- overlap ----

  predicate Overlap(a1: int, a2: int, b1: int, b2: int) {
    if a1 <= b1 then b1 <= a2 else a1 <= b2
  }

  predicate Within(t: int, a: int, b: int) { a <= t <= b }

  // On proper intervals the test is right: it holds exactly when some instant lies in both.
  lemma OverlapIsSharedInstant(a1: int, a2: int, b1: int, b2: int)
    requires a1 <= a2 && b1 <= b2
    ensures Overlap(a1, a2, b1, b2) <==> exists t :: Within(t, a1, a2) && Within(t, b1, b2)
  {
    if Overlap(a1, a2, b1, b2) {
      var t := if a1 <= b1 then b1 else a1;
      assert Within(t, a1, a2) && Within(t, b1, b2);
    }
  }

  // The intervals of ns that overlap [low, high], in order.
  ghost function Hits(ns: seq<Node>, low: int, high: int): seq<Interval?> {
    if ns == [] then []
    else (if Overlap(low, high, ns[0].key, ns[0].high) then [ns[0].interval] else []) + Hits(ns[1..], low, high)
  }

  lemma {:induction false} HitsSplits(a: seq<Node>, b: seq<Node>, low: int, high: int)
    ensures Hits(a + b, low, high) == Hits(a, low, high) + Hits(b, low, high)
  {
    if a == [] {
      assert a + b == b;
    } else {
      assert (a + b)[1..] == a[1..] + b && (a + b)[0] == a[0];
      HitsSplits(a[1..], b, low, high);
      var first := if Overlap(low, high, a[0].key, a[0].high) then [a[0].interval] else [];
      assert first + (Hits(a[1..], low, high) + Hits(b, low, high))
        == (first + Hits(a[1..], low, high)) + Hits(b, low, high);
    }
  }

  lemma NoHits(ns: seq<Node>, low: int, high: int)
    requires forall n | n in ns :: !Overlap(low, high, n.key, n.high)
    ensures Hits(ns, low, high) == []
  {
    if ns != [] {
      NoHits(ns[1..], low, high);
    }
  }

  lemma NoHitsInverse(ns: seq<Node>, low: int, high: int, n: Node)
    requires Hits(ns, low, high) == [] && n in ns
    ensures !Overlap(low, high, n.key, n.high)
  {
    if ns[0] != n {
      NoHitsInverse(ns[1..], low, high, n);
    }
  }

  ghost predicate KeysFrom(ns: seq<Node>, bound: int) {
    ns == [] || (ns[0].key >= bound && KeysFrom(ns[1..], bound))
  }

  lemma {:induction false} KeysFromAll(ns: seq<Node>, bound: int)
    requires forall n | n in ns :: n.key >= bound
    ensures KeysFrom(ns, bound)
  {
    if ns != [] { KeysFromAll(ns[1..], bound); }
  }

  lemma {:induction false} KeysFromEach(ns: seq<Node>, bound: int, n: Node)
    requires KeysFrom(ns, bound) && n in ns
    ensures n.key >= bound
  {
    if n in ns[1..] { KeysFromEach(ns[1..], bound, n); }
  }

  lemma KeysFromSorted(l: seq<Node>, x: Node, r: seq<Node>, m: Node)
    requires Sorted(l + [x] + r) && m in l
    ensures KeysFrom(r, m.key)
  {
    var s := l + [x] + r;
    var i :| 0 <= i < |l| && l[i] == m;
    if r != [] {
      assert s[i] == m && s[|l| + 1] == r[0];
      assert s[..|l| + 1] + s[|l| + 2..] == l + [x] + r[1..];
      forall j, k | 0 <= j < k < |l + [x] + r[1..]| ensures (l + [x] + r[1..])[j].key <= (l + [x] + r[1..])[k].key {
        var j', k' := if j <= |l| then j else j + 1, if k <= |l| then k else k + 1;
        assert s[j'] == (l + [x] + r[1..])[j] && s[k'] == (l + [x] + r[1..])[k];
      }
      KeysFromSorted(l, x, r[1..], m);
    }
  }

  // A node m that extends to low but is no hit starts after high, and so does everything with a key from there on.
  lemma LaterKeysMiss(ns: seq<Node>, m: Node, low: int, high: int)
    requires KeysFrom(ns, m.key) && m.high >= low && !Overlap(low, high, m.key, m.high)
    ensures Hits(ns, low, high) == []
  {
    if ns != [] {
      LaterKeysMiss(ns[1..], m, low, high);
    }
  }

  // What one stack entry stands for: the nodes that a search to the left and to the right of its node can come to.
  // `reach` is a node on the left whose interval extends to the query.
  datatype Branch = Branch(left: seq<Node>, right: seq<Node>, reach: Node?)

  // Hits still to come: those in the part being searched (`pending`) and in the right branches on the stack.
  ghost function Owed(trail: seq<Branch>, pending: multiset<Interval?>, low: int, high: int): multiset<Interval?> {
    if |trail| <= 1 then pending
    else var k := |trail| - 1; Owed(trail[..k], pending + multiset(Hits(trail[k].right, low, high)), low, high)
  }

  // Why a right branch may be skipped: nothing is there, or a node on the left reaches the query and starts earlier.
  ghost predicate Prunable(b: Branch, low: int) {
    || b.right == []
    || (b.reach != null && b.reach in b.left && b.reach.high >= low && KeysFrom(b.right, b.reach.key))
  }

  // An unflagged entry has no hit in the searched part of its left branch, unless a later entry is flagged.
  ghost predicate FlagsSound(stack: seq<Frame>, trail: seq<Branch>, pending: multiset<Interval?>, later: bool,
      low: int, high: int)
    requires |stack| == |trail|
  {
    |trail| <= 1 ||
    var k := |trail| - 1;
    && Prunable(trail[k], low)
    && (later || stack[k].tryRight || pending == multiset(Hits(trail[k].left, low, high)))
    && FlagsSound(stack[..k], trail[..k], pending + multiset(Hits(trail[k].right, low, high)),
         later || stack[k].tryRight, low, high)
  }

  // Once a later entry is flagged, nothing depends on the earlier flags or on what is pending.
  lemma {:induction false} FlaggedIsSound(stack: seq<Frame>, flags: seq<Frame>, trail: seq<Branch>,
      pending: multiset<Interval?>, pending': multiset<Interval?>, later: bool, low: int, high: int)
    requires |stack| == |flags| == |trail|
    requires FlagsSound(stack, trail, pending, later, low, high)
    ensures FlagsSound(flags, trail, pending', true, low, high)
  {
    if |trail| > 1 {
      var k := |trail| - 1;
      var h := multiset(Hits(trail[k].right, low, high));
      FlaggedIsSound(stack[..k], flags[..k], trail[..k], pending + h, pending' + h,
        later || stack[k].tryRight, low, high);
    }
  }

  lemma PopFlagged(stack: seq<Frame>, trail: seq<Branch>, low: int, high: int)
    requires |stack| == |trail| > 1 && FlagsSound(stack, trail, multiset{}, false, low, high)
      && stack[|stack| - 1].tryRight
    ensures var k := |stack| - 1;
      var h := multiset(Hits(trail[k].right, low, high));
      && Owed(trail[..k], h, low, high) == Owed(trail, multiset{}, low, high)
      && FlagsSound(stack[..k][k - 1 := stack[k - 1].(tryRight := true)], trail[..k], h, false, low, high)
  {
    var k := |stack| - 1;
    var h := multiset(Hits(trail[k].right, low, high));
    assert multiset{} + h == h;
    TopFlagged(stack[..k], trail[..k], h, h, true, low, high);
  }

  // Flagging the top entry makes any pending amount acceptable.
  lemma TopFlagged(stack: seq<Frame>, trail: seq<Branch>, pending: multiset<Interval?>, pending': multiset<Interval?>,
      later: bool, low: int, high: int)
    requires |stack| == |trail| > 0 && FlagsSound(stack, trail, pending, later, low, high)
    ensures var k := |stack| - 1; FlagsSound(stack[k := stack[k].(tryRight := true)], trail, pending', false, low, high)
  {
    var k := |stack| - 1;
    if k > 0 {
      var h := multiset(Hits(trail[k].right, low, high));
      var s := stack[k := stack[k].(tryRight := true)];
      FlaggedIsSound(stack[..k], s[..k], trail[..k], pending + h, pending' + h, later || stack[k].tryRight, low, high);
    }
  }

  lemma {:induction false} PopUnflagged(stack: seq<Frame>, trail: seq<Branch>, low: int, high: int)
    requires |stack| == |trail| > 1 && FlagsSound(stack, trail, multiset{}, false, low, high)
      && !stack[|stack| - 1].tryRight
    ensures var k := |stack| - 1;
      && Owed(trail[..k], multiset{}, low, high) == Owed(trail, multiset{}, low, high)
      && FlagsSound(stack[..k], trail[..k], multiset{}, false, low, high)
  {
    var b := trail[|stack| - 1];
    assert |multiset(Hits(b.left, low, high))| == 0;
    if b.right != [] {
      NoHitsInverse(b.left, low, high, b.reach);
      LaterKeysMiss(b.right, b.reach, low, high);
    }
    assert Hits(b.right, low, high) == [];
    assert multiset{} + multiset(Hits(b.right, low, high)) == multiset{};
  }

  // Nothing is lost or counted twice: what was found and what is owed make up all hits.
  ghost predicate Accounted(stack: seq<Frame>, trail: seq<Branch>, result: seq<Interval?>, pending: multiset<Interval?>,
      all: multiset<Interval?>, low: int, high: int)
  {
    |stack| == |trail| && multiset(result) + Owed(trail, pending, low, high) == all
    && FlagsSound(stack, trail, pending, false, low, high)
  }

  // The stack without its top; if that was flagged, the entry below becomes flagged.
  ghost function Popped(stack: seq<Frame>): seq<Frame>
    requires |stack| > 1
  {
    var k := |stack| - 1;
    if stack[k].tryRight then stack[..k][k - 1 := stack[k - 1].(tryRight := true)] else stack[..k]
  }

  // What is pending then: the right branch of a flagged top.
  ghost function PoppedRight(stack: seq<Frame>, trail: seq<Branch>): seq<Node>
    requires |stack| == |trail| > 1
  {
    if stack[|stack| - 1].tryRight then trail[|stack| - 1].right else []
  }

  lemma PopAccounted(stack: seq<Frame>, trail: seq<Branch>, result: seq<Interval?>, all: multiset<Interval?>, low: int,
      high: int)
    requires |stack| > 1 && Accounted(stack, trail, result, multiset{}, all, low, high)
    ensures Accounted(Popped(stack), trail[..|stack| - 1], result, multiset(Hits(PoppedRight(stack, trail), low, high)),
      all, low, high)
  {
    assert multiset(Hits([], low, high)) == multiset{};
    if stack[|stack| - 1].tryRight {
      PopFlagged(stack, trail, low, high);
    } else {
      PopUnflagged(stack, trail, low, high);
    }
  }

  lemma {:induction false} OwedAdd(trail: seq<Branch>, p: multiset<Interval?>, q: multiset<Interval?>, low: int,
      high: int)
    ensures Owed(trail, p + q, low, high) == Owed(trail, p, low, high) + q
  {
    if |trail| > 1 {
      var k := |trail| - 1;
      var h := multiset(Hits(trail[k].right, low, high));
      assert p + q + h == (p + h) + q;
      OwedAdd(trail[..k], p + h, q, low, high);
    }
  }

  lemma HitsAround(l: seq<Node>, x: Node, r: seq<Node>, low: int, high: int)
    ensures multiset(Hits(l + [x] + r, low, high)) ==
      multiset(Hits(l, low, high)) + multiset(Hits(r, low, high))
      + if Overlap(low, high, x.key, x.high) then multiset{x.interval} else multiset{}
  {
    HitsSplits(l + [x], r, low, high);
    HitsSplits(l, [x], low, high);
    assert Hits([x], low, high) == if Overlap(low, high, x.key, x.high) then [x.interval] else [];
  }

  lemma HitsParts(l: seq<Node>, x: Node, r: seq<Node>, low: int, high: int)
    ensures multiset(Hits(l + [x] + r, low, high)) ==
      multiset(Hits(l, low, high)) + multiset(Hits([x], low, high)) + multiset(Hits(r, low, high))
    ensures |Hits(l + [x] + r, low, high)| == |Hits(l, low, high)| + |Hits([x], low, high)| + |Hits(r, low, high)|
  {
    HitsSplits(l + [x], r, low, high);
    HitsSplits(l, [x], low, high);
  }

  // A hit at x is reported, and the entry whose branch x lies in is flagged.
  lemma HitAccounted(stack: seq<Frame>, trail: seq<Branch>, result: seq<Interval?>, x: Interval?,
      rest: multiset<Interval?>, all: multiset<Interval?>, low: int, high: int)
    requires |stack| > 0 && Accounted(stack, trail, result, rest + multiset{x}, all, low, high)
    ensures var k := |stack| - 1;
      Accounted(stack[k := stack[k].(tryRight := true)], trail, result + [x], rest, all, low, high)
  {
    OwedAdd(trail, rest, multiset{x}, low, high);
    TopFlagged(stack, trail, rest + multiset{x}, rest, false, low, high);
  }

  lemma PushAccounted(stack: seq<Frame>, trail: seq<Branch>, f: Frame, b: Branch, result: seq<Interval?>,
      all: multiset<Interval?>, low: int, high: int)
    requires |stack| > 0 && !f.tryRight && Prunable(b, low)
    requires Accounted(stack, trail, result, multiset(Hits(b.left, low, high)) + multiset(Hits(b.right, low, high)),
      all, low, high)
    ensures Accounted(stack + [f], trail + [b], result, multiset(Hits(b.left, low, high)), all, low, high)
  {
    assert (stack + [f])[..|stack|] == stack && (trail + [b])[..|trail|] == trail;
  }

  lemma WeightOfPush(trail: seq<Branch>, b: Branch)
    requires trail != []
    ensures Weight(trail + [b]) == Weight(trail) + |b.right|
  {
    assert (trail + [b])[..|trail|] == trail;
  }

  lemma WeightOfPop(trail: seq<Branch>)
    requires |trail| > 1
    ensures Weight(trail) == Weight(trail[..|trail| - 1]) + |trail[|trail| - 1].right|
  {
  }

  ghost function Weight(trail: seq<Branch>): nat {
    if |trail| <= 1 then 0 else |trail[|trail| - 1].right| + Weight(trail[..|trail| - 1])
  }

  class IntervalTree {
    const root: Node   // sentinel; the real tree hangs to its left
    const nil: Node    // sentinel; every missing child
    ghost var members: set<Node>
    var stack: seq<Frame>      // recursion_node_stack up to its top; entry 0 is a dummy
    var currentParent: nat
    ghost var trail: seq<Branch>   // what the stack entries stand for

    // ---- what a well-formed tree is, one node at a time ----

    // The pointers around n agree with each other.
    ghost predicate Linked(n: Node)
      reads this`members, members, root, nil, n
    {
      && n != root && n != nil
      && (n.left == nil || (n.left in members && n.left.parent == n))
      && (n.right == nil || (n.right in members && n.right.parent == n))
      && (n.left == nil || n.left != n.right)
      && (if n.parent == root then root.left == n
          else n.parent in members && (n.parent.left == n || n.parent.right == n))
    }

    ghost predicate HasChildren(n: Node)
      reads this`members, n
    {
      (n.left == nil || n.left in members) && (n.right == nil || n.right in members)
    }

    ghost predicate SpanOk(n: Node)
      reads this`members, members, nil, n
    {
      HasChildren(n) && n.span == n.left.span + [n] + n.right.span
    }

    ghost predicate MaxOk(n: Node)
      reads this`members, members, nil, n
    {
      HasChildren(n) && n.maxHigh == Max(n.high, Max(n.left.maxHigh, n.right.maxHigh))
    }

    // Black nodes from c itself down to nil.
    ghost function Blacks(c: Node): nat
      reads c
    {
      c.bh + if c.red then 0 else 1
    }

    ghost predicate BlackOk(n: Node)
      reads this`members, members, nil, n
    {
      HasChildren(n) && n.bh == Blacks(n.left) && n.bh == Blacks(n.right)
    }

    ghost predicate RedOk(n: Node)
      reads this`members, members, nil, n
    {
      HasChildren(n) && (n.red ==> !n.left.red && !n.right.red)
    }

    ghost predicate Sentinels()
      reads this`members, members, root, nil
    {
      && root != nil && root !in members && nil !in members
      && nil.left == nil && nil.right == nil && !nil.red && nil.maxHigh == -MAX_TIME
      && nil.span == [] && nil.bh == 0
      && root.right == nil && root.parent == nil && !root.red && root.span == [] && root.interval == null
      && (root.left == nil || (root.left in members && root.left.parent == root))
    }

    ghost predicate Links()
      reads this`members, members, root, nil
    {
      Sentinels() && forall n {:trigger Linked(n)} | n in members :: Linked(n)
    }

    ghost predicate Spans()
      reads this`members, members, nil
    {
      forall n {:trigger SpanOk(n)} | n in members :: SpanOk(n)
    }

    ghost predicate Shape()
      reads this`members, members, root, nil
    {
      Links() && Spans()
    }

    ghost predicate Maxes()
      reads this`members, members, nil
    {
      forall n {:trigger MaxOk(n)} | n in members :: MaxOk(n)
    }

    ghost predicate Colors()
      reads this`members, members, root, nil
      requires Sentinels()
    {
      && (forall n {:trigger BlackOk(n)} | n in members :: BlackOk(n))
      && (forall n {:trigger RedOk(n)} | n in members :: RedOk(n))
      && !root.left.red
    }

    // The stored nodes in order.
    ghost function Nodes(): seq<Node>
      reads root, root.left
    {
      root.left.span
    }

    ghost predicate Content()
      reads this`members, root, root.left
    {
      && Sorted(Nodes()) && Distinct(Nodes())
      && (forall n {:trigger n in Nodes()} | n in members :: n in Nodes())
      && (forall n {:trigger n in Nodes()} | n in Nodes() :: n in members)
      && (forall n {:trigger n.interval} | n in members ::
           n.interval != null && n.key == n.interval.low && n.high == n.interval.high)
    }

    // No query is under way.
    ghost predicate Idle()
      reads this
    {
      |stack| == 1 && |trail| == 1
    }

    ghost predicate Valid()
      reads this`members, members, root, root.left, nil
    {
      Shape() && Maxes() && Colors() && Content()
    }

    constructor ()
      ensures Valid() && members == {} && Nodes() == []
      ensures fresh(root) && fresh(nil) && Idle()
    {
      nil := new Node.Sentinel(-MAX_TIME);
      root := new Node.Sentinel(MAX_TIME);
      members := {};
      stack, currentParent, trail := [Frame(null, 0, false)], 0, [Branch([], [], null)];
      new;
      root.parent, root.left, root.right := nil, nil, nil;
    }

    // ---- rotations ----

    twostate predicate Same(n: Node)
      reads n
    {
      && n.left == old(n.left) && n.right == old(n.right) && n.parent == old(n.parent)
      && n.red == old(n.red) && n.bh == old(n.bh) && n.span == old(n.span) && n.maxHigh == old(n.maxHigh)
    }

    twostate predicate Keeps(n: Node)
      reads n
    {
      n.red == old(n.red) && n.bh == old(n.bh) && n.span == old(n.span) && n.maxHigh == old(n.maxHigh)
    }

    twostate predicate NewParent(b: Node, x: Node)
      reads b
    {
      && b.left == old(b.left) && b.right == old(b.right) && b.parent == x
      && b.red == old(b.red) && b.bh == old(b.bh) && b.span == old(b.span) && b.maxHigh == old(b.maxHigh)
    }

    twostate predicate OthersSame(x: Node, y: Node, b: Node, p: Node)
      reads this`members, members, root, nil
    {
      && members == old(members)
      && Same(nil) && (p != root ==> Same(root))
      && (forall n {:trigger n.left} {:trigger n.right} {:trigger n.parent} {:trigger n.span}
            {:trigger n.red} {:trigger n.maxHigh}
            | n in old(members) && n != x && n != y && n != b && n != p :: Same(n))
    }

    // x and its right child y trade places below p; the subtree b between them moves over to x.
    twostate predicate TurnedLeft(x: Node, y: Node, b: Node, p: Node)
      reads x, y, b, p
    {
      && x.left == old(x.left) && x.right == b && x.parent == y
      && y.left == x && y.right == old(y.right) && y.parent == p
      && (if old(p.left) == x then p.left == y && p.right == old(p.right) else p.left == old(p.left) && p.right == y)
      && p.parent == old(p.parent) && p.red == old(p.red) && p.bh == old(p.bh) && p.span == old(p.span)
      && p.maxHigh == old(p.maxHigh)
    }

    twostate predicate ReassembledLeft(x: Node, y: Node, b: Node)
      reads x, y
    {
      && x.span == old(x.left.span) + [x] + old(b.span) && y.span == old(x.span)
      && x.maxHigh == old(Max(x.high, Max(x.left.maxHigh, b.maxHigh)))
      && y.maxHigh == Max(y.high, Max(x.maxHigh, old(y.right.maxHigh)))
    }

    twostate lemma LeftTurnLinks(x: Node)
      requires old(Shape()) && old(x in members && x.right != nil)
      requires OthersSame(x, old(x.right), old(x.right.left), old(x.parent))
      requires TurnedLeft(x, old(x.right), old(x.right.left), old(x.parent))
      requires ReassembledLeft(x, old(x.right), old(x.right.left))
      requires old(x.right.left) != nil ==> NewParent(old(x.right.left), x)
      ensures Sentinels() && forall n {:trigger Linked(n)} | n in members :: Linked(n)
    {
      var y, b, p := old(x.right), old(x.right.left), old(x.parent);
      assert old(Linked(x)) && old(Linked(y));
      assert b != nil ==> old(Linked(b));
      assert p != root ==> old(Linked(p));
      assert p != b && p != y by {
        assert old(SpanOk(x)) && old(SpanOk(y));
        assert old(|b.span| < |y.span| < |x.span|);
        assert p != root ==> old(SpanOk(p)) && old(|x.span| < |p.span|);
      }
      forall n | n in members ensures Linked(n) {
        assert old(Linked(n));
      }
    }

    twostate lemma LeftTurnSpans(x: Node)
      requires old(Shape()) && old(x in members && x.right != nil)
      requires OthersSame(x, old(x.right), old(x.right.left), old(x.parent))
      requires TurnedLeft(x, old(x.right), old(x.right.left), old(x.parent))
      requires ReassembledLeft(x, old(x.right), old(x.right.left))
      requires old(x.right.left) != nil ==> NewParent(old(x.right.left), x)
      ensures forall n {:trigger SpanOk(n)} | n in members :: SpanOk(n)
      ensures root.left.span == old(root.left.span)
    {
      var y, b, p := old(x.right), old(x.right.left), old(x.parent);
      assert old(Linked(x)) && old(Linked(y)) && old(SpanOk(x)) && old(SpanOk(y));
      assert y.span == x.span + [y] + y.right.span;
      assert SpanOk(x) && SpanOk(y);
      forall n | n in members && n != x && n != y ensures SpanOk(n) {
        assert old(Linked(n)) && old(SpanOk(n));
        assert n.left.span == old(n.left.span) && n.right.span == old(n.right.span);
      }
    }

    twostate lemma LeftTurnOwnMaxes(x: Node)
      requires old(Shape()) && old(x in members && x.right != nil)
      requires OthersSame(x, old(x.right), old(x.right.left), old(x.parent))
      requires TurnedLeft(x, old(x.right), old(x.right.left), old(x.parent))
      requires ReassembledLeft(x, old(x.right), old(x.right.left))
      requires old(x.right.left) != nil ==> NewParent(old(x.right.left), x)
      requires old(Maxes())
      ensures x in members && old(x.right) in members && MaxOk(x) && MaxOk(old(x.right))
      ensures old(x.right).maxHigh == old(x.maxHigh)
    {
      var y, b, p := old(x.right), old(x.right.left), old(x.parent);
      assert old(Linked(x)) && old(Linked(y)) && old(MaxOk(x)) && old(MaxOk(y));
      MaxRegroups(x.high, old(x.left.maxHigh), y.high, old(b.maxHigh), old(y.right.maxHigh));
      assert y.maxHigh == old(x.maxHigh);
      assert MaxOk(x) && MaxOk(y);
    }

    twostate lemma LeftTurnMaxes(x: Node)
      requires old(Shape()) && old(x in members && x.right != nil)
      requires OthersSame(x, old(x.right), old(x.right.left), old(x.parent))
      requires TurnedLeft(x, old(x.right), old(x.right.left), old(x.parent))
      requires ReassembledLeft(x, old(x.right), old(x.right.left))
      requires old(x.right.left) != nil ==> NewParent(old(x.right.left), x)
      requires old(Maxes())
      ensures Maxes()
    {
      var y, b, p := old(x.right), old(x.right.left), old(x.parent);
      assert old(Linked(x)) && old(Linked(y));
      LeftTurnOwnMaxes(x);
      forall n | n in members && n != x && n != y ensures MaxOk(n) {
        assert old(Linked(n)) && old(MaxOk(n));
        assert n.left.maxHigh == old(n.left.maxHigh) && n.right.maxHigh == old(n.right.maxHigh);
      }
    }

    // The pointer part of the rotation.
    method LeftRewire(x: Node)
      requires Shape() && x in members && x.right != nil
      modifies x, x.right, x.parent, if x.right.left == nil then {} else {x.right.left}
      ensures Same(nil) && (old(x.parent) != root ==> Same(root))
      ensures TurnedLeft(x, old(x.right), old(x.right.left), old(x.parent))
      ensures old(x.right.left) != nil ==> NewParent(old(x.right.left), x)
      ensures Keeps(x) && Keeps(x.parent)
    {
      var y := x.right;
      ghost var b, p := y.left, x.parent;
      assert Linked(x) && Linked(y);
      assert x != y && b != x && b != y && p != x && p != y && p != b by {
        assert SpanOk(x) && SpanOk(y);
        assert |b.span| < |y.span| < |x.span|;
        if p != root { assert Linked(p) && SpanOk(p); }
      }
      x.right := y.left;
      if y.left != nil {
        y.left.parent := x;
      }
      y.parent := x.parent;
      if x == x.parent.left {
        x.parent.left := y;
      } else {
        x.parent.right := y;
      }
      y.left := x;
      x.parent := y;
    }

    // The rotation itself: the links, and what the two nodes know about their subtrees.
    method LeftTurn(x: Node)
      requires Shape() && x in members && x.right != nil
      modifies x, x.right, x.parent, if x.right.left == nil then {} else {x.right.left}
      ensures OthersSame(x, old(x.right), old(x.right.left), old(x.parent))
      ensures TurnedLeft(x, old(x.right), old(x.right.left), old(x.parent))
      ensures ReassembledLeft(x, old(x.right), old(x.right.left))
      ensures x.red == old(x.red) && x.bh == old(x.bh) && x.parent.red == old(x.right.red)
        && x.parent.bh == old(x.right.bh)
      ensures old(x.right.left) != nil ==> NewParent(old(x.right.left), x)
    {
      assert Linked(x) && Linked(x.right) && SpanOk(x) && SpanOk(x.right);
      var y := x.right;
      ghost var whole := x.span;
      ghost var b, p := y.left, x.parent;
      LeftRewire(x);
      x.maxHigh := Max(x.left.maxHigh, Max(x.right.maxHigh, x.high));
      y.maxHigh := Max(x.maxHigh, Max(y.right.maxHigh, y.high));
      x.span := x.left.span + [x] + x.right.span;
      y.span := whole;
      forall n | n in members && n != x && n != y && n != b && n != p ensures Same(n) { }
      assert OthersSame(x, y, b, p);
    }

    method LeftRotate(x: Node)
      requires Shape() && x in members && x.right != nil
      modifies x, x.right, x.parent, if x.right.left == nil then {} else {x.right.left}
      ensures Shape() && Nodes() == old(Nodes())
      ensures old(Maxes()) ==> Maxes()
      ensures OthersSame(x, old(x.right), old(x.right.left), old(x.parent))
      ensures TurnedLeft(x, old(x.right), old(x.right.left), old(x.parent))
      ensures x.red == old(x.red) && x.bh == old(x.bh) && x.parent.red == old(x.right.red)
        && x.parent.bh == old(x.right.bh)
      ensures old(x.right.left) != nil ==> NewParent(old(x.right.left), x)
    {
      LeftTurn(x);
      LeftTurnLinks(x);
      LeftTurnSpans(x);
      if old(Maxes()) {
        LeftTurnMaxes(x);
      }
    }

    // x and its left child y trade places below p; the subtree b between them moves over to x.
    twostate predicate TurnedRight(x: Node, y: Node, b: Node, p: Node)
      reads x, y, b, p
    {
      && x.right == old(x.right) && x.left == b && x.parent == y
      && y.right == x && y.left == old(y.left) && y.parent == p
      && (if old(p.left) == x then p.left == y && p.right == old(p.right) else p.left == old(p.left) && p.right == y)
      && p.parent == old(p.parent) && p.red == old(p.red) && p.bh == old(p.bh) && p.span == old(p.span)
      && p.maxHigh == old(p.maxHigh)
    }

    twostate predicate ReassembledRight(x: Node, y: Node, b: Node)
      reads x, y
    {
      && x.span == old(b.span) + [x] + old(x.right.span) && y.span == old(x.span)
      && x.maxHigh == old(Max(x.high, Max(x.right.maxHigh, b.maxHigh)))
      && y.maxHigh == Max(y.high, Max(x.maxHigh, old(y.left.maxHigh)))
    }

    twostate lemma RightTurnLinks(x: Node)
      requires old(Shape()) && old(x in members && x.left != nil)
      requires OthersSame(x, old(x.left), old(x.left.right), old(x.parent))
      requires TurnedRight(x, old(x.left), old(x.left.right), old(x.parent))
      requires ReassembledRight(x, old(x.left), old(x.left.right))
      requires old(x.left.right) != nil ==> NewParent(old(x.left.right), x)
      ensures Sentinels() && forall n {:trigger Linked(n)} | n in members :: Linked(n)
    {
      var y, b, p := old(x.left), old(x.left.right), old(x.parent);
      assert old(Linked(x)) && old(Linked(y));
      assert b != nil ==> old(Linked(b));
      assert p != root ==> old(Linked(p));
      assert p != b && p != y by {
        assert old(SpanOk(x)) && old(SpanOk(y));
        assert old(|b.span| < |y.span| < |x.span|);
        assert p != root ==> old(SpanOk(p)) && old(|x.span| < |p.span|);
      }
      forall n | n in members ensures Linked(n) {
        assert old(Linked(n));
      }
    }

    twostate lemma RightTurnSpans(x: Node)
      requires old(Shape()) && old(x in members && x.left != nil)
      requires OthersSame(x, old(x.left), old(x.left.right), old(x.parent))
      requires TurnedRight(x, old(x.left), old(x.left.right), old(x.parent))
      requires ReassembledRight(x, old(x.left), old(x.left.right))
      requires old(x.left.right) != nil ==> NewParent(old(x.left.right), x)
      ensures forall n {:trigger SpanOk(n)} | n in members :: SpanOk(n)
      ensures root.left.span == old(root.left.span)
    {
      var y, b, p := old(x.left), old(x.left.right), old(x.parent);
      assert old(Linked(x)) && old(Linked(y)) && old(SpanOk(x)) && old(SpanOk(y));
      assert y.span == y.left.span + [y] + x.span;
      assert SpanOk(x) && SpanOk(y);
      forall n | n in members && n != x && n != y ensures SpanOk(n) {
        assert old(Linked(n)) && old(SpanOk(n));
        assert n.left.span == old(n.left.span) && n.right.span == old(n.right.span);
      }
    }

    twostate lemma RightTurnOwnMaxes(x: Node)
      requires old(Shape()) && old(x in members && x.left != nil)
      requires OthersSame(x, old(x.left), old(x.left.right), old(x.parent))
      requires TurnedRight(x, old(x.left), old(x.left.right), old(x.parent))
      requires ReassembledRight(x, old(x.left), old(x.left.right))
      requires old(x.left.right) != nil ==> NewParent(old(x.left.right), x)
      requires old(Maxes())
      ensures x in members && old(x.left) in members && MaxOk(x) && MaxOk(old(x.left))
      ensures old(x.left).maxHigh == old(x.maxHigh)
    {
      var y, b, p := old(x.left), old(x.left.right), old(x.parent);
      assert old(Linked(x)) && old(Linked(y)) && old(MaxOk(x)) && old(MaxOk(y));
      MaxRegroups(x.high, old(x.right.maxHigh), y.high, old(b.maxHigh), old(y.left.maxHigh));
      assert y.maxHigh == old(x.maxHigh);
      assert MaxOk(x) && MaxOk(y);
    }

    twostate lemma RightTurnMaxes(x: Node)
      requires old(Shape()) && old(x in members && x.left != nil)
      requires OthersSame(x, old(x.left), old(x.left.right), old(x.parent))
      requires TurnedRight(x, old(x.left), old(x.left.right), old(x.parent))
      requires ReassembledRight(x, old(x.left), old(x.left.right))
      requires old(x.left.right) != nil ==> NewParent(old(x.left.right), x)
      requires old(Maxes())
      ensures Maxes()
    {
      var y, b, p := old(x.left), old(x.left.right), old(x.parent);
      assert old(Linked(x)) && old(Linked(y));
      RightTurnOwnMaxes(x);
      forall n | n in members && n != x && n != y ensures MaxOk(n) {
        assert old(Linked(n)) && old(MaxOk(n));
        assert n.left.maxHigh == old(n.left.maxHigh) && n.right.maxHigh == old(n.right.maxHigh);
      }
    }

    // The pointer part of the rotation.
    method RightRewire(x: Node)
      requires Shape() && x in members && x.left != nil
      modifies x, x.left, x.parent, if x.left.right == nil then {} else {x.left.right}
      ensures Same(nil) && (old(x.parent) != root ==> Same(root))
      ensures TurnedRight(x, old(x.left), old(x.left.right), old(x.parent))
      ensures old(x.left.right) != nil ==> NewParent(old(x.left.right), x)
      ensures Keeps(x) && Keeps(x.parent)
    {
      var y := x.left;
      ghost var b, p := y.right, x.parent;
      assert Linked(x) && Linked(y);
      assert x != y && b != x && b != y && p != x && p != y && p != b by {
        assert SpanOk(x) && SpanOk(y);
        assert |b.span| < |y.span| < |x.span|;
        if p != root { assert Linked(p) && SpanOk(p); }
      }
      x.left := y.right;
      if y.right != nil {
        y.right.parent := x;
      }
      y.parent := x.parent;
      if x == x.parent.left {
        x.parent.left := y;
      } else {
        x.parent.right := y;
      }
      y.right := x;
      x.parent := y;
    }

    // The rotation itself: the links, and what the two nodes know about their subtrees.
    method RightTurn(x: Node)
      requires Shape() && x in members && x.left != nil
      modifies x, x.left, x.parent, if x.left.right == nil then {} else {x.left.right}
      ensures OthersSame(x, old(x.left), old(x.left.right), old(x.parent))
      ensures TurnedRight(x, old(x.left), old(x.left.right), old(x.parent))
      ensures ReassembledRight(x, old(x.left), old(x.left.right))
      ensures x.red == old(x.red) && x.bh == old(x.bh) && x.parent.red == old(x.left.red)
        && x.parent.bh == old(x.left.bh)
      ensures old(x.left.right) != nil ==> NewParent(old(x.left.right), x)
    {
      assert Linked(x) && Linked(x.left) && SpanOk(x) && SpanOk(x.left);
      var y := x.left;
      ghost var whole := x.span;
      ghost var b, p := y.right, x.parent;
      RightRewire(x);
      x.maxHigh := Max(x.left.maxHigh, Max(x.right.maxHigh, x.high));
      y.maxHigh := Max(x.maxHigh, Max(y.left.maxHigh, y.high));
      x.span := x.left.span + [x] + x.right.span;
      y.span := whole;
      forall n | n in members && n != x && n != y && n != b && n != p ensures Same(n) { }
      assert OthersSame(x, y, b, p);
    }

    method RightRotate(x: Node)
      requires Shape() && x in members && x.left != nil
      modifies x, x.left, x.parent, if x.left.right == nil then {} else {x.left.right}
      ensures Shape() && Nodes() == old(Nodes())
      ensures old(Maxes()) ==> Maxes()
      ensures OthersSame(x, old(x.left), old(x.left.right), old(x.parent))
      ensures TurnedRight(x, old(x.left), old(x.left.right), old(x.parent))
      ensures x.red == old(x.red) && x.bh == old(x.bh) && x.parent.red == old(x.left.red)
        && x.parent.bh == old(x.left.bh)
      ensures old(x.left.right) != nil ==> NewParent(old(x.left.right), x)
    {
      RightTurn(x);
      RightTurnLinks(x);
      RightTurnSpans(x);
      if old(Maxes()) {
        RightTurnMaxes(x);
      }
    }

    // ---- where a node sits ----

    // Everything in c's span is a member, and its ancestors up to c are in the span too.
    lemma {:induction false} Inside(c: Node, n: Node)
      requires Shape() && c in members && n in c.span
      ensures n in members && |n.span| <= |c.span|
      ensures n != c ==> n.parent in members && n.parent in c.span && |n.span| < |c.span|
      decreases |c.span|
    {
      assert Linked(c) && SpanOk(c);
      if n in c.left.span {
        Inside(c.left, n);
      } else if n in c.right.span {
        Inside(c.right, n);
      }
    }

    // ---- insertion ----

    ghost function Next(n: Node, z: Node): Node
      reads n
    {
      if n.key > z.key then n.left else n.right
    }

    // The nodes on the way down from the root to y, by z's key.
    ghost predicate OnPath(path: set<Node>, y: Node, z: Node)
      reads this`members, members, root, nil
    {
      && path <= members
      && (y == root || (y in path && root.left in path))
      && (forall n | n in path :: Sorted(n.span) && (Next(n, z) in path || n == y)
           && (n.parent == root || (n.parent in path && Next(n.parent, z) == n)))
    }

    // z hangs where the search for its place ended; the spans on the way down have gained it.
    twostate predicate Attached(z: Node, path: set<Node>)
      reads this`members, members, root, nil, z
    {
      && members == old(members) + {z} && Same(nil)
      && z.left == nil && z.right == nil && z.span == [z]
      && (z.parent == root || z.parent in path)
      && (root.left == if z.parent == root then z else old(root.left))
      && root.right == old(root.right) && root.parent == old(root.parent) && Keeps(root)
      && (forall n {:trigger n.left} {:trigger n.parent} {:trigger n.span} {:trigger n.red} | n in old(members) ::
            && n.left == (if n == z.parent && n.key > z.key then z else old(n.left))
            && n.right == (if n == z.parent && n.key <= z.key then z else old(n.right))
            && n.parent == old(n.parent) && n.red == old(n.red) && n.bh == old(n.bh) && n.maxHigh == old(n.maxHigh)
            && n.span == if n in path then Inserted(old(n.span), z) else old(n.span))
    }

    twostate lemma AttachLinks(zp: (Node, set<Node>))
      requires old(Shape()) && zp.0 !in old(members) && zp.0 != root && zp.0 != nil
      requires Attached(zp.0, zp.1)
      requires var y := zp.0.parent;
        old(OnPath(zp.1, y, zp.0)) && nil == if y == root then old(root.left) else old(Next(y, zp.0))
      ensures Links()
    {
      forall n | n in members ensures Linked(n) {
        if n in old(members) { assert old(Linked(n)); }
      }
    }

    twostate lemma AttachSpans(zp: (Node, set<Node>))
      requires old(Shape()) && zp.0 !in old(members) && zp.0 != root && zp.0 != nil
      requires Attached(zp.0, zp.1) && Links()
      requires var y := zp.0.parent;
        old(OnPath(zp.1, y, zp.0)) && nil == if y == root then old(root.left) else old(Next(y, zp.0))
      ensures Spans() && Nodes() == Inserted(old(Nodes()), zp.0)
    {
      var z, path := zp.0, zp.1;
      forall n | n in members ensures SpanOk(n) {
        assert Linked(n);
        if n in old(members) {
          assert old(Linked(n)) && old(SpanOk(n));
          assert old(n.left) != nil ==> old(Linked(n.left));
          assert old(n.right) != nil ==> old(Linked(n.right));
          if n in path {
            InsertedSplits(old(n.left.span), n, old(n.right.span), z);
            assert n != z.parent ==> old(Next(n, z)) in path;
            assert Inserted([], z) == [z];
          }
        }
      }
    }

    // The last step of RecursiveInsert.
    method Attach(z: Node, y: Node, ghost path: set<Node>)
      requires Shape() && z !in members && z != root && z != nil && z.left == nil && z.right == nil
      requires OnPath(path, y, z) && nil == if y == root then root.left else Next(y, z)
      modifies this`members, z, y, path
      ensures Hung(z) && z.red == old(z.red) && z.maxHigh == old(z.maxHigh)
      ensures Shape() && Nodes() == Inserted(old(Nodes()), z)
    {
      z.parent := y;
      if y == root || y.key > z.key {
        y.left := z;
      } else {
        y.right := z;
      }
      z.span := [z];
      members := members + {z};
      forall n | n in path {
        n.span := Inserted(n.span, z);
      }
      assert Attached(z, path);
      AttachLinks((z, path));
      AttachSpans((z, path));
    }

    method RecursiveInsert(z: Node)
      requires Shape() && Sorted(Nodes()) && z !in members && z != root && z != nil
      modifies this`members, root, z, members
      ensures Shape() && members == old(members) + {z}
      ensures Nodes() == Inserted(old(Nodes()), z)
      ensures Hung(z) && z.red == old(z.red) && z.maxHigh == old(z.maxHigh)
    {
      z.left, z.right := nil, nil;
      var y := root;
      var x := root.left;
      ghost var path: set<Node> := {};
      while x != nil
        invariant Shape()
        invariant x == nil || x in members
        invariant x == if y == root then root.left else Next(y, z)
        invariant x != nil ==> x.parent == y && Sorted(x.span)
        invariant OnPath(path, y, z)
        modifies {}
        decreases |x.span|
      {
        assert Linked(x) && SpanOk(x);
        y := x;
        path := path + {x};
        if x.key > z.key {
          x := x.left;
        } else {
          x := x.right;
        }
        Subsorted(y.left.span, y, y.right.span);
        if x != nil { assert Linked(x); }
      }
      Attach(z, y, path);
    }

    // Every node that does not have x below it already has the right maxHigh.
    ghost predicate MaxesOffPath(x: Node)
      reads this`members, members, nil
    {
      forall n {:trigger MaxOk(n)} | n in members && x !in n.span :: MaxOk(n)
    }

    method SetMaxHigh(x: Node, high: SimTime)
      requires Shape() && x in members
      modifies x`maxHigh
      ensures Shape() && x.maxHigh == high
    {
      x.maxHigh := high;
      forall n | n in members ensures Linked(n) && SpanOk(n) {
        assert old(Linked(n)) && old(SpanOk(n));
      }
    }

    // One turn of the loop below.
    method RaiseMax(x: Node)
      requires Shape() && x in members && MaxesOffPath(x)
      modifies x`maxHigh
      ensures Shape() && MaxesOffPath(x.parent)
    {
      assert Linked(x) && SpanOk(x);
      SetMaxHigh(x, Max(x.high, Max(x.left.maxHigh, x.right.maxHigh)));
      forall n | n in members && x.parent !in n.span ensures MaxOk(n) {
        assert Linked(n) && SpanOk(n);
        if n != x {
          if x in n.span { Inside(n, x); }
          assert old(MaxOk(n));
        }
      }
    }

    method FixupMaxHigh(start: Node)
      requires Shape() && (start == root || start in members) && MaxesOffPath(start)
      requires forall n {:trigger n in Nodes()} | n in members :: n in Nodes()
      modifies members`maxHigh
      ensures Shape() && Maxes()
    {
      var x := start;
      while x != root
        invariant Shape() && (x == root || x in members) && MaxesOffPath(x)
        invariant forall n {:trigger n in Nodes()} | n in members :: n in Nodes()
        decreases if x == root then 0 else 1 + |Nodes()| - |x.span|
      {
        assert Linked(x);
        assert x in Nodes();
        Inside(root.left, x);
        assert SpanOk(x) && x == x.span[|x.left.span|];
        if x.parent != root {
          assert SpanOk(x.parent);
          assert x.parent in Nodes();
          Inside(root.left, x.parent);
          Inside(x.parent, x);
        }
        RaiseMax(x);
        x := x.parent;
      }
      forall n | n in members ensures MaxOk(n) {
        if root in n.span { Inside(n, root); }
      }
    }

    // The tree is in order except that x and its parent may both be red.
    ghost predicate RedAt(x: Node)
      reads this`members, members, root, nil
    {
      && Shape() && Maxes() && x in members && x.red
      && (forall n {:trigger BlackOk(n)} | n in members :: BlackOk(n))
      && (forall n {:trigger RedOk(n)} | n in members && n != x.parent :: RedOk(n))
      && (x.parent in members && HasChildren(x.parent) && x.parent.red ==>
           (x.parent.left == x || !x.parent.left.red) && (x.parent.right == x || !x.parent.right.red))
      && (root.left.red ==> root.left == x)
    }

    // x's parent is red, so it is not the root and has a black parent.
    lemma Grandparent(x: Node)
      requires RedAt(x) && x.parent.red
      ensures x.parent in members && x.parent.parent in members && !x.parent.parent.red
      ensures x != x.parent && x != x.parent.parent && x.parent != x.parent.parent
      ensures |x.span| < |x.parent.span| < |x.parent.parent.span|
    {
      assert Linked(x) && Linked(x.parent) && SpanOk(x.parent);
      assert x.parent.parent != root;
      assert RedOk(x.parent.parent) && SpanOk(x.parent.parent);
    }

    // Colours (and black counts) changed somewhere, nothing else did.
    twostate predicate OnlyColors()
      reads this`members, members, root, nil
    {
      && members == old(members) && Same(nil) && Same(root)
      && forall n {:trigger n.left} {:trigger n.right} {:trigger n.parent} {:trigger n.span} {:trigger n.maxHigh}
           | n in old(members) ::
           n.left == old(n.left) && n.right == old(n.right) && n.parent == old(n.parent)
           && n.span == old(n.span) && n.maxHigh == old(n.maxHigh)
    }

    twostate lemma ShapeIgnoresColors()
      requires old(Shape() && Maxes()) && OnlyColors()
      ensures Shape() && Maxes() && Nodes() == old(Nodes())
    {
      forall n | n in members ensures Linked(n) && SpanOk(n) && MaxOk(n) {
        assert old(Linked(n)) && old(SpanOk(n)) && old(MaxOk(n));
      }
    }

    twostate predicate Recolored(p: Node, u: Node, g: Node)
      reads this`members, members, p, u, g
    {
      && !p.red && !u.red && g.red && p.bh == old(p.bh) && u.bh == old(u.bh) && g.bh == old(g.bh) + 1
      && members == old(members) && forall n {:trigger n.red} {:trigger n.bh} | n in members && n != p && n != u
      && n != g :: n.red == old(n.red) && n.bh == old(n.bh)
    }

    twostate lemma RecolorBalances(xu: (Node, Node))
      requires var x, u := xu.0, xu.1;
        old(RedAt(x) && x.parent.red && u.red && u in members && u.parent == x.parent.parent && u != x.parent)
      requires OnlyColors() && Recolored(old(xu.0.parent), xu.1, old(xu.0.parent.parent))
      ensures RedAt(old(xu.0.parent.parent))
    {
      var x, u, p, g := xu.0, xu.1, old(xu.0.parent), old(xu.0.parent.parent);
      ShapeIgnoresColors();
      assert old(Linked(x)) && old(Linked(p)) && old(Linked(u)) && old(Linked(g));
      assert g != root && old(RedOk(g)) && old(SpanOk(p)) && old(SpanOk(g)) && x != p && x != g && p != g && u != g
        && u != x;
      assert old(BlackOk(g)) && old(BlackOk(p)) && old(BlackOk(u));
      RecolorBlacks(xu);
      forall n | n in members && n != g.parent ensures RedOk(n) {
        assert old(Linked(n)) && old(BlackOk(n)) && BlackOk(n) && (n != p ==> old(RedOk(n)));
      }
      assert g.parent != root ==> old(RedOk(g.parent)) && old(Linked(g.parent));
    }

    twostate lemma RecolorBlacks(xu: (Node, Node))
      requires var x, u := xu.0, xu.1;
        old(RedAt(x) && x.parent.red && u.red && u in members && u.parent == x.parent.parent && u != x.parent)
      requires OnlyColors() && Recolored(old(xu.0.parent), xu.1, old(xu.0.parent.parent))
      ensures forall n {:trigger BlackOk(n)} | n in members :: BlackOk(n)
    {
      var x, u, p, g := xu.0, xu.1, old(xu.0.parent), old(xu.0.parent.parent);
      ShapeIgnoresColors();
      assert old(Linked(x)) && old(Linked(p)) && old(Linked(u)) && old(Linked(g));
      assert g != root && old(RedOk(g)) && old(SpanOk(p)) && old(SpanOk(g)) && x != p && x != g && p != g && u != g
        && u != x;
      assert old(BlackOk(g)) && old(BlackOk(p)) && old(BlackOk(u));
      forall n | n in members ensures BlackOk(n) {
        assert old(Linked(n)) && old(BlackOk(n));
      }
    }

    // The uncle is red: push the redness up to the grandparent.
    method Recolor(x: Node, uncle: Node)
      requires RedAt(x) && x.parent.red && uncle.red && uncle in members
      requires uncle.parent == x.parent.parent && uncle != x.parent
      modifies x.parent, uncle, x.parent.parent
      ensures RedAt(x.parent.parent) && x.parent == old(x.parent) && x.parent.parent == old(x.parent.parent)
      ensures Nodes() == old(Nodes()) && forall n | n in members :: n.span == old(n.span)
    {
      Grandparent(x);
      ghost var p, g := x.parent, x.parent.parent;
      assert Linked(x) && Linked(x.parent) && Linked(uncle) && Linked(g) && BlackOk(g) && BlackOk(x.parent)
        && BlackOk(uncle);
      x.parent.red := false;
      uncle.red := false;
      x.parent.parent.red := true;
      g.bh := g.bh + 1;
      RecolorBalances((x, uncle));
    }

    // x and its parent are red left children and the uncle is black: one right rotation repairs both colour rules.
    twostate predicate LeftLeftTurn(x: Node)
      reads this`members, members, root, nil, x
    {
      && old(RedAt(x) && x.parent.red && x.parent.parent.left == x.parent && x.parent.left == x)
      && old(!x.parent.parent.right.red)
      && Shape() && Maxes()
      && var p, g, b, gg := old(x.parent), old(x.parent.parent), old(x.parent.right), old(x.parent.parent.parent);
         && p in members && g in members && (b == nil || b in members) && (gg == root || gg in members)
         && OthersSame(g, p, b, gg)
         && TurnedRight(g, p, b, gg) && (b != nil ==> NewParent(b, g))
         && !p.red && g.red && p.bh == old(p.bh) && g.bh == old(g.bh)
    }

    twostate lemma LeftLeftBlacks(x: Node)
      requires LeftLeftTurn(x)
      ensures forall n {:trigger BlackOk(n)} | n in members :: BlackOk(n)
    {
      var p, g, b, gg := old(x.parent), old(x.parent.parent), old(x.parent.right), old(x.parent.parent.parent);
      assert OthersSame(g, p, b, gg) && TurnedRight(g, p, b, gg) && (b != nil ==> NewParent(b, g));
      assert old(Linked(x)) && old(Linked(p)) && g != root && old(Linked(g));
      assert old(RedOk(g)) && old(SpanOk(p)) && old(SpanOk(g));
      assert old(BlackOk(g)) && old(BlackOk(p)) && old(BlackOk(x));
      assert gg != root ==> old(Linked(gg)) && old(BlackOk(gg));
      assert Blacks(p) == old(Blacks(g)) && Blacks(g) == g.bh == p.bh && Blacks(b) == old(Blacks(b));
      forall n | n in members ensures BlackOk(n) {
        assert Linked(n) && old(Linked(n)) && old(BlackOk(n));
        if n == p { } else if n == g { } else if n == gg { } else { }
      }
    }

    twostate lemma LeftLeftBalances(x: Node)
      requires LeftLeftTurn(x)
      ensures RedAt(x) && !x.parent.red
    {
      var p, g, b, gg := old(x.parent), old(x.parent.parent), old(x.parent.right), old(x.parent.parent.parent);
      assert OthersSame(g, p, b, gg) && TurnedRight(g, p, b, gg) && (b != nil ==> NewParent(b, g));
      assert old(Linked(x)) && old(Linked(p)) && g != root && old(Linked(g));
      assert old(RedOk(g)) && old(SpanOk(p)) && old(SpanOk(g));
      assert gg != root ==> old(Linked(gg)) && old(RedOk(gg));
      LeftLeftBlacks(x);
      forall n | n in members ensures RedOk(n) {
        assert Linked(n) && old(Linked(n)) && (n != p ==> old(RedOk(n)));
        if n == p { } else if n == g { } else if n == gg { } else { }
      }
    }

    // x is the right child of a red left child: turning the parent makes it a left-left case one level down.
    twostate predicate LeftRightTurn(x: Node)
      reads this`members, members, root, nil, x
    {
      && old(RedAt(x) && x.parent.red && x.parent.parent.left == x.parent && x.parent.right == x)
      && Shape() && Maxes() && x in members
      && var p, g, b := old(x.parent), old(x.parent.parent), old(x.left);
         && p in members && g in members && (b == nil || b in members) && OthersSame(p, x, b, g)
         && TurnedLeft(p, x, b, g) && (b != nil ==> NewParent(b, p))
         && p.red && x.red && p.bh == old(p.bh) && x.bh == old(x.bh)
    }

    twostate lemma LeftRightBlacks(x: Node)
      requires LeftRightTurn(x)
      ensures forall n {:trigger BlackOk(n)} | n in members :: BlackOk(n)
    {
      var p, g, b := old(x.parent), old(x.parent.parent), old(x.left);
      assert OthersSame(p, x, b, g) && TurnedLeft(p, x, b, g) && (b != nil ==> NewParent(b, p));
      assert old(Linked(x)) && old(Linked(p)) && g != root && old(Linked(g));
      assert old(SpanOk(p)) && old(SpanOk(g)) && old(SpanOk(x));
      assert old(BlackOk(g)) && old(BlackOk(p)) && old(BlackOk(x));
      assert Blacks(x) == old(Blacks(p)) && Blacks(p) == p.bh == x.bh && Blacks(b) == old(Blacks(b));
      forall n | n in members ensures BlackOk(n) {
        assert Linked(n) && old(Linked(n)) && old(BlackOk(n));
        if n == p { } else if n == x { } else if n == g { } else { }
      }
    }

    twostate lemma LeftRightBalances(x: Node)
      requires LeftRightTurn(x)
      ensures RedAt(old(x.parent)) && x.red
      ensures x == old(x.parent).parent && x.left == old(x.parent) && x.parent == old(x.parent.parent)
        && x.parent.left == x
      ensures x.parent.right == old(x.parent.parent.right)
    {
      var p, g, b := old(x.parent), old(x.parent.parent), old(x.left);
      assert OthersSame(p, x, b, g) && TurnedLeft(p, x, b, g) && (b != nil ==> NewParent(b, p));
      assert old(Linked(x)) && old(Linked(p)) && g != root && old(Linked(g));
      assert old(RedOk(x)) && old(RedOk(g)) && old(SpanOk(p)) && old(SpanOk(g)) && old(SpanOk(x));
      LeftRightBlacks(x);
      forall n | n in members && n != x ensures RedOk(n) {
        assert Linked(n) && old(Linked(n)) && (n != p ==> old(RedOk(n)));
      }
    }

    method RepairLeftLeft(x: Node)
      requires RedAt(x) && x.parent.red && x.parent.parent.left == x.parent && x.parent.left == x
        && !x.parent.parent.right.red
      modifies members, root
      ensures RedAt(x) && !x.parent.red && members == old(members) && Nodes() == old(Nodes()) && Same(nil) && !root.red
    {
      Grandparent(x);
      ghost var p, g, b, gg := x.parent, x.parent.parent, x.parent.right, x.parent.parent.parent;
      assert Linked(p) && Linked(x) && Linked(g);
      x.parent.red := false;
      x.parent.parent.red := true;
      ShapeIgnoresColors();
      RightRotate(x.parent.parent);
      forall n | n in members && n != g && n != p && n != b && n != gg ensures Same(n) { }
      LeftLeftBalances(x);
    }

    // One turn of the loop of Insert, when x's parent is a left child.
    method InsertFixupLeft(x0: Node) returns (x: Node)
      requires RedAt(x0) && x0.parent.red && x0.parent == x0.parent.parent.left
      modifies members, root
      ensures RedAt(x) && members == old(members) && Nodes() == old(Nodes()) && !root.red && Same(nil)
      ensures x.parent.red ==> |x.span| > old(|x0.span|)
    {
      x := x0;
      Grandparent(x);
      assert Linked(x.parent.parent) && Linked(x.parent) && Linked(x);
      var y := x.parent.parent.right;
      if y.red {
        Recolor(x, y);
        x := x.parent.parent;
      } else {
        if x == x.parent.right {
          x := x.parent;
          LeftRotate(x);
          LeftRightBalances(x0);
          Grandparent(x);
        }
        RepairLeftLeft(x);
      }
    }

    // x and its parent are red right children and the uncle is black: one left rotation repairs both colour rules.
    twostate predicate RightRightTurn(x: Node)
      reads this`members, members, root, nil, x
    {
      && old(RedAt(x) && x.parent.red && x.parent.parent.right == x.parent && x.parent.right == x)
      && old(!x.parent.parent.left.red)
      && Shape() && Maxes()
      && var p, g, b, gg := old(x.parent), old(x.parent.parent), old(x.parent.left), old(x.parent.parent.parent);
         && p in members && g in members && (b == nil || b in members) && (gg == root || gg in members)
         && OthersSame(g, p, b, gg)
         && TurnedLeft(g, p, b, gg) && (b != nil ==> NewParent(b, g))
         && !p.red && g.red && p.bh == old(p.bh) && g.bh == old(g.bh)
    }

    twostate lemma RightRightBlacks(x: Node)
      requires RightRightTurn(x)
      ensures forall n {:trigger BlackOk(n)} | n in members :: BlackOk(n)
    {
      var p, g, b, gg := old(x.parent), old(x.parent.parent), old(x.parent.left), old(x.parent.parent.parent);
      assert OthersSame(g, p, b, gg) && TurnedLeft(g, p, b, gg) && (b != nil ==> NewParent(b, g));
      assert old(Linked(x)) && old(Linked(p)) && g != root && old(Linked(g));
      assert old(RedOk(g)) && old(SpanOk(p)) && old(SpanOk(g));
      assert old(BlackOk(g)) && old(BlackOk(p)) && old(BlackOk(x));
      assert gg != root ==> old(Linked(gg)) && old(BlackOk(gg));
      assert Blacks(p) == old(Blacks(g)) && Blacks(g) == g.bh == p.bh && Blacks(b) == old(Blacks(b));
      forall n | n in members ensures BlackOk(n) {
        assert Linked(n) && old(Linked(n)) && old(BlackOk(n));
        if n == p { } else if n == g { } else if n == gg { } else { }
      }
    }

    twostate lemma RightRightBalances(x: Node)
      requires RightRightTurn(x)
      ensures RedAt(x) && !x.parent.red
    {
      var p, g, b, gg := old(x.parent), old(x.parent.parent), old(x.parent.left), old(x.parent.parent.parent);
      assert OthersSame(g, p, b, gg) && TurnedLeft(g, p, b, gg) && (b != nil ==> NewParent(b, g));
      assert old(Linked(x)) && old(Linked(p)) && g != root && old(Linked(g));
      assert old(RedOk(g)) && old(SpanOk(p)) && old(SpanOk(g));
      assert gg != root ==> old(Linked(gg)) && old(RedOk(gg));
      RightRightBlacks(x);
      forall n | n in members ensures RedOk(n) {
        assert Linked(n) && old(Linked(n)) && (n != p ==> old(RedOk(n)));
        if n == p { } else if n == g { } else if n == gg { } else { }
      }
    }

    // x is the left child of a red right child: turning the parent makes it a right-right case one level down.
    twostate predicate RightLeftTurn(x: Node)
      reads this`members, members, root, nil, x
    {
      && old(RedAt(x) && x.parent.red && x.parent.parent.right == x.parent && x.parent.left == x)
      && Shape() && Maxes() && x in members
      && var p, g, b := old(x.parent), old(x.parent.parent), old(x.right);
         && p in members && g in members && (b == nil || b in members) && OthersSame(p, x, b, g)
         && TurnedRight(p, x, b, g) && (b != nil ==> NewParent(b, p))
         && p.red && x.red && p.bh == old(p.bh) && x.bh == old(x.bh)
    }

    twostate lemma RightLeftBlacks(x: Node)
      requires RightLeftTurn(x)
      ensures forall n {:trigger BlackOk(n)} | n in members :: BlackOk(n)
    {
      var p, g, b := old(x.parent), old(x.parent.parent), old(x.right);
      assert OthersSame(p, x, b, g) && TurnedRight(p, x, b, g) && (b != nil ==> NewParent(b, p));
      assert old(Linked(x)) && old(Linked(p)) && g != root && old(Linked(g));
      assert old(SpanOk(p)) && old(SpanOk(g)) && old(SpanOk(x));
      assert old(BlackOk(g)) && old(BlackOk(p)) && old(BlackOk(x));
      assert Blacks(x) == old(Blacks(p)) && Blacks(p) == p.bh == x.bh && Blacks(b) == old(Blacks(b));
      forall n | n in members ensures BlackOk(n) {
        assert Linked(n) && old(Linked(n)) && old(BlackOk(n));
        if n == p { } else if n == x { } else if n == g { } else { }
      }
    }

    twostate lemma RightLeftBalances(x: Node)
      requires RightLeftTurn(x)
      ensures RedAt(old(x.parent)) && x.red
      ensures x == old(x.parent).parent && x.right == old(x.parent) && x.parent == old(x.parent.parent)
        && x.parent.right == x
      ensures x.parent.left == old(x.parent.parent.left)
    {
      var p, g, b := old(x.parent), old(x.parent.parent), old(x.right);
      assert OthersSame(p, x, b, g) && TurnedRight(p, x, b, g) && (b != nil ==> NewParent(b, p));
      assert old(Linked(x)) && old(Linked(p)) && g != root && old(Linked(g));
      assert old(RedOk(x)) && old(RedOk(g)) && old(SpanOk(p)) && old(SpanOk(g)) && old(SpanOk(x));
      RightLeftBlacks(x);
      forall n | n in members && n != x ensures RedOk(n) {
        assert Linked(n) && old(Linked(n)) && (n != p ==> old(RedOk(n)));
      }
    }

    method RepairRightRight(x: Node)
      requires RedAt(x) && x.parent.red && x.parent.parent.right == x.parent && x.parent.right == x
        && !x.parent.parent.left.red
      modifies members, root
      ensures RedAt(x) && !x.parent.red && members == old(members) && Nodes() == old(Nodes()) && Same(nil) && !root.red
    {
      Grandparent(x);
      ghost var p, g, b, gg := x.parent, x.parent.parent, x.parent.left, x.parent.parent.parent;
      assert Linked(p) && Linked(x) && Linked(g);
      x.parent.red := false;
      x.parent.parent.red := true;
      ShapeIgnoresColors();
      LeftRotate(x.parent.parent);
      forall n | n in members && n != g && n != p && n != b && n != gg ensures Same(n) { }
      RightRightBalances(x);
    }

    // One turn of the loop of Insert, when x's parent is a right child.
    method InsertFixupRight(x0: Node) returns (x: Node)
      requires RedAt(x0) && x0.parent.red && x0.parent == x0.parent.parent.right
      modifies members, root
      ensures RedAt(x) && members == old(members) && Nodes() == old(Nodes()) && !root.red && Same(nil)
      ensures x.parent.red ==> |x.span| > old(|x0.span|)
    {
      x := x0;
      Grandparent(x);
      assert Linked(x.parent.parent) && Linked(x.parent) && Linked(x);
      var y := x.parent.parent.left;
      if y.red {
        Recolor(x, y);
        x := x.parent.parent;
      } else {
        if x == x.parent.left {
          x := x.parent;
          RightRotate(x);
          RightLeftBalances(x0);
          Grandparent(x);
        }
        RepairRightRight(x);
      }
    }

    // What RecursiveInsert leaves of the old colours and maxima.
    twostate predicate Hung(z: Node)
      reads this`members, members, root, nil, z
    {
      && members == old(members) + {z} && Same(nil)
      && z.left == nil && z.right == nil && root.red == old(root.red)
      && root.left == (if old(root.left) == nil then z else old(root.left))
      && (forall n {:trigger n.red} {:trigger n.bh} {:trigger n.maxHigh} {:trigger n.left} {:trigger n.right}
           | n in old(members) ::
            && n.red == old(n.red) && n.bh == old(n.bh) && n.maxHigh == old(n.maxHigh)
            && (n.left == old(n.left) || (n.left == z && old(n.left) == nil))
            && (n.right == old(n.right) || (n.right == z && old(n.right) == nil)))
    }

    twostate lemma HungMaxes(z: Node)
      requires old(Shape() && Maxes()) && z !in old(members) && Shape() && Hung(z) && z.maxHigh == z.high
      ensures MaxesOffPath(z.parent)
    {
      forall n | n in members && z.parent !in n.span ensures MaxOk(n) {
        assert Linked(n) && SpanOk(n);
        if n != z { assert old(Linked(n)) && old(MaxOk(n)); }
      }
    }

    // BlackOk once the new leaf z is counted as one black level.
    ghost predicate BlackOkBut(n: Node, z: Node)
      reads this`members, members, nil, n
    {
      && HasChildren(n)
      && n.bh == (if n.left == z then 1 else Blacks(n.left)) && n.bh == (if n.right == z then 1 else Blacks(n.right))
    }

    twostate lemma HungColors(z: Node)
      requires old(Shape() && Colors()) && z !in old(members) && Shape() && Hung(z) && !z.red
      ensures (forall n {:trigger RedOk(n)} | n in members :: RedOk(n)) && (root.left == z || !root.left.red)
      ensures forall n {:trigger BlackOkBut(n, z)} | n in members && n != z :: BlackOkBut(n, z)
    {
      forall n | n in members ensures RedOk(n) && (n == z || BlackOkBut(n, z)) {
        assert Linked(n);
        if n != z { assert old(Linked(n)) && old(RedOk(n)) && old(BlackOk(n)); }
      }
    }

    twostate lemma LeafColors(z: Node)
      requires old(Shape() && Maxes()) && OnlyColors() && z in members && old(z.left == nil && z.right == nil)
      requires old(forall n {:trigger RedOk(n)} | n in members :: RedOk(n)) && old(root.left == z || !root.left.red)
      requires old(forall n {:trigger BlackOkBut(n, z)} | n in members && n != z :: BlackOkBut(n, z))
      requires z.red && z.bh == 1 && forall n {:trigger n.red} {:trigger n.bh} | n in old(members) && n != z ::
        n.red == old(n.red) && n.bh == old(n.bh)
      ensures RedAt(z)
    {
      ShapeIgnoresColors();
      forall n | n in members ensures BlackOk(n) && (n != z.parent ==> RedOk(n)) {
        assert Linked(n) && old(RedOk(n)) && (n != z ==> old(BlackOkBut(n, z)));
      }
      assert Linked(z) && (z.parent != root ==> old(RedOk(z.parent)));
    }

    // The new leaf hangs in its place, still black and not yet counted.
    method HangLeaf(x: Node)
      requires Valid() && x !in members && x != root && x != nil && x.maxHigh == x.high && !x.red
      requires x.interval != null && x.key == x.interval.low && x.high == x.interval.high
      modifies this`members, members, root, x
      ensures Shape() && MaxesOffPath(x.parent) && Content() && Hung(x) && !x.red && !root.red
      ensures Nodes() == Inserted(old(Nodes()), x)
      ensures (forall n {:trigger RedOk(n)} | n in members :: RedOk(n)) && (root.left == x || !root.left.red)
      ensures forall n {:trigger BlackOkBut(n, x)} | n in members && n != x :: BlackOkBut(n, x)
    {
      RecursiveInsert(x);
      InsertedKeeps(old(Nodes()), x);
      InsertedHas(old(Nodes()), x);
      HungMaxes(x);
      HungColors(x);
    }

    // The maxima on the way up from the new leaf. Colours do not change.
    method FixupLeafMaxes(x: Node)
      requires Shape() && x in members && MaxesOffPath(x.parent) && Content()
      requires forall n {:trigger RedOk(n)} | n in members :: RedOk(n)
      requires forall n {:trigger BlackOkBut(n, x)} | n in members && n != x :: BlackOkBut(n, x)
      modifies members`maxHigh
      ensures Shape() && Maxes() && Content() && Nodes() == old(Nodes())
      ensures forall n {:trigger RedOk(n)} | n in members :: RedOk(n)
      ensures forall n {:trigger BlackOkBut(n, x)} | n in members && n != x :: BlackOkBut(n, x)
    {
      assert Linked(x);
      FixupMaxHigh(x.parent);
      forall n | n in members ensures RedOk(n) && (n != x ==> BlackOkBut(n, x)) {
        assert old(RedOk(n)) && (n != x ==> old(BlackOkBut(n, x)));
      }
    }

    // The first part of Insert: hang the new red leaf x, before the colour rules are repaired.
    method InsertLeaf(x: Node)
      requires Valid() && x !in members && x != root && x != nil && x.maxHigh == x.high && !x.red
      requires x.interval != null && x.key == x.interval.low && x.high == x.interval.high
      modifies this`members, members, root, x
      ensures RedAt(x) && members == old(members) + {x} && Content() && Nodes() == Inserted(old(Nodes()), x)
        && !root.red
      ensures root.left == if old(root.left) == nil then x else old(root.left)
      ensures old(forall n | n in members :: !n.red) ==> !x.parent.red
    {
      HangLeaf(x);
      assert Linked(x);
      FixupLeafMaxes(x);
      label leaf:
      x.red := true;
      x.bh := 1;
      LeafColors@leaf(x);
    }

    // The whole tree is in order once the root is painted black.
    method PaintRoot(ghost x: Node)
      requires RedAt(x) && !x.parent.red && Content() && !root.red
      modifies root.left
      ensures Valid() && members == old(members) && Nodes() == old(Nodes()) && root.left == old(root.left)
    {
      assert x in Nodes();
      root.left.red := false;
      ShapeIgnoresColors();
      assert old(Linked(x));
      forall n | n in members ensures BlackOk(n) && RedOk(n) {
        assert Linked(n) && old(BlackOk(n)) && (n != x.parent ==> old(RedOk(n)));
      }
    }

    method Insert(ivl: Interval) returns (newNode: Node)
      requires Valid()
      modifies this`members, members, root
      ensures Valid() && fresh(newNode) && newNode.interval == ivl
      ensures members == old(members) + {newNode}
      ensures Nodes() == Inserted(old(Nodes()), newNode)
      ensures old(forall n | n in members :: !n.red) ==>
        root.left == if old(root.left) == nil then newNode else old(root.left)
    {
      var x := new Node(ivl);
      InsertLeaf(x);
      newNode := x;
      ghost var top, flat := root.left, !x.parent.red;
      assert x in Nodes();
      Inside(root.left, x);
      while x.parent.red
        invariant RedAt(x) && members == old(members) + {newNode} && Nodes() == Inserted(old(Nodes()), newNode)
        invariant !root.red && Content()
        invariant |x.span| <= |Nodes()|
        invariant flat ==> !x.parent.red && root.left == top
        decreases if x.parent.red then 1 + |Nodes()| - |x.span| else 0
      {
        Grandparent(x);
        assert Linked(x.parent);
        if x.parent == x.parent.parent.left {
          x := InsertFixupLeft(x);
        } else {
          x := InsertFixupRight(x);
        }
        assert x in Nodes();
        Inside(root.left, x);
      }
      PaintRoot(x);
    }

    // ---- deletion: repairing the colours ----

    // x's subtree, below its parent p, is one black node short; everything else is in order. x may be nil.
    ghost predicate ShortAt(x: Node)
      reads this`members, members, root, nil, x
    {
      Shape() && Maxes() && (x == nil || x in members) && ShortColors(x)
    }

    ghost predicate ShortColors(x: Node)
      reads this`members, members, root, nil, root.left, x
    {
      var p := x.parent;
      && (forall n {:trigger BlackOk(n)} | n in members && n != p :: BlackOk(n))
      && (forall n {:trigger RedOk(n)} | n in members && n != p && n != x ::
           RedOk(n))   // a red x will be painted black
      && (if p == root then root.left == x
          else p in members && ShortSide(x, p) && !root.left.red)
    }

    ghost predicate ShortSide(x: Node, p: Node)
      reads this`members, members, nil, x, p
    {
      && HasChildren(p)
      && (|| (p.left == x && p.bh == Blacks(p.right) == Blacks(x) + 1 && (p.red ==> !p.right.red))
          || (p.right == x && p.bh == Blacks(p.left) == Blacks(x) + 1 && (p.red ==> !p.left.red)))
    }

    ghost predicate Settled()
      reads this`members, members, root, nil
    {
      Shape() && Maxes() && Colors()
    }

    // The sibling is red: one rotation gives x a black sibling (and a red parent).
    twostate predicate RedRightSiblingTurn(x: Node)
      reads this`members, members, root, nil, x
    {
      && old(ShortAt(x) && !x.red && x.parent in members && x.parent.left == x && x.parent.right.red)
      && Shape() && Maxes()
      && var p, w, b, pp := old(x.parent), old(x.parent.right), old(x.parent.right.left), old(x.parent.parent);
         && b in members && (pp == root || pp in members) && OthersSame(p, w, b, pp)
         && TurnedLeft(p, w, b, pp) && NewParent(b, p)
         && p.red && !w.red && p.bh == old(p.bh) && w.bh == old(w.bh)
    }

    twostate lemma RedRightSiblingBlacks(x: Node)
      requires RedRightSiblingTurn(x)
      ensures forall n {:trigger BlackOk(n)} | n in members && n != old(x.parent) :: BlackOk(n)
    {
      var p, w, b, pp := old(x.parent), old(x.parent.right), old(x.parent.right.left), old(x.parent.parent);
      assert OthersSame(p, w, b, pp) && TurnedLeft(p, w, b, pp) && NewParent(b, p);
      assert old(Linked(p)) && old(Linked(w)) && old(Linked(b)) && old(SpanOk(p)) && old(SpanOk(w));
      assert old(BlackOk(w)) && old(RedOk(w)) && x != w && x != p;
      assert x != nil ==> old(Linked(x)) && old(SpanOk(x));
      assert pp != root ==> old(Linked(pp)) && old(BlackOk(pp));
      assert Blacks(w) == old(Blacks(p)) && Blacks(p) == p.bh == w.bh && Blacks(b) == old(Blacks(b));
      forall n | n in members && n != p ensures BlackOk(n) {
        assert Linked(n) && old(Linked(n)) && old(BlackOk(n));
        if n == w { } else if n == pp { } else { }
      }
    }

    twostate lemma RedRightSiblingTurned(x: Node)
      requires RedRightSiblingTurn(x)
      ensures ShortAt(x) && x.parent == old(x.parent) && x.parent in members && x.parent.left == x
        && x.red == old(x.red)
    {
      var p, w, b, pp := old(x.parent), old(x.parent.right), old(x.parent.right.left), old(x.parent.parent);
      assert OthersSame(p, w, b, pp) && TurnedLeft(p, w, b, pp) && NewParent(b, p);
      assert old(Linked(p)) && old(Linked(w)) && old(Linked(b)) && old(SpanOk(p)) && old(SpanOk(w));
      assert old(BlackOk(w)) && old(RedOk(w)) && x != w && x != p;
      assert x != nil ==> old(Linked(x)) && old(SpanOk(x));
      assert pp != root ==> old(Linked(pp)) && old(RedOk(pp)) && old(BlackOk(pp));
      RedRightSiblingBlacks(x);
      forall n | n in members && n != p && n != x ensures RedOk(n) {
        assert Linked(n) && old(Linked(n)) && old(RedOk(n));
      }
      assert Linked(p);
    }

    method TurnRedRightSibling(x: Node)
      requires ShortAt(x) && !x.red && x.parent in members && x.parent.left == x && x.parent.right.red
      modifies members, root
      ensures ShortAt(x) && x.parent == old(x.parent) && x.parent in members && x.parent.left == x && !x.red
        && x.parent.red
      ensures !x.parent.right.red && members == old(members) && Nodes() == old(Nodes()) && !root.red
      ensures root.left == old(root.left) || old(root.left) == x.parent
      ensures nil.parent == old(nil.parent)
    {
      var p, w := x.parent, x.parent.right;
      ghost var b, pp := w.left, p.parent;
      assert Linked(p) && Linked(w) && BlackOk(w) && w != nil && b != nil;
      SwapColors(w, p);
      LeftRotate(p);
      forall n | n in members && n != p && n != w && n != b && n != pp ensures Same(n) { }
      RedRightSiblingTurned(x);
      assert RedOk(w) && Linked(w);
    }

    // Before a rotation: w turns black and p red.
    method SwapColors(w: Node, p: Node)
      requires Shape() && Maxes() && w in members && p in members && w != p
      modifies w`red, p`red
      ensures !w.red && p.red && OnlyColors() && Shape() && Maxes() && Nodes() == old(Nodes())
    {
      w.red := false;
      p.red := true;
      ShapeIgnoresColors();
    }

    // The sibling and its children are black: paint it red, and the shortage moves up to the parent.
    twostate lemma RightSiblingPainted(x: Node)
      requires old(ShortAt(x) && !x.red && x.parent in members && x.parent.left == x)
      requires old(var w := x.parent.right; !w.red && !w.left.red && !w.right.red)
      requires var p, w := old(x.parent), old(x.parent.right);
        && OnlyColors() && w.red && w.bh == old(w.bh) && p.red == old(p.red) && p.bh == old(p.bh) - 1
        && forall n {:trigger n.red} {:trigger n.bh} | n in old(members) && n != w && n != p ::
             n.red == old(n.red) && n.bh == old(n.bh)
      ensures ShortAt(old(x.parent))
    {
      var p, w := old(x.parent), old(x.parent.right);
      ShapeIgnoresColors();
      assert old(Linked(p)) && (w != nil ==> old(Linked(w)));
      var pp := p.parent;
      assert pp != root ==> old(Linked(pp)) && old(RedOk(pp)) && old(BlackOk(pp));
      assert w != p by { assert old(SpanOk(p)); }
      forall n | n in members && n != pp ensures BlackOk(n) && (n != p ==> RedOk(n)) {
        assert old(Linked(n)) && (n != p ==> old(BlackOk(n))) && (n != p && n != x ==> old(RedOk(n)));
      }
    }

    method PaintRightSibling(x: Node)
      requires ShortAt(x) && !x.red && x.parent in members && x.parent.left == x
      requires var w := x.parent.right; !w.red && !w.left.red && !w.right.red
      modifies x.parent, x.parent.right
      ensures ShortAt(x.parent) && x.parent == old(x.parent) && x.parent.red == old(x.parent.red)
      ensures OnlyColors()
    {
      var w := x.parent.right;
      assert Linked(x.parent) && SpanOk(x.parent);
      assert w != nil;
      w.red := true;
      ghost var p := x.parent;
      p.bh := p.bh - 1;
      RightSiblingPainted(x);
    }

    // Only the sibling's inner child is red: turn it outwards.
    twostate predicate InnerRightNephewTurn(x: Node)
      reads this`members, members, root, nil, x
    {
      && old(ShortAt(x) && !x.red && x.parent in members && x.parent.left == x)
      && old(var w := x.parent.right; w in members && !w.red && w.left.red && w.left in members && !w.right.red)
      && Shape() && Maxes()
      && var p, w, v, b := old(x.parent), old(x.parent.right), old(x.parent.right.left), old(x.parent.right.left.right);
         && (b == nil || b in members) && OthersSame(w, v, b, p) && TurnedRight(w, v, b, p)
         && (b != nil ==> NewParent(b, w))
         && w.red && !v.red && w.bh == old(w.bh) && v.bh == old(v.bh)
    }

    twostate lemma InnerRightNephewBlacks(x: Node)
      requires InnerRightNephewTurn(x)
      ensures forall n {:trigger BlackOk(n)} | n in members && n != old(x.parent) :: BlackOk(n)
    {
      var p, w, v, b := old(x.parent), old(x.parent.right), old(x.parent.right.left), old(x.parent.right.left.right);
      assert OthersSame(w, v, b, p) && TurnedRight(w, v, b, p) && (b != nil ==> NewParent(b, w));
      assert old(Linked(p)) && old(Linked(w)) && old(Linked(v)) && old(SpanOk(p)) && old(SpanOk(w)) && old(SpanOk(v));
      assert old(BlackOk(w)) && old(BlackOk(v)) && x != w && x != p && x != v;
      assert x != nil ==> old(Linked(x)) && old(SpanOk(x));
      assert Blacks(w) == old(Blacks(v)) && w.bh == v.bh && Blacks(b) == old(Blacks(b)) && Blacks(x) == old(Blacks(x));
      forall n | n in members && n != p ensures BlackOk(n) {
        assert Linked(n) && old(Linked(n)) && old(BlackOk(n));
        if n == w { } else if n == v { } else if n == x { } else { }
      }
    }

    twostate lemma InnerRightNephewReds(x: Node)
      requires InnerRightNephewTurn(x)
      ensures forall n {:trigger RedOk(n)} | n in members && n != old(x.parent) && n != x :: RedOk(n)
    {
      var p, w, v, b := old(x.parent), old(x.parent.right), old(x.parent.right.left), old(x.parent.right.left.right);
      assert OthersSame(w, v, b, p) && TurnedRight(w, v, b, p) && (b != nil ==> NewParent(b, w));
      assert old(Linked(p)) && old(Linked(w)) && old(Linked(v)) && old(SpanOk(p)) && old(SpanOk(w)) && old(SpanOk(v));
      assert old(RedOk(v)) && x != w && x != p && x != v;
      assert x != nil ==> old(Linked(x)) && old(SpanOk(x));
      forall n | n in members && n != p && n != x ensures RedOk(n) {
        assert Linked(n) && old(Linked(n)) && old(RedOk(n));
      }
    }

    twostate lemma InnerRightNephewTurned(x: Node)
      requires InnerRightNephewTurn(x)
      ensures ShortAt(x) && x.parent == old(x.parent) && x.parent in members && x.parent.left == x
        && x.red == old(x.red)
      ensures var v := x.parent.right;
        v in members && !v.red && v.right.red && v.right in members && x.parent.red == old(x.parent.red)
    {
      var p, w, v, b := old(x.parent), old(x.parent.right), old(x.parent.right.left), old(x.parent.right.left.right);
      assert OthersSame(w, v, b, p) && TurnedRight(w, v, b, p) && (b != nil ==> NewParent(b, w));
      assert old(Linked(p)) && old(Linked(w)) && old(Linked(v)) && old(SpanOk(p)) && old(SpanOk(w)) && old(SpanOk(v));
      assert old(BlackOk(w)) && old(BlackOk(v)) && x != w && x != p && x != v;
      assert x != nil ==> old(Linked(x)) && old(SpanOk(x));
      InnerRightNephewBlacks(x);
      InnerRightNephewReds(x);
      assert Linked(p);
    }

    method TurnInnerRightNephew(x: Node)
      requires ShortAt(x) && !x.red && x.parent in members && x.parent.left == x
      requires var w := x.parent.right; w in members && !w.red && w.left.red && !w.right.red
      modifies members
      ensures ShortAt(x) && x.parent == old(x.parent) && x.parent in members && x.parent.left == x && !x.red
      ensures x.parent.red == old(x.parent.red) && members == old(members) && Nodes() == old(Nodes())
      ensures var v := x.parent.right; v in members && !v.red && v.right.red && v.right in members
      ensures nil.parent == old(nil.parent) && Same(root)
    {
      var w := x.parent.right;
      assert Linked(x.parent) && Linked(w);
      ghost var p, v, b := x.parent, w.left, w.left.right;
      assert Linked(v);
      w.left.red := false;
      w.red := true;
      ShapeIgnoresColors();
      RightRotate(w);
      forall n | n in members && n != p && n != w && n != b && n != v ensures Same(n) { }
      InnerRightNephewTurned(x);
    }

    // The sibling's outer child is red: one rotation of the parent ends the repair.
    twostate predicate OuterRightNephewTurn(x: Node)
      reads this`members, members, root, nil, x
    {
      && old(ShortAt(x) && !x.red && x.parent in members && x.parent.left == x)
      && old(var w := x.parent.right; w in members && !w.red && w.right.red && w.right in members)
      && Shape() && Maxes() && members == old(members)
      && var p, w, v, b, pp :=
           old(x.parent), old(x.parent.right), old(x.parent.right.right), old(x.parent.right.left),
           old(x.parent.parent);
         && (b == nil || b in members) && (pp == root || pp in members) && Same(nil) && (pp != root ==> Same(root))
         && (forall n {:trigger n.left} {:trigger n.parent} {:trigger n.red} {:trigger n.bh}
               | n in old(members) && n != p && n != w && n != v && n != b && n != pp :: Same(n))
         && TurnedLeft(p, w, b, pp) && (b != nil ==> NewParent(b, p))
         && v.left == old(v.left) && v.right == old(v.right) && v.parent == old(v.parent)
         && w.red == old(p.red) && !p.red && !v.red && p.bh == old(p.bh) - 1 && w.bh == old(p.bh) && v.bh == old(v.bh)
    }

    twostate lemma OuterRightNephewOwnBlacks(x: Node)
      requires OuterRightNephewTurn(x)
      ensures var p, w, v, pp := old(x.parent), old(x.parent.right), old(x.parent.right.right), old(x.parent.parent);
        && p in members && w in members && v in members && BlackOk(p) && BlackOk(w) && BlackOk(v)
        && (pp != root ==> pp in members && BlackOk(pp))
    {
      var p, w, v, b, pp :=
        old(x.parent), old(x.parent.right), old(x.parent.right.right), old(x.parent.right.left), old(x.parent.parent);
      assert TurnedLeft(p, w, b, pp) && Same(nil) && (b != nil ==> NewParent(b, p)) && (pp != root ==> Same(root));
      assert old(Linked(p)) && old(Linked(w)) && old(Linked(v)) && old(SpanOk(p)) && old(SpanOk(w)) && old(SpanOk(v));
      assert old(BlackOk(w)) && old(BlackOk(v));
      assert x != nil ==> old(Linked(x)) && old(SpanOk(x));
      assert b != nil ==> old(Linked(b));
      assert pp != root ==> old(Linked(pp)) && old(BlackOk(pp));
      assert x != p && x != w && x != v && b != v && pp != w && pp != v && pp != b;
      assert Blacks(w) == old(Blacks(p)) && Blacks(p) == old(p.bh) && Blacks(v) == w.bh && w.bh == old(p.bh);
      assert Blacks(b) == old(Blacks(b)) && Blacks(x) == old(Blacks(x));
      assert Linked(p) && Linked(w) && Linked(v) && (pp != root ==> Linked(pp));
    }

    twostate lemma OuterRightNephewBlacks(x: Node)
      requires OuterRightNephewTurn(x)
      ensures forall n {:trigger BlackOk(n)} | n in members :: BlackOk(n)
    {
      var p, w, v, b, pp :=
        old(x.parent), old(x.parent.right), old(x.parent.right.right), old(x.parent.right.left), old(x.parent.parent);
      OuterRightNephewOwnBlacks(x);
      assert TurnedLeft(p, w, b, pp) && Same(nil) && (b != nil ==> NewParent(b, p)) && (pp != root ==> Same(root));
      assert old(Linked(p)) && old(Linked(w)) && old(Linked(v));
      forall n | n in members && n != p && n != w && n != v && n != pp ensures BlackOk(n) {
        assert Linked(n) && old(Linked(n)) && old(BlackOk(n));
        assert n.left == old(n.left) && n.right == old(n.right) && n.bh == old(n.bh);
      }
    }

    twostate lemma OuterRightNephewReds(x: Node)
      requires OuterRightNephewTurn(x)
      ensures (forall n {:trigger RedOk(n)} | n in members :: RedOk(n)) && !root.left.red
    {
      var p, w, v, b, pp :=
        old(x.parent), old(x.parent.right), old(x.parent.right.right), old(x.parent.right.left), old(x.parent.parent);
      assert TurnedLeft(p, w, b, pp) && Same(nil) && (b != nil ==> NewParent(b, p)) && (pp != root ==> Same(root));
      assert old(Linked(p)) && old(Linked(w)) && old(Linked(v)) && old(SpanOk(p)) && old(SpanOk(w)) && old(SpanOk(v));
      assert old(RedOk(w)) && old(RedOk(v));
      assert x != nil ==> old(Linked(x)) && old(SpanOk(x));
      assert b != nil ==> old(Linked(b));
      assert pp != root ==> old(Linked(pp)) && old(RedOk(pp));
      assert x != p && x != w && x != v && b != v && pp != w && pp != v && pp != b;
      forall n | n in members ensures RedOk(n) {
        assert Linked(n) && old(Linked(n)) && (n != p && n != x ==> old(RedOk(n)));
      }
    }

    twostate lemma OuterRightNephewTurned(x: Node)
      requires OuterRightNephewTurn(x)
      ensures Colors()
    {
      OuterRightNephewBlacks(x);
      OuterRightNephewReds(x);
    }

    method PaintOuterRightNephew(p: Node, w: Node, v: Node)
      requires Shape() && Maxes() && p in members && w in members && v in members && p != w && p != v && w != v
        && p.bh > 0
      modifies p, w, v
      ensures OnlyColors() && Shape() && Maxes()
      ensures w.red == old(p.red) && !p.red && !v.red && p.bh == old(p.bh) - 1 && w.bh == old(p.bh) && v.bh == old(v.bh)
    {
      w.red := p.red;
      p.red := false;
      v.red := false;
      w.bh := p.bh;
      p.bh := p.bh - 1;
      ShapeIgnoresColors();
    }

    method TurnOuterRightNephew(x: Node)
      requires ShortAt(x) && !x.red && x.parent in members && x.parent.left == x
      requires var w := x.parent.right; w in members && !w.red && w.right.red && w.right in members
      modifies members, root
      ensures Shape() && Maxes() && Colors() && members == old(members) && Nodes() == old(Nodes()) && Same(nil)
      ensures !root.red && !old(x.parent).red && (root.left == old(root.left) || old(root.left) == old(x.parent))
    {
      var p, w := x.parent, x.parent.right;
      ghost var v, b, pp := w.right, w.left, p.parent;
      assert Linked(p) && Linked(w) && Linked(v) && SpanOk(p) && SpanOk(w);
      assert pp != root ==> SpanOk(pp);
      assert pp != w && pp != v && pp != b;
      PaintOuterRightNephew(x.parent, w, w.right);
      LeftRotate(x.parent);
      forall n | n in members && n != p && n != w && n != v && n != b && n != pp ensures Same(n) { }
      OuterRightNephewTurned(x);
    }

    // One turn of the loop of DeleteFixup, when x is a left child. top is the tree's root as the loop found it.
    method DeleteFixupLeft(x0: Node, top: Node) returns (x: Node)
      requires ShortAt(x0) && !x0.red && x0 != top && root.left == top && x0.parent in members && x0.parent.left == x0
      requires !root.red
      modifies members, root
      ensures members == old(members) && Nodes() == old(Nodes()) && !root.red
      ensures (Settled() && x == top && !top.red) || (ShortAt(x) && x == old(x0.parent) && x in members)
      ensures root.left == top || (x == top && (x.red || Settled()))
      ensures x != top && !x.red ==>
        x.parent == old(x0.parent.parent) && (x.parent != root ==> |x.parent.span| > old(|x0.parent.span|))
    {
      x := x0;
      ghost var p := x.parent;
      assert Linked(p) && SpanOk(p);
      var w := x.parent.right;
      if w.red {
        TurnRedRightSibling(x);
        w := x.parent.right;
      }
      assert Linked(p) && w in members && Linked(w) && p == x.parent;
      if !w.right.red && !w.left.red {
        label paint:
        PaintRightSibling(x);
        x := x.parent;
        assert Linked(x) && (x.parent != root ==> SpanOk(x.parent));
      } else {
        if !w.right.red {
          TurnInnerRightNephew(x);
          w := x.parent.right;
        }
        TurnOuterRightNephew(x);
        x := top;
      }
    }

    // The sibling is red: one rotation gives x a black sibling (and a red parent).
    twostate predicate RedLeftSiblingTurn(x: Node)
      reads this`members, members, root, nil, x
    {
      && old(ShortAt(x) && !x.red && x.parent in members && x.parent.right == x && x.parent.left.red)
      && Shape() && Maxes()
      && var p, w, b, pp := old(x.parent), old(x.parent.left), old(x.parent.left.right), old(x.parent.parent);
         && b in members && (pp == root || pp in members) && OthersSame(p, w, b, pp)
         && TurnedRight(p, w, b, pp) && NewParent(b, p)
         && p.red && !w.red && p.bh == old(p.bh) && w.bh == old(w.bh)
    }

    twostate lemma RedLeftSiblingBlacks(x: Node)
      requires RedLeftSiblingTurn(x)
      ensures forall n {:trigger BlackOk(n)} | n in members && n != old(x.parent) :: BlackOk(n)
    {
      var p, w, b, pp := old(x.parent), old(x.parent.left), old(x.parent.left.right), old(x.parent.parent);
      assert OthersSame(p, w, b, pp) && TurnedRight(p, w, b, pp) && NewParent(b, p);
      assert old(Linked(p)) && old(Linked(w)) && old(Linked(b)) && old(SpanOk(p)) && old(SpanOk(w));
      assert old(BlackOk(w)) && old(RedOk(w)) && x != w && x != p;
      assert x != nil ==> old(Linked(x)) && old(SpanOk(x));
      assert pp != root ==> old(Linked(pp)) && old(BlackOk(pp));
      assert Blacks(w) == old(Blacks(p)) && Blacks(p) == p.bh == w.bh && Blacks(b) == old(Blacks(b));
      forall n | n in members && n != p ensures BlackOk(n) {
        assert Linked(n) && old(Linked(n)) && old(BlackOk(n));
        if n == w { } else if n == pp { } else { }
      }
    }

    twostate lemma RedLeftSiblingTurned(x: Node)
      requires RedLeftSiblingTurn(x)
      ensures ShortAt(x) && x.parent == old(x.parent) && x.parent in members && x.parent.right == x
        && x.red == old(x.red)
    {
      var p, w, b, pp := old(x.parent), old(x.parent.left), old(x.parent.left.right), old(x.parent.parent);
      assert OthersSame(p, w, b, pp) && TurnedRight(p, w, b, pp) && NewParent(b, p);
      assert old(Linked(p)) && old(Linked(w)) && old(Linked(b)) && old(SpanOk(p)) && old(SpanOk(w));
      assert old(BlackOk(w)) && old(RedOk(w)) && x != w && x != p;
      assert x != nil ==> old(Linked(x)) && old(SpanOk(x));
      assert pp != root ==> old(Linked(pp)) && old(RedOk(pp)) && old(BlackOk(pp));
      RedLeftSiblingBlacks(x);
      forall n | n in members && n != p && n != x ensures RedOk(n) {
        assert Linked(n) && old(Linked(n)) && old(RedOk(n));
      }
      assert Linked(p);
    }

    method TurnRedLeftSibling(x: Node)
      requires ShortAt(x) && !x.red && x.parent in members && x.parent.right == x && x.parent.left.red
      modifies members, root
      ensures ShortAt(x) && x.parent == old(x.parent) && x.parent in members && x.parent.right == x && !x.red
        && x.parent.red
      ensures !x.parent.left.red && members == old(members) && Nodes() == old(Nodes()) && !root.red
      ensures root.left == old(root.left) || old(root.left) == x.parent
      ensures nil.parent == old(nil.parent)
    {
      var p, w := x.parent, x.parent.left;
      ghost var b, pp := w.right, p.parent;
      assert Linked(p) && Linked(w) && BlackOk(w) && w != nil && b != nil;
      SwapColors(w, p);
      RightRotate(p);
      forall n | n in members && n != p && n != w && n != b && n != pp ensures Same(n) { }
      RedLeftSiblingTurned(x);
      assert RedOk(w) && Linked(w);
    }

    // The sibling and its children are black: paint it red, and the shortage moves up to the parent.
    twostate lemma LeftSiblingPainted(x: Node)
      requires old(ShortAt(x) && !x.red && x.parent in members && x.parent.right == x)
      requires old(var w := x.parent.left; !w.red && !w.right.red && !w.left.red)
      requires var p, w := old(x.parent), old(x.parent.left);
        && OnlyColors() && w.red && w.bh == old(w.bh) && p.red == old(p.red) && p.bh == old(p.bh) - 1
        && forall n {:trigger n.red} {:trigger n.bh} | n in old(members) && n != w && n != p ::
             n.red == old(n.red) && n.bh == old(n.bh)
      ensures ShortAt(old(x.parent))
    {
      var p, w := old(x.parent), old(x.parent.left);
      ShapeIgnoresColors();
      assert old(Linked(p)) && (w != nil ==> old(Linked(w)));
      var pp := p.parent;
      assert pp != root ==> old(Linked(pp)) && old(RedOk(pp)) && old(BlackOk(pp));
      assert w != p by { assert old(SpanOk(p)); }
      forall n | n in members && n != pp ensures BlackOk(n) && (n != p ==> RedOk(n)) {
        assert old(Linked(n)) && (n != p ==> old(BlackOk(n))) && (n != p && n != x ==> old(RedOk(n)));
      }
    }

    method PaintLeftSibling(x: Node)
      requires ShortAt(x) && !x.red && x.parent in members && x.parent.right == x
      requires var w := x.parent.left; !w.red && !w.right.red && !w.left.red
      modifies x.parent, x.parent.left
      ensures ShortAt(x.parent) && x.parent == old(x.parent) && x.parent.red == old(x.parent.red)
      ensures OnlyColors()
    {
      var w := x.parent.left;
      assert Linked(x.parent) && SpanOk(x.parent);
      assert w != nil;
      w.red := true;
      ghost var p := x.parent;
      p.bh := p.bh - 1;
      LeftSiblingPainted(x);
    }

    // Only the sibling's inner child is red: turn it outwards.
    twostate predicate InnerLeftNephewTurn(x: Node)
      reads this`members, members, root, nil, x
    {
      && old(ShortAt(x) && !x.red && x.parent in members && x.parent.right == x)
      && old(var w := x.parent.left; w in members && !w.red && w.right.red && w.right in members && !w.left.red)
      && Shape() && Maxes()
      && var p, w, v, b := old(x.parent), old(x.parent.left), old(x.parent.left.right), old(x.parent.left.right.left);
         && (b == nil || b in members) && OthersSame(w, v, b, p) && TurnedLeft(w, v, b, p)
         && (b != nil ==> NewParent(b, w))
         && w.red && !v.red && w.bh == old(w.bh) && v.bh == old(v.bh)
    }

    twostate lemma InnerLeftNephewBlacks(x: Node)
      requires InnerLeftNephewTurn(x)
      ensures forall n {:trigger BlackOk(n)} | n in members && n != old(x.parent) :: BlackOk(n)
    {
      var p, w, v, b := old(x.parent), old(x.parent.left), old(x.parent.left.right), old(x.parent.left.right.left);
      assert OthersSame(w, v, b, p) && TurnedLeft(w, v, b, p) && (b != nil ==> NewParent(b, w));
      assert old(Linked(p)) && old(Linked(w)) && old(Linked(v)) && old(SpanOk(p)) && old(SpanOk(w)) && old(SpanOk(v));
      assert old(BlackOk(w)) && old(BlackOk(v)) && x != w && x != p && x != v;
      assert x != nil ==> old(Linked(x)) && old(SpanOk(x));
      assert Blacks(w) == old(Blacks(v)) && w.bh == v.bh && Blacks(b) == old(Blacks(b)) && Blacks(x) == old(Blacks(x));
      forall n | n in members && n != p ensures BlackOk(n) {
        assert Linked(n) && old(Linked(n)) && old(BlackOk(n));
        if n == w { } else if n == v { } else if n == x { } else { }
      }
    }

    twostate lemma InnerLeftNephewReds(x: Node)
      requires InnerLeftNephewTurn(x)
      ensures forall n {:trigger RedOk(n)} | n in members && n != old(x.parent) && n != x :: RedOk(n)
    {
      var p, w, v, b := old(x.parent), old(x.parent.left), old(x.parent.left.right), old(x.parent.left.right.left);
      assert OthersSame(w, v, b, p) && TurnedLeft(w, v, b, p) && (b != nil ==> NewParent(b, w));
      assert old(Linked(p)) && old(Linked(w)) && old(Linked(v)) && old(SpanOk(p)) && old(SpanOk(w)) && old(SpanOk(v));
      assert old(RedOk(v)) && x != w && x != p && x != v;
      assert x != nil ==> old(Linked(x)) && old(SpanOk(x));
      forall n | n in members && n != p && n != x ensures RedOk(n) {
        assert Linked(n) && old(Linked(n)) && old(RedOk(n));
      }
    }

    twostate lemma InnerLeftNephewTurned(x: Node)
      requires InnerLeftNephewTurn(x)
      ensures ShortAt(x) && x.parent == old(x.parent) && x.parent in members && x.parent.right == x
        && x.red == old(x.red)
      ensures var v := x.parent.left;
        v in members && !v.red && v.left.red && v.left in members && x.parent.red == old(x.parent.red)
    {
      var p, w, v, b := old(x.parent), old(x.parent.left), old(x.parent.left.right), old(x.parent.left.right.left);
      assert OthersSame(w, v, b, p) && TurnedLeft(w, v, b, p) && (b != nil ==> NewParent(b, w));
      assert old(Linked(p)) && old(Linked(w)) && old(Linked(v)) && old(SpanOk(p)) && old(SpanOk(w)) && old(SpanOk(v));
      assert old(BlackOk(w)) && old(BlackOk(v)) && x != w && x != p && x != v;
      assert x != nil ==> old(Linked(x)) && old(SpanOk(x));
      InnerLeftNephewBlacks(x);
      InnerLeftNephewReds(x);
      assert Linked(p);
    }

    method TurnInnerLeftNephew(x: Node)
      requires ShortAt(x) && !x.red && x.parent in members && x.parent.right == x
      requires var w := x.parent.left; w in members && !w.red && w.right.red && !w.left.red
      modifies members
      ensures ShortAt(x) && x.parent == old(x.parent) && x.parent in members && x.parent.right == x && !x.red
      ensures x.parent.red == old(x.parent.red) && members == old(members) && Nodes() == old(Nodes())
      ensures var v := x.parent.left; v in members && !v.red && v.left.red && v.left in members
      ensures nil.parent == old(nil.parent) && Same(root)
    {
      var w := x.parent.left;
      assert Linked(x.parent) && Linked(w);
      ghost var p, v, b := x.parent, w.right, w.right.left;
      assert Linked(v);
      w.right.red := false;
      w.red := true;
      ShapeIgnoresColors();
      LeftRotate(w);
      forall n | n in members && n != p && n != w && n != b && n != v ensures Same(n) { }
      InnerLeftNephewTurned(x);
    }

    // The sibling's outer child is red: one rotation of the parent ends the repair.
    twostate predicate OuterLeftNephewTurn(x: Node)
      reads this`members, members, root, nil, x
    {
      && old(ShortAt(x) && !x.red && x.parent in members && x.parent.right == x)
      && old(var w := x.parent.left; w in members && !w.red && w.left.red && w.left in members)
      && Shape() && Maxes() && members == old(members)
      && var p, w, v, b, pp :=
           old(x.parent), old(x.parent.left), old(x.parent.left.left), old(x.parent.left.right),
           old(x.parent.parent);
         && (b == nil || b in members) && (pp == root || pp in members) && Same(nil) && (pp != root ==> Same(root))
         && (forall n {:trigger n.right} {:trigger n.parent} {:trigger n.red} {:trigger n.bh}
               | n in old(members) && n != p && n != w && n != v && n != b && n != pp :: Same(n))
         && TurnedRight(p, w, b, pp) && (b != nil ==> NewParent(b, p))
         && v.right == old(v.right) && v.left == old(v.left) && v.parent == old(v.parent)
         && w.red == old(p.red) && !p.red && !v.red && p.bh == old(p.bh) - 1 && w.bh == old(p.bh) && v.bh == old(v.bh)
    }

    twostate lemma OuterLeftNephewOwnBlacks(x: Node)
      requires OuterLeftNephewTurn(x)
      ensures var p, w, v, pp := old(x.parent), old(x.parent.left), old(x.parent.left.left), old(x.parent.parent);
        && p in members && w in members && v in members && BlackOk(p) && BlackOk(w) && BlackOk(v)
        && (pp != root ==> pp in members && BlackOk(pp))
    {
      var p, w, v, b, pp :=
        old(x.parent), old(x.parent.left), old(x.parent.left.left), old(x.parent.left.right), old(x.parent.parent);
      assert TurnedRight(p, w, b, pp) && Same(nil) && (b != nil ==> NewParent(b, p)) && (pp != root ==> Same(root));
      assert old(Linked(p)) && old(Linked(w)) && old(Linked(v)) && old(SpanOk(p)) && old(SpanOk(w)) && old(SpanOk(v));
      assert old(BlackOk(w)) && old(BlackOk(v));
      assert x != nil ==> old(Linked(x)) && old(SpanOk(x));
      assert b != nil ==> old(Linked(b));
      assert pp != root ==> old(Linked(pp)) && old(BlackOk(pp));
      assert x != p && x != w && x != v && b != v && pp != w && pp != v && pp != b;
      assert Blacks(w) == old(Blacks(p)) && Blacks(p) == old(p.bh) && Blacks(v) == w.bh && w.bh == old(p.bh);
      assert Blacks(b) == old(Blacks(b)) && Blacks(x) == old(Blacks(x));
      assert Linked(p) && Linked(w) && Linked(v) && (pp != root ==> Linked(pp));
    }

    twostate lemma OuterLeftNephewBlacks(x: Node)
      requires OuterLeftNephewTurn(x)
      ensures forall n {:trigger BlackOk(n)} | n in members :: BlackOk(n)
    {
      var p, w, v, b, pp :=
        old(x.parent), old(x.parent.left), old(x.parent.left.left), old(x.parent.left.right), old(x.parent.parent);
      OuterLeftNephewOwnBlacks(x);
      assert TurnedRight(p, w, b, pp) && Same(nil) && (b != nil ==> NewParent(b, p)) && (pp != root ==> Same(root));
      assert old(Linked(p)) && old(Linked(w)) && old(Linked(v));
      forall n | n in members && n != p && n != w && n != v && n != pp ensures BlackOk(n) {
        assert Linked(n) && old(Linked(n)) && old(BlackOk(n));
        assert n.right == old(n.right) && n.left == old(n.left) && n.bh == old(n.bh);
      }
    }

    twostate lemma OuterLeftNephewReds(x: Node)
      requires OuterLeftNephewTurn(x)
      ensures (forall n {:trigger RedOk(n)} | n in members :: RedOk(n)) && !root.left.red
    {
      var p, w, v, b, pp :=
        old(x.parent), old(x.parent.left), old(x.parent.left.left), old(x.parent.left.right), old(x.parent.parent);
      assert TurnedRight(p, w, b, pp) && Same(nil) && (b != nil ==> NewParent(b, p)) && (pp != root ==> Same(root));
      assert old(Linked(p)) && old(Linked(w)) && old(Linked(v)) && old(SpanOk(p)) && old(SpanOk(w)) && old(SpanOk(v));
      assert old(RedOk(w)) && old(RedOk(v));
      assert x != nil ==> old(Linked(x)) && old(SpanOk(x));
      assert b != nil ==> old(Linked(b));
      assert pp != root ==> old(Linked(pp)) && old(RedOk(pp));
      assert x != p && x != w && x != v && b != v && pp != w && pp != v && pp != b;
      forall n | n in members ensures RedOk(n) {
        assert Linked(n) && old(Linked(n)) && (n != p && n != x ==> old(RedOk(n)));
      }
    }

    twostate lemma OuterLeftNephewTurned(x: Node)
      requires OuterLeftNephewTurn(x)
      ensures Colors()
    {
      OuterLeftNephewBlacks(x);
      OuterLeftNephewReds(x);
    }

    method PaintOuterLeftNephew(p: Node, w: Node, v: Node)
      requires Shape() && Maxes() && p in members && w in members && v in members && p != w && p != v && w != v
        && p.bh > 0
      modifies p, w, v
      ensures OnlyColors() && Shape() && Maxes()
      ensures w.red == old(p.red) && !p.red && !v.red && p.bh == old(p.bh) - 1 && w.bh == old(p.bh) && v.bh == old(v.bh)
    {
      w.red := p.red;
      p.red := false;
      v.red := false;
      w.bh := p.bh;
      p.bh := p.bh - 1;
      ShapeIgnoresColors();
    }

    method TurnOuterLeftNephew(x: Node)
      requires ShortAt(x) && !x.red && x.parent in members && x.parent.right == x
      requires var w := x.parent.left; w in members && !w.red && w.left.red && w.left in members
      modifies members, root
      ensures Shape() && Maxes() && Colors() && members == old(members) && Nodes() == old(Nodes()) && Same(nil)
      ensures !root.red && !old(x.parent).red && (root.left == old(root.left) || old(root.left) == old(x.parent))
    {
      var p, w := x.parent, x.parent.left;
      ghost var v, b, pp := w.left, w.right, p.parent;
      assert Linked(p) && Linked(w) && Linked(v) && SpanOk(p) && SpanOk(w);
      assert pp != root ==> SpanOk(pp);
      assert pp != w && pp != v && pp != b;
      PaintOuterLeftNephew(x.parent, w, w.left);
      RightRotate(x.parent);
      forall n | n in members && n != p && n != w && n != v && n != b && n != pp ensures Same(n) { }
      OuterLeftNephewTurned(x);
    }

    // One turn of the loop of DeleteFixup, when x is a right child. top is the tree's root as the loop found it.
    method DeleteFixupRight(x0: Node, top: Node) returns (x: Node)
      requires ShortAt(x0) && !x0.red && x0 != top && root.left == top && x0.parent in members && x0.parent.right == x0
      requires !root.red
      modifies members, root
      ensures members == old(members) && Nodes() == old(Nodes()) && !root.red
      ensures (Settled() && x == top && !top.red) || (ShortAt(x) && x == old(x0.parent) && x in members)
      ensures root.left == top || (x == top && (x.red || Settled()))
      ensures x != top && !x.red ==>
        x.parent == old(x0.parent.parent) && (x.parent != root ==> |x.parent.span| > old(|x0.parent.span|))
    {
      x := x0;
      ghost var p := x.parent;
      assert Linked(p) && SpanOk(p);
      var w := x.parent.left;
      if w.red {
        TurnRedLeftSibling(x);
        w := x.parent.left;
      }
      assert Linked(p) && w in members && Linked(w) && p == x.parent;
      if !w.left.red && !w.right.red {
        label paint:
        PaintLeftSibling(x);
        x := x.parent;
        assert Linked(x) && (x.parent != root ==> SpanOk(x.parent));
      } else {
        if !w.left.red {
          TurnInnerLeftNephew(x);
          w := x.parent.left;
        }
        TurnOuterLeftNephew(x);
        x := top;
      }
    }

    lemma ShortNotTop(x: Node, top: Node)
      requires ShortAt(x) && x != top && root.left == top
      ensures x.parent in members && Linked(x.parent) && (x.parent.left == x <==> x.parent.right != x)
    {
      assert x.parent != root;
      assert Linked(x.parent);
    }

    // The last line of DeleteFixup.
    method PaintBlack(x: Node, ghost top: Node)
      requires !root.red && Content() && (x == nil || x in members)
      requires (Settled() && x == top && !top.red) || (ShortAt(x) && (x.red || root.left == x))
      modifies x
      ensures Valid() && members == old(members) && Nodes() == old(Nodes())
    {
      assert x.parent in members ==> x.parent in Nodes();
      assert x == root.left && x != nil ==> Linked(x);
      x.red := false;
      ShapeIgnoresColors();
      forall n | n in members ensures BlackOk(n) && RedOk(n) {
        assert Linked(n) && old(Linked(n));
        if old(Settled()) {
          assert old(BlackOk(n)) && old(RedOk(n));
        } else {
          assert (n != x.parent ==> old(BlackOk(n))) && (n != x && n != x.parent ==> old(RedOk(n)));
        }
      }
    }

    method DeleteFixup(x0: Node)
      requires ShortAt(x0) && !root.red && Content()
      modifies members, root, nil
      ensures Valid() && members == old(members) && Nodes() == old(Nodes())
    {
      var x := x0;
      var top := root.left;
      if x.parent in members {
        assert x.parent in Nodes();
        Inside(root.left, x.parent);
      }
      while !x.red && top != x
        invariant !root.red && Content() && members == old(members) && Nodes() == old(Nodes())
        invariant (Settled() && x == top && !top.red) || (ShortAt(x) && (root.left == top || (x == top && x.red)))
        invariant x.parent in members ==> |x.parent.span| <= |Nodes()|
        decreases if x.red || x == top || x.parent !in members then 0 else 1 + |Nodes()| - |x.parent.span|
      {
        ShortNotTop(x, top);
        if x == x.parent.left {
          x := DeleteFixupLeft(x, top);
        } else {
          x := DeleteFixupRight(x, top);
        }
        if x.parent in members {
          assert x.parent in Nodes();
          Inside(root.left, x.parent);
        }
      }
      PaintBlack(x, top);
    }

    // ---- neighbours ----

    // A node's span is a contiguous stretch of the span of anything above it.
    lemma {:induction false} SpanWithin(c: Node, n: Node) returns (k: nat)
      requires Shape() && c in members && n in c.span
      ensures n in members && k + |n.span| <= |c.span| && c.span[k..k + |n.span|] == n.span
      decreases |c.span|
    {
      assert Linked(c) && SpanOk(c);
      if n in c.left.span {
        k := SpanWithin(c.left, n);
      } else if n in c.right.span {
        k := SpanWithin(c.right, n);
        k := |c.left.span| + 1 + k;
      } else {
        k := 0;
      }
    }

    method GetMinimum(x0: Node) returns (x: Node)
      requires Shape() && x0 in members
      ensures x in members && x in x0.span && x.left == nil && x == x0.span[0]
    {
      x := x0;
      assert SpanOk(x) && x0 == x0.span[|x0.left.span|];
      while x.left != nil
        invariant x in members && x in x0.span && x.span != [] && x.span[0] == x0.span[0]
        decreases |x.span|
      {
        assert Linked(x) && SpanOk(x) && SpanOk(x.left);
        assert x.left == x.left.span[|x.left.left.span|];
        ghost var k := SpanWithin(x0, x);
        assert x.left == x.span[|x.left.left.span|] == x0.span[k + |x.left.left.span|];
        x := x.left;
      }
      assert SpanOk(x) && Linked(x);
    }

    method GetMaximum(x0: Node) returns (x: Node)
      requires Shape() && x0 in members
      ensures x in members && x in x0.span && x.right == nil && x == x0.span[|x0.span| - 1]
    {
      x := x0;
      assert SpanOk(x) && x0 == x0.span[|x0.left.span|];
      while x.right != nil
        invariant x in members && x in x0.span && x.span != [] && x0.span != []
          && x.span[|x.span| - 1] == x0.span[|x0.span| - 1]
        decreases |x.span|
      {
        assert Linked(x) && SpanOk(x) && SpanOk(x.right);
        ghost var i := |x.left.span| + 1 + |x.right.left.span|;
        assert x.right == x.right.span[|x.right.left.span|] == x.span[i];
        ghost var k := SpanWithin(x0, x);
        assert x.right == x0.span[k + i];
        x := x.right;
      }
      assert SpanOk(x) && Linked(x);
    }

    // The next node in order, or the root sentinel after the last one.
    method GetSuccessor(x0: Node) returns (y: Node)
      requires Valid() && x0 in members
      ensures y == root ==> Nodes() != [] && Nodes()[|Nodes()| - 1] == x0
      ensures y != root ==> y in members && Follows(Nodes(), x0, y)
      ensures x0.right != nil ==> y in members && y in x0.right.span && y.left == nil
    {
      assert Linked(x0) && SpanOk(x0) && x0 in Nodes();
      ghost var k := SpanWithin(root.left, x0);
      ghost var at := k + |x0.left.span|;
      assert x0 == x0.span[|x0.left.span|] == Nodes()[at];
      if nil != x0.right {
        y := GetMinimum(x0.right);
        assert y == x0.span[|x0.left.span| + 1] == Nodes()[at + 1];
      } else {
        var x := x0;
        y := x.parent;
        while y != nil && x == y.right
          invariant x in members && y == x.parent && x.span != [] && x.span[|x.span| - 1] == x0
          decreases |Nodes()| - |x.span|
        {
          assert Linked(x) && SpanOk(x) && SpanOk(y);
          assert x in Nodes() && y in Nodes();
          Inside(root.left, y);
          x := y;
          y := y.parent;
        }
        assert Linked(x);
        if y != root {
          BehindLeftBranch(x, x0);
        }
      }
    }

    // The node whose left branch ends in x0 is the next one.
    lemma BehindLeftBranch(x: Node, x0: Node)
      requires Valid() && x in members && x.parent != root && x == x.parent.left
      requires x.span != [] && x.span[|x.span| - 1] == x0
      ensures x.parent in members && Follows(Nodes(), x0, x.parent)
    {
      var y := x.parent;
      assert Linked(x) && SpanOk(y) && y in Nodes();
      var j := SpanWithin(root.left, y);
      assert x0 == y.span[|x.span| - 1] == Nodes()[j + |x.span| - 1];
      assert y == y.span[|x.span|] == Nodes()[j + |x.span|];
    }

    // The node before in order, or nil in front of the first one.
    method GetPredecessor(x0: Node) returns (y: Node)
      requires Valid() && x0 in members
      ensures y == nil ==> Nodes() != [] && Nodes()[0] == x0
      ensures y != nil ==> y in members && Follows(Nodes(), y, x0)
    {
      assert Linked(x0) && SpanOk(x0) && x0 in Nodes();
      ghost var k := SpanWithin(root.left, x0);
      ghost var at := k + |x0.left.span|;
      assert x0 == x0.span[|x0.left.span|] == Nodes()[at];
      if nil != x0.left {
        y := GetMaximum(x0.left);
        assert y == x0.span[|x0.left.span| - 1] == Nodes()[at - 1];
      } else {
        var x := x0;
        y := x.parent;
        while y != nil && x == y.left
          invariant (x == root && y == nil && Nodes() != [] && Nodes()[0] == x0)
            || (x in members && y == x.parent && x.span != [] && x.span[0] == x0)
          decreases if x == root then 0 else 1 + |Nodes()| - |x.span|
        {
          assert Linked(x) && SpanOk(x);
          if y != root {
            assert SpanOk(y) && y in Nodes();
            Inside(root.left, y);
          } else {
            assert Nodes()[0] == x0;
          }
          x := y;
          y := y.parent;
        }
        assert x in members ==> Linked(x);
        if y != nil {
          assert SpanOk(y) && y in Nodes();
          ghost var j := SpanWithin(root.left, y);
          assert y == y.span[|y.left.span|] == Nodes()[j + |y.left.span|];
          assert x0 == y.span[|y.left.span| + 1] == Nodes()[j + |y.left.span| + 1];
        }
      }
    }

    // ---- deletion: unlinking ----

    // y, which has at most one child x, has left the tree, and x hangs in its place.
    twostate predicate Unlinked(y: Node, x: Node)
      reads this`members, members, root, nil, x
    {
      && members == old(members) - {y} && Keeps(nil) && nil.left == old(nil.left) && nil.right == old(nil.right)
      && x.parent == old(y.parent)
      && root.left == (if old(y.parent) == root then x else old(root.left))
      && root.right == old(root.right) && root.parent == old(root.parent) && Keeps(root)
      && (forall n {:trigger n.left} {:trigger n.right} {:trigger n.parent} {:trigger n.span}
            {:trigger n.red} {:trigger n.bh} {:trigger n.maxHigh}
            | n in old(members) && n != y ::
            && n.left == (if old(n.left) == y then x else old(n.left))
            && n.right == (if old(n.right) == y then x else old(n.right))
            && n.parent == (if n == x then old(y.parent) else old(n.parent))
            && n.red == old(n.red) && n.bh == old(n.bh) && n.maxHigh == old(n.maxHigh)
            && n.span == Without(old(n.span), y))
    }

    twostate lemma UnlinkedLinks(yx: (Node, Node))
      requires var y, x := yx.0, yx.1;
        old(Shape() && y in members && (y.left == nil || y.right == nil) && x == if y.left == nil then y.right
          else y.left)
      requires Unlinked(yx.0, yx.1)
      ensures Links()
    {
      var y, x := yx.0, yx.1;
      assert old(Linked(y)) && old(SpanOk(y));
      assert x != nil ==> old(Linked(x)) && old(SpanOk(x));
      assert y != x && old(y.parent) != y && old(y.parent) != x by {
        assert old(y.parent) != root ==> old(SpanOk(y.parent));
      }
      forall n | n in members ensures Linked(n) {
        assert old(Linked(n));
      }
    }

    twostate lemma UnlinkedSpans(yx: (Node, Node))
      requires var y, x := yx.0, yx.1;
        old(Shape() && y in members && (y.left == nil || y.right == nil) && x == if y.left == nil then y.right
          else y.left)
      requires Unlinked(yx.0, yx.1)
      requires Links()
      ensures Spans() && Nodes() == Without(old(Nodes()), yx.0)
    {
      var y, x := yx.0, yx.1;
      assert old(Linked(y)) && old(SpanOk(y));
      WithoutMiddle(old(y.left.span), y, old(y.right.span), y);
      assert Without(old(y.span), y) == Without(old(x.span), y);
      assert x.span == Without(old(x.span), y) by { assert x != nil ==> x != y && old(Linked(x)); }
      forall n | n in members ensures SpanOk(n) {
        assert old(Linked(n)) && old(SpanOk(n)) && Linked(n);
        WithoutMiddle(old(n.left.span), n, old(n.right.span), y);
        assert n.left.span == Without(old(n.left.span), y);
        assert n.right.span == Without(old(n.right.span), y);
      }
    }

    // The pointer writes that take y out of the tree.
    method Detach(y: Node, x: Node)
      requires Shape() && y in members && (y.left == nil || y.right == nil) && x == if y.left == nil then y.right
        else y.left
      modifies this`members, root, members, nil
      ensures Unlinked(y, x) && y.red == old(y.red) && y.bh == old(y.bh)
    {
      assert Linked(y) && SpanOk(y) && (x != nil ==> Linked(x) && SpanOk(x));
      ghost var p := y.parent;
      assert p != x && p != y && x != y by {
        if p != root { assert SpanOk(p); }
      }
      x.parent := y.parent;
      if root == y.parent {
        root.left := x;
      } else {
        if y == y.parent.left {
          y.parent.left := x;
        } else {
          y.parent.right := x;
        }
      }
      assert p != root ==> old(Linked(p));
      members := members - {y};
      forall n | n in members {
        n.span := Without(n.span, y);
      }
      assert Unlinked(y, x) by {
        forall n | n in members ensures (old(n.left) == y || old(n.right) == y ==> n == p) {
          assert old(Linked(n));
        }
      }
    }

    // The part of DeleteNode that takes y out of the tree.
    method Unlink(y: Node, x: Node)
      requires Shape() && y in members && (y.left == nil || y.right == nil) && x == if y.left == nil then y.right
        else y.left
      modifies this`members, root, members, nil
      ensures Unlinked(y, x) && y.red == old(y.red) && y.bh == old(y.bh)
      ensures Shape() && Nodes() == Without(old(Nodes()), y)
    {
      Detach(y, x);
      UnlinkedLinks((y, x));
      UnlinkedSpans((y, x));
    }

    // y has taken z's place in the tree.
    twostate predicate TookOver(z: Node, y: Node)
      reads this`members, members, root, nil, y
    {
      && members == old(members) - {z} + {y} && Keeps(nil) && nil.left == old(nil.left) && nil.right == old(nil.right)
      && nil.parent == (if old(z.right) == nil then y else old(nil.parent))
      && root.left == (if old(z.parent) == root then y else old(root.left))
      && root.right == old(root.right) && root.parent == old(root.parent) && Keeps(root)
      && y.left == old(z.left) && y.right == old(z.right) && y.parent == old(z.parent)
      && y.span == Replaced(old(z.span), z, y)
      && (forall n {:trigger n.left} {:trigger n.right} {:trigger n.parent} {:trigger n.span}
            {:trigger n.red} {:trigger n.bh} {:trigger n.maxHigh}
            | n in old(members) && n != z ::
            && n.left == (if old(n.left) == z then y else old(n.left))
            && n.right == (if old(n.right) == z then y else old(n.right))
            && n.parent == (if old(n.parent) == z then y else old(n.parent))
            && n.red == old(n.red) && n.bh == old(n.bh) && n.maxHigh == old(n.maxHigh)
            && n.span == Replaced(old(n.span), z, y))
    }

    twostate lemma TookOverLinks(zy: (Node, Node))
      requires var z, y := zy.0, zy.1; old(Shape() && z in members && y !in members) && y != root && y != nil
      requires TookOver(zy.0, zy.1)
      ensures Links()
    {
      var z, y := zy.0, zy.1;
      assert old(Linked(z)) && old(SpanOk(z));
      var l, r, p := old(z.left), old(z.right), old(z.parent);
      assert l != nil ==> old(Linked(l)) && old(SpanOk(l));
      assert r != nil ==> old(Linked(r)) && old(SpanOk(r));
      assert p != root ==> old(Linked(p)) && old(SpanOk(p));
      forall n | n in members ensures Linked(n) {
        assert n != y ==> old(Linked(n));
      }
    }

    twostate lemma TookOverSpans(zy: (Node, Node))
      requires var z, y := zy.0, zy.1; old(Shape() && z in members && y !in members) && y != root && y != nil
      requires TookOver(zy.0, zy.1) && Links()
      ensures Spans() && Nodes() == Replaced(old(Nodes()), zy.0, zy.1)
    {
      var z, y := zy.0, zy.1;
      assert old(Linked(z)) && old(SpanOk(z));
      forall n | n in members ensures SpanOk(n) {
        var m := if n == y then z else n;
        assert Linked(n) && old(Linked(m)) && old(SpanOk(m));
        ReplacedMiddle(old(m.left.span), m, old(m.right.span), z, y);
        assert n.left.span == Replaced(old(m.left.span), z, y);
        assert n.right.span == Replaced(old(m.right.span), z, y);
      }
    }

    // The pointer writes that put y where z was.
    method Relink(z: Node, y: Node)
      requires Shape() && z in members && y !in members && y != root && y != nil && z.left != nil
      modifies y, z.left, z.right, z.parent
      ensures y.left == old(z.left) && y.right == old(z.right) && y.parent == old(z.parent) && Keeps(y) && Same(z)
      ensures NewParent(z.left, y) && NewParent(z.right, y)
      ensures var p := z.parent;
        && Keeps(p) && p.parent == old(p.parent)
        && p.left == (if old(p.left) == z then y else old(p.left))
        && p.right == (if old(p.left) == z then old(p.right) else y)
    {
      assert Linked(z) && SpanOk(z);
      ghost var l, r, p := z.left, z.right, z.parent;
      assert Linked(l) && SpanOk(l) && (r != nil ==> Linked(r) && SpanOk(r)) && (p != root ==> Linked(p) && SpanOk(p));
      assert l != z && r != z && p != z && p != l && p != r && l != r;
      y.left := z.left;
      y.right := z.right;
      y.parent := z.parent;
      z.right.parent := y;
      z.left.parent := y;
      if z == z.parent.left {
        z.parent.left := y;
      } else {
        z.parent.right := y;
      }
    }

    // The part of DeleteNode that puts y where z was.
    method TakeOver(z: Node, y: Node)
      requires Shape() && z in members && y !in members && y != root && y != nil && z.left != nil
      modifies this`members, root, members, nil, y
      ensures TookOver(z, y) && y.red == old(y.red) && y.bh == old(y.bh) && z.red == old(z.red) && z.bh == old(z.bh)
      ensures Shape() && Nodes() == Replaced(old(Nodes()), z, y)
    {
      assert Linked(z) && SpanOk(z);
      ghost var l, r, p := z.left, z.right, z.parent;
      assert Linked(l) && SpanOk(l) && (r != nil ==> Linked(r) && SpanOk(r)) && (p != root ==> Linked(p) && SpanOk(p));
      assert l != z && r != z && p != z && p != l && p != r && l != r;
      Relink(z, y);
      Rename(z, y);
      WhoPointsAt(z);
      assert TookOver(z, y);
      TookOverLinks((z, y));
      TookOverSpans((z, y));
    }

    // The nodes around z, and no others, point at it.
    twostate lemma WhoPointsAt(z: Node)
      requires old(Shape() && z in members)
      ensures forall n {:trigger old(n.left)} {:trigger old(n.right)} | n in old(members) && n != z ::
        old(n.left) == z || old(n.right) == z ==> n == old(z.parent)
      ensures forall n {:trigger old(n.parent)} | n in old(members) && n != z ::
        old(n.parent) == z <==> n == old(z.left) || n == old(z.right)
    {
      assert old(Linked(z));
      forall n | n in old(members) && n != z
        ensures old(n.left) == z || old(n.right) == z ==> n == old(z.parent)
        ensures old(n.parent) == z <==> n == old(z.left) || n == old(z.right)
      {
        assert old(Linked(n));
      }
    }

    // y stands for z in every sequence of nodes.
    ghost method Rename(z: Node, y: Node)
      requires z in members && y !in members
      modifies this`members, members`span, y`span
      ensures members == old(members) - {z} + {y} && y.span == Replaced(old(z.span), z, y)
      ensures forall n | n in old(members) && n != z :: n.span == Replaced(old(n.span), z, y)
      ensures z.span == old(z.span)
    {
      ghost var span := z.span;
      members := members - {z};
      forall n | n in members {
        n.span := Replaced(n.span, z, y);
      }
      y.span := Replaced(span, z, y);
      members := members + {y};
    }

    // ---- deletion: the whole ----

    twostate lemma UnlinkedMaxes(yx: (Node, Node))
      requires old(Shape() && Maxes() && yx.0 in members) && Unlinked(yx.0, yx.1) && Shape()
      ensures MaxesOffPath(yx.1.parent)
    {
      var y, x := yx.0, yx.1;
      forall n | n in members && x.parent !in n.span ensures MaxOk(n) {
        assert old(Linked(n)) && old(MaxOk(n)) && Linked(n) && SpanOk(n);
      }
    }

    // y, which had a child missing, has left the tree, and x is in its place.
    twostate predicate UnlinkedFrom(yx: (Node, Node))
      reads this`members, members, root, nil, yx.1
    {
      var (y, x) := yx;
      && old(Shape() && Colors() && y in members && (y.left == nil || y.right == nil))
      && x == old(if y.left == nil then y.right else y.left) && (x == nil || x in members)
      && Unlinked(y, x) && Shape()
    }

    twostate lemma UnlinkedBlacks(yx: (Node, Node))
      requires UnlinkedFrom(yx)
      ensures forall n {:trigger BlackOk(n)} | n in members && (old(yx.0.red) || n != old(yx.0.parent)) :: BlackOk(n)
    {
      var (y, x) := yx;
      assert Unlinked(y, x) && old(Linked(y)) && old(BlackOk(y)) && old(SpanOk(y));
      var p := old(y.parent);
      assert p != root ==> old(Linked(p)) && old(BlackOk(p)) && Linked(p) && p != y;
      assert x != nil ==> old(Linked(x)) && old(BlackOk(x)) && x != y;
      forall n | n in members && (old(y.red) || n != p) ensures BlackOk(n) {
        assert old(Linked(n)) && old(BlackOk(n)) && Linked(n);
        if n == p { } else { }
      }
    }

    twostate lemma UnlinkedReds(yx: (Node, Node))
      requires UnlinkedFrom(yx)
      ensures forall n {:trigger RedOk(n)} | n in members && (old(yx.0.red) || n != old(yx.0.parent)) :: RedOk(n)
    {
      var (y, x) := yx;
      assert Unlinked(y, x) && old(Linked(y)) && old(RedOk(y)) && old(SpanOk(y));
      var p := old(y.parent);
      assert p != root ==> old(Linked(p)) && old(RedOk(p)) && Linked(p) && p != y;
      assert x != nil ==> old(Linked(x)) && old(RedOk(x)) && x != y;
      forall n | n in members && (old(y.red) || n != p) ensures RedOk(n) {
        assert old(Linked(n)) && old(RedOk(n)) && Linked(n);
      }
    }

    twostate lemma UnlinkedColors(yx: (Node, Node))
      requires UnlinkedFrom(yx)
      ensures if old(yx.0.red) then Colors() else ShortColors(yx.1)
    {
      var (y, x) := yx;
      assert Unlinked(y, x) && old(Linked(y)) && old(BlackOk(y)) && old(RedOk(y)) && old(SpanOk(y));
      var p := old(y.parent);
      assert p != root ==> old(Linked(p)) && old(BlackOk(p)) && old(RedOk(p)) && Linked(p) && p != y;
      assert x != nil ==> old(Linked(x)) && old(BlackOk(x)) && old(RedOk(x)) && x != y;
      UnlinkedBlacks(yx);
      UnlinkedReds(yx);
    }

    twostate lemma TookOverMaxes(zyq: (Node, Node, Node))
      requires var z, y, q := zyq.0, zyq.1, zyq.2;
        old(Shape() && z in members && y !in members && MaxesOffPath(q) && q in z.span) && y != root && y != nil
      requires TookOver(zyq.0, zyq.1) && Shape()
      ensures MaxesOffPath(if zyq.2 == zyq.0 then zyq.1 else zyq.2)
    {
      var z, y, q := zyq.0, zyq.1, zyq.2;
      var q' := if q == z then y else q;
      assert old(SpanOk(z)) && old(Linked(z));
      forall n | n in members && q' !in n.span ensures MaxOk(n) {
        assert Linked(n) && SpanOk(n);
        var m := if n == y then z else n;
        assert old(Linked(m)) && old(SpanOk(m));
        if q in old(m.span) {
          ReplacedHas(old(m.span), z, y, q);
        }
        assert m != z && old(MaxOk(m));
      }
    }

    // As TookOver, once the maxima have been fixed.
    twostate predicate Rehung(z: Node, y: Node)
      reads this`members, members, root, nil, y
    {
      && members == old(members) - {z} + {y} && Keeps(nil) && nil.left == old(nil.left) && nil.right == old(nil.right)
      && nil.parent == (if old(z.right) == nil then y else old(nil.parent))
      && root.left == (if old(z.parent) == root then y else old(root.left)) && root.red == old(root.red)
      && y.left == old(z.left) && y.right == old(z.right) && y.parent == old(z.parent)
      && (forall n {:trigger n.left} {:trigger n.right} {:trigger n.parent} {:trigger n.red} {:trigger n.bh}
            | n in old(members) && n != z ::
            && n.left == (if old(n.left) == z then y else old(n.left))
            && n.right == (if old(n.right) == z then y else old(n.right))
            && n.parent == (if old(n.parent) == z then y else old(n.parent))
            && n.red == old(n.red) && n.bh == old(n.bh))
    }

    twostate lemma TookOverColors(zyx: (Node, Node, Node))
      requires var z, y, x := zyx.0, zyx.1, zyx.2;
        old(Shape() && z in members && y !in members && x != z && (x == nil || x in members)) && y != root && y != nil
      requires var z, y := zyx.0, zyx.1; Rehung(z, y) && y.red == old(z.red) && y.bh == old(z.bh)
      requires Shape()
      requires old(Colors())
      ensures Colors()
    {
      var z, y, x := zyx.0, zyx.1, zyx.2;
      assert old(Linked(z)) && old(SpanOk(z));
      forall n | n in members ensures BlackOk(n) && RedOk(n) {
        var m := if n == y then z else n;
        assert old(Linked(m)) && Linked(n) && old(BlackOk(m)) && old(RedOk(m));
      }
    }

    // y has taken z's place and colours while x was one black node short.
    twostate predicate TookOverShortly(zyx: (Node, Node, Node))
      reads this`members, members, root, nil, zyx.1
    {
      var (z, y, x) := zyx;
      && old(Shape() && z in members && y !in members && x != z && (x == nil || x in members)) && y != root && y != nil
      && Rehung(z, y) && y.red == old(z.red) && y.bh == old(z.bh) && Shape()
      && old(if x.parent == z then z.right == x else z.right != nil) && old(ShortColors(x))
    }

    twostate lemma TookOverShortBlacks(zyx: (Node, Node, Node))
      requires TookOverShortly(zyx)
      ensures forall n {:trigger BlackOk(n)} | n in members && n != zyx.2.parent :: BlackOk(n)
    {
      var (z, y, x) := zyx;
      assert Rehung(z, y) && old(Linked(z)) && old(SpanOk(z));
      assert x.parent == if old(x.parent) == z then y else old(x.parent);
      assert Blacks(y) == old(Blacks(z));
      forall n | n in members && n != x.parent ensures BlackOk(n) {
        var m := if n == y then z else n;
        assert old(Linked(m)) && Linked(n) && old(BlackOk(m));
        if n == y { } else { }
      }
    }

    twostate lemma TookOverShortReds(zyx: (Node, Node, Node))
      requires TookOverShortly(zyx)
      ensures forall n {:trigger RedOk(n)} | n in members && n != zyx.2.parent && n != zyx.2 :: RedOk(n)
    {
      var (z, y, x) := zyx;
      assert Rehung(z, y) && old(Linked(z)) && old(SpanOk(z));
      assert x.parent == if old(x.parent) == z then y else old(x.parent);
      forall n | n in members && n != x.parent && n != x ensures RedOk(n) {
        var m := if n == y then z else n;
        assert old(Linked(m)) && Linked(n) && old(RedOk(m));
      }
    }

    twostate lemma TookOverShort(zyx: (Node, Node, Node))
      requires TookOverShortly(zyx)
      ensures ShortColors(zyx.2)
    {
      var (z, y, x) := zyx;
      assert Rehung(z, y) && old(Linked(z)) && old(SpanOk(z));
      TookOverShortBlacks(zyx);
      TookOverShortReds(zyx);
      var p, q := x.parent, old(x.parent);
      assert p == if q == z then y else q;
      if p != root {
        assert Linked(p) && old(Linked(q));
        assert Blacks(p.left) == old(Blacks(q.left)) && Blacks(p.right) == old(Blacks(q.right));
      }
    }

    lemma ContentWithout(z: Node, after: seq<Node>)
      requires Content() && after == Without(Nodes(), z)
      ensures Sorted(after) && Distinct(after)
      ensures forall n {:trigger n in after} | n in members && n != z :: n in after
      ensures forall n {:trigger n in after} | n in after :: n in members && n != z
    {
      WithoutKeeps(Nodes(), z);
      WithoutContents(Nodes(), z);
    }

    // z has at most one child: it is spliced out itself.
    method SpliceOut(z: Node, x: Node)
      requires Valid() && z in members && (z.left == nil || z.right == nil) && x == if z.left == nil then z.right
        else z.left
      modifies this`members, members, root, nil
      ensures Valid() && members == old(members) - {z} && Nodes() == Without(old(Nodes()), z)
    {
      assert Linked(z) && SpanOk(z);
      ContentWithout(z, Without(Nodes(), z));
      Unlink(z, x);
      UnlinkedMaxes((z, x));
      UnlinkedColors((z, x));
      label unlinked:
      assert x.parent == root || x.parent in members by {
        assert old(z.parent) != root ==> old(SpanOk(z.parent)) && old(SpanOk(z));
      }
      FixupMaxHigh(x.parent);
      MaxesKeepColors@unlinked(x);
      if !z.red {
        DeleteFixup(x);
      }
    }

    twostate lemma MaxesKeepColors(x: Node)
      requires old(Shape()) && Shape() && members == old(members) && Same(nil) && Same(root) && x in members + {nil}
      requires forall n {:trigger n.left} {:trigger n.right} {:trigger n.parent} {:trigger n.red} {:trigger n.bh}
        | n in members ::
        n.left == old(n.left) && n.right == old(n.right) && n.parent == old(n.parent) && n.red == old(n.red)
          && n.bh == old(n.bh)
      ensures old(Colors()) ==> Colors()
      ensures old(ShortColors(x)) ==> ShortColors(x)
    {
      forall n | n in members
        ensures old(BlackOk(n)) ==> BlackOk(n)
        ensures old(RedOk(n)) ==> RedOk(n)
      {
        assert Linked(n) && old(Linked(n));
      }
    }

    // z has two children: its successor y, which has no left child, is taken out and then put in z's place.
    method UnlinkSuccessor(z: Node, y: Node, x: Node)
      requires Valid() && z in members && z.left != nil && z.right != nil
      requires y in members && y in z.right.span && y.left == nil && x == y.right
      modifies this`members, root, members, nil
      ensures Unlinked(y, x) && y.red == old(y.red) && y.bh == old(y.bh)
      ensures Shape() && Nodes() == Without(old(Nodes()), y) && MaxesOffPath(x.parent)
      ensures if y.red then Colors() else ShortColors(x)
      ensures z in members && z.left != nil && x.parent in z.span && x != z && x.parent in members
        && (x == nil || x in members)
      ensures if x.parent == z then z.right == x else z.right != nil
    {
      assert Linked(z) && SpanOk(z) && Linked(z.right) && Linked(y) && SpanOk(y);
      ghost var q := y.parent;
      Inside(z.right, y);
      assert SpanOk(z.right) && |y.span| < |z.span| && z != y;
      assert q == z || (q in z.right.span && y != z.right) by {
        assert Linked(z.right);
      }
      if q != z { WithoutContents(z.right.span, y); }
      if y != z.right && q == z { Inside(z.right, z); }
      assert q == z ==> y == z.right;
      Unlink(y, x);
      UnlinkedMaxes((y, x));
      UnlinkedColors((y, x));
      assert SpanOk(z) && Linked(z);
      assert z == z.span[|z.left.span|];
    }

    method Install(z: Node, y: Node, x: Node, ghost after: seq<Node>)
      requires Shape() && z in members && y !in members && y != root && y != nil && z.left != nil
      requires (x == nil || x in members) && x != z && x.parent in members && x.parent in z.span
        && MaxesOffPath(x.parent)
      requires if x.parent == z then z.right == x else z.right != nil
      requires after == Replaced(Nodes(), z, y) && forall n {:trigger n in after} | n in members - {z} + {y} ::
        n in after
      modifies this`members, root, members, nil, y
      ensures Rehung(z, y) && Shape() && Maxes() && Nodes() == after
      ensures y.red == old(y.red) && z.red == old(z.red) && z.bh == old(z.bh) && root.red == old(root.red)
    {
      y.maxHigh := -MAX_TIME;
      label unlinked:
      ghost var q := x.parent;
      TakeOver(z, y);
      TookOverMaxes@unlinked((z, y, q));
      assert x.parent == if q == z then y else q;
      assert x.parent in members;
      FixupMaxHigh(x.parent);
    }

    // Install, then give y the colour z had.
    method InstallColored(z: Node, y: Node, x: Node, ghost after: seq<Node>)
      requires Shape() && z in members && y !in members && y != root && y != nil && z.left != nil
      requires (x == nil || x in members) && x != z && x.parent in members && x.parent in z.span
        && MaxesOffPath(x.parent)
      requires if x.parent == z then z.right == x else z.right != nil
      requires after == Replaced(Nodes(), z, y) && forall n {:trigger n in after} | n in members - {z} + {y} ::
        n in after
      requires if y.red then Colors() else ShortColors(x)
      modifies this`members, root, members, nil, y
      ensures Shape() && Maxes() && members == old(members) - {z} + {y} && Nodes() == after
      ensures if old(y.red) then Colors() else ShortColors(x)
      ensures (x == nil || x in members) && !root.red
    {
      ghost var wasRed := y.red;
      Install(z, y, x, after);
      label installed:
      y.red := z.red;
      y.bh := z.bh;
      ShapeIgnoresColors@installed();
      if wasRed {
        TookOverColors((z, y, x));
      } else {
        TookOverShort((z, y, x));
      }
    }

    // y leaves its place and takes that of z, with z's colour.
    method ReplaceBySuccessor(z: Node, y: Node, x: Node) returns (black: bool)
      requires Valid() && z in members && z.left != nil && z.right != nil
      requires y in members && y in z.right.span && y.left == nil && x == y.right && Follows(Nodes(), z, y)
      modifies this`members, members, root, nil
      ensures Shape() && Maxes() && Content() && !root.red && (x == nil || x in members)
      ensures members == old(members) - {z} && Nodes() == Without(old(Nodes()), z)
      ensures if black then ShortColors(x) else Colors()
    {
      ghost var after := Without(Nodes(), z);
      ReplacedSuccessor(Nodes(), z, y);
      ContentWithout(z, after);
      UnlinkSuccessor(z, y, x);
      black := !y.red;
      InstallColored(z, y, x, after);
      Moved(old(members), y, z);
      ContentIs(after);
    }

    lemma Moved(all: set<Node>, y: Node, z: Node)
      requires y in all && y != z
      ensures all - {y} - {z} + {y} == all - {z}
    {
    }

    lemma ContentIs(after: seq<Node>)
      requires Nodes() == after && Sorted(after) && Distinct(after)
      requires forall n {:trigger n in after} | n in members :: n in after
      requires forall n {:trigger n in after} | n in after :: n in members
      requires forall n {:trigger n.interval} | n in members ::
        n.interval != null && n.key == n.interval.low && n.high == n.interval.high
      ensures Content()
    {
    }

    method SpliceSuccessor(z: Node, y: Node, x: Node)
      requires Valid() && z in members && z.left != nil && z.right != nil
      requires y in members && y in z.right.span && y.left == nil && x == y.right && Follows(Nodes(), z, y)
      modifies this`members, members, root, nil
      ensures Valid() && members == old(members) - {z} && Nodes() == Without(old(Nodes()), z)
    {
      var black := ReplaceBySuccessor(z, y, x);
      if black {
        DeleteFixup(x);
      }
    }

    method DeleteNode(z: Node) returns (ivl: Interval?)
      requires Valid() && z in members
      modifies this`members, members, root, nil
      ensures Valid() && members == old(members) - {z}
      ensures Nodes() == Without(old(Nodes()), z) && ivl == z.interval
    {
      ivl := z.interval;
      var y;
      if z.left == nil || z.right == nil {
        y := z;
      } else {
        y := GetSuccessor(z);
      }
      var x := if y.left == nil then y.right else y.left;
      if y != z {
        SpliceSuccessor(z, y, x);
      } else {
        SpliceOut(y, x);
      }
    }

    // ---- searching ----

    // The first node in pre-order that holds ivl, or nil.
    method RecursiveSearch(node: Node, ivl: Interval) returns (r: Node)
      requires Valid() && node in members + {root, nil}
      ensures var sub := if node == root then Nodes() else node.span;
        if r == nil then forall n | n in sub :: n.interval != ivl
        else r in sub && r in members && r.interval == ivl
      decreases if node == root then 1 + |Nodes()| else |node.span|
    {
      if node != nil {
        if node.interval == ivl {
          assert SpanOk(node) && node == node.span[|node.left.span|];
          return node;
        }
        assert node != root ==> Linked(node) && SpanOk(node);
        var left := RecursiveSearch(node.left, ivl);
        if left != nil {
          return left;
        }
        var right := RecursiveSearch(node.right, ivl);
        if right != nil {
          return right;
        }
      }
      r := nil;
    }

    method DeleteInterval(ivl: Interval)
      requires Valid()
      modifies this`members, members, root, nil
      ensures Valid()
      ensures if exists z | z in old(members) :: z.interval == ivl
        then exists z | z in old(members) ::
          z.interval == ivl && members == old(members) - {z} && Nodes() == Without(old(Nodes()), z)
        else members == old(members) && Nodes() == old(Nodes())
    {
      var node := RecursiveSearch(root, ivl);
      assert forall z | z in members :: z in Nodes();
      if node != nil {
        var _ := DeleteNode(node);
      }
    }

    // maxHigh is an upper bound for the highs below a node, and is attained unless it is the sentinel's value.
    lemma {:induction false} MaxHighBounds(c: Node)
      requires Shape() && Maxes() && (c == nil || c in members)
      ensures forall n | n in c.span :: n.high <= c.maxHigh
      ensures c.maxHigh > -MAX_TIME ==> exists n :: n in c.span && n.high == c.maxHigh
      decreases |c.span|
    {
      if c != nil {
        assert Linked(c) && SpanOk(c) && MaxOk(c) && c == c.span[|c.left.span|];
        MaxHighBounds(c.left);
        MaxHighBounds(c.right);
        if c.maxHigh > -MAX_TIME {
          if c.maxHigh == c.high {
            assert c in c.span && c.high == c.maxHigh;
          } else if c.maxHigh == c.left.maxHigh {
            var n :| n in c.left.span && n.high == c.left.maxHigh;
            assert n in c.span;
          } else {
            var n :| n in c.right.span && n.high == c.right.maxHigh;
            assert n in c.span;
          }
        }
      }
    }

    // ---- the overlap query ----

    lemma SortedSpan(x: Node)
      requires Shape() && Content() && x in members
      ensures Sorted(x.span)
    {
      assert x in Nodes();
      var k := SpanWithin(root.left, x);
      assert forall i | 0 <= i < |x.span| :: x.span[i] == Nodes()[k + i];
    }

    // A query from the smallest time on never comes back to the right branch of a node without a left child: an empty
    // left branch has nothing to flag the node's entry with, and the sentinel's maxHigh has it pushed all the same.
    ghost predicate Skips(c: Node, low: SimTime)
      reads c
    {
      low == -MAX_TIME && c.left == nil
    }

    // The nodes below c that a query from low can come to, in order.
    ghost function Visible(c: Node, low: SimTime): seq<Node>
      requires Shape() && (c == nil || c in members)
      reads this`members, members, root, nil
      decreases |c.span|, 1
    {
      if low > -MAX_TIME then c.span
      else if c == nil then []
      else
        assert Linked(c) && SpanOk(c);
        Visible(c.left, low) + [c] + After(c, low)
    }

    // Those of them on the right of c.
    ghost function After(c: Node, low: SimTime): seq<Node>
      requires Shape() && c in members
      reads this`members, members, root, nil
      decreases |c.span|, 0
    {
      assert Linked(c) && SpanOk(c);
      if Skips(c, low) then [] else Visible(c.right, low)
    }

    lemma NothingBelowNil(low: SimTime, high: SimTime)
      requires Shape()
      ensures Visible(nil, low) == [] && multiset(Hits(Visible(nil, low), low, high)) == multiset{}
    {
    }

    lemma VisibleParts(c: Node, low: SimTime)
      requires Shape() && c in members
      ensures HasChildren(c) && Visible(c, low) == Visible(c.left, low) + [c] + After(c, low)
    {
      assert Linked(c) && SpanOk(c);
    }

    lemma {:induction false} VisibleInside(c: Node, low: SimTime, n: Node)
      requires Shape() && (c == nil || c in members) && n in Visible(c, low)
      ensures n in c.span
      decreases |c.span|
    {
      if low == -MAX_TIME {
        assert Linked(c) && SpanOk(c);
        if n in Visible(c.left, low) {
          VisibleInside(c.left, low, n);
        } else if n != c {
          VisibleInside(c.right, low, n);
        }
      }
    }

    // Entry k of the stack is the parent index of entry k + 1, and its right branch is what the trail says.
    ghost predicate FrameOk(f: Frame, b: Branch, k: nat, low: SimTime)
      requires Shape()
      reads this`members, members, root, nil
    {
      && f.startNode != null && f.startNode in members && f.parentIndex == k - 1
      && b.right == After(f.startNode, low) && (Skips(f.startNode, low) ==> !f.tryRight)
    }

    ghost predicate StackOk(low: SimTime)
      requires Shape()
      reads this`members, this`stack, this`trail, members, root, nil
    {
      FramesOk(stack, trail, low)
    }

    ghost predicate FramesOk(s: seq<Frame>, t: seq<Branch>, low: SimTime)
      requires Shape()
      reads this`members, members, root, nil
    {
      && |s| == |t| >= 1
      && (forall k {:trigger s[k]} {:trigger t[k]} | 1 <= k < |s| :: FrameOk(s[k], t[k], k, low))
      && (forall k {:trigger s[k]} | 1 <= k < |s| - 1 :: !Skips(s[k].startNode, low))
    }

    // The top entry may be flagged: a search on the right of its node is not passed over.
    ghost predicate Open(s: seq<Frame>, low: SimTime)
      reads if |s| > 1 && s[|s| - 1].startNode != null then {s[|s| - 1].startNode} else {}
    {
      |s| > 1 ==> s[|s| - 1].startNode != null && !Skips(s[|s| - 1].startNode, low)
    }

    lemma FlaggedFrames(s: seq<Frame>, t: seq<Branch>, k: nat, low: SimTime)
      requires Shape() && FramesOk(s, t, low) && Open(s, low) && k == |s| - 1
      ensures FramesOk(s[k := s[k].(tryRight := true)], t, low) && Open(s[k := s[k].(tryRight := true)], low)
    {
    }

    lemma PushedFrames(s: seq<Frame>, t: seq<Branch>, f: Frame, b: Branch, low: SimTime)
      requires Shape() && FramesOk(s, t, low) && Open(s, low) && FrameOk(f, b, |s|, low)
      ensures FramesOk(s + [f], t + [b], low)
    {
    }

    lemma PoppedFrames(s: seq<Frame>, t: seq<Branch>, low: SimTime)
      requires Shape() && FramesOk(s, t, low) && |s| > 1
      ensures FramesOk(s[..|s| - 1], t[..|s| - 1], low) && Open(s[..|s| - 1], low)
    {
    }

    ghost predicate AllProper()
      reads this`members
    {
      forall n | n in members :: n.key <= n.high
    }

    // What Query relies on where its hits are accounted for.
    ghost predicate Countable(low: SimTime)
      reads this`members, members, root, root.left, nil
    {
      Shape() && Maxes() && Content() && (low == -MAX_TIME || AllProper())
    }

    // One turn of the loop in Backtrack: take the top entry off the stack, and enter its right branch if it is flagged.
    // `exact` says whether hits are being accounted for; `all` is what they must add up to.
    method Pop(low: SimTime, high: SimTime, ghost result: seq<Interval?>, ghost exact: bool,
        ghost all: multiset<Interval?>)
      returns (x: Node, ghost seen: seq<Node>)
      requires Shape() && StackOk(low) && |stack| > 1
      requires exact ==> Accounted(stack, trail, result, multiset{}, all, low, high)
      modifies this`stack, this`currentParent, this`trail
      ensures StackOk(low) && Open(stack, low) && |stack| == old(|stack|) - 1
      ensures (x == nil || (x in members && currentParent == |stack| - 1)) && seen == Visible(x, low)
      ensures exact ==> Accounted(stack, trail, result, multiset(Hits(seen, low, high)), all, low, high)
      ensures Weight(trail) + |seen| <= old(Weight(trail))
    {
      seen := PoppedRight(stack, trail);
      var f := stack[|stack| - 1];
      assert FrameOk(f, trail[|stack| - 1], |stack| - 1, low) && Linked(f.startNode);
      if exact {
        PopAccounted(stack, trail, result, all, low, high);
      }
      WeightOfPop(trail);
      x := if f.tryRight then f.startNode.right else nil;
      assert Visible(x, low) == seen;
      DropTop(low);
      assert Visible(x, low) == seen;
    }

    // The top entry leaves the stack; if it was flagged, the entry below becomes the current parent and is flagged.
    method DropTop(low: SimTime)
      requires Shape() && StackOk(low) && |stack| > 1
      modifies this`stack, this`currentParent, this`trail
      ensures StackOk(low) && Open(stack, low) && stack == Popped(old(stack)) && trail == old(trail[..|trail| - 1])
      ensures old(stack[|stack| - 1].tryRight) ==> currentParent == |stack| - 1
    {
      var f := stack[|stack| - 1];
      assert FrameOk(f, trail[|stack| - 1], |stack| - 1, low);
      PoppedFrames(stack, trail, low);
      stack, trail := stack[..|stack| - 1], trail[..|stack| - 1];
      if f.tryRight {
        currentParent := f.parentIndex;
        FlagTop(low);
      }
    }

    // An empty branch has been searched to the end: go back to the latest flagged entry, dropping the others.
    method Backtrack(low: SimTime, high: SimTime, ghost result: seq<Interval?>, ghost exact: bool,
        ghost all: multiset<Interval?>)
      returns (run: bool, x: Node, ghost seen: seq<Node>)
      requires Shape() && StackOk(low)
      requires exact ==> Accounted(stack, trail, result, multiset{}, all, low, high)
      modifies this`stack, this`currentParent, this`trail
      ensures SearchAt(run, x, low, seen)
      ensures exact ==> Accounted(stack, trail, result, multiset(Hits(seen, low, high)), all, low, high)
      ensures Weight(trail) + |seen| <= old(Weight(trail))
    {
      run, x, seen := false, nil, [];
      assert multiset(Hits([], low, high)) == multiset{};
      while !run && |stack| > 1
        invariant StackOk(low)
        invariant if run then x in members && currentParent == |stack| - 1 && Open(stack, low)
          else x == nil && seen == []
        invariant seen == Visible(x, low)
        invariant exact ==> Accounted(stack, trail, result, multiset(Hits(seen, low, high)), all, low, high)
        invariant Weight(trail) + |seen| <= old(Weight(trail))
        decreases |stack|
      {
        x, seen := Pop(low, high, result, exact, all);
        run := x != nil;
      }
    }

    // A hit below the top entry: its right branch is to be searched too.
    method FlagTop(low: SimTime)
      requires Shape() && StackOk(low) && Open(stack, low) && currentParent == |stack| - 1
      modifies this`stack
      ensures StackOk(low) && Open(stack, low)
      ensures stack == old(stack[currentParent := stack[currentParent].(tryRight := true)])
    {
      FlaggedFrames(stack, trail, currentParent, low);
      stack := stack[currentParent := stack[currentParent].(tryRight := true)];
    }

    // First half of a turn of Query's loop: report x if it overlaps. l and r are what can be seen on both sides of it.
    method Report(x: Node, result0: seq<Interval?>, low: SimTime, high: SimTime, ghost l: seq<Node>, ghost r: seq<Node>,
        ghost exact: bool, ghost all: multiset<Interval?>)
      returns (result: seq<Interval?>)
      requires Shape() && StackOk(low) && Open(stack, low) && currentParent == |stack| - 1
      requires exact ==> Accounted(stack, trail, result0, multiset(Hits(l + [x] + r, low, high)), all, low, high)
      modifies this`stack
      ensures StackOk(low) && Open(stack, low) && |stack| == old(|stack|)
      ensures exact ==>
        Accounted(stack, trail, result, multiset(Hits(l, low, high)) + multiset(Hits(r, low, high)), all, low, high)
    {
      result := result0;
      ghost var rest := multiset(Hits(l, low, high)) + multiset(Hits(r, low, high));
      HitsAround(l, x, r, low, high);
      if Overlap(low, high, x.key, x.high) {
        if exact { HitAccounted(stack, trail, result, x.interval, rest, all, low, high); }
        result := result + [x.interval];
        FlagTop(low);
      } else {
        assert rest + multiset{} == rest;
      }
    }

    lemma NothingReachesLow(c: Node, low: int, high: int)
      requires Shape() && Maxes() && AllProper() && (c == nil || c in members) && c.maxHigh < low
      ensures Hits(c.span, low, high) == []
    {
      MaxHighBounds(c);
      forall n | n in c.span ensures !Overlap(low, high, n.key, n.high) {
        if c != nil { Inside(c, n); }
      }
      NoHits(c.span, low, high);
    }

    // The witness that lets the right branch of x be skipped when the left one has no hit.
    lemma Reach(x: Node, low: SimTime) returns (m: Node?)
      requires Shape() && Maxes() && Content() && x in members && low <= x.left.maxHigh
      ensures HasChildren(x) && Prunable(Branch(Visible(x.left, low), After(x, low), m), low)
    {
      assert Linked(x) && SpanOk(x);
      SortedSpan(x);
      if low > -MAX_TIME {
        MaxHighBounds(x.left);
        m :| m in x.left.span && m.high == x.left.maxHigh;
        KeysFromSorted(x.left.span, x, x.right.span, m);
      } else if x.left != nil {
        m := x.left;
        VisibleParts(m, low);
        assert SpanOk(m);
        KeysFromSorted(x.left.span, x, x.right.span, m);
        forall n | n in Visible(x.right, low) ensures n.key >= m.key {
          VisibleInside(x.right, low, n);
          KeysFromEach(x.right.span, m.key, n);
        }
        KeysFromAll(Visible(x.right, low), m.key);
      } else {
        m := null;
      }
    }

    // Second half: move on to the left child, or to the right one when nothing on the left reaches the query.
    method Descend(x0: Node, low: SimTime, high: SimTime, ghost result: seq<Interval?>, ghost exact: bool,
        ghost all: multiset<Interval?>)
      returns (x: Node, ghost seen: seq<Node>)
      requires Shape() && x0 in members && HasChildren(x0) && StackOk(low) && Open(stack, low)
        && currentParent == |stack| - 1
      requires exact ==> Countable(low) && Accounted(stack, trail, result,
        multiset(Hits(Visible(x0.left, low), low, high)) + multiset(Hits(After(x0, low), low, high)), all, low, high)
      modifies this`stack, this`currentParent, this`trail
      ensures StackOk(low) && (x == nil || (x in members && currentParent == |stack| - 1 && Open(stack, low)))
      ensures seen == Visible(x, low)
      ensures exact ==> Accounted(stack, trail, result, multiset(Hits(seen, low, high)), all, low, high)
      ensures Weight(trail) + |seen| < old(Weight(trail)) + |Visible(x0, low)|
    {
      x := x0;
      VisibleParts(x, low);
      if x.left.maxHigh >= low {
        ghost var l, r := Visible(x.left, low), After(x, low);
        PushFrame(x, low, high, l, r, result, exact, all);
        x := x.left;
        assert Visible(x, low) == l;
      } else {
        if exact {
          NothingReachesLow(x.left, low, high);
          assert multiset([]) + multiset(Hits(x.right.span, low, high)) == multiset(Hits(x.right.span, low, high));
        }
        x := x.right;
      }
      seen := Visible(x, low);
    }

    // Remember x on the stack; the search goes on to its left. l and r are what can be seen on both sides of x.
    method PushFrame(x: Node, low: SimTime, high: SimTime, ghost l: seq<Node>, ghost r: seq<Node>,
        ghost result: seq<Interval?>, ghost exact: bool, ghost all: multiset<Interval?>)
      requires Shape() && x in members && HasChildren(x) && StackOk(low) && Open(stack, low)
        && currentParent == |stack| - 1
      requires x.left.maxHigh >= low && l == Visible(x.left, low) && r == After(x, low)
      requires exact ==> Countable(low)
      requires exact ==>
        Accounted(stack, trail, result, multiset(Hits(l, low, high)) + multiset(Hits(r, low, high)), all, low, high)
      modifies this`stack, this`currentParent, this`trail
      ensures StackOk(low) && currentParent == |stack| - 1 && (x.left != nil ==> Open(stack, low))
      ensures exact ==> Accounted(stack, trail, result, multiset(Hits(l, low, high)), all, low, high)
      ensures Weight(trail) == old(Weight(trail)) + |r|
    {
      ghost var b := Branch(l, r, null);
      if exact {
        b := PushedBranch(x, low, high, result, all);
      }
      WeightOfPush(trail, b);
      Push(Frame(x, currentParent, false), b, low);
    }

    method Push(f: Frame, ghost b: Branch, low: SimTime)
      requires Shape() && StackOk(low) && Open(stack, low) && FrameOk(f, b, |stack|, low)
      modifies this`stack, this`currentParent, this`trail
      ensures StackOk(low) && currentParent == |stack| - 1 && (!Skips(f.startNode, low) ==> Open(stack, low))
      ensures stack == old(stack) + [f] && trail == old(trail) + [b]
    {
      PushedFrames(stack, trail, f, b, low);
      trail := trail + [b];
      stack := stack + [f];
      currentParent := |stack| - 1;
    }

    lemma PushedBranch(x: Node, low: SimTime, high: SimTime, result: seq<Interval?>, all: multiset<Interval?>)
      returns (b: Branch)
      requires |stack| > 0 && Countable(low) && x in members && HasChildren(x) && x.left.maxHigh >= low
      requires Accounted(stack, trail, result,
        multiset(Hits(Visible(x.left, low), low, high)) + multiset(Hits(After(x, low), low, high)), all, low, high)
      ensures b.left == Visible(x.left, low) && b.right == After(x, low)
      ensures Accounted(stack + [Frame(x, currentParent, false)], trail + [b], result,
        multiset(Hits(b.left, low, high)), all, low, high)
    {
      var m := Reach(x, low);
      b := Branch(Visible(x.left, low), After(x, low), m);
      PushAccounted(stack, trail, Frame(x, currentParent, false), b, result, all, low, high);
    }

    // Both halves. ns is what can be seen below x0, and seen what can be seen below the next node.
    method ReportAndDescend(x0: Node, result0: seq<Interval?>, low: SimTime, high: SimTime, ghost ns: seq<Node>,
        ghost exact: bool, ghost all: multiset<Interval?>)
      returns (x: Node, result: seq<Interval?>, ghost seen: seq<Node>)
      requires Shape() && x0 in members && StackOk(low) && Open(stack, low) && currentParent == |stack| - 1
      requires ns == Visible(x0, low) && (exact ==> Countable(low))
      requires exact ==> Accounted(stack, trail, result0, multiset(Hits(ns, low, high)), all, low, high)
      modifies this`stack, this`currentParent, this`trail
      ensures StackOk(low) && (x == nil || (x in members && currentParent == |stack| - 1 && Open(stack, low)))
      ensures seen == Visible(x, low)
      ensures exact ==> Accounted(stack, trail, result, multiset(Hits(seen, low, high)), all, low, high)
      ensures Weight(trail) + |seen| < old(Weight(trail)) + |ns|
    {
      VisibleParts(x0, low);
      ghost var l, r := Visible(x0.left, low), After(x0, low);
      result := Report(x0, result0, low, high, l, r, exact, all);
      assert l == Visible(x0.left, low) && r == After(x0, low) && ns == Visible(x0, low);
      assert trail == old(trail);
      x, seen := Descend(x0, low, high, result, exact, all);
    }

    // Query's loop is at x, below which ns can be seen, or it has come to its end.
    ghost predicate SearchAt(run: bool, x: Node, low: SimTime, ns: seq<Node>)
      requires Shape()
      reads this`members, this`stack, this`trail, this`currentParent, members, root, nil
    {
      && StackOk(low)
      && if run then x in members && currentParent == |stack| - 1 && Open(stack, low) && ns == Visible(x, low)
         else x == nil && |stack| == 1 && ns == []
    }

    // One turn of Query's loop.
    method QueryTurn(x0: Node, result0: seq<Interval?>, low: SimTime, high: SimTime, ghost ns: seq<Node>,
        ghost exact: bool, ghost all: multiset<Interval?>)
      returns (run: bool, x: Node, result: seq<Interval?>, ghost seen: seq<Node>)
      requires Shape() && SearchAt(true, x0, low, ns)
      requires exact ==> Countable(low)
      requires exact ==> Accounted(stack, trail, result0, multiset(Hits(ns, low, high)), all, low, high)
      modifies this`stack, this`currentParent, this`trail
      ensures SearchAt(run, x, low, seen)
      ensures exact ==> Accounted(stack, trail, result, multiset(Hits(seen, low, high)), all, low, high)
      ensures Weight(trail) + |seen| < old(Weight(trail)) + |ns|
    {
      x, result, seen := ReportAndDescend(x0, result0, low, high, ns, exact, all);
      run := x != nil;
      if !run {
        NothingBelowNil(low, high);
        run, x, seen := Backtrack(low, high, result, exact, all);
      }
    }

    // The right child of n overlaps a query that starts at the smallest time and ends at high, but the query does
    // not come to it.
    ghost predicate Hides(n: Node, high: SimTime)
      reads n
    {
      n.left == nil && n.right != nil && n.right.key <= high
    }

    // A node without a left child has at most a leaf on the right.
    lemma LoneRightChild(n: Node)
      requires Shape() && Colors() && n in members && n.left == nil
      ensures HasChildren(n) && (n.right != nil ==> !HasGrown(n.right) && n.right.span == [n.right])
    {
      assert Linked(n) && SpanOk(n) && BlackOk(n);
      if n.right != nil {
        assert Linked(n.right) && SpanOk(n.right) && BlackOk(n.right) && RedOk(n.right);
        BlackHeightIsPositive(n.right);
        if n.right.left != nil { BlackHeightIsPositive(n.right.left); }
        if n.right.right != nil { BlackHeightIsPositive(n.right.right); }
      }
    }

    ghost predicate HasGrown(n: Node)
      reads n
    {
      n.left != nil || n.right != nil
    }

    lemma {:induction false} BlackHeightIsPositive(n: Node)
      requires Shape() && Colors() && n in members
      ensures n.bh > 0
      decreases |n.span|
    {
      assert Linked(n) && SpanOk(n) && BlackOk(n);
      if n.left != nil {
        BlackHeightIsPositive(n.left);
      }
    }

    // Below c all hits are visible where no node hides one; otherwise there are fewer.
    ghost predicate HitsFit(c: Node, high: SimTime)
      requires Shape() && (c == nil || c in members)
      reads this`members, members, root, nil, c.span
    {
      var v, w := Hits(Visible(c, -MAX_TIME), -MAX_TIME, high), Hits(c.span, -MAX_TIME, high);
      && |v| <= |w|
      && ((forall n | n in c.span :: !Hides(n, high)) ==> multiset(v) == multiset(w))
      && ((exists n | n in c.span :: Hides(n, high)) ==> |v| < |w|)
    }

    lemma {:induction false} VisibleHits(c: Node, high: SimTime)
      requires Shape() && Colors() && (c == nil || c in members)
      ensures HitsFit(c, high)
      decreases |c.span|
    {
      if c != nil {
        assert Linked(c) && SpanOk(c);
        if c.left == nil {
          LoneHits(c, high);
        } else {
          VisibleHits(c.left, high);
          VisibleHits(c.right, high);
          BothHits(c, high);
        }
      }
    }

    lemma LoneHits(c: Node, high: SimTime)
      requires Shape() && Colors() && c in members && c.left == nil
      ensures HitsFit(c, high)
    {
      assert Linked(c) && SpanOk(c);
      VisibleParts(c, -MAX_TIME);
      HidesOwnChild(c, high);
      HitsParts([], c, c.right.span, -MAX_TIME, high);
      assert Visible(c, -MAX_TIME) == [c];
    }

    lemma BothHits(c: Node, high: SimTime)
      requires Shape() && c in members && HasChildren(c) && c.left != nil && HitsFit(c.left, high)
        && HitsFit(c.right, high)
      ensures HitsFit(c, high)
    {
      assert Linked(c) && SpanOk(c) && !Hides(c, high);
      VisibleParts(c, -MAX_TIME);
      HitsParts(Visible(c.left, -MAX_TIME), c, Visible(c.right, -MAX_TIME), -MAX_TIME, high);
      HitsParts(c.left.span, c, c.right.span, -MAX_TIME, high);
      if n :| n in c.span && Hides(n, high) {
        assert n in c.left.span || n in c.right.span;
      } else {
        assert forall n | n in c.left.span :: n in c.span;
        assert forall n | n in c.right.span :: n in c.span;
      }
    }

    lemma HidesOwnChild(c: Node, high: SimTime)
      requires Shape() && Colors() && c in members && c.left == nil
      ensures HasChildren(c)
      ensures Hits(c.right.span, -MAX_TIME, high) == if Hides(c, high) then [c.right.interval] else []
      ensures forall n | n in c.right.span :: !Hides(n, high)
    {
      LoneRightChild(c);
      if c.right != nil {
        assert SpanOk(c.right);
        assert c.right.span[1..] == [];
      }
    }

    // All stored intervals that overlap [low, high], each once, where low is not the smallest time. From there on
    // only the visible nodes are found, and that is every overlapping one exactly if no node without a left child
    // has a right child that overlaps.
    method Query(low: SimTime, high: SimTime) returns (result: seq<Interval?>)
      requires Valid() && Idle()
      modifies this`stack, this`currentParent, this`trail
      ensures Valid() && Idle() && Nodes() == old(Nodes())
      ensures low > -MAX_TIME && AllProper() ==> multiset(result) == multiset(Hits(Nodes(), low, high))
      ensures low == -MAX_TIME ==> multiset(result) == multiset(Hits(Visible(root.left, low), low, high))
      ensures low == -MAX_TIME ==>
        (multiset(result) == multiset(Hits(Nodes(), low, high)) <==> forall n | n in members :: !Hides(n, high))
    {
      currentParent := 0;
      result := SearchAll(low, high);
      if low == -MAX_TIME {
        AllVisible(high);
      }
    }

    // All hits are visible exactly if no node hides one.
    lemma AllVisible(high: SimTime)
      requires Valid()
      ensures multiset(Hits(Visible(root.left, -MAX_TIME), -MAX_TIME, high)) == multiset(Hits(Nodes(), -MAX_TIME, high))
        <==> forall n | n in members :: !Hides(n, high)
    {
      var v, w := Hits(Visible(root.left, -MAX_TIME), -MAX_TIME, high), Hits(Nodes(), -MAX_TIME, high);
      VisibleHits(root.left, high);
      assert |v| == |multiset(v)| && |w| == |multiset(w)|;
      if n :| n in members && Hides(n, high) {
        assert n in Nodes();
      } else {
        forall n | n in Nodes() ensures !Hides(n, high) { }
      }
    }

    method SearchAll(low: SimTime, high: SimTime) returns (result: seq<Interval?>)
      requires Shape() && Maxes() && Content() && |stack| == |trail| == 1 && currentParent == 0
      modifies this`stack, this`currentParent, this`trail
      ensures |stack| == |trail| == 1
      ensures low == -MAX_TIME || AllProper() ==> multiset(result) == multiset(Hits(Visible(root.left, low), low, high))
    {
      ghost var exact := low == -MAX_TIME || AllProper();
      ghost var ns := Visible(root.left, low);
      ghost var all := multiset(Hits(ns, low, high));
      assert multiset([]) + all == all;
      result := Search(low, high, exact, all);
      assert ns == Visible(root.left, low);
    }

    // Query's loop.
    method Search(low: SimTime, high: SimTime, ghost exact: bool, ghost all: multiset<Interval?>)
      returns (result: seq<Interval?>)
      requires Shape() && StackOk(low) && |stack| == 1 && currentParent == 0
      requires exact ==> Countable(low)
      requires exact ==> Accounted(stack, trail, [], multiset(Hits(Visible(root.left, low), low, high)), all, low, high)
      modifies this`stack, this`currentParent, this`trail
      ensures |stack| == |trail| == 1
      ensures exact ==> multiset(result) == all
    {
      result := [];
      var x := root.left;
      var run := x != nil;
      ghost var ns := Visible(x, low);
      while run
        invariant SearchAt(run, x, low, ns)
        invariant exact ==> Accounted(stack, trail, result, multiset(Hits(ns, low, high)), all, low, high)
        decreases Weight(trail) + |ns|, run
      {
        run, x, result, ns := QueryTurn(x, result, low, high, ns, exact, all);
      }
      assert multiset(Hits([], low, high)) == multiset{};
    }

    // Such a tree exists: of two intervals stored in the order of their keys, a query from the smallest time that both
    // overlap finds only the first.
    static method QueryFromSmallestTimeMisses(first: Interval, second: Interval, high: SimTime)
      returns (tree: IntervalTree, result: seq<Interval?>)
      requires first.low <= second.low <= high && first.low <= first.high && second.low <= second.high
      ensures fresh(tree) && tree.Valid() && tree.AllProper()
      ensures Hits(tree.Nodes(), -MAX_TIME, high) == [first, second] && result == [first]
    {
      ghost var a, b;
      tree, a, b := StoreTwo(first, second);
      result := tree.QueryTwo(a, b, high);
    }

    method QueryTwo(ghost a: Node, ghost b: Node, high: SimTime) returns (result: seq<Interval?>)
      requires Valid() && Idle() && members == {a, b} && Nodes() == [a, b] && root.left == a && a.left == nil
      requires a.key <= high && b.key <= high
      modifies this`stack, this`currentParent, this`trail
      ensures Valid() && members == old(members) && Hits(Nodes(), -MAX_TIME, high) == [a.interval, b.interval]
      ensures result == [a.interval]
    {
      VisibleInTwo(a, b, high);
      result := Query(-MAX_TIME, high);
      assert |multiset(result)| == 1 && multiset(result)[a.interval] == 1;
      assert result[0] in multiset(result);
    }

    static method StoreTwo(first: Interval, second: Interval) returns (tree: IntervalTree, ghost a: Node, ghost b: Node)
      requires first.low <= second.low
      ensures fresh(tree) && fresh(tree.members) && fresh(tree.root) && fresh(tree.nil) && tree.Valid() && tree.Idle()
      ensures tree.members == {a, b} && tree.Nodes() == [a, b] && tree.root.left == a && a.left == tree.nil
      ensures a.interval == first && b.interval == second
    {
      tree := new IntervalTree();
      a := tree.Insert(first);
      assert tree.Nodes() == [a] && !a.red;
      b := tree.Insert(second);
      assert tree.Nodes() == [a, b];
      tree.TwoInARow(a, b);
    }

    // Where the first of two nodes is at the top, the second one hangs on its right.
    lemma TwoInARow(a: Node, b: Node)
      requires Valid() && Nodes() == [a, b] && root.left == a && a != b
      ensures a in members && a.left == nil
    {
      assert a in Nodes() && SpanOk(a) && Linked(a);
      assert a.left != nil ==> SpanOk(a.left);
      assert |a.span| == 2 && a.span[0] == a && a.span[1] == b;
    }

    lemma VisibleInTwo(a: Node, b: Node, high: SimTime)
      requires Valid() && Nodes() == [a, b] && root.left == a && a.left == nil && a.key <= high && b.key <= high
      ensures Hits(Visible(root.left, -MAX_TIME), -MAX_TIME, high) == [a.interval]
      ensures Hits(Nodes(), -MAX_TIME, high) == [a.interval, b.interval]
    {
      assert a in Nodes();
      VisibleParts(a, -MAX_TIME);
      assert Visible(a, -MAX_TIME) == [a] && [a][1..] == [];
      assert [a, b][1..] == [b] && [b][1..] == [];
    }

    // ---- balance ----

    // Nodes on the longest path down from n.
    ghost function Height(n: Node): nat
      requires Shape() && (n == nil || n in members)
      reads this`members, members, root, nil
      decreases |n.span|
    {
      if n == nil then 0
      else (
        assert Linked(n) && SpanOk(n);
        var l, r := Height(n.left), Height(n.right);
        1 + if l < r then r else l)
    }

    lemma {:induction false} BlackHeightBounds(n: Node)
      requires Shape() && Colors() && (n == nil || n in members)
      ensures Pow2(n.bh) <= |n.span| + 1
      ensures Height(n) <= if n.red then 2 * n.bh - 1 else 2 * n.bh
      decreases |n.span|
    {
      if n != nil {
        assert Linked(n) && SpanOk(n) && BlackOk(n) && RedOk(n);
        BlackHeightBounds(n.left);
        BlackHeightBounds(n.right);
        assert Pow2(n.bh) == 2 * Pow2(n.bh - 1);
      }
    }

    // The height is at most 2 * log2(number of nodes + 1).
    lemma HeightIsLogarithmic()
      requires Valid()
      ensures Pow2((Height(root.left) + 1) / 2) <= |Nodes()| + 1
    {
      BlackHeightBounds(root.left);
      var h := (Height(root.left) + 1) / 2;
      if h < root.left.bh {
        Pow2Grows(h, root.left.bh);
      }
    }
  }
}
