// Reassembly of a datagram from fragments that arrive in any order.
module Reassembly {

  type ushort = x: int | 0 <= x < 0x1_0000

  // An offset range; islast marks the one with the last bytes of the datagram.
  datatype Region = Region(beg: ushort, end: ushort, islast: bool)

  // ---- the datagram and what of it has arrived ----

  // Where the datagram is cut: from 0 up to its length, each fragment at least one byte long.
  ghost predicate Cuts(cuts: seq<ushort>) {
    && |cuts| >= 2 && cuts[0] == 0
    && forall i, j | 0 <= i < j < |cuts| :: cuts[i] < cuts[j]
  }

  ghost function Piece(cuts: seq<ushort>, i: nat): Region
    requires i + 1 < |cuts|
  {
    Region(cuts[i], cuts[i + 1], i + 2 == |cuts|)
  }

  // All pieces from lo up to k have arrived.
  ghost predicate HasRun(received: set<nat>, lo: nat, k: nat) {
    forall i | lo <= i < k :: i in received
  }

  // From the start, k pieces have arrived without a gap, and the next has not.
  ghost predicate LongestPrefix(received: set<nat>, k: nat) {
    HasRun(received, 0, k) && k !in received
  }

  // Whatever the order of arrival, there is one such k.
  lemma LongestPrefixIsUnique(received: set<nat>, k: nat, m: nat)
    requires LongestPrefix(received, k) && LongestPrefix(received, m)
    ensures k == m
  {
    assert HasRun(received, 0, k) && HasRun(received, 0, m);
  }

  class ReassemblyBuffer {
    var main: Region
    var fragments: seq<Region>
    ghost const cuts: seq<ushort>
    ghost var received: set<nat>
    // Main holds the pieces from first up to next, and aside lists those set aside.
    ghost var first: nat
    ghost var next: nat
    ghost var aside: seq<nat>

    constructor (ghost cuts: seq<ushort>)
      requires Cuts(cuts)
      ensures Valid() && received == {} && this.cuts == cuts && first == 0 && main == Region(0, 0, false)
    {
      main := Region(0, 0, false);
      fragments := [];
      this.cuts, received, first, next, aside := cuts, {}, 0, 0, [];
    }

    // Main and the fragments set aside are pieces that have arrived, and none of those is missing.
    ghost predicate Consistent()
      reads this
    {
      && Cuts(cuts) && first <= next < |cuts| && (first == next ==> first == 0) && HasRun(received, first, next)
      && main == Region(cuts[first], cuts[next], next + 1 == |cuts|)
      && |aside| == |fragments|
      && (forall i | i in received :: i + 1 < |cuts| && (first <= i < next || i in aside))
      && (forall x {:trigger aside[x]} | 0 <= x < |aside| ::
           aside[x] in received && aside[x] + 1 < |cuts| && fragments[x] == Piece(cuts, aside[x]))
    }

    // A piece that main neither holds nor touches.
    ghost predicate Apart(i: nat)
      reads this
    {
      i + 1 < first || next < i
    }

    // Between two fragments: what is set aside lies apart from main.
    ghost predicate Valid()
      reads this
    {
      Consistent() && forall x {:trigger aside[x]} | 0 <= x < |aside| :: Apart(aside[x])
    }

    // Main depends on nothing but the set of pieces that have arrived, and is complete exactly when all have.
    lemma MainIsLongestPrefix()
      requires Valid() && first == 0
      ensures LongestPrefix(received, next) && main.beg == 0 && main.end == cuts[next]
      ensures main.islast <==> forall i: nat | i + 1 < |cuts| :: i in received
    {
    }

    // Returns true when everything from offset 0 to the last fragment is there.
    method AddFragment(beg: ushort, end: ushort, islast: bool, ghost i: nat) returns (complete: bool)
      requires Valid() && first == 0 && i + 1 < |cuts| && Region(beg, end, islast) == Piece(cuts, i)
      modifies this
      ensures Valid() && first == 0 && received == old(received) + {i}
      ensures LongestPrefix(received, next) && main.beg == 0 && main.end == cuts[next]
      ensures complete <==> forall j: nat | j + 1 < |cuts| :: j in received
      ensures complete ==> GetTotalLength() == cuts[|cuts| - 1]
    {
      Merge(beg, end, islast, i);
      complete := main.beg == 0 && main.islast;
      MainIsLongestPrefix();
    }

    function GetTotalLength(): ushort
      reads this
    {
      main.end
    }

    method Merge(beg: ushort, end: ushort, islast: bool, ghost i: nat)
      requires Valid() && i + 1 < |cuts| && Region(beg, end, islast) == Piece(cuts, i)
      modifies this
      ensures Valid() && received == old(received) + {i} && first <= old(first)
    {
      if main.end == beg {
        // most typical case: new fragment follows last one
        assert i == next;
        main := main.(end := end);
        if islast {
          main := main.(islast := true);
        }
        received, next := received + {i}, next + 1;
        MergeFragments();
      } else if main.beg == end {
        // the piece ends where main begins
        assert i + 1 == first;
        main := main.(beg := beg);
        received, first := received + {i}, first - 1;
        MergeFragments();
      } else if main.end < beg || main.beg > end {
        // there is a gap between the piece and main
        SetAside(Region(beg, end, islast), i);
      } else {
        // the piece lies within main, so it has come before
        assert first <= i < next;
        received := received + {i};
      }
    }

    // Store a fragment until another fills in the gap.
    method SetAside(r: Region, ghost i: nat)
      requires Valid() && Apart(i) && i + 1 < |cuts| && r == Piece(cuts, i)
      modifies this`fragments, this`aside, this`received
      ensures Valid() && received == old(received) + {i}
    {
      fragments := fragments + [r];
      aside := aside + [i];
      received := received + {i};
    }

    method MergeFragments()
      requires Consistent()
      modifies this`main, this`fragments, this`first, this`next, this`aside
      ensures Valid() && first <= old(first)
    {
      var oncemore := true;
      while oncemore
        invariant Consistent() && first <= old(first)
        invariant !oncemore ==> Valid()
        decreases |fragments|, oncemore
      {
        oncemore := MergePass();
      }
    }

    // One pass over the fragments; oncemore tells that one of them was used up.
    method MergePass() returns (oncemore: bool)
      requires Consistent()
      modifies this`main, this`fragments, this`first, this`next, this`aside
      ensures Consistent() && |fragments| <= |old(fragments)| && first <= old(first)
      ensures oncemore ==> |fragments| < |old(fragments)|
      ensures !oncemore ==> Valid()
    {
      oncemore := false;
      var i := 0;
      while i < |fragments|
        invariant i <= |fragments| <= |old(fragments)| && Consistent() && first <= old(first)
        invariant oncemore ==> |fragments| < |old(fragments)|
        invariant !oncemore ==> forall x | 0 <= x < i :: Apart(aside[x])
        decreases |fragments| - i
      {
        var deleteit := TryToJoin(fragments[i], aside[i]);
        if deleteit {
          EraseFragment(i);
          oncemore := true;
        } else {
          i := i + 1;
        }
      }
    }

    // Extend main by a piece set aside, if it fits; true if the piece can go.
    method TryToJoin(frag: Region, ghost p: nat) returns (deleteit: bool)
      requires Consistent() && p in received && p + 1 < |cuts| && frag == Piece(cuts, p)
      modifies this`main, this`first, this`next
      ensures Consistent() && first <= old(first)
      ensures deleteit ==> first <= p < next
      ensures !deleteit ==> Apart(p) && first == old(first) && next == old(next)
    {
      deleteit := false;
      if main.end == frag.beg {
        assert p == next;
        main := main.(end := frag.end);
        if frag.islast {
          main := main.(islast := true);
        }
        next := next + 1;
        deleteit := true;
      } else if main.beg == frag.end {
        assert p + 1 == first;
        main := main.(beg := frag.beg);
        first := first - 1;
        deleteit := true;
      } else if main.beg <= frag.beg && main.end >= frag.end {
        // main holds this piece already
        deleteit := true;
      }
    }

    method EraseFragment(i: nat)
      requires Consistent() && i < |fragments| && first <= aside[i] < next
      modifies this`fragments, this`aside
      ensures Consistent() && |fragments| == |old(fragments)| - 1
      ensures aside == old(aside)[..i] + old(aside)[i + 1..]
    {
      ghost var before := aside;
      fragments := fragments[..i] + fragments[i + 1..];
      aside := aside[..i] + aside[i + 1..];
      assert forall j | j in before && j != before[i] :: j in aside by {
        assert before == before[..i] + [before[i]] + before[i + 1..];
      }
    }
  }
}
