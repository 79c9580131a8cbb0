/**
 The reply objects of hiredis.c (`create*Object`, `freeReplyObject`) on an explicit store.
 An address is an index into `cells`; `calloc` hands out the next index, so the objects
 of one reply lie together, a parent before its elements and each element after the ones before it.
 */
module Objects {
  import opened Bytes
  import opened Resp

  datatype Cell =
    | Freed
    | Leaf(reply: Reply)
    | Node(element: seq<Option<nat>>)

  type Cells = seq<Cell>

  // ----- A finished reply -----

  function Size(r: Reply): nat {
    match r
    case Array(elements) => 1 + SizeAll(elements)
    case _ => 1
  }

  function SizeAll(rs: seq<Reply>): nat {
    if rs == [] then 0 else Size(rs[0]) + SizeAll(rs[1..])
  }

  /** The object at `at`, with all it points to, is the reply r and fills the next Size(r) cells. */
  predicate Holds(c: Cells, at: nat, r: Reply)
    decreases r
  {
    && at + Size(r) <= |c|
    && match r
       case Array(elements) => c[at].Node? && HoldsAll(c, at + 1, elements, c[at].element)
       case _ => c[at] == Leaf(r)
  }

  predicate HoldsAll(c: Cells, at: nat, rs: seq<Reply>, slots: seq<Option<nat>>)
    decreases rs
  {
    && at + SizeAll(rs) <= |c|
    && |slots| == |rs|
    && (rs != [] ==>
          && slots[0] == Some(at)
          && Holds(c, at, rs[0])
          && HoldsAll(c, at + Size(rs[0]), rs[1..], slots[1..]))
  }

  predicate Agree(c: Cells, c': Cells, lo: nat, hi: nat) {
    hi <= |c| && hi <= |c'| && forall k :: lo <= k < hi ==> c[k] == c'[k]
  }

  lemma {:induction false} HoldsAgree(c: Cells, c': Cells, at: nat, r: Reply)
    requires Holds(c, at, r) && Agree(c, c', at, at + Size(r))
    ensures Holds(c', at, r)
    decreases r
  {
    if r.Array? {
      HoldsAllAgree(c, c', at + 1, r.elements, c[at].element);
    }
  }

  lemma {:induction false} HoldsAllAgree(c: Cells, c': Cells, at: nat, rs: seq<Reply>, slots: seq<Option<nat>>)
    requires HoldsAll(c, at, rs, slots) && Agree(c, c', at, at + SizeAll(rs))
    ensures HoldsAll(c', at, rs, slots)
    decreases rs
  {
    if rs != [] {
      HoldsAgree(c, c', at, rs[0]);
      HoldsAllAgree(c, c', at + Size(rs[0]), rs[1..], slots[1..]);
    }
  }

  lemma {:induction false} SizeAllSnoc(rs: seq<Reply>, r: Reply)
    ensures SizeAll(rs + [r]) == SizeAll(rs) + Size(r)
  {
    if rs == [] {
      assert rs + [r] == [r];
    } else {
      SizeAllSnoc(rs[1..], r);
      assert (rs + [r])[1..] == rs[1..] + [r];
    }
  }

  lemma {:induction false} HoldsAllSnoc(c: Cells, at: nat, rs: seq<Reply>, slots: seq<Option<nat>>, r: Reply)
    requires HoldsAll(c, at, rs, slots) && Holds(c, at + SizeAll(rs), r)
    ensures HoldsAll(c, at, rs + [r], slots + [Some(at + SizeAll(rs))])
    decreases rs
  {
    SizeAllSnoc(rs, r);
    if rs == [] {
      assert rs + [r] == [r];
    } else {
      HoldsAllSnoc(c, at + Size(rs[0]), rs[1..], slots[1..], r);
      assert (rs + [r])[1..] == rs[1..] + [r];
      assert (slots + [Some(at + SizeAll(rs))])[1..] == slots[1..] + [Some(at + SizeAll(rs))];
    }
  }

  // ----- A tree that may still have NULL elements -----

  /** The cells lo..hi are exactly the live objects reachable from the object at lo. */
  ghost predicate Tree(c: Cells, lo: nat, hi: nat)
    decreases hi - lo, 0
  {
    && lo < hi <= |c|
    && match c[lo]
       case Freed => false
       case Leaf(_) => hi == lo + 1
       case Node(slots) => Forest(c, lo + 1, hi, slots)
  }

  ghost predicate Forest(c: Cells, lo: nat, hi: nat, slots: seq<Option<nat>>)
    requires hi <= |c|
    decreases hi - lo, |slots| + 1
  {
    && lo <= hi
    && if slots == [] then lo == hi
       else if slots[0].None? then Forest(c, lo, hi, slots[1..])
       else slots[0] == Some(lo) && exists mid :: SplitAt(c, lo, mid, hi, slots)
  }

  ghost predicate SplitAt(c: Cells, lo: nat, mid: nat, hi: nat, slots: seq<Option<nat>>)
    requires hi <= |c| && slots != []
    decreases hi - lo, |slots|
  {
    lo < mid <= hi && Tree(c, lo, mid) && Forest(c, mid, hi, slots[1..])
  }

  lemma {:induction false} HoldsIsTree(c: Cells, at: nat, r: Reply)
    requires Holds(c, at, r)
    ensures Tree(c, at, at + Size(r))
    decreases r
  {
    if r.Array? {
      NoSlots(c, at + 1 + SizeAll(r.elements), []);
      HoldsAllIsForest(c, at + 1, at + Size(r), r.elements, c[at].element, []);
      assert c[at].element + [] == c[at].element;
    }
  }

  /** NULL elements point to nothing. */
  lemma {:induction false} NoSlots(c: Cells, hi: nat, slots: seq<Option<nat>>)
    requires hi <= |c| && forall k :: 0 <= k < |slots| ==> slots[k] == None
    ensures Forest(c, hi, hi, slots)
  {
    if slots != [] {
      NoSlots(c, hi, slots[1..]);
    }
  }

  lemma {:induction false} HoldsAllIsForest(c: Cells, at: nat, hi: nat, rs: seq<Reply>, slots: seq<Option<nat>>,
                                            more: seq<Option<nat>>)
    requires HoldsAll(c, at, rs, slots) && at + SizeAll(rs) <= hi <= |c| && Forest(c, at + SizeAll(rs), hi, more)
    ensures Forest(c, at, hi, slots + more)
    decreases rs
  {
    if rs == [] {
      assert slots + more == more;
    } else {
      var mid := at + Size(rs[0]);
      HoldsIsTree(c, at, rs[0]);
      HoldsAllIsForest(c, mid, hi, rs[1..], slots[1..], more);
      assert (slots + more)[1..] == slots[1..] + more;
      assert SplitAt(c, at, mid, hi, slots + more);
    }
  }

  lemma {:induction false} TreeAgree(c: Cells, c': Cells, lo: nat, hi: nat)
    requires Tree(c, lo, hi) && Agree(c, c', lo, hi)
    ensures Tree(c', lo, hi)
    decreases hi - lo, 0
  {
    if c[lo].Node? {
      ForestAgree(c, c', lo + 1, hi, c[lo].element);
    }
  }

  lemma {:induction false} ForestAgree(c: Cells, c': Cells, lo: nat, hi: nat, slots: seq<Option<nat>>)
    requires hi <= |c| && hi <= |c'| && Forest(c, lo, hi, slots) && Agree(c, c', lo, hi)
    ensures Forest(c', lo, hi, slots)
    decreases hi - lo, |slots| + 1
  {
    if slots == [] {
    } else if slots[0].None? {
      ForestAgree(c, c', lo, hi, slots[1..]);
    } else {
      var mid :| SplitAt(c, lo, mid, hi, slots);
      TreeAgree(c, c', lo, mid);
      ForestAgree(c, c', mid, hi, slots[1..]);
      assert SplitAt(c', lo, mid, hi, slots);
    }
  }

  // ----- The store -----

  /** The store after `parent->element[idx] = r` for a new object r at the end of it. */
  function Linked(c: Cells, parent: Option<nat>, idx: int, cell: Cell): Cells
    requires CanLink(c, parent, idx)
  {
    (if parent.None? then c else c[parent.value := Node(c[parent.value].element[idx := Some(|c|)])]) + [cell]
  }

  /** The parent is a live array and has a slot idx. */
  predicate CanLink(c: Cells, parent: Option<nat>, idx: int) {
    parent.Some? ==> parent.value < |c| && c[parent.value].Node? && 0 <= idx < |c[parent.value].element|
  }

  class Store {
    var cells: Cells

    constructor ()
      ensures cells == []
    {
      cells := [];
    }

    /** `createStringObject`, `createIntegerObject` and `createNilObject`. */
    method CreateLeaf(parent: Option<nat>, idx: int, reply: Reply) returns (r: nat)
      requires CanLink(cells, parent, idx)
      modifies this
      ensures r == |old(cells)| && cells == Linked(old(cells), parent, idx, Leaf(reply))
    {
      r := |cells|;
      cells := cells + [Leaf(reply)];
      if parent.Some? {
        cells := cells[parent.value := Node(cells[parent.value].element[idx := Some(r)])];
      }
    }

    method CreateArray(parent: Option<nat>, idx: int, elements: nat) returns (r: nat)
      requires CanLink(cells, parent, idx)
      modifies this
      ensures r == |old(cells)| && cells == Linked(old(cells), parent, idx, Node(seq(elements, _ => None)))
    {
      r := |cells|;
      cells := cells + [Node(seq(elements, _ => None))];
      if parent.Some? {
        cells := cells[parent.value := Node(cells[parent.value].element[idx := Some(r)])];
      }
    }

    /** What a callback reads when it goes through the object at at: the reply that it is. */
    method View(at: nat, ghost r: Reply) returns (v: Reply)
      requires Holds(cells, at, r)
      ensures v == r
      decreases r
    {
      match cells[at] {
        case Leaf(x) => v := x;
        case Node(slots) =>
          var vs := [];
          ghost var lo: nat := at + 1;
          for j := 0 to |slots|
            invariant r.Array? && |slots| == |r.elements| && vs == r.elements[..j]
            invariant HoldsAll(cells, lo, r.elements[j..], slots[j..])
          {
            assert slots[j..][1..] == slots[j + 1..] && r.elements[j..][1..] == r.elements[j + 1..];
            assert slots[j] == slots[j..][0] == Some(lo);
            var x := View(slots[j].value, r.elements[j]);
            vs := vs + [x];
            lo := lo + Size(r.elements[j]);
          }
          v := Array(vs);
      }
    }

    /**
     `freeReplyObject`: frees every object reachable from the given one, each exactly once
     (`Release` refuses a freed cell), and touches no other.
     */
    method Free(at: nat, ghost hi: nat)
      requires Tree(cells, at, hi)
      modifies this
      ensures |cells| == |old(cells)|
      ensures forall k :: at <= k < hi ==> cells[k] == Freed
      ensures forall k :: 0 <= k < |cells| && !(at <= k < hi) ==> cells[k] == old(cells[k])
      decreases hi - at
    {
      if cells[at].Node? {
        var slots := cells[at].element;
        var j := 0;
        ghost var lo := at + 1;
        while j < |slots|
          invariant 0 <= j <= |slots| && at < lo <= hi
          invariant |cells| == |old(cells)|
          invariant Forest(cells, lo, hi, slots[j..])
          invariant forall k :: at < k < lo ==> cells[k] == Freed
          invariant forall k :: 0 <= k < |cells| && !(at < k < lo) ==> cells[k] == old(cells[k])
        {
          assert slots[j..][1..] == slots[j + 1..];
          if slots[j].Some? {
            ghost var mid: nat :| SplitAt(cells, lo, mid, hi, slots[j..]);
            ghost var before := cells;
            Free(slots[j].value, mid);
            ForestAgree(before, cells, mid, hi, slots[j + 1..]);
            lo := mid;
          }
          j := j + 1;
        }
      }
      Release(at);
    }

    /** `free`: the object must be live. */
    method Release(at: nat)
      requires at < |cells| && cells[at] != Freed
      modifies this
      ensures cells == old(cells)[at := Freed]
    {
      cells := cells[at := Freed];
    }
  }
}
