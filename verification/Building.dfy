/** How the open arrays of the task stack lie in the store while a reply is being built. */
module Building {
  import opened Bytes
  import opened Resp
  import opened Resumption
  import opened Objects

  /** The first cell after the objects of the open arrays and their finished elements. */
  function EndOf(base: nat, ctx: seq<Frame>): nat {
    if ctx == [] then base else Last(ctx).obj + 1 + SizeAll(MeaningAll(Last(ctx).kids))
  }

  /** An open array: finished elements first, then `next` at the index being read, then NULL. */
  predicate FrameAt(c: Cells, f: Frame, next: Option<nat>) {
    && |f.kids| < f.n
    && f.obj + 1 + SizeAll(MeaningAll(f.kids)) <= |c|
    && c[f.obj].Node?
    && var slots := c[f.obj].element;
       && |slots| == f.n
       && HoldsAll(c, f.obj + 1, MeaningAll(f.kids), slots[..|f.kids|])
       && slots[|f.kids|] == next
       && forall j :: |f.kids| < j < f.n ==> slots[j] == None
  }

  /** Each open array is the element being read of the one below it, and nothing lies between them. */
  predicate FramesAt(c: Cells, base: nat, ctx: seq<Frame>, next: Option<nat>) {
    ctx == [] ||
    (&& FrameAt(c, Last(ctx), next)
     && Last(ctx).obj == EndOf(base, Init(ctx))
     && FramesAt(c, base, Init(ctx), Some(Last(ctx).obj)))
  }

  lemma {:induction false} FramesOrdered(c: Cells, base: nat, ctx: seq<Frame>, next: Option<nat>)
    requires FramesAt(c, base, ctx, next) && ctx != []
    ensures base <= Last(ctx).obj < EndOf(base, ctx) <= |c|
  {
    if Init(ctx) != [] {
      FramesOrdered(c, base, Init(ctx), Some(Last(ctx).obj));
    }
  }

  lemma {:induction false} FramesAgree(c: Cells, c': Cells, base: nat, ctx: seq<Frame>, next: Option<nat>)
    requires FramesAt(c, base, ctx, next) && Agree(c, c', base, EndOf(base, ctx))
    ensures FramesAt(c', base, ctx, next)
  {
    if ctx != [] {
      FramesOrdered(c, base, ctx, next);
      var f := Last(ctx);
      HoldsAllAgree(c, c', f.obj + 1, MeaningAll(f.kids), c[f.obj].element[..|f.kids|]);
      FramesAgree(c, c', base, Init(ctx), Some(f.obj));
    }
  }

  /** The parent the innermost task writes to, and its index there. */
  function ParentOf(ctx: seq<Frame>): Option<nat> {
    if ctx == [] then None else Some(Last(ctx).obj)
  }

  function IndexOf(ctx: seq<Frame>): int {
    if ctx == [] then -1 else |Last(ctx).kids|
  }

  ghost predicate Built(c: Cells, base: nat, ctx: seq<Frame>) {
    FramesAt(c, base, ctx, None) && |c| == EndOf(base, ctx)
  }

  lemma BuiltAbove(c: Cells, base: nat, ctx: seq<Frame>)
    requires Built(c, base, ctx)
    ensures base <= |c|
  {
    if ctx != [] {
      FramesOrdered(c, base, ctx, None);
    }
  }

  lemma BuiltRoot(c: Cells, base: nat, ctx: seq<Frame>)
    requires Built(c, base, ctx)
    ensures ctx == [] ==> |c| == base
  {
  }

  lemma LinkAllowed(c: Cells, base: nat, ctx: seq<Frame>)
    requires Built(c, base, ctx)
    ensures CanLink(c, ParentOf(ctx), IndexOf(ctx))
  {
  }

  /** A new object is written into the slot being read. */
  lemma LinkNext(c: Cells, base: nat, ctx: seq<Frame>, cell: Cell)
    requires Built(c, base, ctx)
    ensures CanLink(c, ParentOf(ctx), IndexOf(ctx))
    ensures
      var c' := Linked(c, ParentOf(ctx), IndexOf(ctx), cell);
      && |c'| == |c| + 1 && c'[|c|] == cell && FramesAt(c', base, ctx, Some(|c|))
      && base <= |c| && Agree(c, c', 0, base)
  {
    hide Holds, Size, Meaning;
    if ctx != [] {
      FramesOrdered(c, base, ctx, None);
      var f, c' := Last(ctx), Linked(c, ParentOf(ctx), IndexOf(ctx), cell);
      FramesAgree(c, c', base, Init(ctx), Some(f.obj));
      assert c'[f.obj].element[..|f.kids|] == c[f.obj].element[..|f.kids|];
      HoldsAllAgree(c, c', f.obj + 1, MeaningAll(f.kids), c[f.obj].element[..|f.kids|]);
    }
  }

  /** The item i is finished at the end of the store and linked into the innermost open array. */
  ghost predicate Placed(c: Cells, base: nat, ctx: seq<Frame>, i: Item) {
    && FramesAt(c, base, ctx, Some(EndOf(base, ctx)))
    && Holds(c, EndOf(base, ctx), Meaning(i))
    && |c| == EndOf(base, ctx) + Size(Meaning(i))
  }

  lemma MeaningSnoc(kids: seq<Item>, i: Item)
    ensures MeaningAll(kids + [i]) == MeaningAll(kids) + [Meaning(i)]
  {
  }

  /** The element i goes to the next slot of the innermost array, or completes that array. */
  lemma PlacedHolds(c: Cells, base: nat, ctx: seq<Frame>, i: Item)
    requires Placed(c, base, ctx, i) && ctx != []
    ensures
      var f := Last(ctx);
      var kids := MeaningAll(f.kids + [i]);
      && HoldsAll(c, f.obj + 1, kids, c[f.obj].element[..|f.kids| + 1])
      && SizeAll(kids) == SizeAll(MeaningAll(f.kids)) + Size(Meaning(i))
  {
    var f := Last(ctx);
    var slots := c[f.obj].element;
    MeaningSnoc(f.kids, i);
    SizeAllSnoc(MeaningAll(f.kids), Meaning(i));
    HoldsAllSnoc(c, f.obj + 1, MeaningAll(f.kids), slots[..|f.kids|], Meaning(i));
    assert slots[..|f.kids| + 1] == slots[..|f.kids|] + [slots[|f.kids|]];
  }

  lemma ElementAdded(c: Cells, base: nat, ctx: seq<Frame>, i: Item)
    requires Placed(c, base, ctx, i) && ctx != [] && |Last(ctx).kids| + 1 < Last(ctx).n
    ensures Built(c, base, Init(ctx) + [Last(ctx).(kids := Last(ctx).kids + [i])])
  {
    PlacedHolds(c, base, ctx, i);
    var ctx' := Init(ctx) + [Last(ctx).(kids := Last(ctx).kids + [i])];
    assert Init(ctx') == Init(ctx);
  }

  lemma ArrayCompleted(c: Cells, base: nat, ctx: seq<Frame>, i: Item)
    requires Placed(c, base, ctx, i) && ctx != [] && |Last(ctx).kids| + 1 == Last(ctx).n
    ensures Placed(c, base, Init(ctx), Multi(Last(ctx).kids + [i]))
  {
    PlacedHolds(c, base, ctx, i);
    var f := Last(ctx);
    var kids := f.kids + [i];
    assert c[f.obj].element[..|kids|] == c[f.obj].element;
    assert Meaning(Multi(kids)) == Array(MeaningAll(kids));
    assert Holds(c, f.obj, Array(MeaningAll(kids)));
  }

  lemma LeafPlaced(c: Cells, base: nat, ctx: seq<Frame>, i: Item)
    requires Built(c, base, ctx) && !i.Multi?
    ensures CanLink(c, ParentOf(ctx), IndexOf(ctx))
    ensures
      var c' := Linked(c, ParentOf(ctx), IndexOf(ctx), Leaf(Meaning(i)));
      Placed(c', base, ctx, i) && base <= |c| && Agree(c, c', 0, base)
  {
    LinkNext(c, base, ctx, Leaf(Meaning(i)));
  }

  lemma EmptyArrayPlaced(c: Cells, base: nat, ctx: seq<Frame>)
    requires Built(c, base, ctx)
    ensures CanLink(c, ParentOf(ctx), IndexOf(ctx))
    ensures
      var c' := Linked(c, ParentOf(ctx), IndexOf(ctx), Node([]));
      Placed(c', base, ctx, Multi([])) && base <= |c| && Agree(c, c', 0, base)
  {
    LinkNext(c, base, ctx, Node([]));
  }

  lemma ArrayOpens(c: Cells, base: nat, ctx: seq<Frame>, n: nat)
    requires Built(c, base, ctx) && n > 0
    ensures CanLink(c, ParentOf(ctx), IndexOf(ctx))
    ensures
      var c' := Linked(c, ParentOf(ctx), IndexOf(ctx), Node(seq(n, _ => None)));
      Built(c', base, ctx + [Frame(n, [], |c|)]) && base <= |c| && Agree(c, c', 0, base)
  {
    LinkAllowed(c, base, ctx);
    var cell, f := Node(seq(n, _ => None)), Frame(n, [], |c|);
    var c' := Linked(c, ParentOf(ctx), IndexOf(ctx), cell);
    LinkNext(c, base, ctx, cell);
    assert Init(ctx + [f]) == ctx;
    assert c'[f.obj].element[..0] == [];
    assert FrameAt(c', f, None);
  }

  /** Everything built since `base` is reachable from the object at `base`. */
  lemma {:induction false} FramesTree(c: Cells, base: nat, ctx: seq<Frame>, next: Option<nat>, hi: nat)
    requires FramesAt(c, base, ctx, next) && ctx != []
    requires hi <= |c| && Forest(c, EndOf(base, ctx), hi, [next])
    ensures Tree(c, base, hi)
  {
    var f := Last(ctx);
    var slots := c[f.obj].element;
    var later := slots[|f.kids|..];
    FramesOrdered(c, base, ctx, next);
    assert later[..1] == [next];
    ForestPadded(c, EndOf(base, ctx), hi, later);
    HoldsAllIsForest(c, f.obj + 1, hi, MeaningAll(f.kids), slots[..|f.kids|], later);
    assert slots[..|f.kids|] + later == slots;
    if Init(ctx) != [] {
      assert Tree(c, f.obj, hi);
      OneSlot(c, f.obj, hi);
      FramesTree(c, base, Init(ctx), Some(f.obj), hi);
    }
  }

  lemma OneSlot(c: Cells, lo: nat, hi: nat)
    requires Tree(c, lo, hi)
    ensures Forest(c, lo, hi, [Some(lo)])
  {
    var slots: seq<Option<nat>> := [Some(lo)];
    NoSlots(c, hi, slots[1..]);
    assert SplitAt(c, lo, hi, hi, slots);
  }

  lemma ForestPadded(c: Cells, lo: nat, hi: nat, slots: seq<Option<nat>>)
    requires hi <= |c| && slots != [] && Forest(c, lo, hi, slots[..1])
    requires forall j :: 0 < j < |slots| ==> slots[j] == None
    ensures Forest(c, lo, hi, slots)
  {
    NoSlots(c, hi, slots[1..]);
    if slots[0].None? {
      assert slots[..1][1..] == [];
    } else {
      var mid: nat :| SplitAt(c, lo, mid, hi, slots[..1]);
      assert slots[..1][1..] == [];
      assert Forest(c, mid, hi, []);
      assert SplitAt(c, lo, mid, hi, slots);
    }
  }

  lemma BuiltIsTree(c: Cells, base: nat, ctx: seq<Frame>)
    requires Built(c, base, ctx) && ctx != []
    ensures Tree(c, base, |c|)
  {
    FramesTree(c, base, ctx, None, |c|);
  }
}
