/** Whole streams of replies: the reader's output does not depend on how the bytes were cut into reads. */
module Streams {
  import opened Bytes
  import opened Resp
  import opened Objects
  import opened StreamReader

  datatype Ending = Waiting(rest: bytes) | Refused(fault: Fault)

  /** The replies of a stream, and what stands after the last of them. */
  datatype Outcome = Outcome(items: seq<Item>, end: Ending)

  function Outcomes(s: bytes): Outcome
    decreases |s|
  {
    match ParseItem(0, s)
    case More => Outcome([], Waiting(s))
    case Fail(f) => Outcome([], Refused(f))
    case Done(i, rest) => var o := Outcomes(rest); Outcome([i] + o.items, o.end)
  }

  /** The outcome of o followed by the bytes t. */
  function Continued(o: Outcome, t: bytes): Outcome {
    match o.end
    case Refused(_) => o
    case Waiting(rest) => var p := Outcomes(rest + t); Outcome(o.items + p.items, p.end)
  }

  /** Bytes that arrive later only add replies, and nothing follows a refusal. */
  lemma {:induction false} OutcomesAppend(s: bytes, t: bytes)
    ensures Outcomes(s + t) == Continued(Outcomes(s), t)
    decreases |s|
  {
    match ParseItem(0, s)
    case More =>
      assert [] + Outcomes(s + t).items == Outcomes(s + t).items;
    case Fail(f) =>
      ParseExtend(0, s, t);
    case Done(i, rest) =>
      ParseExtend(0, s, t);
      OutcomesAppend(rest, t);
      var o := Outcomes(rest);
      if o.end.Waiting? {
        assert [i] + (o.items + Outcomes(o.end.rest + t).items) == [i] + o.items + Outcomes(o.end.rest + t).items;
      }
  }

  /** The items of a list, printed one after the other, come back as that list. */
  lemma {:induction false} OutcomesOfEncoded(items: seq<Item>, rest: bytes)
    requires forall k :: 0 <= k < |items| ==> WellFormed(items[k]) && Markers(items[k]) <= DEEPEST
    ensures Outcomes(EncodeAll(items) + rest) == Outcome(items + Outcomes(rest).items, Outcomes(rest).end)
  {
    hide ParseItem, Markers, WellFormed, Encode;
    if items == [] {
      assert EncodeAll(items) + rest == rest;
      assert items + Outcomes(rest).items == Outcomes(rest).items;
    } else {
      var s := EncodeAll(items[1..]) + rest;
      assert EncodeAll(items) + rest == Encode(items[0]) + s;
      ParseEncoded(0, items[0], s);
      OutcomesOfEncoded(items[1..], rest);
      assert [items[0]] + (items[1..] + Outcomes(rest).items) == items + Outcomes(rest).items;
    }
  }

  function Concat(chunks: seq<bytes>): bytes {
    if chunks == [] then [] else Concat(chunks[..|chunks| - 1]) + chunks[|chunks| - 1]
  }

  /** The replies handed out so far are still intact and below everything the reader works on. */
  ghost predicate Kept(c: Cells, base: nat, out: seq<nat>, items: seq<Item>) {
    && base <= |c| && |out| == |items|
    && forall k {:trigger out[k]} :: 0 <= k < |out| ==>
         out[k] + Size(Meaning(items[k])) <= base && Holds(c, out[k], Meaning(items[k]))
  }

  lemma KeptAgree(c: Cells, c': Cells, base: nat, base': nat, out: seq<nat>, items: seq<Item>)
    requires Kept(c, base, out, items) && Agree(c, c', 0, base) && base <= base' <= |c'|
    ensures Kept(c', base', out, items)
  {
    forall k {:trigger out[k]} | 0 <= k < |out|
      ensures out[k] + Size(Meaning(items[k])) <= base' && Holds(c', out[k], Meaning(items[k]))
    {
      HoldsAgree(c, c', out[k], Meaning(items[k]));
    }
  }

  lemma KeptOneMore(c: Cells, base: nat, out: seq<nat>, items: seq<Item>, at: nat, i: Item)
    requires Kept(c, base, out, items) && Holds(c, at, Meaning(i)) && |c| == base
    ensures Kept(c, base, out + [at], items + [i])
  {
    assert at + Size(Meaning(i)) <= base;
  }

  /** What the reader shows after the stream s: every reply so far, then more input awaited or the refusal. */
  ghost predicate Shows(r: Reader, out: seq<nat>, s: bytes)
    reads r, r.rstack, r.fn
  {
    && r.Valid()
    && Kept(r.fn.cells, r.base, out, Outcomes(s).items)
    && Outcomes(s).end == if r.err == 0 then Waiting(r.Stream()) else Refused(r.fault.value)
  }

  /** One call of `GetReply` moves one item from the stream to the list of replies. */
  lemma Shown(o: Outcome, s: bytes)
    requires o.end == Waiting(s)
    ensures match ParseItem(0, s)
            case Done(i, rest) => Continued(o, []) == Continued(Outcome(o.items + [i], Waiting(rest)), [])
            case More => Continued(o, []) == o
            case Fail(f) => Continued(o, []) == Outcome(o.items, Refused(f))
  {
    assert s + [] == s;
    match ParseItem(0, s)
    case Done(i, rest) =>
      assert rest + [] == rest;
      assert o.items + ([i] + Outcomes(rest).items) == o.items + [i] + Outcomes(rest).items;
    case _ =>
      assert o.items + [] == o.items;
  }

  /** Draining: take replies until the reader has none, as `redisProcessCallbacks` does. */
  method Drain(r: Reader, ghost s: bytes, out: seq<nat>, ghost o: Outcome) returns (out': seq<nat>)
    requires r.Valid() && r.err == 0 && o.end == Waiting(r.Stream()) && Kept(r.fn.cells, r.base, out, o.items)
    requires Outcomes(s) == Continued(o, [])
    modifies r, r.rstack, r.fn
    ensures Shows(r, out', s)
  {
    hide Reader.Reading, Reader.Failed, Reader.Waiting, Kept, ParseItem, Holds, Size, Meaning, Continued, Outcomes;
    out' := out;
    ghost var o := o;
    var more := true;
    while more
      invariant r.Valid() && Kept(r.fn.cells, r.base, out', o.items)
      invariant more ==> r.err == 0 && o.end == Waiting(r.Stream()) && Outcomes(s) == Continued(o, [])
      invariant !more ==>
                  Outcomes(s) == o && o.end == if r.err == 0 then Waiting(r.Stream()) else Refused(r.fault.value)
      decreases more, if more then |r.Stream()| else 0
    {
      ghost var cells, base, before := r.fn.cells, r.base, r.Stream();
      Shown(o, before);
      var ok, reply := r.GetReply();
      KeptAgree(cells, r.fn.cells, base, r.base, out', o.items);
      more := ok && reply.Some?;
      if more {
        ghost var i := ParseItem(0, before).item;
        KeptOneMore(r.fn.cells, r.base, out', o.items, reply.value, i);
        out' := out' + [reply.value];
        o := Outcome(o.items + [i], Waiting(r.Stream()));
      } else if !ok {
        o := Outcome(o.items, Refused(r.fault.value));
      }
    }
  }

  /**
   Chunking invariance: feed the chunks one by one and drain after each. Replies, their order and content,
   a refusal, its kind and its place are those of the concatenated bytes, so every way of cutting the
   same stream shows the same, and so does feeding it whole.
   */
  method FeedAll(chunks: seq<bytes>, maxbuf: nat) returns (r: Reader, out: seq<nat>)
    ensures Shows(r, out, Concat(chunks)) && fresh(r) && fresh(r.rstack) && fresh(r.fn)
  {
    hide Reader.Reading, Reader.Failed, Reader.Waiting, ParseItem, Holds, Size, Meaning;
    r := new Reader(maxbuf);
    out := [];
    NothingYet();
    assert chunks[..0] == [];
    for k := 0 to |chunks|
      invariant Shows(r, out, Concat(chunks[..k]))
      invariant fresh(r) && fresh(r.rstack) && fresh(r.fn)
    {
      assert chunks[..k + 1][..k] == chunks[..k];
      out := FeedAndDrain(r, Concat(chunks[..k]), out, chunks[k]);
    }
    assert chunks[..|chunks|] == chunks;
  }

  /** One read event: bytes arrive, then every reply they complete is taken. */
  method FeedAndDrain(r: Reader, ghost s: bytes, out: seq<nat>, t: bytes) returns (out': seq<nat>)
    requires Shows(r, out, s)
    modifies r, r.rstack, r.fn
    ensures Shows(r, out', s + t)
  {
    hide Reader.Reading, Reader.Failed, Reader.Waiting, Kept, ParseItem, Holds, Size, Meaning, Outcomes;
    OutcomesAppend(s, t);
    ghost var o, before := Outcomes(s), r.Stream();
    var ok := r.Feed(t);
    out' := out;
    if ok {
      assert r.Stream() == before + t;
      ghost var o' := Outcome(o.items, Waiting(r.Stream()));
      assert Continued(o', []) == Outcomes(s + t) by { assert before + t + [] == before + t; }
      out' := Drain(r, s + t, out, o');
    }
  }
}
