/** Which callback got which reply: the histories that the proofs about async.c are stated on. */
module Deliveries {
  import opened Bytes
  import opened Callbacks
  import opened Resp
  import opened Subscriptions

  /** A callback together with the reply it is given; None is the NULL reply of a context being torn down. */
  datatype Delivery = Delivery(cb: Callback, reply: Option<Reply>)

  /** The deliveries that call a function: `__redisRunCallback` skips a NULL one. */
  function Runs(taken: seq<Delivery>): seq<Delivery> {
    if taken == [] then []
    else Runs(taken[..|taken| - 1]) + (if taken[|taken| - 1].cb.fn then [taken[|taken| - 1]] else [])
  }

  lemma RunsMore(taken: seq<Delivery>, d: Delivery)
    ensures Runs(taken + [d]) == Runs(taken) + if d.cb.fn then [d] else []
  {
    assert (taken + [d])[..|taken|] == taken;
  }

  /** Each delivery to a function is run once, at the place given by the ones before it. */
  lemma {:induction false} RunsEach(taken: seq<Delivery>, i: nat)
    requires i < |taken| && taken[i].cb.fn
    ensures Runs(taken[..i]) + [taken[i]] <= Runs(taken)
  {
    var n := |taken| - 1;
    if i < n {
      RunsEach(taken[..n], i);
      assert taken[..n][..i] == taken[..i];
    }
  }

  /** Every run comes from a delivery. */
  lemma {:induction false} RunsOnly(taken: seq<Delivery>, r: nat) returns (i: nat)
    requires r < |Runs(taken)|
    ensures i < |taken| && taken[i].cb.fn && Runs(taken)[..r] == Runs(taken[..i]) && Runs(taken)[r] == taken[i]
  {
    var n := |taken| - 1;
    if r < |Runs(taken[..n])| {
      i := RunsOnly(taken[..n], r);
      assert taken[..n][..i] == taken[..i];
    } else {
      i := n;
    }
  }

  /** Callbacks that get the NULL reply. */
  function Nulls(cbs: seq<Callback>): (r: seq<Delivery>)
    ensures |r| == |cbs| && forall i :: 0 <= i < |cbs| ==> r[i] == Delivery(cbs[i], None)
  {
    seq(|cbs|, i requires 0 <= i < |cbs| => Delivery(cbs[i], None))
  }

  /** ks goes through the keys of d, each once. */
  ghost predicate Iterates(ks: seq<bytes>, d: map<bytes, Callback>) {
    Distinct(ks) && forall k :: k in ks <==> k in d
  }

  /** First in, first out: what was taken and what waits is what was accepted. */
  ghost predicate InOrder(accepted: seq<Callback>, taken: seq<Delivery>, replies: seq<Callback>) {
    && |accepted| == |taken| + |replies|
    && (forall i :: 0 <= i < |taken| ==> taken[i].cb == accepted[i])
    && (forall i :: 0 <= i < |replies| ==> replies[i] == accepted[|taken| + i])
  }

  lemma InOrderPush(accepted: seq<Callback>, taken: seq<Delivery>, replies: seq<Callback>, cb: Callback)
    requires InOrder(accepted, taken, replies)
    ensures InOrder(accepted + [cb], taken, replies + [cb])
  {
  }

  lemma InOrderShift(accepted: seq<Callback>, taken: seq<Delivery>, replies: seq<Callback>, reply: Option<Reply>)
    requires InOrder(accepted, taken, replies) && replies != []
    ensures InOrder(accepted, taken + [Delivery(replies[0], reply)], replies[1..])
  {
  }
}
