/** What a teardown hands out, and what it leaves. */
module Teardown {
  import opened Bytes
  import opened Callbacks
  import opened Deliveries
  import opened Machine
  import opened Subscriptions

  // ----- Handouts -----

  /** Callbacks that get NULL. */
  function Handouts(from: Origin, cbs: seq<Callback>): (r: seq<Handout>)
    ensures |r| == |cbs| && forall i :: 0 <= i < |cbs| ==> r[i] == Handout(from, Delivery(cbs[i], None))
  {
    seq(|cbs|, i requires 0 <= i < |cbs| => Handout(from, Delivery(cbs[i], None)))
  }

  /** The callbacks of a table in the order of the keys. */
  function Picked(d: map<bytes, Callback>, ks: seq<bytes>): (r: seq<Callback>)
    ensures |r| == |ks| && forall i :: 0 <= i < |ks| ==> r[i] == EntryOf(d, ks[i])
  {
    seq(|ks|, i requires 0 <= i < |ks| => EntryOf(d, ks[i]))
  }

  function Plain(given: seq<Handout>): (r: seq<Delivery>)
    ensures |r| == |given| && forall i :: 0 <= i < |given| ==> r[i] == given[i].d
  {
    seq(|given|, i requires 0 <= i < |given| => given[i].d)
  }

  /** The deliveries to the callbacks that were taken from there. */
  function From(given: seq<Handout>, q: Origin): seq<Delivery> {
    if given == [] then []
    else
      var h := given[|given| - 1];
      From(given[..|given| - 1], q) + if h.from == q then [h.d] else []
  }

  lemma OneHandout(given: seq<Handout>, h: Handout)
    ensures Plain(given + [h]) == Plain(given) + [h.d]
    ensures forall q :: From(given + [h], q) == From(given, q) + if h.from == q then [h.d] else []
    ensures Runs(Plain(given + [h])) == Runs(Plain(given)) + if h.d.cb.fn then [h.d] else []
  {
    assert (given + [h])[..|given|] == given;
    RunsMore(Plain(given), h.d);
  }

  /** v is w after the turns of the callbacks in hs. */
  ghost predicate Served(w: World, v: World, hs: seq<Handout>) {
    Turned(w, v) && v.given == w.given + hs && v.calls == w.calls + Runs(Plain(hs))
  }

  lemma ServedNone(w: World)
    ensures Served(w, w, [])
  {
  }

  lemma ServedOne(s: Setup, w: World, v: World, hs: seq<Handout>, from: Origin, d: Delivery)
    requires Served(w, v, hs) && Closing(w)
    ensures Served(w, Ran(s, v, from, d), hs + [Handout(from, d)])
  {
    hide Ran, Runs, Plain;
    RanTurned(s, v, from, d);
    OneHandout(hs, Handout(from, d));
  }

  /** The callbacks that wait make no difference to the turns. */
  lemma ServedWith(w: World, v: World, hs: seq<Handout>, b: Books)
    requires Served(w, v, hs) && Closing(w)
    ensures Served(w.(b := b), v.(b := b), hs)
  {
    hide Runs, Plain;
  }

  /** One more turn; b is what waits before it, and b' after it. */
  lemma ServedOn(s: Setup, w: World, b: Books, v: World, b': Books, hs: seq<Handout>, from: Origin, d: Delivery)
    requires Closing(w) && Served(w.(b := b), v, hs)
    ensures v.b == b && Served(w.(b := b'), Ran(s, v.(b := b'), from, d), hs + [Handout(from, d)])
  {
    hide Ran, Runs, Plain;
    ServedWith(w.(b := b), v, hs, b');
    ServedOne(s, w.(b := b'), v.(b := b'), hs, from, d);
  }

  lemma HandoutsMore(from: Origin, cbs: seq<Callback>, n: nat)
    requires n < |cbs|
    ensures Handouts(from, cbs[..n + 1]) == Handouts(from, cbs[..n]) + [Handout(from, Delivery(cbs[n], None))]
  {
  }

  // ----- The loops -----

  lemma {:induction false} DrainedServes(s: Setup, w: World, n: nat)
    requires Closing(w) && n <= |w.b.replies|
    ensures var left := w.(b := w.b.(replies := w.b.replies[n..]));
            Served(left, Drained(s, w, n), Handouts(FromReplies, w.b.replies[..n]))
  {
    hide Ran, Served, Handouts;
    if n == 0 {
      ServedNone(w);
      assert Handouts(FromReplies, w.b.replies[..0]) == [];
    } else {
      DrainedServes(s, w, n - 1);
      DrainedDown(s, w, n - 1);
      var v := Drained(s, w, n - 1);
      assert w.b.replies[n - 1..][1..] == w.b.replies[n..];
      HandoutsMore(FromReplies, w.b.replies, n - 1);
      ServedOn(s, w, w.b.(replies := w.b.replies[n - 1..]), v, w.b.(replies := w.b.replies[n..]),
               Handouts(FromReplies, w.b.replies[..n - 1]), FromReplies, Delivery(v.b.replies[0], None));
    }
  }

  lemma {:induction false} DroppedServes(s: Setup, w: World, n: nat)
    requires Closing(w) && n <= |w.b.invalid|
    ensures var left := w.(b := w.b.(invalid := w.b.invalid[n..]));
            Served(left, Dropped(s, w, n), Handouts(FromInvalid, w.b.invalid[..n]))
  {
    hide Ran, Served, Handouts;
    if n == 0 {
      ServedNone(w);
      assert Handouts(FromInvalid, w.b.invalid[..0]) == [];
    } else {
      DroppedServes(s, w, n - 1);
      DroppedDown(s, w, n - 1);
      var v := Dropped(s, w, n - 1);
      assert w.b.invalid[n - 1..][1..] == w.b.invalid[n..];
      HandoutsMore(FromInvalid, w.b.invalid, n - 1);
      ServedOn(s, w, w.b.(invalid := w.b.invalid[n - 1..]), v, w.b.(invalid := w.b.invalid[n..]),
               Handouts(FromInvalid, w.b.invalid[..n - 1]), FromInvalid, Delivery(v.b.invalid[0], None));
    }
  }

  lemma {:induction false} SweptServes(s: Setup, w: World, pvariant: bool, ks: seq<bytes>, n: nat)
    requires Closing(w) && n <= |ks|
    ensures Served(w, Swept(s, w, pvariant, ks, n), Handouts(Elsewhere, Picked(w.b.subs.Of(pvariant), ks)[..n]))
  {
    hide Ran, Served, Handouts, Picked;
    var cbs := Picked(w.b.subs.Of(pvariant), ks);
    if n == 0 {
      ServedNone(w);
      assert Handouts(Elsewhere, cbs[..0]) == [];
    } else {
      SweptServes(s, w, pvariant, ks, n - 1);
      SweptDown(s, w, pvariant, ks, n - 1);
      HandoutsMore(Elsewhere, cbs, n - 1);
      ServedOne(s, w, Swept(s, w, pvariant, ks, n - 1), Handouts(Elsewhere, cbs[..n - 1]), Elsewhere,
                Delivery(cbs[n - 1], None));
    }
  }

  // ----- The whole -----

  lemma {:induction false} RunsConcat(a: seq<Delivery>, b: seq<Delivery>)
    ensures Runs(a + b) == Runs(a) + Runs(b)
  {
    if b == [] {
      assert a + b == a && Runs(a) + [] == Runs(a);
    } else {
      var c := b[..|b| - 1];
      RunsConcat(a, c);
      assert (a + b)[..|a + b| - 1] == a + c;
    }
  }

  lemma ServedAll(w: World, v: World, x: World, hs: seq<Handout>, hs': seq<Handout>)
    requires Served(w, v, hs) && Served(v, x, hs')
    ensures Served(w, x, hs + hs')
  {
    hide Runs;
    RunsConcat(Plain(hs), Plain(hs'));
    assert Plain(hs + hs') == Plain(hs) + Plain(hs');
  }

  /** Everything that waits, in the order in which a teardown comes to it. */
  function Leftovers(b: Books, o: Order): seq<Handout> {
    Handouts(FromReplies, b.replies) + Handouts(FromInvalid, b.invalid)
    + (Handouts(Elsewhere, Picked(b.subs.channels, o.channels))
       + Handouts(Elsewhere, Picked(b.subs.patterns, o.patterns)))
  }

  /** Nothing waits any more. */
  function Bare(b: Books): Books {
    b.(replies := [], invalid := [], subs := b.subs.(channels := map[], patterns := map[]))
  }

  lemma DrainedAll(s: Setup, w: World)
    requires Closing(w)
    ensures var v := Drained(s, w, |w.b.replies|);
            && Closing(v) && v.b == w.b.(replies := [])
            && Served(w.(b := w.b.(replies := [])), v, Handouts(FromReplies, w.b.replies))
  {
    hide Drained, Runs, Plain;
    var n := |w.b.replies|;
    DrainedServes(s, w, n);
    assert w.b.replies[n..] == [] && w.b.replies[..n] == w.b.replies;
  }

  lemma DroppedAll(s: Setup, w: World)
    requires Closing(w)
    ensures var v := Dropped(s, w, |w.b.invalid|);
            && Closing(v) && v.b == w.b.(invalid := [])
            && Served(w.(b := w.b.(invalid := [])), v, Handouts(FromInvalid, w.b.invalid))
  {
    hide Dropped, Runs, Plain;
    var n := |w.b.invalid|;
    DroppedServes(s, w, n);
    assert w.b.invalid[n..] == [] && w.b.invalid[..n] == w.b.invalid;
  }

  lemma TableServes(s: Setup, w: World, pvariant: bool, o: Order)
    requires Closing(w)
    ensures var v := TableDown(s, w, pvariant, o);
            && Closing(v) && v.b == w.b.(subs := w.b.subs.With(pvariant, map[]))
            && Served(w.(b := v.b), v, Handouts(Elsewhere, Picked(w.b.subs.Of(pvariant), o.Of(pvariant))))
  {
    hide Swept, Runs, Plain, Picked, Handouts;
    var ks := o.Of(pvariant);
    var cbs := Picked(w.b.subs.Of(pvariant), ks);
    SweptServes(s, w, pvariant, ks, |ks|);
    assert cbs[..|ks|] == cbs;
  }

  lemma TablesServe(s: Setup, w: World, o: Order)
    requires Closing(w)
    ensures Served(w.(b := w.b.(subs := w.b.subs.(channels := map[], patterns := map[]))),
                   TableDown(s, TableDown(s, w, false, o), true, o),
                   Handouts(Elsewhere, Picked(w.b.subs.channels, o.channels))
                   + Handouts(Elsewhere, Picked(w.b.subs.patterns, o.patterns)))
  {
    hide TableDown, Served, Handouts, Picked;
    var v := TableDown(s, w, false, o);
    TableServes(s, w, false, o);
    TableServes(s, v, true, o);
    var x := TableDown(s, v, true, o);
    var cs := Handouts(Elsewhere, Picked(w.b.subs.channels, o.channels));
    ServedWith(w.(b := v.b), v, cs, x.b);
    ServedAll(w.(b := x.b), v.(b := x.b), x, cs, Handouts(Elsewhere, Picked(v.b.subs.patterns, o.patterns)));
  }

  lemma QueuesServe(s: Setup, w: World)
    requires Closing(w)
    ensures var a := Drained(s, w, |w.b.replies|); var v := Dropped(s, a, |a.b.invalid|);
            && Closing(v) && v.b == w.b.(replies := [], invalid := [])
            && Served(w.(b := v.b), v, Handouts(FromReplies, w.b.replies) + Handouts(FromInvalid, w.b.invalid))
  {
    hide Drained, Dropped, Served, Handouts;
    var a := Drained(s, w, |w.b.replies|);
    DrainedAll(s, w);
    DroppedAll(s, a);
    var v := Dropped(s, a, |a.b.invalid|);
    ServedWith(w.(b := a.b), a, Handouts(FromReplies, w.b.replies), v.b);
    ServedAll(w.(b := v.b), a.(b := v.b), v, Handouts(FromReplies, w.b.replies), Handouts(FromInvalid, w.b.invalid));
  }

  lemma EmptiedServes(s: Setup, w: World, o: Order)
    requires Closing(w)
    ensures Served(w.(b := Bare(w.b)), Emptied(s, w, o), Leftovers(w.b, o))
  {
    hide Drained, Dropped, TableDown, Served, Handouts, Picked;
    QueuesServe(s, w);
    var a := Drained(s, w, |w.b.replies|);
    var v := Dropped(s, a, |a.b.invalid|);
    TablesServe(s, v, o);
    var qs := Handouts(FromReplies, w.b.replies) + Handouts(FromInvalid, w.b.invalid);
    ServedWith(w.(b := v.b), v, qs, Bare(w.b));
    ServedAll(w.(b := Bare(w.b)), v.(b := Bare(w.b)), Emptied(s, w, o), qs,
              Handouts(Elsewhere, Picked(w.b.subs.channels, o.channels))
              + Handouts(Elsewhere, Picked(w.b.subs.patterns, o.patterns)));
  }
}
