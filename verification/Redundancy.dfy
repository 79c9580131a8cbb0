/**
 The assertion that the context is subscribed, seen from the program: the commands it has sent tell whether the
 confirmation of an unsubscribe fails it.
 */
module Redundancy {
  import opened Bytes
  import opened Callbacks
  import opened Subscriptions
  import opened PubSub

  /** The last confirmation in flight, that of the last command, is the next to be handled. */
  ghost predicate LastConfirmation(t: System) {
    && t.queue == [] && t.acks != [] && t.acks[0].kind != Message
    && forall j :: 0 < j < |t.acks| ==> t.acks[j].kind == Message
  }

  /** Some name was subscribed by the last command for it. */
  ghost predicate Remaining(issued: seq<Event>) {
    exists p, y :: Last(Of(issued, p, y))
  }

  /**
   When the confirmation of the last command, an unsubscribe, is the only one in flight, it finds the flag set exactly
   when the last command for some name, leaving out this one, was a subscribe. However many redundant unsubscribes
   were sent before: the program can tell from its commands.
   */
  lemma RedundantIff(states: seq<System>, before: seq<Event>)
    requires states != [] && Run(states)
    requires var t := states[|states| - 1];
             && LastConfirmation(t) && t.acks[0].kind == Unsub
             && t.issued == before + [Command(Unsub, t.acks[0].pvariant, t.acks[0].name)]
    ensures states[|states| - 1].subs.subscribed <==> Remaining(before)
  {
    hide Run, Agrees, Timely, Of, Last;
    var t := states[|states| - 1];
    RunKeeps(states, |states| - 1);
    RemainsIff(t);
    forall p, y
      ensures Last(Of(t.seen, p, y)) || Subscribes(Flying(t, p, y)) > 0 <==> Last(Of(before, p, y))
    {
      assert Agrees(t, p, y);
      OneLeft(t, before, p, y);
    }
    SameRemaining(t, before);
  }

  lemma SameRemaining(t: System, before: seq<Event>)
    requires forall p, y :: Last(Of(t.seen, p, y)) || Subscribes(Flying(t, p, y)) > 0 <==> Last(Of(before, p, y))
    ensures Remains(t) <==> Remaining(before)
  {
    hide Of, Last, Flying, Subscribes;
    if Remains(t) {
      var p, y :| Last(Of(t.seen, p, y)) || Subscribes(Flying(t, p, y)) > 0;
      assert Last(Of(before, p, y));
    }
    if Remaining(before) {
      var p, y :| Last(Of(before, p, y));
      assert Last(Of(t.seen, p, y)) || Subscribes(Flying(t, p, y)) > 0;
    }
  }

  /** All but the last command has been confirmed. */
  lemma OneLeft(t: System, before: seq<Event>, p: bool, y: bytes)
    requires Agrees(t, p, y) && LastConfirmation(t) && t.acks[0].kind == Unsub
    requires t.issued == before + [Command(Unsub, t.acks[0].pvariant, t.acks[0].name)]
    ensures Last(Of(t.seen, p, y)) || Subscribes(Flying(t, p, y)) > 0 <==> Last(Of(before, p, y))
  {
    hide Of;
    var e := Command(Unsub, t.acks[0].pvariant, t.acks[0].name);
    var done, one := Of(t.seen, p, y), One(e, p, y);
    FirstList(t.acks, p, y);
    NoCommands(t.acks[1..], p, y);
    FirstList([e], p, y);
    OfMore(before, e, p, y);
    assert one + [] == one;
    assert Flying(t, p, y) == one;
    assert Of(before, p, y) + one == done + one;
    assert Of(before, p, y) == (done + one)[..|done + one| - |one|] == done;
  }

  lemma {:induction false} NoCommands(es: seq<Event>, p: bool, y: bytes)
    requires forall j :: 0 <= j < |es| ==> es[j].kind == Message
    ensures Of(es, p, y) == []
  {
    if es != [] { NoCommands(es[1..], p, y); }
  }

  // ----- Reaching the confirmation -----

  /** The server answers, or the client handles what comes: no new command. */
  ghost predicate Drains(t: System, t': System) {
    ServerHandles(t, t') || exists cb :: ClientReceives(t, t', cb)
  }

  /**
   After disciplined commands, one more that the client accepts, redundant or not, is always confirmed: no message
   before that confirmation fails an assertion.
   */
  lemma ConfirmationComes(states: seq<System>, e: Event, t: System, cb: Callback) returns (tail: seq<System>)
    requires states != [] && Run(states) && Disciplined(states[|states| - 1].issued)
    requires ClientUnsubscribes(states[|states| - 1], t, e) && states[|states| - 1].subs.subscribed
    ensures tail != [] && tail[0] == t && LastConfirmation(tail[|tail| - 1])
    ensures forall i :: 0 <= i < |tail| - 1 ==> Drains(tail[i], tail[i + 1])
  {
    hide Run, Inv, Disciplined, Drains;
    var s := states[|states| - 1];
    RunKeeps(states, |states| - 1);
    UnsubscribeKeeps(s, t, e);
    assert Unconfirmed(t);
    tail := Onward(t, s.issued, e, cb);
  }

  /** A command or its confirmation is in flight. */
  ghost predicate Unconfirmed(t: System) {
    t.queue != [] || exists j :: 0 <= j < |t.acks| && t.acks[j].kind != Message
  }

  lemma {:induction false} Onward(t: System, before: seq<Event>, e: Event, cb: Callback) returns (tail: seq<System>)
    requires Inv(t) && Disciplined(before) && t.issued == before + [e] && e.kind == Unsub && Unconfirmed(t)
    ensures tail != [] && tail[0] == t && LastConfirmation(tail[|tail| - 1])
    ensures forall i :: 0 <= i < |tail| - 1 ==> Drains(tail[i], tail[i + 1])
    decreases 2 * |t.queue| + |t.acks|
  {
    hide Inv, Disciplined, Drains, Unconfirmed;
    if LastConfirmation(t) {
      return [t];
    }
    var t' := Forward(t, before, e, cb);
    var rest := Onward(t', before, e, cb);
    tail := [t] + rest;
    forall i | 0 <= i < |tail| - 1
      ensures Drains(tail[i], tail[i + 1])
    {
      if i > 0 { assert Drains(rest[i - 1], rest[i]); }
    }
  }

  lemma Forward(t: System, before: seq<Event>, e: Event, cb: Callback) returns (t': System)
    requires Inv(t) && Disciplined(before) && t.issued == before + [e] && e.kind == Unsub && Unconfirmed(t)
    requires !LastConfirmation(t)
    ensures Drains(t, t') && Inv(t') && t'.issued == t.issued && Unconfirmed(t')
    ensures 2 * |t'.queue| + |t'.acks| < 2 * |t.queue| + |t.acks|
  {
    hide Inv, Disciplined, Handle, Push, Remains;
    if t.queue != [] {
      t' := Handled(t);
      ServerKeeps(t, t');
      StillUnconfirmed(t, t');
    } else {
      RemainsIff(t);
      if !Remains(t) { OnlyOne(t, before, e); }
      Handling(t.subs, t.acks[0], cb);
      t' := t.(subs := Handle(t.subs, Push(t.acks[0]), cb).subs, acks := t.acks[1..], seen := t.seen + [t.acks[0]]);
      assert ClientReceives(t, t', cb);
      ReceiveKeeps(t, t', cb);
      OneMoreToCome(t);
    }
  }

  lemma Handled(t: System) returns (t': System)
    requires t.queue != []
    ensures ServerHandles(t, t') && |t'.queue| == |t.queue| - 1 && |t'.acks| == |t.acks| + 1
  {
    var e := t.queue[0];
    var names := t.server.Of(e.pvariant);
    var now := t.server.With(e.pvariant, if e.kind == Sub then names + {e.name} else names - {e.name});
    t' := t.(queue := t.queue[1..], server := now, acks := t.acks + [e.(total := now.Total())]);
  }

  lemma StillUnconfirmed(t: System, t': System)
    requires ServerHandles(t, t') && Inv(t)
    ensures Unconfirmed(t')
  {
    hide Agrees, Timely;
    assert t'.acks[|t.acks|].kind != Message;
  }

  lemma OneMoreToCome(t: System)
    requires t.queue == [] && t.acks != [] && Unconfirmed(t) && !LastConfirmation(t)
    ensures exists j :: 0 <= j < |t.acks[1..]| && t.acks[1..][j].kind != Message
  {
    var j :| 0 <= j < |t.acks| && t.acks[j].kind != Message;
    if j == 0 {
      var i :| 0 < i < |t.acks| && t.acks[i].kind != Message;
      assert t.acks[1..][i - 1] == t.acks[i];
    } else {
      assert t.acks[1..][j - 1] == t.acks[j];
    }
  }

  /** When no subscription remains after such commands, only the confirmation of the last one is in flight. */
  lemma OnlyOne(t: System, before: seq<Event>, e: Event)
    requires Inv(t) && Disciplined(before) && t.issued == before + [e] && e.kind == Unsub
    requires t.queue == [] && t.acks != [] && !Remains(t)
    ensures LastConfirmation(t)
  {
    hide Of, Subscribes, Last, Timely, Alternates;
    var a := t.acks[0];
    if a.kind != Unsub {
      Awaited(t);
      RemainsIff(t);
    }
    FirstList(t.acks, a.pvariant, a.name);
    forall p, y
      ensures Of(t.acks[1..], p, y) == []
    {
      assert Agrees(t, p, y) && Alternates(Of(before, p, y));
      if |Of(t.acks, p, y)| > |One(e, p, y)| { MoreThanOne(t, before, e, p, y); }
      FirstList(t.acks, p, y);
      if p != a.pvariant || y != a.name {
        var q, z := a.pvariant, a.name;
        assert Agrees(t, q, z) && Alternates(Of(before, q, z));
        if |Of(t.acks, q, z)| > |One(e, q, z)| { MoreThanOne(t, before, e, q, z); }
      }
    }
    forall j | 0 < j < |t.acks|
      ensures t.acks[j].kind == Message
    {
      assert t.acks[1..][j - 1] == t.acks[j];
      if t.acks[j].kind != Message { Member(t.acks[1..], j - 1); }
    }
  }

  /** More in flight for a name than the last command begins with a subscribe. */
  lemma MoreThanOne(t: System, before: seq<Event>, e: Event, p: bool, y: bytes)
    requires Agrees(t, p, y) && Alternates(Of(before, p, y)) && t.issued == before + [e] && t.queue == []
    requires !Last(Of(t.seen, p, y)) && |Of(t.acks, p, y)| > |One(e, p, y)|
    ensures Subscribes(Flying(t, p, y)) > 0
  {
    hide Of, Alternates, Subscribes, Last;
    var done, fly, one := Of(t.seen, p, y), Flying(t, p, y), One(e, p, y);
    OfMore(before, e, p, y);
    NothingQueued(p, y);
    assert fly == Of(t.acks, p, y);
    var first := fly[..|fly| - |one|];
    assert Of(before, p, y) == (done + fly)[..|done + fly| - |one|] == done + first;
    FirstInFlight(done, first);
    SubscribesBoth(first, fly[|fly| - |one|..]);
    assert first + fly[|fly| - |one|..] == fly;
  }

  lemma NothingQueued(p: bool, y: bytes)
    ensures Of([], p, y) == []
  {
  }

  lemma {:induction false} Member(es: seq<Event>, j: nat)
    requires j < |es| && es[j].kind != Message
    ensures Of(es, es[j].pvariant, es[j].name) != []
  {
    if j > 0 { Member(es[1..], j - 1); }
  }
}
