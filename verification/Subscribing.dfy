/**
 Subscribing contexts, for every run: while the history is a run of the subscription protocol the dictionaries are those
 of that run, and a disciplined program gets each message at the callback registered for it.
 */
module Subscribing {
  import opened Bytes
  import opened Callbacks
  import opened Deliveries
  import opened Ledger
  import opened Machine
  import opened Promises
  import opened Resp
  import opened Subscriptions
  import opened Teardown
  import opened Tracking
  import Pipeline
  import PubSub
  import StreamReader
  import Streams

  /** In a run of a disciplined program the functions called are those registered for the messages. */
  ghost predicate Told(w: World) {
    Due(w.b.log).Some? ==> w.calls == Due(w.b.log).value
  }

  /** At the end each callback that is still registered is called with NULL, in the order of the tables. */
  ghost predicate Parted(w: World, o: Order) {
    Due(w.b.log).Some? ==>
      var subs := Replay(w.b.log).value.subs;
      && w.calls == Due(w.b.log).value
                    + Runs(Nulls(Picked(subs.channels, o.channels)) + Nulls(Picked(subs.patterns, o.patterns)))
      && (w.orderly ==> Orderly(subs, o))
  }

  ghost predicate Fared(w: World, o: Order) {
    if w.freed then Parted(w, o) else w.aborted || Told(w)
  }

  /** In such a run no callback of another kind waits. */
  lemma NothingElse(b: Books, given: seq<Handout>)
    requires Kept(b, given) && Replay(b.log).Some?
    ensures b.replies == [] && b.invalid == [] && Replay(b.log).value.subs == b.subs
  {
    hide Replay, Requests, Simple, PubSub.Inv;
    assert |b.accepted + b.entered| == 0;
  }

  lemma TornCalls(s: Setup, w: World, o: Order)
    requires Closing(w)
    ensures var v := Torn(s, w, o);
            v.b == Bare(w.b) && v.calls == w.calls + Runs(Plain(Leftovers(w.b, o))) && v.orderly == Orderly(w.b.subs, o)
  {
    hide Emptied, Runs, Plain, Leftovers, Orderly;
    EmptiedServes(s, w, o);
  }

  lemma TornParted(s: Setup, w: World, o: Order)
    requires Closing(w) && Kept(w.b, w.given) && Told(w)
    ensures Parted(Torn(s, w, o), o)
  {
    hide Kept, Torn, Runs, Replay, Messages, PubSub.Disciplined, Picked, Leftovers, Orderly;
    TornCalls(s, w, o);
    if Due(w.b.log).Some? {
      NothingElse(w.b, w.given);
      TablesLeft(w.b, o);
    }
  }

  lemma TablesLeft(b: Books, o: Order)
    requires b.replies == [] && b.invalid == []
    ensures Plain(Leftovers(b, o)) ==
            Nulls(Picked(b.subs.channels, o.channels)) + Nulls(Picked(b.subs.patterns, o.patterns))
  {
    hide Picked;
    assert Handouts(FromReplies, []) == [] && Handouts(FromInvalid, []) == [];
  }

  lemma DisconnectedParted(s: Setup, w: World, o: Order)
    requires Kept(w.b, w.given) && Told(w) && (w.err == 0 ==> Closing(w))
    ensures Parted(Disconnected(s, w, o), o)
  {
    hide Kept, Torn, Due, Parted;
    TornParted(s, Cleaned(if w.err == 0 then w else w.(disconnecting := true)), o);
  }

  lemma HandedTold(s: Setup, w: World, from: Origin, cb: Callback, reply: Reply, o: Order)
    requires Kept(w.b, w.given + [Handout(from, Delivery(cb, Some(reply)))])
    requires Due(w.b.log).Some? ==> Due(w.b.log).value == w.calls + if cb.fn then [Delivery(cb, Some(reply))] else []
    ensures var p := Handed(s, w, from, cb, reply, o); if p.stop then p.w.freed && Parted(p.w, o) else Told(p.w)
  {
    hide Kept, Ran, Torn, Due, Replay, Heard, Parted;
    var d := Delivery(cb, Some(reply));
    RanTurned(s, w, from, d);
    RanKept(s, w, w.given + [Handout(from, d)], from, d);
    var v := Ran(s, w, from, d);
    if cb.fn && v.freeing {
      TornParted(s, v, o);
      Gone(s, v, o);
    }
  }

  lemma TakenTold(s: Setup, w: World, reply: Reply, cb: Callback, o: Order)
    requires Sound(w) && !Over(w) && Told(w)
    ensures var p := Taken(s, w, reply, cb, o); if p.stop then Over(p.w) && Fared(p.w, o) else Told(p.w)
  {
    hide Kept, Heard, Replay, Handed, Due, Disconnected, Chosen, Strayed, Messages, Tallied;
    match Chosen(Heeded(w, reply), reply, cb) {
      case Some(c) =>
        ChosenKept(w, reply, cb);
        ChosenDue(w, reply, cb);
        HandedTold(s, c.w, c.from, c.cb, reply, o);
      case None =>
        if reply.Error? { ErrorParted(s, w, reply, o); }
    }
  }

  /** In a disciplined run the call of the callback that was chosen is due. */
  lemma ChosenDue(w: World, reply: Reply, cb: Callback)
    requires Sound(w) && Told(w) && Chosen(Heeded(w, reply), reply, cb).Some?
    ensures var c := Chosen(Heeded(w, reply), reply, cb).value;
            Due(c.w.b.log).Some? ==>
              Due(c.w.b.log).value == c.w.calls + if c.cb.fn then [Delivery(c.cb, Some(reply))] else []
  {
    hide Kept, Heard, Replay, Due, Sought, Searched, Messages, Tallied;
    var v := Heeded(w, reply);
    ChosenAs(v, reply, cb);
    NotReplayed(v.b.log);
    if w.b.replies != [] {
      TookFirst(w.b, w.given, reply);
    } else {
      SoughtLogged(w.b, v.b, reply, cb);
      if Due(v.b.log).Some? { FoundDue(w.b, w.given, reply, cb); }
    }
  }

  lemma ErrorParted(s: Setup, w: World, reply: Reply, o: Order)
    requires Sound(w) && reply.Error?
    ensures var v := Disconnected(s, Heeded(w, reply).(err := REDIS_ERR_OTHER), o); v.freed && Parted(v, o)
  {
    hide Kept, Heard, Replay, Due, Disconnected, Strayed, Tallied;
    var v := Heeded(w, reply).(err := REDIS_ERR_OTHER);
    NotReplayed(v.b.log);
    Unexpected(w.b, w.given, reply, NOBODY);
    DisconnectedParted(s, v, o);
    Gone(s, v, o);
  }

  lemma NotReplayed(log: seq<Entry>)
    ensures Replay(log).None? ==> Due(log).None?
  {
    hide Replay, Messages, PubSub.Disciplined;
  }

  lemma {:induction false} TakenAllTold(s: Setup, w: World, replies: seq<Reply>, o: Order)
    requires Sound(w) && !Over(w) && Told(w)
    ensures var p := TakenAll(s, w, replies, o);
            if p.stop then Over(p.w) && Fared(p.w, o) else Sound(p.w) && !Over(p.w) && Told(p.w)
  {
    hide Sound, Taken, Told, Parted, Heard, Final;
    if replies != [] {
      var before := replies[..|replies| - 1];
      TakenAllTold(s, w, before, o);
      var p := TakenAll(s, w, before, o);
      if !p.stop {
        TakenTold(s, p.w, replies[|replies| - 1], p.cb, o);
        TakenSound(s, p.w, replies[|replies| - 1], p.cb, o);
      }
    }
  }

  lemma ReceivedTold(s: Setup, w: World, chunk: bytes, o: Order)
    requires Sound(w) && !Over(w) && Told(w)
    ensures Fared(Received(s, w, chunk, o), o)
  {
    hide Kept, Tallied, Due, Replay, Disconnected, TakenAll, Streams.Outcomes, Replies, Parted;
    var got := Streams.Outcomes(w.unread + chunk);
    var p := TakenAll(s, w, Replies(got), o);
    TakenAllTold(s, w, Replies(got), o);
    if !p.stop {
      var refused := p.w.(err := StreamReader.REDIS_ERR_PROTOCOL);
      if got.end.Refused? {
        DisconnectedParted(s, refused, o);
        Gone(s, refused, o);
      } else if p.w.disconnecting && p.w.b.obuf == [] && p.w.b.replies == [] {
        DisconnectedParted(s, p.w.(unread := got.end.rest), o);
        Gone(s, p.w.(unread := got.end.rest), o);
      }
    }
  }

  lemma NextTold(s: Setup, w: World, e: Event, o: Order)
    requires Sound(w) && !Over(w) && Told(w)
    ensures Fared(Next(s, w, e, o), o)
  {
    hide Kept, Tallied, Due, Replay, Disconnected, Torn, Received, Parted, Heard, Acted;
    match e {
      case Do(action) =>
        PerformedTold(s, w, action, o);
      case Readable(k, chunk, eof) =>
        ConnectedTold(s, w, k, o);
        var v := if w.connected then w else Connected(s, w, k, o);
        if !v.freed && v.connected {
          var x := v.(err := REDIS_ERR_EOF);
          if eof {
            DisconnectedParted(s, x, o);
            Gone(s, x, o);
          } else {
            ReceivedTold(s, v, chunk, o);
          }
        }
      case Writable(k, nwritten) =>
        ConnectedTold(s, w, k, o);
        var v := if w.connected then w else Connected(s, w, k, o);
        if !v.freed && v.connected && v.b.obuf != [] && nwritten < 0 {
          var x := v.(err := Pipeline.REDIS_ERR_IO);
          DisconnectedParted(s, x, o);
          Gone(s, x, o);
        }
      case Server(x) =>
        if Foreign(x) { DueSent(w.b.log, x); }
    }
  }

  lemma ConnectedTold(s: Setup, w: World, k: Connect, o: Order)
    requires Sound(w) && !Over(w) && Told(w)
    ensures var v := Connected(s, w, k, o); Fared(v, o) && if k == Failed then v.freed else Sound(v) && !Over(v)
  {
    hide Kept, Attended, Due, Replay, Disconnected, Parted, Heard, Simple, Runs, Plain, From;
    if k == Failed {
      var x := Greeted(s, w, false).(err := Pipeline.REDIS_ERR_IO);
      DisconnectedParted(s, x, o);
      Gone(s, x, o);
    }
  }

  lemma PerformedTold(s: Setup, w: World, a: Action, o: Order)
    requires Sound(w) && !Over(w) && Told(w)
    ensures Fared(Performed(s, w, a, o), o)
  {
    hide Kept, Tallied, Due, Replay, Disconnected, Torn, Parted, Heard, Issued;
    var n := Noted(w, None, a);
    MadeCalled(w, None, a);
    ActedKept(n, w.given, a);
    ActedRequests(n, a);
    var v := Made(w, None, a);
    match a {
      case Issue(_, _, _) =>
      case Quit =>
        if w.b.replies == [] {
          DisconnectedParted(s, v, o);
          Gone(s, v, o);
        }
      case Release =>
        TornParted(s, v, o);
        Gone(s, v, o);
    }
  }

  /** In every run of a disciplined program. */
  lemma {:induction false} RunTold(s: Setup, events: seq<Event>, o: Order)
    requires Lived(s, events, o) == |events|
    ensures Fared(After(s, events, o), o)
  {
    hide Next, Sound, Fared, Accounted, Final, Told;
    if events == [] {
      NothingTold(s, o);
    } else {
      var before := events[..|events| - 1];
      LivedBefore(s, events, o);
      RunTold(s, before, o);
      RunSound(s, before, o);
      FaredOn(After(s, before, o), o);
      NextTold(s, After(s, before, o), events[|events| - 1], o);
    }
  }

  lemma NothingTold(s: Setup, o: Order)
    ensures Fared(Start(s), o)
  {
  }

  lemma FaredOn(w: World, o: Order)
    requires Fared(w, o) && !Over(w)
    ensures Told(w)
  {
    hide Told;
  }
}
