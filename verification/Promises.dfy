/** What async.c promises, for every run: who gets which reply, and that each callback is called once. */
module Promises {
  import opened Bytes
  import opened Callbacks
  import opened Deliveries
  import opened Ledger
  import opened Machine
  import opened Resp
  import opened Subscriptions
  import opened Teardown
  import opened Tracking
  import Pipeline
  import StreamReader
  import Streams

  /** The first k callbacks whose turn it was got the first k replies, each its own; the others got NULL. */
  ghost predicate Attended(given: seq<Handout>, heard: seq<Reply>, k: int) {
    && 0 <= k <= |given| && k <= |heard|
    && forall i :: 0 <= i < |given| ==> given[i].d.reply == if i < k then Some(heard[i]) else None
  }

  /** The functions called are those of the turns; all callbacks came from the queue if nobody subscribed. */
  ghost predicate Tallied(w: World, k: int) {
    && w.calls == Runs(Plain(w.given)) && Attended(w.given, Heard(w.b.log), k)
    && (Simple(w.b.sent) ==> Plain(w.given) == From(w.given, FromReplies))
  }

  /** What holds while a context lives, but for replies that no callback has got: u of them. */
  ghost predicate Balanced(w: World, u: nat) {
    Kept(w.b, w.given) && Tallied(w, |w.given|) && |w.given| + u == |Heard(w.b.log)|
  }

  ghost predicate Sound(w: World) {
    Balanced(w, 0) && w.err == 0 && !w.freeing
  }

  lemma StartSound(s: Setup)
    ensures Sound(Start(s))
  {
    EmptyKept();
    assert Plain([]) == [] && (forall q :: From([], q) == []) && Runs([]) == [] && Heard([]) == [];
  }

  // ----- The program's calls -----

  lemma {:induction false} ScriptSimple(w: World, turn: nat, script: seq<Action>)
    ensures Simple(Script(w, turn, script).b.sent) ==> Simple(w.b.sent)
  {
    hide Acted, Simple;
    if script != [] {
      var before := script[..|script| - 1];
      ScriptSimple(w, turn, before);
      ActedSimple(Noted(Script(w, turn, before), Some(turn), script[|script| - 1]), script[|script| - 1]);
    }
  }

  lemma ActedSimple(w: World, a: Action)
    ensures Simple(Acted(w, a).b.sent) ==> Simple(w.b.sent)
  {
    hide Classify, Filed, Simple;
    if a.Issue? {
      FiledAs(w.b, a.argv, Callback(a.fn, a.privdata, 1));
      SimpleMore(w.b.sent, a.argv);
    }
  }

  // ----- A reply is given to a callback -----

  lemma RanBalanced(s: Setup, w: World, from: Origin, cb: Callback, reply: Reply, heard: seq<Reply>)
    requires Kept(w.b, w.given + [Handout(from, Delivery(cb, Some(reply)))])
    requires w.calls == Runs(Plain(w.given)) && Attended(w.given, heard, |w.given|) && |w.given| == |heard|
    requires Heard(w.b.log) == heard + [reply]
    requires Simple(w.b.sent) ==> Plain(w.given) == From(w.given, FromReplies) && from == FromReplies
    ensures Balanced(Ran(s, w, from, Delivery(cb, Some(reply))), 0)
    ensures Heard(Ran(s, w, from, Delivery(cb, Some(reply))).b.log) == Heard(w.b.log)
  {
    hide Kept, Script, Heard, Replay, Due, Simple, Runs, Plain, From;
    var d := Delivery(cb, Some(reply));
    var v := Ran(s, w, from, d);
    RanTurned(s, w, from, d);
    RanKept(s, w, w.given + [Handout(from, d)], from, d);
    OneHandout(w.given, Handout(from, d));
    if d.cb.fn {
      ScriptSimple(w.(given := w.given + [Handout(from, d)], calls := w.calls + [d]), |w.calls|, s.user(|w.calls|));
    }
  }

  // ----- The end -----

  /** One reply is left over when the process died over it, or when it was an error that closed the connection. */
  function LeftOver(w: World): nat {
    if w.aborted || w.err == REDIS_ERR_OTHER then 1 else 0
  }

  ghost predicate ErrorLast(log: seq<Entry>) {
    Heard(log) != [] && Heard(log)[|Heard(log)| - 1].Error?
  }

  /** Every callback of the queue has got its reply. */
  ghost predicate Replied(given: seq<Handout>) {
    forall i :: 0 <= i < |given| && given[i].from == FromReplies ==> given[i].d.reply.Some?
  }

  /** What holds of a context that is gone, or whose process is dead. */
  ghost predicate Final(w: World) {
    && InOrder(w.b.accepted, From(w.given, FromReplies), w.b.replies)
    && InOrder(w.b.entered, From(w.given, FromInvalid), w.b.invalid) && Requests(w.b.log) == w.b.sent
    && w.calls == Runs(Plain(w.given)) && Attended(w.given, Heard(w.b.log), |Heard(w.b.log)| - LeftOver(w))
    && (Simple(w.b.sent) ==> w.b.accepted == Promised(w.b.log))
    && (Simple(w.b.sent) && (w.freed ==> w.orderly) ==> Plain(w.given) == From(w.given, FromReplies))
    && (w.freed ==> w.b.replies == [] && w.b.invalid == [] && w.b.subs.channels == map[] && w.b.subs.patterns == map[])
    && (w.aborted ==> !w.freed && w.b.replies == [] && |w.given| + 1 == |Heard(w.b.log)|)
    && (w.freed && !w.freeing && w.err == 0 ==> w.disconnecting && Replied(w.given))
    && (LeftOver(w) == 1 ==> Strayed(w.b.log) && Replay(w.b.log).None? && (w.freed ==> ErrorLast(w.b.log)))
  }

  lemma AbortedFinal(w: World)
    requires Balanced(w, 1) && !w.freed && w.b.replies == [] && Strayed(w.b.log) && Replay(w.b.log).None?
    ensures Final(Aborted(w))
  {
    hide Faithful, Heard, Replay, Requests, Promised, Simple, Runs, Strayed;
  }

  lemma {:induction false} FromConcat(a: seq<Handout>, b: seq<Handout>, q: Origin)
    ensures From(a + b, q) == From(a, q) + From(b, q)
  {
    if b == [] {
      assert a + b == a && From(a, q) + [] == From(a, q);
    } else {
      var c := b[..|b| - 1];
      FromConcat(a, c, q);
      assert (a + b)[..|a + b| - 1] == a + c;
    }
  }

  lemma {:induction false} FromHandouts(from: Origin, cbs: seq<Callback>, q: Origin)
    ensures From(Handouts(from, cbs), q) == if from == q then Nulls(cbs) else []
  {
    if cbs == [] {
      assert Handouts(from, cbs) == [];
    } else {
      var n := |cbs| - 1;
      FromHandouts(from, cbs[..n], q);
      HandoutsMore(from, cbs, n);
      assert cbs[..n + 1] == cbs;
      assert Handouts(from, cbs)[..n] == Handouts(from, cbs[..n]);
    }
  }

  /** Of what is left over, the callbacks of the queues come first. */
  lemma FromLeftovers(b: Books, o: Order, q: Origin)
    requires q != Elsewhere
    ensures From(Leftovers(b, o), q) == Nulls(if q == FromReplies then b.replies else b.invalid)
  {
    hide From;
    var rs, vs := Handouts(FromReplies, b.replies), Handouts(FromInvalid, b.invalid);
    var cs := Handouts(Elsewhere, Picked(b.subs.channels, o.channels));
    var ps := Handouts(Elsewhere, Picked(b.subs.patterns, o.patterns));
    FromHandouts(FromReplies, b.replies, q);
    FromHandouts(FromInvalid, b.invalid, q);
    FromHandouts(Elsewhere, Picked(b.subs.channels, o.channels), q);
    FromHandouts(Elsewhere, Picked(b.subs.patterns, o.patterns), q);
    FromConcat(rs, vs, q);
    FromConcat(cs, ps, q);
    FromConcat(rs + vs, cs + ps, q);
    assert Nulls(b.replies) + [] == Nulls(b.replies) && [] + Nulls(b.invalid) + [] == Nulls(b.invalid);
  }

  lemma NullLeftovers(b: Books, o: Order)
    ensures forall i :: 0 <= i < |Leftovers(b, o)| ==> Leftovers(b, o)[i].d.reply == None
    ensures b.invalid == [] && b.subs == NO_SUBS && Orderly(b.subs, o) ==> Plain(Leftovers(b, o)) == Nulls(b.replies)
  {
    if b.invalid == [] && b.subs == NO_SUBS && Orderly(b.subs, o) {
      NoKeys(o.channels);
      NoKeys(o.patterns);
    }
  }

  lemma NoneQueued(b: Books, o: Order)
    requires b.replies == []
    ensures forall i :: 0 <= i < |Leftovers(b, o)| ==> Leftovers(b, o)[i].from != FromReplies
  {
  }

  lemma NoKeys(ks: seq<bytes>)
    ensures Iterates(ks, map[]) ==> ks == []
  {
    if ks != [] { assert ks[0] in ks; }
  }

  lemma DrainInOrder(accepted: seq<Callback>, taken: seq<Delivery>, replies: seq<Callback>)
    requires InOrder(accepted, taken, replies)
    ensures InOrder(accepted, taken + Nulls(replies), [])
  {
  }

  lemma TornFlags(s: Setup, w: World, o: Order)
    requires Closing(w)
    ensures var v := Torn(s, w, o);
            && v.freed && v.aborted == w.aborted && v.err == w.err && v.connected == w.connected && v.wire == w.wire
            && (w.disconnecting ==> v.disconnecting) && (w.freeing ==> v.freeing)
            && v.hook == false && v.cleanups == w.cleanups + (if w.hook then 1 else 0) && v.greetings == w.greetings
            && v.notices == w.notices + if s.onDisconnect && w.connected then [v.freeing || w.err == 0] else []
    ensures var v, left := Torn(s, w, o), Leftovers(w.b, o);
            && v.b == Bare(w.b) && v.given == w.given + left && v.calls == w.calls + Runs(Plain(left))
            && v.orderly == Orderly(w.b.subs, o)
  {
    hide Emptied, Runs, Plain, Leftovers, Orderly;
    EmptiedServes(s, w, o);
  }

  /** A teardown gives NULL to everything that waits. */
  lemma TornFinal(s: Setup, w: World, o: Order)
    requires Closing(w) && !w.aborted && Balanced(w, LeftOver(w))
    requires !w.freeing && w.err == 0 ==> w.disconnecting && w.b.replies == []
    requires LeftOver(w) == 1 ==> Strayed(w.b.log) && Replay(w.b.log).None? && ErrorLast(w.b.log)
    ensures Final(Torn(s, w, o))
  {
    hide Faithful, Heard, Replay, Requests, Promised, Simple, Runs, Strayed, Torn, Plain, From, Leftovers;
    hide InOrder, Orderly;
    var left := Leftovers(w.b, o);
    TornFlags(s, w, o);
    NullLeftovers(w.b, o);
    FromLeftovers(w.b, o, FromReplies);
    FromLeftovers(w.b, o, FromInvalid);
    if w.b.replies == [] { NoneQueued(w.b, o); }
    FromConcat(w.given, left, FromReplies);
    FromConcat(w.given, left, FromInvalid);
    RunsConcat(Plain(w.given), Plain(left));
    DrainInOrder(w.b.accepted, From(w.given, FromReplies), w.b.replies);
    DrainInOrder(w.b.entered, From(w.given, FromInvalid), w.b.invalid);
    PlainConcat(w.given, left);
  }

  lemma PlainConcat(a: seq<Handout>, b: seq<Handout>)
    ensures Plain(a + b) == Plain(a) + Plain(b)
  {
  }

  lemma DisconnectedFinal(s: Setup, w: World, o: Order)
    requires !w.aborted && Balanced(w, LeftOver(w)) && (w.err == 0 ==> w.disconnecting && w.b.replies == [])
    requires LeftOver(w) == 1 ==> Strayed(w.b.log) && Replay(w.b.log).None? && ErrorLast(w.b.log)
    ensures Final(Disconnected(s, w, o))
    ensures Heard(Disconnected(s, w, o).b.log) == Heard(w.b.log) && Disconnected(s, w, o).err == w.err
  {
    hide Kept, Heard, Replay, Strayed, Torn, Runs, Plain, From, Leftovers, Final;
    var v := Cleaned(if w.err == 0 then w else w.(disconnecting := true));
    TornFlags(s, v, o);
    TornFinal(s, v, o);
  }

  // ----- Replies -----

  lemma HandedSound(s: Setup, w: World, from: Origin, cb: Callback, reply: Reply, heard: seq<Reply>, o: Order)
    requires Kept(w.b, w.given + [Handout(from, Delivery(cb, Some(reply)))])
    requires w.calls == Runs(Plain(w.given)) && Attended(w.given, heard, |w.given|) && |w.given| == |heard|
    requires Heard(w.b.log) == heard + [reply]
    requires Simple(w.b.sent) ==> Plain(w.given) == From(w.given, FromReplies) && from == FromReplies
    requires w.err == 0 && !Over(w) && !w.freeing
    ensures var p := Handed(s, w, from, cb, reply, o);
            && Heard(p.w.b.log) == Heard(w.b.log)
            && if p.stop then Final(p.w) && !p.w.aborted && p.w.freeing && p.w.err == 0 else Sound(p.w) && !Over(p.w)
  {
    hide Kept, Heard, Replay, Simple, Runs, Plain, From, Ran, Final, Attended, Torn;
    var d := Delivery(cb, Some(reply));
    RanTurned(s, w, from, d);
    RanBalanced(s, w, from, cb, reply, heard);
    var v := Ran(s, w, from, d);
    if cb.fn && v.freeing {
      TornFinal(s, v, o);
      TornFlags(s, v, o);
    }
  }

  lemma TakenSound(s: Setup, w: World, reply: Reply, cb: Callback, o: Order)
    requires Sound(w) && !Over(w)
    ensures var p := Taken(s, w, reply, cb, o);
            && Heard(p.w.b.log) == Heard(w.b.log) + [reply]
            && if p.stop then Final(p.w) && (p.w.freeing || LeftOver(p.w) == 1) else Sound(p.w) && !Over(p.w)
  {
    hide Kept, Heard, Replay, Simple, Runs, Plain, From, Handed, Final, Attended, Disconnected, Chosen, Strayed;
    var v := Heeded(w, reply);
    match Chosen(v, reply, cb) {
      case Some(c) =>
        ChosenKept(w, reply, cb);
        HandedSound(s, c.w, c.from, c.cb, reply, Heard(w.b.log), o);
      case None =>
        NoneChosen(w, reply, cb);
        AttendedMore(w.given, Heard(w.b.log), reply);
        if reply.Error? { DisconnectedFinal(s, v.(err := REDIS_ERR_OTHER), o); } else { AbortedFinal(v); }
    }
  }

  /** The next turn is that of this callback, which gets the reply, and which the loop's variable then holds. */
  ghost predicate Gets(w: World, p: Progress, from: Origin, cb: Callback, reply: Reply) {
    w.given + [Handout(from, Delivery(cb, Some(reply)))] <= p.w.given && p.cb == cb
  }

  /** An assertion about the reply has failed. */
  ghost predicate Dies(w: World, p: Progress) {
    p.stop && p.w.aborted && !p.w.freed && p.w.given == w.given && p.w.calls == w.calls
  }

  lemma HandedGets(s: Setup, w: World, from: Origin, cb: Callback, reply: Reply, o: Order)
    ensures Gets(w, Handed(s, w, from, cb, reply, o), from, cb, reply)
  {
    hide Ran, Torn, Runs, Plain, Leftovers;
    var d := Delivery(cb, Some(reply));
    RanTurned(s, w, from, d);
    var v := Ran(s, w, from, d);
    if cb.fn && v.freeing { TornFlags(s, v, o); }
  }

  /**
   Which callback takes a reply: the first that waits for one; or else, if there are subscriptions, the one that is
   looked up for a message, or the first of an invalid command, or the one of the reply before; or in a context that
   monitors the one of the reply before. An error that no callback waits for closes the connection, and any other such
   reply fails an assertion.
   */
  lemma WhoTakes(s: Setup, w: World, reply: Reply, cb: Callback, o: Order)
    requires !Over(w)
    ensures var p, b := Taken(s, w, reply, cb, o), w.b;
            if b.replies != [] then Gets(w, p, FromReplies, b.replies[0], reply)
            else if reply.Error? then p.stop && p.w.freed && p.w.err == 2
            else if b.subs.subscribed && reply.Array? then
              match Handle(b.subs, reply.elements, cb)
              case Crashed => Dies(w, p)
              case Handled(_, found) => Gets(w, p, Elsewhere, found, reply)
            else if b.subs.subscribed && b.invalid != [] then Gets(w, p, FromInvalid, b.invalid[0], reply)
            else if b.subs.subscribed || b.monitoring then Gets(w, p, Elsewhere, cb, reply)
            else Dies(w, p)
  {
    hide Handle, Handed, Disconnected, Gets;
    var v := Heeded(w, reply);
    match Chosen(v, reply, cb) {
      case Some(c) =>
        HandedGets(s, c.w, c.from, c.cb, reply, o);
        GetsAs(c.w, w, Handed(s, c.w, c.from, c.cb, reply, o), c.from, c.cb, reply);
      case None =>
        DisconnectedErr(s, v.(err := REDIS_ERR_OTHER), o);
    }
  }

  lemma DisconnectedErr(s: Setup, w: World, o: Order)
    requires w.err == 0 ==> Closing(w)
    ensures Disconnected(s, w, o).err == w.err && Disconnected(s, w, o).freed
  {
    hide Torn;
    TornFlags(s, Cleaned(if w.err == 0 then w else w.(disconnecting := true)), o);
  }

  lemma GetsAs(w: World, v: World, p: Progress, from: Origin, cb: Callback, reply: Reply)
    requires Gets(w, p, from, cb, reply) && v.given == w.given
    ensures Gets(v, p, from, cb, reply)
  {
  }

  /** A callback was chosen for a reply; it is to be handed over. */
  lemma ChosenKept(w: World, reply: Reply, cb: Callback)
    requires Sound(w) && Chosen(Heeded(w, reply), reply, cb).Some?
    ensures var c := Chosen(Heeded(w, reply), reply, cb).value;
            && Kept(c.w.b, w.given + [Handout(c.from, Delivery(c.cb, Some(reply)))])
            && c.w == w.(b := c.w.b) && Heard(c.w.b.log) == Heard(w.b.log) + [reply] && c.w.b.sent == w.b.sent
            && (Simple(w.b.sent) ==> c.from == FromReplies)
  {
    hide Kept, Heard, Replay, Simple, Runs, Plain, From, Attended, Sought, Searched;
    var v := Heeded(w, reply);
    if w.b.replies != [] {
      TookFirst(w.b, w.given, reply);
    } else {
      SoughtLogged(w.b, v.b, reply, cb);
      SearchedAs(v, reply, cb);
      Ledger.Found(w.b, w.given, reply, cb);
    }
  }

  lemma NoneChosen(w: World, reply: Reply, cb: Callback)
    requires Sound(w) && Chosen(Heeded(w, reply), reply, cb).None?
    ensures var v := Heeded(w, reply);
            && Kept(v.b, w.given) && Heard(v.b.log) == Heard(w.b.log) + [reply] && w.b.replies == []
            && Strayed(v.b.log) && Replay(v.b.log).None?
  {
    hide Kept, Heard, Replay, Simple, Runs, Plain, From, Attended, Sought, Strayed;
    SoughtLogged(w.b, Heeded(w, reply).b, reply, cb);
    Unexpected(w.b, w.given, reply, cb);
  }

  lemma AttendedMore(given: seq<Handout>, heard: seq<Reply>, reply: Reply)
    requires Attended(given, heard, |given|)
    ensures Attended(given, heard + [reply], |given|)
  {
  }

  /** The search does not look at the history. */
  lemma SoughtLogged(b: Books, b': Books, reply: Reply, cb: Callback)
    requires b' == b.(log := b'.log)
    ensures Sought(b', reply, cb) ==
            match Sought(b, reply, cb)
            case None => None
            case Some(f) => Some(f.(b := f.b.(log := b'.log)))
  {
    hide Handle;
  }

  lemma {:induction false} TakenAllSound(s: Setup, w: World, replies: seq<Reply>, o: Order)
    requires Sound(w) && !Over(w)
    ensures var p := TakenAll(s, w, replies, o);
            && Heard(w.b.log) <= Heard(p.w.b.log) <= Heard(w.b.log) + replies
            && if p.stop then Final(p.w) && (p.w.freeing || LeftOver(p.w) == 1)
               else Sound(p.w) && !Over(p.w) && Heard(p.w.b.log) == Heard(w.b.log) + replies
  {
    hide Sound, Final, Taken, Heard, LeftOver;
    if replies != [] {
      var before := replies[..|replies| - 1];
      TakenAllSound(s, w, before, o);
      var p := TakenAll(s, w, before, o);
      if !p.stop {
        TakenSound(s, p.w, replies[|replies| - 1], p.cb, o);
      }
      assert before + [replies[|replies| - 1]] == replies;
      assert Heard(w.b.log) + before + [replies[|replies| - 1]] == Heard(w.b.log) + replies;
    }
  }

  // ----- Bytes and replies -----

  /** The replies that a reader has after the bytes s. */
  function RepliesIn(s: bytes): seq<Reply> {
    Replies(Streams.Outcomes(s))
  }

  /** No reply is complete in s, and nothing in it is refused. */
  predicate Partial(s: bytes) {
    Streams.Outcomes(s) == Streams.Outcome([], Streams.Waiting(s))
  }

  lemma NothingUnread()
    ensures Partial([])
  {
  }

  lemma {:induction false} StillWaiting(s: bytes)
    ensures Streams.Outcomes(s).end.Waiting? ==> Partial(Streams.Outcomes(s).end.rest)
    decreases |s|
  {
    hide ParseItem;
    match ParseItem(0, s)
    case Done(i, rest) => StillWaiting(rest);
    case _ =>
  }

  lemma NothingRead(s: bytes)
    requires Partial(s)
    ensures RepliesIn(s + []) == [] && Streams.Outcomes(s + []).end == Streams.Waiting(s)
  {
    hide Streams.Outcomes;
    assert s + [] == s;
  }

  lemma {:induction false} MeaningsConcat(a: seq<Item>, b: seq<Item>)
    ensures MeaningAll(a + b) == MeaningAll(a) + MeaningAll(b)
  {
  }

  /** What a chunk adds to the replies of the bytes before it. */
  lemma MoreReplies(fed: bytes, unread: bytes, chunk: bytes)
    requires Streams.Outcomes(fed).end == Streams.Waiting(unread)
    ensures RepliesIn(fed + chunk) == RepliesIn(fed) + RepliesIn(unread + chunk)
    ensures Streams.Outcomes(fed + chunk).end == Streams.Outcomes(unread + chunk).end
  {
    hide Streams.Outcomes;
    Streams.OutcomesAppend(fed, chunk);
    MeaningsConcat(Streams.Outcomes(fed).items, Streams.Outcomes(unread + chunk).items);
  }

  /** What an event reads from the connection. */
  function Chunk(e: Event, connected: bool): bytes {
    if e.Readable? && (connected || e.k == Completed) && !e.eof then e.chunk else []
  }

  // ----- Events -----

  /** Of these replies, the first were taken, and all unless a callback freed the context or the last one ended it. */
  ghost predicate Gained(w: World, v: World, replies: seq<Reply>) {
    && Heard(w.b.log) <= Heard(v.b.log) <= Heard(w.b.log) + replies
    && (v.freeing || LeftOver(v) == 1 || Heard(v.b.log) == Heard(w.b.log) + replies)
  }

  ghost predicate Goes(v: World) {
    if Over(v) then Final(v) else Sound(v) && Partial(v.unread)
  }

  lemma QuietFinal(s: Setup, w: World, o: Order)
    requires Balanced(w, 0) && !Over(w) && w.err != REDIS_ERR_OTHER
    requires w.err == 0 ==> w.disconnecting && w.b.replies == []
    ensures var v := Disconnected(s, w, o); Final(v) && Over(v) && Gained(w, v, [])
  {
    hide Kept, Tallied, Heard, Disconnected, Final, Simple;
    DisconnectedFinal(s, w, o);
    Gone(s, w, o);
    assert Heard(w.b.log) + [] == Heard(w.b.log);
  }

  lemma ReceivedSound(s: Setup, w: World, chunk: bytes, o: Order)
    requires Sound(w) && !Over(w)
    ensures var v := Received(s, w, chunk, o);
            && Goes(v) && Gained(w, v, RepliesIn(w.unread + chunk))
            && (!Over(v) ==> Streams.Outcomes(w.unread + chunk).end == Streams.Waiting(v.unread))
  {
    hide Kept, Tallied, Heard, Disconnected, Final, TakenAll, Streams.Outcomes, Replies, LeftOver;
    var got := Streams.Outcomes(w.unread + chunk);
    var p := TakenAll(s, w, Replies(got), o);
    TakenAllSound(s, w, Replies(got), o);
    TakenAllOver(s, w, Replies(got), o);
    if !p.stop {
      StillWaiting(w.unread + chunk);
      SettledSound(s, p.w, p.cb, got.end, o);
    }
  }

  lemma SettledSound(s: Setup, w: World, cb: Callback, end: Streams.Ending, o: Order)
    requires Sound(w) && !Over(w) && (end.Waiting? ==> Partial(end.rest))
    ensures var v := Settled(s, w, cb, end, o);
            && Goes(v) && Heard(v.b.log) == Heard(w.b.log) && (!Over(v) ==> end == Streams.Waiting(v.unread))
  {
    hide Kept, Attended, Heard, Disconnected, Final, Partial, Simple;
    if end.Refused? {
      QuietFinal(s, w.(err := StreamReader.REDIS_ERR_PROTOCOL), o);
    } else {
      var v := w.(unread := end.rest);
      if v.disconnecting && v.b.obuf == [] && v.b.replies == [] {
        QuietFinal(s, v, o);
      } else if v.b.monitoring {
        AgainKept(v.b, v.given, cb);
      }
    }
  }

  lemma ConnectedSound(s: Setup, w: World, k: Connect, o: Order)
    requires Sound(w) && !Over(w) && Partial(w.unread)
    ensures var v := Connected(s, w, k, o);
            && Goes(v) && Gained(w, v, []) && v.freed == (k == Failed)
            && (k != Failed ==> v.unread == w.unread && v.b == w.b)
  {
    hide Kept, Attended, Heard, Disconnected, Final, Partial, Simple, Runs, Plain, From;
    assert Heard(w.b.log) + [] == Heard(w.b.log);
    if k == Failed {
      var x := Greeted(s, w, false).(err := Pipeline.REDIS_ERR_IO);
      QuietFinal(s, x, o);
      Gone(s, x, o);
    }
  }

  lemma PerformedSound(s: Setup, w: World, a: Action, o: Order)
    requires Sound(w) && !Over(w) && Partial(w.unread)
    ensures var v := Performed(s, w, a, o); Goes(v) && Heard(v.b.log) == Heard(w.b.log)
  {
    hide Kept, Attended, Heard, Disconnected, Torn, Final, Partial, Simple, Replay, Due, Classify, Filed, Runs;
    hide Plain, From;
    var n := Noted(w, None, a);
    MadeCalled(w, None, a);
    ActedKept(n, w.given, a);
    ActedRequests(n, a);
    ActedSimple(n, a);
    var v := Made(w, None, a);
    match a {
      case Issue(_, _, _) =>
      case Quit =>
        if w.b.replies == [] { QuietFinal(s, v, o); }
      case Release =>
        TornFlags(s, v, o);
        TornFinal(s, v, o);
    }
  }

  /** One event: what holds of a live context still holds, or it is over; and what it has read is taken. */
  lemma NextSound(s: Setup, w: World, e: Event, o: Order)
    requires Sound(w) && !Over(w) && Partial(w.unread)
    ensures var v, got := Next(s, w, e, o), w.unread + Chunk(e, w.connected);
            && Goes(v) && Gained(w, v, RepliesIn(got))
            && (!Over(v) ==> Streams.Outcomes(got).end == Streams.Waiting(v.unread))
  {
    hide Balanced, Heard, Disconnected, Received, Final, Partial, Streams.Outcomes, RepliesIn, Performed, LeftOver;
    NothingRead(w.unread);
    assert Heard(w.b.log) + [] == Heard(w.b.log);
    match e {
      case Do(action) =>
        PerformedSound(s, w, action, o);
        PerformedUnread(s, w, action, o);
      case Readable(k, chunk, eof) =>
        var v := if w.connected then w else Connected(s, w, k, o);
        ConnectedSound(s, w, k, o);
        if !v.freed && v.connected {
          FedSound(s, v, chunk, eof, o);
        }
      case Writable(k, nwritten) =>
        var v := if w.connected then w else Connected(s, w, k, o);
        ConnectedSound(s, w, k, o);
        if !v.freed && v.connected {
          FlushedSound(s, v, nwritten, o);
        }
      case Server(x) =>
        ServerSound(w, x);
    }
  }

  lemma PerformedUnread(s: Setup, w: World, a: Action, o: Order)
    ensures !Over(Performed(s, w, a, o)) ==> Performed(s, w, a, o).unread == w.unread
  {
    hide Disconnected, Torn;
    MadeCalled(w, None, a);
    Gone(s, Made(w, None, a), o);
  }

  lemma FedSound(s: Setup, w: World, chunk: bytes, eof: bool, o: Order)
    requires Sound(w) && !Over(w) && Partial(w.unread)
    ensures var v, got := Fed(s, w, chunk, eof, o), w.unread + if eof then [] else chunk;
            && Goes(v) && Gained(w, v, RepliesIn(got))
            && (!Over(v) ==> Streams.Outcomes(got).end == Streams.Waiting(v.unread))
  {
    hide Kept, Attended, Heard, Disconnected, Received, Final, Partial, Simple, Runs, Plain, From;
    hide Streams.Outcomes, RepliesIn;
    if eof {
      NothingRead(w.unread);
      QuietFinal(s, w.(err := REDIS_ERR_EOF), o);
    } else {
      ReceivedSound(s, w, chunk, o);
    }
  }

  lemma FlushedSound(s: Setup, w: World, nwritten: int, o: Order)
    requires Sound(w) && !Over(w) && Partial(w.unread)
    ensures var v := Flushed(s, w, nwritten, o);
            Goes(v) && Gained(w, v, []) && (!Over(v) ==> v.unread == w.unread && v.connected == w.connected)
  {
    hide Attended, Heard, Disconnected, Final, Partial, Simple, Runs, Plain, From, Faithful, InOrder;
    assert Heard(w.b.log) + [] == Heard(w.b.log);
    if w.b.obuf != [] && nwritten < 0 {
      var x := w.(err := Pipeline.REDIS_ERR_IO);
      QuietFinal(s, x, o);
      Gone(s, x, o);
    }
  }

  lemma ServerSound(w: World, x: Entry)
    requires Sound(w) && !Over(w) && Partial(w.unread)
    ensures var v := if Foreign(x) then w.(b := w.b.(log := w.b.log + [x])) else w;
            Goes(v) && Gained(w, v, []) && v.unread == w.unread
  {
    hide Kept, Attended, Heard, Final, Partial, Simple, Runs, Plain, From;
    assert Heard(w.b.log) + [] == Heard(w.b.log);
    if Foreign(x) {
      ServerKept(w.b, w.given, x);
    }
  }

  // ----- Runs -----

  /** How many events a context has lived through, the one that ended it included. */
  ghost function Lived(s: Setup, events: seq<Event>, o: Order): (n: nat)
    ensures n <= |events|
  {
    if events == [] then 0
    else
      var before := events[..|events| - 1];
      if Over(After(s, before, o)) then Lived(s, before, o) else |events|
  }

  /** The event finds the connection established, if it was not before. */
  predicate Completes(e: Event) {
    (e.Readable? || e.Writable?) && e.k == Completed
  }

  predicate ConnectedBy(events: seq<Event>) {
    events != [] && (ConnectedBy(events[..|events| - 1]) || Completes(events[|events| - 1]))
  }

  /** What the events read from the connection. */
  function Read(events: seq<Event>): bytes {
    if events == [] then []
    else
      var before := events[..|events| - 1];
      Read(before) + Chunk(events[|events| - 1], ConnectedBy(before))
  }

  lemma NextConnected(s: Setup, w: World, e: Event, o: Order)
    ensures !Over(Next(s, w, e, o)) ==> Next(s, w, e, o).connected == (w.connected || Completes(e))
  {
    hide Disconnected, Torn, TakenAll, Acted, Streams.Outcomes, Replies, Written;
    match e {
      case Do(action) =>
        MadeCalled(w, None, action);
        Gone(s, Made(w, None, action), o);
      case Readable(k, chunk, eof) =>
        ConnectedFree(s, w, k, o, o);
        var v := if w.connected then w else Connected(s, w, k, o);
        Gone(s, v.(err := REDIS_ERR_EOF), o);
        ReceivedConnected(s, v, chunk, o);
      case Writable(k, nwritten) =>
        ConnectedFree(s, w, k, o, o);
        var v := if w.connected then w else Connected(s, w, k, o);
        Gone(s, v.(err := Pipeline.REDIS_ERR_IO), o);
        WrittenRests(v, nwritten);
      case Server(_) =>
    }
  }

  lemma ReceivedConnected(s: Setup, w: World, chunk: bytes, o: Order)
    ensures !Over(Received(s, w, chunk, o)) ==> Received(s, w, chunk, o).connected == w.connected
  {
    hide Disconnected, TakenAll, Streams.Outcomes, Replies;
    var got := Streams.Outcomes(w.unread + chunk);
    var p := TakenAll(s, w, Replies(got), o);
    TakenAllOver(s, w, Replies(got), o);
    TakenAllConnected(s, w, Replies(got), o);
    if got.end.Refused? {
      Gone(s, p.w.(err := StreamReader.REDIS_ERR_PROTOCOL), o);
    } else {
      Gone(s, p.w.(unread := got.end.rest), o);
    }
  }

  lemma {:induction false} TakenAllConnected(s: Setup, w: World, replies: seq<Reply>, o: Order)
    ensures !TakenAll(s, w, replies, o).stop ==> TakenAll(s, w, replies, o).w.connected == w.connected
  {
    hide Taken;
    if replies != [] {
      var before := replies[..|replies| - 1];
      TakenAllConnected(s, w, before, o);
      var p := TakenAll(s, w, before, o);
      TakenConnected(s, p.w, replies[|replies| - 1], p.cb, o);
    }
  }

  lemma TakenConnected(s: Setup, w: World, reply: Reply, cb: Callback, o: Order)
    ensures !Taken(s, w, reply, cb, o).stop ==> Taken(s, w, reply, cb, o).w.connected == w.connected
  {
    hide Disconnected, Torn, Chosen, Ran;
    var v := Heeded(w, reply);
    ChosenAs(v, reply, cb);
    match Chosen(v, reply, cb) {
      case Some(c) => RanTurned(s, c.w, c.from, Delivery(c.cb, Some(reply)));
      case None =>
    }
  }

  /** The replies taken are those in the bytes read, but for what a free or the last reply itself cut off. */
  ghost predicate Accounted(w: World, events: seq<Event>) {
    && Heard(w.b.log) <= RepliesIn(Read(events))
    && (events != [] ==> RepliesIn(Read(events[..|events| - 1])) <= Heard(w.b.log))
    && (w.freeing || LeftOver(w) == 1 || Heard(w.b.log) == RepliesIn(Read(events)))
    && (!Over(w) ==>
          && w.connected == ConnectedBy(events) && Heard(w.b.log) == RepliesIn(Read(events))
          && Streams.Outcomes(Read(events)).end == Streams.Waiting(w.unread))
  }

  lemma {:induction false} RunSound(s: Setup, events: seq<Event>, o: Order)
    requires Lived(s, events, o) == |events|
    ensures Goes(After(s, events, o)) && Accounted(After(s, events, o), events)
  {
    hide Next, Balanced, Final, Partial, Heard, RepliesIn, Streams.Outcomes;
    if events == [] {
      StartSound(s);
      NothingUnread();
      NoReplies(s);
    } else {
      var before, e := events[..|events| - 1], events[|events| - 1];
      LivedBefore(s, events, o);
      RunSound(s, before, o);
      var w := After(s, before, o);
      NextSound(s, w, e, o);
      NextConnected(s, w, e, o);
      MoreReplies(Read(before), w.unread, Chunk(e, w.connected));
      assert Heard(w.b.log) + RepliesIn(w.unread + Chunk(e, w.connected)) == RepliesIn(Read(events));
    }
  }

  lemma NoReplies(s: Setup)
    ensures Heard(Start(s).b.log) == [] && RepliesIn([]) == [] && Streams.Outcomes([]).end == Streams.Waiting([])
    ensures !Over(Start(s))
  {
  }

  lemma LivedBefore(s: Setup, events: seq<Event>, o: Order)
    requires Lived(s, events, o) == |events| && events != []
    ensures var before := events[..|events| - 1];
            !Over(After(s, before, o)) && Lived(s, before, o) == |before|
  {
    hide After;
    LivesOn(s, events[..|events| - 1], o);
  }

  /** A context that lives has handled every event. */
  lemma {:induction false} LivesOn(s: Setup, events: seq<Event>, o: Order)
    ensures !Over(After(s, events, o)) ==> Lived(s, events, o) == |events|
  {
    hide Next;
  }

  lemma {:induction false} LivedOnly(s: Setup, events: seq<Event>, o: Order)
    ensures var es := events[..Lived(s, events, o)];
            && After(s, es, o) == After(s, events, o) && Lived(s, es, o) == |es|
            && (!Over(After(s, events, o)) ==> es == events)
  {
    hide Next;
    if events != [] {
      var before := events[..|events| - 1];
      if Over(After(s, before, o)) {
        LivedOnly(s, before, o);
        assert before[..Lived(s, before, o)] == events[..Lived(s, events, o)];
      } else {
        assert events[..Lived(s, events, o)] == events;
      }
    }
  }
}
