/** The async context takes exactly the client's steps of the subscription runs. */
module Subscriber {
  import opened Async
  import opened Bytes
  import opened Callbacks
  import opened Deliveries
  import opened Machine
  import opened PubSub
  import opened Resp
  import opened Subscriptions
  import Tracking

  /** A single-name (P)SUBSCRIBE, from the program or from one of its callbacks. */
  method SubscribeTo(ac: AsyncContext, pvariant: bool, x: bytes, fn: bool, privdata: nat, ghost s: System)
    returns (ghost s': System)
    requires ac.Valid() && !Over(ac.now) && !Closing(ac.now) && ac.now.b.subs == s.subs && |x| <= INT_MAX
    modifies ac, ac.c, ac.pending.repr
    ensures ClientSubscribes(s, s', Command(Sub, pvariant, x), Callback(fn, privdata, 1))
    ensures ac.Valid() && ac.now.b.subs == s'.subs && ac.now.b.sent == old(ac.now).b.sent + [[Title(Sub, pvariant), x]]
  {
    hide AsyncContext.Valid, Classify, SubscribeAll, Title, Word, PVariant;
    TitlesClassify(pvariant, x);
    ShortTitles(pvariant);
    var argv := [Title(Sub, pvariant), x];
    var ok := ac.Issue(argv, fn, privdata);
    assert argv[1..] == [x];
    ghost var d := SubscribeAll(s.subs.Of(pvariant), [x], Callback(fn, privdata, 1));
    s' := s.(subs := s.subs.With(pvariant, d).(subscribed := true),
             issued := s.issued + [Command(Sub, pvariant, x)], queue := s.queue + [Command(Sub, pvariant, x)]);
  }

  /**
   A single-name (P)UNSUBSCRIBE: accepted exactly when the flag is set, which it is for every name whose last command
   was a subscribe.
   */
  method UnsubscribeFrom(ac: AsyncContext, pvariant: bool, x: bytes, ghost s: System)
    returns (ok: bool, ghost s': System)
    requires ac.Valid() && !Over(ac.now) && !Closing(ac.now) && ac.now.b.subs == s.subs && |x| <= INT_MAX && Inv(s)
    modifies ac, ac.c, ac.pending.repr
    ensures ClientUnsubscribes(s, s', Command(Unsub, pvariant, x))
    ensures ok == s.subs.subscribed && (Last(Of(s.issued, pvariant, x)) ==> ok)
    ensures ac.Valid() && ac.now.b.subs == s'.subs
    ensures ac.now.b.sent == old(ac.now).b.sent + if ok then [[Title(Unsub, pvariant), x]] else []
  {
    hide AsyncContext.Valid, Classify, SubscribeAll, Title, Word, PVariant, Inv, Of, Last;
    TitlesClassify(pvariant, x);
    ShortTitles(pvariant);
    if Last(Of(s.issued, pvariant, x)) { PubSub.Known(s, pvariant, x); }
    ok := ac.Issue([Title(Unsub, pvariant), x], false, 0);
    ghost var e := Command(Unsub, pvariant, x);
    s' := if ok then s.(issued := s.issued + [e], queue := s.queue + [e]) else s;
  }

  lemma ShortTitles(pvariant: bool)
    ensures |Title(Sub, pvariant)| <= INT_MAX && |Title(Unsub, pvariant)| <= INT_MAX
  {
  }

  /**
   The next message is looked up. The connection stays up unless no subscription remains; then the message is the
   confirmation of an unsubscribe, and the assertion fails. The callback to run is the one registered for the message's
   channel or pattern.
   */
  method TakeMessage(ac: AsyncContext, message: seq<Reply>, cb: Callback, ghost s: System)
    returns (found: Option<Callback>, ghost s': System)
    requires ac.Valid() && !Over(ac.now) && !ac.now.b.monitoring && ac.now.b.subs == s.subs && Inv(s)
    requires s.acks != [] && message == Push(s.acks[0])
    modifies ac, ac.pending.repr
    ensures ac.Valid() && (found.None? <==> !Remains(s))
    ensures found.None? ==> s.acks[0].kind == Unsub && ac.now == Aborted(old(ac.now))
    ensures found.Some? ==>
              var d := s.subs.Of(s.acks[0].pvariant);
              && ClientReceives(s, s', cb) && ac.now == old(ac.now).(b := old(ac.now).b.(subs := s'.subs))
              && found.value == if s.acks[0].name in d then Meant(d, s.acks[0]) else cb
  {
    hide AsyncContext.Valid, Handle, Push, Inv, Remains, Searched;
    SearchedAs(ac.now, Array(message), cb);
    ghost var e := s.acks[0];
    RemainsIff(s);
    if e.kind != Unsub { Awaited(s); }
    Handling(s.subs, e, cb);
    found := ac.Seek(Array(message), cb);
    s' := s.(subs := ac.now.b.subs, acks := s.acks[1..], seen := s.seen + [e]);
  }
}
