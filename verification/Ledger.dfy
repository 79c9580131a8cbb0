/**
 The books of a context: first in, first out; what was sent and taken in; and the subscription protocol, whose run the
 history is for as long as only single names are subscribed and unsubscribed.
 */
module Ledger {
  import opened Bytes
  import opened Callbacks
  import opened Deliveries
  import opened Formatter
  import opened Machine
  import opened Resp
  import opened Subscriptions
  import opened Teardown
  import opened Tracking
  import PubSub

  /** No command subscribes or starts to monitor. */
  ghost predicate Simple(sent: seq<seq<bytes>>) {
    forall i :: 0 <= i < |sent| && sent[i] != [] ==> Classify(sent[i]) != Subscribe && Classify(sent[i]) != Monitor
  }

  lemma SimpleMore(sent: seq<seq<bytes>>, argv: seq<bytes>)
    requires argv != []
    ensures Simple(sent + [argv]) <==> Simple(sent) && Classify(argv) != Subscribe && Classify(argv) != Monitor
  {
    hide Classify;
    var all := sent + [argv];
    assert all[|sent|] == argv;
    assert forall i :: 0 <= i < |sent| ==> all[i] == sent[i];
  }

  /** given are the turns so far, and those that are to come at once. */
  ghost predicate Kept(b: Books, given: seq<Handout>) {
    && InOrder(b.accepted, From(given, FromReplies), b.replies)
    && InOrder(b.entered, From(given, FromInvalid), b.invalid)
    && Requests(b.log) == b.sent && Faithful(b.log, b.subs, b.accepted + b.entered)
    && (b.monitoring ==> b.accepted != [])
    && (Simple(b.sent) ==> b.subs == NO_SUBS && b.entered == [] && !b.monitoring && b.accepted == Promised(b.log))
  }

  lemma EmptyKept()
    ensures Kept(EMPTY, [])
  {
    StartFaithful();
  }

  lemma EnteredKept(b: Books, given: seq<Handout>, argv: Request, cb: Callback)
    requires Kept(b, given) && cb.pendingSubs == 1 && (Classify(argv) == Unsubscribe ==> b.subs.subscribed)
    ensures Kept(Entered(b, argv, cb), given)
  {
    hide Classify, Subscribed, Faithful, Requests, Heard, Promised, Replay, Messages, Sizes, Wire, InOrder, Simple;
    hide From;
    OneMore(b.log, Sent(argv, cb));
    SimpleMore(b.sent, argv);
    match Classify(argv) {
      case Subscribe => SentSubscribe(b.log, b.subs, b.accepted + b.entered, argv, cb);
      case Unsubscribe => SentUnsubscribe(b.log, b.subs, b.accepted + b.entered, argv, cb);
      case _ =>
        InOrderPush(b.accepted, From(given, FromReplies), b.replies, cb);
        InOrderPush(b.entered, From(given, FromInvalid), b.invalid, cb);
        SentOther(b.log, b.subs, b.accepted + (b.entered + [cb]), argv, cb);
        SentOther(b.log, b.subs, b.accepted + [cb] + b.entered, argv, cb);
    }
  }

  lemma ActedKept(w: World, given: seq<Handout>, a: Action)
    requires Kept(w.b, given)
    ensures Kept(Acted(w, a).b, given)
  {
    hide Kept, Entered, Classify;
    if a.Issue? && Accepts(w, a.argv) {
      EnteredKept(w.b, given, a.argv, Callback(a.fn, a.privdata, 1));
    }
  }

  lemma {:induction false} ScriptKept(w: World, given: seq<Handout>, turn: nat, script: seq<Action>)
    requires Kept(w.b, given)
    ensures Kept(Script(w, turn, script).b, given)
  {
    hide Kept, Acted;
    if script != [] {
      var before := script[..|script| - 1];
      ScriptKept(w, given, turn, before);
      ActedKept(Noted(Script(w, turn, before), Some(turn), script[|script| - 1]), given, script[|script| - 1]);
    }
  }

  /** Only commands were added to the history. */
  ghost predicate Requested(log: seq<Entry>, log': seq<Entry>) {
    && Heard(log') == Heard(log) && (Replay(log).None? ==> Replay(log').None?)
    && (Due(log').Some? ==> Due(log) == Due(log'))
  }

  lemma ActedRequests(w: World, a: Action)
    ensures Requested(w.b.log, Acted(w, a).b.log)
  {
    hide Classify, Filed, Replay, Heard, Messages, Due, Sizes, Wire;
    if a.Issue? {
      var cb := Callback(a.fn, a.privdata, 1);
      FiledAs(w.b, a.argv, cb);
      OneMore(w.b.log, Sent(a.argv, cb));
      assert Heard(w.b.log) + [] == Heard(w.b.log);
      DueSent(w.b.log, Sent(a.argv, cb));
    }
  }

  lemma {:induction false} ScriptRequests(w: World, turn: nat, script: seq<Action>)
    ensures Requested(w.b.log, Script(w, turn, script).b.log)
  {
    hide Replay, Heard, Due, Acted;
    if script != [] {
      var before := script[..|script| - 1];
      ScriptRequests(w, turn, before);
      ActedRequests(Noted(Script(w, turn, before), Some(turn), script[|script| - 1]), script[|script| - 1]);
    }
  }

  lemma RanKept(s: Setup, w: World, given: seq<Handout>, from: Origin, d: Delivery)
    requires Kept(w.b, given)
    ensures Kept(Ran(s, w, from, d).b, given) && Requested(w.b.log, Ran(s, w, from, d).b.log)
  {
    hide Kept, Script, Replay, Heard, Due;
    if d.cb.fn {
      var v := w.(given := w.given + [Handout(from, d)], calls := w.calls + [d]);
      ScriptKept(v, given, |w.calls|, s.user(|w.calls|));
      ScriptRequests(v, |w.calls|, s.user(|w.calls|));
    }
  }

  // ----- Replies -----

  /** The first waiting callback takes a reply. */
  lemma TookFirst(b: Books, given: seq<Handout>, reply: Reply)
    requires Kept(b, given) && b.replies != []
    ensures var log := b.log + [Took(reply)];
            && Kept(b.(log := log, replies := b.replies[1..]),
                    given + [Handout(FromReplies, Delivery(b.replies[0], Some(reply)))])
            && Heard(log) == Heard(b.log) + [reply] && Replay(log).None?
  {
    hide Faithful, Requests, Heard, Promised, Replay, Messages, InOrder, Simple, From;
    OneMore(b.log, Took(reply));
    InOrderShift(b.accepted, From(given, FromReplies), b.replies, Some(reply));
    AnyAccepted(b.accepted, From(given, FromReplies), b.replies);
    OneHandout(given, Handout(FromReplies, Delivery(b.replies[0], Some(reply))));
    assert From(given, FromInvalid) + [] == From(given, FromInvalid);
    TookOther(b.log, b.subs, b.accepted + b.entered, reply);
  }

  lemma AnyAccepted(accepted: seq<Callback>, taken: seq<Delivery>, replies: seq<Callback>)
    requires InOrder(accepted, taken, replies) && replies != []
    ensures accepted != []
  {
  }

  /** An error or a reply that fails an assertion is stray. */
  lemma Unexpected(b: Books, given: seq<Handout>, reply: Reply, cb: Callback)
    requires Kept(b, given) && (reply.Error? || Sought(b, reply, cb).None?)
    ensures var log := b.log + [Took(reply)];
            && Strayed(log) && Replay(log).None? && Heard(log) == Heard(b.log) + [reply]
            && Kept(b.(log := log), given)
  {
    hide Faithful, Replay, Requests, Heard, Promised, Messages, Stray, InOrder, Handle, Simple;
    OneMore(b.log, Took(reply));
    TookStray(b.log, b.subs, b.accepted + b.entered, reply, cb);
    assert (b.log + [Took(reply)])[..|b.log|] == b.log;
    NotFollowed(b.log + [Took(reply)], b.subs, b.accepted + b.entered);
  }

  /** The last reply is one that fails an assertion, or an error: it was stray. */
  ghost predicate Strayed(log: seq<Entry>) {
    log != [] && log[|log| - 1].Took? && Stray(log[..|log| - 1], log[|log| - 1].reply)
  }

  lemma NotFollowed(log: seq<Entry>, subs: Subs, accepted: seq<Callback>)
    requires Replay(log).None?
    ensures Faithful(log, subs, accepted)
  {
    hide Replay;
  }

  /** A reply for which a callback was found. */
  lemma Found(b: Books, given: seq<Handout>, reply: Reply, cb: Callback)
    requires Kept(b, given) && Sought(b, reply, cb).Some? && b.replies == []
    ensures var log, f := b.log + [Took(reply)], Sought(b, reply, cb).value;
            && Kept(f.b.(log := log), given + [Handout(f.from, Delivery(f.cb, Some(reply)))])
            && Heard(log) == Heard(b.log) + [reply] && !Simple(b.sent)
  {
    hide Faithful, Replay, Requests, Heard, Promised, Messages, InOrder, Handle, Simple, From;
    var log, f := b.log + [Took(reply)], Sought(b, reply, cb).value;
    OneMore(b.log, Took(reply));
    OneHandout(given, Handout(f.from, Delivery(f.cb, Some(reply))));
    assert forall q :: From(given, q) + [] == From(given, q);
    if f.from == FromInvalid {
      InOrderShift(b.entered, From(given, FromInvalid), b.invalid, Some(reply));
    }
    if Replay(log).Some? {
      TookMessage(b.log, b.subs, b.accepted + b.entered, reply, cb);
    } else {
      NotFollowed(log, f.b.subs, f.b.accepted + f.b.entered);
    }
  }

  /** In a disciplined run the callback found is the one registered for the name, and its call is due. */
  lemma FoundDue(b: Books, given: seq<Handout>, reply: Reply, cb: Callback)
    requires Kept(b, given) && Due(b.log + [Took(reply)]).Some?
    ensures Due(b.log).Some? && Sought(b, reply, cb).Some? && b.replies == []
    ensures var found := Sought(b, reply, cb).value.cb;
            Due(b.log + [Took(reply)]).value ==
            Due(b.log).value + if found.fn then [Delivery(found, Some(reply))] else []
  {
    hide Due, Handle, Requests, Heard, Promised, Replay, Messages, PubSub.Disciplined, Simple;
    OneMore(b.log, Took(reply));
    DueTook(b.log, b.subs, b.accepted + b.entered, reply, cb);
    FlagFor(b.log, b.subs, b.accepted + b.entered, reply);
  }

  /** A message of a disciplined run finds the flag, and no other callback waits. */
  lemma FlagFor(log: seq<Entry>, subs: Subs, others: seq<Callback>, reply: Reply)
    requires Faithful(log, subs, others) && Due(log + [Took(reply)]).Some?
    ensures subs.subscribed && reply.Array? && others == []
  {
    hide Handle, Messages, PubSub.Disciplined, PubSub.Inv, Replay;
    OneMore(log, Took(reply));
    TookMessage(log, subs, others, reply, NOBODY);
  }

  /** MONITOR keeps a callback waiting. */
  lemma AgainKept(b: Books, given: seq<Handout>, cb: Callback)
    requires Kept(b, given) && b.monitoring
    ensures Kept(Waiting(b, cb), given)
  {
    hide Requests, Heard, Promised, Replay, Messages, InOrder, Simple, PubSub.Inv;
    InOrderPush(b.accepted, From(given, FromReplies), b.replies, cb);
  }

  /** A step of the server. */
  lemma ServerKept(b: Books, given: seq<Handout>, x: Entry)
    requires Kept(b, given) && Foreign(x)
    ensures Kept(b.(log := b.log + [x]), given) && Heard(b.log + [x]) == Heard(b.log)
  {
    hide Faithful, Requests, Heard, Promised, Replay, Messages, InOrder, Simple;
    OneMore(b.log, x);
    assert Heard(b.log) + [] == Heard(b.log) && Promised(b.log) + [] == Promised(b.log);
    assert Requests(b.log) + [] == Requests(b.log);
    ServerStep(b.log, b.subs, b.accepted + b.entered, x);
  }
}
