/**
 The history of a context as a run of the subscription protocol: what the program sent, what the context took in, and
 what the server did are the steps of such a run for as long as every command names one channel or pattern to subscribe
 or unsubscribe, and the messages taken in are those the server sent, in their order.
 */
module Tracking {
  import opened Bytes
  import opened Callbacks
  import opened Deliveries
  import opened Resp
  import opened Subscriptions
  import opened PubSub

  /** A command sent with a callback, a reply taken in, a command handled by the server, a message published. */
  datatype Entry = Sent(argv: seq<bytes>, cb: Callback) | Took(reply: Reply) | Served | Posted(event: Event)

  const NOBODY := Callback(false, 0, 0)

  /** A subscribe or an unsubscribe of one name. */
  predicate Single(argv: seq<bytes>) {
    |argv| == 2 && (Classify(argv) == Subscribe || Classify(argv) == Unsubscribe)
  }

  function Given(argv: seq<bytes>): Event
    requires |argv| == 2
  {
    Command(if Classify(argv) == Subscribe then Sub else Unsub, PVariant(argv[0]), argv[1])
  }

  /** What a (P)SUBSCRIBE makes of the subscriptions. */
  function Subscribed(subs: Subs, argv: seq<bytes>, cb: Callback): Subs
    requires argv != []
  {
    var p := PVariant(argv[0]);
    subs.With(p, SubscribeAll(subs.Of(p), argv[1..], cb)).(subscribed := true)
  }

  ghost function AfterSent(s: System, argv: seq<bytes>, cb: Callback): System
    requires |argv| == 2
  {
    var subs := if Classify(argv) == Subscribe then Subscribed(s.subs, argv, cb) else s.subs;
    s.(subs := subs, issued := s.issued + [Given(argv)], queue := s.queue + [Given(argv)])
  }

  /** The reply is the server's next message. */
  ghost predicate Expected(s: System, reply: Reply) {
    s.acks != [] && reply == Array(Push(s.acks[0]))
  }

  ghost function AfterTook(s: System): System
    requires s.acks != []
  {
    var h := Handle(s.subs, Push(s.acks[0]), NOBODY);
    s.(subs := if h.Handled? then h.subs else s.subs, acks := s.acks[1..], seen := s.seen + [s.acks[0]])
  }

  ghost function AfterServed(s: System): System {
    if s.queue == [] then s
    else
      var e := s.queue[0];
      var names := s.server.Of(e.pvariant);
      var now := s.server.With(e.pvariant, if e.kind == Sub then names + {e.name} else names - {e.name});
      s.(queue := s.queue[1..], server := now, acks := s.acks + [e.(total := now.Total())])
  }

  ghost function AfterPosted(s: System, e: Event): System {
    if e.kind == Message && e.name in s.server.Of(e.pvariant) then s.(acks := s.acks + [e]) else s
  }

  /** One entry: None when it is no step of such a run. */
  ghost function Follow(s: System, x: Entry): Option<System> {
    match x
    case Sent(argv, cb) =>
      if Single(argv) && cb.pendingSubs == 1 && (Classify(argv) == Unsubscribe ==> s.subs.subscribed)
      then Some(AfterSent(s, argv, cb)) else None
    case Took(reply) => if Expected(s, reply) && s.subs.subscribed then Some(AfterTook(s)) else None
    case Served => Some(AfterServed(s))
    case Posted(e) => Some(AfterPosted(s, e))
  }

  /** The state that a history has come to, if it is that of such a program and a first-in, first-out server. */
  ghost function Replay(log: seq<Entry>): Option<System> {
    if log == [] then Some(START)
    else
      match Replay(log[..|log| - 1])
      case None => None
      case Some(s) => Follow(s, log[|log| - 1])
  }

  /** The commands of a history. */
  ghost function Requests(log: seq<Entry>): seq<seq<bytes>> {
    if log == [] then []
    else
      var x := log[|log| - 1];
      Requests(log[..|log| - 1]) + if x.Sent? then [x.argv] else []
  }

  /** The replies of a history. */
  ghost function Heard(log: seq<Entry>): seq<Reply> {
    if log == [] then []
    else
      var x := log[|log| - 1];
      Heard(log[..|log| - 1]) + if x.Took? then [x.reply] else []
  }

  /** The callbacks given with the commands. */
  ghost function Promised(log: seq<Entry>): seq<Callback> {
    if log == [] then []
    else
      var x := log[|log| - 1];
      Promised(log[..|log| - 1]) + if x.Sent? then [x.cb] else []
  }

  /** Every message of a history with the callback registered for its name. */
  ghost function Messages(log: seq<Entry>): seq<Delivery> {
    if log == [] then []
    else
      var before, x := log[..|log| - 1], log[|log| - 1];
      Messages(before) + if x.Took? then ForMessage(Replay(before), x.reply) else []
  }

  ghost function ForMessage(r: Option<System>, reply: Reply): seq<Delivery> {
    if r.Some? && r.value.acks != [] && r.value.acks[0].name in r.value.subs.Of(r.value.acks[0].pvariant)
    then [Delivery(Meant(r.value.subs.Of(r.value.acks[0].pvariant), r.value.acks[0]), Some(reply))]
    else []
  }

  lemma OneMore(log: seq<Entry>, x: Entry)
    ensures Replay(log + [x]) == if Replay(log).Some? then Follow(Replay(log).value, x) else None
    ensures Requests(log + [x]) == Requests(log) + if x.Sent? then [x.argv] else []
    ensures Heard(log + [x]) == Heard(log) + if x.Took? then [x.reply] else []
    ensures Promised(log + [x]) == Promised(log) + if x.Sent? then [x.cb] else []
    ensures Messages(log + [x]) == Messages(log) + if x.Took? then ForMessage(Replay(log), x.reply) else []
    ensures |Requests(log)| == |Promised(log)|
  {
    hide Follow, ForMessage;
    assert (log + [x])[..|log|] == log;
    AsMany(log);
  }

  lemma {:induction false} AsMany(log: seq<Entry>)
    ensures |Requests(log)| == |Promised(log)|
  {
    if log != [] { AsMany(log[..|log| - 1]); }
  }

  /** The calls due after a history that is a run of a disciplined program. */
  ghost function Due(log: seq<Entry>): Option<seq<Delivery>> {
    if Replay(log).Some? && Disciplined(Replay(log).value.issued) then Some(Runs(Messages(log))) else None
  }

  /** The reply is not the server's next message, or it is the confirmation of an unsubscribe when nothing remains. */
  ghost predicate Stray(log: seq<Entry>, reply: Reply) {
    Replay(log).Some? ==> !Expected(Replay(log).value, reply) || !Remains(Replay(log).value)
  }

  /**
   A history that is a run of the protocol has come to a state that keeps the invariant of these runs, with the
   subscriptions that the client really has; in such a run no other callback waits or waited.
   */
  ghost predicate Faithful(log: seq<Entry>, subs: Subs, others: seq<Callback>) {
    Replay(log).Some? ==> Inv(Replay(log).value) && Replay(log).value.subs == subs && others == []
  }

  lemma StartFaithful()
    ensures Faithful([], NO_SUBS, [])
  {
    Begins();
  }

  // ----- The client's steps -----

  lemma SentSubscribe(log: seq<Entry>, subs: Subs, others: seq<Callback>, argv: seq<bytes>, cb: Callback)
    requires Faithful(log, subs, others) && argv != [] && Classify(argv) == Subscribe
    ensures Faithful(log + [Sent(argv, cb)], Subscribed(subs, argv, cb), others)
  {
    hide Classify, Inv, SubscribeAll, PVariant, Replay;
    OneMore(log, Sent(argv, cb));
    if Replay(log).Some? && Single(argv) && cb.pendingSubs == 1 {
      var s := Replay(log).value;
      assert argv[1..] == [argv[1]];
      assert ClientSubscribes(s, AfterSent(s, argv, cb), Given(argv), cb);
      SubscribeKeeps(s, AfterSent(s, argv, cb), Given(argv), cb);
    }
  }

  lemma SentUnsubscribe(log: seq<Entry>, subs: Subs, others: seq<Callback>, argv: seq<bytes>, cb: Callback)
    requires Faithful(log, subs, others) && argv != [] && Classify(argv) == Unsubscribe
    ensures Faithful(log + [Sent(argv, cb)], subs, others)
  {
    hide Classify, Inv, PVariant, Replay;
    OneMore(log, Sent(argv, cb));
    if Replay(log).Some? && Follow(Replay(log).value, Sent(argv, cb)).Some? {
      var s := Replay(log).value;
      assert ClientUnsubscribes(s, AfterSent(s, argv, cb), Given(argv));
      UnsubscribeKeeps(s, AfterSent(s, argv, cb), Given(argv));
    }
  }

  /** Any other command is none of such a run. */
  lemma SentOther(log: seq<Entry>, subs: Subs, others: seq<Callback>, argv: seq<bytes>, cb: Callback)
    requires argv != [] && Classify(argv) != Subscribe && Classify(argv) != Unsubscribe
    ensures Faithful(log + [Sent(argv, cb)], subs, others)
  {
    hide Classify, Replay;
    OneMore(log, Sent(argv, cb));
  }

  /** A message of the run finds the flag set and fails no assertion, and handling it is the client's step. */
  lemma TookMessage(log: seq<Entry>, subs: Subs, others: seq<Callback>, reply: Reply, cb: Callback)
    requires Faithful(log, subs, others) && Replay(log + [Took(reply)]).Some?
    ensures subs.subscribed && reply.Array?
    ensures var h := Handle(subs, reply.elements, cb);
            h.Handled? && Faithful(log + [Took(reply)], h.subs, others)
  {
    hide Inv, Push, Handle, Replay;
    OneMore(log, Took(reply));
    var s := Replay(log).value;
    Handling(subs, s.acks[0], cb);
    SameSubs(subs, Push(s.acks[0]), cb, NOBODY);
    assert ClientReceives(s, AfterTook(s), NOBODY);
    ReceiveKeeps(s, AfterTook(s), NOBODY);
  }

  /** An error, or a reply that fails an assertion, is none of the run, or the one confirmation that fails it. */
  lemma TookStray(log: seq<Entry>, subs: Subs, others: seq<Callback>, reply: Reply, cb: Callback)
    requires Faithful(log, subs, others)
    requires reply.Error? || !subs.subscribed || (reply.Array? && Handle(subs, reply.elements, cb).Crashed?)
    ensures Stray(log, reply) && Replay(log + [Took(reply)]).None?
  {
    hide Inv, Push, Handle, Replay, Remains;
    OneMore(log, Took(reply));
    if Replay(log).Some? && Expected(Replay(log).value, reply) {
      var s := Replay(log).value;
      Handling(subs, s.acks[0], cb);
      RemainsIff(s);
    }
  }

  /** After disciplined commands the next message is never stray. */
  lemma NeverStray(log: seq<Entry>, reply: Reply)
    requires Replay(log).Some? && Disciplined(Replay(log).value.issued) && Expected(Replay(log).value, reply)
    ensures !Stray(log, reply)
  {
    hide Push, Replay, Run, Remains, Inv, Of, Alternates;
    var states := ReplayIsRun(log);
    RunKeeps(states, |states| - 1);
    AwaitedUnsubscribe(Replay(log).value);
    RemainsIff(Replay(log).value);
  }

  /** What the caller's variable held before has no effect on the subscriptions. */
  lemma SameSubs(subs: Subs, e: seq<Reply>, cb: Callback, cb': Callback)
    ensures Handle(subs, e, cb).Handled? <==> Handle(subs, e, cb').Handled?
    ensures Handle(subs, e, cb).Handled? ==> Handle(subs, e, cb).subs == Handle(subs, e, cb').subs
  {
    hide Text, PVariant, Stem, SameWord;
  }

  /** A reply that a regular callback takes is none of such a run. */
  lemma TookOther(log: seq<Entry>, subs: Subs, others: seq<Callback>, reply: Reply)
    requires Faithful(log, subs, others) && others != []
    ensures Replay(log + [Took(reply)]).None? && Faithful(log + [Took(reply)], subs, others)
  {
    hide Inv, Follow, Replay;
    OneMore(log, Took(reply));
  }

  // ----- The server's steps -----

  lemma ServerStep(log: seq<Entry>, subs: Subs, others: seq<Callback>, x: Entry)
    requires Faithful(log, subs, others) && (x.Served? || x.Posted?)
    ensures Faithful(log + [x], subs, others)
  {
    hide Inv, Replay;
    OneMore(log, x);
    if Replay(log).Some? {
      var s := Replay(log).value;
      if x.Served? {
        if s.queue != [] {
          assert ServerHandles(s, AfterServed(s));
          ServerKeeps(s, AfterServed(s));
        }
      } else if AfterPosted(s, x.event) != s {
        assert ServerPublishes(s, AfterPosted(s, x.event), x.event);
        PublishKeeps(s, AfterPosted(s, x.event), x.event);
      }
    }
  }

  // ----- The calls that are due -----

  /** A command changes nothing about them, if they are still known. */
  lemma DueSent(log: seq<Entry>, x: Entry)
    requires !x.Took?
    ensures Due(log + [x]).Some? ==> Due(log) == Due(log + [x])
  {
    hide Replay, Messages, Follow, Disciplined, Runs, ForMessage;
    OneMore(log, x);
    assert Messages(log) + [] == Messages(log);
    if Due(log + [x]).Some? {
      DisciplinedFollow(Replay(log).value, x);
    }
  }

  lemma DisciplinedFollow(s: System, x: Entry)
    requires Follow(s, x).Some? && Disciplined(Follow(s, x).value.issued)
    ensures Disciplined(s.issued)
  {
    hide Classify, Disciplined, Handle, Push;
    if x.Sent? {
      DisciplinedBefore(s.issued, Given(x.argv));
    }
  }

  lemma DisciplinedBefore(issued: seq<Event>, e: Event)
    requires Disciplined(issued + [e])
    ensures Disciplined(issued)
  {
    hide Of, Alternates, One;
    forall p, x
      ensures Alternates(Of(issued, p, x))
    {
      assert Alternates(Of(issued + [e], p, x));
      OfMore(issued, e, p, x);
      AlternatesBefore(Of(issued, p, x), One(e, p, x));
    }
  }

  lemma AlternatesBefore(a: seq<bool>, b: seq<bool>)
    requires Alternates(a + b)
    ensures Alternates(a)
  {
    forall i | 0 <= i < |a| && !a[i]
      ensures i > 0 && a[i - 1]
    {
      assert (a + b)[i] == a[i];
      if i > 0 { assert (a + b)[i - 1] == a[i - 1]; }
    }
  }

  /** A message adds the call of the callback registered for its name, which is the one that is found. */
  lemma DueTook(log: seq<Entry>, subs: Subs, others: seq<Callback>, reply: Reply, cb: Callback)
    requires Faithful(log, subs, others) && Due(log + [Took(reply)]).Some?
    ensures Due(log).Some? && reply.Array? && Handle(subs, reply.elements, cb).Handled?
    ensures var found := Handle(subs, reply.elements, cb).cb;
            Due(log + [Took(reply)]).value == Due(log).value + if found.fn then [Delivery(found, Some(reply))] else []
  {
    hide Replay, Messages, Runs, Push, Handle, Inv, Of, Alternates;
    OneMore(log, Took(reply));
    var s := Replay(log).value;
    AwaitedUnsubscribe(s);
    Handling(subs, s.acks[0], cb);
    RunsMore(Messages(log), Delivery(Handle(subs, reply.elements, cb).cb, Some(reply)));
  }

  // ----- Histories and runs -----

  /** A history that can be replayed is a run of the protocol. */
  lemma {:induction false} ReplayIsRun(log: seq<Entry>) returns (states: seq<System>)
    requires Replay(log).Some?
    ensures states != [] && Run(states) && states[|states| - 1] == Replay(log).value
  {
    hide Follow, Run, Step;
    if log == [] {
      states := [START];
      StartIsRun();
    } else {
      var before, x := log[..|log| - 1], log[|log| - 1];
      states := ReplayIsRun(before);
      RunKeeps(states, |states| - 1);
      var s := Replay(before).value;
      if Follow(s, x) != Some(s) {
        FollowIsStep(s, x);
        var s' := Follow(s, x).value;
        assert (states + [s'])[..|states|] == states;
        Longer(states + [s']);
        states := states + [s'];
      }
    }
  }

  lemma StartIsRun()
    ensures Run([START])
  {
  }

  lemma Longer(states: seq<System>)
    requires |states| > 1 && Run(states[..|states| - 1]) && Step(states[|states| - 2], states[|states| - 1])
    ensures Run(states)
  {
    hide Step;
    var n := |states| - 1;
    forall i | 0 <= i < n
      ensures Step(states[i], states[i + 1])
    {
      if i < n - 1 {
        assert Step(states[..n][i], states[..n][i + 1]);
      }
    }
  }

  lemma FollowIsStep(s: System, x: Entry)
    requires Inv(s) && Follow(s, x).Some? && Follow(s, x).value != s
    ensures Step(s, Follow(s, x).value)
  {
    hide Inv, Handle, Push, SubscribeAll, Classify, PVariant, Of, Last;
    var s' := Follow(s, x).value;
    match x {
      case Sent(argv, cb) =>
        if Classify(argv) == Subscribe {
          assert argv[1..] == [argv[1]];
          assert ClientSubscribes(s, s', Given(argv), cb);
        } else {
          assert ClientUnsubscribes(s, s', Given(argv));
        }
      case Took(reply) =>
        Handling(s.subs, s.acks[0], NOBODY);
        assert ClientReceives(s, s', NOBODY);
      case Served => assert ServerHandles(s, s');
      case Posted(e) => assert ServerPublishes(s, s', e);
    }
  }

  /** Such histories exist: a subscribe is sent, answered and confirmed, and the name is then registered for good. */
  lemma Confirmed(pvariant: bool, x: bytes, cb: Callback) returns (log: seq<Entry>)
    requires cb.pendingSubs == 1
    ensures Requests(log) == [[Title(Sub, pvariant), x]] && Replay(log).Some?
    ensures var d := Replay(log).value.subs.Of(pvariant); x in d && d[x] == cb.(pendingSubs := 0)
  {
    hide Replay, Requests, Follow, AfterServed, AfterSent, AfterTook, Push, Title;
    var argv := [Title(Sub, pvariant), x];
    var s := AfterSent(START, argv, cb);
    var t := AfterServed(s);
    FirstSent(pvariant, x, cb);
    FirstServed(s, pvariant, x);
    FirstTook(t, pvariant, x, cb);
    NoEntries();
    var log1 := Stepped([], START, Sent(argv, cb));
    var log2 := Stepped(log1, s, Served);
    log := Stepped(log2, t, Took(Array(Push(t.acks[0]))));
    assert [] + [argv] + [] + [] == [argv];
  }

  lemma Stepped(log: seq<Entry>, s: System, x: Entry) returns (log': seq<Entry>)
    requires Replay(log) == Some(s) && Follow(s, x).Some?
    ensures Replay(log') == Follow(s, x) && Requests(log') == Requests(log) + if x.Sent? then [x.argv] else []
  {
    hide Replay, Requests, Heard, Promised, Messages, Follow, ForMessage;
    OneMore(log, x);
    log' := log + [x];
  }

  lemma NoEntries()
    ensures Replay([]) == Some(START) && Requests([]) == []
  {
  }

  lemma FirstSent(pvariant: bool, x: bytes, cb: Callback)
    requires cb.pendingSubs == 1
    ensures var argv := [Title(Sub, pvariant), x];
            var s := AfterSent(START, argv, cb);
            && Follow(START, Sent(argv, cb)) == Some(s)
            && s.subs.Of(pvariant) == NO_SUBS.Of(pvariant)[x := cb] && s.subs.subscribed
            && s.queue == [Command(Sub, pvariant, x)] && s.acks == [] && s.server == Server({}, {})
  {
    hide Title, Classify, PVariant, Subscribed, Last, Of;
    TitlesClassify(pvariant, x);
    FirstSubscribed(pvariant, x, cb);
  }

  lemma FirstServed(s: System, pvariant: bool, x: bytes)
    requires s.queue == [Command(Sub, pvariant, x)] && s.acks == []
    ensures Follow(s, Served) == Some(AfterServed(s)) && AfterServed(s).subs == s.subs
    ensures var acks := AfterServed(s).acks;
            |acks| == 1 && acks[0].kind == Sub && acks[0].pvariant == pvariant && acks[0].name == x
  {
  }

  lemma FirstTook(s: System, pvariant: bool, x: bytes, cb: Callback)
    requires |s.acks| == 1 && s.acks[0].kind == Sub && s.acks[0].pvariant == pvariant && s.acks[0].name == x
    requires s.subs.Of(pvariant) == NO_SUBS.Of(pvariant)[x := cb] && s.subs.subscribed && cb.pendingSubs == 1
    ensures Follow(s, Took(Array(Push(s.acks[0])))) == Some(AfterTook(s))
    ensures var d := AfterTook(s).subs.Of(pvariant); x in d && d[x] == cb.(pendingSubs := 0)
  {
    hide Push, Handle;
    Handling(s.subs, s.acks[0], NOBODY);
  }

  lemma FirstSubscribed(pvariant: bool, x: bytes, cb: Callback)
    requires cb.pendingSubs == 1
    ensures var subs := Subscribed(NO_SUBS, [Title(Sub, pvariant), x], cb);
            subs == NO_SUBS.With(pvariant, NO_SUBS.Of(pvariant)[x := cb]).(subscribed := true)
  {
    hide Classify, Title, SubscribeAll;
    TitlesClassify(pvariant, x);
    var argv := [Title(Sub, pvariant), x];
    assert argv[1..] == [x];
    AddOne(NO_SUBS.Of(pvariant), x, cb);
    assert cb.(pendingSubs := 1) == cb;
  }
}
