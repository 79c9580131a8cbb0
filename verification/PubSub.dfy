/**
 Subscriptions of async.c against a server: the client's dictionaries and its SUBSCRIBED flag, the commands and
 messages in flight, and the server's sets. Commands name one channel or pattern each, in any order.
 */
module PubSub {
  import opened Bytes
  import opened Callbacks
  import opened Resp
  import opened Subscriptions

  const MESSAGE: bytes := [109, 101, 115, 115, 97, 103, 101]

  datatype Kind = Sub | Unsub | Message

  /**
   A command, its confirmation, or a published message. A confirmation reports the total of subscriptions;
   a message for a pattern also names the channel it was published on.
   */
  datatype Event = Event(kind: Kind, pvariant: bool, name: bytes, total: nat, channel: bytes, payload: bytes)

  function Command(kind: Kind, pvariant: bool, name: bytes): Event {
    Event(kind, pvariant, name, 0, [], [])
  }

  function Word(kind: Kind): bytes {
    match kind
    case Sub => SUBSCRIBE
    case Unsub => UNSUBSCRIBE
    case Message => MESSAGE
  }

  function Title(kind: Kind, pvariant: bool): bytes {
    if pvariant then [LOWER_P] + Word(kind) else Word(kind)
  }

  /** What the server sends: in a message for a pattern the channel comes before the payload. */
  function Push(e: Event): seq<Reply> {
    var head := [String(Title(e.kind, e.pvariant)), String(e.name)];
    if e.kind != Message then head + [Integer(e.total)]
    else if e.pvariant then head + [String(e.channel), String(e.payload)]
    else head + [String(e.payload)]
  }

  datatype Server = Server(channels: set<bytes>, patterns: set<bytes>) {
    function Of(pvariant: bool): set<bytes> {
      if pvariant then patterns else channels
    }

    function With(pvariant: bool, names: set<bytes>): Server {
      if pvariant then this.(patterns := names) else this.(channels := names)
    }

    function Total(): nat {
      |channels| + |patterns|
    }
  }

  datatype System = System(
    subs: Subs,
    issued: seq<Event>,  // every command the client sent
    queue: seq<Event>,   // those the server has not handled
    server: Server,
    acks: seq<Event>,    // what the server sent and the client has not handled
    seen: seq<Event>)    // what the client has handled

  const START := System(NO_SUBS, [], [], Server({}, {}), [], [])

  /** The subscribe (true) or unsubscribe (false) of a name that an event is. */
  function One(e: Event, pvariant: bool, x: bytes): seq<bool> {
    if e.kind != Message && e.pvariant == pvariant && e.name == x then [e.kind == Sub] else []
  }

  /** The subscribes and unsubscribes of a name, in order. */
  function Of(es: seq<Event>, pvariant: bool, x: bytes): seq<bool> {
    if es == [] then [] else One(es[0], pvariant, x) + Of(es[1..], pvariant, x)
  }

  function Last(es: seq<bool>): bool {
    es != [] && es[|es| - 1]
  }

  function Subscribes(es: seq<bool>): nat {
    if es == [] then 0 else Subscribes(es[1..]) + if es[0] then 1 else 0
  }

  // ----- Steps -----

  ghost predicate ClientSubscribes(s: System, s': System, e: Event, cb: Callback) {
    && e.kind == Sub && cb.pendingSubs == 1
    && var d' := SubscribeAll(s.subs.Of(e.pvariant), [e.name], cb);
       s' == s.(subs := s.subs.With(e.pvariant, d').(subscribed := true),
                issued := s.issued + [e], queue := s.queue + [e])
  }

  /** Any name may be unsubscribed. The client refuses the command when the flag is not set. */
  ghost predicate ClientUnsubscribes(s: System, s': System, e: Event) {
    && e.kind == Unsub
    && s' == if s.subs.subscribed then s.(issued := s.issued + [e], queue := s.queue + [e]) else s
  }

  ghost predicate ServerHandles(s: System, s': System) {
    && s.queue != []
    && var e := s.queue[0];
       var names := s.server.Of(e.pvariant);
       var now := s.server.With(e.pvariant, if e.kind == Sub then names + {e.name} else names - {e.name});
       s' == s.(queue := s.queue[1..], server := now, acks := s.acks + [e.(total := now.Total())])
  }

  ghost predicate ServerPublishes(s: System, s': System, e: Event) {
    e.kind == Message && e.name in s.server.Of(e.pvariant) && s' == s.(acks := s.acks + [e])
  }

  /** The client reads a message: the assertion about the flag, then the callback is looked up. */
  ghost predicate ClientReceives(s: System, s': System, cb: Callback) {
    && s.acks != [] && s.subs.subscribed
    && match Handle(s.subs, Push(s.acks[0]), cb)
       case Crashed => false
       case Handled(subs, _) => s' == s.(subs := subs, acks := s.acks[1..], seen := s.seen + [s.acks[0]])
  }

  ghost predicate Step(s: System, s': System) {
    || (exists e, cb :: ClientSubscribes(s, s', e, cb))
    || (exists e :: ClientUnsubscribes(s, s', e))
    || ServerHandles(s, s')
    || (exists e :: ServerPublishes(s, s', e))
    || (exists cb :: ClientReceives(s, s', cb))
  }

  // ----- The invariant -----

  /** The subscribes and unsubscribes of a name in flight. */
  function Flying(s: System, pvariant: bool, x: bytes): seq<bool> {
    Of(s.acks, pvariant, x) + Of(s.queue, pvariant, x)
  }

  ghost predicate Agrees(s: System, pvariant: bool, x: bytes) {
    var done, fly, d := Of(s.seen, pvariant, x), Flying(s, pvariant, x), s.subs.Of(pvariant);
    && Of(s.issued, pvariant, x) == done + fly
    && (x in d <==> Last(done) || Subscribes(fly) > 0)
    && (x in d ==> d[x].pendingSubs == Subscribes(fly))
    && (x in s.server.Of(pvariant) <==> Last(done + Of(s.acks, pvariant, x)))
  }

  /** No name was subscribed last. */
  ghost predicate Nobody(es: seq<Event>) {
    forall p, x :: !Last(Of(es, p, x))
  }

  /** A message comes while its name is subscribed, and a confirmation reports no subscription when there was none. */
  ghost predicate Timely(seen: seq<Event>, acks: seq<Event>, i: nat)
    requires i < |acks|
  {
    var e := acks[i];
    if e.kind == Message then Last(Of(seen + acks[..i], e.pvariant, e.name))
    else e.total == 0 <==> Nobody(seen + acks[..i + 1])
  }

  ghost predicate Inv(s: System) {
    && (forall p, x :: Agrees(s, p, x))
    && (forall i :: 0 <= i < |s.acks| ==> Timely(s.seen, s.acks, i))
    && (forall i :: 0 <= i < |s.queue| ==> s.queue[i].kind != Message)
    && (s.subs.subscribed <==> s.subs.channels != map[] || s.subs.patterns != map[])
  }

  // ----- Lists of events -----

  lemma {:induction false} OfConcat(a: seq<Event>, b: seq<Event>, pvariant: bool, x: bytes)
    ensures Of(a + b, pvariant, x) == Of(a, pvariant, x) + Of(b, pvariant, x)
  {
    hide One;
    if a == [] {
      assert a + b == b;
    } else {
      OfConcat(a[1..], b, pvariant, x);
      assert (a + b)[1..] == a[1..] + b;
    }
  }

  lemma OfMore(es: seq<Event>, e: Event, pvariant: bool, x: bytes)
    ensures Of(es + [e], pvariant, x) == Of(es, pvariant, x) + One(e, pvariant, x)
    ensures One(e, pvariant, x) == [] ==> Of(es + [e], pvariant, x) == Of(es, pvariant, x)
  {
    OfConcat(es, [e], pvariant, x);
    assert [e][1..] == [];
  }

  lemma {:induction false} SubscribesMore(es: seq<bool>, b: bool)
    ensures Subscribes(es + [b]) == Subscribes(es) + if b then 1 else 0
  {
    if es == [] {
      assert es + [b] == [b];
    } else {
      SubscribesMore(es[1..], b);
      assert (es + [b])[1..] == es[1..] + [b];
    }
  }

  // ----- Every step keeps the invariant -----

  lemma Elsewhere(s: System, s': System, e: Event, pvariant: bool, x: bytes)
    requires Agrees(s, pvariant, x) && (e.pvariant != pvariant || e.name != x)
    requires s'.seen == s.seen && s'.acks == s.acks && s'.server == s.server
    requires s'.issued == s.issued + [e] && s'.queue == s.queue + [e]
    requires x in s'.subs.Of(pvariant) <==> x in s.subs.Of(pvariant)
    requires x in s.subs.Of(pvariant) ==> s'.subs.Of(pvariant)[x] == s.subs.Of(pvariant)[x]
    ensures Agrees(s', pvariant, x)
  {
    hide Subscribes, Of;
    OfMore(s.issued, e, pvariant, x);
    OfMore(s.queue, e, pvariant, x);
  }

  lemma Sends(s: System, s': System, e: Event)
    requires Agrees(s, e.pvariant, e.name) && e.kind != Message
    requires s'.seen == s.seen && s'.acks == s.acks && s'.server == s.server
    requires s'.issued == s.issued + [e] && s'.queue == s.queue + [e]
    requires e.kind == Sub ==>
               && e.name in s'.subs.Of(e.pvariant)
               && s'.subs.Of(e.pvariant)[e.name].pendingSubs == 1 + Before(s.subs.Of(e.pvariant), e.name)
    requires e.kind == Unsub ==> s'.subs == s.subs
    ensures Agrees(s', e.pvariant, e.name)
  {
    hide Of, Subscribes, Last;
    var p, x := e.pvariant, e.name;
    var done, sent, waiting := Of(s.seen, p, x), Of(s.acks, p, x), Of(s.queue, p, x);
    OfMore(s.issued, e, p, x);
    OfMore(s.queue, e, p, x);
    SubscribesMore(sent + waiting, e.kind == Sub);
    assert sent + (waiting + [e.kind == Sub]) == sent + waiting + [e.kind == Sub];
    assert done + (sent + waiting + [e.kind == Sub]) == done + (sent + waiting) + [e.kind == Sub];
  }

  lemma SubscribeKeeps(s: System, s': System, e: Event, cb: Callback)
    requires Inv(s) && ClientSubscribes(s, s', e, cb)
    ensures Inv(s')
  {
    hide Agrees, Of, Timely;
    AddOne(s.subs.Of(e.pvariant), e.name, cb);
    forall p, x
      ensures Agrees(s', p, x)
    {
      if p == e.pvariant && x == e.name { Sends(s, s', e); } else { Elsewhere(s, s', e, p, x); }
    }
    assert e.name in s'.subs.Of(e.pvariant);
  }

  /** A name whose last command was a subscribe is in its dictionary, so that the flag is set. */
  lemma Known(s: System, pvariant: bool, x: bytes)
    requires Inv(s) && Last(Of(s.issued, pvariant, x))
    ensures x in s.subs.Of(pvariant) && s.subs.subscribed
  {
    hide Of, Timely, Subscribes;
    assert Agrees(s, pvariant, x);
    var fly := Flying(s, pvariant, x);
    if fly == [] {
      assert Of(s.seen, pvariant, x) + fly == Of(s.seen, pvariant, x);
    } else {
      LastSubscribes(fly);
    }
  }

  lemma LastSubscribes(es: seq<bool>)
    requires Last(es)
    ensures Subscribes(es) > 0
  {
    SubscribesMore(es[..|es| - 1], true);
    assert es == es[..|es| - 1] + [true];
  }

  lemma UnsubscribeKeeps(s: System, s': System, e: Event)
    requires Inv(s) && ClientUnsubscribes(s, s', e)
    ensures Inv(s')
  {
    hide Agrees, Of, Timely;
    if s.subs.subscribed {
      forall p, x
        ensures Agrees(s', p, x)
      {
        if p == e.pvariant && x == e.name { Sends(s, s', e); } else { Elsewhere(s, s', e, p, x); }
      }
    }
  }

  /** The lists of a name when a command moves from the queue to the confirmations. */
  lemma MovedLists(s: System, s': System, pvariant: bool, x: bytes)
    requires ServerHandles(s, s')
    ensures var one := One(s.queue[0], pvariant, x);
            && Of(s.queue, pvariant, x) == one + Of(s'.queue, pvariant, x)
            && Of(s'.acks, pvariant, x) == Of(s.acks, pvariant, x) + one
  {
    hide One;
    var e, e' := s.queue[0], s'.acks[|s.acks|];
    OfMore(s.acks, e', pvariant, x);
    SameOne(e, e', pvariant, x);
  }

  lemma Moves(s: System, s': System, pvariant: bool, x: bytes)
    requires Agrees(s, pvariant, x) && ServerHandles(s, s') && s.queue[0].kind != Message
    ensures Agrees(s', pvariant, x)
  {
    hide Subscribes, Of;
    MovedLists(s, s', pvariant, x);
    var e, one := s.queue[0], One(s.queue[0], pvariant, x);
    var done, sent, waiting := Of(s.seen, pvariant, x), Of(s.acks, pvariant, x), Of(s'.queue, pvariant, x);
    assert sent + one + waiting == sent + (one + waiting);
    if one == [] {
      assert sent + one == sent;
    } else {
      assert done + (sent + one) == done + sent + one;
    }
  }

  lemma SameOne(e: Event, e': Event, pvariant: bool, x: bytes)
    requires e' == e.(total := e'.total)
    ensures One(e, pvariant, x) == One(e', pvariant, x)
  {
  }

  lemma ServerKeeps(s: System, s': System)
    requires Inv(s) && ServerHandles(s, s')
    ensures Inv(s')
  {
    hide Agrees, Of, Last, Nobody;
    assert s.queue[0].kind != Message;
    forall p, x
      ensures Agrees(s', p, x)
    {
      Moves(s, s', p, x);
    }
    forall i | 0 <= i < |s'.acks|
      ensures Timely(s'.seen, s'.acks, i)
    {
      if i < |s.acks| {
        EarlierTimely(s.seen, s.acks, s'.acks, i);
      } else {
        assert s'.acks[..i + 1] == s'.acks && s'.acks[i].kind != Message;
        NobodyServed(s');
      }
    }
  }

  lemma EarlierTimely(seen: seq<Event>, acks: seq<Event>, acks': seq<Event>, i: nat)
    requires i < |acks| && acks <= acks' && Timely(seen, acks, i)
    ensures Timely(seen, acks', i)
  {
    hide Of, Last, Nobody;
    assert acks'[..i] == acks[..i] && acks'[..i + 1] == acks[..i + 1];
  }

  /** The server has no subscription exactly when the commands it has answered leave none. */
  lemma NobodyServed(s: System)
    requires forall p, x :: Agrees(s, p, x)
    ensures s.server.Total() == 0 <==> Nobody(s.seen + s.acks)
  {
    hide Of, Subscribes, Last;
    forall p, x
      ensures x in s.server.Of(p) <==> Last(Of(s.seen + s.acks, p, x))
    {
      assert Agrees(s, p, x);
      OfConcat(s.seen, s.acks, p, x);
    }
    if Nobody(s.seen + s.acks) {
      forall x
        ensures x !in s.server.channels && x !in s.server.patterns
      {
        assert !Last(Of(s.seen + s.acks, false, x)) && !Last(Of(s.seen + s.acks, true, x));
        assert x !in s.server.Of(false) && x !in s.server.Of(true);
      }
      assert s.server.channels == {} && s.server.patterns == {};
    }
    if s.server.Total() == 0 {
      assert s.server.channels == {} && s.server.patterns == {};
    }
  }

  lemma PublishKeeps(s: System, s': System, e: Event)
    requires Inv(s) && ServerPublishes(s, s', e)
    ensures Inv(s')
  {
    hide Of, Last, Subscribes, Nobody;
    forall p, x
      ensures Agrees(s', p, x)
    {
      assert Agrees(s, p, x);
      OfMore(s.acks, e, p, x);
    }
    forall i | 0 <= i < |s'.acks|
      ensures Timely(s'.seen, s'.acks, i)
    {
      if i < |s.acks| {
        EarlierTimely(s.seen, s.acks, s'.acks, i);
      } else {
        assert Agrees(s, e.pvariant, e.name) && s'.acks[..i] == s.acks;
        OfConcat(s.seen, s.acks, e.pvariant, e.name);
      }
    }
  }

  // ----- Receiving -----

  lemma WordFacts(kind: Kind)
    ensures SameWord(Word(kind), SUBSCRIBE) <==> kind == Sub
    ensures SameWord(Word(kind), UNSUBSCRIBE) <==> kind == Unsub
    ensures NUL !in Word(kind) && !PVariant(Word(kind)) && Word(kind) != []
  {
    match kind {
      case Sub => assert |SUBSCRIBE| == 9;
      case Unsub => assert |UNSUBSCRIBE| == 11;
      case Message => assert |MESSAGE| == 7;
    }
  }

  lemma TitleFacts(kind: Kind, pvariant: bool)
    ensures var t := Title(kind, pvariant);
            Text(t) == t && PVariant(t) == pvariant && Stem(t) == Word(kind)
    ensures SameWord(Word(kind), SUBSCRIBE) <==> kind == Sub
    ensures SameWord(Word(kind), UNSUBSCRIBE) <==> kind == Unsub
  {
    hide Word, SameWord, Text;
    WordFacts(kind);
    PlainText(Title(kind, pvariant));
    assert pvariant ==> Title(kind, pvariant)[1..] == Word(kind);
  }

  /**
   The commands of the two client steps are the ones `__redisAsyncCommand` takes for subscribing and
   unsubscribing.
   */
  lemma TitlesClassify(pvariant: bool, x: bytes)
    ensures Classify([Title(Sub, pvariant), x]) == Subscribe && PVariant(Title(Sub, pvariant)) == pvariant
    ensures Classify([Title(Unsub, pvariant), x]) == Unsubscribe && PVariant(Title(Unsub, pvariant)) == pvariant
  {
    hide Announces, Word, Title, Text;
    TitleFacts(Sub, pvariant);
    TitleFacts(Unsub, pvariant);
    WordsAnnounce();
  }

  lemma WordsAnnounce()
    ensures Announces(Word(Sub), SUBSCRIBE) && Announces(Word(Unsub), UNSUBSCRIBE) && !Announces(Word(Unsub), SUBSCRIBE)
  {
    assert (SUBSCRIBE + CRLF)[..11] == SUBSCRIBE + CRLF;
    assert (UNSUBSCRIBE + CRLF)[..13] == UNSUBSCRIBE + CRLF;
    assert (UNSUBSCRIBE + CRLF)[..11][0] == 117 && (SUBSCRIBE + CRLF)[0] == 115;
  }

  lemma {:induction false} PlainText(s: bytes)
    requires NUL !in s
    ensures Text(s) == s
  {
    if s != [] { PlainText(s[1..]); }
  }

  /** What one message does to the dictionary of its name. */
  function After(d: map<bytes, Callback>, kind: Kind, x: bytes): map<bytes, Callback> {
    if x !in d then d
    else match kind
      case Sub => d[x := d[x].(pendingSubs := d[x].pendingSubs - 1)]
      case Unsub => if d[x].pendingSubs == 0 then d - {x} else d
      case Message => d
  }

  /** The callback registered for the name of a message, as it is handed out. */
  function Meant(d: map<bytes, Callback>, e: Event): Callback
    requires e.name in d
  {
    if e.kind == Sub then d[e.name].(pendingSubs := d[e.name].pendingSubs - 1) else d[e.name]
  }

  /** One message: only one for a name with an entry does anything, and only then a callback is found. */
  lemma Handling(subs: Subs, e: Event, cb: Callback)
    ensures var d := subs.Of(e.pvariant);
            var left := subs.With(e.pvariant, After(d, e.kind, e.name));
            var none := left.channels == map[] && left.patterns == map[];
            var clear := e.name in d && e.kind == Unsub && e.total == 0 && none;
            && Handle(subs, Push(e), cb).Handled?
            && Handle(subs, Push(e), cb).subs == (if clear then left.(subscribed := false) else left)
            && Handle(subs, Push(e), cb).cb == if e.name in d then Meant(d, e) else cb
  {
    hide Text, Title, Word, PVariant, Stem, SameWord;
    TitleFacts(e.kind, e.pvariant);
  }

  lemma FirstList(es: seq<Event>, pvariant: bool, x: bytes)
    requires es != []
    ensures Of(es, pvariant, x) == One(es[0], pvariant, x) + Of(es[1..], pvariant, x)
    ensures Of([], pvariant, x) == []
    ensures Of(es, pvariant, x) + [] == Of(es, pvariant, x)
  {
  }

  /** The lists of a name when the first message is taken. */
  lemma TakenLists(s: System, s': System, e: Event, pvariant: bool, x: bytes)
    requires s.acks == [e] + s'.acks && s'.seen == s.seen + [e]
    ensures var one := One(e, pvariant, x);
            && Of(s.acks, pvariant, x) == one + Of(s'.acks, pvariant, x)
            && Of(s'.seen, pvariant, x) == Of(s.seen, pvariant, x) + one
  {
    hide One;
    OfMore(s.seen, e, pvariant, x);
    FirstList(s.acks, pvariant, x);
    assert s.acks[1..] == s'.acks;
  }

  /** Taking one message, as far as one name goes. */
  lemma Takes(s: System, s': System, e: Event, pvariant: bool, x: bytes)
    requires Agrees(s, pvariant, x) && s.acks == [e] + s'.acks && s'.seen == s.seen + [e]
    requires s'.issued == s.issued && s'.queue == s.queue && s'.server == s.server
    requires e.pvariant == pvariant && e.name == x ==> s'.subs.Of(pvariant) == After(s.subs.Of(pvariant), e.kind, x)
    requires (e.pvariant != pvariant || e.name != x) ==>
               && (x in s'.subs.Of(pvariant) <==> x in s.subs.Of(pvariant))
               && (x in s.subs.Of(pvariant) ==> s'.subs.Of(pvariant)[x] == s.subs.Of(pvariant)[x])
    ensures Agrees(s', pvariant, x)
  {
    hide Of, Subscribes;
    TakenLists(s, s', e, pvariant, x);
    var one := One(e, pvariant, x);
    var done, sent, waiting := Of(s.seen, pvariant, x), Of(s'.acks, pvariant, x), Of(s.queue, pvariant, x);
    assert done + ((one + sent) + waiting) == (done + one) + (sent + waiting);
    assert done + (one + sent) == (done + one) + sent;
    if one == [] {
      assert one + sent == sent && done + one == done;
    } else {
      assert (one + sent) + waiting == one + (sent + waiting);
      SubscribesFirst(one[0], sent + waiting);
    }
  }

  lemma SubscribesFirst(b: bool, es: seq<bool>)
    ensures Subscribes([b] + es) == Subscribes(es) + if b then 1 else 0
  {
    assert ([b] + es)[1..] == es;
  }

  /** When both dictionaries are empty the commands confirmed, those in flight and the server leave no subscription. */
  lemma Settled(s: System)
    requires forall p, x :: Agrees(s, p, x)
    requires s.subs.channels == map[] && s.subs.patterns == map[]
    ensures Nobody(s.seen) && (forall p, x :: Subscribes(Flying(s, p, x)) == 0) && s.server.Total() == 0
  {
    hide Of, Subscribes, Last;
    forall p, x
      ensures !Last(Of(s.seen, p, x)) && Subscribes(Flying(s, p, x)) == 0 && x !in s.server.Of(p)
    {
      assert Agrees(s, p, x);
      NotServed(s, p, x);
    }
    forall x
      ensures x !in s.server.channels && x !in s.server.patterns
    {
      assert x !in s.server.Of(false) && x !in s.server.Of(true);
    }
    assert s.server.channels == {} && s.server.patterns == {};
  }

  lemma ReceiveKeeps(s: System, s': System, cb: Callback)
    requires Inv(s) && ClientReceives(s, s', cb)
    ensures Inv(s')
  {
    hide Of, Handle, Push, Agrees, Timely, Nobody;
    var e := s.acks[0];
    Handling(s.subs, e, cb);
    assert s.acks == [e] + s'.acks;
    forall p, x
      ensures Agrees(s', p, x)
    {
      Takes(s, s', e, p, x);
    }
    forall i | 0 <= i < |s'.acks|
      ensures Timely(s'.seen, s'.acks, i)
    {
      LaterTimely(s.seen, s.acks, i);
    }
    if s'.subs.channels == map[] && s'.subs.patterns == map[] {
      Settled(s');
      FirstTotal(s.seen, s.acks);
    }
  }

  lemma LaterTimely(seen: seq<Event>, acks: seq<Event>, i: nat)
    requires i + 1 < |acks| && Timely(seen, acks, i + 1)
    ensures Timely(seen + [acks[0]], acks[1..], i)
  {
    hide Of, Last, Nobody;
    assert seen + [acks[0]] + acks[1..][..i] == seen + acks[..i + 1];
    assert seen + [acks[0]] + acks[1..][..i + 1] == seen + acks[..i + 2];
  }

  /** The confirmation that empties the dictionaries reports no subscriptions. */
  lemma FirstTotal(seen: seq<Event>, acks: seq<Event>)
    requires acks != [] && Timely(seen, acks, 0)
    ensures acks[0].kind != Message ==> (acks[0].total == 0 <==> Nobody(seen + [acks[0]]))
  {
    hide Of, Last, Nobody;
    assert acks[..1] == [acks[0]];
  }

  // ----- Every run -----

  lemma StepKeeps(s: System, s': System)
    requires Inv(s) && Step(s, s')
    ensures Inv(s')
  {
    hide Inv, ClientSubscribes, ClientUnsubscribes, ServerHandles, ServerPublishes, ClientReceives;
    if e, cb :| ClientSubscribes(s, s', e, cb) {
      SubscribeKeeps(s, s', e, cb);
    } else if e :| ClientUnsubscribes(s, s', e) {
      UnsubscribeKeeps(s, s', e);
    } else if ServerHandles(s, s') {
      ServerKeeps(s, s');
    } else if e :| ServerPublishes(s, s', e) {
      PublishKeeps(s, s', e);
    } else {
      var cb :| ClientReceives(s, s', cb);
      ReceiveKeeps(s, s', cb);
    }
  }

  ghost predicate Run(states: seq<System>) {
    states != [] && states[0] == START && forall i :: 0 <= i < |states| - 1 ==> Step(states[i], states[i + 1])
  }

  lemma {:induction false} RunKeeps(states: seq<System>, n: nat)
    requires Run(states) && n < |states|
    ensures Inv(states[n])
  {
    hide Step, Inv;
    if n == 0 {
      Begins();
    } else {
      RunKeeps(states, n - 1);
      StepKeeps(states[n - 1], states[n]);
    }
  }

  lemma Begins()
    ensures Inv(START)
  {
  }

  /**
   In every state of every run: the counter of a name is the number of its subscribes not yet confirmed, and a name
   without an entry has no subscribe in flight and was not confirmed as subscribed last, so that no entry was dropped
   too early.
   */
  lemma PendingCounts(states: seq<System>, n: nat, pvariant: bool, x: bytes)
    requires Run(states) && n < |states|
    ensures var s := states[n];
            var pending := Subscribes(Flying(s, pvariant, x));
            if x in s.subs.Of(pvariant) then s.subs.Of(pvariant)[x].pendingSubs == pending
            else pending == 0 && !Last(Of(s.seen, pvariant, x)) && x !in s.server.Of(pvariant)
  {
    hide Run, Of, Subscribes, Timely;
    RunKeeps(states, n);
    var s := states[n];
    assert Agrees(s, pvariant, x);
    if x !in s.subs.Of(pvariant) { NotServed(s, pvariant, x); }
  }

  lemma NotServed(s: System, pvariant: bool, x: bytes)
    requires Agrees(s, pvariant, x) && x !in s.subs.Of(pvariant)
    ensures x !in s.server.Of(pvariant)
  {
    hide Of, Subscribes;
    var done, sent, waiting := Of(s.seen, pvariant, x), Of(s.acks, pvariant, x), Of(s.queue, pvariant, x);
    if sent == [] {
      assert done + sent == done;
    } else if Last(sent) {
      LastSubscribes(sent);
      SubscribesBoth(sent, waiting);
    }
  }

  lemma {:induction false} SubscribesBoth(a: seq<bool>, b: seq<bool>)
    ensures Subscribes(a + b) == Subscribes(a) + Subscribes(b)
  {
    if a == [] {
      assert a + b == b;
    } else {
      SubscribesBoth(a[1..], b);
      assert (a + b)[1..] == a[1..] + b;
    }
  }

  /** Some name was confirmed as subscribed last, or has a subscribe in flight. */
  ghost predicate Remains(s: System) {
    exists p, x :: Last(Of(s.seen, p, x)) || Subscribes(Flying(s, p, x)) > 0
  }

  lemma RemainsIff(s: System)
    requires Inv(s)
    ensures s.subs.subscribed <==> Remains(s)
  {
    hide Of, Subscribes, Last, Timely;
    if s.subs.subscribed {
      var p := s.subs.patterns != map[];
      var d: map<bytes, Callback> := s.subs.Of(p);
      assert d != map[];
      var x :| x in d;
      assert Agrees(s, p, x);
    } else {
      Settled(s);
    }
  }

  /**
   The assertion that the flag is set fails for the next message exactly when no name was confirmed as subscribed last
   or has a subscribe in flight. That message is then the confirmation of an unsubscribe. Nothing else fails.
   */
  lemma FailsIff(states: seq<System>, n: nat, cb: Callback)
    requires Run(states) && n < |states| && states[n].acks != []
    ensures var s := states[n];
            && (s.subs.subscribed <==> Remains(s))
            && (!Remains(s) ==> s.acks[0].kind == Unsub)
            && Handle(s.subs, Push(s.acks[0]), cb).Handled?
  {
    hide Run, Inv, Handle, Push, Remains;
    RunKeeps(states, n);
    RemainsIff(states[n]);
    if states[n].acks[0].kind != Unsub { Awaited(states[n]); }
    Handling(states[n].subs, states[n].acks[0], cb);
  }

  /** A message that is not the confirmation of an unsubscribe finds the flag set and an entry for its name. */
  lemma Awaited(s: System)
    requires Inv(s) && s.acks != [] && s.acks[0].kind != Unsub
    ensures s.subs.subscribed && s.acks[0].name in s.subs.Of(s.acks[0].pvariant)
  {
    hide Of, Subscribes, Nobody;
    var e := s.acks[0];
    assert Timely(s.seen, s.acks, 0) && s.seen + s.acks[..0] == s.seen;
    assert Agrees(s, e.pvariant, e.name);
    if e.kind == Sub {
      FirstList(s.acks, e.pvariant, e.name);
      var later := Of(s.acks[1..], e.pvariant, e.name) + Of(s.queue, e.pvariant, e.name);
      assert Flying(s, e.pvariant, e.name) == [true] + later;
      SubscribesFirst(true, later);
    }
  }

  // ----- With the discipline -----

  /** No unsubscribe follows another one, or comes first. */
  ghost predicate Alternates(es: seq<bool>) {
    forall i :: 0 <= i < |es| && !es[i] ==> i > 0 && es[i - 1]
  }

  /** A name is unsubscribed only when the last command for it was a subscribe. */
  ghost predicate Disciplined(issued: seq<Event>) {
    forall p, x :: Alternates(Of(issued, p, x))
  }

  /** Then what is in flight for a name that was not confirmed as subscribed last begins with a subscribe. */
  lemma FirstInFlight(done: seq<bool>, fly: seq<bool>)
    requires Alternates(done + fly) && !Last(done)
    ensures fly == [] || Subscribes(fly) > 0
  {
    var all := done + fly;
    if fly != [] {
      assert all[|done|] == fly[0];
      if done != [] { assert all[|done| - 1] == done[|done| - 1]; }
    }
  }

  /** The confirmation of an unsubscribe finds an entry too. */
  lemma AwaitedUnsubscribe(s: System)
    requires Inv(s) && s.acks != [] && Alternates(Of(s.issued, s.acks[0].pvariant, s.acks[0].name))
    ensures s.subs.subscribed && s.acks[0].name in s.subs.Of(s.acks[0].pvariant)
  {
    hide Of, Subscribes, Nobody, Timely, Alternates;
    var e := s.acks[0];
    if e.kind == Message {
      Awaited(s);
    } else {
      assert Agrees(s, e.pvariant, e.name);
      FirstList(s.acks, e.pvariant, e.name);
      if !Last(Of(s.seen, e.pvariant, e.name)) {
        FirstInFlight(Of(s.seen, e.pvariant, e.name), Flying(s, e.pvariant, e.name));
      }
    }
  }

  /**
   After disciplined commands nothing is in flight for a name without an entry, the flag is set exactly while there is
   an entry, and every waiting message finds the flag set and its entry.
   */
  lemma AssertionsHold(states: seq<System>, n: nat, cb: Callback)
    requires Run(states) && n < |states| && Disciplined(states[n].issued)
    ensures var s := states[n];
            && (forall p, x :: x !in s.subs.Of(p) ==> Flying(s, p, x) == [])
            && (s.subs.subscribed <==> s.subs.channels != map[] || s.subs.patterns != map[])
            && (s.acks != [] ==>
                  && s.subs.subscribed && Handle(s.subs, Push(s.acks[0]), cb).Handled?
                  && s.acks[0].name in s.subs.Of(s.acks[0].pvariant))
  {
    hide Run, Timely, Handle, Push, Of, Subscribes, Alternates;
    RunKeeps(states, n);
    var s := states[n];
    forall p, x | x !in s.subs.Of(p)
      ensures Flying(s, p, x) == []
    {
      assert Agrees(s, p, x);
      FirstInFlight(Of(s.seen, p, x), Flying(s, p, x));
    }
    if s.acks != [] {
      AwaitedUnsubscribe(s);
      Handling(s.subs, s.acks[0], cb);
    }
  }

  /** When nothing is in flight the dictionaries are the server's subscription sets. */
  lemma QuietAgreement(states: seq<System>, n: nat)
    requires Run(states) && n < |states| && states[n].queue == [] && states[n].acks == []
    ensures states[n].subs.channels.Keys == states[n].server.channels
    ensures states[n].subs.patterns.Keys == states[n].server.patterns
    ensures states[n].subs.subscribed <==> states[n].server.Total() > 0
  {
    hide Run, Agrees, Timely;
    RunKeeps(states, n);
    var s := states[n];
    forall x
      ensures x in s.subs.channels <==> x in s.server.channels
      ensures x in s.subs.patterns <==> x in s.server.patterns
    {
      QuietName(s, false, x);
      QuietName(s, true, x);
    }
    assert s.subs.channels.Keys == s.server.channels && s.subs.patterns.Keys == s.server.patterns;
  }

  lemma QuietName(s: System, pvariant: bool, x: bytes)
    requires Agrees(s, pvariant, x) && s.queue == [] && s.acks == []
    ensures x in s.subs.Of(pvariant) <==> x in s.server.Of(pvariant)
  {
    assert Of(s.seen, pvariant, x) + [] == Of(s.seen, pvariant, x);
  }

  // ----- Without the discipline -----

  /**
   SUBSCRIBE x, UNSUBSCRIBE x, UNSUBSCRIBE x: the first confirmation of an unsubscribe clears the flag, and the
   second one then meets the assertion that the flag is set.
   */
  lemma RedundantUnsubscribe(x: bytes, cb: Callback) returns (s: seq<System>)
    requires cb.pendingSubs == 1
    ensures Run(s) && |s| == 9
    ensures s[8].issued == [Command(Sub, false, x), Command(Unsub, false, x), Command(Unsub, false, x)]
    ensures s[8].acks != [] && !s[8].subs.subscribed
  {
    hide Handle, Push, Step;
    var sub, unsub := Command(Sub, false, x), Command(Unsub, false, x);
    var none: map<bytes, Callback> := map[];
    var all, live := [sub, unsub, unsub], Subs(none[x := cb], none, true);
    var nobody: set<bytes> := {};
    var s1 := System(live, [sub], [sub], Server(nobody, nobody), [], []);
    var s2 := System(live, [sub, unsub], [sub, unsub], Server(nobody, nobody), [], []);
    var s3 := System(live, all, all, Server(nobody, nobody), [], []);
    var s4 := System(live, all, [unsub, unsub], Server({x}, nobody), [sub.(total := 1)], []);
    var s5 := System(live, all, [unsub], Server(nobody, nobody), [sub.(total := 1), unsub], []);
    var s6 := System(live, all, [], Server(nobody, nobody), [sub.(total := 1), unsub, unsub], []);
    FirstSubscribe(s1, sub, cb);
    Unsubscribes(s1, s2, unsub);
    Unsubscribes(s2, s3, unsub);
    Handles(s3, s4);
    Handles(s4, s5);
    Handles(s5, s6);
    var s7, s8 := TwoConfirmations(s6, x, cb);
    s := [START, s1, s2, s3, s4, s5, s6, s7, s8];
  }

  /** The client takes the confirmations of the subscribe and of the first unsubscribe. */
  lemma TwoConfirmations(s: System, x: bytes, cb: Callback) returns (s': System, s'': System)
    requires cb.pendingSubs == 1 && s.subs == Subs(NO_SUBS.channels[x := cb], NO_SUBS.patterns, true) && |s.acks| == 3
    requires s.acks[0] == Command(Sub, false, x).(total := 1) && s.acks[1] == s.acks[2] == Command(Unsub, false, x)
    ensures Step(s, s') && Step(s', s'') && s''.issued == s.issued && s''.acks != [] && !s''.subs.subscribed
  {
    hide Handle, Push, Step;
    var zero := NO_SUBS.channels[x := cb.(pendingSubs := 0)];
    s' := s.(subs := Subs(zero, NO_SUBS.patterns, true), acks := s.acks[1..], seen := s.seen + [s.acks[0]]);
    s'' := s'.(subs := NO_SUBS, acks := s'.acks[1..], seen := s'.seen + [s'.acks[0]]);
    Handling(s.subs, s.acks[0], cb);
    assert s.subs.channels[x := cb.(pendingSubs := 0)] == zero;
    Receives(s, s', cb);
    Handling(s'.subs, s'.acks[0], cb);
    assert zero - {x} == NO_SUBS.channels;
    Receives(s', s'', cb);
  }

  lemma FirstSubscribe(s': System, e: Event, cb: Callback)
    requires e.kind == Sub && !e.pvariant && cb.pendingSubs == 1
    requires s' == START.(subs := Subs(NO_SUBS.channels[e.name := cb], NO_SUBS.patterns, true),
                          issued := [e], queue := [e])
    ensures Step(START, s')
  {
    AddOne(NO_SUBS.channels, e.name, cb);
    assert cb.(pendingSubs := 1) == cb;
    assert ClientSubscribes(START, s', e, cb);
  }

  lemma Unsubscribes(s: System, s': System, e: Event)
    requires ClientUnsubscribes(s, s', e)
    ensures Step(s, s')
  {
  }

  lemma Handles(s: System, s': System)
    requires ServerHandles(s, s')
    ensures Step(s, s')
  {
  }

  lemma Receives(s: System, s': System, cb: Callback)
    requires ClientReceives(s, s', cb)
    ensures Step(s, s')
  {
  }
}
