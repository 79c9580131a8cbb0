/**
 What async.c does with a context, on values: the state of a context, what a call of the program, a reply, a teardown
 and an event make of it, and the state after a whole run.
 */
module Machine {
  import opened Bytes
  import opened Callbacks
  import opened Deliveries
  import opened Formatter
  import opened Resp
  import opened Subscriptions
  import opened Tracking
  import Pipeline
  import StreamReader
  import Streams

  const REDIS_ERR_OTHER := 2
  const REDIS_ERR_EOF := 3

  /** A command that can be formatted. */
  type Request = argv: seq<bytes> | argv != [] && Sizes(argv) witness [[0]]

  /** What the program may do with a context: issue a command, disconnect, free. */
  datatype Action = Issue(argv: Request, fn: bool, privdata: nat) | Quit | Release

  /** The program, by what it does in its n-th callback, and what it has set before the first event. */
  datatype Setup = Setup(user: nat -> seq<Action>, onConnect: bool, onDisconnect: bool, hook: bool)

  /** Where a callback whose turn it is was: in `ac->replies`, in `ac->sub.invalid`, or in a table or a variable. */
  datatype Origin = FromReplies | FromInvalid | Elsewhere

  /** A callback whose turn it is gets a reply or NULL. */
  datatype Handout = Handout(from: Origin, d: Delivery)

  /** A call of the program: in its callback of this number or between events, and whether the flag was set then. */
  datatype Ask = Ask(turn: Option<nat>, action: Action, subscribed: bool)

  /** What waits in a context, and what it has sent and taken in. */
  datatype Books = Books(
    replies: seq<Callback>,
    invalid: seq<Callback>,
    subs: Subs,
    monitoring: bool,
    sent: seq<seq<bytes>>,     // the commands accepted
    obuf: bytes,
    accepted: seq<Callback>,   // the callbacks that entered replies
    entered: seq<Callback>,    // and those that entered invalid
    log: seq<Entry>)           // commands, replies, and steps of the server

  datatype World = World(
    b: Books,
    connected: bool,
    disconnecting: bool,
    freeing: bool,
    hook: bool,                // the event library's cleanup hook is set
    freed: bool,
    aborted: bool,             // an assertion about a reply from the server failed
    err: nat,
    wire: bytes,               // the bytes the socket has taken
    unread: bytes,             // what the reader holds of a reply that is not complete
    asked: seq<Ask>,           // every call of the program
    given: seq<Handout>,       // every callback whose turn it was
    calls: seq<Delivery>,      // the functions called
    cleanups: nat,
    greetings: seq<bool>,      // the statuses given to the connect callback; true is REDIS_OK
    notices: seq<bool>,        // those given to the disconnect callback
    orderly: bool)             // the teardown went through both tables, each entry once

  const EMPTY := Books([], [], NO_SUBS, false, [], [], [], [], [])

  function Start(s: Setup): World {
    World(EMPTY, false, false, false, s.hook, false, false, 0, [], [], [], [], [], 0, [], [], false)
  }

  predicate Over(w: World) {
    w.freed || w.aborted
  }

  /** Commands are refused. */
  predicate Closing(w: World) {
    w.disconnecting || w.freeing
  }

  // ----- Calls of the program -----

  predicate Accepts(w: World, argv: Request) {
    !Closing(w) && (Classify(argv) == Unsubscribe ==> w.b.subs.subscribed)
  }

  /** What a command registers: names with a callback, nothing, or a callback in one of the queues. */
  function Filed(b: Books, argv: Request, cb: Callback): Books {
    match Classify(argv)
    case Subscribe => b.(subs := Subscribed(b.subs, argv, cb))
    case Unsubscribe => b
    case Monitor => Waiting(b, cb).(monitoring := true)
    case Regular => if b.subs.subscribed then Unfit(b, cb) else Waiting(b, cb)
  }

  lemma FiledAs(b: Books, argv: Request, cb: Callback)
    ensures var f := Filed(b, argv, cb);
            && f == b.(replies := f.replies, invalid := f.invalid, subs := f.subs, monitoring := f.monitoring,
                       accepted := f.accepted, entered := f.entered)
            && f.subs == (if Classify(argv) == Subscribe then Subscribed(b.subs, argv, cb) else b.subs)
            && f.monitoring == (b.monitoring || Classify(argv) == Monitor)
            && f.replies == b.replies + (if Queues(b, argv) then [cb] else [])
            && f.invalid == b.invalid + (if Classify(argv) == Regular && b.subs.subscribed then [cb] else [])
            && f.accepted == b.accepted + (if Queues(b, argv) then [cb] else [])
            && f.entered == b.entered + (if Classify(argv) == Regular && b.subs.subscribed then [cb] else [])
  {
    hide Classify, Subscribed;
  }

  /** The callback of the command waits in the queue of replies. */
  predicate Queues(b: Books, argv: Request) {
    Classify(argv) == Monitor || (Classify(argv) == Regular && !b.subs.subscribed)
  }

  /** A callback enters the queue of replies. */
  function Waiting(b: Books, cb: Callback): Books {
    b.(replies := b.replies + [cb], accepted := b.accepted + [cb])
  }

  /** A callback of a command that is not meant for a subscribed context enters the queue of invalid commands. */
  function Unfit(b: Books, cb: Callback): Books {
    b.(invalid := b.invalid + [cb], entered := b.entered + [cb])
  }

  /** A command is appended to the output buffer. */
  function Appended(b: Books, argv: Request, cb: Callback): Books {
    b.(obuf := b.obuf + Wire(argv), sent := b.sent + [argv], log := b.log + [Sent(argv, cb)])
  }

  function Entered(b: Books, argv: Request, cb: Callback): Books {
    Appended(Filed(b, argv, cb), argv, cb)
  }

  function Issued(w: World, argv: Request, cb: Callback): World {
    if Accepts(w, argv) then w.(b := Entered(w.b, argv, cb)) else w
  }

  /** The callback of a command has gone where it belongs, and nowhere else. */
  predicate Enlisted(b: Books, b': Books, argv: Request, cb: Callback) {
    var verb := Classify(argv);
    && b' == b.(replies := b'.replies, invalid := b'.invalid, subs := b'.subs, monitoring := b'.monitoring,
                accepted := b'.accepted, entered := b'.entered, sent := b'.sent, obuf := b'.obuf, log := b'.log)
    && (if verb == Monitor || (verb == Regular && !b.subs.subscribed)
        then b'.replies == b.replies + [cb] && b'.accepted == b.accepted + [cb]
        else b'.replies == b.replies && b'.accepted == b.accepted)
    && (if verb == Regular && b.subs.subscribed
        then b'.invalid == b.invalid + [cb] && b'.entered == b.entered + [cb]
        else b'.invalid == b.invalid && b'.entered == b.entered)
    && b'.subs == (if verb == Subscribe then Subscribed(b.subs, argv, cb) else b.subs)
    && b'.monitoring == (b.monitoring || verb == Monitor)
  }

  /**
   A command is accepted unless the context is being disconnected or freed, or it is an unsubscribe without the flag;
   then it is sent, and its callback waits or is registered. Otherwise nothing happens.
   */
  lemma IssuedAs(w: World, argv: Request, cb: Callback)
    ensures Accepts(w, argv) <==>
            !w.disconnecting && !w.freeing && (Classify(argv) == Unsubscribe ==> w.b.subs.subscribed)
    ensures !Accepts(w, argv) ==> Issued(w, argv, cb) == w
    ensures Accepts(w, argv) ==>
              var v := Issued(w, argv, cb);
              && v == w.(b := v.b) && Enlisted(w.b, v.b, argv, cb)
              && v.b.sent == w.b.sent + [argv] && v.b.obuf == w.b.obuf + Wire(argv)
              && v.b.log == w.b.log + [Sent(argv, cb)]
  {
    hide Classify, Subscribed, Wire, Sizes;
  }

  /** The program makes a call. */
  function Noted(w: World, turn: Option<nat>, a: Action): World {
    w.(asked := w.asked + [Ask(turn, a, w.b.subs.subscribed)])
  }

  /** What a call of the program from a callback does at once. */
  function Acted(w: World, a: Action): World {
    match a
    case Issue(argv, fn, privdata) => Issued(w, argv, Callback(fn, privdata, 1))
    case Quit => w.(disconnecting := true)
    case Release => w.(freeing := true)
  }

  function Made(w: World, turn: Option<nat>, a: Action): World {
    Acted(Noted(w, turn, a), a)
  }

  /** The calls of the program in its callback of this number. */
  function Script(w: World, turn: nat, script: seq<Action>): World {
    if script == [] then w else Made(Script(w, turn, script[..|script| - 1]), Some(turn), script[|script| - 1])
  }

  /** It is the turn of a callback: its function, unless it is NULL, is called and does what the program says. */
  function Ran(s: Setup, w: World, from: Origin, d: Delivery): World {
    var v := w.(given := w.given + [Handout(from, d)]);
    if d.cb.fn then Script(v.(calls := v.calls + [d]), |v.calls|, s.user(|v.calls|)) else v
  }

  // ----- Teardown -----

  /** The orders in which the iterators go through the tables of channels and patterns. */
  datatype Order = Order(channels: seq<bytes>, patterns: seq<bytes>) {
    function Of(pvariant: bool): seq<bytes> {
      if pvariant then patterns else channels
    }
  }

  /** n turns of the loop over the waiting callbacks. */
  function Drained(s: Setup, w: World, n: nat): World {
    if n == 0 then w
    else
      var v := Drained(s, w, n - 1);
      if v.b.replies == [] then v
      else Ran(s, v.(b := v.b.(replies := v.b.replies[1..])), FromReplies, Delivery(v.b.replies[0], None))
  }

  /** n turns of the loop over the callbacks of invalid commands. */
  function Dropped(s: Setup, w: World, n: nat): World {
    if n == 0 then w
    else
      var v := Dropped(s, w, n - 1);
      if v.b.invalid == [] then v
      else Ran(s, v.(b := v.b.(invalid := v.b.invalid[1..])), FromInvalid, Delivery(v.b.invalid[0], None))
  }

  function EntryOf(d: map<bytes, Callback>, k: bytes): Callback {
    if k in d then d[k] else NOBODY
  }

  /** n turns of the loop over a table. */
  function Swept(s: Setup, w: World, pvariant: bool, ks: seq<bytes>, n: nat): World
    requires n <= |ks|
  {
    if n == 0 then w
    else
      var v := Swept(s, w, pvariant, ks, n - 1);
      Ran(s, v, Elsewhere, Delivery(EntryOf(v.b.subs.Of(pvariant), ks[n - 1]), None))
  }

  function Unregistered(w: World, pvariant: bool): World {
    w.(b := w.b.(subs := w.b.subs.With(pvariant, map[])))
  }

  /** One table: each of its callbacks is run, and it is released. */
  function TableDown(s: Setup, w: World, pvariant: bool, o: Order): World {
    Unregistered(Swept(s, w, pvariant, o.Of(pvariant), |o.Of(pvariant)|), pvariant)
  }

  /** The four loops of `__redisAsyncFree`. */
  function Emptied(s: Setup, w: World, o: Order): World {
    var a := Drained(s, w, |w.b.replies|);
    var b := Dropped(s, a, |a.b.invalid|);
    TableDown(s, TableDown(s, b, false, o), true, o)
  }

  /** `_EL_CLEANUP`. */
  function Cleaned(w: World): World {
    w.(hook := false, cleanups := w.cleanups + if w.hook then 1 else 0)
  }

  /** The end: the disconnect callback is told, and the context is freed. */
  function Ended(s: Setup, w: World): World {
    w.(freed := true,
       notices := w.notices + if s.onDisconnect && w.connected then [w.freeing || w.err == 0] else [])
  }

  /** The orders go through the tables, each entry once. */
  ghost predicate Orderly(subs: Subs, o: Order) {
    Iterates(o.channels, subs.channels) && Iterates(o.patterns, subs.patterns)
  }

  /** `__redisAsyncFree`. */
  ghost function Torn(s: Setup, w: World, o: Order): World {
    Ended(s, Cleaned(Emptied(s, w, o))).(orderly := Orderly(w.b.subs, o))
  }

  /** `__redisAsyncDisconnect`. */
  ghost function Disconnected(s: Setup, w: World, o: Order): World {
    Torn(s, Cleaned(if w.err == 0 then w else w.(disconnecting := true)), o)
  }

  lemma Gone(s: Setup, w: World, o: Order)
    ensures Torn(s, w, o).freed && Disconnected(s, w, o).freed
  {
    hide Emptied;
  }

  // ----- Replies -----

  /** The loop over the replies: the state, the callback that its variable holds, and whether it has returned. */
  datatype Progress = Progress(w: World, cb: Callback, stop: bool)

  function Heeded(w: World, reply: Reply): World {
    w.(b := w.b.(log := w.b.log + [Took(reply)]))
  }

  /** A callback takes a reply; a free that it requested follows. */
  ghost function Handed(s: Setup, w: World, from: Origin, cb: Callback, reply: Reply, o: Order): Progress {
    var v := Ran(s, w, from, Delivery(cb, Some(reply)));
    if cb.fn && v.freeing then Progress(Torn(s, v, o), cb, true) else Progress(v, cb, false)
  }

  /** An assertion fails, and nothing of the context matters any more. */
  function Aborted(w: World): World {
    w.(aborted := true)
  }

  /** The callback that was found for a reply, where it was, and what is left. */
  datatype Find = Find(b: Books, from: Origin, cb: Callback)

  /** The callback for a reply that no callback of the queue waits for, or None when an assertion fails. */
  function Sought(b: Books, reply: Reply, cb: Callback): Option<Find> {
    if !b.subs.subscribed then (if b.monitoring then Some(Find(b, Elsewhere, cb)) else None)
    else if reply.Array? then
      match Handle(b.subs, reply.elements, cb)
      case Crashed => None
      case Handled(subs, cb') => Some(Find(b.(subs := subs), Elsewhere, cb'))
    else if b.invalid == [] then Some(Find(b, Elsewhere, cb))
    else Some(Find(b.(invalid := b.invalid[1..]), FromInvalid, b.invalid[0]))
  }

  /** The search is over: an assertion has failed, or the entry of a message was changed, or a callback was shifted. */
  function Searched(w: World, reply: Reply, cb: Callback): World {
    match Sought(w.b, reply, cb)
    case None => Aborted(w)
    case Some(found) => w.(b := found.b)
  }

  function Shortened(b: Books, reply: Reply): seq<Callback> {
    if b.subs.subscribed && !reply.Array? && b.invalid != [] then b.invalid[1..] else b.invalid
  }

  lemma SoughtAs(b: Books, reply: Reply, cb: Callback)
    ensures Sought(b, reply, cb).Some? ==>
              var b' := Sought(b, reply, cb).value.b;
              b' == b.(invalid := b'.invalid, subs := b'.subs) && b'.invalid == Shortened(b, reply)
    ensures Sought(b, reply, cb).None? ==> b.invalid == Shortened(b, reply)
  {
    hide Handle;
  }

  lemma SearchedAs(w: World, reply: Reply, cb: Callback)
    ensures var v := Searched(w, reply, cb);
            && v == w.(b := w.b.(invalid := v.b.invalid, subs := v.b.subs), aborted := v.aborted)
            && v.aborted == (w.aborted || Sought(w.b, reply, cb).None?)
            && v.b.invalid == Shortened(w.b, reply)
            && (Sought(w.b, reply, cb).Some? ==> v.b == Sought(w.b, reply, cb).value.b)
            && (Sought(w.b, reply, cb).None? ==> v == Aborted(w))
  {
    hide Sought, Shortened;
    SoughtAs(w.b, reply, cb);
  }

  /** The callback that takes a reply, and what is left. */
  datatype Choice = Choice(w: World, from: Origin, cb: Callback)

  /** The first waiting callback, or the one that is found; an error that nobody waits for is given to none. */
  function Chosen(w: World, reply: Reply, cb: Callback): Option<Choice> {
    if w.b.replies != [] then Some(Choice(w.(b := w.b.(replies := w.b.replies[1..])), FromReplies, w.b.replies[0]))
    else if reply.Error? || Sought(w.b, reply, cb).None? then None
    else Some(Choice(Searched(w, reply, cb), Sought(w.b, reply, cb).value.from, Sought(w.b, reply, cb).value.cb))
  }

  lemma ChosenAs(w: World, reply: Reply, cb: Callback)
    ensures Chosen(w, reply, cb).Some? ==>
              var v := Chosen(w, reply, cb).value.w;
              && v == w.(b := v.b)
              && v.b == w.b.(replies := v.b.replies, invalid := v.b.invalid, subs := v.b.subs)
  {
    hide Sought, Searched;
    if w.b.replies == [] && Chosen(w, reply, cb).Some? {
      SearchedAs(w, reply, cb);
      assert Chosen(w, reply, cb).value.w == Searched(w, reply, cb);
    }
  }

  /** One turn of the loop of `redisProcessCallbacks`. */
  ghost function Taken(s: Setup, w: World, reply: Reply, cb: Callback, o: Order): Progress {
    var v := Heeded(w, reply);
    match Chosen(v, reply, cb)
    case Some(c) => Handed(s, c.w, c.from, c.cb, reply, o)
    case None => Progress(if reply.Error? then Disconnected(s, v.(err := REDIS_ERR_OTHER), o) else Aborted(v), cb, true)
  }

  ghost function TakenAll(s: Setup, w: World, replies: seq<Reply>, o: Order): Progress {
    if replies == [] then Progress(w, NOBODY, false)
    else
      var p := TakenAll(s, w, replies[..|replies| - 1], o);
      if p.stop then p else Taken(s, p.w, replies[|replies| - 1], p.cb, o)
  }

  /** There is no further reply: the reader refused the bytes, a disconnect waits for this, or MONITOR goes on. */
  ghost function Settled(s: Setup, w: World, cb: Callback, end: Streams.Ending, o: Order): World {
    if end.Refused? then Disconnected(s, w.(err := StreamReader.REDIS_ERR_PROTOCOL), o)
    else
      var v := w.(unread := end.rest);
      if v.disconnecting && v.b.obuf == [] && v.b.replies == [] then Disconnected(s, v, o)
      else if v.b.monitoring then v.(b := Waiting(v.b, cb))
      else v
  }

  /** The replies of an outcome of the reader. */
  function Replies(o: Streams.Outcome): seq<Reply> {
    MeaningAll(o.items)
  }

  /** `redisProcessCallbacks`, when this is what the reader will give. */
  ghost function Processed(s: Setup, w: World, got: Streams.Outcome, o: Order): World {
    var p := TakenAll(s, w, Replies(got), o);
    if p.stop then p.w else Settled(s, p.w, p.cb, got.end, o)
  }

  ghost function Received(s: Setup, w: World, chunk: bytes, o: Order): World {
    Processed(s, w, Streams.Outcomes(w.unread + chunk), o)
  }

  // ----- Events -----

  datatype Connect = Failed | InProgress | Completed

  datatype Event =
    | Do(action: Action)
    | Readable(k: Connect, chunk: bytes, eof: bool)
    | Writable(k: Connect, nwritten: int)
    | Server(x: Entry)

  /** What follows a call between events, unless it must wait. */
  ghost function Carried(s: Setup, w: World, a: Action, o: Order): World {
    match a
    case Issue(_, _, _) => w
    case Quit => if w.b.replies == [] then Disconnected(s, w, o) else w
    case Release => Torn(s, w, o)
  }

  /** A call of the program between events. */
  ghost function Performed(s: Setup, w: World, a: Action, o: Order): World {
    Carried(s, Made(w, None, a), a, o)
  }

  /** The connect callback, if there is one, is told. */
  function Greeted(s: Setup, w: World, status: bool): World {
    w.(greetings := w.greetings + if s.onConnect then [status] else [])
  }

  /** `__redisAsyncHandleConnect`. */
  ghost function Connected(s: Setup, w: World, k: Connect, o: Order): World {
    match k
    case Failed =>
      Disconnected(s, Greeted(s, w, false).(err := Pipeline.REDIS_ERR_IO), o)
    case InProgress => w
    case Completed => Greeted(s, w, true).(connected := true)
  }

  /** `redisAsyncHandleRead` once the connection is there. */
  ghost function Fed(s: Setup, w: World, chunk: bytes, eof: bool, o: Order): World {
    if eof then Disconnected(s, w.(err := REDIS_ERR_EOF), o) else Received(s, w, chunk, o)
  }

  function Clip(n: int, len: nat): (r: nat)
    ensures r <= len
  {
    if n < 0 then 0 else if n < len then n else len
  }

  /** `redisAsyncHandleWrite` once the connection is there. */
  ghost function Flushed(s: Setup, w: World, nwritten: int, o: Order): World {
    if w.b.obuf != [] && nwritten < 0 then Disconnected(s, w.(err := Pipeline.REDIS_ERR_IO), o)
    else Written(w, nwritten)
  }

  /** The socket takes that many bytes, or as many as there are. */
  function Written(w: World, nwritten: int): World {
    var n := Clip(nwritten, |w.b.obuf|);
    w.(wire := w.wire + w.b.obuf[..n], b := w.b.(obuf := w.b.obuf[n..]))
  }

  lemma WrittenRests(w: World, nwritten: int)
    ensures var v := Written(w, nwritten);
            && v.connected == w.connected && Over(v) == Over(w) && v.freed == w.freed
            && v.err == w.err && v.unread == w.unread
  {
  }

  lemma WrittenAs(w: World, nwritten: int, piece: bytes, rest: bytes)
    requires piece + rest == w.b.obuf && |piece| == Clip(nwritten, |w.b.obuf|)
    ensures Written(w, nwritten) == w.(wire := w.wire + piece, b := w.b.(obuf := rest))
  {
    assert w.b.obuf[..|piece|] == piece && w.b.obuf[|piece|..] == rest;
  }

  /** A step of the server, which the client does not see yet. */
  predicate Foreign(x: Entry) {
    x.Served? || x.Posted?
  }

  ghost function Next(s: Setup, w: World, e: Event, o: Order): World {
    match e
    case Do(action) => Performed(s, w, action, o)
    case Readable(k, chunk, eof) =>
      var v := if w.connected then w else Connected(s, w, k, o);
      if v.freed || !v.connected then v else Fed(s, v, chunk, eof, o)
    case Writable(k, nwritten) =>
      var v := if w.connected then w else Connected(s, w, k, o);
      if v.freed || !v.connected then v else Flushed(s, v, nwritten, o)
    case Server(x) => if Foreign(x) then w.(b := w.b.(log := w.b.log + [x])) else w
  }

  /** The state after a run; once the context is gone or the process is dead, nothing happens. */
  ghost function After(s: Setup, events: seq<Event>, o: Order): World {
    if events == [] then Start(s)
    else
      var w := After(s, events[..|events| - 1], o);
      if Over(w) then w else Next(s, w, events[|events| - 1], o)
  }

  // ----- What the calls of the program can change -----

  /** v is w but for what commands register and append, and for the flags that are set. */
  predicate Called(w: World, v: World) {
    && v == w.(b := v.b, asked := v.asked, disconnecting := v.disconnecting, freeing := v.freeing)
    && (w.disconnecting ==> v.disconnecting) && (w.freeing ==> v.freeing) && (Closing(w) ==> v.b == w.b)
  }

  lemma ActedCalled(w: World, a: Action)
    ensures Called(w, Acted(w, a))
  {
    hide Entered, Classify, Sizes;
  }

  lemma MadeCalled(w: World, turn: Option<nat>, a: Action)
    ensures Called(w, Made(w, turn, a))
  {
    hide Acted;
    ActedCalled(Noted(w, turn, a), a);
  }

  lemma {:induction false} ScriptCalled(w: World, turn: nat, script: seq<Action>)
    ensures Called(w, Script(w, turn, script))
  {
    hide Made;
    if script != [] {
      var before := script[..|script| - 1];
      ScriptCalled(w, turn, before);
      MadeCalled(Script(w, turn, before), Some(turn), script[|script| - 1]);
    }
  }

  /** v is w after the turn of a callback. */
  predicate Turned(w: World, v: World) {
    Called(w.(given := v.given, calls := v.calls), v)
  }

  lemma RanTurned(s: Setup, w: World, from: Origin, d: Delivery)
    ensures Turned(w, Ran(s, w, from, d))
    ensures Ran(s, w, from, d).given == w.given + [Handout(from, d)]
    ensures Ran(s, w, from, d).calls == w.calls + if d.cb.fn then [d] else []
    ensures !d.cb.fn ==> Ran(s, w, from, d) == w.(given := w.given + [Handout(from, d)])
  {
    hide Made, Script;
    var v := w.(given := w.given + [Handout(from, d)]);
    ScriptCalled(v.(calls := v.calls + [d]), |v.calls|, s.user(|v.calls|));
  }

  // ----- Teardown, step by step -----

  lemma NoneDrained(s: Setup, w: World)
    ensures Drained(s, w, 0) == w
  {
  }

  lemma NoneDropped(s: Setup, w: World)
    ensures Dropped(s, w, 0) == w
  {
  }

  lemma NoneSwept(s: Setup, w: World, pvariant: bool, ks: seq<bytes>)
    ensures Swept(s, w, pvariant, ks, 0) == w
  {
  }

  /** One more turn; b is what waits before it, and b' after it. */
  lemma TurnedOn(s: Setup, w: World, b: Books, v: World, b': Books, from: Origin, d: Delivery)
    requires Closing(w) && Turned(w.(b := b), v)
    ensures v.b == b && Turned(w.(b := b'), Ran(s, v.(b := b'), from, d))
  {
    hide Ran;
    RanTurned(s, v.(b := b'), from, d);
  }

  lemma {:induction false} DrainedDown(s: Setup, w: World, n: nat)
    requires Closing(w) && n <= |w.b.replies|
    ensures Turned(w.(b := w.b.(replies := w.b.replies[n..])), Drained(s, w, n))
  {
    hide Ran;
    if n > 0 {
      DrainedDown(s, w, n - 1);
      var v := Drained(s, w, n - 1);
      assert w.b.replies[n - 1..][1..] == w.b.replies[n..];
      TurnedOn(s, w, w.b.(replies := w.b.replies[n - 1..]), v, w.b.(replies := w.b.replies[n..]), FromReplies,
               Delivery(v.b.replies[0], None));
    }
  }

  lemma {:induction false} DroppedDown(s: Setup, w: World, n: nat)
    requires Closing(w) && n <= |w.b.invalid|
    ensures Turned(w.(b := w.b.(invalid := w.b.invalid[n..])), Dropped(s, w, n))
  {
    hide Ran;
    if n > 0 {
      DroppedDown(s, w, n - 1);
      var v := Dropped(s, w, n - 1);
      assert w.b.invalid[n - 1..][1..] == w.b.invalid[n..];
      TurnedOn(s, w, w.b.(invalid := w.b.invalid[n - 1..]), v, w.b.(invalid := w.b.invalid[n..]), FromInvalid,
               Delivery(v.b.invalid[0], None));
    }
  }

  lemma {:induction false} SweptDown(s: Setup, w: World, pvariant: bool, ks: seq<bytes>, n: nat)
    requires Closing(w) && n <= |ks|
    ensures Turned(w, Swept(s, w, pvariant, ks, n))
  {
    hide Ran;
    if n > 0 {
      SweptDown(s, w, pvariant, ks, n - 1);
      var v := Swept(s, w, pvariant, ks, n - 1);
      RanTurned(s, v, Elsewhere, Delivery(EntryOf(v.b.subs.Of(pvariant), ks[n - 1]), None));
    }
  }

  // ----- Replies, one by one -----

  lemma {:induction false} MeaningEach(items: seq<Item>)
    ensures |MeaningAll(items)| == |items| && forall k :: 0 <= k < |items| ==> MeaningAll(items)[k] == Meaning(items[k])
  {
    if items != [] { MeaningEach(items[1..]); }
  }

  lemma NoneTaken(s: Setup, w: World, o: Order)
    ensures TakenAll(s, w, [], o) == Progress(w, NOBODY, false)
  {
  }

  lemma OneTaken(s: Setup, w: World, replies: seq<Reply>, o: Order)
    requires replies != []
    ensures var p := TakenAll(s, w, replies[..|replies| - 1], o);
            TakenAll(s, w, replies, o) == if p.stop then p else Taken(s, p.w, replies[|replies| - 1], p.cb, o)
  {
  }

  /** Once the loop has returned, nothing more is taken. */
  lemma {:induction false} TakenUpTo(s: Setup, w: World, replies: seq<Reply>, n: nat, o: Order)
    requires n <= |replies| && TakenAll(s, w, replies[..n], o).stop
    ensures TakenAll(s, w, replies, o) == TakenAll(s, w, replies[..n], o)
    decreases |replies|
  {
    hide Taken;
    if n == |replies| {
      assert replies[..n] == replies;
    } else {
      var before := replies[..|replies| - 1];
      assert before[..n] == replies[..n];
      TakenUpTo(s, w, before, n, o);
    }
  }

  // ----- The orders of a teardown that has not come do not matter -----

  lemma {:induction false} TakenAllFree(s: Setup, w: World, replies: seq<Reply>, o: Order, o': Order)
    ensures !TakenAll(s, w, replies, o).stop ==> TakenAll(s, w, replies, o') == TakenAll(s, w, replies, o)
  {
    hide Ran, Torn, Disconnected, Chosen;
    if replies != [] {
      TakenAllFree(s, w, replies[..|replies| - 1], o, o');
    }
  }

  lemma {:induction false} AfterFree(s: Setup, events: seq<Event>, o: Order, o': Order)
    ensures !Over(After(s, events, o)) ==> After(s, events, o') == After(s, events, o)
  {
    hide Next;
    if events != [] {
      var before := events[..|events| - 1];
      AfterFree(s, before, o, o');
      if !Over(After(s, before, o)) {
        NextFree(s, After(s, before, o), events[|events| - 1], o, o');
      }
    }
  }

  lemma NextFree(s: Setup, w: World, e: Event, o: Order, o': Order)
    ensures !Over(Next(s, w, e, o)) ==> Next(s, w, e, o') == Next(s, w, e, o)
  {
    hide Torn, Disconnected, TakenAll, Made, Streams.Outcomes, Replies;
    match e {
      case Do(action) =>
        Gone(s, Made(w, None, action), o);
      case Readable(k, chunk, eof) =>
        ConnectedFree(s, w, k, o, o');
        var v := if w.connected then w else Connected(s, w, k, o);
        Gone(s, v.(err := REDIS_ERR_EOF), o);
        ReceivedFree(s, v, chunk, o, o');
      case Writable(k, nwritten) =>
        ConnectedFree(s, w, k, o, o');
        var v := if w.connected then w else Connected(s, w, k, o);
        Gone(s, v.(err := Pipeline.REDIS_ERR_IO), o);
      case Server(_) =>
    }
  }

  lemma ConnectedFree(s: Setup, w: World, k: Connect, o: Order, o': Order)
    ensures if k == Failed then Connected(s, w, k, o).freed else Connected(s, w, k, o) == Connected(s, w, k, o')
  {
    hide Disconnected;
    Gone(s, Greeted(s, w, false).(err := Pipeline.REDIS_ERR_IO), o);
  }

  lemma ReceivedFree(s: Setup, w: World, chunk: bytes, o: Order, o': Order)
    ensures !Over(Received(s, w, chunk, o)) ==> Received(s, w, chunk, o') == Received(s, w, chunk, o)
  {
    hide Disconnected, TakenAll, Streams.Outcomes, Replies;
    var got := Streams.Outcomes(w.unread + chunk);
    var p := TakenAll(s, w, Replies(got), o);
    TakenAllFree(s, w, Replies(got), o, o');
    TakenAllOver(s, w, Replies(got), o);
    if got.end.Refused? {
      Gone(s, p.w.(err := StreamReader.REDIS_ERR_PROTOCOL), o);
    } else {
      Gone(s, p.w.(unread := got.end.rest), o);
    }
  }

  lemma TakenAllOver(s: Setup, w: World, replies: seq<Reply>, o: Order)
    ensures TakenAll(s, w, replies, o).stop ==> Over(TakenAll(s, w, replies, o).w)
  {
    hide Disconnected, Torn, Ran, Chosen;
    if replies != [] {
      var before := replies[..|replies| - 1];
      TakenAllOver(s, w, before, o);
      var p := TakenAll(s, w, before, o);
      if !p.stop {
        TakenOver(s, p.w, replies[|replies| - 1], p.cb, o);
      }
    }
  }

  lemma TakenOver(s: Setup, w: World, reply: Reply, cb: Callback, o: Order)
    ensures Taken(s, w, reply, cb, o).stop ==> Over(Taken(s, w, reply, cb, o).w)
  {
    hide Disconnected, Torn, Chosen;
    forall v
      ensures Torn(s, v, o).freed && Disconnected(s, v, o).freed
    {
      Gone(s, v, o);
    }
  }

  lemma OneEvent(s: Setup, events: seq<Event>, o: Order)
    requires events != []
    ensures var w := After(s, events[..|events| - 1], o);
            After(s, events, o) == if Over(w) then w else Next(s, w, events[|events| - 1], o)
  {
  }

  lemma NoEvents(s: Setup, o: Order)
    ensures After(s, [], o) == Start(s)
  {
  }
}
