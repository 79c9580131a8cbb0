/** Why a context goes down, and what its program and the event library see of it, for every run. */
module Causes {
  import opened Bytes
  import opened Callbacks
  import opened Deliveries
  import opened Machine
  import opened Promises
  import opened Resp
  import opened Subscriptions
  import opened Tracking
  import Pipeline
  import StreamReader
  import Streams

  // ----- What the program did -----

  /** The program did this between events or in one of its first n callbacks. */
  ghost predicate Did(s: Setup, outside: seq<Action>, n: nat, a: Action) {
    a in outside || exists k: nat :: k < n && a in s.user(k)
  }

  lemma DidMore(s: Setup, outside: seq<Action>, n: nat, a: Action)
    ensures Did(s, outside, n + 1, a) <==> Did(s, outside, n, a) || a in s.user(n)
  {
    if Did(s, outside, n + 1, a) && a !in outside {
      var k: nat :| k < n + 1 && a in s.user(k);
    }
  }

  /** The flags are those that the program set; failed is another reason for a disconnect. */
  ghost predicate Blamed(s: Setup, outside: seq<Action>, w: World, failed: bool) {
    && (w.freeing <==> Did(s, outside, |w.calls|, Release))
    && (w.disconnecting <==> failed || Did(s, outside, |w.calls|, Quit))
  }

  lemma MadeFlags(w: World, turn: Option<nat>, a: Action)
    ensures Made(w, turn, a).freeing == (w.freeing || a == Release)
    ensures Made(w, turn, a).disconnecting == (w.disconnecting || a == Quit)
  {
    hide Issued;
    if a.Issue? { IssuedFlags(Noted(w, turn, a), a.argv, Callback(a.fn, a.privdata, 1)); }
  }

  lemma {:induction false} ScriptFlags(w: World, turn: nat, script: seq<Action>)
    ensures Script(w, turn, script).freeing == (w.freeing || Release in script)
    ensures Script(w, turn, script).disconnecting == (w.disconnecting || Quit in script)
  {
    hide Made;
    if script != [] {
      var before, a := script[..|script| - 1], script[|script| - 1];
      ScriptFlags(w, turn, before);
      assert script == before + [a];
      MadeFlags(Script(w, turn, before), Some(turn), a);
    }
  }

  lemma IssuedFlags(w: World, argv: Request, cb: Callback)
    ensures Issued(w, argv, cb).freeing == w.freeing && Issued(w, argv, cb).disconnecting == w.disconnecting
  {
    hide Entered, Accepts;
  }

  lemma RanBlamed(s: Setup, outside: seq<Action>, w: World, failed: bool, from: Origin, d: Delivery)
    requires Blamed(s, outside, w, failed)
    ensures Blamed(s, outside, Ran(s, w, from, d), failed)
  {
    hide Script, Did;
    RanTurned(s, w, from, d);
    if d.cb.fn {
      var v := w.(given := w.given + [Handout(from, d)], calls := w.calls + [d]);
      ScriptFlags(v, |w.calls|, s.user(|w.calls|));
      DidMore(s, outside, |w.calls|, Release);
      DidMore(s, outside, |w.calls|, Quit);
    }
  }

  lemma {:induction false} DrainedBlamed(s: Setup, outside: seq<Action>, w: World, failed: bool, n: nat)
    requires Blamed(s, outside, w, failed)
    ensures Blamed(s, outside, Drained(s, w, n), failed)
  {
    hide Did, Ran;
    if n > 0 {
      DrainedBlamed(s, outside, w, failed, n - 1);
      var v := Drained(s, w, n - 1);
      if v.b.replies != [] {
        var x := v.(b := v.b.(replies := v.b.replies[1..]));
        RanBlamed(s, outside, x, failed, FromReplies, Delivery(v.b.replies[0], None));
      }
    }
  }

  lemma {:induction false} DroppedBlamed(s: Setup, outside: seq<Action>, w: World, failed: bool, n: nat)
    requires Blamed(s, outside, w, failed)
    ensures Blamed(s, outside, Dropped(s, w, n), failed)
  {
    hide Did, Ran;
    if n > 0 {
      DroppedBlamed(s, outside, w, failed, n - 1);
      var v := Dropped(s, w, n - 1);
      if v.b.invalid != [] {
        var x := v.(b := v.b.(invalid := v.b.invalid[1..]));
        RanBlamed(s, outside, x, failed, FromInvalid, Delivery(v.b.invalid[0], None));
      }
    }
  }

  lemma {:induction false} SweptBlamed(s: Setup, outside: seq<Action>, w: World, failed: bool, pvariant: bool,
                                       ks: seq<bytes>, n: nat)
    requires Blamed(s, outside, w, failed) && n <= |ks|
    ensures Blamed(s, outside, Swept(s, w, pvariant, ks, n), failed)
  {
    hide Did, Ran;
    if n > 0 {
      SweptBlamed(s, outside, w, failed, pvariant, ks, n - 1);
      var v := Swept(s, w, pvariant, ks, n - 1);
      RanBlamed(s, outside, v, failed, Elsewhere, Delivery(EntryOf(v.b.subs.Of(pvariant), ks[n - 1]), None));
    }
  }

  lemma TornBlamed(s: Setup, outside: seq<Action>, w: World, failed: bool, o: Order)
    requires Blamed(s, outside, w, failed)
    ensures Blamed(s, outside, Torn(s, w, o), failed)
  {
    hide Did, Drained, Dropped, Swept;
    var a := Drained(s, w, |w.b.replies|);
    DrainedBlamed(s, outside, w, failed, |w.b.replies|);
    var b := Dropped(s, a, |a.b.invalid|);
    DroppedBlamed(s, outside, a, failed, |a.b.invalid|);
    SweptBlamed(s, outside, b, failed, false, o.channels, |o.channels|);
    SweptBlamed(s, outside, TableDown(s, b, false, o), failed, true, o.patterns, |o.patterns|);
  }

  // ----- What is seen of it -----

  /** The connect callback was told once of success, or of failure. */
  function Greetings(s: Setup, connected: bool, err: nat): seq<bool> {
    if !s.onConnect then [] else if connected then [true] else if err == Pipeline.REDIS_ERR_IO then [false] else []
  }

  function Once(b: bool): nat {
    if b then 1 else 0
  }

  /** A context that is not gone: the event library's hook is unused, and the program has set the flags. */
  ghost predicate Fresh(s: Setup, outside: seq<Action>, w: World) {
    && w.cleanups == 0 && w.hook == s.hook && w.notices == [] && Blamed(s, outside, w, false)
    && w.greetings == Greetings(s, w.connected, w.err)
  }

  /**
   A context that is gone: one cleanup; the disconnect callback was told, if the connection was there, and of an error
   unless the program freed the context.
   */
  ghost predicate Spent(s: Setup, outside: seq<Action>, w: World) {
    && w.cleanups == Once(s.hook) && !w.hook && Blamed(s, outside, w, w.err != 0)
    && w.notices == (if s.onDisconnect && w.connected then [w.freeing || w.err == 0] else [])
    && w.greetings == Greetings(s, w.connected, w.err)
  }

  ghost predicate Marked(s: Setup, outside: seq<Action>, w: World) {
    if w.freed then Spent(s, outside, w) else Fresh(s, outside, w)
  }

  lemma TornSpent(s: Setup, outside: seq<Action>, w: World, o: Order)
    requires Closing(w) && w.cleanups + Once(w.hook) == Once(s.hook) && w.notices == []
    requires Blamed(s, outside, w, w.err != 0) && w.greetings == Greetings(s, w.connected, w.err)
    ensures Spent(s, outside, Torn(s, w, o)) && Torn(s, w, o).freed
  {
    hide Torn, Did;
    TornBlamed(s, outside, w, w.err != 0, o);
    TornFlags(s, w, o);
  }

  lemma DisconnectedSpent(s: Setup, outside: seq<Action>, w: World, o: Order)
    requires w.cleanups == 0 && w.hook == s.hook && w.notices == [] && w.greetings == Greetings(s, w.connected, w.err)
    requires Blamed(s, outside, w, false) && (w.err == 0 ==> Closing(w))
    ensures Spent(s, outside, Disconnected(s, w, o)) && Disconnected(s, w, o).freed
  {
    hide Torn, Did;
    TornSpent(s, outside, Cleaned(if w.err == 0 then w else w.(disconnecting := true)), o);
  }

  lemma HandedMarked(s: Setup, outside: seq<Action>, w: World, from: Origin, cb: Callback, reply: Reply, o: Order)
    requires Fresh(s, outside, w) && !Over(w) && w.err == 0
    ensures var p := Handed(s, w, from, cb, reply, o);
            Marked(s, outside, p.w) && (!p.stop ==> !Over(p.w) && p.w.err == 0)
  {
    hide Ran, Torn, Did;
    var d := Delivery(cb, Some(reply));
    RanTurned(s, w, from, d);
    RanBlamed(s, outside, w, false, from, d);
    var v := Ran(s, w, from, d);
    if cb.fn && v.freeing { TornSpent(s, outside, v, o); }
  }

  lemma TakenMarked(s: Setup, outside: seq<Action>, w: World, reply: Reply, cb: Callback, o: Order)
    requires Fresh(s, outside, w) && !Over(w) && w.err == 0
    ensures var p := Taken(s, w, reply, cb, o); Marked(s, outside, p.w) && (!p.stop ==> !Over(p.w) && p.w.err == 0)
  {
    hide Handed, Did, Chosen, Disconnected;
    var v := Heeded(w, reply);
    ChosenAs(v, reply, cb);
    match Chosen(v, reply, cb) {
      case Some(c) => HandedMarked(s, outside, c.w, c.from, c.cb, reply, o);
      case None =>
        if reply.Error? { DisconnectedSpent(s, outside, v.(err := REDIS_ERR_OTHER), o); }
    }
  }

  lemma {:induction false} TakenAllMarked(s: Setup, outside: seq<Action>, w: World, replies: seq<Reply>, o: Order)
    requires Fresh(s, outside, w) && !Over(w) && w.err == 0
    ensures var p := TakenAll(s, w, replies, o); Marked(s, outside, p.w) && (!p.stop ==> !Over(p.w) && p.w.err == 0)
  {
    hide Taken, Fresh, Spent;
    if replies != [] {
      var before := replies[..|replies| - 1];
      TakenAllMarked(s, outside, w, before, o);
      var p := TakenAll(s, w, before, o);
      if !p.stop { TakenMarked(s, outside, p.w, replies[|replies| - 1], p.cb, o); }
    }
  }

  lemma ReceivedMarked(s: Setup, outside: seq<Action>, w: World, chunk: bytes, o: Order)
    requires Fresh(s, outside, w) && !Over(w) && w.err == 0 && w.connected
    ensures Marked(s, outside, Received(s, w, chunk, o))
    ensures !Over(Received(s, w, chunk, o)) ==> Received(s, w, chunk, o).err == 0
  {
    hide TakenAll, Streams.Outcomes, Replies, Disconnected, Did;
    var got := Streams.Outcomes(w.unread + chunk);
    var p := TakenAll(s, w, Replies(got), o);
    TakenAllMarked(s, outside, w, Replies(got), o);
    TakenAllConnected(s, w, Replies(got), o);
    TakenAllOver(s, w, Replies(got), o);
    if !p.stop {
      if got.end.Refused? {
        DisconnectedSpent(s, outside, p.w.(err := StreamReader.REDIS_ERR_PROTOCOL), o);
      } else if p.w.disconnecting && p.w.b.obuf == [] && p.w.b.replies == [] {
        DisconnectedSpent(s, outside, p.w.(unread := got.end.rest), o);
      }
    }
  }

  /** The call that the program makes in an event. */
  function Deed(e: Event): seq<Action> {
    if e.Do? then [e.action] else []
  }

  function Deeds(events: seq<Event>): seq<Action> {
    if events == [] then [] else Deeds(events[..|events| - 1]) + Deed(events[|events| - 1])
  }

  lemma ConnectedMarked(s: Setup, outside: seq<Action>, w: World, k: Connect, o: Order)
    requires Fresh(s, outside, w) && !Over(w) && w.err == 0 && !w.connected
    ensures var v := Connected(s, w, k, o); Marked(s, outside, v) && (!v.freed ==> !Over(v) && v.err == 0)
  {
    hide Disconnected, Did;
    if k == Failed {
      DisconnectedSpent(s, outside, Greeted(s, w, false).(err := Pipeline.REDIS_ERR_IO), o);
    }
  }

  lemma PerformedMarked(s: Setup, outside: seq<Action>, w: World, a: Action, o: Order)
    requires Fresh(s, outside, w) && !Over(w) && w.err == 0
    ensures var v := Performed(s, w, a, o); Marked(s, outside + [a], v) && (!v.freed ==> !Over(v) && v.err == 0)
  {
    hide Disconnected, Torn, Did, Issued;
    DidOutside(s, outside, a, |w.calls|, Quit);
    DidOutside(s, outside, a, |w.calls|, Release);
    MadeCalled(w, None, a);
    var v := Made(w, None, a);
    match a {
      case Issue(argv, fn, privdata) =>
        IssuedFlags(Noted(w, None, a), argv, Callback(fn, privdata, 1));
      case Quit =>
        if w.b.replies == [] { DisconnectedSpent(s, outside + [a], v, o); }
      case Release =>
        TornSpent(s, outside + [a], v, o);
    }
  }

  lemma DidOutside(s: Setup, outside: seq<Action>, a: Action, n: nat, x: Action)
    ensures Did(s, outside + [a], n, x) <==> Did(s, outside, n, x) || x == a
  {
  }

  lemma FedMarked(s: Setup, outside: seq<Action>, w: World, chunk: bytes, eof: bool, o: Order)
    requires Fresh(s, outside, w) && !Over(w) && w.err == 0 && w.connected
    ensures var v := Fed(s, w, chunk, eof, o); Marked(s, outside, v) && (!Over(v) ==> v.err == 0)
  {
    hide Disconnected, Received, Did;
    if eof {
      DisconnectedSpent(s, outside, w.(err := REDIS_ERR_EOF), o);
    } else {
      ReceivedMarked(s, outside, w, chunk, o);
    }
  }

  lemma FlushedMarked(s: Setup, outside: seq<Action>, w: World, nwritten: int, o: Order)
    requires Fresh(s, outside, w) && !Over(w) && w.err == 0 && w.connected
    ensures var v := Flushed(s, w, nwritten, o); Marked(s, outside, v) && (!Over(v) ==> v.err == 0)
  {
    hide Disconnected, Did;
    if w.b.obuf != [] && nwritten < 0 { DisconnectedSpent(s, outside, w.(err := Pipeline.REDIS_ERR_IO), o); }
  }

  lemma NextMarked(s: Setup, outside: seq<Action>, w: World, e: Event, o: Order)
    requires Fresh(s, outside, w) && !Over(w) && w.err == 0
    ensures var v := Next(s, w, e, o); Marked(s, outside + Deed(e), v) && (!Over(v) ==> v.err == 0)
  {
    hide Disconnected, Torn, Did, Performed, Fed, Flushed, Machine.Connected;
    assert outside + [] == outside;
    match e {
      case Do(action) =>
        PerformedMarked(s, outside, w, action, o);
      case Readable(k, chunk, eof) =>
        var v := if w.connected then w else Connected(s, w, k, o);
        if !w.connected { ConnectedMarked(s, outside, w, k, o); }
        if !v.freed && v.connected {
          FedMarked(s, outside, v, chunk, eof, o);
        }
      case Writable(k, nwritten) =>
        var v := if w.connected then w else Connected(s, w, k, o);
        if !w.connected { ConnectedMarked(s, outside, w, k, o); }
        if !v.freed && v.connected {
          FlushedMarked(s, outside, v, nwritten, o);
        }
      case Server(_) =>
    }
  }

  /** In every run: who ended the context, and what the event library and the program's other callbacks saw of it. */
  lemma {:induction false} RunMarked(s: Setup, events: seq<Event>, o: Order)
    requires Lived(s, events, o) == |events|
    ensures var w := After(s, events, o); Marked(s, Deeds(events), w) && (!Over(w) ==> w.err == 0)
  {
    hide Next, Blamed;
    if events == [] {
      StartMarked(s);
    } else {
      LivedBefore(s, events, o);
      RunMarked(s, events[..|events| - 1], o);
      NextMarked(s, Deeds(events[..|events| - 1]), After(s, events[..|events| - 1], o), events[|events| - 1], o);
    }
  }

  lemma StartMarked(s: Setup)
    ensures Marked(s, [], Start(s))
  {
  }

  // ----- Errors -----

  /** The event finds that the connection could not be made. */
  predicate Refuses(e: Event, connected: bool) {
    (e.Readable? || e.Writable?) && !connected && e.k == Failed
  }

  /** The event finds the connection at its end. */
  predicate Ends(e: Event, connected: bool) {
    e.Readable? && (connected || e.k == Completed) && e.eof
  }

  /** The socket fails to take bytes. */
  predicate Breaks(e: Event, connected: bool) {
    e.Writable? && (connected || e.k == Completed) && e.nwritten < 0
  }

  /** An error has its cause in the event: the connection failed or ended, or what it gave was bad. */
  predicate Explained(err: nat, e: Event, connected: bool, refused: bool) {
    || err == 0 || (err == Pipeline.REDIS_ERR_IO && (Refuses(e, connected) || Breaks(e, connected)))
    || (err == REDIS_ERR_EOF && Ends(e, connected)) || (err == REDIS_ERR_OTHER && e.Readable?)
    || (err == StreamReader.REDIS_ERR_PROTOCOL && e.Readable? && refused)
  }

  /** A disconnect that nothing holds up any more. */
  predicate Lingers(w: World) {
    w.disconnecting && w.b.obuf == [] && w.b.replies == []
  }

  lemma TakenErr(s: Setup, w: World, reply: Reply, cb: Callback, o: Order)
    requires w.err == 0 && !Over(w)
    ensures var p := Taken(s, w, reply, cb, o);
            (p.w.err == 0 || (p.stop && p.w.freed && p.w.err == REDIS_ERR_OTHER)) && (p.stop <==> Over(p.w))
  {
    hide Handed, Chosen, Disconnected;
    var v := Heeded(w, reply);
    ChosenAs(v, reply, cb);
    match Chosen(v, reply, cb) {
      case Some(c) => HandedErr(s, c.w, c.from, c.cb, reply, o);
      case None =>
        if reply.Error? { DisconnectedErr(s, v.(err := REDIS_ERR_OTHER), o); }
    }
  }

  lemma HandedErr(s: Setup, w: World, from: Origin, cb: Callback, reply: Reply, o: Order)
    requires w.err == 0 && !Over(w)
    ensures var p := Handed(s, w, from, cb, reply, o); p.w.err == 0 && (p.stop <==> Over(p.w))
  {
    hide Ran, Torn;
    var d := Delivery(cb, Some(reply));
    RanTurned(s, w, from, d);
    var v := Ran(s, w, from, d);
    if cb.fn && v.freeing { TornFlags(s, v, o); }
  }

  lemma {:induction false} TakenAllErr(s: Setup, w: World, replies: seq<Reply>, o: Order)
    requires w.err == 0 && !Over(w)
    ensures var p := TakenAll(s, w, replies, o);
            (p.w.err == 0 || (p.stop && p.w.freed && p.w.err == REDIS_ERR_OTHER)) && (p.stop <==> Over(p.w))
  {
    hide Taken;
    if replies != [] {
      var before := replies[..|replies| - 1];
      TakenAllErr(s, w, before, o);
      var p := TakenAll(s, w, before, o);
      if !p.stop { TakenErr(s, p.w, replies[|replies| - 1], p.cb, o); }
    }
  }

  lemma ReceivedExplained(s: Setup, w: World, chunk: bytes, o: Order)
    requires w.err == 0 && !Over(w)
    ensures var v := Received(s, w, chunk, o);
            && (v.err == 0 || (v.freed && v.err == REDIS_ERR_OTHER)
                || (v.freed && v.err == StreamReader.REDIS_ERR_PROTOCOL
                    && Streams.Outcomes(w.unread + chunk).end.Refused?))
            && (!Over(v) ==> !Lingers(v))
  {
    hide TakenAll, Streams.Outcomes, Replies, Disconnected;
    var got := Streams.Outcomes(w.unread + chunk);
    var p := TakenAll(s, w, Replies(got), o);
    TakenAllErr(s, w, Replies(got), o);
    if !p.stop {
      if got.end.Refused? {
        DisconnectedErr(s, p.w.(err := StreamReader.REDIS_ERR_PROTOCOL), o);
      } else if Lingers(p.w) {
        DisconnectedErr(s, p.w.(unread := got.end.rest), o);
      }
    }
  }

  lemma NextExplained(s: Setup, w: World, e: Event, o: Order)
    requires w.err == 0 && !Over(w)
    ensures var v := Next(s, w, e, o);
            && Explained(v.err, e, w.connected, Streams.Outcomes(w.unread + Chunk(e, w.connected)).end.Refused?)
            && (v.err != 0 ==> v.freed)
            && (!Over(v) ==> !Refuses(e, w.connected) && !Ends(e, w.connected))
            && (!Over(v) && e.Readable? && v.connected ==> !Lingers(v))
  {
    hide Torn, Disconnected, Received, Streams.Outcomes, Issued, Written;
    match e {
      case Do(action) =>
        MadeCalled(w, None, action);
        PerformedErr(s, w, action, o);
      case Readable(k, chunk, eof) =>
        ConnectedErr(s, w, k, o);
        var v := if w.connected then w else Connected(s, w, k, o);
        if !v.freed && v.connected {
          if eof { DisconnectedErr(s, v.(err := REDIS_ERR_EOF), o); } else { ReceivedExplained(s, v, chunk, o); }
        }
      case Writable(k, nwritten) =>
        ConnectedErr(s, w, k, o);
        var v := if w.connected then w else Connected(s, w, k, o);
        if !v.freed && v.connected {
          if v.b.obuf != [] && nwritten < 0 {
            DisconnectedErr(s, v.(err := Pipeline.REDIS_ERR_IO), o);
          } else {
            WrittenRests(v, nwritten);
          }
        }
      case Server(_) =>
    }
  }

  lemma ConnectedErr(s: Setup, w: World, k: Connect, o: Order)
    requires w.err == 0 && !Over(w)
    ensures var v := Connected(s, w, k, o);
            if k == Failed then v.freed && v.err == Pipeline.REDIS_ERR_IO
            else v.err == 0 && !Over(v) && v.unread == w.unread && v.connected == (w.connected || k == Completed)
  {
    hide Disconnected;
    if k == Failed {
      DisconnectedErr(s, Greeted(s, w, false).(err := Pipeline.REDIS_ERR_IO), o);
    }
  }

  lemma PerformedErr(s: Setup, w: World, a: Action, o: Order)
    requires w.err == 0 && !Over(w)
    ensures Performed(s, w, a, o).err == 0
  {
    hide Torn, Disconnected, Issued;
    var v := Made(w, None, a);
    MadeCalled(w, None, a);
    match a {
      case Issue(argv, fn, privdata) =>
      case Quit => if w.b.replies == [] { DisconnectedErr(s, v, o); }
      case Release => TornFlags(s, v, o);
    }
  }

  // ----- What an event does -----

  /** The connection is there, or the event finds that it is. */
  predicate Linked(w: World, k: Connect) {
    w.connected || k == Completed
  }

  /** v is w but for the flags of a connection, and what the connect callback was told. */
  predicate Untouched(w: World, v: World) {
    v == w.(connected := v.connected, greetings := v.greetings)
  }

  /** How many bytes a socket takes: none of an error, and no more than there are. */
  function Accepted(nwritten: int, obuf: bytes): (n: nat)
    ensures n <= |obuf|
  {
    if nwritten <= 0 then 0 else if nwritten >= |obuf| then |obuf| else nwritten
  }

  /** What the events of a live context do, one kind after the other. */
  ghost predicate Does(w: World, e: Event, v: World) {
    match e
    case Do(Issue(_, _, _)) => !Over(v) && v.err == 0
    case Do(Quit) =>
      && v.disconnecting && !v.aborted && v.err == 0 && (v.freed <==> w.b.replies == [])
      && (!v.freed ==> v == w.(asked := v.asked, disconnecting := true))
    case Do(Release) => v.freed && v.freeing && v.err == 0
    case Server(_) => v == w.(b := w.b.(log := v.b.log))
    case Readable(k, chunk, eof) =>
      if !w.connected && k == Failed then v.freed && v.err == 1
      else if !Linked(w, k) then v == w
      else if eof then v.freed && v.err == 3
      else
        && v.connected && v.wire == w.wire && v.err in {0, 2, 4}
        && (v.freed && v.err == 0 && !v.freeing ==> v.disconnecting && v.b.obuf == [])
    case Writable(k, nwritten) =>
      if !w.connected && k == Failed then v.freed && v.err == 1
      else if !Linked(w, k) then v == w
      else if w.b.obuf != [] && nwritten < 0 then v.freed && v.err == 1
      else
        var n := Accepted(nwritten, w.b.obuf);
        && !Over(v) && v.connected && Untouched(w, v.(b := w.b, wire := w.wire))
        && v.wire == w.wire + w.b.obuf[..n] && v.b == w.b.(obuf := w.b.obuf[n..])
  }

  lemma NextDoes(s: Setup, w: World, e: Event, o: Order)
    requires Sound(w) && !Over(w) && Partial(w.unread)
    ensures Does(w, e, Next(s, w, e, o))
  {
    hide Sound, Disconnected, Torn, Performed, Partial, Fed, Flushed, Does;
    SoundFlags(w);
    match e {
      case Do(action) => PerformedDoes(s, w, action, o);
      case Readable(k, chunk, eof) => ReadDoes(s, w, k, chunk, eof, o);
      case Writable(k, nwritten) => WriteDoes(s, w, k, nwritten, o);
      case Server(x) => ServerDoes(s, w, x, o);
    }
  }

  lemma ServerDoes(s: Setup, w: World, x: Entry, o: Order)
    ensures Does(w, Server(x), Next(s, w, Server(x), o))
  {
    hide Sound, Disconnected;
  }

  /** The event finds the connection as it is, established now, or failed. */
  lemma LinkDoes(s: Setup, w: World, k: Connect, o: Order)
    requires !Over(w) && w.err == 0
    ensures var v := if w.connected then w else Connected(s, w, k, o);
            if !w.connected && k == Failed then v.freed && v.err == 1
            else
              !Over(v) && v.err == 0 && Untouched(w, v) && v.connected == Linked(w, k) && (!Linked(w, k) ==> v == w)
  {
    hide Disconnected;
    if k == Failed { DownFlags(s, Greeted(s, w, false).(err := Pipeline.REDIS_ERR_IO), o); }
  }

  lemma ReadDoes(s: Setup, w: World, k: Connect, chunk: bytes, eof: bool, o: Order)
    requires Sound(w) && !Over(w) && Partial(w.unread) && w.err == 0
    ensures Does(w, Readable(k, chunk, eof), Next(s, w, Readable(k, chunk, eof), o))
  {
    hide Sound, Disconnected, Received, Partial, Machine.Connected, Gained;
    LinkDoes(s, w, k, o);
    if Linked(w, k) {
      var v := if w.connected then w else Connected(s, w, k, o);
      if !w.connected { ConnectedSound(s, w, k, o); }
      if eof { DownFlags(s, v.(err := REDIS_ERR_EOF), o); } else { ReceivedDoes(s, v, chunk, o); }
    }
  }

  lemma WriteDoes(s: Setup, w: World, k: Connect, nwritten: int, o: Order)
    requires !Over(w) && w.err == 0
    ensures Does(w, Writable(k, nwritten), Next(s, w, Writable(k, nwritten), o))
  {
    hide Disconnected, Flushed, Machine.Connected, Untouched, Performed, Fed;
    LinkDoes(s, w, k, o);
    if Linked(w, k) {
      FlushedDoes(s, w, if w.connected then w else Connected(s, w, k, o), nwritten, o);
    }
  }

  lemma FlushedDoes(s: Setup, w: World, v: World, nwritten: int, o: Order)
    requires Untouched(w, v) && !Over(v) && v.connected && v.err == 0
    ensures var x, n := Flushed(s, v, nwritten, o), Accepted(nwritten, w.b.obuf);
            if w.b.obuf != [] && nwritten < 0 then x.freed && x.err == 1
            else
              && !Over(x) && x.connected && Untouched(w, x.(b := w.b, wire := w.wire))
              && x.wire == w.wire + w.b.obuf[..n] && x.b == w.b.(obuf := w.b.obuf[n..])
  {
    hide Disconnected, Written;
    if w.b.obuf != [] && nwritten < 0 {
      DownFlags(s, v.(err := Pipeline.REDIS_ERR_IO), o);
    } else {
      WrittenDoes(w, v, nwritten);
    }
  }

  lemma WrittenDoes(w: World, v: World, nwritten: int)
    requires Untouched(w, v) && !Over(v) && v.connected
    ensures var x, n := Written(v, nwritten), Accepted(nwritten, w.b.obuf);
            && !Over(x) && x.connected && Untouched(w, x.(b := w.b, wire := w.wire))
            && x.wire == w.wire + w.b.obuf[..n] && x.b == w.b.(obuf := w.b.obuf[n..])
  {
  }

  lemma FinalOnce(w: World)
    requires Final(w)
    ensures w.aborted ==> !w.freed
  {
  }

  lemma SoundFlags(w: World)
    requires Sound(w)
    ensures w.err == 0 && !w.freeing
  {
  }

  lemma PerformedDoes(s: Setup, w: World, a: Action, o: Order)
    requires w.err == 0 && !w.freeing && !Over(w)
    ensures Does(w, Do(a), Performed(s, w, a, o))
  {
    hide Torn, Disconnected, Issued, Accepts;
    var v := Made(w, None, a);
    MadeCalled(w, None, a);
    match a {
      case Issue(argv, fn, privdata) =>
      case Quit =>
        if w.b.replies == [] { DownFlags(s, v, o); }
      case Release => TornFlags(s, v, o);
    }
  }

  lemma DownFlags(s: Setup, w: World, o: Order)
    requires w.err == 0 ==> Closing(w)
    ensures var v := Disconnected(s, w, o);
            && v.freed && v.aborted == w.aborted && v.err == w.err && v.connected == w.connected && v.wire == w.wire
            && (w.disconnecting || w.err != 0 ==> v.disconnecting) && v.b.obuf == w.b.obuf
  {
    hide Torn;
    TornFlags(s, Cleaned(if w.err == 0 then w else w.(disconnecting := true)), o);
  }

  lemma ReceivedDoes(s: Setup, w: World, chunk: bytes, o: Order)
    requires Sound(w) && !Over(w) && w.connected
    ensures var v := Received(s, w, chunk, o);
            && v.connected && v.wire == w.wire && v.err in {0, 2, 4}
            && (v.freed && v.err == 0 && !v.freeing ==> v.disconnecting && v.b.obuf == [])
  {
    hide TakenAll, Streams.Outcomes, Replies, Disconnected, Balanced, Final, Heard;
    ReceivedExplained(s, w, chunk, o);
    var got := Streams.Outcomes(w.unread + chunk);
    var p := TakenAll(s, w, Replies(got), o);
    TakenAllSound(s, w, Replies(got), o);
    TakenAllWire(s, w, Replies(got), o);
    if p.stop {
      FinalOnce(p.w);
    } else {
      if got.end.Refused? {
        DownFlags(s, p.w.(err := StreamReader.REDIS_ERR_PROTOCOL), o);
      } else if Lingers(p.w) {
        DownFlags(s, p.w.(unread := got.end.rest), o);
      }
    }
  }

  lemma {:induction false} TakenAllWire(s: Setup, w: World, replies: seq<Reply>, o: Order)
    ensures var v := TakenAll(s, w, replies, o).w; v.wire == w.wire && v.connected == w.connected
  {
    hide Taken;
    if replies != [] {
      var before := replies[..|replies| - 1];
      TakenAllWire(s, w, before, o);
      var p := TakenAll(s, w, before, o);
      TakenWire(s, p.w, replies[|replies| - 1], p.cb, o);
    }
  }

  lemma TakenWire(s: Setup, w: World, reply: Reply, cb: Callback, o: Order)
    ensures var v := Taken(s, w, reply, cb, o).w; v.wire == w.wire && v.connected == w.connected
  {
    hide Disconnected, Handed, Chosen;
    var v := Heeded(w, reply);
    ChosenAs(v, reply, cb);
    match Chosen(v, reply, cb) {
      case Some(c) => HandedWire(s, c.w, c.from, c.cb, reply, o);
      case None =>
        DownFlags(s, v.(err := REDIS_ERR_OTHER), o);
    }
  }

  lemma HandedWire(s: Setup, w: World, from: Origin, cb: Callback, reply: Reply, o: Order)
    ensures var v := Handed(s, w, from, cb, reply, o).w; v.wire == w.wire && v.connected == w.connected
  {
    hide Ran, Torn;
    var d := Delivery(cb, Some(reply));
    RanTurned(s, w, from, d);
    var v := Ran(s, w, from, d);
    if v.freeing { TornFlags(s, v, o); }
  }

  // ----- No command after the end -----

  /** Nothing more was sent. */
  predicate Mute(w: World, v: World) {
    Closing(v) && v.b.sent == w.b.sent
  }

  lemma TornMute(s: Setup, w: World, o: Order)
    requires Closing(w)
    ensures Mute(w, Torn(s, w, o))
  {
    hide Torn;
    TornFlags(s, w, o);
  }

  lemma DisconnectedMute(s: Setup, w: World, o: Order)
    requires Closing(w)
    ensures Mute(w, Disconnected(s, w, o))
  {
    hide Torn;
    TornFlags(s, Cleaned(if w.err == 0 then w else w.(disconnecting := true)), o);
  }

  lemma HandedMute(s: Setup, w: World, from: Origin, cb: Callback, reply: Reply, o: Order)
    requires Closing(w)
    ensures Mute(w, Handed(s, w, from, cb, reply, o).w)
  {
    hide Ran, Torn;
    var d := Delivery(cb, Some(reply));
    RanTurned(s, w, from, d);
    TornMute(s, Ran(s, w, from, d), o);
  }

  lemma TakenMute(s: Setup, w: World, reply: Reply, cb: Callback, o: Order)
    requires Closing(w)
    ensures Mute(w, Taken(s, w, reply, cb, o).w)
  {
    hide Handed, Chosen, Disconnected;
    var v := Heeded(w, reply);
    ChosenAs(v, reply, cb);
    match Chosen(v, reply, cb) {
      case Some(c) => HandedMute(s, c.w, c.from, c.cb, reply, o);
      case None =>
        if reply.Error? { DisconnectedMute(s, v.(err := REDIS_ERR_OTHER), o); }
    }
  }

  lemma {:induction false} TakenAllMute(s: Setup, w: World, replies: seq<Reply>, o: Order)
    requires Closing(w)
    ensures Mute(w, TakenAll(s, w, replies, o).w)
  {
    hide Taken;
    if replies != [] {
      var before := replies[..|replies| - 1];
      TakenAllMute(s, w, before, o);
      var p := TakenAll(s, w, before, o);
      TakenMute(s, p.w, replies[|replies| - 1], p.cb, o);
    }
  }

  lemma NextMute(s: Setup, w: World, e: Event, o: Order)
    requires Closing(w)
    ensures Mute(w, Next(s, w, e, o))
  {
    hide Torn, Disconnected, TakenAll, Streams.Outcomes, Replies, Written;
    match e {
      case Do(action) =>
        MadeCalled(w, None, action);
        TornMute(s, Made(w, None, action), o);
        DisconnectedMute(s, Made(w, None, action), o);
      case Readable(k, chunk, eof) =>
        ConnectedMute(s, w, k, o);
        var v := if w.connected then w else Connected(s, w, k, o);
        DisconnectedMute(s, v.(err := REDIS_ERR_EOF), o);
        ReceivedMute(s, v, chunk, o);
      case Writable(k, nwritten) =>
        ConnectedMute(s, w, k, o);
        var v := if w.connected then w else Connected(s, w, k, o);
        DisconnectedMute(s, v.(err := Pipeline.REDIS_ERR_IO), o);
        WrittenMute(v, nwritten);
      case Server(_) =>
    }
  }

  lemma ConnectedMute(s: Setup, w: World, k: Connect, o: Order)
    requires Closing(w)
    ensures Mute(w, Connected(s, w, k, o))
  {
    hide Disconnected;
    DisconnectedMute(s, Greeted(s, w, false).(err := Pipeline.REDIS_ERR_IO), o);
  }

  lemma WrittenMute(w: World, nwritten: int)
    requires Closing(w)
    ensures Mute(w, Written(w, nwritten))
  {
  }

  lemma ReceivedMute(s: Setup, w: World, chunk: bytes, o: Order)
    requires Closing(w)
    ensures Mute(w, Received(s, w, chunk, o))
  {
    hide Disconnected, TakenAll, Streams.Outcomes, Replies;
    var got := Streams.Outcomes(w.unread + chunk);
    TakenAllMute(s, w, Replies(got), o);
    var p := TakenAll(s, w, Replies(got), o);
    DisconnectedMute(s, p.w.(err := StreamReader.REDIS_ERR_PROTOCOL), o);
    if got.end.Waiting? { DisconnectedMute(s, p.w.(unread := got.end.rest), o); }
  }
}
