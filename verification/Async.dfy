/** async.c: the context with its queues, tables, flags, output buffer and reader, and what its functions do to it. */
module Async {
  import opened Bytes
  import opened Callbacks
  import opened Causes
  import opened Deliveries
  import opened Ledger
  import opened Life
  import opened Machine
  import opened Objects
  import opened Pending
  import opened Pipeline
  import opened Promises
  import opened Registration
  import opened Resp
  import opened StreamReader
  import opened Subscriptions
  import opened Tracking
  import Arguments
  import Asking
  import Commands
  import D = Dict
  import Formatter
  import Streams

  const REDIS_READER_MAX_BUF := 16384

  class AsyncContext {
    const s: Setup                  // the program
    const c: Context
    const pending: PendingCallbacks
    const reader: Reader
    var monitoring: bool
    var connected: bool
    var disconnecting: bool
    var freeing: bool
    var inCallback: bool
    var cleanup: bool               // the event library's hook is set
    var turns: nat                  // how many functions were called
    var freed: bool
    var aborted: bool               // an assertion about a reply from the server failed
    ghost var now: World

    ghost predicate Apart()
      reads this, pending
    {
      && pending in pending.repr && this !in pending.repr && c !in pending.repr
      && reader !in pending.repr && reader.rstack !in pending.repr && reader.fn !in pending.repr
    }

    /** What waits, and what was sent. */
    ghost predicate Booked()
      reads this, c, pending
    {
      && pending.replies == now.b.replies && pending.invalid == now.b.invalid
      && (!now.aborted ==> pending.subs == now.b.subs) && monitoring == now.b.monitoring
      && c.sent == now.b.sent && c.obuf == now.b.obuf && c.wire == now.wire && c.err == now.err
    }

    ghost predicate Flagged()
      reads this
    {
      && connected == now.connected && disconnecting == now.disconnecting && freeing == now.freeing
      && cleanup == now.hook && turns == |now.calls| && freed == now.freed && aborted == now.aborted
    }

    /** The fields are those of the state now. */
    ghost predicate Valid()
      reads this, c, pending, pending.repr
    {
      Apart() && c.Valid() && pending.Valid() && Booked() && Flagged()
    }

    /** Every reply that was handed out has been freed. */
    ghost predicate Tidy()
      reads reader, reader.rstack, reader.fn
    {
      && reader.Valid()
      && forall k :: 0 <= k < |reader.fn.cells| && k < reader.base ==> reader.fn.cells[k] == Freed
    }

    /** What holds of the reader while the context lives: it has read this. */
    ghost predicate Reads(unread: bytes)
      reads reader, reader.rstack, reader.fn
    {
      Tidy() && reader.err == 0 && reader.Stream() == unread
    }

    /** Between events. */
    ghost predicate Live()
      reads this, c, pending, pending.repr, reader, reader.rstack, reader.fn
    {
      Valid() && Reads(now.unread) && !Over(now) && !inCallback && now.err == 0
    }

    /** No object of a reply is left, and the iterators have gone through the tables, each entry once. */
    ghost predicate Empty()
      reads `now, reader.fn
    {
      now.orderly && forall k :: 0 <= k < |reader.fn.cells| ==> reader.fn.cells[k] == Freed
    }

    /** After an event. */
    ghost predicate Rests()
      reads this, c, pending, pending.repr, reader, reader.rstack, reader.fn
    {
      Valid() && if now.freed then Empty() else now.aborted || Live()
    }

    /** What waits is as before. */
    twostate predicate Still()
      reads pending, pending.repr
    {
      pending.repr == old(pending.repr) && unchanged(pending.repr)
    }

    constructor (s: Setup)
      ensures Live() && now == Start(s) && this.s == s
      ensures fresh(c) && fresh(pending.repr) && fresh(reader) && fresh(reader.rstack) && fresh(reader.fn)
    {
      hide PendingCallbacks.Valid, Context.Valid, Reader.Waiting, Reader.Failed;
      this.s := s;
      c := new Context();
      pending := new PendingCallbacks();
      reader := new Reader(REDIS_READER_MAX_BUF);
      monitoring, connected, disconnecting, freeing, inCallback := false, false, false, false, false;
      cleanup, turns, freed, aborted := s.hook, 0, false, false;
      now := Start(s);
      new;
      pending.Flag();
    }

    // ----- Issuing commands -----

    /** `redisAsyncCommandArgv`. */
    method Issue(argv: Request, fn: bool, privdata: nat) returns (ok: bool)
      requires Valid() && !Over(now)
      modifies `now, `monitoring, c`obuf, c`sent, pending.repr
      ensures Valid() && fresh(pending.repr - old(pending.repr)) && (!ok ==> Still())
      ensures ok <==>
              && !old(now).disconnecting && !old(now).freeing
              && (Classify(argv) == Unsubscribe ==> old(now).b.subs.subscribed)
      ensures !ok ==> now == old(now)
      ensures ok ==>
                && now == old(now).(b := now.b) && Enlisted(old(now).b, now.b, argv, Callback(fn, privdata, 1))
                && now.b.sent == old(now).b.sent + [argv] && now.b.obuf == old(now).b.obuf + Formatter.Wire(argv)
      ensures ok == Accepts(old(now), argv) && now == Issued(old(now), argv, Callback(fn, privdata, 1))
    {
      hide AsyncContext.Valid, Accepts, Issued, Formatter.Wire, Formatter.Sizes, Enlisted, Classify;
      var cmd, len := Formatter.FormatSdsCommandArgv(argv);
      ok := AsyncCommand(cmd, argv, fn, privdata);
    }

    /** `__redisAsyncCommand`: cmd is the text of the command. */
    method AsyncCommand(cmd: bytes, ghost argv: Request, fn: bool, privdata: nat) returns (ok: bool)
      requires Valid() && !Over(now) && cmd == Formatter.Wire(argv)
      modifies `now, `monitoring, c`obuf, c`sent, pending.repr
      ensures Valid() && fresh(pending.repr - old(pending.repr)) && (!ok ==> Still())
      ensures ok <==>
              && !old(now).disconnecting && !old(now).freeing
              && (Classify(argv) == Unsubscribe ==> old(now).b.subs.subscribed)
      ensures !ok ==> now == old(now)
      ensures ok ==>
                && now == old(now).(b := now.b) && Enlisted(old(now).b, now.b, argv, Callback(fn, privdata, 1))
                && now.b.sent == old(now).b.sent + [argv] && now.b.obuf == old(now).b.obuf + Formatter.Wire(argv)
      ensures ok == Accepts(old(now), argv) && now == Issued(old(now), argv, Callback(fn, privdata, 1))
    {
      hide Context.Valid, PendingCallbacks.Valid, Formatter.Wire, Formatter.Sizes, Classify, Filed, Enlisted;
      IssuedAs(now, argv, Callback(fn, privdata, 1));
      if disconnecting || freeing {
        return false;
      }
      var cb := Callback(fn, privdata, 1);
      ok := Register(cmd + [NUL], argv, cb);
      if ok {
        Append(cmd, argv, cb);
      }
    }

    /** The part of `__redisAsyncCommand` that finds out what the command is and registers the callback. */
    method Register(mem: bytes, ghost argv: Request, cb: Callback) returns (ok: bool)
      requires Valid() && !Over(now) && mem == Formatter.Wire(argv) + [NUL]
      modifies `now, `monitoring, pending.repr
      ensures Valid() && fresh(pending.repr - old(pending.repr)) && (!ok ==> Still())
      ensures ok == (Classify(argv) == Unsubscribe ==> old(now).b.subs.subscribed)
      ensures now == if ok then old(now).(b := Filed(old(now).b, argv, cb)) else old(now)
    {
      hide AsyncContext.Valid, Formatter.Wire, Formatter.Sizes, Classify, Filed, Arguments.Ahead;
      var verb, pvariant, next := Commands.ReadVerb(mem, argv);
      ok := File(verb, pvariant, mem, next, argv, cb);
    }

    method File(verb: Verb, pvariant: bool, mem: bytes, next: nat, ghost argv: Request, cb: Callback)
      returns (ok: bool)
      requires Valid() && !Over(now) && verb == Classify(argv) && pvariant == PVariant(argv[0])
      requires Arguments.Ahead(mem, next, argv[1..]) && Formatter.Sizes(argv[1..])
      modifies `now, `monitoring, pending.repr
      ensures Valid() && fresh(pending.repr - old(pending.repr)) && (!ok ==> Still())
      ensures ok == (verb == Unsubscribe ==> old(now).b.subs.subscribed)
      ensures now == if ok then old(now).(b := Filed(old(now).b, argv, cb)) else old(now)
    {
      hide Context.Valid, PendingCallbacks.Valid, Formatter.Sizes, Classify, Filed, Subscribed, Arguments.Ahead;
      hide PVariant;
      ok := Insert(verb, pvariant, mem, next, argv, cb);
      if ok {
        FiledAs(now.b, argv, cb);
        now := now.(b := Filed(now.b, argv, cb));
      }
    }

    /** The callback is stored under the names, or in a queue. */
    method Insert(verb: Verb, pvariant: bool, mem: bytes, next: nat, ghost argv: Request, cb: Callback)
      returns (ok: bool)
      requires pending.Valid() && Apart() && verb == Classify(argv) && pvariant == PVariant(argv[0])
      requires Arguments.Ahead(mem, next, argv[1..]) && Formatter.Sizes(argv[1..])
      modifies `monitoring, pending.repr
      ensures pending.Valid() && Apart() && fresh(pending.repr - old(pending.repr)) && (!ok ==> Still())
      ensures ok == (verb == Unsubscribe ==> old(pending.subs).subscribed)
      ensures monitoring == (old(monitoring) || verb == Monitor)
      ensures pending.subs ==
              if verb == Subscribe then Subscribed(old(pending.subs), argv, cb) else old(pending.subs)
      ensures ok ==>
                var waits := verb == Monitor || (verb == Regular && !old(pending.subs).subscribed);
                && pending.replies == old(pending.replies) + (if waits then [cb] else [])
                && pending.invalid == old(pending.invalid) + (if verb == Regular && !waits then [cb] else [])
    {
      hide PendingCallbacks.Valid, SubscribeAll, PVariant, Classify, Formatter.Sizes, Arguments.Ahead;
      pending.Flag();
      match verb {
        case Subscribe =>
          pending.Subscribe(pvariant, mem, next, argv[1..], cb);
        case Unsubscribe =>
          if !pending.sub.subscribed {
            return false;
          }
        case Monitor =>
          monitoring := true;
          pending.PushReply(cb);
        case Regular =>
          if pending.sub.subscribed {
            pending.PushInvalid(cb);
          } else {
            pending.PushReply(cb);
          }
      }
      pending.Flag();
      return true;
    }

    /** `__redisAppendCommand`. */
    method Append(cmd: bytes, ghost argv: Request, ghost cb: Callback)
      requires Valid() && cmd == Formatter.Wire(argv)
      modifies `now, c`obuf, c`sent
      ensures Valid() && now == old(now).(b := Appended(old(now).b, argv, cb))
    {
      hide Context.Valid, PendingCallbacks.Valid, Formatter.Wire, Formatter.Sizes;
      c.AppendCommand(cmd, argv);
      now := now.(b := Appended(now.b, argv, cb));
    }

    // ----- Callbacks, disconnecting and freeing call each other; a callback can only set flags -----

    /** The program's part of a callback: any list of calls on the context. */
    method UserCallback(ghost turn: nat, script: seq<Action>)
      requires Valid() && !Over(now) && inCallback
      modifies `now, `monitoring, `disconnecting, `freeing, c`obuf, c`sent, pending.repr
      ensures Valid() && fresh(pending.repr - old(pending.repr)) && (Closing(old(now)) ==> Still())
      ensures now == Script(old(now), turn, script)
      decreases 0, 9
    {
      hide AsyncContext.Valid, Made;
      Separate();
      assert script[..0] == [];
      for k := 0 to |script|
        invariant Valid() && fresh(pending.repr - old(pending.repr)) && (Closing(old(now)) ==> Still())
        invariant now == Script(old(now), turn, script[..k])
      {
        ScriptCalled(old(now), turn, script[..k]);
        assert script[..k + 1][..k] == script[..k];
        Act(Some(turn), script[k]);
      }
      assert script[..|script|] == script;
    }

    /** One call of the program from a callback. */
    method Act(ghost turn: Option<nat>, action: Action)
      requires Valid() && !Over(now) && inCallback
      modifies `now, `monitoring, `disconnecting, `freeing, c`obuf, c`sent, pending.repr
      ensures Valid() && fresh(pending.repr - old(pending.repr)) && (Closing(old(now)) ==> Still())
      ensures now == Made(old(now), turn, action)
      decreases 0, 8
    {
      hide AsyncContext.Valid, Entered, Classify;
      ghost var o;
      Separate();
      Note(turn, action);
      match action {
        case Issue(argv, fn, privdata) =>
          var ok := Issue(argv, fn, privdata);
        case Quit =>
          o := Disconnect();
        case Release =>
          o := Free();
      }
    }

    /** The program makes a call. */
    ghost method Note(turn: Option<nat>, action: Action)
      requires Valid()
      modifies `now
      ensures Valid() && now == Noted(old(now), turn, action)
    {
      hide Context.Valid, PendingCallbacks.Valid;
      now := Noted(now, turn, action);
    }

    lemma Unfolded()
      requires Valid()
      ensures pending in pending.repr && pending.Valid() && pending.replies == now.b.replies
      ensures c.err == now.err && c.obuf == now.b.obuf && monitoring == now.b.monitoring
      ensures !now.aborted ==> pending.subs == now.b.subs
    {
      hide Context.Valid, PendingCallbacks.Valid;
    }

    method MarkQuit()
      requires Valid()
      modifies `now, `disconnecting
      ensures Valid() && now == Acted(old(now), Quit)
    {
      hide Context.Valid, PendingCallbacks.Valid;
      disconnecting := true;
      now := now.(disconnecting := true);
    }

    method MarkRelease()
      requires Valid()
      modifies `now, `freeing
      ensures Valid() && now == Acted(old(now), Release)
    {
      hide Context.Valid, PendingCallbacks.Valid;
      freeing := true;
      now := now.(freeing := true);
    }

    /** `redisAsyncDisconnect`: deferred when there are callbacks to run first. */
    method Disconnect() returns (ghost o: Order)
      requires Valid() && !Over(now) && (inCallback || Tidy())
      modifies `now, `disconnecting
      modifies if inCallback then {} else {this, c, reader, reader.fn} + pending.repr
      ensures Valid() && fresh(pending.repr - old(pending.repr)) && inCallback == old(inCallback)
      ensures old(inCallback) ==> Still() && now == Acted(old(now), Quit)
      ensures !old(inCallback) ==> now == Carried(s, Acted(old(now), Quit), Quit, o)
      ensures !old(inCallback) && now.freed ==> Empty()
      ensures !old(inCallback) && !now.freed ==> unchanged(reader, reader.fn)
      decreases if inCallback then 0 else 1, 7
    {
      hide AsyncContext.Valid, AsyncContext.Tidy, AsyncContext.Empty, PendingCallbacks.Valid, Machine.Disconnected;
      o := Order([], []);
      Separate();
      MarkQuit();
      if !inCallback {
        Unfolded();
        var none := pending.NoReplies();
        if none {
          ghost var w := now;
          o := AsyncDisconnect();
          Gone(s, w, o);
        }
      }
    }

    /** `redisAsyncFree`: deferred when called from a callback. */
    method Free() returns (ghost o: Order)
      requires Valid() && !Over(now) && (inCallback || Tidy())
      modifies `now, `freeing
      modifies if inCallback then {} else {this, c, reader, reader.fn} + pending.repr
      ensures Valid() && fresh(pending.repr - old(pending.repr)) && inCallback == old(inCallback)
      ensures old(inCallback) ==> Still() && now == Acted(old(now), Release)
      ensures !old(inCallback) ==> now == Carried(s, Acted(old(now), Release), Release, o) && Empty()
      decreases if inCallback then 0 else 1, 7
    {
      hide AsyncContext.Valid, AsyncContext.Tidy, AsyncContext.Empty, Machine.Torn;
      o := Order([], []);
      Separate();
      MarkRelease();
      if !inCallback {
        o := AsyncFree();
      }
    }

    lemma Separate()
      requires Valid()
      ensures Apart()
    {
      hide Context.Valid, PendingCallbacks.Valid;
    }

    /** `__redisRunCallback`: a NULL function is skipped. */
    method RunCallback(ghost from: Origin, cb: Callback, reply: Option<Reply>)
      requires Valid() && !Over(now) && !inCallback
      modifies `now, `monitoring, `disconnecting, `freeing, `turns, `inCallback, c`obuf, c`sent, pending.repr
      ensures Valid() && !Over(now) && !inCallback && now == Ran(s, old(now), from, Delivery(cb, reply))
      ensures fresh(pending.repr - old(pending.repr)) && (Closing(old(now)) ==> Still()) && now.err == old(now).err
      decreases 1, 0
    {
      hide AsyncContext.Valid, Script;
      RanTurned(s, now, from, Delivery(cb, reply));
      var n := turns;
      Count();
      Separate();
      Enter(from, cb, reply);
      if cb.fn {
        UserCallback(n, s.user(n));
        Leave();
      }
    }

    lemma Count()
      requires Valid()
      ensures turns == |now.calls| && disconnecting == now.disconnecting && freeing == now.freeing
      ensures connected == now.connected
    {
      hide Context.Valid, PendingCallbacks.Valid;
    }

    /** It is the callback's turn; its function, if there is one, is called. */
    method Enter(ghost from: Origin, cb: Callback, ghost reply: Option<Reply>)
      requires Valid()
      modifies `now, `inCallback, `turns
      ensures Valid() && inCallback == (old(inCallback) || cb.fn)
      ensures now == old(now).(given := old(now).given + [Handout(from, Delivery(cb, reply))],
                               calls := old(now).calls + if cb.fn then [Delivery(cb, reply)] else [])
    {
      hide Context.Valid, PendingCallbacks.Valid;
      if cb.fn {
        inCallback := true;
        turns := turns + 1;
      }
      now := now.(given := now.given + [Handout(from, Delivery(cb, reply))],
                  calls := now.calls + if cb.fn then [Delivery(cb, reply)] else []);
    }

    method Leave()
      requires Valid()
      modifies `inCallback
      ensures Valid() && !inCallback
    {
      hide Context.Valid, PendingCallbacks.Valid;
      inCallback := false;
    }

    // ----- Teardown -----

    /** Execute the callbacks of pending replies with the NULL reply. No callback can add to the queue. */
    method DrainReplies()
      requires Valid() && !Over(now) && !inCallback && Closing(now)
      modifies `now, `monitoring, `disconnecting, `freeing, `turns, `inCallback, c`obuf, c`sent, pending.repr
      ensures Valid() && !Over(now) && !inCallback && Closing(now) && pending.repr == old(pending.repr)
      ensures now == Drained(s, old(now), |old(now).b.replies|)
      decreases 1, 2
    {
      hide AsyncContext.Valid, Drained;
      ghost var w, n := now, 0;
      NoneDrained(s, w);
      Separate();
      var more := true;
      while more
        invariant Valid() && !Over(now) && !inCallback && Closing(now) && pending.repr == old(pending.repr)
        invariant n <= |w.b.replies| && now == Drained(s, w, n) && (!more ==> n == |w.b.replies|)
        decreases |w.b.replies| - n, more
      {
        more := DrainOne(w, n);
        n := if more then n + 1 else n;
      }
    }

    /** One turn of that loop. */
    method DrainOne(ghost w: World, ghost n: nat) returns (more: bool)
      requires Valid() && !Over(now) && !inCallback && Closing(w) && n <= |w.b.replies| && now == Drained(s, w, n)
      modifies `now, `monitoring, `disconnecting, `freeing, `turns, `inCallback, c`obuf, c`sent, pending.repr
      ensures Valid() && !Over(now) && !inCallback && Closing(now) && pending.repr == old(pending.repr)
      ensures more == (n < |w.b.replies|) && now == Drained(s, w, if more then n + 1 else n)
      decreases 1, 1
    {
      hide AsyncContext.Valid, Ran;
      DrainedDown(s, w, n);
      Separate();
      var cb;
      more, cb := ShiftReply();
      if more {
        DrainedDown(s, w, n + 1);
        RunCallback(FromReplies, cb, None);
      }
    }

    /** The first waiting callback is shifted off the queue, if there is one. */
    method ShiftReply() returns (ok: bool, cb: Callback)
      requires Valid()
      modifies `now, pending.repr
      ensures Valid() && pending.repr == old(pending.repr) && ok == (old(now).b.replies != [])
      ensures ok ==> cb == old(now).b.replies[0]
      ensures now == if ok then old(now).(b := old(now).b.(replies := old(now).b.replies[1..])) else old(now)
    {
      hide Context.Valid, PendingCallbacks.Valid;
      ok, cb := pending.ShiftReply();
      pending.Flag();
      now := now.(b := now.b.(replies := pending.replies));
    }

    /** The first callback of an invalid command is shifted off its queue. */
    method ShiftInvalid() returns (ok: bool, cb: Callback)
      requires Valid()
      modifies `now, pending.repr
      ensures Valid() && pending.repr == old(pending.repr) && ok == (old(now).b.invalid != [])
      ensures ok ==> cb == old(now).b.invalid[0]
      ensures now == if ok then old(now).(b := old(now).b.(invalid := old(now).b.invalid[1..])) else old(now)
    {
      hide Context.Valid, PendingCallbacks.Valid;
      ok, cb := pending.ShiftInvalid();
      pending.Flag();
      now := now.(b := now.b.(invalid := pending.invalid));
    }

    /** Execute the callbacks of invalid commands. */
    method DrainInvalid()
      requires Valid() && !Over(now) && !inCallback && Closing(now)
      modifies `now, `monitoring, `disconnecting, `freeing, `turns, `inCallback, c`obuf, c`sent, pending.repr
      ensures Valid() && !Over(now) && !inCallback && Closing(now) && pending.repr == old(pending.repr)
      ensures now == Dropped(s, old(now), |old(now).b.invalid|)
      decreases 1, 2
    {
      hide AsyncContext.Valid, Dropped;
      ghost var w, n := now, 0;
      NoneDropped(s, w);
      Separate();
      var more := true;
      while more
        invariant Valid() && !Over(now) && !inCallback && Closing(now) && pending.repr == old(pending.repr)
        invariant n <= |w.b.invalid| && now == Dropped(s, w, n) && (!more ==> n == |w.b.invalid|)
        decreases |w.b.invalid| - n, more
      {
        more := DropOne(w, n);
        n := if more then n + 1 else n;
      }
    }

    /** One turn of that loop. */
    method DropOne(ghost w: World, ghost n: nat) returns (more: bool)
      requires Valid() && !Over(now) && !inCallback && Closing(w) && n <= |w.b.invalid| && now == Dropped(s, w, n)
      modifies `now, `monitoring, `disconnecting, `freeing, `turns, `inCallback, c`obuf, c`sent, pending.repr
      ensures Valid() && !Over(now) && !inCallback && Closing(now) && pending.repr == old(pending.repr)
      ensures more == (n < |w.b.invalid|) && now == Dropped(s, w, if more then n + 1 else n)
      decreases 1, 1
    {
      hide AsyncContext.Valid, Ran;
      DroppedDown(s, w, n);
      Separate();
      var cb;
      more, cb := ShiftInvalid();
      if more {
        DroppedDown(s, w, n + 1);
        RunCallback(FromInvalid, cb, None);
      }
    }

    /** `dictNext` in a loop: every callback of a dictionary is executed once, in the order of the table. */
    method RunDictionary(pvariant: bool) returns (ghost ks: seq<bytes>)
      requires Valid() && !Over(now) && !inCallback && Closing(now)
      modifies `now, `monitoring, `disconnecting, `freeing, `turns, `inCallback, c`obuf, c`sent, pending.repr
      ensures Valid() && !Over(now) && !inCallback && Closing(now) && Still()
      ensures Iterates(ks, old(now).b.subs.Of(pvariant)) && now == Swept(s, old(now), pvariant, ks, |ks|)
      decreases 1, 2
    {
      hide AsyncContext.Valid, Swept, Iterates, PendingCallbacks.Valid, Registrations.Valid, Registry.Valid;
      hide Registry.Reached;
      ghost var w, n := now, 0;
      Separate();
      Unfolded();
      pending.Unfolded();
      pending.sub.Unfolded();
      var d := pending.sub.Of(pvariant);
      var it, de;
      it, de, ks := d.First();
      NoneSwept(s, w, pvariant, ks);
      d.EntryReached(it, de, ks, n);
      while de != null
        invariant Valid() && !Over(now) && !inCallback && Closing(now) && Still()
        invariant fresh(it) && d.Valid() && d.Reached(it, de, ks, n)
        invariant n <= |ks| && d.contents == w.b.subs.Of(pvariant) && (de == null ==> n == |ks|)
        invariant now == Swept(s, w, pvariant, ks, n)
        decreases |ks| - n
      {
        RunEntry(w, pvariant, d, it, de, ks, n);
        de := d.Next(it, de, ks, n);
        n := n + 1;
        d.EntryReached(it, de, ks, n);
      }
    }

    /** The callback of one entry is executed. */
    method RunEntry(ghost w: World, pvariant: bool, d: Registry, ghost it: D.Iteration<Callback>,
                    de: D.Entry<Callback>, ghost ks: seq<bytes>, ghost n: nat)
      requires Valid() && !Over(now) && !inCallback && Closing(w) && d == pending.sub.Of(pvariant)
      requires it !in pending.repr && d.Valid() && d.Reached(it, de, ks, n) && n <= |ks|
      requires d.contents == w.b.subs.Of(pvariant) && now == Swept(s, w, pvariant, ks, n)
      modifies `now, `monitoring, `disconnecting, `freeing, `turns, `inCallback, c`obuf, c`sent, pending.repr
      ensures Valid() && !Over(now) && !inCallback && Closing(now) && Still() && d.Valid() && d.Reached(it, de, ks, n)
      ensures n < |ks| && d.contents == old(d.contents) && now == Swept(s, w, pvariant, ks, n + 1)
      decreases 1, 1
    {
      hide AsyncContext.Valid, Ran, PendingCallbacks.Valid, Registrations.Valid, Registry.Valid, Registry.Reached;
      Separate();
      Unfolded();
      pending.Unfolded();
      pending.sub.Unfolded();
      d.EntryReached(it, de, ks, n);
      SweptDown(s, w, pvariant, ks, n);
      SweptDown(s, w, pvariant, ks, n + 1);
      assert ks[n] in ks;
      RunCallback(Elsewhere, de.val, None);
    }

    /** One dictionary of `__redisAsyncFree`. */
    method RunAndRelease(pvariant: bool) returns (ghost ks: seq<bytes>)
      requires Valid() && !Over(now) && !inCallback && Closing(now)
      modifies `now, `monitoring, `disconnecting, `freeing, `turns, `inCallback, c`obuf, c`sent, pending.repr
      ensures Valid() && !Over(now) && !inCallback && Closing(now) && fresh(pending.repr - old(pending.repr))
      ensures Iterates(ks, old(now).b.subs.Of(pvariant))
      ensures now == Unregistered(Swept(s, old(now), pvariant, ks, |ks|), pvariant)
      decreases 1, 3
    {
      hide AsyncContext.Valid, Swept, Iterates;
      Separate();
      ks := RunDictionary(pvariant);
      ReleaseOne(pvariant);
    }

    /** `dictRelease`. */
    method ReleaseOne(pvariant: bool)
      requires Valid() && !Over(now)
      modifies `now, pending.repr
      ensures Valid() && fresh(pending.repr - old(pending.repr)) && now == Unregistered(old(now), pvariant)
    {
      hide PendingCallbacks.Valid, Context.Valid;
      pending.Release(pvariant);
      pending.Flag();
      now := Unregistered(now, pvariant);
    }

    /** The loops of `__redisAsyncFree`. */
    method RunPending() returns (ghost o: Order)
      requires Valid() && !Over(now) && !inCallback && Closing(now)
      modifies `now, `monitoring, `disconnecting, `freeing, `turns, `inCallback, c`obuf, c`sent, pending.repr
      ensures Valid() && !Over(now) && !inCallback && Closing(now) && fresh(pending.repr - old(pending.repr))
      ensures Orderly(old(now).b.subs, o) && now == Emptied(s, old(now), o)
      decreases 1, 4
    {
      hide AsyncContext.Valid, Drained, Dropped, Swept, Iterates;
      ghost var w := now;
      Separate();
      DrainedDown(s, w, |w.b.replies|);
      DrainReplies();
      DroppedDown(s, now, |now.b.invalid|);
      DrainInvalid();
      ghost var v := now;
      ghost var cs := RunAndRelease(false);
      SweptDown(s, v, false, cs, |cs|);
      ghost var ps := RunAndRelease(true);
      o := Order(cs, ps);
    }

    /** `__redisAsyncFree`: then the event library cleans up, the disconnect callback runs, and the context is gone. */
    method AsyncFree() returns (ghost o: Order)
      requires Valid() && Tidy() && !Over(now) && !inCallback && Closing(now)
      modifies `now, `monitoring, `disconnecting, `freeing, `turns, `inCallback, c`obuf, c`sent, pending.repr
      modifies `cleanup, `freed, reader`reply, reader.fn
      ensures Valid() && Empty() && !inCallback && now == Torn(s, old(now), o)
      ensures fresh(pending.repr - old(pending.repr))
      decreases 1, 5
    {
      hide AsyncContext.Valid, AsyncContext.Tidy, AsyncContext.Empty, Emptied, Orderly;
      Separate();
      o := RunPending();
      Cleanup();
      Finish();
    }

    /** The disconnect callback is told, and the context is freed with its reader. */
    method Finish()
      requires Valid() && Tidy()
      modifies `now, `freed, reader`reply, reader.fn
      ensures Valid() && Empty() && now == Ended(s, old(now)).(orderly := true)
    {
      hide PendingCallbacks.Valid, Context.Valid, AsyncContext.Tidy, AsyncContext.Empty;
      now := Ended(s, now).(orderly := true);
      freed := true;
      Separate();
      DestroyReader();
    }

    /** `redisReaderFree`. */
    method DestroyReader()
      requires Tidy() && now.orderly
      modifies reader`reply, reader.fn
      ensures Empty()
    {
      hide Reader.Valid;
      reader.Destroy();
    }

    /** `_EL_CLEANUP`: the hook is called at most once. */
    method Cleanup()
      requires Valid()
      modifies `now, `cleanup
      ensures Valid() && now == Cleaned(old(now))
    {
      hide PendingCallbacks.Valid, Context.Valid;
      cleanup := false;
      now := Cleaned(now);
    }

    /** `__redisAsyncDisconnect`: without an error it is reached only when no callback is pending. */
    method AsyncDisconnect() returns (ghost o: Order)
      requires Valid() && Tidy() && !Over(now) && !inCallback
      requires now.err == 0 ==> now.disconnecting && now.b.replies == []
      modifies `now, `monitoring, `disconnecting, `freeing, `turns, `inCallback, c`obuf, c`sent, pending.repr
      modifies `cleanup, `freed, reader`reply, reader.fn
      ensures Valid() && Empty() && !inCallback && now == Disconnected(s, old(now), o)
      ensures fresh(pending.repr - old(pending.repr))
      decreases 1, 6
    {
      hide AsyncContext.Valid, AsyncContext.Tidy, AsyncContext.Empty, PendingCallbacks.Valid, Torn;
      Unfolded();
      if c.err == 0 {
        var none := pending.NoReplies();
        assert none;  // the assertion of the source
      } else {
        MarkQuit();
      }
      Cleanup();
      o := AsyncFree();
    }

    // ----- Replies -----

    /** at is the object of the reply that the reader has just given, the only object left; the rest is unread. */
    ghost predicate Holding(at: nat, reply: Reply, rest: bytes)
      reads reader, reader.fn
    {
      && reader.Idle() && reader.Stream() == rest
      && Holds(reader.fn.cells, at, reply) && at + Size(reply) == |reader.fn.cells|
      && forall k :: 0 <= k < |reader.fn.cells| && k < at ==> reader.fn.cells[k] == Freed
    }

    /** `freeReplyObject`. */
    method FreeObject(at: nat, ghost reply: Reply, ghost rest: bytes)
      requires Holding(at, reply, rest)
      modifies reader.fn
      ensures Reads(rest)
    {
      hide Holds, Size, Reader.Waiting, Reader.Failed;
      HoldsIsTree(reader.fn.cells, at, reply);
      reader.fn.Free(at, |reader.fn.cells|);
    }

    /** `redisGetReply`: the reader is asked for its next reply. */
    method NextReply(ghost items: seq<Item>, ghost end: Streams.Ending) 
      returns (ok: bool, at: Option<nat>, ghost rest: bytes)
      requires Tidy() && reader.err == 0 && Streams.Outcomes(reader.Stream()) == Streams.Outcome(items, end)
      modifies reader, reader.rstack, reader.fn
      ensures if ok && at.Some? then
                && items != [] && Holding(at.value, Meaning(items[0]), rest)
                && Streams.Outcomes(rest) == Streams.Outcome(items[1..], end)
              else
                items == [] && Tidy() && ok == end.Waiting? && (ok ==> Reads(rest) && end.rest == rest)
    {
      hide ParseItem, Holds, Size, Meaning, Reader.Waiting, Reader.Failed;
      ok, at := reader.GetReply();
      rest := reader.Stream();
    }

    /** A reply is taken in. */
    ghost method Heed(reply: Reply)
      requires Valid()
      modifies `now
      ensures Valid() && now == Heeded(old(now), reply)
    {
      hide PendingCallbacks.Valid, Context.Valid;
      now := Heeded(now, reply);
    }

    method SetError(err: nat)
      requires Valid()
      modifies `now, c`err
      ensures Valid() && now == old(now).(err := err)
    {
      hide PendingCallbacks.Valid, WireAll;
      c.err := err;
      now := now.(err := err);
    }

    /** One reply of the loop: the first waiting callback takes it, whatever the reply is. */
    method ProcessReply(at: nat, ghost reply: Reply, ghost rest: bytes, cb: Callback)
      returns (stop: bool, cb': Callback, ghost o: Order)
      requires Valid() && !Over(now) && !inCallback && Holding(at, reply, rest)
      modifies `now, `monitoring, `disconnecting, `freeing, `turns, `inCallback, c`obuf, c`sent, pending.repr
      modifies `cleanup, `freed, `aborted, c`err, reader`reply, reader.fn
      ensures Valid() && !inCallback && fresh(pending.repr - old(pending.repr))
      ensures Progress(now, cb', stop) == Taken(s, old(now), reply, cb, o)
      ensures if stop then Over(now) && (now.freed ==> Empty())
              else !Over(now) && Reads(rest) && now.err == old(now).err
    {
      hide AsyncContext.Valid, AsyncContext.Holding, AsyncContext.Tidy, AsyncContext.Empty, Sought, Searched, Handed;
      hide Disconnected;
      hide Reader.Idle, Reader.Valid;
      Separate();
      var view := View(at, reply, rest);
      Heed(view);
      var queued;
      queued, cb' := ShiftReply();
      ghost var from := FromReplies;
      if !queued {
        stop, cb', from, o := Spontaneous(at, view, rest, cb);
        if stop {
          return;
        }
      }
      stop, o := Hand(from, cb', at, view, rest);
    }

    /** No callback waits for the reply: an error closes the connection, anything else must be looked up. */
    method Spontaneous(at: nat, reply: Reply, ghost rest: bytes, cb: Callback)
      returns (stop: bool, cb': Callback, ghost from: Origin, ghost o: Order)
      requires Valid() && !Over(now) && !inCallback && Holding(at, reply, rest)
      modifies `now, `monitoring, `disconnecting, `freeing, `turns, `inCallback, c`obuf, c`sent, pending.repr
      modifies `cleanup, `freed, `aborted, c`err, reader`reply, reader.fn
      ensures Valid() && !inCallback && fresh(pending.repr - old(pending.repr))
      ensures stop == (reply.Error? || Sought(old(now).b, reply, cb).None?)
      ensures now == if reply.Error? then Disconnected(s, old(now).(err := REDIS_ERR_OTHER), o)
                     else if stop then Aborted(old(now)) else Searched(old(now), reply, cb)
      ensures if stop then cb' == cb && Over(now) && (now.freed ==> Empty())
              else
                && !Over(now) && cb' == Sought(old(now).b, reply, cb).value.cb && Holding(at, reply, rest)
                && now.err == old(now).err && from == Sought(old(now).b, reply, cb).value.from
    {
      hide AsyncContext.Valid, AsyncContext.Holding, AsyncContext.Tidy, AsyncContext.Empty, Sought, Searched;
      hide Disconnected;
      hide Reader.Idle, Reader.Valid;
      o, cb', stop, from := Order([], []), cb, true, Elsewhere;
      Separate();
      if reply.Error? {
        ghost var w := now.(err := REDIS_ERR_OTHER);
        o := CloseFor(at, reply, rest);
        Gone(s, w, o);
      } else {
        SearchedAs(now, reply, cb);
        ghost var b := now.b;
        var found := Seek(reply, cb);
        if found.Some? { from := Sought(b, reply, cb).value.from; }
        stop := found.None?;
        cb' := if stop then cb else found.value;
      }
    }

    /** The reply that the object is. */
    method View(at: nat, ghost reply: Reply, ghost rest: bytes) returns (view: Reply)
      requires Holding(at, reply, rest)
      ensures view == reply
    {
      hide Holds, Size, Reader.Waiting, Reader.Failed;
      view := reader.fn.View(at, reply);
    }

    /** The server's error, such as the one for too many clients, closes the connection. */
    method CloseFor(at: nat, ghost reply: Reply, ghost rest: bytes) returns (ghost o: Order)
      requires Valid() && !Over(now) && !inCallback && Holding(at, reply, rest)
      modifies `now, `monitoring, `disconnecting, `freeing, `turns, `inCallback, c`obuf, c`sent, pending.repr
      modifies `cleanup, `freed, reader`reply, reader.fn
      modifies c`err
      ensures Valid() && !inCallback && fresh(pending.repr - old(pending.repr)) && Empty()
      ensures now == Disconnected(s, old(now).(err := REDIS_ERR_OTHER), o)
    {
      hide AsyncContext.Valid, AsyncContext.Holding, AsyncContext.Tidy, AsyncContext.Empty, Disconnected;
      hide Reader.Idle;
      Separate();
      SetError(REDIS_ERR_OTHER);
      FreeObject(at, reply, rest);
      o := AsyncDisconnect();
    }

    /** A reply that nobody waits for needs the flag of a subscription or of MONITOR. */
    method Seek(reply: Reply, cb: Callback) returns (found: Option<Callback>)
      requires Valid() && !Over(now)
      modifies `now, `aborted, pending.repr
      ensures Valid() && pending.repr == old(pending.repr) && now == Searched(old(now), reply, cb)
      ensures var f := Sought(old(now).b, reply, cb); found == if f.None? then None else Some(f.value.cb)
    {
      hide Context.Valid, PendingCallbacks.Valid, Sought, Searched;
      SearchedAs(now, reply, cb);
      found := Search(now.b, reply, cb);
      aborted := found.None?;
      now := Searched(now, reply, cb);
    }

    /** The search changes only what waits; b is what waited before. */
    method Search(ghost b: Books, reply: Reply, cb: Callback) returns (found: Option<Callback>)
      requires pending.Valid() && Apart()
      requires pending.invalid == b.invalid && pending.subs == b.subs && monitoring == b.monitoring
      modifies pending.repr
      ensures pending.Valid() && pending.repr == old(pending.repr) && pending.replies == old(pending.replies)
      ensures pending.invalid == Shortened(b, reply)
      ensures match Sought(b, reply, cb)
              case None => found == None
              case Some(f) => found == Some(f.cb) && pending.subs == f.b.subs
    {
      hide PendingCallbacks.Valid, Handle;
      pending.Flag();
      if !pending.sub.subscribed {
        found := if monitoring then Some(cb) else None;
      } else {
        found := GetSubscribeCallback(reply, cb);
      }
    }

    /** `__redisGetSubscribeCallback`: None when one of its assertions fails. */
    method GetSubscribeCallback(reply: Reply, cb: Callback) returns (found: Option<Callback>)
      requires pending.Valid() && pending in pending.repr && this !in pending.repr
      modifies pending.repr
      ensures pending.Valid() && pending.repr == old(pending.repr) && pending.replies == old(pending.replies)
      ensures reply.Array? ==>
                && pending.invalid == old(pending.invalid)
                && match Handle(old(pending.subs), reply.elements, cb)
                   case Crashed => found == None
                   case Handled(subs, cb') => found == Some(cb') && pending.subs == subs
      ensures !reply.Array? ==> pending.subs == old(pending.subs)
      ensures !reply.Array? && old(pending.invalid) == [] ==> pending.invalid == [] && found == Some(cb)
      ensures !reply.Array? && old(pending.invalid) != [] ==>
                found == Some(old(pending.invalid)[0]) && pending.invalid == old(pending.invalid)[1..]
    {
      hide PendingCallbacks.Valid, Text, PVariant, Stem, Lookup;
      if reply.Array? {
        var e := reply.elements;
        if |e| < 2 || !e[0].String? || !e[1].String? {
          return None;
        }
        var stype := Text(e[0].payload);
        var total := if |e| < 3 then None else Some(e[2]);
        found := pending.TakeMessage(PVariant(stype), Stem(stype), e[1].payload, total, cb);
      } else {
        var ok, first := pending.ShiftInvalid();
        found := Some(if ok then first else cb);
      }
    }

    /** The callback of a reply is run and the reply is freed; a free that the callback requested follows. */
    method Hand(ghost from: Origin, cb: Callback, at: nat, reply: Reply, ghost rest: bytes)
      returns (stop: bool, ghost o: Order)
      requires Valid() && !Over(now) && !inCallback && Holding(at, reply, rest)
      modifies `now, `monitoring, `disconnecting, `freeing, `turns, `inCallback, c`obuf, c`sent, pending.repr
      modifies `cleanup, `freed, reader`reply, reader.fn
      ensures Valid() && !inCallback && fresh(pending.repr - old(pending.repr))
      ensures Progress(now, cb, stop) == Handed(s, old(now), from, cb, reply, o)
      ensures if stop then Over(now) && Empty()
              else !Over(now) && Reads(rest) && now.err == old(now).err
    {
      hide AsyncContext.Valid, AsyncContext.Holding, AsyncContext.Tidy, AsyncContext.Empty, Ran, Torn;
      hide Reader.Idle, Reader.Valid;
      o := Order([], []);
      Separate();
      RunCallback(from, cb, Some(reply));
      FreeObject(at, reply, rest);
      Count();
      stop := cb.fn && freeing;
      if stop {
        ghost var w := now;
        o := AsyncFree();
        Gone(s, w, o);
      }
    }

    /** The loop: every reply is given to its callback, unless one of these ends the context. */
    method TakeAll(ghost unread: bytes) returns (stop: bool, cb: Callback, refused: bool, ghost o: Order)
      requires Valid() && Reads(unread) && !Over(now) && !inCallback
      modifies `now, `monitoring, `disconnecting, `freeing, `turns, `inCallback, c`obuf, c`sent, pending.repr
      modifies `cleanup, `freed, `aborted, c`err, reader, reader.rstack, reader.fn
      ensures Valid() && !inCallback && fresh(pending.repr - old(pending.repr))
      ensures TakenAll(s, old(now), Replies(Streams.Outcomes(unread)), o) == Progress(now, cb, stop)
      ensures var end := Streams.Outcomes(unread).end;
              if stop then Over(now) && (now.freed ==> Empty())
              else
                && !Over(now) && Tidy() && now.err == old(now).err && refused == end.Refused?
                && (!refused ==> Reads(end.rest))
    {
      hide AsyncContext.Valid, AsyncContext.Holding, AsyncContext.Empty, TakenAll, MeaningAll;
      hide Reader.Idle, Reader.Valid, Streams.Outcomes, Taken, Meaning;
      o, cb, stop, refused := Order([], []), NOBODY, false, false;
      ghost var got, n, w, rest := Streams.Outcomes(unread), 0, now, unread;
      Separate();
      NoneTaken(s, w, o);
      MeaningEach(got.items);
      assert Replies(got)[..0] == [] && got.items[0..] == got.items;
      var more := true;
      while more && !stop
        invariant Valid() && !inCallback && fresh(pending.repr - old(pending.repr))
        invariant n <= |got.items| && TakenAll(s, w, Replies(got)[..n], o) == Progress(now, cb, stop)
        invariant if stop then Over(now) && (now.freed ==> Empty()) else !Over(now) && Tidy() && now.err == w.err
        invariant more && !stop ==>
                    Reads(rest) && Streams.Outcomes(rest) == Streams.Outcome(got.items[n..], got.end)
        invariant !more ==>
                    && !stop && n == |got.items| && refused == got.end.Refused?
                    && (!refused ==> Reads(got.end.rest))
        decreases |got.items| - n, more
      {
        var ok, at;
        ok, at, rest := NextReply(got.items[n..], got.end);
        more := ok && at.Some?;
        if more {
          ghost var reply, before := Meaning(got.items[n]), o;
          assert got.items[n..][1..] == got.items[n + 1..] && got.items[n..][0] == got.items[n];
          stop, cb, o := ProcessReply(at.value, reply, rest, cb);
          TakenAllFree(s, w, Replies(got)[..n], before, o);
          assert Replies(got)[..n + 1][..n] == Replies(got)[..n];
          n := n + 1;
          OneTaken(s, w, Replies(got)[..n], o);
        } else {
          refused := !ok;
        }
      }
      if stop {
        TakenUpTo(s, w, Replies(got), n, o);
      } else {
        assert Replies(got)[..n] == Replies(got);
      }
    }

    /** There is no further reply; cb is what the loop's variable holds. */
    method Settle(cb: Callback, refused: bool, ghost end: Streams.Ending) returns (ghost o: Order)
      requires Valid() && Tidy() && !Over(now) && !inCallback
      requires refused == end.Refused? && (!refused ==> Reads(end.rest))
      modifies `now, `monitoring, `disconnecting, `freeing, `turns, `inCallback, c`obuf, c`sent, pending.repr
      modifies `cleanup, `freed, c`err, reader`reply, reader.fn
      ensures Valid() && !inCallback && fresh(pending.repr - old(pending.repr))
      ensures now == Settled(s, old(now), cb, end, o)
      ensures if now.freed then Empty()
              else !Over(now) && Reads(now.unread) && now.err == old(now).err
    {
      hide AsyncContext.Valid, AsyncContext.Tidy, AsyncContext.Empty, PendingCallbacks.Valid, Disconnected;
      o := Order([], []);
      Separate();
      if refused {
        SetError(REDIS_ERR_PROTOCOL);
        ghost var w := now;
        o := AsyncDisconnect();
        Gone(s, w, o);
      } else {
        o := GoOn(cb, end.rest);
      }
    }

    /** The bytes read hold no further reply: a disconnect may have waited for this, or MONITOR goes on. */
    method GoOn(cb: Callback, ghost rest: bytes) returns (ghost o: Order)
      requires Valid() && !Over(now) && !inCallback && Reads(rest)
      modifies `now, `monitoring, `disconnecting, `freeing, `turns, `inCallback, c`obuf, c`sent, pending.repr
      modifies `cleanup, `freed, c`err, reader`reply, reader.fn
      ensures Valid() && !inCallback && fresh(pending.repr - old(pending.repr))
      ensures now == Settled(s, old(now), cb, Streams.Waiting(rest), o)
      ensures if now.freed then Empty()
              else !Over(now) && Reads(now.unread) && now.err == old(now).err
    {
      hide AsyncContext.Valid, AsyncContext.Tidy, AsyncContext.Empty, PendingCallbacks.Valid, Disconnected;
      o := Order([], []);
      Separate();
      Keep(rest);
      Unfolded();
      Count();
      var none := pending.NoReplies();
      if disconnecting && c.obuf == [] && none {
        ghost var w := now;
        o := AsyncDisconnect();
        Gone(s, w, o);
      } else if monitoring {
        PushAgain(cb);
      }
    }

    /** The bytes after the last reply stay in the reader. */
    ghost method Keep(rest: bytes)
      requires Valid()
      modifies `now
      ensures Valid() && now == old(now).(unread := rest)
    {
      hide PendingCallbacks.Valid, Context.Valid;
      now := now.(unread := rest);
    }

    /** MONITOR keeps the last callback waiting. */
    method PushAgain(cb: Callback)
      requires Valid()
      modifies `now, pending.repr
      ensures Valid() && fresh(pending.repr - old(pending.repr)) && now == old(now).(b := Waiting(old(now).b, cb))
    {
      hide PendingCallbacks.Valid, Context.Valid;
      pending.PushReply(cb);
      pending.Flag();
      now := now.(b := Waiting(now.b, cb));
    }

    /** `redisProcessCallbacks`: give the replies that have come to their callbacks, and finish what these deferred. */
    method ProcessCallbacks(ghost unread: bytes) returns (ghost o: Order)
      requires Valid() && Reads(unread) && !Over(now) && !inCallback
      modifies `now, `monitoring, `disconnecting, `freeing, `turns, `inCallback, c`obuf, c`sent, pending.repr
      modifies `cleanup, `freed, `aborted, c`err, reader, reader.rstack, reader.fn
      ensures Valid() && !inCallback && fresh(pending.repr - old(pending.repr))
      ensures now == Processed(s, old(now), Streams.Outcomes(unread), o)
      ensures if Over(now) then now.freed ==> Empty() else Reads(now.unread) && now.err == old(now).err
    {
      hide AsyncContext.Valid, AsyncContext.Reads, AsyncContext.Tidy, AsyncContext.Empty, Streams.Outcomes, Replies;
      hide TakenAll, Disconnected;
      ghost var got, w := Streams.Outcomes(unread), now;
      Separate();
      var stop, cb, refused;
      stop, cb, refused, o := TakeAll(unread);
      if !stop {
        ghost var before := o;
        o := Settle(cb, refused, got.end);
        TakenAllFree(s, w, Replies(got), before, o);
      }
    }

    // ----- Events -----

    /** `__redisAsyncHandleConnect`. */
    method HandleConnect(k: Connect) returns (ok: bool, ghost o: Order)
      requires Valid() && Reads(now.unread) && !Over(now) && !inCallback && now.err == 0
      modifies `now, `monitoring, `disconnecting, `freeing, `turns, `inCallback, c`obuf, c`sent, pending.repr
      modifies `connected, `cleanup, `freed, c`err, reader`reply, reader.fn
      ensures Valid() && !inCallback && fresh(pending.repr - old(pending.repr)) && now == Connected(s, old(now), k, o)
      ensures ok == (k != Failed)
      ensures if ok then !Over(now) && now.err == 0 && Reads(now.unread) else now.freed && Empty()
    {
      hide AsyncContext.Valid, AsyncContext.Tidy, AsyncContext.Empty, Disconnected;
      o, ok := Order([], []), true;
      Separate();
      match k {
        case Failed =>
          Greet(false);
          SetError(REDIS_ERR_IO);
          ghost var w := now;
          o := AsyncDisconnect();
          Gone(s, w, o);
          ok := false;
        case Completed =>
          Greet(true);
          SetConnected();
        case InProgress =>
      }
    }

    /** The connect callback, if there is one, is told. */
    ghost method Greet(status: bool)
      requires Valid()
      modifies `now
      ensures Valid()
      ensures now == Greeted(s, old(now), status)
    {
      hide PendingCallbacks.Valid, Context.Valid;
      now := Greeted(s, now, status);
    }

    method SetConnected()
      requires Valid()
      modifies `now, `connected
      ensures Valid() && now == old(now).(connected := true)
    {
      hide PendingCallbacks.Valid, Context.Valid;
      connected := true;
      now := now.(connected := true);
    }

    /** `redisBufferRead` and what follows: the reader is fed the chunk, and its replies are processed. */
    method Receive(chunk: bytes) returns (ghost o: Order)
      requires Valid() && Reads(now.unread) && !Over(now) && !inCallback
      modifies `now, `monitoring, `disconnecting, `freeing, `turns, `inCallback, c`obuf, c`sent, pending.repr
      modifies `cleanup, `freed, `aborted, c`err, reader, reader.rstack, reader.fn
      ensures Valid() && !inCallback && fresh(pending.repr - old(pending.repr))
      ensures now == Received(s, old(now), chunk, o)
      ensures if Over(now) then now.freed ==> Empty() else Reads(now.unread) && now.err == old(now).err
    {
      hide AsyncContext.Valid, AsyncContext.Reads, AsyncContext.Tidy, AsyncContext.Empty, Processed, Streams.Outcomes;
      Separate();
      FeedReader(now.unread, chunk);
      o := ProcessCallbacks(now.unread + chunk);
    }

    /** `redisReaderFeed`. */
    method FeedReader(ghost unread: bytes, chunk: bytes)
      requires Reads(unread)
      modifies reader`buf, reader`pos, reader`len
      ensures Reads(unread + chunk)
    {
      hide Reader.Idle, Reader.Waiting, Reader.Failed;
      var ok := reader.Feed(chunk);
    }

    /** The socket is at its end. */
    method Lose() returns (ghost o: Order)
      requires Valid() && Tidy() && !Over(now) && !inCallback
      modifies `now, `monitoring, `disconnecting, `freeing, `turns, `inCallback, c`obuf, c`sent, pending.repr
      modifies `cleanup, `freed, c`err, reader`reply, reader.fn
      ensures Valid() && !inCallback && fresh(pending.repr - old(pending.repr)) && Empty() && now.freed
      ensures now == Disconnected(s, old(now).(err := REDIS_ERR_EOF), o)
    {
      hide AsyncContext.Valid, AsyncContext.Tidy, AsyncContext.Empty, Disconnected;
      Separate();
      SetError(REDIS_ERR_EOF);
      ghost var w := now;
      o := AsyncDisconnect();
      Gone(s, w, o);
    }

    /** `redisAsyncHandleRead`: the socket gave a chunk of bytes, or reported its end or an error. */
    method HandleRead(k: Connect, chunk: bytes, eof: bool) returns (ghost o: Order)
      requires Live()
      modifies `now, `monitoring, `disconnecting, `freeing, `turns, `inCallback, c`obuf, c`sent, pending.repr
      modifies `connected, `cleanup, `freed, `aborted, c`err, reader, reader.rstack, reader.fn
      ensures Rests() && fresh(pending.repr - old(pending.repr))
      ensures now == Next(s, old(now), Readable(k, chunk, eof), o)
    {
      hide AsyncContext.Valid, AsyncContext.Tidy, AsyncContext.Empty, Disconnected, Received;
      o := Order([], []);
      Separate();
      Count();
      if !connected {
        var ok;
        ok, o := HandleConnect(k);
        Count();
        if !ok || !connected {
          return;
        }
      }
      if eof {
        o := Lose();
      } else {
        o := Receive(chunk);
      }
    }

    /** `redisAsyncHandleWrite`: the socket takes nwritten bytes or as many as there are, or fails. */
    method HandleWrite(k: Connect, nwritten: int) returns (ghost o: Order)
      requires Live()
      modifies `now, `monitoring, `disconnecting, `freeing, `turns, `inCallback, c`obuf, c`sent, pending.repr
      modifies `connected, `cleanup, `freed, c`err, c`wire, reader`reply, reader.fn
      ensures Rests() && fresh(pending.repr - old(pending.repr))
      ensures now == Next(s, old(now), Writable(k, nwritten), o)
    {
      hide AsyncContext.Valid, AsyncContext.Tidy, AsyncContext.Empty, Disconnected, Flushed;
      o := Order([], []);
      Separate();
      Count();
      if !connected {
        var ok;
        ok, o := HandleConnect(k);
        Count();
        if !ok || !connected {
          return;
        }
      }
      o := Flush(nwritten);
    }

    /** The buffer is written out as far as the socket goes. */
    method Flush(nwritten: int) returns (ghost o: Order)
      requires Valid() && Reads(now.unread) && !Over(now) && !inCallback && now.err == 0
      modifies `now, `monitoring, `disconnecting, `freeing, `turns, `inCallback, c`obuf, c`sent, pending.repr
      modifies `cleanup, `freed, c`err, c`wire, reader`reply, reader.fn
      ensures Valid() && !inCallback && fresh(pending.repr - old(pending.repr))
      ensures now == Flushed(s, old(now), nwritten, o)
      ensures if now.freed then Empty() else !Over(now) && Reads(now.unread) && now.err == 0
    {
      hide AsyncContext.Valid, AsyncContext.Tidy, AsyncContext.Empty, Disconnected, Written;
      o := Order([], []);
      Separate();
      WrittenRests(now, nwritten);
      var ok := Write(nwritten);
      if !ok {
        ghost var w := now;
        o := AsyncDisconnect();
        Gone(s, w, o);
      }
    }

    /** `redisBufferWrite`. */
    method Write(nwritten: int) returns (ok: bool)
      requires Valid() && now.err == 0
      modifies `now, c`obuf, c`err, c`wire
      ensures Valid() && ok == (old(now).b.obuf == [] || nwritten >= 0)
      ensures now == if ok then Written(old(now), nwritten) else old(now).(err := REDIS_ERR_IO)
    {
      hide AsyncContext.Valid, Written;
      Unfolded();
      ok := c.obuf == [] || nwritten >= 0;
      if ok {
        WriteBytes(nwritten);
      } else {
        WriteFails(nwritten);
      }
    }

    /** The socket takes some bytes. */
    method WriteBytes(nwritten: int)
      requires Valid() && now.err == 0 && (now.b.obuf == [] || nwritten >= 0)
      modifies `now, c`obuf, c`err, c`wire
      ensures Valid() && now == Written(old(now), nwritten)
    {
      hide PendingCallbacks.Valid, Context.Valid, Written;
      var ok, done, piece := c.BufferWrite(Clip(nwritten, |c.obuf|));
      WrittenAs(now, nwritten, piece, c.obuf);
      now := now.(wire := c.wire, b := now.b.(obuf := c.obuf));
    }

    /** The socket reports an error. */
    method WriteFails(nwritten: int)
      requires Valid() && now.err == 0 && now.b.obuf != [] && nwritten < 0
      modifies `now, c`obuf, c`err, c`wire
      ensures Valid() && now == old(now).(err := REDIS_ERR_IO)
    {
      hide PendingCallbacks.Valid, Context.Valid;
      var ok, done, piece := c.BufferWrite(nwritten);
      now := now.(err := REDIS_ERR_IO);
    }

    /** A call of the program between events. */
    method Perform(action: Action) returns (ghost o: Order)
      requires Live()
      modifies this, c, reader, reader.fn, pending.repr
      ensures Rests() && fresh(pending.repr - old(pending.repr))
      ensures now == Next(s, old(now), Do(action), o)
    {
      hide AsyncContext.Valid, AsyncContext.Tidy, AsyncContext.Empty, Entered, Accepts, Torn, Disconnected;
      o := Order([], []);
      Separate();
      Note(None, action);
      ghost var w := now;
      match action {
        case Issue(argv, fn, privdata) =>
          var ok := Issue(argv, fn, privdata);
        case Quit =>
          o := Disconnect();
          Gone(s, Acted(w, Quit), o);
        case Release =>
          o := Free();
          Gone(s, Acted(w, Release), o);
      }
    }

    /** The server handles a command or publishes a message: a step that the context does not see yet. */
    ghost method ServerActs(x: Entry)
      requires Live()
      modifies `now
      ensures Live() && now == Next(s, old(now), Server(x), Order([], []))
    {
      hide PendingCallbacks.Valid, Context.Valid;
      if Foreign(x) {
        now := now.(b := now.b.(log := now.b.log + [x]));
      }
    }

    /** One event of a live context. */
    method HandleEvent(event: Event) returns (ghost o: Order)
      requires Live()
      modifies this, c, reader, reader.rstack, reader.fn, pending.repr
      ensures Rests() && fresh(pending.repr - old(pending.repr)) && now == Next(s, old(now), event, o)
    {
      hide AsyncContext.Valid, AsyncContext.Live, AsyncContext.Rests, Next;
      match event {
        case Do(action) =>
          o := Perform(action);
        case Readable(k, chunk, eof) =>
          o := HandleRead(k, chunk, eof);
        case Writable(k, nwritten) =>
          o := HandleWrite(k, nwritten);
        case Server(x) =>
          o := Order([], []);
          ServerActs(x);
          Resting();
      }
    }

    lemma Awake()
      requires Rests()
      ensures Live() <==> !freed && !aborted
      ensures (Over(now) <==> freed || aborted) && (now.freed ==> now.orderly)
    {
      hide Context.Valid, PendingCallbacks.Valid, AsyncContext.Reads;
    }

    lemma Resting()
      requires Live()
      ensures Rests()
    {
      hide AsyncContext.Valid, AsyncContext.Reads;
    }
  }

  /**
   Every run: whatever the program does in its callbacks and between them, and whatever comes from the socket in which
   pieces, the context ends up as the events say (`After`). So, in every context, callbacks and replies meet exactly
   once and in order; the commands sent are those issued before the end; the replies are those in the bytes read; the
   context goes down for a reason, and tells so once; and the subscriptions are those of the protocol.
   */
  method Session(s: Setup, events: seq<Event>) returns (ac: AsyncContext, ghost o: Order)
    ensures fresh(ac) && ac.s == s && ac.Rests() && ac.now == After(s, events, o)
    ensures OnceEach(ac.now) && (Simple(ac.now.b.sent) ==> InTurn(ac.now))
    ensures Asking.Fairly(s, Deeds(events[..Lived(s, events, o)]), ac.now)
    ensures Accounted(ac.now, events[..Lived(s, events, o)])
    ensures EndsWell(ac.now, events[..Lived(s, events, o)]) && Marked(s, Deeds(events[..Lived(s, events, o)]), ac.now)
    ensures Followed(ac.now, o)
  {
    hide AsyncContext.Valid, AsyncContext.Live, AsyncContext.Rests, Next, After, OnceEach, Simple, InTurn, Accounted;
    hide EndsWell, Marked, Followed, Asking.Fairly;
    ac := new AsyncContext(s);
    ac.Resting();
    o := Order([], []);
    NoEvents(s, o);
    assert events[..0] == [];
    for n := 0 to |events|
      invariant fresh(ac) && fresh(ac.c) && fresh(ac.pending.repr)
      invariant fresh(ac.reader) && fresh(ac.reader.rstack) && fresh(ac.reader.fn)
      invariant ac.Rests() && ac.s == s && ac.now == After(s, events[..n], o)
    {
      assert events[..n + 1][..n] == events[..n];
      ac.Awake();
      if ac.freed || ac.aborted {
        OneEvent(s, events[..n + 1], o);
      } else {
        ghost var before := o;
        o := ac.HandleEvent(events[n]);
        AfterFree(s, events[..n], before, o);
        OneEvent(s, events[..n + 1], o);
      }
    }
    assert events[..|events|] == events;
    ac.Awake();
    ExactlyOnce(s, events, o);
    SimpleInTurn(s, events, o);
    Asking.CommandsSent(s, events, o);
    RepliesTaken(s, events, o);
    EndsFor(s, events, o);
    SubscriptionsFollowed(s, events, o);
  }
}
