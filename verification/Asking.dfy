/** The calls that the program makes, and which of its commands are sent, for every run. */
module Asking {
  import opened Bytes
  import opened Callbacks
  import opened Causes
  import opened Deliveries
  import opened Formatter
  import opened Machine
  import opened Promises
  import opened Resp
  import opened Subscriptions
  import opened Tracking
  import Pipeline
  import StreamReader
  import Streams

  // ----- The calls -----

  /** The calls made in one callback, or between events. */
  function During(asked: seq<Ask>, turn: Option<nat>): seq<Action> {
    if asked == [] then []
    else
      var a := asked[|asked| - 1];
      During(asked[..|asked| - 1], turn) + if a.turn == turn then [a.action] else []
  }

  lemma DuringMore(asked: seq<Ask>, a: Ask, turn: Option<nat>)
    ensures During(asked + [a], turn) == During(asked, turn) + if a.turn == turn then [a.action] else []
  {
    assert (asked + [a])[..|asked|] == asked;
  }

  /** All calls so far were made between events or in callbacks before the n-th. */
  predicate Within(asked: seq<Ask>, n: nat) {
    forall i :: 0 <= i < |asked| ==> asked[i].turn.None? || asked[i].turn.value < n
  }

  lemma {:induction false} NoneDuring(asked: seq<Ask>, n: nat)
    requires Within(asked, n)
    ensures During(asked, Some(n)) == []
  {
    if asked != [] { NoneDuring(asked[..|asked| - 1], n); }
  }

  /** The calls are those that the program makes between events and in the callbacks that were called. */
  ghost predicate Voiced(s: Setup, outside: seq<Action>, w: World) {
    && During(w.asked, None) == outside && Within(w.asked, |w.calls|)
    && forall n: nat :: n < |w.calls| ==> During(w.asked, Some(n)) == s.user(n)
  }

  // ----- The commands that are sent -----

  predicate Quits(a: Action) {
    a == Quit || a == Release
  }

  /** The program has asked for a disconnect or a free. */
  ghost predicate Leaving(asked: seq<Ask>) {
    exists j :: 0 <= j < |asked| && Quits(asked[j].action)
  }

  lemma LeavingMore(asked: seq<Ask>, a: Ask)
    ensures Leaving(asked + [a]) <==> Leaving(asked) || Quits(a.action)
  {
    var all := asked + [a];
    assert all[|asked|] == a;
    if Leaving(asked) {
      var j :| 0 <= j < |asked| && Quits(asked[j].action);
      assert Quits(all[j].action);
    }
  }

  /** The callback got NULL: the context is being torn down. */
  predicate Last(calls: seq<Delivery>, turn: Option<nat>) {
    turn.Some? && turn.value < |calls| && calls[turn.value].reply.None?
  }

  /** A command is sent if it comes before all that ends a context; an unsubscribe needs the flag. */
  ghost predicate Sends(before: seq<Ask>, calls: seq<Delivery>, a: Ask) {
    && a.action.Issue? && !Leaving(before) && !Last(calls, a.turn)
    && (Classify(a.action.argv) == Unsubscribe ==> a.subscribed)
  }

  /** The calls that issue the commands sent. */
  ghost function Heeding(asked: seq<Ask>, calls: seq<Delivery>): (r: seq<Ask>)
    ensures forall i :: 0 <= i < |r| ==> r[i].action.Issue?
  {
    if asked == [] then []
    else
      var before, a := asked[..|asked| - 1], asked[|asked| - 1];
      Heeding(before, calls) + if Sends(before, calls, a) then [a] else []
  }

  /** Each such call has its place, after the ones before it. */
  lemma {:induction false} EachSent(asked: seq<Ask>, calls: seq<Delivery>, i: nat)
    requires i < |asked| && Sends(asked[..i], calls, asked[i])
    ensures Heeding(asked[..i], calls) + [asked[i]] <= Heeding(asked, calls)
  {
    hide Sends;
    var n := |asked| - 1;
    if i < n {
      assert asked[..n][..i] == asked[..i];
      EachSent(asked[..n], calls, i);
    }
  }

  function Argvs(sent: seq<Ask>): (r: seq<seq<bytes>>)
    requires forall i :: 0 <= i < |sent| ==> sent[i].action.Issue?
    ensures |r| == |sent| && forall i :: 0 <= i < |sent| ==> r[i] == sent[i].action.argv
  {
    seq(|sent|, i requires 0 <= i < |sent| => sent[i].action.argv)
  }

  function Given(a: Action): Callback
    requires a.Issue?
  {
    Callback(a.fn, a.privdata, 1)
  }

  /** Their callbacks: of commands that wait for one reply each, or of those that came while subscribed. */
  function CallbacksOf(sent: seq<Ask>, subscribed: bool): seq<Callback>
    requires forall i :: 0 <= i < |sent| ==> sent[i].action.Issue?
  {
    if sent == [] then []
    else
      var a := sent[|sent| - 1];
      CallbacksOf(sent[..|sent| - 1], subscribed)
      + if Classify(a.action.argv) == Regular && a.subscribed == subscribed then [Given(a.action)] else []
  }

  /** What was sent and what entered the queues is what those calls say; MONITOR adds more to the queue of replies. */
  ghost predicate Answered(w: World) {
    var h := Heeding(w.asked, w.calls);
    && w.b.sent == Argvs(h) && w.b.entered == CallbacksOf(h, true)
    && (!w.b.monitoring ==> w.b.accepted == CallbacksOf(h, false))
  }

  // ----- One call -----

  lemma HeedingMore(asked: seq<Ask>, calls: seq<Delivery>, a: Ask)
    ensures Heeding(asked + [a], calls) == Heeding(asked, calls) + if Sends(asked, calls, a) then [a] else []
  {
    hide Sends;
    assert (asked + [a])[..|asked|] == asked;
  }

  lemma CallbacksMore(sent: seq<Ask>, a: Ask, subscribed: bool)
    requires a.action.Issue? && forall i :: 0 <= i < |sent| ==> sent[i].action.Issue?
    ensures CallbacksOf(sent + [a], subscribed) ==
            CallbacksOf(sent, subscribed)
            + if Classify(a.action.argv) == Regular && a.subscribed == subscribed then [Given(a.action)] else []
  {
    hide Classify;
    assert (sent + [a])[..|sent|] == sent;
  }

  /** Before a call, the context refuses commands exactly when the calls before it, or the teardown, are a reason. */
  ghost predicate Ready(w: World, turn: Option<nat>) {
    Closing(w) <==> Leaving(w.asked) || Last(w.calls, turn)
  }

  lemma SentAnswered(w: World, v: World, x: Ask)
    requires Answered(w) && Sends(w.asked, w.calls, x) && x.action.Issue? && x.subscribed == w.b.subs.subscribed
    requires v.asked == w.asked + [x] && v.calls == w.calls && v.b.sent == w.b.sent + [x.action.argv]
    requires Enlisted(w.b, v.b, x.action.argv, Given(x.action))
    ensures Answered(v)
  {
    hide Classify, Heeding, Argvs, CallbacksOf, Sends, Sizes;
    var h := Heeding(w.asked, w.calls);
    HeedingMore(w.asked, w.calls, x);
    CallbacksMore(h, x, true);
    CallbacksMore(h, x, false);
    assert Argvs(h + [x]) == Argvs(h) + [x.action.argv];
    assert forall b :: CallbacksOf(h, b) + [] == CallbacksOf(h, b);
  }

  lemma UnsentAnswered(w: World, v: World, x: Ask)
    requires Answered(w) && !Sends(w.asked, w.calls, x)
    requires v.asked == w.asked + [x] && v.calls == w.calls && v.b == w.b
    ensures Answered(v)
  {
    hide Heeding, Argvs, CallbacksOf, Sends;
    HeedingMore(w.asked, w.calls, x);
    assert Heeding(w.asked, w.calls) + [] == Heeding(w.asked, w.calls);
  }

  lemma MadeAnswered(w: World, turn: Option<nat>, a: Action)
    requires Answered(w) && Ready(w, turn)
    ensures Answered(Made(w, turn, a)) && Ready(Made(w, turn, a), turn)
  {
    hide Classify, Answered, Issued, Accepts, Leaving, Enlisted, Sizes, Wire;
    var x := Ask(turn, a, w.b.subs.subscribed);
    LeavingMore(w.asked, x);
    if a.Issue? {
      IssuedAs(Noted(w, turn, a), a.argv, Given(a));
    }
    var v := Made(w, turn, a);
    if a.Issue? && Accepts(Noted(w, turn, a), a.argv) {
      SentAnswered(w, v, x);
    } else {
      UnsentAnswered(w, v, x);
    }
  }

  lemma {:induction false} ScriptAnswered(w: World, turn: nat, script: seq<Action>)
    requires Answered(w) && Ready(w, Some(turn))
    ensures Answered(Script(w, turn, script)) && Ready(Script(w, turn, script), Some(turn))
  {
    hide Answered, Ready, Made;
    if script != [] {
      var before := script[..|script| - 1];
      ScriptAnswered(w, turn, before);
      MadeAnswered(Script(w, turn, before), Some(turn), script[|script| - 1]);
    }
  }

  lemma MadeAsked(w: World, turn: Option<nat>, a: Action)
    ensures Made(w, turn, a).asked == w.asked + [Ask(turn, a, w.b.subs.subscribed)]
    ensures Made(w, turn, a).calls == w.calls
  {
    hide Acted;
    ActedCalledAsked(Noted(w, turn, a), a);
  }

  lemma ActedCalledAsked(w: World, a: Action)
    ensures Acted(w, a).asked == w.asked && Acted(w, a).calls == w.calls
  {
    hide Issued, Accepts, Enlisted, Classify, Sizes, Wire;
    if a.Issue? { IssuedAs(w, a.argv, Callback(a.fn, a.privdata, 1)); }
  }

  lemma {:induction false} ScriptVoiced(w: World, turn: nat, script: seq<Action>, t: Option<nat>)
    requires Within(w.asked, turn)
    ensures var v := Script(w, turn, script);
            && During(v.asked, t) == During(w.asked, t) + (if t == Some(turn) then script else [])
            && Within(v.asked, turn + 1) && v.calls == w.calls
  {
    hide Made, During;
    if script == [] {
      assert During(w.asked, t) + [] == During(w.asked, t);
    } else {
      var before, a := script[..|script| - 1], script[|script| - 1];
      ScriptVoiced(w, turn, before, t);
      var v := Script(w, turn, before);
      MadeAsked(v, Some(turn), a);
      DuringMore(v.asked, Ask(Some(turn), a, v.b.subs.subscribed), t);
      assert During(w.asked, t) + before + [a] == During(w.asked, t) + script;
    }
  }

  // ----- One callback -----

  /** A further call of a function makes no difference to the commands sent before. */
  lemma {:induction false} HeedingCalls(asked: seq<Ask>, calls: seq<Delivery>, d: Delivery)
    requires Within(asked, |calls|)
    ensures Heeding(asked, calls + [d]) == Heeding(asked, calls)
  {
    if asked != [] {
      HeedingCalls(asked[..|asked| - 1], calls, d);
    }
  }

  /** While the context is not torn down, commands are refused exactly after the program asked for its end. */
  ghost predicate Fair(s: Setup, outside: seq<Action>, w: World, down: bool) {
    && Voiced(s, outside, w) && Answered(w)
    && if down then Closing(w) else Closing(w) <==> Leaving(w.asked)
  }

  lemma RanFair(s: Setup, outside: seq<Action>, w: World, from: Origin, d: Delivery)
    requires Fair(s, outside, w, d.reply.None?)
    ensures Fair(s, outside, Ran(s, w, from, d), d.reply.None?)
  {
    hide Answered, Leaving, During, Script, Within;
    RanTurned(s, w, from, d);
    var v := w.(given := w.given + [Handout(from, d)]);
    SameAnswered(w, v);
    if d.cb.fn {
      var n := |w.calls|;
      var x := v.(calls := v.calls + [d]);
      CalledAnswered(v, d);
      NoneDuring(w.asked, n);
      assert Last(x.calls, Some(n)) <==> d.reply.None?;
      ScriptAnswered(x, n, s.user(n));
      forall t
        ensures var y := Script(x, n, s.user(n));
                During(y.asked, t) == During(w.asked, t) + (if t == Some(n) then s.user(n) else [])
                && Within(y.asked, n + 1) && y.calls == x.calls
      {
        ScriptVoiced(x, n, s.user(n), t);
      }
      assert [] + s.user(n) == s.user(n);
    }
  }

  lemma SameAnswered(w: World, v: World)
    requires v == w.(b := v.b, given := v.given) && Answered(w)
    requires v.b.sent == w.b.sent && v.b.entered == w.b.entered
    requires v.b.accepted == w.b.accepted && v.b.monitoring == w.b.monitoring
    ensures Answered(v)
  {
    hide Heeding, Argvs, CallbacksOf;
  }

  lemma CalledAnswered(w: World, d: Delivery)
    requires Answered(w) && Within(w.asked, |w.calls|)
    ensures Answered(w.(calls := w.calls + [d]))
  {
    hide Heeding, Argvs, CallbacksOf;
    HeedingCalls(w.asked, w.calls, d);
  }

  // ----- Teardown -----

  /** What waits in the queues makes no difference. */
  lemma FairWith(s: Setup, outside: seq<Action>, w: World, v: World, down: bool)
    requires Fair(s, outside, w, down) && v.asked == w.asked && v.calls == w.calls && Closing(v) == Closing(w)
    requires v.b.sent == w.b.sent && v.b.entered == w.b.entered && v.b.monitoring == w.b.monitoring
    requires v.b.accepted == w.b.accepted || v.b.monitoring
    ensures Fair(s, outside, v, down)
  {
    hide Heeding, Argvs, CallbacksOf, During, Leaving, Within;
  }

  lemma {:induction false} DrainedFair(s: Setup, outside: seq<Action>, w: World, n: nat)
    requires Fair(s, outside, w, true)
    ensures Fair(s, outside, Drained(s, w, n), true)
  {
    hide Fair, Ran;
    if n > 0 {
      DrainedFair(s, outside, w, n - 1);
      var v := Drained(s, w, n - 1);
      if v.b.replies != [] {
        var x := v.(b := v.b.(replies := v.b.replies[1..]));
        FairWith(s, outside, v, x, true);
        RanFair(s, outside, x, FromReplies, Delivery(v.b.replies[0], None));
      }
    }
  }

  lemma {:induction false} DroppedFair(s: Setup, outside: seq<Action>, w: World, n: nat)
    requires Fair(s, outside, w, true)
    ensures Fair(s, outside, Dropped(s, w, n), true)
  {
    hide Fair, Ran;
    if n > 0 {
      DroppedFair(s, outside, w, n - 1);
      var v := Dropped(s, w, n - 1);
      if v.b.invalid != [] {
        var x := v.(b := v.b.(invalid := v.b.invalid[1..]));
        FairWith(s, outside, v, x, true);
        RanFair(s, outside, x, FromInvalid, Delivery(v.b.invalid[0], None));
      }
    }
  }

  lemma {:induction false} SweptFair(s: Setup, outside: seq<Action>, w: World, pvariant: bool, ks: seq<bytes>, n: nat)
    requires Fair(s, outside, w, true) && n <= |ks|
    ensures Fair(s, outside, Swept(s, w, pvariant, ks, n), true)
  {
    hide Fair, Ran;
    if n > 0 {
      SweptFair(s, outside, w, pvariant, ks, n - 1);
      var v := Swept(s, w, pvariant, ks, n - 1);
      RanFair(s, outside, v, Elsewhere, Delivery(EntryOf(v.b.subs.Of(pvariant), ks[n - 1]), None));
    }
  }

  lemma TableFair(s: Setup, outside: seq<Action>, w: World, pvariant: bool, o: Order)
    requires Fair(s, outside, w, true)
    ensures Fair(s, outside, TableDown(s, w, pvariant, o), true)
  {
    hide Fair, Swept;
    var ks := o.Of(pvariant);
    SweptFair(s, outside, w, pvariant, ks, |ks|);
    FairWith(s, outside, Swept(s, w, pvariant, ks, |ks|), TableDown(s, w, pvariant, o), true);
  }

  lemma TornFair(s: Setup, outside: seq<Action>, w: World, o: Order)
    requires Fair(s, outside, w, true)
    ensures Fair(s, outside, Torn(s, w, o), true)
  {
    hide Fair, Drained, Dropped, TableDown, Orderly;
    var a := Drained(s, w, |w.b.replies|);
    DrainedFair(s, outside, w, |w.b.replies|);
    var b := Dropped(s, a, |a.b.invalid|);
    DroppedFair(s, outside, a, |a.b.invalid|);
    TableFair(s, outside, b, false, o);
    TableFair(s, outside, TableDown(s, b, false, o), true, o);
    FairWith(s, outside, Emptied(s, w, o), Torn(s, w, o), true);
  }

  /** A context that is not down may be taken down for an error, or when the program asked for it. */
  lemma FairDown(s: Setup, outside: seq<Action>, w: World, v: World)
    requires Fair(s, outside, w, false) && v.asked == w.asked && v.calls == w.calls && v.b == w.b && Closing(v)
    ensures Fair(s, outside, v, true)
  {
    hide Answered, During, Leaving, Within;
    SameRecord(w, v);
  }

  lemma SameRecord(w: World, v: World)
    requires Answered(w) && v.asked == w.asked && v.calls == w.calls && v.b == w.b
    ensures Answered(v)
  {
    hide Heeding, Argvs, CallbacksOf;
  }

  lemma DisconnectedFair(s: Setup, outside: seq<Action>, w: World, o: Order)
    requires Fair(s, outside, w, false) && (w.err == 0 ==> Closing(w))
    ensures Fair(s, outside, Disconnected(s, w, o), true)
  {
    hide Fair, Torn;
    var v := Cleaned(if w.err == 0 then w else w.(disconnecting := true));
    FairDown(s, outside, w, v);
    TornFair(s, outside, v, o);
  }

  // ----- Replies and events -----

  /** What holds after a step: of a context that is gone, of a process that is dead, of one that lives. */
  ghost predicate Fairly(s: Setup, outside: seq<Action>, w: World) {
    Fair(s, outside, w, w.freed)
  }

  lemma HandedFair(s: Setup, outside: seq<Action>, w: World, from: Origin, cb: Callback, reply: Reply, o: Order)
    requires Fair(s, outside, w, false) && !Over(w)
    ensures var p := Handed(s, w, from, cb, reply, o); Fairly(s, outside, p.w) && (!p.stop ==> !Over(p.w))
  {
    hide Fair, Ran, Torn;
    var d := Delivery(cb, Some(reply));
    RanTurned(s, w, from, d);
    RanFair(s, outside, w, from, d);
    var v := Ran(s, w, from, d);
    if cb.fn && v.freeing {
      FairDown(s, outside, v, v);
      TornFair(s, outside, v, o);
      Gone(s, v, o);
    }
  }

  lemma TakenFair(s: Setup, outside: seq<Action>, w: World, reply: Reply, cb: Callback, o: Order)
    requires Fair(s, outside, w, false) && !Over(w)
    ensures var p := Taken(s, w, reply, cb, o); Fairly(s, outside, p.w) && (!p.stop ==> !Over(p.w))
  {
    hide Fair, Handed, Chosen, Disconnected, Fairly, Aborted, Heeded;
    var v := Heeded(w, reply);
    HeededFair(s, outside, w, reply);
    match Chosen(v, reply, cb) {
      case Some(c) =>
        ChosenFair(s, outside, v, reply, cb);
        HandedFair(s, outside, c.w, c.from, c.cb, reply, o);
      case None =>
        EndFair(s, outside, v, reply, o);
    }
  }

  lemma HeededFair(s: Setup, outside: seq<Action>, w: World, reply: Reply)
    requires Fair(s, outside, w, false) && !Over(w)
    ensures Fair(s, outside, Heeded(w, reply), false) && !Over(Heeded(w, reply))
  {
    hide Fair;
    FairWith(s, outside, w, Heeded(w, reply), false);
  }

  lemma ChosenFair(s: Setup, outside: seq<Action>, w: World, reply: Reply, cb: Callback)
    requires Fair(s, outside, w, false) && !Over(w) && Chosen(w, reply, cb).Some?
    ensures var v := Chosen(w, reply, cb).value.w; Fair(s, outside, v, false) && !Over(v)
  {
    hide Fair, Chosen;
    ChosenAs(w, reply, cb);
    FairWith(s, outside, w, Chosen(w, reply, cb).value.w, false);
  }

  lemma EndFair(s: Setup, outside: seq<Action>, w: World, reply: Reply, o: Order)
    requires Fair(s, outside, w, false) && !Over(w)
    ensures Fairly(s, outside, if reply.Error? then Disconnected(s, w.(err := REDIS_ERR_OTHER), o) else Aborted(w))
  {
    hide Fair, Disconnected;
    if reply.Error? {
      QuietFair(s, outside, w, w.(err := REDIS_ERR_OTHER), o);
    } else {
      FairWith(s, outside, w, Aborted(w), false);
    }
  }

  lemma {:induction false} TakenAllFair(s: Setup, outside: seq<Action>, w: World, replies: seq<Reply>, o: Order)
    requires Fair(s, outside, w, false) && !Over(w)
    ensures var p := TakenAll(s, w, replies, o); Fairly(s, outside, p.w) && (!p.stop ==> !Over(p.w))
  {
    hide Taken, Fair;
    if replies != [] {
      var before := replies[..|replies| - 1];
      TakenAllFair(s, outside, w, before, o);
      var p := TakenAll(s, w, before, o);
      if !p.stop { TakenFair(s, outside, p.w, replies[|replies| - 1], p.cb, o); }
    }
  }

  lemma QuietFair(s: Setup, outside: seq<Action>, w: World, v: World, o: Order)
    requires Fair(s, outside, w, false) && v.asked == w.asked && v.calls == w.calls && v.b == w.b
    requires Closing(v) == Closing(w) && (v.err == 0 ==> Closing(v))
    ensures Fairly(s, outside, Disconnected(s, v, o))
  {
    hide Fair, Disconnected;
    FairWith(s, outside, w, v, false);
    DisconnectedFair(s, outside, v, o);
    Gone(s, v, o);
  }

  lemma SettledFair(s: Setup, outside: seq<Action>, w: World, cb: Callback, end: Streams.Ending, o: Order)
    requires Fair(s, outside, w, false) && !Over(w)
    ensures Fairly(s, outside, Settled(s, w, cb, end, o))
  {
    hide Fair, Disconnected;
    if end.Refused? {
      QuietFair(s, outside, w, w.(err := StreamReader.REDIS_ERR_PROTOCOL), o);
    } else {
      var v := w.(unread := end.rest);
      if v.disconnecting && v.b.obuf == [] && v.b.replies == [] {
        QuietFair(s, outside, w, v, o);
      } else {
        FairWith(s, outside, w, Settled(s, w, cb, end, o), false);
      }
    }
  }

  lemma ReceivedFair(s: Setup, outside: seq<Action>, w: World, chunk: bytes, o: Order)
    requires Fair(s, outside, w, false) && !Over(w)
    ensures Fairly(s, outside, Received(s, w, chunk, o))
  {
    hide Fair, TakenAll, Settled, Streams.Outcomes, Replies;
    var got := Streams.Outcomes(w.unread + chunk);
    TakenAllFair(s, outside, w, Replies(got), o);
    var p := TakenAll(s, w, Replies(got), o);
    if !p.stop { SettledFair(s, outside, p.w, p.cb, got.end, o); }
  }

  lemma PerformedFair(s: Setup, outside: seq<Action>, w: World, a: Action, o: Order)
    requires Fair(s, outside, w, false) && !Over(w)
    ensures Fairly(s, outside + [a], Performed(s, w, a, o))
  {
    hide Disconnected, Torn, Answered, Made, Leaving, During;
    var v := Made(w, None, a);
    MadeCalled(w, None, a);
    MadeAsked(w, None, a);
    MadeFlags(w, None, a);
    MadeAnswered(w, None, a);
    forall t
      ensures During(v.asked, t) == During(w.asked, t) + if t == None then [a] else []
    {
      DuringMore(w.asked, Ask(None, a, w.b.subs.subscribed), t);
    }
    assert Fair(s, outside + [a], v, false);
    CarriedFair(s, outside + [a], v, a, o);
  }

  lemma CarriedFair(s: Setup, outside: seq<Action>, w: World, a: Action, o: Order)
    requires Fair(s, outside, w, false) && !Over(w) && (a == Release ==> w.freeing) && (a == Quit ==> w.disconnecting)
    ensures Fairly(s, outside, Carried(s, w, a, o))
  {
    hide Fair, Disconnected, Torn;
    match a {
      case Issue(_, _, _) =>
      case Quit => if w.b.replies == [] { QuietFair(s, outside, w, w, o); }
      case Release =>
        FairDown(s, outside, w, w);
        TornFair(s, outside, w, o);
        Gone(s, w, o);
    }
  }

  lemma ConnectedFair(s: Setup, outside: seq<Action>, w: World, k: Connect, o: Order)
    requires Fair(s, outside, w, false) && !Over(w)
    ensures var v := Connected(s, w, k, o); Fairly(s, outside, v) && (!v.freed ==> !Over(v))
  {
    hide Fair, Disconnected;
    if k == Failed {
      QuietFair(s, outside, w, Greeted(s, w, false).(err := Pipeline.REDIS_ERR_IO), o);
      Gone(s, Greeted(s, w, false).(err := Pipeline.REDIS_ERR_IO), o);
    } else {
      FairWith(s, outside, w, Connected(s, w, k, o), false);
    }
  }

  lemma NextFair(s: Setup, outside: seq<Action>, w: World, e: Event, o: Order)
    requires Fair(s, outside, w, false) && !Over(w)
    ensures Fairly(s, outside + Deed(e), Next(s, w, e, o))
  {
    hide Fair, Disconnected, Torn, Performed, Received, Machine.Connected;
    assert outside + [] == outside;
    match e {
      case Do(action) =>
        PerformedFair(s, outside, w, action, o);
      case Readable(k, chunk, eof) =>
        ConnectedFair(s, outside, w, k, o);
        var v := if w.connected then w else Connected(s, w, k, o);
        if !v.freed && v.connected {
          if eof {
            QuietFair(s, outside, v, v.(err := REDIS_ERR_EOF), o);
          } else {
            ReceivedFair(s, outside, v, chunk, o);
          }
        }
      case Writable(k, nwritten) =>
        ConnectedFair(s, outside, w, k, o);
        var v := if w.connected then w else Connected(s, w, k, o);
        if !v.freed && v.connected { FlushedFair(s, outside, v, nwritten, o); }
      case Server(x) =>
        FairWith(s, outside, w, Next(s, w, e, o), false);
    }
  }

  lemma FlushedFair(s: Setup, outside: seq<Action>, w: World, nwritten: int, o: Order)
    requires Fair(s, outside, w, false) && !Over(w)
    ensures Fairly(s, outside, Flushed(s, w, nwritten, o))
  {
    hide Fair, Disconnected;
    if w.b.obuf != [] && nwritten < 0 {
      QuietFair(s, outside, w, w.(err := Pipeline.REDIS_ERR_IO), o);
    } else {
      FairWith(s, outside, w, Flushed(s, w, nwritten, o), false);
    }
  }

  /**
   In every run: the calls recorded are those of the program; the commands sent are those issued before the program
   asked for the end and outside a teardown, an unsubscribe only with the flag; and their callbacks are those that
   entered the queues.
   */
  lemma {:induction false} RunFair(s: Setup, events: seq<Event>, o: Order)
    requires Lived(s, events, o) == |events|
    ensures Fairly(s, Deeds(events), After(s, events, o))
  {
    hide Next, Fair;
    if events == [] {
      StartFair(s);
    } else {
      LivedBefore(s, events, o);
      RunFair(s, events[..|events| - 1], o);
      NextFair(s, Deeds(events[..|events| - 1]), After(s, events[..|events| - 1], o), events[|events| - 1], o);
    }
  }

  lemma StartFair(s: Setup)
    ensures Fairly(s, [], Start(s))
  {
    assert Argvs([]) == [];
  }

  /** The calls of the program, and what was sent, after any list of events. */
  lemma CommandsSent(s: Setup, events: seq<Event>, o: Order)
    ensures Fairly(s, Deeds(events[..Lived(s, events, o)]), After(s, events, o))
  {
    hide After, Fair;
    LivedOnly(s, events, o);
    RunFair(s, events[..Lived(s, events, o)], o);
  }

  /** So a command that is no unsubscribe is refused only after such a call, or in a teardown; else it has its place. */
  lemma IssuedIsSent(s: Setup, events: seq<Event>, i: nat, o: Order)
    requires var w := After(s, events, o); i < |w.asked| && w.asked[i].action.Issue?
    requires var w := After(s, events, o);
             && Classify(w.asked[i].action.argv) != Unsubscribe
             && !Leaving(w.asked[..i]) && !Last(w.calls, w.asked[i].turn)
    ensures var w := After(s, events, o);
            Argvs(Heeding(w.asked[..i], w.calls)) + [w.asked[i].action.argv] <= w.b.sent
  {
    hide After, Classify, Leaving, Heeding;
    var w := After(s, events, o);
    CommandsSent(s, events, o);
    EachSent(w.asked, w.calls, i);
  }
}
