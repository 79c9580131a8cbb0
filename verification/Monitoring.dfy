/**
 MONITOR: the server goes on sending lines, and the loop over the replies keeps the callback waiting for them. It does
 so with whatever its variable holds, which is NULL when a read completes no reply.
 */
module Monitoring {
  import opened Bytes
  import opened Callbacks
  import opened Deliveries
  import opened Formatter
  import opened Machine
  import opened Promises
  import opened Resp
  import opened Subscriptions
  import opened Tracking
  import Streams

  /** A live context that monitors and has no subscription; these callbacks wait. */
  predicate Watching(w: World, waits: seq<Callback>) {
    !Over(w) && !Closing(w) && w.b.monitoring && !w.b.subs.subscribed && w.b.replies == waits
  }

  /** A program whose callbacks leave the context alone. */
  ghost predicate Silent(s: Setup) {
    forall n :: s.user(n) == []
  }

  /** No line after the first ones is an error. */
  predicate Lines(replies: seq<Reply>, first: nat) {
    forall i :: first <= i < |replies| ==> !replies[i].Error?
  }

  function Place(queued: bool): Origin {
    if queued then FromReplies else Elsewhere
  }

  /** Each line is given to the callback, which is taken from the queue for the first. */
  function Shares(m: Callback, replies: seq<Reply>): (r: seq<Handout>)
    ensures |r| == |replies|
    ensures forall i :: 0 <= i < |r| ==> r[i] == Handout(Place(i == 0), Delivery(m, Some(replies[i])))
  {
    seq(|replies|, i requires 0 <= i < |replies| => Handout(Place(i == 0), Delivery(m, Some(replies[i]))))
  }

  lemma SilentRan(s: Setup, w: World, from: Origin, d: Delivery)
    requires Silent(s)
    ensures Ran(s, w, from, d) ==
            w.(given := w.given + [Handout(from, d)], calls := w.calls + if d.cb.fn then [d] else [])
  {
    var v := w.(given := w.given + [Handout(from, d)]);
    assert s.user(|v.calls|) == [];
  }

  /** One line: the callback that waits takes it, or the one that took the line before. */
  lemma OneLine(s: Setup, w: World, reply: Reply, cb: Callback, o: Order)
    requires Silent(s) && Watching(w, w.b.replies) && (w.b.replies == [] ==> !reply.Error?)
    ensures var p, waits := Taken(s, w, reply, cb, o), w.b.replies;
            var c := if waits == [] then cb else waits[0];
            && !p.stop && p.cb == c && p.w.connected == w.connected
            && Watching(p.w, if waits == [] then [] else waits[1..])
            && p.w.given == w.given + [Handout(Place(waits != []), Delivery(c, Some(reply)))]
  {
    hide Ran, Torn, Disconnected;
    var v := Heeded(w, reply);
    var c := Chosen(v, reply, cb).value;
    SilentRan(s, c.w, c.from, Delivery(c.cb, Some(reply)));
  }

  /** The lines of one read, when m waits: each is given to m. */
  lemma {:induction false} LinesTaken(s: Setup, w: World, m: Callback, replies: seq<Reply>, o: Order)
    requires Silent(s) && Watching(w, [m]) && Lines(replies, 1)
    ensures var p := TakenAll(s, w, replies, o);
            && !p.stop && p.w.given == w.given + Shares(m, replies) && p.w.connected == w.connected
            && if replies == [] then p.cb == NOBODY && Watching(p.w, [m]) else p.cb == m && Watching(p.w, [])
  {
    hide Taken, Shares;
    if replies == [] {
      assert w.given + Shares(m, replies) == w.given;
    } else {
      var before, reply := replies[..|replies| - 1], replies[|replies| - 1];
      LinesTaken(s, w, m, before, o);
      var p := TakenAll(s, w, before, o);
      OneLine(s, p.w, reply, p.cb, o);
      assert Shares(m, replies) == Shares(m, before) + [Handout(Place(before == []), Delivery(m, Some(reply)))];
    }
  }

  /**
   A read in a context that monitors: the lines it completes reach the callback; and the callback alone goes on waiting
   if and only if there was one. Otherwise a NULL callback waits behind it.
   */
  lemma MonitorKept(s: Setup, w: World, m: Callback, chunk: bytes, o: Order)
    requires Silent(s) && Watching(w, [m]) && Streams.Outcomes(w.unread + chunk).end.Waiting?
    requires Lines(RepliesIn(w.unread + chunk), 1)
    ensures var v, lines := Received(s, w, chunk, o), RepliesIn(w.unread + chunk);
            && v.given == w.given + Shares(m, lines)
            && Watching(v, if lines == [] then [m, NOBODY] else [m])
            && (Watching(v, [m]) <==> lines != [])
            && v.unread == Streams.Outcomes(w.unread + chunk).end.rest && v.connected == w.connected
  {
    hide TakenAll, Streams.Outcomes, Shares;
    LinesTaken(s, w, m, RepliesIn(w.unread + chunk), o);
  }

  /** The lines of a read when a NULL callback waits behind m: m takes the first, and nobody the others. */
  lemma {:induction false} LinesLost(s: Setup, w: World, m: Callback, replies: seq<Reply>, o: Order)
    requires Silent(s) && Watching(w, [m, NOBODY]) && |replies| >= 1 && Lines(replies, 2)
    ensures var p := TakenAll(s, w, replies, o);
            && !p.stop && p.cb == (if |replies| == 1 then m else NOBODY)
            && Watching(p.w, if |replies| == 1 then [NOBODY] else [])
            && p.w.given ==
               w.given + [Handout(FromReplies, Delivery(m, Some(replies[0])))] + Shares(NOBODY, replies[1..])
  {
    hide Taken, Shares;
    var before, reply := replies[..|replies| - 1], replies[|replies| - 1];
    if |replies| == 1 {
      assert before == [] && Shares(NOBODY, replies[1..]) == [];
      NoneTaken(s, w, o);
      OneLine(s, w, reply, NOBODY, o);
    } else {
      LinesLost(s, w, m, before, o);
      var p := TakenAll(s, w, before, o);
      OneLine(s, p.w, reply, p.cb, o);
      assert replies[1..] == before[1..] + [reply];
      assert Shares(NOBODY, replies[1..]) ==
             Shares(NOBODY, before[1..]) + [Handout(Place(before[1..] == []), Delivery(NOBODY, Some(reply)))];
    }
  }

  // ----- A line that is lost -----

  const MONITOR_COMMAND: seq<bytes> := [MONITOR]

  lemma MonitorIsMonitor()
    ensures Sizes(MONITOR_COMMAND) && Classify(MONITOR_COMMAND) == Monitor
  {
    assert Stem(MONITOR) == MONITOR;
    assert (MONITOR + CRLF)[..|MONITOR| + 2] == MONITOR + CRLF;
    assert !SameWord((MONITOR + CRLF)[..|MONITOR| + 2], UNSUBSCRIBE + CRLF);
    assert forall k :: 0 <= k < |MONITOR + CRLF| ==> Lower((MONITOR + CRLF)[k]) == (MONITOR + CRLF)[k];
  }

  lemma ItemsRead(items: seq<Item>)
    requires forall k :: 0 <= k < |items| ==> WellFormed(items[k]) && Markers(items[k]) <= DEEPEST
    ensures Streams.Outcomes([] + EncodeAll(items)) == Streams.Outcome(items, Streams.Waiting([]))
  {
    hide ParseItem, WellFormed, Markers, Encode;
    Streams.OutcomesOfEncoded(items, []);
    NothingUnread();
    assert [] + EncodeAll(items) == EncodeAll(items) + [] && items + [] == items;
  }

  /** A read in a context that monitors, when it is connected and nothing is unread. */
  lemma ReadNext(s: Setup, w: World, items: seq<Item>, o: Order)
    requires forall k :: 0 <= k < |items| ==> WellFormed(items[k]) && Markers(items[k]) <= DEEPEST
    requires w.connected && !Over(w) && w.unread == []
    ensures Next(s, w, Readable(InProgress, EncodeAll(items), false), o) == Received(s, w, EncodeAll(items), o)
    ensures RepliesIn(w.unread + EncodeAll(items)) == MeaningAll(items)
    ensures Streams.Outcomes(w.unread + EncodeAll(items)).end == Streams.Waiting([])
  {
    hide Received, Streams.Outcomes;
    ItemsRead(items);
  }

  /** The program monitors; a line comes; then a read that brings nothing; then two lines in one read. */
  function MonitorEvents(privdata: nat, first: Item, second: Item, third: Item): seq<Event>
    requires Sizes(MONITOR_COMMAND)
  {
    [Do(Issue(MONITOR_COMMAND, true, privdata)), Readable(Completed, EncodeAll([first]), false),
     Readable(InProgress, EncodeAll([]), false), Readable(InProgress, EncodeAll([second, third]), false)]
  }

  lemma FourEvents(s: Setup, es: seq<Event>, o: Order)
    requires |es| == 4
    requires var w1 := Next(s, Start(s), es[0], o);
             var w2 := Next(s, w1, es[1], o);
             var w3 := Next(s, w2, es[2], o);
             !Over(w1) && !Over(w2) && !Over(w3)
    ensures After(s, es, o) == Next(s, Next(s, Next(s, Next(s, Start(s), es[0], o), es[1], o), es[2], o), es[3], o)
  {
    hide Next, After;
    NoEvents(s, o);
    assert es[..1][..0] == [] && es[..2][..1] == es[..1] && es[..3][..2] == es[..2] && es[..4] == es;
    OneEvent(s, es[..1], o);
    OneEvent(s, es[..2], o);
    OneEvent(s, es[..3], o);
    OneEvent(s, es, o);
  }

  lemma MonitorStarts(s: Setup, privdata: nat, o: Order)
    requires Sizes(MONITOR_COMMAND) && Classify(MONITOR_COMMAND) == Monitor
    ensures var w := Next(s, Start(s), Do(Issue(MONITOR_COMMAND, true, privdata)), o);
            && Watching(w, [Callback(true, privdata, 1)]) && !w.connected && w.unread == [] && w.given == []
  {
    hide Classify, Sizes, Wire;
    FiledAs(EMPTY, MONITOR_COMMAND, Callback(true, privdata, 1));
  }

  /** The third line is given to nobody. */
  lemma MonitorLost(s: Setup, privdata: nat, first: Item, second: Item, third: Item, o: Order)
    requires Silent(s)
    requires forall i :: i in {first, second, third} ==> WellFormed(i) && Markers(i) <= DEEPEST
    ensures Sizes(MONITOR_COMMAND)
    ensures var m, w := Callback(true, privdata, 1), After(s, MonitorEvents(privdata, first, second, third), o);
            && !Over(w)
            && w.given == [Handout(FromReplies, Delivery(m, Some(Meaning(first)))),
                           Handout(FromReplies, Delivery(m, Some(Meaning(second)))),
                           Handout(FromReplies, Delivery(NOBODY, Some(Meaning(third))))]
  {
    hide Received, Streams.Outcomes, Sizes, Classify, WellFormed, Markers, Encode, EncodeAll, Meaning, RepliesIn;
    hide Shares;
    MonitorIsMonitor();
    var m, es := Callback(true, privdata, 1), MonitorEvents(privdata, first, second, third);
    var w1 := Next(s, Start(s), es[0], o);
    MonitorStarts(s, privdata, o);
    var c := Connected(s, w1, Completed, o);
    ReadNext(s, c, [first], o);
    MonitorKept(s, c, m, EncodeAll([first]), o);
    var w2 := Next(s, w1, es[1], o);
    assert w2 == Received(s, c, EncodeAll([first]), o);
    ReadNext(s, w2, [], o);
    MonitorKept(s, w2, m, EncodeAll([]), o);
    var w3 := Next(s, w2, es[2], o);
    ReadNext(s, w3, [second, third], o);
    ReadLost(s, w3, m, EncodeAll([second, third]), o);
    FourEvents(s, es, o);
  }

  lemma ReadLost(s: Setup, w: World, m: Callback, chunk: bytes, o: Order)
    requires Silent(s) && Watching(w, [m, NOBODY]) && Streams.Outcomes(w.unread + chunk).end.Waiting?
    requires |RepliesIn(w.unread + chunk)| >= 1 && Lines(RepliesIn(w.unread + chunk), 2)
    ensures var v, lines := Received(s, w, chunk, o), RepliesIn(w.unread + chunk);
            && !Over(v)
            && v.given == w.given + [Handout(FromReplies, Delivery(m, Some(lines[0])))] + Shares(NOBODY, lines[1..])
  {
    hide TakenAll, Streams.Outcomes, Shares;
    LinesLost(s, w, m, RepliesIn(w.unread + chunk), o);
  }
}
