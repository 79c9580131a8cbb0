/** The life of a context, from the first event to the last: what holds after every run. */
module Life {
  import opened Bytes
  import opened Callbacks
  import opened Causes
  import opened Deliveries
  import opened Ledger
  import opened Machine
  import opened Promises
  import opened Subscribing
  import opened Teardown
  import opened Tracking
  import PubSub
  import Streams

  // ----- Exactly once -----

  /** Call r is the one of turn i: the calls before it are those of the turns before it. */
  ghost predicate IsRun(calls: seq<Delivery>, r: nat, turns: seq<Delivery>, i: nat) {
    && i < |turns| && turns[i].cb.fn && r < |calls|
    && calls[r] == turns[i] && calls[..r] == Runs(turns[..i])
  }

  ghost predicate Called(calls: seq<Delivery>, turns: seq<Delivery>, i: nat) {
    exists r :: IsRun(calls, r, turns, i)
  }

  ghost predicate Owed(calls: seq<Delivery>, turns: seq<Delivery>, r: nat) {
    exists i :: IsRun(calls, r, turns, i)
  }

  /** The turn of the i-th callback taken from q is at j. */
  ghost predicate TurnAt(given: seq<Handout>, q: Origin, j: nat, i: nat) {
    && j < |given| && given[j].from == q && |From(given[..j], q)| == i
    && i < |From(given, q)| && given[j].d == From(given, q)[i]
  }

  ghost predicate HasTurn(given: seq<Handout>, q: Origin, i: nat) {
    exists j :: TurnAt(given, q, j, i)
  }

  lemma {:induction false} EachHasTurn(given: seq<Handout>, q: Origin, i: nat) returns (j: nat)
    requires i < |From(given, q)|
    ensures TurnAt(given, q, j, i)
  {
    var n := |given| - 1;
    if i < |From(given[..n], q)| {
      j := EachHasTurn(given[..n], q, i);
      assert given[..n][..j] == given[..j];
    } else {
      j := n;
    }
  }

  /** The callbacks that entered a queue leave it in this order, each has one turn, and the others wait. */
  ghost predicate FirstInFirstOut(given: seq<Handout>, q: Origin, entered: seq<Callback>, waiting: seq<Callback>) {
    && InOrder(entered, From(given, q), waiting)
    && forall i :: 0 <= i < |From(given, q)| ==> HasTurn(given, q, i)
  }

  /**
   Callbacks leave each of the two queues in the order in which they entered it, each has one turn, and all have had it
   once the context is gone. Turn by turn the callbacks get the replies in their order, and NULL after the last; a reply
   is left over only when the process died over it or it was an error that closed the connection. The functions called
   are those of the turns, each once, and no other call is made.
   */
  ghost predicate OnceEach(w: World) {
    && FirstInFirstOut(w.given, FromReplies, w.b.accepted, w.b.replies)
    && FirstInFirstOut(w.given, FromInvalid, w.b.entered, w.b.invalid)
    && (w.freed ==> w.b.replies == [] && w.b.invalid == [])
    && Attended(w.given, Heard(w.b.log), |Heard(w.b.log)| - LeftOver(w))
    && (!w.freed ==> |w.given| == |Heard(w.b.log)| - LeftOver(w))
    && (forall i :: 0 <= i < |w.given| && w.given[i].d.cb.fn ==> Called(w.calls, Plain(w.given), i))
    && (forall r :: 0 <= r < |w.calls| ==> Owed(w.calls, Plain(w.given), r))
  }

  lemma CallsAreTurns(turns: seq<Delivery>)
    ensures forall i :: 0 <= i < |turns| && turns[i].cb.fn ==> Called(Runs(turns), turns, i)
    ensures forall r :: 0 <= r < |Runs(turns)| ==> Owed(Runs(turns), turns, r)
  {
    hide Runs;
    forall i | 0 <= i < |turns| && turns[i].cb.fn
      ensures Called(Runs(turns), turns, i)
    {
      RunsEach(turns, i);
      assert IsRun(Runs(turns), |Runs(turns[..i])|, turns, i);
    }
    forall r | 0 <= r < |Runs(turns)|
      ensures Owed(Runs(turns), turns, r)
    {
      var i := RunsOnly(turns, r);
      assert IsRun(Runs(turns), r, turns, i);
    }
  }

  /** Exactly once, in order, in every context. */
  lemma ExactlyOnce(s: Setup, events: seq<Event>, o: Order)
    ensures OnceEach(After(s, events, o))
  {
    hide After, Faithful, Heard, Requests, Promised, Simple, Runs, Plain, From, InOrder, Strayed, Replay, Accounted;
    var es := events[..Lived(s, events, o)];
    LivedOnly(s, events, o);
    RunSound(s, es, o);
    var w := After(s, events, o);
    CallsAreTurns(Plain(w.given));
    forall q, i | 0 <= i < |From(w.given, q)|
      ensures HasTurn(w.given, q, i)
    {
      var j := EachHasTurn(w.given, q, i);
    }
  }

  /**
   A program that neither subscribes nor monitors: the callback of the i-th command gets the i-th reply, or NULL when
   the context goes down before that; the process dies only over a reply more than there were commands.
   */
  ghost predicate InTurn(w: World) {
    var sent, heard := w.b.sent, Heard(w.b.log);
    && Requests(w.b.log) == sent && |Promised(w.b.log)| == |sent| && |w.given| <= |sent|
    && (forall i :: 0 <= i < |w.given| ==>
         w.given[i].d == Delivery(Promised(w.b.log)[i], if i < |heard| - LeftOver(w) then Some(heard[i]) else None))
    && (!w.freed ==> |w.given| == |heard| - LeftOver(w)) && (w.freed ==> |w.given| == |sent|)
    && (w.aborted ==> |heard| == |sent| + 1)
  }

  lemma SimpleInTurn(s: Setup, events: seq<Event>, o: Order)
    ensures var w := After(s, events, o); Simple(w.b.sent) && (w.freed ==> w.orderly) ==> InTurn(w)
  {
    hide After, Faithful, Heard, Requests, Promised, Simple, Runs, From, Strayed, Replay, Accounted;
    var es := events[..Lived(s, events, o)];
    LivedOnly(s, events, o);
    RunSound(s, es, o);
    AsMany(After(s, events, o).b.log);
  }

  // ----- Replies -----

  /** The replies taken are those in the bytes that the events have brought. */
  lemma RepliesTaken(s: Setup, events: seq<Event>, o: Order)
    ensures Accounted(After(s, events, o), events[..Lived(s, events, o)])
  {
    hide After, Accounted, Goes;
    LivedOnly(s, events, o);
    RunSound(s, events[..Lived(s, events, o)], o);
  }

  /** In every run each event, as long as the context lives, does what its kind says. */
  lemma EventsDo(s: Setup, events: seq<Event>, n: nat, o: Order)
    requires n < |events| && !Over(After(s, events[..n], o))
    ensures Does(After(s, events[..n], o), events[n], After(s, events[..n + 1], o))
  {
    hide After, Next, Sound, Partial, Does, Final, Accounted;
    LivesOn(s, events[..n], o);
    RunSound(s, events[..n], o);
    assert events[..n + 1][..n] == events[..n];
    OneEvent(s, events[..n + 1], o);
    NextDoes(s, After(s, events[..n], o), events[n], o);
  }

  // ----- The end -----

  /**
   A context is gone only when the program freed it, for an error that the last event gave, or when it was disconnected
   and every callback of the queue had got its reply. While it lives no event has failed or ended the connection, and a
   disconnect is not put off by a read that leaves nothing to send or to answer.
   */
  ghost predicate EndsWell(w: World, events: seq<Event>) {
    && (w.freed && !w.freeing && w.err == 0 ==> w.disconnecting && Replied(w.given))
    && (w.err != 0 ==>
          && w.freed && events != []
          && Explained(w.err, events[|events| - 1], ConnectedBy(events[..|events| - 1]),
                       Streams.Outcomes(Read(events)).end.Refused?))
    && (LeftOver(w) == 1 ==> Strayed(w.b.log) && (w.freed ==> ErrorLast(w.b.log)))
    && (!Over(w) ==>
          && (forall n :: 0 <= n < |events| ==> !Cut(events, n))
          && (events != [] && events[|events| - 1].Readable? && w.connected ==> !Lingers(w)))
  }

  /** After event n there is no connection. */
  predicate Cut(events: seq<Event>, n: nat)
    requires n < |events|
  {
    Refuses(events[n], ConnectedBy(events[..n])) || Ends(events[n], ConnectedBy(events[..n]))
  }

  lemma LastEvent(s: Setup, events: seq<Event>, o: Order)
    requires Lived(s, events, o) == |events| && events != []
    ensures var w, before, e := After(s, events, o), events[..|events| - 1], events[|events| - 1];
            && Explained(w.err, e, ConnectedBy(before), Streams.Outcomes(Read(events)).end.Refused?)
            && (w.err != 0 ==> w.freed)
            && (!Over(w) ==> !Refuses(e, ConnectedBy(before)) && !Ends(e, ConnectedBy(before)))
            && (!Over(w) && e.Readable? && w.connected ==> !Lingers(w))
  {
    hide Next, Sound, Heard, Streams.Outcomes, Explained, Lingers, Marked, Partial, Refuses, Ends, RepliesIn;
    var before, e := events[..|events| - 1], events[|events| - 1];
    LivedBefore(s, events, o);
    RunSound(s, before, o);
    RunMarked(s, before, o);
    var w := After(s, before, o);
    NextExplained(s, w, e, o);
    MoreReplies(Read(before), w.unread, Chunk(e, w.connected));
  }

  lemma {:induction false} NeverCut(s: Setup, events: seq<Event>, o: Order)
    requires Lived(s, events, o) == |events| && !Over(After(s, events, o))
    ensures forall n :: 0 <= n < |events| ==> !Cut(events, n)
  {
    hide After, Refuses, Ends, Explained, Lingers;
    if events != [] {
      var before := events[..|events| - 1];
      LivedBefore(s, events, o);
      NeverCut(s, before, o);
      LastEvent(s, events, o);
      forall n | 0 <= n < |before|
        ensures !Cut(events, n)
      {
        assert !Cut(before, n);
        assert before[..n] == events[..n];
      }
    }
  }

  lemma RunEnds(s: Setup, events: seq<Event>, o: Order)
    requires Lived(s, events, o) == |events|
    ensures EndsWell(After(s, events, o), events)
  {
    hide After, Balanced, Strayed, Heard, Streams.Outcomes, Explained, Lingers, Marked, Partial, Accounted;
    hide InOrder, Simple;
    RunSound(s, events, o);
    RunMarked(s, events, o);
    if events == [] {
      NoEvents(s, o);
    } else {
      LastEvent(s, events, o);
    }
    if !Over(After(s, events, o)) { NeverCut(s, events, o); }
  }

  /** Why a context goes down; and what its program, the event library and the other callbacks saw of it. */
  lemma EndsFor(s: Setup, events: seq<Event>, o: Order)
    ensures var w, es := After(s, events, o), events[..Lived(s, events, o)]; EndsWell(w, es) && Marked(s, Deeds(es), w)
  {
    hide After, EndsWell, Marked;
    var es := events[..Lived(s, events, o)];
    LivedOnly(s, events, o);
    RunEnds(s, es, o);
    RunMarked(s, es, o);
  }

  /** Once a context is being disconnected or freed, no command is accepted. */
  lemma {:induction false} NoMoreCommands(s: Setup, events: seq<Event>, n: nat, o: Order)
    requires n <= |events| && Closing(After(s, events[..n], o))
    ensures Mute(After(s, events[..n], o), After(s, events, o))
    decreases |events|
  {
    hide Next;
    if n == |events| {
      assert events[..n] == events;
    } else {
      var before := events[..|events| - 1];
      assert before[..n] == events[..n];
      NoMoreCommands(s, before, n, o);
      NextMute(s, After(s, before, o), events[|events| - 1], o);
    }
  }

  // ----- Subscriptions -----

  /**
   A history that is a run of the subscription protocol has come to the dictionaries of the context. In a disciplined
   run the calls were, message by message, those of the callbacks registered for the names, and at the end those of the
   ones still registered, with NULL.
   */
  ghost predicate Followed(w: World, o: Order) {
    && (!Over(w) && Replay(w.b.log).Some? ==>
          PubSub.Inv(Replay(w.b.log).value) && Replay(w.b.log).value.subs == w.b.subs)
    && Fared(w, o)
  }

  lemma SubscriptionsFollowed(s: Setup, events: seq<Event>, o: Order)
    ensures Followed(After(s, events, o), o)
  {
    hide After, Fared, Replay, PubSub.Inv, Requests, Simple, InOrder, Tallied, Final, Accounted, Partial;
    var es := events[..Lived(s, events, o)];
    LivedOnly(s, events, o);
    RunSound(s, es, o);
    RunTold(s, es, o);
  }
}
