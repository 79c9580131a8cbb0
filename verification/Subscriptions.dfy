/**
 The subscription side of async.c on values: which commands subscribe, what a subscribe command does to the
 dictionaries of callbacks, and what a message from the server does to them.
 */
module Subscriptions {
  import opened Bytes
  import opened Callbacks
  import opened Resp

  const SUBSCRIBE: bytes := [115, 117, 98, 115, 99, 114, 105, 98, 101]
  const UNSUBSCRIBE: bytes := [117, 110, 115, 117, 98, 115, 99, 114, 105, 98, 101]
  const MONITOR: bytes := [109, 111, 110, 105, 116, 111, 114]
  const LOWER_P: byte := 112

  function Lower(b: byte): byte {
    if 65 <= b <= 90 then b + 32 else b
  }

  /** `strcasecmp(s, word) == 0` for a lower-case word. */
  predicate SameWord(s: bytes, word: bytes) {
    |s| == |word| && forall k :: 0 <= k < |s| ==> Lower(s[k]) == word[k]
  }

  predicate PVariant(s: bytes) {
    s != [] && Lower(s[0]) == LOWER_P
  }

  /** The word after the optional p. */
  function Stem(s: bytes): bytes {
    if PVariant(s) then s[1..] else s
  }

  // ----- Commands -----

  datatype Verb = Subscribe | Unsubscribe | Monitor | Regular

  /** `strncasecmp` of an argument in the formatted command, which ends in CR LF, with a word and CR LF. */
  predicate Announces(arg: bytes, word: bytes) {
    |word| <= |arg| && SameWord((arg + CRLF)[..|word| + 2], word + CRLF)
  }

  /** The tests of `__redisAsyncCommand` on the first argument. */
  function Classify(argv: seq<bytes>): Verb
    requires argv != []
  {
    var name := Stem(argv[0]);
    if |argv| > 1 && Announces(name, SUBSCRIBE) then Subscribe
    else if Announces(name, UNSUBSCRIBE) then Unsubscribe
    else if Announces(name, MONITOR) then Monitor
    else Regular
  }

  datatype Subs = Subs(channels: map<bytes, Callback>, patterns: map<bytes, Callback>, subscribed: bool) {
    function Of(pvariant: bool): map<bytes, Callback> {
      if pvariant then patterns else channels
    }

    function With(pvariant: bool, d: map<bytes, Callback>): Subs {
      if pvariant then this.(patterns := d) else this.(channels := d)
    }
  }

  const NO_SUBS := Subs(map[], map[], false)

  /** The variables of the loop over the names of a (P)SUBSCRIBE: the dictionary, and the callback with its counter. */
  datatype Loop = Loop(d: map<bytes, Callback>, cb: Callback)

  /** One turn: only a known name resets the counter that the callback carries along. */
  function Turn(s: Loop, x: bytes): Loop {
    var cb := if x in s.d then s.cb.(pendingSubs := s.d[x].pendingSubs + 1) else s.cb;
    Loop(s.d[x := cb], cb)
  }

  function Turns(d: map<bytes, Callback>, names: seq<bytes>, cb: Callback): Loop {
    if names == [] then Loop(d, cb) else Turn(Turns(d, names[..|names| - 1], cb), names[|names| - 1])
  }

  /** What a (P)SUBSCRIBE makes of a dictionary. */
  function SubscribeAll(d: map<bytes, Callback>, names: seq<bytes>, cb: Callback): map<bytes, Callback> {
    Turns(d, names, cb).d
  }

  /** One name: its counter goes up by one, and starts at one. */
  lemma AddOne(d: map<bytes, Callback>, x: bytes, cb: Callback)
    requires cb.pendingSubs == 1
    ensures SubscribeAll(d, [x], cb) == d[x := cb.(pendingSubs := if x in d then d[x].pendingSubs + 1 else 1)]
  {
    OneTurn(d, [], x, cb);
    assert [] + [x] == [x];
  }

  lemma NoTurn(d: map<bytes, Callback>, cb: Callback)
    ensures Turns(d, [], cb) == Loop(d, cb)
  {
  }

  lemma OneTurn(d: map<bytes, Callback>, names: seq<bytes>, x: bytes, cb: Callback)
    ensures Turns(d, names + [x], cb) == Turn(Turns(d, names, cb), x)
  {
    assert (names + [x])[..|names|] == names;
  }

  // ----- Counting the subscriptions of one command -----

  /** The subscribes of x that were pending before. */
  function Before(d: map<bytes, Callback>, x: bytes): int {
    if x in d then d[x].pendingSubs else 0
  }

  function Occurrences(names: seq<bytes>, x: bytes): nat {
    if names == [] then 0
    else Occurrences(names[..|names| - 1], x) + if names[|names| - 1] == x then 1 else 0
  }

  /** Every counter went up by the number of times its name was given: the server confirms each of them. */
  ghost predicate Counted(d: map<bytes, Callback>, names: seq<bytes>, d': map<bytes, Callback>) {
    forall x :: x in names ==> x in d' && d'[x].pendingSubs == Before(d, x) + Occurrences(names, x)
  }

  /** The loop finds an entry for name i: in the old dictionary, or made by an earlier name of the command. */
  predicate Known(d: map<bytes, Callback>, names: seq<bytes>, i: nat)
    requires i < |names|
  {
    names[i] in d || names[i] in names[..i]
  }

  /** i is the last place before j with a known name. */
  ghost predicate LastKnown(d: map<bytes, Callback>, names: seq<bytes>, i: nat, j: nat)
    requires j <= |names|
  {
    i < j && Known(d, names, i) && forall k :: i < k < j ==> !Known(d, names, k)
  }

  /** The last known name before place j, if there is one, had come to a counter of 1. */
  ghost predicate Clean(d: map<bytes, Callback>, names: seq<bytes>, j: nat)
    requires j <= |names|
  {
    forall i: nat :: LastKnown(d, names, i, j) ==> Before(d, names[i]) + Occurrences(names[..i + 1], names[i]) == 1
  }

  /**
   A (P)SUBSCRIBE is counted right exactly when, for each of its new names, either no earlier name was known
   or the last known one had come to a counter of 1. Names may be repeated.
   */
  lemma CountedIff(d: map<bytes, Callback>, names: seq<bytes>, cb: Callback)
    requires cb.pendingSubs == 1
    ensures Counted(d, names, SubscribeAll(d, names, cb))
       <==> forall j :: 0 <= j < |names| && !Known(d, names, j) ==> Clean(d, names, j)
  {
    RightIff(d, names, cb);
    FairIff(d, names, |names|);
    assert names[..|names|] == names;
  }

  /** Name i has an entry in the dictionary, and the names after it up to j have none. */
  ghost predicate ThenNew(d: map<bytes, Callback>, names: seq<bytes>, i: nat, j: nat) {
    i < j < |names| && names[i] in d && forall k :: i < k <= j ==> names[k] !in d
  }

  /** For different names the old dictionary decides: whenever new names follow one with an entry, its counter was 0. */
  lemma CountedOnceIff(d: map<bytes, Callback>, names: seq<bytes>, cb: Callback)
    requires Distinct(names) && cb.pendingSubs == 1
    ensures Counted(d, names, SubscribeAll(d, names, cb))
       <==> forall i: nat, j: nat :: ThenNew(d, names, i, j) ==> d[names[i]].pendingSubs == 0
  {
    CountedIff(d, names, cb);
    DifferentNames(d, names);
  }

  /** Each name is in its own place only. */
  ghost predicate Distinct(names: seq<bytes>) {
    forall i, j :: 0 <= i < j < |names| ==> names[i] != names[j]
  }

  /** SUBSCRIBE a b, where a has one subscription pending and b is new: b starts at 2. */
  lemma CarriedOver(a: bytes, b: bytes, cb: Callback)
    requires a != b && cb.pendingSubs == 1
    ensures var d := map[a := cb];
            var d' := SubscribeAll(d, [a, b], cb);
            b in d' && d'[b].pendingSubs == 2 && !Counted(d, [a, b], d')
  {
    OneTurn(map[a := cb], [a], b, cb);
    OneTurn(map[a := cb], [], a, cb);
    assert [] + [a] == [a] && [a] + [b] == [a, b] && [a, b][..1] == [a];
    NoOccurrence([a], b);
    assert Occurrences([a, b], b) == 1;
    assert [a, b][1] == b;
  }

  /** SUBSCRIBE a a b with both new: the second a is known, so that b starts at 2. */
  lemma CarriedByRepetition(a: bytes, b: bytes, cb: Callback, d: map<bytes, Callback>)
    requires a != b && cb.pendingSubs == 1 && a !in d && b !in d
    ensures var d' := SubscribeAll(d, [a, a, b], cb);
            b in d' && d'[b].pendingSubs == 2 && !Counted(d, [a, a, b], d')
  {
    OneTurn(d, [a, a], b, cb);
    OneTurn(d, [a], a, cb);
    OneTurn(d, [], a, cb);
    assert [] + [a] == [a] && [a] + [a] == [a, a] && [a, a] + [b] == [a, a, b] && [a, a, b][..2] == [a, a];
    NoOccurrence([a, a], b);
    assert Occurrences([a, a, b], b) == 1;
    assert [a, a, b][2] == b;
  }

  // ----- Proof of the counting theorem -----

  lemma {:induction false} NoOccurrence(names: seq<bytes>, x: bytes)
    requires x !in names
    ensures Occurrences(names, x) == 0
  {
    if names != [] { NoOccurrence(names[..|names| - 1], x); }
  }

  /** The counter the loop should carry after the names: that of the last known one, or the initial 1. */
  function Carry(d: map<bytes, Callback>, names: seq<bytes>): int {
    if names == [] then 1
    else if Known(d, names, |names| - 1) then Before(d, names[|names| - 1]) + Occurrences(names, names[|names| - 1])
    else Carry(d, names[..|names| - 1])
  }

  /** Each new name meets a counter of 1. */
  predicate Fair(d: map<bytes, Callback>, names: seq<bytes>) {
    names != [] ==>
      Fair(d, names[..|names| - 1]) && (Known(d, names, |names| - 1) || Carry(d, names[..|names| - 1]) == 1)
  }

  lemma {:induction false} Entries(d: map<bytes, Callback>, names: seq<bytes>, cb: Callback, x: bytes)
    ensures x in SubscribeAll(d, names, cb) <==> x in d || x in names
    ensures x in d && x !in names ==> SubscribeAll(d, names, cb)[x] == d[x]
  {
    if names != [] {
      var n := |names| - 1;
      Entries(d, names[..n], cb, x);
      assert x in names <==> x in names[..n] || x == names[n] by { assert names == names[..n] + [names[n]]; }
    }
  }

  /** Each name given has the callback of this command, whatever its counter, and no other entry changes. */
  lemma {:induction false} Registers(d: map<bytes, Callback>, names: seq<bytes>, cb: Callback, x: bytes)
    ensures var d' := SubscribeAll(d, names, cb);
            && (x in names ==> x in d' && d'[x] == cb.(pendingSubs := d'[x].pendingSubs))
            && (x !in names ==> (x in d' <==> x in d) && (x in d ==> d'[x] == d[x]))
    ensures var c := Turns(d, names, cb).cb; c == cb.(pendingSubs := c.pendingSubs)
  {
    if names != [] {
      var n := |names| - 1;
      Registers(d, names[..n], cb, x);
      assert x in names <==> x in names[..n] || x == names[n] by { assert names == names[..n] + [names[n]]; }
    }
  }

  lemma {:induction false} RightIff(d: map<bytes, Callback>, names: seq<bytes>, cb: Callback)
    requires cb.pendingSubs == 1
    ensures Counted(d, names, SubscribeAll(d, names, cb)) <==> Fair(d, names)
    ensures Fair(d, names) ==> Turns(d, names, cb).cb.pendingSubs == Carry(d, names)
  {
    if names != [] {
      var n := |names| - 1;
      var m, x := names[..n], names[n];
      RightIff(d, m, cb);
      Entries(d, m, cb, x);
      forall y | y in m
        ensures y in SubscribeAll(d, m, cb)
      {
        Entries(d, m, cb, y);
      }
      if x !in m { NoOccurrence(m, x); }
      CountedMore(d, m, x, Turns(d, m, cb), names);
    }
  }

  /** One more name. */
  lemma CountedMore(d: map<bytes, Callback>, m: seq<bytes>, x: bytes, s: Loop, names: seq<bytes>)
    requires names == m + [x] && (forall y :: y in m ==> y in s.d)
    requires x !in m ==> Occurrences(m, x) == 0
    requires x in s.d <==> x in d || x in m
    requires x in d && x !in m ==> s.d[x] == d[x]
    ensures Occurrences(names, x) == Occurrences(m, x) + 1
    ensures var s' := Turn(s, x);
            if x in s.d then Counted(d, names, s'.d) <==> Counted(d, m, s.d)
            else Counted(d, names, s'.d) <==> Counted(d, m, s.d) && s.cb.pendingSubs == 1
    ensures x in s.d && Counted(d, m, s.d) ==> Turn(s, x).cb.pendingSubs == Before(d, x) + Occurrences(names, x)
  {
    var s' := Turn(s, x);
    assert names[..|m|] == m && names[|m|] == x;
    forall y | y != x
      ensures Occurrences(names, y) == Occurrences(m, y) && (y in names <==> y in m)
    {
    }
    assert x in names;
    forall y | y in m
      ensures y in names
    {
    }
  }

  lemma CarryStep(d: map<bytes, Callback>, names: seq<bytes>, i: nat)
    requires i < |names|
    ensures Carry(d, names[..i + 1]) ==
            if Known(d, names, i) then Before(d, names[i]) + Occurrences(names[..i + 1], names[i])
            else Carry(d, names[..i])
  {
    hide Before, Occurrences;
    var m := names[..i + 1];
    assert m[..i] == names[..i] && m[i] == names[i];
  }

  lemma {:induction false} CarryIsClean(d: map<bytes, Callback>, names: seq<bytes>, j: nat)
    requires j <= |names|
    ensures Carry(d, names[..j]) == 1 <==> Clean(d, names, j)
  {
    hide Carry, Clean, Known, Before, Occurrences;
    if j == 0 {
      CarryNothing(d, names);
    } else {
      CarryIsClean(d, names, j - 1);
      CarryStep(d, names, j - 1);
      if Known(d, names, j - 1) {
        KnownNext(d, names, j - 1);
      } else {
        UnknownNext(d, names, j - 1);
      }
    }
  }

  lemma CarryNothing(d: map<bytes, Callback>, names: seq<bytes>)
    ensures Carry(d, names[..0]) == 1 && Clean(d, names, 0)
  {
  }

  lemma KnownNext(d: map<bytes, Callback>, names: seq<bytes>, i: nat)
    requires i < |names| && Known(d, names, i)
    ensures Clean(d, names, i + 1) <==> Before(d, names[i]) + Occurrences(names[..i + 1], names[i]) == 1
  {
    assert LastKnown(d, names, i, i + 1);
  }

  lemma UnknownNext(d: map<bytes, Callback>, names: seq<bytes>, i: nat)
    requires i < |names| && !Known(d, names, i)
    ensures Clean(d, names, i + 1) <==> Clean(d, names, i)
  {
    assert forall h :: 0 <= h <= i ==> (LastKnown(d, names, h, i + 1) <==> LastKnown(d, names, h, i));
  }

  lemma {:induction false} FairIff(d: map<bytes, Callback>, names: seq<bytes>, n: nat)
    requires n <= |names|
    ensures Fair(d, names[..n]) <==> forall j :: 0 <= j < n && !Known(d, names, j) ==> Clean(d, names, j)
  {
    hide Fair, Clean, Known;
    if n == 0 {
      FairNothing(d, names);
    } else {
      FairIff(d, names, n - 1);
      FairStep(d, names, n - 1);
    }
  }

  lemma FairNothing(d: map<bytes, Callback>, names: seq<bytes>)
    ensures Fair(d, names[..0])
  {
  }

  lemma FairStep(d: map<bytes, Callback>, names: seq<bytes>, n: nat)
    requires n < |names|
    ensures Fair(d, names[..n + 1]) <==> Fair(d, names[..n]) && (Known(d, names, n) || Clean(d, names, n))
  {
    hide Clean, Carry;
    var m := names[..n + 1];
    assert m[..n] == names[..n] && m[n] == names[n];
    CarryIsClean(d, names, n);
  }

  /** With different names only the old dictionary decides which names are known. */
  lemma DifferentNames(d: map<bytes, Callback>, names: seq<bytes>)
    requires Distinct(names)
    ensures (forall j :: 0 <= j < |names| && !Known(d, names, j) ==> Clean(d, names, j))
       <==> forall i: nat, j: nat :: ThenNew(d, names, i, j) ==> d[names[i]].pendingSubs == 0
  {
    hide Clean;
    forall i, j | 0 <= i < j < |names|
      ensures LastKnown(d, names, i, j) && !Known(d, names, j) <==> ThenNew(d, names, i, j)
    {
      KnownOnce(d, names);
    }
    if forall j :: 0 <= j < |names| && !Known(d, names, j) ==> Clean(d, names, j) {
      forall i: nat, j: nat | ThenNew(d, names, i, j)
        ensures d[names[i]].pendingSubs == 0
      {
        CleanAt(d, names, i, j);
      }
    } else {
      var j :| 0 <= j < |names| && !Known(d, names, j) && !Clean(d, names, j);
      var i := Spoiler(d, names, j);
      assert ThenNew(d, names, i, j);
    }
  }

  lemma KnownOnce(d: map<bytes, Callback>, names: seq<bytes>)
    requires Distinct(names)
    ensures forall i :: 0 <= i < |names| ==> (Known(d, names, i) <==> names[i] in d)
  {
  }

  lemma OnceSoFar(names: seq<bytes>, i: nat)
    requires Distinct(names) && i < |names|
    ensures Occurrences(names[..i + 1], names[i]) == 1
  {
    NoOccurrence(names[..i], names[i]);
    assert names[..i + 1][..i] == names[..i];
  }

  lemma CleanAt(d: map<bytes, Callback>, names: seq<bytes>, i: nat, j: nat)
    requires Distinct(names) && j < |names| && LastKnown(d, names, i, j) && Clean(d, names, j) && names[i] in d
    ensures d[names[i]].pendingSubs == 0
  {
    OnceSoFar(names, i);
  }

  lemma Spoiler(d: map<bytes, Callback>, names: seq<bytes>, j: nat) returns (i: nat)
    requires Distinct(names) && j < |names| && !Clean(d, names, j)
    ensures LastKnown(d, names, i, j) && names[i] in d && d[names[i]].pendingSubs != 0
  {
    var h: nat :| LastKnown(d, names, h, j) && Before(d, names[h]) + Occurrences(names[..h + 1], names[h]) != 1;
    i := h;
    OnceSoFar(names, i);
    KnownOnce(d, names);
  }

  // ----- Messages -----

  /** The C string a payload is read as. */
  function Text(s: bytes): (r: cstring) {
    if s == [] || s[0] == NUL then [] else [s[0]] + Text(s[1..])
  }

  /** One of the assertions failed, or the new dictionaries and the callback to run. */
  datatype Handled = Crashed | Handled(subs: Subs, cb: Callback)

  /** `__redisGetSubscribeCallback` for an array reply; cb is what the caller's variable held before. */
  function Handle(subs: Subs, e: seq<Reply>, cb: Callback): Handled {
    if |e| < 2 || !e[0].String? || !e[1].String? then Crashed
    else
      var stype := Text(e[0].payload);
      Lookup(subs, PVariant(stype), Stem(stype), e[1].payload, if |e| < 3 then None else Some(e[2]), cb)
  }

  /** The callback found for a message: a confirmed subscribe is counted off. */
  function Found(d: map<bytes, Callback>, verb: bytes, name: bytes): Callback
    requires name in d
  {
    if SameWord(verb, SUBSCRIBE) then d[name].(pendingSubs := d[name].pendingSubs - 1) else d[name]
  }

  /** A confirmed unsubscribe removes the entry when no subscribe is pending. */
  function Left(d: map<bytes, Callback>, verb: bytes, name: bytes): map<bytes, Callback>
    requires name in d
  {
    var cb := Found(d, verb, name);
    if SameWord(verb, UNSUBSCRIBE) && cb.pendingSubs == 0 then d - {name} else d[name := cb]
  }

  /** The lookup of the name and what the verb of the message does to its entry; total is the third element. */
  function Lookup(subs: Subs, pvariant: bool, verb: bytes, name: bytes, total: Option<Reply>, cb: Callback): Handled {
    var d := subs.Of(pvariant);
    if name !in d then Handled(subs, cb)
    else
      var left := subs.With(pvariant, Left(d, verb, name));
      if !SameWord(verb, UNSUBSCRIBE) then Handled(left, Found(d, verb, name))
      else if total.None? || !total.value.Integer? then Crashed
      else if total.value.value == 0 && left.channels == map[] && left.patterns == map[]
      then Handled(left.(subscribed := false), Found(d, verb, name))
      else Handled(left, Found(d, verb, name))
  }
}
