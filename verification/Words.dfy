/** The words that async.c knows, spelled out: which commands they make, and what the messages they begin do. */
module Words {
  import opened Bytes
  import opened Callbacks
  import opened Resp
  import opened Subscriptions
  import opened Verdicts

  /** s is the lower-case word, in letters of either case. */
  predicate Spells(s: bytes, word: string) {
    |s| == |word| && forall k :: 0 <= k < |s| ==> s[k] == word[k] as int || s[k] == word[k] as int - 32
  }

  /** The word, perhaps with a p before it. */
  predicate Titled(s: bytes, word: string) {
    Spells(s, word) || Spells(s, "p" + word)
  }

  predicate Patterned(s: bytes) {
    s != [] && (s[0] == 112 || s[0] == 80)
  }

  // ----- Spelling -----

  /** w is the word, which has small letters only and does not begin with p. */
  ghost predicate Writes(w: bytes, word: string) {
    && |w| == |word| && |w| > 0 && w[0] != 112
    && forall k :: 0 <= k < |w| ==> w[k] == word[k] as int && 97 <= w[k] <= 122
  }

  lemma WordsWritten()
    ensures Writes(SUBSCRIBE, "subscribe") && Writes(UNSUBSCRIBE, "unsubscribe") && Writes(MONITOR, "monitor")
  {
    var s, u, m := "subscribe", "unsubscribe", "monitor";
    assert s[0] == 's' && s[1] == 'u' && s[2] == 'b' && s[3] == 's' && s[4] == 'c' && s[5] == 'r' && s[6] == 'i';
    assert s[7] == 'b' && s[8] == 'e';
    assert u[0] == 'u' && u[1] == 'n' && u[2] == 's' && u[3] == 'u' && u[4] == 'b' && u[5] == 's' && u[6] == 'c';
    assert u[7] == 'r' && u[8] == 'i' && u[9] == 'b' && u[10] == 'e';
    assert m[0] == 'm' && m[1] == 'o' && m[2] == 'n' && m[3] == 'i' && m[4] == 't' && m[5] == 'o' && m[6] == 'r';
  }

  lemma SameIsSpelled(s: bytes, w: bytes, word: string)
    requires Writes(w, word)
    ensures SameWord(s, w) <==> Spells(s, word)
  {
  }

  /** With the p taken off, the word is what is left. */
  lemma StemIsTitled(s: bytes, w: bytes, word: string)
    requires Writes(w, word)
    ensures SameWord(Stem(s), w) <==> Titled(s, word)
  {
    hide SameWord;
    SameIsSpelled(Stem(s), w, word);
    var pword := "p" + word;
    assert pword[0] == 'p' && forall k :: 0 <= k < |word| ==> pword[k + 1] == word[k];
    if PVariant(s) {
      assert Spells(s, pword) <==> Spells(s[1..], word) by {
        if Spells(s[1..], word) {
          assert forall k :: 1 <= k < |s| ==> s[k] == s[1..][k - 1];
        }
      }
    }
  }

  lemma PVariantIs(s: bytes)
    ensures PVariant(s) <==> Patterned(s)
  {
  }

  // ----- Commands -----

  /** An argument announces a word when what it holds before its first CR LF, or all of it, is that word. */
  lemma AnnouncesIff(arg: bytes, w: bytes, word: string, name: bytes, rest: bytes)
    requires Writes(w, word) && FirstLine(arg + [13, 10], name, rest)
    ensures Announces(arg, w) <==> SameWord(name, w)
  {
    var line := arg + [13, 10];
    var n := |w|;
    if Announces(arg, w) {
      var head := line[..n + 2];
      assert head[n] == 13 && head[n + 1] == 10 by { assert (w + CRLF)[n] == 13 && (w + CRLF)[n + 1] == 10; }
      forall k | 0 <= k < n
        ensures Lower(line[k]) == w[k]
      {
        assert head[k] == line[k] && (w + CRLF)[k] == w[k];
      }
      assert line == line[..n] + [13, 10] + line[n + 2..];
      assert FirstLine(line, line[..n], line[n + 2..]);
      OneFirst(line, name, rest);
      OneFirst(line, line[..n], line[n + 2..]);
    }
    if SameWord(name, w) {
      assert line[..n + 2] == name + CRLF;
    }
  }

  lemma StemLine(arg: bytes, name: bytes, rest: bytes)
    requires FirstLine(arg + [13, 10], name, rest)
    ensures PVariant(arg) <==> PVariant(name)
    ensures FirstLine(Stem(arg) + [13, 10], Stem(name), rest)
  {
    if arg == [] {
      OneFirst(arg + [13, 10], name, rest);
      OneFirst(arg + [13, 10], [], []);
    } else {
      assert (arg + [13, 10])[0] == arg[0] == if name == [] then 13 else name[0];
      if PVariant(arg) {
        assert arg[1..] + [13, 10] == (arg + [13, 10])[1..] == name[1..] + [13, 10] + rest;
        assert name[1..] + [13] == (name + [13])[1..];
      }
    }
  }

  /**
   What kind of command it is, by the name that stands in the first argument before its first CR LF: the words in any
   case, with or without a p; a subscribe only when an argument follows.
   */
  lemma ClassifyIff(argv: seq<bytes>, name: bytes, rest: bytes)
    requires argv != [] && FirstLine(argv[0] + [13, 10], name, rest)
    ensures Classify(argv) == Subscribe <==> |argv| > 1 && Titled(name, "subscribe")
    ensures Classify(argv) == Unsubscribe <==> Titled(name, "unsubscribe")
    ensures Classify(argv) == Monitor <==> Titled(name, "monitor")
    ensures PVariant(argv[0]) <==> Patterned(argv[0])
  {
    hide Announces, SameWord, Titled, FirstLine, Stem, PVariant, Patterned;
    WordsWritten();
    StemLine(argv[0], name, rest);
    PVariantIs(argv[0]);
    AnnouncesIff(Stem(argv[0]), SUBSCRIBE, "subscribe", Stem(name), rest);
    AnnouncesIff(Stem(argv[0]), UNSUBSCRIBE, "unsubscribe", Stem(name), rest);
    AnnouncesIff(Stem(argv[0]), MONITOR, "monitor", Stem(name), rest);
    StemIsTitled(name, SUBSCRIBE, "subscribe");
    StemIsTitled(name, UNSUBSCRIBE, "unsubscribe");
    StemIsTitled(name, MONITOR, "monitor");
    OneWord(Stem(name));
  }

  /** No name is two of the words. */
  lemma OneWord(s: bytes)
    ensures !(SameWord(s, SUBSCRIBE) && SameWord(s, UNSUBSCRIBE)) && !(SameWord(s, SUBSCRIBE) && SameWord(s, MONITOR))
    ensures !(SameWord(s, UNSUBSCRIBE) && SameWord(s, MONITOR))
  {
  }

  // ----- Messages -----

  /** The payload as a C string. */
  ghost predicate EndsAt(payload: bytes, title: bytes) {
    0 !in title && (payload == title || exists rest :: payload == title + [0] + rest)
  }

  lemma {:induction false} TextEnds(payload: bytes, title: bytes)
    requires EndsAt(payload, title)
    ensures Text(payload) == title
    decreases |payload|
  {
    if title != [] {
      assert payload[0] == title[0];
      if payload != title {
        var rest :| payload == title + [0] + rest;
        assert payload[1..] == title[1..] + [0] + rest;
      }
      TextEnds(payload[1..], title[1..]);
    }
  }

  /** The subscriptions with another dictionary of this kind. */
  function With(subs: Subs, pattern: bool, d: map<bytes, Callback>): Subs {
    if pattern then Subs(subs.channels, d, subs.subscribed) else Subs(d, subs.patterns, subs.subscribed)
  }

  /** The confirmation says that no subscription is left, and there is none. */
  predicate NoneLeft(subs: Subs, total: Reply) {
    total == Integer(0) && subs.channels == map[] && subs.patterns == map[]
  }

  /**
   What an array that no callback waits for does, by its title: the bytes of its first string up to a NUL. The
   dictionary is that of patterns when the title begins with a p. A name without an entry changes nothing, and the
   caller keeps its callback. Otherwise the callback of the entry is the one that is found; a subscribe lowers its
   counter; an unsubscribe removes the entry when the counter is 0, clears the flag when nothing is left, and needs a
   third element that is an integer.
   */
  lemma MessageDoes(subs: Subs, e: seq<Reply>, cb: Callback, title: bytes)
    requires |e| >= 2 && e[0].String? && e[1].String? && EndsAt(e[0].payload, title)
    ensures var p, name := Patterned(title), e[1].payload;
            var d, h := if p then subs.patterns else subs.channels, Handle(subs, e, cb);
            if name !in d then h == Handled(subs, cb)
            else
              var entry := d[name];
              if Titled(title, "subscribe") then
                var less := entry.(pendingSubs := entry.pendingSubs - 1);
                h == Handled(With(subs, p, d[name := less]), less)
              else if Titled(title, "unsubscribe") then
                if |e| < 3 || !e[2].Integer? then h == Crashed
                else
                  var left := With(subs, p, if entry.pendingSubs == 0 then d - {name} else d);
                  h == Handled(if NoneLeft(left, e[2]) then left.(subscribed := false) else left, entry)
              else h == Handled(subs, entry)
  {
    hide SameWord, Titled, Stem, Text, EndsAt;
    TextEnds(e[0].payload, title);
    WordsWritten();
    PVariantIs(title);
    StemIsTitled(title, SUBSCRIBE, "subscribe");
    StemIsTitled(title, UNSUBSCRIBE, "unsubscribe");
    OneWord(Stem(title));
    SameEntry(subs, Patterned(title), e[1].payload);
  }

  lemma SameEntry(subs: Subs, p: bool, name: bytes)
    ensures name in subs.Of(p) ==> subs.With(p, subs.Of(p)[name := subs.Of(p)[name]]) == subs
  {
    if name in subs.Of(p) {
      assert subs.Of(p)[name := subs.Of(p)[name]] == subs.Of(p);
    }
  }

  /** Any other array fails an assertion. */
  lemma MalformedCrashes(subs: Subs, e: seq<Reply>, cb: Callback)
    requires |e| < 2 || !e[0].String? || !e[1].String?
    ensures Handle(subs, e, cb) == Crashed
  {
  }
}
