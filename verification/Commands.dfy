/** What `__redisAsyncCommand` finds out about a command from its text. */
module Commands {
  import opened Arguments
  import opened Bytes
  import opened Formatter
  import opened Subscriptions

  /** `strncasecmp(mem + p, word, |word|) == 0`, where the string in mem ends before mem does. */
  predicate Starts(mem: bytes, p: nat, word: bytes) {
    p + |word| <= |mem| && SameWord(mem[p..p + |word|], word)
  }

  /** A word of letters begins the text at p exactly when it announces the argument that is there with its CR LF. */
  lemma StartsIff(mem: bytes, p: nat, arg: bytes, word: bytes)
    requires p + |arg| + 2 <= |mem| && mem[p..p + |arg|] == arg && mem[p + |arg|..p + |arg| + 2] == CRLF
    requires CR !in word
    ensures Starts(mem, p, word + CRLF) <==> Announces(arg, word)
  {
    hide SameWord;
    var w := word + CRLF;
    if |word| <= |arg| {
      assert mem[p..p + |w|] == (arg + CRLF)[..|w|];
    } else if p + |w| <= |mem| {
      assert mem[p..p + |w|][|arg|] == mem[p + |arg|..p + |arg| + 2][0] == CR;
      assert w[|arg|] == word[|arg|];
      if SameWord(mem[p..p + |w|], w) {
        SameAt(mem[p..p + |w|], w, |arg|);
      }
    }
  }

  lemma SameAt(s: bytes, word: bytes, k: nat)
    requires SameWord(s, word) && k < |s|
    ensures Lower(s[k]) == word[k]
  {
  }

  lemma FewerSizes(argv: seq<bytes>)
    requires Sizes(argv) && argv != []
    ensures Sizes(argv[1..])
  {
  }

  /** Which command the text is: the tests on its first argument. The names of a subscribe begin at next. */
  method ReadVerb(mem: bytes, ghost argv: seq<bytes>) returns (verb: Verb, pvariant: bool, next: nat)
    requires mem == Wire(argv) + [NUL] && Sizes(argv) && argv != []
    ensures verb == Classify(argv) && pvariant == PVariant(argv[0])
    ensures Ahead(mem, next, argv[1..]) && Sizes(argv[1..])
  {
    hide Wire, Announces, Starts, SameWord, Stem, PVariant, Rest, Ahead, Sizes;
    FewerSizes(argv);
    AheadWhole(mem, argv);
    var a := NextOf(mem, 0, argv);
    next := a.next;
    var hasnext := mem[a.next] == DOLLAR;
    NameAt(mem, a, argv);
    RestStarts(mem, next, argv[1..]);
    pvariant := Lower(mem[a.str]) == LOWER_P;
    var cstr := a.str + if pvariant then 1 else 0;
    StartsIff(mem, cstr, Stem(argv[0]), SUBSCRIBE);
    StartsIff(mem, cstr, Stem(argv[0]), UNSUBSCRIBE);
    StartsIff(mem, cstr, Stem(argv[0]), MONITOR);
    if hasnext && Starts(mem, cstr, SUBSCRIBE + CRLF) {
      verb := Subscribe;
    } else if Starts(mem, cstr, UNSUBSCRIBE + CRLF) {
      verb := Unsubscribe;
    } else if Starts(mem, cstr, MONITOR + CRLF) {
      verb := Monitor;
    } else {
      verb := Regular;
    }
  }

  /** The name without its p is followed by CR LF. */
  lemma NameAt(mem: bytes, a: Argument, argv: seq<bytes>)
    requires argv != [] && First(mem, a, argv)
    ensures PVariant(argv[0]) <==> Lower(mem[a.str]) == LOWER_P
    ensures var p := a.str + if PVariant(argv[0]) then 1 else 0;
            var name := Stem(argv[0]);
            && p + |name| + 2 <= |mem| && mem[p..p + |name|] == name && mem[p + |name|..p + |name| + 2] == CRLF
  {
    hide Rest;
    var n := |argv[0]|;
    assert mem[a.str] == if n > 0 then mem[a.str..a.str + n][0] else mem[a.str + n..a.next][0];
    if PVariant(argv[0]) {
      assert mem[a.str + 1..a.str + n] == mem[a.str..a.str + n][1..];
    }
  }

  /** There is a '$' exactly when there is another argument. */
  lemma RestStarts(mem: bytes, p: nat, argv: seq<bytes>)
    requires Rest(mem, p, argv)
    ensures mem[p] == DOLLAR <==> argv != []
    ensures Ahead(mem, p, argv)
  {
    assert mem[p] == mem[p..][0];
    if argv == [] {
      NoArguments();
    } else {
      FirstHeader(mem, p, argv);
    }
  }
}
