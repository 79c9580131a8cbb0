/**
 The format strings of `redisvFormatCommand`: words with spaces between them, made of bytes, %% and the conversions %s
 and %b. Stated by what is written, not by how it is scanned.
 */
module Formats {
  import opened Bytes
  import opened Formatter

  /** A byte, %%, or a conversion with the letter c. */
  datatype Mark = Same(b: byte) | Percent | Value(c: byte)

  /** A word and the spaces behind it; args are the values of its conversions. */
  datatype Spaced = Spaced(marks: seq<Mark>, args: seq<bytes>, spaces: nat)

  function MarkBytes(m: Mark): bytes {
    match m
    case Same(b) => [b]
    case Percent => [37, 37]
    case Value(c) => [37, c]
  }

  function MarksBytes(ms: seq<Mark>): bytes {
    if ms == [] then [] else MarkBytes(ms[0]) + MarksBytes(ms[1..])
  }

  function Spaces(n: nat): bytes {
    seq(n, _ => 32)
  }

  /** The marks with these values make v; s is what follows. A single '%' may stand at the end of the format. */
  predicate Makes(ms: seq<Mark>, args: seq<bytes>, v: bytes, s: bytes) {
    if ms == [] then args == [] && v == []
    else match ms[0]
      case Same(b) =>
        && v != [] && v[0] == b && Makes(ms[1..], args, v[1..], s)
        && b != 0 && b != 32 && (b == 37 ==> MarksBytes(ms[1..]) + s == [])
      case Percent => v != [] && v[0] == 37 && Makes(ms[1..], args, v[1..], s)
      case Value(c) =>
        && (c == 115 || c == 98) && args != [] && args[0] <= v && Makes(ms[1..], args[1..], v[|args[0]|..], s)
  }

  function FormatBytes(ws: seq<Spaced>): bytes {
    if ws == [] then [] else MarksBytes(ws[0].marks) + Spaces(ws[0].spaces) + FormatBytes(ws[1..])
  }

  /** The words with these values make vs. */
  predicate MakeAll(ws: seq<Spaced>, args: seq<bytes>, vs: seq<bytes>) {
    if ws == [] then args == [] && vs == []
    else
      && vs != [] && ws[0].marks != [] && ws[0].args <= args
      && Makes(ws[0].marks, ws[0].args, vs[0], Spaces(ws[0].spaces) + FormatBytes(ws[1..]))
      && (ws[0].spaces == 0 ==> ws[1..] == [])
      && MakeAll(ws[1..], args[|ws[0].args|..], vs[1..])
  }

  /** The format consists of spaces and these words. */
  ghost predicate Means(format: bytes, args: seq<bytes>, vs: seq<bytes>) {
    exists lead: nat, ws :: format == Spaces(lead) + FormatBytes(ws) && MakeAll(ws, args, vs)
  }

  // ----- What is written is scanned -----

  /** The scan of a format that is supported and has as many conversions as there are values. */
  ghost predicate Scans(format: cstring, cur: bytes, touched: bool, args: seq<bytes>, goal: seq<bytes>) {
    && Supported(format) && Holes(Lex(format)) == |args| && Scan(cur, touched, Lex(format), args) == goal
  }

  lemma MarkScans(m: Mark, v: bytes, s: cstring, cur: bytes, touched: bool, args: seq<bytes>, goal: seq<bytes>)
    requires 0 !in MarkBytes(m) + s && Scans(s, cur + v, true, args, goal)
    requires !m.Value? && v == (if m.Percent? then [37] else [m.b])
    requires m.Same? ==> m.b != 32 && (m.b == 37 ==> s == [])
    ensures Scans(MarkBytes(m) + s, cur, touched, args, goal)
  {
    hide Scan;
    var format: cstring := MarkBytes(m) + s;
    assert format[|MarkBytes(m)|..] == s;
    ScanStarts(format, cur, touched, args);
  }

  lemma ValueScans(c: byte, s: cstring, cur: bytes, touched: bool, args: seq<bytes>, goal: seq<bytes>)
    requires 0 !in [37, c] + s && c in {115, 98} && args != [] && Scans(s, cur + args[0], true, args[1..], goal)
    ensures Scans([37, c] + s, cur, touched, args, goal)
  {
    hide Scan;
    var format: cstring := [37, c] + s;
    assert format[2..] == s;
    ScanStarts(format, cur, touched, args);
  }

  /** One step of the scan. */
  lemma ScanStarts(format: cstring, cur: bytes, touched: bool, args: seq<bytes>)
    requires format != [] && Holes(Lex(format)) <= |args|
    ensures var rest := Lex(format)[1..];
            Scan(cur, touched, Lex(format), args) ==
            match Lex(format)[0]
            case Gap => if touched then [cur] + Scan([], false, rest, args) else Scan(cur, false, rest, args)
            case Byte(b) => Scan(cur + [b], true, rest, args)
            case Hole => Scan(cur + args[0], true, rest, args[1..])
  {
  }

  lemma SpaceScans(s: cstring, cur: bytes, args: seq<bytes>, goal: seq<bytes>)
    requires 0 !in [32] + s && Scans(s, [], false, args, goal)
    ensures Scans([32] + s, cur, true, args, [cur] + goal)
    ensures Scans([32] + s, [], false, args, goal)
  {
    hide Scan;
    var format: cstring := [32] + s;
    assert format[1..] == s;
    ScanStarts(format, cur, true, args);
    ScanStarts(format, [], false, args);
  }

  lemma {:induction false} SpacesScan(n: nat, s: cstring, args: seq<bytes>, goal: seq<bytes>)
    requires 0 !in Spaces(n) + s && Scans(s, [], false, args, goal)
    ensures Scans(Spaces(n) + s, [], false, args, goal)
  {
    hide Scans;
    if n == 0 {
      assert Spaces(n) + s == s;
    } else {
      assert Spaces(n) + s == [32] + (Spaces(n - 1) + s);
      SpacesScan(n - 1, s, args, goal);
      SpaceScans(Spaces(n - 1) + s, [], args, goal);
    }
  }

  /** How much of v the first mark makes, and the values behind it. */
  function Part(ms: seq<Mark>, args: seq<bytes>): nat
    requires ms != [] && (ms[0].Value? ==> args != [])
  {
    if ms[0].Value? then |args[0]| else 1
  }

  function After(ms: seq<Mark>, args: seq<bytes>): seq<bytes>
    requires ms != [] && (ms[0].Value? ==> args != [])
  {
    if ms[0].Value? then args[1..] else args
  }

  lemma MakesFirst(ms: seq<Mark>, args: seq<bytes>, v: bytes, s: bytes)
    requires ms != [] && Makes(ms, args, v, s)
    ensures ms[0].Value? ==> args != [] && args[0] <= v && (ms[0].c == 115 || ms[0].c == 98)
    ensures Part(ms, args) <= |v| && Makes(ms[1..], After(ms, args), v[Part(ms, args)..], s)
    ensures !ms[0].Value? ==> v[..1] == (if ms[0].Percent? then [37] else [ms[0].b])
    ensures ms[0].Same? ==> ms[0].b != 32 && (ms[0].b == 37 ==> MarksBytes(ms[1..]) + s == [])
  {
    hide MarksBytes;
  }

  lemma FirstScans(ms: seq<Mark>, args: seq<bytes>, v: bytes, s: cstring, cur: bytes, touched: bool, more: seq<bytes>,
                   goal: seq<bytes>)
    requires ms != [] && Makes(ms, args, v, s) && 0 !in MarkBytes(ms[0]) + (MarksBytes(ms[1..]) + s)
    requires (ms[0].Value? ==> args != []) && Part(ms, args) <= |v|
    requires Scans(MarksBytes(ms[1..]) + s, cur + v[..Part(ms, args)], true, After(ms, args) + more, goal)
    ensures Scans(MarkBytes(ms[0]) + (MarksBytes(ms[1..]) + s), cur, touched, args + more, goal)
  {
    hide Scans, MarksBytes, Makes;
    MakesFirst(ms, args, v, s);
    var tail: cstring := MarksBytes(ms[1..]) + s;
    if ms[0].Value? {
      assert (args + more)[0] == args[0] == v[..|args[0]|] && (args + more)[1..] == args[1..] + more;
      ValueScans(ms[0].c, tail, cur, touched, args + more, goal);
    } else {
      MarkScans(ms[0], v[..1], tail, cur, touched, args + more, goal);
    }
  }

  lemma {:induction false} MarksGo(ms: seq<Mark>, args: seq<bytes>, v: bytes, s: cstring, cur: bytes, more: seq<bytes>,
                                   goal: seq<bytes>)
    requires 0 !in MarksBytes(ms) + s && Makes(ms, args, v, s) && Scans(s, cur + v, true, more, goal)
    ensures Scans(MarksBytes(ms) + s, cur, true, args + more, goal)
    decreases |ms|, 1
  {
    hide Scans, MarkBytes;
    if ms == [] {
      assert MarksBytes(ms) + s == s && cur + v == cur && args + more == more;
    } else {
      MarksScan(ms, args, v, s, cur, true, more, goal);
    }
  }

  /** A word, and then s with the remaining values. */
  lemma {:induction false} MarksScan(ms: seq<Mark>, args: seq<bytes>, v: bytes, s: cstring, cur: bytes, touched: bool,
                                     more: seq<bytes>, goal: seq<bytes>)
    requires 0 !in MarksBytes(ms) + s && Makes(ms, args, v, s) && ms != []
    requires Scans(s, cur + v, true, more, goal)
    ensures Scans(MarksBytes(ms) + s, cur, touched, args + more, goal)
    decreases |ms|, 0
  {
    hide Scans, MarkBytes, Makes;
    MakesFirst(ms, args, v, s);
    assert MarksBytes(ms) + s == MarkBytes(ms[0]) + (MarksBytes(ms[1..]) + s);
    var n := Part(ms, args);
    assert cur + v == cur + v[..n] + v[n..];
    MarksGo(ms[1..], After(ms, args), v[n..], s, cur + v[..n], more, goal);
    FirstScans(ms, args, v, s, cur, touched, more, goal);
  }

  lemma EndScans(cur: bytes)
    ensures Scans([], cur, true, [], [cur]) && Scans([], [], false, [], [])
  {
  }

  lemma {:induction false} WordsScan(ws: seq<Spaced>, args: seq<bytes>, vs: seq<bytes>)
    requires MakeAll(ws, args, vs) && 0 !in FormatBytes(ws)
    ensures Scans(FormatBytes(ws), [], false, args, vs)
    decreases |ws|
  {
    hide Scans, Makes, MarksBytes;
    if ws == [] {
      EndScans([]);
    } else {
      var w, tail := ws[0], Spaces(ws[0].spaces) + FormatBytes(ws[1..]);
      var more := args[|w.args|..];
      assert FormatBytes(ws) == MarksBytes(w.marks) + tail;
      assert [] + vs[0] == vs[0] && args == w.args + more && vs == [vs[0]] + vs[1..];
      WordsScan(ws[1..], more, vs[1..]);
      TailScans(w.spaces, ws[1..], vs[0], more, vs[1..]);
      MarksScan(w.marks, w.args, vs[0], tail, [], false, more, vs);
    }
  }

  /** The spaces behind a word end it, and so does the end of the format. */
  lemma TailScans(n: nat, ws: seq<Spaced>, v: bytes, args: seq<bytes>, vs: seq<bytes>)
    requires 0 !in Spaces(n) + FormatBytes(ws) && Scans(FormatBytes(ws), [], false, args, vs)
    requires MakeAll(ws, args, vs) && (n == 0 ==> ws == [])
    ensures Scans(Spaces(n) + FormatBytes(ws), v, true, args, [v] + vs)
  {
    hide Scans, Makes, MarksBytes;
    if n == 0 {
      assert Spaces(n) + FormatBytes(ws) == [] && [v] + vs == [v];
      EndScans(v);
    } else {
      var s: cstring := Spaces(n - 1) + FormatBytes(ws);
      assert Spaces(n) + FormatBytes(ws) == [32] + s;
      SpacesScan(n - 1, FormatBytes(ws), args, vs);
      SpaceScans(s, v, args, vs);
    }
  }

  /** A format makes the arguments that its words mean. */
  lemma FormatMeans(format: cstring, args: seq<bytes>, vs: seq<bytes>)
    requires Means(format, args, vs)
    ensures Supported(format) && Holes(Lex(format)) == |args| && Arguments(format, args) == vs
  {
    hide Scan, MakeAll, FormatBytes, Supported, Holes, Lex;
    var lead: nat, ws :| format == Spaces(lead) + FormatBytes(ws) && MakeAll(ws, args, vs);
    WordsScan(ws, args, vs);
    SpacesScan(lead, FormatBytes(ws), args, vs);
    ScanSplits(Lex(format), args);
  }

  // ----- Every format is of this kind -----

  lemma {:induction false} SpacesOf(format: cstring, args: seq<bytes>) returns (n: nat, rest: cstring)
    requires Supported(format) && Holes(Lex(format)) == |args|
    ensures format == Spaces(n) + rest && (rest != [] ==> rest[0] != 32)
    ensures Supported(rest) && Holes(Lex(rest)) == |args|
    decreases |format|
  {
    if format == [] || format[0] != 32 {
      n, rest := 0, format;
      assert Spaces(0) + format == format;
    } else {
      LexStep(format, [], false, args);
      n, rest := SpacesOf(format[1..], args);
      assert Spaces(n + 1) == [32] + Spaces(n);
      n := n + 1;
    }
  }

  /** The first mark of a word. */
  lemma FirstMark(format: cstring, args: seq<bytes>) returns (m: Mark, v: bytes, args': seq<bytes>, tail: cstring)
    requires Supported(format) && Holes(Lex(format)) == |args| && format != [] && format[0] != 32
    ensures format == MarkBytes(m) + tail && Supported(tail) && Holes(Lex(tail)) == |args'| && |tail| < |format|
    ensures if m.Value? then (m.c == 115 || m.c == 98) && args == [v] + args'
            else args' == args && v == [if m.Percent? then 37 else m.b]
    ensures m.Same? ==> m.b != 0 && m.b != 32 && (m.b == 37 ==> tail == [])
  {
    LexStep(format, [], false, args);
    args' := args;
    if format[0] != 37 || |format| == 1 {
      m, v, tail := Same(format[0]), [format[0]], format[1..];
    } else if format[1] == 37 {
      m, v, tail := Percent, [37], format[2..];
    } else {
      m, v, tail, args' := Value(format[1]), args[0], format[2..], args[1..];
    }
  }

  lemma {:induction false} MarksOf(format: cstring, args: seq<bytes>)
    returns (ms: seq<Mark>, v: bytes, mine: seq<bytes>, others: seq<bytes>, rest: cstring)
    requires Supported(format) && Holes(Lex(format)) == |args|
    ensures format == MarksBytes(ms) + rest && args == mine + others && Makes(ms, mine, v, rest)
    ensures Supported(rest) && Holes(Lex(rest)) == |others| && (rest != [] ==> rest[0] == 32)
    ensures format != [] && format[0] != 32 ==> ms != []
    decreases |format|
  {
    hide Supported, Lex, Holes, MarkBytes;
    ms, v, mine, others, rest := [], [], [], args, format;
    if format != [] && format[0] != 32 {
      var m, first, args', tail := FirstMark(format, args);
      ms, v, mine, others, rest := MarksOf(tail, args');
      var ms', v' := [m] + ms, first + v;
      var mine' := if m.Value? then [first] + mine else mine;
      assert ms'[1..] == ms && v'[|first|..] == v && v'[..|first|] == first;
      assert MarkBytes(m) + (MarksBytes(ms) + rest) == MarksBytes(ms') + rest;
      assert Makes(ms', mine', v', rest) by {
        if m.Value? { assert mine'[1..] == mine; }
      }
      ms, v, mine := ms', v', mine';
    }
  }

  lemma {:induction false} WordsOf(format: cstring, args: seq<bytes>) returns (ws: seq<Spaced>, vs: seq<bytes>)
    requires Supported(format) && Holes(Lex(format)) == |args| && (format != [] ==> format[0] != 32)
    ensures format == FormatBytes(ws) && MakeAll(ws, args, vs)
    decreases |format|
  {
    hide Supported, Lex, Holes, MarksBytes, Makes;
    if format == [] {
      NoHoles();
      ws, vs := [], [];
    } else {
      var ms, v, mine, others, rest := MarksOf(format, args);
      var n, tail := SpacesOf(rest, others);
      NonEmpty(ms, rest, format);
      ws, vs := WordsOf(tail, others);
      MoreWords(ms, mine, v, n, others, tail, ws, vs);
      assert MarksBytes(ms) + (Spaces(n) + tail) == MarksBytes(ms) + Spaces(n) + tail;
      ws, vs := [Spaced(ms, mine, n)] + ws, [v] + vs;
    }
  }

  lemma MoreWords(ms: seq<Mark>, mine: seq<bytes>, v: bytes, n: nat, others: seq<bytes>, tail: bytes,
                  ws: seq<Spaced>, vs: seq<bytes>)
    requires ms != [] && Makes(ms, mine, v, Spaces(n) + tail)
    requires tail == FormatBytes(ws) && MakeAll(ws, others, vs)
    requires Spaces(n) + tail != [] ==> (Spaces(n) + tail)[0] == 32
    requires tail != [] ==> tail[0] != 32
    ensures var ws', vs' := [Spaced(ms, mine, n)] + ws, [v] + vs;
            FormatBytes(ws') == MarksBytes(ms) + Spaces(n) + tail && MakeAll(ws', mine + others, vs')
  {
    hide Makes, MarksBytes;
    var w := Spaced(ms, mine, n);
    if n == 0 {
      assert Spaces(0) + tail == tail;
      FirstWord(ws, others, vs);
    }
    assert ([w] + ws)[1..] == ws && ([v] + vs)[1..] == vs && (mine + others)[|mine|..] == others;
  }

  lemma FirstWord(ws: seq<Spaced>, args: seq<bytes>, vs: seq<bytes>)
    requires MakeAll(ws, args, vs)
    ensures FormatBytes(ws) == [] ==> ws == []
  {
    if ws != [] { NonEmpty(ws[0].marks, [], MarksBytes(ws[0].marks)); }
  }

  lemma NoHoles()
    ensures Holes(Lex([])) == 0
  {
  }

  lemma NonEmpty(ms: seq<Mark>, rest: bytes, format: bytes)
    requires ms != [] && format == MarksBytes(ms) + rest
    ensures |rest| < |format|
  {
  }

  /** A supported format with as many values as it has conversions makes these arguments, and no others. */
  lemma FormatIff(format: cstring, args: seq<bytes>, vs: seq<bytes>)
    requires Supported(format) && |args| == Holes(Lex(format))
    ensures Arguments(format, args) == vs <==> Means(format, args, vs)
  {
    hide Supported, Lex, Holes, FormatBytes, MakeAll;
    var lead, rest := SpacesOf(format, args);
    var ws, words := WordsOf(rest, args);
    assert Means(format, args, words);
    FormatMeans(format, args, words);
    if Means(format, args, vs) { FormatMeans(format, args, vs); }
  }
}
