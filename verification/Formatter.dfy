/** The command formatters of hiredis.c. */
module Formatter {
  import opened Bytes
  import opened Resp
  import Decimal

  // ----- What a command is on the wire -----

  /** A command is an array of bulk strings. */
  function Bulks(argv: seq<bytes>): (r: seq<Item>)
    ensures |r| == |argv|
    ensures forall k :: 0 <= k < |argv| ==> r[k] == Bulk(argv[k], CRLF)
  {
    if argv == [] then [] else [Bulk(argv[0], CRLF)] + Bulks(argv[1..])
  }

  function Wire(argv: seq<bytes>): bytes {
    Header(STAR, |argv|) + EncodeAll(Bulks(argv))
  }

  lemma {:induction false} BulksFlat(argv: seq<bytes>)
    ensures MarkersAll(Bulks(argv)) == 0
  {
    if argv != [] {
      BulksFlat(argv[1..]);
    }
  }

  function Flat(parts: seq<bytes>): bytes {
    if parts == [] then [] else parts[0] + Flat(parts[1..])
  }

  /** The bytes of a command: '*' and the number of arguments, then for each '$', its length, and the argument. */
  lemma WireBytes(argv: seq<bytes>, parts: seq<bytes>)
    requires |parts| == |argv|
    requires forall k :: 0 <= k < |argv| ==>
               parts[k] == [36] + Decimal.Text(|argv[k]|) + [13, 10] + argv[k] + [13, 10]
    ensures Wire(argv) == [42] + Decimal.Text(|argv|) + [13, 10] + Flat(parts)
  {
    BulksFlatten(argv, parts);
  }

  lemma {:induction false} BulksFlatten(argv: seq<bytes>, parts: seq<bytes>)
    requires |parts| == |argv|
    requires forall k :: 0 <= k < |argv| ==>
               parts[k] == [36] + Decimal.Text(|argv[k]|) + [13, 10] + argv[k] + [13, 10]
    ensures EncodeAll(Bulks(argv)) == Flat(parts)
  {
    hide Decimal.Text;
    if argv != [] {
      BulksFlatten(argv[1..], parts[1..]);
      EncodeFirst(argv);
    }
  }

  // ----- Lengths -----

  /** The number of decimal digits, four at a time. */
  method CountDigits(n: uint64) returns (result: nat)
    ensures result == |Decimal.Digits(n)|
  {
    var v := n;
    result := 1;
    while true
      invariant |Decimal.Digits(n)| == result - 1 + |Decimal.Digits(v)|
      decreases v
    {
      FourDigits(v);
      if v < 10 { return result; }
      if v < 100 { return result + 1; }
      if v < 1000 { return result + 2; }
      if v < 10000 { return result + 3; }
      v := v / 10000;
      result := result + 4;
    }
  }

  lemma FourDigits(v: nat)
    ensures |Decimal.Digits(v)| ==
            if v < 10 then 1 else if v < 100 then 2 else if v < 1000 then 3 else if v < 10000 then 4
            else 4 + |Decimal.Digits(v / 10000)|
  {
    var a, b, c := v / 10, v / 100, v / 1000;
    assert a / 10 == b && b / 10 == c && c / 10 == v / 10000;
    assert |Decimal.Digits(c)| == if c < 10 then 1 else 1 + |Decimal.Digits(v / 10000)|;
    assert |Decimal.Digits(b)| == if b < 10 then 1 else 1 + |Decimal.Digits(c)|;
    assert |Decimal.Digits(a)| == if a < 10 then 1 else 1 + |Decimal.Digits(b)|;
  }

  /** '$', the digits of the length, CR LF, the payload, CR LF. */
  method Bulklen(len: uint64) returns (n: nat)
    ensures forall arg: bytes {:trigger Bulk(arg, CRLF)} :: |arg| == len ==> n == |Encode(Bulk(arg, CRLF))|
  {
    var digits := CountDigits(len);
    n := 1 + digits + 2 + len + 2;
  }

  /** The precomputed length of a command. */
  method TotalLength(argv: seq<bytes>) returns (totlen: nat)
    requires Sizes(argv)
    ensures totlen == |Wire(argv)|
  {
    var digits := CountDigits(|argv|);
    totlen := 1 + digits + 2;
    var j := 0;
    assert argv[0..] == argv;
    while j < |argv|
      invariant 0 <= j <= |argv|
      invariant totlen + |EncodeAll(Bulks(argv[j..]))| == |Wire(argv)|
    {
      assert argv[j..][1..] == argv[j + 1..];
      var n := Bulklen(|argv[j]|);
      assert Encode(Bulk(argv[j], CRLF)) <= EncodeAll(Bulks(argv[j..]));
      totlen := totlen + n;
      j := j + 1;
    }
  }

  /** Argument counts and lengths are C ints; the reader bounds array counts by INT_MAX as well. */
  predicate Sizes(argv: seq<bytes>) {
    |argv| <= INT_MAX && forall k :: 0 <= k < |argv| ==> |argv[k]| <= INT_MAX
  }

  // ----- Formatting into a buffer -----

  /** `memcpy(cmd + pos, data, |data|)`. */
  method Put(cmd: array<byte>, pos: nat, data: bytes)
    requires pos + |data| <= cmd.Length
    modifies cmd
    ensures cmd[..pos + |data|] == old(cmd[..pos]) + data
  {
    forall k | 0 <= k < |data| {
      cmd[pos + k] := data[k];
    }
    assert cmd[..pos] == old(cmd[..pos]);
  }

  /** `sprintf(cmd + pos, "<marker>%d\r\n", n)`, which also writes a NUL. */
  method PutHeader(cmd: array<byte>, pos: nat, marker: byte, n: nat) returns (written: nat)
    requires pos + |Header(marker, n)| < cmd.Length
    modifies cmd
    ensures written == |Header(marker, n)| && cmd[..pos + written] == old(cmd[..pos]) + Header(marker, n)
  {
    var data := [marker] + Decimal.Text(n) + CRLF;
    Put(cmd, pos, data);
    written := |data|;
    cmd[pos + written] := NUL;
  }

  method FormatCommandArgv(argv: seq<bytes>) returns (cmd: array<byte>, totlen: nat)
    requires Sizes(argv)
    ensures fresh(cmd) && cmd.Length == totlen + 1 && cmd[..totlen] == Wire(argv) && cmd[totlen] == NUL
  {
    totlen := TotalLength(argv);
    cmd := WriteCommand(argv, totlen);
  }

  /** Build the command at protocol level in a buffer of the precomputed length. */
  method WriteCommand(argv: seq<bytes>, totlen: nat) returns (cmd: array<byte>)
    requires totlen == |Wire(argv)|
    ensures fresh(cmd) && cmd.Length == totlen + 1 && cmd[..totlen] == Wire(argv) && cmd[totlen] == NUL
  {
    cmd := new byte[totlen + 1];
    assert cmd[..0] == [];
    assert |Wire(argv)| == |Header(STAR, |argv|)| + |EncodeAll(Bulks(argv))|;
    var pos: nat := PutHeader(cmd, 0, STAR, |argv|);
    var j := 0;
    assert argv[0..] == argv;
    while j < |argv|
      invariant 0 <= j <= |argv| && pos < cmd.Length
      invariant cmd[..pos] + EncodeAll(Bulks(argv[j..])) == Wire(argv)
    {
      ArgumentAhead(argv, j, cmd[..pos]);
      pos := PutArgument(cmd, pos, argv[j]);
      j := j + 1;
    }
    assert argv[j..] == [] && cmd[..pos] == Wire(argv);
    assert pos == totlen;
    ghost var whole := cmd[..pos];
    cmd[pos] := NUL;
    assert cmd[..pos] == whole;
  }

  method PutArgument(cmd: array<byte>, pos: nat, arg: bytes) returns (end: nat)
    requires pos + |Encode(Bulk(arg, CRLF))| < cmd.Length
    modifies cmd
    ensures end < cmd.Length && cmd[..end] == old(cmd[..pos]) + Encode(Bulk(arg, CRLF))
  {
    hide Header;
    ghost var before := cmd[..pos];
    assert Encode(Bulk(arg, CRLF)) == Header(DOLLAR, |arg|) + arg + CRLF;
    var n := PutHeader(cmd, pos, DOLLAR, |arg|);
    end := pos + n;
    Put(cmd, end, arg);
    end := end + |arg|;
    cmd[end], cmd[end + 1] := CR, LF;
    end := end + 2;
    assert cmd[..end] == before + Header(DOLLAR, |arg|) + arg + [CR, LF];
    assert before + Header(DOLLAR, |arg|) + arg + CRLF == before + (Header(DOLLAR, |arg|) + arg + CRLF);
  }

  lemma EncodeFirst(argv: seq<bytes>)
    requires argv != []
    ensures EncodeAll(Bulks(argv)) == Header(DOLLAR, |argv[0]|) + argv[0] + CRLF + EncodeAll(Bulks(argv[1..]))
  {
    assert Bulks(argv)[1..] == Bulks(argv[1..]);
  }

  lemma ArgumentAhead(argv: seq<bytes>, j: nat, before: bytes)
    requires j < |argv| && before + EncodeAll(Bulks(argv[j..])) == Wire(argv)
    ensures
      var arg := Encode(Bulk(argv[j], CRLF));
      && arg == Header(DOLLAR, |argv[j]|) + argv[j] + CRLF
      && before + arg + EncodeAll(Bulks(argv[j + 1..])) == Wire(argv)
      && |before| + |arg| <= |Wire(argv)|
  {
    assert argv[j..][1..] == argv[j + 1..];
  }

  /** Built by appending to an sds string with room for totlen bytes. */
  method FormatSdsCommandArgv(argv: seq<bytes>) returns (cmd: bytes, totlen: nat)
    requires Sizes(argv)
    ensures cmd == Wire(argv) && totlen == |cmd|
  {
    totlen := TotalLength(argv);
    cmd := [] + ([STAR] + Decimal.Text(|argv|) + CRLF);
    var j := 0;
    assert argv[0..] == argv;
    while j < |argv|
      invariant 0 <= j <= |argv|
      invariant cmd + EncodeAll(Bulks(argv[j..])) == Wire(argv)
    {
      ArgumentAhead(argv, j, cmd);
      ghost var before := cmd;
      cmd := cmd + ([DOLLAR] + Decimal.Text(|argv[j]|) + CRLF);
      cmd := cmd + argv[j];
      cmd := cmd + CRLF;
      assert cmd == before + Encode(Bulk(argv[j], CRLF));
      j := j + 1;
    }
    assert |cmd| == totlen;
  }

  // ----- Formatting from a format string -----

  /** A format string in pieces: a space, a literal byte ("%%" is one), or %s or %b. */
  datatype Piece = Gap | Byte(b: byte) | Hole

  function Lex(format: cstring): seq<Piece> {
    if format == [] then []
    else if format[0] != PERCENT || |format| == 1 then
      [if format[0] == SPACE then Gap else Byte(format[0])] + Lex(format[1..])
    else
      [if format[1] == PERCENT then Byte(PERCENT) else Hole] + Lex(format[2..])
  }

  /** Only the conversions %s, %b and %% (a '%' at the very end is literal). */
  predicate Supported(format: cstring) {
    if format == [] then true
    else if format[0] != PERCENT || |format| == 1 then Supported(format[1..])
    else format[1] in {115, 98, PERCENT} && Supported(format[2..])
  }

  function Holes(pieces: seq<Piece>): nat {
    if pieces == [] then 0 else (if pieces[0].Hole? then 1 else 0) + Holes(pieces[1..])
  }

  /** The pieces before the first space. */
  function Word(pieces: seq<Piece>): (w: seq<Piece>)
    ensures w <= pieces && Holes(w) + Holes(pieces[|w|..]) == Holes(pieces)
  {
    if pieces == [] || pieces[0].Gap? then []
    else
      var w := Word(pieces[1..]);
      assert pieces[|w| + 1..] == pieces[1..][|w|..];
      assert ([pieces[0]] + w)[1..] == w;
      [pieces[0]] + w
  }

  /** The words of a format: maximal runs without a space. What the arguments hold plays no part. */
  function Words(pieces: seq<Piece>): (ws: seq<seq<Piece>>)
    ensures HolesAll(ws) == Holes(pieces)
    decreases |pieces|
  {
    if pieces == [] then []
    else if pieces[0].Gap? then Words(pieces[1..])
    else [Word(pieces)] + Words(pieces[|Word(pieces)|..])
  }

  /** A word with its holes filled from args, in order. */
  function Fill(word: seq<Piece>, args: seq<bytes>): bytes
    requires Holes(word) <= |args|
  {
    if word == [] then []
    else if word[0].Hole? then args[0] + Fill(word[1..], args[1..])
    else (if word[0].Byte? then [word[0].b] else []) + Fill(word[1..], args)
  }

  function HolesAll(words: seq<seq<Piece>>): nat {
    if words == [] then 0 else Holes(words[0]) + HolesAll(words[1..])
  }

  /** One command argument for each word of the format. */
  function FillAll(words: seq<seq<Piece>>, args: seq<bytes>): (r: seq<bytes>)
    requires HolesAll(words) <= |args|
    ensures |r| == |words|
  {
    if words == [] then [] else [Fill(words[0], args)] + FillAll(words[1..], args[Holes(words[0])..])
  }

  /** The arguments a format makes of its interpolated values. */
  function Arguments(format: cstring, args: seq<bytes>): (r: seq<bytes>)
    requires |args| == Holes(Lex(format))
    ensures |r| == |Words(Lex(format))|
  {
    FillAll(Words(Lex(format)), args)
  }

  /** The scanning loop from the middle of a word: cur has been collected, touched says whether anything has. */
  function Scan(cur: bytes, touched: bool, pieces: seq<Piece>, args: seq<bytes>): seq<bytes>
    requires Holes(pieces) <= |args|
    decreases |pieces|
  {
    if pieces == [] then (if touched then [cur] else [])
    else match pieces[0]
      case Gap => if touched then [cur] + Scan([], false, pieces[1..], args) else Scan(cur, false, pieces[1..], args)
      case Byte(b) => Scan(cur + [b], true, pieces[1..], args)
      case Hole => Scan(cur + args[0], true, pieces[1..], args[1..])
  }

  lemma {:induction false} ScanInWord(cur: bytes, pieces: seq<Piece>, args: seq<bytes>)
    requires Holes(pieces) <= |args|
    ensures
      var w := Word(pieces);
      Scan(cur, true, pieces, args) == [cur + Fill(w, args)] + Scan([], false, pieces[|w|..], args[Holes(w)..])
    decreases |pieces|
  {
    var w := Word(pieces);
    if pieces == [] || pieces[0].Gap? {
      assert cur + [] == cur && pieces[0..] == pieces && args[0..] == args;
    } else {
      var w' := Word(pieces[1..]);
      assert w[1..] == w' && pieces[|w|..] == pieces[1..][|w'|..];
      if pieces[0].Hole? {
        ScanInWord(cur + args[0], pieces[1..], args[1..]);
        assert args[1..][Holes(w')..] == args[Holes(w)..];
        assert cur + args[0] + Fill(w', args[1..]) == cur + Fill(w, args);
      } else {
        ScanInWord(cur + [pieces[0].b], pieces[1..], args);
        assert cur + [pieces[0].b] + Fill(w', args) == cur + Fill(w, args);
      }
    }
  }

  /** Scanning splits the format at its spaces and only there: no interpolated byte ends an argument. */
  lemma {:induction false} ScanSplits(pieces: seq<Piece>, args: seq<bytes>)
    requires Holes(pieces) <= |args|
    ensures Scan([], false, pieces, args) == FillAll(Words(pieces), args)
    decreases |pieces|
  {
    if pieces == [] {
    } else if pieces[0].Gap? {
      ScanSplits(pieces[1..], args);
    } else {
      var w := Word(pieces);
      ScanInWord([], pieces, args);
      assert [] + Fill(w, args) == Fill(w, args);
      assert Scan([], false, pieces, args) == Scan([], true, pieces, args);
      ScanSplits(pieces[|w|..], args[Holes(w)..]);
    }
  }

  lemma {:induction false} EncodeAllSnoc(argv: seq<bytes>, arg: bytes)
    ensures EncodeAll(Bulks(argv + [arg])) == EncodeAll(Bulks(argv)) + Encode(Bulk(arg, CRLF))
  {
    if argv == [] {
      assert argv + [arg] == [arg];
      assert Bulks([arg])[1..] == [];
    } else {
      EncodeAllSnoc(argv[1..], arg);
      assert (argv + [arg])[1..] == argv[1..] + [arg];
    }
  }

  /** `redisvFormatCommand`, with the variadic arguments of %s and %b in order. */
  method FormatCommand(format: cstring, args: seq<bytes>) returns (cmd: array<byte>, totlen: nat)
    requires Supported(format) && |args| == Holes(Lex(format))
    requires Sizes(Arguments(format, args))
    ensures fresh(cmd) && cmd.Length == totlen + 1 && cmd[..totlen] == Wire(Arguments(format, args))
    ensures cmd[totlen] == NUL
  {
    var argv: seq<bytes>;
    argv, totlen := ScanFormat(format, args);
    var digits := CountDigits(|argv|);
    totlen := totlen + 1 + digits + 2;
    cmd := WriteCommand(argv, totlen);
  }

  /** In the loop over the format: argv is complete, cur is being collected, and the rest still makes up goal. */
  ghost predicate Scanned(format: cstring, c: nat, args: seq<bytes>, va: nat, argv: seq<bytes>, cur: bytes,
                          touched: bool, goal: seq<bytes>) {
    && c <= |format| && va <= |args|
    && Supported(format[c..]) && Holes(Lex(format[c..])) == |args[va..]|
    && argv + Scan(cur, touched, Lex(format[c..]), args[va..]) == goal
  }

  /** The loop over the format: collects the arguments and adds up their lengths. */
  method ScanFormat(format: cstring, args: seq<bytes>) returns (argv: seq<bytes>, totlen: nat)
    requires Supported(format) && |args| == Holes(Lex(format))
    requires Sizes(Arguments(format, args))
    ensures argv == Arguments(format, args) && totlen == |EncodeAll(Bulks(argv))|
  {
    hide Sizes, Arguments, EncodeAll, Bulks, Scan, Holes, Supported, Scanned, Lex;
    argv, totlen := [], 0;
    var c, va, curarg, touched := 0, 0, [], false;
    ghost var goal := Arguments(format, args);
    ScanBegins(format, args);
    while c < |format|
      invariant 0 <= c <= |format| && 0 <= va
      invariant Scanned(format, c, args, va, argv, curarg, touched, goal)
      invariant totlen == |EncodeAll(Bulks(argv))|
      decreases |format| - c
    {
      ScanStep(format, c, args, va, argv, curarg, touched, goal);
      if format[c] != PERCENT || c + 1 == |format| {
        if format[c] == SPACE {
          if touched {
            argv, totlen := EndArgument(argv, totlen, curarg, goal);
            curarg, touched := [], false;
          }
        } else {
          curarg, touched := curarg + [format[c]], true;
        }
      } else {
        if format[c + 1] == PERCENT {
          curarg := curarg + [PERCENT];
        } else {
          var arg := args[va];
          va := va + 1;
          if |arg| > 0 {
            curarg := curarg + arg;
          } else {
            assert curarg + arg == curarg;
          }
        }
        touched := true;
        c := c + 1;
      }
      c := c + 1;
    }
    ScanEnds(format, c, args, va, argv, curarg, touched, goal);
    if touched {
      argv, totlen := EndArgument(argv, totlen, curarg, goal);
    }
  }

  method EndArgument(argv: seq<bytes>, totlen: nat, curarg: bytes, ghost goal: seq<bytes>)
    returns (argv': seq<bytes>, totlen': nat)
    requires Sizes(goal) && argv + [curarg] <= goal
    requires totlen == |EncodeAll(Bulks(argv))|
    ensures argv' == argv + [curarg] && totlen' == |EncodeAll(Bulks(argv'))|
  {
    assert goal[|argv|] == curarg;
    EncodeAllSnoc(argv, curarg);
    argv' := argv + [curarg];
    var n := Bulklen(|curarg|);
    totlen' := totlen + n;
  }

  lemma ScanBegins(format: cstring, args: seq<bytes>)
    requires Supported(format) && |args| == Holes(Lex(format))
    ensures Scanned(format, 0, args, 0, [], [], false, Arguments(format, args))
    ensures EncodeAll(Bulks([])) == []
  {
    ScanSplits(Lex(format), args);
    assert format[0..] == format && args[0..] == args;
  }

  lemma ScanStep(format: cstring, c: nat, args: seq<bytes>, va: nat, argv: seq<bytes>, cur: bytes, touched: bool,
                 goal: seq<bytes>)
    requires c < |format| && Scanned(format, c, args, va, argv, cur, touched, goal)
    ensures
      if format[c] != PERCENT || c + 1 == |format| then
        if format[c] != SPACE then Scanned(format, c + 1, args, va, argv, cur + [format[c]], true, goal)
        else if touched then Scanned(format, c + 1, args, va, argv + [cur], [], false, goal) && argv + [cur] <= goal
        else Scanned(format, c + 1, args, va, argv, cur, false, goal)
      else if format[c + 1] == PERCENT then
        Scanned(format, c + 2, args, va, argv, cur + [PERCENT], true, goal)
      else
        va < |args| && Scanned(format, c + 2, args, va + 1, argv, cur + args[va], true, goal)
  {
    LexStep(format[c..], cur, touched, args[va..]);
    assert format[c..][1..] == format[c + 1..];
    if c + 2 <= |format| {
      assert format[c..][2..] == format[c + 2..];
    }
    if va < |args| {
      assert args[va..][1..] == args[va + 1..];
    }
  }

  lemma ScanEnds(format: cstring, c: nat, args: seq<bytes>, va: nat, argv: seq<bytes>, cur: bytes, touched: bool,
                 goal: seq<bytes>)
    requires c >= |format| && Scanned(format, c, args, va, argv, cur, touched, goal)
    ensures goal == if touched then argv + [cur] else argv
  {
  }

  /** One step of the loop, seen from the rest of the format. */
  lemma LexStep(format: cstring, cur: bytes, touched: bool, args: seq<bytes>)
    requires format != [] && Supported(format) && Holes(Lex(format)) == |args|
    ensures
      var s := Scan(cur, touched, Lex(format), args);
      if format[0] != PERCENT || |format| == 1 then
        && Supported(format[1..]) && Holes(Lex(format[1..])) == |args|
        && s == (if format[0] != SPACE then Scan(cur + [format[0]], true, Lex(format[1..]), args)
                 else if touched then [cur] + Scan([], false, Lex(format[1..]), args)
                 else Scan(cur, false, Lex(format[1..]), args))
      else if format[1] == PERCENT then
        && Supported(format[2..]) && Holes(Lex(format[2..])) == |args|
        && s == Scan(cur + [PERCENT], true, Lex(format[2..]), args)
      else
        && Supported(format[2..]) && args != [] && Holes(Lex(format[2..])) == |args[1..]|
        && s == Scan(cur + args[0], true, Lex(format[2..]), args[1..])
  {
    var n := if format[0] != PERCENT || |format| == 1 then 1 else 2;
    assert Lex(format)[1..] == Lex(format[n..]);
  }
}
