/** The output buffer of hiredis.c, and the way of a command from the formatter through the socket to a reader. */
module Pipeline {
  import opened Bytes
  import opened Resp
  import opened Objects
  import opened Formatter
  import opened StreamReader
  import opened Streams
  import Sds

  const REDIS_ERR_IO := 1

  /** The commands of a list as items, and their bytes. */
  function Items(cmds: seq<seq<bytes>>): (r: seq<Item>)
    ensures |r| == |cmds| && forall k :: 0 <= k < |cmds| ==> r[k] == Multi(Bulks(cmds[k]))
  {
    if cmds == [] then [] else [Multi(Bulks(cmds[0]))] + Items(cmds[1..])
  }

  function WireAll(cmds: seq<seq<bytes>>): bytes {
    EncodeAll(Items(cmds))
  }

  lemma {:induction false} WireAllSnoc(cmds: seq<seq<bytes>>, argv: seq<bytes>)
    ensures WireAll(cmds + [argv]) == WireAll(cmds) + Wire(argv)
  {
    if cmds == [] {
      assert cmds + [argv] == [argv];
      assert Items([argv])[1..] == [];
      assert EncodeAll(Items([argv])) == Encode(Multi(Bulks(argv)));
      assert [] + Wire(argv) == Wire(argv);
    } else {
      WireAllSnoc(cmds[1..], argv);
      assert (cmds + [argv])[1..] == cmds[1..] + [argv];
      assert Items(cmds)[1..] == Items(cmds[1..]) && Items(cmds + [argv])[1..] == Items((cmds + [argv])[1..]);
      assert Encode(Items(cmds)[0]) + (WireAll(cmds[1..]) + Wire(argv)) == WireAll(cmds) + Wire(argv);
    }
  }

  /** What a server sees of a command: an array of strings. */
  function Strings(argv: seq<bytes>): (r: seq<Reply>)
    ensures |r| == |argv| && forall k :: 0 <= k < |argv| ==> r[k] == String(argv[k])
  {
    if argv == [] then [] else [String(argv[0])] + Strings(argv[1..])
  }

  lemma {:induction false} CommandMeaning(argv: seq<bytes>)
    ensures Meaning(Multi(Bulks(argv))) == Array(Strings(argv))
  {
    assert MeaningAll(Bulks(argv)) == Strings(argv);
  }

  lemma CommandWellFormed(argv: seq<bytes>)
    requires Sizes(argv)
    ensures WellFormed(Multi(Bulks(argv))) && Markers(Multi(Bulks(argv))) == 1
  {
    BulksFlat(argv);
  }

  /** A parser of the wire sees exactly the commands that were written, argument by argument. */
  lemma WireParses(cmds: seq<seq<bytes>>)
    requires forall k :: 0 <= k < |cmds| ==> Sizes(cmds[k])
    ensures Outcomes(WireAll(cmds)) == Outcome(Items(cmds), Waiting([]))
  {
    forall k | 0 <= k < |cmds|
      ensures WellFormed(Items(cmds)[k]) && Markers(Items(cmds)[k]) <= DEEPEST
    {
      CommandWellFormed(cmds[k]);
    }
    NothingYet();
    OutcomesOfEncoded(Items(cmds), []);
    assert WireAll(cmds) + [] == WireAll(cmds);
    assert Items(cmds) + Outcomes([]).items == Items(cmds);
  }

  class Context {
    var obuf: bytes
    var err: nat
    ghost var sent: seq<seq<bytes>>  // the commands appended so far
    ghost var wire: bytes            // the bytes the socket has accepted

    ghost predicate Valid()
      reads this
    {
      wire + obuf == WireAll(sent)
    }

    constructor ()
      ensures Valid() && sent == [] && wire == [] && obuf == [] && err == 0
    {
      obuf, err := [], 0;
      sent, wire := [], [];
    }

    /** `redisAppendCommandArgv`. */
    method AppendCommandArgv(argv: seq<bytes>)
      requires Valid() && Sizes(argv)
      modifies `obuf, `sent
      ensures Valid() && sent == old(sent) + [argv]
    {
      var cmd, len := FormatSdsCommandArgv(argv);
      AppendCommand(cmd, argv);
    }

    /** `__redisAppendCommand`, for the text of a command. */
    method AppendCommand(cmd: bytes, ghost argv: seq<bytes>)
      requires Valid() && cmd == Wire(argv)
      modifies `obuf, `sent
      ensures Valid() && sent == old(sent) + [argv] && obuf == old(obuf) + cmd
    {
      WireAllSnoc(sent, argv);
      assert wire + (obuf + cmd) == wire + obuf + cmd;
      obuf := obuf + cmd;
      sent := sent + [argv];
    }

    /**
     `redisBufferWrite`: the socket takes nwritten bytes of the buffer, or fails when nwritten is negative.
     Whatever it takes, in whatever pieces, the wire and the buffer together stay the commands sent.
     */
    method BufferWrite(nwritten: int) returns (ok: bool, done: bool, piece: bytes)
      requires Valid() && nwritten <= |obuf|
      modifies `obuf, `err, `wire
      ensures Valid() && wire == old(wire) + piece
      ensures ok ==>
                (done <==> obuf == []) && piece + obuf == old(obuf) && |piece| == if nwritten > 0 then nwritten else 0
      ensures !ok ==> obuf == old(obuf) && wire == old(wire) && piece == []
      ensures !ok ==> err == if old(err) != 0 then old(err) else REDIS_ERR_IO
      ensures ok == (old(err) == 0 && (old(obuf) == [] || nwritten >= 0)) && (ok ==> err == 0)
    {
      piece, done := [], false;
      assert wire + [] == wire;
      if err != 0 {
        return false, false, [];
      }
      if |obuf| > 0 {
        if nwritten < 0 {
          err := REDIS_ERR_IO;
          return false, false, [];
        } else if nwritten > 0 {
          piece := obuf[..nwritten];
          wire := wire + piece;
          assert piece + obuf[nwritten..] == obuf;
          if nwritten == |obuf| {
            obuf := [];
          } else {
            Sds.RangeDrops(obuf, nwritten);
            obuf := Sds.SdsRange(obuf, nwritten, -1);
          }
        }
      }
      return true, |obuf| == 0, piece;
    }
  }

  /**
   End to end: append the commands, let the socket take the buffer in pieces of any sizes, and give each
   piece to a reader as it arrives. The reader ends up with one reply per command, in order, that is the
   array of the command's arguments, and with nothing left over.
   */
  method EndToEnd(cmds: seq<seq<bytes>>, pieces: seq<nat>, maxbuf: nat) returns (r: Reader, out: seq<nat>)
    requires forall k :: 0 <= k < |cmds| ==> Sizes(cmds[k])
    ensures r.Valid() && r.err == 0 && r.Stream() == [] && |out| == |cmds|
    ensures forall k :: 0 <= k < |cmds| ==> Holds(r.fn.cells, out[k], Array(Strings(cmds[k])))
  {
    hide Shows, WireAll, Wire;
    var c := new Context();
    for k := 0 to |cmds|
      invariant c.Valid() && fresh(c) && c.sent == cmds[..k] && c.wire == [] && c.err == 0
    {
      c.AppendCommandArgv(cmds[k]);
    }
    assert cmds[..|cmds|] == cmds;
    r, out := FeedAll([], maxbuf);
    var k := 0;
    while c.obuf != []
      invariant c.Valid() && fresh(c) && c.sent == cmds && c.err == 0 && 0 <= k
      invariant fresh(r) && fresh(r.rstack) && fresh(r.fn)
      invariant Shows(r, out, c.wire)
      decreases |pieces| - k, |c.obuf|
    {
      // once the given sizes are used up, the socket takes one byte at a time
      var n := if k < |pieces| && pieces[k] <= |c.obuf| then pieces[k] else 1;
      var ok, done, piece := c.BufferWrite(n);
      out := FeedAndDrain(r, c.wire[..|c.wire| - |piece|], out, piece);
      assert c.wire[..|c.wire| - |piece|] + piece == c.wire;
      if k < |pieces| { k := k + 1; }
    }
    assert c.wire == WireAll(cmds) by { assert c.wire + [] == c.wire; }
    Arrived(r, out, cmds);
  }

  lemma Arrived(r: Reader, out: seq<nat>, cmds: seq<seq<bytes>>)
    requires forall k :: 0 <= k < |cmds| ==> Sizes(cmds[k])
    requires Shows(r, out, WireAll(cmds))
    ensures r.Valid() && r.err == 0 && r.Stream() == [] && |out| == |cmds|
    ensures forall k :: 0 <= k < |cmds| ==> Holds(r.fn.cells, out[k], Array(Strings(cmds[k])))
  {
    hide Reader.Valid, WireAll, Holds;
    WireParses(cmds);
    forall k | 0 <= k < |cmds|
      ensures Holds(r.fn.cells, out[k], Array(Strings(cmds[k])))
    {
      CommandMeaning(cmds[k]);
      assert Meaning(Items(cmds)[k]) == Array(Strings(cmds[k]));
    }
  }
}
