/** The resumable reply reader of read.c. */
module StreamReader {
  import opened Bytes
  import opened Resp
  import opened Resumption
  import opened Objects
  import opened Building
  import Decimal
  import Sds

  /** `redisReadTask`; kind None stands for type -1, parent for a pointer to another task of the stack. */
  datatype Task = Task(kind: Option<Kind>, elements: int, idx: int, obj: Option<nat>, parent: Option<nat>)

  const REDIS_ERR_PROTOCOL := 4
  const COMPACT_AT := 1024

  /** The task stack rs holds exactly the open arrays ctx and, above them, the task being read. */
  predicate StackAt(rs: seq<Task>, ctx: seq<Frame>) {
    && |rs| == DEEPEST + 1
    && Open(ctx)
    && (forall k :: 0 <= k < |ctx| ==>
          && rs[k].kind == Some(MultiBulk) && rs[k].elements == ctx[k].n && rs[k].obj == Some(ctx[k].obj)
          && rs[k + 1].idx == |ctx[k].kids| && rs[k + 1].parent == Some(k))
    && rs[0].idx == -1 && rs[0].parent == None
  }

  // ----- Lines -----

  /** No CR LF begins in the first pos bytes of t. */
  predicate NoneBefore(t: bytes, pos: nat) {
    forall j :: 0 <= j < pos && j + 1 < |t| ==> t[j] != CR || t[j + 1] != LF
  }

  lemma {:induction false} CutAtFirst(t: bytes, pos: nat)
    requires pos <= |t| && NoneBefore(t, pos)
    ensures pos + 1 < |t| && t[pos] == CR && t[pos + 1] == LF ==> CutLine(t).Cut? && |CutLine(t).line| == pos
    ensures pos + 1 >= |t| ==> CutLine(t).NoLine?
  {
    if pos > 0 && |t| >= 2 {
      assert t[0] != CR || t[1] != LF;
      assert forall j {:trigger t[1..][j]} :: 0 <= j < |t| - 1 ==> t[1..][j] == t[j + 1];
      CutAtFirst(t[1..], pos - 1);
    }
  }

  /** Where the first CR LF of s[from..] stands, counted from `from`. */
  method SeekNewline(s: bytes, from: nat, len: nat) returns (k: Option<nat>)
    requires from + len == |s|
    ensures match CutLine(s[from..]) { case NoLine => k == None case Cut(line, _) => k == Some(|line|) }
  {
    ghost var t := s[from..];
    var pos := 0;
    var limit := len - 1;
    while pos < limit
      invariant 0 <= pos && (pos <= limit || pos == 0)
      invariant NoneBefore(t, pos)
      decreases limit - pos
    {
      ghost var start := pos;
      while pos < limit && s[from + pos] != CR
        invariant start <= pos <= limit
        invariant NoneBefore(t, pos)
      {
        assert t[pos] != CR;
        pos := pos + 1;
      }
      if pos == limit {
        CutAtFirst(t, pos);
        return None;
      } else if s[from + pos + 1] == LF {
        CutAtFirst(t, pos);
        return Some(pos);
      } else {
        assert t[pos + 1] != LF;
        pos := pos + 1;
      }
    }
    CutAtFirst(t, pos);
    return None;
  }

  // ----- The task stack -----

  lemma LeafMeaning(i: Item)
    ensures i.Line? ==> Meaning(i) == if i.status then Status(i.text) else Error(i.text)
    ensures i.Number? ==> Meaning(i) == Integer(i.value)
    ensures i.Bulk? ==> Meaning(i) == String(i.payload)
    ensures i.NilBulk? || i.NilArray? ==> Meaning(i) == Nil
  {
  }

  lemma LineTop(kind: Kind, level: nat, s: bytes)
    requires level <= DEEPEST && kind != BulkString && kind != MultiBulk
    ensures ParseTop(level, Some(kind), s) ==
            match CutLine(s) { case NoLine => More case Cut(line, rest) => ParseLine(kind, line, rest) }
    ensures CutLine(s).Cut? ==> IsLine(CutLine(s).line)
  {
    if CutLine(s).Cut? {
      CutLineIsLine(s);
    }
  }

  lemma BulkTop(level: nat, s: bytes)
    requires level <= DEEPEST
    ensures ParseTop(level, Some(BulkString), s) ==
            match CutLine(s) { case NoLine => More case Cut(line, rest) => ParseBulk(line, rest) }
  {
  }

  lemma MultiTop(level: nat, s: bytes)
    requires level <= DEEPEST
    ensures level == DEEPEST ==> ParseTop(level, Some(MultiBulk), s) == Fail(TooDeep)
    ensures level < DEEPEST && CutLine(s).NoLine? ==> ParseTop(level, Some(MultiBulk), s) == More
    ensures level < DEEPEST && CutLine(s).Cut? && ParseCount(CutLine(s).line).Bad? ==>
              ParseTop(level, Some(MultiBulk), s) == Fail(ParseCount(CutLine(s).line).fault)
    ensures CutLine(s).Cut? ==> IsLine(CutLine(s).line)
  {
    if CutLine(s).Cut? {
      CutLineIsLine(s);
    }
  }

  lemma CountOf(line: bytes)
    ensures ParseCount(line) ==
            match Decimal.Parse(line)
            case None => Bad(BadMultiBulkLength)
            case Some(n) => if n < -1 || n > INT_MAX then Bad(MultiBulkOutOfRange) else Count(n)
  {
  }

  lemma TypeTop(level: nat, s: bytes)
    requires level <= DEEPEST
    ensures s == [] ==> ParseTop(level, None, s) == More
    ensures s != [] && KindOf(s[0]).None? ==> ParseTop(level, None, s) == Fail(TypeByte(s[0]))
  {
  }

  lemma NothingYet()
    ensures ParseItem(0, []) == More
  {
  }

  lemma WholeVerdict(i: Item, taken: bytes, rest: bytes)
    requires Whole(i, taken)
    ensures ParseItem(0, taken + rest) == Done(i, rest)
  {
  }

  /** If the parser needs more after s + t, it needed more after s. */
  lemma UndecidedPrefix(s: bytes, t: bytes)
    requires ParseItem(0, s + t) == More
    ensures ParseItem(0, s) == More
  {
    if ParseItem(0, s) != More {
      ParseExtend(0, s, t);
    }
  }

  /** The line that ends at the first CR LF, found at k. */
  lemma CutAt(s: bytes, k: nat)
    requires CutLine(s).Cut? && |CutLine(s).line| == k
    ensures k + 2 <= |s| && CutLine(s) == Cut(s[..k], s[k + 2..]) && s == s[..k] + CRLF + s[k + 2..] && IsLine(s[..k])
  {
    CutLineIsLine(s);
  }

  lemma StackTask(rs: seq<Task>, ctx: seq<Frame>)
    requires StackAt(rs, ctx)
    ensures rs[|ctx|].idx == IndexOf(ctx)
    ensures if ctx == [] then rs[0].parent == None
            else rs[|ctx|].parent == Some(|ctx| - 1) && rs[|ctx| - 1].obj == ParentOf(ctx)
  {
    if ctx != [] {
      assert rs[|ctx| - 1 + 1].idx == |ctx[|ctx| - 1].kids|;
    }
  }

  lemma StackTop(rs: seq<Task>, ctx: seq<Frame>)
    requires StackAt(rs, ctx) && ctx != []
    ensures rs[|ctx| - 1].kind == Some(MultiBulk)
    ensures rs[|ctx| - 1].elements == Last(ctx).n && rs[|ctx|].idx == |Last(ctx).kids| < Last(ctx).n
  {
  }

  lemma StackTyped(rs: seq<Task>, ctx: seq<Frame>, kind: Option<Kind>)
    requires StackAt(rs, ctx)
    ensures StackAt(rs[|ctx| := rs[|ctx|].(kind := kind)], ctx)
  {
  }

  /** The stack after an array of n elements has been opened at index k. */
  function Pushed(rs: seq<Task>, k: nat, n: nat, obj: nat): seq<Task>
    requires k + 1 < |rs|
  {
    rs[k := rs[k].(elements := n, obj := Some(obj))][k + 1 := Task(None, -1, 0, None, Some(k))]
  }

  lemma StackPushed(rs: seq<Task>, ctx: seq<Frame>, n: nat, obj: nat)
    requires StackAt(rs, ctx) && |ctx| < DEEPEST && n > 0 && rs[|ctx|].kind == Some(MultiBulk)
    ensures StackAt(Pushed(rs, |ctx|, n, obj), ctx + [Frame(n, [], obj)])
  {
  }

  /** `cur` reset for the next element of the same array. */
  function NextElement(cur: Task): Task {
    cur.(kind := None, elements := -1, idx := cur.idx + 1)
  }

  lemma ArrayPopped(rs: seq<Task>, c: Cells, base: nat, ctx: seq<Frame>, i: Item)
    requires StackAt(rs, ctx) && Placed(c, base, ctx, i) && ctx != [] && |Last(ctx).kids| + 1 == Last(ctx).n
    ensures
      var j := Multi(Last(ctx).kids + [i]);
      StackAt(rs, Init(ctx)) && Placed(c, base, Init(ctx), j) && Advance(ctx, i) == Advance(Init(ctx), j)
  {
    hide Placed;
    ArrayCompleted(c, base, ctx, i);
  }

  lemma ElementMoved(rs: seq<Task>, c: Cells, base: nat, ctx: seq<Frame>, i: Item)
    requires StackAt(rs, ctx) && Placed(c, base, ctx, i) && ctx != [] && |Last(ctx).kids| + 1 < Last(ctx).n
    ensures
      var r := Advance(ctx, i);
      && r.Continue? && |r.ctx| == |ctx| && Built(c, base, r.ctx)
      && StackAt(rs[|ctx| := NextElement(rs[|ctx|])], r.ctx)
  {
    hide Placed, Built;
    ElementAdded(c, base, ctx, i);
  }

  lemma WholeReply(c: Cells, base: nat, i: Item)
    requires Placed(c, base, [], i)
    ensures Holds(c, base, Meaning(i)) && |c| == base + Size(Meaning(i))
    ensures Advance([], i) == Finished(i)
  {
  }

  class Reader {
    var err: nat
    var fault: Option<Fault>
    var buf: bytes
    var pos: nat
    var len: nat
    const maxbuf: nat
    const rstack: array<Task>
    var ridx: int
    var reply: Option<nat>
    const fn: Store

    ghost var base: nat            // where the objects of the current reply begin
    ghost var ctx: seq<Frame>      // the open arrays
    ghost var taken: bytes         // the bytes of the current reply that have been consumed
    ghost var result: Option<Item> // the current reply, once it is complete

    /** The bytes fed since the last reply was complete. */
    ghost function Stream(): bytes
      reads this
      requires pos <= |buf|
    {
      taken + buf[pos..]
    }

    ghost predicate Buffered()
      reads this
    {
      pos <= len == |buf| && rstack.Length == DEEPEST + 1
    }

    /** In the middle of a reply (possibly before its first byte). */
    ghost predicate Reading()
      reads this, rstack, fn
    {
      && Buffered() && err == 0 && fault == None
      && ridx == |ctx| && Open(ctx)
      && StackAt(rstack[..], ctx)
      && Explains(ctx, rstack[ridx].kind, taken)
      && Built(fn.cells, base, ctx)
      && result == None
    }

    /** A whole reply has been read. */
    ghost predicate Complete()
      reads this, fn
    {
      && Buffered() && err == 0 && fault == None
      && ridx == -1
      && result.Some? && Whole(result.value, taken)
      && Holds(fn.cells, base, Meaning(result.value))
      && |fn.cells| == base + Size(Meaning(result.value))
    }

    /** `reply` owns everything that has been built since `base`. */
    ghost predicate Owned()
      reads this
    {
      reply == if ridx == 0 then None else Some(base)
    }

    /** Refused: nothing built since `base` is live any more. */
    ghost predicate Failed()
      reads this, fn
    {
      && Buffered() && err == REDIS_ERR_PROTOCOL && fault.Some?
      && buf == [] && ridx == -1 && reply == None
      && base <= |fn.cells| && forall k :: base <= k < |fn.cells| ==> fn.cells[k] == Freed
    }

    /** Between replies: nothing consumed, nothing built. */
    ghost predicate Idle()
      reads this, fn
    {
      && Buffered() && err == 0 && fault == None
      && ridx == -1 && reply == None && ctx == [] && taken == [] && result == None
      && |fn.cells| == base
    }

    /** Between calls, in the middle of a reply: what has been consumed decides nothing yet. */
    ghost predicate Waiting()
      reads this, rstack, fn
    {
      Reading() && Owned() && ParseItem(0, taken) == More
    }

    /** What holds between calls. */
    ghost predicate Valid()
      reads this, rstack, fn
      ensures Valid() ==> Buffered() && (err == 0 <==> fault == None)
    {
      Idle() || Waiting() || Failed()
    }

    constructor (maxbuf: nat)
      ensures Idle() && Stream() == [] && base == 0 && fresh(rstack) && fresh(fn)
    {
      this.err, this.fault := 0, None;
      this.buf, this.pos, this.len := [], 0, 0;
      this.maxbuf := maxbuf;
      this.rstack := new Task[DEEPEST + 1](_ => Task(None, 0, 0, None, None));
      this.ridx, this.reply := -1, None;
      this.fn := new Store();
      this.base, this.ctx, this.taken, this.result := 0, [], [], None;
    }

    method SetError(f: Fault)
      requires Reading() && Owned()
      modifies this, fn
      ensures Failed() && fault == Some(f) && base == old(base)
      ensures Agree(old(fn.cells), fn.cells, 0, base)
    {
      if reply.Some? {
        BuiltIsTree(fn.cells, base, ctx);
        FramesOrdered(fn.cells, base, ctx, None);
        fn.Free(reply.value, |fn.cells|);
        reply := None;
      }
      buf, pos, len := [], 0, 0;
      ridx := -1;
      err := REDIS_ERR_PROTOCOL;
      fault := Some(f);
    }

    /** `redisReaderFree`: the objects of a reply that is not complete go with the reader. */
    method Destroy()
      requires Valid()
      modifies `reply, fn
      ensures Agree(old(fn.cells), fn.cells, 0, base) && forall k :: base <= k < |fn.cells| ==> fn.cells[k] == Freed
    {
      hide Explains, StackAt, ParseItem, Open;
      if reply.Some? {
        BuiltIsTree(fn.cells, base, ctx);
        FramesOrdered(fn.cells, base, ctx, None);
        fn.Free(reply.value, |fn.cells|);
      } else if Waiting() {
        BuiltAbove(fn.cells, base, ctx);
      }
    }

    /** Consumes a line if there is a whole one. */
    method ReadLine() returns (line: Option<bytes>)
      requires Buffered()
      modifies `pos
      ensures Buffered()
      ensures match CutLine(old(buf[pos..]))
              case NoLine => line == None && pos == old(pos)
              case Cut(l, rest) => line == Some(l) && buf[pos..] == rest && old(buf[pos..]) == l + CRLF + rest
    {
      var k := SeekNewline(buf, pos, len - pos);
      if k.None? {
        return None;
      }
      ghost var unread := buf[pos..];
      line := Some(buf[pos..pos + k.value]);
      pos := pos + k.value + 2;
      assert line.value == unread[..k.value] && buf[pos..] == unread[k.value + 2..];
      assert CutLine(unread).line == unread[..k.value] && CutLine(unread).rest == unread[k.value + 2..];
    }

    /** Leaves the finished item i: pops every array it completes and moves to the next element, or ends the reply. */
    method MoveToNextTask(ghost i: Item)
      requires Buffered() && err == 0 && fault == None && result == None
      requires ridx == |ctx| && Open(ctx) && StackAt(rstack[..], ctx) && Placed(fn.cells, base, ctx, i)
      requires match Advance(ctx, i)
               case Finished(j) => Whole(j, taken)
               case Continue(ctx') => Explains(ctx', None, taken)
      modifies `ridx, `ctx, `result, rstack
      ensures Reading() || Complete()
      ensures Reading() ==> ridx > 0
    {
      hide Placed, Built, Explains, Whole, Advance, StackAt;
      ghost var goal := Advance(ctx, i);
      ghost var item := i;
      while ridx >= 0
        invariant ridx == |ctx| && StackAt(rstack[..], ctx) && Placed(fn.cells, base, ctx, item)
        invariant Open(ctx) && Advance(ctx, item) == goal && result == None
      {
        if ridx == 0 {
          assert ctx == [];
          WholeReply(fn.cells, base, item);
          ridx := ridx - 1;
          result := Some(item);
          return;
        }
        StackTop(rstack[..], ctx);
        var cur, prv := rstack[ridx], rstack[ridx - 1];
        assert prv.kind == Some(MultiBulk);
        if cur.idx == prv.elements - 1 {
          ridx := ridx - 1;
          ArrayPopped(rstack[..], fn.cells, base, ctx, item);
          item := Multi(Last(ctx).kids + [item]);
          ctx := Init(ctx);
        } else {
          assert cur.idx < prv.elements;
          ElementMoved(rstack[..], fn.cells, base, ctx, item);
          ghost var rs := rstack[..];
          rstack[ridx] := NextElement(cur);
          assert rstack[..] == rs[ridx := NextElement(cur)];
          ctx := goal.ctx;
          return;
        }
      }
    }

    /** The outcome of processing one item: s and unread are the stream and the unread bytes before it. */
    ghost predicate Processed(ok: bool, s: bytes, unread: nat, base0: nat, cells0: Cells)
      reads this, rstack, fn
    {
      && base == base0 && Agree(cells0, fn.cells, 0, base)
      && if ok then
           && ((Reading() && Owned()) || (Complete() && reply == Some(base)))
           && Stream() == s && |buf| - pos < unread
         else if err == 0 then
           Reading() && Owned() && Stream() == s && ParseItem(0, s) == More
         else
           Failed() && ParseItem(0, s) == Fail(fault.value)
    }

    /** The object a new element is written into: `task->parent->obj`. */
    function ParentObject(): (p: Option<nat>)
      requires 0 <= ridx < rstack.Length && StackAt(rstack[..], ctx) && ridx == |ctx|
      reads this, rstack
      ensures p == ParentOf(ctx) && rstack[ridx].idx == IndexOf(ctx)
    {
      StackTask(rstack[..], ctx);
      if rstack[ridx].parent.None? then None else rstack[rstack[ridx].parent.value].obj
    }

    /**
     Creates the object of an item without elements, makes it the reply if it is the root,
     and moves on; d are the bytes of the item after its type byte.
     */
    method FinishLeaf(r: Reply, ghost i: Item, ghost d: bytes)
      requires Reading() && Owned()
      requires rstack[ridx].kind.Some? && Completes(rstack[ridx].kind.value, |ctx|, d, i)
      requires !i.Multi? && r == Meaning(i)
      modifies `reply, `ridx, `ctx, `result, `taken, rstack, fn
      ensures (Reading() && Owned()) || (Complete() && reply == Some(base))
      ensures taken == old(taken) + d && base <= |old(fn.cells)| && Agree(old(fn.cells), fn.cells, 0, base)
    {
      hide Placed, Explains, Completes, Whole, Advance, Linked, CanLink, Holds, Size, Meaning;
      LeafPlaced(fn.cells, base, ctx, i);
      ItemRead(ctx, rstack[ridx].kind.value, taken, d, i);
      var obj := fn.CreateLeaf(ParentObject(), rstack[ridx].idx, r);
      if ridx == 0 {
        reply := Some(obj);
      }
      taken := taken + d;
      MoveToNextTask(i);
    }

    method ProcessLineItem() returns (ok: bool)
      requires Reading() && Owned() && rstack[ridx].kind in {Some(ErrorLine), Some(StatusLine), Some(IntegerLine)}
      modifies this, rstack, fn
      ensures Processed(ok, old(Stream()), old(|buf| - pos), old(base), old(fn.cells))
    {
      hide Explains, Completes, Built, StackAt, Meaning, Whole, Holds, Size, ParseTop, ParseItem, ParseBody;
      hide CutLine, Decimal.Parse, IsLine;
      ghost var unread := buf[pos..];
      var kind := rstack[ridx].kind.value;
      LineTop(kind, |ctx|, unread);
      BuiltAbove(fn.cells, base, ctx);
      ghost var s := Stream();
      var line := ReadLine();
      if line.None? {
        Stuck(ctx, Some(kind), taken, unread);
        return false;
      }
      ghost var i := Line(kind == StatusLine, line.value);
      var r := if kind == StatusLine then Status(line.value) else Error(line.value);
      if kind == IntegerLine {
        var v := Decimal.String2ll(line.value);
        if v.None? {
          Stuck(ctx, Some(kind), taken, unread);
          SetError(BadInteger);
          return false;
        }
        i := Number(v.value);
        r := Integer(v.value);
      }
      LineCompletes(kind, |ctx|, line.value, i);
      LeafMeaning(i);
      FinishLeaf(r, i, line.value + CRLF);
      assert taken + buf[pos..] == s;
      return true;
    }

    method ProcessBulkItem() returns (ok: bool)
      requires Reading() && Owned() && rstack[ridx].kind == Some(BulkString)
      modifies this, rstack, fn
      ensures Processed(ok, old(Stream()), old(|buf| - pos), old(base), old(fn.cells))
    {
      hide Explains, Completes, Built, StackAt, Meaning, Whole, Holds, Size, ParseTop, ParseItem, ParseBody;
      hide CutLine, Decimal.Parse, IsLine;
      ghost var unread := buf[pos..];
      ghost var s := Stream();
      BulkTop(|ctx|, unread);
      BuiltAbove(fn.cells, base, ctx);
      var k := SeekNewline(buf, pos, len - pos);
      if k.None? {
        Stuck(ctx, Some(BulkString), taken, unread);
        return false;
      }
      CutAt(unread, k.value);
      var line := buf[pos..pos + k.value];
      assert line == unread[..k.value];
      var bytelen := k.value + 2;
      var n := Decimal.String2ll(line);
      if n.None? {
        Stuck(ctx, Some(BulkString), taken, unread);
        SetError(BadBulkLength);
        return false;
      }
      if n.value < -1 {
        Stuck(ctx, Some(BulkString), taken, unread);
        SetError(BulkOutOfRange);
        return false;
      }
      if n.value == -1 {
        NilBulkCompletes(|ctx|, line);
        LeafMeaning(NilBulk);
        pos := pos + bytelen;
        FinishLeaf(Nil, NilBulk, line + CRLF);
        assert taken + buf[pos..] == s;
        return true;
      }
      bytelen := bytelen + n.value + 2;
      if pos + bytelen <= len {
        TakeBulk(line, n.value, bytelen);
        return true;
      }
      Stuck(ctx, Some(BulkString), taken, unread);
      return false;
    }

    /** The whole bulk string is in the buffer; the two bytes after the payload are skipped unread. */
    method TakeBulk(line: bytes, n: nat, bytelen: nat)
      requires Reading() && Owned() && rstack[ridx].kind == Some(BulkString)
      requires IsLine(line) && Decimal.Parse(line) == Some(n)
      requires bytelen == |line| + 2 + n + 2 && pos + bytelen <= len && line + CRLF <= buf[pos..]
      modifies this, rstack, fn
      ensures Processed(true, old(Stream()), old(|buf| - pos), old(base), old(fn.cells))
    {
      hide Explains, Completes, Built, StackAt, Meaning, Whole, Holds, Size, ParseTop, ParseItem, ParseBody;
      hide CutLine, Decimal.Parse, IsLine;
      BuiltAbove(fn.cells, base, ctx);
      ghost var s := Stream();
      ghost var unread := buf[pos..];
      var start := pos + |line| + 2;
      var payload := buf[start..start + n];
      ghost var trailer := buf[start + n..start + n + 2];
      ghost var d := line + CRLF + payload + trailer;
      BulkCompletes(|ctx|, line, payload, trailer);
      LeafMeaning(Bulk(payload, trailer));
      assert unread == d + buf[start + n + 2..];
      pos := pos + bytelen;
      FinishLeaf(String(payload), Bulk(payload, trailer), d);
      assert taken + buf[pos..] == s;
    }

    method ProcessMultiBulkItem() returns (ok: bool)
      requires Reading() && Owned() && rstack[ridx].kind == Some(MultiBulk)
      modifies this, rstack, fn
      ensures Processed(ok, old(Stream()), old(|buf| - pos), old(base), old(fn.cells))
    {
      hide Explains, Completes, Built, StackAt, Meaning, Whole, Holds, Size, ParseTop, ParseItem, ParseBody;
      hide CutLine, Decimal.Parse, IsLine;
      ghost var unread := buf[pos..];
      ghost var s := Stream();
      MultiTop(|ctx|, unread);
      BuiltAbove(fn.cells, base, ctx);
      if ridx == DEEPEST {
        Stuck(ctx, Some(MultiBulk), taken, unread);
        SetError(TooDeep);
        return false;
      }
      var line := ReadLine();
      if line.None? {
        Stuck(ctx, Some(MultiBulk), taken, unread);
        return false;
      }
      CountOf(line.value);
      var elements := Decimal.String2ll(line.value);
      if elements.None? {
        Stuck(ctx, Some(MultiBulk), taken, unread);
        SetError(BadMultiBulkLength);
        return false;
      }
      if elements.value < -1 || elements.value > INT_MAX {
        Stuck(ctx, Some(MultiBulk), taken, unread);
        SetError(MultiBulkOutOfRange);
        return false;
      }
      if elements.value == -1 {
        EmptyArrayCompletes(|ctx|, line.value, -1);
        LeafMeaning(NilArray);
        FinishLeaf(Nil, NilArray, line.value + CRLF);
      } else if elements.value == 0 {
        FinishEmptyArray(line.value);
      } else {
        OpenArray(line.value, elements.value);
      }
      assert taken + buf[pos..] == s;
      return true;
    }

    method FinishEmptyArray(ghost line: bytes)
      requires Reading() && Owned() && rstack[ridx].kind == Some(MultiBulk)
      requires |ctx| < DEEPEST && IsLine(line) && ParseCount(line) == Count(0)
      modifies `reply, `ridx, `ctx, `result, `taken, rstack, fn
      ensures (Reading() && Owned()) || (Complete() && reply == Some(base))
      ensures taken == old(taken) + (line + CRLF) && base <= |old(fn.cells)| && Agree(old(fn.cells), fn.cells, 0, base)
    {
      hide Placed, Explains, Completes, Whole, Advance, Linked, CanLink, ParseCount, IsLine;
      EmptyArrayPlaced(fn.cells, base, ctx);
      EmptyArrayCompletes(|ctx|, line, 0);
      ItemRead(ctx, MultiBulk, taken, line + CRLF, Multi([]));
      ghost var none: seq<Option<nat>> := seq(0, _ => None);
      assert none == [];
      var obj := fn.CreateArray(ParentObject(), rstack[ridx].idx, 0);
      if ridx == 0 {
        reply := Some(obj);
      }
      taken := taken + (line + CRLF);
      MoveToNextTask(Multi([]));
    }

    /** Pushes a task for the first element. */
    method OpenArray(ghost line: bytes, elements: nat)
      requires Reading() && Owned() && rstack[ridx].kind == Some(MultiBulk)
      requires |ctx| < DEEPEST && IsLine(line) && ParseCount(line) == Count(elements) && elements > 0
      modifies `reply, `ridx, `ctx, `taken, rstack, fn
      ensures Reading() && Owned()
      ensures taken == old(taken) + (line + CRLF) && base <= |old(fn.cells)| && Agree(old(fn.cells), fn.cells, 0, base)
    {
      hide Built, Explains, Linked, CanLink, ParseCount, IsLine, StackAt;
      ghost var rs, at := rstack[..], |fn.cells|;
      ArrayOpens(fn.cells, base, ctx, elements);
      ArrayOpened(ctx, taken, line, elements, at);
      var cur := rstack[ridx];
      BuiltRoot(fn.cells, base, ctx);
      var obj := fn.CreateArray(ParentObject(), cur.idx, elements);
      if ridx == 0 {
        reply := Some(obj);
      }
      StackPushed(rs, ctx, elements, obj);
      rstack[ridx] := cur.(elements := elements, obj := Some(obj));
      ridx := ridx + 1;
      rstack[ridx] := Task(None, -1, 0, None, Some(ridx - 1));
      assert rstack[..] == Pushed(rs, ridx - 1, elements, obj);
      ctx := ctx + [Frame(elements, [], obj)];
      taken := taken + (line + CRLF);
    }

    method ProcessItem() returns (ok: bool)
      requires Reading() && Owned()
      modifies this, rstack, fn
      ensures Processed(ok, old(Stream()), old(|buf| - pos), old(base), old(fn.cells))
    {
      hide Explains, Completes, Built, StackAt, Meaning, Whole, Holds, Size, ParseTop, ParseItem, ParseBody;
      hide CutLine, Decimal.Parse, IsLine;
      BuiltAbove(fn.cells, base, ctx);
      if rstack[ridx].kind.None? {
        ghost var s, unread := Stream(), buf[pos..];
        TypeTop(|ctx|, unread);
        if len - pos < 1 {
          Stuck(ctx, None, taken, unread);
          return false;
        }
        var p := buf[pos];
        pos := pos + 1;
        var kind := KindOf(p);
        if kind.None? {
          Stuck(ctx, None, taken, unread);
          SetError(TypeByte(p));
          return false;
        }
        TypeRead(ctx, taken, p);
        StackTyped(rstack[..], ctx, kind);
        ghost var rs := rstack[..];
        rstack[ridx] := rstack[ridx].(kind := kind);
        assert rstack[..] == rs[ridx := rs[ridx].(kind := kind)];
        taken := taken + [p];
        assert unread == [p] + buf[pos..];
        assert Stream() == s;
      }
      match rstack[ridx].kind.value
      case BulkString => ok := ProcessBulkItem();
      case MultiBulk => ok := ProcessMultiBulkItem();
      case _ => ok := ProcessLineItem();
    }

    /** `redisReaderFeed`. How much spare room the allocator left behind the buffer is arbitrary. */
    method Feed(chunk: bytes) returns (ok: bool)
      requires Valid()
      modifies `buf, `pos, `len
      ensures Valid() && ok == (old(err) == 0)
      ensures ok ==> Stream() == old(Stream()) + chunk
      ensures !ok ==> buf == old(buf) && pos == old(pos) && len == old(len)
    {
      hide Explains, Built, StackAt, ParseItem, Open;
      if err != 0 {
        return false;
      }
      ghost var before := buf[pos..];
      if |chunk| >= 1 {
        var avail: nat := *;
        if len == 0 && maxbuf != 0 && avail > maxbuf {
          buf := [];
          pos := 0;
        }
        buf := buf + chunk;
        len := |buf|;
      }
      assert buf[pos..] == before + chunk;
      assert taken + (before + chunk) == taken + before + chunk;
      return true;
    }

    /** Set the first task when the stack is empty. */
    method Begin()
      requires Idle() || Waiting()
      modifies `ridx, rstack
      ensures Reading() && Owned()
    {
      if ridx == -1 {
        rstack[0] := Task(None, -1, -1, None, None);
        ridx := 0;
        assert Explains([], None, []) by {
          forall t
            ensures Resume([], None, t) == ParseItem(0, [] + t)
          {
            assert [] + t == t;
          }
        }
      }
    }

    /**
     `redisReaderGetReply`: exactly the verdict of the recursive parser on the bytes fed since the last reply.
     A reply leaves its bytes consumed and its objects with the caller; without one nothing is lost;
     a refusal frees every object built for the unfinished reply.
     */
    method GetReply() returns (ok: bool, out: Option<nat>)
      requires Valid()
      modifies this, rstack, fn
      ensures Valid() && base >= old(base) && Agree(old(fn.cells), fn.cells, 0, old(base))
      ensures ok ==> pos < 1024
      ensures old(err) != 0 ==> !ok && out == None && fault == old(fault) && err != 0
      ensures old(err) == 0 ==>
                match ParseItem(0, old(Stream()))
                case Done(i, rest) =>
                  && ok && Idle() && Stream() == rest && out == Some(old(base))
                  && Holds(fn.cells, old(base), Meaning(i)) && base == old(base) + Size(Meaning(i))
                case More => ok && err == 0 && Stream() == old(Stream()) && out == None && base == old(base)
                case Fail(f) => !ok && Failed() && fault == Some(f) && out == None && base == old(base)
    {
      hide Explains, Built, StackAt, Holds, Size, Meaning, ParseItem, Whole;
      out := None;
      if err != 0 {
        return false, None;
      }
      ghost var s := Stream();
      if len == 0 {
        NothingYet();
        assert s == taken;
        if ridx != -1 {
          BuiltAbove(fn.cells, base, ctx);
        }
        return true, None;
      }
      Begin();
      ProcessItems();
      if err != 0 {
        return false, None;
      }
      Compact();
      if ridx == -1 {
        out := Emit();
      } else {
        UndecidedPrefix(taken, buf[pos..]);
      }
      return true, out;
    }

    /** The loop over items: until the reply is complete, more bytes are needed, or the stream is refused. */
    method ProcessItems()
      requires Reading() && Owned()
      modifies this, rstack, fn
      ensures Buffered() && base == old(base) && Agree(old(fn.cells), fn.cells, 0, base)
      ensures if err == 0 then Stream() == old(Stream())
              else Failed() && ParseItem(0, old(Stream())) == Fail(fault.value)
      ensures err == 0 && ridx >= 0 ==> Reading() && Owned() && ParseItem(0, Stream()) == More
      ensures err == 0 && ridx < 0 ==> Complete() && reply == Some(base)
    {
      hide Explains, Built, StackAt, Holds, Size, Meaning, ParseItem, Whole;
      BuiltAbove(fn.cells, base, ctx);
      ghost var s, cells0, base0 := Stream(), fn.cells, base;
      while ridx >= 0
        invariant (Reading() && Owned()) || (Complete() && reply == Some(base))
        invariant Stream() == s && base == base0 && Agree(cells0, fn.cells, 0, base)
        decreases if ridx >= 0 then |buf| - pos + 1 else 0
      {
        var ok := ProcessItem();
        if !ok {
          break;
        }
      }
    }

    /** Discards the consumed part of the buffer once it is at least 1k. */
    method Compact()
      requires Buffered()
      modifies `buf, `pos, `len
      ensures Buffered() && buf[pos..] == old(buf[pos..]) && pos < COMPACT_AT
      ensures old(pos) < COMPACT_AT ==> buf == old(buf)
    {
      if pos >= COMPACT_AT {
        Sds.RangeDrops(buf, pos);
        buf := Sds.SdsRange(buf, pos, -1);
        pos := 0;
        len := |buf|;
      }
    }

    /** Hands the finished reply to the caller. */
    method Emit() returns (out: Option<nat>)
      requires Complete() && reply == Some(base)
      modifies this
      ensures Idle() && out == Some(old(base)) && base >= old(base) && pos == old(pos)
      ensures match ParseItem(0, old(Stream()))
              case Done(i, rest) =>
                Stream() == rest && Holds(fn.cells, old(base), Meaning(i)) && base == old(base) + Size(Meaning(i))
              case _ => false
    {
      WholeVerdict(result.value, taken, buf[pos..]);
      out := reply;
      reply := None;
      base, ctx, taken, result := |fn.cells|, [], [], None;
      assert Stream() == buf[pos..];
    }
  }
}
