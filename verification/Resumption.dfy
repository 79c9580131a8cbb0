/**
 What a half-read item still needs. The reader's task stack is a list of open arrays;
 `Resume` says what the parser would return from there, whatever bytes arrive next.
 */
module Resumption {
  import opened Bytes
  import Decimal
  import opened Resp

  /** An array announced with n elements, of which `kids` have been read; obj is its reply object. */
  datatype Frame = Frame(n: nat, kids: seq<Item>, obj: nat)

  predicate Open(ctx: seq<Frame>) {
    |ctx| <= DEEPEST && forall k :: 0 <= k < |ctx| ==> |ctx[k].kids| < ctx[k].n
  }

  function Last(ctx: seq<Frame>): Frame
    requires ctx != []
  {
    ctx[|ctx| - 1]
  }

  function Init(ctx: seq<Frame>): seq<Frame>
    requires ctx != []
  {
    ctx[..|ctx| - 1]
  }

  /** The result of the outermost item, given the result of the innermost element. */
  function Close(ctx: seq<Frame>, p: Parse): Parse
    requires Open(ctx)
  {
    if ctx == [] then p
    else
      var f := Last(ctx);
      Close(Init(ctx), Then(p, |ctx|, f.n - |f.kids| - 1, f.kids))
  }

  function ParseTop(level: nat, kind: Option<Kind>, s: bytes): Parse
    requires level <= DEEPEST
  {
    if kind.None? then ParseItem(level, s) else ParseBody(kind.value, level, s)
  }

  /** The outermost item, when the arrays ctx are open, the top type byte may have been read, and s follows. */
  function Resume(ctx: seq<Frame>, kind: Option<Kind>, s: bytes): Parse
    requires Open(ctx)
  {
    Close(ctx, ParseTop(|ctx|, kind, s))
  }

  /** The stack stands for the bytes `taken` since the item began. */
  ghost predicate Explains(ctx: seq<Frame>, kind: Option<Kind>, taken: bytes)
    requires Open(ctx)
  {
    forall t :: Resume(ctx, kind, t) == ParseItem(0, taken + t)
  }

  /** The bytes `taken` are one whole item. */
  ghost predicate Whole(i: Item, taken: bytes) {
    forall t :: ParseItem(0, taken + t) == Done(i, t)
  }

  /** What `moveToNextTask` does once an item is complete: close every array it fills. */
  datatype Next = Finished(item: Item) | Continue(ctx: seq<Frame>)

  function Advance(ctx: seq<Frame>, i: Item): (r: Next)
    requires Open(ctx)
    ensures r.Continue? ==> 0 < |r.ctx| <= |ctx| && Open(r.ctx)
  {
    if ctx == [] then Finished(i)
    else
      var f := Last(ctx);
      if |f.kids| + 1 == f.n then Advance(Init(ctx), Multi(f.kids + [i]))
      else Continue(Init(ctx) + [f.(kids := f.kids + [i])])
  }

  lemma {:induction false} CloseMore(ctx: seq<Frame>, p: Parse)
    requires Open(ctx) && !p.Done?
    ensures Close(ctx, p) == p
  {
    if ctx != [] {
      CloseMore(Init(ctx), p);
    }
  }

  /** What the parser finds at the top of the stack, if not an element, is the verdict on the whole stream. */
  lemma Stuck(ctx: seq<Frame>, kind: Option<Kind>, taken: bytes, unread: bytes)
    requires Open(ctx) && Explains(ctx, kind, taken) && !ParseTop(|ctx|, kind, unread).Done?
    ensures ParseItem(0, taken + unread) == ParseTop(|ctx|, kind, unread)
  {
    CloseMore(ctx, ParseTop(|ctx|, kind, unread));
    assert Resume(ctx, kind, unread) == ParseItem(0, taken + unread);
  }

  lemma {:induction false} AdvanceCloses(ctx: seq<Frame>, i: Item, t: bytes)
    requires Open(ctx)
    ensures Close(ctx, Done(i, t)) ==
            match Advance(ctx, i) { case Finished(j) => Done(j, t) case Continue(ctx') => Resume(ctx', None, t) }
  {
    if ctx != [] {
      var f := Last(ctx);
      if |f.kids| + 1 == f.n {
        AdvanceCloses(Init(ctx), Multi(f.kids + [i]), t);
      } else {
        var ctx' := Init(ctx) + [f.(kids := f.kids + [i])];
        assert Init(ctx') == Init(ctx);
        ParseItemsStep(|ctx|, f.n - |f.kids| - 1, f.kids + [i], t);
      }
    }
  }

  /** Reading d moves the stack from (ctx, kind) to (ctx', kind'). */
  lemma Shift(ctx: seq<Frame>, kind: Option<Kind>, taken: bytes, d: bytes, ctx': seq<Frame>, kind': Option<Kind>)
    requires Open(ctx) && Open(ctx') && Explains(ctx, kind, taken)
    requires forall t :: Resume(ctx', kind', t) == Resume(ctx, kind, d + t)
    ensures Explains(ctx', kind', taken + d)
  {
    forall t
      ensures Resume(ctx', kind', t) == ParseItem(0, taken + d + t)
    {
      assert taken + d + t == taken + (d + t);
      assert Resume(ctx, kind, d + t) == ParseItem(0, taken + (d + t));
    }
  }

  lemma TypeRead(ctx: seq<Frame>, taken: bytes, b: byte)
    requires Open(ctx) && Explains(ctx, None, taken) && KindOf(b).Some?
    ensures Explains(ctx, KindOf(b), taken + [b])
  {
    forall t
      ensures Resume(ctx, KindOf(b), t) == Resume(ctx, None, [b] + t)
    {
      assert ([b] + t)[1..] == t;
    }
    Shift(ctx, None, taken, [b], ctx, KindOf(b));
  }

  /** An array header with n > 0 elements opens a frame. */
  lemma ArrayOpened(ctx: seq<Frame>, taken: bytes, line: bytes, n: nat, obj: nat)
    requires Open(ctx) && Explains(ctx, Some(MultiBulk), taken) && |ctx| < DEEPEST
    requires IsLine(line) && ParseCount(line) == Count(n) && n > 0
    ensures Open(ctx + [Frame(n, [], obj)])
    ensures Explains(ctx + [Frame(n, [], obj)], None, taken + (line + CRLF))
  {
    var ctx' := ctx + [Frame(n, [], obj)];
    assert Init(ctx') == ctx;
    forall t
      ensures Resume(ctx', None, t) == Resume(ctx, Some(MultiBulk), line + CRLF + t)
    {
      CutLineAt(line, t);
      ParseItemsStep(|ctx| + 1, n, [], t);
    }
    Shift(ctx, Some(MultiBulk), taken, line + CRLF, ctx', None);
  }

  /** The bytes d complete the item i at the top of the stack, whatever follows them. */
  ghost predicate Completes(kind: Kind, level: nat, d: bytes, i: Item)
    requires level <= DEEPEST
  {
    forall t :: ParseBody(kind, level, d + t) == Done(i, t)
  }

  lemma ItemRead(ctx: seq<Frame>, kind: Kind, taken: bytes, d: bytes, i: Item)
    requires Open(ctx) && Explains(ctx, Some(kind), taken) && Completes(kind, |ctx|, d, i)
    ensures match Advance(ctx, i)
            case Finished(j) => Whole(j, taken + d)
            case Continue(ctx') => Explains(ctx', None, taken + d)
  {
    forall t
      ensures Close(ctx, Done(i, t)) == ParseItem(0, taken + d + t)
    {
      assert taken + d + t == taken + (d + t);
      assert Resume(ctx, Some(kind), d + t) == ParseItem(0, taken + (d + t));
    }
    match Advance(ctx, i)
    case Finished(j) =>
      forall t
        ensures ParseItem(0, taken + d + t) == Done(j, t)
      {
        AdvanceCloses(ctx, i, t);
      }
    case Continue(ctx') =>
      forall t
        ensures Resume(ctx', None, t) == ParseItem(0, taken + d + t)
      {
        AdvanceCloses(ctx, i, t);
      }
  }

  lemma LineCompletes(kind: Kind, level: nat, line: bytes, i: Item)
    requires level <= DEEPEST && IsLine(line)
    requires kind != BulkString && kind != MultiBulk && ParseLine(kind, line, []) == Done(i, [])
    ensures Completes(kind, level, line + CRLF, i)
  {
    forall t
      ensures ParseBody(kind, level, line + CRLF + t) == Done(i, t)
    {
      CutLineAt(line, t);
    }
  }

  lemma NilBulkCompletes(level: nat, line: bytes)
    requires level <= DEEPEST && IsLine(line) && Decimal.Parse(line) == Some(-1)
    ensures Completes(BulkString, level, line + CRLF, NilBulk)
  {
    forall t
      ensures ParseBody(BulkString, level, line + CRLF + t) == Done(NilBulk, t)
    {
      CutLineAt(line, t);
    }
  }

  lemma BulkCompletes(level: nat, line: bytes, payload: bytes, trailer: bytes)
    requires level <= DEEPEST && IsLine(line) && Decimal.Parse(line) == Some(|payload|) && |trailer| == 2
    ensures Completes(BulkString, level, line + CRLF + payload + trailer, Bulk(payload, trailer))
  {
    var d := line + CRLF + payload + trailer;
    forall t
      ensures ParseBody(BulkString, level, d + t) == Done(Bulk(payload, trailer), t)
    {
      var rest, n := payload + trailer + t, |payload|;
      assert d + t == line + CRLF + rest;
      CutLineAt(line, rest);
      assert rest[..n] == payload && rest[n..n + 2] == trailer && rest[n + 2..] == t;
    }
  }

  /** A nil array, or an array without elements. */
  lemma EmptyArrayCompletes(level: nat, line: bytes, n: int)
    requires level < DEEPEST && IsLine(line) && ParseCount(line) == Count(n) && n <= 0
    ensures Completes(MultiBulk, level, line + CRLF, if n == 0 then Multi([]) else NilArray)
  {
    forall t
      ensures ParseBody(MultiBulk, level, line + CRLF + t) == Done(if n == 0 then Multi([]) else NilArray, t)
    {
      CutLineAt(line, t);
    }
  }
}
