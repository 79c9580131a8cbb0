/** Every callback that waits in an async context: two queues and the subscriptions. */
module Pending {
  import opened Arguments
  import opened Bytes
  import opened Callbacks
  import opened Registration
  import opened Resp
  import opened Subscriptions
  import Formatter

  /** `ac->replies` and `ac->sub`; replies, invalid and subs are what the lists, dictionaries and the flag stand for. */
  class PendingCallbacks {
    const replyList: CallbackList
    const invalidList: CallbackList
    const sub: Registrations
    ghost var repr: set<object>
    ghost var replies: seq<Callback>
    ghost var invalid: seq<Callback>
    ghost var subs: Subs

    ghost predicate Apart()
      reads this, repr
    {
      && this in repr && replyList in repr && invalidList in repr && sub in repr
      && replyList.repr <= repr && invalidList.repr <= repr && sub in sub.repr && sub.repr <= repr
      && {this} !! ({replyList} + replyList.repr) !! ({invalidList} + invalidList.repr) !! sub.repr
    }

    ghost predicate Valid()
      reads this, repr
    {
      && Apart() && replyList.Valid() && invalidList.Valid() && sub.Valid()
      && replies == replyList.contents && invalid == invalidList.contents && subs == sub.subs
    }

    constructor ()
      ensures Valid() && fresh(repr) && replies == [] && invalid == [] && subs == NO_SUBS
    {
      hide CallbackList.Valid, Registrations.Valid;
      replyList := new CallbackList();
      invalidList := new CallbackList();
      sub := new Registrations();
      replies, invalid, subs := [], [], NO_SUBS;
      new;
      sub.Flag();
      repr := {this, replyList, invalidList} + sub.repr;
    }

    lemma Flag()
      requires Valid()
      ensures this in repr && subs.subscribed == sub.subscribed
    {
      hide CallbackList.Valid, Registrations.Valid;
      sub.Flag();
    }

    /** The dictionaries, as a part of the whole. */
    lemma Unfolded()
      requires Valid()
      ensures this in repr && sub in repr && sub.Valid() && sub.repr <= repr && sub.subs == subs
    {
      hide CallbackList.Valid, Registrations.Valid;
    }

    method PushReply(cb: Callback)
      requires Valid()
      modifies repr
      ensures Valid() && fresh(repr - old(repr))
      ensures replies == old(replies) + [cb] && invalid == old(invalid) && subs == old(subs)
    {
      hide CallbackList.Valid, Registrations.Valid;
      replyList.Push(cb);
      repr, replies := repr + replyList.repr, replyList.contents;
    }

    method PushInvalid(cb: Callback)
      requires Valid()
      modifies repr
      ensures Valid() && fresh(repr - old(repr))
      ensures replies == old(replies) && invalid == old(invalid) + [cb] && subs == old(subs)
    {
      hide CallbackList.Valid, Registrations.Valid;
      invalidList.Push(cb);
      repr, invalid := repr + invalidList.repr, invalidList.contents;
    }

    method ShiftReply() returns (ok: bool, cb: Callback)
      requires Valid()
      modifies repr
      ensures Valid() && repr == old(repr) && invalid == old(invalid) && subs == old(subs)
      ensures ok == (old(replies) != [])
      ensures ok ==> cb == old(replies)[0]
      ensures replies == if ok then old(replies)[1..] else old(replies)
    {
      hide CallbackList.Valid, Registrations.Valid;
      ok, cb := replyList.Shift();
      replies := replyList.contents;
    }

    method ShiftInvalid() returns (ok: bool, cb: Callback)
      requires Valid()
      modifies repr
      ensures Valid() && repr == old(repr) && replies == old(replies) && subs == old(subs)
      ensures ok == (old(invalid) != [])
      ensures ok ==> cb == old(invalid)[0]
      ensures invalid == if ok then old(invalid)[1..] else old(invalid)
    {
      hide CallbackList.Valid, Registrations.Valid;
      ok, cb := invalidList.Shift();
      invalid := invalidList.contents;
    }

    /** `ac->replies.head == NULL`. */
    method NoReplies() returns (none: bool)
      requires Valid()
      ensures none == (replies == [])
    {
      hide Registrations.Valid;
      none := replyList.head == null;
    }

    /** The subscribe branch of `__redisAsyncCommand`. */
    method Subscribe(pvariant: bool, mem: bytes, p: nat, ghost names: seq<bytes>, cb: Callback)
      requires Valid() && Ahead(mem, p, names) && Formatter.Sizes(names)
      modifies repr
      ensures Valid() && fresh(repr - old(repr)) && replies == old(replies) && invalid == old(invalid)
      ensures subs == old(subs).With(pvariant, SubscribeAll(old(subs).Of(pvariant), names, cb)).(subscribed := true)
    {
      hide CallbackList.Valid, Registrations.Valid, SubscribeAll, Ahead;
      sub.Subscribe(pvariant, mem, p, names, cb);
      sub.Flag();
      repr, subs := repr + sub.repr, sub.subs;
    }

    /** `dictRelease` on one of the dictionaries. */
    method Release(pvariant: bool)
      requires Valid()
      modifies repr
      ensures Valid() && fresh(repr - old(repr)) && replies == old(replies) && invalid == old(invalid)
      ensures subs == old(subs).With(pvariant, map[])
    {
      hide CallbackList.Valid, Registrations.Valid;
      sub.Release(pvariant);
      sub.Flag();
      repr, subs := repr + sub.repr, sub.subs;
    }

    /** What a message does to the subscriptions. */
    method TakeMessage(pvariant: bool, verb: bytes, sname: bytes, total: Option<Reply>, cb: Callback)
      returns (dstcb: Option<Callback>)
      requires Valid()
      modifies repr
      ensures Valid() && repr == old(repr) && replies == old(replies) && invalid == old(invalid)
      ensures match Lookup(old(subs), pvariant, verb, sname, total, cb)
              case Crashed => dstcb == None
              case Handled(subs', cb') => subs == subs' && dstcb == Some(cb')
    {
      hide CallbackList.Valid, Registrations.Valid, Lookup;
      dstcb := sub.TakeMessage(pvariant, verb, sname, total, cb);
      sub.Flag();
      subs := sub.subs;
    }
  }
}
