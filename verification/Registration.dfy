/** The subscriptions of an async context: dictionaries of callbacks for channels and patterns, and a flag. */
module Registration {
  import opened Arguments
  import opened Bytes
  import opened Callbacks
  import opened Subscriptions
  import opened Deliveries
  import opened Resp
  import D = Dict
  import Formatter

  /** One dictionary of callbacks; contents is the map it stands for. */
  class Registry {
    const ht: D.Dict<Callback>
    ghost var repr: set<object>
    ghost var contents: map<bytes, Callback>

    ghost predicate Valid()
      reads this, repr
    {
      && this !in repr && ht in repr && ht.table in repr && ht.entries.Values <= repr
      && ht.Valid() && ht.Contents() == contents
    }

    constructor ()
      ensures Valid() && fresh(repr) && contents == map[]
    {
      ht := new D.Dict<Callback>();
      contents := map[];
      new;
      repr := {ht, ht.table};
    }

    /** `dictReplace`. */
    method Replace(name: bytes, cb: Callback)
      requires Valid()
      modifies this, repr
      ensures Valid() && fresh(repr - old(repr)) && contents == old(contents)[name := cb]
    {
      hide D.Dict.Valid, D.Dict.Contents, D.Dict.Extended;
      var ret := ht.Replace(name, cb);
      repr := repr + {ht.table} + ht.entries.Values;
      contents := contents[name := cb];
    }

    /** One name of a (P)SUBSCRIBE. */
    method AddName(name: bytes, cb: Callback) returns (cb': Callback)
      requires Valid()
      modifies this, repr
      ensures Valid() && fresh(repr - old(repr))
      ensures Loop(contents, cb') == Turn(Loop(old(contents), cb), name)
    {
      hide D.Dict.Valid, D.Dict.Contents;
      var de := ht.Find(name);
      cb' := cb;
      if de != null {
        cb' := cb'.(pendingSubs := de.val.pendingSubs + 1);
      }
      Replace(name, cb');
    }

    /** The loop over the names of a (P)SUBSCRIBE, which follow in the text of the command. */
    method AddAll(mem: bytes, p: nat, ghost names: seq<bytes>, cb: Callback)
      requires Valid() && Ahead(mem, p, names) && Formatter.Sizes(names)
      modifies this, repr
      ensures Valid() && fresh(repr - old(repr)) && contents == SubscribeAll(old(contents), names, cb)
    {
      hide Registry.Valid, Turn, Turns, Rest;
      var cb' := cb;
      ghost var j := 0;
      assert names[0..] == names && names[..0] == [];
      NoTurn(contents, cb);
      var a := NextOf(mem, p, names);
      while a.Argument?
        invariant Valid() && fresh(repr - old(repr)) && 0 <= j <= |names| && Arguments.First(mem, a, names[j..])
        invariant Loop(contents, cb') == Turns(old(contents), names[..j], cb)
        decreases |names| - j
      {
        assert names[j..][0] == names[j] && names[j..][1..] == names[j + 1..];
        OneTurn(old(contents), names[..j], names[j], cb);
        assert names[..j] + [names[j]] == names[..j + 1];
        cb' := AddName(mem[a.str..a.str + a.len], cb');
        j := j + 1;
        a := NextOf(mem, a.next, names[j..]);
      }
      assert names[..j] == names;
    }

    /** de is the entry of the name. */
    ghost predicate Entry(name: bytes, de: D.Entry<Callback>)
      requires Valid()
      reads this, repr
    {
      de in repr && de.key == name && name in ht.entries && ht.entries[name] == de
    }

    method Find(name: bytes) returns (de: D.Entry?<Callback>)
      requires Valid()
      ensures de == null <==> name !in contents
      ensures de != null ==> Entry(name, de) && de.val == contents[name]
    {
      hide D.Dict.Valid, D.Dict.Contents;
      de := ht.Find(name);
    }

    /** `cb->pending_subs -= 1` on the callback of an entry. */
    method Confirm(name: bytes, de: D.Entry<Callback>)
      requires Valid() && Entry(name, de)
      modifies `contents, de
      ensures Valid() && repr == old(repr) && contents == old(contents)[name := de.val]
      ensures de.val == old(de.val).(pendingSubs := old(de.val.pendingSubs) - 1)
    {
      hide D.Dict.Valid, D.Dict.Contents;
      ht.Assign(de, de.val.(pendingSubs := de.val.pendingSubs - 1));
      contents := contents[name := de.val];
    }

    method Delete(name: bytes)
      requires Valid()
      modifies `contents, repr
      ensures Valid() && repr == old(repr) && contents == old(contents) - {name}
    {
      hide D.Dict.Valid, D.Dict.Contents, D.Dropped, D.Bucket;
      D.FewerValues(ht.entries, {name});
      var ok, p := ht.Delete(name);
      contents := contents - {name};
    }

    /** What `__redisGetSubscribeCallback` does to the entry of a name. */
    method Take(verb: bytes, name: bytes) returns (found: Option<Callback>)
      requires Valid()
      modifies `contents, repr
      ensures Valid() && repr == old(repr)
      ensures name !in old(contents) ==> found == None && contents == old(contents)
      ensures name in old(contents) ==>
                found == Some(Found(old(contents), verb, name)) && contents == Left(old(contents), verb, name)
    {
      hide Registry.Valid, SameWord;
      var de := Find(name);
      if de == null {
        return None;
      }
      if SameWord(verb, SUBSCRIBE) {
        Confirm(name, de);
      }
      found := Some(de.val);
      if SameWord(verb, UNSUBSCRIBE) && de.val.pendingSubs == 0 {
        Delete(name);
      }
      assert old(contents)[name := old(contents)[name]] == old(contents);
    }

    /** `dictSize(...) == 0`. */
    method Empty() returns (b: bool)
      requires Valid()
      ensures b <==> contents == map[]
    {
      hide D.Dict.Valid, D.Dict.Contents;
      ht.UsedCounts();
      b := ht.used == 0;
    }

    /** `dictRelease`. */
    method Release()
      requires Valid()
      modifies this, repr
      ensures Valid() && fresh(repr - old(repr)) && contents == map[]
    {
      hide D.Dict.Valid, D.Dict.Contents;
      var freed := ht.Clear();
      repr := repr + {ht.table};
      contents := map[];
    }

    /** The entries es have the keys ks, which go through the map. */
    ghost predicate Enumerated(es: seq<D.Entry<Callback>>, ks: seq<bytes>)
      requires Valid()
      reads this, repr
    {
      && Iterates(ks, contents) && |ks| == |es|
      && forall i :: 0 <= i < |es| ==> es[i] in repr && es[i].key == ks[i] && es[i].val == contents[ks[i]]
    }

    /** The order of the table is an order of the map. */
    lemma TableOrder() returns (ks: seq<bytes>)
      requires Valid()
      ensures Enumerated(D.Flat(ht.chains, 0), ks)
    {
      hide D.Dict.Valid, D.Flat;
      ht.TableOrder();
      var es: seq<D.Entry<Callback>> := D.Flat(ht.chains, 0);
      ks := seq(|es|, i requires 0 <= i < |es| => es[i].key);
      forall k | k in contents
        ensures k in ks
      {
        var i :| 0 <= i < |es| && es[i] == ht.entries[k];
        assert ks[i] == k;
      }
    }

    /** The iterator has just returned de, the entry of ks[n], or null at the end; those after it are still to come. */
    ghost predicate Reached(it: D.Iteration<Callback>, de: D.Entry?<Callback>, ks: seq<bytes>, n: nat)
      requires Valid()
      reads this, repr, it
    {
      var es := D.Flat(ht.chains, 0);
      && it.ht == ht && it.Valid() && Enumerated(es, ks)
      && if de == null then n == |es| && it.Todo() == [] else n < |es| && de == es[n] && it.Todo() == es[n + 1..]
    }

    /** `dictGetIterator`, and the first `dictNext`. */
    method First() returns (it: D.Iteration<Callback>, de: D.Entry?<Callback>, ghost ks: seq<bytes>)
      requires Valid()
      ensures fresh(it) && Iterates(ks, contents) && Reached(it, de, ks, 0)
    {
      hide D.Dict.Valid, D.Flat;
      ks := TableOrder();
      it := new D.Iteration(ht);
      de := it.Next();
    }

    /** The next `dictNext`. */
    method Next(it: D.Iteration<Callback>, ghost de: D.Entry<Callback>, ghost ks: seq<bytes>, ghost n: nat)
      returns (de': D.Entry?<Callback>)
      requires Valid() && it !in repr && Reached(it, de, ks, n)
      modifies it
      ensures Valid() && Reached(it, de', ks, n + 1)
    {
      hide D.Dict.Valid, D.Flat;
      de' := it.Next();
    }

    lemma EntryReached(it: D.Iteration<Callback>, de: D.Entry?<Callback>, ks: seq<bytes>, n: nat)
      requires Valid() && Reached(it, de, ks, n)
      ensures n <= |ks| && forall x :: x in ks ==> x in contents
      ensures if de == null then n == |ks| else n < |ks| && de.val == contents[ks[n]]
    {
      hide D.Dict.Valid, D.Flat;
    }
  }

  /** Both dictionaries and the flag REDIS_SUBSCRIBED; subs is what they stand for. */
  class Registrations {
    const channels: Registry
    const patterns: Registry
    var subscribed: bool
    ghost var repr: set<object>
    ghost var subs: Subs

    ghost predicate Apart()
      reads this, repr
    {
      && this in repr && channels in repr && patterns in repr && channels != patterns
      && channels.repr <= repr && patterns.repr <= repr && channels.repr !! patterns.repr
      && this !in channels.repr && this !in patterns.repr && channels !in patterns.repr && patterns !in channels.repr
    }

    ghost predicate Valid()
      reads this, repr
    {
      && Apart() && channels.Valid() && patterns.Valid()
      && subs == Subs(channels.contents, patterns.contents, subscribed)
    }

    constructor ()
      ensures Valid() && fresh(repr) && subs == NO_SUBS
    {
      hide Registry.Valid;
      channels := new Registry();
      patterns := new Registry();
      subscribed, subs := false, NO_SUBS;
      new;
      repr := {this, channels, patterns} + channels.repr + patterns.repr;
    }

    lemma Flag()
      requires Valid()
      ensures subs.subscribed == subscribed && this in repr
    {
      hide Registry.Valid;
    }

    /** The dictionary for patterns or for channels. */
    function Of(pvariant: bool): Registry {
      if pvariant then patterns else channels
    }

    lemma Unfolded()
      requires Valid()
      ensures this in repr
      ensures forall p :: Of(p).Valid() && Of(p) in repr && Of(p).repr <= repr && Of(p).contents == subs.Of(p)
    {
      hide Registry.Valid;
    }

    /** The subscribe branch of `__redisAsyncCommand`. */
    method Subscribe(pvariant: bool, mem: bytes, p: nat, ghost names: seq<bytes>, cb: Callback)
      requires Valid() && Ahead(mem, p, names) && Formatter.Sizes(names)
      modifies repr
      ensures Valid() && fresh(repr - old(repr))
      ensures subs == old(subs).With(pvariant, SubscribeAll(old(subs).Of(pvariant), names, cb)).(subscribed := true)
    {
      hide Registry.Valid, SubscribeAll, Ahead;
      subscribed := true;
      Of(pvariant).AddAll(mem, p, names, cb);
      repr := repr + channels.repr + patterns.repr;
      subs := Subs(channels.contents, patterns.contents, subscribed);
    }

    /** `dictRelease` on one of the dictionaries. */
    method Release(pvariant: bool)
      requires Valid()
      modifies repr
      ensures Valid() && fresh(repr - old(repr)) && subs == old(subs).With(pvariant, map[])
    {
      hide Registry.Valid;
      Of(pvariant).Release();
      repr := repr + channels.repr + patterns.repr;
      subs := Subs(channels.contents, patterns.contents, subscribed);
    }

    /** What a message of the server does to the entry of its name. */
    method TakeEntry(pvariant: bool, verb: bytes, sname: bytes) returns (found: Option<Callback>)
      requires Valid()
      modifies repr
      ensures Valid() && repr == old(repr)
      ensures sname !in old(subs).Of(pvariant) ==> found == None && subs == old(subs)
      ensures sname in old(subs).Of(pvariant) ==>
                && found == Some(Found(old(subs).Of(pvariant), verb, sname))
                && subs == old(subs).With(pvariant, Left(old(subs).Of(pvariant), verb, sname))
    {
      hide Registry.Valid, SameWord, Found, Left;
      found := Of(pvariant).Take(verb, sname);
      subs := Subs(channels.contents, patterns.contents, subscribed);
    }

    /** The flag is cleared when no entry is left. */
    method ClearFlag()
      requires Valid()
      modifies `subs, `subscribed
      ensures Valid()
      ensures subs == if old(subs).channels == map[] && old(subs).patterns == map[] then old(subs).(subscribed := false)
                      else old(subs)
    {
      hide Registry.Valid;
      var noChannels := channels.Empty();
      var noPatterns := patterns.Empty();
      if noChannels && noPatterns {
        subscribed := false;
      }
      subs := Subs(channels.contents, patterns.contents, subscribed);
    }

    /**
     `__redisGetSubscribeCallback` after the assertions on the first two elements of a message; total is the third.
     The result is the callback to run, the old one when the name has no entry, or None when the last assertion fails.
     */
    method TakeMessage(pvariant: bool, verb: bytes, sname: bytes, total: Option<Reply>, cb: Callback)
      returns (dstcb: Option<Callback>)
      requires Valid()
      modifies repr
      ensures Valid() && repr == old(repr)
      ensures match Lookup(old(subs), pvariant, verb, sname, total, cb)
              case Crashed => dstcb == None
              case Handled(subs', cb') => subs == subs' && dstcb == Some(cb')
    {
      hide Registrations.Valid, SameWord, Found, Left;
      var found := TakeEntry(pvariant, verb, sname);
      if found.None? {
        return Some(cb);
      }
      if SameWord(verb, UNSUBSCRIBE) {
        if total.None? || !total.value.Integer? {
          return None;
        }
        if total.value.value == 0 {
          Unfolded();
          ClearFlag();
        }
      }
      return found;
    }
  }
}
