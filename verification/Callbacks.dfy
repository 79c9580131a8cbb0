/** The callbacks of async.c and the linked lists they wait in. */
module Callbacks {
  /** `redisCallback`; fn says whether the function pointer is set. */
  datatype Callback = Callback(fn: bool, privdata: nat, pendingSubs: int)

  class Node {
    const cb: Callback
    var next: Node?

    constructor (cb: Callback)
      ensures this.cb == cb && next == null
    {
      this.cb, next := cb, null;
    }
  }

  function At(nodes: seq<Node>, i: nat): Node? {
    if i < |nodes| then nodes[i] else null
  }

  /** `redisCallbackList`; contents are the callbacks in it, the first to leave at index 0. */
  class CallbackList {
    var head: Node?
    var tail: Node?
    ghost var nodes: seq<Node>
    ghost var repr: set<object>
    ghost var contents: seq<Callback>

    ghost predicate Valid()
      reads this, repr
    {
      && this !in repr && (forall i :: 0 <= i < |nodes| ==> nodes[i] in repr)
      && (if nodes == [] then head == null && tail == null else head == nodes[0] && tail == nodes[|nodes| - 1])
      && (forall i :: 0 <= i < |nodes| ==> nodes[i].next == At(nodes, i + 1))
      && (forall i, j :: 0 <= i < j < |nodes| ==> nodes[i] != nodes[j])
      && |contents| == |nodes| && forall i :: 0 <= i < |nodes| ==> contents[i] == nodes[i].cb
    }

    constructor ()
      ensures Valid() && contents == [] && repr == {}
    {
      head, tail, nodes, contents, repr := null, null, [], [], {};
    }

    /** `__redisPushCallback` with a source: a copy goes to the end. */
    method Push(source: Callback)
      requires Valid()
      modifies this, repr
      ensures Valid() && contents == old(contents) + [source] && fresh(repr - old(repr))
    {
      var cb := new Node(source);
      if head == null {
        head := cb;
      }
      if tail != null {
        tail.next := cb;
      }
      tail := cb;
      nodes, contents, repr := nodes + [cb], contents + [source], repr + {cb};
    }

    /** `__redisShiftCallback`: the first one is taken off, unless the list is empty. */
    method Shift() returns (ok: bool, target: Callback)
      requires Valid()
      modifies this
      ensures Valid() && repr == old(repr) && ok == (old(contents) != [])
      ensures if ok then [target] + contents == old(contents) else contents == old(contents)
    {
      var cb := head;
      if cb != null {
        assert nodes[0].next == At(nodes, 1);
        head := cb.next;
        if cb == tail {
          tail := null;
        }
        target := cb.cb;
        ghost var ns := nodes;
        nodes, contents := ns[1..], contents[1..];
        assert forall i :: 0 <= i < |nodes| ==> nodes[i] == ns[i + 1] && ns[i + 1].next == At(nodes, i + 1);
        return true, target;
      }
      return false, Callback(false, 0, 0);
    }
  }
}
