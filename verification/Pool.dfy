/** The slot-keyed connection pool of ConnectionPool.h over the cluster nodes of MiddleWare.cpp. */
module Pool {
  import opened Bytes
  import Slot

  /** One line of CLUSTER SLOTS: the slots begin to end are served by this node. */
  datatype Node = Node(begin: nat, end: nat)

  predicate Serves(n: Node, slot: nat) {
    n.begin <= slot <= n.end
  }

  /** Every slot is served by exactly one node. */
  ghost predicate Partition(nodes: seq<Node>) {
    && (forall n :: n in nodes ==> n.begin <= n.end < Slot.SLOTS)
    && (forall slot: nat :: slot < Slot.SLOTS ==> Served(nodes, slot))
    && (forall m, n, slot: nat :: m in nodes && n in nodes && Serves(m, slot) && Serves(n, slot) ==> m == n)
  }

  ghost predicate Served(nodes: seq<Node>, slot: nat) {
    exists n :: n in nodes && Serves(n, slot)
  }

  /** The node that serves a slot. */
  ghost function Owner(nodes: seq<Node>, slot: nat): (n: Node)
    requires Partition(nodes) && slot < Slot.SLOTS
    ensures n in nodes && Serves(n, slot)
  {
    assert Served(nodes, slot);
    var n :| n in nodes && Serves(n, slot);
    n
  }

  /** Among the range ends, the least that is not below a slot is the end of its owner. */
  lemma LeastEndIsOwner(nodes: seq<Node>, ends: set<nat>, slot: nat, k: nat)
    requires Partition(nodes) && slot < Slot.SLOTS
    requires forall e :: e in ends ==> exists n :: n in nodes && n.end == e
    requires IsLowerBound(ends, slot, Some(k))
    ensures k == Owner(nodes, slot).end <==> Owner(nodes, slot).end in ends
  {
    var n := Owner(nodes, slot);
    if n.end in ends {
      var m :| m in nodes && m.end == k;
      assert Serves(m, k) && Serves(n, k);
    }
  }

  /** `std::map::lower_bound`: the least key not below `slot`. */
  ghost predicate IsLowerBound(keys: set<nat>, slot: nat, r: Option<nat>) {
    match r
    case None => forall k :: k in keys ==> k < slot
    case Some(k) => k in keys && slot <= k && forall j :: j in keys && slot <= j ==> k <= j
  }

  method LowerBound(keys: set<nat>, slot: nat) returns (r: Option<nat>)
    ensures IsLowerBound(keys, slot, r)
  {
    r := None;
    var rest := keys;
    while rest != {}
      invariant rest <= keys && IsLowerBound(keys - rest, slot, r)
      decreases rest
    {
      var k :| k in rest;
      if slot <= k && (r.None? || k < r.value) {
        r := Some(k);
      }
      assert keys - (rest - {k}) == (keys - rest) + {k};
      rest := rest - {k};
    }
    assert keys - rest == keys;
  }

  /**
   A connection with the range of its node. `deletable` says whether its owning pointer has a deleter: `create` gives
   one, `_get` leaves the `std::function` empty, and destroying such a connection ends the process.
   */
  class Connection {
    const lo: nat
    const hi: nat
    const deletable: bool
    var err: int

    constructor (n: Node, deletable: bool)
      ensures lo == n.begin && hi == n.end && err == 0 && this.deletable == deletable
    {
      lo, hi, err := n.begin, n.end, 0;
      this.deletable := deletable;
    }
  }

  predicate Reaches(c: Connection, slot: nat) {
    c.lo <= slot <= c.hi
  }

  // ----- The map of lists -----

  type Buckets = map<nat, seq<Connection>>

  /** The list at k holds different idle connections, all of whose ranges end at k. */
  ghost predicate Bucket(k: nat, list: seq<Connection>, idle: set<Connection>) {
    && (forall i :: 0 <= i < |list| ==> list[i] in idle && list[i].hi == k)
    && (forall i, j :: 0 <= i < j < |list| ==> list[i] != list[j])
  }

  /** The lists hold exactly the idle connections, each once. */
  ghost predicate Holds(pool: Buckets, idle: set<Connection>) {
    && (forall k :: k in pool ==> Bucket(k, pool[k], idle))
    && (forall c :: c in idle ==> c.hi in pool && c in pool[c.hi])
  }

  function ListAt(pool: Buckets, k: nat): seq<Connection> {
    if k in pool then pool[k] else []
  }

  lemma PushKeeps(pool: Buckets, idle: set<Connection>, c: Connection)
    requires Holds(pool, idle) && c !in idle
    ensures Holds(pool[c.hi := [c] + ListAt(pool, c.hi)], idle + {c})
  {
    var k, list := c.hi, ListAt(pool, c.hi);
    var pool', idle' := pool[k := [c] + list], idle + {c};
    assert Bucket(k, list, idle);
    assert Bucket(k, [c] + list, idle');
    forall j | j in pool'
      ensures Bucket(j, pool'[j], idle')
    {
      if j != k { assert Bucket(j, pool[j], idle); }
    }
    forall d | d in idle'
      ensures d.hi in pool' && d in pool'[d.hi]
    {
      if d == c { assert pool'[k][0] == c; }
    }
  }

  lemma PopKeeps(pool: Buckets, idle: set<Connection>, k: nat)
    requires Holds(pool, idle) && k in pool && pool[k] != []
    ensures pool[k][0] in idle && Holds(pool[k := pool[k][1..]], idle - {pool[k][0]})
  {
    var c, rest := pool[k][0], pool[k][1..];
    var pool', idle' := pool[k := rest], idle - {c};
    assert Bucket(k, pool[k], idle);
    assert c.hi == k && forall i :: 0 <= i < |rest| ==> rest[i] == pool[k][i + 1];
    assert Bucket(k, rest, idle');
    forall j | j in pool'
      ensures Bucket(j, pool'[j], idle')
    {
      if j != k {
        assert Bucket(j, pool[j], idle);
        assert c !in pool[j];
      }
    }
    forall d | d in idle'
      ensures d.hi in pool' && d in pool'[d.hi]
    {
      if d.hi == k { assert pool[k] == [c] + rest; }
    }
  }

  ghost predicate IsEnd(nodes: seq<Node>, k: nat) {
    exists n :: n in nodes && n.end == k
  }

  /** Every key of the map is a range end. */
  ghost predicate EndKeys(pool: Buckets, nodes: seq<Node>) {
    forall k :: k in pool ==> IsEnd(nodes, k)
  }

  lemma EndKeysMore(pool: Buckets, nodes: seq<Node>, c: Connection, list: seq<Connection>)
    requires EndKeys(pool, nodes) && Node(c.lo, c.hi) in nodes
    ensures EndKeys(pool[c.hi := list], nodes)
  {
  }

  lemma EndKeysSame(pool: Buckets, nodes: seq<Node>, k: nat, list: seq<Connection>)
    requires EndKeys(pool, nodes) && k in pool
    ensures EndKeys(pool[k := list], nodes)
  {
  }

  /** Every connection carries the range of a node. */
  ghost predicate Ranged(cs: set<Connection>, nodes: seq<Node>) {
    forall c :: c in cs ==> Node(c.lo, c.hi) in nodes
  }

  lemma RangedMore(cs: set<Connection>, nodes: seq<Node>, c: Connection)
    requires Ranged(cs, nodes)
    ensures Ranged(cs - {c}, nodes) && (c in cs ==> Node(c.lo, c.hi) in nodes)
    ensures Node(c.lo, c.hi) in nodes ==> Ranged(cs + {c}, nodes)
  {
  }

  /** The idle, the lent and the destroyed connections are different ones, and together they are all that were made. */
  ghost predicate Accounts(idle: set<Connection>, lent: set<Connection>, dropped: set<Connection>, created: nat) {
    idle !! lent !! dropped && created == |idle| + |lent| + |dropped|
  }

  lemma MadeIdle(idle: set<Connection>, lent: set<Connection>, dropped: set<Connection>, created: nat, c: Connection)
    requires Accounts(idle, lent, dropped, created) && c !in idle && c !in lent && c !in dropped
    ensures Accounts(idle + {c}, lent, dropped, created + 1)
  {
  }

  lemma MadeLent(idle: set<Connection>, lent: set<Connection>, dropped: set<Connection>, created: nat, c: Connection)
    requires Accounts(idle, lent, dropped, created) && c !in idle && c !in lent && c !in dropped
    ensures Accounts(idle, lent + {c}, dropped, created + 1)
  {
  }

  lemma Lent(idle: set<Connection>, lent: set<Connection>, dropped: set<Connection>, created: nat, c: Connection)
    requires Accounts(idle, lent, dropped, created) && c in idle
    ensures c !in lent && c !in dropped && Accounts(idle - {c}, lent + {c}, dropped, created)
  {
  }

  lemma PutBack(idle: set<Connection>, lent: set<Connection>, dropped: set<Connection>, created: nat, c: Connection)
    requires Accounts(idle, lent, dropped, created) && c in lent
    ensures c !in idle && Accounts(idle + {c}, lent - {c}, dropped, created)
  {
  }

  lemma Deleted(idle: set<Connection>, lent: set<Connection>, dropped: set<Connection>, created: nat, c: Connection)
    requires Accounts(idle, lent, dropped, created) && c in lent
    ensures Accounts(idle, lent - {c}, dropped + {c}, created)
  {
  }

  lemma Destroyed(idle: set<Connection>, lent: set<Connection>, dropped: set<Connection>, created: nat)
    requires Accounts(idle, lent, dropped, created)
    ensures Accounts({}, lent, dropped + idle, created)
  {
    assert |dropped + idle| == |dropped| + |idle|;
  }

  /** The list of key k is the one `lower_bound` finds for the slot, and it is not empty. */
  ghost predicate ListFor(pool: Buckets, slot: nat, k: nat) {
    IsLowerBound(pool.Keys, slot, Some(k)) && k in pool && pool[k] != []
  }

  class ConnectionPool {
    const nodes: seq<Node>
    var pool: Buckets
    ghost var idle: set<Connection>     // in one of the lists
    ghost var lent: set<Connection>     // with a holder
    ghost var dropped: set<Connection>  // destroyed
    ghost var created: nat              // how many were ever made

    ghost predicate Valid()
      reads this
    {
      Routed() && Accounts(idle, lent, dropped, created)
    }

    /** Every connection is in the list of its range end, and every range is one of a node. */
    ghost predicate Routed()
      reads this
    {
      && Partition(nodes) && Holds(pool, idle)
      && EndKeys(pool, nodes) && Ranged(idle, nodes) && Ranged(lent, nodes)
    }

    /** Every range end has a bucket. */
    ghost predicate Ready()
      reads this
    {
      forall n :: n in nodes ==> n.end in pool
    }

    constructor (nodes: seq<Node>)
      requires Partition(nodes)
      ensures Valid() && this.nodes == nodes && created == 0 && pool == map[]
    {
      this.nodes := nodes;
      pool, idle, lent, dropped, created := map[], {}, {}, {}, 0;
    }

    /** `pool_[end].push_front(conn)`, which makes the list if there is none. */
    method PushFront(c: Connection)
      requires Routed() && c !in idle && Node(c.lo, c.hi) in nodes
      modifies `pool, `idle
      ensures Routed() && idle == old(idle) + {c} && pool == old(pool)[c.hi := [c] + ListAt(old(pool), c.hi)]
    {
      hide Partition, Holds, Ranged, EndKeys;
      PushKeeps(pool, idle, c);
      RangedMore(idle, nodes, c);
      EndKeysMore(pool, nodes, c, [c] + ListAt(pool, c.hi));
      pool := pool[c.hi := [c] + ListAt(pool, c.hi)];
      idle := idle + {c};
    }

    /** A new connection to node i goes into its list. */
    method Connect(i: nat) returns (ghost c: Connection)
      requires Valid() && i < |nodes|
      modifies `pool, `idle, `created
      ensures Valid() && created == old(created) + 1
      ensures fresh(c) && c.deletable && idle == old(idle) + {c} && pool.Keys == old(pool).Keys + {nodes[i].end}
    {
      hide Partition, Holds, Accounts, Ranged, EndKeys;
      var conn := new Connection(nodes[i], true);
      c := conn;
      MadeIdle(idle, lent, dropped, created, c);
      created := created + 1;
      PushFront(conn);
    }

    /**
     `CClusterSupport::create` and `create`: num attempts a node; connects(i, x) says whether attempt x on
     node i succeeds. Exactly the nodes reached at least once have a bucket afterwards.
     */
    method Create(num: nat, connects: (nat, nat) -> bool) returns (ok: bool)
      requires Valid()
      modifies this
      ensures Valid() && lent == old(lent) && dropped == old(dropped) && old(idle) <= idle && fresh(idle - old(idle))
      ensures forall c :: c in idle - old(idle) ==> c.deletable
      ensures forall k :: k in pool <==> k in old(pool) || ReachedEnd(k, |nodes|, num, connects)
      ensures ok <==> idle != old(idle)
      ensures ok <==> exists k: nat :: ReachedEnd(k, |nodes|, num, connects)
    {
      hide Partition, Holds, Accounts, ConnectionPool.Routed;
      ok := false;
      for i := 0 to |nodes|
        invariant Valid() && lent == old(lent) && dropped == old(dropped) && old(idle) <= idle
        invariant fresh(idle - old(idle))
        invariant forall c :: c in idle - old(idle) ==> c.deletable
        invariant forall k :: k in pool <==> k in old(pool) || ReachedEnd(k, i, num, connects)
        invariant ok <==> idle != old(idle)
        invariant ok <==> exists k: nat :: ReachedEnd(k, i, num, connects)
      {
        ghost var keys, was := pool.Keys, ok;
        for x := 0 to num
          invariant Valid() && lent == old(lent) && dropped == old(dropped) && old(idle) <= idle
          invariant fresh(idle - old(idle))
          invariant forall c :: c in idle - old(idle) ==> c.deletable
          invariant pool.Keys == keys + if Reached(i, x, connects) then {nodes[i].end} else {}
          invariant ok <==> idle != old(idle)
          invariant ok <==> was || Reached(i, x, connects)
        {
          if connects(i, x) {
            ghost var c := Connect(i);
            assert c in idle && c !in old(idle);
            ok := true;
          }
        }
        ghost var m := i + 1;
        forall k
          ensures ReachedEnd(k, m, num, connects)
              <==> ReachedEnd(k, i, num, connects) || (k == nodes[i].end && Reached(i, num, connects))
        {
        }
        assert Reached(i, num, connects) ==> ReachedEnd(nodes[i].end, m, num, connects);
        if k: nat :| ReachedEnd(k, m, num, connects) {
          assert ReachedEnd(k, i, num, connects) || Reached(i, num, connects);
        }
      }
    }

    /** One of the first n attempts on node i succeeds. */
    ghost predicate Reached(i: nat, n: nat, connects: (nat, nat) -> bool) {
      exists x: nat :: x < n && connects(i, x)
    }

    /** k is the range end of a node among the first i that has been reached. */
    ghost predicate ReachedEnd(k: nat, i: nat, num: nat, connects: (nat, nat) -> bool)
      requires i <= |nodes|
    {
      exists j: nat :: j < i && nodes[j].end == k && Reached(j, num, connects)
    }

    /**
     `CClusterSupport::getConnection`: a new connection to the node whose range holds the slot; `dials` says
     whether connecting succeeds. There is none for a slot out of range.
     */
    method GetConnection(slot: nat, dials: bool) returns (c: Connection?)
      requires Valid()
      ensures c != null <==> dials && slot < Slot.SLOTS
      ensures c != null ==> fresh(c) && c.err == 0 && !c.deletable && Reaches(c, slot) && Node(c.lo, c.hi) in nodes
    {
      hide Holds, Accounts, Ranged;
      for i := 0 to |nodes|
        invariant forall j :: 0 <= j < i ==> !Serves(nodes[j], slot)
      {
        if nodes[i].begin <= slot <= nodes[i].end {
          assert Serves(nodes[i], slot);
          if !dials {
            return null;
          }
          c := new Connection(nodes[i], false);
          return c;
        }
      }
      SomeServes(slot);
      return null;
    }

    lemma SomeServes(slot: nat)
      requires Partition(nodes)
      ensures slot < Slot.SLOTS ==> exists j :: 0 <= j < |nodes| && Serves(nodes[j], slot)
    {
      if slot < Slot.SLOTS {
        var n := Owner(nodes, slot);
        var j :| 0 <= j < |nodes| && nodes[j] == n;
        assert Serves(nodes[j], slot);
      }
    }

    /** The list a slot is looked up in: the one `lower_bound` finds. */
    ghost predicate FromList(slot: nat, k: nat)
      reads this
    {
      ListFor(pool, slot, k)
    }

    /**
     `_get`: a connection from the list found, or a new one. What it hands out is held by nobody else.
     Its range contains the slot exactly when the owner's range end has a bucket, or no bucket
     with an idle connection stands in for it.
     */
    method Get(slot: nat, dials: bool) returns (c: Connection?)
      requires Valid()
      modifies `pool, `idle, `lent, `created
      ensures Valid() && dropped == old(dropped) && created >= old(created) && pool.Keys == old(pool.Keys)
      ensures c == null ==> idle == old(idle) && lent == old(lent) && pool == old(pool)
      ensures c != null ==>
                && lent == old(lent) + {c} && c !in old(lent) && c !in old(dropped)
                && (old(c in idle) || (fresh(c) && !c.deletable && c.err == 0)) && idle == old(idle) - {c}
      ensures c != null && slot < Slot.SLOTS ==>
                (Reaches(c, slot) <==> Owner(nodes, slot).end in pool || !exists k: nat :: old(FromList(slot, k)))
      ensures forall k: nat {:trigger old(FromList(slot, k))} ::
                old(FromList(slot, k)) ==> c == old(pool)[k][0] && pool == old(pool)[k := old(pool)[k][1..]]
      ensures slot >= Slot.SLOTS ==> c == null
      ensures c == null ==> !exists k: nat :: old(FromList(slot, k))
      ensures slot < Slot.SLOTS && dials ==> c != null
      ensures (!exists k: nat :: old(FromList(slot, k))) ==>
                pool == old(pool) && (c != null ==> dials && fresh(c) && !c.deletable)
    {
      hide Partition, Holds, Accounts, ConnectionPool.Routed, Owner;
      var k := LowerBound(pool.Keys, slot);
      Bounds(slot);
      if k.None? || pool[k.value] == [] {
        OnlyBound(pool.Keys, slot, k);
        c := MakeNew(slot, dials);
      } else {
        Routing(slot, k.value);
        c := TakeFirst(k.value);
      }
    }

    /** No idle connection: a new one is lent at once. */
    method MakeNew(slot: nat, dials: bool) returns (c: Connection?)
      requires Valid()
      modifies `lent, `created
      ensures Valid() && created >= old(created)
      ensures c != null <==> dials && slot < Slot.SLOTS
      ensures if c == null then lent == old(lent)
              else lent == old(lent) + {c} && fresh(c) && !c.deletable && c.err == 0 && Reaches(c, slot)
    {
      hide Partition, Holds, Accounts, Ranged, EndKeys;
      c := GetConnection(slot, dials);
      if c != null {
        MadeLent(idle, lent, dropped, created, c);
        RangedMore(lent, nodes, c);
        lent, created := lent + {c}, created + 1;
      }
    }

    /** The first connection of a list is lent. */
    method TakeFirst(k: nat) returns (c: Connection)
      requires Valid() && k in pool && pool[k] != []
      modifies `pool, `idle, `lent
      ensures Valid() && c == old(pool)[k][0] && c in old(idle) && c !in old(lent) && c !in dropped
      ensures idle == old(idle) - {c} && lent == old(lent) + {c} && pool == old(pool)[k := old(pool)[k][1..]]
    {
      hide Partition, Holds, Accounts, Ranged, EndKeys;
      PopKeeps(pool, idle, k);
      c := pool[k][0];
      Lent(idle, lent, dropped, created, c);
      RangedMore(idle, nodes, c);
      RangedMore(lent, nodes, c);
      EndKeysSame(pool, nodes, k, pool[k][1..]);
      pool := pool[k := pool[k][1..]];
      idle, lent := idle - {c}, lent + {c};
    }

    lemma OnlyBound(keys: set<nat>, slot: nat, k: Option<nat>)
      requires IsLowerBound(keys, slot, k)
      ensures forall j: nat {:trigger IsLowerBound(keys, slot, Some(j))} ::
                IsLowerBound(keys, slot, Some(j)) ==> k == Some(j)
    {
    }

    /** No range reaches past the last slot. */
    lemma Bounds(slot: nat)
      requires Valid()
      ensures forall k :: k in pool ==> k < Slot.SLOTS
    {
      hide Holds;
      forall k | k in pool
        ensures k < Slot.SLOTS
      {
        assert IsEnd(nodes, k);
      }
    }

    lemma Routing(slot: nat, k: nat)
      requires Valid() && slot < Slot.SLOTS && IsLowerBound(pool.Keys, slot, Some(k)) && pool[k] != []
      ensures Reaches(pool[k][0], slot) <==> Owner(nodes, slot).end in pool
      ensures FromList(slot, k)
    {
      var c := pool[k][0];
      assert Bucket(k, pool[k], idle);
      assert c in idle && c.hi == k;
      var m, n := Node(c.lo, c.hi), Owner(nodes, slot);
      forall e | e in pool.Keys
        ensures exists n :: n in nodes && n.end == e
      {
        assert IsEnd(nodes, e);
      }
      LeastEndIsOwner(nodes, pool.Keys, slot, k);
      if Reaches(c, slot) {
        assert Serves(m, slot) && Serves(n, slot);
      }
      if n.end == k {
        assert Serves(m, k) && Serves(n, k);
      }
    }

    /** Once every range end has a bucket, every connection handed out reaches the slot asked for. */
    method GetReady(slot: nat, dials: bool) returns (c: Connection?)
      requires Valid() && Ready()
      modifies `pool, `idle, `lent, `created
      ensures Valid() && Ready() && dropped == old(dropped)
      ensures c != null ==> Reaches(c, slot) && lent == old(lent) + {c} && c !in old(lent)
      ensures if c == null then idle == old(idle) && lent == old(lent)
              else idle == old(idle) - {c} && (c in old(idle) || fresh(c))
      ensures forall k: nat {:trigger old(FromList(slot, k))} ::
                old(FromList(slot, k)) ==> c == old(pool)[k][0] && pool == old(pool)[k := old(pool)[k][1..]]
      ensures (!exists k: nat :: old(FromList(slot, k))) ==>
                && pool == old(pool) && (c != null <==> dials && slot < Slot.SLOTS)
                && (c != null ==> fresh(c) && !c.deletable)
      ensures slot < Slot.SLOTS && dials ==> c != null
    {
      hide ConnectionPool.Valid, ConnectionPool.FromList, Owner;
      c := Get(slot, dials);
    }

    /**
     The destructor of a handle: a connection without an error goes back, any other is destroyed. The process
     survives that exactly when the connection has no error or `create` has made it.
     */
    method HandBack(c: Connection) returns (survived: bool)
      requires Valid() && c in lent
      modifies `pool, `idle, `lent, `dropped
      ensures survived <==> c.err == 0 || c.deletable
      ensures survived ==> Valid() && lent == old(lent) - {c}
      ensures survived && c.err == 0 ==>
                && idle == old(idle) + {c} && dropped == old(dropped)
                && pool == old(pool)[c.hi := [c] + ListAt(old(pool), c.hi)]
      ensures survived && c.err != 0 ==> idle == old(idle) && dropped == old(dropped) + {c} && pool == old(pool)
    {
      hide Partition, Holds, Accounts, Ranged, EndKeys;
      if c.err != 0 && !c.deletable {
        return false;
      }
      RangedMore(lent, nodes, c);
      if c.err == 0 {
        PutBack(idle, lent, dropped, created, c);
        lent := lent - {c};
        PushFront(c);
      } else {
        Deleted(idle, lent, dropped, created, c);
        lent, dropped := lent - {c}, dropped + {c};
      }
      return true;
    }

    /**
     `clear`: every list is emptied, every bucket stays. The process survives exactly when `create` has made
     every idle connection.
     */
    method Clear() returns (survived: bool)
      requires Valid()
      modifies `pool, `idle, `dropped
      ensures survived <==> forall c :: c in old(idle) ==> c.deletable
      ensures survived ==> Valid() && idle == {} && lent == old(lent) && dropped == old(dropped) + old(idle)
      ensures survived ==> pool.Keys == old(pool).Keys && forall k :: k in pool ==> pool[k] == []
    {
      hide Partition, Accounts, Holds, Ranged, EndKeys;
      survived := forall k | k in pool :: forall i | 0 <= i < |pool[k]| :: pool[k][i].deletable;
      IdleInLists(pool, idle);
      if !survived {
        return;
      }
      Destroyed(idle, lent, dropped, created);
      Emptied(pool, nodes);
      pool := map k | k in pool :: [];
      dropped := dropped + idle;
      idle := {};
    }

    /** The destructor of the pool destroys its lists as `clear` does. */
    method Destroy() returns (survived: bool)
      requires Valid()
      modifies `pool, `idle, `dropped
      ensures survived <==> forall c :: c in old(idle) ==> c.deletable
    {
      survived := Clear();
      pool := map[];
    }
  }

  lemma Emptied(pool: Buckets, nodes: seq<Node>)
    requires EndKeys(pool, nodes)
    ensures var none: Buckets := map k | k in pool :: []; Holds(none, {}) && EndKeys(none, nodes)
    ensures Ranged({}, nodes)
  {
  }

  lemma IdleInLists(pool: Buckets, idle: set<Connection>)
    requires Holds(pool, idle)
    ensures (forall c :: c in idle ==> c.deletable) <==> forall k :: k in pool ==>
              forall i :: 0 <= i < |pool[k]| ==> pool[k][i].deletable
  {
    forall k, i | k in pool && 0 <= i < |pool[k]|
      ensures pool[k][i] in idle
    {
      assert Bucket(k, pool[k], idle);
    }
    forall c | c in idle
      ensures c.hi in pool && c in pool[c.hi]
    {
    }
  }

  /**
   What the program does with a pool: get a connection (dials tells whether a new one could be made), let go of one
   it holds (err tells how its use ended), clear.
   */
  datatype Use = Acquire(slot: nat, dials: bool) | LetGo(holder: nat, err: int) | Purge

  /** The lists of the pool, and the connections held. */
  datatype Stock = Stock(pool: Buckets, holders: seq<Connection>)

  /** What came of it: from is the key of the list that a connection was taken from, gone are the lists cleared. */
  datatype Effect =
    | Got(slot: nat, found: Connection?, from: Option<nat>)
    | Released(conn: Connection, err: int)
    | NotHeld
    | Cleared(gone: Buckets)

  /** The connection is in no list and nobody holds it. */
  ghost predicate New(st: Stock, c: Connection) {
    c !in st.holders && forall k :: k in st.pool ==> c !in st.pool[k]
  }

  /**
   What a use has to come to: the first connection of the list found for the slot or, when there is none, a new one,
   which reaches the slot; the connection of the holder; all the lists.
   */
  ghost predicate Exact(st: Stock, u: Use, e: Effect) {
    match u
    case Acquire(slot, dials) =>
      && e.Got? && e.slot == slot && (e.found != null ==> Reaches(e.found, slot))
      && (match e.from
          case Some(k) => ListFor(st.pool, slot, k) && e.found == st.pool[k][0]
          case None =>
            && (forall k: nat :: !ListFor(st.pool, slot, k)) && (e.found != null <==> dials && slot < Slot.SLOTS)
            && (e.found != null ==> !e.found.deletable && New(st, e.found)))
    case LetGo(i, err) => e == if i < |st.holders| then Released(st.holders[i], err) else NotHeld
    case Purge => e == Cleared(st.pool)
  }

  /** The stock after a use that came to this effect. */
  ghost function After(st: Stock, u: Use, e: Effect): Stock
    requires Exact(st, u, e)
  {
    match e
    case Got(_, found, from) =>
      if found == null then st
      else Stock(if from.Some? then st.pool[from.value := st.pool[from.value][1..]] else st.pool, st.holders + [found])
    case Released(c, err) =>
      Stock(if err == 0 then st.pool[c.hi := [c] + ListAt(st.pool, c.hi)] else st.pool,
            st.holders[..u.holder] + st.holders[u.holder + 1..])
    case NotHeld => st
    case Cleared(_) => st.(pool := map k | k in st.pool :: [])
  }

  /** The uses came to these effects, one after the other, from one stock to another. */
  ghost predicate CameTo(st: Stock, uses: seq<Use>, effects: seq<Effect>, st': Stock)
    decreases effects
  {
    if effects == [] then st == st'
    else
      && uses != [] && Exact(st, uses[0], effects[0])
      && CameTo(After(st, uses[0], effects[0]), uses[1..], effects[1..], st')
  }

  lemma {:induction false} CameToMore(st: Stock, uses: seq<Use>, effects: seq<Effect>, st': Stock, u: Use, e: Effect)
    requires |effects| < |uses| && uses[|effects|] == u && CameTo(st, uses, effects, st') && Exact(st', u, e)
    ensures CameTo(st, uses, effects + [e], After(st', u, e))
    decreases effects
  {
    hide Exact, After;
    if effects == [] {
      assert ([] + [e])[1..] == [];
    } else {
      CameToMore(After(st, uses[0], effects[0]), uses[1..], effects[1..], st', u, e);
      assert (effects + [e])[1..] == effects[1..] + [e];
    }
  }

  /** Destroys a connection that `_get` has made. */
  ghost predicate Fatal(e: Effect) {
    match e
    case Released(c, err) => err != 0 && !c.deletable
    case Cleared(gone) => exists k, i :: k in gone && 0 <= i < |gone[k]| && !gone[k][i].deletable
    case _ => false
  }

  /** Different holders hold different connections, and nobody else holds a lent one. */
  ghost predicate Held(holders: seq<Connection>, lent: set<Connection>) {
    && (forall i, j :: 0 <= i < j < |holders| ==> holders[i] != holders[j])
    && (forall c :: c in holders ==> c in lent) && (forall c :: c in lent ==> c in holders)
  }

  lemma HeldMore(holders: seq<Connection>, lent: set<Connection>, c: Connection)
    requires Held(holders, lent) && c !in lent
    ensures Held(holders + [c], lent + {c})
  {
  }

  lemma HeldLess(holders: seq<Connection>, lent: set<Connection>, i: nat)
    requires Held(holders, lent) && i < |holders|
    ensures Held(holders[..i] + holders[i + 1..], lent - {holders[i]})
  {
    var less := holders[..i] + holders[i + 1..];
    forall c
      ensures c in less <==> c in lent - {holders[i]}
    {
      if c in lent && c != holders[i] {
        var j :| 0 <= j < |holders| && holders[j] == c;
        assert less[if j < i then j else j - 1] == c;
      }
    }
  }

  /**
   Every use of a pool in which `create` reached all nodes, whatever is acquired, let go of and cleared: every use comes
   to what it should, so that every connection handed out reaches its slot; the process survives exactly when no use
   destroys a connection that `_get` has made; and as long as it does, the lists and the holders are as the effects
   say, no connection has two holders and the counts agree.
   */
  method Serve(p: ConnectionPool, uses: seq<Use>)
    returns (survived: bool, holders: seq<Connection>, ghost effects: seq<Effect>, ghost st: Stock)
    requires p.Valid() && p.Ready() && p.lent == {}
    modifies p, p.idle`err
    ensures |effects| <= |uses| && (survived ==> |effects| == |uses|) && (!survived ==> effects != [])
    ensures var done := if survived then effects else effects[..|effects| - 1];
            CameTo(Stock(old(p.pool), []), uses, done, st) && forall e :: e in done ==> !Fatal(e)
    ensures !survived ==> Exact(st, uses[|effects| - 1], effects[|effects| - 1]) && Fatal(effects[|effects| - 1])
    ensures survived ==> st == Stock(p.pool, holders)
    ensures survived ==> p.Valid() && p.Ready() && Held(holders, p.lent)
    ensures survived ==> p.created == |p.idle| + |holders| + |p.dropped|
  {
    hide Held, ConnectionPool.Routed, Accounts, Exact, After, CameTo, Fatal;
    holders, effects, st := [], [], Stock(p.pool, []);
    assert Held([], {}) by { Nobody(); }
    NoUse(st, uses);
    for n := 0 to |uses|
      invariant p.Valid() && p.Ready() && Held(holders, p.lent)
      invariant forall c :: c in p.idle + p.lent ==> c in old(p.idle) || fresh(c)
      invariant |effects| == n && CameTo(Stock(old(p.pool), []), uses, effects, st) && st == Stock(p.pool, holders)
      invariant forall e :: e in effects ==> !Fatal(e)
    {
      ghost var effect;
      survived, holders, effect := Apply(p, holders, uses[n]);
      assert (effects + [effect])[..n] == effects;
      if !survived {
        effects := effects + [effect];
        return;
      }
      CameToMore(Stock(old(p.pool), []), uses, effects, st, uses[n], effect);
      effects, st := effects + [effect], After(st, uses[n], effect);
    }
    Counted(p, holders);
    survived := true;
  }

  lemma NoUse(st: Stock, uses: seq<Use>)
    ensures CameTo(st, uses, [], st)
  {
  }

  /** One use. */
  method Apply(p: ConnectionPool, holders: seq<Connection>, u: Use)
    returns (survived: bool, holders': seq<Connection>, ghost effect: Effect)
    requires p.Valid() && p.Ready() && Held(holders, p.lent)
    modifies p, p.lent`err
    ensures Exact(Stock(old(p.pool), holders), u, effect) && (survived <==> !Fatal(effect))
    ensures survived ==> Stock(p.pool, holders') == After(Stock(old(p.pool), holders), u, effect)
    ensures survived ==> p.Valid() && p.Ready() && Held(holders', p.lent)
    ensures survived ==> forall c :: c in p.idle + p.lent ==> c in old(p.idle) || c in old(p.lent) || fresh(c)
  {
    hide Held, ConnectionPool.Routed, Accounts;
    survived, holders', effect := true, holders, NotHeld;
    match u {
      case Acquire(slot, dials) =>
        holders', effect := Obtain(p, holders, slot, dials);
      case LetGo(i, err) =>
        if i < |holders| {
          survived, holders' := Release(p, holders, i, err);
          effect := Released(holders[i], err);
        }
      case Purge =>
        effect := Cleared(p.pool);
        PoolLists(p);
        survived := p.Clear();
    }
  }

  /** A connection is got from the pool. */
  method Obtain(p: ConnectionPool, holders: seq<Connection>, slot: nat, dials: bool)
    returns (holders': seq<Connection>, ghost effect: Effect)
    requires p.Valid() && p.Ready() && Held(holders, p.lent)
    modifies p
    ensures Exact(Stock(old(p.pool), holders), Acquire(slot, dials), effect)
    ensures Stock(p.pool, holders') == After(Stock(old(p.pool), holders), Acquire(slot, dials), effect)
    ensures p.Valid() && p.Ready() && Held(holders', p.lent)
    ensures forall c :: c in p.idle + p.lent ==> c in old(p.idle) || c in old(p.lent) || fresh(c)
  {
    hide Held, ConnectionPool.Routed, Accounts, ListFor;
    ghost var from: Option<nat> := None;
    if k: nat :| p.FromList(slot, k) {
      from := Some(k);
    }
    assert forall k: nat :: p.FromList(slot, k) <==> ListFor(p.pool, slot, k);
    ghost var st := Stock(p.pool, holders);
    holders' := holders;
    var c := p.GetReady(slot, dials);
    effect := Got(slot, c, from);
    if from.None? {
      assert forall k: nat :: !ListFor(st.pool, slot, k);
      assert c != null ==> New(st, c);
    } else {
      Listed(st.pool, slot, from.value);
    }
    if c != null {
      HeldMore(holders, p.lent - {c}, c);
      assert p.lent - {c} + {c} == p.lent;
      holders' := holders + [c];
    }
  }

  lemma Listed(pool: Buckets, slot: nat, k: nat)
    requires ListFor(pool, slot, k)
    ensures k in pool && pool[k] != []
  {
  }

  /** A holder lets go of its connection; err tells how the use ended. */
  method Release(p: ConnectionPool, holders: seq<Connection>, i: nat, err: int)
    returns (survived: bool, holders': seq<Connection>)
    requires p.Valid() && p.Ready() && Held(holders, p.lent) && i < |holders|
    modifies p, p.lent`err
    ensures survived <==> err == 0 || holders[i].deletable
    ensures holders' == holders[..i] + holders[i + 1..]
    ensures survived ==>
              p.pool == if err == 0 then old(p.pool)[holders[i].hi := [holders[i]] + ListAt(old(p.pool), holders[i].hi)]
                        else old(p.pool)
    ensures survived ==> p.Valid() && p.Ready() && Held(holders', p.lent)
    ensures survived ==> forall c :: c in p.idle + p.lent ==> c in old(p.idle) || c in old(p.lent)
  {
    hide Held, ConnectionPool.Routed, Accounts;
    var c := holders[i];
    HolderIsLent(holders, p.lent, i);
    HeldLess(holders, p.lent, i);
    c.err := err;
    holders' := holders[..i] + holders[i + 1..];
    survived := p.HandBack(c);
  }

  /** The idle connections are those in the lists. */
  lemma PoolLists(p: ConnectionPool)
    requires p.Valid()
    ensures (forall c :: c in p.idle ==> c.deletable) <==> !Fatal(Cleared(p.pool))
  {
    hide Partition, Accounts, EndKeys, Ranged, Holds;
    IdleInLists(p.pool, p.idle);
  }

  lemma Nobody()
    ensures Held([], {})
  {
  }

  lemma HolderIsLent(holders: seq<Connection>, lent: set<Connection>, i: nat)
    requires Held(holders, lent) && i < |holders|
    ensures holders[i] in lent
  {
  }

  lemma Counted(p: ConnectionPool, holders: seq<Connection>)
    requires p.Valid() && Held(holders, p.lent)
    ensures p.created == |p.idle| + |holders| + |p.dropped|
  {
    hide ConnectionPool.Routed;
    HeldSize(holders, p.lent);
  }

  lemma {:induction false} HeldSize(holders: seq<Connection>, lent: set<Connection>)
    requires Held(holders, lent)
    ensures |holders| == |lent|
  {
    if holders == [] {
      assert lent == {};
    } else {
      HeldLess(holders, lent, 0);
      assert holders[..0] + holders[1..] == holders[1..];
      HeldSize(holders[1..], lent - {holders[0]});
    }
  }

  /** Two nodes, the first never reached: slot 5 is then looked up in the list of the second. */
  method Misrouted() returns (c: Connection?)
    ensures c != null && !Reaches(c, 5)
  {
    hide Partition, Holds, Accounts, Ranged, EndKeys;
    var nodes := [Node(0, 8191), Node(8192, 16383)];
    TwoNodes(nodes);
    var p := new ConnectionPool(nodes);
    var connects: (nat, nat) -> bool := (i: nat, x: nat) => i == 1;
    var ok := p.Create(1, connects);
    assert connects(1, 0);
    assert p.Reached(1, 1, connects) && p.nodes[1].end == 16383;
    assert p.ReachedEnd(16383, 2, 1, connects);
    ghost var d :| d in p.idle;
    InItsList(p.pool, p.idle, d);
    assert p.ReachedEnd(d.hi, 2, 1, connects);
    assert p.FromList(5, 16383);
    c := p.Get(5, false);
  }

  lemma InItsList(pool: Buckets, idle: set<Connection>, c: Connection)
    requires Holds(pool, idle) && c in idle
    ensures c.hi in pool && pool[c.hi] != []
  {
  }

  /** A connection made by `_get` comes back with an error, or is idle when the pool is cleared: the process ends. */
  method NoDeleter(cleared: bool) returns (survived: bool)
    ensures !survived
  {
    var nodes := [Node(0, 16383)];
    OneNode(nodes);
    var p := new ConnectionPool(nodes);
    var c := p.Get(5, true);
    if cleared {
      survived := p.HandBack(c);
      assert c in p.idle && !c.deletable;
      survived := p.Clear();
    } else {
      c.err := 1;
      survived := p.HandBack(c);
    }
  }

  lemma OneNode(nodes: seq<Node>)
    requires nodes == [Node(0, 16383)]
    ensures Partition(nodes)
  {
    forall slot: nat | slot < Slot.SLOTS
      ensures Served(nodes, slot)
    {
      assert Serves(nodes[0], slot);
    }
  }

  lemma TwoNodes(nodes: seq<Node>)
    requires nodes == [Node(0, 8191), Node(8192, 16383)]
    ensures Partition(nodes) && Owner(nodes, 5) == Node(0, 8191)
  {
    forall slot: nat | slot < Slot.SLOTS
      ensures Served(nodes, slot)
    {
      assert Serves(nodes[if slot < 8192 then 0 else 1], slot);
    }
  }
}
