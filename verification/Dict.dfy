/** The chained hash table of dict.c, with keys as in async.c: byte strings under Bernstein's hash. */
module Dict {
  import opened Bytes

  const UINT32_MODULUS := 0x1_0000_0000
  const DICT_HT_INITIAL_SIZE := 4

  // ----- Hashing -----

  /** `dictGenHashFunction`: hash * 33 + c in 32 bits. */
  function Hash(s: bytes): (h: nat)
    ensures h < UINT32_MODULUS
  {
    if s == [] then 5381 else (Hash(s[..|s| - 1]) * 33 + s[|s| - 1]) % UINT32_MODULUS
  }

  /** Bitwise and. */
  function And(a: nat, b: nat): nat {
    if a == 0 || b == 0 then 0 else (a % 2) * (b % 2) + 2 * And(a / 2, b / 2)
  }

  ghost predicate PowerOfTwo(n: nat) {
    n == 1 || (n > 1 && n % 2 == 0 && PowerOfTwo(n / 2))
  }

  /** The sizes a table can have: 4, 8, 16 and so on. */
  ghost predicate TableSize(n: nat) {
    PowerOfTwo(n) && n >= DICT_HT_INITIAL_SIZE
  }

  /** A masked hash stays inside the table. */
  lemma {:induction false} AndBelow(a: nat, b: nat)
    ensures And(a, b) <= b
  {
    if a != 0 && b != 0 {
      AndBelow(a / 2, b / 2);
      if a % 2 == 0 {} else {}
    }
  }

  /** A mask of a table takes the remainder of a hash by its size. */
  lemma {:induction false} AndMask(size: nat, q: nat, r: nat)
    requires PowerOfTwo(size) && r < size
    ensures And(size * q + r, size - 1) == r
  {
    if size > 1 {
      AndMask(size / 2, q, r / 2);
      var m := size / 2 * q;
      assert size * q == 2 * m by { Twice(size / 2, q); }
      HalfMask(m, r, size / 2);
    }
  }

  lemma Twice(half: nat, q: nat)
    ensures 2 * half * q == 2 * (half * q)
  {
  }

  lemma HalfMask(m: nat, r: nat, half: nat)
    requires half > 0 && r < 2 * half && And(m + r / 2, half - 1) == r / 2
    ensures And(2 * m + r, 2 * half - 1) == r
  {
    hide And;
    var a, b := 2 * m + r, 2 * half - 1;
    assert a / 2 == m + r / 2 && a % 2 == r % 2 && b / 2 == half - 1 && b % 2 == 1;
    AndStep(a, b);
  }

  lemma AndStep(a: nat, b: nat)
    ensures And(a, b) == if a == 0 || b == 0 then 0 else (a % 2) * (b % 2) + 2 * And(a / 2, b / 2)
  {
  }

  /** Bernstein's hash of the empty string, of "a" and of "ab". */
  lemma KnownHashes()
    ensures Hash([]) == 5381 && Hash([97]) == 177_670 && Hash([97, 98]) == 5_863_208
  {
    assert [97][..0] == [] && [97, 98][..1] == [97];
  }

  /** The bucket of a key in a table of the given size. */
  ghost function Bucket(key: bytes, size: nat): (h: nat)
    requires size > 0
    ensures h < size
  {
    AndBelow(Hash(key), size - 1);
    And(Hash(key), size - 1)
  }

  // ----- Entries and chains -----

  class Entry<V> {
    const key: bytes
    var val: V
    var next: Entry?<V>

    constructor (key: bytes, val: V, next: Entry?<V>)
      ensures this.key == key && this.val == val && this.next == next
    {
      this.key, this.val, this.next := key, val, next;
    }
  }

  /** The `next` pointers of a set of entries. */
  ghost function Nexts<V>(es: set<Entry<V>>): map<Entry<V>, Entry?<V>>
    reads es
  {
    map e | e in es :: e.next
  }

  function At<V>(c: seq<Entry<V>>, j: nat): Entry?<V> {
    if j < |c| then c[j] else null
  }

  /** The list that starts at head is c. */
  ghost predicate Linked<V>(c: seq<Entry<V>>, head: Entry?<V>, nx: map<Entry<V>, Entry?<V>>) {
    && head == At(c, 0)
    && forall j :: 0 <= j < |c| ==> c[j] in nx && nx[c[j]] == At(c, j + 1)
  }

  /** c lists entries of bucket h, each once. */
  ghost predicate Chain<V>(c: seq<Entry<V>>, h: nat, size: nat, entries: map<bytes, Entry<V>>)
    requires size > 0
  {
    && (forall j :: 0 <= j < |c| ==> Bucket(c[j].key, size) == h && c[j].key in entries && entries[c[j].key] == c[j])
    && (forall i, j :: 0 <= i < j < |c| ==> c[i].key != c[j].key)
  }

  /** The lists hold exactly the entries with keys in moved, each once and in its bucket. */
  ghost predicate Listed<V>(lists: seq<seq<Entry<V>>>, entries: map<bytes, Entry<V>>, moved: set<bytes>) {
    && |lists| > 0 && moved <= entries.Keys
    && (forall h :: 0 <= h < |lists| ==> Chain(lists[h], h, |lists|, entries))
    && (forall h, j :: 0 <= h < |lists| && 0 <= j < |lists[h]| ==> lists[h][j].key in moved)
    && (forall k :: k in moved ==> entries[k].key == k && entries[k] in lists[Bucket(k, |lists|)])
  }

  /** Every list starts at its slot of the table. */
  ghost predicate AllLinked<V>(lists: seq<seq<Entry<V>>>, table: seq<Entry?<V>>, nx: map<Entry<V>, Entry?<V>>) {
    && |table| == |lists|
    && forall h :: 0 <= h < |lists| ==> Linked(lists[h], table[h], nx)
  }

  lemma ChainPush<V>(c: seq<Entry<V>>, h: nat, size: nat, entries: map<bytes, Entry<V>>, he: Entry<V>)
    requires size > 0 && Chain(c, h, size, entries) && Bucket(he.key, size) == h
    requires he.key in entries && entries[he.key] == he && forall j :: 0 <= j < |c| ==> c[j].key != he.key
    ensures Chain([he] + c, h, size, entries)
  {
    hide Bucket;
  }

  lemma ListedPush<V>(lists: seq<seq<Entry<V>>>, entries: map<bytes, Entry<V>>, moved: set<bytes>, he: Entry<V>)
    requires Listed(lists, entries, moved)
    requires he.key in entries && entries[he.key] == he && he.key !in moved
    ensures var h := Bucket(he.key, |lists|); Listed(lists[h := [he] + lists[h]], entries, moved + {he.key})
  {
    hide Bucket, Chain;
    var h := Bucket(he.key, |lists|);
    var c: seq<Entry<V>> := lists[h];
    ChainPush(c, h, |lists|, entries, he);
    var lists': seq<seq<Entry<V>>> := lists[h := [he] + c];
    forall g, j | 0 <= g < |lists'| && 0 <= j < |lists'[g]|
      ensures lists'[g][j].key in moved + {he.key}
    {
      if g == h && j > 0 { assert lists'[h][j] == c[j - 1] && c[j - 1].key in moved; }
    }
    forall k | k in moved + {he.key}
      ensures entries[k].key == k && entries[k] in lists'[Bucket(k, |lists|)]
    {
      if k == he.key { assert lists'[h][0] == he; } else { assert entries[k] in lists[Bucket(k, |lists|)]; }
    }
  }

  lemma LinkedPush<V>(lists: seq<seq<Entry<V>>>, table: seq<Entry?<V>>, nx: map<Entry<V>, Entry?<V>>, he: Entry<V>,
                      h: nat)
    requires AllLinked(lists, table, nx) && h < |lists| && forall g :: 0 <= g < |lists| ==> he !in lists[g]
    ensures AllLinked(lists[h := [he] + lists[h]], table[h := he], nx[he := table[h]])
  {
    var lists', nx' := lists[h := [he] + lists[h]], nx[he := table[h]];
    forall g | 0 <= g < |lists|
      ensures Linked(lists'[g], table[h := he][g], nx')
    {
      assert Linked(lists[g], table[g], nx);
      LinkedFrame(lists[g], table[g], nx, he, table[h]);
      if g == h {
        LinkedCons(lists[h], table[h], nx', he);
      }
    }
  }

  lemma LinkedFrame<V>(c: seq<Entry<V>>, head: Entry?<V>, nx: map<Entry<V>, Entry?<V>>, he: Entry<V>, v: Entry?<V>)
    requires Linked(c, head, nx) && he !in c
    ensures Linked(c, head, nx[he := v])
  {
  }

  lemma LinkedCons<V>(c: seq<Entry<V>>, head: Entry?<V>, nx: map<Entry<V>, Entry?<V>>, he: Entry<V>)
    requires Linked(c, head, nx) && he in nx && nx[he] == head
    ensures Linked([he] + c, he, nx)
  {
    var d := [he] + c;
    forall j | 0 <= j < |d|
      ensures d[j] in nx && nx[d[j]] == At(d, j + 1)
    {
      if j > 0 { assert d[j] == c[j - 1]; }
    }
  }

  lemma NotListed<V>(lists: seq<seq<Entry<V>>>, entries: map<bytes, Entry<V>>, moved: set<bytes>, he: Entry<V>)
    requires Listed(lists, entries, moved) && he.key !in moved
    ensures forall h :: 0 <= h < |lists| ==> he !in lists[h]
  {
    hide Chain;
  }

  // ----- Rehashing -----

  /** Not yet relinked: list i from place p on, and every list after it. */
  ghost predicate RestLinked<V>(chains: seq<seq<Entry<V>>>, table: seq<Entry?<V>>, nx: map<Entry<V>, Entry?<V>>,
                                i: nat, p: nat) {
    && |table| == |chains|
    && (i < |chains| ==>
          forall j :: p <= j < |chains[i]| ==> chains[i][j] in nx && nx[chains[i][j]] == At(chains[i], j + 1))
    && (forall h :: i < h < |chains| ==> Linked(chains[h], table[h], nx))
  }

  /** Relinked: the keys of the lists before i and of list i before p. */
  ghost predicate MovedBefore<V>(chains: seq<seq<Entry<V>>>, moved: set<bytes>, i: nat, p: nat) {
    forall h, j :: 0 <= h < |chains| && 0 <= j < |chains[h]| ==>
         (chains[h][j].key in moved <==> h < i || (h == i && j < p))
  }

  lemma DifferentKeys<V>(chains: seq<seq<Entry<V>>>, entries: map<bytes, Entry<V>>, i: nat, p: nat, h: nat, j: nat)
    requires Listed(chains, entries, entries.Keys)
    requires i < |chains| && p < |chains[i]| && h < |chains| && j < |chains[h]| && chains[h][j].key == chains[i][p].key
    ensures h == i && j == p
  {
    hide Bucket;
    assert Chain(chains[i], i, |chains|, entries) && Chain(chains[h], h, |chains|, entries);
  }

  lemma MovedOne<V>(chains: seq<seq<Entry<V>>>, entries: map<bytes, Entry<V>>, moved: set<bytes>, i: nat, p: nat)
    requires Listed(chains, entries, entries.Keys) && MovedBefore(chains, moved, i, p)
    requires i < |chains| && p < |chains[i]|
    ensures chains[i][p].key !in moved && MovedBefore(chains, moved + {chains[i][p].key}, i, p + 1)
    ensures chains[i][p].key in entries && entries[chains[i][p].key] == chains[i][p]
  {
    hide Listed;
    var k := chains[i][p].key;
    forall h, j | 0 <= h < |chains| && 0 <= j < |chains[h]|
      ensures chains[h][j].key in moved + {k} <==> h < i || (h == i && j < p + 1)
    {
      if chains[h][j].key == k {
        DifferentKeys(chains, entries, i, p, h, j);
      }
    }
    PlaceFacts(chains, entries, i, p);
  }

  lemma PlaceFacts<V>(chains: seq<seq<Entry<V>>>, entries: map<bytes, Entry<V>>, i: nat, p: nat)
    requires Listed(chains, entries, entries.Keys) && i < |chains| && p < |chains[i]|
    ensures chains[i][p].key in entries && entries[chains[i][p].key] == chains[i][p]
  {
    hide Bucket;
    assert Chain(chains[i], i, |chains|, entries);
  }

  lemma RestAfter<V>(chains: seq<seq<Entry<V>>>, entries: map<bytes, Entry<V>>, table: seq<Entry?<V>>,
                     nx: map<Entry<V>, Entry?<V>>, i: nat, p: nat, v: Entry?<V>)
    requires Listed(chains, entries, entries.Keys) && RestLinked(chains, table, nx, i, p) && i < |chains|
    requires p < |chains[i]|
    ensures RestLinked(chains, table, nx[chains[i][p] := v], i, p + 1)
  {
    hide Listed;
    var he := chains[i][p];
    forall j | p + 1 <= j < |chains[i]|
      ensures chains[i][j] != he
    {
      if chains[i][j] == he { DifferentKeys(chains, entries, i, p, i, j); }
    }
    forall h | i < h < |chains|
      ensures Linked(chains[h], table[h], nx[he := v])
    {
      forall j | 0 <= j < |chains[h]|
        ensures chains[h][j] != he
      {
        if chains[h][j] == he { DifferentKeys(chains, entries, i, p, h, j); }
      }
    }
  }

  /** Going on to the next list. */
  lemma NextList<V>(chains: seq<seq<Entry<V>>>, table: seq<Entry?<V>>, nx: map<Entry<V>, Entry?<V>>,
                    moved: set<bytes>, i: nat)
    requires i < |chains| && RestLinked(chains, table, nx, i, |chains[i]|) && MovedBefore(chains, moved, i, |chains[i]|)
    ensures MovedBefore(chains, moved, i + 1, 0) && RestLinked(chains, table, nx, i + 1, 0)
    ensures i + 1 < |chains| ==> table[i + 1] == At(chains[i + 1], 0)
  {
    if i + 1 < |chains| { assert Linked(chains[i + 1], table[i + 1], nx); }
  }

  lemma AllMoved<V>(chains: seq<seq<Entry<V>>>, entries: map<bytes, Entry<V>>, moved: set<bytes>, p: nat)
    requires Listed(chains, entries, entries.Keys) && MovedBefore(chains, moved, |chains|, p)
    ensures entries.Keys <= moved
  {
    hide Chain;
    forall k | k in entries
      ensures k in moved
    {
      var c: seq<Entry<V>> := chains[Bucket(k, |chains|)];
      var j :| 0 <= j < |c| && c[j] == entries[k];
    }
  }

  /** `_dictNextPower`. */
  method NextPower(size: nat) returns (i: nat)
    ensures PowerOfTwo(i) && i >= size && i >= DICT_HT_INITIAL_SIZE && (i == DICT_HT_INITIAL_SIZE || i / 2 < size)
    ensures PowerOfTwo(size) && size >= DICT_HT_INITIAL_SIZE ==> i == size
  {
    i := DICT_HT_INITIAL_SIZE;
    assert PowerOfTwo(2);
    while i < size
      invariant PowerOfTwo(i) && i >= DICT_HT_INITIAL_SIZE && (i == DICT_HT_INITIAL_SIZE || i / 2 < size)
      invariant PowerOfTwo(size) && size >= DICT_HT_INITIAL_SIZE ==> i <= size
      decreases size - i
    {
      Doubling(i, size);
      i := i * 2;
    }
  }

  lemma SmallestSize()
    ensures PowerOfTwo(DICT_HT_INITIAL_SIZE)
  {
    assert PowerOfTwo(2);
  }

  lemma Doubled(n: nat)
    requires PowerOfTwo(n)
    ensures PowerOfTwo(2 * n)
  {
  }

  lemma {:induction false} Doubling(i: nat, n: nat)
    requires PowerOfTwo(i) && i < n
    ensures PowerOfTwo(n) ==> 2 * i <= n
  {
    if PowerOfTwo(n) && i > 1 {
      Doubling(i / 2, n / 2);
    }
  }

  /**
   The table invariant: the size is 0 or a power of two from 4 on, `used` is the number of entries and at most the size,
   every entry is in the list of its bucket, and the lists are linked from the table.
   */
  ghost predicate Consistent<V>(table: seq<Entry?<V>>, sizemask: nat, used: nat, chains: seq<seq<Entry<V>>>,
                                entries: map<bytes, Entry<V>>, nx: map<Entry<V>, Entry?<V>>) {
    && used == |entries| <= |table| == |chains|
    && (if |table| == 0 then sizemask == 0
        else TableSize(|table|) && sizemask == |table| - 1 && Listed(chains, entries, entries.Keys))
    && AllLinked(chains, table, nx)
  }

  lemma Folded<V>(table: seq<Entry?<V>>, sizemask: nat, used: nat, chains: seq<seq<Entry<V>>>,
                  entries: map<bytes, Entry<V>>, nx: map<Entry<V>, Entry?<V>>)
    requires used == |entries| <= |table| == |chains| && AllLinked(chains, table, nx)
    requires TableSize(|table|) && sizemask == |table| - 1 && Listed(chains, entries, entries.Keys)
    ensures Consistent(table, sizemask, used, chains, entries, nx)
  {
  }

  lemma Unfolded<V>(table: seq<Entry?<V>>, sizemask: nat, used: nat, chains: seq<seq<Entry<V>>>,
                    entries: map<bytes, Entry<V>>, nx: map<Entry<V>, Entry?<V>>)
    requires Consistent(table, sizemask, used, chains, entries, nx)
    ensures used == |entries| <= |table| == |chains| && AllLinked(chains, table, nx)
    ensures |table| == 0 ==> sizemask == 0 && entries == map[]
    ensures |table| > 0 ==> TableSize(|table|) && sizemask == |table| - 1 && Listed(chains, entries, entries.Keys)
  {
    hide Listed, AllLinked, PowerOfTwo, TableSize;
  }

  class Dict<V> {
    var table: array<Entry?<V>>
    var size: nat
    var sizemask: nat
    var used: nat
    ghost var chains: seq<seq<Entry<V>>>
    ghost var entries: map<bytes, Entry<V>>

    ghost predicate Valid()
      reads this, table, entries.Values
    {
      size == table.Length && Consistent(table[..], sizemask, used, chains, entries, Nexts(entries.Values))
    }

    /** The map the table stands for. */
    ghost function Contents(): (m: map<bytes, V>)
      reads this, entries.Values
      ensures m.Keys == entries.Keys
    {
      map k | k in entries :: entries[k].val
    }

    constructor ()
      ensures Valid() && Contents() == map[] && fresh(table)
    {
      table := new Entry?<V>[0];
      size, sizemask, used := 0, 0, 0;
      chains, entries := [], map[];
    }

    lemma UsedCounts()
      requires Valid()
      ensures used == |Contents()| == |entries|
    {
      hide Nexts, Listed, AllLinked, TableSize;
      assert Contents().Keys == entries.Keys;
      assert |Contents()| == |Contents().Keys| && |entries| == |entries.Keys|;
    }

    /** The value of an entry in the table is changed in place. */
    method Assign(he: Entry<V>, val: V)
      requires Valid() && he.key in entries && entries[he.key] == he
      modifies he`val
      ensures he.val == val
      ensures Valid() && Contents() == old(Contents())[he.key := val]
    {
      hide Consistent;
      OneKeyOneEntry(table[..], sizemask, used, chains, entries, Nexts(entries.Values));
      ghost var nx := Nexts(entries.Values);
      he.val := val;
      assert Nexts(entries.Values) == nx;
    }

    /** Going through the lists in table order meets every entry exactly once. */
    lemma TableOrder()
      requires Valid()
      ensures Enumerates(Flat(chains, 0), entries) && |Flat(chains, 0)| == used
    {
      hide Consistent, Nexts, Flat, Enumerates;
      FlatEnumerates(table[..], sizemask, used, chains, entries, Nexts(entries.Values));
    }

    /** `dictFind`. */
    method Find(key: bytes) returns (he: Entry?<V>)
      requires Valid()
      ensures if key in entries then he == entries[key] else he == null
      ensures he != null ==> he.key == key && Contents()[key] == he.val
    {
      hide And, Hash, Listed, AllLinked, Linked, Consistent, PowerOfTwo, TableSize, Nexts, Chain;
      Unfolded(table[..], sizemask, used, chains, entries, Nexts(entries.Values));
      if size == 0 {
        return null;
      }
      AndBelow(Hash(key), sizemask);
      var h := And(Hash(key), sizemask);
      BucketLinked(chains, table[..], Nexts(entries.Values), key);
      NextsAreNext(entries.Values);
      he := Walk(table[h], chains[h], Nexts(entries.Values), key);
      SearchResult(chains, entries, key, he);
    }

    /** Relink one entry at the head of its new list. */
    method Relink(he: Entry<V>, n: array<Entry?<V>>, ghost lists: seq<seq<Entry<V>>>, ghost moved: set<bytes>)
      returns (ghost lists': seq<seq<Entry<V>>>, ghost v: Entry?<V>)
      requires Listed(lists, entries, moved) && AllLinked(lists, n[..], Nexts(entries.Values))
      requires he.key in entries && entries[he.key] == he && he.key !in moved
      modifies n, he`next
      ensures |lists'| == |lists| && Listed(lists', entries, moved + {he.key})
      ensures AllLinked(lists', n[..], Nexts(entries.Values))
      ensures Nexts(entries.Values) == old(Nexts(entries.Values))[he := v]
    {
      hide Listed, Linked;
      ghost var tab, nx := n[..], Nexts(entries.Values);
      SomeLists(lists, entries, moved);
      AndBelow(Hash(he.key), n.Length - 1);
      var h := And(Hash(he.key), n.Length - 1);
      lists', v := lists[h := [he] + lists[h]], n[h];
      ListedPush(lists, entries, moved, he);
      NotListed(lists, entries, moved, he);
      LinkedPush(lists, tab, nx, he, h);
      he.next := n[h];
      n[h] := he;
      assert n[..] == tab[h := he];
      assert Nexts(entries.Values) == nx[he := tab[h]];
    }

    /** The lists in n hold the entries with the keys in moved. */
    ghost predicate InTable(n: array<Entry?<V>>, lists: seq<seq<Entry<V>>>, moved: set<bytes>)
      reads this, n, entries.Values
    {
      Listed(lists, entries, moved) && |lists| == n.Length && AllLinked(lists, n[..], Nexts(entries.Values))
    }

    /** The entries before place p of list i have been moved to n, and the others have not. */
    ghost predicate Halfway(i: nat, p: nat, n: array<Entry?<V>>, lists: seq<seq<Entry<V>>>, moved: set<bytes>)
      reads this, table, n, entries.Values
    {
      && i < |chains| && Listed(chains, entries, entries.Keys)
      && |moved| + used == |entries| && InTable(n, lists, moved)
      && MovedBefore(chains, moved, i, p) && RestLinked(chains, table[..], Nexts(entries.Values), i, p)
    }

    /** One turn of the inner loop of `dictExpand`. */
    method MoveOne(i: nat, ghost p: nat, he: Entry<V>, n: array<Entry?<V>>, ghost lists: seq<seq<Entry<V>>>,
                   ghost moved: set<bytes>)
      returns (nextHe: Entry?<V>, ghost lists': seq<seq<Entry<V>>>)
      requires n != table && Halfway(i, p, n, lists, moved) && p < |chains[i]| && he == chains[i][p]
      modifies `used, n, he`next
      ensures nextHe == At(chains[i], p + 1) && Halfway(i, p + 1, n, lists', moved + {he.key})
    {
      hide Listed, Linked, RestLinked, MovedBefore, AllLinked;
      MovedOne(chains, entries, moved, i, p);
      RestNext(chains, table[..], Nexts(entries.Values), i, p);
      MovedCount(lists, entries, moved, he.key);
      ghost var nx := Nexts(entries.Values);
      nextHe := he.next;
      ghost var v;
      lists', v := Relink(he, n, lists, moved);
      RestAfter(chains, entries, table[..], nx, i, p, v);
      used := used - 1;
    }

    /** The inner loop of `dictExpand`: relink the entries of list i. */
    method MoveList(i: nat, n: array<Entry?<V>>, ghost lists: seq<seq<Entry<V>>>, ghost moved: set<bytes>)
      returns (ghost lists': seq<seq<Entry<V>>>, ghost moved': set<bytes>)
      requires i < size == table.Length == |chains| && n != table && table[i] == At(chains[i], 0)
      requires Halfway(i, 0, n, lists, moved)
      modifies `used, n, entries.Values
      ensures forall e :: e in entries.Values ==> e.val == old(e.val)
      ensures Halfway(i, |chains[i]|, n, lists', moved')
    {
      hide Dict.Halfway;
      var he := table[i];
      lists', moved' := lists, moved;
      ghost var p := 0;
      while he != null
        invariant 0 <= p <= |chains[i]| && he == At(chains[i], p) && Halfway(i, p, n, lists', moved')
        invariant forall e :: e in entries.Values ==> e.val == old(e.val)
        decreases |chains[i]| - p
      {
        Inside(i, p, n, lists', moved');
        ghost var k := he.key;
        he, lists' := MoveOne(i, p, he, n, lists', moved');
        moved' := moved' + {k};
        p := p + 1;
      }
    }

    lemma Inside(i: nat, p: nat, n: array<Entry?<V>>, lists: seq<seq<Entry<V>>>, moved: set<bytes>)
      requires Halfway(i, p, n, lists, moved) && p < |chains[i]|
      ensures chains[i][p] in entries.Values
    {
      hide Linked, RestLinked, MovedBefore, AllLinked, Chain, Bucket;
      PlaceFacts(chains, entries, i, p);
    }

    /** The outer loop of `dictExpand`, which stops early once `used` is 0. */
    method MoveAll(n: array<Entry?<V>>) returns (ghost lists: seq<seq<Entry<V>>>)
      requires Valid() && n != table && n.Length > 0 && forall h :: 0 <= h < n.Length ==> n[h] == null
      modifies `used, n, entries.Values
      ensures used == 0 && forall e :: e in entries.Values ==> e.val == old(e.val)
      ensures InTable(n, lists, entries.Keys)
    {
      hide Listed, Linked, RestLinked, MovedBefore, AllLinked, Consistent, PowerOfTwo, TableSize;
      Unfolded(table[..], sizemask, used, chains, entries, Nexts(entries.Values));
      lists := seq(n.Length, _ => []);
      ghost var moved: set<bytes> := {};
      EmptyLists(lists, n[..], Nexts(entries.Values), entries);
      RestBegins(chains, table[..], Nexts(entries.Values));
      var i := 0;
      while i < size && used > 0
        invariant i <= size && |moved| + used == |entries|
        invariant forall e :: e in entries.Values ==> e.val == old(e.val)
        invariant Listed(lists, entries, moved) && |lists| == n.Length && AllLinked(lists, n[..], Nexts(entries.Values))
        invariant MovedBefore(chains, moved, i, 0) && RestLinked(chains, table[..], Nexts(entries.Values), i, 0)
        invariant i < size ==> table[i] == At(chains[i], 0)
      {
        lists, moved := MoveList(i, n, lists, moved);
        NextList(chains, table[..], Nexts(entries.Values), moved, i);
        i := i + 1;
      }
      EveryKeyMoved(chains, lists, entries, moved, i, used);
    }

    /** A new table with every entry relinked into it. */
    method Rehash(realsize: nat) returns (newtable: array<Entry?<V>>, ghost lists: seq<seq<Entry<V>>>)
      requires Valid() && realsize > 0
      modifies `used, entries.Values
      ensures fresh(newtable) && newtable.Length == realsize && used == 0 && InTable(newtable, lists, entries.Keys)
      ensures forall e :: e in entries.Values ==> e.val == old(e.val)
    {
      hide Consistent, Nexts, Listed, AllLinked;
      newtable := new Entry?<V>[realsize](_ => null);
      lists := MoveAll(newtable);
    }

    /** The new table takes the place of the old one. */
    method Install(newtable: array<Entry?<V>>, all: nat, ghost lists: seq<seq<Entry<V>>>)
      requires TableSize(newtable.Length) && all == |entries| <= newtable.Length
      requires InTable(newtable, lists, entries.Keys)
      modifies `table, `size, `sizemask, `used, `chains
      ensures Valid() && table == newtable && size == newtable.Length
    {
      hide Listed, AllLinked, PowerOfTwo, Consistent, Nexts;
      table, size, sizemask, used := newtable, newtable.Length, newtable.Length - 1, all;
      chains := lists;
      Folded(newtable[..], sizemask, used, lists, entries, Nexts(entries.Values));
    }

    /**
     `dictExpand`: relinks every entry into a new table of at least n buckets. The loop may stop early
     because `used` counts the entries still to move; it is 0 when the loop ends.
     */
    method Expand(n: nat) returns (ok: bool)
      requires Valid()
      modifies this, entries.Values
      ensures ok == (old(used) <= n) && Valid() && entries == old(entries)
      ensures forall e :: e in entries.Values ==> e.val == old(e.val)
      ensures if ok then size >= n && size >= DICT_HT_INITIAL_SIZE && fresh(table)
              else table == old(table) && size == old(size)
      ensures ok && PowerOfTwo(n) && n >= DICT_HT_INITIAL_SIZE ==> size == n
    {
      hide PowerOfTwo, Dict.Valid, Dict.InTable;
      UsedCounts();
      var realsize := NextPower(n);
      if used > n {
        return false;
      }
      var all := used;
      var newtable;
      ghost var lists;
      newtable, lists := Rehash(realsize);
      assert used == 0;  // the assertion of the source
      Install(newtable, all, lists);
      return true;
    }

    /** `_dictExpandIfNeeded`: afterwards there is room for one more entry. */
    method ExpandIfNeeded() returns (ok: bool)
      requires Valid()
      modifies this, entries.Values
      ensures ok && Valid() && entries == old(entries) && used == old(used) < size
      ensures if old(used) < old(size) then table == old(table) else fresh(table)
      ensures size == if old(size) == 0 then DICT_HT_INITIAL_SIZE
                      else if old(used) == old(size) then 2 * old(size)
                      else old(size)
      ensures forall e :: e in entries.Values ==> e.val == old(e.val)
    {
      hide Consistent, Nexts, Listed, AllLinked, PowerOfTwo;
      Unfolded(table[..], sizemask, used, chains, entries, Nexts(entries.Values));
      SmallestSize();
      if size == 0 {
        ok := Expand(DICT_HT_INITIAL_SIZE);
      } else if used == size {
        Doubled(size);
        ok := Expand(size * 2);
      } else {
        ok := true;
      }
      Unfolded(table[..], sizemask, used, chains, entries, Nexts(entries.Values));
    }

    /** `_dictKeyIndex`: the bucket for a new key, or -1 when the key is present. */
    method KeyIndex(key: bytes) returns (index: int)
      requires Valid()
      modifies this, entries.Values
      ensures Valid() && entries == old(entries) && used == old(used) < size
      ensures table == old(table) || fresh(table)
      ensures forall e :: e in entries.Values ==> e.val == old(e.val)
      ensures index == if key in entries then -1 else Bucket(key, size)
    {
      hide And, Hash, Listed, AllLinked, Consistent, PowerOfTwo, TableSize, Nexts;
      var ok := ExpandIfNeeded();
      if !ok {
        return -1;
      }
      Unfolded(table[..], sizemask, used, chains, entries, Nexts(entries.Values));
      AndBelow(Hash(key), sizemask);
      var h := And(Hash(key), sizemask);
      BucketLinked(chains, table[..], Nexts(entries.Values), key);
      NextsAreNext(entries.Values);
      var he := Walk(table[h], chains[h], Nexts(entries.Values), key);
      SearchResult(chains, entries, key, he);
      return if he != null then -1 else h;
    }

    /** The second half of `dictAdd`: a new entry at the head of its list. */
    method Push(index: nat, key: bytes, val: V)
      requires Valid() && key !in entries && used < size && index == Bucket(key, size)
      modifies this, table
      ensures Valid() && table == old(table)
      ensures key in entries && fresh(entries[key]) && entries == old(entries)[key := entries[key]]
      ensures entries[key].val == val
    {
      hide Bucket, Listed, AllLinked, Consistent, PowerOfTwo, TableSize;
      ghost var tab, nx, es := table[..], Nexts(entries.Values), entries;
      Unfolded(tab, sizemask, used, chains, es, nx);
      var entry := new Entry(key, val, table[index]);
      table[index] := entry;
      used := used + 1;
      entries := entries[key := entry];
      Inserted(tab, sizemask, used - 1, chains, es, nx, entry);
      chains := chains[index := [entry] + chains[index]];
      assert table[..] == tab[index := entry];
      NextsGrow(es, entry, nx);
    }

    /** `dictAdd`: adds the key exactly when it was absent. */
    method Add(key: bytes, val: V) returns (ok: bool)
      requires Valid()
      modifies this, table, entries.Values
      ensures Valid() && ok == (key !in old(entries)) && (table == old(table) || fresh(table))
      ensures if ok then key in entries && fresh(entries[key]) && entries == old(entries)[key := entries[key]]
              else entries == old(entries)
      ensures forall e :: e in old(entries).Values ==> e.val == old(e.val)
      ensures ok ==> entries[key].val == val
      ensures Contents() == if ok then old(Contents())[key := val] else old(Contents())
    {
      hide Bucket, Consistent, Nexts;
      var index := KeyIndex(key);
      if index == -1 {
        return false;
      }
      Push(index, key, val);
      return true;
    }

    /** Every entry is still there, and only the entry of the key can be new. */
    twostate predicate Extended(key: bytes)
      reads this
    {
      && entries.Keys == old(entries).Keys + {key}
      && (forall k :: k in old(entries) ==> entries[k] == old(entries)[k])
      && (key !in old(entries) ==> fresh(entries[key]))
    }

    /** `dictReplace`: 1 when the key is new, 0 when only its value changed. */
    method Replace(key: bytes, val: V) returns (isNew: int)
      requires Valid()
      modifies this, table, entries.Values
      ensures Valid() && isNew == (if key in old(entries) then 0 else 1) && (table == old(table) || fresh(table))
      ensures Extended(key) && Contents() == old(Contents())[key := val]
      ensures forall e :: e in entries.Values ==> e in old(entries).Values || fresh(e)
    {
      hide Consistent;
      var ok := Add(key, val);
      if ok {
        return 1;
      }
      var entry := Find(key);
      Assign(entry, val);
      return 0;
    }

    /** Unlinking the entry at place p of list h. */
    method Unlink(h: nat, de: Entry<V>, prevde: Entry?<V>, ghost p: nat)
      requires Valid() && h < |chains| == size && p < |chains[h]|
      requires de == chains[h][p] && prevde == if p == 0 then null else chains[h][p - 1]
      modifies this, table, entries.Values`next
      ensures Valid() && table == old(table) && entries == old(entries) - {de.key}
      ensures Dropped(old(chains), h, p, chains) && Contents() == old(Contents()) - {de.key}
    {
      hide Listed, AllLinked, Consistent, PowerOfTwo, TableSize, Nexts;
      ghost var tab, nx, es := table[..], Nexts(entries.Values), entries;
      Unlinked(tab, sizemask, used, chains, es, nx, h, p);
      NextsAreNext(es.Values);
      OneKeyOneEntry(tab, sizemask, used, chains, es, nx);
      if prevde != null {
        prevde.next := de.next;
      } else {
        table[h] := de.next;
      }
      used := used - 1;
      entries := entries - {de.key};
      chains := chains[h := chains[h][..p] + chains[h][p + 1..]];
      NextsShrink(es, de, if p == 0 then nx else nx[prevde := nx[de]]);
    }

    /** The entry of the key, the one before it, and its place in its list. */
    method Locate(key: bytes) returns (de: Entry?<V>, prevde: Entry?<V>, h: nat, ghost p: nat)
      requires Valid() && size > 0
      ensures h == Bucket(key, size) && h < size == |chains|
      ensures if key in entries then p < |chains[h]| && de == chains[h][p] == entries[key] else de == null
      ensures de != null ==> de.key == key && prevde == if p == 0 then null else chains[h][p - 1]
    {
      hide And, Hash, Listed, AllLinked, Linked, Consistent, PowerOfTwo, TableSize, Nexts, Chain, Contents;
      Unfolded(table[..], sizemask, used, chains, entries, Nexts(entries.Values));
      AndBelow(Hash(key), sizemask);
      h := And(Hash(key), sizemask);
      BucketLinked(chains, table[..], Nexts(entries.Values), key);
      NextsAreNext(entries.Values);
      de, prevde, p := WalkTo(table[h], chains[h], Nexts(entries.Values), key);
      SearchResult(chains, entries, key, de);
    }

    /** `dictDelete`: unlinks the entry of the key, at place p of its list. */
    method Delete(key: bytes) returns (ok: bool, ghost p: nat)
      requires Valid()
      modifies this, table, entries.Values`next
      ensures Valid() && table == old(table) && ok == (key in old(entries)) && entries == old(entries) - {key}
      ensures Contents() == old(Contents()) - {key}
      ensures if ok then
                && size > 0 && Dropped(old(chains), Bucket(key, size), p, chains)
                && old(chains)[Bucket(key, size)][p] == old(entries)[key]
              else chains == old(chains)
    {
      hide Bucket, Listed, AllLinked, Consistent, PowerOfTwo, TableSize, Nexts, Dropped, Contents;
      Unfolded(table[..], sizemask, used, chains, entries, Nexts(entries.Values));
      if size == 0 {
        return false, 0;
      }
      var de, prevde, h;
      de, prevde, h, p := Locate(key);
      if de == null {
        return false, 0;
      }
      Unlink(h, de, prevde, p);
      return true, p;
    }

    /** The inner loop of `_dictClear`: free the entries of list i. */
    method ClearList(i: nat) returns (freed: seq<Entry<V>>)
      requires size == table.Length == |chains| && AllLinked(chains, table[..], Nexts(entries.Values))
      requires i < size && used == |Flat(chains, i)|
      modifies `used
      ensures freed == chains[i] && used == |Flat(chains, i + 1)|
    {
      hide AllLinked, Nexts;
      ListLinked(chains, table[..], Nexts(entries.Values), i);
      NextsAreNext(entries.Values);
      var he := table[i];
      freed := [];
      while he != null
        invariant |freed| <= |chains[i]| && freed == chains[i][..|freed|] && he == At(chains[i], |freed|)
        invariant used == |Flat(chains, i)| - |freed|
        decreases |chains[i]| - |freed|
      {
        var nextHe := he.next;
        freed := freed + [he];
        used := used - 1;
        he := nextHe;
      }
    }

    /** `_dictClear`: frees every entry exactly once, in table order, and leaves the empty table. */
    method Clear() returns (freed: seq<Entry<V>>)
      requires Valid()
      modifies this
      ensures Valid() && Contents() == map[] && size == 0 && fresh(table)
      ensures Enumerates(freed, old(entries)) && |freed| == old(used)
    {
      hide Listed, AllLinked, Consistent, PowerOfTwo, TableSize, Nexts, Enumerates;
      TableOrder();
      Unfolded(table[..], sizemask, used, chains, entries, Nexts(entries.Values));
      freed := [];
      var i := 0;
      while i < size && used > 0
        modifies `used
        invariant i <= size && used == |Flat(chains, i)| && freed + Flat(chains, i) == Flat(chains, 0)
      {
        var some := ClearList(i);
        freed := freed + some;
        i := i + 1;
      }
      assert Flat(chains, i) == [] && freed == Flat(chains, 0);
      table := new Entry?<V>[0];
      size, sizemask, used := 0, 0, 0;
      chains, entries := [], map[];
      EmptyTable(table[..], Nexts(entries.Values));
    }
  }

  lemma EmptyLists<V>(lists: seq<seq<Entry<V>>>, table: seq<Entry?<V>>, nx: map<Entry<V>, Entry?<V>>,
                      entries: map<bytes, Entry<V>>)
    requires |lists| == |table| > 0 && forall h :: 0 <= h < |lists| ==> lists[h] == [] && table[h] == null
    ensures Listed(lists, entries, {}) && AllLinked(lists, table, nx)
  {
  }

  lemma RestBegins<V>(chains: seq<seq<Entry<V>>>, table: seq<Entry?<V>>, nx: map<Entry<V>, Entry?<V>>)
    requires AllLinked(chains, table, nx)
    ensures RestLinked(chains, table, nx, 0, 0) && MovedBefore(chains, {}, 0, 0)
    ensures |chains| > 0 ==> table[0] == At(chains[0], 0)
  {
    if |chains| > 0 { assert Linked(chains[0], table[0], nx); }
  }

  lemma RestNext<V>(chains: seq<seq<Entry<V>>>, table: seq<Entry?<V>>, nx: map<Entry<V>, Entry?<V>>, i: nat, p: nat)
    requires RestLinked(chains, table, nx, i, p) && i < |chains| && p < |chains[i]|
    ensures chains[i][p] in nx && nx[chains[i][p]] == At(chains[i], p + 1)
  {
  }

  /** There is an entry still to move, so `used` can be decremented. */
  lemma MovedCount<V>(lists: seq<seq<Entry<V>>>, entries: map<bytes, Entry<V>>, moved: set<bytes>, k: bytes)
    requires Listed(lists, entries, moved) && k in entries && k !in moved
    ensures |moved| < |entries| && |moved + {k}| == |moved| + 1
  {
    SubsetSize(moved + {k}, entries.Keys);
    assert |entries| == |entries.Keys|;
  }

  lemma {:induction false} SubsetSize<T>(a: set<T>, b: set<T>)
    requires a <= b
    ensures |a| <= |b| && (|a| == |b| ==> a == b)
  {
    if a != {} {
      var x :| x in a;
      SubsetSize(a - {x}, b - {x});
    }
  }

  /** When the loop ends, early or not, every entry has been moved. */
  lemma EveryKeyMoved<V>(chains: seq<seq<Entry<V>>>, lists: seq<seq<Entry<V>>>, entries: map<bytes, Entry<V>>,
                         moved: set<bytes>, i: nat, used: nat)
    requires Listed(lists, entries, moved) && |moved| + used == |entries|
    requires chains == [] ==> entries == map[]
    requires chains != [] ==> Listed(chains, entries, entries.Keys) && MovedBefore(chains, moved, i, 0)
    requires i == |chains| || used == 0
    ensures used == 0 && moved == entries.Keys
  {
    hide Chain;
    assert |entries| == |entries.Keys|;
    SubsetSize(moved, entries.Keys);
    if i == |chains| && chains != [] {
      AllMoved(chains, entries, moved, 0);
      SubsetSize(entries.Keys, moved);
    }
  }

  lemma SomeLists<V>(lists: seq<seq<Entry<V>>>, entries: map<bytes, Entry<V>>, moved: set<bytes>)
    requires Listed(lists, entries, moved)
    ensures |lists| > 0
  {
  }

  lemma ListedGrow<V>(lists: seq<seq<Entry<V>>>, entries: map<bytes, Entry<V>>, moved: set<bytes>, he: Entry<V>)
    requires Listed(lists, entries, moved) && he.key !in entries
    ensures Listed(lists, entries[he.key := he], moved)
  {
    hide Bucket;
    forall h | 0 <= h < |lists|
      ensures Chain(lists[h], h, |lists|, entries[he.key := he])
    {
      assert Chain(lists[h], h, |lists|, entries);
    }
  }

  /** Pushing a new entry on the list of its bucket keeps the table invariant. */
  lemma Inserted<V>(table: seq<Entry?<V>>, sizemask: nat, used: nat, chains: seq<seq<Entry<V>>>,
                    entries: map<bytes, Entry<V>>, nx: map<Entry<V>, Entry?<V>>, he: Entry<V>)
    requires Consistent(table, sizemask, used, chains, entries, nx) && he.key !in entries && used < |table|
    ensures var h := Bucket(he.key, |table|);
            Consistent(table[h := he], sizemask, used + 1, chains[h := [he] + chains[h]], entries[he.key := he],
                       nx[he := table[h]])
  {
    hide Bucket, Listed, AllLinked, PowerOfTwo, TableSize, Consistent;
    Unfolded(table, sizemask, used, chains, entries, nx);
    var h, more := Bucket(he.key, |table|), entries[he.key := he];
    ListedGrow(chains, entries, entries.Keys, he);
    NotListed(chains, more, entries.Keys, he);
    ListedPush(chains, more, entries.Keys, he);
    LinkedPush(chains, table, nx, he, h);
    assert more.Keys == entries.Keys + {he.key};
    assert |more| == |more.Keys| && |entries| == |entries.Keys|;
    Folded(table[h := he], sizemask, used + 1, chains[h := [he] + chains[h]], more, nx[he := table[h]]);
  }

  lemma NextsAreNext<V>(es: set<Entry<V>>)
    ensures Nexts(es).Keys == es && forall e :: e in Nexts(es) ==> Nexts(es)[e] == e.next
  {
  }

  lemma NextsGrow<V>(es: map<bytes, Entry<V>>, he: Entry<V>, nx: map<Entry<V>, Entry?<V>>)
    requires he.key !in es && nx == Nexts(es.Values)
    ensures Nexts(es[he.key := he].Values) == nx[he := he.next]
  {
    var more := es[he.key := he];
    forall e
      ensures e in more.Values <==> e in es.Values || e == he
    {
      if e in es.Values {
        var k :| k in es && es[k] == e;
        assert k in more && more[k] == e;
      }
      if e == he { assert he.key in more && more[he.key] == he; }
    }
  }

  lemma BucketLinked<V>(chains: seq<seq<Entry<V>>>, table: seq<Entry?<V>>, nx: map<Entry<V>, Entry?<V>>, key: bytes)
    requires AllLinked(chains, table, nx) && |chains| > 0
    ensures var h := Bucket(key, |chains|); Linked(chains[h], table[h], nx)
  {
    hide Bucket;
  }

  /** Searching the list of the key's bucket decides whether the key is in the map. */
  lemma SearchResult<V>(chains: seq<seq<Entry<V>>>, entries: map<bytes, Entry<V>>, key: bytes, he: Entry?<V>)
    requires Listed(chains, entries, entries.Keys)
    requires var c := chains[Bucket(key, |chains|)];
             if he == null then forall j :: 0 <= j < |c| ==> c[j].key != key else he in c && he.key == key
    ensures if key in entries then he == entries[key] else he == null
  {
    hide Bucket;
    var h := Bucket(key, |chains|);
    assert Chain(chains[h], h, |chains|, entries);
  }

  /** The search loop: the first entry of the list with the key. */
  method Walk<V>(head: Entry?<V>, ghost c: seq<Entry<V>>, ghost nx: map<Entry<V>, Entry?<V>>, key: bytes)
    returns (he: Entry?<V>)
    requires Linked(c, head, nx) && forall e :: e in nx ==> nx[e] == e.next
    ensures if he == null then forall j :: 0 <= j < |c| ==> c[j].key != key else he in c && he.key == key
  {
    he := head;
    ghost var p := 0;
    while he != null
      invariant 0 <= p <= |c| && he == At(c, p)
      invariant forall j :: 0 <= j < p ==> c[j].key != key
      decreases |c| - p
    {
      if he.key == key {
        return he;
      }
      he := he.next;
      p := p + 1;
    }
  }

  // ----- Removing -----

  /** chains' is chains without place p of list h. */
  ghost predicate Dropped<T>(chains: seq<seq<T>>, h: nat, p: nat, chains': seq<seq<T>>) {
    h < |chains| && p < |chains[h]| && chains' == chains[h := chains[h][..p] + chains[h][p + 1..]]
  }

  lemma OneKeyOneEntry<V>(table: seq<Entry?<V>>, sizemask: nat, used: nat, chains: seq<seq<Entry<V>>>,
                          entries: map<bytes, Entry<V>>, nx: map<Entry<V>, Entry?<V>>)
    requires Consistent(table, sizemask, used, chains, entries, nx)
    ensures forall k :: k in entries ==> entries[k].key == k
  {
    hide Bucket, Chain, AllLinked, PowerOfTwo, TableSize;
  }

  lemma ListedDrop<V>(chains: seq<seq<Entry<V>>>, entries: map<bytes, Entry<V>>, h: nat, p: nat)
    requires Listed(chains, entries, entries.Keys) && h < |chains| && p < |chains[h]|
    ensures var k := chains[h][p].key;
            Listed(chains[h := chains[h][..p] + chains[h][p + 1..]], entries - {k}, entries.Keys - {k})
  {
    hide Bucket, Chain;
    var c, k := chains[h], chains[h][p].key;
    var d := c[..p] + c[p + 1..];
    var chains', fewer := chains[h := d], entries - {k};
    forall g | 0 <= g < |chains|
      ensures Chain(chains'[g], g, |chains|, fewer)
      ensures forall j :: 0 <= j < |chains'[g]| ==> chains'[g][j].key in entries.Keys - {k}
    {
      if g == h { ChainDrop(c, h, |chains|, entries, p); } else { ChainKeep(chains, entries, h, p, g); }
    }
    forall x | x in entries.Keys - {k}
      ensures fewer[x].key == x && fewer[x] in chains'[Bucket(x, |chains|)]
    {
      assert entries[x] in chains[Bucket(x, |chains|)];
      if Bucket(x, |chains|) == h {
        var j :| 0 <= j < |c| && c[j] == entries[x];
        assert d[if j < p then j else j - 1] == entries[x];
      }
    }
  }

  lemma ChainDrop<V>(c: seq<Entry<V>>, h: nat, size: nat, entries: map<bytes, Entry<V>>, p: nat)
    requires size > 0 && Chain(c, h, size, entries) && p < |c|
    ensures Chain(c[..p] + c[p + 1..], h, size, entries - {c[p].key})
    ensures forall e :: e in c[..p] + c[p + 1..] ==> e.key != c[p].key && e.key in entries
  {
    hide Bucket;
    var d := c[..p] + c[p + 1..];
    forall e | e in d
      ensures e.key != c[p].key && e.key in entries
    {
      var j :| 0 <= j < |d| && d[j] == e;
      assert e == c[if j < p then j else j + 1];
    }
  }

  lemma ChainKeep<V>(chains: seq<seq<Entry<V>>>, entries: map<bytes, Entry<V>>, h: nat, p: nat, g: nat)
    requires Listed(chains, entries, entries.Keys) && h < |chains| && p < |chains[h]| && g < |chains| && g != h
    ensures Chain(chains[g], g, |chains|, entries - {chains[h][p].key})
    ensures forall e :: e in chains[g] ==> e.key != chains[h][p].key && e.key in entries
  {
    hide Bucket;
    assert Chain(chains[g], g, |chains|, entries) && Chain(chains[h], h, |chains|, entries);
  }

  lemma LinkedDrop<V>(c: seq<Entry<V>>, head: Entry?<V>, nx: map<Entry<V>, Entry?<V>>, p: nat)
    requires Linked(c, head, nx) && p < |c| && forall i, j :: 0 <= i < j < |c| ==> c[i] != c[j]
    ensures Linked(c[..p] + c[p + 1..], if p == 0 then nx[c[p]] else head,
                   (if p == 0 then nx else nx[c[p - 1] := nx[c[p]]]) - {c[p]})
  {
    var d := c[..p] + c[p + 1..];
    var nx' := (if p == 0 then nx else nx[c[p - 1] := nx[c[p]]]) - {c[p]};
    forall j | 0 <= j < |d|
      ensures d[j] in nx' && nx'[d[j]] == At(d, j + 1)
    {
      var i := if j < p then j else j + 1;
      assert d[j] == c[i] && c[i] != c[p] && nx[c[i]] == At(c, i + 1);
      assert At(c, p + 1) == nx[c[p]];
    }
  }

  lemma LinkedOthers<V>(c: seq<Entry<V>>, head: Entry?<V>, nx: map<Entry<V>, Entry?<V>>, prev: Entry?<V>,
                        he: Entry<V>, v: Entry?<V>)
    requires Linked(c, head, nx) && he !in c && (prev == null || prev !in c)
    ensures Linked(c, head, (if prev == null then nx else nx[prev := v]) - {he})
  {
  }

  lemma AllLinkedDrop<V>(chains: seq<seq<Entry<V>>>, table: seq<Entry?<V>>, nx: map<Entry<V>, Entry?<V>>,
                         entries: map<bytes, Entry<V>>, h: nat, p: nat)
    requires Listed(chains, entries, entries.Keys) && AllLinked(chains, table, nx) && h < |chains| && p < |chains[h]|
    ensures chains[h][p] in nx && (p > 0 ==> chains[h][p - 1] in nx)
    ensures AllLinked(chains[h := chains[h][..p] + chains[h][p + 1..]],
                      if p == 0 then table[h := nx[chains[h][p]]] else table,
                      (if p == 0 then nx else nx[chains[h][p - 1] := nx[chains[h][p]]]) - {chains[h][p]})
  {
    hide Listed, Linked;
    LinkedAt(chains, table, nx, h, p);
    var c: seq<Entry<V>> := chains[h];
    if p > 0 { LinkedAt(chains, table, nx, h, p - 1); }
    var prev: Entry?<V> := if p == 0 then null else c[p - 1];
    var nx': map<Entry<V>, Entry?<V>> := (if p == 0 then nx else nx[c[p - 1] := nx[c[p]]]) - {c[p]};
    var chains': seq<seq<Entry<V>>> := chains[h := c[..p] + c[p + 1..]];
    var table': seq<Entry?<V>> := if p == 0 then table[h := nx[c[p]]] else table;
    forall g | 0 <= g < |chains|
      ensures Linked(chains'[g], table'[g], nx')
    {
      if g == h {
        forall i, j | 0 <= i < j < |c|
          ensures c[i] != c[j]
        {
          if c[i] == c[j] { DifferentKeys(chains, entries, h, i, h, j); }
        }
        LinkedDrop(c, table[h], nx, p);
      } else {
        forall j | 0 <= j < |chains[g]|
          ensures chains[g][j] != c[p] && (p > 0 ==> chains[g][j] != c[p - 1])
        {
          if chains[g][j] == c[p] { DifferentKeys(chains, entries, h, p, g, j); }
          if p > 0 && chains[g][j] == c[p - 1] { DifferentKeys(chains, entries, h, p - 1, g, j); }
        }
        LinkedOthers(chains[g], table[g], nx, prev, c[p], nx[c[p]]);
      }
    }
  }

  lemma LinkedAt<V>(chains: seq<seq<Entry<V>>>, table: seq<Entry?<V>>, nx: map<Entry<V>, Entry?<V>>, h: nat, p: nat)
    requires AllLinked(chains, table, nx) && h < |chains| && p < |chains[h]|
    ensures chains[h][p] in nx && nx[chains[h][p]] == At(chains[h], p + 1)
  {
    assert Linked(chains[h], table[h], nx);
  }

  /** Unlinking place p of list h keeps the table invariant. */
  lemma Unlinked<V>(table: seq<Entry?<V>>, sizemask: nat, used: nat, chains: seq<seq<Entry<V>>>,
                    entries: map<bytes, Entry<V>>, nx: map<Entry<V>, Entry?<V>>, h: nat, p: nat)
    requires Consistent(table, sizemask, used, chains, entries, nx) && h < |chains| && p < |chains[h]|
    ensures chains[h][p] in nx && (p > 0 ==> chains[h][p - 1] in nx) && nx[chains[h][p]] == At(chains[h], p + 1)
    ensures used > 0 && chains[h][p].key in entries && entries[chains[h][p].key] == chains[h][p]
    ensures Consistent(if p == 0 then table[h := nx[chains[h][p]]] else table, sizemask, used - 1,
                       chains[h := chains[h][..p] + chains[h][p + 1..]], entries - {chains[h][p].key},
                       (if p == 0 then nx else nx[chains[h][p - 1] := nx[chains[h][p]]]) - {chains[h][p]})
  {
    hide Listed, AllLinked, PowerOfTwo, TableSize, Consistent;
    Unfolded(table, sizemask, used, chains, entries, nx);
    ListedDrop(chains, entries, h, p);
    AllLinkedDrop(chains, table, nx, entries, h, p);
    LinkedAt(chains, table, nx, h, p);
    PlaceFacts(chains, entries, h, p);
    var k := chains[h][p].key;
    assert (entries - {k}).Keys == entries.Keys - {k};
    assert |entries| == |entries.Keys| && |entries - {k}| == |(entries - {k}).Keys|;
    Folded(if p == 0 then table[h := nx[chains[h][p]]] else table, sizemask, used - 1,
           chains[h := chains[h][..p] + chains[h][p + 1..]], entries - {k},
           (if p == 0 then nx else nx[chains[h][p - 1] := nx[chains[h][p]]]) - {chains[h][p]});
  }

  lemma NextsShrink<V>(es: map<bytes, Entry<V>>, he: Entry<V>, nx: map<Entry<V>, Entry?<V>>)
    requires he.key in es && es[he.key] == he && (forall k :: k in es ==> es[k].key == k)
    requires nx.Keys == es.Values && forall e :: e in nx && e != he ==> nx[e] == e.next
    ensures Nexts((es - {he.key}).Values) == nx - {he}
  {
    var fewer := es - {he.key};
    forall e
      ensures e in fewer.Values <==> e in es.Values && e != he
    {
      if e in es.Values && e != he {
        var k :| k in es && es[k] == e;
        assert k in fewer && fewer[k] == e;
      }
      if e in fewer.Values {
        var k :| k in fewer && fewer[k] == e;
        assert es[k] == e;
      }
    }
  }

  /** The search loop of `dictDelete`, which also keeps the entry before. */
  method WalkTo<V>(head: Entry?<V>, ghost c: seq<Entry<V>>, ghost nx: map<Entry<V>, Entry?<V>>, key: bytes)
    returns (de: Entry?<V>, prevde: Entry?<V>, ghost p: nat)
    requires Linked(c, head, nx) && forall e :: e in nx ==> nx[e] == e.next
    ensures if de == null then forall j :: 0 <= j < |c| ==> c[j].key != key
            else de.key == key && p < |c| && c[p] == de && prevde == if p == 0 then null else c[p - 1]
  {
    de, prevde, p := head, null, 0;
    while de != null
      invariant 0 <= p <= |c| && de == At(c, p) && prevde == if p == 0 then null else c[p - 1]
      invariant forall j :: 0 <= j < p ==> c[j].key != key
      decreases |c| - p
    {
      if de.key == key {
        return de, prevde, p;
      }
      prevde := de;
      de := de.next;
      p := p + 1;
    }
  }

  // ----- Iterating -----

  /** The entries of the lists from list i on, in the order an iterator meets them. */
  ghost function Flat<T>(chains: seq<seq<T>>, i: nat): seq<T>
    decreases |chains| - i
  {
    if i >= |chains| then [] else chains[i] + Flat(chains, i + 1)
  }

  /** es lists the values of the map, each exactly once. */
  ghost predicate Enumerates<V>(es: seq<Entry<V>>, entries: map<bytes, Entry<V>>) {
    && (forall j :: 0 <= j < |es| ==> es[j].key in entries && entries[es[j].key] == es[j])
    && (forall i, j :: 0 <= i < j < |es| ==> es[i].key != es[j].key)
    && (forall k :: k in entries ==> entries[k].key == k && entries[k] in es)
  }

  /** es has exactly the entries of bucket i and the later ones, each once. */
  ghost predicate FromBucket<V>(es: seq<Entry<V>>, entries: map<bytes, Entry<V>>, size: nat, i: nat)
    requires size > 0
  {
    && (forall j :: 0 <= j < |es| ==>
          es[j].key in entries && entries[es[j].key] == es[j] && Bucket(es[j].key, size) >= i)
    && (forall x, y :: 0 <= x < y < |es| ==> es[x].key != es[y].key)
    && (forall k :: k in entries && Bucket(k, size) >= i ==> entries[k].key == k && entries[k] in es)
  }

  lemma {:induction false} FlatFrom<V>(chains: seq<seq<Entry<V>>>, entries: map<bytes, Entry<V>>, i: nat)
    requires Listed(chains, entries, entries.Keys)
    ensures FromBucket(Flat(chains, i), entries, |chains|, i)
    decreases |chains| - i
  {
    hide Bucket, Chain;
    if i < |chains| {
      FlatFrom(chains, entries, i + 1);
      forall k | k in entries && Bucket(k, |chains|) == i
        ensures entries[k].key == k && entries[k] in chains[i]
      {
      }
      FromBucketStep(chains[i], Flat(chains, i + 1), entries, |chains|, i);
    }
  }

  lemma FromBucketStep<V>(c: seq<Entry<V>>, rest: seq<Entry<V>>, entries: map<bytes, Entry<V>>, size: nat, i: nat)
    requires size > 0 && Chain(c, i, size, entries) && FromBucket(rest, entries, size, i + 1)
    requires forall k :: k in entries && Bucket(k, size) == i ==> entries[k].key == k && entries[k] in c
    ensures FromBucket(c + rest, entries, size, i)
  {
    hide Bucket;
    forall k | k in entries && Bucket(k, size) >= i
      ensures entries[k].key == k && entries[k] in c + rest
    {
      if Bucket(k, size) == i { assert entries[k] in c; } else { assert entries[k] in rest; }
    }
  }

  lemma FlatEnumerates<V>(table: seq<Entry?<V>>, sizemask: nat, used: nat, chains: seq<seq<Entry<V>>>,
                          entries: map<bytes, Entry<V>>, nx: map<Entry<V>, Entry?<V>>)
    requires Consistent(table, sizemask, used, chains, entries, nx)
    ensures Enumerates(Flat(chains, 0), entries) && |Flat(chains, 0)| == used
  {
    hide Bucket, Listed, AllLinked, PowerOfTwo, TableSize, Consistent;
    Unfolded(table, sizemask, used, chains, entries, nx);
    if |chains| > 0 {
      FlatFrom(chains, entries, 0);
    }
    EnumerationLength(Flat(chains, 0), entries);
  }

  lemma {:induction false} EnumerationLength<V>(es: seq<Entry<V>>, entries: map<bytes, Entry<V>>)
    requires Enumerates(es, entries)
    ensures |es| == |entries|
  {
    if es == [] {
      assert entries.Keys == {};
    } else {
      var k := es[0].key;
      var fewer := entries - {k};
      forall x | x in fewer
        ensures fewer[x].key == x && fewer[x] in es[1..]
      {
        assert entries[x] in es && entries[x] != es[0];
      }
      EnumerationLength(es[1..], fewer);
      assert entries.Keys == fewer.Keys + {k};
      assert |entries| == |entries.Keys| && |fewer| == |fewer.Keys|;
    }
  }

  lemma ListLinked<V>(chains: seq<seq<Entry<V>>>, table: seq<Entry?<V>>, nx: map<Entry<V>, Entry?<V>>, i: nat)
    requires AllLinked(chains, table, nx) && i < |chains|
    ensures Linked(chains[i], table[i], nx)
  {
  }

  lemma EmptyTable<V>(table: seq<Entry?<V>>, nx: map<Entry<V>, Entry?<V>>)
    requires table == []
    ensures Consistent(table, 0, 0, [], map[], nx)
  {
  }

  lemma FlatStep<T>(chains: seq<seq<T>>, i: nat)
    ensures Flat(chains, i) == if i < |chains| then chains[i] + Flat(chains, i + 1) else []
  {
  }

  lemma HeadAt<V>(chains: seq<seq<Entry<V>>>, table: seq<Entry?<V>>, nx: map<Entry<V>, Entry?<V>>, i: nat)
    requires AllLinked(chains, table, nx) && i < |chains|
    ensures table[i] == At(chains[i], 0)
  {
    assert Linked(chains[i], table[i], nx);
  }

  lemma Suffix<T>(c: seq<T>, rest: seq<T>, p: nat)
    requires p <= |c|
    ensures c[p..] + rest == if p < |c| then [c[p]] + (c[p + 1..] + rest) else rest
    ensures p == 0 ==> c + rest == c[p..] + rest
  {
  }

  /** `dictIterator`: place p of list `index` is the next to return, whatever happened to the entry before it. */
  class Iteration<V> {
    const ht: Dict<V>
    var index: int
    var entry: Entry?<V>
    var nextEntry: Entry?<V>
    ghost var p: nat

    constructor (ht: Dict<V>)
      requires ht.Valid()
      ensures this.ht == ht && Valid() && Todo() == Flat(ht.chains, 0)
    {
      this.ht, index, entry, nextEntry, p := ht, -1, null, null, 0;
    }

    ghost predicate Valid()
      reads this, ht
    {
      && index >= -1
      && (entry != null ==> 0 <= index < |ht.chains| && p <= |ht.chains[index]| && nextEntry == At(ht.chains[index], p))
    }

    /** The entries still to return, in order. */
    ghost function Todo(): seq<Entry<V>>
      requires Valid()
      reads this, ht
    {
      if entry == null then Flat(ht.chains, index + 1) else ht.chains[index][p..] + Flat(ht.chains, index + 1)
    }

    /** Place p - 1 of list `index` was just returned. */
    ghost predicate Returned()
      requires Valid()
      reads this, ht
    {
      entry != null ==> p > 0 && ht.chains[index][p - 1] == entry
    }

    /**
     The entry at place q of the list is next; the one after it is saved, as the caller may delete what is
     returned.
     */
    method Onto(de: Entry?<V>, ghost q: nat)
      requires ht.Valid() && 0 <= index < |ht.chains| && q <= |ht.chains[index]| && de == At(ht.chains[index], q)
      modifies `entry, `nextEntry, `p
      ensures Valid() && Returned() && entry == de
      ensures ht.chains[index][q..] + Flat(ht.chains, index + 1) == (if de == null then [] else [de]) + Todo()
    {
      hide Consistent, PowerOfTwo, TableSize, Listed, AllLinked, Linked, Nexts, Flat;
      Unfolded(ht.table[..], ht.sizemask, ht.used, ht.chains, ht.entries, Nexts(ht.entries.Values));
      NextsAreNext(ht.entries.Values);
      Suffix(ht.chains[index], Flat(ht.chains, index + 1), q);
      entry, p := de, q;
      if entry != null {
        LinkedAt(ht.chains, ht.table[..], Nexts(ht.entries.Values), index, q);
        nextEntry := entry.next;
        p := q + 1;
      }
    }

    /** One round of `dictNext`: to the next list, or to the saved entry of the current one. */
    method Round() returns (more: bool)
      requires Valid() && ht.Valid()
      modifies this
      ensures Valid() && old(index) <= index && (more ==> index < ht.size)
      ensures more && entry == null ==> index > old(index) || old(entry) != null
      ensures if entry == null then Todo() == old(Todo()) else more && old(Todo()) == [entry] + Todo()
      ensures Returned()
      ensures !more ==> entry == null && Todo() == []
    {
      hide Consistent, PowerOfTwo, TableSize, Listed, AllLinked, Linked, Nexts, Flat;
      Unfolded(ht.table[..], ht.sizemask, ht.used, ht.chains, ht.entries, Nexts(ht.entries.Values));
      if entry == null {
        index := index + 1;
        FlatStep(ht.chains, index);
        if index >= ht.size {
          FlatStep(ht.chains, index + 1);
          return false;
        }
        HeadAt(ht.chains, ht.table[..], Nexts(ht.entries.Values), index);
        assert ht.chains[index][0..] == ht.chains[index];
        Onto(ht.table[index], 0);
      } else {
        Onto(nextEntry, p);
      }
      return true;
    }

    /** `dictNext`: returns the first entry still to return, and null when there is none. */
    method Next() returns (e: Entry?<V>)
      requires Valid() && ht.Valid()
      modifies this
      ensures Valid() && e == entry
      ensures if old(Todo()) == [] then e == null && Todo() == [] else e == old(Todo())[0] && Todo() == old(Todo())[1..]
      ensures Returned()
    {
      hide Consistent, PowerOfTwo, TableSize, Listed, AllLinked, Nexts, Flat, Linked;
      while true
        invariant Valid() && Todo() == old(Todo())
        decreases ht.size - index, entry != null
      {
        var more := Round();
        if !more {
          break;
        }
        if entry != null {
          return entry;
        }
      }
      return null;
    }

    /** The caller deleted the entry just returned: the iterator is where it was. */
    ghost method Resync(before: seq<seq<Entry<V>>>)
      requires entry != null && 0 <= index < |before| && 0 < p <= |before[index]| && nextEntry == At(before[index], p)
      requires Dropped(before, index, p - 1, ht.chains)
      modifies `p
      ensures Valid() && Todo() == before[index][old(p)..] + Flat(before, index + 1)
    {
      hide Flat;
      p := p - 1;
      FlatDrop(before, index, p, ht.chains, index + 1);
    }

    /** The caller of `dictNext` deletes the entry it was just given. */
    method DeleteReturned()
      requires Valid() && ht.Valid() && entry != null && Returned()
      modifies `p, ht, ht.table, ht.entries.Values`next
      ensures Valid() && Todo() == old(Todo()) && ht.Valid() && ht.table == old(ht.table)
      ensures ht.entries == old(ht.entries) - {entry.key} && ht.Contents() == old(ht.Contents()) - {entry.key}
    {
      hide Consistent, PowerOfTwo, TableSize, Listed, AllLinked, Linked, Nexts, Flat, Bucket;
      ghost var tab, nx := ht.table[..], Nexts(ht.entries.Values);
      Unfolded(tab, ht.sizemask, ht.used, ht.chains, ht.entries, nx);
      PlaceFacts(ht.chains, ht.entries, index, p - 1);
      ghost var before, sizemask, used, entries := ht.chains, ht.sizemask, ht.used, ht.entries;
      var ok, q := ht.Delete(entry.key);
      SamePlace(tab, sizemask, used, before, entries, nx, index, p - 1, Bucket(entry.key, |before|), q);
      Resync(before);
    }

    /** Perhaps delete the entry just returned, then ask for the next one. */
    method Pass(doomed: set<bytes>)
      requires Valid() && ht.Valid() && entry != null && Returned()
      modifies this, ht, ht.table, ht.entries.Values`next
      ensures Valid() && ht.Valid() && Returned() && ht.table == old(ht.table)
      ensures if old(Todo()) == [] then entry == null else entry == old(Todo())[0] && Todo() == old(Todo())[1..]
      ensures ht.entries.Values <= old(ht.entries.Values)
      ensures ht.entries == old(ht.entries) - {old(entry.key)} * doomed
      ensures ht.Contents() == old(ht.Contents()) - {old(entry.key)} * doomed
    {
      hide Dict.Valid, Dict.Contents, Iteration.Valid, Iteration.Todo, Iteration.Returned, Consistent, Flat, Bucket;
      if entry.key in doomed {
        FewerValues(ht.entries, {entry.key});
        DeleteReturned();
      }
      ghost var contents, todo := ht.Contents(), Todo();
      var e := Next();
      assert ht.Contents() == contents;
    }
  }

  lemma {:induction false} FlatDrop<T>(chains: seq<seq<T>>, h: nat, p: nat, chains': seq<seq<T>>, i: nat)
    requires Dropped(chains, h, p, chains') && h < i
    ensures Flat(chains', i) == Flat(chains, i)
    decreases |chains| - i
  {
    if i < |chains| { FlatDrop(chains, h, p, chains', i + 1); }
  }

  /** The entry just returned is the one `dictDelete` unlinks. */
  lemma SamePlace<V>(table: seq<Entry?<V>>, sizemask: nat, used: nat, chains: seq<seq<Entry<V>>>,
                     entries: map<bytes, Entry<V>>,
                     nx: map<Entry<V>, Entry?<V>>, i: nat, p: nat, h: nat, q: nat)
    requires Consistent(table, sizemask, used, chains, entries, nx)
    requires i < |chains| && p < |chains[i]| && h < |chains| && q < |chains[h]| && chains[h][q] == chains[i][p]
    ensures h == i && q == p
  {
    hide Consistent, Listed, PowerOfTwo, TableSize, AllLinked;
    Unfolded(table, sizemask, used, chains, entries, nx);
    DifferentKeys(chains, entries, i, p, h, q);
  }

  /**
   A whole iteration in which the caller deletes some of the entries as they are returned: every entry of the
   original table is returned exactly once, and the entries not deleted remain.
   */
  method Sweep<V>(ht: Dict<V>, doomed: set<bytes>) returns (visited: seq<Entry<V>>)
    requires ht.Valid()
    modifies ht, ht.table, ht.entries.Values`next
    ensures ht.Valid() && Enumerates(visited, old(ht.entries))
    ensures ht.entries == old(ht.entries) - doomed && ht.Contents() == old(ht.Contents()) - doomed
  {
    hide Dict.Valid, Dict.Contents, Iteration.Valid, Iteration.Todo, Iteration.Returned, Consistent, Flat;
    hide Enumerates, KeysOf;
    ht.TableOrder();
    var it := new Iteration(ht);
    ghost var all, gone: set<bytes> := it.Todo(), {};
    visited := [];
    KeysOfNone<V>();
    var e := it.Next();
    while it.entry != null
      invariant it.ht == ht && it.Valid() && ht.Valid() && fresh(it) && ht.table == old(ht.table) && it.Returned()
      invariant |visited| <= |all| && visited == all[..|visited|]
      invariant if it.entry == null then |visited| == |all|
                else |visited| < |all| && it.entry == all[|visited|] && it.Todo() == all[|visited| + 1..]
      invariant gone == KeysOf(visited) * doomed && ht.entries.Values <= old(ht.entries.Values)
      invariant ht.entries == old(ht.entries) - gone && ht.Contents() == old(ht.Contents()) - gone
      decreases |all| - |visited|
    {
      KeysOfMore(visited, it.entry);
      visited := visited + [it.entry];
      MinusTwice(old(ht.entries), gone, {it.entry.key} * doomed);
      MinusTwice(old(ht.Contents()), gone, {it.entry.key} * doomed);
      gone := gone + {it.entry.key} * doomed;
      it.Pass(doomed);
    }
    assert visited == all;
    EveryKey(all, old(ht.entries));
    MinusSome(old(ht.entries), doomed);
    MinusSome(old(ht.Contents()), doomed);
  }

  lemma MinusTwice<K, T>(m: map<K, T>, a: set<K>, b: set<K>)
    ensures m - a - b == m - (a + b)
  {
  }

  lemma MinusSome<K, T>(m: map<K, T>, a: set<K>)
    ensures m - m.Keys * a == m - a
  {
  }

  lemma FewerValues<K, T>(m: map<K, T>, s: set<K>)
    ensures (m - s).Values <= m.Values
  {
    forall v | v in (m - s).Values
      ensures v in m.Values
    {
      var k :| k in m - s && (m - s)[k] == v;
      assert m[k] == v;
    }
  }

  ghost function KeysOf<V>(es: seq<Entry<V>>): set<bytes> {
    set e | e in es :: e.key
  }

  lemma KeysOfNone<V>()
    ensures KeysOf<V>([]) == {}
  {
  }

  lemma KeysOfMore<V>(es: seq<Entry<V>>, e: Entry<V>)
    ensures KeysOf(es + [e]) == KeysOf(es) + {e.key}
  {
    forall k | k in KeysOf(es) + {e.key}
      ensures k in KeysOf(es + [e])
    {
      if k == e.key { assert e in es + [e]; } else { var x :| x in es && x.key == k; assert x in es + [e]; }
    }
  }

  lemma EveryKey<V>(es: seq<Entry<V>>, entries: map<bytes, Entry<V>>)
    requires Enumerates(es, entries)
    ensures KeysOf(es) == entries.Keys
  {
    forall k | k in entries
      ensures k in KeysOf(es)
    {
      assert entries[k] in es && entries[k].key == k;
    }
  }
}
