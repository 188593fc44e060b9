/** The keys of BasicHashTable.cpp and the bucket each one selects. */
module HashKeys {

  const U32 := 0x1_0000_0000
  const U64 := 0x1_0000_0000_0000_0000

  /** A C string, one machine word, or a fixed number of 32-bit words. */
  datatype Key = Str(s: string) | Word(w: nat) | Words(ws: seq<nat>)

  /** Bitwise and. */
  function And(x: nat, mask: nat): (r: nat)
    ensures r <= mask
  {
    if x == 0 || mask == 0 then 0 else (x % 2) * (mask % 2) + 2 * And(x / 2, mask / 2)
  }

  function Shr(x: nat, n: nat): nat { if n == 0 then x else Shr(x / 2, n - 1) }

  /** A signed char added to an unsigned. */
  function Widen(c: char): nat {
    var u := c as int % 256;
    if u < 128 then u else u + 0xFFFF_FF00
  }

  function StringHash(s: string): nat {
    if s == [] then 0
    else
      var r := StringHash(s[..|s| - 1]);
      (r + r * 8 + Widen(s[|s| - 1])) % U32
  }

  function WordSum(ws: seq<nat>): nat {
    if ws == [] then 0 else (WordSum(ws[..|ws| - 1]) + ws[|ws| - 1]) % U64
  }

  function RandomIndex(i: nat, downShift: nat, mask: nat): nat {
    And(Shr(i * 1103515245 % U64, downShift), mask)
  }

  /** hashIndexFromKey */
  function Index(k: Key, downShift: nat, mask: nat): (i: nat)
    ensures i <= mask
  {
    match k
    case Str(s) => And(StringHash(s), mask)
    case Word(w) => RandomIndex(w, downShift, mask)
    case Words(ws) => RandomIndex(WordSum(ws), downShift, mask)
  }
}

/** BasicHashTable.cpp: chained buckets whose array grows fourfold. */
module HashTables {
  import opened HashKeys
  import opened Seqs

  const SMALL_HASH_TABLE_SIZE := 4
  const REBUILD_MULTIPLIER := 3

  /** Values are pointers; 0 is NULL. */
  type Ptr = nat

  class TableEntry {
    var next: TableEntry?
    const key: Key
    var value: Ptr

    constructor (key: Key, next: TableEntry?)
      ensures this.key == key && this.next == next
    {
      this.key, this.next, value := key, next, 0;
    }
  }

  type Chain = seq<TableEntry>

  function First(c: Chain): TableEntry? { if c == [] then null else c[0] }

  ghost predicate Linked(first: TableEntry?, c: Chain)
    reads c
  {
    && first == First(c)
    && forall j {:trigger c[j].next} :: 0 <= j < |c| ==> c[j].next == First(c[j + 1..])
  }

  ghost predicate Within(cs: seq<Chain>, repr: set<TableEntry>) {
    forall i, j :: 0 <= i < |cs| && 0 <= j < |cs[i]| ==> cs[i][j] in repr
  }

  /** The bucket array holds these chains. */
  ghost predicate Holds(b: array<TableEntry?>, cs: seq<Chain>, repr: set<TableEntry>)
    reads b, repr
  {
    Within(cs, repr) && b.Length == |cs| && forall i :: 0 <= i < |cs| ==> Linked(b[i], cs[i])
  }

  ghost predicate Hashes(ix: Key -> nat, downShift: nat, mask: nat) {
    forall k {:trigger Index(k, downShift, mask)} :: Index(k, downShift, mask) == ix(k)
  }

  /** Every key is in the bucket it selects, and only once. */
  ghost predicate Bucketed(cs: seq<Chain>, ix: Key -> nat) {
    && (forall i, j :: 0 <= i < |cs| && 0 <= j < |cs[i]| ==> ix(cs[i][j].key) == i)
    && (forall i, j, k :: 0 <= i < |cs| && 0 <= j < k < |cs[i]| ==> cs[i][j].key != cs[i][k].key)
  }

  method PushFront(b: array<TableEntry?>, e: TableEntry, index: nat, ghost cs: seq<Chain>, ghost repr: set<TableEntry>)
    requires Holds(b, cs, repr) && index < |cs| && e !in repr
    modifies b, e`next
    ensures Holds(b, Pushed(cs, e, index), repr + {e})
  {
    e.next := b[index];
    b[index] := e;
    ghost var cs' := cs[index := [e] + cs[index]];
    assert ([e] + cs[index])[1..] == cs[index];
    forall i | 0 <= i < |cs'| ensures Linked(b[i], cs'[i]) {
      if i == index {
        forall j | 0 <= j < |cs'[i]| ensures cs'[i][j].next == First(cs'[i][j + 1..]) {
          if j > 0 { assert cs'[i][j + 1..] == cs[i][j..]; }
        }
      }
    }
  }

  method PopFront(b: array<TableEntry?>, index: nat, ghost cs: seq<Chain>, ghost repr: set<TableEntry>)
    returns (e: TableEntry)
    requires Holds(b, cs, repr) && index < |cs| && cs[index] != []
    modifies b
    ensures e == cs[index][0] && Holds(b, cs[index := cs[index][1..]], repr)
  {
    e := b[index];
    b[index] := e.next;
    ghost var c := cs[index][1..];
    forall j | 0 <= j < |c| ensures c[j].next == First(c[j + 1..]) {
      assert c[j] == cs[index][j + 1] && c[j + 1..] == cs[index][j + 2..];
    }
  }

  /** The entries of a table that is bucketed are all different. */
  lemma EntriesDiffer(cs: seq<Chain>, ix: Key -> nat, i: nat, j: nat, i': nat, j': nat)
    requires Bucketed(cs, ix)
    requires i < |cs| && j < |cs[i]| && i' < |cs| && j' < |cs[i']| && (i != i' || j != j')
    ensures cs[i][j].key != cs[i'][j'].key
  {
    if i == i' { assert j < j' || j' < j; }
  }

  /** The relinking of deleteEntry: entry p of its chain is bypassed. */
  method Bypass(b: array<TableEntry?>, index: nat, entry: TableEntry, ghost p: nat,
                ghost cs: seq<Chain>, ghost repr: set<TableEntry>, ghost ix: Key -> nat)
    requires Holds(b, cs, repr) && Bucketed(cs, ix)
    requires index < |cs| && p < |cs[index]| && entry == cs[index][p]
    modifies b, repr`next
    ensures Holds(b, Taken(cs, index, p), repr)
  {
    ghost var c, c' := cs[index], RemoveAt(cs[index], p);
    if b[index] == entry {
      var _ := PopFront(b, index, cs, repr);
      assert c' == c[1..];
      return;
    }
    var prev, q := b[index], 0;
    while prev.next != entry
      invariant q < p && prev == c[q]
      decreases p - q
    {
      assert prev.next == First(c[q + 1..]) == c[q + 1];
      prev := prev.next;
      q := q + 1;
      assert q != p;
    }
    assert prev.next == First(c[q + 1..]) == c[q + 1];
    prev.next := entry.next;
    forall i, j | 0 <= i < |cs| && 0 <= j < |cs[i]| && (i != index || j != q) ensures cs[i][j] != prev {
      EntriesDiffer(cs, ix, i, j, index, q);
    }
    assert entry.next == First(c[p + 1..]);
    forall j | 0 <= j < |c'| ensures c'[j].next == First(c'[j + 1..]) {
      if j < q {
        assert c'[j] == c[j] && First(c'[j + 1..]) == c'[j + 1] == c[j + 1] == First(c[j + 1..]);
      } else if j == q {
        assert c'[q + 1..] == c[p + 1..];
      } else {
        assert c'[j] == c[j + 1] && c'[j + 1..] == c[j + 2..];
      }
    }
  }

  /** Every entry is in the map, with its value. */
  ghost predicate Values(cs: seq<Chain>, m: map<Key, Ptr>, repr: set<TableEntry>)
    requires Within(cs, repr)
    reads repr
  {
    forall i, j :: 0 <= i < |cs| && 0 <= j < |cs[i]| ==> cs[i][j].key in m && m[cs[i][j].key] == cs[i][j].value
  }

  /** Every key of the map has its entry. */
  ghost predicate Covered(cs: seq<Chain>, m: map<Key, Ptr>, ix: Key -> nat) {
    forall k :: k in m ==> InChain(cs, k, ix)
  }

  ghost predicate InChain(cs: seq<Chain>, k: Key, ix: Key -> nat) {
    var i := ix(k);
    i < |cs| && exists j :: 0 <= j < |cs[i]| && cs[i][j].key == k
  }

  function Pushed(cs: seq<Chain>, e: TableEntry, index: nat): seq<Chain>
    requires index < |cs|
  {
    cs[index := [e] + cs[index]]
  }

  lemma PushedBucketed(cs: seq<Chain>, e: TableEntry, index: nat, ix: Key -> nat)
    requires Bucketed(cs, ix) && index == ix(e.key) < |cs|
    requires !InChain(cs, e.key, ix)
    ensures Bucketed(Pushed(cs, e, index), ix)
  {
    var r: seq<Chain> := Pushed(cs, e, index);
    forall i, j, k | 0 <= i < |r| && 0 <= j < k < |r[i]| ensures r[i][j].key != r[i][k].key {
      if i == index {
        assert r[i][k] == cs[i][k - 1];
        if j > 0 { assert r[i][j] == cs[i][j - 1]; }
      }
    }
    forall i, j | 0 <= i < |r| && 0 <= j < |r[i]| ensures ix(r[i][j].key) == i {
      if i == index && j > 0 { assert r[i][j] == cs[i][j - 1]; }
    }
  }

  lemma PushedInChain(cs: seq<Chain>, e: TableEntry, index: nat, k: Key, ix: Key -> nat)
    requires index == ix(e.key) < |cs|
    ensures InChain(Pushed(cs, e, index), k, ix) <==> k == e.key || InChain(cs, k, ix)
  {
    var r: seq<Chain>, i := Pushed(cs, e, index), ix(k);
    assert r[index][0] == e;
    if InChain(cs, k, ix) {
      var j :| 0 <= j < |cs[i]| && cs[i][j].key == k;
      assert r[i][if i == index then j + 1 else j].key == k;
    }
    if InChain(r, k, ix) && k != e.key {
      var j :| 0 <= j < |r[i]| && r[i][j].key == k;
      assert cs[i][if i == index then j - 1 else j].key == k;
    }
  }

  lemma PushedCovered(cs: seq<Chain>, e: TableEntry, index: nat, m: map<Key, Ptr>, ix: Key -> nat)
    requires index == ix(e.key) < |cs| && Covered(cs, m, ix)
    ensures Covered(Pushed(cs, e, index), m[e.key := e.value], ix)
  {
    forall k | k in m[e.key := e.value] ensures InChain(Pushed(cs, e, index), k, ix) {
      PushedInChain(cs, e, index, k, ix);
    }
  }

  lemma PushedValues(cs: seq<Chain>, e: TableEntry, index: nat, m: map<Key, Ptr>, repr: set<TableEntry>)
    requires index < |cs| && Within(cs, repr) && Values(cs, m, repr) && e.key !in m
    ensures Within(Pushed(cs, e, index), repr + {e}) && Values(Pushed(cs, e, index), m[e.key := e.value], repr + {e})
  {
    var r: seq<Chain> := Pushed(cs, e, index);
    assert forall j :: 0 < j < |r[index]| ==> r[index][j] == cs[index][j - 1];
  }

  function Taken(cs: seq<Chain>, index: nat, p: nat): (r: seq<Chain>)
    requires index < |cs| && p < |cs[index]|
  {
    cs[index := RemoveAt(cs[index], p)]
  }

  lemma TakenAt(cs: seq<Chain>, index: nat, p: nat, i: nat, j: nat)
    requires index < |cs| && p < |cs[index]| && i < |cs| && j < |Taken(cs, index, p)[i]|
    ensures var j' := if i == index && j >= p then j + 1 else j;
      j' < |cs[i]| && Taken(cs, index, p)[i][j] == cs[i][j'] && (i != index || j' != p)
  {
  }

  lemma TakenBucketed(cs: seq<Chain>, index: nat, p: nat, ix: Key -> nat)
    requires Bucketed(cs, ix) && index < |cs| && p < |cs[index]|
    ensures Bucketed(Taken(cs, index, p), ix)
  {
    var r: seq<Chain> := Taken(cs, index, p);
    forall i, j | 0 <= i < |r| && 0 <= j < |r[i]| ensures ix(r[i][j].key) == i {
      TakenAt(cs, index, p, i, j);
    }
    forall i, j, k | 0 <= i < |r| && 0 <= j < k < |r[i]| ensures r[i][j].key != r[i][k].key {
      TakenAt(cs, index, p, i, j);
      TakenAt(cs, index, p, i, k);
    }
  }

  lemma TakenCovered(cs: seq<Chain>, index: nat, p: nat, m: map<Key, Ptr>, ix: Key -> nat)
    requires Covered(cs, m, ix) && index < |cs| && p < |cs[index]|
    ensures Covered(Taken(cs, index, p), m - {cs[index][p].key}, ix)
  {
    var r: seq<Chain>, x := Taken(cs, index, p), cs[index][p].key;
    forall k | k in m - {x} ensures InChain(r, k, ix) {
      var i := ix(k);
      assert InChain(cs, k, ix);
      var j :| 0 <= j < |cs[i]| && cs[i][j].key == k;
      assert r[i][if i == index && j > p then j - 1 else j].key == k;
    }
  }

  lemma TakenValues(cs: seq<Chain>, index: nat, p: nat, m: map<Key, Ptr>, ix: Key -> nat, repr: set<TableEntry>)
    requires Within(cs, repr) && Values(cs, m, repr) && Bucketed(cs, ix) && index < |cs| && p < |cs[index]|
    ensures Within(Taken(cs, index, p), repr) && Values(Taken(cs, index, p), m - {cs[index][p].key}, repr)
  {
    var r: seq<Chain>, x := Taken(cs, index, p), cs[index][p].key;
    forall i, j | 0 <= i < |r| && 0 <= j < |r[i]|
      ensures r[i][j] in repr && r[i][j].key in m - {x} && m[r[i][j].key] == r[i][j].value
    {
      TakenAt(cs, index, p, i, j);
      EntriesDiffer(cs, ix, i, if i == index && j >= p then j + 1 else j, index, p);
    }
  }

  /** A bucket array that represents a map. */
  ghost predicate Stores(b: array<TableEntry?>, cs: seq<Chain>, m: map<Key, Ptr>, ix: Key -> nat, repr: set<TableEntry>)
    reads b, repr
  {
    Holds(b, cs, repr) && Bucketed(cs, ix) && Values(cs, m, repr) && Covered(cs, m, ix)
  }

  method Attach(b: array<TableEntry?>, entry: TableEntry, index: nat,
                ghost cs: seq<Chain>, ghost m: map<Key, Ptr>, ghost ix: Key -> nat, ghost repr: set<TableEntry>)
    requires Stores(b, cs, m, ix, repr) && entry.key !in m && index == ix(entry.key) < |cs|
    requires entry !in repr
    modifies b, entry`next
    ensures Stores(b, Pushed(cs, entry, index), m[entry.key := entry.value], ix, repr + {entry})
  {
    NotCovered(cs, m, ix, entry.key, repr);
    PushedBucketed(cs, entry, index, ix);
    PushedCovered(cs, entry, index, m, ix);
    PushFront(b, entry, index, cs, repr);
    PushedValues(cs, entry, index, m, repr);
  }

  lemma KeyInMap(cs: seq<Chain>, m: map<Key, Ptr>, index: nat, j: nat, repr: set<TableEntry>)
    requires Within(cs, repr) && Values(cs, m, repr) && index < |cs| && j < |cs[index]|
    ensures cs[index][j].key in m && |m - {cs[index][j].key}| == |m| - 1
  {
    var k := cs[index][j].key;
    assert m.Keys == (m - {k}).Keys + {k};
  }

  lemma NotCovered(cs: seq<Chain>, m: map<Key, Ptr>, ix: Key -> nat, key: Key, repr: set<TableEntry>)
    requires Within(cs, repr) && Values(cs, m, repr) && key !in m
    ensures !InChain(cs, key, ix)
  {
  }

  method Detach(b: array<TableEntry?>, entry: TableEntry, index: nat, ghost j: nat,
                ghost cs: seq<Chain>, ghost m: map<Key, Ptr>, ghost ix: Key -> nat, ghost repr: set<TableEntry>)
    requires Stores(b, cs, m, ix, repr) && index < |cs| && j < |cs[index]| && entry == cs[index][j]
    modifies b, repr`next
    ensures Stores(b, Taken(cs, index, j), m - {entry.key}, ix, repr)
  {
    TakenBucketed(cs, index, j, ix);
    TakenCovered(cs, index, j, m, ix);
    Bypass(b, index, entry, j, cs, repr, ix);
    TakenValues(cs, index, j, m, ix, repr);
  }

  // ---------- moving every entry to a larger array ----------

  /** Some keys are still in the old chains, the others already in the new ones. */
  ghost predicate Moving(os: seq<Chain>, ns: seq<Chain>, m: map<Key, Ptr>, ix: Key -> nat, ix': Key -> nat) {
    && Bucketed(os, ix) && Bucketed(ns, ix')
    && (forall k :: k in m ==> InChain(os, k, ix) || InChain(ns, k, ix'))
    && (forall k :: InChain(os, k, ix) ==> !InChain(ns, k, ix'))
  }

  lemma TakenInChain(cs: seq<Chain>, index: nat, p: nat, k: Key, ix: Key -> nat)
    requires Bucketed(cs, ix) && index < |cs| && p < |cs[index]|
    ensures InChain(Taken(cs, index, p), k, ix) <==> InChain(cs, k, ix) && k != cs[index][p].key
  {
    var r: seq<Chain>, i := Taken(cs, index, p), ix(k);
    if InChain(cs, k, ix) && k != cs[index][p].key {
      var j :| 0 <= j < |cs[i]| && cs[i][j].key == k;
      assert r[i][if i == index && j > p then j - 1 else j].key == k;
    }
    if InChain(r, k, ix) {
      var j :| 0 <= j < |r[i]| && r[i][j].key == k;
      TakenAt(cs, index, p, i, j);
      var j' := if i == index && j >= p then j + 1 else j;
      assert cs[i][j'].key == k;
      EntriesDiffer(cs, ix, i, j', index, p);
    }
  }

  lemma MoveStep(os: seq<Chain>, ns: seq<Chain>, m: map<Key, Ptr>, ix: Key -> nat, ix': Key -> nat, i: nat)
    requires Moving(os, ns, m, ix, ix') && i < |os| && os[i] != [] && ix'(os[i][0].key) < |ns|
    ensures var e := os[i][0]; Moving(Taken(os, i, 0), Pushed(ns, e, ix'(e.key)), m, ix, ix')
  {
    var e := os[i][0];
    var index := ix'(e.key);
    assert ix(e.key) == i && InChain(os, e.key, ix);
    TakenBucketed(os, i, 0, ix);
    PushedBucketed(ns, e, index, ix');
    forall k
      ensures InChain(Taken(os, i, 0), k, ix) <==> InChain(os, k, ix) && k != e.key
      ensures InChain(Pushed(ns, e, index), k, ix') <==> k == e.key || InChain(ns, k, ix')
    {
      TakenInChain(os, i, 0, k, ix);
      PushedInChain(ns, e, index, k, ix');
    }
  }

  lemma Moved(os: seq<Chain>, ns: seq<Chain>, m: map<Key, Ptr>, ix: Key -> nat, ix': Key -> nat)
    requires Moving(os, ns, m, ix, ix') && forall i :: 0 <= i < |os| ==> os[i] == []
    ensures Covered(ns, m, ix')
  {
  }

  lemma Dropped(os: seq<Chain>, i: nat, ix: Key -> nat, left: set<TableEntry>)
    requires Bucketed(os, ix) && Within(os, left) && i < |os| && os[i] != []
    ensures Taken(os, i, 0) == os[i := os[i][1..]] && Within(Taken(os, i, 0), left - {os[i][0]})
  {
    var r: seq<Chain> := Taken(os, i, 0);
    assert RemoveAt(os[i], 0) == os[i][1..];
    forall a, b | 0 <= a < |r| && 0 <= b < |r[a]| ensures r[a][b] in left - {os[i][0]} {
      TakenAt(os, i, 0, a, b);
      EntriesDiffer(os, ix, a, if a == i then b + 1 else b, i, 0);
    }
  }

  /** A bucket array that holds part of a map. */
  ghost predicate Part(b: array<TableEntry?>, cs: seq<Chain>, m: map<Key, Ptr>, repr: set<TableEntry>)
    reads b, repr
  {
    Holds(b, cs, repr) && Values(cs, m, repr)
  }

  method PopPart(b: array<TableEntry?>, i: nat, ghost cs: seq<Chain>, ghost m: map<Key, Ptr>,
                 ghost ix: Key -> nat, ghost left: set<TableEntry>)
    returns (e: TableEntry)
    requires Part(b, cs, m, left) && Bucketed(cs, ix) && i < |cs| && cs[i] != []
    modifies b
    ensures e == cs[i][0] && e in left && Part(b, Taken(cs, i, 0), m, left - {e})
    ensures e.key in m && m[e.key] == e.value
  {
    Dropped(cs, i, ix, left);
    e := PopFront(b, i, cs, left);
  }

  method PushPart(b: array<TableEntry?>, e: TableEntry, index: nat,
                  ghost cs: seq<Chain>, ghost m: map<Key, Ptr>, ghost moved: set<TableEntry>)
    requires Part(b, cs, m, moved) && index < |cs| && e !in moved && e.key in m && m[e.key] == e.value
    modifies b, e`next
    ensures Part(b, Pushed(cs, e, index), m, moved + {e})
  {
    PushFront(b, e, index, cs, moved);
    ghost var r: seq<Chain> := Pushed(cs, e, index);
    assert forall j :: 0 < j < |r[index]| ==> r[index][j] == cs[index][j - 1];
  }

  /** The first entry of an old bucket becomes the first of its new one. */
  method MoveOne(oldBuckets: array<TableEntry?>, newBuckets: array<TableEntry?>, i: nat, downShift: nat, mask: nat,
                 ghost os: seq<Chain>, ghost ns: seq<Chain>, ghost m: map<Key, Ptr>,
                 ghost ix: Key -> nat, ghost ix': Key -> nat,
                 ghost left: set<TableEntry>, ghost moved: set<TableEntry>)
    returns (ghost ns': seq<Chain>, ghost e: TableEntry)
    requires oldBuckets != newBuckets && left !! moved
    requires Part(oldBuckets, os, m, left) && Part(newBuckets, ns, m, moved) && Moving(os, ns, m, ix, ix')
    requires Hashes(ix', downShift, mask) && |ns| == mask + 1 && i < |os| && os[i] != []
    modifies oldBuckets, newBuckets, left`next
    ensures e in left && e == os[i][0] && |ns'| == |ns|
    ensures Part(oldBuckets, Taken(os, i, 0), m, left - {e}) && Part(newBuckets, ns', m, moved + {e})
    ensures Moving(Taken(os, i, 0), ns', m, ix, ix')
  {
    assert Index(os[i][0].key, downShift, mask) == ix'(os[i][0].key);
    MoveStep(os, ns, m, ix, ix', i);
    var h := PopPart(oldBuckets, i, os, m, ix, left);
    e := h;
    var index := Index(h.key, downShift, mask);
    ns' := Pushed(ns, h, index);
    PushPart(newBuckets, h, index, ns, m, moved);
  }

  ghost predicate EmptyBelow(os: seq<Chain>, i: nat) {
    i <= |os| && forall k :: 0 <= k < i ==> os[k] == []
  }

  /** The inner loop of rebuild: empty bucket i. */
  method MoveChain(oldBuckets: array<TableEntry?>, newBuckets: array<TableEntry?>, i: nat, downShift: nat, mask: nat,
                   ghost os: seq<Chain>, ghost ns: seq<Chain>, ghost m: map<Key, Ptr>,
                   ghost ix: Key -> nat, ghost ix': Key -> nat,
                   ghost left: set<TableEntry>, ghost moved: set<TableEntry>)
    returns (ghost os': seq<Chain>, ghost ns': seq<Chain>, ghost left': set<TableEntry>, ghost moved': set<TableEntry>)
    requires oldBuckets != newBuckets && left !! moved
    requires Part(oldBuckets, os, m, left) && Part(newBuckets, ns, m, moved) && Moving(os, ns, m, ix, ix')
    requires Hashes(ix', downShift, mask) && |ns| == mask + 1 && i < |os| && EmptyBelow(os, i)
    modifies oldBuckets, newBuckets, left`next
    ensures |ns'| == |ns| && |os'| == |os| && EmptyBelow(os', i + 1)
    ensures left' <= left && left' !! moved' && moved' <= moved + left
    ensures Part(oldBuckets, os', m, left') && Part(newBuckets, ns', m, moved') && Moving(os', ns', m, ix, ix')
  {
    os', ns', left', moved' := os, ns, left, moved;
    while oldBuckets[i] != null
      invariant |ns'| == |ns| && |os'| == |os| && EmptyBelow(os', i)
      invariant left' <= left && left' !! moved' && moved' <= moved + left
      invariant Part(oldBuckets, os', m, left') && Part(newBuckets, ns', m, moved') && Moving(os', ns', m, ix, ix')
      decreases |os'[i]|
    {
      assert Linked(oldBuckets[i], os'[i]);
      ghost var e;
      ns', e := MoveOne(oldBuckets, newBuckets, i, downShift, mask, os', ns', m, ix, ix', left', moved');
      os', left', moved' := Taken(os', i, 0), left' - {e}, moved' + {e};
    }
    assert Linked(oldBuckets[i], os'[i]);
  }

  /** The relinking loops of rebuild. */
  method MoveAll(oldBuckets: array<TableEntry?>, newBuckets: array<TableEntry?>, downShift: nat, mask: nat,
                 ghost cs: seq<Chain>, ghost m: map<Key, Ptr>, ghost ix: Key -> nat, ghost ix': Key -> nat,
                 ghost repr: set<TableEntry>)
    returns (ghost ns: seq<Chain>, ghost moved: set<TableEntry>)
    requires oldBuckets != newBuckets && Stores(oldBuckets, cs, m, ix, repr)
    requires newBuckets.Length == mask + 1 && forall i :: 0 <= i < newBuckets.Length ==> newBuckets[i] == null
    requires Hashes(ix', downShift, mask)
    modifies oldBuckets, newBuckets, repr`next
    ensures |ns| == mask + 1 && moved <= repr && Stores(newBuckets, ns, m, ix', moved)
  {
    ghost var os, left := cs, repr;
    ns, moved := seq(mask + 1, _ => []), {};
    var i := 0;
    while i < oldBuckets.Length
      invariant oldBuckets.Length == |os| && |ns| == mask + 1 && EmptyBelow(os, i)
      invariant left <= repr && moved <= repr && left !! moved
      invariant Part(oldBuckets, os, m, left) && Part(newBuckets, ns, m, moved) && Moving(os, ns, m, ix, ix')
    {
      os, ns, left, moved := MoveChain(oldBuckets, newBuckets, i, downShift, mask, os, ns, m, ix, ix', left, moved);
      i := i + 1;
    }
    Moved(os, ns, m, ix, ix');
  }

  /** The bucket count after n rebuilds. */
  function Buckets(n: nat): nat { if n == 0 then SMALL_HASH_TABLE_SIZE else 4 * Buckets(n - 1) }

  lemma {:induction false} BucketsGrow(n: nat, k: nat)
    requires n <= k
    ensures 4 <= Buckets(n) <= Buckets(k)
    decreases k
  {
    if n < k { BucketsGrow(n, k - 1); } else if n > 0 { BucketsGrow(n - 1, n - 1); }
  }

  /** 2^30 buckets: the last size that the 32-bit fields can hold. */
  const MAX_REBUILDS := 14
  const MAX_BUCKETS := 0x4000_0000

  lemma RoomToRebuild(n: nat)
    requires n <= MAX_REBUILDS
    ensures Buckets(n) <= MAX_BUCKETS && (Buckets(n) < MAX_BUCKETS ==> n < MAX_REBUILDS)
  {
    var b := Buckets(10);
    assert Buckets(2) == 64 && Buckets(4) == 1024 && Buckets(6) == 0x4000 && Buckets(8) == 0x4_0000;
    assert b == 0x40_0000;
    assert Buckets(12) == 0x400_0000 && Buckets(14) == MAX_BUCKETS;
    BucketsGrow(n, 14);
  }

  method WriteValue(b: array<TableEntry?>, entry: TableEntry, index: nat, value: Ptr, ghost j: nat,
                    ghost cs: seq<Chain>, ghost m: map<Key, Ptr>, ghost ix: Key -> nat, ghost repr: set<TableEntry>)
    requires Stores(b, cs, m, ix, repr) && index < |cs| && j < |cs[index]| && entry == cs[index][j]
    modifies entry`value
    ensures Stores(b, cs, m[entry.key := value], ix, repr) && |m[entry.key := value]| == |m|
  {
    assert entry.key in m;
    assert m[entry.key := value].Keys == m.Keys;
    entry.value := value;
    forall i', j' | 0 <= i' < |cs| && 0 <= j' < |cs[i']| && (i' != index || j' != j)
      ensures cs[i'][j'].key != entry.key
    {
      EntriesDiffer(cs, ix, i', j', index, j);
    }
  }

  lemma MayRebuild(n: nat, entries: nat)
    requires n <= MAX_REBUILDS && entries < REBUILD_MULTIPLIER * MAX_BUCKETS
    ensures Buckets(n) > 0 && (entries >= REBUILD_MULTIPLIER * Buckets(n) ==> n < MAX_REBUILDS)
  {
    RoomToRebuild(n);
    BucketsGrow(n, n);
  }

  class BasicHashTable {
    var buckets: array<TableEntry?>
    var numBuckets: nat
    var numEntries: nat
    var rebuildSize: nat
    var downShift: nat
    var mask: nat

    ghost var rebuilds: nat
    ghost var ix: Key -> nat      // the bucket that each key selects at the present size
    ghost var chains: seq<Chain>
    ghost var m: map<Key, Ptr>
    ghost var repr: set<TableEntry>

    ghost predicate SizedFor(n: nat, entries: nat)
      reads this
    {
      && rebuilds <= MAX_REBUILDS
      && numBuckets == Buckets(rebuilds) == n == mask + 1
      && rebuildSize == REBUILD_MULTIPLIER * numBuckets
      && downShift == 28 - 2 * rebuilds
      && numEntries == entries
    }

    ghost predicate Sized()
      reads this
    {
      SizedFor(|chains|, |m|)
    }

    ghost predicate Sound()
      reads this, buckets, repr
    {
      && Sized()
      && Hashes(ix, downShift, mask)
      && Stores(buckets, chains, m, ix, repr)
    }

    ghost predicate Valid()
      reads this, buckets, repr
    {
      Sound() && numEntries < rebuildSize
    }

    /** All that iteration relies on. */
    ghost predicate Listed()
      reads this, buckets, repr
    {
      numBuckets == |chains| && Holds(buckets, chains, repr)
    }

    constructor ()
      ensures Valid() && m == map[] && fresh(buckets) && repr == {}
    {
      numBuckets, numEntries := SMALL_HASH_TABLE_SIZE, 0;
      rebuildSize := SMALL_HASH_TABLE_SIZE * REBUILD_MULTIPLIER;
      downShift, mask := 28, 0x3;
      buckets := new TableEntry?[SMALL_HASH_TABLE_SIZE](_ => null);
      chains, m, rebuilds := [[], [], [], []], map[], 0;
      ix, repr := k => Index(k, 28, 3), {};
    }

    method LookupKey(key: Key) returns (entry: TableEntry?, index: nat, ghost j: nat)
      requires Sound()
      ensures index == Index(key, downShift, mask) < |chains|
      ensures entry == null <==> key !in m
      ensures entry != null ==> j < |chains[index]| && entry == chains[index][j] && entry.key == key
      ensures entry != null ==> entry.value == m[key]
    {
      index := Index(key, downShift, mask);
      entry, j := buckets[index], 0;
      while entry != null
        invariant j <= |chains[index]| && entry == First(chains[index][j..])
        invariant forall i :: 0 <= i < j ==> chains[index][i].key != key
        decreases |chains[index]| - j
      {
        if entry.key == key { return; }
        entry := entry.next;
        j := j + 1;
      }
    }

    method Lookup(key: Key) returns (value: Ptr)
      requires Valid()
      ensures value == if key in m then m[key] else 0
    {
      var entry, index, j := LookupKey(key);
      if entry == null { return 0; }
      return entry.value;
    }

    /** insertNewEntry, with the value that Add then stores. */
    method InsertNewEntry(index: nat, key: Key, value: Ptr)
      requires Sound() && key !in m && index == Index(key, downShift, mask) < |chains|
      modifies `numEntries, `chains, `m, `repr, buckets
      ensures Sound() && m == old(m)[key := value] && numEntries == old(numEntries) + 1 && fresh(repr - old(repr))
    {
      var entry := new TableEntry(key, null);
      entry.value := value;
      Attach(buckets, entry, index, chains, m, ix, repr);
      Account(numEntries + 1, Pushed(chains, entry, index), m[key := value], repr + {entry});
    }

    /** Take note of what the links have come to hold. */
    method Account(n: nat, ghost cs: seq<Chain>, ghost m': map<Key, Ptr>, ghost r: set<TableEntry>)
      requires Sized() && Hashes(ix, downShift, mask) && |cs| == |chains| && n == |m'|
      requires Stores(buckets, cs, m', ix, r)
      modifies `numEntries, `chains, `m, `repr
      ensures Sound() && m == m' && repr == r && numEntries == n
    {
      numEntries := n;
      chains, m, repr := cs, m', r;
    }

    /** What Add does when the key is there. */
    method Overwrite(entry: TableEntry, index: nat, value: Ptr, ghost j: nat)
      requires Sound() && index < |chains| && j < |chains[index]| && entry == chains[index][j]
      modifies `numEntries, `chains, `m, `repr, entry`value
      ensures Sound() && m == old(m)[entry.key := value] && numEntries == old(numEntries) && repr == old(repr)
    {
      WriteValue(buckets, entry, index, value, j, chains, m, ix, repr);
      Account(numEntries, chains, m[entry.key := value], repr);
    }

    method DeleteEntry(index: nat, entry: TableEntry, ghost j: nat)
      requires Sound() && index < |chains| && j < |chains[index]| && entry == chains[index][j]
      modifies `numEntries, `chains, `m, `repr, buckets, repr`next
      ensures Sound() && m == old(m) - {entry.key} && repr == old(repr)
    {
      KeyInMap(chains, m, index, j, repr);
      Detach(buckets, entry, index, j, chains, m, ix, repr);
      Account(numEntries - 1, Taken(chains, index, j), m - {entry.key}, repr);
    }

    method Remove(key: Key) returns (removed: bool)
      requires Valid()
      modifies `numEntries, `chains, `m, `repr, buckets, repr`next
      ensures Valid() && removed == (key in old(m)) && m == old(m) - {key} && repr == old(repr)
    {
      var entry, index, j := LookupKey(key);
      if entry == null { return false; }
      DeleteEntry(index, entry, j);
      removed := true;
    }

    method Rebuild()
      requires Sound() && numEntries >= rebuildSize && rebuilds < MAX_REBUILDS
      modifies this, buckets, repr`next
      ensures Sound() && m == old(m) && rebuilds == old(rebuilds) + 1
      ensures numEntries == old(numEntries) && rebuildSize == 4 * old(rebuildSize)
      ensures fresh(buckets) && repr <= old(repr)
    {
      var size := 4 * numBuckets;
      // (fMask << 2) | 0x3: the two low bits are free after the shift
      var newShift, newMask := downShift - 2, 4 * mask + 3;
      var newBuckets := new TableEntry?[size](_ => null);
      ghost var ix' := k => Index(k, newShift, newMask);
      ghost var cs, moved := MoveAll(buckets, newBuckets, newShift, newMask, chains, m, ix, ix', repr);
      Install(newBuckets, size, newShift, newMask, cs, ix', moved);
    }

    method Install(b: array<TableEntry?>, size: nat, shift: nat, newMask: nat,
                   ghost cs: seq<Chain>, ghost ix': Key -> nat, ghost moved: set<TableEntry>)
      requires Sized() && rebuilds < MAX_REBUILDS && Stores(b, cs, m, ix', moved) && Hashes(ix', shift, newMask)
      requires size == 4 * numBuckets == |cs| && newMask == size - 1 && shift == downShift - 2
      modifies this
      ensures Sound() && m == old(m) && buckets == b && repr == moved && rebuilds == old(rebuilds) + 1
      ensures numEntries == old(numEntries) && rebuildSize == 4 * old(rebuildSize)
    {
      Resize(size, shift, newMask, |cs|);
      Adopt(b, cs, ix', moved);
    }

    /** The new sizes, before the new buckets are in place. */
    method Resize(size: nat, shift: nat, newMask: nat, ghost n: nat)
      requires Sized() && rebuilds < MAX_REBUILDS
      requires size == 4 * numBuckets == n && newMask == size - 1 && shift == downShift - 2
      modifies `numBuckets, `rebuildSize, `downShift, `mask, `rebuilds
      ensures numBuckets == size && downShift == shift && mask == newMask
      ensures rebuilds == old(rebuilds) + 1 && rebuildSize == 4 * old(rebuildSize)
      ensures SizedFor(n, |m|)
    {
      numBuckets, rebuildSize := size, 4 * rebuildSize;
      downShift, mask := shift, newMask;
      rebuilds := rebuilds + 1;
    }

    method Adopt(b: array<TableEntry?>, ghost cs: seq<Chain>, ghost ix': Key -> nat, ghost moved: set<TableEntry>)
      requires Stores(b, cs, m, ix', moved)
      modifies `buckets, `chains, `ix, `repr
      ensures buckets == b && chains == cs && ix == ix' && repr == moved
      ensures Stores(b, cs, m, ix', moved)
    {
      buckets, chains, ix, repr := b, cs, ix', moved;
    }

    /** The end of Add. One insertion never asks for two rebuilds. */
    method GrowIfFull()
      requires Sound() && numEntries <= rebuildSize && numEntries < REBUILD_MULTIPLIER * MAX_BUCKETS
      modifies this, buckets, repr`next
      ensures Valid() && m == old(m) && repr <= old(repr) && (buckets == old(buckets) || fresh(buckets))
    {
      MayRebuild(rebuilds, numEntries);
      if numEntries >= rebuildSize { Rebuild(); }
    }

    /** Add: the old value, or NULL. The table has room for fewer than 3 * 2^30 entries. */
    method Add(key: Key, value: Ptr) returns (oldValue: Ptr)
      requires Valid() && (key in m || |m| + 1 < REBUILD_MULTIPLIER * MAX_BUCKETS)
      modifies this, buckets, repr
      ensures Valid() && m == old(m)[key := value]
      ensures oldValue == if key in old(m) then old(m)[key] else 0
      ensures fresh(repr - old(repr)) && (buckets == old(buckets) || fresh(buckets))
    {
      RoomToRebuild(rebuilds);
      oldValue := Store(key, value);
      GrowIfFull();
    }

    method Store(key: Key, value: Ptr) returns (oldValue: Ptr)
      requires Valid()
      modifies `numEntries, `chains, `m, `repr, buckets, repr
      ensures Sound() && m == old(m)[key := value] && numEntries <= rebuildSize
      ensures oldValue == (if key in old(m) then old(m)[key] else 0) && fresh(repr - old(repr))
    {
      var entry, index, j := LookupKey(key);
      if entry != null {
        oldValue := entry.value;
        Overwrite(entry, index, value, j);
      } else {
        InsertNewEntry(index, key, value);
        oldValue := 0;
      }
    }
  }

  // ---------- iteration ----------

  /** All entries, bucket by bucket. */
  function Flat(cs: seq<Chain>): Chain {
    if cs == [] then [] else Flat(cs[..|cs| - 1]) + cs[|cs| - 1]
  }

  class Iterator {
    const table: BasicHashTable
    var nextIndex: nat
    var nextEntry: TableEntry?
    ghost var rest: Chain   // what is left of the current chain

    ghost predicate Valid()
      reads this, table, table.buckets, table.repr
    {
      && table.Listed()
      && nextIndex <= |table.chains|
      && (rest == [] || (nextIndex > 0 && IsSuffix(rest, table.chains[nextIndex - 1])))
      && nextEntry == First(rest)
    }

    /** How many entries have been yielded. */
    ghost function Done(): int
      requires Valid()
      reads this, table, table.buckets, table.repr
    {
      |Flat(table.chains[..nextIndex])| - |rest|
    }

    constructor (table: BasicHashTable)
      requires table.Listed()
      ensures Valid() && Done() == 0 && this.table == table
    {
      this.table, nextIndex, nextEntry, rest := table, 0, null, [];
    }

    /** Go to the next bucket until there is an entry. */
    method Seek()
      requires Valid()
      modifies this
      ensures Valid() && Done() == old(Done())
      ensures nextEntry == null ==> Done() == |Flat(table.chains)|
    {
      while nextEntry == null
        invariant Valid() && Done() == old(Done())
        decreases |table.chains| - nextIndex
      {
        if nextIndex >= table.numBuckets {
          assert table.chains[..nextIndex] == table.chains;
          return;
        }
        FlatSnoc(table.chains, nextIndex);
        assert Linked(table.buckets[nextIndex], table.chains[nextIndex]);
        nextEntry := table.buckets[nextIndex];
        rest := table.chains[nextIndex];
        nextIndex := nextIndex + 1;
      }
    }

    /** next: the entries come in the order of Flat, one by one, and then NULL. */
    method Next() returns (entry: TableEntry?)
      requires Valid()
      modifies this
      ensures Valid() && 0 <= old(Done()) <= |Flat(table.chains)|
      ensures old(Done()) == |Flat(table.chains)| ==> entry == null && Done() == old(Done())
      ensures old(Done()) < |Flat(table.chains)| ==>
        entry == Flat(table.chains)[old(Done())] && Done() == old(Done()) + 1
    {
      FlatPrefix(table.chains, nextIndex, rest);
      Seek();
      FlatPrefix(table.chains, nextIndex, rest);
      if nextEntry == null { return null; }
      entry := Yield();
    }

    method Yield() returns (entry: TableEntry)
      requires Valid() && nextEntry != null
      modifies this
      ensures Valid() && entry == old(rest)[0] && Done() == old(Done()) + 1
    {
      assert Linked(table.buckets[nextIndex - 1], table.chains[nextIndex - 1]);
      SuffixLinked(table.chains[nextIndex - 1], rest);
      entry := nextEntry;
      nextEntry := entry.next;
      rest := rest[1..];
    }
  }

  ghost predicate IsSuffix(r: Chain, c: Chain) { |r| <= |c| && c[|c| - |r|..] == r }

  lemma SuffixLinked(c: Chain, r: Chain)
    requires IsSuffix(r, c) && r != []
    ensures IsSuffix(r[1..], c) && r[0] == c[|c| - |r|] && c[|c| - |r| + 1..] == r[1..]
  {
  }

  lemma FlatSnoc(cs: seq<Chain>, i: nat)
    requires i < |cs|
    ensures Flat(cs[..i + 1]) == Flat(cs[..i]) + cs[i]
  {
    assert cs[..i + 1][..i] == cs[..i];
  }

  lemma {:induction false} FlatLonger(cs: seq<Chain>, i: nat)
    requires i <= |cs|
    ensures Flat(cs[..i]) <= Flat(cs)
    decreases |cs| - i
  {
    if i == |cs| {
      assert cs[..i] == cs;
    } else {
      FlatSnoc(cs, i);
      FlatLonger(cs, i + 1);
    }
  }

  /** The rest of the current chain is what follows the entries already yielded. */
  lemma FlatPrefix(cs: seq<Chain>, i: nat, rest: Chain)
    requires i <= |cs| && (rest == [] || (i > 0 && IsSuffix(rest, cs[i - 1])))
    ensures |rest| <= |Flat(cs[..i])| <= |Flat(cs)|
    ensures rest != [] ==> Flat(cs)[|Flat(cs[..i])| - |rest|] == rest[0]
  {
    FlatLonger(cs, i);
    if rest != [] { FlatSnoc(cs, i - 1); }
  }

  lemma {:induction false} FlatPlace(cs: seq<Chain>, p: nat) returns (i: nat, j: nat)
    requires p < |Flat(cs)|
    ensures i < |cs| && j < |cs[i]| && cs[i][j] == Flat(cs)[p]
  {
    var n := |cs| - 1;
    if p < |Flat(cs[..n])| {
      i, j := FlatPlace(cs[..n], p);
    } else {
      i, j := n, p - |Flat(cs[..n])|;
    }
  }

  lemma {:induction false} FlatHas(cs: seq<Chain>, i: nat, j: nat) returns (p: nat)
    requires i < |cs| && j < |cs[i]|
    ensures p < |Flat(cs)| && Flat(cs)[p] == cs[i][j]
  {
    var n := |cs| - 1;
    if i < n { p := FlatHas(cs[..n], i, j); } else { p := |Flat(cs[..n])| + j; }
  }

  ghost predicate DistinctKeys(c: Chain) {
    forall p, q :: 0 <= p < q < |c| ==> c[p].key != c[q].key
  }

  lemma {:induction false} FlatDistinct(cs: seq<Chain>, ix: Key -> nat)
    requires Bucketed(cs, ix)
    ensures DistinctKeys(Flat(cs))
  {
    if cs != [] {
      var n := |cs| - 1;
      var f := Flat(cs[..n]);
      FlatDistinct(cs[..n], ix);
      forall p, q | 0 <= p < q < |Flat(cs)| ensures Flat(cs)[p].key != Flat(cs)[q].key {
        if p < |f| <= q {
          var i, j := FlatPlace(cs[..n], p);
          EntriesDiffer(cs, ix, i, j, n, q - |f|);
        }
      }
    }
  }

  lemma {:induction false} KeyCount(c: Chain, keys: set<Key>)
    requires DistinctKeys(c)
    requires forall k :: k in keys <==> exists p :: 0 <= p < |c| && c[p].key == k
    ensures |c| == |keys|
  {
    if c == [] {
      assert keys == {};
    } else {
      var n := |c| - 1;
      var x := c[n].key;
      assert x in keys;
      forall k ensures k in keys - {x} <==> exists p :: 0 <= p < n && c[..n][p].key == k {
        if k in keys && k != x {
          var p :| 0 <= p < |c| && c[p].key == k;
          assert c[..n][p].key == k;
        }
        if p :| 0 <= p < n && c[..n][p].key == k { assert c[p].key == k; }
      }
      KeyCount(c[..n], keys - {x});
    }
  }

  /** A full pass meets every entry of the map, each exactly once. */
  lemma FullPass(cs: seq<Chain>, m: map<Key, Ptr>, ix: Key -> nat, repr: set<TableEntry>)
    requires Within(cs, repr) && Bucketed(cs, ix) && Values(cs, m, repr) && Covered(cs, m, ix)
    ensures forall p :: 0 <= p < |Flat(cs)| ==> Flat(cs)[p].key in m && m[Flat(cs)[p].key] == Flat(cs)[p].value
    ensures DistinctKeys(Flat(cs)) && |Flat(cs)| == |m|
    ensures forall k :: k in m ==> exists p :: 0 <= p < |Flat(cs)| && Flat(cs)[p].key == k
  {
    FlatDistinct(cs, ix);
    forall p | 0 <= p < |Flat(cs)|
      ensures Flat(cs)[p].key in m && m[Flat(cs)[p].key] == Flat(cs)[p].value
    {
      var i, j := FlatPlace(cs, p);
    }
    forall k | k in m ensures exists p :: 0 <= p < |Flat(cs)| && Flat(cs)[p].key == k {
      var i := ix(k);
      assert InChain(cs, k, ix);
      var j :| 0 <= j < |cs[i]| && cs[i][j].key == k;
      var p := FlatHas(cs, i, j);
    }
    KeyCount(Flat(cs), m.Keys);
  }
}
