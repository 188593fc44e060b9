/** The slot array of dictionary.c as a value: which slots are used, and by what. */
module DictionarySlots {
  import opened Options

  datatype Slot = Free | Used(key: string, val: Option<string>)

  /** How one character enters dictionary_hash: a signed char, widened. */
  function Widen(c: char): bv32 {
    var u := c as int % 256;
    (if u < 128 then u else u + 0xFFFF_FF00) as bv32
  }

  function HashStep(hash: bv32, c: char): bv32 {
    var h1 := hash + Widen(c);
    var h2 := h1 + (h1 << 10);
    h2 ^ (h2 >> 6)
  }

  function HashPrefix(key: string): bv32 {
    if key == [] then 0 else HashStep(HashPrefix(key[..|key| - 1]), key[|key| - 1])
  }

  function HashEnd(hash: bv32): bv32 {
    var h1 := hash + (hash << 3);
    var h2 := h1 ^ (h1 >> 11);
    h2 + (h2 << 15)
  }

  function Hash(key: string): bv32 { HashEnd(HashPrefix(key)) }

  /** A known value of this hash. */
  lemma HashOfA()
    ensures Hash("a") == 0xCA2E_9442
  {
    assert "a"[..0] == "";
    assert Widen('a') == 97;
  }

  /** The first slot that holds `key`, or |slots|. */
  function FindFrom(slots: seq<Slot>, key: string, i: nat): (k: nat)
    requires i <= |slots|
    ensures i <= k <= |slots|
    ensures k < |slots| ==> slots[k].Used? && slots[k].key == key
    ensures forall j :: i <= j < k && slots[j].Used? ==> slots[j].key != key
    decreases |slots| - i
  {
    if i == |slots| || (slots[i].Used? && slots[i].key == key) then i else FindFrom(slots, key, i + 1)
  }

  function Find(slots: seq<Slot>, key: string): nat { FindFrom(slots, key, 0) }

  function FirstFreeFrom(slots: seq<Slot>, i: nat): (k: nat)
    requires i <= |slots|
    ensures i <= k <= |slots|
    ensures k < |slots| ==> slots[k].Free?
    ensures forall j :: i <= j < k ==> slots[j].Used?
    decreases |slots| - i
  {
    if i == |slots| || slots[i].Free? then i else FirstFreeFrom(slots, i + 1)
  }

  function FirstFree(slots: seq<Slot>): nat { FirstFreeFrom(slots, 0) }

  function UsedCount(slots: seq<Slot>): (n: nat)
    ensures n <= |slots|
  {
    if slots == [] then 0 else UsedCount(slots[..|slots| - 1]) + if slots[|slots| - 1].Used? then 1 else 0
  }

  function Doubled(slots: seq<Slot>): (r: seq<Slot>)
    ensures |r| == 2 * |slots|
  {
    slots + seq(|slots|, _ => Free)
  }

  function Grown(slots: seq<Slot>): seq<Slot> {
    if UsedCount(slots) == |slots| then Doubled(slots) else slots
  }

  ghost predicate DistinctKeys(slots: seq<Slot>) {
    forall i, j :: 0 <= i < j < |slots| && slots[i].Used? && slots[j].Used? ==> slots[i].key != slots[j].key
  }

  ghost predicate Maps(slots: seq<Slot>, m: map<string, Option<string>>) {
    && DistinctKeys(slots)
    && (forall i :: 0 <= i < |slots| && slots[i].Used? ==> slots[i].key in m && m[slots[i].key] == slots[i].val)
    && (forall k :: k in m ==> Find(slots, k) < |slots|)
  }

  lemma {:induction false} UsedCountUpdate(slots: seq<Slot>, k: nat, x: Slot)
    requires k < |slots|
    ensures UsedCount(slots[k := x]) ==
      UsedCount(slots) + (if x.Used? then 1 else 0) - (if slots[k].Used? then 1 else 0)
  {
    var n := |slots| - 1;
    if k == n {
      assert slots[k := x][..n] == slots[..n];
    } else {
      assert slots[k := x][..n] == slots[..n][k := x];
      UsedCountUpdate(slots[..n], k, x);
    }
  }

  lemma {:induction false} UsedCountAppendFree(slots: seq<Slot>, n: nat)
    ensures UsedCount(slots + seq(n, _ => Free)) == UsedCount(slots)
  {
    var r := slots + seq(n, _ => Free);
    if n == 0 {
      assert r == slots;
    } else {
      assert r[..|r| - 1] == slots + seq(n - 1, _ => Free);
      UsedCountAppendFree(slots, n - 1);
    }
  }

  /** With fewer used slots than slots there is a free one. */
  lemma {:induction false} RoomLeft(slots: seq<Slot>)
    requires UsedCount(slots) < |slots|
    ensures FirstFree(slots) < |slots|
  {
    var n := |slots| - 1;
    if slots[n].Used? {
      RoomLeft(slots[..n]);
      var k := FirstFree(slots[..n]);
      assert slots[k].Free?;
    }
  }

  /** dictionary_set: replace in place, or use the first free slot, doubling when full. */
  function SetSlot(slots: seq<Slot>, key: string, val: Option<string>): seq<Slot>
    requires |slots| > 0
  {
    var k := Find(slots, key);
    if k < |slots| then slots[k := Used(key, val)]
    else
      GrownHasRoom(slots);
      Grown(slots)[FirstFree(Grown(slots)) := Used(key, val)]
  }

  lemma GrownHasRoom(slots: seq<Slot>)
    requires |slots| > 0
    ensures FirstFree(Grown(slots)) < |Grown(slots)|
    ensures UsedCount(Grown(slots)) == UsedCount(slots) < |Grown(slots)|
  {
    if UsedCount(slots) == |slots| { UsedCountAppendFree(slots, |slots|); }
    RoomLeft(Grown(slots));
  }

  /** The keys in the order of their slots, which is the order they are dumped in. */
  function Keys(slots: seq<Slot>): seq<string> {
    if slots == [] then []
    else
      var last := slots[|slots| - 1];
      Keys(slots[..|slots| - 1]) + if last.Used? then [last.key] else []
  }

  /** No slot was freed. */
  ghost predicate Packed(slots: seq<Slot>) {
    forall i, j :: 0 <= i < j < |slots| && slots[j].Used? ==> slots[i].Used?
  }

  lemma {:induction false} KeysEnd(slots: seq<Slot>, n: nat)
    requires n <= |slots| && forall i :: n <= i < |slots| ==> slots[i].Free?
    ensures Keys(slots) == Keys(slots[..n])
  {
    if n < |slots| {
      KeysEnd(slots[..|slots| - 1], n);
      assert slots[..|slots| - 1][..n] == slots[..n];
    } else {
      assert slots[..n] == slots;
    }
  }

  lemma {:induction false} KeysReplaced(slots: seq<Slot>, k: nat, val: Option<string>)
    requires k < |slots| && slots[k].Used?
    ensures Keys(slots[k := Used(slots[k].key, val)]) == Keys(slots)
  {
    var n := |slots| - 1;
    if k == n {
      assert slots[k := Used(slots[k].key, val)][..n] == slots[..n];
    } else {
      assert slots[k := Used(slots[k].key, val)][..n] == slots[..n][k := Used(slots[k].key, val)];
      KeysReplaced(slots[..n], k, val);
    }
  }

  lemma {:induction false} PackedEnd(slots: seq<Slot>, key: string, val: Option<string>)
    requires Packed(slots) && FirstFree(slots) < |slots|
    ensures var r := slots[FirstFree(slots) := Used(key, val)]; Packed(r) && Keys(r) == Keys(slots) + [key]
  {
    var c := FirstFree(slots);
    var r := slots[c := Used(key, val)];
    KeysEnd(slots, c);
    KeysEnd(r, c + 1);
    KeysLast(r[..c + 1], slots[..c], key, val);
  }

  lemma KeysLast(r: seq<Slot>, front: seq<Slot>, key: string, val: Option<string>)
    requires |r| == |front| + 1 && r[..|front|] == front && r[|front|] == Used(key, val)
    ensures Keys(r) == Keys(front) + [key]
  {
  }

  lemma PackedGrown(slots: seq<Slot>)
    requires Packed(slots)
    ensures Packed(Grown(slots))
  {
    var g := Grown(slots);
    assert forall i :: 0 <= i < |g| && g[i].Used? ==> i < |slots| && g[i] == slots[i];
  }

  lemma PackedReplaced(slots: seq<Slot>, k: nat, x: Slot)
    requires Packed(slots) && k < |slots| && slots[k].Used? && x.Used?
    ensures Packed(slots[k := x])
  {
  }

  /** As long as nothing is removed, a new key goes to the end and setting an old one again leaves
      it where it is. */
  lemma {:induction false} SetKeepsOrder(slots: seq<Slot>, key: string, val: Option<string>)
    requires |slots| > 0 && Packed(slots)
    ensures Packed(SetSlot(slots, key, val))
    ensures Keys(SetSlot(slots, key, val)) == Keys(slots) + if Find(slots, key) < |slots| then [] else [key]
  {
    var k := Find(slots, key);
    if k < |slots| {
      KeysReplaced(slots, k, val);
      PackedReplaced(slots, k, Used(key, val));
    } else {
      GrownHasRoom(slots);
      PackedGrown(slots);
      KeysGrown(slots);
      PackedEnd(Grown(slots), key, val);
    }
  }

  lemma KeysGrown(slots: seq<Slot>)
    ensures Keys(Grown(slots)) == Keys(slots)
  {
    if UsedCount(slots) == |slots| {
      assert Doubled(slots)[..|slots|] == slots;
      KeysEnd(Doubled(slots), |slots|);
    }
  }

  function UnsetSlot(slots: seq<Slot>, key: string): seq<Slot> {
    var k := Find(slots, key);
    if k < |slots| then slots[k := Free] else slots
  }

  /** Growing moves no entry. */
  lemma GrownMaps(slots: seq<Slot>, m: map<string, Option<string>>)
    requires Maps(slots, m)
    ensures Maps(Grown(slots), m)
  {
    var g := Grown(slots);
    assert forall i :: 0 <= i < |g| && g[i].Used? ==> i < |slots| && g[i] == slots[i];
    forall k | k in m ensures Find(g, k) < |g| {
      var i := Find(slots, k);
      assert g[i] == slots[i];
    }
  }

  lemma DoubledMaps(slots: seq<Slot>, m: map<string, Option<string>>)
    requires Maps(slots, m) && UsedCount(slots) == |slots|
    ensures Maps(Doubled(slots), m) && UsedCount(Doubled(slots)) == UsedCount(slots)
  {
    GrownMaps(slots, m);
    UsedCountAppendFree(slots, |slots|);
  }

  lemma EmptyMaps(size: nat)
    ensures Maps(seq(size, _ => Free), map[]) && UsedCount(seq(size, _ => Free)) == 0
  {
    UsedCountAppendFree([], size);
    assert [] + seq(size, _ => Free) == seq(size, _ => Free);
  }

  /** Setting a key is setting it in the map. */
  lemma SetMaps(slots: seq<Slot>, m: map<string, Option<string>>, key: string, val: Option<string>)
    requires |slots| > 0 && Maps(slots, m)
    ensures Maps(SetSlot(slots, key, val), m[key := val])
    ensures |SetSlot(slots, key, val)| > 0
    ensures UsedCount(SetSlot(slots, key, val)) == UsedCount(slots) + if key in m then 0 else 1
  {
    var k := Find(slots, key);
    GrownHasRoom(slots);
    GrownMaps(slots, m);
    var g, c := if k < |slots| then slots else Grown(slots), if k < |slots| then k else FirstFree(Grown(slots));
    var r, m' := SetSlot(slots, key, val), m[key := val];
    assert r == g[c := Used(key, val)];
    assert key in m <==> k < |slots|;
    UsedCountUpdate(g, c, Used(key, val));
    SlotWritten(g, m, c, key, val);
  }

  lemma SlotWritten(g: seq<Slot>, m: map<string, Option<string>>, c: nat, key: string, val: Option<string>)
    requires Maps(g, m) && c < |g|
    requires if g[c].Used? then g[c].key == key else key !in m
    ensures Maps(g[c := Used(key, val)], m[key := val])
  {
    var r, m' := g[c := Used(key, val)], m[key := val];
    forall i | 0 <= i < |g| && i != c && g[i].Used? ensures g[i].key != key {
      if g[c].Used? { assert i < c || c < i; }
    }
    forall k | k in m' ensures Find(r, k) < |r| {
      if k == key {
        assert r[c].Used? && r[c].key == k;
      } else {
        var i := Find(g, k);
        assert r[i] == g[i];
      }
    }
  }

  /** Removing a key is removing it from the map. */
  lemma UnsetMaps(slots: seq<Slot>, m: map<string, Option<string>>, key: string)
    requires Maps(slots, m)
    ensures Maps(UnsetSlot(slots, key), m - {key})
    ensures |UnsetSlot(slots, key)| == |slots|
    ensures UsedCount(UnsetSlot(slots, key)) == UsedCount(slots) - if key in m then 1 else 0
  {
    var c := Find(slots, key);
    assert key in m <==> c < |slots|;
    if c < |slots| {
      var r := slots[c := Free];
      UsedCountUpdate(slots, c, Free);
      forall k | k in m - {key} ensures Find(r, k) < |r| {
        var i := Find(slots, k);
        assert r[i] == slots[i];
      }
      forall i | 0 <= i < |slots| && i != c && slots[i].Used? ensures slots[i].key != key {
        assert i < c || c < i;
      }
    }
  }
}

/** dictionary.c: three parallel arrays, grown by doubling and searched from the front. */
module Dictionaries {
  import opened Options
  import opened DictionarySlots

  const DICTMINSZ := 128

  /** What one place of the three arrays stands for. */
  ghost predicate SlotIs(slot: Slot, key: Option<string>, val: Option<string>, hash: bv32) {
    match slot
    case Free => key == None
    case Used(k, v) => key == Some(k) && val == v && hash == Hash(k)
  }

  /** mem_double: the new half is filled with zeros. */
  method MemDouble<T>(a: array<T>, zero: T) returns (b: array<T>)
    ensures fresh(b) && b.Length == 2 * a.Length
    ensures forall i :: 0 <= i < a.Length ==> b[i] == a[i]
    ensures forall i :: a.Length <= i < b.Length ==> b[i] == zero
  {
    b := new T[2 * a.Length](_ => zero);
    forall i | 0 <= i < a.Length { b[i] := a[i]; }
  }

  class Dictionary {
    var n: nat
    var size: nat
    var val: array<Option<string>>
    var key: array<Option<string>>
    var hash: array<bv32>

    ghost var slots: seq<Slot>
    ghost var m: map<string, Option<string>>

    /** The three arrays hold the slots. */
    ghost predicate Held()
      reads this, key, val, hash
    {
      && key.Length == val.Length == hash.Length == size == |slots| > 0
      && key != val && key as object != hash && val as object != hash
      && (forall i :: 0 <= i < size ==> SlotIs(slots[i], key[i], val[i], hash[i]))
    }

    ghost predicate Valid()
      reads this, key, val, hash
    {
      Held() && n == UsedCount(slots) && Maps(slots, m)
    }

    constructor (size: int)
      ensures Valid() && m == map[] && fresh(key) && fresh(val) && fresh(hash)
      ensures this.size == if size < DICTMINSZ then DICTMINSZ else size
    {
      var sz := if size < DICTMINSZ then DICTMINSZ else size;
      n, this.size := 0, sz;
      val := new Option<string>[sz](_ => None);
      key := new Option<string>[sz](_ => None);
      hash := new bv32[sz](_ => 0);
      slots, m := seq(sz, _ => Free), map[];
      EmptyMaps(sz);
    }

    method HashOf(key: string) returns (h: bv32)
      ensures h == Hash(key)
    {
      h := 0;
      for i := 0 to |key|
        invariant h == HashPrefix(key[..i])
      {
        assert key[..i + 1][..i] == key[..i];
        h := HashStep(h, key[i]);
      }
      assert key[..|key|] == key;
      h := HashEnd(h);
    }

    /** The search that get, set and unset share: the hash is compared before the key. */
    method Search(k: string, h: bv32) returns (i: nat)
      requires Valid() && h == Hash(k)
      ensures i == Find(slots, k)
    {
      i := 0;
      while i < size
        invariant i <= size
        invariant forall j :: 0 <= j < i && slots[j].Used? ==> slots[j].key != k
      {
        assert SlotIs(slots[i], key[i], val[i], hash[i]);
        if key[i] != None && h == hash[i] && key[i].value == k { return; }
        i := i + 1;
      }
    }

    method Get(k: string, def: Option<string>) returns (r: Option<string>)
      requires Valid()
      ensures r == if k in m then m[k] else def
    {
      var h := HashOf(k);
      var i := Search(k, h);
      if i < size {
        assert SlotIs(slots[i], key[i], val[i], hash[i]);
        return val[i];
      }
      return def;
    }

    method Double()
      requires Valid() && n == size
      modifies this
      ensures Valid() && m == old(m) && n == old(n)
      ensures slots == Doubled(old(slots)) && fresh(key) && fresh(val) && fresh(hash)
    {
      DoubledMaps(slots, m);
      DoubleArrays();
    }

    method DoubleArrays()
      requires Held()
      modifies `size, `val, `key, `hash, `slots
      ensures Held() && slots == Doubled(old(slots)) && fresh(key) && fresh(val) && fresh(hash)
    {
      var newVal := MemDouble(val, None);
      var newKey := MemDouble(key, None);
      var newHash := MemDouble(hash, 0);
      ghost var was := slots;
      slots := Doubled(slots);
      val, key, hash := newVal, newKey, newHash;
      size := 2 * size;
      assert forall i :: 0 <= i < |was| ==> slots[i] == was[i];
    }

    method Replace(i: nat, ghost k: string, v: Option<string>)
      requires Valid() && i < size && slots[i].Used? && slots[i].key == k
      modifies `slots, `m, val
      ensures Valid() && slots == old(slots)[i := Used(k, v)] && m == old(m)[k := v]
    {
      SlotWritten(slots, m, i, k, v);
      UsedCountUpdate(slots, i, Used(k, v));
      val[i] := v;
      slots, m := slots[i := Used(k, v)], m[k := v];
    }

    method Occupy(i: nat, k: string, v: Option<string>, h: bv32)
      requires Valid() && i < size && slots[i].Free? && k !in m && h == Hash(k)
      modifies `n, `slots, `m, key, val, hash
      ensures Valid() && slots == old(slots)[i := Used(k, v)] && m == old(m)[k := v]
    {
      SlotWritten(slots, m, i, k, v);
      UsedCountUpdate(slots, i, Used(k, v));
      FillSlot(i, k, v, h);
      n := n + 1;
      m := m[k := v];
    }

    method FillSlot(i: nat, k: string, v: Option<string>, h: bv32)
      requires Held() && i < size && h == Hash(k)
      modifies `slots, key, val, hash
      ensures Held() && slots == old(slots)[i := Used(k, v)]
    {
      key[i] := Some(k);
      val[i] := v;
      hash[i] := h;
      slots := slots[i := Used(k, v)];
    }

    method FindFree() returns (i: nat)
      requires Valid()
      ensures i == FirstFree(slots)
    {
      i := 0;
      while i < size
        invariant i <= size
        invariant forall j :: 0 <= j < i ==> slots[j].Used?
      {
        assert SlotIs(slots[i], key[i], val[i], hash[i]);
        if key[i] == None { return; }
        i := i + 1;
      }
    }

    method Set(k: string, v: Option<string>)
      requires Valid()
      modifies this, key, val, hash
      ensures Valid() && slots == SetSlot(old(slots), k, v) && m == old(m)[k := v]
      ensures key == old(key) || fresh(key)
      ensures val == old(val) || fresh(val)
      ensures hash == old(hash) || fresh(hash)
    {
      var h := HashOf(k);
      if n > 0 {
        var i := Search(k, h);
        if i < size {
          Replace(i, k, v);
          return;
        }
      }
      NotThere(slots, m, k);
      Insert(k, v, h);
    }

    /** The rest of set, for a key that is not there: make room if there is none. */
    method Insert(k: string, v: Option<string>, h: bv32)
      requires Valid() && k !in m && h == Hash(k)
      modifies this, key, val, hash
      ensures Valid() && m == old(m)[k := v]
      ensures var g := Grown(old(slots)); FirstFree(g) < |g| && slots == g[FirstFree(g) := Used(k, v)]
      ensures key == old(key) || fresh(key)
      ensures val == old(val) || fresh(val)
      ensures hash == old(hash) || fresh(hash)
    {
      GrownHasRoom(slots);
      if n == size { Double(); }
      var i := FindFree();
      Occupy(i, k, v, h);
    }

    method Unset(k: string)
      requires Valid()
      modifies `n, `slots, `m, key, val, hash
      ensures Valid() && slots == UnsetSlot(old(slots), k) && m == old(m) - {k}
    {
      var h := HashOf(k);
      var i := Search(k, h);
      UnsetMaps(slots, m, k);
      if i >= size { return; }
      Vacate(i, k);
    }

    method Vacate(i: nat, ghost k: string)
      requires Valid() && i < size && i == Find(slots, k)
      requires Maps(UnsetSlot(slots, k), m - {k}) && UsedCount(UnsetSlot(slots, k)) == UsedCount(slots) - 1
      modifies `n, `slots, `m, key, val, hash
      ensures Valid() && slots == old(slots)[i := Free] && m == old(m) - {k}
    {
      ClearSlot(i);
      n := n - 1;
      m := m - {k};
    }

    method ClearSlot(i: nat)
      requires Held() && i < size
      modifies `slots, key, val, hash
      ensures Held() && slots == old(slots)[i := Free]
    {
      key[i] := None;
      val[i] := None;
      hash[i] := 0;
      slots := slots[i := Free];
    }
  }

  /** A key that the search did not meet, or was not made for want of entries, is not there. */
  lemma {:induction false} NothingUsed(slots: seq<Slot>)
    requires UsedCount(slots) == 0
    ensures forall i :: 0 <= i < |slots| ==> slots[i].Free?
  {
    if slots != [] { NothingUsed(slots[..|slots| - 1]); }
  }

  lemma NotThere(slots: seq<Slot>, m: map<string, Option<string>>, k: string)
    requires Maps(slots, m) && (UsedCount(slots) == 0 || Find(slots, k) == |slots|)
    ensures k !in m && Find(slots, k) == |slots|
  {
    if UsedCount(slots) == 0 { NothingUsed(slots); }
  }
}
