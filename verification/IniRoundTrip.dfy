/** Loading what was dumped gives the same map back. */
module IniRoundTrip {
  import opened Characters
  import opened Options
  import opened DictionarySlots
  import opened IniText
  import opened IniLine
  import opened IniLoad
  import opened IniLoading
  import opened IniDump

  predicate GoodSection(name: string) {
    && name != [] && !IsSpace(name[0]) && !IsSpace(name[|name| - 1])
    && Lwc(name) == name && ']' !in name && ':' !in name
    && OneLine(name) && |name| + 3 < ASCIILINESZ
  }

  /** A "section:key" entry that can be written: its section has an entry of its own, key and
      value survive on their line, and both the line and the full key fit their buffers. */
  predicate GoodKeyed(slots: seq<Slot>, key: string, val: Option<string>) {
    var i := UpTo(key, ":");
    && i < |key| < ASCIILINESZ && val.Some?
    && Find(slots, key[..i]) < |slots|
    && GoodEntry(key[i + 1..], val.value) && IniLine.Fits(key[i + 1..], val.value)
  }

  predicate GoodSlot(slots: seq<Slot>, slot: Slot) {
    slot.Used? ==>
      if ':' in slot.key then GoodKeyed(slots, slot.key, slot.val) else GoodSection(slot.key) && slot.val == None
  }

  ghost predicate Dumpable(slots: seq<Slot>) {
    forall i :: 0 <= i < |slots| ==> GoodSlot(slots, slots[i])
  }

  // ---------- one line at a time ----------

  lemma WholeLinesJoined(a: string, b: string)
    requires WholeLines(a) && WholeLines(b)
    ensures WholeLines(a + b)
  {
  }

  lemma NoColon(key: string, name: string)
    ensures ':' !in key ==> Take(key, |name| + 1) != name + ":"
  {
    assert (name + ":")[|name|] == ':';
    assert |key| > |name| ==> key[|name|] in key;
  }

  /** In a section means: the key up to its first colon is the section's name. */
  lemma InSectionIs(slots: seq<Slot>, slot: Slot, name: string)
    requires GoodSlot(slots, slot) && GoodSection(name)
    ensures InSection(slot, name) <==>
      slot.Used? && ':' in slot.key && slot.key[..UpTo(slot.key, ":")] == name
  {
    var p := name + ":";
    assert Take(Take(p, ASCIILINESZ - 1), |name| + 1) == p;
    if slot.Used? {
      NoColon(slot.key, name);
      if ':' in slot.key { PrefixIsSection(slot.key, name); }
    }
  }

  lemma PrefixIsSection(key: string, name: string)
    requires ':' in key && ':' !in name
    ensures Take(key, |name| + 1) == name + ":" <==> key[..UpTo(key, ":")] == name
  {
    var i := UpTo(key, ":");
    if Take(key, |name| + 1) == name + ":" {
      assert (name + ":")[|name|] == ':' && key[|name|] == Take(key, |name| + 1)[|name|];
      assert forall j :: 0 <= j < |name| ==> key[j] == Take(key, |name| + 1)[j] == (name + ":")[j] == name[j];
      UpToIs(key, ":", |name|);
      assert key[..i] == name;
    }
    if key[..i] == name { assert key[..i + 1] == name + ":"; }
  }

  lemma EntryOneLine(key: string, v: string)
    ensures OneLine(EntryLine(key, v)) <==> OneLine(key) && OneLine(v)
  {
    var p, line := PadRight(key, 30), EntryLine(key, v);
    PadIs(key);
    assert forall i :: 0 <= i < |key| ==> line[i] == key[i];
    assert forall i :: 0 <= i < |v| ==> line[|p| + 3 + i] == v[i];
    assert forall i :: 0 <= i < |p| + 3 ==> line[i] == if i < |key| then key[i] else if i == |p| + 1 then '=' else ' ';
  }

  /** Reading the line of a good entry stores it under its full key. */
  lemma ReadEntry(key: string, v: string, r: Reader)
    requires GoodEntry(key, v) && IniLine.Fits(key, v)
    requires |r.section + ":" + key| < ASCIILINESZ && r.buf == []
    ensures ReadOn(EntryLine(key, v) + "\n", r) == With(r, key, v)
  {
    var line := EntryLine(key, v);
    EntryOneLine(key, v);
    PairSurvives(key, v, r.section);
    ReadLastLine(line, r);
    Stored(line, r, key, v);
  }

  /** The reader with this key and value stored in its section. */
  function With(r: Reader, key: string, v: string): Reader {
    r.(dict := r.dict[r.section + ":" + key := Some(v)], errs := 0)
  }

  lemma ReadLastLine(line: string, r: Reader)
    requires OneLine(line) && |line| + 1 < ASCIILINESZ && r.buf == []
    ensures ReadOn(line + "\n", r) == OneLineRead(line, r)
  {
    assert line + "\n" + "" == line + "\n" && r.buf + line == line;
    ReadOneLine(line, "", r);
  }

  lemma Stored(line: string, r: Reader, key: string, v: string)
    requires Reads(line, r.section, Value(key, v)) && |r.section + ":" + key| < ASCIILINESZ && r.buf == []
    ensures OneLineRead(line, r) == With(r, key, v)
  {
  }

  /** The entry text of a slot in its section, spelled out. */
  lemma EntryTextIs(slot: Slot, name: string)
    requires InSection(slot, name) && slot.val.Some? && slot.key[..UpTo(slot.key, ":")] == name && ':' in slot.key
    ensures |slot.key| > |name| && name + ":" + slot.key[|name| + 1..] == slot.key
    ensures EntryText(slot, name) == EntryLine(slot.key[|name| + 1..], slot.val.value) + "\n"
  {
    var key := slot.key;
    assert key[|name|] == ':' && key == key[..|name|] + [key[|name|]] + key[|name| + 1..];
  }

  lemma AfterKeyed(key: string, v: string, name: string, r: Reader)
    requires |key| > |name| && name + ":" + key[|name| + 1..] == key && |key| < ASCIILINESZ
    requires GoodEntry(key[|name| + 1..], v) && IniLine.Fits(key[|name| + 1..], v)
    requires r.buf == [] && r.section == name && r.errs == 0
    ensures ReadOn(EntryLine(key[|name| + 1..], v) + "\n", r) == r.(dict := r.dict[key := Some(v)])
  {
    ReadEntry(key[|name| + 1..], v, r);
  }

  lemma AfterEntry(slots: seq<Slot>, slot: Slot, name: string, r: Reader)
    requires GoodSlot(slots, slot) && GoodSection(name)
    requires r.buf == [] && r.section == name && r.errs == 0
    ensures WholeLines(EntryText(slot, name))
    ensures ReadOn(EntryText(slot, name), r) ==
      if InSection(slot, name) then r.(dict := r.dict[slot.key := slot.val]) else r
  {
    InSectionIs(slots, slot, name);
    if InSection(slot, name) {
      EntryTextIs(slot, name);
      AfterKeyed(slot.key, slot.val.value, name, r);
    }
  }

  lemma AfterHeader(name: string, r: Reader)
    requires GoodSection(name) && r.buf == [] && r.errs == 0
    ensures WholeLines(Header(name))
    ensures ReadOn(Header(name), r) == r.(section := name, dict := r.dict[name := None])
  {
    HeaderLines(name);
    ReadOneLine("", "[" + name + "]" + "\n" + "", r);
    assert r.buf + "" == "";
    assert OneLineRead("", r) == r;
    AfterSection(name, r);
  }

  lemma HeaderLines(name: string)
    ensures Header(name) == "" + "\n" + ("[" + name + "]" + "\n" + "")
  {
  }

  lemma AfterSection(name: string, r: Reader)
    requires GoodSection(name) && r.buf == [] && r.errs == 0
    ensures ReadOn("[" + name + "]" + "\n" + "", r) == r.(section := name, dict := r.dict[name := None])
  {
    var line := "[" + name + "]";
    assert r.buf + line == line;
    assert OneLine(line);
    ReadOneLine(line, "", r);
    NamedSection(name, r.section);
  }

  lemma NamedSection(name: string, section: string)
    requires GoodSection(name)
    ensures var line := "[" + name + "]";
      RStrip(line) == line && !Continued(line) && ParseLine(line, section) == Section(name)
  {
    var line := "[" + name + "]";
    SectionLine(name, section);
    StripStripped(line, ASCIILINESZ);
    assert line[1..] == name + "]";
    UpToIs(name + "]", "]", |name|);
    assert (name + "]")[..|name|] == name;
    StripStripped(name, ASCIILINESZ);
  }

  // ---------- whole blocks ----------

  function StoreEntries(slots: seq<Slot>, name: string, d: Map): Map {
    if slots == [] then d
    else
      var last, d' := slots[|slots| - 1], StoreEntries(slots[..|slots| - 1], name, d);
      if InSection(last, name) then d'[last.key := last.val] else d'
  }

  function StoreBlocks(slots: seq<Slot>, names: seq<string>, d: Map): Map {
    if names == [] then d
    else
      var name := names[|names| - 1];
      StoreEntries(slots, name, StoreBlocks(slots, names[..|names| - 1], d)[name := None])
  }

  lemma {:induction false} AfterEntries(slots: seq<Slot>, some: seq<Slot>, name: string, r: Reader)
    requires GoodSection(name) && forall i :: 0 <= i < |some| ==> GoodSlot(slots, some[i])
    requires r.buf == [] && r.section == name && r.errs == 0
    ensures WholeLines(Entries(some, name))
    ensures ReadOn(Entries(some, name), r) == r.(dict := StoreEntries(some, name, r.dict))
  {
    if some != [] {
      var last, init := some[|some| - 1], some[..|some| - 1];
      AfterEntries(slots, init, name, r);
      var r' := r.(dict := StoreEntries(init, name, r.dict));
      AfterEntry(slots, last, name, r');
      ReadAppend(Entries(init, name), EntryText(last, name), r);
      WholeLinesJoined(Entries(init, name), EntryText(last, name));
    }
  }

  ghost predicate SameButSection(r: Reader, d: Map) {
    r.buf == [] && r.errs == 0 && r.dict == d
  }

  lemma AfterBlock(slots: seq<Slot>, name: string, r: Reader)
    requires GoodSection(name) && Dumpable(slots) && r.buf == [] && r.errs == 0
    ensures WholeLines(Header(name) + Entries(slots, name))
    ensures SameButSection(ReadOn(Header(name) + Entries(slots, name), r),
                           StoreEntries(slots, name, r.dict[name := None]))
  {
    AfterHeader(name, r);
    var r' := r.(section := name, dict := r.dict[name := None]);
    AfterEntries(slots, slots, name, r');
    ReadAppend(Header(name), Entries(slots, name), r);
    WholeLinesJoined(Header(name), Entries(slots, name));
  }

  lemma {:induction false} AfterBlocks(slots: seq<Slot>, names: seq<string>)
    requires Dumpable(slots) && forall i :: 0 <= i < |names| ==> GoodSection(names[i])
    ensures WholeLines(Blocks(slots, names))
    ensures SameButSection(ReadOn(Blocks(slots, names), START), StoreBlocks(slots, names, map[]))
  {
    if names != [] {
      var name, init := names[|names| - 1], names[..|names| - 1];
      AfterBlocks(slots, init);
      AfterBlock(slots, name, ReadOn(Blocks(slots, init), START));
      ReadAppend(Blocks(slots, init), Header(name) + Entries(slots, name), START);
      WholeLinesJoined(Blocks(slots, init), Header(name) + Entries(slots, name));
      Assoc(Blocks(slots, init), Header(name), Entries(slots, name));
    }
  }

  // ---------- nothing added, nothing lost ----------

  ghost predicate Sub(d: Map, m: Map) {
    forall k :: k in d ==> k in m && d[k] == m[k]
  }

  lemma {:induction false} StoreEntriesSub(some: seq<Slot>, name: string, d: Map, m: Map)
    requires Sub(d, m)
    requires forall i :: 0 <= i < |some| && some[i].Used? ==> some[i].key in m && m[some[i].key] == some[i].val
    ensures Sub(StoreEntries(some, name, d), m)
  {
    if some != [] { StoreEntriesSub(some[..|some| - 1], name, d, m); }
  }

  lemma {:induction false} StoreEntriesHave(some: seq<Slot>, name: string, d: Map)
    ensures forall k :: k in d ==> k in StoreEntries(some, name, d)
    ensures forall i :: 0 <= i < |some| && InSection(some[i], name) ==> some[i].key in StoreEntries(some, name, d)
  {
    if some != [] { StoreEntriesHave(some[..|some| - 1], name, d); }
  }

  /** These names stand in the map without a value, as sections do. */
  ghost predicate BareIn(names: seq<string>, m: Map) {
    forall j :: 0 <= j < |names| ==> names[j] in m && m[names[j]] == None
  }

  lemma {:induction false} StoreBlocksSub(slots: seq<Slot>, names: seq<string>, m: Map)
    requires Maps(slots, m)
    requires BareIn(names, m)
    ensures Sub(StoreBlocks(slots, names, map[]), m)
  {
    if names != [] {
      var n := |names| - 1;
      StoreBlocksSub(slots, names[..n], m);
      StoreEntriesSub(slots, names[n], StoreBlocks(slots, names[..n], map[])[names[n] := None], m);
    }
  }

  /** A block stores its section and every entry of that section. */
  lemma {:induction false} StoreBlocksHave(slots: seq<Slot>, names: seq<string>, j: nat, i: nat)
    requires j < |names| && i < |slots|
    ensures names[j] in StoreBlocks(slots, names, map[])
    ensures InSection(slots[i], names[j]) ==> slots[i].key in StoreBlocks(slots, names, map[])
  {
    var n := |names| - 1;
    StoreEntriesHave(slots, names[n], StoreBlocks(slots, names[..n], map[])[names[n] := None]);
    if j < n { StoreBlocksHave(slots, names[..n], j, i); }
  }

  ghost predicate HasSection(slots: seq<Slot>, name: string) {
    exists i :: 0 <= i < |slots| && IsSection(slots[i]) && slots[i].key == name
  }

  lemma {:induction false} SecNamesAre(slots: seq<Slot>)
    ensures forall j :: 0 <= j < |SecNames(slots)| ==> HasSection(slots, SecNames(slots)[j])
    ensures forall i :: 0 <= i < |slots| && IsSection(slots[i]) ==> slots[i].key in SecNames(slots)
  {
    if slots != [] {
      var init, names := slots[..|slots| - 1], SecNames(slots);
      SecNamesAre(init);
      forall j | 0 <= j < |names| ensures HasSection(slots, names[j]) {
        if j < |SecNames(init)| {
          assert names[j] == SecNames(init)[j] && HasSection(init, names[j]);
          var i :| 0 <= i < |init| && IsSection(init[i]) && init[i].key == names[j];
          assert IsSection(slots[i]) && slots[i].key == names[j];
        } else {
          assert IsSection(slots[|slots| - 1]) && slots[|slots| - 1].key == names[j];
        }
      }
    }
  }

  lemma OwnSection(slots: seq<Slot>, i: nat)
    requires Dumpable(slots) && i < |slots| && slots[i].Used? && ':' in slots[i].key
    ensures var name := slots[i].key[..UpTo(slots[i].key, ":")];
      Find(slots, name) < |slots| && IsSection(slots[Find(slots, name)]) && InSection(slots[i], name)
  {
    var name := slots[i].key[..UpTo(slots[i].key, ":")];
    assert GoodSlot(slots, slots[i]);
    assert ':' !in name;
    assert GoodSlot(slots, slots[Find(slots, name)]);
    InSectionIs(slots, slots[i], name);
  }

  /** Every entry is stored: sections by their own block, keys by their section's. */
  lemma EverythingStored(slots: seq<Slot>, m: Map, i: nat)
    requires Maps(slots, m) && Dumpable(slots) && i < |slots| && slots[i].Used?
    requires BareIn(SecNames(slots), m)
    ensures slots[i].key in StoreBlocks(slots, SecNames(slots), map[])
  {
    SecNamesAre(slots);
    var names := SecNames(slots);
    var slot := slots[i];
    assert GoodSlot(slots, slot);
    if ':' in slot.key {
      var name := slot.key[..UpTo(slot.key, ":")];
      OwnSection(slots, i);
      var j :| 0 <= j < |names| && names[j] == name;
      StoreBlocksHave(slots, names, j, i);
    } else {
      var j :| 0 <= j < |names| && names[j] == slot.key;
      StoreBlocksHave(slots, names, j, i);
    }
  }

  lemma SectionsAreGood(slots: seq<Slot>, m: Map)
    requires Maps(slots, m) && Dumpable(slots)
    ensures BareIn(SecNames(slots), m)
    ensures forall j :: 0 <= j < |SecNames(slots)| ==> GoodSection(SecNames(slots)[j])
  {
    SecNamesAre(slots);
    var names := SecNames(slots);
    forall j | 0 <= j < |names| ensures names[j] in m && m[names[j]] == None && GoodSection(names[j]) {
      assert HasSection(slots, names[j]);
      var i :| 0 <= i < |slots| && IsSection(slots[i]) && slots[i].key == names[j];
      assert GoodSlot(slots, slots[i]);
    }
  }

  lemma StoredIsTheMap(slots: seq<Slot>, m: Map)
    requires Maps(slots, m) && Dumpable(slots)
    ensures StoreBlocks(slots, SecNames(slots), map[]) == m
  {
    var d := StoreBlocks(slots, SecNames(slots), map[]);
    SectionsAreGood(slots, m);
    StoreBlocksSub(slots, SecNames(slots), m);
    forall k | k in m ensures k in d {
      var i := Find(slots, k);
      EverythingStored(slots, m, i);
    }
  }

  lemma {:induction false} NoSectionsNoEntries(slots: seq<Slot>)
    requires Dumpable(slots) && SecNames(slots) == []
    ensures forall i :: 0 <= i < |slots| ==> slots[i].Free?
  {
    SecNamesAre(slots);
    forall i | 0 <= i < |slots| ensures slots[i].Free? {
      if slots[i].Used? && ':' in slots[i].key { OwnSection(slots, i); }
    }
  }

  lemma {:induction false} NothingToDump(slots: seq<Slot>)
    requires forall i :: 0 <= i < |slots| ==> slots[i].Free?
    ensures PlainTexts(slots) == ""
  {
    if slots != [] { NothingToDump(slots[..|slots| - 1]); }
  }

  /** Loading the text that iniparser_dump_ini writes gives back the same map. */
  lemma DumpThenLoad(slots: seq<Slot>, m: Map)
    requires Maps(slots, m) && Dumpable(slots)
    ensures LoadText(DumpText(slots)) == Some(m)
  {
    var names := SecNames(slots);
    if names == [] {
      NoSectionsNoEntries(slots);
      NothingToDump(slots);
      assert forall k :: k in m ==> Find(slots, k) < |slots|;
      assert m == map[];
    } else {
      SectionsAreGood(slots, m);
      StoredIsTheMap(slots, m);
      AfterBlocks(slots, names);
      ReadAppend(Blocks(slots, names), "\n", START);
      LastNewline(ReadOn(Blocks(slots, names), START));
    }
  }

  lemma LastNewline(r: Reader)
    requires r.buf == []
    ensures ReadOn("\n", r) == r
  {
    assert "" + "\n" == "\n";
    ReadLastLine("", r);
    assert OneLineRead("", r) == r;
  }
}
