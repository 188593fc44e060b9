/** iniparser_dump_ini and the two section queries it uses. */
module IniDump {
  import opened Options
  import opened DictionarySlots
  import opened Dictionaries
  import opened IniText
  import opened IniLine

  predicate IsSection(slot: Slot) { slot.Used? && ':' !in slot.key }

  /** The names of the sections, in slot order. */
  function SecNames(slots: seq<Slot>): seq<string> {
    if slots == [] then []
    else
      var last := slots[|slots| - 1];
      SecNames(slots[..|slots| - 1]) + if IsSection(last) then [last.key] else []
  }

  function Drop(s: string, n: nat): string { if n <= |s| then s[n..] else "" }

  /** strncmp(key, keym, seclen + 1) == 0, with keym cut to its buffer. */
  predicate InSection(slot: Slot, name: string) {
    slot.Used? && Take(slot.key, |name| + 1) == Take(Take(name + ":", ASCIILINESZ - 1), |name| + 1)
  }

  function EntryText(slot: Slot, name: string): string {
    if InSection(slot, name) then
      EntryLine(Drop(slot.key, |name| + 1), if slot.val.Some? then slot.val.value else "") + "\n"
    else ""
  }

  function Entries(slots: seq<Slot>, name: string): string {
    if slots == [] then "" else Entries(slots[..|slots| - 1], name) + EntryText(slots[|slots| - 1], name)
  }

  function Header(name: string): string { "\n" + "[" + name + "]" + "\n" }

  function Blocks(slots: seq<Slot>, names: seq<string>): string {
    if names == [] then ""
    else
      var name := names[|names| - 1];
      Blocks(slots, names[..|names| - 1]) + Header(name) + Entries(slots, name)
  }

  /** Without any section the entries are written as they are; printf writes a missing value
      as (null). */
  function PlainText(slot: Slot): string {
    if slot.Used? then slot.key + " = " + (if slot.val.Some? then slot.val.value else "(null)") + "\n" else ""
  }

  function PlainTexts(slots: seq<Slot>): string {
    if slots == [] then "" else PlainTexts(slots[..|slots| - 1]) + PlainText(slots[|slots| - 1])
  }

  function DumpText(slots: seq<Slot>): string {
    if |SecNames(slots)| < 1 then PlainTexts(slots) else Blocks(slots, SecNames(slots)) + "\n"
  }

  lemma SnocSlice<T>(s: seq<T>, i: nat)
    requires i < |s|
    ensures s[..i + 1][..i] == s[..i] && s[..i + 1][i] == s[i] && |s[..i + 1]| == i + 1
  {
  }

  method GetNSec(d: Dictionary) returns (nsec: nat)
    requires d.Valid()
    ensures nsec == |SecNames(d.slots)|
  {
    nsec := 0;
    for i := 0 to d.size
      invariant nsec == |SecNames(d.slots[..i])|
    {
      SnocSlice(d.slots, i);
      assert SlotIs(d.slots[i], d.key[i], d.val[i], d.hash[i]);
      if d.key[i] == None { continue; }
      if ':' !in d.key[i].value { nsec := nsec + 1; }
    }
    assert d.slots[..d.size] == d.slots;
  }

  method GetSecName(d: Dictionary, n: nat) returns (name: Option<string>)
    requires d.Valid()
    ensures name == if n < |SecNames(d.slots)| then Some(SecNames(d.slots)[n]) else None
  {
    var foundsec := 0;
    for i := 0 to d.size
      invariant foundsec == |SecNames(d.slots[..i])| <= n
    {
      SnocSlice(d.slots, i);
      assert SlotIs(d.slots[i], d.key[i], d.val[i], d.hash[i]);
      if d.key[i] == None { continue; }
      if ':' !in d.key[i].value {
        foundsec := foundsec + 1;
        if foundsec > n {
          FoundName(d.slots, i, n);
          return d.key[i];
        }
      }
    }
    assert d.slots[..d.size] == d.slots;
    name := None;
  }

  /** The name that a scan adds last is where it will be in the whole list. */
  lemma FoundName(slots: seq<Slot>, i: nat, n: nat)
    requires i < |slots| && slots[i].Used? && ':' !in slots[i].key && n == |SecNames(slots[..i])|
    ensures n < |SecNames(slots)| && SecNames(slots)[n] == slots[i].key
  {
    SnocSlice(slots, i);
    SecNamesPrefix(slots, i + 1);
    assert SecNames(slots[..i + 1])[n] == slots[i].key;
  }

  lemma {:induction false} SecNamesPrefix(slots: seq<Slot>, i: nat)
    requires i <= |slots|
    ensures SecNames(slots[..i]) <= SecNames(slots)
    decreases |slots|
  {
    if i == |slots| {
      assert slots[..i] == slots;
    } else {
      assert slots[..|slots| - 1][..i] == slots[..i];
      SecNamesPrefix(slots[..|slots| - 1], i);
    }
  }

  method DumpEntries(d: Dictionary, name: string) returns (text: string)
    requires d.Valid()
    ensures text == Entries(d.slots, name)
  {
    text := "";
    var keym := Take(name + ":", ASCIILINESZ - 1);
    for j := 0 to d.size
      invariant text == Entries(d.slots[..j], name)
    {
      SnocSlice(d.slots, j);
      assert SlotIs(d.slots[j], d.key[j], d.val[j], d.hash[j]);
      assert text + "" == text;
      if d.key[j] == None { continue; }
      var key := d.key[j].value;
      if Take(key, |name| + 1) == Take(keym, |name| + 1) {
        var value := if d.val[j].Some? then d.val[j].value else "";
        text := text + (EntryLine(Drop(key, |name| + 1), value) + "\n");
      }
    }
    assert d.slots[..d.size] == d.slots;
  }

  method DumpPlain(d: Dictionary) returns (text: string)
    requires d.Valid()
    ensures text == PlainTexts(d.slots)
  {
    text := "";
    for i := 0 to d.size
      invariant text == PlainTexts(d.slots[..i])
    {
      SnocSlice(d.slots, i);
      assert SlotIs(d.slots[i], d.key[i], d.val[i], d.hash[i]);
      assert text + "" == text;
      if d.key[i] == None { continue; }
      text := text + (d.key[i].value + " = " + (if d.val[i].Some? then d.val[i].value else "(null)") + "\n");
    }
    assert d.slots[..d.size] == d.slots;
  }

  /** iniparser_dump_ini, returning the text it writes. */
  method Dump(d: Dictionary) returns (text: string)
    requires d.Valid()
    ensures text == DumpText(d.slots)
  {
    var nsec := GetNSec(d);
    if nsec < 1 {
      text := DumpPlain(d);
      return;
    }
    text := "";
    ghost var names := SecNames(d.slots);
    for i := 0 to nsec
      invariant text == Blocks(d.slots, names[..i])
    {
      SnocSlice(names, i);
      var secname := GetSecName(d, i);
      var entries := DumpEntries(d, secname.value);
      text := text + Header(secname.value) + entries;
    }
    assert names[..nsec] == names;
    text := text + "\n";
  }
}
