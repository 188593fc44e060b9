/** What the lines of a configuration file say, and that iniparser_getstring finds it. */
module IniSettings {
  import opened Characters
  import opened Options
  import opened IniText
  import opened IniLine
  import opened IniLoad
  import opened IniLoading
  import opened IniLookup
  import opened DictionarySlots
  import opened IniDump
  import R = IniRoundTrip
  import E = IniEntries

  // ---------- one line ----------

  /** A name as it may be written: any case, no blank at its ends. */
  predicate Name(s: string) { s != [] && !IsSpace(s[0]) && !IsSpace(s[|s| - 1]) }

  lemma StripName(a: string, s: string, b: string)
    requires AllBlank(a) && Name(s) && AllBlank(b) && |a + s + b| <= ASCIILINESZ
    ensures StripTo(a + s + b, ASCIILINESZ) == s && Normal(a + s + b) == Lwc(s)
  {
    StripPadded(a, s, b);
    assert Take(LStrip(a + s + b), ASCIILINESZ) == s + b;
  }

  lemma NormalIsNormal(raw: string)
    ensures Stripped(Normal(raw)) && Lwc(Normal(raw)) == Normal(raw) && NoCapitals(Normal(raw))
  {
    var t := StripTo(raw, ASCIILINESZ);
    StripToIsStripped(raw, ASCIILINESZ);
    LwcIdempotent(t);
    LwcFixed(t);
    LwcSpaces(t);
  }

  lemma SectionOf(input: string, section: string) returns (raw: string)
    requires ParseLine(input, section).Section?
    ensures ParseLine(input, section).name == Normal(raw)
  {
    raw := ScanSection(StripTo(input, ASCIILINESZ), section);
  }

  /** The name of a section is stripped and lower-cased, wherever it comes from. */
  lemma SectionIsNormal(input: string, section: string)
    requires ParseLine(input, section).Section?
    ensures var name := ParseLine(input, section).name; Stripped(name) && Lwc(name) == name && NoCapitals(name)
  {
    var raw := SectionOf(input, section);
    NormalIsNormal(raw);
  }

  lemma {:induction false} SectionParsed(line: string, section: string)
    requires StripTo(line, ASCIILINESZ) == line && line != [] && line[0] == '[' && line[|line| - 1] == ']'
    ensures ParseLine(line, section) == Section(Normal(ScanSection(line, section)))
  {
  }

  lemma HeaderScan(t: string, section: string)
    requires t != [] && ']' !in t
    ensures var line := "[" + t + "]"; line[0] == '[' && line[|line| - 1] == ']' && ScanSection(line, section) == t
  {
    var line := "[" + t + "]";
    assert line[1..] == t + "]";
    UpToIs(t + "]", "]", |t|);
    assert (t + "]")[..|t|] == t;
  }

  lemma NoBracket(a: string, s: string, b: string)
    requires AllBlank(a) && AllBlank(b) && ']' !in s
    ensures ']' !in a + s + b
  {
  }

  /** A section header of any case, with blanks around the name, names it in lower case. */
  lemma {:induction false} HeaderRead(a: string, s: string, b: string, section: string)
    requires AllBlank(a) && Name(s) && ']' !in s && AllBlank(b) && |a + s + b| + 2 <= ASCIILINESZ
    ensures var line := "[" + (a + s + b) + "]"; ParseLine(line, section) == Section(Lwc(s)) && RStrip(line) == line
  {
    var line := "[" + (a + s + b) + "]";
    NoBracket(a, s, b);
    HeaderScan(a + s + b, section);
    StripStripped(line, ASCIILINESZ);
    SectionParsed(line, section);
    StripName(a, s, b);
  }

  /** The line "key = text", with any blanks around the equals sign. */
  function Setting(key: string, b: string, c: string, u: string): string { key + b + "=" + (c + u) }

  predicate SettingKey(key: string) { Name(key) && '=' !in key && key[0] != '#' && key[0] != '[' }

  lemma SettingStripped(key: string, b: string, c: string, u: string)
    requires SettingKey(key) && Name(u) && |Setting(key, b, c, u)| <= ASCIILINESZ
    ensures var line := Setting(key, b, c, u);
      && StripTo(line, ASCIILINESZ) == line && RStrip(line) == line
      && line[0] == key[0] && line[|line| - 1] == u[|u| - 1]
  {
    var line := Setting(key, b, c, u);
    assert line[|line| - 1] == u[|u| - 1];
    StripStripped(line, ASCIILINESZ);
  }

  lemma SettingParts(key: string, b: string, c: string, u: string)
    requires SettingKey(key) && AllBlank(b) && AllBlank(c) && Name(u)
    ensures var line := Setting(key, b, c, u);
      UpTo(line, "=") == |key + b| && line[..|key + b|] == key + b && LStrip(line[|key + b| + 1..]) == u
  {
    var line := Setting(key, b, c, u);
    UpToIs(line, "=", |key + b|);
    assert line[|key + b| + 1..] == c + u;
    BlanksIs(c + u, |c|);
    assert (c + u)[|c|..] == u;
  }

  lemma KeyNormal(key: string, b: string)
    requires Name(key) && AllBlank(b) && |key + b| <= ASCIILINESZ
    ensures Normal(key + b) == Lwc(key)
  {
    StripName([], key, b);
    assert [] + key + b == key + b;
  }

  /** A setting is read with its key in lower case and the value that the text after the equals
      sign stands for. */
  lemma SettingRead(key: string, b: string, c: string, u: string, section: string)
    requires SettingKey(key) && AllBlank(b) && AllBlank(c) && Name(u) && |Setting(key, b, c, u)| <= ASCIILINESZ
    ensures ParseLine(Setting(key, b, c, u), section) == Value(Lwc(key), ReadValue(u))
  {
    SettingStripped(key, b, c, u);
    StrippedParses(Setting(key, b, c, u), section);
    SettingParts(key, b, c, u);
    KeyNormal(key, b);
    ValueOfIs(Setting(key, b, c, u), |key + b|, u);
  }

  /** A value without comment marks and quotes in front is taken as it is. */
  lemma PlainValue(v: string)
    requires v != [] && Stripped(v) && |v| <= ASCIILINESZ && ';' !in v && '#' !in v && !IsQuote(v[0])
    ensures ReadValue(v) == v
  {
    ReadValueKeeps(v);
  }

  lemma {:induction false} Unquoted(u: string, p: nat)
    requires u != [] && !IsQuote(u[0]) && UpTo(u, ";#") == p
    ensures ReadValue(u) == Unquote(StripTo(u[..p], ASCIILINESZ))
  {
  }

  /** What follows a comment mark is left out. */
  lemma {:induction false} CommentedValue(v: string, b: string, mark: char, rest: string)
    requires Name(v) && |v + b| <= ASCIILINESZ && ';' !in v && '#' !in v && !IsQuote(v[0])
    requires AllBlank(b) && (mark == ';' || mark == '#')
    ensures ReadValue((v + b) + ([mark] + rest)) == v
  {
    var t := v + b;
    assert forall i :: 0 <= i < |t| ==> t[i] !in ";#";
    FirstMark(t, mark, rest);
    Unquoted(t + ([mark] + rest), |t|);
    StripBack(v, b);
  }

  lemma StripBack(v: string, b: string)
    requires Name(v) && AllBlank(b) && |v + b| <= ASCIILINESZ
    ensures StripTo(v + b, ASCIILINESZ) == v
  {
    assert [] + v + b == v + b;
    StripName([], v, b);
  }

  lemma FirstMark(t: string, mark: char, rest: string)
    requires mark in ";#" && forall i :: 0 <= i < |t| ==> t[i] !in ";#"
    ensures UpTo(t + ([mark] + rest), ";#") == |t| && (t + ([mark] + rest))[..|t|] == t
  {
    UpToIs(t + ([mark] + rest), ";#", |t|);
  }

  /** Quotes are taken off, with whatever stands after them; comment marks inside count as text. */
  lemma QuotedValue(q: char, v: string, rest: string)
    requires IsQuote(q) && v != [] && q !in v && Stripped(v) && |v| <= ASCIILINESZ
    ensures ReadValue([q] + (v + ([q] + rest))) == Unquote(v)
  {
    var u := [q] + (v + ([q] + rest));
    assert u[1..] == v + ([q] + rest);
    UpToIs(u[1..], [q], |v|);
    assert u[1..][..|v|] == v;
    StripStripped(v, ASCIILINESZ);
  }

  /** Two quotes are an empty value. */
  lemma EmptyQuotes(q: char)
    requires IsQuote(q)
    ensures ReadValue([q, q]) == ""
  {
    var u := [q, q];
    assert u[1..] == [q];
    UpToIs(u[1..], [q], 0);
    UpToIs(u, ";#", 2);
    assert u[..2] == u;
    StripStripped(u, ASCIILINESZ);
  }

  /** Which lines are errors: those that say something but have nothing before an equals sign. */
  lemma ErrorExactly(input: string, section: string)
    ensures var line := StripTo(input, ASCIILINESZ);
      ParseLine(input, section).Error? <==>
        && line != [] && line[0] != '#' && !(line[0] == '[' && line[|line| - 1] == ']')
        && (line[0] == '=' || '=' !in line)
  {
    var line := StripTo(input, ASCIILINESZ);
    var k := UpTo(line, "=");
    if k < |line| { assert line[k] == '='; }
    assert '=' in line ==> k < |line|;
    FullKeyed(line);
    BareKeyed(line);
    if 0 < k < |line| { BareIs(line, k); }
  }

  // ---------- lines that say nothing ----------

  /** Comment lines and blank lines change nothing, wherever they stand between whole lines. */
  lemma SaysNothing(line: string, post: string, r: Reader)
    requires Fitting(r) && r.buf == [] && OneLine(line) && |line| + 1 < ASCIILINESZ
    requires !Continued(RStrip(line)) && (LStrip(line) == [] || LStrip(line)[0] == '#')
    ensures ReadOn(line + "\n" + post, r) == ReadOn(post, r)
  {
    assert r.buf + line == line;
    ReadOneLine(line, post, r);
    var t, n := RStrip(line), Blanks(line);
    if n == |line| {
      TrimmedIs(line, 0);
    } else {
      assert line[n..][0] == line[n] && n < Trimmed(line);
      BlanksIs(t, n);
      StripToIsStripped(t, ASCIILINESZ);
      FirstKept(t, n);
    }
    assert OneLineRead(line, r) == r;
  }

  lemma FirstKept(t: string, n: nat)
    requires n < |t| && Blanks(t) == n
    ensures StripTo(t, ASCIILINESZ) != [] && StripTo(t, ASCIILINESZ)[0] == t[n]
  {
    assert Take(LStrip(t), ASCIILINESZ)[0] == t[n];
  }

  // ---------- whole files ----------

  /** What is new in the map has a name in lower case. */
  ghost predicate AddsLower(d: Map, d': Map) { forall k :: k in d' ==> k in d || Lwc(k) == k }

  lemma LowerJoined(section: string, key: string, n: nat)
    requires Lwc(section) == section && Lwc(key) == key
    ensures Lwc(Take(section + ":" + key, n)) == Take(section + ":" + key, n)
  {
    LwcJoin(section, key);
    LwcTake(section + ":" + key, n);
  }

  lemma StepAddsLower(text: string, r: Reader)
    requires Lwc(r.section) == r.section
    ensures var r' := OneLineRead(text, r); Lwc(r'.section) == r'.section && AddsLower(r.dict, r'.dict)
  {
    var line := RStrip(text);
    if !Continued(line) {
      var l := ParseLine(line, r.section);
      if l.Section? { SectionIsNormal(line, r.section); }
      if l.Value? {
        ParsedKeyIsGood(line, r.section);
        LowerJoined(r.section, l.key, ASCIILINESZ - 1);
      }
    }
  }

  lemma {:induction false} ReadAddsLower(rest: string, r: Reader)
    requires Fitting(r) && Lwc(r.section) == r.section
    ensures AddsLower(r.dict, ReadOn(rest, r).dict)
    decreases |rest|
  {
    if rest != [] {
      ReadStep(rest, r);
      var n := Chunk(rest, r);
      StepAddsLower(r.buf + CStr(rest[..n]), r);
      ReadAddsLower(rest[n..], OneLineRead(r.buf + CStr(rest[..n]), r));
    }
  }

  /** Whatever a file holds, every name in the loaded dictionary is in lower case and every name
      and value lies on one line. */
  lemma LoadedNames(text: string, k: string)
    requires LoadText(text).Some? && k in LoadText(text).value
    ensures NoCapitals(k) && OneLine(k) && (LoadText(text).value[k].Some? ==> OneLine(LoadText(text).value[k].value))
  {
    ReadAddsLower(text, START);
    LwcFixed(k);
    E.ReadAddsOneLines(text, START);
  }

  /** After whole lines, a section header and a setting in any case. */
  function File(pre: string, s: string, key: string, v: string): string {
    pre + ("[" + s + "]" + "\n" + (Setting(key, " ", " ", v) + "\n"))
  }

  lemma HeaderStep(s: string, post: string, r: Reader)
    requires Fitting(r) && r.buf == [] && Name(s) && ']' !in s && OneLine(s) && |s| + 3 < ASCIILINESZ
    ensures ReadOn("[" + s + "]" + "\n" + post, r) ==
      ReadOn(post, r.(section := Lwc(s), dict := r.dict[Lwc(s) := None], errs := 0))
  {
    var line := "[" + s + "]";
    assert r.buf + line == line;
    HeaderLine(s, r);
    ReadOneLine(line, post, r);
  }

  lemma ReadSection(line: string, name: string, r: Reader)
    requires RStrip(line) == line && !Continued(line) && ParseLine(line, r.section) == Section(name) && r.buf == []
    ensures OneLineRead(line, r) == r.(section := name, dict := r.dict[name := None], errs := 0)
  {
  }

  lemma BracketedOneLine(s: string)
    requires OneLine(s)
    ensures OneLine("[" + s + "]") && !Continued("[" + s + "]")
  {
  }

  lemma {:induction false} HeaderLine(s: string, r: Reader)
    requires r.buf == [] && Name(s) && ']' !in s && OneLine(s) && |s| + 3 < ASCIILINESZ
    ensures var line := "[" + s + "]";
      OneLine(line) && OneLineRead(line, r) == r.(section := Lwc(s), dict := r.dict[Lwc(s) := None], errs := 0)
  {
    assert [] + s + [] == s;
    HeaderRead([], s, [], r.section);
    BracketedOneLine(s);
    ReadSection("[" + s + "]", Lwc(s), r);
  }

  lemma ReadsIs(line: string, section: string, l: Line)
    requires RStrip(line) == line && !Continued(line) && ParseLine(line, section) == l
    ensures Reads(line, section, l)
  {
  }

  lemma GoodRead(v: string)
    requires v != [] && Stripped(v) && GoodValue(v) && |v| <= ASCIILINESZ
    ensures ReadValue(v) == v
  {
    ReadValueKeeps(v);
  }

  lemma {:induction false} SettingReads(key: string, v: string, section: string)
    requires SettingKey(key) && Name(v) && GoodValue(v) && |Setting(key, " ", " ", v)| <= ASCIILINESZ
    ensures Reads(Setting(key, " ", " ", v), section, Value(Lwc(key), v))
  {
    SettingRead(key, " ", " ", v, section);
    GoodRead(v);
    SettingStripped(key, " ", " ", v);
    AsItStands(Setting(key, " ", " ", v), section, Value(Lwc(key), v), v);
  }

  lemma AsItStands(line: string, section: string, l: Line, v: string)
    requires RStrip(line) == line && ParseLine(line, section) == l
    requires line != [] && v != [] && line[|line| - 1] == v[|v| - 1] && GoodValue(v)
    ensures Reads(line, section, l)
  {
    NotContinued(line, v);
    ReadsIs(line, section, l);
  }

  lemma NotContinued(line: string, v: string)
    requires line != [] && v != [] && line[|line| - 1] == v[|v| - 1] && GoodValue(v)
    ensures !Continued(line)
  {
  }

  lemma SettingOneLine(key: string, v: string)
    requires OneLine(key) && OneLine(v)
    ensures OneLine(Setting(key, " ", " ", v))
  {
  }

  lemma LineStored(line: string, key: string, v: string, r: Reader)
    requires Reads(line, r.section, Value(key, v)) && OneLine(line) && |line| + 1 < ASCIILINESZ
    requires r.buf == [] && |r.section + ":" + key| < ASCIILINESZ
    ensures ReadOn(line + "\n", r) == R.With(r, key, v)
  {
    R.ReadLastLine(line, r);
    R.Stored(line, r, key, v);
  }

  lemma SettingStep(key: string, v: string, r: Reader)
    requires r.buf == [] && SettingKey(key) && Name(v) && GoodValue(v) && OneLine(key) && OneLine(v)
    requires |Setting(key, " ", " ", v)| + 1 < ASCIILINESZ && |r.section + ":" + key| < ASCIILINESZ
    ensures ReadOn(Setting(key, " ", " ", v) + "\n", r) == R.With(r, Lwc(key), v)
  {
    SettingReads(key, v, r.section);
    SettingOneLine(key, v);
    LineStored(Setting(key, " ", " ", v), Lwc(key), v, r);
  }

  /** The whole way: in any file a setting under a section header is found by iniparser_getstring,
      in whatever case header, key and query are written. */
  lemma SettingFound(pre: string, s: string, key: string, v: string, query: string)
    requires WholeLines(pre) && ReadOn(pre, START).buf == []
    requires Name(s) && !HasBlank(s) && ']' !in s && ':' !in s && OneLine(s)
    requires SettingKey(key) && !HasBlank(key) && Name(v) && GoodValue(v) && OneLine(key) && OneLine(v)
    requires |s + ":" + key| < ASCIILINESZ && |s| + 3 < ASCIILINESZ
    requires |Setting(key, " ", " ", v)| + 1 < ASCIILINESZ
    requires SameLetters(query, s + ":" + key)
    ensures var d := LoadText(File(pre, s, key, v));
      d.Some? && LookupKey(query) in d.value && d.value[LookupKey(query)] == Some(v)
  {
    var r := ReadOn(pre, START);
    var line := Setting(key, " ", " ", v) + "\n";
    ReadAppend(pre, "[" + s + "]" + "\n" + line, START);
    HeaderStep(s, line, r);
    SettingStep(key, v, r.(section := Lwc(s), dict := r.dict[Lwc(s) := None], errs := 0));
    LwcFolds(query, s + ":" + key);
    CaseInsensitive(query, s + ":" + key);
    Exact(s, key);
    LwcJoin(s, key);
  }

  lemma JoinPlain(s: string, key: string)
    ensures [] + Join(s, [], [], key) + [] == s + ":" + key && Join(s, [], [], key) == s + ":" + key
  {
    assert Join(s, [], [], key) == s + ":" + key;
  }

  lemma Exact(s: string, key: string)
    requires Name(s) && Name(key) && ':' !in s && !HasBlank(s) && !HasBlank(key) && |s + ":" + key| < ASCIILINESZ
    ensures LookupKey(s + ":" + key) == Lwc(s + ":" + key)
  {
    JoinPlain(s, key);
    VariantFound([], s, [], [], key, []);
  }

  // ---------- the layout of a dump ----------

  /** Values are written from the same column on, after keys of up to thirty characters. */
  lemma EntryColumns(key: string, v: string)
    ensures var line := EntryLine(key, v); var w := if |key| < 30 then 30 else |key|;
      |line| == w + 3 + |v| && line[..|key|] == key && line[w..w + 3] == " = " && line[w + 3..] == v
  {
    var p := PadRight(key, 30);
    assert EntryLine(key, v)[..|key|] == p[..|key|];
  }

  lemma PrefixTest(name: string, key: string)
    requires ':' !in name && |name| + 2 < ASCIILINESZ
    ensures !InSection(Used(name, None), name)
    ensures forall val :: InSection(Used(name + ":" + key, val), name)
    ensures Drop(name + ":" + key, |name| + 1) == key
  {
    var p := name + ":";
    assert Take(Take(p, ASCIILINESZ - 1), |name| + 1) == p;
    R.NoColon(name, name);
    assert Take(name + ":" + key, |name| + 1) == p;
  }

  lemma {:induction false} TwoSlots(a: Slot, b: Slot, name: string)
    ensures Entries([a, b], name) == EntryText(a, name) + EntryText(b, name)
    ensures SecNames([a, b]) == (if IsSection(a) then [a.key] else []) + (if IsSection(b) then [b.key] else [])
  {
    assert [a, b][..1] == [a] && [a][..0] == [];
    assert Entries([], name) + EntryText(a, name) == EntryText(a, name);
    assert SecNames([a]) == if IsSection(a) then [a.key] else [];
  }

  lemma {:induction false} OneBlock(slots: seq<Slot>, name: string)
    ensures Blocks(slots, [name]) == Header(name) + Entries(slots, name)
  {
    assert [name][..0] == [];
    assert Blocks(slots, []) + Header(name) == Header(name);
  }

  /** The text of a dictionary with one section and one key. */
  lemma {:induction false} OneSectionDump(name: string, key: string, v: string)
    requires ':' !in name && |name| + 2 < ASCIILINESZ
    ensures DumpText([Used(name, None), Used(name + ":" + key, Some(v))]) ==
      "\n" + "[" + name + "]" + "\n" + (EntryLine(key, v) + "\n") + "\n"
  {
    var a, b := Used(name, None), Used(name + ":" + key, Some(v));
    PrefixTest(name, key);
    assert (name + ":" + key)[|name|] == ':';
    TwoSlots(a, b, name);
    assert "" + (EntryLine(key, v) + "\n") == EntryLine(key, v) + "\n";
    assert [name] + [] == [name];
    OneBlock([a, b], name);
  }

  // ---------- a dictionary without sections ----------

  lemma EmptyParsed(line: string, section: string, key: string)
    requires StripTo(line, ASCIILINESZ) == line && line != [] && line[0] != '#' && line[0] != '['
    requires ValueOf(line) == Value(key, "")
    ensures ParseLine(line, section) == Value(key, "")
  {
  }

  lemma RStripOne(line: string)
    requires line != [] && !IsSpace(line[|line| - 1])
    ensures RStrip(line + " ") == line
  {
    TrimmedIs(line + " ", |line|);
  }

  lemma EqualsEnds(key: string, line: string)
    requires '=' !in key && line == key + " ="
    ensures UpTo(line, "=") == |key| + 1 && line[|key| + 2..] == "" && line[..|key| + 1] == [] + key + " "
  {
    UpToIs(line, "=", |key| + 1);
  }

  lemma EmptyValue(key: string, line: string)
    requires SettingKey(key) && |key| + 3 <= ASCIILINESZ && line == key + " ="
    ensures ValueOf(line) == Value(Lwc(key), "")
  {
    EqualsEnds(key, line);
    StripName([], key, " ");
    ValueOfIs(line, |key| + 1, "");
  }

  lemma EmptyLine(key: string, line: string, section: string)
    requires SettingKey(key) && |key| + 3 <= ASCIILINESZ && line == key + " ="
    ensures ParseLine(line, section) == Value(Lwc(key), "") && !Continued(line)
  {
    StripStripped(line, ASCIILINESZ);
    EmptyValue(key, line);
    assert line[0] == key[0];
    EmptyParsed(line, section, Lwc(key));
  }

  lemma EmptyText(key: string, line: string)
    requires line == key + " ="
    ensures Setting(key, " ", " ", "") == line + " "
  {
  }

  lemma ReadsStripped(text: string, line: string, section: string, l: Line)
    requires RStrip(text) == line && !Continued(line) && ParseLine(line, section) == l
    ensures Reads(text, section, l)
  {
  }

  /** The line of a setting with an empty value. */
  lemma {:induction false} EmptyReads(key: string, section: string)
    requires SettingKey(key) && |key| + 3 <= ASCIILINESZ
    ensures Reads(Setting(key, " ", " ", ""), section, Value(Lwc(key), ""))
  {
    var line := key + " =";
    EmptyLine(key, line, section);
    EmptyText(key, line);
    RStripOne(line);
    ReadsStripped(line + " ", line, section, Value(Lwc(key), ""));
  }

  /** An entry that can be written on a line of its own. */
  predicate PlainSlot(slot: Slot) {
    slot.Used? ==>
      && ':' in slot.key && SettingKey(slot.key) && OneLine(slot.key)
      && GoodValue(PlainValueOf(slot)) && OneLine(PlainValueOf(slot))
      && |Setting(slot.key, " ", " ", PlainValueOf(slot))| + 1 < ASCIILINESZ
  }

  function PlainValueOf(slot: Slot): string
    requires slot.Used?
  {
    if slot.val.Some? then slot.val.value else "(null)"
  }

  /** What such entries are loaded as: every name gains a colon in front. */
  function PlainMap(slots: seq<Slot>): Map {
    if slots == [] then map[]
    else
      var last, m := slots[|slots| - 1], PlainMap(slots[..|slots| - 1]);
      if last.Used? then m[":" + Lwc(last.key) := Some(PlainValueOf(last))] else m
  }

  lemma PlainReads(key: string, v: string)
    requires SettingKey(key) && GoodValue(v) && |Setting(key, " ", " ", v)| + 1 < ASCIILINESZ
    ensures Reads(Setting(key, " ", " ", v), "", Value(Lwc(key), v))
  {
    if v == "" { EmptyReads(key, ""); } else { SettingReads(key, v, ""); }
  }

  lemma PlainEntry(key: string, v: string, r: Reader)
    requires SettingKey(key) && OneLine(key) && GoodValue(v) && OneLine(v)
    requires |Setting(key, " ", " ", v)| + 1 < ASCIILINESZ && r.buf == [] && r.section == "" && r.errs == 0
    ensures ReadOn(Setting(key, " ", " ", v) + "\n", r) == r.(dict := r.dict[":" + Lwc(key) := Some(v)])
  {
    PlainReads(key, v);
    SettingOneLine(key, v);
    LineStored(Setting(key, " ", " ", v), Lwc(key), v, r);
    NoSectionName(Lwc(key));
  }

  lemma NoSectionName(key: string)
    ensures "" + ":" + key == ":" + key
  {
  }

  lemma PlainStep(slot: Slot, r: Reader)
    requires PlainSlot(slot) && r.buf == [] && r.section == "" && r.errs == 0
    ensures WholeLines(PlainText(slot))
    ensures ReadOn(PlainText(slot), r) ==
      if slot.Used? then r.(dict := r.dict[":" + Lwc(slot.key) := Some(PlainValueOf(slot))]) else r
  {
    if slot.Used? {
      PlainTextIs(slot.key, PlainValueOf(slot));
      PlainEntry(slot.key, PlainValueOf(slot), r);
    }
  }

  lemma PlainTextIs(key: string, v: string)
    ensures key + " = " + v + "\n" == Setting(key, " ", " ", v) + "\n"
  {
    assert key + " = " + v == Setting(key, " ", " ", v);
  }

  lemma {:induction false} PlainRead(slots: seq<Slot>)
    requires forall i :: 0 <= i < |slots| ==> PlainSlot(slots[i])
    ensures WholeLines(PlainTexts(slots)) && ReadOn(PlainTexts(slots), START) == START.(dict := PlainMap(slots))
  {
    if slots != [] {
      var last, init := slots[|slots| - 1], slots[..|slots| - 1];
      PlainRead(init);
      PlainStep(last, START.(dict := PlainMap(init)));
      ReadAppend(PlainTexts(init), PlainText(last), START);
      R.WholeLinesJoined(PlainTexts(init), PlainText(last));
    }
  }

  lemma {:induction false} NoSections(slots: seq<Slot>)
    requires forall i :: 0 <= i < |slots| ==> !IsSection(slots[i])
    ensures SecNames(slots) == []
  {
    if slots != [] { NoSections(slots[..|slots| - 1]); }
  }

  /** A dictionary without sections does not come back: each entry is loaded, with its own value,
      under its name with a colon in front. */
  lemma PlainDumpThenLoad(slots: seq<Slot>)
    requires forall i :: 0 <= i < |slots| ==> PlainSlot(slots[i])
    ensures LoadText(DumpText(slots)) == Some(PlainMap(slots))
  {
    NoSections(slots);
    PlainRead(slots);
  }

  lemma {:induction false} PlainMapHas(slots: seq<Slot>, i: nat)
    requires i < |slots| && slots[i].Used?
    requires forall j :: i < j < |slots| && slots[j].Used? ==> Lwc(slots[j].key) != Lwc(slots[i].key)
    ensures var k := ":" + Lwc(slots[i].key); k in PlainMap(slots) && PlainMap(slots)[k] == Some(PlainValueOf(slots[i]))
    ensures forall k :: k in PlainMap(slots) ==> k != [] && k[0] == ':'
  {
    var last, init := slots[|slots| - 1], slots[..|slots| - 1];
    FrontColons(init);
    if i < |slots| - 1 {
      PlainMapHas(init, i);
      if last.Used? {
        var a, b := Lwc(last.key), Lwc(slots[i].key);
        assert (":" + a)[1..] == a && (":" + b)[1..] == b;
      }
    }
  }

  lemma {:induction false} FrontColons(slots: seq<Slot>)
    ensures forall k :: k in PlainMap(slots) ==> k != [] && k[0] == ':'
  {
    if slots != [] { FrontColons(slots[..|slots| - 1]); }
  }
}
