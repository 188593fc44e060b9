/** Exactly which entries are read back from the line that the dumper writes for them. */
module IniEntries {
  import opened Characters
  import opened Options
  import opened IniText
  import opened IniLine
  import opened IniLoad
  import opened IniRoundTrip

  /** Every character of the one text is one of the other. */
  ghost predicate From(a: string, b: string) { forall i :: 0 <= i < |a| ==> a[i] in b }

  lemma FromOneLine(a: string, b: string)
    requires From(a, b) && OneLine(b)
    ensures OneLine(a)
  {
  }

  lemma NormalOneLine(a: string)
    requires OneLine(a)
    ensures OneLine(Normal(a))
  {
    var t := StripTo(a, ASCIILINESZ);
    StripToIsStripped(a, ASCIILINESZ);
    FromOneLine(t, a);
    assert forall i :: 0 <= i < |t| ==> Lwc(t)[i] == Lower(t[i]) && t[i] in t;
  }

  lemma SliceFrom(a: string, i: nat, j: nat)
    requires i <= j <= |a|
    ensures From(a[i..j], a) && From(a[i..], a) && From(a[..j], a)
  {
  }

  lemma LStripFrom(a: string)
    ensures From(LStrip(a), a)
  {
    assert forall i :: 0 <= i < |LStrip(a)| ==> LStrip(a)[i] == a[Blanks(a) + i];
  }

  /** A value is a piece of its line. */
  lemma ScannedFrom(line: string, scan: Scan)
    requires scan == ScanQuoted(line, '\"') || scan == ScanQuoted(line, '\'') || scan == ScanPlain(line)
    requires scan.Match?
    ensures From(scan.key, line) && From(scan.value, line)
  {
    var k := UpTo(line, "=");
    SliceFrom(line, 0, k);
    SliceFrom(line, k + 1, |line|);
    LStripFrom(line[k + 1..]);
  }

  ghost predicate HoldsOneLines(l: Line) {
    match l
    case Section(name) => OneLine(name)
    case Value(key, value) => OneLine(key) && OneLine(value)
    case _ => true
  }

  lemma ValueOneLine(line: string)
    requires OneLine(line)
    ensures HoldsOneLines(ValueOf(line))
  {
    var full, bare := Full(line), Bare(line);
    if full.Match? {
      ScannedFrom(line, full);
      FromOneLine(full.key, line);
      FromOneLine(full.value, line);
      NormalOneLine(full.key);
      StripToIsStripped(full.value, ASCIILINESZ);
      FromOneLine(StripTo(full.value, ASCIILINESZ), full.value);
    } else if bare.Match? {
      BareKeyed(line);
      SliceFrom(line, 0, UpTo(line, "="));
      FromOneLine(bare.key, line);
      NormalOneLine(bare.key);
    }
  }

  lemma ParsedOneLine(input: string, section: string)
    requires OneLine(input) && OneLine(section)
    ensures HoldsOneLines(ParseLine(input, section))
  {
    var line := StripTo(input, ASCIILINESZ);
    StripToIsStripped(input, ASCIILINESZ);
    FromOneLine(line, input);
    if line != [] {
      var n := UpTo(line[1..], "]");
      SliceFrom(line, 1, 1 + n);
      assert line[1..][..n] == line[1..1 + n];
      FromOneLine(line[1..1 + n], line);
      NormalOneLine(ScanSection(line, section));
    }
    ValueOneLine(line);
  }

  /** What is new in the map lies on one line. */
  ghost predicate AddsOneLines(d: Map, d': Map) {
    forall k :: k in d' ==>
      (k in d && d'[k] == d[k]) || (OneLine(k) && (d'[k].Some? ==> OneLine(d'[k].value)))
  }

  lemma JoinedOneLine(section: string, key: string, n: nat)
    requires OneLine(section) && OneLine(key)
    ensures OneLine(Take(section + ":" + key, n))
  {
  }

  lemma StepAddsOneLines(text: string, r: Reader)
    requires OneLine(RStrip(text)) && OneLine(r.section)
    ensures var r' := OneLineRead(text, r); OneLine(r'.buf) || r'.buf == r.buf
    ensures var r' := OneLineRead(text, r); OneLine(r'.section) && AddsOneLines(r.dict, r'.dict)
  {
    var line := RStrip(text);
    ParsedOneLine(line, r.section);
    if Continued(line) {
      SliceFrom(line, 0, |line| - 1);
      FromOneLine(line[..|line| - 1], line);
    } else {
      var l := ParseLine(line, r.section);
      if l.Value? { JoinedOneLine(r.section, l.key, ASCIILINESZ - 1); }
    }
  }

  /** What fgets appends ends with the first newline. */
  lemma ChunkOneLine(rest: string, r: Reader)
    requires Fitting(r) && OneLine(r.buf)
    ensures OneLine(RStrip(r.buf + CStr(rest[..Chunk(rest, r)])))
  {
    var c := CStr(rest[..Chunk(rest, r)]);
    var text := r.buf + c;
    assert forall i :: 0 <= i < |c| ==> c[i] != NUL && (c[i] == '\n' ==> i == |c| - 1);
    forall i | 0 <= i < Trimmed(text) ensures text[i] != '\n' && text[i] != NUL {
      if i < |r.buf| { assert text[i] in r.buf; } else { assert text[i] == c[i - |r.buf|]; }
    }
  }

  lemma {:induction false} ReadAddsOneLines(rest: string, r: Reader)
    requires Fitting(r) && OneLine(r.buf) && OneLine(r.section)
    ensures AddsOneLines(r.dict, ReadOn(rest, r).dict)
    decreases |rest|
  {
    if rest != [] {
      ReadStep(rest, r);
      ChunkOneLine(rest, r);
      var n := Chunk(rest, r);
      var r' := OneLineRead(r.buf + CStr(rest[..n]), r);
      StepAddsOneLines(r.buf + CStr(rest[..n]), r);
      ReadAddsOneLines(rest[n..], r');
    }
  }

  /** Where the '=' of an entry line is. */
  function EqualsAt(key: string, v: string): (e: nat)
    ensures e < |EntryLine(key, v)| && EntryLine(key, v)[e] == '=' && e == |PadRight(key, 30)| + 1
  {
    |PadRight(key, 30)| + 1
  }

  lemma ShortField(f: string, n: nat)
    requires forall i :: n <= i < |f| ==> IsSpace(f[i])
    ensures |StripTo(f, ASCIILINESZ)| <= n
  {
    var b, w := Blanks(f), StripTo(f, ASCIILINESZ);
    if w != [] { assert w[|w| - 1] == f[b + |w| - 1]; }
  }

  /** The key field of an entry line, from place b on, is blank after the key. */
  lemma FieldBlank(key: string, v: string, b: nat, field: string)
    requires b + |field| <= EqualsAt(key, v) && field <= EntryLine(key, v)[b..]
    ensures |StripTo(field, ASCIILINESZ)| <= |key|
  {
    var p := PadRight(key, 30);
    PadIs(key);
    var n := if b < |key| then |key| - b else 0;
    forall i | n <= i < |field| ensures IsSpace(field[i]) {
      assert field[i] == EntryLine(key, v)[b..][i] == if b + i < |p| then p[b + i] else ' ';
    }
    ShortField(field, n);
  }

  lemma StripPlace(s: string)
    ensures Blanks(RStrip(s)) <= |s| && StripTo(RStrip(s), ASCIILINESZ) <= s[Blanks(RStrip(s))..]
  {
    var b := Blanks(RStrip(s));
    assert RStrip(s)[b..] == s[b..][..Trimmed(s) - b];
  }

  lemma EqualsFound(line: string, entry: string, b: nat, e: nat)
    requires b <= e < |entry| && line <= entry[b..] && entry[e] == '=' && UpTo(line, "=") < |line|
    ensures b + UpTo(line, "=") <= e
  {
    if e - b < |line| { assert line[e - b] == entry[b..][e - b] == entry[e]; }
  }

  lemma BlanksStop(s: string, e: nat)
    requires e < |s| && !IsSpace(s[e])
    ensures Blanks(RStrip(s)) <= e
  {
    assert e < Trimmed(s) && RStrip(s)[e] == s[e];
  }

  lemma FieldShort(key: string, v: string, entry: string, b: nat, line: string)
    requires entry == EntryLine(key, v) && b <= EqualsAt(key, v) && UpTo(line, "=") < |line|
    requires line <= entry[b..]
    ensures |StripTo(line[..UpTo(line, "=")], ASCIILINESZ)| <= |key|
  {
    EqualsFound(line, entry, b, EqualsAt(key, v));
    FieldBlank(key, v, b, line[..UpTo(line, "=")]);
  }

  lemma EntryFieldShort(key: string, v: string, line: string)
    requires line == StripTo(RStrip(EntryLine(key, v)), ASCIILINESZ) && UpTo(line, "=") < |line|
    ensures |StripTo(line[..UpTo(line, "=")], ASCIILINESZ)| <= |key|
  {
    var entry := EntryLine(key, v);
    var input := RStrip(entry);
    StripPlace(entry);
    BlanksStop(entry, EqualsAt(key, v));
    FieldShort(key, v, entry, Blanks(input), line);
  }

  lemma ParsedKey(input: string, section: string)
    requires ParseLine(input, section).Value?
    ensures var line := StripTo(input, ASCIILINESZ);
      var k := UpTo(line, "=");
      k < |line| && |ParseLine(input, section).key| == |StripTo(line[..k], ASCIILINESZ)|
  {
    var l := ParseLine(input, section);
    ValueKey(StripTo(input, ASCIILINESZ), l.key, l.value);
  }

  /** A key is never read as a longer one. */
  lemma KeyNoLonger(key: string, v: string, section: string)
    requires ParseLine(RStrip(EntryLine(key, v)), section).Value?
    ensures |ParseLine(RStrip(EntryLine(key, v)), section).key| <= |key|
  {
    ParsedKey(RStrip(EntryLine(key, v)), section);
    EntryFieldShort(key, v, StripTo(RStrip(EntryLine(key, v)), ASCIILINESZ));
  }

  /** Reading one line as this entry means that the line parses as it. */
  lemma ReadAsParses(key: string, v: string, r: Reader)
    requires |r.section + ":" + key| < ASCIILINESZ && r.section + ":" + key !in r.dict
    requires OneLineRead(EntryLine(key, v), r) == With(r, key, v) && OneLine(EntryLine(key, v))
    ensures Reads(EntryLine(key, v), r.section, Value(key, v))
  {
    var line, full := RStrip(EntryLine(key, v)), r.section + ":" + key;
    assert full in With(r, key, v).dict && With(r, key, v).dict[full] == Some(v);
    var l := ParseLine(line, r.section);
    assert !Continued(line) && l.Value?;
    assert Take(r.section + ":" + l.key, ASCIILINESZ - 1) == full && l.value == v;
    KeyNoLonger(key, v, r.section);
    assert |r.section + ":" + l.key| <= |full|;
    assert l.key == full[|r.section| + 1..] == key;
  }

  /** Nothing is stored under a name, or as a value, that does not lie on one line. */
  lemma StoredOnOneLine(key: string, v: string, text: string, r: Reader)
    requires r.buf == [] && OneLine(r.section) && r.section + ":" + key !in r.dict
    requires ReadOn(text, r) == With(r, key, v)
    ensures OneLine(key) && OneLine(v)
  {
    var full := r.section + ":" + key;
    ReadAddsOneLines(text, r);
    assert full in With(r, key, v).dict && With(r, key, v).dict[full] == Some(v);
    assert key == full[|r.section| + 1..];
    SliceFrom(full, |r.section| + 1, |full|);
    FromOneLine(key, full);
  }

  lemma ReadBackIsGood(key: string, v: string, r: Reader)
    requires Fits(key, v) && |r.section + ":" + key| < ASCIILINESZ
    requires r.buf == [] && OneLine(r.section) && r.section + ":" + key !in r.dict
    requires ReadOn(EntryLine(key, v) + "\n", r) == With(r, key, v)
    ensures GoodEntry(key, v)
  {
    StoredOnOneLine(key, v, EntryLine(key, v) + "\n", r);
    EntryOneLine(key, v);
    ReadLastLine(EntryLine(key, v), r);
    ReadAsParses(key, v, r);
    PairSurvives(key, v, r.section);
  }

  /** The line written for an entry is read back as just that entry if and only if the entry is
      good, wherever the reader is when nothing is stored under that name yet. */
  lemma EntrySurvives(key: string, v: string, r: Reader)
    requires Fits(key, v) && |r.section + ":" + key| < ASCIILINESZ
    requires r.buf == [] && OneLine(r.section) && r.section + ":" + key !in r.dict
    ensures ReadOn(EntryLine(key, v) + "\n", r) == With(r, key, v) <==> GoodEntry(key, v)
  {
    if GoodEntry(key, v) { ReadEntry(key, v, r); }
    if ReadOn(EntryLine(key, v) + "\n", r) == With(r, key, v) { ReadBackIsGood(key, v, r); }
  }
}
