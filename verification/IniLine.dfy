/** One logical line of an INI file: iniparser_line and the scanf patterns it uses. */
module IniLine {
  import opened Characters
  import opened Options
  import opened IniText

  const ASCIILINESZ := 3096

  datatype Line = Empty | Comment | Section(name: string) | Value(key: string, value: string) | Error

  /** The characters before the first one in `stops`, as `%[^...]` reads them. */
  function UpTo(s: string, stops: string): (n: nat)
    ensures n <= |s| && (n < |s| ==> s[n] in stops)
    ensures forall i :: 0 <= i < n ==> s[i] !in stops
  {
    if s == [] || s[0] in stops then 0 else 1 + UpTo(s[1..], stops)
  }

  lemma UpToIs(s: string, stops: string, n: nat)
    requires n <= |s| && (n < |s| ==> s[n] in stops)
    requires forall i :: 0 <= i < n ==> s[i] !in stops
    ensures UpTo(s, stops) == n
  {
  }

  datatype Scan = NoMatch | Match(key: string, value: string)

  /** `%[^=] = q%[^q]q` with both fields assigned. */
  function ScanQuoted(line: string, q: char): Scan {
    var k := UpTo(line, "=");
    if k == 0 || k == |line| then NoMatch
    else
      var rest := LStrip(line[k + 1..]);
      if rest == [] || rest[0] != q then NoMatch
      else
        var v := UpTo(rest[1..], [q]);
        if v == 0 then NoMatch else Match(line[..k], rest[1..][..v])
  }

  /** `%[^=] = %[^;#]` with both fields assigned. */
  function ScanPlain(line: string): Scan {
    var k := UpTo(line, "=");
    if k == 0 || k == |line| then NoMatch
    else
      var rest := LStrip(line[k + 1..]);
      var v := UpTo(rest, ";#");
      if v == 0 then NoMatch else Match(line[..k], rest[..v])
  }

  /** `%[^=] = %[;#]`, whose second field is not used. */
  function ScanComment(line: string): Scan {
    var k := UpTo(line, "=");
    if k == 0 || k == |line| then NoMatch
    else
      var rest := LStrip(line[k + 1..]);
      if rest != [] && rest[0] in ";#" then Match(line[..k], "") else NoMatch
  }

  /** `%[^=] %[=]`, whose second field is not used. */
  function ScanEquals(line: string): Scan {
    var k := UpTo(line, "=");
    if k == 0 || k == |line| then NoMatch else Match(line[..k], "")
  }

  /** `[%[^]]`: an empty name leaves the section buffer as it was. */
  function ScanSection(line: string, section: string): string
    requires line != []
  {
    var n := UpTo(line[1..], "]");
    if n == 0 then section else line[1..][..n]
  }

  function Normal(s: string): string { Lwc(StripTo(s, ASCIILINESZ)) }

  /** Quotes around nothing mean nothing. */
  function Unquote(v: string): string { if v == "\"\"" || v == "''" then "" else v }

  function Or(a: Scan, b: Scan): Scan { if a.Match? then a else b }

  function Full(line: string): Scan {
    Or(Or(ScanQuoted(line, '\"'), ScanQuoted(line, '\'')), ScanPlain(line))
  }

  function Bare(line: string): Scan { Or(ScanComment(line), ScanEquals(line)) }

  function ValueOf(line: string): Line {
    var full, bare := Full(line), Bare(line);
    if full.Match? then Value(Normal(full.key), Unquote(StripTo(full.value, ASCIILINESZ)))
    else if bare.Match? then Value(Normal(bare.key), "")
    else Error
  }

  function ParseLine(input: string, section: string): Line {
    var line := StripTo(input, ASCIILINESZ);
    if line == [] then Empty
    else if line[0] == '#' then Comment
    else if line[0] == '[' && line[|line| - 1] == ']' then Section(Normal(ScanSection(line, section)))
    else ValueOf(line)
  }

  /** iniparser_line, with the buffers it fills as results. */
  method ParseLineInto(input: string, section: string)
    returns (sta: Line, section': string, key: string, value: string)
    ensures sta == ParseLine(input, section)
    ensures section' == if sta.Section? then sta.name else section
    ensures sta.Value? ==> key == sta.key && value == sta.value
  {
    section', key, value := section, "", "";
    var line := StrStrip(Some(input), ASCIILINESZ + 1, "");
    if |line| < 1 {
      sta := Empty;
    } else if line[0] == '#' {
      sta := Comment;
    } else if line[0] == '[' && line[|line| - 1] == ']' {
      section' := ScanSection(line, section);
      section' := NormalInto(section');
      sta := Section(section');
    } else {
      var scan := ScanQuoted(line, '\"');
      if scan == NoMatch { scan := ScanQuoted(line, '\''); }
      if scan == NoMatch { scan := ScanPlain(line); }
      if scan != NoMatch {
        key := NormalInto(scan.key);
        value := StrStrip(Some(scan.value), ASCIILINESZ + 1, "");
        if value == "\"\"" || value == "''" { value := ""; }
        sta := Value(key, value);
      } else {
        scan := ScanComment(line);
        if scan == NoMatch { scan := ScanEquals(line); }
        if scan != NoMatch {
          key := NormalInto(scan.key);
          value := "";
          sta := Value(key, value);
        } else {
          sta := Error;
        }
      }
    }
  }

  method NormalInto(s: string) returns (r: string)
    ensures r == Normal(s)
  {
    var stripped := StrStrip(Some(s), ASCIILINESZ + 1, "");
    StripToIsStripped(s, ASCIILINESZ);
    r := StrLwc(Some(stripped), ASCIILINESZ + 1, "");
  }

  // ---------- what a value line stands for ----------

  function PadRight(s: string, n: nat): (r: string)
    ensures |r| == if |s| < n then n else |s|
    ensures r[..|s|] == s && forall i :: |s| <= i < |r| ==> r[i] == ' '
    decreases n - |s|
  {
    if |s| >= n then s else PadRight(s + [' '], n)
  }

  /** The line that iniparser_dump_ini writes for an entry, without its newline. */
  function EntryLine(key: string, value: string): string { PadRight(key, 30) + " = " + value }

  predicate OneLine(s: string) { '\n' !in s && NUL !in s }

  /** A key and a value that survive being written and read. */
  predicate GoodKey(key: string) {
    && key != [] && !IsSpace(key[0]) && !IsSpace(key[|key| - 1])
    && Lwc(key) == key && '=' !in key && key[0] != '#'
  }

  predicate IsQuote(c: char) { c == '\"' || c == '\'' }

  predicate GoodValue(v: string) {
    && (v == [] || (!IsSpace(v[0]) && !IsSpace(v[|v| - 1]) && v[|v| - 1] != '\\'))
    && ';' !in v && '#' !in v
    && v != "\"\"" && v != "''"
    && (|v| > 1 && IsQuote(v[0]) ==> v[1] == v[0])
  }

  /** Together they do not look like a section. */
  predicate GoodPair(key: string, v: string) {
    GoodKey(key) && GoodValue(v) && !(key[0] == '[' && v != [] && v[|v| - 1] == ']')
  }

  predicate GoodEntry(key: string, v: string) { OneLine(key) && OneLine(v) && GoodPair(key, v) }

  predicate Continued(line: string) { line != [] && line[|line| - 1] == '\\' }

  /** What the reader makes of a line: nothing yet, when it is to be continued. */
  predicate Reads(line: string, section: string, result: Line) {
    !Continued(RStrip(line)) && ParseLine(RStrip(line), section) == result
  }

  predicate Fits(key: string, v: string) { |EntryLine(key, v)| < ASCIILINESZ - 1 }

  // ---------- exactly which entries survive ----------

  /** The value read from the text after '=', blanks removed from both ends. */
  function ReadValue(u: string): string
    requires u != []
  {
    var n := UpTo(u[1..], [u[0]]);
    if IsQuote(u[0]) && n > 0 then Unquote(StripTo(u[1..][..n], ASCIILINESZ))
    else Unquote(StripTo(u[..UpTo(u, ";#")], ASCIILINESZ))
  }

  /** The three patterns in their order, on the text after '='. */
  lemma {:induction false} ScansAre(line: string, k: nat, u: string)
    requires 0 < k < |line| && UpTo(line, "=") == k && u == LStrip(line[k + 1..]) && u != []
    ensures var n, p := UpTo(u[1..], [u[0]]), UpTo(u, ";#");
      && ScanQuoted(line, '\"') == (if u[0] == '\"' && n > 0 then Match(line[..k], u[1..][..n]) else NoMatch)
      && ScanQuoted(line, '\'') == (if u[0] == '\'' && n > 0 then Match(line[..k], u[1..][..n]) else NoMatch)
      && ScanPlain(line) == (if p > 0 then Match(line[..k], u[..p]) else NoMatch)
  {
  }

  lemma BareIs(line: string, k: nat)
    requires 0 < k < |line| && UpTo(line, "=") == k
    ensures Bare(line) == Match(line[..k], "")
  {
  }

  lemma {:induction false} FullIs(line: string, k: nat, u: string)
    requires 0 < k < |line| && UpTo(line, "=") == k && u == LStrip(line[k + 1..])
    ensures u == [] ==> Full(line) == NoMatch
    ensures u != [] && Full(line).Match? ==>
      Full(line).key == line[..k] && ReadValue(u) == Unquote(StripTo(Full(line).value, ASCIILINESZ))
    ensures u != [] && Full(line) == NoMatch ==> ReadValue(u) == ""
  {
    if u != [] {
      ScansAre(line, k, u);
      StripStripped([], ASCIILINESZ);
      assert u[..0] == [];
    }
  }

  lemma ValueOfIs(line: string, k: nat, u: string)
    requires 0 < k < |line| && UpTo(line, "=") == k && u == LStrip(line[k + 1..])
    ensures ValueOf(line) == Value(Normal(line[..k]), if u == [] then "" else ReadValue(u))
  {
    BareIs(line, k);
    FullIs(line, k, u);
  }

  /** Reading never makes a value longer, and keeps it only when nothing in it is special. */
  lemma ReadValueKeeps(u: string)
    requires u != [] && Stripped(u) && |u| <= ASCIILINESZ
    ensures |ReadValue(u)| <= |u|
    ensures |ReadValue(u)| == |u| <==>
      ';' !in u && '#' !in u && u != "\"\"" && u != "''" && (|u| > 1 && IsQuote(u[0]) ==> u[1] == u[0])
    ensures |ReadValue(u)| == |u| ==> ReadValue(u) == u
  {
    var n := UpTo(u[1..], [u[0]]);
    if IsQuote(u[0]) && n > 0 {
      StripToIsStripped(u[1..][..n], ASCIILINESZ);
      StripShortens(u[1..][..n]);
      assert u[1] != u[0];
    } else {
      var p := UpTo(u, ";#");
      StripShortens(u[..p]);
      if p == |u| {
        assert u[..p] == u;
        StripStripped(u, ASCIILINESZ);
      } else {
        assert u[p] in u;
      }
      assert |u| > 1 && IsQuote(u[0]) ==> u[1] == u[0];
      assert p == |u| <==> ';' !in u && '#' !in u;
    }
  }

  lemma StripShortens(s: string)
    ensures |StripTo(s, ASCIILINESZ)| <= |s|
  {
  }

  lemma PadIs(key: string)
    ensures var p := PadRight(key, 30); forall i :: 0 <= i < |p| ==> p[i] == if i < |key| then key[i] else ' '
  {
    var p := PadRight(key, 30);
    assert forall i :: 0 <= i < |key| ==> p[i] == p[..|key|][i];
  }

  /** What follows the equals sign before a value without trailing blanks. */
  function Rest(w: string): string { if w == [] then "" else " " + w }

  /** An entry line without its trailing blanks: the key field, the equals sign and the value. */
  lemma EntryLineIs(key: string, v: string)
    ensures RStrip(EntryLine(key, v)) == PadRight(key, 30) + " =" + Rest(RStrip(v))
  {
    var p, w, line := PadRight(key, 30), RStrip(v), EntryLine(key, v);
    var stem := p + " =" + Rest(w);
    assert line[..|stem|] == stem;
    TrimmedIs(line, |stem|);
  }

  /** Where the key field ends, and what it is once normalised. */
  lemma KeyField(key: string, rest: string)
    requires GoodKey(key) && |PadRight(key, 30)| < ASCIILINESZ
    ensures var p := PadRight(key, 30);
      UpTo(p + " =" + rest, "=") == |p| + 1 && Normal((p + " =" + rest)[..|p| + 1]) == key
  {
    var p := PadRight(key, 30);
    var line := p + " =" + rest;
    PadIs(key);
    UpToIs(line, "=", |p| + 1);
    var field, pad := line[..|p| + 1], p[|key|..] + " ";
    assert field == [] + key + pad;
    StripPadded([], key, pad);
    assert Take(LStrip(field), ASCIILINESZ) == key + pad;
  }

  lemma LStripBlank(w: string)
    ensures LStrip(" " + w) == LStrip(w)
  {
    assert (" " + w)[1..] == w;
  }

  lemma FieldEnds(p: string, w: string, first: char)
    requires p != [] && p[0] == first && !IsSpace(first) && (w != [] ==> !IsSpace(w[|w| - 1]))
    ensures var line := p + " =" + Rest(w);
      && Stripped(line) && line[0] == first && line[|line| - 1] == (if w == [] then '=' else w[|w| - 1])
      && line[|p| + 2..] == Rest(w)
  {
  }

  lemma EntryShape(key: string, v: string)
    requires GoodKey(key) && Fits(key, v)
    ensures var p, w, line := PadRight(key, 30), RStrip(v), RStrip(EntryLine(key, v));
      && line == p + " =" + Rest(w) && StripTo(line, ASCIILINESZ) == line
      && line[0] == key[0] && line[|line| - 1] == (if w == [] then '=' else w[|w| - 1])
      && line[|p| + 2..] == Rest(w)
  {
    EntryLineIs(key, v);
    PadIs(key);
    FieldEnds(PadRight(key, 30), RStrip(v), key[0]);
    StripStripped(RStrip(EntryLine(key, v)), ASCIILINESZ);
  }

  lemma RestStripped(w: string)
    ensures LStrip(Rest(w)) == LStrip(w)
  {
    if w != [] { LStripBlank(w); }
  }

  /** A stripped line is a section when it is in brackets, and goes to the patterns otherwise. */
  lemma StrippedParses(line: string, section: string)
    requires StripTo(line, ASCIILINESZ) == line && line != [] && line[0] != '#'
    ensures if line[0] == '[' && line[|line| - 1] == ']' then ParseLine(line, section).Section?
            else ParseLine(line, section) == ValueOf(line)
  {
  }

  /** What the reader makes of the line of a good key, whatever the value. */
  lemma EntryLineParses(key: string, v: string, section: string)
    requires GoodKey(key) && Fits(key, v)
    ensures var w, line := RStrip(v), RStrip(EntryLine(key, v));
      if w != [] && key[0] == '[' && w[|w| - 1] == ']' then ParseLine(line, section).Section?
      else ParseLine(line, section) == Value(key, if LStrip(w) == [] then "" else ReadValue(LStrip(w)))
  {
    var p, w, line := PadRight(key, 30), RStrip(v), RStrip(EntryLine(key, v));
    EntryShape(key, v);
    KeyField(key, Rest(w));
    RestStripped(w);
    ValueOfIs(line, |p| + 1, LStrip(w));
    StrippedParses(line, section);
  }

  lemma {:induction false} LwcIdempotent(s: string)
    ensures Lwc(Lwc(s)) == Lwc(s)
  {
    forall i | 0 <= i < |s| ensures Lwc(Lwc(s))[i] == Lwc(s)[i] { LowerSpace(s[i]); }
  }

  lemma QuotedKeyed(line: string, q: char)
    ensures var k := UpTo(line, "=");
      ScanQuoted(line, q).Match? ==> 0 < k < |line| && ScanQuoted(line, q).key == line[..k]
  {
  }

  lemma PlainKeyed(line: string)
    ensures var k := UpTo(line, "="); ScanPlain(line).Match? ==> 0 < k < |line| && ScanPlain(line).key == line[..k]
  {
  }

  /** Every pattern that matches has read the text before the '=' as the key. */
  lemma FullKeyed(line: string)
    ensures var k := UpTo(line, "="); Full(line).Match? ==> 0 < k < |line| && Full(line).key == line[..k]
  {
    QuotedKeyed(line, '\"');
    QuotedKeyed(line, '\'');
    PlainKeyed(line);
  }

  lemma BareKeyed(line: string)
    ensures var k := UpTo(line, "="); Bare(line).Match? ==> 0 < k < |line| && Bare(line).key == line[..k]
  {
  }

  lemma ValueKey(line: string, key: string, v: string)
    requires ValueOf(line) == Value(key, v)
    ensures var k := UpTo(line, "="); 0 < k < |line| && key == Normal(line[..k])
  {
    FullKeyed(line);
    BareKeyed(line);
  }

  lemma NormalIsGood(field: string)
    requires field != [] && |field| <= ASCIILINESZ && !IsSpace(field[0]) && field[0] != '#' && '=' !in field
    ensures GoodKey(Normal(field))
  {
    var key := Normal(field);
    BlanksIs(field, 0);
    assert LStrip(field) == field;
    var t := RStrip(field);
    assert StripTo(field, ASCIILINESZ) == t && t != [] && t[0] == field[0];
    LwcSpaces(t);
    LwcIdempotent(t);
    assert key[0] == Lower(field[0]);
    forall i | 0 <= i < |key| ensures key[i] != '=' {
      assert key[i] == Lower(field[i]) && field[i] in field;
    }
  }

  /** Only good keys come out of the parser. */
  lemma ParsedKeyIsGood(input: string, section: string)
    ensures ParseLine(input, section).Value? ==> GoodKey(ParseLine(input, section).key)
  {
    var line, l := StripTo(input, ASCIILINESZ), ParseLine(input, section);
    StripToIsStripped(input, ASCIILINESZ);
    if l.Value? {
      ValueKey(line, l.key, l.value);
      var k := UpTo(line, "=");
      assert forall i :: 0 <= i < k ==> line[i] != '=';
      NormalIsGood(line[..k]);
    }
  }

  /** On one line, exactly the good pairs are read back. */
  lemma PairSurvives(key: string, v: string, section: string)
    requires Fits(key, v)
    ensures Reads(EntryLine(key, v), section, Value(key, v)) <==> GoodPair(key, v)
  {
    var line := RStrip(EntryLine(key, v));
    if !GoodKey(key) {
      ParsedKeyIsGood(line, section);
    } else {
      GoodKeySurvives(key, v, section);
    }
  }

  lemma GoodKeySurvives(key: string, v: string, section: string)
    requires GoodKey(key) && Fits(key, v)
    ensures Reads(EntryLine(key, v), section, Value(key, v)) <==> GoodPair(key, v)
  {
    LineSurvives(key, v, section);
    ValueSurvives(v);
    if GoodValue(v) || ReadBack(v) == v { ReadBackStripped(v); }
  }

  /** Whether the line of a good key is read as that key and value. */
  lemma LineSurvives(key: string, v: string, section: string)
    requires GoodKey(key) && Fits(key, v)
    ensures var w := RStrip(v);
      Reads(EntryLine(key, v), section, Value(key, v)) <==>
      !Continued(w) && !(w != [] && key[0] == '[' && w[|w| - 1] == ']') && ReadBack(v) == v
  {
    var w, line := RStrip(v), RStrip(EntryLine(key, v));
    EntryShape(key, v);
    EntryLineParses(key, v, section);
    assert Continued(line) <==> Continued(w);
  }

  lemma ReadBackStripped(v: string)
    requires GoodValue(v) || (ReadBack(v) == v && |v| <= ASCIILINESZ)
    ensures RStrip(v) == v
  {
    if GoodValue(v) {
      TrimmedIs(v, |v|);
    } else {
      var u := LStrip(RStrip(v));
      if u != [] {
        assert u[|u| - 1] == RStrip(v)[|RStrip(v)| - 1] && u[0] == RStrip(v)[Blanks(RStrip(v))];
        ReadValueKeeps(u);
      }
    }
  }

  /** The value that is read back, blanks gone and quotes and comments obeyed. */
  function ReadBack(v: string): string {
    var u := LStrip(RStrip(v));
    if u == [] then "" else ReadValue(u)
  }

  lemma ValueSurvives(v: string)
    requires |v| <= ASCIILINESZ
    ensures ReadBack(v) == v && !Continued(v) <==> GoodValue(v)
  {
    var w := RStrip(v);
    var u := LStrip(w);
    if u != [] {
      assert u[|u| - 1] == w[|w| - 1] && u[0] == w[Blanks(w)];
      ReadValueKeeps(u);
      if ReadBack(v) == v { assert |u| == |w| == |v|; assert u == v; }
      if GoodValue(v) { StripStripped(v, ASCIILINESZ); }
    } else if GoodValue(v) {
      StripStripped(v, |v|);
    }
  }
}
