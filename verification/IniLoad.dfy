/** iniparser_load: reading logical lines through a fixed buffer. */
module IniLoad {
  import opened Characters
  import opened Options
  import opened Dictionaries
  import opened IniText
  import opened IniLine

  type Map = map<string, Option<string>>

  /** The variables of the read loop; `buf` is line[..last]. */
  datatype Reader = Reader(buf: string, section: string, dict: Map, errs: nat)

  const START := Reader("", "", map[], 0)

  /** A C string ends at its first NUL. */
  function CStr(s: string): string { s[..UpTo(s, [NUL])] }

  /** How many characters fgets takes for a buffer of `size`: through the newline, if that
      comes soon enough. */
  function ChunkLength(rest: string, size: nat): (n: nat)
    requires size > 1
    ensures n <= |rest| && n < size && (rest != [] ==> n > 0)
  {
    var n := UpTo(rest, "\n");
    var m := if n < |rest| then n + 1 else n;
    if m < size then m else size - 1
  }

  /** What one pass of the loop body makes of the text in the line buffer. */
  function OneLineRead(line: string, r: Reader): Reader {
    var line := RStrip(line);
    if Continued(line) then r.(buf := line[..|line| - 1]) else Obey(ParseLine(line, r.section), r.(buf := ""))
  }

  /** The switch of the loop: storing a section or a value resets the error count. */
  function Obey(l: Line, r: Reader): Reader {
    match l
    case Empty | Comment => r
    case Section(name) => r.(section := name, dict := r.dict[name := None], errs := 0)
    case Value(key, value) =>
      r.(dict := r.dict[Take(r.section + ":" + key, ASCIILINESZ - 1) := Some(value)], errs := 0)
    case Error => r.(errs := r.errs + 1)
  }

  ghost predicate Fitting(r: Reader) { |r.buf| < ASCIILINESZ - 1 }

  function Chunk(rest: string, r: Reader): (n: nat)
    requires Fitting(r)
    ensures n <= |rest| && (rest != [] ==> n > 0) && |r.buf| + n < ASCIILINESZ
  {
    ChunkLength(rest, ASCIILINESZ - |r.buf|)
  }

  function ReadOn(rest: string, r: Reader): (r': Reader)
    requires Fitting(r)
    ensures Fitting(r')
    decreases |rest|
  {
    if rest == [] then r
    else
      var n := Chunk(rest, r);
      ReadOn(rest[n..], OneLineRead(r.buf + CStr(rest[..n]), r))
  }

  lemma ReadStep(rest: string, r: Reader)
    requires Fitting(r) && rest != []
    ensures var n := Chunk(rest, r);
      var r' := OneLineRead(r.buf + CStr(rest[..n]), r);
      Fitting(r') && ReadOn(rest, r) == ReadOn(rest[n..], r')
  {
  }

  function Finish(r: Reader): Option<Map> { if r.errs != 0 then None else Some(r.dict) }

  function LoadText(text: string): Option<Map> { Finish(ReadOn(text, START)) }

  /** Get rid of the newline and of the blanks at the end of the line. */
  method TrimLine(text: string) returns (line: string)
    ensures line == RStrip(text)
  {
    var len := |text| - 1;
    while len >= 0 && (text[len] == '\n' || IsSpace(text[len]))
      invariant -1 <= len < |text|
      invariant forall i :: len < i < |text| ==> IsSpace(text[i])
    {
      len := len - 1;
    }
    TrimmedIs(text, len + 1);
    line := text[..len + 1];
  }

  /** The switch on the line status, on the dictionary itself. */
  method Store(line: string, section: string, errs: nat, dict: Dictionary) returns (section': string, errs': nat)
    requires dict.Valid()
    modifies dict, dict.key, dict.val, dict.hash
    ensures dict.Valid()
    ensures dict.key == old(dict.key) || fresh(dict.key)
    ensures dict.val == old(dict.val) || fresh(dict.val)
    ensures dict.hash == old(dict.hash) || fresh(dict.hash)
    ensures Reader("", section', dict.m, errs')
         == Obey(ParseLine(line, section), Reader("", section, old(dict.m), errs))
  {
    section', errs' := section, errs;
    var sta, named, key, value := ParseLineInto(line, section);
    match sta {
      case Empty =>
      case Comment =>
      case Section(_) =>
        section' := named;
        dict.Set(named, None);
        errs' := 0;
      case Value(_, _) =>
        var tmp := Take(section + ":" + key, ASCIILINESZ - 1);
        dict.Set(tmp, Some(value));
        errs' := 0;
      case Error => errs' := errs + 1;
    }
  }

  /** One pass of the loop body, after fgets. */
  method TakeLine(text: string, section: string, errs: nat, dict: Dictionary, ghost buf: string)
    returns (buf': string, section': string, errs': nat)
    requires dict.Valid()
    modifies dict, dict.key, dict.val, dict.hash
    ensures dict.Valid()
    ensures dict.key == old(dict.key) || fresh(dict.key)
    ensures dict.val == old(dict.val) || fresh(dict.val)
    ensures dict.hash == old(dict.hash) || fresh(dict.hash)
    ensures Reader(buf', section', dict.m, errs') == OneLineRead(text, Reader(buf, section, old(dict.m), errs))
  {
    var line := TrimLine(text);
    if |line| > 0 && line[|line| - 1] == '\\' {
      return line[..|line| - 1], section, errs;
    }
    buf' := "";
    section', errs' := Store(line, section, errs, dict);
  }

  /** fgets, appending to what the buffer holds. */
  method FillLine(rest: string, buf: string, ghost r: Reader) returns (rest': string, line: string)
    requires rest != [] && Fitting(r) && r.buf == buf
    ensures |rest'| < |rest| && Fitting(OneLineRead(line, r))
    ensures ReadOn(rest, r) == ReadOn(rest', OneLineRead(line, r))
  {
    ReadStep(rest, r);
    var n := ChunkLength(rest, ASCIILINESZ - |buf|);
    line := buf + CStr(rest[..n]);
    rest' := rest[n..];
  }

  /** fgets, and the loop body on what it read. */
  method ReadLine(rest: string, buf: string, section: string, errs: nat, dict: Dictionary)
    returns (rest': string, buf': string, section': string, errs': nat)
    requires dict.Valid() && rest != [] && |buf| < ASCIILINESZ - 1
    modifies dict, dict.key, dict.val, dict.hash
    ensures dict.Valid()
    ensures dict.key == old(dict.key) || fresh(dict.key)
    ensures dict.val == old(dict.val) || fresh(dict.val)
    ensures dict.hash == old(dict.hash) || fresh(dict.hash)
    ensures |rest'| < |rest| && |buf'| < ASCIILINESZ - 1
    ensures ReadOn(rest, Reader(buf, section, old(dict.m), errs))
         == ReadOn(rest', Reader(buf', section', dict.m, errs'))
  {
    ghost var r := Reader(buf, section, dict.m, errs);
    var line;
    rest', line := FillLine(rest, buf, r);
    buf', section', errs' := TakeLine(line, section, errs, dict, buf);
    SameRead(rest', OneLineRead(line, r), Reader(buf', section', dict.m, errs'));
  }

  lemma SameRead(rest: string, r: Reader, r': Reader)
    requires r == r' && Fitting(r)
    ensures Fitting(r') && ReadOn(rest, r) == ReadOn(rest, r')
  {
  }

  /** iniparser_load, from the text of the file. The guard against lines longer than the
      buffer is never taken: fgets cuts them first. */
  method Load(text: string) returns (dict: Dictionary?)
    ensures dict == null <==> LoadText(text) == None
    ensures dict != null ==> fresh(dict) && dict.Valid() && LoadText(text) == Some(dict.m)
  {
    var d := new Dictionary(0);
    var rest, buf, section, errs := text, "", "", 0;
    while rest != []
      invariant |buf| < ASCIILINESZ - 1
      invariant fresh(d) && d.Valid() && fresh(d.key) && fresh(d.val) && fresh(d.hash)
      invariant ReadOn(rest, Reader(buf, section, d.m, errs)) == ReadOn(text, START)
      decreases |rest|
    {
      rest, buf, section, errs := ReadLine(rest, buf, section, errs, d);
    }
    dict := if errs != 0 then null else d;
  }
}
