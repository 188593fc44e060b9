/** What loading promises: continuation lines, and which syntax errors are fatal. */
module IniLoading {
  import opened Options
  import opened IniText
  import opened IniLine
  import opened IniLoad

  lemma UpToAppend(a: string, b: string, stops: string)
    requires UpTo(a, stops) < |a|
    ensures UpTo(a + b, stops) == UpTo(a, stops)
  {
    UpToIs(a + b, stops, UpTo(a, stops));
  }

  ghost predicate WholeLines(text: string) { text == [] || text[|text| - 1] == '\n' }

  lemma SplitInFront(a: string, b: string, n: nat)
    requires n <= |a|
    ensures (a + b)[..n] == a[..n] && (a + b)[n..] == a[n..] + b
  {
  }

  /** Whole lines can be read first and the rest afterwards. */
  lemma {:induction false} ReadAppend(pre: string, rest: string, r: Reader)
    requires Fitting(r) && WholeLines(pre)
    ensures ReadOn(pre + rest, r) == ReadOn(rest, ReadOn(pre, r))
    decreases |pre|
  {
    if pre == [] {
      assert pre + rest == rest;
    } else {
      var n := Chunk(pre, r);
      assert UpTo(pre, "\n") < |pre|;
      UpToAppend(pre, rest, "\n");
      assert Chunk(pre + rest, r) == n;
      SplitInFront(pre, rest, n);
      ReadStep(pre, r);
      ReadStep(pre + rest, r);
      ReadAppend(pre[n..], rest, OneLineRead(r.buf + CStr(pre[..n]), r));
    }
  }

  lemma RStripNewline(s: string)
    ensures RStrip(s + "\n") == RStrip(s)
  {
    TrimmedIs(s + "\n", Trimmed(s));
  }

  /** A line that fits the buffer is read in one piece. */
  lemma ReadOneLine(line: string, post: string, r: Reader)
    requires Fitting(r) && OneLine(line) && |r.buf| + |line| + 1 < ASCIILINESZ
    ensures ReadOn(line + "\n" + post, r) == ReadOn(post, OneLineRead(r.buf + line, r))
    ensures Fitting(OneLineRead(r.buf + line, r))
  {
    var text := line + "\n" + post;
    UpToIs(text, "\n", |line|);
    var n := Chunk(text, r);
    assert text[..n] == line + "\n" && text[n..] == post;
    UpToIs(line + "\n", [NUL], n);
    assert CStr(text[..n]) == line + "\n";
    assert r.buf + (line + "\n") == r.buf + line + "\n";
    RStripNewline(r.buf + line);
    ReadStep(text, r);
  }

  lemma ContinuedRead(line: string, r: Reader)
    ensures OneLineRead(line + "\\", r) == r.(buf := line)
  {
    var l := line + "\\";
    TrimmedIs(l, |l|);
    assert l[..|l|] == l && l[..|l| - 1] == line;
  }

  lemma SplitAt(x: string, y: string, post: string, r: Reader)
    requires Fitting(r) && OneLine(x) && OneLine(y)
    requires |r.buf| + |x| + 2 < ASCIILINESZ && |r.buf| + |x| + |y| + 1 < ASCIILINESZ
    ensures ReadOn((x + "\\") + "\n" + (y + "\n" + post), r) == ReadOn((x + y) + "\n" + post, r)
  {
    var r1 := r.(buf := r.buf + x);
    OneLineJoined(x, "\\");
    ReadOneLine(x + "\\", y + "\n" + post, r);
    Assoc(r.buf, x, "\\");
    ContinuedRead(r.buf + x, r);
    ReadOneLine(y, post, r1);
    OneLineJoined(x, y);
    ReadOneLine(x + y, post, r);
    Assoc(r.buf, x, y);
    BufferReplaced(r.buf + (x + y), r, r1);
  }

  lemma Assoc(a: string, b: string, c: string)
    ensures a + (b + c) == a + b + c
  {
  }

  lemma OneLineJoined(x: string, y: string)
    requires OneLine(x) && OneLine(y)
    ensures OneLine(x + y)
  {
  }

  lemma BufferReplaced(text: string, r: Reader, r1: Reader)
    requires r1 == r.(buf := r1.buf)
    ensures OneLineRead(text, r1) == OneLineRead(text, r)
  {
  }

  /** Splitting a line with a backslash before the newline changes nothing, wherever the
      split is, as long as the pieces fit the buffer. */
  lemma SplitLineReads(pre: string, x: string, y: string, post: string)
    requires WholeLines(pre) && OneLine(x) && OneLine(y)
    requires var b := |ReadOn(pre, START).buf|;
      b + |x| + 2 < ASCIILINESZ && b + |x| + |y| + 1 < ASCIILINESZ
    ensures LoadText(pre + ((x + "\\") + "\n" + (y + "\n" + post))) == LoadText(pre + ((x + y) + "\n" + post))
  {
    ReadAppend(pre, (x + "\\") + "\n" + (y + "\n" + post), START);
    ReadAppend(pre, (x + y) + "\n" + post, START);
    SplitAt(x, y, post, ReadOn(pre, START));
  }

  // ---------- which syntax errors are fatal ----------

  /** The logical lines that reading hands to iniparser_line. */
  function LinesRead(rest: string, r: Reader): seq<Line>
    requires Fitting(r)
    decreases |rest|
  {
    if rest == [] then []
    else
      var n := Chunk(rest, r);
      var text := r.buf + CStr(rest[..n]);
      var tail := LinesRead(rest[n..], OneLineRead(text, r));
      if Continued(RStrip(text)) then tail else [ParseLine(RStrip(text), r.section)] + tail
  }

  predicate Stores(l: Line) { l.Section? || l.Value? }

  ghost predicate ErrorAfterStores(ls: seq<Line>) {
    exists i :: 0 <= i < |ls| && ls[i].Error? && forall j :: i < j < |ls| ==> !Stores(ls[j])
  }

  ghost predicate NoStores(ls: seq<Line>) { forall j :: 0 <= j < |ls| ==> !Stores(ls[j]) }

  lemma NoStoresCons(l: Line, tail: seq<Line>)
    ensures NoStores([l] + tail) <==> !Stores(l) && NoStores(tail)
  {
    var ls := [l] + tail;
    assert forall j :: 0 <= j < |tail| ==> tail[j] == ls[j + 1];
    assert ls[0] == l;
  }

  lemma ErrorAfterCons(l: Line, tail: seq<Line>)
    ensures ErrorAfterStores([l] + tail) <==> ErrorAfterStores(tail) || (l.Error? && NoStores(tail))
  {
    var ls := [l] + tail;
    assert forall j :: 0 <= j < |tail| ==> tail[j] == ls[j + 1];
    if ErrorAfterStores(tail) {
      var i :| 0 <= i < |tail| && tail[i].Error? && forall j :: i < j < |tail| ==> !Stores(tail[j]);
      assert ls[i + 1].Error? && forall j :: i + 1 < j < |ls| ==> ls[j] == tail[j - 1];
    }
    if l.Error? && NoStores(tail) {
      assert ls[0].Error? && forall j :: 0 < j < |ls| ==> ls[j] == tail[j - 1];
    }
  }

  lemma {:induction false} ErrorCount(rest: string, r: Reader)
    requires Fitting(r)
    ensures var ls := LinesRead(rest, r);
      ReadOn(rest, r).errs != 0 <==> ErrorAfterStores(ls) || (r.errs != 0 && NoStores(ls))
    decreases |rest|
  {
    if rest != [] {
      var n := Chunk(rest, r);
      var text := r.buf + CStr(rest[..n]);
      var r' := OneLineRead(text, r);
      ErrorCount(rest[n..], r');
      if !Continued(RStrip(text)) {
        ErrorAfterCons(ParseLine(RStrip(text), r.section), LinesRead(rest[n..], r'));
        NoStoresCons(ParseLine(RStrip(text), r.section), LinesRead(rest[n..], r'));
      }
    }
  }

  /** Loading fails exactly when a syntax error is followed by no section or value line. */
  lemma FailsExactly(text: string)
    ensures LoadText(text) == None <==> ErrorAfterStores(LinesRead(text, START))
  {
    ErrorCount(text, START);
  }

  lemma SectionLine(name: string, section: string)
    requires |name| + 2 <= ASCIILINESZ
    ensures var line := "[" + name + "]";
      RStrip(line) == line && !Continued(line) && ParseLine(line, section).Section?
  {
    StripStripped("[" + name + "]", ASCIILINESZ);
  }

  lemma SectionResets(line: string, r: Reader)
    requires RStrip(line) == line && !Continued(line) && ParseLine(line, r.section).Section?
    ensures OneLineRead(line, r).errs == 0
  {
  }

  lemma LastLine(pre: string, line: string, r: Reader)
    requires WholeLines(pre) && r == ReadOn(pre, START) && r.buf == []
    requires OneLine(line) && |line| + 1 < ASCIILINESZ
    ensures ReadOn(pre + (line + "\n" + ""), START) == OneLineRead(line, r)
  {
    ReadAppend(pre, line + "\n" + "", START);
    assert r.buf + line == line;
    ReadOneLine(line, "", r);
  }

  /** A section line at the end makes any file load. */
  lemma LastSectionForgives(pre: string, name: string)
    requires WholeLines(pre) && ReadOn(pre, START).buf == []
    requires OneLine(name) && |name| + 3 < ASCIILINESZ
    ensures LoadText(pre + ("[" + name + "]" + "\n" + "")) != None
  {
    var r, line := ReadOn(pre, START), "[" + name + "]";
    LastLine(pre, line, r);
    SectionLine(name, r.section);
    SectionResets(line, r);
  }
}
