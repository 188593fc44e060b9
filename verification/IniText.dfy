/** The character loops of iniparser.c. A C string is the sequence of its characters before
    the terminating NUL. */
module IniText {
  import opened Characters
  import opened Options

  const NUL: char := 0 as char

  /** tolower in the C locale. */
  function Lower(c: char): char { if 'A' <= c <= 'Z' then (c as int + 32) as char else c }

  function Lwc(s: string): (r: string)
    ensures |r| == |s| && forall i :: 0 <= i < |s| ==> r[i] == Lower(s[i])
  {
    if s == [] then [] else Lwc(s[..|s| - 1]) + [Lower(s[|s| - 1])]
  }

  function Take(s: string, n: nat): string { if |s| <= n then s else s[..n] }

  /** The length without trailing blanks. */
  function Trimmed(s: string): (n: nat)
    ensures n <= |s| && (n > 0 ==> !IsSpace(s[n - 1]))
    ensures forall i :: n <= i < |s| ==> IsSpace(s[i])
  {
    if s == [] || !IsSpace(s[|s| - 1]) then |s| else Trimmed(s[..|s| - 1])
  }

  function LStrip(s: string): string { s[Blanks(s)..] }
  function RStrip(s: string): string { s[..Trimmed(s)] }

  /** strstrip into a buffer for `n` characters: blanks go from the front, then the rest is
      cut to the buffer, then blanks go from the back. */
  function StripTo(s: string, n: nat): string { RStrip(Take(LStrip(s), n)) }

  function Strip(s: string): string { RStrip(LStrip(s)) }

  ghost predicate Stripped(s: string) { s == [] || (!IsSpace(s[0]) && !IsSpace(s[|s| - 1])) }

  lemma TrimmedIs(s: string, n: nat)
    requires n <= |s| && (forall i :: n <= i < |s| ==> IsSpace(s[i])) && (n > 0 ==> !IsSpace(s[n - 1]))
    ensures Trimmed(s) == n
  {
  }

  /** What is stripped stays as it is, within the buffer. */
  lemma StripStripped(s: string, n: nat)
    requires Stripped(s) && |s| <= n
    ensures StripTo(s, n) == s && Strip(s) == s && LStrip(s) == s && RStrip(s) == s
  {
    BlanksIs(s, 0);
    TrimmedIs(s, |s|);
  }

  lemma StripToIsStripped(s: string, n: nat)
    ensures Stripped(StripTo(s, n)) && |StripTo(s, n)| <= n
    ensures forall i :: 0 <= i < |StripTo(s, n)| ==> StripTo(s, n)[i] in s
  {
    var l := LStrip(s);
    assert l != [] ==> !IsSpace(l[0]);
    assert forall i :: 0 <= i < |l| ==> l[i] == s[Blanks(s) + i];
  }

  /** Padding with blanks on either side does not show after stripping. */
  lemma StripPadded(a: string, s: string, b: string)
    requires Stripped(s) && s != []
    requires forall i :: 0 <= i < |a| ==> IsSpace(a[i])
    requires forall i :: 0 <= i < |b| ==> IsSpace(b[i])
    ensures LStrip(a + s + b) == s + b && RStrip(s + b) == s && Strip(a + s + b) == s
  {
    var t := a + s + b;
    assert t[|a|] == s[0];
    BlanksIs(t, |a|);
    assert t[|a|..] == s + b;
    TrimmedIs(s + b, |s|);
    assert (s + b)[..|s|] == s;
  }

  lemma LowerSpace(c: char)
    ensures IsSpace(Lower(c)) <==> IsSpace(c)
    ensures Lower(Lower(c)) == Lower(c)
    ensures Lower(c) == ':' <==> c == ':'
  {
  }

  lemma LwcSpaces(s: string)
    ensures forall i :: 0 <= i < |s| ==> (IsSpace(Lwc(s)[i]) <==> IsSpace(s[i]))
  {
    forall i | 0 <= i < |s| ensures IsSpace(Lwc(s)[i]) <==> IsSpace(s[i]) { LowerSpace(s[i]); }
  }

  lemma {:induction false} LwcSlice(s: string, a: nat, b: nat)
    requires a <= b <= |s|
    ensures Lwc(s[a..b]) == Lwc(s)[a..b]
  {
    var l, r := Lwc(s[a..b]), Lwc(s)[a..b];
    assert |l| == |r| && forall i :: 0 <= i < |l| ==> l[i] == r[i];
  }

  lemma LwcRStrip(s: string)
    ensures Lwc(RStrip(s)) == RStrip(Lwc(s))
  {
    LwcSpaces(s);
    TrimmedIs(Lwc(s), Trimmed(s));
    LwcSlice(s, 0, Trimmed(s));
  }

  lemma LwcLStrip(s: string)
    ensures Lwc(LStrip(s)) == LStrip(Lwc(s))
  {
    LwcSpaces(s);
    BlanksIs(Lwc(s), Blanks(s));
    LwcSlice(s, Blanks(s), |s|);
  }

  /** Lower-casing moves no blank. */
  lemma LwcStrip(s: string, n: nat)
    ensures Lwc(StripTo(s, n)) == StripTo(Lwc(s), n)
  {
    LwcLStrip(s);
    var l := LStrip(s);
    if |l| > n { LwcSlice(l, 0, n); }
    LwcRStrip(Take(l, n));
  }

  // ---------- the same name in another case ----------

  predicate Capital(c: char) { 'A' <= c <= 'Z' }

  predicate SameLetter(c: char, d: char) {
    c == d || (Capital(c) && d as int == c as int + 32) || (Capital(d) && c as int == d as int + 32)
  }

  /** The same text, but for the case of its letters. */
  ghost predicate SameLetters(a: string, b: string) {
    |a| == |b| && forall i :: 0 <= i < |a| ==> SameLetter(a[i], b[i])
  }

  ghost predicate NoCapitals(s: string) { forall i :: 0 <= i < |s| ==> !Capital(s[i]) }

  lemma LowerFolds(c: char, d: char)
    ensures Lower(c) == Lower(d) <==> SameLetter(c, d)
    ensures !Capital(Lower(c))
    ensures Lower(c) == c <==> !Capital(c)
  {
  }

  /** Lower-casing makes two texts equal exactly when they differ in the case of letters only. */
  lemma {:induction false} LwcFolds(a: string, b: string)
    ensures Lwc(a) == Lwc(b) <==> SameLetters(a, b)
  {
    if |a| == |b| {
      forall i | 0 <= i < |a| ensures Lwc(a)[i] == Lwc(b)[i] <==> SameLetter(a[i], b[i]) { LowerFolds(a[i], b[i]); }
    }
  }

  /** What it leaves alone is what has no capital letter. */
  lemma {:induction false} LwcFixed(s: string)
    ensures (Lwc(s) == s <==> NoCapitals(s)) && NoCapitals(Lwc(s))
  {
    forall i | 0 <= i < |s| ensures (Lwc(s)[i] == s[i] <==> !Capital(s[i])) && !Capital(Lwc(s)[i]) {
      LowerFolds(s[i], s[i]);
    }
  }

  // ---------- the loops themselves ----------

  /** strlwc, into a buffer of `size` characters with the NUL, which holds `was` before. */
  method StrLwc(text: Option<string>, size: nat, was: string) returns (result: string)
    ensures result == if text == None || size == 0 then was else Lwc(Take(text.value, size - 1))
  {
    if text == None || size == 0 { return was; }
    var s := text.value;
    result := [];
    var i := 0;
    while i < |s| && i < size - 1
      invariant i <= |s| && i <= size - 1 && |result| == i
      invariant forall j :: 0 <= j < i ==> result[j] == Lower(s[j])
    {
      result := result + [Lower(s[i])];
      i := i + 1;
    }
  }

  /** strstrip, into such a buffer. */
  method StrStrip(text: Option<string>, size: nat, was: string) returns (result: string)
    ensures result == if text == None || size == 0 then was else StripTo(text.value, size - 1)
  {
    if text == None || size == 0 { return was; }
    var s := text.value;
    var i := 0;
    while i < |s| && IsSpace(s[i])
      invariant i <= |s|
      invariant forall j :: 0 <= j < i ==> IsSpace(s[j])
    {
      i := i + 1;
    }
    BlanksIs(s, i);
    result := if |s| - i <= size - 1 then s[i..] else s[i..][..size - 1];
    var last: nat := |result|;
    while last > 0
      invariant last <= |result|
      invariant forall j :: last <= j < |result| ==> IsSpace(result[j])
    {
      if !IsSpace(result[last - 1]) { break; }
      last := last - 1;
    }
    TrimmedIs(result, last);
    result := result[..last];
  }
}
