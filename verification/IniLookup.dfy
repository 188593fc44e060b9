/** iniparser_getstring: how a key is normalised before it is looked up. */
module IniLookup {
  import opened Characters
  import opened Options
  import opened Dictionaries
  import opened IniText
  import opened IniLine

  predicate HasBlank(t: string) { exists i :: 0 <= i < |t| && IsSpace(t[i]) }

  /** What the second half of strstrip_for_getstring makes of a stripped key. When no blank
      stands before the colon nothing is cut off there, and the part after the colon is appended
      to the whole key. */
  function Coded(t: string): string {
    var c := UpTo(t, ":");
    if !HasBlank(t) || c == |t| then t
    else Rejoin(Before(t, c), LStrip(t[c + 1..]))
  }

  /** strstrip_for_getstring as a whole. */
  function Normalised(s: string): string { Coded(StripTo(s, ASCIILINESZ)) }

  /** Both copies are cut to the buffer. */
  function Rejoin(before: string, last: string): string {
    Take(Take(before + ":", ASCIILINESZ) + last, ASCIILINESZ)
  }

  /** What it is for: no blanks around the first colon. */
  function Tidy(t: string): string {
    var c := UpTo(t, ":");
    if c == |t| then t else RStrip(t[..c]) + ":" + LStrip(t[c + 1..])
  }

  /** The key that iniparser_getstring looks up. */
  function LookupKey(key: string): string { Lwc(Normalised(key)) }

  function Before(t: string, c: nat): string
    requires c < |t|
  {
    if c == 0 then "" else if IsSpace(t[c - 1]) then RStrip(t[..c]) else t
  }

  /** Cut the blanks before the colon, in place, and copy what then ends there. */
  method CutBefore(t: string, c: nat) returns (before: string)
    requires c < |t| && !IsSpace(t[0])
    ensures before == Before(t, c)
  {
    if c == 0 { return ""; }
    var blank := c - 1;
    while IsSpace(t[blank])
      invariant 0 <= blank < c
      invariant forall i :: blank < i < c ==> IsSpace(t[i])
      decreases blank
    {
      blank := blank - 1;
    }
    TrimmedIs(t[..c], blank + 1);
    assert t[..c][..blank + 1] == t[..blank + 1];
    before := if blank == c - 1 then t else t[..blank + 1];
  }

  method SkipBlanks(t: string, from: nat) returns (rest: string)
    requires from <= |t|
    ensures rest == LStrip(t[from..])
  {
    var after := from;
    while after < |t| && IsSpace(t[after])
      invariant from <= after <= |t|
      invariant forall i :: from <= i < after ==> IsSpace(t[i])
    {
      after := after + 1;
    }
    BlanksIs(t[from..], after - from);
    assert t[from..][after - from..] == t[after..];
    rest := t[after..];
  }

  /** strstrip_for_getstring, into a buffer of ASCIILINESZ + 1 characters. */
  method StrStripForGetString(s: string) returns (result: string)
    ensures result == Normalised(s)
  {
    result := StrStrip(Some(s), ASCIILINESZ + 1, "");
    StripToIsStripped(s, ASCIILINESZ);
    var check := 0;
    while check < |result| && !IsSpace(result[check])
      invariant check <= |result|
      invariant forall i :: 0 <= i < check ==> !IsSpace(result[i])
    {
      check := check + 1;
    }
    if check == |result| { return; }
    assert IsSpace(result[check]);
    check := 0;
    while check < |result| && result[check] != ':'
      invariant check <= |result|
      invariant forall i :: 0 <= i < check ==> result[i] != ':'
    {
      check := check + 1;
    }
    UpToIs(result, ":", check);
    if check == |result| { return; }
    result := CutAround(result, check);
  }

  /** The second half: the blanks on both sides of the colon at c. */
  method CutAround(t: string, c: nat) returns (result: string)
    requires c < |t| && !IsSpace(t[0])
    ensures result == Take(Take(Before(t, c) + ":", ASCIILINESZ) + LStrip(t[c + 1..]), ASCIILINESZ)
  {
    var before := CutBefore(t, c);
    var temp := Take(before + ":", ASCIILINESZ);
    var rest := SkipBlanks(t, c + 1);
    result := Take(temp + rest, ASCIILINESZ);
  }

  method GetString(d: Dictionary, key: string, def: Option<string>) returns (r: Option<string>)
    requires d.Valid()
    ensures r == if LookupKey(key) in d.m then d.m[LookupKey(key)] else def
  {
    var nonBlankKey := StrStripForGetString(key);
    CodedFits(StripTo(key, ASCIILINESZ));
    var lcKey := StrLwc(Some(nonBlankKey), ASCIILINESZ + 1, "");
    r := d.Get(lcKey, def);
  }

  lemma CodedFits(t: string)
    requires |t| <= ASCIILINESZ
    ensures |Coded(t)| <= ASCIILINESZ
  {
  }

  /** The keys that come out wrong: a blank somewhere, a colon that is not first, and no
      blank just before it. A key that fills the buffer is spared when nothing follows. */
  predicate Garbled(t: string) {
    var c := UpTo(t, ":");
    && HasBlank(t) && 0 < c < |t| && !IsSpace(t[c - 1])
    && (|t| < ASCIILINESZ || (c + 1 < |t| && IsSpace(t[c + 1])))
  }

  lemma {:induction false} NoBlankTidy(t: string)
    requires !HasBlank(t)
    ensures Tidy(t) == t
  {
    var c := UpTo(t, ":");
    if c < |t| {
      NoBlankEnds(t, c);
      AtColon(t, c);
    }
  }

  lemma AtColon(t: string, c: nat)
    requires c < |t| && t[c] == ':'
    ensures t[..c] + ":" + t[c + 1..] == t
  {
  }

  lemma NoBlankEnds(t: string, c: nat)
    requires !HasBlank(t) && c < |t|
    ensures RStrip(t[..c]) == t[..c] && LStrip(t[c + 1..]) == t[c + 1..]
  {
    TrimmedIs(t[..c], c);
    assert t[..c][..c] == t[..c];
    BlanksIs(t[c + 1..], 0);
  }

  lemma TidyLength(t: string)
    ensures |Tidy(t)| <= |t|
  {
  }

  lemma BlankBeforeIsTidy(t: string, c: nat)
    requires |t| <= ASCIILINESZ && HasBlank(t) && UpTo(t, ":") == c < |t| && (c == 0 || IsSpace(t[c - 1]))
    ensures Coded(t) == Tidy(t)
  {
    assert Before(t, c) == RStrip(t[..c]);
    TidyLength(t);
  }

  lemma NoBlankBefore(t: string, c: nat)
    requires |t| <= ASCIILINESZ && HasBlank(t) && UpTo(t, ":") == c && 0 < c < |t| && !IsSpace(t[c - 1])
    ensures Tidy(t) == t[..c] + ":" + LStrip(t[c + 1..])
    ensures |t| < ASCIILINESZ ==> |Coded(t)| > |t|
    ensures |t| == ASCIILINESZ ==> Coded(t) == t
  {
    TrimmedIs(t[..c], c);
    assert t[..c][..c] == t[..c];
    NothingCut(t, c);
    WholeKept(t, LStrip(t[c + 1..]));
  }

  lemma NothingCut(t: string, c: nat)
    requires HasBlank(t) && UpTo(t, ":") == c && 0 < c < |t| && !IsSpace(t[c - 1])
    ensures Coded(t) == Take(Take(t + ":", ASCIILINESZ) + LStrip(t[c + 1..]), ASCIILINESZ)
  {
  }

  /** The whole key, a colon and more, in a buffer that the key may fill. */
  lemma WholeKept(t: string, rest: string)
    requires |t| <= ASCIILINESZ
    ensures |t| < ASCIILINESZ ==> |Take(Take(t + ":", ASCIILINESZ) + rest, ASCIILINESZ)| > |t|
    ensures |t| == ASCIILINESZ ==> Take(Take(t + ":", ASCIILINESZ) + rest, ASCIILINESZ) == t
  {
    if |t| == ASCIILINESZ {
      TakeAppend(t, ":", ASCIILINESZ);
      TakeAppend(t, rest, ASCIILINESZ);
    }
  }

  lemma TakeAppend(a: string, b: string, n: nat)
    requires |a| == n
    ensures Take(a + b, n) == a
  {
  }

  lemma FullKey(t: string, c: nat)
    requires c < |t| && t[c] == ':'
    ensures t[..c] + ":" + LStrip(t[c + 1..]) == t <==> c + 1 == |t| || !IsSpace(t[c + 1])
  {
    if c + 1 == |t| || !IsSpace(t[c + 1]) {
      BlanksIs(t[c + 1..], 0);
      AtColon(t, c);
    }
  }

  /** The normalisation does what it is for on exactly the keys that are not garbled. */
  lemma NormalisesExactly(t: string)
    requires |t| <= ASCIILINESZ
    ensures Coded(t) == Tidy(t) <==> !Garbled(t)
  {
    var c := UpTo(t, ":");
    TidyLength(t);
    if !HasBlank(t) {
      NoBlankTidy(t);
    } else if c < |t| {
      if c == 0 || IsSpace(t[c - 1]) {
        BlankBeforeIsTidy(t, c);
      } else {
        NoBlankBefore(t, c);
        FullKey(t, c);
      }
    }
  }

  lemma ColonParts(a: string, b: string)
    ensures var u := a + ":" + b; |u| > |a| && u[..|a|] == a && u[|a|] == ':' && u[|a| + 1..] == b
  {
  }

  /** A text split at its first colon, tidied. */
  lemma TidyAt(a: string, b: string)
    requires ':' !in a
    ensures UpTo(a + ":" + b, ":") == |a| && Tidy(a + ":" + b) == RStrip(a) + ":" + LStrip(b)
  {
    ColonParts(a, b);
    assert forall i :: 0 <= i < |a| ==> (a + ":" + b)[i] == a[i];
    UpToIs(a + ":" + b, ":", |a|);
  }

  lemma StripsTwice(s: string)
    ensures RStrip(RStrip(s)) == RStrip(s) && LStrip(LStrip(s)) == LStrip(s)
  {
    var a, b := RStrip(s), LStrip(s);
    TrimmedIs(a, |a|);
    assert a[..|a|] == a;
    BlanksIs(b, 0);
  }

  lemma NoColonBefore(t: string, c: nat)
    requires c == UpTo(t, ":") && c <= |t|
    ensures ':' !in RStrip(t[..c])
  {
    var a := RStrip(t[..c]);
    assert forall i :: 0 <= i < |a| ==> a[i] == t[i];
  }

  lemma TidyTwice(t: string)
    ensures Tidy(Tidy(t)) == Tidy(t)
  {
    var c := UpTo(t, ":");
    if c < |t| {
      StripsTwice(t[..c]);
      StripsTwice(t[c + 1..]);
      NoColonBefore(t, c);
      TidyAt(RStrip(t[..c]), LStrip(t[c + 1..]));
    }
  }

  // ---------- the early returns ----------

  /** The early return for a key without blanks saves it from the rest of the function, which
      would give the same only for a colon at the front or a key that fills the buffer. */
  lemma {:induction false} EarlyReturnAgreesExactly(t: string)
    requires |t| <= ASCIILINESZ && !HasBlank(t) && UpTo(t, ":") < |t|
    ensures var c := UpTo(t, ":");
      Rejoin(Before(t, c), LStrip(t[c + 1..])) == Coded(t) <==> c == 0 || |t| == ASCIILINESZ
  {
    var c := UpTo(t, ":");
    NoBlankEnds(t, c);
    if c == 0 { ColonAtFront(t); } else { WholeKept(t, t[c + 1..]); }
  }

  lemma ColonAtFront(t: string)
    requires 0 < |t| <= ASCIILINESZ && t[0] == ':'
    ensures Rejoin("", t[1..]) == t
  {
    assert t == ":" + t[1..] && "" + ":" == ":";
  }

  /** Every ordinary name would be doubled. */
  lemma {:induction false} EarlyReturnNeeded(t: string)
    requires t == "a:b"
    ensures Coded(t) == t && Rejoin(Before(t, 1), LStrip(t[2..])) == "a:b:b"
  {
    assert !HasBlank(t) && !IsSpace(t[0]);
    BlanksIs(t[2..], 0);
    assert t[2..] == "b" && LStrip(t[2..]) == "b";
    RejoinShort(t, "b");
    assert t + ":" + "b" == "a:b:b";
  }

  lemma RejoinShort(a: string, b: string)
    requires |a| + 1 + |b| <= ASCIILINESZ
    ensures Rejoin(a, b) == a + ":" + b
  {
  }

  // ---------- normalising twice ----------

  /** The keys on which the second half twice differs from once: those with a blank
      before the colon and another one inside the section or the key, and those with blanks
      but none before the colon, as long as doubling their last part does not fill the buffer. */
  predicate Unsettled(t: string) {
    var c := UpTo(t, ":");
    && HasBlank(t) && 0 < c < |t|
    && if IsSpace(t[c - 1]) then HasBlank(RStrip(t[..c])) || HasBlank(LStrip(t[c + 1..]))
       else |t| + 1 + |LStrip(t[c + 1..])| < ASCIILINESZ
  }

  /** The doubled text, cut to the buffer, ends in a blank, which stripping it takes off. */
  predicate CutAtBlank(t: string) {
    var c := UpTo(t, ":");
    && HasBlank(t) && 0 < c < |t| && !IsSpace(t[c - 1])
    && var d := t + ":" + LStrip(t[c + 1..]); |d| >= ASCIILINESZ && IsSpace(d[ASCIILINESZ - 1])
  }

  lemma CodedTwice(t: string)
    requires |t| <= ASCIILINESZ && (t != [] ==> !IsSpace(t[0]))
    ensures Coded(Coded(t)) == Coded(t) <==> !Unsettled(t)
  {
    var c := UpTo(t, ":");
    if HasBlank(t) && c < |t| {
      if c == 0 {
        ColonFirst(t);
      } else if IsSpace(t[c - 1]) {
        BlankBeforeTwice(t, c);
      } else {
        DoubledTwice(t, c);
      }
    }
  }

  lemma ColonFirst(t: string)
    requires |t| <= ASCIILINESZ && HasBlank(t) && t != [] && UpTo(t, ":") == 0
    ensures Coded(Coded(t)) == Coded(t)
  {
    BlankBeforeIsTidy(t, 0);
    TidyTwice(t);
    TidyLength(t);
    var u := Coded(t);
    TidyAt(RStrip(t[..0]), LStrip(t[1..]));
    if HasBlank(u) { BlankBeforeIsTidy(u, 0); }
  }

  lemma PartBlanks(a: string, b: string)
    ensures HasBlank(a + ":" + b) <==> HasBlank(a) || HasBlank(b)
  {
    var u := a + ":" + b;
    if i :| 0 <= i < |a| && IsSpace(a[i]) { assert IsSpace(u[i]); }
    if i :| 0 <= i < |b| && IsSpace(b[i]) { assert IsSpace(u[|a| + 1 + i]); }
    if i :| 0 <= i < |u| && IsSpace(u[i]) {
      if i < |a| { assert IsSpace(a[i]); } else { assert i > |a| && IsSpace(b[i - |a| - 1]); }
    }
  }

  lemma RStripEnd(s: string)
    requires s != [] && !IsSpace(s[0])
    ensures RStrip(s) != [] && !IsSpace(RStrip(s)[|RStrip(s)| - 1]) && |RStrip(s)| <= |s|
  {
  }

  lemma BlankBeforeTwice(t: string, c: nat)
    requires |t| <= ASCIILINESZ && HasBlank(t) && UpTo(t, ":") == c && 0 < c < |t|
    requires IsSpace(t[c - 1]) && !IsSpace(t[0])
    ensures Coded(Coded(t)) == Coded(t) <==> !HasBlank(RStrip(t[..c])) && !HasBlank(LStrip(t[c + 1..]))
  {
    var a, b := RStrip(t[..c]), LStrip(t[c + 1..]);
    var u := a + ":" + b;
    BlankBeforeIsTidy(t, c);
    NoColonBefore(t, c);
    RStripEnd(t[..c]);
    assert |a| < c;
    TidyAt(a, b);
    ColonParts(a, b);
    PartBlanks(a, b);
    if HasBlank(u) {
      assert u[|a| - 1] == a[|a| - 1];
      NoBlankBefore(u, |a|);
    }
  }

  lemma DoubledTwice(t: string, c: nat)
    requires |t| <= ASCIILINESZ && HasBlank(t) && UpTo(t, ":") == c && 0 < c < |t| && !IsSpace(t[c - 1])
    ensures Coded(Coded(t)) == Coded(t) <==> |t| + 1 + |LStrip(t[c + 1..])| >= ASCIILINESZ
  {
    var rest := LStrip(t[c + 1..]);
    NothingCut(t, c);
    var u := Coded(t);
    TakeTwice(t, rest);
    assert forall i :: 0 <= i < |t| ==> u[i] == t[i];
    UpToIs(u, ":", c);
    var i :| 0 <= i < |t| && IsSpace(t[i]);
    assert IsSpace(u[i]);
    NoBlankBefore(u, c);
  }

  /** Only a cut leaves a blank at an end. */
  lemma CodedStripped(t: string)
    requires |t| <= ASCIILINESZ && Stripped(t) && !CutAtBlank(t)
    ensures StripTo(Coded(t), ASCIILINESZ) == Coded(t)
  {
    var c := UpTo(t, ":");
    if HasBlank(t) && c < |t| {
      var last := LStrip(t[c + 1..]);
      if c == 0 || IsSpace(t[c - 1]) {
        BlankBeforeIsTidy(t, c);
        TidyStripped(t, c);
      } else {
        DoubledEnds(t, last);
        DoubledIs(t, c);
      }
    }
    CodedFits(t);
    StripStripped(Coded(t), ASCIILINESZ);
  }

  lemma TidyStripped(t: string, c: nat)
    requires Stripped(t) && UpTo(t, ":") == c < |t|
    ensures Stripped(Tidy(t))
  {
    var a, b := RStrip(t[..c]), LStrip(t[c + 1..]);
    ColonParts(a, b);
    if c > 0 { RStripEnd(t[..c]); }
  }

  lemma DoubledEnds(t: string, last: string)
    requires Stripped(t) && t != [] && (last != [] ==> last[|last| - 1] == t[|t| - 1])
    ensures var d := t + ":" + last;
      |d| < ASCIILINESZ || !IsSpace(d[ASCIILINESZ - 1]) ==> Stripped(Take(d, ASCIILINESZ))
  {
  }

  /** A longer text with the same front has the same colon and blanks before it. */
  lemma SameFront(t: string, v: string, c: nat)
    requires t <= v && HasBlank(t) && UpTo(t, ":") == c && 0 < c < |t| && !IsSpace(t[c - 1])
    ensures HasBlank(v) && UpTo(v, ":") == c && !IsSpace(v[c - 1])
  {
    assert forall i :: 0 <= i < |t| ==> v[i] == t[i];
    UpToIs(v, ":", c);
    var i :| 0 <= i < |t| && IsSpace(t[i]);
    assert IsSpace(v[i]);
  }

  lemma CutLosesBlank(t: string, last: string)
    requires |t| < ASCIILINESZ <= |t + ":" + last| && IsSpace((t + ":" + last)[ASCIILINESZ - 1])
    requires t != [] && !IsSpace(t[0])
    ensures var u := Take(t + ":" + last, ASCIILINESZ);
      var v := StripTo(u, ASCIILINESZ);
      t <= v && |v| < |u| && IsSpace(u[|v|])
  {
    var u := Take(t + ":" + last, ASCIILINESZ);
    BlanksIs(u, 0);
    assert u[|t|] == ':' && u[|u| - 1] == (t + ":" + last)[ASCIILINESZ - 1];
    assert forall i :: 0 <= i < |t| ==> u[i] == t[i];
    assert StripTo(u, ASCIILINESZ) == RStrip(u);
  }

  /** A doubled text that ends in a blank loses it and is doubled again. */
  lemma CutTwice(t: string)
    requires |t| <= ASCIILINESZ && Stripped(t) && CutAtBlank(t)
    ensures Normalised(Coded(t)) != Coded(t)
  {
    var c := UpTo(t, ":");
    var last := LStrip(t[c + 1..]);
    DoubledIs(t, c);
    var u := Coded(t);
    FullNotCut(t, last);
    CutLosesBlank(t, last);
    var v := StripTo(u, ASCIILINESZ);
    SameFront(t, v, c);
    DoubledIs(v, c);
    ColonKept(v, LStrip(v[c + 1..]));
  }

  lemma ColonKept(v: string, last: string)
    requires |v| < ASCIILINESZ
    ensures var u := Take(v + ":" + last, ASCIILINESZ); |u| > |v| && u[|v|] == ':'
  {
    ColonParts(v, last);
  }

  lemma FullNotCut(t: string, last: string)
    requires Stripped(t) && 0 < |t| <= ASCIILINESZ <= |t + ":" + last| && IsSpace((t + ":" + last)[ASCIILINESZ - 1])
    ensures |t| < ASCIILINESZ
  {
    assert (t + ":" + last)[|t| - 1] == t[|t| - 1];
  }

  /** Normalising twice is normalising once on exactly the keys that are neither unsettled nor
      cut at a blank once they are stripped. */
  lemma IdempotentExactly(s: string)
    ensures var t := StripTo(s, ASCIILINESZ);
      Normalised(Normalised(s)) == Normalised(s) <==> !Unsettled(t) && !CutAtBlank(t)
  {
    var t := StripTo(s, ASCIILINESZ);
    StripToIsStripped(s, ASCIILINESZ);
    if CutAtBlank(t) {
      CutTwice(t);
    } else {
      CodedStripped(t);
      CodedTwice(t);
    }
  }

  lemma TakeTwice(t: string, rest: string)
    requires |t| <= ASCIILINESZ
    ensures var u := Take(Take(t + ":", ASCIILINESZ) + rest, ASCIILINESZ);
      t <= u && |u| == if |t| + 1 + |rest| < ASCIILINESZ then |t| + 1 + |rest| else ASCIILINESZ
  {
  }

  /** What a garbled key is looked up as: the whole of it, a colon and its last part again, as
      far as the buffer goes. */
  lemma GarbledKey(t: string)
    requires Garbled(t) && |t| <= ASCIILINESZ
    ensures var c := UpTo(t, ":"); Coded(t) == Take(t + ":" + LStrip(t[c + 1..]), ASCIILINESZ)
  {
    DoubledIs(t, UpTo(t, ":"));
  }

  lemma DoubledIs(t: string, c: nat)
    requires HasBlank(t) && UpTo(t, ":") == c && 0 < c < |t| && !IsSpace(t[c - 1])
    ensures Coded(t) == Take(t + ":" + LStrip(t[c + 1..]), ASCIILINESZ)
  {
    NothingCut(t, c);
    TakeInTwo(t + ":", LStrip(t[c + 1..]), ASCIILINESZ);
  }

  lemma TakeInTwo(a: string, b: string, n: nat)
    ensures Take(Take(a, n) + b, n) == Take(a + b, n)
  {
    if |a| > n {
      assert (a[..n] + b)[..n] == a[..n] == (a + b)[..n];
    }
  }

  lemma ExampleGarbled(t: string)
    requires t == "sec:my key"
    ensures UpTo(t, ":") == 3 && Garbled(t)
  {
    UpToIs(t, ":", 3);
    assert IsSpace(t[6]) && !IsSpace(t[2]);
  }

  /** Even the exact name of a loaded entry is looked up under another one when its key has
      a blank inside. */
  lemma BlankInKeyIsLost(t: string)
    requires t == "sec:my key"
    ensures Coded(t) == t + ":" + "my key"
  {
    ExampleGarbled(t);
    GarbledKey(t);
    BlanksIs(t[4..], 0);
    assert t[4..] == "my key";
  }

  /** And normalising it once more adds another copy. */
  lemma ExampleUnsettled(t: string)
    requires t == "sec:my key"
    ensures Normalised(Normalised(t)) != Normalised(t)
  {
    ExampleGarbled(t);
    BlanksIs(t[4..], 0);
    StripStripped(t, ASCIILINESZ);
    IdempotentExactly(t);
  }

  /** A key of 2000 characters whose doubled text is cut just after its blank. */
  lemma ExampleCut(x: string, y: string)
    requires |x| == 1094 && |y| == 903 && Stripped(x) && Stripped(y)
    ensures var t := "s:" + x + " " + y;
      !Unsettled(t) && CutAtBlank(t) && Normalised(Normalised(t)) != Normalised(t)
  {
    var t, last := "s:" + x + " " + y, x + " " + y;
    UpToIs(t, ":", 1);
    assert IsSpace(t[1096]) && t[2..] == last && last[0] == x[0];
    BlanksIs(last, 0);
    assert (t + ":" + last)[ASCIILINESZ - 1] == last[1094];
    StripStripped(t, ASCIILINESZ);
    IdempotentExactly(t);
  }

  function Join(sec: string, b: string, c: string, key: string): string { sec + b + ":" + c + key }

  lemma StripToPadded(a: string, t: string, d: string, n: nat)
    requires AllBlank(a) && AllBlank(d) && Stripped(t) && t != [] && |t| <= n
    ensures StripTo(a + t + d, n) == t
  {
    StripPadded(a, t, d);
    var e := Take(d, n - |t|);
    assert Take(t + d, n) == t + e;
    assert AllBlank(e);
    StripPadded([], t, e);
    assert [] + t + e == t + e;
  }

  /** Without a section the blanks before the colon are blanks at the front. */
  function Inner(sec: string, b: string): string { if sec == [] then [] else b }

  lemma JoinEnds(sec: string, b: string, c: string, key: string)
    requires Stripped(sec) && Stripped(key) && key != [] && (sec == [] ==> b == [])
    ensures Stripped(Join(sec, b, c, key)) && Join(sec, b, c, key) != []
  {
    var t := Join(sec, b, c, key);
    assert t[|t| - 1] == key[|key| - 1];
    assert t[0] == if sec == [] then ':' else sec[0];
  }

  lemma JoinStripped(a: string, sec: string, b: string, c: string, key: string, d: string)
    requires AllBlank(a) && AllBlank(b) && AllBlank(d)
    requires Stripped(sec) && Stripped(key) && key != [] && |Join(sec, b, c, key)| <= ASCIILINESZ
    ensures StripTo(a + Join(sec, b, c, key) + d, ASCIILINESZ) == Join(sec, Inner(sec, b), c, key)
  {
    var t := Join(sec, Inner(sec, b), c, key);
    var front := if sec == [] then a + b else a;
    JoinEnds(sec, Inner(sec, b), c, key);
    if sec == [] { FrontMoved(a, b, c, key, d); }
    StripToPadded(front, t, d, ASCIILINESZ);
  }

  lemma FrontMoved(a: string, b: string, c: string, key: string, d: string)
    ensures a + Join([], b, c, key) + d == (a + b) + Join([], [], c, key) + d
  {
    assert Join([], b, c, key) == b + Join([], [], c, key);
  }

  lemma JoinSplit(sec: string, b: string, c: string, key: string)
    ensures Join(sec, b, c, key) == (sec + b) + ":" + (c + key)
  {
  }

  lemma BlanksEnd(sec: string, b: string, c: string, key: string)
    requires AllBlank(b) && AllBlank(c) && Stripped(sec) && Stripped(key) && key != [] && (sec == [] ==> b == [])
    ensures RStrip(sec + b) == sec && LStrip(c + key) == key
  {
    TrimmedIs(sec + b, |sec|);
    BlanksIs(c + key, |c|);
    assert (sec + b)[..|sec|] == sec && (c + key)[|c|..] == key;
  }

  lemma JoinTidy(sec: string, b: string, c: string, key: string)
    requires AllBlank(b) && AllBlank(c) && Stripped(sec) && Stripped(key) && key != [] && ':' !in sec
    requires sec == [] ==> b == []
    ensures UpTo(Join(sec, b, c, key), ":") == |sec + b| && Tidy(Join(sec, b, c, key)) == sec + ":" + key
  {
    JoinSplit(sec, b, c, key);
    BlanksEnd(sec, b, c, key);
    TidyAt(sec + b, c + key);
  }

  lemma JoinBlank(sec: string, c: string, key: string)
    requires AllBlank(c)
    ensures HasBlank(Join(sec, [], c, key)) <==> HasBlank(sec) || c != [] || HasBlank(key)
  {
    var t := Join(sec, [], c, key);
    if i :| 0 <= i < |sec| && IsSpace(sec[i]) { assert IsSpace(t[i]); }
    if c != [] { assert IsSpace(t[|sec| + 1]); }
    if i :| 0 <= i < |key| && IsSpace(key[i]) { assert IsSpace(t[|sec| + 1 + |c| + i]); }
    if i :| 0 <= i < |t| && IsSpace(t[i]) && c == [] {
      if i < |sec| { assert IsSpace(sec[i]); } else { assert i > |sec| && IsSpace(key[i - |sec| - 1]); }
    }
  }

  // ---------- case ----------

  lemma LwcUpTo(t: string)
    ensures UpTo(Lwc(t), ":") == UpTo(t, ":") && (HasBlank(Lwc(t)) <==> HasBlank(t))
  {
    forall i | 0 <= i < |t| ensures (Lwc(t)[i] == ':' <==> t[i] == ':') && (IsSpace(Lwc(t)[i]) <==> IsSpace(t[i])) {
      LowerSpace(t[i]);
    }
    UpToIs(Lwc(t), ":", UpTo(t, ":"));
    if HasBlank(t) {
      var i :| 0 <= i < |t| && IsSpace(t[i]);
      assert IsSpace(Lwc(t)[i]);
    }
  }

  lemma {:induction false} LwcTake(t: string, n: nat)
    ensures Lwc(Take(t, n)) == Take(Lwc(t), n)
  {
    if |t| > n { LwcSlice(t, 0, n); }
  }

  lemma LwcJoin(a: string, b: string)
    ensures Lwc(a + ":" + b) == Lwc(a) + ":" + Lwc(b) && Lwc(a + ":") == Lwc(a) + ":" && Lwc(a + b) == Lwc(a) + Lwc(b)
  {
    LowerSpace(':');
    LwcIs(a + ":" + b, Lwc(a) + ":" + Lwc(b));
    LwcIs(a + ":", Lwc(a) + ":");
    LwcIs(a + b, Lwc(a) + Lwc(b));
  }

  lemma LwcIs(s: string, r: string)
    requires |r| == |s| && forall i :: 0 <= i < |s| ==> r[i] == Lower(s[i])
    ensures Lwc(s) == r
  {
  }

  lemma {:induction false} LwcBefore(t: string, c: nat)
    requires c < |t|
    ensures Lwc(Before(t, c)) == Before(Lwc(t), c)
  {
    if c > 0 {
      LowerSpace(t[c - 1]);
      if IsSpace(t[c - 1]) {
        LwcSlice(t, 0, c);
        LwcRStrip(t[..c]);
      }
    }
  }

  lemma {:induction false} LwcRejoin(before: string, last: string)
    ensures Lwc(Rejoin(before, last)) == Rejoin(Lwc(before), Lwc(last))
  {
    var head := Take(before + ":", ASCIILINESZ);
    LwcJoin(before, "");
    LwcTake(before + ":", ASCIILINESZ);
    LwcJoin(head, last);
    LwcTake(head + last, ASCIILINESZ);
  }

  lemma {:induction false} LwcDrop(t: string, k: nat)
    requires k <= |t|
    ensures Lwc(t[k..]) == Lwc(t)[k..]
  {
    LwcSlice(t, k, |t|);
    assert t[k..|t|] == t[k..] && Lwc(t)[k..|t|] == Lwc(t)[k..];
  }

  lemma {:induction false} LwcLast(t: string, k: nat)
    requires k <= |t|
    ensures Lwc(LStrip(t[k..])) == LStrip(Lwc(t)[k..])
  {
    LwcDrop(t, k);
    LwcLStrip(t[k..]);
  }

  /** Normalising commutes with lower-casing. */
  lemma {:induction false} LwcCoded(t: string)
    ensures Lwc(Coded(t)) == Coded(Lwc(t))
  {
    var c := UpTo(t, ":");
    LwcUpTo(t);
    if HasBlank(t) && c < |t| {
      var before, last := Before(t, c), LStrip(t[c + 1..]);
      LwcBefore(t, c);
      LwcLast(t, c + 1);
      LwcRejoin(before, last);
      CodedIs(t, c);
      CodedIs(Lwc(t), c);
    }
  }

  lemma {:induction false} CodedIs(t: string, c: nat)
    requires HasBlank(t) && UpTo(t, ":") == c < |t|
    ensures Coded(t) == Rejoin(Before(t, c), LStrip(t[c + 1..]))
  {
  }

  /** The case of a looked-up key never matters. */
  lemma CaseInsensitive(a: string, b: string)
    requires SameLetters(a, b)
    ensures LookupKey(a) == LookupKey(b)
  {
    LwcFolds(a, b);
    LwcStrip(a, ASCIILINESZ);
    LwcStrip(b, ASCIILINESZ);
    LwcCoded(StripTo(a, ASCIILINESZ));
    LwcCoded(StripTo(b, ASCIILINESZ));
  }

  /** Which spellings are garbled. */
  lemma JoinGarbled(sec: string, b: string, c: string, key: string)
    requires AllBlank(b) && AllBlank(c) && Stripped(sec) && Stripped(key) && key != [] && ':' !in sec
    requires (sec == [] ==> b == []) && |Join(sec, b, c, key)| < ASCIILINESZ
    ensures Garbled(Join(sec, b, c, key)) <==> sec != [] && b == [] && (HasBlank(sec) || c != [] || HasBlank(key))
  {
    var t := Join(sec, b, c, key);
    JoinTidy(sec, b, c, key);
    var colon := |sec + b|;
    if b != [] {
      assert t[colon - 1] == b[|b| - 1];
    } else if sec != [] {
      assert t[colon - 1] == sec[|sec| - 1];
      JoinBlank(sec, c, key);
    }
  }

  lemma GarbledLonger(t: string)
    requires Garbled(t) && |t| < ASCIILINESZ
    ensures |Coded(t)| > |t|
  {
    NoBlankBefore(t, UpTo(t, ":"));
  }

  lemma JoinLength(sec: string, b: string, c: string, key: string)
    ensures |Join(sec, b, c, key)| >= |sec + ":" + key|
  {
  }

  /** Any spelling of a "section:key" in other cases and with blanks at the ends and around
      the colon is looked up under its own name exactly when a blank stands before the
      colon, or there is no section, or there is no blank at all between the ends. */
  lemma VariantFound(a: string, sec: string, b: string, c: string, key: string, d: string)
    requires AllBlank(a) && AllBlank(b) && AllBlank(c) && AllBlank(d)
    requires Stripped(sec) && Stripped(key) && key != [] && ':' !in sec
    requires |Join(sec, b, c, key)| < ASCIILINESZ
    ensures LookupKey(a + Join(sec, b, c, key) + d) == Lwc(sec + ":" + key) <==>
      b != [] || sec == [] || (!HasBlank(sec) && c == [] && !HasBlank(key))
  {
    var b' := Inner(sec, b);
    var t := Join(sec, b', c, key);
    JoinStripped(a, sec, b, c, key, d);
    JoinGarbled(sec, b', c, key);
    JoinLength(sec, b', c, key);
    if Garbled(t) {
      GarbledLonger(t);
    } else {
      NormalisesExactly(t);
      JoinTidy(sec, b', c, key);
    }
  }
}
