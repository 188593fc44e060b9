/** Which texts soap_s2xsd__duration accepts, as a grammar that owes nothing to the parser, and
    what it makes of them. */
module DurationGrammar {
  import opened Characters
  import opened Options
  import opened Decimals
  import opened Durations
  import opened DurationParser
  import R = DurationRoundTrip

  /** What %lld reads: blanks, perhaps a sign, and digits. */
  datatype Numeral = Numeral(blanks: string, sign: string, digits: string)

  ghost predicate IsNumeral(n: Numeral) {
    && AllBlank(n.blanks) && (n.sign == "" || n.sign == "-" || n.sign == "+")
    && n.digits != "" && Digits(n.digits)
  }

  function Spell(n: Numeral): string { n.blanks + (n.sign + n.digits) }

  function Value(n: Numeral): int
    requires IsNumeral(n)
  {
    var v := (if n.sign == "-" then -1 else 1) * Val(n.digits);
    if v > MAX64 then MAX64 else if v < MIN64 then MIN64 else v
  }

  datatype Piece = Piece(n: Numeral, unit: char)

  ghost predicate ArePieces(ps: seq<Piece>, units: string) {
    forall i :: 0 <= i < |ps| ==> IsNumeral(ps[i].n) && ps[i].unit in units
  }

  function SpellThen(ps: seq<Piece>, rest: string): string {
    if ps == [] then rest else Spell(ps[0].n) + ([ps[0].unit] + SpellThen(ps[1..], rest))
  }

  /** What may follow the date pieces. After a fraction nothing more is looked at. */
  datatype Tail =
    | NoTime
    | Time(ps: seq<Piece>)
    | Fraction(ps: seq<Piece>, n: Numeral, digits: string, rest: string)

  ghost predicate IsTail(t: Tail) {
    match t
    case NoTime => true
    case Time(ps) => ArePieces(ps, "HMS")
    case Fraction(ps, n, digits, rest) =>
      && ArePieces(ps, "HMS") && IsNumeral(n)
      && digits != "" && Digits(digits) && (rest != "" ==> !Digit(rest[0]))
  }

  function SpellTime(t: Tail): string
    requires !t.NoTime?
  {
    match t
    case Time(ps) => SpellThen(ps, "")
    case Fraction(ps, n, digits, rest) => SpellThen(ps, Spell(n) + (['.'] + (digits + rest)))
  }

  function SpellTail(t: Tail): string { if t.NoTime? then "" else "T" + SpellTime(t) }

  datatype Sentence = Sentence(negative: bool, date: seq<Piece>, tail: Tail)

  ghost predicate IsSentence(x: Sentence) { ArePieces(x.date, "YMD") && IsTail(x.tail) }

  function Spelling(x: Sentence): string {
    (if x.negative then "-" else "") + ("P" + SpellThen(x.date, SpellTail(x.tail)))
  }

  ghost predicate Accepted(s: string) { exists x :: IsSentence(x) && Spelling(x) == s }

  // ---------- what it means: the last piece of each unit counts ----------

  function DateFields(ps: seq<Piece>, f: Fields): Fields
    requires ArePieces(ps, "YMD")
  {
    if ps == [] then f
    else
      var v := Value(ps[0].n);
      var g := if ps[0].unit == 'Y' then f.(Y := v) else if ps[0].unit == 'M' then f.(M := v) else f.(D := v);
      DateFields(ps[1..], g)
  }

  function TimeFields(ps: seq<Piece>, f: Fields): Fields
    requires ArePieces(ps, "HMS")
  {
    if ps == [] then f
    else
      var v := Value(ps[0].n);
      var g := if ps[0].unit == 'H' then f.(H := v) else if ps[0].unit == 'M' then f.(N := v) else f.(S := v);
      TimeFields(ps[1..], g)
  }

  function TailFields(t: Tail, f: Fields): Fields
    requires IsTail(t)
  {
    match t
    case NoTime => f
    case Time(ps) => TimeFields(ps, f)
    case Fraction(ps, n, digits, rest) => TimeFields(ps, f).(S := Value(n), ms := R.Thousandths(digits))
  }

  function Meaning(x: Sentence): int
    requires IsSentence(x)
  {
    R.Amount(if x.negative then -1 else 1, TailFields(x.tail, DateFields(x.date, ZERO)))
  }

  // ---------- one numeral ----------

  lemma {:induction false} BlanksOf(b: string, t: string)
    requires AllBlank(b) && t != "" && !IsSpace(t[0])
    ensures Blanks(b + t) == |b| && (b + t)[|b|..] == t
  {
    BlanksIs(b + t, |b|);
  }

  lemma ScanNumeral(n: Numeral, k: char, rest: string)
    requires IsNumeral(n) && R.Designator(k)
    ensures ScanSigned(n.sign + (n.digits + ([k] + rest))) == Some((Value(n), [k] + rest))
  {
    var u := n.digits + ([k] + rest);
    R.ScanOf(n.digits, k, rest, if n.sign == "-" then -1 else 1);
    assert u[0] == n.digits[0] && Digit(u[0]);
    if n.sign == "" {
      assert n.sign + u == u;
    } else {
      assert (n.sign + u)[1..] == u && (n.sign + u)[0] == n.sign[0];
    }
  }

  lemma NotInNumeral(n: Numeral, k: char)
    requires IsNumeral(n) && R.Designator(k)
    ensures k !in Spell(n)
  {
  }

  lemma Regroup(n: Numeral, rest: string)
    ensures Spell(n) + rest == n.blanks + (n.sign + (n.digits + rest))
  {
  }

  lemma NumeralRead(n: Numeral, k: char, rest: string)
    requires IsNumeral(n) && R.Designator(k)
    ensures ReadPart(Spell(n) + ([k] + rest)) == Some(Part(Value(n), k, [k] + rest))
  {
    var t := n.sign + (n.digits + ([k] + rest));
    Regroup(n, [k] + rest);
    assert t[0] == if n.sign == "" then n.digits[0] else n.sign[0];
    BlanksOf(n.blanks, t);
    ScanNumeral(n, k, rest);
    NotInNumeral(n, k);
    R.FromAfter(Spell(n), k, rest);
    PartIs(Spell(n) + ([k] + rest), Value(n), k, rest);
  }

  lemma PartIs(s: string, n: int, k: char, rest: string)
    requires ScanSigned(s[Blanks(s)..]) == Some((n, [k] + rest)) && k in s && From(s, k) == [k] + rest
    ensures ReadPart(s) == Some(Part(n, k, [k] + rest))
  {
  }

  /** Whatever the scan reads is a numeral and what follows it. */
  lemma ScanSplits(t: string) returns (sign: string, digits: string, after: string)
    requires ScanSigned(t).Some?
    ensures (sign == "" || sign == "-" || sign == "+") && digits != "" && Digits(digits)
    ensures t == sign + (digits + after) && ScanSigned(t).value.1 == after
    ensures ScanSigned(t).value.0 == Clamp((if sign == "-" then -1 else 1) * Val(digits))
  {
    sign := if t != "" && (t[0] == '-' || t[0] == '+') then t[..1] else "";
    var u := t[|sign|..];
    digits, after := u[..Run(u)], u[Run(u)..];
    assert u == digits + after && t == sign + u;
  }

  lemma PartOf(s: string)
    requires ReadPart(s).Some?
    ensures var p, scan := ReadPart(s).value, ScanSigned(s[Blanks(s)..]);
      && scan.Some? && p.n == scan.value.0 && scan.value.1 != "" && p.k == scan.value.1[0]
      && p.k in s && p.rest == From(s, p.k)
  {
  }

  lemma RestOf(s: string, n: Numeral, k: char, rest: string)
    requires IsNumeral(n) && R.Designator(k) && s == Spell(n) + ([k] + rest) && k in s
    ensures From(s, k) == [k] + rest
  {
    NotInNumeral(n, k);
    R.FromAfter(Spell(n), k, rest);
  }

  lemma SpellSplits(s: string, n: Numeral, after: string)
    requires n.blanks <= s && s[|n.blanks|..] == n.sign + (n.digits + after)
    ensures s == Spell(n) + after
  {
    assert s == n.blanks + s[|n.blanks|..];
    Regroup(n, after);
  }

  /** Blanks and what the scan makes of the rest, put together. */
  lemma NumeralOf(s: string) returns (n: Numeral, after: string)
    requires ScanSigned(s[Blanks(s)..]).Some?
    ensures IsNumeral(n) && s == Spell(n) + after
    ensures ScanSigned(s[Blanks(s)..]) == Some((Value(n), after))
  {
    var b := Blanks(s);
    var sign, digits;
    sign, digits, after := ScanSplits(s[b..]);
    n := Numeral(s[..b], sign, digits);
    SpellSplits(s, n, after);
    assert Value(n) == Clamp((if sign == "-" then -1 else 1) * Val(digits));
  }

  lemma PartSplits(s: string) returns (n: Numeral)
    requires ReadPart(s).Some? && R.Designator(ReadPart(s).value.k)
    ensures IsNumeral(n) && s == Spell(n) + ReadPart(s).value.rest && ReadPart(s).value.n == Value(n)
  {
    PartOf(s);
    var k := ReadPart(s).value.k;
    var after;
    n, after := NumeralOf(s);
    assert after == [k] + after[1..];
    RestOf(s, n, k, after[1..]);
  }

  // ---------- every sentence is accepted ----------

  lemma NumeralFirst(n: Numeral, rest: string)
    requires IsNumeral(n)
    ensures Spell(n) + rest != "" && (Spell(n) + rest)[0] != 'T'
  {
    Regroup(n, rest);
  }

  lemma {:induction false} DatePieces(ps: seq<Piece>, rest: string, f: Fields)
    requires ArePieces(ps, "YMD")
    ensures ParseDate(SpellThen(ps, rest), f) == ParseDate(rest, DateFields(ps, f))
    decreases |ps|
  {
    if ps != [] {
      var n, k, more := ps[0].n, ps[0].unit, SpellThen(ps[1..], rest);
      NumeralRead(n, k, more);
      NumeralFirst(n, [k] + more);
      R.DateStep(Spell(n) + ([k] + more), Value(n), k, more, f);
      var v := Value(n);
      DatePieces(ps[1..], rest, if k == 'Y' then f.(Y := v) else if k == 'M' then f.(M := v) else f.(D := v));
    }
  }

  lemma {:induction false} TimePieces(ps: seq<Piece>, rest: string, f: Fields)
    requires ArePieces(ps, "HMS")
    ensures ParseTime(SpellThen(ps, rest), f) == ParseTime(rest, TimeFields(ps, f))
    decreases |ps|
  {
    if ps != [] {
      var n, k, more := ps[0].n, ps[0].unit, SpellThen(ps[1..], rest);
      NumeralRead(n, k, more);
      NumeralFirst(n, [k] + more);
      R.TimeStep(Spell(n) + ([k] + more), Value(n), k, more, f);
      var v := Value(n);
      TimePieces(ps[1..], rest, if k == 'H' then f.(H := v) else if k == 'M' then f.(N := v) else f.(S := v));
    }
  }

  lemma TailParses(t: Tail, f: Fields)
    requires IsTail(t)
    ensures ParseDate(SpellTail(t), f) == Some(TailFields(t, f))
  {
    if !t.NoTime? {
      assert ("T" + SpellTime(t))[1..] == SpellTime(t);
      match t
      case Time(ps) => TimePieces(ps, "", f);
      case Fraction(ps, n, digits, rest) =>
        var last := ['.'] + (digits + rest);
        TimePieces(ps, Spell(n) + last, f);
        NumeralRead(n, '.', digits + rest);
        NumeralFirst(n, last);
        R.FractionRead(digits, rest);
        R.FractionEnds(Spell(n) + last, TimeFields(ps, f));
    }
  }

  /** Every sentence is accepted, and means the total of its last pieces. */
  lemma SentenceParses(x: Sentence)
    requires IsSentence(x)
    ensures Parse(Spelling(x)) == Ok(Meaning(x))
  {
    var items, sign := SpellThen(x.date, SpellTail(x.tail)), if x.negative then -1 else 1;
    var f := DateFields(x.date, ZERO);
    DatePieces(x.date, SpellTail(x.tail), ZERO);
    TailParses(x.tail, f);
    R.AfterP("P" + items, items, sign, TailFields(x.tail, f));
    R.TotalIs(sign, TailFields(x.tail, f));
    assert "" + ("P" + items) == "P" + items;
    R.AfterSign("P" + items, Spelling(x), Ok(Meaning(x)));
  }

  // ---------- nothing else is ----------

  lemma TimeHead(s: string, f: Fields) returns (g: Fields)
    requires ParseTime(s, f).Some? && s != ""
    ensures ReadPart(s).Some?
    ensures var p := ReadPart(s).value;
      if p.k == '.' then Run(p.rest[1..]) > 0 else p.k in "HMS" && ParseTime(p.rest[1..], g).Some?
  {
    var p := ReadPart(s).value;
    g := if p.k == 'H' then f.(H := p.n) else if p.k == 'M' then f.(N := p.n) else f.(S := p.n);
  }

  lemma {:induction false} FractionSplits(rest: string, n: Numeral) returns (t: Tail)
    requires IsNumeral(n) && rest != "" && rest[0] == '.' && Run(rest[1..]) > 0
    ensures IsTail(t) && t.Fraction? && SpellTime(t) == Spell(n) + rest
  {
    var u := rest[1..];
    var k := Run(u);
    assert rest == ['.'] + u && u == u[..k] + u[k..];
    assert k < |u| ==> u[k..][0] == u[k];
    t := Fraction([], n, u[..k], u[k..]);
  }

  lemma {:induction false} TimeSplits(s: string, f: Fields) returns (t: Tail)
    requires ParseTime(s, f).Some?
    ensures IsTail(t) && !t.NoTime? && SpellTime(t) == s
    decreases |s|
  {
    if s == "" {
      t := Time([]);
    } else {
      var g := TimeHead(s, f);
      var p := ReadPart(s).value;
      var n := PartSplits(s);
      if p.k == '.' {
        t := FractionSplits(p.rest, n);
      } else {
        assert p.rest == [p.k] + p.rest[1..];
        t := TimeSplits(p.rest[1..], g);
        t := Before(Piece(n, p.k), t);
      }
    }
  }

  /** A tail with one more piece in front. */
  lemma Before(p: Piece, t: Tail) returns (t': Tail)
    requires IsTail(t) && !t.NoTime? && IsNumeral(p.n) && p.unit in "HMS"
    ensures IsTail(t') && !t'.NoTime? && SpellTime(t') == Spell(p.n) + ([p.unit] + SpellTime(t))
  {
    var ps := [p] + t.ps;
    assert ps[1..] == t.ps;
    t' := t.(ps := ps);
  }

  lemma DateHead(s: string, f: Fields) returns (g: Fields)
    requires ParseDate(s, f).Some? && s != "" && s[0] != 'T'
    ensures ReadPart(s).Some? && ReadPart(s).value.k in "YMD" && ParseDate(ReadPart(s).value.rest[1..], g).Some?
  {
    var p := ReadPart(s).value;
    g := if p.k == 'Y' then f.(Y := p.n) else if p.k == 'M' then f.(M := p.n) else f.(D := p.n);
  }

  lemma {:induction false} DateSplits(s: string, f: Fields) returns (ps: seq<Piece>, t: Tail)
    requires ParseDate(s, f).Some?
    ensures ArePieces(ps, "YMD") && IsTail(t) && SpellThen(ps, SpellTail(t)) == s
    decreases |s|
  {
    if s == "" {
      ps, t := [], NoTime;
    } else if s[0] == 'T' {
      ps := [];
      t := TimeSplits(s[1..], f);
      assert s == "T" + s[1..];
    } else {
      var g := DateHead(s, f);
      var p := ReadPart(s).value;
      var n := PartSplits(s);
      assert p.rest == [p.k] + p.rest[1..];
      var more;
      more, t := DateSplits(p.rest[1..], g);
      ps := OneMore(Piece(n, p.k), more, SpellTail(t));
    }
  }

  /** One more piece in front of the date. */
  lemma {:induction false} OneMore(p: Piece, more: seq<Piece>, rest: string) returns (ps: seq<Piece>)
    requires ArePieces(more, "YMD") && IsNumeral(p.n) && p.unit in "YMD"
    ensures ArePieces(ps, "YMD") && SpellThen(ps, rest) == Spell(p.n) + ([p.unit] + SpellThen(more, rest))
  {
    ps := [p] + more;
    assert ps[1..] == more;
  }

  lemma OnlySentences(s: string) returns (x: Sentence)
    requires Parse(s).Ok?
    ensures IsSentence(x) && Spelling(x) == s
  {
    var negative := s != "" && s[0] == '-';
    var u := if negative then s[1..] else s;
    var ps, t := DateSplits(u[1..], ZERO);
    x := Sentence(negative, ps, t);
    assert u == "P" + u[1..];
    assert s == (if negative then "-" else "") + u;
  }

  /** The parser accepts exactly the sentences. */
  lemma AcceptsExactly(s: string)
    ensures Parse(s).Ok? <==> Accepted(s)
  {
    if Parse(s).Ok? {
      var x := OnlySentences(s);
    } else if Accepted(s) {
      var x :| IsSentence(x) && Spelling(x) == s;
      SentenceParses(x);
    }
  }
}
