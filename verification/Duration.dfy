/** Decimal numerals: what %d and %03d write and %lld reads. */
module Decimals {

  predicate Digit(c: char) { '0' <= c <= '9' }

  ghost predicate Digits(s: string) { forall i :: 0 <= i < |s| ==> Digit(s[i]) }

  function Worth(c: char): nat
    requires Digit(c)
  {
    c as int - '0' as int
  }

  function Val(s: string): nat
    requires forall i :: 0 <= i < |s| ==> Digit(s[i])
  {
    if s == "" then 0 else 10 * Val(s[..|s| - 1]) + Worth(s[|s| - 1])
  }

  function Figure(d: nat): (c: char)
    requires d < 10
    ensures Digit(c) && Worth(c) == d
  {
    '0' + d as char
  }

  function Dec(n: nat): (s: string)
    ensures s != "" && Digits(s) && Val(s) == n
  {
    if n < 10 then
      assert [Figure(n)][..0] == "";
      [Figure(n)]
    else
      var front := Dec(n / 10);
      assert (front + [Figure(n % 10)])[..|front|] == front;
      front + [Figure(n % 10)]
  }

  /** %03d of a number below a thousand. */
  function Dec3(n: nat): (s: string)
    requires n < 1000
    ensures |s| == 3 && Digits(s) && Val(s) == n
  {
    var s := [Figure(n / 100), Figure(n / 10 % 10), Figure(n % 10)];
    assert s[..2][..1][..0] == "" && s[..2][..1] == s[..1] && s[..2][1] == s[1];
    assert Val(s[..1]) == n / 100;
    assert Val(s[..2]) == 10 * (n / 100) + n / 10 % 10;
    s
  }

  /** %d, and %03d, of a number of either sign. */
  function Signed(n: int): string { if n < 0 then "-" + Dec(-n) else Dec(n) }

  function Signed3(n: int): string
    requires -1000 < n < 1000
  {
    if n >= 0 then Dec3(n) else if n <= -10 then "-" + Dec(-n) else "-0" + Dec(-n)
  }

  /** The length of the longest digit run at the front. */
  function Run(s: string): (n: nat)
    ensures n <= |s| && Digits(s[..n]) && (n < |s| ==> !Digit(s[n]))
  {
    if s == "" || !Digit(s[0]) then 0
    else
      var n := Run(s[1..]);
      assert s[..n + 1] == [s[0]] + s[1..][..n];
      n + 1
  }

  lemma {:induction false} RunIs(d: string, rest: string)
    requires Digits(d) && (rest != "" ==> !Digit(rest[0]))
    ensures Run(d + rest) == |d| && (d + rest)[..|d|] == d
  {
    if d == "" {
      assert d + rest == rest;
    } else {
      RunIs(d[1..], rest);
      assert (d + rest)[1..] == d[1..] + rest;
    }
  }

  function Pow10(n: nat): nat
    ensures Pow10(n) > 0
  {
    if n == 0 then 1 else 10 * Pow10(n - 1)
  }

}

/** The fraction of a second as `%g` reads it into a float and `(long)(1000.0 * f)` turns it
    into milliseconds. Fractions are below 1, so the float is a significand over a power of
    two, and the product with 1000.0 is exact in double precision. */
module SingleMillis {

  function Pow2(n: nat): nat
    ensures Pow2(n) > 0
  {
    if n == 0 then 1 else 2 * Pow2(n - 1)
  }

  /** Round num / den to the nearest whole number, ties to even. */
  function RoundDiv(num: nat, den: nat): nat
    requires den > 0
  {
    var q, r := num / den, num % den;
    if 2 * r < den || (2 * r == den && q % 2 == 0) then q else q + 1
  }

  /** The number of binary places a float has for num / den: enough for 24 significant bits, and
      at most 149. */
  function Places(num: nat, den: nat, j: nat): (r: nat)
    requires j <= 149
    ensures j <= r <= 149
    ensures r == 149 || num * Pow2(r) >= den * Pow2(23)
    ensures forall i :: j <= i < r ==> num * Pow2(i) < den * Pow2(23)
    decreases 149 - j
  {
    if j == 149 || num * Pow2(j) >= den * Pow2(23) then j else Places(num, den, j + 1)
  }

  function Scaled(num: nat, j: nat): nat { num * Pow2(j) }

  function Significand(num: nat, den: nat): nat
    requires den > 0
  {
    RoundDiv(Scaled(num, Places(num, den, 24)), den)
  }

  function Floor(x: nat, p: nat): nat
    requires p > 0
  {
    x / p
  }

  /** (long)(1000.0 * f) for the float f nearest num / den. */
  function Millis(num: nat, den: nat): nat
    requires den > 0
  {
    Floor(1000 * Significand(num, den), Pow2(Places(num, den, 24)))
  }

  lemma RoundDivNear(num: nat, den: nat)
    requires den > 0
    ensures num - den <= 2 * (den * RoundDiv(num, den)) - num <= num + den
  {
    assert num == den * (num / den) + num % den;
  }

  lemma Monotone(den: nat, i: int, j: int)
    ensures i <= j ==> den * i <= den * j
  {
  }

  /** No multiple of 1/den comes nearer. */
  lemma RoundDivNearest(num: nat, den: nat, k: nat)
    requires den > 0
    ensures Abs(den * RoundDiv(num, den) - num) <= Abs(den * k - num)
  {
    RoundDivNear(num, den);
    var q := RoundDiv(num, den);
    if k < q {
      Monotone(den, k, q - 1);
      assert den * (q - 1) == den * q - den;
    } else if k > q {
      Monotone(den, q + 1, k);
      assert den * (q + 1) == den * q + den;
    }
  }

  /** The significand has 24 bits, unless the fraction is too small for a float to have that many. */
  lemma SignificandFits(num: nat, den: nat, lo: nat, hi: nat)
    requires num < den && lo == Pow2(23) && hi == Pow2(24)
    ensures Significand(num, den) <= hi
    ensures Places(num, den, 24) == 149 || lo <= Significand(num, den)
  {
    var j := Places(num, den, 24);
    var x := Scaled(num, j);
    if j == 24 { Monotone(hi, num, den); } else { OnePlaceLess(num, den, j); }
    assert x <= den * hi && (j == 149 || x >= den * lo);
    RoundDivBetween(x, den, hi);
    RoundDivBetween(x, den, lo);
  }

  lemma OnePlaceLess(num: nat, den: nat, j: nat)
    requires j > 0 && num * Pow2(j - 1) < den * Pow2(23)
    ensures num * Pow2(j) <= den * Pow2(24)
  {
    Doubles(num, Pow2(j - 1));
    Doubles(den, Pow2(23));
  }

  lemma Doubles(num: nat, p: nat)
    ensures num * (2 * p) == 2 * (num * p)
  {
  }

  lemma RoundDivBetween(x: nat, den: nat, k: nat)
    requires den > 0
    ensures x <= den * k ==> RoundDiv(x, den) <= k
    ensures x >= den * k ==> RoundDiv(x, den) >= k
  {
    RoundDivNear(x, den);
    var q := RoundDiv(x, den);
    Monotone(den, k + 1, q);
    Monotone(den, q + 1, k);
    assert den * (k + 1) == den * k + den && den * (q + 1) == den * q + den;
    RoundExact(den, k);
    assert x == den * k ==> q == k;
  }

  lemma RoundExact(den: nat, k: nat)
    requires den > 0
    ensures RoundDiv(den * k, den) == k
  {
    assert den * (k + 1) == den * k + den;
    Quotient(den * k, den, k);
  }

  function Abs(x: int): nat { if x < 0 then -x else x }

  lemma {:induction false} Pow2Grows(i: nat, j: nat)
    requires i <= j
    ensures Pow2(j) % Pow2(i) == 0 && Pow2(i) <= Pow2(j)
    decreases j
  {
    if i < j {
      Pow2Grows(i, j - 1);
      var q := Pow2(j - 1) / Pow2(i);
      assert Pow2(j) == Pow2(i) * (2 * q);
      Multiple(Pow2(i), 2 * q);
    }
  }

  lemma Multiple(p: nat, q: nat)
    requires p > 0
    ensures p * q % p == 0
  {
    assert p * q == 0 + p * q;
    Quotient(p * q, p, q);
  }

  lemma Quotient(y: int, p: nat, m: int)
    requires p > 0 && p * m <= y < p * (m + 1)
    ensures y / p == m && y % p == y - p * m
  {
    var q := y / p;
    assert y == p * q + y % p;
    Monotone(p, q + 1, m);
    Monotone(p, m + 1, q);
  }

  /** The float nearest m / 1000 lies below it. */
  predicate RoundsDown(m: nat) { 0 < m * Pow2(Places(m, 1000, 24)) % 1000 < 500 }

  /** No number of milliseconds lies halfway between two floats. */
  lemma NoTie(m: nat, p: nat)
    requires p % 8 == 0
    ensures m * p % 1000 != 500
  {
    var q := p / 8;
    assert m * p == 8 * (m * q);
    EightfoldNoTie(m * q);
  }

  lemma EightfoldNoTie(y: nat)
    ensures 8 * y % 1000 != 500
  {
  }

  lemma RoundsTo(x: nat)
    requires x % 1000 != 500
    ensures 1000 * RoundDiv(x, 1000)
         == if 0 < x % 1000 < 500 then x - x % 1000 else if x % 1000 == 0 then x else x - x % 1000 + 1000
  {
    assert x == 1000 * (x / 1000) + x % 1000;
  }

  lemma BackAt(m: nat, p: nat)
    requires m < 1000 && p > 500 && p % 8 == 0
    ensures Floor(1000 * RoundDiv(m * p, 1000), p) == if 0 < m * p % 1000 < 500 then m - 1 else m
  {
    var x := m * p;
    NoTie(m, p);
    RoundsTo(x);
    if 0 < x % 1000 < 500 {
      assert p * (m - 1) == x - p;
      Quotient(1000 * RoundDiv(x, 1000), p, m - 1);
    } else {
      assert p * m == x && p * (m + 1) == x + p;
      Quotient(1000 * RoundDiv(x, 1000), p, m);
    }
  }

  /** Milliseconds come back exact, or one too low when the float rounds down. */
  lemma MillisBack(m: nat)
    requires m < 1000
    ensures Millis(m, 1000) == if RoundsDown(m) then m - 1 else m
  {
    var j := Places(m, 1000, 24);
    Pow2Grows(24, j);
    Pow2Grows(3, j);
    Pow24();
    BackAt(m, Pow2(j));
  }

  // ---------- any fraction ----------

  lemma Cancel(k: nat, a: int, b: int)
    requires k > 0
    ensures k * a <= k * b <==> a <= b
    ensures k * a < k * b <==> a < b
  {
  }

  lemma Regroup(x: int, y: int, z: int)
    ensures (x * y) * z == y * (x * z)
  {
  }

  lemma {:induction false} PlacesScale(num: nat, den: nat, k: nat, j: nat)
    requires k > 0 && j <= 149
    ensures Places(num * k, den * k, j) == Places(num, den, j)
    decreases 149 - j
  {
    Regroup(num, k, Pow2(j));
    Regroup(den, k, Pow2(23));
    Cancel(k, den * Pow2(23), num * Pow2(j));
    if j < 149 && num * Pow2(j) < den * Pow2(23) { PlacesScale(num, den, k, j + 1); }
  }

  lemma RoundDivScales(x: nat, d: nat, k: nat)
    requires d > 0 && k > 0
    ensures d * k > 0 && RoundDiv(x * k, d * k) == RoundDiv(x, d)
  {
    var q, r := x / d, x % d;
    assert x == d * q + r;
    assert x * k == (d * k) * q + r * k;
    Cancel(k, r, d);
    Cancel(k, 0, r);
    Quotient(x * k, d * k, q);
    Regroup(2, k, r);
    Cancel(k, 2 * r, d);
    Cancel(k, d, 2 * r);
  }

  lemma ScaledBy(num: nat, k: nat, j: nat)
    ensures Scaled(num * k, j) == Scaled(num, j) * k
  {
    Regroup(num, k, Pow2(j));
    Regroup(num, Pow2(j), k);
  }

  /** Only the value of the fraction matters, not how it is written. */
  lemma MillisScales(num: nat, den: nat, k: nat, num': nat, den': nat)
    requires den > 0 && k > 0 && num' == num * k && den' == den * k
    ensures den' > 0 && Millis(num', den') == Millis(num, den)
  {
    var j := Places(num, den, 24);
    PlacesScale(num, den, k, 24);
    ScaledBy(num, k, j);
    RoundDivScales(Scaled(num, j), den, k);
    SameMillis(num, den, num', den', j);
  }

  lemma SameMillis(num: nat, den: nat, num': nat, den': nat, j: nat)
    requires den > 0 && den' > 0 && Places(num, den, 24) == Places(num', den', 24) == j
    requires RoundDiv(Scaled(num', j), den') == RoundDiv(Scaled(num, j), den)
    ensures Millis(num', den') == Millis(num, den)
  {
  }

  /** Up to three digits stand for as many milliseconds. */
  lemma ShortBack(v: nat, den: nat, k: nat, m: nat)
    requires den > 0 && k > 0 && den * k == 1000 && m == v * k < 1000
    ensures Millis(v, den) == if RoundsDown(m) then m - 1 else m
  {
    MillisScales(v, den, k, m, 1000);
    MillisBack(m);
  }

  /** Any fraction comes out as its thousandths rounded down, give or take the rounding of the
      float, which is less than one part in 33554 of a millisecond. */
  lemma MillisNear(num: nat, den: nat)
    requires den > 0
    ensures 33554 * (den * Millis(num, den) - 1000 * num) <= den
    ensures 33554 * (1000 * num - den * Millis(num, den)) <= 33555 * den
  {
    var p, t := Pow2(Places(num, den, 24)), Significand(num, den);
    Pow2Grows(24, Places(num, den, 24));
    Pow24();
    RoundDivNear(num * p, den);
    var m := Millis(num, den);
    Floors(1000 * t, p);
    NearBounds(num, den, p, t, m);
  }

  lemma Floors(x: nat, p: nat)
    requires p > 0
    ensures p * Floor(x, p) <= x < p * Floor(x, p) + p
  {
    assert x == p * (x / p) + x % p;
  }

  lemma NearBounds(num: nat, den: nat, p: nat, t: nat, m: nat)
    requires den > 0 && p >= 16777216
    requires 2 * (num * p) - den <= 2 * (den * t) <= 2 * (num * p) + den
    requires p * m <= 1000 * t < p * m + p
    ensures 33554 * (den * m - 1000 * num) <= den
    ensures 33554 * (1000 * num - den * m) <= 33555 * den
  {
    Spread(den, p, m, t);
    Apart(p, den * m, num, den);
    Between(p * (den * m), den * t, num * p, p * den, den);
    ScaleDown(p, den * m - 1000 * num, den);
    ScaleDown(p, 1000 * num - den * m - den, den);
  }

  lemma Between(a: int, b: int, c: int, e: int, den: int)
    requires a <= 1000 * b < a + e && 2 * c - den <= 2 * b <= 2 * c + den
    ensures a - 1000 * c <= 500 * den && 1000 * c - a - e <= 500 * den
  {
  }

  lemma Apart(p: nat, x: int, num: int, den: int)
    ensures p * (x - 1000 * num) == p * x - 1000 * (num * p)
    ensures p * (1000 * num - x - den) == 1000 * (num * p) - p * x - p * den
  {
  }

  lemma Spread(den: nat, p: nat, m: nat, t: nat)
    requires den > 0 && p * m <= 1000 * t < p * m + p
    ensures p * (den * m) <= 1000 * (den * t) < p * (den * m) + p * den
  {
    Cancel(den, p * m, 1000 * t);
    Cancel(den, 1000 * t, p * m + p);
    Regroup(1000, den, t);
    Regroup(p, den, m);
    assert den * (p * m + p) == den * (p * m) + p * den;
  }

  lemma ScaleDown(p: nat, x: int, den: nat)
    requires p >= 16777216 && p * x <= 500 * den
    ensures 33554 * x <= den
  {
    if x > 0 {
      assert p * x >= 16777216 * x;
    }
  }

  lemma Pow24()
    ensures Pow2(3) == 8 && Pow2(23) == 8388608 && Pow2(24) == 16777216
  {
    assert Pow2(8) == 256;
    assert Pow2(16) == 65536;
  }
}

/** duration.c: the printer and the parser of xsd:duration values, in milliseconds. */
module Durations {
  import opened Decimals

  const MIN64: int := -0x8000_0000_0000_0000
  const MAX64: int := 0x7FFF_FFFF_FFFF_FFFF

  predicate Long64(a: int) { MIN64 <= a <= MAX64 }

  /** A result brought back into 64 bits. */
  function Wrap64(a: int): (r: int)
    ensures Long64(r) && (Long64(a) ==> r == a)
  {
    (a - MIN64) % 0x1_0000_0000_0000_0000 + MIN64
  }

  // ---------- section 3.2.6.1 of XML Schema Part 2 ----------

  /** A lexical duration; an empty text stands for an item that is left out. */
  datatype Lexical = Lexical(negative: bool, years: string, months: string, days: string,
                             hours: string, minutes: string, seconds: string, fraction: string)

  ghost predicate WellFormed(x: Lexical) {
    && Digits(x.years) && Digits(x.months) && Digits(x.days)
    && Digits(x.hours) && Digits(x.minutes) && Digits(x.seconds) && Digits(x.fraction)
    && (x.years != "" || x.months != "" || x.days != "" || x.hours != "" || x.minutes != "" || x.seconds != "")
    && (x.fraction != "" ==> x.seconds != "")
  }

  function Item(digits: string, designator: char): string {
    if digits == "" then "" else digits + [designator]
  }

  function SecondsItem(x: Lexical): string {
    if x.fraction == "" then Item(x.seconds, 'S') else x.seconds + "." + x.fraction + "S"
  }

  function TimeItems(x: Lexical): string { Item(x.hours, 'H') + (Item(x.minutes, 'M') + SecondsItem(x)) }

  function TimePart(x: Lexical): string { if TimeItems(x) == "" then "" else "T" + TimeItems(x) }

  function DateItems(x: Lexical): string {
    Item(x.years, 'Y') + (Item(x.months, 'M') + (Item(x.days, 'D') + TimePart(x)))
  }

  function Render(x: Lexical): string { (if x.negative then "-" else "") + "P" + DateItems(x) }

  ghost predicate InLexicalSpace(s: string) { exists x :: WellFormed(x) && Render(x) == s }

  // ---------- the printer ----------

  /** Days, hours, minutes, seconds and milliseconds. */
  datatype Clock = Clock(d: nat, h: nat, m: nat, s: nat, f: nat)

  function ClockOf(b: nat): Clock {
    Clock(b / 86400000, b / 3600000 % 24, b / 60000 % 60, b / 1000 % 60, b % 1000)
  }

  ghost predicate Regular(c: Clock) { c.h < 24 && c.m < 60 && c.s < 60 && c.f < 1000 }

  /** The canonical items: days, and a time part unless it is zero. */
  function CanonicalItems(negative: bool, c: Clock): Lexical
    requires c.f < 1000
  {
    var days := if c.d == 0 then "" else Dec(c.d);
    if c.h != 0 || c.m != 0 || c.s != 0 || c.f != 0 then
      Lexical(negative, "", "", days, Dec(c.h), Dec(c.m), Dec(c.s), if c.f == 0 then "" else Dec3(c.f))
    else
      Lexical(negative, "", "", days, "", "", if c.d == 0 then "0" else "", "")
  }

  function Magnitude(a: int): nat { if a < 0 then -a else a }

  function Canonical(a: int): Lexical { CanonicalItems(a < 0, ClockOf(Magnitude(a))) }

  /** The time part for the numbers the printer has split off; %d may write a minus sign. */
  function TimeText(h: int, m: int, s: int, f: int): string
    requires -1000 < f < 1000
  {
    "T" + (Signed(h) + "H" + (Signed(m) + "M" + if f == 0 then Signed(s) + "S" else Signed(s) + "." + Signed3(f) + "S"))
  }

  function DayText(d: int): string { if d == 0 then "" else Signed(d) + "D" }

  /** What follows the P. */
  function Items(d: int, h: int, m: int, s: int, f: int): string
    requires -1000 < f < 1000
  {
    DayText(d) + if h == 0 && m == 0 && s == 0 && f == 0 then (if d == 0 then "T0S" else "") else TimeText(h, m, s, f)
  }

  /** What the printer writes. The least 64-bit value has no positive counterpart, so its items
      all come out negative. */
  function Text(a: int): string
    requires Long64(a)
  {
    if a == MIN64 then "-P" + Items(-106751991167, -7, -12, -55, -808) else Render(Canonical(a))
  }

  /** C's division and remainder, which truncate toward zero. */
  function Quot(a: int, b: nat): int
    requires b > 0
  {
    if a >= 0 then a / b else -(-a / b)
  }

  function Rem(a: int, b: nat): (r: int)
    requires b > 0
    ensures r < b && -r < b
  {
    if a >= 0 then a % b else -(-a % b)
  }

  method PrintDuration(duration: int) returns (tmpbuf: string)
    requires Long64(duration)
    ensures tmpbuf == Text(duration)
  {
    var a := duration;
    if a < 0 {
      tmpbuf := "-P";
      a := Wrap64(-a);
    } else {
      tmpbuf := "P";
    }
    PrintsText(duration, a);
    var f := Rem(a, 1000);
    a := Quot(a, 1000);
    var s := Rem(a, 60);
    a := Quot(a, 60);
    var m := Rem(a, 60);
    a := Quot(a, 60);
    var h := Rem(a, 24);
    var d := Quot(a, 24);
    tmpbuf := PrintItems(tmpbuf, d, h, m, s, f);
  }

  /** sprintf into the buffer at place k. */
  function Overwrite(buf: string, k: nat, text: string): string
    requires k <= |buf|
  {
    buf[..k] + text
  }

  lemma OverwriteEnd(prefix: string, middle: string, text: string)
    ensures Overwrite(prefix + middle, |prefix + middle|, text) == prefix + (middle + text)
    ensures Overwrite(prefix, |prefix|, text) == prefix + ("" + text)
    ensures prefix + (text + "") == prefix + text && prefix + "" == prefix
  {
  }

  method PrintItems(prefix: string, d: int, h: int, m: int, s: int, f: int) returns (tmpbuf: string)
    requires -1000 < f < 1000
    ensures tmpbuf == prefix + Items(d, h, m, s, f)
  {
    tmpbuf := prefix;
    var k := |tmpbuf|;
    if d != 0 {
      OverwriteEnd(prefix, "", DayText(d));
      tmpbuf := Overwrite(tmpbuf, k, DayText(d));
    }
    if h != 0 || m != 0 || s != 0 || f != 0 {
      OverwriteEnd(prefix, DayText(d), TimeText(h, m, s, f));
      if d != 0 { k := |tmpbuf|; }
      tmpbuf := Overwrite(tmpbuf, k, TimeText(h, m, s, f));
    } else if d == 0 {
      OverwriteEnd(prefix, "", "T0S");
      tmpbuf := Overwrite(tmpbuf, k, "T0S");
    }
  }

  function Sign(a: int): string { if a < 0 then "-P" else "P" }

  function ItemsOf(a: int): string {
    Items(Quot(Quot(Quot(Quot(a, 1000), 60), 60), 24), Rem(Quot(Quot(Quot(a, 1000), 60), 60), 24),
          Rem(Quot(Quot(a, 1000), 60), 60), Rem(Quot(a, 1000), 60), Rem(a, 1000))
  }

  /** The numbers of a clock add up to the duration. */
  lemma ClockSums(b: nat)
    ensures var c := ClockOf(b);
      Regular(c) && (((c.d * 24 + c.h) * 60 + c.m) * 60 + c.s) * 1000 + c.f == b
  {
    assert b / 1000 / 60 == b / 60000 && b / 60000 / 60 == b / 3600000 && b / 3600000 / 24 == b / 86400000;
  }

  /** Splitting off one unit at a time gives the same numbers. */
  lemma Splits(b: nat)
    ensures ClockOf(b) ==
      Clock(b / 1000 / 60 / 60 / 24, b / 1000 / 60 / 60 % 24, b / 1000 / 60 % 60, b / 1000 % 60, b % 1000)
  {
    assert b / 1000 / 60 == b / 60000 && b / 60000 / 60 == b / 3600000 && b / 3600000 / 24 == b / 86400000;
  }

  lemma Spelled(x: Lexical)
    ensures Render(x) == if x.negative then "-" + ("P" + DateItems(x)) else "P" + DateItems(x)
    ensures x.negative ==> Render(x) == "-P" + DateItems(x)
  {
  }

  lemma PrintsText(duration: int, a: int)
    requires Long64(duration) && a == if duration < 0 then Wrap64(-duration) else duration
    ensures Sign(duration) + ItemsOf(a) == Text(duration)
  {
    if duration == MIN64 {
      MinSplits();
    } else {
      PrintsCanonical(duration, a);
      Spelled(Canonical(duration));
    }
  }

  /** Negating the least value gives it back, and the truncating divisions keep its sign. */
  lemma MinSplits()
    ensures Wrap64(-MIN64) == MIN64
    ensures Quot(MIN64, 1000) == -9223372036854775 && Rem(MIN64, 1000) == -808
    ensures Quot(-9223372036854775, 60) == -153722867280912 && Rem(-9223372036854775, 60) == -55
    ensures Quot(-153722867280912, 60) == -2562047788015 && Rem(-153722867280912, 60) == -12
    ensures Quot(-2562047788015, 24) == -106751991167 && Rem(-2562047788015, 24) == -7
  {
  }

  lemma PrintsCanonical(duration: int, b: nat)
    requires b == if duration < 0 then -duration else duration
    ensures ItemsOf(b) == DateItems(Canonical(duration))
  {
    Splits(b);
    CanonicalText(duration < 0, ClockOf(b));
  }

  lemma CanonicalText(negative: bool, c: Clock)
    requires c.f < 1000
    ensures Items(c.d, c.h, c.m, c.s, c.f) == DateItems(CanonicalItems(negative, c))
  {
    var x := CanonicalItems(negative, c);
    DaysFirst(x);
    CanonicalTime(negative, c);
  }

  lemma CanonicalTime(negative: bool, c: Clock)
    requires c.f < 1000
    ensures var x := CanonicalItems(negative, c);
      DayText(c.d) == Item(x.days, 'D')
      && TimePart(x) == if c.h == 0 && c.m == 0 && c.s == 0 && c.f == 0 then (if c.d == 0 then "T0S" else "")
                        else TimeText(c.h, c.m, c.s, c.f)
  {
    var x := CanonicalItems(negative, c);
    if c.h == 0 && c.m == 0 && c.s == 0 && c.f == 0 && c.d == 0 {
      assert TimeItems(x) == "" + ("" + ("0" + ['S']));
    }
  }

  lemma DaysFirst(x: Lexical)
    requires x.years == x.months == ""
    ensures DateItems(x) == Item(x.days, 'D') + TimePart(x)
  {
    assert DateItems(x) == "" + ("" + (Item(x.days, 'D') + TimePart(x)));
  }
}

/** soap_s2xsd__duration: a text that starts with P is read item by item through a pointer,
    here the text still to be read. */
module DurationParser {
  import opened Characters
  import opened Options
  import opened Decimals
  import opened Durations
  import M = SingleMillis

  datatype Fields = Fields(Y: int, M: int, D: int, H: int, N: int, S: int, ms: int)

  const ZERO := Fields(0, 0, 0, 0, 0, 0, 0)

  /** The result of a parse; SOAP_TYPE leaves the value 0. */
  datatype Result = Ok(value: int) | SoapType

  function Clamp(n: int): int { if n < MIN64 then MIN64 else if n > MAX64 then MAX64 else n }

  /** One `%lld%c`: the number, the character after it, and where that character first occurs. */
  datatype Part = Part(n: int, k: char, rest: string)

  function ScanUnsigned(s: string, sign: int): (r: Option<(int, string)>)
    ensures r.Some? ==> |r.value.1| < |s|
  {
    var n := Run(s);
    if n == 0 then None else Some((Clamp(sign * Val(s[..n])), s[n..]))
  }

  function ScanSigned(s: string): (r: Option<(int, string)>)
    ensures r.Some? ==> |r.value.1| < |s|
  {
    if s != "" && s[0] == '-' then ScanUnsigned(s[1..], -1)
    else if s != "" && s[0] == '+' then ScanUnsigned(s[1..], 1)
    else ScanUnsigned(s, 1)
  }

  /** strchr, for a character that occurs. */
  function From(s: string, k: char): (r: string)
    requires k in s
    ensures |r| <= |s| && r != "" && r[0] == k
  {
    if s[0] == k then s else From(s[1..], k)
  }

  function ReadPart(s: string): (r: Option<Part>)
    ensures r.Some? ==> |r.value.rest| <= |s| && r.value.rest != "" && r.value.rest[0] == r.value.k
  {
    var b := Blanks(s);
    match ScanSigned(s[b..])
    case None => None
    case Some(scan) =>
      var (n, after) := scan;
      if after == "" then None
      else if after[0] in s then Some(Part(n, after[0], From(s, after[0])))
      else None
  }

  /** `%g` from a point on: the digits after it, as the milliseconds they come to. */
  function ReadFraction(s: string): Option<int>
    requires s != ""
  {
    var n := Run(s[1..]);
    if n == 0 then None else Some(M.Millis(Val(s[1..][..n]), Pow10(n)))
  }

  function WithFraction(f: Fields, rest: string): Option<Fields>
    requires rest != ""
  {
    match ReadFraction(rest)
    case None => None
    case Some(ms) => Some(f.(ms := ms))
  }

  function ParseTime(s: string, f: Fields): Option<Fields>
    decreases |s|
  {
    if s == "" then Some(f)
    else match ReadPart(s)
      case None => None
      case Some(p) =>
        if p.k == 'H' then ParseTime(p.rest[1..], f.(H := p.n))
        else if p.k == 'M' then ParseTime(p.rest[1..], f.(N := p.n))
        else if p.k == 'S' then ParseTime(p.rest[1..], f.(S := p.n))
        else if p.k == '.' then WithFraction(f.(S := p.n), p.rest)
        else None
  }

  function ParseDate(s: string, f: Fields): Option<Fields>
    decreases |s|
  {
    if s == "" then Some(f)
    else if s[0] == 'T' then ParseTime(s[1..], f)
    else match ReadPart(s)
      case None => None
      case Some(p) =>
        if p.k == 'Y' then ParseDate(p.rest[1..], f.(Y := p.n))
        else if p.k == 'M' then ParseDate(p.rest[1..], f.(M := p.n))
        else if p.k == 'D' then ParseDate(p.rest[1..], f.(D := p.n))
        else None
  }

  function Total(sign: int, f: Fields): int {
    Wrap64(sign * (((((((f.Y * 12 + f.M) * 30 + f.D) * 24 + f.H) * 60 + f.N) * 60 + f.S) * 1000) + f.ms))
  }

  function ParseUnsigned(s: string, sign: int): Result {
    if s == "" || s[0] != 'P' then SoapType
    else match ParseDate(s[1..], ZERO)
      case None => SoapType
      case Some(f) => Ok(Total(sign, f))
  }

  function Parse(s: string): Result {
    if s != "" && s[0] == '-' then ParseUnsigned(s[1..], -1) else ParseUnsigned(s, 1)
  }

  /** The parser's two loops; no text at all gives zero. */
  method ParseDuration(text: Option<string>) returns (r: Result)
    ensures r == if text == None then Ok(0) else Parse(text.value)
  {
    if text == None { return Ok(0); }
    var s, sign := text.value, 1;
    if s != "" && s[0] == '-' {
      sign := -1;
      s := s[1..];
    }
    if s == "" || s[0] != 'P' { return SoapType; }
    s := s[1..];
    ghost var date := s;
    var Y, M, D := 0, 0, 0;
    while s != ""
      invariant ParseDate(s, Fields(Y, M, D, 0, 0, 0, 0)) == ParseDate(date, ZERO)
      decreases |s|
    {
      if s[0] == 'T' { break; }
      var scan := ReadPart(s);
      if scan == None { return SoapType; }
      var Part(n, k, rest) := scan.value;
      match k {
        case 'Y' => Y := n;
        case 'M' => M := n;
        case 'D' => D := n;
        case _ => return SoapType;
      }
      s := rest[1..];
    }
    if s != "" { s := s[1..]; }
    var time := ParseTimePart(s, Y, M, D);
    r := match time case None => SoapType case Some(f) => Ok(Total(sign, f));
  }

  method ParseTimePart(text: string, Y: int, M: int, D: int) returns (r: Option<Fields>)
    ensures r == ParseTime(text, Fields(Y, M, D, 0, 0, 0, 0))
  {
    var s := text;
    var H, N, S, ms := 0, 0, 0, 0;
    while s != ""
      invariant ParseTime(s, Fields(Y, M, D, H, N, S, ms)) == ParseTime(text, Fields(Y, M, D, 0, 0, 0, 0))
      decreases |s|
    {
      var scan := ReadPart(s);
      if scan == None { return None; }
      var Part(n, k, rest) := scan.value;
      match k {
        case 'H' => H := n;
        case 'M' => N := n;
        case '.' =>
          S := n;
          var fraction := ReadFraction(rest);
          if fraction == None { return None; }
          return Some(Fields(Y, M, D, H, N, S, fraction.value));
        case 'S' => S := n;
        case _ => return None;
      }
      s := rest[1..];
    }
    r := Some(Fields(Y, M, D, H, N, S, ms));
  }
}

/** What the parser makes of the lexical space, and of what the printer writes. */
module DurationRoundTrip {
  import opened Characters
  import opened Options
  import opened Decimals
  import opened Durations
  import opened DurationParser

  function FieldsOf(x: Lexical): Fields
    requires WellFormed(x)
  {
    Fields(Clamp(Val(x.years)), Clamp(Val(x.months)), Clamp(Val(x.days)),
           Clamp(Val(x.hours)), Clamp(Val(x.minutes)), Clamp(Val(x.seconds)),
           Thousandths(x.fraction))
  }

  function Thousandths(fraction: string): nat
    requires Digits(fraction)
  {
    if fraction == "" then 0 else M.Millis(Val(fraction), Pow10(|fraction|))
  }

  /** Up to three digits stand for as many milliseconds, or one less when the float lies below. */
  lemma ShortFraction(fraction: string, m: nat)
    requires Digits(fraction) && 0 < |fraction| <= 3 && m == Val(fraction) * Pow10(3 - |fraction|)
    ensures m < 1000 && Thousandths(fraction) == if M.RoundsDown(m) then m - 1 else m
  {
    ValBelowPow(fraction);
    ShortMillis(Val(fraction), |fraction|, m);
  }

  lemma ShortMillis(v: nat, n: nat, m: nat)
    requires n <= 3 && v < Pow10(n) && m == v * Pow10(3 - n)
    ensures m < 1000 && M.Millis(v, Pow10(n)) == if M.RoundsDown(m) then m - 1 else m
  {
    Powers(n, v);
    M.ShortBack(v, Pow10(n), Pow10(3 - n), m);
  }

  lemma Powers(n: nat, v: nat)
    requires n <= 3 && v < Pow10(n)
    ensures Pow10(3 - n) > 0 && Pow10(n) * Pow10(3 - n) == 1000 && v * Pow10(3 - n) < 1000
  {
    assert Pow10(0) == 1 && Pow10(1) == 10 && Pow10(2) == 100 && Pow10(3) == 1000;
    if n == 0 { assert v == 0; } else if n == 1 { assert Pow10(2) == 100; } else if n == 2 { assert Pow10(1) == 10; }
  }

  lemma {:induction false} ValBelowPow(d: string)
    requires Digits(d)
    ensures Val(d) < Pow10(|d|)
  {
    if d != "" { ValBelowPow(d[..|d| - 1]); }
  }

  predicate Designator(k: char) { !Digit(k) && !IsSpace(k) && k != '-' && k != '+' }

  lemma {:induction false} FromAfter(d: string, k: char, rest: string)
    requires k !in d
    ensures k in d + ([k] + rest) && From(d + ([k] + rest), k) == [k] + rest
  {
    var s := d + ([k] + rest);
    assert s[|d|] == k;
    if d == "" {
      assert s == [k] + rest;
    } else {
      assert s[1..] == d[1..] + ([k] + rest);
      FromAfter(d[1..], k, rest);
    }
  }

  lemma ScanOf(d: string, k: char, rest: string, sign: int)
    requires Digits(d) && d != "" && Designator(k)
    ensures ScanUnsigned(d + ([k] + rest), sign) == Some((Clamp(sign * Val(d)), [k] + rest))
  {
    RunIs(d, [k] + rest);
    assert (d + ([k] + rest))[|d|..] == [k] + rest;
  }

  lemma ReadPartGives(s: string, n: int, k: char, rest: string)
    requires s != "" && !IsSpace(s[0]) && ScanSigned(s) == Some((n, [k] + rest))
    requires k in s && From(s, k) == [k] + rest
    ensures ReadPart(s) == Some(Part(n, k, [k] + rest))
  {
    assert Blanks(s) == 0 && s[0..] == s;
  }

  lemma ReadPartOf(d: string, k: char, rest: string)
    requires Digits(d) && d != "" && Designator(k)
    ensures ReadPart(d + ([k] + rest)) == Some(Part(Clamp(Val(d)), k, [k] + rest))
  {
    var s := d + ([k] + rest);
    assert s[0] == d[0] && Digit(s[0]);
    ScanOf(d, k, rest, 1);
    FromAfter(d, k, rest);
    ReadPartGives(s, Clamp(1 * Val(d)), k, rest);
  }

  lemma SignedRead(d: string, k: char, rest: string)
    requires Digits(d) && d != "" && Designator(k)
    ensures ReadPart(Negative(d, k, rest)) == Some(Part(Clamp(-1 * Val(d)), k, [k] + rest))
  {
    var s, t := d + ([k] + rest), Negative(d, k, rest);
    assert t[1..] == s && t[0] == '-';
    ScanOf(d, k, rest, -1);
    NegativeFrom(d, k, rest);
    ReadPartGives(t, Clamp(-1 * Val(d)), k, rest);
  }

  lemma NegativeFrom(d: string, k: char, rest: string)
    requires k !in d && k != '-'
    ensures k in Negative(d, k, rest) && From(Negative(d, k, rest), k) == [k] + rest
  {
    FromAfter("-" + d, k, rest);
    assert Negative(d, k, rest) == "-" + d + ([k] + rest);
  }

  function Negative(d: string, k: char, rest: string): string { "-" + (d + ([k] + rest)) }

  lemma {:induction false} DateStep(s: string, n: int, k: char, rest: string, f: Fields)
    requires s != "" && s[0] != 'T' && ReadPart(s) == Some(Part(n, k, [k] + rest))
    ensures k == 'Y' ==> ParseDate(s, f) == ParseDate(rest, f.(Y := n))
    ensures k == 'M' ==> ParseDate(s, f) == ParseDate(rest, f.(M := n))
    ensures k == 'D' ==> ParseDate(s, f) == ParseDate(rest, f.(D := n))
  {
    assert ([k] + rest)[1..] == rest;
  }

  lemma {:induction false} TimeStep(s: string, n: int, k: char, rest: string, f: Fields)
    requires s != "" && ReadPart(s) == Some(Part(n, k, [k] + rest))
    ensures k == 'H' ==> ParseTime(s, f) == ParseTime(rest, f.(H := n))
    ensures k == 'M' ==> ParseTime(s, f) == ParseTime(rest, f.(N := n))
    ensures k == 'S' ==> ParseTime(s, f) == ParseTime(rest, f.(S := n))
  {
    assert ([k] + rest)[1..] == rest;
  }

  lemma ItemText(d: string, k: char, rest: string)
    ensures Item(d, k) + rest == if d == "" then rest else d + ([k] + rest)
  {
  }

  /** An item of the date part sets its field; one left out leaves the field as it is. */
  lemma DateItem(d: string, k: char, rest: string, f: Fields)
    requires Digits(d) && (k == 'Y' || k == 'M' || k == 'D')
    ensures k == 'Y' && f.Y == 0 ==> ParseDate(Item(d, k) + rest, f) == ParseDate(rest, f.(Y := Clamp(Val(d))))
    ensures k == 'M' && f.M == 0 ==> ParseDate(Item(d, k) + rest, f) == ParseDate(rest, f.(M := Clamp(Val(d))))
    ensures k == 'D' && f.D == 0 ==> ParseDate(Item(d, k) + rest, f) == ParseDate(rest, f.(D := Clamp(Val(d))))
  {
    ItemText(d, k, rest);
    if d != "" {
      ReadPartOf(d, k, rest);
      assert (d + ([k] + rest))[0] == d[0];
      DateStep(d + ([k] + rest), Clamp(Val(d)), k, rest, f);
    }
  }

  lemma TimeItem(d: string, k: char, rest: string, f: Fields)
    requires Digits(d) && (k == 'H' || k == 'M' || k == 'S')
    ensures k == 'H' && f.H == 0 ==> ParseTime(Item(d, k) + rest, f) == ParseTime(rest, f.(H := Clamp(Val(d))))
    ensures k == 'M' && f.N == 0 ==> ParseTime(Item(d, k) + rest, f) == ParseTime(rest, f.(N := Clamp(Val(d))))
    ensures k == 'S' && f.S == 0 ==> ParseTime(Item(d, k) + rest, f) == ParseTime(rest, f.(S := Clamp(Val(d))))
  {
    ItemText(d, k, rest);
    if d != "" {
      ReadPartOf(d, k, rest);
      TimeStep(d + ([k] + rest), Clamp(Val(d)), k, rest, f);
    }
  }

  lemma FractionRead(fraction: string, rest: string)
    requires Digits(fraction) && fraction != "" && (rest != "" ==> !Digit(rest[0]))
    ensures ReadFraction(['.'] + (fraction + rest)) == Some(Thousandths(fraction))
  {
    RunIs(fraction, rest);
    assert (['.'] + (fraction + rest))[1..] == fraction + rest;
  }

  lemma {:induction false} FractionEnds(s: string, f: Fields)
    requires s != "" && ReadPart(s).Some? && ReadPart(s).value.k == '.'
    ensures var p := ReadPart(s).value; ParseTime(s, f) == WithFraction(f.(S := p.n), p.rest)
  {
  }

  lemma FractionItem(seconds: string, fraction: string, f: Fields)
    requires Digits(seconds) && seconds != "" && Digits(fraction) && fraction != ""
    ensures ParseTime(seconds + (['.'] + (fraction + "S")), f)
         == Some(f.(S := Clamp(Val(seconds)), ms := Thousandths(fraction)))
  {
    ReadPartOf(seconds, '.', fraction + "S");
    FractionRead(fraction, "S");
    FractionEnds(seconds + (['.'] + (fraction + "S")), f);
  }

  lemma Seconds(x: Lexical, f: Fields)
    requires WellFormed(x) && f.S == 0 && f.ms == 0
    ensures ParseTime(SecondsItem(x), f) == Some(f.(S := Clamp(Val(x.seconds)), ms := Thousandths(x.fraction)))
  {
    if x.fraction == "" {
      TimeItem(x.seconds, 'S', "", f);
      assert Item(x.seconds, 'S') + "" == Item(x.seconds, 'S');
    } else {
      assert SecondsItem(x) == x.seconds + (['.'] + (x.fraction + "S"));
      FractionItem(x.seconds, x.fraction, f);
    }
  }

  lemma TimeItemsParse(x: Lexical, f: Fields)
    requires WellFormed(x) && f.H == 0 && f.N == 0 && f.S == 0 && f.ms == 0
    ensures var g := FieldsOf(x);
      ParseTime(TimeItems(x), f) == Some(f.(H := g.H, N := g.N, S := g.S, ms := g.ms))
  {
    var g := FieldsOf(x);
    TimeItem(x.hours, 'H', Item(x.minutes, 'M') + SecondsItem(x), f);
    TimeItem(x.minutes, 'M', SecondsItem(x), f.(H := g.H));
    Seconds(x, f.(H := g.H, N := g.N));
  }

  lemma DateItemsParse(x: Lexical)
    requires WellFormed(x)
    ensures ParseDate(DateItems(x), ZERO) == Some(FieldsOf(x))
  {
    var g, time := FieldsOf(x), TimePart(x);
    DateItem(x.years, 'Y', Item(x.months, 'M') + (Item(x.days, 'D') + time), ZERO);
    DateItem(x.months, 'M', Item(x.days, 'D') + time, ZERO.(Y := g.Y));
    DateItem(x.days, 'D', time, ZERO.(Y := g.Y, M := g.M));
    var f := ZERO.(Y := g.Y, M := g.M, D := g.D);
    TimeItemsParse(x, f);
    if TimeItems(x) == "" {
      assert ParseDate("", f) == Some(f);
    } else {
      assert time[1..] == TimeItems(x);
    }
  }

  lemma AfterP(s: string, items: string, sign: int, f: Fields)
    requires s == "P" + items && ParseDate(items, ZERO) == Some(f)
    ensures ParseUnsigned(s, sign) == Ok(Total(sign, f))
  {
    assert s[1..] == items;
  }

  lemma AfterSign(s: string, text: string, r: Result)
    requires (s != "" && s[0] == 'P' && text == s && r == ParseUnsigned(s, 1))
          || (text == "-" + s && r == ParseUnsigned(s, -1))
    ensures Parse(text) == r
  {
    assert text == "-" + s ==> text[1..] == s;
  }

  /** What the numbers come to: each unit is a fixed number of milliseconds. */
  function Amount(sign: int, f: Fields): int {
    Wrap64(sign * (f.Y * 31104000000 + f.M * 2592000000 + f.D * 86400000
                   + f.H * 3600000 + f.N * 60000 + f.S * 1000 + f.ms))
  }

  /** Too large a sum is taken modulo 2 to the 64. */
  lemma WrapsAround(a: int)
    ensures Long64(Wrap64(a)) && exists k: int :: Wrap64(a) == a + k * 0x1_0000_0000_0000_0000
  {
    var m := 0x1_0000_0000_0000_0000;
    assert Wrap64(a) == a + (-((a - MIN64) / m)) * m;
  }

  lemma TotalIs(sign: int, f: Fields)
    ensures Total(sign, f) == Amount(sign, f)
  {
  }

  /** Every text of the lexical space is accepted, and each of its numbers counts. */
  lemma ParsesLexicalSpace(x: Lexical)
    requires WellFormed(x)
    ensures Parse(Render(x)) == Ok(Amount(if x.negative then -1 else 1, FieldsOf(x)))
  {
    TotalIs(if x.negative then -1 else 1, FieldsOf(x));
    var s, sign, f := "P" + DateItems(x), if x.negative then -1 else 1, FieldsOf(x);
    DateItemsParse(x);
    AfterP(s, DateItems(x), sign, f);
    Spelled(x);
    AfterSign(s, Render(x), Ok(Total(sign, f)));
  }

  /** The printer writes texts of the lexical space. */
  lemma PrintsLexicalSpace(a: int)
    requires MIN64 < a <= MAX64
    ensures WellFormed(Canonical(a)) && InLexicalSpace(Text(a))
  {
    assert WellFormed(Canonical(a)) && Render(Canonical(a)) == Text(a);
  }

  lemma Numbers(d: nat)
    requires d < 0x8000_0000_0000_0000
    ensures Clamp(Val(Dec(d))) == d && Clamp(Val("")) == 0 && Clamp(Val("0")) == 0
  {
    assert "0"[..0] == "";
  }

  /** What one rounding through a float leaves of some milliseconds. */
  function Back(m: nat, down: bool): int { if down then m - 1 else m }

  lemma CanonicalMillis(m: nat, down: bool)
    requires m < 1000 && down == M.RoundsDown(m)
    ensures Thousandths(if m == 0 then "" else Dec3(m)) == Back(m, down)
  {
    M.MillisBack(m);
    assert Pow10(3) == 1000;
  }

  /** The numbers the printer writes, as the parser reads them. */
  lemma CanonicalItemsFormed(negative: bool, c: Clock)
    requires Regular(c)
    ensures WellFormed(CanonicalItems(negative, c))
  {
  }

  lemma CanonicalFields(negative: bool, c: Clock, ms: int)
    requires c.d < 0x8000_0000_0000_0000 && Regular(c)
    requires ms == Thousandths(if c.f == 0 then "" else Dec3(c.f))
    ensures WellFormed(CanonicalItems(negative, c))
    ensures FieldsOf(CanonicalItems(negative, c)) == Fields(0, 0, c.d, c.h, c.m, c.s, ms)
  {
    CanonicalItemsFormed(negative, c);
    Numbers(c.d);
    Numbers(c.h);
    Numbers(c.m);
    Numbers(c.s);
  }

  lemma {:induction false} ReadsBack(negative: bool, c: Clock, ms: int, r: int)
    requires c.d < 0x8000_0000_0000_0000 && Regular(c)
    requires ms == Thousandths(if c.f == 0 then "" else Dec3(c.f))
    requires r == Amount(if negative then -1 else 1, Fields(0, 0, c.d, c.h, c.m, c.s, ms))
    ensures Parse(Render(CanonicalItems(negative, c))) == Ok(r)
  {
    CanonicalFields(negative, c, ms);
    ParsesLexicalSpace(CanonicalItems(negative, c));
  }

  /** The duration a printed one is read as. */
  function Rounded(a: int, down: bool): int {
    if !down then a else if a < 0 then a + 1 else a - 1
  }

  lemma AmountIs(a: int, c: Clock, down: bool)
    requires MIN64 < a <= MAX64 && c == ClockOf(Magnitude(a)) && (down ==> c.f > 0)
    ensures c.d < 0x8000_0000_0000_0000 && Regular(c)
    ensures Amount(if a < 0 then -1 else 1, Fields(0, 0, c.d, c.h, c.m, c.s, Back(c.f, down))) == Rounded(a, down)
  {
    ClockSums(Magnitude(a));
  }

  lemma {:induction false} ReadsBackWith(a: int, down: bool)
    requires MIN64 < a <= MAX64 && (down ==> Magnitude(a) % 1000 > 0)
    requires var f := Magnitude(a) % 1000; Thousandths(if f == 0 then "" else Dec3(f)) == Back(f, down)
    ensures Parse(Text(a)) == Ok(Rounded(a, down))
  {
    var c := ClockOf(Magnitude(a));
    AmountIs(a, c, down);
    ReadsBack(a < 0, c, Back(c.f, down), Rounded(a, down));
  }

  /** Reading back what was printed: exact, except that milliseconds come back one too low when
      the nearest float lies below them. */
  lemma RoundTrip(a: int)
    requires MIN64 < a <= MAX64
    ensures Parse(Text(a)) == Ok(Rounded(a, M.RoundsDown(Magnitude(a) % 1000)))
  {
    var f := Magnitude(a) % 1000;
    CanonicalMillis(f, M.RoundsDown(f));
    WholeExact();
    ReadsBackWith(a, M.RoundsDown(f));
  }

  lemma WholeExact()
    ensures !M.RoundsDown(0)
  {
  }

  // ---------- the least value ----------

  lemma SignedTime(d: string, k: char, rest: string)
    requires Digits(d) && d != "" && (k == 'H' || k == 'M')
    requires forall f :: ParseTime(rest, f) == None
    ensures forall f :: ParseTime(Negative(d, k, rest), f) == None
  {
    SignedRead(d, k, rest);
    forall f ensures ParseTime(Negative(d, k, rest), f) == None {
      TimeStep(Negative(d, k, rest), Clamp(-1 * Val(d)), k, rest, f);
    }
  }

  lemma NoFraction(s: string, n: int, rest: string, f: Fields)
    requires s != "" && rest != "" && ReadPart(s) == Some(Part(n, '.', rest)) && ReadFraction(rest) == None
    ensures ParseTime(s, f) == None
  {
  }

  lemma SignedFraction(d: string, rest: string)
    requires Digits(d) && d != "" && (rest == "" || !Digit(rest[0]))
    ensures forall f :: ParseTime(Negative(d, '.', rest), f) == None
  {
    SignedRead(d, '.', rest);
    assert (['.'] + rest)[1..] == rest && ReadFraction(['.'] + rest) == None;
    forall f ensures ParseTime(Negative(d, '.', rest), f) == None {
      NoFraction(Negative(d, '.', rest), Clamp(-1 * Val(d)), ['.'] + rest, f);
    }
  }

  lemma SignedDate(d: string, rest: string)
    requires Digits(d) && d != "" && forall f :: ParseDate(rest, f) == None
    ensures ParseDate(Negative(d, 'D', rest), ZERO) == None
  {
    SignedRead(d, 'D', rest);
    DateStep(Negative(d, 'D', rest), Clamp(-1 * Val(d)), 'D', rest, ZERO);
  }

  lemma SignedItem(d: string, k: char, rest: string)
    ensures "-" + d + [k] + rest == Negative(d, k, rest)
    ensures "-" + d + ([k] + rest) == Negative(d, k, rest)
  {
  }

  /** The least value's fraction comes out as ".-808", which the parser rejects. */
  lemma MinRejected()
    ensures Parse(Text(MIN64)) == SoapType
  {
    var items := Items(-106751991167, -7, -12, -55, -808);
    MinItemsRejected(items);
    BadAfterSign(Text(MIN64), items);
  }

  lemma BadAfterSign(s: string, items: string)
    requires s == "-P" + items && ParseDate(items, ZERO) == None
    ensures Parse(s) == SoapType
  {
    assert s[1..][1..] == items;
  }

  lemma MinItemsRejected(items: string)
    requires items == Items(-106751991167, -7, -12, -55, -808)
    ensures ParseDate(items, ZERO) == None
  {
    var fraction := Signed3(-808) + "S";
    var s3 := Negative(Dec(55), '.', fraction);
    var s2 := Negative(Dec(12), 'M', s3);
    var s1 := Negative(Dec(7), 'H', s2);
    SignedFraction(Dec(55), fraction);
    SignedTime(Dec(12), 'M', s3);
    SignedTime(Dec(7), 'H', s2);
    assert ("T" + s1)[1..] == s1;
    SignedDate(Dec(106751991167), "T" + s1);
    MinIsNegative(fraction, s3, s2, s1);
  }

  lemma MinIsNegative(fraction: string, s3: string, s2: string, s1: string)
    requires fraction == Signed3(-808) + "S" && s3 == Negative(Dec(55), '.', fraction)
    requires s2 == Negative(Dec(12), 'M', s3) && s1 == Negative(Dec(7), 'H', s2)
    ensures Items(-106751991167, -7, -12, -55, -808) == Negative(Dec(106751991167), 'D', "T" + s1)
  {
    SignedItem(Dec(55), '.', fraction);
    assert Signed(-55) + "." + Signed3(-808) + "S" == Signed(-55) + "." + fraction == s3;
    SignedItem(Dec(12), 'M', s3);
    assert Signed(-12) + "M" + s3 == s2;
    SignedItem(Dec(7), 'H', s2);
    SignedItem(Dec(106751991167), 'D', "T" + s1);
    assert Signed(-12) + ("M" + s3) == s2 && Signed(-7) + ("H" + s2) == s1;
    assert TimeText(-7, -12, -55, -808) == "T" + s1;
  }

  // ---------- exactly when ----------

  /** Printing and reading back is exact unless the value is the least one or its milliseconds
      lie above the nearest float. */
  lemma RoundTripsExactly(a: int)
    requires Long64(a)
    ensures Parse(Text(a)) == Ok(a) <==> a != MIN64 && !M.RoundsDown(Magnitude(a) % 1000)
  {
    if a == MIN64 {
      MinRejected();
    } else {
      RoundTrip(a);
    }
  }

  /** In particular whole seconds come back, and nothing is off by more than a millisecond. */
  lemma RoundedNear(a: int)
    ensures var r := Rounded(a, M.RoundsDown(Magnitude(a) % 1000));
      -1 <= r - a <= 1 && (a % 1000 == 0 ==> r == a)
  {
    if a % 1000 == 0 {
      assert Magnitude(a) % 1000 == 0;
      WholeExact();
    }
  }

  lemma Pow31()
    ensures M.Pow2(30) == 1073741824 && M.Pow2(31) == 2147483648
  {
    M.Pow24();
    assert M.Pow2(27) == 134217728;
  }

  lemma FiveRoundsDown(m: nat)
    requires m == 5
    ensures M.RoundsDown(m)
  {
    M.Pow24();
    Pow31();
    var j := M.Places(m, 1000, 24);
    if j <= 30 { M.Pow2Grows(j, 30); }
    assert j == 31;
  }

  /** Five milliseconds, of either sign, come back as four. */
  lemma FiveMilliseconds(a: int)
    requires Magnitude(a) == 5
    ensures Parse(Text(a)) == Ok(if a < 0 then -4 else 4)
  {
    FiveRoundsDown(Magnitude(a) % 1000);
    RoundTrip(a);
  }

  /** No text of the lexical space has a sign after its P, or nothing. */
  lemma ItemsBegin(x: Lexical)
    requires WellFormed(x)
    ensures DateItems(x) != "" && (DateItems(x)[0] == 'T' || Digit(DateItems(x)[0]))
  {
    if x.years != "" {
      assert DateItems(x)[0] == x.years[0];
    } else if x.months != "" {
      assert DateItems(x)[0] == x.months[0];
    } else if x.days != "" {
      assert DateItems(x)[0] == x.days[0];
    } else {
      assert SecondsItem(x) != "" || x.hours != "" || x.minutes != "";
      assert DateItems(x) == TimePart(x) && TimePart(x) != "";
    }
  }

  lemma Begins(x: Lexical, s: string)
    requires WellFormed(x) && (s == "P" || (|s| > 2 && s[0] == '-' && s[2] == '-'))
    ensures Render(x) != s
  {
    ItemsBegin(x);
    Spelled(x);
    if x.negative { assert ("-" + ("P" + DateItems(x)))[2] == DateItems(x)[0]; }
  }

  lemma MinBegins(s: string)
    requires s == Text(MIN64)
    ensures |s| > 2 && s[0] == '-' && s[2] == '-'
  {
    var items := Items(-106751991167, -7, -12, -55, -808);
    assert items[0] == '-' && s == "-P" + items;
  }

  lemma NotInLexicalSpace(s: string)
    requires s == "P" || (|s| > 2 && s[0] == '-' && s[2] == '-')
    ensures !InLexicalSpace(s)
  {
    forall x | WellFormed(x) ensures Render(x) != s { Begins(x, s); }
  }

  /** The least value is printed outside the lexical space. */
  lemma MinOutsideLexicalSpace()
    ensures !InLexicalSpace(Text(MIN64))
  {
    MinBegins(Text(MIN64));
    NotInLexicalSpace(Text(MIN64));
  }

  /** The parser accepts more than the lexical space: a P alone is no duration. */
  lemma BarePAccepted()
    ensures !InLexicalSpace("P") && Parse("P") == Ok(0)
  {
    NotInLexicalSpace("P");
    assert "P"[1..] == "";
  }
}
