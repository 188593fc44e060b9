/** The arithmetic of delta encoding, apart from the links that carry it. */
module TimerDeltas {
  import opened Seqs
  import opened Timeval
  import opened TimerRuns

  /** ds[i] is the delta of entry i, and the last one is the sentinel's. */
  ghost predicate Fits(ds: seq<Timeval>, s: State) {
    |ds| == |s.pending| + 1 && forall i {:trigger FitsAt(ds[i], s, i)} :: 0 <= i < |ds| ==> FitsAt(ds[i], s, i)
  }

  ghost predicate FitsAt(d: Timeval, s: State, i: int)
    requires 0 <= i <= |s.pending|
  {
    d.Normal() && d.Us() == Remaining(s, i) - RemainingBefore(s, i)
  }

  ghost predicate Queued(s: State) {
    && Ordered(s.pending)
    && (forall i :: 0 <= i < |s.pending| ==> s.pending[i].deadline < FOREVER && s.pending[i].stamp < s.stamps)
    && 0 <= s.elapsed < FOREVER
  }

  /** What addEntry does to the specification after a clock step of `e`. */
  ghost predicate Added(s: State, token: int, e: int, delay: int, r: int, s': State) {
    PlacedAt(delay, FOREVER - s'.elapsed, r) && s' == Arm(Later(s, e), Item(token, s'.elapsed + r, s.stamps))
  }

  lemma ScheduleIsArm(s: State, e: int, delay: int, r: int, s': State)
    requires 0 <= e < FOREVER - s.elapsed && 0 <= delay
    requires Added(s.(tokens := s.tokens + 1), s.tokens + 1, e, delay, r, s')
    ensures Did(s, Schedule(e, delay, r), s')
  {
  }

  lemma UpdateIsArm(s: State, token: int, e: int, delay: int, r: int, s': State)
    requires 0 <= e < FOREVER - s.elapsed && 0 <= delay && Find(s.pending, token) < |s.pending|
    requires Added(s.(pending := RemoveAt(s.pending, Find(s.pending, token))), token, e, delay, r, s')
    ensures Did(s, Update(token, e, delay, r), s')
  {
    assert s'.elapsed == s.elapsed + e;
    assert FOREVER - s'.elapsed == FOREVER - s.elapsed - e;
  }

  /** Only the pending entries and the elapsed time matter to the deltas. */
  lemma FitsSame(ds: seq<Timeval>, s: State, t: State)
    requires Fits(ds, s) && t.pending == s.pending && t.elapsed == s.elapsed
    ensures Fits(ds, t)
  {
    forall i | 0 <= i < |ds| ensures FitsAt(ds[i], t, i) { assert FitsAt(ds[i], s, i); }
  }

  function Sum(ds: seq<Timeval>): int {
    if ds == [] then 0 else Sum(ds[..|ds| - 1]) + ds[|ds| - 1].Us()
  }

  /** The deltas up to and including entry i add up to the time left for entry i: its
      deadline less the elapsed time, or nothing when that is past. */
  lemma {:induction false} PrefixSums(ds: seq<Timeval>, s: State, i: nat)
    requires Fits(ds, s) && i <= |s.pending|
    ensures Sum(ds[..i + 1]) == Remaining(s, i)
  {
    assert ds[..i + 1][..i] == ds[..i];
    assert FitsAt(ds[i], s, i);
    if i > 0 { PrefixSums(ds, s, i - 1); }
  }

  /** All deltas with the sentinel's, together with the elapsed time, make ETERNITY. */
  lemma TotalIsConserved(ds: seq<Timeval>, s: State)
    requires Fits(ds, s)
    ensures Sum(ds) + s.elapsed == FOREVER
  {
    PrefixSums(ds, s, |s.pending|);
    assert ds[..|ds|] == ds;
  }

  lemma RemainingMonotone(s: State, i: nat, j: nat)
    requires Queued(s) && i <= j <= |s.pending|
    ensures 0 <= Remaining(s, i) <= Remaining(s, j) <= FOREVER
  {
    if i < j < |s.pending| { assert Before(s.pending[i], s.pending[j]); }
  }

  /** What synchronize leaves: zeros before entry k and `left` taken off entry k. */
  ghost predicate Advanced(ds: seq<Timeval>, k: nat, left: Timeval, ds': seq<Timeval>)
    requires k < |ds|
  {
    && |ds'| == |ds|
    && (forall i :: 0 <= i < k ==> ds'[i] == DELAY_ZERO)
    && ds'[k] == Minus(ds[k], left)
    && (forall i :: k < i < |ds| ==> ds'[i] == ds[i])
  }

  function Later(s: State, e: int): State { s.(elapsed := s.elapsed + e) }

  lemma RemainingLater(s: State, e: int, i: nat)
    requires 0 <= e < FOREVER - s.elapsed && i <= |s.pending|
    ensures Remaining(Later(s, e), i) == Max0(Remaining(s, i) - e)
  {
  }

  lemma AdvancedFitsAt(ds: seq<Timeval>, s: State, k: nat, left: Timeval, e: int, ds': seq<Timeval>, i: nat)
    requires Queued(s) && Fits(ds, s) && k < |ds| && i < |ds| && Advanced(ds, k, left, ds')
    requires left.Normal() && e == left.Us() + RemainingBefore(s, k) < Remaining(s, k)
    ensures e < FOREVER - s.elapsed && FitsAt(ds'[i], Later(s, e), i)
  {
    RemainingMonotone(s, k, |s.pending|);
    RemainingLater(s, e, i);
    if i > 0 { RemainingLater(s, e, i - 1); }
    assert FitsAt(ds[k], s, k) && FitsAt(ds[i], s, i);
    if i < k {
      RemainingMonotone(s, i, k - 1);
      if i > 0 { RemainingMonotone(s, i - 1, k - 1); }
    } else if i == k {
      MinusIsNumeric(ds[k], left);
      if k > 0 { RemainingMonotone(s, k - 1, k); }
    } else {
      RemainingMonotone(s, k, i);
      RemainingMonotone(s, k, i - 1);
    }
  }

  lemma AdvancedFits(ds: seq<Timeval>, s: State, k: nat, left: Timeval, e: int, ds': seq<Timeval>)
    requires Queued(s) && Fits(ds, s) && k < |ds| && Advanced(ds, k, left, ds')
    requires left.Normal() && e == left.Us() + RemainingBefore(s, k) < Remaining(s, k)
    ensures e < FOREVER - s.elapsed && Fits(ds', Later(s, e))
  {
    forall i: nat | i < |ds|
      ensures e < FOREVER - s.elapsed && FitsAt(ds'[i], Later(s, e), i)
    {
      AdvancedFitsAt(ds, s, k, left, e, ds', i);
    }
    RemainingMonotone(s, k, |s.pending|);
  }

  /** One step of either walk: `t` is what remains of e once the entries before k are paid. */
  lemma WalkStep(ds: seq<Timeval>, s: State, k: nat, e: int, t: Timeval)
    requires Queued(s) && Fits(ds, s) && k < |ds|
    requires t.Normal() && t.Us() == e - RemainingBefore(s, k) && t.secs <= INT_MAX
    ensures Ge(t, ds[k]) <==> e >= Remaining(s, k)
    ensures Ge(t, ds[k]) ==> var t' := Minus(t, ds[k]);
      t'.Normal() && t'.Us() == e - Remaining(s, k) && t'.secs <= INT_MAX
  {
    assert FitsAt(ds[k], s, k);
    GeIsNumeric(t, ds[k]);
    if Ge(t, ds[k]) { MinusIsNumeric(t, ds[k]); }
  }

  // ---------- when the loop of synchronize ends ----------

  /** Its variables: the deltas, the time still to take off, and the place it has come to. */
  datatype Sync = Sync(ds: seq<Timeval>, since: Timeval, at: nat)

  predicate Goes(w: Sync)
    requires w.at < |w.ds|
  {
    Ge(w.since, w.ds[w.at])
  }

  /** The loop body. */
  function Turn(w: Sync): (w': Sync)
    requires w.at < |w.ds|
    ensures w'.at < |w'.ds|
  {
    Sync(w.ds[w.at := DELAY_ZERO], Minus(w.since, w.ds[w.at]), Next(w.ds, w.at))
  }

  function Turns(w: Sync, n: nat): (w': Sync)
    requires w.at < |w.ds|
    ensures w'.at < |w'.ds|
  {
    if n == 0 then w else Turn(Turns(w, n - 1))
  }

  /** In the first round the loop passes the entries in order and zeroes their deltas. */
  lemma {:induction false} FirstRound(ds: seq<Timeval>, since: Timeval, n: nat)
    requires n < |ds|
    ensures var w := Turns(Sync(ds, since, 0), n);
      && w.at == n && |w.ds| == |ds|
      && (forall i :: 0 <= i < n ==> w.ds[i] == DELAY_ZERO) && (forall i :: n <= i < |ds| ==> w.ds[i] == ds[i])
  {
    if n > 0 { FirstRound(ds, since, n - 1); }
  }

  /** Once every delta is zero the loop goes on for ever. */
  ghost predicate Drained(w: Sync) {
    w.since.Normal() && forall i :: 0 <= i < |w.ds| ==> w.ds[i] == DELAY_ZERO
  }

  lemma {:induction false} DrainedGoesOn(w: Sync, n: nat, m: nat)
    requires w.at < |w.ds| && m <= n && Drained(Turns(w, m))
    ensures Drained(Turns(w, n)) && Goes(Turns(w, n))
    decreases n
  {
    if m < n { DrainedGoesOn(w, n - 1, m); }
  }

  lemma RoundDrains(ds: seq<Timeval>, since: Timeval)
    requires ds != [] && Goes(Turns(Sync(ds, since, 0), |ds| - 1)) && ds[|ds| - 1].Normal()
    requires Turns(Sync(ds, since, 0), |ds| - 1).since.Normal()
    ensures Drained(Turns(Sync(ds, since, 0), |ds|))
  {
    var w := Turns(Sync(ds, since, 0), |ds| - 1);
    FirstRound(ds, since, |ds| - 1);
    GeIsNumeric(w.since, w.ds[w.at]);
    MinusIsNumeric(w.since, w.ds[w.at]);
    assert Turns(Sync(ds, since, 0), |ds|) == Turn(w);
  }

  /** What is left to take off at place n, as long as every entry before was paid in full. */
  ghost predicate PaidTo(ds: seq<Timeval>, s: State, since: Timeval, n: nat)
    requires n < |ds| == |s.pending| + 1
  {
    var left := Turns(Sync(ds, since, 0), n).since;
    left.Normal() && left.Us() == since.Us() - RemainingBefore(s, n)
  }

  /** The turn at place n, when the entry there can be paid. */
  lemma PaysOne(ds: seq<Timeval>, s: State, since: Timeval, n: nat)
    requires Queued(s) && Fits(ds, s) && n < |ds| && PaidTo(ds, s, since, n)
    ensures Goes(Turns(Sync(ds, since, 0), n)) <==> since.Us() >= Remaining(s, n)
    ensures since.Us() >= Remaining(s, n) ==> var left := Turns(Sync(ds, since, 0), n + 1).since;
      left.Normal() &&
      if LooksNegative(since.Us() - Remaining(s, n)) then left == DELAY_ZERO
      else left.Us() == since.Us() - Remaining(s, n)
  {
    var w := Turns(Sync(ds, since, 0), n);
    FirstRound(ds, since, n);
    assert FitsAt(ds[n], s, n);
    GeIsNumeric(w.since, ds[n]);
    if since.Us() >= Remaining(s, n) {
      MinusIsNumeric(w.since, ds[n]);
      MinusWipes(w.since, ds[n]);
    }
  }

  lemma {:induction false} PaysAll(ds: seq<Timeval>, s: State, since: Timeval, n: nat)
    requires Queued(s) && Fits(ds, s) && since.Normal() && n < |ds| && RemainingBefore(s, n) <= since.Us()
    requires forall j :: 0 <= j < n ==> !LooksNegative(since.Us() - Remaining(s, j))
    ensures PaidTo(ds, s, since, n)
  {
    if n > 0 {
      if n > 1 { RemainingMonotone(s, n - 2, n - 1); }
      PaysAll(ds, s, since, n - 1);
      PaysOne(ds, s, since, n - 1);
    }
  }

  /** Nothing left stays nothing left. */
  lemma {:induction false} NothingStays(ds: seq<Timeval>, s: State, since: Timeval, m: nat, n: nat)
    requires Queued(s) && Fits(ds, s) && m <= n < |ds| && Turns(Sync(ds, since, 0), m).since == DELAY_ZERO
    ensures Turns(Sync(ds, since, 0), n).since == DELAY_ZERO
    decreases n
  {
    if m < n {
      NothingStays(ds, s, since, m, n - 1);
      FirstRound(ds, since, n - 1);
      assert FitsAt(ds[n - 1], s, n - 1);
      RemainingMonotone(s, n - 1, n - 1);
      if n > 1 { RemainingMonotone(s, n - 2, n - 1); }
      MinusFromNothing(ds[n - 1]);
    }
  }

  lemma {:induction false} FirstUnpaid(s: State, e: int, k: nat) returns (n: nat)
    requires 0 <= e && k <= |s.pending| && RemainingBefore(s, k) <= e < FOREVER - s.elapsed
    ensures k <= n <= |s.pending| && RemainingBefore(s, n) <= e < Remaining(s, n)
    decreases |s.pending| - k
  {
    if e < Remaining(s, k) { n := k; } else { n := FirstUnpaid(s, e, k + 1); }
  }

  /** What is left after some entry before the sentinel looks negative. */
  ghost predicate WipedEarly(s: State, since: Timeval) {
    exists j: nat :: j < |s.pending| && LooksNegative(since.Us() - Remaining(s, j))
  }

  /** The first place where the rest is wiped out, and what is left after it. */
  lemma {:induction false} FirstWiped(ds: seq<Timeval>, s: State, since: Timeval, j: nat) returns (i: nat)
    requires Queued(s) && Fits(ds, s) && since.Normal() && since.Us() >= Sum(ds)
    requires j <= |s.pending| && LooksNegative(since.Us() - Remaining(s, j))
    ensures i <= j && LooksNegative(since.Us() - Remaining(s, i))
    ensures Remaining(s, i) <= Remaining(s, j) && Turns(Sync(ds, since, 0), i + 1).since == DELAY_ZERO
  {
    RemainingMonotone(s, j, |s.pending|);
    if k: nat :| k < j && LooksNegative(since.Us() - Remaining(s, k)) {
      i := FirstWiped(ds, s, since, k);
      RemainingMonotone(s, k, j);
    } else {
      i := j;
      TotalIsConserved(ds, s);
      if j > 0 { RemainingMonotone(s, j - 1, j); }
      PaysAll(ds, s, since, j);
      PaysOne(ds, s, since, j);
    }
  }

  lemma EndsWiped(ds: seq<Timeval>, s: State, since: Timeval, j: nat) returns (n: nat)
    requires Queued(s) && Fits(ds, s) && since.Normal() && since.Us() >= Sum(ds)
    requires j < |s.pending| && LooksNegative(since.Us() - Remaining(s, j))
    ensures !Goes(Turns(Sync(ds, since, 0), n))
  {
    TotalIsConserved(ds, s);
    var i := FirstWiped(ds, s, since, j);
    RemainingMonotone(s, i, i);
    n := FirstUnpaid(s, Remaining(s, i), i + 1);
    NothingStays(ds, s, since, i + 1, n);
    FirstRound(ds, since, n);
    assert FitsAt(ds[n], s, n);
  }

  lemma GoesOn(ds: seq<Timeval>, s: State, since: Timeval, n: nat)
    requires Queued(s) && Fits(ds, s) && since.Normal() && since.Us() >= Sum(ds)
    requires !WipedEarly(s, since) && n < |ds|
    ensures Goes(Turns(Sync(ds, since, 0), n)) && Turns(Sync(ds, since, 0), n).since.Normal()
  {
    TotalIsConserved(ds, s);
    RemainingMonotone(s, n, |s.pending|);
    if n > 0 { RemainingMonotone(s, n - 1, n); }
    PaysAll(ds, s, since, n);
    PaysOne(ds, s, since, n);
  }

  lemma WipesOnlyLarge(s: State, since: Timeval)
    requires Queued(s) && since.Normal() && since.secs <= INT_MAX && since.Us() >= FOREVER - s.elapsed
    ensures !WipedEarly(s, since)
  {
    forall j: nat | j < |s.pending| ensures !LooksNegative(since.Us() - Remaining(s, j)) {
      RemainingMonotone(s, j, |s.pending|);
      RemainingMonotone(s, j, j);
    }
  }

  lemma EndsUnpaid(ds: seq<Timeval>, s: State, since: Timeval) returns (n: nat)
    requires Queued(s) && Fits(ds, s) && since.Normal() && since.Us() < Sum(ds)
    ensures !Goes(Turns(Sync(ds, since, 0), n))
  {
    TotalIsConserved(ds, s);
    n := FirstUnpaid(s, since.Us(), 0);
    RemainingMonotone(s, 0, |s.pending|);
    forall j: nat | j < n ensures !LooksNegative(since.Us() - Remaining(s, j)) {
      RemainingMonotone(s, j, n - 1);
    }
    PaysAll(ds, s, since, n);
    PaysOne(ds, s, since, n);
  }

  lemma GoesOnForever(ds: seq<Timeval>, s: State, since: Timeval, n: nat)
    requires Queued(s) && Fits(ds, s) && since.Normal() && since.Us() >= Sum(ds) && !WipedEarly(s, since)
    ensures Goes(Turns(Sync(ds, since, 0), n))
  {
    if n < |ds| {
      GoesOn(ds, s, since, n);
    } else {
      GoesOn(ds, s, since, |ds| - 1);
      assert FitsAt(ds[|ds| - 1], s, |s.pending|);
      RoundDrains(ds, since);
      DrainedGoesOn(Sync(ds, since, 0), n, |ds|);
    }
  }

  /** The loop of synchronize ends if and only if the time it takes off is below the sum of all
      deltas, or the sign test wipes out what is left of it before the sentinel is reached, whose
      delta is never zero. */
  lemma SynchronizeEndsExactly(ds: seq<Timeval>, s: State, since: Timeval)
    requires Queued(s) && Fits(ds, s) && since.Normal()
    ensures (exists n: nat :: !Goes(Turns(Sync(ds, since, 0), n))) <==> since.Us() < Sum(ds) || WipedEarly(s, since)
    ensures since.secs <= INT_MAX && WipedEarly(s, since) ==> since.Us() < Sum(ds)
  {
    if since.Us() < Sum(ds) {
      var n := EndsUnpaid(ds, s, since);
    } else if WipedEarly(s, since) {
      var j: nat :| j < |s.pending| && LooksNegative(since.Us() - Remaining(s, j));
      var n := EndsWiped(ds, s, since, j);
      TotalIsConserved(ds, s);
      if since.secs <= INT_MAX { WipesOnlyLarge(s, since); }
    } else {
      forall n: nat ensures Goes(Turns(Sync(ds, since, 0), n)) { GoesOnForever(ds, s, since, n); }
    }
  }

  lemma ModIs(x: int, m: int, q: int, r: int)
    requires 0 <= r < m && x == q * m + r
    ensures x % m == r
  {
    var d := q - x / m;
    assert x == (x / m) * m + x % m;
    assert d * m == x % m - r;
    assert d > 0 ==> d * m >= m;
    assert d < 0 ==> d * m <= -m;
  }

  lemma ModMinus(x: int, m: int)
    requires 0 < m
    ensures (x - m) % m == x % m
  {
    assert x - m == (x / m - 1) * m + x % m;
    ModIs(x - m, m, x / m - 1, x % m);
  }

  /** One step of the walk of addEntry, in a circle: past the sentinel it starts again at
      the head with a whole round less to place. */
  lemma PlaceStep(ds: seq<Timeval>, s: State, k: nat, d: Timeval)
    requires Queued(s) && Fits(ds, s) && k < |ds| && d.Normal() && Ge(d, ds[k])
    ensures Minus(d, ds[k]).Normal()
    ensures var k', w := if k == |s.pending| then 0 else k + 1, d.Us() + RemainingBefore(s, k);
      var w' := Minus(d, ds[k]).Us() + RemainingBefore(s, k');
      && 0 <= w' <= w && (k' == 0 ==> w' < w)
      && (d.secs <= INT_MAX ==>
           (Minus(d, ds[k]).secs <= INT_MAX && w' % (FOREVER - s.elapsed) == w % (FOREVER - s.elapsed)))
  {
    assert FitsAt(ds[k], s, k);
    GeIsNumeric(d, ds[k]);
    MinusIsNumeric(d, ds[k]);
    RemainingMonotone(s, k, |s.pending|);
    if k == |s.pending| { ModMinus(d.Us() + RemainingBefore(s, k), FOREVER - s.elapsed); }
  }

  lemma PlaceEnds(ds: seq<Timeval>, s: State, k: nat, d: Timeval)
    requires Queued(s) && Fits(ds, s) && k < |ds| && d.Normal() && !Ge(d, ds[k])
    ensures d.Us() < ds[k].Us() && d.secs <= INT_MAX
    ensures var w := d.Us() + RemainingBefore(s, k);
      0 <= w < FOREVER - s.elapsed && w % (FOREVER - s.elapsed) == w
  {
    assert FitsAt(ds[k], s, k);
    GeIsNumeric(d, ds[k]);
    RemainingMonotone(s, k, |s.pending|);
    if k > 0 { RemainingMonotone(s, k - 1, |s.pending|); }
    SmallMod(d.Us() + RemainingBefore(s, k), FOREVER - s.elapsed);
  }

  /** The sentinel always has something left. */
  ghost predicate Payable(ds: seq<Timeval>) {
    |ds| > 0 && (forall i :: 0 <= i < |ds| ==> ds[i].Normal()) && ds[|ds| - 1].Us() > 0
  }

  lemma FitsPayable(ds: seq<Timeval>, s: State)
    requires Queued(s) && Fits(ds, s)
    ensures Payable(ds)
  {
    var n := |s.pending|;
    assert forall i :: 0 <= i < |ds| ==> FitsAt(ds[i], s, i);
    assert n > 0 ==> s.pending[n - 1].deadline < FOREVER;
  }

  function Next(ds: seq<Timeval>, k: nat): nat { if k + 1 == |ds| then 0 else k + 1 }

  /** Where the walk of addEntry ends from place k with this delay left, and what is left then.
      The delay is carried past the sentinel as often as needed, and the truncating sign test
      may wipe it out on the way. */
  function Place(ds: seq<Timeval>, k: nat, d: Timeval): (r: (nat, Timeval))
    requires Payable(ds) && k < |ds| && d.Normal()
    ensures r.0 < |ds| && r.1.Normal() && !Ge(r.1, ds[r.0])
    decreases d.Us(), |ds| - k
  {
    if !Ge(d, ds[k]) then (k, d)
    else
      MinusIsNumeric(d, ds[k]);
      Place(ds, Next(ds, k), Minus(d, ds[k]))
  }

  lemma PlaceNext(ds: seq<Timeval>, k: nat, d: Timeval)
    requires Payable(ds) && k < |ds| && d.Normal() && Ge(d, ds[k])
    ensures Minus(d, ds[k]).Normal() && Place(ds, k, d) == Place(ds, Next(ds, k), Minus(d, ds[k]))
  {
    MinusIsNumeric(d, ds[k]);
  }

  /** The time from now at which an entry placed so comes due. */
  function Landing(ds: seq<Timeval>, s: State, k: nat, d: Timeval): int
    requires Payable(ds) && |ds| == |s.pending| + 1 && k < |ds| && d.Normal()
  {
    var p := Place(ds, k, d);
    p.1.Us() + RemainingBefore(s, p.0)
  }

  /** Nothing left to place goes before the first entry that is not due at the same time. */
  lemma {:induction false} NothingLeft(ds: seq<Timeval>, s: State, k: nat)
    requires Queued(s) && Fits(ds, s) && Payable(ds) && k < |ds|
    ensures Landing(ds, s, k, DELAY_ZERO) == RemainingBefore(s, k)
    decreases |ds| - k
  {
    assert FitsAt(ds[k], s, k);
    if Ge(DELAY_ZERO, ds[k]) {
      PlaceNext(ds, k, DELAY_ZERO);
      NothingLeft(ds, s, k + 1);
    }
  }

  /** Where an entry lands whose remaining delay the sign test wipes out at place k: due together
      with that entry, and at once when it is the sentinel. */
  lemma WipedLands(ds: seq<Timeval>, s: State, k: nat, d: Timeval)
    requires Queued(s) && Fits(ds, s) && Payable(ds) && k < |ds| && d.Normal()
    requires Ge(d, ds[k]) && Minus(d, ds[k]) == DELAY_ZERO
    ensures Landing(ds, s, k, d) == if k == |s.pending| then 0 else Remaining(s, k)
  {
    PlaceNext(ds, k, d);
    NothingLeft(ds, s, Next(ds, k));
  }

  /** What addEntry leaves: the new delta before entry k, whose own delta shrinks by it. */
  function Inserted(ds: seq<Timeval>, k: nat, d: Timeval): seq<Timeval>
    requires k < |ds|
  {
    InsertAt(ds[k := Minus(ds[k], d)], k, d)
  }

  lemma InsertedFits(ds: seq<Timeval>, s: State, k: nat, d: Timeval, x: Item)
    requires Queued(s) && Fits(ds, s) && k < |ds|
    requires d.Normal() && d.Us() < ds[k].Us()
    requires x.deadline == s.elapsed + RemainingBefore(s, k) + d.Us()
    ensures k == Rank(s.pending, x.deadline) && x.deadline < FOREVER
    ensures Fits(Inserted(ds, k, d), Arm(s, x))
  {
    assert FitsAt(ds[k], s, k);
    RemainingMonotone(s, k, |s.pending|);
    if k > 0 { RemainingMonotone(s, k - 1, |s.pending|); }
    RankIs(s, k, x.deadline);
    forall i: nat | i <= |s.pending| + 1
      ensures FitsAt(Inserted(ds, k, d)[i], Arm(s, x), i)
    {
      InsertedFitsAt(ds, s, k, d, x, i);
    }
  }

  lemma ArmQueued(s: State, x: Item)
    requires Queued(s) && x.stamp == s.stamps && x.deadline < FOREVER
    ensures Queued(Arm(s, x))
  {
    var k, t := Rank(s.pending, x.deadline), Insert(s.pending, x);
    RankSplits(s.pending, x.deadline);
    OrderedInsertAt(s.pending, k, x);
    forall i | 0 <= i < |t| ensures t[i].deadline < FOREVER && t[i].stamp < s.stamps + 1 {
      if i != k { assert t[i] == s.pending[if i < k then i else i - 1]; }
    }
  }

  lemma InsertedFitsAt(ds: seq<Timeval>, s: State, k: nat, d: Timeval, x: Item, i: nat)
    requires Fits(ds, s) && k < |ds| && i <= |ds|
    requires d.Normal() && d.Us() < ds[k].Us() && ds[k].Us() <= FOREVER && 0 <= RemainingBefore(s, k)
    requires x.deadline == s.elapsed + RemainingBefore(s, k) + d.Us()
    ensures FitsAt(Inserted(ds, k, d)[i], s.(pending := InsertAt(s.pending, k, x)), i)
  {
    var s' := s.(pending := InsertAt(s.pending, k, x));
    assert FitsAt(ds[k], s, k);
    if i < k {
      assert FitsAt(ds[i], s, i) && Remaining(s', i) == Remaining(s, i);
    } else if i == k {
      assert Remaining(s', k) == RemainingBefore(s, k) + d.Us();
    } else if i == k + 1 {
      MinusIsNumeric(ds[k], d);
      assert Remaining(s', k + 1) == Remaining(s, k);
    } else {
      assert FitsAt(ds[i - 1], s, i - 1) && Inserted(ds, k, d)[i] == ds[i - 1];
      assert Remaining(s', i) == Remaining(s, i - 1) && Remaining(s', i - 1) == Remaining(s, i - 2);
    }
  }

  lemma RankIs(s: State, k: nat, deadline: int)
    requires Queued(s) && k <= |s.pending|
    requires s.elapsed + RemainingBefore(s, k) <= deadline < s.elapsed + Remaining(s, k)
    ensures Rank(s.pending, deadline) == k
  {
    RankSplits(s.pending, deadline);
    if k > 0 { assert s.pending[k - 1].deadline <= deadline; }
    if k < |s.pending| { assert s.pending[k].deadline > deadline; }
  }

  /** What removeEntry leaves: the delta of entry k is added to its successor's. */
  function Removed(ds: seq<Timeval>, k: nat): seq<Timeval>
    requires k + 1 < |ds|
  {
    RemoveAt(ds[k + 1 := Plus(ds[k + 1], ds[k])], k)
  }

  lemma RemovedFits(ds: seq<Timeval>, s: State, k: nat)
    requires Fits(ds, s) && k < |s.pending|
    ensures Fits(Removed(ds, k), s.(pending := RemoveAt(s.pending, k)))
  {
    var s', ds' := s.(pending := RemoveAt(s.pending, k)), Removed(ds, k);
    forall i | 0 <= i <= |s'.pending| ensures FitsAt(ds'[i], s', i) {
      assert FitsAt(ds[i], s, i) && FitsAt(ds[i + 1], s, i + 1);
      assert i < k ==> Remaining(s', i) == Remaining(s, i);
      assert i >= k ==> Remaining(s', i) == Remaining(s, i + 1);
    }
  }
}

/** DelayQueue.cpp: a circular doubly linked list in which every entry stores only the time
    left after its predecessor, refined to the transitions of TimerRuns. */
module DelayQueues {
  import opened Seqs
  import opened Timeval
  import opened TimerRuns
  import opened TimerDeltas

  class DelayQueueEntry {
    var next: DelayQueueEntry?
    var prev: DelayQueueEntry?
    var delta: Timeval
    const token: int

    constructor (delay: Timeval, token: int)
      ensures this.token == token && delta == delay && next == prev == this
    {
      next, prev, delta, this.token := this, this, delay, token;
    }
  }

  class DelayQueue {
    // The queue object is itself the sentinel entry of its list; here it is a field.
    const sentinel: DelayQueueEntry
    var lastSyncTime: Timeval
    var tokenCounter: int

    ghost var nodes: seq<DelayQueueEntry>  // the list, ending with the sentinel
    ghost var deltas: seq<Timeval>
    ghost var s: State

    ghost predicate Ring()
      reads `nodes, sentinel, nodes
    {
      && |nodes| > 0 && nodes[|nodes| - 1] == sentinel
      && (forall i, j :: 0 <= i < j < |nodes| ==> nodes[i] != nodes[j])
      && (forall i {:trigger nodes[i].next} :: 0 <= i < |nodes| - 1 ==> nodes[i].next == nodes[i + 1])
      && (forall i {:trigger nodes[i].prev} :: 0 < i < |nodes| ==> nodes[i].prev == nodes[i - 1])
      && sentinel.next == nodes[0] && nodes[0].prev == sentinel
    }

    ghost predicate Linked()
      reads `nodes, `deltas, sentinel, nodes
    {
      && Ring()
      && |nodes| == |deltas|
      && (forall i :: 0 <= i < |nodes| ==> nodes[i].delta == deltas[i])
    }

    ghost predicate Shape()
      reads this, sentinel, nodes
    {
      && Linked()
      && |nodes| == |s.pending| + 1
      && (forall i :: 0 <= i < |s.pending| ==> nodes[i].token == s.pending[i].token)
      && Fits(deltas, s) && Queued(s)
      && lastSyncTime.Normal()
    }

    ghost predicate Valid()
      reads this, sentinel, nodes
    {
      Shape() && tokenCounter == s.tokens
    }

    constructor (counter: int, now: Timeval)
      requires now.Normal()
      ensures Valid() && s == Initial(counter + 1) && fresh(sentinel) && lastSyncTime == now
    {
      sentinel := new DelayQueueEntry(ETERNITY, counter + 1);
      tokenCounter := counter + 1;
      lastSyncTime := now;
      nodes, deltas, s := [sentinel], [ETERNITY], Initial(counter + 1);
    }

    /** The clock time that reading `now` counts. */
    ghost function Counted(now: Timeval): nat
      reads `lastSyncTime
    {
      Forward(lastSyncTime.Us(), now.Us())
    }

    method SetDelta(cur: DelayQueueEntry, d: Timeval, ghost k: nat)
      requires Linked() && k < |nodes| && cur == nodes[k]
      modifies cur`delta, `deltas
      ensures Linked() && deltas == old(deltas)[k := d]
    {
      cur.delta := d;
      deltas := deltas[k := d];
    }

    ghost method SetState(t: State)
      requires Linked()
      modifies `s
      ensures Linked() && s == t
    {
      s := t;
    }

    /** The loop of synchronize: zero the deltas that elapsed. */
    method PayElapsed(elapsed: Timeval) returns (cur: DelayQueueEntry, since: Timeval, ghost k: nat)
      requires Linked() && Fits(deltas, s) && Queued(s) && elapsed.Normal() && elapsed.Us() < FOREVER - s.elapsed
      modifies `deltas, sentinel, nodes
      ensures Linked() && k < |nodes| && cur == nodes[k] && since.Normal() && since.secs <= INT_MAX
      ensures since.Us() == elapsed.Us() - RemainingBefore(s, k) && elapsed.Us() < Remaining(s, k)
      ensures forall i :: 0 <= i < k ==> deltas[i] == DELAY_ZERO
      ensures forall i :: k <= i < |nodes| ==> deltas[i] == old(deltas)[i]
    {
      since, cur, k := elapsed, sentinel.next, 0;
      while Ge(since, cur.delta)
        invariant k < |nodes| && cur == nodes[k] && Linked()
        invariant since.Normal() && since.secs <= INT_MAX && since.Us() == elapsed.Us() - RemainingBefore(s, k)
        invariant forall i :: 0 <= i < k ==> deltas[i] == DELAY_ZERO
        invariant forall i :: k <= i < |nodes| ==> deltas[i] == old(deltas)[i]
        decreases |nodes| - k
      {
        WalkStep(old(deltas), s, k, elapsed.Us(), since);
        since := Minus(since, cur.delta);
        SetDelta(cur, DELAY_ZERO, k);
        cur := cur.next;
        k := k + 1;
      }
      WalkStep(old(deltas), s, k, elapsed.Us(), since);
    }

    /** The second half of synchronize: take `elapsed` off the front of the queue. */
    method TakeOff(elapsed: Timeval)
      requires Shape() && elapsed.Normal() && elapsed.Us() < FOREVER - s.elapsed
      modifies `deltas, `s, sentinel, nodes
      ensures Shape() && s == Later(old(s), elapsed.Us())
    {
      var cur, since;
      ghost var k;
      cur, since, k := PayElapsed(elapsed);
      SetDelta(cur, Minus(cur.delta, since), k);
      AdvancedFits(old(deltas), s, k, since, elapsed.Us(), deltas);
      SetState(Later(s, elapsed.Us()));
    }

    method Synchronize(now: Timeval)
      requires Shape() && now.Normal() && Counted(now) < FOREVER - s.elapsed
      modifies `lastSyncTime, `deltas, `s, sentinel, nodes
      ensures Shape() && lastSyncTime == now
      ensures s == Later(old(s), old(Counted(now)))
      ensures forall i :: 0 <= i <= |s.pending| ==>
        Remaining(s, i) == Max0(old(Remaining(s, i)) - Forward(old(lastSyncTime.Us()), now.Us()))
    {
      ElapsedIsForward(lastSyncTime, now);
      if !Ge(now, lastSyncTime) {
        lastSyncTime := now;
        return;
      }
      var since := Minus(now, lastSyncTime);
      lastSyncTime := now;
      TakeOff(since);
    }

    method LinkBefore(entry: DelayQueueEntry, cur: DelayQueueEntry, ghost k: nat)
      requires Ring() && k < |nodes| && cur == nodes[k] && entry !in nodes
      modifies `nodes, nodes, entry
      ensures Ring() && nodes == InsertAt(old(nodes), k, entry)
      ensures forall n :: n in nodes ==> n.delta == old(n.delta)
    {
      entry.next := cur;
      entry.prev := cur.prev;
      entry.prev.next := entry;
      cur.prev := entry;
      ghost var q := nodes;
      nodes := InsertAt(nodes, k, entry);
      assert forall i {:trigger nodes[i]} :: 0 <= i < |nodes| ==>
        nodes[i] == if i < k then q[i] else if i == k then entry else q[i - 1];
    }

    method Unlink(entry: DelayQueueEntry, ghost k: nat)
      requires Ring() && k + 1 < |nodes| && entry == nodes[k]
      modifies `nodes, nodes
      ensures Ring() && nodes == RemoveAt(old(nodes), k)
      ensures entry.next == entry.prev == null && entry.delta == old(entry.delta)
      ensures forall n :: n in nodes ==> n.delta == old(n.delta)
    {
      entry.prev.next := entry.next;
      entry.next.prev := entry.prev;
      entry.next, entry.prev := null, null;
      nodes := RemoveAt(nodes, k);
    }

    /** The walk of addEntry: from the head, paying each delta, to the first entry that
        cannot be paid. The walk is a circle: see PlacedAt for where it ends. */
    method Walk(entry: DelayQueueEntry) returns (cur: DelayQueueEntry, ghost k: nat, ghost r: int)
      requires Linked() && Fits(deltas, s) && Queued(s)
      requires entry !in nodes && entry.delta.Normal()
      modifies entry`delta
      ensures k < |nodes| && cur == nodes[k] && entry.delta.Normal() && entry.delta.Us() < cur.delta.Us()
      ensures r == entry.delta.Us() + RemainingBefore(s, k)
      ensures PlacedAt(old(entry.delta.Us()), FOREVER - s.elapsed, r)
      ensures Payable(deltas) && r == Landing(deltas, s, 0, old(entry.delta))
    {
      ghost var total, d := FOREVER - s.elapsed, entry.delta;
      cur, k := sentinel.next, 0;
      FitsPayable(deltas, s);
      while Ge(entry.delta, cur.delta)
        invariant k < |nodes| && cur == nodes[k] && entry.delta.Normal()
        invariant Place(deltas, k, entry.delta) == Place(deltas, 0, d)
        invariant 0 <= entry.delta.Us() + RemainingBefore(s, k)
        invariant d.secs <= INT_MAX ==> entry.delta.secs <= INT_MAX
        invariant d.secs <= INT_MAX ==> (entry.delta.Us() + RemainingBefore(s, k)) % total == d.Us() % total
        decreases entry.delta.Us() + RemainingBefore(s, k), |nodes| - k
      {
        PlaceStep(deltas, s, k, entry.delta);
        PlaceNext(deltas, k, entry.delta);
        entry.delta := Minus(entry.delta, cur.delta);
        cur := cur.next;
        k := if k == |s.pending| then 0 else k + 1;
      }
      PlaceEnds(deltas, s, k, entry.delta);
      r := entry.delta.Us() + RemainingBefore(s, k);
    }

    /** What addEntry needs to know of the walk. */
    method FindPlace(entry: DelayQueueEntry) returns (cur: DelayQueueEntry, ghost k: nat, ghost r: int)
      requires Linked() && Fits(deltas, s) && Queued(s)
      requires entry !in nodes && entry.delta.Normal()
      modifies entry`delta
      ensures k < |nodes| && cur == nodes[k] && entry.delta.Normal() && entry.delta.Us() < cur.delta.Us()
      ensures r == entry.delta.Us() + RemainingBefore(s, k)
      ensures PlacedAt(old(entry.delta.Us()), FOREVER - s.elapsed, r)
    {
      cur, k, r := Walk(entry);
    }

    method AddEntry(entry: DelayQueueEntry, now: Timeval) returns (ghost r: int)
      requires Shape() && now.Normal() && Counted(now) < FOREVER - s.elapsed
      requires entry !in nodes && entry.delta.Normal()
      modifies `lastSyncTime, `nodes, `deltas, `s, sentinel, nodes, entry
      ensures Shape() && lastSyncTime == now
      ensures Added(old(s), entry.token, old(Counted(now)), old(entry.delta.Us()), r, s)
      ensures forall n :: n in nodes ==> n in old(nodes) || n == entry
    {
      Synchronize(now);
      r := WalkAndLink(entry);
    }

    method WalkAndLink(entry: DelayQueueEntry) returns (ghost r: int)
      requires Shape() && entry !in nodes && entry.delta.Normal()
      modifies `nodes, `deltas, `s, nodes, entry
      ensures Shape() && s == Arm(old(s), Item(entry.token, s.elapsed + r, old(s.stamps)))
      ensures PlacedAt(old(entry.delta.Us()), FOREVER - s.elapsed, r)
      ensures forall n :: n in nodes ==> n in old(nodes) || n == entry
    {
      var cur;
      ghost var k;
      cur, k, r := FindPlace(entry);
      SettleBefore(entry, cur, k, Item(entry.token, s.elapsed + r, s.stamps));
    }

    method Requeue(entry: DelayQueueEntry, newDelay: Timeval, now: Timeval) returns (ghost r: int)
      requires Shape() && now.Normal() && Counted(now) < FOREVER - s.elapsed
      requires entry !in nodes && newDelay.Normal()
      modifies `lastSyncTime, `nodes, `deltas, `s, sentinel, nodes, entry
      ensures Shape() && lastSyncTime == now
      ensures Added(old(s), entry.token, old(Counted(now)), newDelay.Us(), r, s)
      ensures forall n :: n in nodes ==> n in old(nodes) || n == entry
    {
      entry.delta := newDelay;
      r := AddEntry(entry, now);
    }

    method PayAndLink(entry: DelayQueueEntry, cur: DelayQueueEntry, ghost k: nat)
      requires Linked() && k < |nodes| && cur == nodes[k] && entry !in nodes
      modifies `nodes, `deltas, nodes, entry
      ensures Linked() && nodes == InsertAt(old(nodes), k, entry)
      ensures deltas == Inserted(old(deltas), k, old(entry.delta))
    {
      ghost var ds := deltas;
      SetDelta(cur, Minus(cur.delta, entry.delta), k);
      LinkBefore(entry, cur, k);
      deltas := Inserted(ds, k, entry.delta);
    }

    /** The end of addEntry: link `entry` before `cur`, which gives up the new delta. */
    method SettleBefore(entry: DelayQueueEntry, cur: DelayQueueEntry, ghost k: nat, ghost x: Item)
      requires Shape() && k < |nodes| && cur == nodes[k] && entry !in nodes
      requires entry.delta.Normal() && entry.delta.Us() < cur.delta.Us()
      requires x.token == entry.token && x.deadline == s.elapsed + RemainingBefore(s, k) + entry.delta.Us()
      requires x.stamp == s.stamps
      modifies `nodes, `deltas, `s, nodes, entry
      ensures Shape() && s == Arm(old(s), x)
      ensures forall n :: n in nodes ==> n in old(nodes) || n == entry
    {
      InsertedFits(deltas, s, k, entry.delta, x);
      ArmQueued(s, x);
      SetState(Arm(s, x));
      PayAndLink(entry, cur, k);
    }

    /** removeEntry, for an entry in the queue: its successor takes over the time that the
        entry stood for. */
    method TakeOut(entry: DelayQueueEntry, ghost k: nat)
      requires Shape() && k < |s.pending| && entry == nodes[k]
      modifies `nodes, `deltas, `s, nodes
      ensures Shape() && s == old(s).(pending := RemoveAt(old(s.pending), k))
      ensures nodes == RemoveAt(old(nodes), k)
      ensures entry.next == entry.prev == null && entry.delta == old(entry.delta)
    {
      RemovedFits(deltas, s, k);
      SetState(s.(pending := RemoveAt(s.pending, k)));
      PayAndUnlink(entry, k);
    }

    method PayAndUnlink(entry: DelayQueueEntry, ghost k: nat)
      requires Linked() && k + 1 < |nodes| && entry == nodes[k]
      modifies `nodes, `deltas, nodes
      ensures Linked() && nodes == RemoveAt(old(nodes), k) && deltas == Removed(old(deltas), k)
      ensures entry.next == entry.prev == null && entry.delta == old(entry.delta)
    {
      ghost var ds := deltas;
      SetDelta(entry.next, Plus(entry.next.delta, entry.delta), k + 1);
      Unlink(entry, k);
      deltas := Removed(ds, k);
    }

    method FindEntryByToken(token: int) returns (entry: DelayQueueEntry?)
      requires Shape()
      ensures entry == null <==> Find(s.pending, token) == |s.pending|
      ensures entry != null ==> entry == nodes[Find(s.pending, token)]
    {
      var cur := sentinel.next;
      ghost var k := 0;
      while cur != sentinel
        invariant k < |nodes| && cur == nodes[k]
        invariant forall i :: 0 <= i < k ==> s.pending[i].token != token
        decreases |nodes| - k
      {
        if cur.token == token { return cur; }
        cur := cur.next;
        k := k + 1;
      }
      return null;
    }

    /** What creating an entry does to the token counter, and then addEntry. */
    method AddFresh(entry: DelayQueueEntry, now: Timeval) returns (ghost r: int)
      requires Valid() && now.Normal() && Counted(now) < FOREVER - s.elapsed
      requires entry !in nodes && entry.delta.Normal() && entry.token == tokenCounter + 1
      modifies this, sentinel, nodes, entry
      ensures Valid() && lastSyncTime == now
      ensures Added(old(s).(tokens := entry.token), entry.token, old(Counted(now)), old(entry.delta.Us()), r, s)
      ensures forall n :: n in nodes ==> n in old(nodes) || n == entry
    {
      FitsSame(deltas, s, s.(tokens := entry.token));
      tokenCounter := entry.token;
      SetState(s.(tokens := entry.token));
      r := AddEntry(entry, now);
    }

    /** scheduleDelayedTask: a fresh entry with the next token. */
    method ScheduleDelayedTask(microseconds: int, now: Timeval) returns (token: int, ghost r: int)
      requires Valid() && now.Normal() && Counted(now) < FOREVER - s.elapsed
      modifies this, sentinel, nodes
      ensures Valid() && token == s.tokens && lastSyncTime == now
      ensures forall n :: n in nodes ==> n in old(nodes) || fresh(n)
      ensures Did(old(s), Schedule(old(Counted(now)), Max0(microseconds), r), s)
    {
      ghost var s0, e := s, Counted(now);
      var us := Max0(microseconds);
      token := tokenCounter + 1;
      var delay := FromMicroseconds(us);
      var entry := new DelayQueueEntry(delay, token);
      r := AddFresh(entry, now);
      ScheduleIsArm(s0, e, us, r, s);
    }

    /** unscheduleDelayedTask. */
    method UnscheduleDelayedTask(token: int) returns (entry: DelayQueueEntry?)
      requires Valid()
      modifies this, nodes
      ensures Valid() && Did(old(s), Cancel(token), s) && (entry != null <==> s != old(s))
      ensures lastSyncTime == old(lastSyncTime)
      ensures forall n :: n in nodes ==> n in old(nodes)
      ensures entry != null ==> entry in old(nodes) && entry !in nodes && entry.token == token
    {
      entry := FindEntryByToken(token);
      if entry != null {
        ghost var k := Find(s.pending, token);
        TakeOut(entry, k);
        FitsSame(deltas, s, s.(cancelled := s.cancelled + {token}));
        SetState(s.(cancelled := s.cancelled + {token}));
      }
    }

    /** updateEntry, for the entry that stands at place k. */
    method UpdateEntry(entry: DelayQueueEntry, newDelay: Timeval, now: Timeval, ghost k: nat) returns (ghost r: int)
      requires Valid() && now.Normal() && newDelay.Normal() && Counted(now) < FOREVER - s.elapsed
      requires k < |s.pending| && entry == nodes[k] && k == Find(s.pending, entry.token)
      modifies this, sentinel, nodes
      ensures Valid() && Did(old(s), Update(entry.token, old(Counted(now)), newDelay.Us(), r), s)
      ensures lastSyncTime == now
      ensures forall n :: n in nodes ==> n in old(nodes)
    {
      ghost var s0, e := s, Counted(now);
      TakeOut(entry, k);
      ghost var out := s0.(pending := RemoveAt(s0.pending, k));
      assert s == out && Counted(now) == e;
      r := Requeue(entry, newDelay, now);
      assert Added(out, entry.token, e, newDelay.Us(), r, s);
      UpdateIsArm(s0, entry.token, e, newDelay.Us(), r, s);
    }

    method UpdateEntryByToken(token: int, newDelay: Timeval, now: Timeval) returns (ghost r: int)
      requires Valid() && now.Normal() && newDelay.Normal()
      requires Find(s.pending, token) < |s.pending| ==> Counted(now) < FOREVER - s.elapsed
      modifies this, sentinel, nodes
      ensures Valid() && Did(old(s), Update(token, old(Counted(now)), newDelay.Us(), r), s)
      ensures lastSyncTime == if Find(old(s).pending, token) < |old(s).pending| then now else old(lastSyncTime)
      ensures forall n :: n in nodes ==> n in old(nodes)
    {
      var entry := FindEntryByToken(token);
      if entry == null {
          return 0;
      }
      r := UpdateEntry(entry, newDelay, now, Find(s.pending, token));
    }

    /** timeToNextAlarm: the clock is read only when nothing is due yet. */
    method TimeToNextAlarm(now: Timeval) returns (delay: Timeval, ghost e: int)
      requires Valid() && now.Normal() && (Remaining(s, 0) != 0 ==> Counted(now) < FOREVER - s.elapsed)
      modifies `lastSyncTime, `deltas, `s, sentinel, nodes
      ensures Valid() && Did(old(s), Tick(e), s)
      ensures e == if Remaining(old(s), 0) == 0 then 0 else old(Counted(now))
      ensures lastSyncTime == if Remaining(old(s), 0) == 0 then old(lastSyncTime) else now
      ensures delay.Normal() && delay.Us() == Remaining(s, 0)
    {
      assert FitsAt(deltas[0], s, 0);
      if sentinel.next.delta == DELAY_ZERO {
        return DELAY_ZERO, 0;
      }
      e := Counted(now);
      Synchronize(now);
      assert FitsAt(deltas[0], s, 0);
      delay := sentinel.next.delta;
    }

    /** handleAlarm: returns the entry whose handler is to run, already out of the queue. */
    method HandleAlarm(now: Timeval) returns (due: DelayQueueEntry?, ghost e: int)
      requires Valid() && now.Normal() && (Remaining(s, 0) != 0 ==> Counted(now) < FOREVER - s.elapsed)
      modifies this, sentinel, nodes
      ensures Valid() && Did(old(s), Alarm(e), s)
      ensures e == if Remaining(old(s), 0) == 0 then 0 else old(Counted(now))
      ensures lastSyncTime == if Remaining(old(s), 0) == 0 then old(lastSyncTime) else now
      ensures due == null <==> s.fired == old(s.fired)
      ensures due != null ==>
        |old(s.pending)| > 0 && due.token == old(s.pending)[0].token && due in old(nodes) && due !in nodes
    {
      ghost var s0 := s;
      e := 0;
      assert FitsAt(deltas[0], s, 0);
      if sentinel.next.delta != DELAY_ZERO {
        e := Counted(now);
        Synchronize(now);
      }
      due := FireHead();
      AlarmIsTickAndFire(s0, e);
    }

    /** The second half of handleAlarm, at a standing clock. */
    method FireHead() returns (due: DelayQueueEntry?)
      requires Valid()
      modifies `nodes, `deltas, `s, nodes
      ensures Valid() && s == Step(old(s), Alarm(0))
      ensures due == null <==> s.fired == old(s.fired)
      ensures due != null ==>
        |old(s.pending)| > 0 && due.token == old(s.pending)[0].token && due in old(nodes) && due !in nodes
    {
      assert FitsAt(deltas[0], s, 0);
      due := null;
      if sentinel.next.delta == DELAY_ZERO {
        due := sentinel.next;
        ghost var t := Step(s, Alarm(0));
        TakeOut(due, 0);
        FitsSame(deltas, s, t);
        SetState(t);
      }
    }
  }

  lemma AlarmIsTickAndFire(s: State, e: int)
    ensures Step(s, Alarm(e)) == Step(Later(s, e), Alarm(0))
  {
  }
}
