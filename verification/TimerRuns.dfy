/** Time values as DelayQueue.cpp computes them: (seconds, microseconds) pairs of C `long`s,
    with the sign tests made on the value truncated to a 32-bit `int`. */
module Timeval {

  const MILLION := 1000000
  const INT_MAX := 0x7FFFFFFF

  datatype Timeval = Timeval(secs: int, usecs: int) {
    function Us(): int { secs * MILLION + usecs }

    predicate Normal() { 0 <= secs && 0 <= usecs < MILLION }
  }

  const DELAY_ZERO := Timeval(0, 0)
  const ETERNITY := Timeval(INT_MAX, MILLION - 1)

  /** The C cast `(int)x` of a 64-bit value. */
  function Int32(x: int): int {
    var low := x % 0x1_0000_0000;
    if low < 0x8000_0000 then low else low - 0x1_0000_0000
  }

  predicate Ge(a: Timeval, b: Timeval) {
    a.secs > b.secs || (a.secs == b.secs && a.usecs >= b.usecs)
  }

  /** operator+= */
  function Plus(a: Timeval, b: Timeval): Timeval {
    var s, u := a.secs + b.secs, a.usecs + b.usecs;
    if u >= MILLION then Timeval(s + 1, u - MILLION) else Timeval(s, u)
  }

  /** operator-= */
  function Minus(a: Timeval, b: Timeval): Timeval {
    var s, u := a.secs - b.secs, a.usecs - b.usecs;
    var s', u' := if Int32(u) < 0 then s - 1 else s, if Int32(u) < 0 then u + MILLION else u;
    if Int32(s') < 0 then DELAY_ZERO else Timeval(s', u')
  }

  /** The interval that scheduleDelayedTask makes of a microsecond count. */
  function FromMicroseconds(us: int): (t: Timeval)
    requires 0 <= us
    ensures t.Normal() && t.Us() == us
  {
    Timeval(us / 1000000, us % 1000000)
  }

  /** On normalised values the comparison is the comparison of microseconds. */
  lemma GeIsNumeric(a: Timeval, b: Timeval)
    requires a.Normal() && b.Normal()
    ensures Ge(a, b) <==> a.Us() >= b.Us()
  {
  }

  /** Subtracting something smaller is exact as long as the seconds fit in 31 bits; above
      that the truncating sign test may also wipe the value out. */
  lemma MinusIsNumeric(a: Timeval, b: Timeval)
    requires a.Normal() && b.Normal() && a.Us() >= b.Us()
    ensures Minus(a, b).Normal()
    ensures a.secs <= INT_MAX ==> Minus(a, b).Us() == a.Us() - b.Us()
    ensures Minus(a, b).Us() == a.Us() - b.Us() || Minus(a, b) == DELAY_ZERO
  {
  }

  /** The cast keeps what fits. */
  lemma Int32Small(x: int)
    requires -0x8000_0000 <= x < 0x8000_0000
    ensures Int32(x) == x
  {
    if x < 0 { assert (x + 0x1_0000_0000) % 0x1_0000_0000 == x + 0x1_0000_0000; }
  }

  lemma MinusFromNothing(b: Timeval)
    requires b.Normal() && b.Us() <= ETERNITY.Us()
    ensures Minus(DELAY_ZERO, b) == DELAY_ZERO
  {
    Int32Small(-b.usecs);
    Int32Small(if b.usecs > 0 then -b.secs - 1 else -b.secs);
  }

  /** The whole seconds of a microsecond count look negative when cast to `int`. */
  predicate LooksNegative(us: int) { Int32(us / MILLION) < 0 }

  /** It is wiped out exactly when the difference looks negative. */
  lemma MinusWipes(a: Timeval, b: Timeval)
    requires a.Normal() && b.Normal() && a.Us() >= b.Us()
    ensures if LooksNegative(a.Us() - b.Us()) then Minus(a, b) == DELAY_ZERO else Minus(a, b).Us() == a.Us() - b.Us()
  {
    var s, u := a.secs - b.secs, a.usecs - b.usecs;
    var s', u' := if u < 0 then s - 1 else s, if u < 0 then u + MILLION else u;
    assert a.Us() - b.Us() == s' * MILLION + u' && 0 <= u' < MILLION;
    assert (a.Us() - b.Us()) / MILLION == s';
  }

  // ---------- the clock ----------

  /** The microseconds counted between two clock readings: nothing when the clock went back or
      when the seconds between them look negative as an `int`. */
  function Forward(last: int, now: int): nat { if now < last || LooksNegative(now - last) then 0 else now - last }

  /** The two-field arithmetic of synchronize counts just that, to the microsecond. */
  lemma ElapsedIsForward(last: Timeval, now: Timeval)
    requires last.Normal() && now.Normal()
    ensures Ge(now, last) <==> last.Us() <= now.Us()
    ensures Ge(now, last) ==> Minus(now, last).Normal() && Minus(now, last).Us() == Forward(last.Us(), now.Us())
  {
    GeIsNumeric(now, last);
    if Ge(now, last) {
      MinusIsNumeric(now, last);
      MinusWipes(now, last);
    }
  }

  /** What a series of readings after `last` counts. */
  function ForwardAll(last: int, readings: seq<int>): nat
    decreases readings
  {
    if readings == [] then 0 else Forward(last, readings[0]) + ForwardAll(readings[0], readings[1..])
  }

  /** The clock neither goes back nor takes a step that looks negative. */
  predicate Steady(last: int, readings: seq<int>)
    decreases readings
  {
    readings == [] ||
      (last <= readings[0] && !LooksNegative(readings[0] - last) && Steady(readings[0], readings[1..]))
  }

  /** However often a steady clock is read, no time is lost or counted twice. */
  lemma {:induction false} ForwardAddsUp(last: int, readings: seq<int>)
    requires Steady(last, readings) && readings != []
    ensures ForwardAll(last, readings) == readings[|readings| - 1] - last
    decreases readings
  {
    if |readings| > 1 { ForwardAddsUp(readings[0], readings[1..]); }
  }
}

/** What the timer queue promises, with no links and no deltas: pending entries with
    absolute deadlines, moved by one transition per public operation. */
module TimerRuns {
  import opened Seqs
  import opened Timeval

  const FOREVER: int := ETERNITY.Us()

  /** `stamp` numbers the insertions, so that it tells apart equal deadlines. */
  datatype Item = Item(token: int, deadline: int, stamp: nat)

  /** `elapsed` is the forward clock time counted so far, in microseconds; `fired[i]` was
      fired when it stood at `firedAt[i]`. Tokens are numbered from `base + 1`. */
  datatype State = State(
    pending: seq<Item>, elapsed: int, base: int, tokens: int, stamps: nat,
    fired: seq<Item>, firedAt: seq<int>, cancelled: set<int>)

  /** One call of a public operation. `e` is the clock time the call counted, `delay` what
      the caller asked for and `r` where the walk put the entry. */
  datatype Op =
    | Tick(e: int)
    | Schedule(e: int, delay: int, r: int)
    | Update(token: int, e: int, delay: int, r: int)
    | Cancel(token: int)
    | Alarm(e: int)

  function Initial(base: int): State {
    State([], 0, base, base, 0, [], [], {})
  }

  ghost predicate Before(a: Item, b: Item) {
    a.deadline < b.deadline || (a.deadline == b.deadline && a.stamp < b.stamp)
  }

  ghost predicate Ordered(s: seq<Item>) {
    forall i, j :: 0 <= i < j < |s| ==> Before(s[i], s[j])
  }

  function Max0(x: int): int { if x < 0 then 0 else x }

  /** The time left for entry i; entry |pending| is the sentinel. */
  function Remaining(s: State, i: int): int
    requires 0 <= i <= |s.pending|
  {
    if i == |s.pending| then FOREVER - s.elapsed else Max0(s.pending[i].deadline - s.elapsed)
  }

  function RemainingBefore(s: State, i: int): int
    requires 0 <= i <= |s.pending|
  {
    if i == 0 then 0 else Remaining(s, i - 1)
  }

  function FindFrom(s: seq<Item>, token: int, i: nat): (k: nat)
    requires i <= |s|
    ensures i <= k <= |s|
    ensures k < |s| ==> s[k].token == token
    ensures forall j :: i <= j < k ==> s[j].token != token
    decreases |s| - i
  {
    if i == |s| || s[i].token == token then i else FindFrom(s, token, i + 1)
  }

  /** The place of a token in the queue, or |s|. */
  function Find(s: seq<Item>, token: int): nat { FindFrom(s, token, 0) }

  function RankFrom(s: seq<Item>, deadline: int, i: nat): (k: nat)
    requires i <= |s|
    ensures i <= k <= |s|
    ensures forall j :: i <= j < k ==> s[j].deadline <= deadline
    ensures k < |s| ==> s[k].deadline > deadline
    decreases |s| - i
  {
    if i == |s| || s[i].deadline > deadline then i else RankFrom(s, deadline, i + 1)
  }

  /** The number of leading entries due no later than `deadline`. */
  function Rank(s: seq<Item>, deadline: int): nat { RankFrom(s, deadline, 0) }

  /** Before the first entry due later, hence after every entry due at the same time. */
  function Insert(s: seq<Item>, x: Item): seq<Item> {
    InsertAt(s, Rank(s, x.deadline), x)
  }

  /** Where the walk of addEntry may put an entry: at the requested delay when that is
      below everything the deltas sum to, and short of whole extra rounds otherwise. */
  ghost predicate PlacedAt(delay: int, total: int, r: int) {
    && 0 <= r < total
    && (0 <= delay <= FOREVER ==> r == delay % total)
  }

  /** synchronize ends only when the clock step stays below the sum of all deltas; an update of
      a token that is not pending reads no clock. */
  ghost predicate Enabled(s: State, op: Op) {
    match op
    case Tick(e) => 0 <= e < FOREVER - s.elapsed
    case Schedule(e, delay, r) =>
      0 <= e < FOREVER - s.elapsed && 0 <= delay && PlacedAt(delay, FOREVER - s.elapsed - e, r)
    case Update(token, e, delay, r) =>
      0 <= delay && (Find(s.pending, token) < |s.pending| ==>
        0 <= e < FOREVER - s.elapsed && PlacedAt(delay, FOREVER - s.elapsed - e, r))
    case Cancel(token) => true
    case Alarm(e) => 0 <= e < FOREVER - s.elapsed
  }

  function Step(s: State, op: Op): State {
    match op
    case Tick(e) => s.(elapsed := s.elapsed + e)
    case Schedule(e, delay, r) =>
      s.(elapsed := s.elapsed + e, tokens := s.tokens + 1, stamps := s.stamps + 1,
         pending := Insert(s.pending, Item(s.tokens + 1, s.elapsed + e + r, s.stamps)))
    case Update(token, e, delay, r) =>
      var k := Find(s.pending, token);
      if k == |s.pending| then s else
        s.(elapsed := s.elapsed + e, stamps := s.stamps + 1,
           pending := Insert(RemoveAt(s.pending, k), Item(token, s.elapsed + e + r, s.stamps)))
    case Cancel(token) =>
      var k := Find(s.pending, token);
      if k == |s.pending| then s else
        s.(pending := RemoveAt(s.pending, k), cancelled := s.cancelled + {token})
    case Alarm(e) =>
      var s' := s.(elapsed := s.elapsed + e);
      if s'.pending == [] || Remaining(s', 0) != 0 then s' else
        s'.(pending := s'.pending[1..], fired := s'.fired + [s'.pending[0]],
            firedAt := s'.firedAt + [s'.elapsed])
  }

  ghost predicate Did(s: State, op: Op, s': State) {
    Enabled(s, op) && s' == Step(s, op)
  }

  ghost predicate Legal(s: State, ops: seq<Op>)
    decreases |ops|
  {
    ops == [] || (Enabled(s, ops[0]) && Legal(Step(s, ops[0]), ops[1..]))
  }

  function Run(s: State, ops: seq<Op>): State
    decreases |ops|
  {
    if ops == [] then s else Run(Step(s, ops[0]), ops[1..])
  }

  /** Everything that was ever armed and neither cancelled nor re-armed since. */
  function History(s: State): seq<Item> { s.fired + s.pending }

  ghost predicate Holds(s: seq<Item>, token: int) {
    exists i :: 0 <= i < |s| && s[i].token == token
  }

  ghost predicate Inv(s: State) {
    && 0 <= s.elapsed < FOREVER
    && s.base <= s.tokens
    && |s.fired| == |s.firedAt|
    && Ordered(History(s))
    && (forall i :: 0 <= i < |History(s)| ==> ItemOk(s, History(s)[i]))
    && DistinctTokens(History(s))
    && (forall i :: 0 <= i < |s.fired| ==> s.fired[i].deadline <= s.firedAt[i] <= s.elapsed)
    && (forall t :: s.base < t <= s.tokens ==> Holds(History(s), t) || t in s.cancelled)
    && (forall t :: t in s.cancelled ==> s.base < t <= s.tokens)
  }

  ghost predicate ItemOk(s: State, x: Item) {
    && x.stamp < s.stamps && x.deadline < FOREVER
    && s.base < x.token <= s.tokens && x.token !in s.cancelled
  }

  ghost predicate DistinctTokens(h: seq<Item>) {
    forall i, j :: 0 <= i < j < |h| ==> h[i].token != h[j].token
  }

  // ---------- order ----------

  lemma OrderedSuffix(done: seq<Item>, s: seq<Item>)
    requires Ordered(done + s)
    ensures Ordered(s)
  {
    var h := done + s;
    forall i, j | 0 <= i < j < |s| ensures Before(s[i], s[j]) {
      assert s[i] == h[|done| + i] && s[j] == h[|done| + j];
    }
  }

  lemma RankSplits(s: seq<Item>, deadline: int)
    requires Ordered(s)
    ensures forall i :: Rank(s, deadline) <= i < |s| ==> s[i].deadline > deadline
  {
    var k := Rank(s, deadline);
    forall i | k <= i < |s| ensures s[i].deadline > deadline {
      if k < i { assert Before(s[k], s[i]); }
    }
  }

  lemma OrderedInsertAt(h: seq<Item>, c: nat, x: Item)
    requires Ordered(h) && c <= |h|
    requires forall i :: 0 <= i < c ==> Before(h[i], x)
    requires forall i :: c <= i < |h| ==> Before(x, h[i])
    ensures Ordered(InsertAt(h, c, x))
  {
    var g := InsertAt(h, c, x);
    forall i, j | 0 <= i < j < |g| ensures Before(g[i], g[j]) {
      assert i != c ==> g[i] == h[if i < c then i else i - 1];
      assert j != c ==> g[j] == h[if j < c then j else j - 1];
    }
  }

  /** Inserting after a prefix that is already due keeps the whole history ordered. */
  lemma InsertKeepsOrder(done: seq<Item>, s: seq<Item>, x: Item)
    requires Ordered(done + s)
    requires forall i :: 0 <= i < |done| ==> done[i].deadline <= x.deadline
    requires forall i :: 0 <= i < |done + s| ==> (done + s)[i].stamp < x.stamp
    ensures Ordered(done + Insert(s, x))
  {
    var c := |done| + Rank(s, x.deadline);
    OrderedSuffix(done, s);
    RankSplits(s, x.deadline);
    assert done + Insert(s, x) == InsertAt(done + s, c, x);
    OrderedInsertAt(done + s, c, x);
  }

  // ---------- tokens ----------

  lemma InsertAtHolds(h: seq<Item>, c: nat, x: Item, t: int)
    requires c <= |h|
    ensures Holds(InsertAt(h, c, x), t) <==> Holds(h, t) || x.token == t
  {
    var g := InsertAt(h, c, x);
    if i :| 0 <= i < |h| && h[i].token == t {
      assert g[if i < c then i else i + 1].token == t;
    }
    if i :| 0 <= i < |g| && g[i].token == t && i != c {
      assert h[if i < c then i else i - 1].token == t;
    }
    assert g[c] == x;
  }

  lemma RemoveAtHolds(h: seq<Item>, c: nat, t: int)
    requires c < |h| && DistinctTokens(h)
    ensures Holds(RemoveAt(h, c), t) <==> Holds(h, t) && t != h[c].token
  {
    var g := RemoveAt(h, c);
    if i :| 0 <= i < |h| && h[i].token == t && i != c {
      assert g[if i < c then i else i - 1].token == t;
    }
    if i :| 0 <= i < |g| && g[i].token == t {
      assert h[if i < c then i else i + 1].token == t;
    }
  }

  // ---------- the invariant ----------

  /** The invariant while `token` is out of the queue, before its (re-)insertion. */
  ghost predicate CutInv(s: State, token: int) {
    Inv(s.(cancelled := s.cancelled + {token})) && token !in s.cancelled
  }

  function Arm(s: State, x: Item): State {
    s.(pending := Insert(s.pending, x), stamps := s.stamps + 1)
  }

  lemma InsertAtDistinct(h: seq<Item>, c: nat, x: Item)
    requires c <= |h| && DistinctTokens(h)
    requires forall i :: 0 <= i < |h| ==> h[i].token != x.token
    ensures DistinctTokens(InsertAt(h, c, x))
  {
    var g := InsertAt(h, c, x);
    forall i, j | 0 <= i < j < |g| ensures g[i].token != g[j].token {
      assert i != c ==> g[i] == h[if i < c then i else i - 1];
      assert j != c ==> g[j] == h[if j < c then j else j - 1];
    }
  }

  lemma ArmedItem(s: State, x: Item, i: nat)
    requires CutInv(s, x.token) && x.stamp == s.stamps && x.deadline < FOREVER
    requires i < |History(s)|
    ensures ItemOk(Arm(s, x), History(s)[i]) && History(s)[i].token != x.token
  {
    var cut := s.(cancelled := s.cancelled + {x.token});
    assert History(cut) == History(s);
    assert ItemOk(cut, History(cut)[i]);
  }

  lemma ArmedItems(s: State, x: Item)
    requires CutInv(s, x.token) && x.stamp == s.stamps && s.elapsed <= x.deadline < FOREVER
    ensures var h' := History(Arm(s, x));
      (forall i :: 0 <= i < |h'| ==> ItemOk(Arm(s, x), h'[i])) && DistinctTokens(h')
  {
    var cut, s' := s.(cancelled := s.cancelled + {x.token}), Arm(s, x);
    var h, c := History(s), |s.fired| + Rank(s.pending, x.deadline);
    var g := InsertAt(h, c, x);
    assert History(s') == g;
    assert DistinctTokens(h) by { assert History(cut) == h; }
    forall i | 0 <= i < |h| ensures ItemOk(s', h[i]) && h[i].token != x.token { ArmedItem(s, x, i); }
    InsertAtDistinct(h, c, x);
    forall i | 0 <= i < |g| ensures ItemOk(s', g[i]) {
      if i != c { assert g[i] == h[if i < c then i else i - 1]; }
    }
  }

  /** A token that is out of the queue enters with a deadline that is not past. */
  lemma ArmKeepsInv(s: State, x: Item)
    requires CutInv(s, x.token) && x.stamp == s.stamps && s.elapsed <= x.deadline < FOREVER
    ensures Inv(Arm(s, x))
  {
    var cut, s' := s.(cancelled := s.cancelled + {x.token}), Arm(s, x);
    var h, c := History(s), |s.fired| + Rank(s.pending, x.deadline);
    assert History(s') == InsertAt(h, c, x) && History(cut) == h;
    forall i | 0 <= i < |s.fired| ensures s.fired[i].deadline <= x.deadline { assert s.fired[i] == h[i]; }
    forall i | 0 <= i < |h| ensures h[i].stamp < x.stamp { assert ItemOk(cut, h[i]); }
    InsertKeepsOrder(s.fired, s.pending, x);
    ArmedItems(s, x);
    forall t ensures Holds(History(s'), t) <==> Holds(h, t) || x.token == t { InsertAtHolds(h, c, x, t); }
  }

  lemma RemovedOrder(h: seq<Item>, c: nat)
    requires c < |h| && Ordered(h) && DistinctTokens(h)
    ensures Ordered(RemoveAt(h, c)) && DistinctTokens(RemoveAt(h, c))
    ensures forall i :: 0 <= i < |h| - 1 ==> RemoveAt(h, c)[i] in h && RemoveAt(h, c)[i].token != h[c].token
  {
    var g := RemoveAt(h, c);
    forall i | 0 <= i < |g| ensures g[i] in h && g[i].token != h[c].token {
      assert g[i] == h[if i < c then i else i + 1];
    }
  }

  lemma RemoveKeepsInv(s: State, k: nat)
    requires Inv(s) && k < |s.pending|
    ensures CutInv(s.(pending := RemoveAt(s.pending, k)), s.pending[k].token)
  {
    var h, c, t := History(s), |s.fired| + k, s.pending[k].token;
    var s' := s.(pending := RemoveAt(s.pending, k), cancelled := s.cancelled + {t});
    assert h[c] == s.pending[k] && ItemOk(s, h[c]);
    assert History(s') == RemoveAt(h, c);
    RemovedOrder(h, c);
    forall i | 0 <= i < |h| - 1 ensures ItemOk(s', RemoveAt(h, c)[i]) {
      var j :| 0 <= j < |h| && h[j] == RemoveAt(h, c)[i];
      assert ItemOk(s, h[j]);
    }
    forall u ensures Holds(History(s'), u) <==> Holds(h, u) && u != t { RemoveAtHolds(h, c, u); }
  }

  lemma TickKeepsInv(s: State, e: int)
    requires Inv(s) && 0 <= e < FOREVER - s.elapsed
    ensures Inv(s.(elapsed := s.elapsed + e))
  {
    var s' := s.(elapsed := s.elapsed + e);
    assert History(s') == History(s);
    forall i | 0 <= i < |History(s)| ensures ItemOk(s', History(s)[i]) { assert ItemOk(s, History(s)[i]); }
  }

  lemma AlarmKeepsInv(s: State, e: int)
    requires Inv(s) && 0 <= e < FOREVER - s.elapsed
    ensures Inv(Step(s, Alarm(e)))
  {
    var s' := Step(s, Alarm(e));
    TickKeepsInv(s, e);
    assert History(s') == History(s);
    forall i | 0 <= i < |History(s)| ensures ItemOk(s', History(s)[i]) { assert ItemOk(s, History(s)[i]); }
  }

  lemma ScheduleKeepsInv(s: State, e: int, delay: int, r: int)
    requires Inv(s) && Enabled(s, Schedule(e, delay, r))
    ensures Inv(Step(s, Schedule(e, delay, r)))
  {
    TickKeepsInv(s, e);
    var s1 := s.(elapsed := s.elapsed + e);
    FreshToken(s1);
    ArmKeepsInv(s1.(tokens := s.tokens + 1), Item(s.tokens + 1, s.elapsed + e + r, s.stamps));
  }

  lemma {:induction false} UpdateKeepsInv(s: State, token: int, e: int, delay: int, r: int)
    requires Inv(s) && Enabled(s, Update(token, e, delay, r))
    ensures Inv(Step(s, Update(token, e, delay, r)))
  {
    var k := Find(s.pending, token);
    if k < |s.pending| {
      TickKeepsInv(s, e);
      var s1 := s.(elapsed := s.elapsed + e);
      RemoveKeepsInv(s1, k);
      var cut, x := s1.(pending := RemoveAt(s.pending, k)), Item(token, s.elapsed + e + r, s.stamps);
      assert Step(s, Update(token, e, delay, r)) == Arm(cut, x);
      ArmKeepsInv(cut, x);
    }
  }

  lemma StepKeepsInv(s: State, op: Op)
    requires Inv(s) && Enabled(s, op)
    ensures Inv(Step(s, op))
  {
    match op
    case Tick(e) => TickKeepsInv(s, e);
    case Schedule(e, delay, r) => ScheduleKeepsInv(s, e, delay, r);
    case Update(token, e, delay, r) => UpdateKeepsInv(s, token, e, delay, r);
    case Cancel(token) =>
      var k := Find(s.pending, token);
      if k < |s.pending| { RemoveKeepsInv(s, k); }
    case Alarm(e) => AlarmKeepsInv(s, e);
  }

  lemma FreshToken(s: State)
    requires Inv(s)
    ensures CutInv(s.(tokens := s.tokens + 1), s.tokens + 1)
  {
    var s' := s.(tokens := s.tokens + 1, cancelled := s.cancelled + {s.tokens + 1});
    assert History(s') == History(s);
    forall i | 0 <= i < |History(s)| ensures ItemOk(s', History(s)[i]) { assert ItemOk(s, History(s)[i]); }
  }

  /** Every run: tokens stay unique, and everything fired or still pending is, in that
      order, the stable sort by deadline of what was armed and not withdrawn. */
  lemma {:induction false} RunKeepsInv(s: State, ops: seq<Op>)
    requires Inv(s) && Legal(s, ops)
    ensures Inv(Run(s, ops)) && Run(s, ops).base == s.base
    decreases |ops|
  {
    if ops != [] {
      StepKeepsInv(s, ops[0]);
      RunKeepsInv(Step(s, ops[0]), ops[1..]);
    }
  }

  // ---------- what the invariant says ----------

  ghost predicate Pending(s: State, token: int) { Holds(s.pending, token) }
  ghost predicate Fired(s: State, token: int) { Holds(s.fired, token) }

  lemma HoldsSplit(a: seq<Item>, b: seq<Item>, t: int)
    ensures Holds(a + b, t) <==> Holds(a, t) || Holds(b, t)
  {
    if i :| 0 <= i < |a| && a[i].token == t { assert (a + b)[i].token == t; }
    if i :| 0 <= i < |b| && b[i].token == t { assert (a + b)[|a| + i].token == t; }
    if i :| 0 <= i < |a + b| && (a + b)[i].token == t {
      if i < |a| { assert a[i].token == t; } else { assert b[i - |a|].token == t; }
    }
  }

  /** Each issued token is in exactly one of the three fates. */
  ghost predicate OneFate(s: State, token: int) {
    && (s.base < token <= s.tokens <==> Pending(s, token) || Fired(s, token) || token in s.cancelled)
    && !(Pending(s, token) && Fired(s, token))
    && !((Pending(s, token) || Fired(s, token)) && token in s.cancelled)
  }

  lemma InvGivesOneFate(s: State, token: int)
    requires Inv(s)
    ensures OneFate(s, token)
  {
    var h := History(s);
    HoldsSplit(s.fired, s.pending, token);
    if Holds(h, token) {
      var i :| 0 <= i < |h| && h[i].token == token;
      assert ItemOk(s, h[i]);
    }
    forall i, j | 0 <= i < |s.fired| && 0 <= j < |s.pending|
      ensures s.fired[i].token != s.pending[j].token
    {
      assert h[i].token != h[|s.fired| + j].token;
    }
  }

  /** In every run each token issued since the start is in exactly one of three places. */
  lemma TokenFate(base: int, ops: seq<Op>, token: int)
    requires Legal(Initial(base), ops)
    ensures OneFate(Run(Initial(base), ops), token) && Run(Initial(base), ops).base == base
  {
    RunKeepsInv(Initial(base), ops);
    InvGivesOneFate(Run(Initial(base), ops), token);
  }

  /** In every run entries fire in stable deadline order, each at most once, and never
      before they are due. */
  lemma FiringOrder(base: int, ops: seq<Op>, i: nat, j: nat)
    requires Legal(Initial(base), ops)
    ensures var s := Run(Initial(base), ops);
      && |s.fired| == |s.firedAt|
      && (i < |s.fired| ==> s.fired[i].deadline <= s.firedAt[i])
      && (i < j < |s.fired| ==> s.fired[i].token != s.fired[j].token && Before(s.fired[i], s.fired[j]))
      && (i < |s.fired| && j < |s.pending| ==> Before(s.fired[i], s.pending[j]))
  {
    RunKeepsInv(Initial(base), ops);
    var s := Run(Initial(base), ops);
    var h := History(s);
    assert i < |s.fired| ==> s.fired[i] == h[i];
    assert j < |s.fired| ==> s.fired[j] == h[j];
    assert j < |s.pending| ==> s.pending[j] == h[|s.fired| + j];
  }

  lemma SameHead(a: seq<Item>, b: seq<Item>)
    requires Ordered(a) && Ordered(b) && multiset(a) == multiset(b) && a != []
    ensures b != [] && a[0] == b[0]
  {
    assert a[0] in multiset(a);
    assert a[0] in b;
    assert b[0] in multiset(b);
    assert b[0] in a;
    var i :| 0 <= i < |a| && a[i] == b[0];
    var j :| 0 <= j < |b| && b[j] == a[0];
  }

  /** A set of items has only one arrangement by deadline and insertion: the queue order
      is determined by what was armed. */
  lemma {:induction false} OrderIsUnique(a: seq<Item>, b: seq<Item>)
    requires Ordered(a) && Ordered(b) && multiset(a) == multiset(b)
    ensures a == b
    decreases |a|
  {
    if a == [] {
      assert |multiset(b)| == |multiset(a)| == 0;
    } else {
      SameHead(a, b);
      assert a == [a[0]] + a[1..] && b == [b[0]] + b[1..];
      assert multiset(a[1..]) == multiset(a) - multiset{a[0]};
      assert multiset(b[1..]) == multiset(b) - multiset{b[0]};
      OrderIsUnique(a[1..], b[1..]);
    }
  }

  /** Cancelling or updating a token that fired, was cancelled or never existed does nothing. */
  lemma StaleTokenIgnored(s: State, token: int, e: int, delay: int, r: int)
    requires Inv(s)
    requires Fired(s, token) || token in s.cancelled || !(s.base < token <= s.tokens)
    ensures Step(s, Cancel(token)) == s && Step(s, Update(token, e, delay, r)) == s
  {
    InvGivesOneFate(s, token);
    assert !Pending(s, token);
  }

  lemma SmallMod(x: int, m: int)
    requires 0 <= x < m
    ensures x % m == x
  {
  }

  /** Time left for a token that is pending. */
  function TimeLeft(s: State, token: int): int
    requires Pending(s, token)
  {
    Remaining(s, Find(s.pending, token))
  }

  lemma {:induction false} FindIs(s: seq<Item>, i: nat)
    requires i < |s| && DistinctTokens(s)
    ensures Find(s, s[i].token) == i
  {
    var k := Find(s, s[i].token);
    assert i < k || k == i || k < i;
  }

  lemma PendingDistinct(s: State)
    requires Inv(s)
    ensures DistinctTokens(s.pending)
  {
    SuffixDistinct(s.fired, s.pending);
  }

  lemma SuffixDistinct(done: seq<Item>, s: seq<Item>)
    requires DistinctTokens(done + s)
    ensures DistinctTokens(s)
  {
    forall i, j | 0 <= i < j < |s| ensures s[i].token != s[j].token {
      assert (done + s)[|done| + i] == s[i] && (done + s)[|done| + j] == s[j];
    }
  }

  /** A newly scheduled entry is pending, due in the time the walk placed it at. */
  lemma ScheduledDue(s: State, e: int, delay: int, r: int)
    requires Inv(s) && Enabled(s, Schedule(e, delay, r))
    ensures var s' := Step(s, Schedule(e, delay, r)); Pending(s', s'.tokens) && TimeLeft(s', s'.tokens) == r
  {
    var s', x := Step(s, Schedule(e, delay, r)), Item(s.tokens + 1, s.elapsed + e + r, s.stamps);
    var k := Rank(s.pending, x.deadline);
    StepKeepsInv(s, Schedule(e, delay, r));
    PendingDistinct(s');
    assert s'.pending[k] == x;
    FindIs(s'.pending, k);
  }

  lemma PlacedWhereAsked(delay: nat, total: int, r: int)
    requires 0 < total <= FOREVER && PlacedAt(delay, total, r)
    ensures r == delay <==> delay < total
  {
    if delay < total { SmallMod(delay, total); }
  }

  /** In every run a request is honoured if and only if it is below the sum of all deltas at
      that time. */
  lemma {:induction false} HonouredExactlyBelowTotal(base: int, ops: seq<Op>, e: int, delay: int, r: int)
    requires Legal(Initial(base), ops) && Enabled(Run(Initial(base), ops), Schedule(e, delay, r))
    ensures var s := Run(Initial(base), ops);
      var s' := Step(s, Schedule(e, delay, r));
      && Pending(s', s'.tokens)
      && (TimeLeft(s', s'.tokens) == delay <==> delay < FOREVER - s'.elapsed)
  {
    RunKeepsInv(Initial(base), ops);
    var s := Run(Initial(base), ops);
    ScheduledDue(s, e, delay, r);
    PlacedWhereAsked(delay, FOREVER - s.elapsed - e, r);
  }

  /** And so is the new delay of an update, for an entry that is still pending. */
  lemma {:induction false} UpdateHonouredExactly(
    base: int, ops: seq<Op>, token: int, e: int, delay: int, r: int)
    requires Legal(Initial(base), ops) && Pending(Run(Initial(base), ops), token)
    requires Enabled(Run(Initial(base), ops), Update(token, e, delay, r))
    ensures var s' := Step(Run(Initial(base), ops), Update(token, e, delay, r));
      && Pending(s', token)
      && (TimeLeft(s', token) == delay <==> delay < FOREVER - s'.elapsed)
  {
    RunKeepsInv(Initial(base), ops);
    var s := Run(Initial(base), ops);
    FoundIfPending(s.pending, token);
    UpdatedDue(s, token, e, delay, r);
    PlacedWhereAsked(delay, FOREVER - s.elapsed - e, r);
  }

  lemma UpdatedDue(s: State, token: int, e: int, delay: int, r: int)
    requires Inv(s) && Enabled(s, Update(token, e, delay, r)) && Find(s.pending, token) < |s.pending|
    ensures var s' := Step(s, Update(token, e, delay, r));
      s'.elapsed == s.elapsed + e && Pending(s', token) && TimeLeft(s', token) == r
  {
    var x, rest := Item(token, s.elapsed + e + r, s.stamps), RemoveAt(s.pending, Find(s.pending, token));
    var s' := Step(s, Update(token, e, delay, r));
    StepKeepsInv(s, Update(token, e, delay, r));
    assert s'.pending[Rank(rest, x.deadline)] == x;
    StaysAt(s', Rank(rest, x.deadline), x);
  }

  /** Ten seconds after the start, a delay of ETERNITY comes due in ten seconds: the run exists,
      and there is no other outcome. */
  lemma LateEternityWraps(base: int, r: int)
    requires r == 10_000_000 || Legal(Initial(base), [Tick(10_000_000), Schedule(0, FOREVER, r)])
    ensures Legal(Initial(base), [Tick(10_000_000), Schedule(0, FOREVER, r)])
    ensures var s := Run(Initial(base), [Tick(10_000_000), Schedule(0, FOREVER, r)]);
      Pending(s, base + 1) && TimeLeft(s, base + 1) == 10_000_000
  {
    var ops := [Tick(10_000_000), Schedule(0, FOREVER, r)];
    var s := Step(Initial(base), ops[0]);
    assert ops[1..] == [ops[1]] && ops[1..][1..] == [];
    TickKeepsInv(Initial(base), 10_000_000);
    ScheduledDue(s, 0, FOREVER, r);
    assert Run(s, ops[1..]) == Step(s, ops[1]);
  }

  /** The clock time that a step counts. */
  function Counts(s: State, op: Op): int { Step(s, op).elapsed - s.elapsed }

  /** No call moves an entry that it is not about: every other entry only loses the clock time
      that the call counted, unless an alarm fires it. */
  lemma OthersUntouched(s: State, op: Op, token: int)
    requires Inv(s) && Enabled(s, op) && Pending(s, token) && LeavesAlone(op, token)
    ensures var s' := Step(s, op);
      if op.Alarm? && Find(s.pending, token) == 0 && TimeLeft(s, token) <= op.e then Fired(s', token)
      else Pending(s', token) && TimeLeft(s', token) == Max0(TimeLeft(s, token) - Counts(s, op))
  {
    var i := Find(s.pending, token);
    FoundIfPending(s.pending, token);
    StepKeepsInv(s, op);
    if op.Alarm? && i == 0 && TimeLeft(s, token) <= op.e {
      assert Step(s, op).fired[|s.fired|] == s.pending[0];
    } else {
      var j := StaysSomewhere(s, op, i);
      StaysAt(Step(s, op), j, s.pending[i]);
    }
  }

  /** Over any run an entry that nothing updates or cancels has its time left reduced by exactly
      the clock time counted, until it fires, which is not before that time is over. */
  lemma {:induction false} TimeRunsDown(s: State, ops: seq<Op>, token: int)
    requires Inv(s) && Legal(s, ops) && Pending(s, token)
    requires forall i :: 0 <= i < |ops| ==> LeavesAlone(ops[i], token)
    ensures var s' := Run(s, ops);
      if Fired(s', token) then s'.elapsed - s.elapsed >= TimeLeft(s, token)
      else Pending(s', token) && TimeLeft(s', token) == Max0(TimeLeft(s, token) - (s'.elapsed - s.elapsed))
    decreases |ops|
  {
    if ops == [] {
      InvGivesOneFate(s, token);
    } else {
      var s1 := Step(s, ops[0]);
      OthersUntouched(s, ops[0], token);
      StepKeepsInv(s, ops[0]);
      RunForward(s1, ops[1..]);
      InvGivesOneFate(s1, token);
      if Fired(s1, token) { FiredStays(s1, ops[1..], token); } else { TimeRunsDown(s1, ops[1..], token); }
    }
  }

  lemma {:induction false} RunForward(s: State, ops: seq<Op>)
    requires Inv(s) && Legal(s, ops)
    ensures Run(s, ops).elapsed >= s.elapsed
    decreases |ops|
  {
    if ops != [] {
      StepKeepsInv(s, ops[0]);
      RunForward(Step(s, ops[0]), ops[1..]);
    }
  }

  lemma FoundIfPending(s: seq<Item>, token: int)
    requires Holds(s, token)
    ensures Find(s, token) < |s|
  {
  }

  lemma InsertedStays(s: seq<Item>, x: Item, i: nat) returns (j: nat)
    requires i < |s|
    ensures j < |Insert(s, x)| && Insert(s, x)[j] == s[i]
  {
    j := if i < Rank(s, x.deadline) then i else i + 1;
  }

  /** Where the entry at place i stands once the one at place c is out. */
  lemma RemovedStays(s: seq<Item>, c: nat, i: nat) returns (j: nat)
    requires c < |s| && i < |s| && i != c
    ensures j < |RemoveAt(s, c)| && RemoveAt(s, c)[j] == s[i]
  {
    j := if i < c then i else i - 1;
  }

  lemma UpdateStays(s: State, t: int, e: int, delay: int, r: int, i: nat) returns (j: nat)
    requires i < |s.pending| && t != s.pending[i].token
    ensures var s' := Step(s, Update(t, e, delay, r)); j < |s'.pending| && s'.pending[j] == s.pending[i]
  {
    j := i;
    var c := Find(s.pending, t);
    if c < |s.pending| {
      var i' := RemovedStays(s.pending, c, i);
      j := InsertedStays(RemoveAt(s.pending, c), Item(t, s.elapsed + e + r, s.stamps), i');
    }
  }

  lemma AlarmStays(s: State, e: int, i: nat) returns (j: nat)
    requires i < |s.pending| && (i > 0 || Remaining(s.(elapsed := s.elapsed + e), 0) != 0)
    ensures var s' := Step(s, Alarm(e)); j < |s'.pending| && s'.pending[j] == s.pending[i]
  {
    j := if Remaining(s.(elapsed := s.elapsed + e), 0) == 0 then i - 1 else i;
  }

  /** The new place of the entry that stands at place i. */
  lemma StaysSomewhere(s: State, op: Op, i: nat) returns (j: nat)
    requires i < |s.pending| && LeavesAlone(op, s.pending[i].token)
    requires op.Alarm? ==> i > 0 || Remaining(s.(elapsed := s.elapsed + op.e), 0) != 0
    ensures j < |Step(s, op).pending| && Step(s, op).pending[j] == s.pending[i]
  {
    match op
    case Tick(_) => j := i;
    case Schedule(e, _, r) =>
      j := InsertedStays(s.pending, Item(s.tokens + 1, s.elapsed + e + r, s.stamps), i);
    case Update(t, e, delay, r) => j := UpdateStays(s, t, e, delay, r, i);
    case Cancel(t) =>
      j := i;
      if Find(s.pending, t) < |s.pending| { j := RemovedStays(s.pending, Find(s.pending, t), i); }
    case Alarm(e) => j := AlarmStays(s, e, i);
  }

  /** Finding the entry that is known to stand at place k. */
  lemma StaysAt(s': State, k: nat, x: Item)
    requires Inv(s') && k < |s'.pending| && s'.pending[k] == x
    ensures Pending(s', x.token) && Find(s'.pending, x.token) == k
  {
    PendingDistinct(s');
    FindIs(s'.pending, k);
  }

  // ---------- liveness ----------

  ghost predicate LeavesAlone(op: Op, token: int) {
    (op.Update? || op.Cancel?) ==> op.token != token
  }

  function Alarms(ops: seq<Op>): nat {
    if ops == [] then 0 else (if ops[0].Alarm? then 1 else 0) + Alarms(ops[1..])
  }

  lemma UpdateOvertakesNothing(s: State, op: Op, token: int)
    requires Inv(s) && Enabled(s, op) && op.Update? && op.token != token
    requires Pending(s, token) && TimeLeft(s, token) == 0
    ensures var s' := Step(s, op);
      Pending(s', token) && TimeLeft(s', token) == 0 && Find(s'.pending, token) <= Find(s.pending, token)
  {
    UpdateKeepsInv(s, op.token, op.e, op.delay, op.r);
    var k, c := Find(s.pending, token), Find(s.pending, op.token);
    if c < |s.pending| {
      var x, cut := s.pending[k], RemoveAt(s.pending, c);
      var k' := if k < c then k else k - 1;
      assert cut[k'] == x;
      OrderedSuffix(s.fired, s.pending);
      PendingDistinct(s);
      RemovedOrder(s.pending, c);
      RankSplits(cut, s.elapsed + op.e + op.r);
      StaysAt(Step(s, op), k', x);
    }
  }

  /** An entry that is due is never overtaken: an alarm brings it one place forward or
      fires it, and no other call puts anything before it. */
  lemma DueAdvances(s: State, op: Op, token: int)
    requires Inv(s) && Enabled(s, op) && LeavesAlone(op, token)
    requires Pending(s, token) && TimeLeft(s, token) == 0
    ensures var s', k := Step(s, op), Find(s.pending, token);
      if op.Alarm? && k == 0 then Fired(s', token)
      else Pending(s', token) && TimeLeft(s', token) == 0 &&
           Find(s'.pending, token) <= if op.Alarm? then k - 1 else k
  {
    var s', k := Step(s, op), Find(s.pending, token);
    var x := s.pending[k];
    StepKeepsInv(s, op);
    OrderedSuffix(s.fired, s.pending);
    match op
    case Tick(_) =>
    case Schedule(e, _, r) =>
      RankSplits(s.pending, s.elapsed + e + r);
      StaysAt(s', k, x);
    case Update(_, _, _, _) => UpdateOvertakesNothing(s, op, token);
    case Cancel(t) =>
      var c := Find(s.pending, t);
      if c < |s.pending| { StaysAt(s', if k < c then k else k - 1, x); }
    case Alarm(e) =>
      if k == 0 {
        assert s'.fired[|s.fired|] == x;
      } else {
        assert Before(s.pending[0], x);
        StaysAt(s', k - 1, x);
      }
  }

  lemma {:induction false} FiredStays(s: State, ops: seq<Op>, token: int)
    requires Fired(s, token)
    ensures Fired(Run(s, ops), token)
    decreases |ops|
  {
    if ops != [] {
      var i :| 0 <= i < |s.fired| && s.fired[i].token == token;
      assert Step(s, ops[0]).fired[i].token == token;
      FiredStays(Step(s, ops[0]), ops[1..], token);
    }
  }

  /** No starvation: an entry that is due fires within as many alarms as its place in the
      queue, whatever else is scheduled, updated or cancelled in between. */
  lemma {:induction false} DueFires(s: State, ops: seq<Op>, token: int)
    requires Inv(s) && Legal(s, ops) && Pending(s, token) && TimeLeft(s, token) == 0
    requires forall i :: 0 <= i < |ops| ==> LeavesAlone(ops[i], token)
    requires Alarms(ops) > Find(s.pending, token)
    ensures Fired(Run(s, ops), token)
    decreases |ops|
  {
    var s' := Step(s, ops[0]);
    DueAdvances(s, ops[0], token);
    StepKeepsInv(s, ops[0]);
    if ops[0].Alarm? && Find(s.pending, token) == 0 {
      FiredStays(s', ops[1..], token);
    } else {
      DueFires(s', ops[1..], token);
    }
  }
}
