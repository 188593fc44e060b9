/** tem.c as a state machine: any number of sending threads and one TEM thread, moving one
    critical section, test or callback boundary at a time. */
module TemProtocol {

  const U32 := 0x1_0000_0000
  const U16 := 0x1_0000
  const FOREVER_MS := 0xFFFF_FFFF

  // ---------- events and the queue ----------

  datatype Kind = DoUserData | Drop | DropEnd | Exit | StartMonitor | StartOneShot | Stop {
    predicate Bracket() { Drop? || DropEnd? }
  }

  /** `size` is u32UserDataSize, `bytes` is u32BufferRealSize; `id` tells buffers apart. */
  datatype Event = Event(kind: Kind, id: nat, size: nat, bytes: nat)

  /** A queued event; `wraps` counts the brackets put around the queue since it was pushed. */
  datatype Slot = Slot(ev: Event, wraps: nat)

  const DROP := Event(Drop, 0, 0, 0)
  const DROP_END := Event(DropEnd, 0, 0, 0)

  function Push(q: seq<Slot>, e: Event): seq<Slot> { q + [Slot(e, 0)] }

  function Bump(q: seq<Slot>): (r: seq<Slot>)
    ensures |r| == |q| && forall i :: 0 <= i < |q| ==> r[i] == Slot(q[i].ev, q[i].wraps + 1)
  {
    if q == [] then [] else [Slot(q[0].ev, q[0].wraps + 1)] + Bump(q[1..])
  }

  /** DROP goes to the head and DROP_END to the tail, in one critical section. */
  function Enclose(q: seq<Slot>): seq<Slot> { [Slot(DROP, 0)] + Bump(q) + [Slot(DROP_END, 0)] }

  function RealSize(q: seq<Slot>): nat {
    if q == [] then 0 else q[0].ev.bytes + RealSize(q[1..])
  }

  // ---------- states ----------

  /** A sender inside _TemPushEvent and _TemCondSignal. */
  datatype Sender =
    | Outside
    | Pushed(data: bool)      // the event is queued; the data test is next (tem.c:138)
    | DataPassed              // the event-count test is next (tem.c:162)
    | Overflowed              // about to insert the bracket
    | ToSignal                // about to lock the thread mutex
    | Locked                  // about to signal
    | Signalled               // about to unlock

  datatype Thread =
    | Draining(inner: bool)   // about to pop, in _TemEventMonitor
    | Handling(inner: bool, slot: Slot)
    | OuterCheck | OuterCallback | Acquiring
    | InnerCheck | InnerCallback | Deciding
    | Waiting(timed: bool) | Woken
    | Releasing | Gone

  datatype Owner = Free | Tem | By(p: nat)

  datatype Config = Config(
    maxData: nat, maxEvents: nat, dropData: bool, dropEvents: bool, hasTimeoutCallback: bool, resetTimer: bool)

  datatype Outcome = Outcome(ev: Event, dropped: bool, wraps: nat)

  /** The locals of _TemThreadMain; `timedOut` is intCondWaitRev == ETIMEDOUT. */
  datatype Control = Control(bRun: bool, oneShot: bool, timeout: nat, timedOut: bool)

  /** u16DropEvent of the running _TemEventMonitor call, and the same without wrap-around. */
  datatype Counter = Counter(dropEvent: nat, depth: int)

  datatype Log = Log(pushed: seq<Event>, handled: seq<Outcome>, freed: seq<nat>)

  /** What was queued since a pop last found the queue empty: `selfSent` by the timeout callback
      with the mutex held, `otherSent` by other threads, events and brackets alike. */
  datatype State = State(
    queue: seq<Slot>, listCnt: nat, dataCnt: nat,
    owner: Owner, senders: map<nat, Sender>, thread: Thread,
    control: Control, counter: Counter, log: Log, selfSent: bool, otherSent: bool)

  /** The TEM thread itself, when a callback of its own sends. */
  const SELF: nat := 0

  function Pc(s: State, p: nat): Sender {
    if p in s.senders then s.senders[p] else Outside
  }

  const INITIAL := State(
    [], 0, 0, Free, map[], Draining(false), Control(true, false, FOREVER_MS, false),
    Counter(0, 0), Log([], [], []), false, false)

  predicate InCallback(t: Thread) {
    t.OuterCallback? || t.InnerCallback? || (t.Handling? && t.slot.ev.kind.DoUserData?)
  }

  // ---------- actions ----------

  datatype Action =
    | Send(p: nat, kind: Kind, size: nat, bytes: nat)
    | TestData(p: nat) | TestEvents(p: nat) | Bracket(p: nat)
    | Lock(p: nat) | Signal(p: nat) | Unlock(p: nat)
    | Pop
    | Handle(ms: nat)
    | CheckOuter | EndOuterCallback
    | Acquire
    | CheckInner | EndInnerCallback
    | Decide(expired: bool, funcRunTime: nat)
    | TimeOut | WakeSpuriously
    | Release

  predicate Enabled(cfg: Config, s: State, a: Action) {
    match a
    case Send(p, kind, size, bytes) =>
      Pc(s, p).Outside? && !kind.Bracket() && size < U32 && bytes < U32 && (p == SELF ==> InCallback(s.thread))
    case TestData(p) => Pc(s, p).Pushed?
    case TestEvents(p) => Pc(s, p).DataPassed?
    case Bracket(p) => Pc(s, p).Overflowed?
    case Lock(p) => Pc(s, p).ToSignal? && (s.owner.Free? || (p == SELF && s.owner.Tem?))
    case Signal(p) => Pc(s, p).Locked?
    case Unlock(p) => Pc(s, p).Signalled?
    case Pop => s.thread.Draining?
    case Handle(ms) => s.thread.Handling? && Pc(s, SELF).Outside? && ms < U32
    case CheckOuter => s.thread.OuterCheck?
    case EndOuterCallback => s.thread.OuterCallback? && Pc(s, SELF).Outside?
    case Acquire => (s.thread.Acquiring? || s.thread.Woken?) && s.owner.Free?
    case CheckInner => s.thread.InnerCheck?
    case EndInnerCallback => s.thread.InnerCallback? && Pc(s, SELF).Outside?
    case Decide(_, _) => s.thread.Deciding?
    case TimeOut => s.thread.Waiting? && s.thread.timed
    case WakeSpuriously => s.thread.Waiting?
    case Release => s.thread.Releasing?
  }

  predicate BySender(a: Action) {
    a.Send? || a.TestData? || a.TestEvents? || a.Bracket? || a.Lock? || a.Signal? || a.Unlock?
  }

  function At(s: State, p: nat, pc: Sender): State { s.(senders := s.senders[p := pc]) }

  function DoSend(s: State, p: nat, kind: Kind, size: nat, bytes: nat): State {
    var e := Event(kind, |s.log.pushed|, size, bytes);
    At(s, p, Pushed(kind.DoUserData?)).(
      queue := Push(s.queue, e), log := s.log.(pushed := s.log.pushed + [e]),
      listCnt := (s.listCnt + 1) % U32, dataCnt := (s.dataCnt + bytes) % U32,
      selfSent := s.selfSent || (p == SELF && s.thread.InnerCallback?),
      otherSent := s.otherSent || p != SELF)
  }

  function ApplySender(cfg: Config, s: State, a: Action): State
    requires BySender(a) && Enabled(cfg, s, a)
  {
    match a
    case Send(p, kind, size, bytes) => DoSend(s, p, kind, size, bytes)
    case TestData(p) =>
      if !Pc(s, p).data then At(s, p, ToSignal)
      else if s.dataCnt > cfg.maxData && cfg.dropData then At(s, p, Overflowed)
      else At(s, p, DataPassed)
    case TestEvents(p) =>
      if s.listCnt > cfg.maxEvents && cfg.dropEvents then At(s, p, Overflowed) else At(s, p, ToSignal)
    case Bracket(p) =>
      At(s, p, ToSignal).(queue := Enclose(s.queue), listCnt := (s.listCnt + 2) % U32,
                          otherSent := s.otherSent || p != SELF)
    case Lock(p) => At(s, p, Locked).(owner := if s.owner.Free? then By(p) else s.owner)
    case Signal(p) =>
      var t := At(s, p, Signalled);
      if s.thread.Waiting? then t.(thread := Woken, control := s.control.(timedOut := false)) else t
    case Unlock(p) => At(s, p, Outside).(owner := if s.owner == By(p) then Free else s.owner)
  }

  /** Entering _TemEventMonitor: a fresh drop counter. */
  function Monitor(s: State, inner: bool): State {
    s.(thread := Draining(inner), counter := Counter(0, 0))
  }

  function OneShotDone(c: Control): Control {
    if c.oneShot then c.(timeout := FOREVER_MS, oneShot := false) else c
  }

  function DoPop(s: State): State
    requires s.thread.Draining?
  {
    if s.queue == [] then
      s.(thread := if s.thread.inner then InnerCheck else OuterCheck, selfSent := false, otherSent := false)
    else
      s.(thread := Handling(s.thread.inner, s.queue[0]), queue := s.queue[1..],
         listCnt := (s.listCnt - 1) % U32, dataCnt := (s.dataCnt - s.queue[0].ev.bytes) % U32)
  }

  /** The switch of _TemEventMonitor (tem.c:240-311), by what it changes. */
  function Obey(c: Control, kind: Kind, ms: nat): Control {
    match kind
    case Exit => c.(bRun := false, timeout := 0)
    case Stop => c.(timeout := FOREVER_MS)
    case StartMonitor => c.(timeout := ms)
    case StartOneShot => c.(oneShot := true, timeout := ms)
    case DoUserData | Drop | DropEnd => c
  }

  function Count(c: Counter, kind: Kind): Counter {
    match kind
    case Drop => Counter((c.dropEvent + 1) % U16, c.depth + 1)
    case DropEnd => Counter((c.dropEvent - 1) % U16, c.depth - 1)
    case _ => c
  }

  function Record(l: Log, slot: Slot, c: Counter): Log {
    var e := slot.ev;
    if e.kind.Bracket() then l else
      l.(handled := l.handled + [Outcome(e, c.dropEvent != 0, slot.wraps)],
         freed := if e.kind.DoUserData? && e.size != 0 then l.freed + [e.id] else l.freed)
  }

  function DoHandle(s: State, ms: nat): State
    requires s.thread.Handling?
  {
    var slot := s.thread.slot;
    s.(thread := Draining(s.thread.inner), control := Obey(s.control, slot.ev.kind, ms),
       counter := Count(s.counter, slot.ev.kind), log := Record(s.log, slot, s.counter))
  }

  function ApplyThread(cfg: Config, s: State, a: Action): State
    requires !BySender(a) && Enabled(cfg, s, a)
  {
    match a
    case Pop => DoPop(s)
    case Handle(ms) => DoHandle(s, ms)
    case CheckOuter =>
      if !s.control.bRun then s.(thread := Gone)
      else if s.control.timeout != 0 then s.(thread := Acquiring)
      else if cfg.hasTimeoutCallback then s.(thread := OuterCallback)
      else Monitor(s, false)
    case EndOuterCallback =>
      if s.control.oneShot then s.(thread := Acquiring, control := OneShotDone(s.control)) else Monitor(s, false)
    case Acquire => Monitor(s.(owner := Tem), true)
    case CheckInner =>
      if !s.control.bRun || s.control.timeout == 0 then s.(thread := Releasing)
      else if cfg.hasTimeoutCallback && s.control.timedOut then s.(thread := InnerCallback)
      else s.(thread := Deciding)
    case EndInnerCallback => s.(thread := Deciding, control := OneShotDone(s.control))
    case Decide(expired, funcRunTime) =>
      if s.control.timeout == FOREVER_MS then s.(thread := Waiting(false), owner := Free)
      else if (expired || cfg.resetTimer) && funcRunTime < s.control.timeout then
        s.(thread := Waiting(true), owner := Free)
      else Monitor(s.(control := s.control.(timedOut := true)), true)
    case TimeOut => s.(thread := Woken, control := s.control.(timedOut := true))
    case WakeSpuriously => s.(thread := Woken, control := s.control.(timedOut := false))
    case Release =>
      if s.control.bRun then Monitor(s.(owner := Free), false) else s.(thread := Gone, owner := Free)
  }

  function Apply(cfg: Config, s: State, a: Action): State
    requires Enabled(cfg, s, a)
  {
    if BySender(a) then ApplySender(cfg, s, a) else ApplyThread(cfg, s, a)
  }

  ghost predicate Legal(cfg: Config, s: State, run: seq<Action>)
    decreases |run|
  {
    run == [] || (Enabled(cfg, s, run[0]) && Legal(cfg, Apply(cfg, s, run[0]), run[1..]))
  }

  ghost function Run(cfg: Config, s: State, run: seq<Action>): State
    requires Legal(cfg, s, run)
    decreases |run|
  {
    if run == [] then s else Run(cfg, Apply(cfg, s, run[0]), run[1..])
  }
}

/** What every interleaving keeps. */
module TemSafety {
  import opened TemProtocol

  // ---------- who holds the mutex ----------

  predicate HoldsMutex(t: Thread) {
    || t.InnerCheck? || t.InnerCallback? || t.Deciding? || t.Releasing?
    || ((t.Draining? || t.Handling?) && t.inner)
  }

  predicate Holds(pc: Sender) { pc.Locked? || pc.Signalled? }

  ghost predicate MutexInv(s: State) {
    && (s.owner.Tem? <==> HoldsMutex(s.thread))
    && (forall p :: s.owner == By(p) ==> Holds(Pc(s, p)))
    && (forall p :: Holds(Pc(s, p)) ==> s.owner == By(p) || (p == SELF && s.owner.Tem?))
    && (!InCallback(s.thread) ==> Pc(s, SELF).Outside?)
  }

  /** A sender's step leaves the others and, but for a wake-up, the TEM thread where they are. */
  lemma SenderMoves(cfg: Config, s: State, a: Action, q: nat)
    requires BySender(a) && Enabled(cfg, s, a)
    ensures q != a.p ==> Pc(Apply(cfg, s, a), q) == Pc(s, q)
    ensures Apply(cfg, s, a).thread == if a.Signal? && s.thread.Waiting? then Woken else s.thread
  {
  }

  lemma SenderMutexStep(cfg: Config, s: State, a: Action)
    requires MutexInv(s) && Enabled(cfg, s, a) && BySender(a)
    ensures MutexInv(Apply(cfg, s, a))
  {
    forall q: nat ensures q != a.p ==> Pc(Apply(cfg, s, a), q) == Pc(s, q) { SenderMoves(cfg, s, a, q); }
  }

  /** A step of the TEM thread leaves every sender where it is. */
  lemma ThreadMoves(cfg: Config, s: State, a: Action)
    requires !BySender(a) && Enabled(cfg, s, a)
    ensures Apply(cfg, s, a).senders == s.senders
  {
  }

  lemma ThreadMutexStep(cfg: Config, s: State, a: Action)
    requires MutexInv(s) && Enabled(cfg, s, a) && !BySender(a)
    ensures MutexInv(Apply(cfg, s, a))
  {
    ThreadMoves(cfg, s, a);
    assert forall q: nat :: Pc(Apply(cfg, s, a), q) == Pc(s, q);
  }

  lemma MutexStep(cfg: Config, s: State, a: Action)
    requires MutexInv(s) && Enabled(cfg, s, a)
    ensures MutexInv(Apply(cfg, s, a))
  {
    if BySender(a) { SenderMutexStep(cfg, s, a); } else { ThreadMutexStep(cfg, s, a); }
  }

  // ---------- no lost wakeup ----------

  /** Between its push and its signal. */
  predicate OwesSignal(pc: Sender) { !pc.Outside? && !pc.Signalled? }

  ghost predicate SignalOwed(s: State) { exists p :: p != SELF && OwesSignal(Pc(s, p)) }

  predicate PastDrain(t: Thread) { t.InnerCheck? || t.InnerCallback? || t.Deciding? || t.Waiting? }

  /** What another thread queued since the last drain has a signal to come, whatever the timeout
      callback did; and the queue is empty unless somebody queued something. */
  ghost predicate SignalInv(s: State) {
    && (PastDrain(s.thread) && s.otherSent ==> SignalOwed(s))
    && (PastDrain(s.thread) && s.queue != [] ==> s.otherSent || s.selfSent)
    && (PastDrain(s.thread) && s.otherSent ==> s.queue != [])
    && (PastDrain(s.thread) && s.selfSent ==> HasUser(s.queue))
    && (s.thread.InnerCallback? && !Pc(s, SELF).Outside? ==> s.selfSent)
  }

  ghost predicate HasUser(q: seq<Slot>) { exists i :: 0 <= i < |q| && !q[i].ev.kind.Bracket() }

  lemma HasUserStays(q: seq<Slot>, e: Event)
    ensures HasUser(Push(q, e)) <==> HasUser(q) || !e.kind.Bracket()
    ensures HasUser(Enclose(q)) <==> HasUser(q)
  {
    var r, t := Push(q, e), Enclose(q);
    assert r[|q|].ev == e && forall i :: 0 <= i < |q| ==> r[i] == q[i];
    assert forall i :: 0 <= i < |q| ==> t[i + 1].ev == q[i].ev;
    if HasUser(t) {
      var i :| 0 <= i < |t| && !t[i].ev.kind.Bracket();
      assert !q[i - 1].ev.kind.Bracket();
    }
  }

  /** While the TEM thread is past its drain it holds the mutex or waits, so that a signal
      either finds it waiting or comes later. */
  lemma SenderSignalStep(cfg: Config, s: State, a: Action)
    requires MutexInv(s) && SignalInv(s) && Enabled(cfg, s, a) && BySender(a)
    ensures SignalInv(Apply(cfg, s, a))
  {
    var s' := Apply(cfg, s, a);
    SenderMoves(cfg, s, a, SELF);
    HasUserStays(s.queue, if a.Send? then Event(a.kind, |s.log.pushed|, a.size, a.bytes) else DROP);
    if a.p != SELF {
      if SignalOwed(s) && PastDrain(s'.thread) {
        var p :| p != SELF && OwesSignal(Pc(s, p));
        SenderMoves(cfg, s, a, p);
        assert OwesSignal(Pc(s', p));
      } else if a.Send? || a.Bracket? {
        assert OwesSignal(Pc(s', a.p));
      }
    } else if SignalOwed(s) {
      var p :| p != SELF && OwesSignal(Pc(s, p));
      SenderMoves(cfg, s, a, p);
    }
  }

  lemma ThreadSignalStep(cfg: Config, s: State, a: Action)
    requires MutexInv(s) && SignalInv(s) && Enabled(cfg, s, a) && !BySender(a)
    ensures SignalInv(Apply(cfg, s, a))
  {
    ThreadMoves(cfg, s, a);
    assert forall q: nat :: Pc(Apply(cfg, s, a), q) == Pc(s, q);
  }

  // ---------- drop brackets ----------

  function Delta(k: Kind): int { if k.Drop? then 1 else if k.DropEnd? then -1 else 0 }

  /** What the drop counter reads when this event is popped. */
  ghost predicate Fits(slot: Slot, depth: int) {
    if slot.ev.kind.Drop? then depth >= 0
    else if slot.ev.kind.DropEnd? then depth == slot.wraps + 1
    else depth == slot.wraps
  }

  /** Popping the whole queue from this count on meets every event at its number of wraps,
      and ends at zero. */
  ghost predicate Balanced(q: seq<Slot>, depth: int) {
    if q == [] then depth == 0
    else Fits(q[0], depth) && Balanced(q[1..], depth + Delta(q[0].ev.kind))
  }

  lemma {:induction false} BalancedPush(q: seq<Slot>, depth: int, e: Event)
    requires Balanced(q, depth) && !e.kind.Bracket()
    ensures Balanced(Push(q, e), depth)
  {
    if q == [] {
      assert Push(q, e)[1..] == [];
    } else {
      BalancedPush(q[1..], depth + Delta(q[0].ev.kind), e);
      assert Push(q, e)[1..] == Push(q[1..], e);
    }
  }

  lemma {:induction false} BalancedEnd(q: seq<Slot>, depth: int)
    requires Balanced(q, depth)
    ensures Balanced(Bump(q) + [Slot(DROP_END, 0)], depth + 1)
  {
    var r := Bump(q) + [Slot(DROP_END, 0)];
    if q == [] {
      assert r == [Slot(DROP_END, 0)] && r[1..] == [];
    } else {
      BalancedEnd(q[1..], depth + Delta(q[0].ev.kind));
      assert r[1..] == Bump(q[1..]) + [Slot(DROP_END, 0)];
    }
  }

  lemma BalancedEnclose(q: seq<Slot>, depth: int)
    requires Balanced(q, depth)
    ensures Balanced(Enclose(q), depth)
  {
    BalancedEnd(q, depth);
    assert Enclose(q)[1..] == Bump(q) + [Slot(DROP_END, 0)];
  }

  /** The count that the rest of the drain starts from; no drain carries one over. */
  function Depth(s: State): int {
    match s.thread
    case Draining(_) => s.counter.depth
    case Handling(_, slot) => s.counter.depth + Delta(slot.ev.kind)
    case _ => 0
  }

  ghost predicate BracketInv(s: State) {
    && Balanced(s.queue, Depth(s))
    && (s.thread.Handling? ==> Fits(s.thread.slot, s.counter.depth))
    && s.counter.dropEvent == s.counter.depth % U16
    && forall i :: 0 <= i < |s.log.handled| ==> DroppedByWraps(s.log.handled[i])
  }

  predicate DroppedByWraps(o: Outcome) { o.dropped <==> o.wraps % U16 != 0 }

  lemma HandleBracket(cfg: Config, s: State, a: Action)
    requires BracketInv(s) && Enabled(cfg, s, a) && a.Handle?
    ensures BracketInv(Apply(cfg, s, a))
  {
  }

  lemma PopBracket(cfg: Config, s: State, a: Action)
    requires BracketInv(s) && Enabled(cfg, s, a) && a.Pop?
    ensures BracketInv(Apply(cfg, s, a))
  {
  }

  lemma OtherBracket(cfg: Config, s: State, a: Action)
    requires BracketInv(s) && Enabled(cfg, s, a) && !a.Send? && !a.Bracket? && !a.Handle? && !a.Pop?
    ensures BracketInv(Apply(cfg, s, a))
  {
    if BySender(a) { SenderBracket(cfg, s, a); }
  }

  lemma SenderBracket(cfg: Config, s: State, a: Action)
    requires BracketInv(s) && Enabled(cfg, s, a) && BySender(a) && !a.Send? && !a.Bracket?
    ensures BracketInv(Apply(cfg, s, a))
  {
    assert Apply(cfg, s, a).queue == s.queue && Apply(cfg, s, a).log == s.log && Apply(cfg, s, a).counter == s.counter;
  }

  lemma BracketStep(cfg: Config, s: State, a: Action)
    requires BracketInv(s) && Enabled(cfg, s, a)
    ensures BracketInv(Apply(cfg, s, a))
  {
    match a
    case Send(_, kind, size, bytes) =>
      BalancedPush(s.queue, Depth(s), Event(kind, |s.log.pushed|, size, bytes));
    case Bracket(_) => BalancedEnclose(s.queue, Depth(s));
    case Handle(_) => HandleBracket(cfg, s, a);
    case Pop => PopBracket(cfg, s, a);
    case _ => OtherBracket(cfg, s, a);
  }

  // ---------- counts ----------

  ghost predicate CountInv(s: State) {
    s.listCnt == |s.queue| % U32 && s.dataCnt == RealSize(s.queue) % U32
  }

  lemma {:induction false} RealSizeAppend(q: seq<Slot>, r: seq<Slot>)
    ensures RealSize(q + r) == RealSize(q) + RealSize(r)
  {
    if q == [] {
      assert q + r == r;
    } else {
      assert (q + r)[1..] == q[1..] + r;
      RealSizeAppend(q[1..], r);
    }
  }

  lemma {:induction false} RealSizeBump(q: seq<Slot>)
    ensures RealSize(Bump(q)) == RealSize(q)
  {
    if q != [] {
      assert Bump(q)[1..] == Bump(q[1..]);
      RealSizeBump(q[1..]);
    }
  }

  lemma RealSizeEnclose(q: seq<Slot>)
    ensures RealSize(Enclose(q)) == RealSize(q)
  {
    RealSizeBump(q);
    RealSizeAppend(Bump(q), [Slot(DROP_END, 0)]);
    assert Enclose(q)[1..] == Bump(q) + [Slot(DROP_END, 0)];
  }

  function InHand(t: Thread): seq<Slot> { if t.Handling? then [t.slot] else [] }

  /** Steps that neither touch the queue nor handle an event. */
  predicate Quiet(a: Action) { !a.Send? && !a.Bracket? && !a.Pop? && !a.Handle? }

  lemma QuietStep(cfg: Config, s: State, a: Action)
    requires Enabled(cfg, s, a) && Quiet(a)
    ensures var s' := Apply(cfg, s, a);
      s'.queue == s.queue && s'.listCnt == s.listCnt && s'.dataCnt == s.dataCnt && s'.log == s.log &&
      InHand(s'.thread) == InHand(s.thread)
  {
    if BySender(a) { SenderQuiet(cfg, s, a); }
  }

  lemma SenderQuiet(cfg: Config, s: State, a: Action)
    requires Enabled(cfg, s, a) && Quiet(a) && BySender(a)
    ensures var s' := Apply(cfg, s, a);
      s'.queue == s.queue && s'.listCnt == s.listCnt && s'.dataCnt == s.dataCnt && s'.log == s.log &&
      InHand(s'.thread) == InHand(s.thread)
  {
  }

  lemma Wraps(x: int, y: int)
    ensures (x % U32 + y) % U32 == (x + y) % U32
  {
  }

  lemma SendCounts(s: State, p: nat, kind: Kind, size: nat, bytes: nat)
    requires CountInv(s)
    ensures CountInv(DoSend(s, p, kind, size, bytes))
  {
    var e := Event(kind, |s.log.pushed|, size, bytes);
    RealSizeAppend(s.queue, [Slot(e, 0)]);
    assert RealSize([Slot(e, 0)]) == bytes;
    Wraps(|s.queue|, 1);
    Wraps(RealSize(s.queue), bytes);
  }

  lemma PopCounts(s: State)
    requires CountInv(s) && s.thread.Draining?
    ensures CountInv(DoPop(s))
  {
  }

  lemma CountStep(cfg: Config, s: State, a: Action)
    requires CountInv(s) && Enabled(cfg, s, a)
    ensures CountInv(Apply(cfg, s, a))
  {
    match a
    case Send(p, kind, size, bytes) => SendCounts(s, p, kind, size, bytes);
    case Bracket(_) => RealSizeEnclose(s.queue);
    case Pop => PopCounts(s);
    case Handle(_) =>
    case _ => QuietStep(cfg, s, a);
  }

  // ---------- order and buffers ----------

  /** The events that are not drop brackets. */
  function Users(q: seq<Slot>): seq<Event> {
    if q == [] then [] else (if q[0].ev.kind.Bracket() then [] else [q[0].ev]) + Users(q[1..])
  }

  function EventsOf(h: seq<Outcome>): (r: seq<Event>)
    ensures |r| == |h| && forall i :: 0 <= i < |h| ==> r[i] == h[i].ev
  {
    seq(|h|, i requires 0 <= i < |h| => h[i].ev)
  }

  /** The buffers of the data events among these. */
  function Buffers(es: seq<Event>): seq<nat> {
    if es == [] then []
    else
      var e := es[|es| - 1];
      Buffers(es[..|es| - 1]) + (if e.kind.DoUserData? && e.size != 0 then [e.id] else [])
  }

  ghost predicate LogInv(s: State) {
    && EventsOf(s.log.handled) + Users(InHand(s.thread)) + Users(s.queue) == s.log.pushed
    && s.log.freed == Buffers(EventsOf(s.log.handled))
    && forall i :: 0 <= i < |s.log.pushed| ==> s.log.pushed[i].id == i
  }

  lemma {:induction false} UsersAppend(q: seq<Slot>, r: seq<Slot>)
    ensures Users(q + r) == Users(q) + Users(r)
  {
    if q == [] {
      assert q + r == r;
    } else {
      assert (q + r)[1..] == q[1..] + r;
      UsersAppend(q[1..], r);
    }
  }

  lemma {:induction false} UsersBump(q: seq<Slot>)
    ensures Users(Bump(q)) == Users(q)
  {
    if q != [] {
      assert Bump(q)[1..] == Bump(q[1..]);
      UsersBump(q[1..]);
    }
  }

  lemma UsersEnclose(q: seq<Slot>)
    ensures Users(Enclose(q)) == Users(q)
  {
    UsersBump(q);
    UsersAppend(Bump(q), [Slot(DROP_END, 0)]);
    assert Enclose(q)[1..] == Bump(q) + [Slot(DROP_END, 0)];
  }

  lemma SendLog(cfg: Config, s: State, a: Action)
    requires LogInv(s) && Enabled(cfg, s, a) && a.Send?
    ensures LogInv(Apply(cfg, s, a))
  {
    var e := Event(a.kind, |s.log.pushed|, a.size, a.bytes);
    UsersAppend(s.queue, [Slot(e, 0)]);
    assert Users([Slot(e, 0)]) == [e];
  }

  lemma HandleLog(cfg: Config, s: State, a: Action)
    requires LogInv(s) && Enabled(cfg, s, a) && a.Handle?
    ensures LogInv(Apply(cfg, s, a))
  {
    var slot, h, h' := s.thread.slot, s.log.handled, Apply(cfg, s, a).log.handled;
    assert Users(InHand(s.thread)) == if slot.ev.kind.Bracket() then [] else [slot.ev];
    if !slot.ev.kind.Bracket() {
      assert EventsOf(h') == EventsOf(h) + [slot.ev];
      assert EventsOf(h')[..|h|] == EventsOf(h);
    }
  }

  lemma PopLog(cfg: Config, s: State, a: Action)
    requires LogInv(s) && Enabled(cfg, s, a) && a.Pop?
    ensures LogInv(Apply(cfg, s, a))
  {
    if s.queue != [] { PopUsers(EventsOf(s.log.handled), s.queue); }
  }

  lemma PopUsers(h: seq<Event>, q: seq<Slot>)
    requires q != []
    ensures h + [] + Users(q) == h + Users([q[0]]) + Users(q[1..])
  {
    assert [q[0]][1..] == [];
    Regroup(h, Users([q[0]]), Users(q[1..]));
  }

  lemma Regroup<T>(a: seq<T>, b: seq<T>, c: seq<T>)
    ensures a + [] + (b + c) == a + b + c
  {
  }

  lemma LogStep(cfg: Config, s: State, a: Action)
    requires LogInv(s) && Enabled(cfg, s, a)
    ensures LogInv(Apply(cfg, s, a))
  {
    match a
    case Send(_, _, _, _) => SendLog(cfg, s, a);
    case Handle(_) => HandleLog(cfg, s, a);
    case Bracket(_) => UsersEnclose(s.queue);
    case Pop => PopLog(cfg, s, a);
    case _ => QuietStep(cfg, s, a);
  }

  // ---------- the end of the thread ----------

  ghost predicate ExitHandled(s: State) {
    exists i :: 0 <= i < |s.log.handled| && s.log.handled[i].ev.kind.Exit?
  }

  predicate StaysRunning(t: Thread) {
    t.Acquiring? || t.OuterCallback? || t.InnerCallback? || t.Deciding? || t.Waiting? || t.Woken?
  }

  ghost predicate RunInv(s: State) {
    && (s.control.bRun <==> !ExitHandled(s))
    && (s.thread.Gone? ==> !s.control.bRun)
    && (StaysRunning(s.thread) ==> s.control.bRun)
    && (s.thread.InnerCallback? || s.thread.Deciding? ==> s.control.timeout != 0)
  }

  lemma HandleRun(cfg: Config, s: State, a: Action)
    requires RunInv(s) && Enabled(cfg, s, a) && a.Handle?
    ensures RunInv(Apply(cfg, s, a))
  {
    var h, h' := s.log.handled, Apply(cfg, s, a).log.handled;
    if s.thread.slot.ev.kind.Bracket() {
      assert h' == h;
    } else {
      assert h' == h + [h'[|h|]] && h'[|h|].ev == s.thread.slot.ev;
      if ExitHandled(s) {
        var i :| 0 <= i < |h| && h[i].ev.kind.Exit?;
        assert h'[i].ev.kind.Exit?;
      }
    }
  }

  lemma SenderRun(cfg: Config, s: State, a: Action)
    requires RunInv(s) && Enabled(cfg, s, a) && BySender(a)
    ensures RunInv(Apply(cfg, s, a))
  {
    assert Apply(cfg, s, a).log.handled == s.log.handled;
  }

  lemma RunStep(cfg: Config, s: State, a: Action)
    requires RunInv(s) && Enabled(cfg, s, a)
    ensures RunInv(Apply(cfg, s, a))
  {
    if a.Handle? {
      HandleRun(cfg, s, a);
    } else if BySender(a) {
      SenderRun(cfg, s, a);
    } else {
      assert Apply(cfg, s, a).log == s.log;
    }
  }

  // ---------- all of it, over every run ----------

  ghost predicate Inv(s: State) {
    MutexInv(s) && SignalInv(s) && BracketInv(s) && CountInv(s) && LogInv(s) && RunInv(s)
  }

  lemma InvStep(cfg: Config, s: State, a: Action)
    requires Inv(s) && Enabled(cfg, s, a)
    ensures Inv(Apply(cfg, s, a))
  {
    MutexStep(cfg, s, a);
    if BySender(a) { SenderSignalStep(cfg, s, a); } else { ThreadSignalStep(cfg, s, a); }
    BracketStep(cfg, s, a);
    CountStep(cfg, s, a);
    LogStep(cfg, s, a);
    RunStep(cfg, s, a);
  }

  lemma {:induction false} RunKeepsInv(cfg: Config, s: State, run: seq<Action>)
    requires Inv(s) && Legal(cfg, s, run)
    ensures Inv(Run(cfg, s, run))
    decreases |run|
  {
    if run != [] {
      InvStep(cfg, s, run[0]);
      RunKeepsInv(cfg, Apply(cfg, s, run[0]), run[1..]);
    }
  }

  lemma RunKeepsAll(cfg: Config, run: seq<Action>)
    requires Legal(cfg, INITIAL, run)
    ensures Inv(Run(cfg, INITIAL, run))
  {
    assert EventsOf([]) == [];
    RunKeepsInv(cfg, INITIAL, run);
  }

  /** No lost wakeup: when another thread has queued anything since the last drain, a blocked
      TEM thread has some other thread between its push and its signal, whatever its own timeout
      callback did. With nobody owing a signal the queue is empty, but for what that callback
      sent to its own thread: this is lost, and only this. */
  lemma NoLostWakeup(cfg: Config, run: seq<Action>)
    requires Legal(cfg, INITIAL, run)
    ensures var s := Run(cfg, INITIAL, run);
      s.thread.Waiting? ==>
        && (s.otherSent ==> exists p :: p != SELF && OwesSignal(Pc(s, p)))
        && ((forall p :: p != SELF ==> !OwesSignal(Pc(s, p))) ==> (s.queue != [] <==> s.selfSent))
  {
    RunKeepsAll(cfg, run);
  }

  lemma {:induction false} DepthNonNegative(q: seq<Slot>, depth: int)
    requires Balanced(q, depth)
    ensures depth >= 0
  {
  }

  /** An event is dropped exactly when the number of brackets put around the queue while it
      was queued is not a multiple of 65536; the true count never goes below zero, and is
      zero whenever a drain finds the queue empty. */
  lemma DropsExactlyTheWrapped(cfg: Config, run: seq<Action>)
    requires Legal(cfg, INITIAL, run)
    ensures var s := Run(cfg, INITIAL, run);
      && (forall i :: 0 <= i < |s.log.handled| ==>
            (s.log.handled[i].dropped <==> s.log.handled[i].wraps % U16 != 0))
      && Depth(s) >= 0
      && (s.thread.Draining? && s.queue == [] ==> s.counter == Counter(0, 0))
  {
    RunKeepsAll(cfg, run);
    var s := Run(cfg, INITIAL, run);
    DepthNonNegative(s.queue, Depth(s));
    forall i | 0 <= i < |s.log.handled|
      ensures s.log.handled[i].dropped <==> s.log.handled[i].wraps % U16 != 0
    {
      assert DroppedByWraps(s.log.handled[i]);
    }
  }

  lemma {:induction false} BufferCount(es: seq<Event>, id: nat)
    requires forall i :: 0 <= i < |es| ==> es[i].id == i
    ensures multiset(Buffers(es))[id] ==
      if id < |es| && es[id].kind.DoUserData? && es[id].size != 0 then 1 else 0
  {
    if es != [] { BufferCount(es[..|es| - 1], id); }
  }

  /** Events are handled in the order they were pushed and none is made up or lost; a buffer
      is freed once, when its event is handled, and never otherwise; the counters agree with
      the queue. */
  lemma Accounting(cfg: Config, run: seq<Action>, id: nat)
    requires Legal(cfg, INITIAL, run)
    ensures var s := Run(cfg, INITIAL, run);
      && EventsOf(s.log.handled) + Users(InHand(s.thread)) + Users(s.queue) == s.log.pushed
      && multiset(s.log.freed)[id] ==
           (if id < |s.log.handled| && s.log.pushed[id].kind.DoUserData? && s.log.pushed[id].size != 0 then 1 else 0)
      && s.listCnt == |s.queue| % U32 && s.dataCnt == RealSize(s.queue) % U32
  {
    RunKeepsAll(cfg, run);
    var s := Run(cfg, INITIAL, run);
    var h := EventsOf(s.log.handled);
    assert forall i :: 0 <= i < |h| ==> s.log.pushed[i] == h[i];
    BufferCount(h, id);
  }

  // ---------- no deadlock ----------

  ghost predicate AtRest(s: State) {
    (s.thread.Gone? || s.thread == Waiting(false)) && forall p :: Pc(s, p).Outside?
  }

  lemma SenderCanMove(cfg: Config, s: State, p: nat) returns (a: Action)
    requires !Pc(s, p).Outside? && (Pc(s, p).ToSignal? ==> s.owner.Free? || (p == SELF && s.owner.Tem?))
    ensures Enabled(cfg, s, a) && BySender(a) && !a.Send?
  {
    match Pc(s, p)
    case Pushed(_) => a := TestData(p);
    case DataPassed => a := TestEvents(p);
    case Overflowed => a := Bracket(p);
    case ToSignal => a := Lock(p);
    case Locked => a := Signal(p);
    case Signalled => a := Unlock(p);
  }

  lemma ThreadCanMove(cfg: Config, s: State) returns (a: Action)
    requires Pc(s, SELF).Outside? && !s.thread.Gone? && s.thread != Waiting(false)
    requires s.thread.Acquiring? || s.thread.Woken? ==> s.owner.Free?
    ensures Enabled(cfg, s, a) && !a.Send? && !a.WakeSpuriously?
  {
    match s.thread
    case Draining(_) => a := Pop;
    case Handling(_, _) => a := Handle(0);
    case OuterCheck => a := CheckOuter;
    case OuterCallback => a := EndOuterCallback;
    case Acquiring => a := Acquire;
    case InnerCheck => a := CheckInner;
    case InnerCallback => a := EndInnerCallback;
    case Deciding => a := Decide(true, 0);
    case Waiting(_) => a := TimeOut;
    case Woken => a := Acquire;
    case Releasing => a := Release;
  }

  lemma SomeoneCanMove(cfg: Config, s: State) returns (a: Action)
    requires MutexInv(s) && !AtRest(s)
    ensures Enabled(cfg, s, a) && !a.Send? && !a.WakeSpuriously?
  {
    match s.owner {
      case By(p) => a := SenderCanMove(cfg, s, p);
      case Tem =>
        if !Pc(s, SELF).Outside? { a := SenderCanMove(cfg, s, SELF); }
        else { a := ThreadCanMove(cfg, s); }
      case Free =>
        if p: nat :| !Pc(s, p).Outside? { a := SenderCanMove(cfg, s, p); }
        else { a := ThreadCanMove(cfg, s); }
    }
  }

  /** Short of rest, some thread can always go on without a new send or a spurious wakeup. */
  lemma NoDeadlock(cfg: Config, run: seq<Action>) returns (a: Action)
    requires Legal(cfg, INITIAL, run) && !AtRest(Run(cfg, INITIAL, run))
    ensures Enabled(cfg, Run(cfg, INITIAL, run), a) && !a.Send? && !a.WakeSpuriously?
  {
    RunKeepsAll(cfg, run);
    a := SomeoneCanMove(cfg, Run(cfg, INITIAL, run));
  }

  /** At rest with the thread alive everything pushed has been handled if and only if the
      timeout callback has not sent to its own thread since the last drain. */
  lemma RestMeansDone(cfg: Config, run: seq<Action>)
    requires Legal(cfg, INITIAL, run)
    ensures var s := Run(cfg, INITIAL, run);
      AtRest(s) && !s.thread.Gone? ==>
        && (s.queue == [] <==> !s.selfSent)
        && (EventsOf(s.log.handled) == s.log.pushed <==> !s.selfSent)
  {
    RunKeepsAll(cfg, run);
    UsersAre(Run(cfg, INITIAL, run).queue);
  }

  lemma {:induction false} UsersAre(q: seq<Slot>)
    ensures HasUser(q) <==> Users(q) != []
  {
    if q != [] {
      UsersAre(q[1..]);
      assert forall i :: 0 <= i < |q| - 1 ==> q[1..][i] == q[i + 1];
      if HasUser(q) && q[0].ev.kind.Bracket() {
        var i :| 0 <= i < |q| && !q[i].ev.kind.Bracket();
        assert !q[1..][i - 1].ev.kind.Bracket();
      }
    }
  }
}

/** A timeout callback that sends to its own thread is not woken for what it sent. */
module TemLostWakeup {
  import opened TemProtocol
  import opened TemSafety

  const CFG := Config(0, 0, false, false, true, false)

  ghost predicate Reaches(run: seq<Action>, s: State) {
    Legal(CFG, INITIAL, run) && Run(CFG, INITIAL, run) == s
  }

  lemma {:induction false} Extend(s: State, run: seq<Action>, a: Action)
    requires Legal(CFG, s, run) && Enabled(CFG, Run(CFG, s, run), a)
    ensures Legal(CFG, s, run + [a]) && Run(CFG, s, run + [a]) == Apply(CFG, Run(CFG, s, run), a)
    decreases |run|
  {
    var r := run + [a];
    if run == [] {
      assert r[1..] == [];
    } else {
      assert r[0] == run[0] && r[1..] == run[1..] + [a];
      Extend(Apply(CFG, s, run[0]), run[1..], a);
    }
  }

  lemma Go(run: seq<Action>, s: State, a: Action, s': State)
    requires Reaches(run, s) && Enabled(CFG, s, a) && Apply(CFG, s, a) == s'
    ensures Reaches(run + [a], s')
  {
    Extend(INITIAL, run, a);
  }

  const START := Event(StartOneShot, 0, 0, 0)
  const SELF_SENT := Event(DoUserData, 1, 8, 8)

  /** The state after the start event has been pushed by sender 1 and everything is quiet but
      the TEM thread, which stands at `t`; `recent` until its drain has ended. */
  function Started(q: seq<Slot>, owner: Owner, t: Thread, c: Control, handled: seq<Outcome>, recent: bool): State {
    State(q, |q|, 0, owner, map[1 := Outside], t, c, Counter(0, 0), Log([START], handled, []), false, recent)
  }

  /** On the way there: sender 1 has pushed the start event and stands at pc. */
  function Starting(pc: Sender, owner: Owner): State {
    Started([Slot(START, 0)], owner, Draining(false), INITIAL.control, [], true).(senders := map[1 := pc])
  }

  lemma StartGoes(run: seq<Action>, pc: Sender, owner: Owner, a: Action, pc': Sender, owner': Owner)
    returns (run': seq<Action>)
    requires Reaches(run, Starting(pc, owner)) && TimeOut !in run
    requires BySender(a) && !a.Send? && !a.Bracket? && a.p == 1 && Enabled(CFG, Starting(pc, owner), a)
    requires Pc(Apply(CFG, Starting(pc, owner), a), 1) == pc' && Apply(CFG, Starting(pc, owner), a).owner == owner'
    ensures Reaches(run', Starting(pc', owner')) && TimeOut !in run'
  {
    assert map[1 := pc][1 := pc'] == map[1 := pc'];
    Go(run, Starting(pc, owner), a, Starting(pc', owner'));
    run' := run + [a];
  }

  lemma AfterStart() returns (run: seq<Action>)
    ensures Reaches(run, Started([Slot(START, 0)], Free, Draining(false), INITIAL.control, [], true)) && TimeOut !in run
  {
    var send := Send(1, StartOneShot, 0, 0);
    Go([], INITIAL, send, Starting(Pushed(false), Free));
    run := [] + [send];
    run := StartGoes(run, Pushed(false), Free, TestData(1), ToSignal, Free);
    run := StartGoes(run, ToSignal, Free, Lock(1), Locked, By(1));
    run := StartGoes(run, Locked, By(1), Signal(1), Signalled, By(1));
    run := StartGoes(run, Signalled, By(1), Unlock(1), Outside, Free);
  }

  const LOG := [Outcome(START, false, 0)]

  lemma UpToOneShot() returns (run: seq<Action>)
    ensures Reaches(run, Started([], Free, Draining(false), Control(true, true, 5, false), LOG, true))
    ensures TimeOut !in run
  {
    run := AfterStart();
    var c := Control(true, true, 5, false);
    var s0 := Started([Slot(START, 0)], Free, Draining(false), INITIAL.control, [], true);
    var s1 := Started([], Free, Handling(false, Slot(START, 0)), INITIAL.control, [], true);
    Go(run, s0, Pop, s1);
    run := run + [Pop];
    var s2 := Started([], Free, Draining(false), c, LOG, true);
    Go(run, s1, Handle(5), s2);
    run := run + [Handle(5)];
  }

  lemma UpToTimedWait() returns (run: seq<Action>)
    ensures Reaches(run, Started([], Free, Waiting(true), Control(true, true, 5, false), LOG, false)) && TimeOut !in run
  {
    run := UpToOneShot();
    var c := Control(true, true, 5, false);
    var s2 := Started([], Free, Draining(false), c, LOG, true);
    Go(run, s2, Pop, s2.(thread := OuterCheck, otherSent := false));
    run := run + [Pop];
    Go(run, s2.(thread := OuterCheck, otherSent := false), CheckOuter, s2.(thread := Acquiring, otherSent := false));
    run := run + [CheckOuter];
    var s3 := Started([], Tem, Draining(true), c, LOG, false);
    Go(run, s2.(thread := Acquiring, otherSent := false), Acquire, s3);
    run := run + [Acquire];
    Go(run, s3, Pop, s3.(thread := InnerCheck));
    run := run + [Pop];
    Go(run, s3.(thread := InnerCheck), CheckInner, s3.(thread := Deciding));
    run := run + [CheckInner];
    Go(run, s3.(thread := Deciding), Decide(true, 0), Started([], Free, Waiting(true), c, LOG, false));
    run := run + [Decide(true, 0)];
  }

  lemma UpToCallback() returns (run: seq<Action>)
    ensures Reaches(run, Started([], Tem, InnerCallback, Control(true, true, 5, true), LOG, false))
  {
    run := UpToTimedWait();
    var c := Control(true, true, 5, true);
    var s0 := Started([], Free, Waiting(true), Control(true, true, 5, false), LOG, false);
    var s1 := Started([], Free, Woken, c, LOG, false);
    Go(run, s0, TimeOut, s1);
    run := run + [TimeOut];
    var s2 := Started([], Tem, Draining(true), c, LOG, false);
    Go(run, s1, Acquire, s2);
    run := run + [Acquire];
    Go(run, s2, Pop, s2.(thread := InnerCheck));
    run := run + [Pop];
    Go(run, s2.(thread := InnerCheck), CheckInner, s2.(thread := InnerCallback));
    run := run + [CheckInner];
  }

  /** The callback's own send, as it moves through _TemPushEvent and _TemCondSignal. */
  function Sending(pc: Sender, t: Thread, owner: Owner, c: Control): State {
    State([Slot(SELF_SENT, 0)], 1, 8, owner, map[1 := Outside, SELF := pc], t, c, Counter(0, 0),
          Log([START, SELF_SENT], LOG, []), true, false)
  }

  lemma SelfSend() returns (run: seq<Action>)
    ensures Reaches(run, Sending(Outside, InnerCallback, Tem, Control(true, true, 5, true)))
  {
    run := UpToCallback();
    var c := Control(true, true, 5, true);
    var s0 := Started([], Tem, InnerCallback, c, LOG, false);
    assert map[1 := Outside][SELF := Pushed(true)] == map[1 := Outside, SELF := Pushed(true)];
    Go(run, s0, Send(SELF, DoUserData, 8, 8), Sending(Pushed(true), InnerCallback, Tem, c));
    run := run + [Send(SELF, DoUserData, 8, 8)];
    run := SelfGoes(run, Pushed(true), TestData(SELF), DataPassed);
    run := SelfGoes(run, DataPassed, TestEvents(SELF), ToSignal);
    run := SelfGoes(run, ToSignal, Lock(SELF), Locked);
    run := SelfGoes(run, Locked, Signal(SELF), Signalled);
    run := SelfGoes(run, Signalled, Unlock(SELF), Outside);
  }

  lemma SelfGoes(run: seq<Action>, pc: Sender, a: Action, pc': Sender) returns (run': seq<Action>)
    requires Reaches(run, Sending(pc, InnerCallback, Tem, Control(true, true, 5, true)))
    requires BySender(a) && !a.Send? && !a.Bracket? && a.p == SELF
    requires Enabled(CFG, Sending(pc, InnerCallback, Tem, Control(true, true, 5, true)), a)
    requires Pc(Apply(CFG, Sending(pc, InnerCallback, Tem, Control(true, true, 5, true)), a), SELF) == pc'
    ensures Reaches(run', Sending(pc', InnerCallback, Tem, Control(true, true, 5, true)))
  {
    var c := Control(true, true, 5, true);
    var s := Sending(pc, InnerCallback, Tem, c);
    assert map[1 := Outside, SELF := pc][SELF := pc'] == map[1 := Outside, SELF := pc'];
    Go(run, s, a, Sending(pc', InnerCallback, Tem, c));
    run' := run + [a];
  }

  /** The one-shot callback sent to its own thread, which then blocks with no time limit,
      with that event queued and nobody left to signal. */
  lemma LostWakeup() returns (run: seq<Action>, s: State)
    ensures Reaches(run, s) && AtRest(s) && s.thread == Waiting(false) && s.control.bRun && s.queue != []
  {
    run := SelfSend();
    var c := Control(true, false, FOREVER_MS, true);
    Go(run, Sending(Outside, InnerCallback, Tem, Control(true, true, 5, true)), EndInnerCallback,
       Sending(Outside, Deciding, Tem, c));
    run := run + [EndInnerCallback];
    s := Sending(Outside, Waiting(false), Free, c);
    Go(run, Sending(Outside, Deciding, Tem, c), Decide(true, 0), s);
    run := run + [Decide(true, 0)];
  }

  const STOP := Event(Stop, 1, 0, 0)

  /** As Started, with a stop event pushed by sender 1 after the start event. */
  function Stopping(q: seq<Slot>, owner: Owner, t: Thread, c: Control, handled: seq<Outcome>, recent: bool): State {
    State(q, |q|, 0, owner, map[1 := Pushed(false)], t, c, Counter(0, 0),
          Log([START, STOP], handled, []), false, recent)
  }

  lemma UpToStop() returns (run: seq<Action>)
    ensures Reaches(run, Stopping([Slot(STOP, 0)], Tem, Draining(true), Control(true, true, 5, true), LOG, true))
  {
    run := UpToTimedWait();
    var q, c, c' := [Slot(STOP, 0)], Control(true, true, 5, false), Control(true, true, 5, true);
    assert map[1 := Outside][1 := Pushed(false)] == map[1 := Pushed(false)];
    Go(run, Started([], Free, Waiting(true), c, LOG, false), Send(1, Stop, 0, 0),
       Stopping(q, Free, Waiting(true), c, LOG, true));
    run := run + [Send(1, Stop, 0, 0)];
    Go(run, Stopping(q, Free, Waiting(true), c, LOG, true), TimeOut, Stopping(q, Free, Woken, c', LOG, true));
    run := run + [TimeOut];
    Go(run, Stopping(q, Free, Woken, c', LOG, true), Acquire, Stopping(q, Tem, Draining(true), c', LOG, true));
    run := run + [Acquire];
  }

  /** A wait that times out while a stop event is on its way: the timeout callback is run after
      the stop was handled. */
  lemma CallbackAfterStop() returns (run: seq<Action>, s: State)
    ensures Reaches(run, s) && s.thread.InnerCallback? && s.control.timeout == FOREVER_MS
    ensures s.queue == [] && |s.log.handled| == 2 && s.log.handled[1].ev.kind.Stop?
  {
    run := UpToStop();
    var q, c, c' := [Slot(STOP, 0)], Control(true, true, 5, true), Control(true, true, FOREVER_MS, true);
    var handled := LOG + [Outcome(STOP, false, 0)];
    Go(run, Stopping(q, Tem, Draining(true), c, LOG, true), Pop,
       Stopping([], Tem, Handling(true, Slot(STOP, 0)), c, LOG, true));
    run := run + [Pop];
    Go(run, Stopping([], Tem, Handling(true, Slot(STOP, 0)), c, LOG, true), Handle(0),
       Stopping([], Tem, Draining(true), c', handled, true));
    run := run + [Handle(0)];
    Go(run, Stopping([], Tem, Draining(true), c', handled, true), Pop,
       Stopping([], Tem, InnerCheck, c', handled, false));
    run := run + [Pop];
    s := Stopping([], Tem, InnerCallback, c', handled, false);
    Go(run, Stopping([], Tem, InnerCheck, c', handled, false), CheckInner, s);
    run := run + [CheckInner];
  }

  const SIGNALLED := Event(DoUserData, 1, 0, 0)

  /** As Started, while sender 1 sends a data event and afterwards. */
  function Sent(q: seq<Slot>, owner: Owner, pc: Sender, t: Thread, c: Control,
                handled: seq<Outcome>, recent: bool): State {
    State(q, |q|, 0, owner, map[1 := pc], t, c, Counter(0, 0),
          Log([START, SIGNALLED], handled, []), false, recent)
  }

  lemma SenderGoes(run: seq<Action>, owner: Owner, pc: Sender, t: Thread, a: Action,
                   owner': Owner, pc': Sender, t': Thread)
    returns (run': seq<Action>)
    requires Reaches(run, Sent([Slot(SIGNALLED, 0)], owner, pc, t, Control(true, true, 5, false), LOG, true))
    requires TimeOut !in run
    requires BySender(a) && !a.Send? && !a.Bracket? && a.p == 1
    requires Enabled(CFG, Sent([Slot(SIGNALLED, 0)], owner, pc, t, Control(true, true, 5, false), LOG, true), a)
    requires var s := Apply(CFG, Sent([Slot(SIGNALLED, 0)], owner, pc, t, Control(true, true, 5, false), LOG, true), a);
      Pc(s, 1) == pc' && s.owner == owner' && s.thread == t' && s.control == Control(true, true, 5, false)
    ensures Reaches(run', Sent([Slot(SIGNALLED, 0)], owner', pc', t', Control(true, true, 5, false), LOG, true))
    ensures TimeOut !in run'
  {
    var c := Control(true, true, 5, false);
    assert map[1 := pc][1 := pc'] == map[1 := pc'];
    Go(run, Sent([Slot(SIGNALLED, 0)], owner, pc, t, c, LOG, true), a,
       Sent([Slot(SIGNALLED, 0)], owner', pc', t', c, LOG, true));
    run' := run + [a];
  }

  lemma UpToSignal() returns (run: seq<Action>)
    ensures Reaches(run, Sent([Slot(SIGNALLED, 0)], Free, Outside, Woken, Control(true, true, 5, false), LOG, true))
    ensures TimeOut !in run
  {
    run := UpToTimedWait();
    var c := Control(true, true, 5, false);
    assert map[1 := Outside][1 := Pushed(true)] == map[1 := Pushed(true)];
    Go(run, Started([], Free, Waiting(true), c, LOG, false), Send(1, DoUserData, 0, 0),
       Sent([Slot(SIGNALLED, 0)], Free, Pushed(true), Waiting(true), c, LOG, true));
    run := run + [Send(1, DoUserData, 0, 0)];
    run := SenderGoes(run, Free, Pushed(true), Waiting(true), TestData(1), Free, DataPassed, Waiting(true));
    run := SenderGoes(run, Free, DataPassed, Waiting(true), TestEvents(1), Free, ToSignal, Waiting(true));
    run := SenderGoes(run, Free, ToSignal, Waiting(true), Lock(1), By(1), Locked, Waiting(true));
    run := SenderGoes(run, By(1), Locked, Waiting(true), Signal(1), By(1), Signalled, Woken);
    run := SenderGoes(run, By(1), Signalled, Woken, Unlock(1), Free, Outside, Woken);
  }

  lemma UpToEarlyDecision() returns (run: seq<Action>)
    ensures TimeOut !in run
    ensures Reaches(run, Sent([], Tem, Outside, Deciding, Control(true, true, 5, false),
                              LOG + [Outcome(SIGNALLED, false, 0)], false))
  {
    run := UpToSignal();
    var c, h := Control(true, true, 5, false), LOG + [Outcome(SIGNALLED, false, 0)];
    Go(run, Sent([Slot(SIGNALLED, 0)], Free, Outside, Woken, c, LOG, true), Acquire,
       Sent([Slot(SIGNALLED, 0)], Tem, Outside, Draining(true), c, LOG, true));
    run := run + [Acquire];
    Go(run, Sent([Slot(SIGNALLED, 0)], Tem, Outside, Draining(true), c, LOG, true), Pop,
       Sent([], Tem, Outside, Handling(true, Slot(SIGNALLED, 0)), c, LOG, true));
    run := run + [Pop];
    Go(run, Sent([], Tem, Outside, Handling(true, Slot(SIGNALLED, 0)), c, LOG, true), Handle(0),
       Sent([], Tem, Outside, Draining(true), c, h, true));
    run := run + [Handle(0)];
    Go(run, Sent([], Tem, Outside, Draining(true), c, h, true), Pop, Sent([], Tem, Outside, InnerCheck, c, h, false));
    run := run + [Pop];
    Go(run, Sent([], Tem, Outside, InnerCheck, c, h, false), CheckInner, Sent([], Tem, Outside, Deciding, c, h, false));
    run := run + [CheckInner];
  }

  /** A thread with a time limit that is woken early by a data event runs its timeout callback,
      though no wait timed out and its time is not over. */
  lemma EarlySignalCallsBack() returns (run: seq<Action>, s: State)
    ensures Reaches(run, s) && s.thread.InnerCallback? && TimeOut !in run
  {
    run := UpToEarlyDecision();
    var c, c', h := Control(true, true, 5, false), Control(true, true, 5, true), LOG + [Outcome(SIGNALLED, false, 0)];
    Go(run, Sent([], Tem, Outside, Deciding, c, h, false), Decide(false, 0),
       Sent([], Tem, Outside, Draining(true), c', h, false));
    run := run + [Decide(false, 0)];
    Go(run, Sent([], Tem, Outside, Draining(true), c', h, false), Pop,
       Sent([], Tem, Outside, InnerCheck, c', h, false));
    run := run + [Pop];
    s := Sent([], Tem, Outside, InnerCallback, c', h, false);
    Go(run, Sent([], Tem, Outside, InnerCheck, c', h, false), CheckInner, s);
    run := run + [CheckInner];
  }
}
