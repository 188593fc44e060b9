/** What a start event brings about, over every run. */
module TemStarts {
  import opened TemProtocol
  import opened TemSafety
  import opened TemCallbacks
  import L = TemLostWakeup

  // ---------- the limit ----------

  predicate CallbackEnds(a: Action) { a.EndOuterCallback? || a.EndInnerCallback? }

  predicate Handles(s: State, a: Action) { a.Handle? && s.thread.Handling? }

  /** The step handles an event that is to change the limit or end the thread. */
  predicate Controls(s: State, a: Action) {
    Handles(s, a) && !s.thread.slot.ev.kind.DoUserData? && !s.thread.slot.ev.kind.Bracket()
  }

  ghost predicate Uncontrolled(cfg: Config, s: State, run: seq<Action>)
    requires Legal(cfg, s, run)
    decreases |run|
  {
    run == [] || (!Controls(s, run[0]) && Uncontrolled(cfg, Apply(cfg, s, run[0]), run[1..]))
  }

  /** A sender changes no local of the thread but the outcome of its wait. */
  lemma SenderControl(cfg: Config, s: State, a: Action)
    requires Enabled(cfg, s, a) && BySender(a)
    ensures var c := Apply(cfg, s, a).control; c == s.control.(timedOut := c.timedOut)
  {
  }

  lemma LimitStep(cfg: Config, s: State, a: Action)
    requires Enabled(cfg, s, a) && !Controls(s, a) && !(s.control.oneShot && CallbackEnds(a))
    ensures var c := Apply(cfg, s, a).control; c == s.control.(timedOut := c.timedOut)
  {
    if BySender(a) { SenderControl(cfg, s, a); }
  }

  lemma {:induction false} LimitStays(cfg: Config, s: State, run: seq<Action>)
    requires Legal(cfg, s, run) && Uncontrolled(cfg, s, run) && !s.control.oneShot
    ensures var c := Run(cfg, s, run).control; c == s.control.(timedOut := c.timedOut)
    decreases |run|
  {
    if run != [] {
      LimitStep(cfg, s, run[0]);
      LimitStays(cfg, Apply(cfg, s, run[0]), run[1..]);
    }
  }

  lemma {:induction false} LimitUntilCallback(cfg: Config, s: State, run: seq<Action>)
    requires Legal(cfg, s, run) && Uncontrolled(cfg, s, run)
    requires forall i :: 0 <= i < |run| ==> !CallbackEnds(run[i])
    ensures var c := Run(cfg, s, run).control; c == s.control.(timedOut := c.timedOut)
    decreases |run|
  {
    if run != [] {
      LimitStep(cfg, s, run[0]);
      LimitUntilCallback(cfg, Apply(cfg, s, run[0]), run[1..]);
    }
  }

  /** A one-shot start sets the limit until a callback has ended, which lifts it. */
  lemma OneShotLimit(cfg: Config, s: State, ms: nat, run: seq<Action>)
    requires Enabled(cfg, s, Handle(ms)) && s.thread.slot.ev.kind.StartOneShot?
    requires Legal(cfg, Apply(cfg, s, Handle(ms)), run) && Uncontrolled(cfg, Apply(cfg, s, Handle(ms)), run)
    requires forall i :: 0 <= i < |run| ==> !CallbackEnds(run[i])
    ensures var s' := Run(cfg, Apply(cfg, s, Handle(ms)), run);
      && s'.control.timeout == ms && s'.control.oneShot
      && (CallingBack(s'.thread) && Pc(s', SELF).Outside? ==>
           var end := if s'.thread.OuterCallback? then EndOuterCallback else EndInnerCallback;
           Enabled(cfg, s', end) && Apply(cfg, s', end).control.timeout == FOREVER_MS)
  {
    LimitUntilCallback(cfg, Apply(cfg, s, Handle(ms)), run);
  }

  /** A monitor start handled with the one-shot flag off sets the limit for good: in every run it
      is the same through every callback, until another start, a stop or an exit is handled. */
  lemma MonitorGoesOn(cfg: Config, s: State, ms: nat, run: seq<Action>)
    requires Enabled(cfg, s, Handle(ms)) && s.thread.slot.ev.kind.StartMonitor? && !s.control.oneShot
    requires Legal(cfg, Apply(cfg, s, Handle(ms)), run) && Uncontrolled(cfg, Apply(cfg, s, Handle(ms)), run)
    ensures var c := Run(cfg, Apply(cfg, s, Handle(ms)), run).control;
      c.timeout == ms && !c.oneShot && c.bRun == s.control.bRun
  {
    LimitStays(cfg, Apply(cfg, s, Handle(ms)), run);
  }

  /** In the whole run the thread does not wait, and every drain outside the mutex is followed by
      the callback, if there is one. */
  ghost predicate CallsOutside(cfg: Config, s: State, run: seq<Action>)
    requires Legal(cfg, s, run)
    decreases |run|
  {
    && !s.thread.Waiting?
    && (run != [] ==>
      && (run[0].CheckOuter? && cfg.hasTimeoutCallback ==> Apply(cfg, s, run[0]).thread.OuterCallback?)
      && CallsOutside(cfg, Apply(cfg, s, run[0]), run[1..]))
  }

  lemma {:induction false} ZeroSpins(cfg: Config, s: State, run: seq<Action>)
    requires RunInv(s) && !s.thread.Waiting? && Legal(cfg, s, run) && Uncontrolled(cfg, s, run)
    requires s.control.bRun && s.control.timeout == 0 && !s.control.oneShot
    ensures CallsOutside(cfg, s, run)
    decreases |run|
  {
    if run != [] {
      RunStep(cfg, s, run[0]);
      LimitStep(cfg, s, run[0]);
      ZeroSpins(cfg, Apply(cfg, s, run[0]), run[1..]);
    }
  }

  /** A monitor with a limit of zero calls back after every drain outside the mutex and never
      waits. */
  lemma ZeroMonitorSpins(cfg: Config, pre: seq<Action>, run: seq<Action>)
    requires Legal(cfg, INITIAL, pre)
    requires var s := Run(cfg, INITIAL, pre);
      && Enabled(cfg, s, Handle(0)) && s.thread.slot.ev.kind.StartMonitor? && s.control.bRun && !s.control.oneShot
      && Legal(cfg, Apply(cfg, s, Handle(0)), run) && Uncontrolled(cfg, Apply(cfg, s, Handle(0)), run)
    ensures CallsOutside(cfg, Apply(cfg, Run(cfg, INITIAL, pre), Handle(0)), run)
  {
    RunKeepsAll(cfg, pre);
    var s := Run(cfg, INITIAL, pre);
    RunStep(cfg, s, Handle(0));
    ZeroSpins(cfg, Apply(cfg, s, Handle(0)), run);
  }

  // ---------- every wait that times out ----------

  /** A thread waits with the time limit it has, if it has one. */
  predicate WaitsAsLimited(s: State) {
    s.thread.Waiting? ==> s.control.timeout != 0 && (s.thread.timed <==> s.control.timeout != FOREVER_MS)
  }

  lemma WaitStep(cfg: Config, s: State, a: Action)
    requires RunInv(s) && WaitsAsLimited(s) && Enabled(cfg, s, a)
    ensures WaitsAsLimited(Apply(cfg, s, a))
  {
  }

  lemma {:induction false} WaitStays(cfg: Config, s: State, run: seq<Action>)
    requires RunInv(s) && WaitsAsLimited(s) && Legal(cfg, s, run)
    ensures WaitsAsLimited(Run(cfg, s, run))
    decreases |run|
  {
    if run != [] {
      RunStep(cfg, s, run[0]);
      WaitStep(cfg, s, run[0]);
      WaitStays(cfg, Apply(cfg, s, run[0]), run[1..]);
    }
  }

  lemma TimedOutArms(cfg: Config, s: State, run: seq<Action>)
    requires RunInv(s) && WaitsAsLimited(s) && s.thread == Waiting(true)
    requires Legal(cfg, Apply(cfg, s, TimeOut), run) && NoStart(cfg, Apply(cfg, s, TimeOut), run)
    ensures CallsBack(cfg, Apply(cfg, s, TimeOut), run) <==>
      cfg.hasTimeoutCallback && EndsDrain(cfg, Apply(cfg, s, TimeOut), run)
  {
    var s' := Apply(cfg, s, TimeOut);
    if cfg.hasTimeoutCallback { ArmedCalls(cfg, s', run); } else { NoneSet(cfg, s', run); }
  }

  lemma WaitIsLimited(cfg: Config, pre: seq<Action>)
    requires Legal(cfg, INITIAL, pre)
    ensures RunInv(Run(cfg, INITIAL, pre)) && WaitsAsLimited(Run(cfg, INITIAL, pre))
  {
    RunKeepsAll(cfg, []);
    RunKeepsAll(cfg, pre);
    WaitStays(cfg, INITIAL, pre);
  }

  /** In every run a wait has a time limit exactly when the thread has one, and when it times out
      the callback runs before the next start event if and only if there is one and the drain
      that follows ends with the thread still to run. */
  lemma TimedOutCallsBack(cfg: Config, pre: seq<Action>, run: seq<Action>)
    requires Legal(cfg, INITIAL, pre) && Run(cfg, INITIAL, pre).thread.Waiting?
    ensures var s := Run(cfg, INITIAL, pre); s.thread.timed <==> s.control.timeout != FOREVER_MS
    ensures var s := Run(cfg, INITIAL, pre);
      s.thread.timed && Legal(cfg, Apply(cfg, s, TimeOut), run) && NoStart(cfg, Apply(cfg, s, TimeOut), run) ==>
        (CallsBack(cfg, Apply(cfg, s, TimeOut), run) <==>
           cfg.hasTimeoutCallback && EndsDrain(cfg, Apply(cfg, s, TimeOut), run))
  {
    WaitIsLimited(cfg, pre);
    var s := Run(cfg, INITIAL, pre);
    if s.thread.timed && Legal(cfg, Apply(cfg, s, TimeOut), run) && NoStart(cfg, Apply(cfg, s, TimeOut), run) {
      TimedOutArms(cfg, s, run);
    }
  }

  // ---------- one shot ----------

  predicate StartsOneShot(s: State, a: Action) { Handles(s, a) && s.thread.slot.ev.kind.StartOneShot? }

  /** Whether a one-shot start was handled in the run, or before it, and no callback has ended
      since. */
  ghost predicate OneShotDue(cfg: Config, s: State, run: seq<Action>, before: bool)
    requires Legal(cfg, s, run)
    decreases |run|
  {
    if run == [] then before
    else
      OneShotDue(cfg, Apply(cfg, s, run[0]), run[1..],
                 StartsOneShot(s, run[0]) || (before && !CallbackEnds(run[0])))
  }

  /** In every run the one-shot flag says just that: stops and monitor starts leave it alone. */
  lemma {:induction false} OneShotFlag(cfg: Config, s: State, run: seq<Action>)
    requires Legal(cfg, s, run)
    ensures Run(cfg, s, run).control.oneShot <==> OneShotDue(cfg, s, run, s.control.oneShot)
    decreases |run|
  {
    if run != [] {
      FlagStep(cfg, s, run[0]);
      OneShotFlag(cfg, Apply(cfg, s, run[0]), run[1..]);
    }
  }

  lemma FlagStep(cfg: Config, s: State, a: Action)
    requires Enabled(cfg, s, a)
    ensures Apply(cfg, s, a).control.oneShot <==> StartsOneShot(s, a) || (s.control.oneShot && !CallbackEnds(a))
  {
    if BySender(a) { SenderControl(cfg, s, a); }
  }

  /** How often the timeout callback begins in the run. */
  ghost function Calls(cfg: Config, s: State, run: seq<Action>): nat
    requires Legal(cfg, s, run)
    decreases |run|
  {
    if run == [] then 0
    else
      var s' := Apply(cfg, s, run[0]);
      (if CallingBack(s'.thread) && !CallingBack(s.thread) then 1 else 0) + Calls(cfg, s', run[1..])
  }

  /** The flag is on, or the limit was lifted. */
  predicate Expiring(s: State) {
    && (s.control.bRun ==> s.control.oneShot || s.control.timeout == FOREVER_MS)
    && (s.thread.OuterCallback? ==> s.control.oneShot)
    && WaitsAsLimited(s)
  }

  /** How many callbacks may still begin. */
  function Left(s: State): nat {
    var stale := if s.control.timedOut then 1 else 0;
    if !s.control.bRun || s.thread.InnerCallback? then 0
    else if s.thread.OuterCallback? then stale
    else if s.thread.Waiting? then (if s.thread.timed then 1 else 0)
    else if s.control.timeout == FOREVER_MS then (if s.thread.Deciding? then 0 else stale)
    else if s.control.timeout == 0 then 1 + stale
    else 1
  }

  lemma ExpiringSender(cfg: Config, s: State, a: Action)
    requires Expiring(s) && Enabled(cfg, s, a) && BySender(a)
    ensures var s' := Apply(cfg, s, a);
      Expiring(s') && Left(s') <= Left(s) && CallingBack(s'.thread) == CallingBack(s.thread)
  {
    SenderControl(cfg, s, a);
  }

  lemma ExpiringStep(cfg: Config, s: State, a: Action)
    requires RunInv(s) && Expiring(s) && Enabled(cfg, s, a) && !Starts(s, a)
    ensures Expiring(Apply(cfg, s, a))
    ensures var s' := Apply(cfg, s, a);
      (if CallingBack(s'.thread) && !CallingBack(s.thread) then 1 else 0) + Left(s') <= Left(s)
  {
    if BySender(a) { ExpiringSender(cfg, s, a); }
  }

  lemma {:induction false} ExpiringCalls(cfg: Config, s: State, run: seq<Action>)
    requires RunInv(s) && Expiring(s) && Legal(cfg, s, run) && NoStart(cfg, s, run)
    ensures Calls(cfg, s, run) <= Left(s)
    decreases |run|
  {
    if run != [] {
      RunStep(cfg, s, run[0]);
      ExpiringStep(cfg, s, run[0]);
      ExpiringCalls(cfg, Apply(cfg, s, run[0]), run[1..]);
    }
  }

  /** After a start event handled with the one-shot flag then on, the callback begins at most once
      before the next start event and never after that; only when the limit is zero and the wait
      before had timed out can there be a second one. */
  lemma OneShotOnce(cfg: Config, pre: seq<Action>, ms: nat, run: seq<Action>)
    requires Legal(cfg, INITIAL, pre)
    requires var s := Run(cfg, INITIAL, pre);
      && Enabled(cfg, s, Handle(ms)) && Starts(s, Handle(ms))
      && (s.thread.slot.ev.kind.StartOneShot? || s.control.oneShot)
      && Legal(cfg, Apply(cfg, s, Handle(ms)), run) && NoStart(cfg, Apply(cfg, s, Handle(ms)), run)
    ensures var s := Run(cfg, INITIAL, pre);
      Calls(cfg, Apply(cfg, s, Handle(ms)), run) <= if ms == 0 && s.control.timedOut then 2 else 1
  {
    RunKeepsAll(cfg, pre);
    var s := Run(cfg, INITIAL, pre);
    RunStep(cfg, s, Handle(ms));
    ExpiringCalls(cfg, Apply(cfg, s, Handle(ms)), run);
  }

  // ---------- a second shot ----------

  const AGAIN := Event(StartOneShot, 1, 0, 0)

  /** A second one-shot start pushed by sender 1, who then stands still. */
  function Again(q: seq<Slot>, owner: Owner, t: Thread, c: Control, handled: seq<Outcome>, recent: bool): State {
    State(q, |q|, 0, owner, map[1 := Pushed(false)], t, c, Counter(0, 0),
          Log([L.START, AGAIN], handled, []), false, recent)
  }

  lemma UpToAgain() returns (run: seq<Action>)
    ensures L.Reaches(run, Again([Slot(AGAIN, 0)], Tem, Draining(true), Control(true, true, 5, true), L.LOG, true))
  {
    run := L.UpToTimedWait();
    var q, c, c' := [Slot(AGAIN, 0)], Control(true, true, 5, false), Control(true, true, 5, true);
    assert map[1 := Outside][1 := Pushed(false)] == map[1 := Pushed(false)];
    L.Go(run, L.Started([], Free, Waiting(true), c, L.LOG, false), Send(1, StartOneShot, 0, 0),
         Again(q, Free, Waiting(true), c, L.LOG, true));
    run := run + [Send(1, StartOneShot, 0, 0)];
    L.Go(run, Again(q, Free, Waiting(true), c, L.LOG, true), TimeOut, Again(q, Free, Woken, c', L.LOG, true));
    run := run + [TimeOut];
    L.Go(run, Again(q, Free, Woken, c', L.LOG, true), Acquire, Again(q, Tem, Draining(true), c', L.LOG, true));
    run := run + [Acquire];
  }

  lemma UpToFirst() returns (run: seq<Action>)
    ensures L.Reaches(run, Again([], Free, OuterCallback, Control(true, true, 0, true),
                                 L.LOG + [Outcome(AGAIN, false, 0)], false))
  {
    run := UpToAgain();
    var c, c', h := Control(true, true, 5, true), Control(true, true, 0, true), L.LOG + [Outcome(AGAIN, false, 0)];
    L.Go(run, Again([Slot(AGAIN, 0)], Tem, Draining(true), c, L.LOG, true), Pop,
         Again([], Tem, Handling(true, Slot(AGAIN, 0)), c, L.LOG, true));
    run := run + [Pop];
    L.Go(run, Again([], Tem, Handling(true, Slot(AGAIN, 0)), c, L.LOG, true), Handle(0),
         Again([], Tem, Draining(true), c', h, true));
    run := run + [Handle(0)];
    L.Go(run, Again([], Tem, Draining(true), c', h, true), Pop, Again([], Tem, InnerCheck, c', h, false));
    run := run + [Pop];
    L.Go(run, Again([], Tem, InnerCheck, c', h, false), CheckInner, Again([], Tem, Releasing, c', h, false));
    run := run + [CheckInner];
    L.Go(run, Again([], Tem, Releasing, c', h, false), Release, Again([], Free, Draining(false), c', h, false));
    run := run + [Release];
    L.Go(run, Again([], Free, Draining(false), c', h, false), Pop, Again([], Free, OuterCheck, c', h, false));
    run := run + [Pop];
    L.Go(run, Again([], Free, OuterCheck, c', h, false), CheckOuter, Again([], Free, OuterCallback, c', h, false));
    run := run + [CheckOuter];
  }

  /** The second callback of a one-shot start with limit zero, after a wait that timed out: the
      run goes on from the first callback to another without handling anything. */
  lemma OneShotTwice() returns (run: seq<Action>, more: seq<Action>, s: State, s': State)
    ensures L.Reaches(run, s) && s.thread.OuterCallback? && s.control.oneShot
    ensures s.log.handled != [] && s.log.handled[|s.log.handled| - 1].ev.kind.StartOneShot?
    ensures L.Reaches(run + more, s') && s'.thread.InnerCallback? && s'.log.handled == s.log.handled
  {
    run := UpToFirst();
    var c, c' := Control(true, true, 0, true), Control(true, false, FOREVER_MS, true);
    var h := L.LOG + [Outcome(AGAIN, false, 0)];
    s := Again([], Free, OuterCallback, c, h, false);
    L.Go(run, s, EndOuterCallback, Again([], Free, Acquiring, c', h, false));
    var r1 := run + [EndOuterCallback];
    L.Go(r1, Again([], Free, Acquiring, c', h, false), Acquire, Again([], Tem, Draining(true), c', h, false));
    var r2 := r1 + [Acquire];
    L.Go(r2, Again([], Tem, Draining(true), c', h, false), Pop, Again([], Tem, InnerCheck, c', h, false));
    var r3 := r2 + [Pop];
    s' := Again([], Tem, InnerCallback, c', h, false);
    L.Go(r3, Again([], Tem, InnerCheck, c', h, false), CheckInner, s');
    more := [EndOuterCallback, Acquire, Pop, CheckInner];
    assert run + more == r3 + [CheckInner];
  }
}
