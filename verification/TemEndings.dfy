/** How the TEM thread ends: its last pop. */
module TemExit {
  import opened TemProtocol
  import opened TemSafety

  /** A pop, in this state, that finds the queue empty after an EXIT, with everything pushed so
      far handled; nothing is handled from here to `end`, which queues just what came later. */
  ghost predicate LastPop(s: State, a: Action, end: State) {
    && a.Pop? && s.queue == [] && ExitHandled(s)
    && EventsOf(s.log.handled) == s.log.pushed
    && end.log.handled == s.log.handled
    && s.log.pushed + Users(end.queue) == end.log.pushed
  }

  /** Some step of the run is such a pop. */
  ghost predicate HasLastPop(cfg: Config, s: State, run: seq<Action>, end: State)
    requires Legal(cfg, s, run)
    decreases |run|
  {
    run != [] && (LastPop(s, run[0], end) || HasLastPop(cfg, Apply(cfg, s, run[0]), run[1..], end))
  }

  predicate Leaving(t: Thread) { t.OuterCheck? || t.InnerCheck? || t.Releasing? || t.Gone? }

  /** Checks and the end are reached from a pop of an empty queue, and from each other. */
  lemma LeavingStep(cfg: Config, s: State, a: Action)
    requires Enabled(cfg, s, a) && Leaving(Apply(cfg, s, a).thread)
    ensures Leaving(s.thread) || (a.Pop? && s.queue == [])
    ensures Apply(cfg, s, a).log.handled == s.log.handled && Apply(cfg, s, a).control.bRun == s.control.bRun
  {
    if BySender(a) { SenderLeaves(cfg, s, a); }
  }

  lemma SenderLeaves(cfg: Config, s: State, a: Action)
    requires Enabled(cfg, s, a) && BySender(a)
    ensures Leaving(Apply(cfg, s, a).thread) ==> Leaving(s.thread)
    ensures Apply(cfg, s, a).log.handled == s.log.handled && Apply(cfg, s, a).control.bRun == s.control.bRun
  {
  }

  lemma PopIsLast(cfg: Config, s: State, end: State)
    requires Inv(s) && Inv(end) && Enabled(cfg, s, Pop) && s.queue == []
    requires end.thread.Gone? && end.log.handled == s.log.handled && end.control.bRun == s.control.bRun
    ensures LastPop(s, Pop, end)
  {
    assert EventsOf(s.log.handled) + [] + [] == EventsOf(s.log.handled);
    assert EventsOf(s.log.handled) + [] + Users(end.queue) == EventsOf(s.log.handled) + Users(end.queue);
  }

  lemma {:induction false} LeftOrPopped(cfg: Config, s: State, run: seq<Action>)
    requires Inv(s) && Legal(cfg, s, run) && Run(cfg, s, run).thread.Gone?
    ensures var end := Run(cfg, s, run);
      || HasLastPop(cfg, s, run, end)
      || (Leaving(s.thread) && end.log.handled == s.log.handled && end.control.bRun == s.control.bRun)
    decreases |run|
  {
    if run != [] {
      var s', end := Apply(cfg, s, run[0]), Run(cfg, s, run);
      RunKeepsInv(cfg, s, run);
      InvStep(cfg, s, run[0]);
      LeftOrPopped(cfg, s', run[1..]);
      if !HasLastPop(cfg, s', run[1..], end) {
        LeavingStep(cfg, s, run[0]);
        if !Leaving(s.thread) { PopIsLast(cfg, s, end); }
      }
    }
  }

  /** The thread ends only after a pop found the queue empty following an EXIT. Everything
      pushed before that pop was handled, nothing is handled after it, and what was pushed
      later is still queued. Once an EXIT was handled the thread never waits. */
  lemma GoneOnlyAfterExit(cfg: Config, run: seq<Action>)
    requires Legal(cfg, INITIAL, run)
    ensures var s := Run(cfg, INITIAL, run);
      && (s.thread.Gone? ==> HasLastPop(cfg, INITIAL, run, s))
      && (s.thread.Waiting? ==> !ExitHandled(s))
  {
    RunKeepsAll(cfg, []);
    RunKeepsAll(cfg, run);
    if Run(cfg, INITIAL, run).thread.Gone? { LeftOrPopped(cfg, INITIAL, run); }
  }
}

/** When the timeout callback runs without a start event having asked for it again. */
module TemCallbacks {
  import opened TemProtocol
  import opened TemSafety

  predicate CallingBack(t: Thread) { t.OuterCallback? || t.InnerCallback? }

  /** The run has a state in the timeout callback. */
  ghost predicate CallsBack(cfg: Config, s: State, run: seq<Action>)
    requires Legal(cfg, s, run)
    decreases |run|
  {
    CallingBack(s.thread) || (run != [] && CallsBack(cfg, Apply(cfg, s, run[0]), run[1..]))
  }

  /** The run comes to the end of a drain under the mutex with the thread still to run. */
  ghost predicate EndsDrain(cfg: Config, s: State, run: seq<Action>)
    requires Legal(cfg, s, run)
    decreases |run|
  {
    run != [] && ((run[0].CheckInner? && s.control.bRun) || EndsDrain(cfg, Apply(cfg, s, run[0]), run[1..]))
  }

  predicate Starts(s: State, a: Action) {
    a.Handle? && s.thread.Handling? && (s.thread.slot.ev.kind.StartMonitor? || s.thread.slot.ev.kind.StartOneShot?)
  }

  /** No start event is handled in the run. */
  ghost predicate NoStart(cfg: Config, s: State, run: seq<Action>)
    requires Legal(cfg, s, run)
    decreases |run|
  {
    run == [] || (!Starts(s, run[0]) && NoStart(cfg, Apply(cfg, s, run[0]), run[1..]))
  }

  // ---------- never ----------

  /** No time limit, no wait that timed out, and no callback under way. */
  predicate Quiet(s: State) {
    && (s.control.bRun ==> s.control.timeout == FOREVER_MS)
    && !s.control.timedOut && !CallingBack(s.thread) && s.thread != Waiting(true)
  }

  lemma QuietStep(cfg: Config, s: State, a: Action)
    requires RunInv(s) && Quiet(s) && Enabled(cfg, s, a) && !Starts(s, a)
    ensures Quiet(Apply(cfg, s, a))
  {
  }

  lemma {:induction false} QuietStays(cfg: Config, s: State, run: seq<Action>)
    requires RunInv(s) && Quiet(s) && Legal(cfg, s, run) && NoStart(cfg, s, run)
    ensures !CallsBack(cfg, s, run)
    decreases |run|
  {
    if run != [] {
      RunStep(cfg, s, run[0]);
      QuietStep(cfg, s, run[0]);
      QuietStays(cfg, Apply(cfg, s, run[0]), run[1..]);
    }
  }

  lemma {:induction false} NoneSet(cfg: Config, s: State, run: seq<Action>)
    requires !cfg.hasTimeoutCallback && !CallingBack(s.thread) && Legal(cfg, s, run)
    ensures !CallsBack(cfg, s, run)
    decreases |run|
  {
    if run != [] { NoneSet(cfg, Apply(cfg, s, run[0]), run[1..]); }
  }

  // ---------- always ----------

  /** On the way to the next check under the mutex. */
  predicate BeforeCheck(t: Thread) {
    || t.Woken? || t.Draining? || t.Handling? || t.OuterCheck? || t.Acquiring? || t.InnerCheck?
    || t.Releasing? || t.Gone?
  }

  /** On the way there with a wait that timed out. A thread about to leave stays on the way. */
  predicate Armed(s: State) {
    && (s.control.bRun ==> s.control.timeout != 0)
    && s.control.timedOut && BeforeCheck(s.thread)
    && (s.thread.Releasing? ==> !s.control.bRun)
  }

  lemma ArmedStep(cfg: Config, s: State, a: Action)
    requires Armed(s) && Enabled(cfg, s, a) && !Starts(s, a)
    ensures if a.CheckInner? && s.control.bRun && cfg.hasTimeoutCallback
            then CallingBack(Apply(cfg, s, a).thread)
            else (a.CheckInner? && s.control.bRun) || Armed(Apply(cfg, s, a))
  {
  }

  lemma {:induction false} ArmedCalls(cfg: Config, s: State, run: seq<Action>)
    requires Armed(s) && Legal(cfg, s, run) && NoStart(cfg, s, run) && cfg.hasTimeoutCallback
    ensures CallsBack(cfg, s, run) <==> EndsDrain(cfg, s, run)
    decreases |run|
  {
    if run != [] {
      ArmedStep(cfg, s, run[0]);
      var s' := Apply(cfg, s, run[0]);
      if run[0].CheckInner? && s.control.bRun {
        assert CallsBack(cfg, s', run[1..]);
      } else {
        ArmedCalls(cfg, s', run[1..]);
      }
    }
  }

  /** After a stop event and before the next start event the timeout callback runs if and only
      if there is one, the last wait before the stop had timed out, and the drain ends with the
      thread still to run. */
  lemma StopSilencesExactly(cfg: Config, pre: seq<Action>, ms: nat, run: seq<Action>)
    requires Legal(cfg, INITIAL, pre)
    requires var s := Run(cfg, INITIAL, pre);
      && Enabled(cfg, s, Handle(ms)) && s.thread.slot.ev.kind.Stop?
      && Legal(cfg, Apply(cfg, s, Handle(ms)), run) && NoStart(cfg, Apply(cfg, s, Handle(ms)), run)
    ensures var s := Run(cfg, INITIAL, pre);
      CallsBack(cfg, Apply(cfg, s, Handle(ms)), run) <==>
        cfg.hasTimeoutCallback && s.control.timedOut && EndsDrain(cfg, Apply(cfg, s, Handle(ms)), run)
  {
    RunKeepsAll(cfg, pre);
    var s := Run(cfg, INITIAL, pre);
    var s' := Apply(cfg, s, Handle(ms));
    RunStep(cfg, s, Handle(ms));
    if !cfg.hasTimeoutCallback {
      NoneSet(cfg, s', run);
    } else if s.control.timedOut {
      ArmedCalls(cfg, s', run);
    } else {
      QuietStays(cfg, s', run);
    }
  }

  /** A thread with a time limit that is woken early waits again if and only if its time is over
      or the reset flag is set, and the callback took less than the limit. Otherwise the wait
      counts as timed out: before the next start event the callback runs if and only if there is
      one and the drain that follows at once ends with the thread still to run. */
  lemma EarlyWakeExactly(cfg: Config, pre: seq<Action>, expired: bool, funcRunTime: nat, run: seq<Action>)
    requires Legal(cfg, INITIAL, pre)
    requires var s := Run(cfg, INITIAL, pre);
      && s.thread.Deciding? && s.control.timeout != FOREVER_MS
      && Legal(cfg, Apply(cfg, s, Decide(expired, funcRunTime)), run)
      && NoStart(cfg, Apply(cfg, s, Decide(expired, funcRunTime)), run)
    ensures var s := Run(cfg, INITIAL, pre);
      var s' := Apply(cfg, s, Decide(expired, funcRunTime));
      if (expired || cfg.resetTimer) && funcRunTime < s.control.timeout then s'.thread == Waiting(true)
      else
        && s'.thread == Draining(true)
        && (CallsBack(cfg, s', run) <==> cfg.hasTimeoutCallback && EndsDrain(cfg, s', run))
  {
    RunKeepsAll(cfg, pre);
    var s := Run(cfg, INITIAL, pre);
    var s' := Apply(cfg, s, Decide(expired, funcRunTime));
    if s'.thread.Draining? {
      if cfg.hasTimeoutCallback { ArmedCalls(cfg, s', run); } else { NoneSet(cfg, s', run); }
    }
  }

  // ---------- awake until the time is over ----------

  /** In no decision of the run the time of the thread is over. */
  predicate TimeLeft(run: seq<Action>) { forall i :: 0 <= i < |run| && run[i].Decide? ==> !run[i].expired }

  /** In the whole run the thread waits only without a time limit, and as long as it has a limit
      and is to run, every drain under the mutex is followed by the callback, if there is one. */
  ghost predicate Spins(cfg: Config, s: State, run: seq<Action>)
    requires Legal(cfg, s, run)
    decreases |run|
  {
    && (s.thread.Waiting? ==> s.control.timeout == FOREVER_MS)
    && (run != [] ==>
      && (Limited(s) && run[0].CheckInner? && cfg.hasTimeoutCallback ==>
           Apply(cfg, s, run[0]).thread.InnerCallback?)
      && Spins(cfg, Apply(cfg, s, run[0]), run[1..]))
  }

  predicate Limited(s: State) { s.control.bRun && s.control.timeout != FOREVER_MS }

  /** The last wait is taken to have timed out, and there was none since. */
  predicate Awake(s: State) {
    && (Limited(s) ==> s.control.timedOut && s.control.timeout != 0 && !s.thread.Waiting? && !s.thread.Woken?)
    && (s.thread.Waiting? ==> s.control.timeout == FOREVER_MS)
  }

  lemma AwakeStep(cfg: Config, s: State, a: Action)
    requires RunInv(s) && Awake(s) && Enabled(cfg, s, a) && !Starts(s, a)
    requires !cfg.resetTimer && (a.Decide? ==> !a.expired)
    ensures Awake(Apply(cfg, s, a))
    ensures Limited(s) && a.CheckInner? && cfg.hasTimeoutCallback ==> Apply(cfg, s, a).thread.InnerCallback?
  {
  }

  lemma {:induction false} AwakeSpins(cfg: Config, s: State, run: seq<Action>)
    requires RunInv(s) && Awake(s) && Legal(cfg, s, run) && NoStart(cfg, s, run)
    requires !cfg.resetTimer && TimeLeft(run)
    ensures Spins(cfg, s, run)
    decreases |run|
  {
    if run != [] {
      RunStep(cfg, s, run[0]);
      AwakeStep(cfg, s, run[0]);
      AwakeSpins(cfg, Apply(cfg, s, run[0]), run[1..]);
    }
  }

  /** With the reset flag off, a thread with a time limit that is woken early does not wait again
      until its time is over or the limit is lifted: it calls back after each drain instead. */
  lemma EarlyWakeSpins(cfg: Config, pre: seq<Action>, funcRunTime: nat, run: seq<Action>)
    requires Legal(cfg, INITIAL, pre) && !cfg.resetTimer && TimeLeft(run)
    requires var s := Run(cfg, INITIAL, pre);
      && s.thread.Deciding? && s.control.timeout != FOREVER_MS
      && Legal(cfg, Apply(cfg, s, Decide(false, funcRunTime)), run)
      && NoStart(cfg, Apply(cfg, s, Decide(false, funcRunTime)), run)
    ensures Spins(cfg, Apply(cfg, Run(cfg, INITIAL, pre), Decide(false, funcRunTime)), run)
  {
    RunKeepsAll(cfg, pre);
    var s := Run(cfg, INITIAL, pre);
    RunStep(cfg, s, Decide(false, funcRunTime));
    AwakeSpins(cfg, Apply(cfg, s, Decide(false, funcRunTime)), run);
  }
}
