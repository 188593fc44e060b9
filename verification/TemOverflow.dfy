/** When events are dropped at all: the two overflow tests of _TemPushEvent, over every run. */
module TemOverflow {
  import opened TemProtocol
  import opened TemSafety

  /** Whether the step is a test by p that finds the queue over a limit it has. `data` says that
      the last event p sent is a data event; others are not tested. */
  predicate Overflows(cfg: Config, s: State, a: Action, p: nat, data: bool) {
    || (a == TestData(p) && data && cfg.dropData && s.dataCnt > cfg.maxData)
    || (a == TestEvents(p) && cfg.dropEvents && s.listCnt > cfg.maxEvents)
  }

  /** Whether the step is a test by p of a data event that finds the data within its limit. */
  predicate Passes(cfg: Config, s: State, a: Action, p: nat, data: bool) {
    a == TestData(p) && data && !(cfg.dropData && s.dataCnt > cfg.maxData)
  }

  ghost function PassesBy(cfg: Config, s: State, run: seq<Action>, p: nat, data: bool): nat
    requires Legal(cfg, s, run)
    decreases |run|
  {
    if run == [] then 0
    else
      (if Passes(cfg, s, run[0], p, data) then 1 else 0) +
      PassesBy(cfg, Apply(cfg, s, run[0]), run[1..], p, SentData(run[0], p, data))
  }

  function TestsBy(run: seq<Action>, p: nat): nat {
    if run == [] then 0 else (if run[0] == TestEvents(p) then 1 else 0) + TestsBy(run[1..], p)
  }

  function SentData(a: Action, p: nat, before: bool): bool {
    if a.Send? && a.p == p then a.kind.DoUserData? else before
  }

  /** How often a test by p found the queue over a limit. */
  ghost function OverflowsBy(cfg: Config, s: State, run: seq<Action>, p: nat, data: bool): nat
    requires Legal(cfg, s, run)
    decreases |run|
  {
    if run == [] then 0
    else
      (if Overflows(cfg, s, run[0], p, data) then 1 else 0) +
      OverflowsBy(cfg, Apply(cfg, s, run[0]), run[1..], p, SentData(run[0], p, data))
  }

  function BracketsBy(run: seq<Action>, p: nat): nat {
    if run == [] then 0 else (if run[0] == Bracket(p) then 1 else 0) + BracketsBy(run[1..], p)
  }

  /** What a sender in between still owes. */
  function Owed(s: State, p: nat): nat { if Pc(s, p).Overflowed? then 1 else 0 }

  function Untested(s: State, p: nat): nat { if Pc(s, p).DataPassed? then 1 else 0 }

  predicate KindNoted(s: State, p: nat, data: bool) { Pc(s, p).Pushed? ==> Pc(s, p).data == data }

  lemma OverflowStep(cfg: Config, s: State, a: Action, p: nat, data: bool)
    requires Enabled(cfg, s, a) && KindNoted(s, p, data)
    ensures KindNoted(Apply(cfg, s, a), p, SentData(a, p, data))
    ensures (if a == Bracket(p) then 1 else 0) + Owed(Apply(cfg, s, a), p)
         == Owed(s, p) + if Overflows(cfg, s, a, p, data) then 1 else 0
    ensures (if a == TestEvents(p) then 1 else 0) + Untested(Apply(cfg, s, a), p)
         == Untested(s, p) + if Passes(cfg, s, a, p, data) then 1 else 0
  {
    if BySender(a) { SenderMoves(cfg, s, a, p); } else { ThreadMoves(cfg, s, a); }
  }

  lemma {:induction false} BracketsFrom(cfg: Config, s: State, run: seq<Action>, p: nat, data: bool)
    requires Legal(cfg, s, run) && KindNoted(s, p, data)
    ensures BracketsBy(run, p) + Owed(Run(cfg, s, run), p) == Owed(s, p) + OverflowsBy(cfg, s, run, p, data)
    ensures TestsBy(run, p) + Untested(Run(cfg, s, run), p) == Untested(s, p) + PassesBy(cfg, s, run, p, data)
    decreases |run|
  {
    if run != [] {
      OverflowStep(cfg, s, run[0], p, data);
      BracketsFrom(cfg, Apply(cfg, s, run[0]), run[1..], p, SentData(run[0], p, data));
    }
  }

  /** In every run each sender inserts one bracket for each of its data events that it finds over
      a limit, and none for anything else, and tests the number of events after each data event
      that it finds within the data limit, except that one step may still be to come. */
  lemma BracketsMatchOverflows(cfg: Config, run: seq<Action>, p: nat, data: bool)
    requires Legal(cfg, INITIAL, run)
    ensures BracketsBy(run, p) + Owed(Run(cfg, INITIAL, run), p) == OverflowsBy(cfg, INITIAL, run, p, data)
    ensures TestsBy(run, p) + Untested(Run(cfg, INITIAL, run), p) == PassesBy(cfg, INITIAL, run, p, data)
  {
    BracketsFrom(cfg, INITIAL, run, p, data);
  }

  // ---------- nothing is dropped ----------

  ghost predicate Unwrapped(s: State) {
    && (forall i :: 0 <= i < |s.queue| ==> s.queue[i].wraps == 0)
    && (s.thread.Handling? ==> s.thread.slot.wraps == 0)
    && (forall i :: 0 <= i < |s.log.handled| ==> s.log.handled[i].wraps == 0)
  }

  lemma UnwrappedStep(cfg: Config, s: State, a: Action)
    requires Unwrapped(s) && Enabled(cfg, s, a) && !a.Bracket?
    ensures Unwrapped(Apply(cfg, s, a))
  {
    if !a.Send? && !a.Pop? && !a.Handle? { QuietStep(cfg, s, a); }
  }

  lemma {:induction false} UnwrappedRun(cfg: Config, s: State, run: seq<Action>)
    requires Unwrapped(s) && Legal(cfg, s, run) && forall i :: 0 <= i < |run| ==> !run[i].Bracket?
    ensures Unwrapped(Run(cfg, s, run))
    decreases |run|
  {
    if run != [] {
      UnwrappedStep(cfg, s, run[0]);
      UnwrappedRun(cfg, Apply(cfg, s, run[0]), run[1..]);
    }
  }

  lemma {:induction false} BracketCounted(run: seq<Action>, i: nat)
    requires i < |run| && run[i].Bracket?
    ensures BracketsBy(run, run[i].p) > 0
  {
    if i > 0 { BracketCounted(run[1..], i - 1); }
  }

  /** In every run in which no test finds the queue over a limit, nothing is dropped. */
  lemma NothingDropped(cfg: Config, run: seq<Action>)
    requires Legal(cfg, INITIAL, run)
    requires forall p: nat :: OverflowsBy(cfg, INITIAL, run, p, false) == 0
    ensures var h := Run(cfg, INITIAL, run).log.handled; forall i :: 0 <= i < |h| ==> !h[i].dropped
  {
    forall i | 0 <= i < |run| ensures !run[i].Bracket? {
      if run[i].Bracket? {
        BracketCounted(run, i);
        BracketsMatchOverflows(cfg, run, run[i].p, false);
      }
    }
    UnwrappedRun(cfg, INITIAL, run);
    DropsExactlyTheWrapped(cfg, run);
  }
}
