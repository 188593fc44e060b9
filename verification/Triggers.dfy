/** Event trigger ids: bit i of the 32-bit map stands for trigger number i, counted from the
    most significant bit. */
module TriggerBits {

  const MAX_NUM_EVENT_TRIGGERS := 32

  type EventTriggerId = bv32

  function Bit(i: nat): bv32
    requires i < 32
  {
    (0x8000_0000 as bv32) >> i
  }

  predicate On(x: bv32, mask: bv32) { x & mask != 0 }

  predicate Has(x: bv32, i: nat)
    requires i < 32
  {
    On(x, Bit(i))
  }

  function Bits(x: bv32): set<nat> {
    set i: nat | i < 32 && Has(x, i)
  }

  /** The mask of the next trigger: one place down, and from the lowest place back to the top. */
  function Rotate(mask: bv32): bv32 {
    if mask >> 1 == 0 then 0x8000_0000 else mask >> 1
  }

  lemma RotateBit(i: nat)
    requires i < 32
    ensures Rotate(Bit(i)) == Bit((i + 1) % 32)
  {
  }

  lemma ShiftBit(i: nat)
    requires i < 31
    ensures Bit(i) >> 1 == Bit(i + 1)
  {
  }

  lemma BitIn(i: nat, j: nat)
    requires i < 32 && j < 32
    ensures (Bit(i) & Bit(j)) != 0 <==> i == j
  {
  }

  lemma BitsOfBit(i: nat)
    requires i < 32
    ensures Bits(Bit(i)) == {i}
  {
    forall j: nat | j < 32 ensures j in Bits(Bit(i)) <==> i == j { BitIn(i, j); }
  }

  /** `mask` is wholly in y or wholly outside it. */
  predicate Clean(y: bv32, mask: bv32) { y & mask == 0 || y & mask == mask }

  lemma OneBit(y: bv32, j: nat)
    requires j < 32
    ensures Clean(y, Bit(j))
  {
  }

  lemma KeepsOn(x: bv32, y: bv32, mask: bv32)
    requires y & mask == 0
    ensures On(x & !y, mask) == On(x, mask)
  {
    assert (x & !y) & mask == x & mask;
  }

  lemma TurnsOff(x: bv32, y: bv32, mask: bv32)
    requires y & mask == mask
    ensures !On(x & !y, mask)
  {
    assert (x & !y) & mask == 0;
  }

  lemma ClearOn(x: bv32, y: bv32, mask: bv32)
    requires Clean(y, mask)
    ensures On(x & !y, mask) <==> On(x, mask) && !On(y, mask)
  {
    if y & mask == 0 {
      KeepsOn(x, y, mask);
    } else {
      TurnsOff(x, y, mask);
    }
  }

  lemma ClearIn(x: bv32, y: bv32, j: nat)
    requires j < 32
    ensures Has(x & !y, j) <==> Has(x, j) && !Has(y, j)
  {
    OneBit(y, j);
    ClearOn(x, y, Bit(j));
  }

  lemma BitsOfClear(x: bv32, y: bv32)
    ensures Bits(x & !y) == Bits(x) - Bits(y)
  {
    forall j: nat | j < 32 ensures Has(x & !y, j) <==> Has(x, j) && !Has(y, j) { ClearIn(x, y, j); }
  }

  lemma OrOn(x: bv32, y: bv32, mask: bv32)
    ensures On(x | y, mask) <==> On(x, mask) || On(y, mask)
  {
    assert ((x | y) & mask) == (x & mask) | (y & mask);
  }

  lemma BitsOfOr(x: bv32, y: bv32)
    ensures Bits(x | y) == Bits(x) + Bits(y)
  {
    forall j: nat | j < 32 ensures Has(x | y, j) <==> Has(x, j) || Has(y, j) { OrOn(x, y, Bit(j)); }
  }

  /** Everything up to and including bit i. */
  function Upper(i: nat): bv32
    requires i < 32
  {
    !((0x7FFF_FFFF as bv32) >> i)
  }

  lemma UpperStep(x: bv32, i: nat)
    requires 0 < i < 32 && (x & Upper(i - 1)) == 0 && (x & Bit(i)) == 0
    ensures (x & Upper(i)) == 0
  {
  }

  lemma {:induction false} NoneUpTo(x: bv32, i: nat)
    requires i < 32 && forall j: nat | j <= i :: (x & Bit(j)) == 0
    ensures (x & Upper(i)) == 0
  {
    if i == 0 {
      assert (x & Bit(0)) == 0;
    } else {
      NoneUpTo(x, i - 1);
      UpperStep(x, i);
    }
  }

  /** The map is empty only when no trigger is in it. */
  lemma BitsEmpty(x: bv32)
    ensures Bits(x) == {} <==> x == 0
  {
    if Bits(x) == {} {
      forall j: nat | j <= 31 ensures (x & Bit(j)) == 0 { assert j !in Bits(x); }
      NoneUpTo(x, 31);
      assert Upper(31) == 0xFFFF_FFFF;
    }
  }
}

/** The triggers of BasicTaskScheduler0 without bits or loops: which are awaiting handling,
    which was used last, and who handles each. */
module TriggerRuns {
  import opened Options

  datatype State = State(awaiting: set<nat>, last: nat, handlers: seq<nat>, datas: seq<nat>)

  ghost predicate Valid(s: State) {
    |s.handlers| == |s.datas| == 32 && s.last < 32 && forall i :: i in s.awaiting ==> i < 32
  }

  /** The place reached k steps after `last`, going round. */
  function Cyc(last: nat, k: nat): nat { (last + k) % 32 }

  /** How many steps after `last` trigger i comes, from 1 to 32. */
  function Dist(last: nat, i: nat): (d: nat)
    requires last < 32 && i < 32
    ensures 1 <= d <= 32 && Cyc(last, d) == i
  {
    if i > last then i - last else i + 32 - last
  }

  function FirstFrom(s: set<nat>, last: nat, k: nat): (d: nat)
    requires 1 <= k <= 33
    ensures k <= d <= 33
    ensures d <= 32 ==> Cyc(last, d) in s
    ensures forall j :: k <= j < d ==> Cyc(last, j) !in s
    decreases 33 - k
  {
    if k == 33 || Cyc(last, k) in s then k else FirstFrom(s, last, k + 1)
  }

  /** The awaiting trigger that comes next after the last used one. */
  function Next(s: set<nat>, last: nat): (i: nat)
    ensures i < 32
  {
    Cyc(last, FirstFrom(s, last, 1))
  }

  lemma NextIsNearest(s: set<nat>, last: nat, i: nat)
    requires last < 32 && i < 32 && i in s
    ensures Next(s, last) in s && Dist(last, Next(s, last)) <= Dist(last, i)
  {
    var d := FirstFrom(s, last, 1);
    assert d <= Dist(last, i);
    DistCyc(last, d);
  }

  lemma FirstIs(s: set<nat>, last: nat, k: nat)
    requires 1 <= k <= 32 && Cyc(last, k) in s && forall j :: 1 <= j < k ==> Cyc(last, j) !in s
    ensures Next(s, last) == Cyc(last, k)
  {
    var d := FirstFrom(s, last, 1);
    assert d <= k;
  }

  lemma CycStep(last: nat, k: nat)
    requires last < 32 && k < 32
    ensures (Cyc(last, k) + 1) % 32 == Cyc(last, k + 1)
    ensures Cyc(last, k + 1) == last <==> k + 1 == 32
  {
  }

  lemma NoneAround(s: set<nat>, last: nat)
    requires last < 32 && forall i :: i in s ==> i < 32
    requires forall j :: 1 <= j <= 32 ==> Cyc(last, j) !in s
    ensures s == {}
  {
    forall i: nat | i < 32 ensures i !in s { assert Cyc(last, Dist(last, i)) !in s; }
  }

  lemma OnlyLast(last: nat)
    requires last < 32
    ensures Next({last}, last) == last
  {
    assert Cyc(last, 32) == last;
    FirstIs({last}, last, 32);
  }

  lemma DistCyc(last: nat, d: nat)
    requires last < 32 && 1 <= d <= 32
    ensures Dist(last, Cyc(last, d)) == d
  {
  }

  /** The trigger part of SingleStep. */
  function Dispatch(s: State): State
    requires Valid(s)
  {
    if s.awaiting == {} then s
    else
      var n := Next(s.awaiting, s.last);
      s.(awaiting := s.awaiting - {n}, last := n)
  }

  function Handler(s: State, i: nat): Option<(nat, nat)>
    requires Valid(s) && i < 32
  {
    if s.handlers[i] == 0 then None else Some((s.handlers[i], s.datas[i]))
  }

  /** The handler a dispatch calls, with its argument; a deleted trigger calls none. */
  function Called(s: State): Option<(nat, nat)>
    requires Valid(s)
  {
    if s.awaiting == {} then None else Handler(s, Next(s.awaiting, s.last))
  }

  function Trigger(s: State, ids: set<nat>, data: nat): State
    requires Valid(s)
  {
    s.(awaiting := s.awaiting + ids, datas := seq(32, i requires 0 <= i < 32 => if i in ids then data else s.datas[i]))
  }

  function Cleared(s: seq<nat>, ids: set<nat>): (r: seq<nat>)
    ensures |r| == |s| && forall i | 0 <= i < |s| :: r[i] == if i in ids then 0 else s[i]
  {
    seq(|s|, i requires 0 <= i < |s| => if i in ids then 0 else s[i])
  }

  function Delete(s: State, ids: set<nat>): State
    requires Valid(s)
  {
    s.(awaiting := s.awaiting - ids, handlers := Cleared(s.handlers, ids), datas := Cleared(s.datas, ids))
  }

  /** The numbers without a handler; 0 is NULL. */
  function Unused(s: State): set<nat>
    requires Valid(s)
  {
    set i: nat | i < 32 && s.handlers[i] == 0
  }

  function Create(s: State, handler: nat): (s': State)
    requires Valid(s)
    ensures Valid(s')
  {
    if Unused(s) == {} then s
    else
      var n := Next(Unused(s), s.last);
      s.(last := n, handlers := s.handlers[n := handler], datas := s.datas[n := 0])
  }

  // ---------- runs ----------

  /** The calls: a dispatch, triggerEvent, createEventTrigger and deleteEventTrigger. */
  datatype Op = Step | Post(ids: set<nat>, data: nat) | Make(handler: nat) | Drop(ids: set<nat>)

  ghost predicate Ok(op: Op) { op.Post? ==> forall i :: i in op.ids ==> i < 32 }

  function Do(s: State, op: Op): State
    requires Valid(s)
  {
    match op
    case Step => Dispatch(s)
    case Post(ids, data) => Trigger(s, ids, data)
    case Make(handler) => Create(s, handler)
    case Drop(ids) => Delete(s, ids)
  }

  ghost function Run(s: State, ops: seq<Op>): (s': State)
    requires Valid(s) && forall k :: 0 <= k < |ops| ==> Ok(ops[k])
    ensures Valid(s')
  {
    if ops == [] then s else
      var s1 := Run(s, ops[..|ops| - 1]);
      DoValid(s1, ops[|ops| - 1]);
      Do(s1, ops[|ops| - 1])
  }

  /** Trigger i is the one that the call dispatches or creates. */
  ghost predicate Picks(s: State, op: Op, i: nat)
    requires Valid(s)
  {
    || (op.Step? && s.awaiting != {} && Next(s.awaiting, s.last) == i)
    || (op.Make? && Unused(s) != {} && Next(Unused(s), s.last) == i)
  }

  /** The data of the last triggerEvent that named i, unless i was created or deleted since. */
  ghost function LastData(s: State, ops: seq<Op>, i: nat): nat
    requires Valid(s) && i < 32 && forall k :: 0 <= k < |ops| ==> Ok(ops[k])
  {
    if ops == [] then s.datas[i]
    else
      var before, op := ops[..|ops| - 1], ops[|ops| - 1];
      if op.Post? && i in op.ids then op.data
      else if (op.Drop? && i in op.ids) || (op.Make? && Picks(Run(s, before), op, i)) then 0
      else LastData(s, before, i)
  }

  /** The handler that i was last created with, unless it was deleted since. */
  ghost function LastHandler(s: State, ops: seq<Op>, i: nat): nat
    requires Valid(s) && i < 32 && forall k :: 0 <= k < |ops| ==> Ok(ops[k])
  {
    if ops == [] then s.handlers[i]
    else
      var before, op := ops[..|ops| - 1], ops[|ops| - 1];
      if op.Make? && Picks(Run(s, before), op, i) then op.handler
      else if op.Drop? && i in op.ids then 0
      else LastHandler(s, before, i)
  }

  /** A triggerEvent has named i that no dispatch and no deletion has answered since. */
  ghost predicate Unanswered(s: State, ops: seq<Op>, i: nat)
    requires Valid(s) && forall k :: 0 <= k < |ops| ==> Ok(ops[k])
  {
    if ops == [] then i in s.awaiting
    else
      var before, op := ops[..|ops| - 1], ops[|ops| - 1];
      if op.Post? && i in op.ids then true
      else if (op.Drop? && i in op.ids) || (op.Step? && Picks(Run(s, before), op, i)) then false
      else Unanswered(s, before, i)
  }

  lemma {:induction false} TablesAre(s: State, ops: seq<Op>, i: nat)
    requires Valid(s) && i < 32 && forall k :: 0 <= k < |ops| ==> Ok(ops[k])
    ensures var s' := Run(s, ops);
      && s'.datas[i] == LastData(s, ops, i) && s'.handlers[i] == LastHandler(s, ops, i)
      && (i in s'.awaiting <==> Unanswered(s, ops, i))
  {
    if ops != [] {
      TablesAre(s, ops[..|ops| - 1], i);
      DoValid(Run(s, ops[..|ops| - 1]), ops[|ops| - 1]);
    }
  }

  /** In every run, creations and deletions included, a dispatch calls an unanswered trigger's own
      handler with the data it was last triggered with; one without a handler calls nothing. */
  lemma CalledAsTriggered(s: State, ops: seq<Op>)
    requires Valid(s) && forall k :: 0 <= k < |ops| ==> Ok(ops[k])
    ensures var s' := Run(s, ops);
      if s'.awaiting == {} then Called(s') == None && forall i :: i < 32 ==> !Unanswered(s, ops, i)
      else
        var i := Next(s'.awaiting, s'.last);
        && Unanswered(s, ops, i)
        && Called(s') == if LastHandler(s, ops, i) == 0 then None
                         else Some((LastHandler(s, ops, i), LastData(s, ops, i)))
  {
    var s' := Run(s, ops);
    forall i: nat | i < 32
      ensures s'.datas[i] == LastData(s, ops, i) && s'.handlers[i] == LastHandler(s, ops, i)
      ensures i in s'.awaiting <==> Unanswered(s, ops, i)
    {
      TablesAre(s, ops, i);
    }
    if s'.awaiting != {} {
      var j :| j in s'.awaiting;
      NextIsNearest(s'.awaiting, s'.last, j);
    }
  }

  /** A new trigger takes a number that no live trigger has. */
  lemma CreatedApart(s: State, handler: nat, i: nat)
    requires Valid(s) && i < 32
    ensures Picks(s, Make(handler), i) ==> s.handlers[i] == 0 && Create(s, handler).handlers[i] == handler
    ensures !Picks(s, Make(handler), i) ==>
      Create(s, handler).handlers[i] == s.handlers[i] && Create(s, handler).datas[i] == s.datas[i]
    ensures (forall j :: j < 32 ==> !Picks(s, Make(handler), j)) <==> (forall j :: 0 <= j < 32 ==> s.handlers[j] != 0)
  {
    if j: nat :| j < 32 && s.handlers[j] == 0 {
      assert j in Unused(s);
      NextIsNearest(Unused(s), s.last, j);
      assert Picks(s, Make(handler), Next(Unused(s), s.last));
    } else {
      assert Unused(s) == {};
    }
  }

  lemma {:induction false} LastStays(s: State, ops: seq<Op>)
    requires Valid(s) && forall k :: 0 <= k < |ops| ==> Ok(ops[k]) && (ops[k].Post? || ops[k].Drop?)
    ensures Run(s, ops).last == s.last
  {
    if ops != [] { LastStays(s, ops[..|ops| - 1]); }
  }

  /** A number given out and deleted again is given out next only if it is the only one left, so
      that an id kept too long does not name the next trigger. */
  lemma ReusedLast(s: State, handler: nat, ops: seq<Op>, n: nat, other: nat)
    requires Valid(s) && Picks(s, Make(handler), n)
    requires forall k :: 0 <= k < |ops| ==> Ok(ops[k]) && (ops[k].Post? || ops[k].Drop?)
    requires n in Unused(Run(Create(s, handler), ops))
    ensures var t := Run(Create(s, handler), ops); Picks(t, Make(other), n) <==> Unused(t) == {n}
  {
    var s1, t := Create(s, handler), Run(Create(s, handler), ops);
    LastStays(s1, ops);
    assert Dist(n, n) == 32;
    forall i | i in Unused(t)
      ensures Next(Unused(t), n) in Unused(t) && Dist(n, Next(Unused(t), n)) <= Dist(n, i)
    {
      NextIsNearest(Unused(t), n, i);
    }
    if i :| i in Unused(t) && i != n { assert Dist(n, i) < 32; }
  }

  // ---------- fairness ----------

  lemma DoValid(s: State, op: Op)
    requires Valid(s) && Ok(op)
    ensures Valid(Do(s, op))
  {
  }

  /** The triggers dispatched by a run, in order. */
  ghost function Dispatched(s: State, ops: seq<Op>): seq<nat>
    requires Valid(s) && forall k :: 0 <= k < |ops| ==> Ok(ops[k])
    decreases |ops|
  {
    if ops == [] then []
    else
      DoValid(s, ops[0]);
      var now := if ops[0].Step? && s.awaiting != {} then [Next(s.awaiting, s.last)] else [];
      now + Dispatched(Do(s, ops[0]), ops[1..])
  }

  function Steps(ops: seq<Op>): nat {
    if ops == [] then 0 else (if ops[0].Step? then 1 else 0) + Steps(ops[1..])
  }

  /** A dispatch takes the trigger asked about or brings it nearer. */
  lemma Nearer(s: State, i: nat)
    requires Valid(s) && i in s.awaiting && Next(s.awaiting, s.last) != i
    ensures i in Dispatch(s).awaiting && Dist(Dispatch(s).last, i) < Dist(s.last, i)
  {
    NextIsNearest(s.awaiting, s.last, i);
  }

  /** The call creates a trigger whose number comes before i's, or is the last used one again. */
  ghost predicate StaysBehind(s: State, op: Op, i: nat)
    requires Valid(s) && i < 32
  {
    op.Make? && Unused(s) != {} ==>
      var n := Next(Unused(s), s.last); n == s.last || Dist(s.last, n) < Dist(s.last, i)
  }

  ghost predicate AllBehind(s: State, ops: seq<Op>, i: nat)
    requires Valid(s) && i < 32 && forall k :: 0 <= k < |ops| ==> Ok(ops[k])
    decreases |ops|
  {
    if ops == [] then true
    else
      DoValid(s, ops[0]);
      StaysBehind(s, ops[0], i) && AllBehind(Do(s, ops[0]), ops[1..], i)
  }

  /** A creation keeps an awaiting trigger's turn exactly when it does not search past it. */
  lemma CreationPasses(s: State, handler: nat, i: nat)
    requires Valid(s) && i in s.awaiting
    ensures i in Create(s, handler).awaiting
    ensures Dist(Create(s, handler).last, i) <= Dist(s.last, i) <==> StaysBehind(s, Make(handler), i)
  {
  }

  /** No starvation: an awaiting trigger at cyclic distance d is dispatched within d steps, whatever
      else is triggered, deleted or created meanwhile, as long as no creation searches past it. */
  lemma {:induction false} Fair(s: State, ops: seq<Op>, i: nat)
    requires Valid(s) && forall k :: 0 <= k < |ops| ==> Ok(ops[k]) && !(ops[k].Drop? && i in ops[k].ids)
    requires i in s.awaiting && AllBehind(s, ops, i) && Steps(ops) >= Dist(s.last, i)
    ensures i in Dispatched(s, ops)
    decreases |ops|
  {
    DoValid(s, ops[0]);
    var s' := Do(s, ops[0]);
    match ops[0] {
      case Step =>
        if Next(s.awaiting, s.last) != i {
          Nearer(s, i);
          Fair(s', ops[1..], i);
        }
      case Make(handler) =>
        CreationPasses(s, handler, i);
        Fair(s', ops[1..], i);
      case _ => Fair(s', ops[1..], i);
    }
  }
}

/** The event-trigger fields and methods of BasicTaskScheduler0. */
module EventTriggers {
  import opened Options
  import opened TriggerBits
  import R = TriggerRuns

  class EventTriggers {
    var triggersAwaitingHandling: bv32
    var lastUsedTriggerMask: bv32
    var lastUsedTriggerNum: nat
    const triggeredEventHandlers: array<nat>
    const triggeredEventClientDatas: array<nat>

    /** The mask always names the trigger number, so neither needs the other to be searched for. */
    ghost predicate Valid()
      reads this
    {
      && triggeredEventHandlers.Length == triggeredEventClientDatas.Length == MAX_NUM_EVENT_TRIGGERS
      && triggeredEventHandlers != triggeredEventClientDatas
      && lastUsedTriggerNum < MAX_NUM_EVENT_TRIGGERS
      && lastUsedTriggerMask == Bit(lastUsedTriggerNum)
    }

    ghost function Abs(): (s: R.State)
      requires Valid()
      reads this, triggeredEventHandlers, triggeredEventClientDatas
      ensures R.Valid(s)
    {
      R.State(Bits(triggersAwaitingHandling), lastUsedTriggerNum,
              triggeredEventHandlers[..], triggeredEventClientDatas[..])
    }

    constructor ()
      ensures Valid() && fresh(triggeredEventHandlers) && fresh(triggeredEventClientDatas)
      ensures Abs() == R.State({}, 31, seq(32, i => 0), seq(32, i => 0))
    {
      triggersAwaitingHandling := 0;
      lastUsedTriggerMask, lastUsedTriggerNum := 1, MAX_NUM_EVENT_TRIGGERS - 1;
      triggeredEventHandlers := new nat[MAX_NUM_EVENT_TRIGGERS](i => 0);
      triggeredEventClientDatas := new nat[MAX_NUM_EVENT_TRIGGERS](i => 0);
      new;
      BitsEmpty(0);
      LowestBit();
    }

    /** The search for a trigger number without a handler, round from the last used one. */
    method CreateEventTrigger(eventHandlerProc: nat) returns (id: EventTriggerId)
      requires Valid()
      modifies this, triggeredEventHandlers, triggeredEventClientDatas
      ensures Valid() && Abs() == R.Create(old(Abs()), eventHandlerProc)
      ensures R.Unused(old(Abs())) == {} ==> id == 0
      ensures R.Unused(old(Abs())) != {} ==>
        Bits(id) == {Abs().last} && Abs().last in R.Unused(old(Abs()))
    {
      var i, mask := lastUsedTriggerNum, lastUsedTriggerMask;
      ghost var k := 0;
      ghost var last, free := lastUsedTriggerNum, R.Unused(Abs());
      while true
        invariant k < 32 && i == R.Cyc(last, k) && mask == Bit(i)
        invariant Valid() && Abs() == old(Abs())
        invariant forall j :: 1 <= j <= k ==> R.Cyc(last, j) !in free
        decreases 32 - k
      {
        i, mask, k := NextPlace(i, mask, last, k);
        if triggeredEventHandlers[i] == 0 {
          R.FirstIs(free, last, k);
          BitsOfBit(i);
          triggeredEventHandlers[i] := eventHandlerProc;
          triggeredEventClientDatas[i] := 0;
          lastUsedTriggerMask, lastUsedTriggerNum := mask, i;
          return mask;
        }
        if i == lastUsedTriggerNum {
          R.NoneAround(free, last);
          return 0;
        }
      }
    }

    /** Clears the triggers of `id`: one if the id is the last used mask, a scan otherwise. */
    method DeleteEventTrigger(id: EventTriggerId)
      requires Valid()
      modifies this`triggersAwaitingHandling, triggeredEventHandlers, triggeredEventClientDatas
      ensures Valid() && Abs() == R.Delete(old(Abs()), Bits(id))
    {
      Forget(id);
      if id == lastUsedTriggerMask {
        ClearLast(id);
      } else {
        ClearHandlers(id);
      }
    }

    method Forget(id: EventTriggerId)
      requires Valid()
      modifies this`triggersAwaitingHandling
      ensures Valid() && Abs() == old(Abs()).(awaiting := old(Abs()).awaiting - Bits(id))
    {
      BitsOfClear(triggersAwaitingHandling, id);
      triggersAwaitingHandling := triggersAwaitingHandling & !id;
    }

    method ClearLast(id: EventTriggerId)
      requires Valid() && id == lastUsedTriggerMask
      modifies triggeredEventHandlers, triggeredEventClientDatas
      ensures triggeredEventHandlers[..] == R.Cleared(old(triggeredEventHandlers[..]), Bits(id))
      ensures triggeredEventClientDatas[..] == R.Cleared(old(triggeredEventClientDatas[..]), Bits(id))
    {
      BitsOfBit(lastUsedTriggerNum);
      triggeredEventHandlers[lastUsedTriggerNum] := 0;
      triggeredEventClientDatas[lastUsedTriggerNum] := 0;
    }

    method ClearHandlers(id: EventTriggerId)
      requires Valid()
      modifies triggeredEventHandlers, triggeredEventClientDatas
      ensures triggeredEventHandlers[..] == R.Cleared(old(triggeredEventHandlers[..]), Bits(id))
      ensures triggeredEventClientDatas[..] == R.Cleared(old(triggeredEventClientDatas[..]), Bits(id))
    {
      var mask: EventTriggerId := 0x8000_0000;
      for i := 0 to MAX_NUM_EVENT_TRIGGERS
        invariant i < 32 ==> mask == Bit(i)
        invariant forall j | 0 <= j < i ::
          triggeredEventHandlers[j] == if j in Bits(id) then 0 else old(triggeredEventHandlers[j])
        invariant forall j | 0 <= j < i ::
          triggeredEventClientDatas[j] == if j in Bits(id) then 0 else old(triggeredEventClientDatas[j])
        invariant forall j | i <= j < 32 :: triggeredEventHandlers[j] == old(triggeredEventHandlers[j])
        invariant forall j | i <= j < 32 :: triggeredEventClientDatas[j] == old(triggeredEventClientDatas[j])
      {
        var chosen := InMap(id, mask, i);
        if chosen {
          triggeredEventHandlers[i] := 0;
          triggeredEventClientDatas[i] := 0;
        }
        mask := ShiftDown(mask, i);
      }
    }

    method TriggerEvent(id: EventTriggerId, clientData: nat)
      requires Valid()
      modifies this`triggersAwaitingHandling, triggeredEventClientDatas
      ensures Valid() && Abs() == R.Trigger(old(Abs()), Bits(id), clientData)
    {
      RecordData(id, clientData);
      NoteAwaiting(id);
    }

    method RecordData(id: EventTriggerId, clientData: nat)
      requires Valid()
      modifies triggeredEventClientDatas
      ensures Abs() == old(Abs()).(datas := R.Trigger(old(Abs()), Bits(id), clientData).datas)
    {
      var mask: EventTriggerId := 0x8000_0000;
      for i := 0 to MAX_NUM_EVENT_TRIGGERS
        invariant i < 32 ==> mask == Bit(i)
        invariant forall j | 0 <= j < i ::
          triggeredEventClientDatas[j] == if j in Bits(id) then clientData else old(triggeredEventClientDatas[j])
        invariant forall j | i <= j < 32 :: triggeredEventClientDatas[j] == old(triggeredEventClientDatas[j])
      {
        var chosen := InMap(id, mask, i);
        if chosen { triggeredEventClientDatas[i] := clientData; }
        mask := ShiftDown(mask, i);
      }
      assert triggeredEventClientDatas[..] == R.Trigger(old(Abs()), Bits(id), clientData).datas;
    }

    method NoteAwaiting(id: EventTriggerId)
      requires Valid()
      modifies this`triggersAwaitingHandling
      ensures Valid() && Abs() == old(Abs()).(awaiting := old(Abs()).awaiting + Bits(id))
    {
      BitsOfOr(triggersAwaitingHandling, id);
      triggersAwaitingHandling := triggersAwaitingHandling | id;
    }

    /** The trigger part of SingleStep; the result is the handler it calls and its argument. */
    method DispatchTrigger() returns (called: Option<(nat, nat)>)
      requires Valid()
      modifies this
      ensures Valid() && Abs() == R.Dispatch(old(Abs())) && called == R.Called(old(Abs()))
    {
      BitsEmpty(triggersAwaitingHandling);
      if triggersAwaitingHandling == 0 { return None; }
      if triggersAwaitingHandling == lastUsedTriggerMask {
        called := DispatchLast();
      } else {
        called := DispatchNext();
      }
    }

    method HandlerOf(i: nat) returns (called: Option<(nat, nat)>)
      requires Valid() && i < MAX_NUM_EVENT_TRIGGERS
      ensures called == R.Handler(Abs(), i)
    {
      called := if triggeredEventHandlers[i] != 0 then Some((triggeredEventHandlers[i], triggeredEventClientDatas[i]))
                else None;
    }

    method Clear(mask: EventTriggerId, i: nat)
      requires Valid() && i < 32 && mask == Bit(i)
      modifies this`triggersAwaitingHandling
      ensures Valid() && Abs() == old(Abs()).(awaiting := old(Abs()).awaiting - {i})
    {
      BitsOfClear(triggersAwaitingHandling, mask);
      BitsOfBit(i);
      triggersAwaitingHandling := triggersAwaitingHandling & !mask;
    }

    /** The common case: only the last used trigger is awaiting. */
    method DispatchLast() returns (called: Option<(nat, nat)>)
      requires Valid() && triggersAwaitingHandling == lastUsedTriggerMask
      modifies this`triggersAwaitingHandling
      ensures Valid() && Abs() == R.Dispatch(old(Abs())) && called == R.Called(old(Abs()))
    {
      BitsOfBit(lastUsedTriggerNum);
      R.OnlyLast(lastUsedTriggerNum);
      Clear(lastUsedTriggerMask, lastUsedTriggerNum);
      called := HandlerOf(lastUsedTriggerNum);
    }

    method TakeTrigger(mask: EventTriggerId, i: nat) returns (called: Option<(nat, nat)>)
      requires Valid() && i < 32 && mask == Bit(i)
      modifies this
      ensures Valid() && Abs() == old(Abs()).(awaiting := old(Abs()).awaiting - {i}, last := i)
      ensures called == R.Handler(old(Abs()), i)
    {
      Clear(mask, i);
      called := HandlerOf(i);
      lastUsedTriggerMask, lastUsedTriggerNum := mask, i;
    }

    method DispatchNext() returns (called: Option<(nat, nat)>)
      requires Valid() && triggersAwaitingHandling != 0
      modifies this
      ensures Valid() && Abs() == R.Dispatch(old(Abs())) && called == R.Called(old(Abs()))
    {
      BitsEmpty(triggersAwaitingHandling);
      var i, mask := NextAwaiting(triggersAwaitingHandling, lastUsedTriggerMask, lastUsedTriggerNum);
      called := TakeTrigger(mask, i);
    }
  }

  lemma LowestBit()
    ensures Bit(31) == 1
  {
  }

  method InMap(map32: EventTriggerId, mask: EventTriggerId, i: nat) returns (b: bool)
    requires i < 32 && mask == Bit(i)
    ensures b == (i in Bits(map32))
  {
    b := On(map32, mask);
    assert b == Has(map32, i);
  }

  method ShiftDown(mask: EventTriggerId, i: nat) returns (mask': EventTriggerId)
    requires i < 32 && mask == Bit(i)
    ensures i < 31 ==> mask' == Bit(i + 1)
  {
    if i < 31 { ShiftBit(i); }
    mask' := mask >> 1;
  }

  method RotateDown(mask: EventTriggerId, i: nat) returns (mask': EventTriggerId)
    requires i < 32 && mask == Bit(i)
    ensures mask' == Bit((i + 1) % 32)
  {
    RotateBit(i);
    mask' := mask >> 1;
    if mask' == 0 { mask' := 0x8000_0000; }
  }

  /** One step of the searches: the next number, going round, and its mask. */
  method NextPlace(i: nat, mask: EventTriggerId, ghost last: nat, ghost k: nat)
    returns (i': nat, mask': EventTriggerId, ghost k': nat)
    requires k < 32 && last < 32 && i == R.Cyc(last, k) && mask == Bit(i)
    ensures k' == k + 1 && i' == R.Cyc(last, k') && mask' == Bit(i') && (i' == last <==> k' == 32)
  {
    R.CycStep(last, k);
    i' := (i + 1) % MAX_NUM_EVENT_TRIGGERS;
    mask' := RotateDown(mask, i);
    k' := k + 1;
  }

  /** The search for the next awaiting trigger. */
  method NextAwaiting(map32: EventTriggerId, lastMask: EventTriggerId, last: nat)
    returns (i: nat, mask: EventTriggerId)
    requires Bits(map32) != {} && last < 32 && lastMask == Bit(last)
    ensures i == R.Next(Bits(map32), last) && mask == Bit(i)
  {
    i, mask := last, lastMask;
    ghost var k, waiting := 0, Bits(map32);
    while true
      invariant k < 32 && i == R.Cyc(last, k) && mask == Bit(i)
      invariant forall j :: 1 <= j <= k ==> R.Cyc(last, j) !in waiting
      decreases 32 - k
    {
      i, mask, k := NextPlace(i, mask, last, k);
      var found := InMap(map32, mask, i);
      if found {
        R.FirstIs(waiting, last, k);
        return;
      }
      if i == last { R.NoneAround(waiting, last); }
    }
  }
}
