/** Background socket handling without pointers: the registered handlers in list order, the
    three fd sets, and the socket handled last. */
module SocketRuns {
  import opened Options
  import opened Seqs

  const FD_SETSIZE := 1024

  datatype Condition = Readable | Writable | Exceptional

  function Bit(c: Condition): bv32 {
    match c
    case Readable => 2
    case Writable => 4
    case Exceptional => 8
  }

  predicate Asks(conditionSet: bv32, c: Condition) { conditionSet & Bit(c) != 0 }

  datatype Handler = Handler(socketNum: int, conditionSet: bv32, handlerProc: nat, clientData: nat)

  datatype FdSets = FdSets(read: set<int>, write: set<int>, exception: set<int>) {
    function Of(c: Condition): set<int> {
      match c
      case Readable => read
      case Writable => write
      case Exceptional => exception
    }

    function Clear(sock: int): FdSets { FdSets(read - {sock}, write - {sock}, exception - {sock}) }

    function Set(sock: int, conditionSet: bv32): FdSets {
      FdSets(if Asks(conditionSet, Readable) then read + {sock} else read,
             if Asks(conditionSet, Writable) then write + {sock} else write,
             if Asks(conditionSet, Exceptional) then exception + {sock} else exception)
    }

    function Move(from: int, to: int): FdSets {
      FdSets(MoveIn(read, from, to), MoveIn(write, from, to), MoveIn(exception, from, to))
    }

    lemma ClearOf(sock: int, t: int, c: Condition)
      ensures t in Clear(sock).Of(c) <==> t != sock && t in Of(c)
    {
    }

    lemma SetThenClear(sock: int, conditionSet: bv32)
      requires sock !in read && sock !in write && sock !in exception
      ensures Clear(sock).Set(sock, conditionSet).Clear(sock) == this
    {
      assert read - {sock} == read && write - {sock} == write && exception - {sock} == exception;
      assert read + {sock} - {sock} == read && write + {sock} - {sock} == write;
      assert exception + {sock} - {sock} == exception;
    }

    lemma MoveBack(from: int, to: int)
      requires from == to || (to !in read && to !in write && to !in exception)
      ensures Move(from, to).Move(to, from) == this
    {
      assert MoveIn(MoveIn(read, from, to), to, from) == read;
      assert MoveIn(MoveIn(write, from, to), to, from) == write;
      assert MoveIn(MoveIn(exception, from, to), to, from) == exception;
    }

    lemma SetOf(sock: int, conditionSet: bv32, t: int, c: Condition)
      ensures t in Set(sock, conditionSet).Of(c) <==> t in Of(c) || (t == sock && Asks(conditionSet, c))
    {
    }

    lemma MoveOf(from: int, to: int, t: int, c: Condition)
      ensures t in Move(from, to).Of(c) <==> if from in Of(c) then t == to || (t != from && t in Of(c)) else t in Of(c)
    {
    }
  }

  function MoveIn(s: set<int>, from: int, to: int): set<int> {
    if from in s then s - {from} + {to} else s
  }

  /** `last` is the socket handled last, or -1. */
  datatype State = State(handlers: seq<Handler>, fds: FdSets, maxNum: int, last: int)

  const NONE := FdSets({}, {}, {})
  const START := State([], NONE, 0, -1)

  predicate InRange(sock: int) { 0 <= sock < FD_SETSIZE }

  function FindFrom(hs: seq<Handler>, sock: int, i: nat): (k: nat)
    requires i <= |hs|
    ensures i <= k <= |hs|
    ensures k < |hs| ==> hs[k].socketNum == sock
    ensures forall j :: i <= j < k ==> hs[j].socketNum != sock
    decreases |hs| - i
  {
    if i == |hs| || hs[i].socketNum == sock then i else FindFrom(hs, sock, i + 1)
  }

  /** The first handler for `sock`, or |hs|. */
  function Find(hs: seq<Handler>, sock: int): (k: nat)
    ensures k <= |hs|
  {
    FindFrom(hs, sock, 0)
  }

  ghost predicate Registered(hs: seq<Handler>, sock: int) { exists i :: 0 <= i < |hs| && hs[i].socketNum == sock }

  function Lookup(hs: seq<Handler>, sock: int): Option<Handler> {
    var k := Find(hs, sock);
    if k < |hs| then Some(hs[k]) else None
  }

  function Assign(hs: seq<Handler>, h: Handler): seq<Handler> {
    var k := Find(hs, h.socketNum);
    if k < |hs| then hs[k := h] else InsertAt(hs, 0, h)
  }

  function ClearHandler(hs: seq<Handler>, sock: int): seq<Handler> {
    var k := Find(hs, sock);
    if k < |hs| then RemoveAt(hs, k) else hs
  }

  function MoveHandler(hs: seq<Handler>, from: int, to: int): seq<Handler> {
    var k := Find(hs, from);
    if k < |hs| then hs[k := hs[k].(socketNum := to)] else hs
  }

  /** setBackgroundHandling */
  function SetBackground(s: State, h: Handler): State {
    if !InRange(h.socketNum) then s
    else if h.conditionSet == 0 then
      s.(handlers := ClearHandler(s.handlers, h.socketNum),
         fds := s.fds.Clear(h.socketNum),
         maxNum := if h.socketNum + 1 == s.maxNum then s.maxNum - 1 else s.maxNum)
    else
      s.(handlers := Assign(s.handlers, h),
         fds := s.fds.Clear(h.socketNum).Set(h.socketNum, h.conditionSet),
         maxNum := if h.socketNum + 1 > s.maxNum then h.socketNum + 1 else s.maxNum)
  }

  function MovedMax(maxNum: int, from: int, to: int): int {
    var m := if from + 1 == maxNum then maxNum - 1 else maxNum;
    if to + 1 > m then to + 1 else m
  }

  /** moveSocketHandling */
  function MoveSocket(s: State, from: int, to: int): State {
    if !InRange(from) || !InRange(to) then s
    else
      s.(handlers := MoveHandler(s.handlers, from, to),
         fds := s.fds.Move(from, to),
         maxNum := MovedMax(s.maxNum, from, to))
  }

  // ---------- the registration invariant ----------

  ghost predicate Distinct(hs: seq<Handler>) {
    forall i, j :: 0 <= i < j < |hs| ==> hs[i].socketNum != hs[j].socketNum
  }

  /** The fd sets hold exactly what the descriptors ask for. */
  ghost predicate Tracked(hs: seq<Handler>, fds: FdSets) {
    && (forall i, c :: 0 <= i < |hs| ==> (hs[i].socketNum in fds.Of(c) <==> Asks(hs[i].conditionSet, c)))
    && (forall sock, c :: sock in fds.Of(c) ==> Registered(hs, sock))
  }

  ghost predicate Ranged(hs: seq<Handler>) { forall i :: 0 <= i < |hs| ==> InRange(hs[i].socketNum) }

  ghost predicate Inv(s: State) {
    && Distinct(s.handlers)
    && Tracked(s.handlers, s.fds)
    && Ranged(s.handlers)
    && (forall i :: 0 <= i < |s.handlers| ==> s.handlers[i].socketNum < s.maxNum)
    && -1 <= s.last
  }

  /** A move that lands on another registered socket. */
  ghost predicate Clash(s: State, from: int, to: int) {
    InRange(from) && InRange(to) && from != to && Registered(s.handlers, from) && Registered(s.handlers, to)
  }

  lemma SetKeepsInv(s: State, h: Handler)
    requires Inv(s)
    ensures Inv(SetBackground(s, h))
  {
    var s', k := SetBackground(s, h), Find(s.handlers, h.socketNum);
    if InRange(h.socketNum) {
      if h.conditionSet == 0 {
        ClearTracks(s.handlers, s.fds, h.socketNum);
      } else {
        AssignTracks(s.handlers, s.fds, h);
      }
    }
  }

  lemma ClearTracks(hs: seq<Handler>, fds: FdSets, sock: int)
    requires Distinct(hs) && Tracked(hs, fds)
    ensures Distinct(ClearHandler(hs, sock)) && Tracked(ClearHandler(hs, sock), fds.Clear(sock))
  {
    var hs', k := ClearHandler(hs, sock), Find(hs, sock);
    forall t, c ensures t in fds.Clear(sock).Of(c) <==> t != sock && t in fds.Of(c) { fds.ClearOf(sock, t, c); }
    forall t, c | t in fds.Clear(sock).Of(c) ensures Registered(hs', t) {
      assert t in fds.Of(c) && Registered(hs, t);
      var i :| 0 <= i < |hs| && hs[i].socketNum == t;
      assert hs'[if i < k || k == |hs| then i else i - 1] == hs[i];
    }
    forall i, c | 0 <= i < |hs'| ensures hs'[i].socketNum in fds.Clear(sock).Of(c) <==> Asks(hs'[i].conditionSet, c) {
      assert hs'[i] == hs[if i < k || k == |hs| then i else i + 1];
    }
  }

  lemma AssignTracks(hs: seq<Handler>, fds: FdSets, h: Handler)
    requires Distinct(hs) && Tracked(hs, fds)
    ensures Distinct(Assign(hs, h))
    ensures Tracked(Assign(hs, h), fds.Clear(h.socketNum).Set(h.socketNum, h.conditionSet))
  {
    var hs', k := Assign(hs, h), Find(hs, h.socketNum);
    var fds' := fds.Clear(h.socketNum).Set(h.socketNum, h.conditionSet);
    var shift := if k < |hs| then 0 else 1;
    forall t, c ensures t in fds'.Of(c) <==> if t == h.socketNum then Asks(h.conditionSet, c) else t in fds.Of(c) {
      fds.ClearOf(h.socketNum, t, c);
      fds.Clear(h.socketNum).SetOf(h.socketNum, h.conditionSet, t, c);
    }
    forall t, c | t in fds'.Of(c) ensures Registered(hs', t) {
      if t == h.socketNum {
        assert hs'[if k < |hs| then k else 0].socketNum == t;
      } else {
        assert t in fds.Of(c) && Registered(hs, t);
        var i :| 0 <= i < |hs| && hs[i].socketNum == t;
        assert hs'[i + shift] == hs[i];
      }
    }
    forall i, c | 0 <= i < |hs'| ensures hs'[i].socketNum in fds'.Of(c) <==> Asks(hs'[i].conditionSet, c) {
      if hs'[i] != h { assert hs'[i] == hs[i - shift]; }
    }
  }

  lemma MoveTracks(hs: seq<Handler>, fds: FdSets, from: int, to: int)
    requires Distinct(hs) && Tracked(hs, fds) && (from == to || !Registered(hs, from) || !Registered(hs, to))
    ensures Distinct(MoveHandler(hs, from, to)) && Tracked(MoveHandler(hs, from, to), fds.Move(from, to))
  {
    var hs', k := MoveHandler(hs, from, to), Find(hs, from);
    forall t, c
      ensures t in fds.Move(from, to).Of(c)
        <==> if from in fds.Of(c) then t == to || (t != from && t in fds.Of(c)) else t in fds.Of(c)
    {
      fds.MoveOf(from, to, t, c);
    }
    forall t, c | t in fds.Move(from, to).Of(c) ensures Registered(hs', t) {
      if t == to && from in fds.Of(c) {
        assert Registered(hs, from);
        assert hs'[k].socketNum == t;
      } else {
        assert t in fds.Of(c) && Registered(hs, t);
        var i :| 0 <= i < |hs| && hs[i].socketNum == t;
        assert hs'[i] == hs[i];
      }
    }
  }

  /** A move keeps one descriptor per socket exactly when it does not land on another
      registered socket. */
  lemma MoveKeepsInvExactly(s: State, from: int, to: int)
    requires Inv(s)
    ensures Inv(MoveSocket(s, from, to)) <==> !Clash(s, from, to)
  {
    var s', k := MoveSocket(s, from, to), Find(s.handlers, from);
    if Clash(s, from, to) {
      var j :| 0 <= j < |s.handlers| && s.handlers[j].socketNum == to;
      assert s'.handlers[j].socketNum == s'.handlers[k].socketNum && j != k;
    } else if InRange(from) && InRange(to) {
      MoveTracks(s.handlers, s.fds, from, to);
    }
  }

  datatype Op = Set(h: Handler) | Move(from: int, to: int)

  function Do(s: State, op: Op): State {
    match op
    case Set(h) => SetBackground(s, h)
    case Move(from, to) => MoveSocket(s, from, to)
  }

  function Run(s: State, ops: seq<Op>): State
    decreases |ops|
  {
    if ops == [] then s else Run(Do(s, ops[0]), ops[1..])
  }

  ghost predicate NoClash(s: State, ops: seq<Op>)
    decreases |ops|
  {
    ops != [] ==> (ops[0].Move? ==> !Clash(s, ops[0].from, ops[0].to)) && NoClash(Do(s, ops[0]), ops[1..])
  }

  lemma {:induction false} RunKeepsInv(s: State, ops: seq<Op>)
    requires Inv(s) && NoClash(s, ops)
    ensures Inv(Run(s, ops))
    decreases |ops|
  {
    if ops != [] {
      match ops[0] {
        case Set(h) => SetKeepsInv(s, h);
        case Move(from, to) => MoveKeepsInvExactly(s, from, to);
      }
      RunKeepsInv(Do(s, ops[0]), ops[1..]);
    }
  }

  /** The sockets that get a handler, by number or by a move, are below m. */
  ghost predicate Below(ops: seq<Op>, m: int) {
    forall k :: 0 <= k < |ops| ==>
      match ops[k] case Set(h) => h.conditionSet != 0 ==> h.socketNum < m case Move(_, to) => to < m
  }

  /** The maximum handed to select is never more than one above the sockets used. */
  lemma {:induction false} MaxStaysBelow(s: State, ops: seq<Op>, m: int)
    requires s.maxNum <= m && Below(ops, m)
    ensures Run(s, ops).maxNum <= m
    decreases |ops|
  {
    if ops != [] {
      assert match ops[0] case Set(h) => h.conditionSet != 0 ==> h.socketNum < m case Move(_, to) => to < m;
      MaxStaysBelow(Do(s, ops[0]), ops[1..], m);
    }
  }

  lemma AssignThenClear(hs: seq<Handler>, h: Handler)
    requires !Registered(hs, h.socketNum)
    ensures ClearHandler(Assign(hs, h), h.socketNum) == hs
  {
    var hs' := Assign(hs, h);
    assert hs' == [h] + hs && RemoveAt(hs', 0) == hs;
    FindIs(hs', h.socketNum, 0);
  }

  /** Clearing what was just set for a new socket gives back the handlers and the fd sets, and
      everything exactly when the maximum was clear of the socket or was its number. */
  lemma SetThenClear(s: State, h: Handler, none: Handler)
    requires Inv(s) && InRange(h.socketNum) && !Registered(s.handlers, h.socketNum)
    requires h.conditionSet != 0 && none.socketNum == h.socketNum && none.conditionSet == 0
    ensures var s' := SetBackground(SetBackground(s, h), none);
      && s'.handlers == s.handlers && s'.fds == s.fds && s'.last == s.last
      && (s' == s <==> h.socketNum + 1 < s.maxNum || h.socketNum == s.maxNum)
  {
    var sock := h.socketNum;
    AssignThenClear(s.handlers, h);
    assert sock !in s.fds.Of(Readable) && sock !in s.fds.Of(Writable) && sock !in s.fds.Of(Exceptional);
    s.fds.SetThenClear(sock, h.conditionSet);
  }

  /** Moving socket 3 onto socket 4 when both are registered. */
  lemma MoveOntoRegistered(h3: Handler, h4: Handler)
    requires h3.socketNum == 3 && h4.socketNum == 4 && h3.conditionSet != 0 && h4.conditionSet != 0
    ensures Inv(Run(START, [Set(h3), Set(h4)])) && !Inv(MoveSocket(Run(START, [Set(h3), Set(h4)]), 3, 4))
  {
    var ops := [Set(h3), Set(h4)];
    assert ops[1..] == [Set(h4)] && ops[1..][1..] == [];
    var s1 := SetBackground(START, h3);
    var s2 := SetBackground(s1, h4);
    assert Run(START, ops) == Run(s1, ops[1..]) == s2;
    SetKeepsInv(START, h3);
    SetKeepsInv(s1, h4);
    assert s1.handlers == [h3] && s2.handlers == [h4, h3];
    assert s2.handlers[0].socketNum == 4 && s2.handlers[1].socketNum == 3;
    MoveKeepsInvExactly(s2, 3, 4);
  }

  // ---------- what a caller sees ----------

  lemma FindIs(hs: seq<Handler>, sock: int, k: nat)
    requires k <= |hs| && (k < |hs| ==> hs[k].socketNum == sock) && forall j :: 0 <= j < k ==> hs[j].socketNum != sock
    ensures Find(hs, sock) == k
  {
  }

  /** Setting or clearing one socket's handler changes no other socket's. */
  lemma SetLookup(s: State, h: Handler, sock: int)
    requires Inv(s) && InRange(h.socketNum)
    ensures Lookup(SetBackground(s, h).handlers, sock)
         == if sock != h.socketNum then Lookup(s.handlers, sock) else if h.conditionSet == 0 then None else Some(h)
  {
    var hs, hs' := s.handlers, SetBackground(s, h).handlers;
    var k, i := Find(hs, h.socketNum), Find(hs, sock);
    if h.conditionSet == 0 {
      FindIs(hs', sock, if sock == h.socketNum then |hs'| else if i < k || k == |hs| then i else i - 1);
    } else if k < |hs| {
      FindIs(hs', sock, i);
    } else {
      FindIs(hs', sock, if sock == h.socketNum then 0 else i + 1);
    }
  }

  /** The descriptors of the other sockets, in list order. */
  function Others(hs: seq<Handler>, sock: int): (r: seq<Handler>)
    ensures |r| <= |hs|
  {
    if hs == [] then []
    else
      var last := hs[|hs| - 1];
      Others(hs[..|hs| - 1], sock) + if last.socketNum == sock then [] else [last]
  }

  lemma {:induction false} OthersJoin(a: seq<Handler>, b: seq<Handler>, sock: int)
    ensures Others(a + b, sock) == Others(a, sock) + Others(b, sock)
  {
    if b == [] {
      assert a + b == a;
    } else {
      assert (a + b)[..|a + b| - 1] == a + b[..|b| - 1];
      OthersJoin(a, b[..|b| - 1], sock);
    }
  }

  lemma OthersAt(hs: seq<Handler>, k: nat, x: seq<Handler>)
    requires k < |hs| && Others(x, hs[k].socketNum) == []
    ensures Others(hs[..k] + x + hs[k + 1..], hs[k].socketNum) == Others(hs, hs[k].socketNum)
  {
    var sock := hs[k].socketNum;
    OthersJoin(hs[..k] + x, hs[k + 1..], sock);
    OthersJoin(hs[..k], x, sock);
    assert hs == hs[..k] + [hs[k]] + hs[k + 1..];
    OthersJoin(hs[..k] + [hs[k]], hs[k + 1..], sock);
    OthersJoin(hs[..k], [hs[k]], sock);
    OneOther(hs[k]);
  }

  lemma OneOther(h: Handler)
    ensures Others([h], h.socketNum) == []
  {
    assert [h][..0] == [];
  }

  lemma ClearKeepsOthers(hs: seq<Handler>, sock: int)
    ensures Others(ClearHandler(hs, sock), sock) == Others(hs, sock)
  {
    var k := Find(hs, sock);
    if k < |hs| {
      OthersAt(hs, k, []);
      assert hs[..k] + [] + hs[k + 1..] == RemoveAt(hs, k);
    }
  }

  lemma AssignKeepsOthers(hs: seq<Handler>, h: Handler)
    ensures Others(Assign(hs, h), h.socketNum) == Others(hs, h.socketNum)
  {
    var k := Find(hs, h.socketNum);
    OneOther(h);
    if k < |hs| {
      OthersAt(hs, k, [h]);
      assert hs[..k] + [h] + hs[k + 1..] == hs[k := h];
    } else {
      OthersJoin([h], hs, h.socketNum);
      assert InsertAt(hs, 0, h) == [h] + hs;
    }
  }

  /** Setting or clearing a handler leaves the others in order and who was called last. */
  lemma SetKeepsTurns(s: State, h: Handler)
    ensures var s' := SetBackground(s, h);
      Others(s'.handlers, h.socketNum) == Others(s.handlers, h.socketNum) && s'.last == s.last
  {
    ClearKeepsOthers(s.handlers, h.socketNum);
    AssignKeepsOthers(s.handlers, h);
  }

  lemma MoveLookup(s: State, from: int, to: int, sock: int)
    requires Inv(s) && InRange(from) && InRange(to) && Registered(s.handlers, from) && !Clash(s, from, to)
    ensures Lookup(MoveSocket(s, from, to).handlers, sock)
         == if sock == to then Some(s.handlers[Find(s.handlers, from)].(socketNum := to))
            else if sock == from then None
            else Lookup(s.handlers, sock)
  {
    var hs, hs' := s.handlers, MoveSocket(s, from, to).handlers;
    var k := Find(hs, from);
    FindIs(hs', sock, if sock == to then k else if sock == from then |hs'| else Find(hs, sock));
  }

  lemma MoveHandlerBack(hs: seq<Handler>, from: int, to: int)
    requires Registered(hs, from) && (from == to || !Registered(hs, to))
    ensures MoveHandler(MoveHandler(hs, from, to), to, from) == hs
  {
    var hs', k := MoveHandler(hs, from, to), Find(hs, from);
    FindIs(hs', to, k);
    assert hs[k].(socketNum := to).(socketNum := from) == hs[k];
  }

  /** Moving a handler to a free number and back gives back the handlers and the fd sets, and
      everything exactly when the maximum was clear of the number or was the number. */
  lemma MoveBack(s: State, from: int, to: int)
    requires Inv(s) && InRange(from) && InRange(to) && Registered(s.handlers, from) && !Clash(s, from, to)
    ensures var s' := MoveSocket(MoveSocket(s, from, to), to, from);
      && s'.handlers == s.handlers && s'.fds == s.fds && s'.last == s.last
      && (s' == s <==> to + 1 < s.maxNum || to == s.maxNum || to == from)
  {
    MoveHandlerBack(s.handlers, from, to);
    if from != to {
      assert to !in s.fds.Of(Readable) && to !in s.fds.Of(Writable) && to !in s.fds.Of(Exceptional);
    }
    s.fds.MoveBack(from, to);
  }
}

/** The socket part of SingleStep, and its fairness. */
module SocketScan {
  import opened Options
  import opened SocketRuns

  /** select reports the condition and the scheduler is still watching for it. */
  predicate Reported(s: State, ready: FdSets, sock: int, c: Condition) { sock in ready.Of(c) && sock in s.fds.Of(c) }

  /** Some reported condition is one that is asked for. */
  predicate AnyAsked(r: bool, w: bool, e: bool, conditionSet: bv32) {
    (r && Asks(conditionSet, Readable)) || (w && Asks(conditionSet, Writable)) || (e && Asks(conditionSet, Exceptional))
  }

  predicate Wanted(s: State, ready: FdSets, h: Handler, c: Condition) {
    Reported(s, ready, h.socketNum, c) && Asks(h.conditionSet, c)
  }

  /** A handler is due when it exists and one of the conditions it asks for is reported. */
  predicate Due(s: State, ready: FdSets, h: Handler) {
    && h.handlerProc != 0
    && (Wanted(s, ready, h, Readable) || Wanted(s, ready, h, Writable) || Wanted(s, ready, h, Exceptional))
  }

  /** The bits handed to the handler. */
  function Results(r: bool, w: bool, e: bool): bv32 {
    (if r then Bit(Readable) else 0) | (if w then Bit(Writable) else 0) | (if e then Bit(Exceptional) else 0)
  }

  function Reports(s: State, ready: FdSets, sock: int): bv32 {
    Results(Reported(s, ready, sock, Readable), Reported(s, ready, sock, Writable),
            Reported(s, ready, sock, Exceptional))
  }

  /** The handler is told exactly the conditions that are reported and watched for. */
  lemma ReportsAre(r: bool, w: bool, e: bool)
    ensures Results(r, w, e) & 2 != 0 <==> r
    ensures Results(r, w, e) & 4 != 0 <==> w
    ensures Results(r, w, e) & 8 != 0 <==> e
  {
  }

  /** The test on bits is the test on conditions. */
  lemma ResultsMeet(r: bool, w: bool, e: bool, conditionSet: bv32)
    ensures Results(r, w, e) & conditionSet != 0 <==> AnyAsked(r, w, e, conditionSet)
  {
  }

  lemma WantedIs(s: State, ready: FdSets, h: Handler, r: bool, w: bool, e: bool)
    requires r == Reported(s, ready, h.socketNum, Readable) && w == Reported(s, ready, h.socketNum, Writable)
    requires e == Reported(s, ready, h.socketNum, Exceptional)
    ensures Results(r, w, e) & h.conditionSet != 0 <==>
      Wanted(s, ready, h, Readable) || Wanted(s, ready, h, Writable) || Wanted(s, ready, h, Exceptional)
  {
    ResultsMeet(r, w, e, h.conditionSet);
  }

  /** The test of the scans on what they collected. */
  lemma DueIs(s: State, ready: FdSets, h: Handler, r: bool, w: bool, e: bool)
    requires r == Reported(s, ready, h.socketNum, Readable) && w == Reported(s, ready, h.socketNum, Writable)
    requires e == Reported(s, ready, h.socketNum, Exceptional)
    ensures (Results(r, w, e) & h.conditionSet != 0 && h.handlerProc != 0) == Due(s, ready, h)
    ensures Results(r, w, e) == Reports(s, ready, h.socketNum)
  {
    WantedIs(s, ready, h, r, w, e);
  }

  /** A handler that may be called: it exists, and one of the conditions it is registered for is
      reported by select and still watched for. */
  ghost predicate Callable(s: State, ready: FdSets, h: Handler) {
    h.handlerProc != 0 && exists c :: Wanted(s, ready, h, c)
  }

  lemma DueIsCallable(s: State, ready: FdSets, h: Handler)
    ensures Due(s, ready, h) <==> Callable(s, ready, h)
  {
    if c :| Wanted(s, ready, h, c) { OneOfThree(c); }
  }

  lemma OneOfThree(c: Condition)
    ensures c == Readable || c == Writable || c == Exceptional
  {
  }

  /** The scan starts past the handler of the last handled socket, if it is still there. */
  function Start(s: State): (i: nat)
    ensures i <= |s.handlers|
  {
    var k := Find(s.handlers, s.last);
    if s.last >= 0 && k < |s.handlers| then k + 1 else 0
  }

  /** The place j steps on from `start` in a list of n, going round. */
  function Place(start: nat, n: nat, j: nat): (i: nat)
    requires start <= n && j < n
    ensures i < n
  {
    if start + j < n then start + j else start + j - n
  }

  function Gap(start: nat, n: nat, i: nat): (j: nat)
    requires start <= n && i < n
    ensures j < n && Place(start, n, j) == i
  {
    if i >= start then i - start else i + n - start
  }

  /** The first due handler at distance j or more from the start. */
  function PickFrom(s: State, ready: FdSets, j: nat): (r: Option<nat>)
    requires j <= |s.handlers|
    ensures r.Some? ==> r.value < |s.handlers|
    decreases |s.handlers| - j
  {
    if j == |s.handlers| then None
    else
      var i := Place(Start(s), |s.handlers|, j);
      if Due(s, ready, s.handlers[i]) then Some(i) else PickFrom(s, ready, j + 1)
  }

  function Pick(s: State, ready: FdSets): (r: Option<nat>)
    ensures r.Some? ==> r.value < |s.handlers|
  {
    PickFrom(s, ready, 0)
  }

  function Step(s: State, ready: FdSets): State {
    match Pick(s, ready)
    case Some(i) => s.(last := s.handlers[i].socketNum)
    case None => s.(last := -1)
  }

  /** A step calls a handler that may be called, and nobody exactly when there is none. */
  lemma CallsTheCallable(s: State, ready: FdSets)
    ensures match Pick(s, ready)
            case Some(i) => Callable(s, ready, s.handlers[i])
            case None => forall i :: 0 <= i < |s.handlers| ==> !Callable(s, ready, s.handlers[i])
  {
    forall i: nat | i < |s.handlers| ensures Due(s, ready, s.handlers[i]) <==> Callable(s, ready, s.handlers[i]) {
      DueIsCallable(s, ready, s.handlers[i]);
    }
    PickedIsDue(s, ready, 0);
    forall i: nat | i < |s.handlers| && Pick(s, ready) == None ensures !Due(s, ready, s.handlers[i]) {
      if Due(s, ready, s.handlers[i]) { PickFromIsNearest(s, ready, 0, i); }
    }
  }

  lemma {:induction false} PickedIsDue(s: State, ready: FdSets, j: nat)
    requires j <= |s.handlers|
    ensures PickFrom(s, ready, j).Some? ==> Due(s, ready, s.handlers[PickFrom(s, ready, j).value])
    decreases |s.handlers| - j
  {
    if j < |s.handlers| { PickedIsDue(s, ready, j + 1); }
  }

  lemma StepKeepsInv(s: State, ready: FdSets)
    requires Inv(s)
    ensures Inv(Step(s, ready))
  {
  }

  lemma {:induction false} PickFromIsNearest(s: State, ready: FdSets, j: nat, i: nat)
    requires j <= |s.handlers| && i < |s.handlers| && Due(s, ready, s.handlers[i])
    requires j <= Gap(Start(s), |s.handlers|, i)
    ensures PickFrom(s, ready, j).Some?
    ensures j <= Gap(Start(s), |s.handlers|, PickFrom(s, ready, j).value) <= Gap(Start(s), |s.handlers|, i)
    ensures Due(s, ready, s.handlers[PickFrom(s, ready, j).value])
    decreases |s.handlers| - j
  {
    if !Due(s, ready, s.handlers[Place(Start(s), |s.handlers|, j)]) {
      PickFromIsNearest(s, ready, j + 1, i);
    }
  }

  lemma PickIs(s: State, ready: FdSets, i: nat)
    requires i < |s.handlers| && Due(s, ready, s.handlers[i])
    requires forall m: nat | m < |s.handlers| && Gap(Start(s), |s.handlers|, m) < Gap(Start(s), |s.handlers|, i) ::
               !Due(s, ready, s.handlers[m])
    ensures Pick(s, ready) == Some(i)
  {
    PickFromIsNearest(s, ready, 0, i);
    assert Gap(Start(s), |s.handlers|, Pick(s, ready).value) == Gap(Start(s), |s.handlers|, i);
  }

  /** The first due handler from place i to the end of the list, or the end. */
  function NextDue(s: State, ready: FdSets, i: nat): (j: nat)
    requires i <= |s.handlers|
    ensures i <= j <= |s.handlers|
    ensures j < |s.handlers| ==> Due(s, ready, s.handlers[j])
    ensures forall k :: i <= k < j ==> !Due(s, ready, s.handlers[k])
    decreases |s.handlers| - i
  {
    if i == |s.handlers| || Due(s, ready, s.handlers[i]) then i else NextDue(s, ready, i + 1)
  }

  lemma PickAhead(s: State, ready: FdSets, i: nat)
    requires Start(s) <= i < |s.handlers| && Due(s, ready, s.handlers[i])
    requires forall m :: Start(s) <= m < i ==> !Due(s, ready, s.handlers[m])
    ensures Pick(s, ready) == Some(i)
  {
    PickIs(s, ready, i);
  }

  lemma PickBehind(s: State, ready: FdSets, i: nat)
    requires i < |s.handlers| && Due(s, ready, s.handlers[i])
    requires forall m :: 0 <= m < i || Start(s) <= m < |s.handlers| ==> !Due(s, ready, s.handlers[m])
    ensures Pick(s, ready) == Some(i)
  {
    PickIs(s, ready, i);
  }

  lemma {:induction false} PickNone(s: State, ready: FdSets, j: nat)
    requires j <= |s.handlers| && forall m :: 0 <= m < |s.handlers| ==> !Due(s, ready, s.handlers[m])
    ensures PickFrom(s, ready, j) == None
    decreases |s.handlers| - j
  {
    if j < |s.handlers| { PickNone(s, ready, j + 1); }
  }

  lemma AfterPick(s: State, ready: FdSets)
    requires Inv(s) && Pick(s, ready).Some?
    ensures Start(Step(s, ready)) == Pick(s, ready).value + 1
  {
    FindIs(s.handlers, s.handlers[Pick(s, ready).value].socketNum, Pick(s, ready).value);
  }

  /** After a step that called nobody, which is one with nobody due, the next step calls the first
      due handler of the whole list. */
  lemma IdleStartsOver(s: State, ready: FdSets, next: FdSets, i: nat)
    requires i < |s.handlers| && Due(s, next, s.handlers[i]) && Pick(s, ready) == None
    ensures forall m :: 0 <= m < |s.handlers| ==> !Due(s, ready, s.handlers[m])
    ensures Pick(Step(s, ready), next).Some? && Pick(Step(s, ready), next).value <= i
    ensures Due(s, next, s.handlers[Pick(Step(s, ready), next).value])
  {
    forall m: nat | m < |s.handlers| ensures !Due(s, ready, s.handlers[m]) {
      if Due(s, ready, s.handlers[m]) { PickFromIsNearest(s, ready, 0, m); }
    }
    PickFromIsNearest(Step(s, ready), next, 0, i);
  }

  /** After a step that called handler c, the next step calls the due handler that comes soonest
      after c, going round. */
  lemma CallGoesOn(s: State, ready: FdSets, next: FdSets, i: nat)
    requires Inv(s) && i < |s.handlers| && Due(s, next, s.handlers[i]) && Pick(s, ready).Some?
    ensures var c, n, again := Pick(s, ready).value, |s.handlers|, Pick(Step(s, ready), next);
      again.Some? && Gap(c + 1, n, again.value) <= Gap(c + 1, n, i) && Due(s, next, s.handlers[again.value])
  {
    AfterPick(s, ready);
    PickFromIsNearest(Step(s, ready), next, 0, i);
  }

  // ---------- rounds, without sockets ----------

  /** A place picked short of place i, and the next search starting past it. */
  predicate RoundAt(n: nat, i: nat, start: nat, pick: nat, next: nat) {
    && i < n && pick < n && start <= n && next == pick + 1
    && Gap(start, n, pick) < Gap(start, n, i)
  }

  /** Places picked so one after the other. */
  ghost predicate Rounds(n: nat, i: nat, starts: seq<nat>, picks: seq<nat>) {
    && i < n && |starts| == |picks| + 1 && starts[0] <= n
    && (forall m :: 0 <= m < |picks| ==> RoundAt(n, i, starts[m], picks[m], starts[m + 1]))
  }

  lemma StartsWithin(n: nat, i: nat, starts: seq<nat>, picks: seq<nat>, m: nat)
    requires Rounds(n, i, starts, picks) && m <= |picks|
    ensures starts[m] <= n && (m < |picks| ==> RoundAt(n, i, starts[m], picks[m], starts[m + 1]))
  {
    if m > 0 { assert RoundAt(n, i, starts[m - 1], picks[m - 1], starts[m]); }
  }

  lemma GapsAfter(start: nat, n: nat, p: nat, u: nat, i: nat)
    requires start <= n && p < n && u < n && i < n
    requires Gap(start, n, p) < Gap(start, n, i)
    ensures Gap(p + 1, n, i) < Gap(start, n, i)
    ensures Gap(p + 1, n, u) < Gap(p + 1, n, i) ==> Gap(start, n, p) < Gap(start, n, u) < Gap(start, n, i)
  {
  }

  /** Every pick brings place i nearer. */
  lemma {:induction false} RoundsNearer(n: nat, i: nat, starts: seq<nat>, picks: seq<nat>, m: nat)
    requires Rounds(n, i, starts, picks) && m <= |picks|
    ensures starts[m] <= n && Gap(starts[m], n, i) <= Gap(starts[0], n, i) - m
  {
    StartsWithin(n, i, starts, picks, m);
    if m > 0 {
      RoundsNearer(n, i, starts, picks, m - 1);
      StartsWithin(n, i, starts, picks, m - 1);
      GapsAfter(starts[m - 1], n, picks[m - 1], i, i);
    }
  }

  /** Every later pick lies between an earlier one and place i. */
  lemma {:induction false} RoundsBetween(n: nat, i: nat, starts: seq<nat>, picks: seq<nat>, j: nat, k: nat)
    requires Rounds(n, i, starts, picks) && j <= k < |picks|
    ensures starts[j] <= n && picks[j] < n && picks[k] < n
    ensures Gap(starts[j], n, picks[k]) < Gap(starts[j], n, i)
    ensures j < k ==> Gap(starts[j], n, picks[j]) < Gap(starts[j], n, picks[k])
    decreases k - j
  {
    StartsWithin(n, i, starts, picks, j);
    if j < k {
      RoundsBetween(n, i, starts, picks, j + 1, k);
      GapsAfter(starts[j], n, picks[j], picks[k], i);
    }
  }

  // ---------- fairness ----------

  /** The state after k steps of a run. */
  function After(s: State, readies: seq<FdSets>, k: nat): (s': State)
    requires k <= |readies|
    ensures |s'.handlers| == |s.handlers|
  {
    if k == 0 then s else Step(After(s, readies, k - 1), readies[k - 1])
  }

  /** The handler that step k of a run calls, if any: one at most. */
  function Called(s: State, readies: seq<FdSets>, k: nat): (r: Option<nat>)
    requires k < |readies|
    ensures r.Some? ==> r.value < |s.handlers|
  {
    Pick(After(s, readies, k), readies[k])
  }

  ghost predicate StaysDue(s: State, readies: seq<FdSets>, i: nat)
    requires i < |s.handlers|
  {
    forall k :: 0 <= k < |readies| ==> Due(s, readies[k], s.handlers[i])
  }

  lemma {:induction false} AfterSame(s: State, readies: seq<FdSets>, k: nat)
    requires Inv(s) && k <= |readies|
    ensures var s' := After(s, readies, k); s'.handlers == s.handlers && s'.fds == s.fds && Inv(s')
  {
    if k > 0 {
      AfterSame(s, readies, k - 1);
      StepKeepsInv(After(s, readies, k - 1), readies[k - 1]);
    }
  }

  lemma DueSame(s: State, s': State, ready: FdSets, h: Handler)
    requires s'.fds == s.fds
    ensures Due(s', ready, h) == Due(s, ready, h)
  {
  }

  lemma PicksFirst(s: State, ready: FdSets, i: nat)
    requires i < |s.handlers| && Due(s, ready, s.handlers[i]) && Pick(s, ready) != Some(i)
    ensures Pick(s, ready).Some? && Gap(Start(s), |s.handlers|, Pick(s, ready).value) < Gap(Start(s), |s.handlers|, i)
  {
    PickFromIsNearest(s, ready, 0, i);
  }

  /** A step that does not call the handler that stays due calls one before it. */
  lemma RoundStep(s: State, readies: seq<FdSets>, i: nat, k: nat)
    requires Inv(s) && i < |s.handlers| && StaysDue(s, readies, i) && k < |readies| && Called(s, readies, k) != Some(i)
    ensures Called(s, readies, k).Some?
    ensures RoundAt(|s.handlers|, i, Start(After(s, readies, k)), Called(s, readies, k).value,
                    Start(After(s, readies, k + 1)))
  {
    var s' := After(s, readies, k);
    AfterSame(s, readies, k);
    DueSame(s, s', readies[k], s.handlers[i]);
    PicksFirst(s', readies[k], i);
    AfterPick(s', readies[k]);
  }

  function Starts(s: State, readies: seq<FdSets>, m: nat): (r: seq<nat>)
    requires m <= |readies|
    ensures |r| == m + 1 && forall k :: 0 <= k <= m ==> r[k] == Start(After(s, readies, k)) <= |s.handlers|
  {
    seq(m + 1, k requires 0 <= k <= m => Start(After(s, readies, k)))
  }

  function CalledUpTo(s: State, readies: seq<FdSets>, m: nat): (r: seq<nat>)
    requires m <= |readies| && forall k :: 0 <= k < m ==> Called(s, readies, k).Some?
    ensures |r| == m && forall k :: 0 <= k < m ==> r[k] == Called(s, readies, k).value
  {
    seq(m, k requires 0 <= k < m => Called(s, readies, k).value)
  }

  ghost predicate Uncalled(s: State, readies: seq<FdSets>, i: nat, m: nat)
    requires m <= |readies|
  {
    forall k :: 0 <= k < m ==> Called(s, readies, k) != Some(i)
  }

  lemma RunRounds(s: State, readies: seq<FdSets>, i: nat, m: nat)
    requires Inv(s) && i < |s.handlers| && StaysDue(s, readies, i) && m <= |readies| && Uncalled(s, readies, i, m)
    ensures forall k :: 0 <= k < m ==> Called(s, readies, k).Some?
    ensures Rounds(|s.handlers|, i, Starts(s, readies, m), CalledUpTo(s, readies, m))
  {
    forall k: nat | k < m
      ensures Called(s, readies, k).Some?
        && RoundAt(|s.handlers|, i, Start(After(s, readies, k)), Called(s, readies, k).value,
                   Start(After(s, readies, k + 1)))
    {
      RoundStep(s, readies, i, k);
    }
  }

  /** Fairness: with n handlers, one that stays due is called within n steps, whatever the
      other sockets do. */
  lemma Fair(s: State, readies: seq<FdSets>, i: nat)
    requires Inv(s) && i < |s.handlers| && StaysDue(s, readies, i) && |readies| >= |s.handlers|
    ensures exists k :: 0 <= k < |s.handlers| && Called(s, readies, k) == Some(i)
  {
    var n := |s.handlers|;
    if Uncalled(s, readies, i, n) {
      RunRounds(s, readies, i, n);
      RoundsNearer(n, i, Starts(s, readies, n), CalledUpTo(s, readies, n), n);
      assert false;
    }
  }

  /** While one handler stays due and uncalled, no other is called twice. */
  lemma NoOvertaking(s: State, readies: seq<FdSets>, i: nat, j: nat, k: nat)
    requires Inv(s) && i < |s.handlers| && StaysDue(s, readies, i) && Uncalled(s, readies, i, |readies|)
    requires j < k < |readies|
    ensures Called(s, readies, j) != Called(s, readies, k)
  {
    RunRounds(s, readies, i, |readies|);
    RoundsBetween(|s.handlers|, i, Starts(s, readies, |readies|), CalledUpTo(s, readies, |readies|), j, k);
  }
}

/** HandlerSet: a circular doubly linked list of descriptors, closed by a sentinel. */
module HandlerSets {
  import opened Seqs
  import opened SocketRuns

  class HandlerDescriptor {
    var socketNum: int
    var conditionSet: bv32
    var handlerProc: nat
    var clientData: nat
    var nextHandler: HandlerDescriptor
    var prevHandler: HandlerDescriptor

    constructor ()
      ensures nextHandler == prevHandler == this
    {
      socketNum, conditionSet, handlerProc, clientData := -1, 0, 0, 0;
      nextHandler, prevHandler := this, this;
    }

    function Value(): Handler
      reads `socketNum, `conditionSet, `handlerProc, `clientData
    {
      Handler(socketNum, conditionSet, handlerProc, clientData)
    }

    ghost predicate Holds(h: Handler)
      reads `socketNum, `conditionSet, `handlerProc, `clientData
    {
      Value() == h
    }
  }

  class HandlerSet {
    const handlers: HandlerDescriptor        // the sentinel
    ghost var nodes: seq<HandlerDescriptor>  // the ring, ending with the sentinel
    ghost var hs: seq<Handler>               // what each descriptor before it holds

    ghost predicate Ring()
      reads `nodes, handlers, nodes
    {
      && |nodes| > 0 && nodes[|nodes| - 1] == handlers
      && (forall i, j :: 0 <= i < j < |nodes| ==> nodes[i] != nodes[j])
      && (forall i {:trigger nodes[i].nextHandler} :: 0 <= i < |nodes| - 1 ==> nodes[i].nextHandler == nodes[i + 1])
      && (forall i {:trigger nodes[i].prevHandler} :: 0 < i < |nodes| ==> nodes[i].prevHandler == nodes[i - 1])
      && handlers.nextHandler == nodes[0] && nodes[0].prevHandler == handlers
    }

    ghost predicate Valid()
      reads `nodes, `hs, handlers, nodes
    {
      Ring() && |nodes| == |hs| + 1 && forall i :: 0 <= i < |hs| ==> nodes[i].Holds(hs[i])
    }

    constructor ()
      ensures Valid() && hs == [] && fresh(handlers) && nodes == [handlers]
    {
      handlers := new HandlerDescriptor();
      nodes, hs := [handlers], [];
    }

    /** The linking half of the descriptor's constructor, at the front of the list. */
    method LinkFirst(handler: HandlerDescriptor)
      requires Ring() && handler !in nodes
      modifies `nodes, handler`nextHandler, handler`prevHandler, handlers`nextHandler, handlers.nextHandler`prevHandler
      ensures Ring() && nodes == InsertAt(old(nodes), 0, handler)
    {
      var nextHandler := handlers.nextHandler;
      handler.nextHandler := nextHandler;
      handler.prevHandler := nextHandler.prevHandler;
      nextHandler.prevHandler := handler;
      handler.prevHandler.nextHandler := handler;
      ghost var q := nodes;
      nodes := InsertAt(nodes, 0, handler);
      assert forall i {:trigger nodes[i]} :: 0 <= i < |nodes| ==> nodes[i] == if i == 0 then handler else q[i - 1];
    }

    /** The descriptor's destructor. */
    method Unlink(handler: HandlerDescriptor, ghost k: nat)
      requires Ring() && k + 1 < |nodes| && handler == nodes[k]
      modifies `nodes, nodes
      ensures Ring() && nodes == RemoveAt(old(nodes), k)
      ensures forall n, h: Handler :: n in nodes ==> n.Holds(h) == old(n.Holds(h))
    {
      handler.nextHandler.prevHandler := handler.prevHandler;
      handler.prevHandler.nextHandler := handler.nextHandler;
      nodes := RemoveAt(nodes, k);
    }

    method LookupHandler(socketNum: int) returns (handler: HandlerDescriptor?, ghost k: nat)
      requires Valid()
      ensures k == Find(hs, socketNum)
      ensures handler == if Find(hs, socketNum) < |hs| then nodes[Find(hs, socketNum)] else null
    {
      var iter := new HandlerIterator(this);
      handler := iter.Next(0);
      k := 0;
      while handler != null
        invariant fresh(iter) && iter.ourSet == this && k <= |hs| && iter.Yielded(handler, k)
        invariant forall j :: 0 <= j < k ==> hs[j].socketNum != socketNum
        decreases |hs| - k
      {
        if handler.socketNum == socketNum { break; }
        handler := iter.Next(k + 1);
        k := k + 1;
      }
      FindIs(hs, socketNum, k);
    }

    method Fill(handler: HandlerDescriptor, h: Handler, ghost k: nat)
      requires Ring() && |nodes| == |hs| + 1 && k < |hs| && handler == nodes[k] && h.socketNum == handler.socketNum
      requires forall i :: 0 <= i < |hs| && i != k ==> nodes[i].Holds(hs[i])
      modifies `hs, handler`conditionSet, handler`handlerProc, handler`clientData
      ensures Valid() && hs == old(hs)[k := h]
    {
      handler.conditionSet := h.conditionSet;
      handler.handlerProc := h.handlerProc;
      handler.clientData := h.clientData;
      hs := hs[k := h];
    }

    method AssignHandler(h: Handler)
      requires Valid()
      modifies this, nodes
      ensures Valid() && hs == Assign(old(hs), h)
      ensures forall n :: n in nodes ==> n in old(nodes) || fresh(n)
    {
      var handler;
      ghost var k;
      handler, k := LookupHandler(h.socketNum);
      if handler == null {
        AddFirst(h);
      } else {
        Fill(handler, h, k);
      }
    }

    method AddFirst(h: Handler)
      requires Valid()
      modifies this, nodes
      ensures Valid() && hs == InsertAt(old(hs), 0, h)
      ensures forall n :: n in nodes ==> n in old(nodes) || fresh(n)
    {
      var handler := new HandlerDescriptor();
      LinkFirst(handler);
      handler.socketNum := h.socketNum;
      hs := InsertAt(hs, 0, h);
      Fill(handler, h, 0);
    }

    method ClearHandler(socketNum: int)
      requires Valid()
      modifies this, nodes
      ensures Valid() && hs == SocketRuns.ClearHandler(old(hs), socketNum)
      ensures forall n :: n in nodes ==> n in old(nodes)
    {
      var handler;
      ghost var k;
      handler, k := LookupHandler(socketNum);
      if handler != null {
        Delete(handler, k);
      }
    }

    method Delete(handler: HandlerDescriptor, ghost k: nat)
      requires Valid() && k < |hs| && handler == nodes[k]
      modifies `nodes, `hs, nodes
      ensures Valid() && nodes == RemoveAt(old(nodes), k) && hs == RemoveAt(old(hs), k)
    {
      Unlink(handler, k);
      hs := RemoveAt(hs, k);
    }

    method MoveHandler(oldSocketNum: int, newSocketNum: int)
      requires Valid()
      modifies `hs, nodes
      ensures Valid() && hs == SocketRuns.MoveHandler(old(hs), oldSocketNum, newSocketNum)
    {
      var handler;
      ghost var k;
      handler, k := LookupHandler(oldSocketNum);
      if handler != null {
        handler.socketNum := newSocketNum;
        hs := hs[k := hs[k].(socketNum := newSocketNum)];
      }
    }
  }

  class HandlerIterator {
    const ourSet: HandlerSet
    var nextPtr: HandlerDescriptor

    constructor (s: HandlerSet)
      ensures ourSet == s && nextPtr == s.handlers.nextHandler
    {
      ourSet, nextPtr := s, s.handlers.nextHandler;
    }

    /** The next call returns handler k of the set. */
    ghost predicate At(s: HandlerSet, k: nat)
      reads this, s
    {
      ourSet == s && k < |s.nodes| && nextPtr == s.nodes[k]
    }

    /** The last call returned handler k, or null when there are no more than k. */
    ghost predicate Yielded(handler: HandlerDescriptor?, k: nat)
      reads this, ourSet, ourSet.handlers, ourSet.nodes
    {
      && ourSet.Valid() && k <= |ourSet.hs| && At(ourSet, if handler != null then k + 1 else k)
      && handler == (if k < |ourSet.hs| then ourSet.nodes[k] else null)
      && (handler != null ==> handler.Holds(ourSet.hs[k]))
    }

    method Reset()
      requires ourSet.Valid()
      modifies this
      ensures At(ourSet, 0)
    {
      nextPtr := ourSet.handlers.nextHandler;
    }

    method Next(ghost k: nat) returns (result: HandlerDescriptor?)
      requires ourSet.Valid() && At(ourSet, k)
      modifies this
      ensures Yielded(result, k)
    {
      result := nextPtr;
      if result == ourSet.handlers {
        result := null;
      } else {
        nextPtr := nextPtr.nextHandler;
      }
    }
  }
}

/** The socket half of BasicTaskScheduler. */
module SocketSchedulers {
  import opened Options
  import opened SocketRuns
  import S = SocketScan
  import opened HandlerSets

  const SOCKET_READABLE: bv32 := 2
  const SOCKET_WRITABLE: bv32 := 4
  const SOCKET_EXCEPTION: bv32 := 8

  method Collect(r: bool, w: bool, e: bool) returns (results: bv32)
    ensures results == S.Results(r, w, e)
  {
    results := 0;
    if r { results := results | SOCKET_READABLE; }
    if w { results := results | SOCKET_WRITABLE; }
    if e { results := results | SOCKET_EXCEPTION; }
  }

  /** The test the two scans share; `results` is what the handler is told. */
  method Test(h: Handler, fds: FdSets, ready: FdSets, ghost s: State) returns (due: bool, results: bv32)
    requires s.fds == fds
    ensures due == S.Due(s, ready, h) && results == S.Reports(s, ready, h.socketNum)
  {
    var sock := h.socketNum;
    var r, w, e := sock in ready.read && sock in fds.read,
                   sock in ready.write && sock in fds.write,
                   sock in ready.exception && sock in fds.exception;
    results := Collect(r, w, e);
    due := results & h.conditionSet != 0 && h.handlerProc != 0;
    S.DueIs(s, ready, h, r, w, e);
  }

  method Look(handler: HandlerDescriptor, fds: FdSets, ready: FdSets, ghost s: State, ghost i: nat)
    returns (due: bool, results: bv32)
    requires i < |s.handlers| && handler.Holds(s.handlers[i]) && s.fds == fds
    ensures S.NextDue(s, ready, i) == if due then i else S.NextDue(s, ready, i + 1)
    ensures results == S.Reports(s, ready, s.handlers[i].socketNum)
  {
    due, results := Test(handler.Value(), fds, ready, s);
  }

  /** The loop the two scans share: to the first due handler from place k on. */
  method FindDue(iter: HandlerIterator, fds: FdSets, ready: FdSets, ghost s: State, ghost k: nat)
    returns (handler: HandlerDescriptor?, results: bv32, ghost i: nat)
    requires iter.ourSet.Valid() && iter.At(iter.ourSet, k) && s.handlers == iter.ourSet.hs && s.fds == fds
    modifies iter
    ensures iter.Yielded(handler, i) && i == S.NextDue(s, ready, k)
    ensures handler != null ==> results == S.Reports(s, ready, s.handlers[i].socketNum)
  {
    i, results := k, 0;
    handler := iter.Next(k);
    while handler != null
      invariant k <= i <= |s.handlers| && iter.Yielded(handler, i)
      invariant S.NextDue(s, ready, i) == S.NextDue(s, ready, k)
      decreases |s.handlers| - i
    {
      var due;
      due, results := Look(handler, fds, ready, s, i);
      if due { return; }
      handler := iter.Next(i + 1);
      i := i + 1;
    }
  }

  class BasicTaskScheduler {
    const handlers: HandlerSet
    var fds: FdSets  // fReadSet, fWriteSet and fExceptionSet
    var maxNumSockets: int
    var lastHandledSocketNum: int

    ghost predicate Valid()
      reads this, handlers, handlers.handlers, handlers.nodes
    {
      handlers.Valid() && Ranged(handlers.hs) && -1 <= lastHandledSocketNum
    }

    ghost function Abs(): State
      reads this, handlers
    {
      State(handlers.hs, fds, maxNumSockets, lastHandledSocketNum)
    }

    constructor ()
      ensures Valid() && Abs() == START && Inv(Abs())
      ensures fresh(handlers) && fresh(handlers.nodes)
    {
      handlers := new HandlerSet();
      fds, maxNumSockets, lastHandledSocketNum := NONE, 0, -1;
    }

    method SetBackgroundHandling(socketNum: int, conditionSet: bv32, handlerProc: nat, clientData: nat)
      requires Valid()
      modifies this, handlers, handlers.nodes
      ensures Valid() && Abs() == SetBackground(old(Abs()), Handler(socketNum, conditionSet, handlerProc, clientData))
      ensures forall n :: n in handlers.nodes ==> n in old(handlers.nodes) || fresh(n)
    {
      if socketNum < 0 { return; }
      if socketNum >= FD_SETSIZE { return; }
      fds := fds.Clear(socketNum);
      if conditionSet == 0 {
        handlers.ClearHandler(socketNum);
        if socketNum + 1 == maxNumSockets { maxNumSockets := maxNumSockets - 1; }
      } else {
        handlers.AssignHandler(Handler(socketNum, conditionSet, handlerProc, clientData));
        if socketNum + 1 > maxNumSockets { maxNumSockets := socketNum + 1; }
        WatchFor(socketNum, conditionSet);
      }
    }

    method WatchFor(socketNum: int, conditionSet: bv32)
      modifies `fds
      ensures fds == old(fds).Set(socketNum, conditionSet)
    {
      if conditionSet & SOCKET_READABLE != 0 { fds := fds.(read := fds.read + {socketNum}); }
      if conditionSet & SOCKET_WRITABLE != 0 { fds := fds.(write := fds.write + {socketNum}); }
      if conditionSet & SOCKET_EXCEPTION != 0 { fds := fds.(exception := fds.exception + {socketNum}); }
    }

    method MoveSocketHandling(oldSocketNum: int, newSocketNum: int)
      requires Valid()
      modifies this, handlers, handlers.nodes
      ensures Valid() && Abs() == MoveSocket(old(Abs()), oldSocketNum, newSocketNum)
    {
      if oldSocketNum < 0 || newSocketNum < 0 { return; }
      if oldSocketNum >= FD_SETSIZE || newSocketNum >= FD_SETSIZE { return; }
      WatchInstead(oldSocketNum, newSocketNum);
      handlers.MoveHandler(oldSocketNum, newSocketNum);
      if oldSocketNum + 1 == maxNumSockets { maxNumSockets := maxNumSockets - 1; }
      if newSocketNum + 1 > maxNumSockets { maxNumSockets := newSocketNum + 1; }
    }

    method WatchInstead(oldSocketNum: int, newSocketNum: int)
      modifies `fds
      ensures fds == old(fds).Move(oldSocketNum, newSocketNum)
    {
      if oldSocketNum in fds.read { fds := fds.(read := fds.read - {oldSocketNum} + {newSocketNum}); }
      if oldSocketNum in fds.write { fds := fds.(write := fds.write - {oldSocketNum} + {newSocketNum}); }
      if oldSocketNum in fds.exception { fds := fds.(exception := fds.exception - {oldSocketNum} + {newSocketNum}); }
    }

    /** Advance past the handler of the last handled socket, or start over if it is gone. */
    method SkipHandled(iter: HandlerIterator)
      requires Valid() && lastHandledSocketNum >= 0 && iter.At(handlers, 0)
      modifies iter, `lastHandledSocketNum
      ensures Valid() && iter.At(handlers, S.Start(old(Abs())))
      ensures lastHandledSocketNum == if S.Start(old(Abs())) == 0 then -1 else old(lastHandledSocketNum)
    {
      var handler := iter.Next(0);
      ghost var k := 0;
      while handler != null
        invariant k <= |handlers.hs| && Valid() && Abs() == old(Abs())
        invariant iter.Yielded(handler, k)
        invariant forall j :: 0 <= j < k ==> handlers.hs[j].socketNum != lastHandledSocketNum
        decreases |handlers.hs| - k
      {
        if handler.socketNum == lastHandledSocketNum { break; }
        handler := iter.Next(k + 1);
        k := k + 1;
      }
      FindIs(handlers.hs, lastHandledSocketNum, k);
      if handler == null {
        lastHandledSocketNum := -1;
        iter.Reset();
      }
    }

    /** One scan, from handler k to the end of the list, for a handler that is due. */
    method Scan(iter: HandlerIterator, ready: FdSets, ghost k: nat)
      returns (called: Option<HandlerDescriptor>, results: bv32, ghost i: nat)
      requires Valid() && iter.At(handlers, k)
      modifies iter, `lastHandledSocketNum
      ensures Valid() && i == S.NextDue(old(Abs()), ready, k)
      ensures if i < |handlers.hs|
              then called == Some(handlers.nodes[i])
                && results == S.Reports(old(Abs()), ready, handlers.hs[i].socketNum)
                && lastHandledSocketNum == handlers.hs[i].socketNum
              else called == None && lastHandledSocketNum == old(lastHandledSocketNum)
    {
      var handler;
      handler, results, i := FindDue(iter, fds, ready, Abs(), k);
      if handler == null {
        called := None;
      } else {
        lastHandledSocketNum := handler.socketNum;
        called := Some(handler);
      }
    }

    /** The socket part of SingleStep: one scan from past the last handled socket, and, if that
        finds none, one from the front. At most one handler is called. */
    method HandleSocket(ready: FdSets) returns (called: Option<HandlerDescriptor>, results: bv32)
      requires Valid()
      modifies `lastHandledSocketNum
      ensures Valid() && Abs() == S.Step(old(Abs()), ready)
      ensures match S.Pick(old(Abs()), ready)
              case Some(i) =>
                called == Some(handlers.nodes[i]) && results == S.Reports(old(Abs()), ready, handlers.hs[i].socketNum)
              case None => called == None
    {
      ghost var s, i := Abs(), 0;
      var iter := new HandlerIterator(handlers);
      if lastHandledSocketNum >= 0 { SkipHandled(iter); }
      called, results, i := Scan(iter, ready, S.Start(s));
      if called != None {
        S.PickAhead(s, ready, i);
        return;
      }
      if lastHandledSocketNum >= 0 {
        called, results := Rescan(iter, ready, s);
      } else {
        S.PickNone(s, ready, 0);
      }
    }

    /** The second scan, when the first one began past the front and found nothing. */
    method Rescan(iter: HandlerIterator, ready: FdSets, ghost s: State)
      returns (called: Option<HandlerDescriptor>, results: bv32)
      requires Valid() && s == Abs() && iter.ourSet == handlers
      requires forall m :: S.Start(s) <= m < |handlers.hs| ==> !S.Due(s, ready, handlers.hs[m])
      modifies iter, `lastHandledSocketNum
      ensures Valid() && Abs() == S.Step(s, ready)
      ensures match S.Pick(s, ready)
              case Some(i) =>
                called == Some(handlers.nodes[i]) && results == S.Reports(s, ready, handlers.hs[i].socketNum)
              case None => called == None
    {
      ghost var i;
      iter.Reset();
      called, results, i := Scan(iter, ready, 0);
      if called != None {
        S.PickBehind(s, ready, i);
        return;
      }
      lastHandledSocketNum := -1;
      S.PickNone(s, ready, 0);
    }
  }
}
