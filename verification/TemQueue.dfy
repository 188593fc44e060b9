/** The event list of one TEM node: list.h's circular list, and the three critical sections
    of tem.c that edit it together with the two totals. */
module TemQueues {
  import opened Seqs
  import opened TemProtocol
  import S = TemSafety

  class ListHead {
    var next: ListHead?
    var prev: ListHead?
    var ev: Event

    constructor (e: Event)
      ensures ev == e
    {
      next, prev, ev := null, null, e;
    }
  }

  class TemQueue {
    const head: ListHead
    var totalListCnt: nat
    var totalDataCnt: nat

    ghost var nodes: seq<ListHead>  // the ring, starting with the head
    ghost var evs: seq<Event>       // what each of them holds
    ghost var queue: seq<Slot>

    ghost predicate Ring()
      reads `nodes, head, nodes
    {
      && |nodes| > 0 && nodes[0] == head
      && (forall i, j :: 0 <= i < j < |nodes| ==> nodes[i] != nodes[j])
      && (forall i {:trigger nodes[i].next} :: 0 <= i < |nodes| - 1 ==> nodes[i].next == nodes[i + 1])
      && (forall i {:trigger nodes[i].prev} :: 0 < i < |nodes| ==> nodes[i].prev == nodes[i - 1])
      && nodes[|nodes| - 1].next == head && head.prev == nodes[|nodes| - 1]
    }

    ghost predicate Held()
      reads `nodes, `evs, head, nodes
    {
      Ring() && |evs| == |nodes| && forall i :: 0 <= i < |nodes| ==> nodes[i].ev == evs[i]
    }

    ghost predicate Valid()
      reads this, head, nodes
    {
      Held() && Matches(evs, queue)
    }

    constructor ()
      ensures Valid() && queue == [] && totalListCnt == totalDataCnt == 0 && fresh(head)
    {
      var e := Event(Stop, 0, 0, 0);
      head := new ListHead(e);
      totalListCnt, totalDataCnt := 0, 0;
      nodes, evs, queue := [head], [e], [];
      new;
      head.next, head.prev := head, head;
    }

    /** __list_add: link `node` between the neighbours at places k - 1 and k of the ring. */
    method Link(node: ListHead, before: ListHead, after: ListHead, ghost k: nat)
      requires Ring() && 0 < k <= |nodes| && node !in nodes
      requires before == nodes[k - 1] && after == if k == |nodes| then head else nodes[k]
      modifies `nodes, nodes, node
      ensures Ring() && nodes == InsertAt(old(nodes), k, node)
      ensures forall n :: n in nodes ==> n.ev == old(n.ev)
    {
      after.prev := node;
      node.next := after;
      node.prev := before;
      before.next := node;
      ghost var q := nodes;
      nodes := InsertAt(nodes, k, node);
      assert forall i {:trigger nodes[i]} :: 0 <= i < |nodes| ==>
        nodes[i] == if i < k then q[i] else if i == k then node else q[i - 1];
    }

    method AddHead(node: ListHead)
      requires Held() && node !in nodes
      modifies `nodes, `evs, nodes, node
      ensures Held() && nodes == InsertAt(old(nodes), 1, node) && evs == InsertAt(old(evs), 1, old(node.ev))
    {
      Link(node, head, head.next, 1);
      evs := InsertAt(evs, 1, node.ev);
    }

    method AddTail(node: ListHead)
      requires Held() && node !in nodes
      modifies `nodes, `evs, nodes, node
      ensures Held() && nodes == InsertAt(old(nodes), |old(nodes)|, node)
      ensures evs == InsertAt(old(evs), |old(evs)|, old(node.ev))
    {
      Link(node, head.prev, head, |nodes|);
      evs := InsertAt(evs, |evs|, node.ev);
    }

    /** list_del */
    method Delete(node: ListHead, ghost k: nat)
      requires Held() && 0 < k < |nodes| && node == nodes[k]
      modifies `nodes, `evs, nodes
      ensures Held() && nodes == RemoveAt(old(nodes), k) && evs == RemoveAt(old(evs), k)
    {
      Unlink(node, k);
      evs := RemoveAt(evs, k);
    }

    method Unlink(node: ListHead, ghost k: nat)
      requires Ring() && 0 < k < |nodes| && node == nodes[k]
      modifies `nodes, nodes
      ensures Ring() && nodes == RemoveAt(old(nodes), k)
      ensures forall n :: n in nodes ==> n.ev == old(n.ev)
    {
      node.next.prev := node.prev;
      node.prev.next := node.next;
      node.next, node.prev := null, null;
      nodes := RemoveAt(nodes, k);
    }

    /** The first critical section of _TemPushEvent. */
    method AddEvent(node: ListHead)
      requires Valid() && node !in nodes && node.ev.bytes < U32
      modifies this, nodes, node
      ensures Valid() && queue == Push(old(queue), old(node.ev))
      ensures totalListCnt == (old(totalListCnt) + 1) % U32
      ensures totalDataCnt == (old(totalDataCnt) + old(node.ev.bytes)) % U32
      ensures nodes == InsertAt(old(nodes), |old(nodes)|, node)
    {
      MatchesPush(evs, queue, node.ev);
      totalListCnt := (totalListCnt + 1) % 0x1_0000_0000;
      totalDataCnt := (totalDataCnt + node.ev.bytes) % 0x1_0000_0000;
      queue := Push(queue, node.ev);
      AddTail(node);
    }

    method PushEvent(e: Event)
      requires Valid() && e.bytes < U32
      modifies this, nodes
      ensures Valid() && queue == Push(old(queue), e)
      ensures totalListCnt == (old(totalListCnt) + 1) % U32 && totalDataCnt == (old(totalDataCnt) + e.bytes) % U32
      ensures forall n :: n in nodes ==> n in old(nodes) || fresh(n)
    {
      var node := new ListHead(e);
      AddEvent(node);
    }

    method AddBracket(drop: ListHead, dropEnd: ListHead)
      requires Valid() && drop !in nodes && dropEnd !in nodes && drop != dropEnd
      requires drop.ev == DROP && dropEnd.ev == DROP_END
      modifies this, nodes, drop, dropEnd
      ensures Valid() && queue == Enclose(old(queue))
      ensures totalListCnt == (old(totalListCnt) + 2) % U32 && totalDataCnt == old(totalDataCnt)
      ensures nodes == InsertAt(InsertAt(old(nodes), 1, drop), |old(nodes)| + 1, dropEnd)
    {
      MatchesEnclose(evs, queue);
      totalListCnt := (totalListCnt + 2) % 0x1_0000_0000;
      queue := Enclose(queue);
      AddHead(drop);
      AddTail(dropEnd);
    }

    /** The second critical section of _TemPushEvent: DROP first, DROP_END last. */
    method InsertBracket()
      requires Valid()
      modifies this, nodes
      ensures Valid() && queue == Enclose(old(queue))
      ensures totalListCnt == (old(totalListCnt) + 2) % U32 && totalDataCnt == old(totalDataCnt)
      ensures forall n :: n in nodes ==> n in old(nodes) || fresh(n)
    {
      var drop := new ListHead(DROP);
      var dropEnd := new ListHead(DROP_END);
      AddBracket(drop, dropEnd);
    }

    /** The critical section of _TemPopEvent. */
    method Pop() returns (found: bool, e: Event)
      requires Valid()
      modifies this, nodes
      ensures Valid() && found == (old(queue) != [])
      ensures forall n :: n in nodes ==> n in old(nodes)
      ensures if found then
                && e == old(queue)[0].ev && queue == old(queue)[1..]
                && totalListCnt == (old(totalListCnt) - 1) % U32
                && totalDataCnt == (old(totalDataCnt) - e.bytes) % U32
              else queue == [] && totalListCnt == old(totalListCnt) && totalDataCnt == old(totalDataCnt)
    {
      if head.next == head {
        return false, head.ev;
      }
      var node := head.next;
      e := node.ev;
      Delete(node, 1);
      totalListCnt := (totalListCnt - 1) % 0x1_0000_0000;
      totalDataCnt := (totalDataCnt - e.bytes) % 0x1_0000_0000;
      queue := queue[1..];
      found := true;
    }
  }

  /** What another thread's critical section does to the queue between two pops. */
  datatype Insertion = OneEvent(e: Event) | OneBracket

  ghost predicate Sendable(i: Insertion) { i.OneEvent? ==> !i.e.kind.Bracket() && i.e.bytes < U32 }

  function Inserted(q: seq<Slot>, i: Insertion): seq<Slot> {
    match i
    case OneEvent(e) => Push(q, e)
    case OneBracket => Enclose(q)
  }

  function InsertedAll(q: seq<Slot>, batch: seq<Insertion>): seq<Slot> {
    if batch == [] then q else Inserted(InsertedAll(q, batch[..|batch| - 1]), batch[|batch| - 1])
  }

  function EventsIn(batch: seq<Insertion>): seq<Event> {
    if batch == [] then []
    else EventsIn(batch[..|batch| - 1]) + if batch[|batch| - 1].OneEvent? then [batch[|batch| - 1].e] else []
  }

  function First(batches: seq<seq<Insertion>>): seq<Insertion> { if batches == [] then [] else batches[0] }

  function Rest(batches: seq<seq<Insertion>>): seq<seq<Insertion>> { if batches == [] then [] else batches[1..] }

  function Note(l: Log, batch: seq<Insertion>): Log { l.(pushed := l.pushed + EventsIn(batch)) }

  /** What a drain does to the locals and to the log: before each pop others insert a batch. */
  function Drain(q: seq<Slot>, batches: seq<seq<Insertion>>, c: Control, n: Counter, l: Log, ms: nat)
    : (Control, Counter, Log)
    decreases |batches|, |q|
  {
    var q', l' := InsertedAll(q, First(batches)), Note(l, First(batches));
    if q' == [] then (c, n, l')
    else
      var k := q'[0].ev.kind;
      Drain(q'[1..], Rest(batches), Obey(c, k, ms), Count(n, k), Record(l', q'[0], n), ms)
  }

  /** The insertions of other threads before one pop. */
  method Insert(q: TemQueue, batch: seq<Insertion>)
    requires q.Valid() && forall i :: i in batch ==> Sendable(i)
    modifies q, q.nodes
    ensures q.Valid() && q.queue == InsertedAll(old(q.queue), batch)
    ensures forall n :: n in q.nodes ==> n in old(q.nodes) || fresh(n)
  {
    for k := 0 to |batch|
      invariant q.Valid() && q.queue == InsertedAll(old(q.queue), batch[..k])
      invariant forall n :: n in q.nodes ==> n in old(q.nodes) || fresh(n)
    {
      assert batch[..k + 1][..k] == batch[..k] && batch[k] in batch;
      assert forall j :: 0 <= j < |q.nodes| ==> q.nodes[j] in q.nodes;
      match batch[k] {
        case OneEvent(e) => q.PushEvent(e);
        case OneBracket => q.InsertBracket();
      }
    }
    assert batch[..|batch|] == batch;
  }

  /** One round of _TemEventMonitor: what others insert, and the pop. */
  method Round(q: TemQueue, batch: seq<Insertion>) returns (found: bool, e: Event)
    requires q.Valid() && forall i :: i in batch ==> Sendable(i)
    modifies q, q.nodes
    ensures q.Valid()
    ensures var was := InsertedAll(old(q.queue), batch);
      found == (was != []) && (if found then e == was[0].ev && q.queue == was[1..] else q.queue == [])
    ensures forall n :: n in q.nodes ==> n in old(q.nodes) || fresh(n)
  {
    Insert(q, batch);
    assert forall j :: 0 <= j < |q.nodes| ==> q.nodes[j] in q.nodes;
    found, e := q.Pop();
  }

  /** _TemEventMonitor, against any insertions by other threads while it runs. Callbacks and
      frees are what it adds to the log. */
  method EventMonitor(q: TemQueue, batches: seq<seq<Insertion>>, u32ThreadTimeoutMs: nat, c: Control, ghost l: Log)
    returns (c': Control, ghost n': Counter, ghost l': Log)
    requires q.Valid() && forall b, i :: b in batches && i in b ==> Sendable(i)
    modifies q, q.nodes
    ensures q.Valid() && q.queue == []
    ensures (c', n', l') == Drain(old(q.queue), batches, c, Counter(0, 0), l, u32ThreadTimeoutMs)
  {
    var dropEvent, todo := 0, batches;
    c' := c;
    l', n' := l, Counter(0, 0);
    while true
      invariant q.Valid() && forall n :: n in q.nodes ==> n in old(q.nodes) || fresh(n)
      invariant forall b, i :: b in todo && i in b ==> Sendable(i)
      invariant dropEvent == n'.dropEvent
      invariant Drain(q.queue, todo, c', n', l', u32ThreadTimeoutMs)
        == Drain(old(q.queue), batches, c, Counter(0, 0), l, u32ThreadTimeoutMs)
      decreases |todo|, |q.queue|
    {
      ghost var was := InsertedAll(q.queue, First(todo));
      l' := Note(l', First(todo));
      assert forall j :: 0 <= j < |q.nodes| ==> q.nodes[j] in q.nodes;
      var found, e := Round(q, First(todo));
      todo := Rest(todo);
      if !found { break; }
      l' := Record(l', was[0], n');
      n' := Count(n', e.kind);
      match e.kind {
        case Exit => c' := c'.(bRun := false, timeout := 0);
        case Stop => c' := c'.(timeout := 0xFFFF_FFFF);
        case StartMonitor => c' := c'.(timeout := u32ThreadTimeoutMs);
        case StartOneShot => c' := c'.(oneShot := true, timeout := u32ThreadTimeoutMs);
        case DoUserData =>
        case Drop => dropEvent := (dropEvent + 1) % 0x1_0000;
        case DropEnd => dropEvent := (dropEvent - 1) % 0x1_0000;
      }
    }
  }

  lemma {:induction false} InsertedBalanced(q: seq<Slot>, depth: int, batch: seq<Insertion>)
    requires S.Balanced(q, depth) && forall i :: i in batch ==> Sendable(i)
    ensures S.Balanced(InsertedAll(q, batch), depth)
    ensures S.Users(InsertedAll(q, batch)) == S.Users(q) + EventsIn(batch)
  {
    if batch != [] {
      var front, i := batch[..|batch| - 1], batch[|batch| - 1];
      assert i in batch;
      InsertedBalanced(q, depth, front);
      var q' := InsertedAll(q, front);
      match i
      case OneEvent(e) =>
        S.BalancedPush(q', depth, e);
        S.UsersAppend(q', [Slot(e, 0)]);
        assert S.Users([Slot(e, 0)]) == [e];
      case OneBracket =>
        S.BalancedEnclose(q', depth);
        S.UsersEnclose(q');
    }
  }

  /** Whatever others insert meanwhile, draining a balanced queue drops exactly the wrapped
      events, handles all that was pushed in push order, and leaves the counter at zero, so that
      the next call's fresh counter forgets nothing. */
  lemma {:induction false} DrainBalanced(
    q: seq<Slot>, batches: seq<seq<Insertion>>, c: Control, n: Counter, l: Log, ms: nat)
    requires S.Balanced(q, n.depth) && n.dropEvent == n.depth % U16
    requires forall i :: 0 <= i < |l.handled| ==> S.DroppedByWraps(l.handled[i])
    requires S.EventsOf(l.handled) + S.Users(q) == l.pushed
    requires forall b, i :: b in batches && i in b ==> Sendable(i)
    ensures var (c', n', l') := Drain(q, batches, c, n, l, ms);
      && n' == Counter(0, 0)
      && (forall i :: 0 <= i < |l'.handled| ==> S.DroppedByWraps(l'.handled[i]))
      && S.EventsOf(l'.handled) == l'.pushed
    decreases |batches|, |q|
  {
    var batch := First(batches);
    var q', l1 := InsertedAll(q, batch), Note(l, batch);
    InsertedBalanced(q, n.depth, batch);
    assert S.EventsOf(l1.handled) + S.Users(q') == l1.pushed by {
      Assoc(S.EventsOf(l.handled), S.Users(q), EventsIn(batch));
    }
    if q' != [] {
      var k := q'[0].ev.kind;
      RecordedUsers(q', n, l1);
      DrainBalanced(q'[1..], Rest(batches), Obey(c, k, ms), Count(n, k), Record(l1, q'[0], n), ms);
    }
  }

  /** The limit that the handled events leave: what the last one says that speaks of it. */
  function LimitAfter(h: seq<Outcome>, before: nat, ms: nat): nat {
    if h == [] then before
    else match h[|h| - 1].ev.kind
      case Exit => 0
      case Stop => FOREVER_MS
      case StartMonitor | StartOneShot => ms
      case _ => LimitAfter(h[..|h| - 1], before, ms)
  }

  /** The locals c are what c0 became by these events. */
  ghost predicate ControlIs(c: Control, c0: Control, h: seq<Outcome>, ms: nat) {
    && c.timeout == LimitAfter(h, c0.timeout, ms) && c.timedOut == c0.timedOut
    && (c.bRun <==> c0.bRun && forall i :: 0 <= i < |h| ==> !h[i].ev.kind.Exit?)
    && (c.oneShot <==> c0.oneShot || exists i :: 0 <= i < |h| && h[i].ev.kind.StartOneShot?)
  }

  lemma ObeyOne(c: Control, c0: Control, h: seq<Outcome>, o: Outcome, ms: nat)
    requires ControlIs(c, c0, h, ms)
    ensures ControlIs(Obey(c, o.ev.kind, ms), c0, h + [o], ms)
  {
    var g := h + [o];
    assert g[..|h|] == h && g[|h|] == o;
    if i :| 0 <= i < |h| && h[i].ev.kind.StartOneShot? { assert g[i].ev.kind.StartOneShot?; }
    if i :| 0 <= i < |h| && h[i].ev.kind.Exit? { assert g[i].ev.kind.Exit?; }
  }

  /** A drain leaves the locals as the events it handles say: the limit of the last one that sets
      it, to run until an EXIT, one shot from a one-shot start on. */
  lemma {:induction false} DrainObeys(
    q: seq<Slot>, batches: seq<seq<Insertion>>, c: Control, n: Counter, l: Log, ms: nat, c0: Control, from: nat)
    requires from <= |l.handled| && ControlIs(c, c0, l.handled[from..], ms)
    ensures var (c', n', l') := Drain(q, batches, c, n, l, ms);
      l.handled <= l'.handled && ControlIs(c', c0, l'.handled[from..], ms)
    decreases |batches|, |q|
  {
    var q', l1 := InsertedAll(q, First(batches)), Note(l, First(batches));
    if q' != [] {
      var k, l2 := q'[0].ev.kind, Record(l1, q'[0], n);
      if !k.Bracket() {
        ObeyOne(c, c0, l.handled[from..], Outcome(q'[0].ev, n.dropEvent != 0, q'[0].wraps), ms);
        assert l2.handled[from..] == l.handled[from..] + [l2.handled[|l.handled|]];
      }
      DrainObeys(q'[1..], Rest(batches), Obey(c, k, ms), Count(n, k), l2, ms, c0, from);
    }
  }

  lemma Assoc<T>(a: seq<T>, b: seq<T>, c: seq<T>)
    ensures a + (b + c) == a + b + c
  {
  }

  lemma RecordedUsers(q: seq<Slot>, n: Counter, l: Log)
    requires q != [] && S.EventsOf(l.handled) + S.Users(q) == l.pushed
    ensures S.EventsOf(Record(l, q[0], n).handled) + S.Users(q[1..]) == Record(l, q[0], n).pushed
  {
    var first := if q[0].ev.kind.Bracket() then [] else [q[0].ev];
    assert S.EventsOf(Record(l, q[0], n).handled) == S.EventsOf(l.handled) + first;
    Assoc(S.EventsOf(l.handled), first, S.Users(q[1..]));
  }

  /** The ring holds the queue, after an event of the head that nobody looks at. */
  ghost predicate Matches(evs: seq<Event>, q: seq<Slot>) {
    |evs| == |q| + 1 && forall i :: 0 <= i < |q| ==> evs[i + 1] == q[i].ev
  }

  lemma MatchesPush(evs: seq<Event>, q: seq<Slot>, e: Event)
    requires Matches(evs, q)
    ensures Matches(InsertAt(evs, |evs|, e), Push(q, e))
  {
  }

  lemma MatchesEnclose(evs: seq<Event>, q: seq<Slot>)
    requires Matches(evs, q)
    ensures Matches(InsertAt(InsertAt(evs, 1, DROP), |evs| + 1, DROP_END), Enclose(q))
  {
  }
}
