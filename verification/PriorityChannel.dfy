/** The bounded priority channel between submitters and the batch collector.

    The heap is the set of pending entries; `pop` removes the one that comes first in the
    order of `OrdItem::cmp` (higher priority, then older). Each operation holds the heap lock,
    so a run is a sequence of whole operations. */
module PriorityChannel {
  import opened Common

  /** `number`: the insertion counter value. */
  datatype Entry = Entry(priority: int, number: nat, item: nat)

  predicate Before(a: Entry, b: Entry) {
    a.priority > b.priority || (a.priority == b.priority && a.number < b.number)
  }

  /** A client may lower its own priority, never raise it; no header and a malformed one mean 0. */
  function ItemPriority(header: Option<int>): int { if header.Some? then Min(header.value, 0) else 0 }

  ghost predicate Distinct(heap: set<Entry>) {
    forall a, b | a in heap && b in heap && a.number == b.number :: a == b
  }

  ghost predicate IsFirst(heap: set<Entry>, e: Entry) {
    e in heap && forall x | x in heap && x != e :: Before(e, x)
  }

  lemma FirstExists(heap: set<Entry>) returns (e: Entry)
    requires heap != {} && Distinct(heap)
    ensures IsFirst(heap, e)
  {
    var a :| a in heap;
    if heap == {a} {
      e := a;
    } else {
      var rest := heap - {a};
      assert heap == {a} + rest;
      var b := FirstExists(rest);
      assert a.number != b.number;
      e := if Before(a, b) then a else b;
      assert forall x | x in heap :: x == a || x in rest;
    }
  }

  /** The entry a heap pops, whatever order it stores its entries in. */
  method Pop(heap: set<Entry>) returns (e: Entry)
    requires heap != {} && Distinct(heap)
    ensures IsFirst(heap, e)
  {
    ghost var first := FirstExists(heap);
    e :| e in heap && forall x | x in heap && x != e :: Before(e, x);
  }

  // ----- Runs -----

  datatype Op = Submit(header: Option<int>, item: nat) | Recv

  /** Everything accepted and delivered so far. `acceptedAt[k]`: deliveries made before acceptance `k`;
      `deliveredAt[k]`: acceptances made before delivery `k`. */
  datatype Log = Log(heap: set<Entry>, accepted: seq<Entry>, acceptedAt: seq<nat>,
                     delivered: seq<Entry>, deliveredAt: seq<nat>)

  /** `Step` relates logs exactly as the channel's operations change the heap. */
  ghost predicate Step(cap: nat, l: Log, op: Op, m: Log) {
    match op
    case Submit(header, item) =>
      if |l.heap| >= cap then m == l
      else
        m == Accept(l, Entry(ItemPriority(header), |l.accepted|, item))
    case Recv =>
      if l.heap == {} then m == l
      else exists e :: IsFirst(l.heap, e) && m == Deliver(l, e)
  }

  ghost function Deliver(l: Log, e: Entry): Log {
    l.(heap := l.heap - {e}, delivered := l.delivered + [e], deliveredAt := l.deliveredAt + [|l.accepted|])
  }

  ghost predicate IsRun(cap: nat, ops: seq<Op>, logs: seq<Log>) {
    && |logs| == |ops| + 1
    && logs[0] == Log({}, [], [], [], [])
    && forall k | 0 <= k < |ops| :: Step(cap, logs[k], ops[k], logs[k + 1])
  }

  ghost function Older(heap: set<Entry>, x: Entry): set<Entry> { set y | y in heap && y.number < x.number }

  ghost predicate Accounting(cap: nat, l: Log) {
    && |l.acceptedAt| == |l.accepted| && |l.deliveredAt| == |l.delivered|
    && |l.heap| <= cap
    && (forall k | 0 <= k < |l.accepted| :: l.accepted[k].number == k && l.accepted[k].priority <= 0)
    && (forall e | e in l.heap :: e.number < |l.accepted| && l.accepted[e.number] == e)
    && multiset(l.accepted) == multiset(l.delivered) + multiset(l.heap)
    && (forall i | 0 <= i < |l.delivered| ::
          && l.delivered[i].number < l.deliveredAt[i] <= |l.accepted|
          && l.accepted[l.delivered[i].number] == l.delivered[i])
  }

  /** `x` was accepted only after the delivery of `y`, or gives way to `y`. */
  ghost predicate GivesWay(y: Entry, acceptances: nat, x: Entry) { x.number >= acceptances || Before(y, x) }

  ghost predicate Ordered(l: Log)
    requires |l.deliveredAt| == |l.delivered|
  {
    && (forall i, j | 0 <= i < j < |l.delivered| :: GivesWay(l.delivered[i], l.deliveredAt[i], l.delivered[j]))
    && (forall i, x | 0 <= i < |l.delivered| && x in l.heap :: GivesWay(l.delivered[i], l.deliveredAt[i], x))
  }

  /** Deliveries an entry has let pass since its acceptance, while waiting and when delivered. */
  ghost predicate Bounded(cap: nat, l: Log) {
    && (forall k | 0 <= k < |l.acceptedAt| :: l.acceptedAt[k] <= |l.delivered|)
    && (forall x | x in l.heap && x.priority == 0 :: Waited(l, x) + |Older(l.heap, x)| <= cap - 1)
    && (forall i | 0 <= i < |l.delivered| && l.delivered[i].priority == 0 :: i - Since(l, l.delivered[i]) <= cap - 1)
  }

  /** The deliveries made before the entry was accepted, and those made since. */
  ghost function Since(l: Log, x: Entry): int { if x.number < |l.acceptedAt| then l.acceptedAt[x.number] else 0 }

  ghost function Waited(l: Log, x: Entry): int { |l.delivered| - Since(l, x) }

  ghost predicate Inv(cap: nat, l: Log) { Accounting(cap, l) && Ordered(l) && Bounded(cap, l) }

  ghost function Accept(l: Log, e: Entry): Log {
    l.(heap := l.heap + {e}, accepted := l.accepted + [e], acceptedAt := l.acceptedAt + [|l.delivered|])
  }

  lemma AcceptKeepsAccounting(cap: nat, l: Log, e: Entry)
    requires Accounting(cap, l) && |l.heap| < cap && e.number == |l.accepted| && e.priority <= 0
    ensures Accounting(cap, Accept(l, e))
  {
    assert e !in l.heap;
    assert multiset(l.heap + {e}) == multiset(l.heap) + multiset{e};
  }

  lemma AcceptKeepsOrder(cap: nat, l: Log, e: Entry)
    requires Accounting(cap, l) && Ordered(l) && e.number == |l.accepted|
    ensures Ordered(Accept(l, e))
  {
  }

  lemma AcceptKeepsBound(cap: nat, l: Log, e: Entry)
    requires Bounded(cap, l) && |l.heap| < cap && e.number == |l.accepted| == |l.acceptedAt|
    requires forall x | x in l.heap || x in l.delivered :: x.number < |l.accepted|
    ensures Bounded(cap, Accept(l, e))
  {
    var m := Accept(l, e);
    forall x | x in m.heap && x.priority == 0 ensures Waited(m, x) + |Older(m.heap, x)| <= cap - 1 {
      if x == e {
        SubsetSize(Older(m.heap, e), l.heap);
      } else {
        assert Older(m.heap, x) == Older(l.heap, x);
      }
    }
    forall i | 0 <= i < |m.delivered| && m.delivered[i].priority == 0 ensures i - Since(m, m.delivered[i]) <= cap - 1 {
      assert m.delivered[i] == l.delivered[i] && l.delivered[i] in l.delivered;
    }
  }

  lemma SubmitKeeps(cap: nat, l: Log, header: Option<int>, item: nat, m: Log)
    requires Inv(cap, l) && Step(cap, l, Submit(header, item), m)
    ensures Inv(cap, m)
  {
    if |l.heap| < cap {
      var e := Entry(ItemPriority(header), |l.accepted|, item);
      AcceptKeepsAccounting(cap, l, e);
      AcceptKeepsOrder(cap, l, e);
      assert forall x | x in l.delivered :: x.number < |l.accepted|;
      AcceptKeepsBound(cap, l, e);
    }
  }

  lemma DeliverKeepsAccounting(cap: nat, l: Log, e: Entry)
    requires Accounting(cap, l) && e in l.heap
    ensures Accounting(cap, Deliver(l, e))
  {
    assert multiset(l.heap) == multiset(l.heap - {e}) + multiset{e};
    assert l.accepted[e.number] == e;
  }

  lemma DeliverKeepsOrder(cap: nat, l: Log, e: Entry)
    requires Accounting(cap, l) && Ordered(l) && IsFirst(l.heap, e)
    ensures Ordered(Deliver(l, e))
  {
  }

  lemma DeliverKeepsBound(cap: nat, l: Log, e: Entry)
    requires Inv(cap, l) && IsFirst(l.heap, e) && Accounting(cap, Deliver(l, e))
    ensures Bounded(cap, Deliver(l, e))
  {
    var m := Deliver(l, e);
    forall x | x in m.heap && x.priority == 0
      ensures Waited(m, x) + |Older(m.heap, x)| <= cap - 1
    {
      assert Before(e, x);
      assert l.accepted[e.number].priority <= 0;
      assert Older(l.heap, x) == Older(m.heap, x) + {e};
    }
  }

  lemma DeliverKeeps(cap: nat, l: Log, e: Entry)
    requires Inv(cap, l) && IsFirst(l.heap, e)
    ensures Inv(cap, Deliver(l, e))
  {
    DeliverKeepsAccounting(cap, l, e);
    DeliverKeepsOrder(cap, l, e);
    DeliverKeepsBound(cap, l, e);
  }

  lemma {:induction false} RunKeepsInv(cap: nat, ops: seq<Op>, logs: seq<Log>, k: nat)
    requires cap >= 1 && IsRun(cap, ops, logs) && k < |logs|
    ensures Inv(cap, logs[k])
  {
    if k > 0 {
      RunKeepsInv(cap, ops, logs, k - 1);
      assert Step(cap, logs[k - 1], ops[k - 1], logs[k]);
      match ops[k - 1]
      case Submit(header, item) => SubmitKeeps(cap, logs[k - 1], header, item, logs[k]);
      case Recv =>
        if logs[k - 1].heap != {} {
          var e :| IsFirst(logs[k - 1].heap, e) && logs[k] == Deliver(logs[k - 1], e);
          DeliverKeeps(cap, logs[k - 1], e);
        }
    }
  }

  // ----- The shared object -----

  ghost predicate EndsAt(cap: nat, ops: seq<Op>, logs: seq<Log>, l: Log) { IsRun(cap, ops, logs) && logs[|ops|] == l }

  ghost predicate Reached(cap: nat, l: Log) { exists ops, logs :: EndsAt(cap, ops, logs, l) }

  lemma ReachedStart(cap: nat)
    ensures Reached(cap, Log({}, [], [], [], []))
  {
    assert EndsAt(cap, [], [Log({}, [], [], [], [])], Log({}, [], [], [], []));
  }

  lemma ReachedStep(cap: nat, l: Log, op: Op, m: Log)
    requires Reached(cap, l) && Step(cap, l, op, m)
    ensures Reached(cap, m)
  {
    var ops, logs :| EndsAt(cap, ops, logs, l);
    assert EndsAt(cap, ops + [op], logs + [m], m);
  }

  lemma ReachedInv(cap: nat, l: Log)
    requires cap >= 1 && Reached(cap, l)
    ensures Inv(cap, l) && Distinct(l.heap)
  {
    var ops, logs :| EndsAt(cap, ops, logs, l);
    RunKeepsInv(cap, ops, logs, |ops|);
  }

  /** `log` is the channel's history; a valid object stands at the end of some run, so the theorems below hold of it. */
  class Channel {
    const cap: nat
    var heap: set<Entry>
    var next: nat
    ghost var log: Log

    ghost predicate Valid()
      reads this
    {
      1 <= cap && log.heap == heap && |log.accepted| == next && Reached(cap, log)
    }

    constructor (capacity: nat)
      ensures Valid() && cap == Max(capacity, 1) && log == Log({}, [], [], [], [])
    {
      cap := Max(capacity, 1);
      heap := {};
      next := 0;
      log := Log({}, [], [], [], []);
      ReachedStart(Max(capacity, 1));
    }

    /** The priority is the one `try_submit` reads off the item's header. */
    method TrySend(item: nat, header: Option<int>) returns (accepted: bool)
      requires Valid()
      modifies this
      ensures Valid() && Step(cap, old(log), Submit(header, item), log)
      ensures accepted <==> |log.accepted| == |old(log).accepted| + 1
      ensures accepted <==> |old(heap)| < cap
    {
      if |heap| >= cap {
        return false;
      }
      var e := Entry(ItemPriority(header), next, item);
      heap := heap + {e};
      log := Accept(log, e);
      next := next + 1;
      ReachedStep(cap, old(log), Submit(header, item), log);
      accepted := true;
    }

    method TryRecv() returns (r: Option<Entry>)
      requires Valid()
      modifies this
      ensures Valid() && Step(cap, old(log), Recv, log)
      ensures log.delivered == old(log).delivered + if r.Some? then [r.value] else []
      ensures r.None? <==> old(heap) == {}
    {
      if heap == {} {
        return None;
      }
      assert Distinct(heap) by { ReachedInv(cap, log); }
      var e := Pop(heap);
      heap := heap - {e};
      log := Deliver(log, e);
      ReachedStep(cap, old(log), Recv, log);
      r := Some(e);
    }
  }

  // ----- Theorems over every run -----

  /** Nothing is lost or duplicated, and the channel never holds more than its capacity. */
  lemma Conservation(cap: nat, ops: seq<Op>, logs: seq<Log>)
    requires cap >= 1 && IsRun(cap, ops, logs)
    ensures var l := logs[|ops|];
            && multiset(l.accepted) == multiset(l.delivered) + multiset(l.heap)
            && |l.accepted| == |l.delivered| + |l.heap| && |l.heap| <= cap
  {
    RunKeepsInv(cap, ops, logs, |ops|);
    var l := logs[|ops|];
    assert |multiset(l.accepted)| == |l.accepted| && |multiset(l.delivered)| == |l.delivered|;
  }

  /** Equal priorities leave in the order they were accepted, over the whole run. */
  lemma FifoWithinPriority(cap: nat, ops: seq<Op>, logs: seq<Log>, i: nat, j: nat)
    requires cap >= 1 && IsRun(cap, ops, logs)
    requires i < |logs[|ops|].delivered| && j < |logs[|ops|].delivered|
    requires logs[|ops|].delivered[i].priority == logs[|ops|].delivered[j].priority
    ensures i < j ==> logs[|ops|].delivered[i].number < logs[|ops|].delivered[j].number
  {
    RunKeepsInv(cap, ops, logs, |ops|);
    var l := logs[|ops|];
    if i < j {
      assert GivesWay(l.delivered[i], l.deliveredAt[i], l.delivered[j]);
    }
  }

  lemma ZeroNotOvertaken(cap: nat, ops: seq<Op>, logs: seq<Log>, x: Entry, i: nat)
    requires cap >= 1 && IsRun(cap, ops, logs)
    requires x in logs[|ops|].accepted && x.priority == 0
    requires i < |logs[|ops|].delivered| && logs[|ops|].delivered[i].number > x.number
    ensures x in logs[|ops|].delivered[..i]
  {
    RunKeepsInv(cap, ops, logs, |ops|);
    var l := logs[|ops|];
    assert x in multiset(l.accepted);
    assert l.accepted[l.delivered[i].number].priority <= 0;
    assert !GivesWay(l.delivered[i], l.deliveredAt[i], x);
    assert x in multiset(l.delivered);
    var j :| 0 <= j < |l.delivered| && l.delivered[j] == x;
    assert l.delivered[..i][j] == x;
  }

  lemma ZeroBounded(cap: nat, ops: seq<Op>, logs: seq<Log>, x: Entry)
    requires cap >= 1 && IsRun(cap, ops, logs)
    requires x in logs[|ops|].accepted && x.priority == 0
    ensures var l := logs[|ops|];
            && x.number < |l.acceptedAt|
            && (|l.delivered| >= l.acceptedAt[x.number] + cap ==> x in l.delivered)
            && (forall i | 0 <= i < |l.delivered| && l.delivered[i] == x :: i - l.acceptedAt[x.number] <= cap - 1)
  {
    RunKeepsInv(cap, ops, logs, |ops|);
    var l := logs[|ops|];
    assert x in multiset(l.accepted);
    if x !in l.heap {
      assert x in multiset(l.delivered);
    }
  }

  // ----- The same, by what was submitted -----

  /** Operation `k` is a submission that the channel accepts. */
  ghost predicate Accepts(ops: seq<Op>, logs: seq<Log>, k: nat) {
    k < |ops| && |logs| == |ops| + 1 && ops[k].Submit? && |logs[k + 1].accepted| > |logs[k].accepted|
  }

  /** The entry that submission became. */
  ghost function EntryOf(ops: seq<Op>, logs: seq<Log>, k: nat): Entry
    requires Accepts(ops, logs, k)
  {
    logs[k + 1].accepted[|logs[k].accepted|]
  }

  /** No header, or one that does not ask for less than the default. */
  predicate Default(header: Option<int>) { header.None? || header.value >= 0 }

  lemma {:induction false} AcceptedStays(cap: nat, ops: seq<Op>, logs: seq<Log>, k: nat, m: nat)
    requires IsRun(cap, ops, logs) && k <= m <= |ops|
    ensures logs[k].accepted <= logs[m].accepted && logs[k].acceptedAt <= logs[m].acceptedAt
    decreases m
  {
    if k < m {
      AcceptedStays(cap, ops, logs, k, m - 1);
      assert Step(cap, logs[m - 1], ops[m - 1], logs[m]);
    }
  }

  /** What a submission becomes: numbered by the acceptances before it, and with priority 0 by default or exactly the
      negative one its header asks for. */
  lemma SubmissionBecomes(cap: nat, ops: seq<Op>, logs: seq<Log>, k: nat)
    requires cap >= 1 && IsRun(cap, ops, logs) && Accepts(ops, logs, k)
    ensures var e, l := EntryOf(ops, logs, k), logs[|ops|];
            && e.item == ops[k].item && e.number == |logs[k].accepted| < |l.accepted|
            && e.priority == (if Default(ops[k].header) then 0 else ops[k].header.value)
            && l.accepted[e.number] == e && |l.acceptedAt| == |l.accepted|
            && l.acceptedAt[e.number] == |logs[k].delivered|
  {
    assert Step(cap, logs[k], ops[k], logs[k + 1]);
    RunKeepsInv(cap, ops, logs, k);
    RunKeepsInv(cap, ops, logs, |ops|);
    AcceptedStays(cap, ops, logs, k + 1, |ops|);
  }

  lemma LaterIsNumberedLater(cap: nat, ops: seq<Op>, logs: seq<Log>, k: nat, j: nat)
    requires cap >= 1 && IsRun(cap, ops, logs) && Accepts(ops, logs, k) && Accepts(ops, logs, j) && k < j
    ensures EntryOf(ops, logs, k).number < EntryOf(ops, logs, j).number
  {
    SubmissionBecomes(cap, ops, logs, k);
    SubmissionBecomes(cap, ops, logs, j);
    AcceptedStays(cap, ops, logs, k + 1, j);
  }

  /** A default submission is delivered before every submission accepted after it, whatever that one's header asks. */
  lemma DefaultNotOvertakenByLater(cap: nat, ops: seq<Op>, logs: seq<Log>, k: nat, j: nat, i: nat)
    requires cap >= 1 && IsRun(cap, ops, logs) && Accepts(ops, logs, k) && Accepts(ops, logs, j) && k < j
    requires Default(ops[k].header) && i < |logs[|ops|].delivered| && logs[|ops|].delivered[i] == EntryOf(ops, logs, j)
    ensures EntryOf(ops, logs, k) in logs[|ops|].delivered[..i]
  {
    SubmissionBecomes(cap, ops, logs, k);
    LaterIsNumberedLater(cap, ops, logs, k, j);
    ZeroNotOvertaken(cap, ops, logs, EntryOf(ops, logs, k), i);
  }

  /** At most `cap - 1` deliveries pass a default submission between its acceptance and its own delivery. */
  lemma BoundedOvertaking(cap: nat, ops: seq<Op>, logs: seq<Log>, k: nat)
    requires cap >= 1 && IsRun(cap, ops, logs) && Accepts(ops, logs, k) && Default(ops[k].header)
    ensures var e, l, before := EntryOf(ops, logs, k), logs[|ops|], |logs[k].delivered|;
            && (|l.delivered| >= before + cap ==> e in l.delivered)
            && (forall i | 0 <= i < |l.delivered| && l.delivered[i] == e :: i - before <= cap - 1)
  {
    SubmissionBecomes(cap, ops, logs, k);
    ZeroBounded(cap, ops, logs, EntryOf(ops, logs, k));
  }

  /** A submission that lowers itself is not delivered while one that asks for more is pending. */
  lemma LoweredYields(cap: nat, ops: seq<Op>, logs: seq<Log>, k: nat, j: nat, m: nat)
    requires cap >= 1 && IsRun(cap, ops, logs) && Accepts(ops, logs, k) && Accepts(ops, logs, j)
    requires ops[k].header.Some? && ops[k].header.value < 0
    requires Default(ops[j].header) || ops[j].header.value > ops[k].header.value
    requires m < |ops| && EntryOf(ops, logs, k) in logs[m].heap && EntryOf(ops, logs, j) in logs[m].heap
    ensures EntryOf(ops, logs, k) in logs[m + 1].heap
  {
    SubmissionBecomes(cap, ops, logs, k);
    SubmissionBecomes(cap, ops, logs, j);
    assert Step(cap, logs[m], ops[m], logs[m + 1]);
  }
}
